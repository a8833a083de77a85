// The prefetching list iterator (src/client.cc:281-395, include/miniocpp/client.h:42-86).
module Listing {
  import opened Wrappers

  type Key = string

  /** The listing arguments that pagination reads or writes (include/miniocpp/args.h:240-255). */
  datatype ListArgs = ListArgs(
    recursive: bool, delimiter: string, prefix: string, maxKeys: nat,
    useApiV1: bool, includeVersions: bool,
    marker: Key, startAfter: Key, continuationToken: string, keyMarker: Key, versionIdMarker: string)

  /** What each of the three calls sends (src/args.cc:252-302, src/baseclient.cc:57-66 and 1307-1385). */
  datatype Request =
    | V1Request(delimiter: string, prefix: string, maxKeys: nat, marker: Key)
    | V2Request(delimiter: string, prefix: string, maxKeys: nat, startAfter: Key, continuationToken: string)
    | VersionsRequest(delimiter: string, prefix: string, maxKeys: nat, keyMarker: Key, versionIdMarker: string)

  datatype Kind = Object | CommonPrefix | DeleteMarker

  datatype Item = Item(name: Key, version: string, kind: Kind)

  /** What a server answers: its entries, the common prefixes, and the markers it names. */
  datatype Reply = Reply(
    entries: seq<Item>, prefixes: seq<Item>, truncated: bool,
    nextMarker: Key, startAfter: Key, nextContinuationToken: string, nextKeyMarker: Key, nextVersionIdMarker: string)

  /** A parsed response; a failed request leaves an empty one. */
  datatype Page = Page(
    contents: seq<Item>, truncated: bool,
    nextMarker: Key, startAfter: Key, nextContinuationToken: string, nextKeyMarker: Key, nextVersionIdMarker: string)

  const EMPTY_PAGE: Page := Page([], false, "", "", "", "", "")

  /** The items with this kind, or without it. */
  function OfKind(items: seq<Item>, deleted: bool): seq<Item> {
    if items == [] then []
    else (if (items[0].kind == DeleteMarker) == deleted then [items[0]] else []) + OfKind(items[1..], deleted)
  }

  /**
   * Parsing collects the objects, then the prefixes, then the delete markers, and gives a truncated
   * page without a marker the name of its last object (src/response.cc:305-330).
   */
  function Parsed(r: Reply): Page {
    var objects := OfKind(r.entries, false);
    var marker :=
      if r.truncated && r.nextMarker == "" then if objects == [] then "" else objects[|objects| - 1].name
      else r.nextMarker;
    Page(objects + r.prefixes + OfKind(r.entries, true), r.truncated,
         marker, r.startAfter, r.nextContinuationToken, r.nextKeyMarker, r.nextVersionIdMarker)
  }

  datatype Api = V1 | V2 | Versions

  /** Which call a request becomes (src/client.cc:335-354). */
  function ApiOf(a: ListArgs): Api {
    if a.includeVersions || a.versionIdMarker != "" then Versions else if a.useApiV1 then V1 else V2
  }

  /** UpdatePaginationArgs (src/client.cc:305-315). */
  function NextArgs(a: ListArgs, p: Page): ListArgs {
    match ApiOf(a)
    case Versions => a.(keyMarker := p.nextKeyMarker, versionIdMarker := p.nextVersionIdMarker)
    case V1 => a.(marker := p.nextMarker)
    case V2 => a.(startAfter := p.startAfter, continuationToken := p.nextContinuationToken)
  }

  /** The request made of some arguments (src/client.cc:329-354). */
  function Sent(a: ListArgs): Request {
    var delimiter := if a.recursive then "" else if a.delimiter == "" then "/" else a.delimiter;
    var maxKeys := if a.maxKeys > 0 then a.maxKeys else 1000;
    match ApiOf(a)
    case Versions => VersionsRequest(delimiter, a.prefix, maxKeys, a.keyMarker, a.versionIdMarker)
    case V1 => V1Request(delimiter, a.prefix, maxKeys, a.marker)
    case V2 => V2Request(delimiter, a.prefix, maxKeys, a.startAfter, a.continuationToken)
  }

  /** A server that may answer every request differently, or not at all. */
  type Server = (nat, Request) -> Option<Reply>

  function Answer(server: Server, k: nat, a: ListArgs): Page {
    match server(k, Sent(a))
    case Some(r) => Parsed(r)
    case None => EMPTY_PAGE
  }

  // ---------- the pages a server has to give ----------

  function ArgsAt(server: Server, a: ListArgs, k: nat): ListArgs
    decreases k, 0
  {
    if k == 0 then a else NextArgs(ArgsAt(server, a, k - 1), PageAt(server, a, k - 1))
  }

  function PageAt(server: Server, a: ListArgs, k: nat): Page
    decreases k, 1
  {
    Answer(server, k, ArgsAt(server, a, k))
  }

  /** Page k asks for another one: it has items and says there are more. */
  predicate Continues(server: Server, a: ListArgs, k: nat) {
    PageAt(server, a, k).contents != [] && PageAt(server, a, k).truncated
  }

  predicate Reached(server: Server, a: ListArgs, k: nat) {
    forall j :: 0 <= j < k ==> Continues(server, a, j)
  }

  /** The items of the first k pages. */
  function Items(server: Server, a: ListArgs, k: nat): seq<Item> {
    if k == 0 then [] else Items(server, a, k - 1) + PageAt(server, a, k - 1).contents
  }

  /** The first k requests that a listing sends. */
  function RequestsTo(server: Server, a: ListArgs, k: nat): seq<Request> {
    if k == 0 then [] else RequestsTo(server, a, k - 1) + [Sent(ArgsAt(server, a, k - 1))]
  }

  /** A request under way: which one it is, and the arguments it took along. */
  datatype Fetch = Fetch(index: nat, args: ListArgs)

  class ListObjectsResult {
    const server: Server
    ghost const start: ListArgs

    var args: ListArgs
    var failed: bool
    var resp: Page
    var itr: nat
    var future: Option<Fetch>   // the request whose answer is being fetched
    var requests: seq<Request>       // every request sent

    ghost var page: nat              // which page is in `resp`

    /** Item `itr` of page `page` is current, and the next page, if there is one, is on its way. */
    ghost predicate Valid()
      reads this
    {
      && Reached(server, start, page)
      && resp == PageAt(server, start, page)
      && itr <= |resp.contents|
      && failed == (resp.contents == [])
      && (Continues(server, start, page) ==> itr < |resp.contents| && future == Some(Fetch(page + 1, args)) && args == ArgsAt(server, start, page + 1))
      && (!Continues(server, start, page) ==> future.None?)
      && requests == RequestsTo(server, start, if future.Some? then page + 2 else page + 1)
    }

    /** How many items have been passed. */
    ghost function Position(): nat
      reads this
    {
      |Items(server, start, page)| + itr
    }

    /** The items of all pages up to the current one. */
    ghost function Seen(): seq<Item>
      reads this
    {
      Items(server, start, page + 1)
    }

    constructor (server: Server, args: ListArgs)
      ensures Valid() && Position() == 0 && page == 0
      ensures this.server == server && start == args
    {
      this.server, this.start, this.args := server, args, args;
      failed, resp, itr, future, requests := false, EMPTY_PAGE, 0, None, [];
      page := 0;
      new;
      StartPrefetch();
      Populate();
      assert RequestsTo(server, start, 1) == [Sent(args)];
    }

    method UpdatePaginationArgs()
      modifies this`args
      ensures args == NextArgs(old(args), resp)
    {
      if args.includeVersions || args.versionIdMarker != "" {
        args := args.(keyMarker := resp.nextKeyMarker, versionIdMarker := resp.nextVersionIdMarker);
      } else if args.useApiV1 {
        args := args.(marker := resp.nextMarker);
      } else {
        args := args.(startAfter := resp.startAfter, continuationToken := resp.nextContinuationToken);
      }
    }

    method StartPrefetch()
      modifies this`future, this`requests
      ensures future == Some(Fetch(old(|requests|), args)) && requests == old(requests) + [Sent(args)]
    {
      future := Some(Fetch(|requests|, args));
      requests := requests + [Sent(args)];
    }

    /** Takes the answer that was being fetched, and asks for the one after it if there is one. */
    method Populate()
      requires future.Some? && !failed
      modifies this`resp, this`failed, this`itr, this`args, this`future, this`requests
      ensures resp == Answer(server, old(future.value.index), old(future.value.args)) && itr == 0
      ensures failed == (resp.contents == [])
      ensures if resp.contents != [] && resp.truncated
              then args == NextArgs(old(args), resp) && future == Some(Fetch(old(|requests|), args))
                   && requests == old(requests) + [Sent(args)]
              else future.None? && args == old(args) && requests == old(requests)
    {
      resp := Answer(server, future.value.index, future.value.args);
      future := None;
      if failed || resp.contents == [] {
        failed := true;
      }
      itr := 0;
      if !failed && resp.truncated {
        UpdatePaginationArgs();
        StartPrefetch();
      }
    }

    /** operator bool: another item is there exactly when not all pages up to the last have been passed. */
    method HasCurrent() returns (more: bool)
      requires Valid()
      ensures more <==> Position() < |Seen()|
      ensures !more ==> !Continues(server, start, page)
    {
      if future.Some? && resp.contents == [] {
        assert false;
      }
      more := itr < |resp.contents|;
    }

    /** operator*: the item at the current position of all pages joined. */
    method Current() returns (item: Item)
      requires Valid() && Position() < |Seen()|
      ensures item == Seen()[Position()]
    {
      item := resp.contents[itr];
    }

    /** operator++ moves by exactly one item, over page borders too, one request ahead at most. */
    method Advance()
      requires Valid() && Position() < |Seen()|
      modifies this
      ensures Valid() && Position() == old(Position()) + 1
      ensures old(Seen()) <= Seen() && old(requests) <= requests
      ensures old(page) <= page <= old(page) + 1
    {
      hide PageAt, ArgsAt;
      itr := itr + 1;
      if !failed && itr == |resp.contents| && resp.truncated {
        NextPage();
      }
    }

    /** The current page is used up, and the next one is being fetched. */
    method NextPage()
      requires Reached(server, start, page) && Continues(server, start, page)
      requires resp == PageAt(server, start, page) && itr == |resp.contents| && !failed
      requires args == ArgsAt(server, start, page + 1) && future == Some(Fetch(page + 1, args))
      requires requests == RequestsTo(server, start, page + 2)
      modifies this
      ensures Valid() && page == old(page) + 1 && itr == 0 && old(requests) <= requests
    {
      hide PageAt, ArgsAt, NextArgs, Answer, RequestsTo, Items, Continues;
      RequestCount(server, start, page + 2);
      NextStep(server, start, page + 1);
      NextRequest(server, start, page + 2);
      WhatContinues(server, start, page + 1);
      page := page + 1;
      Populate();
    }

    /** Where a listing stands whose page `last` is the first that does not continue. */
    lemma NotPast(last: nat)
      requires Valid() && Reached(server, start, last) && !Continues(server, start, last)
      ensures Seen() <= Items(server, start, last + 1)
      ensures !Continues(server, start, page) ==>
        Seen() == Items(server, start, last + 1) && requests == RequestsTo(server, start, last + 1)
    {
      hide PageAt, ArgsAt, Items, RequestsTo;
      assert page <= last && (!Continues(server, start, page) ==> page == last) by {
        hide Continues;
      }
      ItemsGrow(server, start, page + 1, last + 1);
    }
  }

  /** The arguments and the page after page k are what page k leads to. */
  lemma NextStep(server: Server, a: ListArgs, k: nat)
    ensures PageAt(server, a, k) == Answer(server, k, ArgsAt(server, a, k))
    ensures ArgsAt(server, a, k + 1) == NextArgs(ArgsAt(server, a, k), PageAt(server, a, k))
  {
  }

  lemma NextRequest(server: Server, a: ListArgs, k: nat)
    ensures RequestsTo(server, a, k + 1) == RequestsTo(server, a, k) + [Sent(ArgsAt(server, a, k))]
  {
  }

  lemma WhatContinues(server: Server, a: ListArgs, k: nat)
    ensures Continues(server, a, k) <==> PageAt(server, a, k).contents != [] && PageAt(server, a, k).truncated
  {
  }

  lemma RequestCount(server: Server, a: ListArgs, k: nat)
    ensures |RequestsTo(server, a, k)| == k
  {
  }

  lemma {:induction false} ItemsGrow(server: Server, a: ListArgs, k: nat, n: nat)
    requires k <= n
    ensures Items(server, a, k) <= Items(server, a, n)
    decreases n
  {
    hide PageAt;
    if k < n {
      ItemsGrow(server, a, k, n - 1);
    }
  }

  /** The caller's loop over a listing whose page `last` is the first that does not continue. */
  method ListAll(server: Server, args: ListArgs, ghost last: nat) returns (items: seq<Item>, requests: seq<Request>)
    requires Reached(server, args, last) && !Continues(server, args, last)
    ensures items == Items(server, args, last + 1)
    ensures requests == RequestsTo(server, args, last + 1)
  {
    hide PageAt, ArgsAt, Continues, Items, RequestsTo, ListObjectsResult.Valid, ListObjectsResult.Position;
    var result := new ListObjectsResult(server, args);
    items := [];
    var more := result.HasCurrent();
    while more
      invariant fresh(result) && result.Valid() && result.server == server && result.start == args
      invariant more <==> result.Position() < |result.Seen()|
      invariant !more ==> !Continues(server, args, result.page)
      invariant result.Position() <= |result.Seen()| && items == result.Seen()[..result.Position()]
      decreases |Items(server, args, last + 1)| - result.Position()
    {
      result.NotPast(last);
      var item := result.Current();
      ghost var seen, position := result.Seen(), result.Position();
      result.Advance();
      assert result.Seen()[..position + 1] == seen[..position] + [seen[position]];
      items := items + [item];
      more := result.HasCurrent();
    }
    result.NotPast(last);
    requests := result.requests;
  }

  /** A request that fails ends the listing and adds nothing: what was listed is a prefix. */
  lemma FailureEnds(server: Server, a: ListArgs, k: nat)
    requires server(k, Sent(ArgsAt(server, a, k))).None?
    ensures !Continues(server, a, k) && Items(server, a, k + 1) == Items(server, a, k)
  {
  }

  // ---------- what the requests of a listing carry ----------

  /** Paging leaves the choices of the caller alone, and a version marker only versions touch. */
  lemma {:induction false} ChoiceKept(server: Server, a: ListArgs, k: nat)
    ensures var args := ArgsAt(server, a, k);
      && args.includeVersions == a.includeVersions && args.useApiV1 == a.useApiV1
      && args.recursive == a.recursive && args.delimiter == a.delimiter
      && args.prefix == a.prefix && args.maxKeys == a.maxKeys
      && (a.versionIdMarker == "" && !a.includeVersions ==> args.versionIdMarker == "")
    decreases k
  {
    hide PageAt;
    if k > 0 {
      ChoiceKept(server, a, k - 1);
      NextStep(server, a, k - 1);
    }
  }

  lemma {:induction false} RequestAt(server: Server, a: ListArgs, k: nat, i: nat)
    requires i < k
    ensures |RequestsTo(server, a, k)| == k && RequestsTo(server, a, k)[i] == Sent(ArgsAt(server, a, i))
    decreases k
  {
    hide ArgsAt, Sent;
    if k > 0 && i < k - 1 {
      RequestAt(server, a, k - 1, i);
    } else {
      RequestCount(server, a, k - 1);
    }
  }

  /**
   * Every request of a listing carries the caller's prefix, an empty delimiter if the listing is
   * recursive and '/' if it is not and the caller gave none, and at least one key to list.
   */
  lemma EveryRequestCarries(server: Server, a: ListArgs, k: nat, i: nat)
    requires i < k
    ensures |RequestsTo(server, a, k)| == k
    ensures var r := RequestsTo(server, a, k)[i];
      && r.prefix == a.prefix
      && (a.recursive ==> r.delimiter == "")
      && (!a.recursive && a.delimiter == "" ==> r.delimiter == "/")
      && (!a.recursive && a.delimiter != "" ==> r.delimiter == a.delimiter)
      && r.maxKeys == (if a.maxKeys == 0 then 1000 else a.maxKeys)
  {
    RequestAt(server, a, k, i);
    ChoiceKept(server, a, i);
    hide ArgsAt, RequestsTo;
  }

  /** The first request is the caller's: the API it asked for, from the place it asked for. */
  lemma FirstRequest(server: Server, a: ListArgs, k: nat)
    requires k > 0
    ensures |RequestsTo(server, a, k)| == k
    ensures var r := RequestsTo(server, a, k)[0];
      && (r.VersionsRequest? <==> a.includeVersions || a.versionIdMarker != "")
      && (r.V1Request? <==> !a.includeVersions && a.versionIdMarker == "" && a.useApiV1)
      && (r.V1Request? ==> r.marker == a.marker)
      && (r.V2Request? ==> r.startAfter == a.startAfter && r.continuationToken == a.continuationToken)
      && (r.VersionsRequest? ==> r.keyMarker == a.keyMarker && r.versionIdMarker == a.versionIdMarker)
  {
    RequestAt(server, a, k, 0);
    hide RequestsTo;
  }

  /** Every later request goes on where the page before it ended. */
  lemma LaterRequest(server: Server, a: ListArgs, k: nat, i: nat)
    requires 0 < i < k
    ensures |RequestsTo(server, a, k)| == k
    ensures var r, p := RequestsTo(server, a, k)[i], PageAt(server, a, i - 1);
      match RequestsTo(server, a, k)[i - 1]
      case V1Request(_, _, _, _) => r.V1Request? && r.marker == p.nextMarker
      case V2Request(_, _, _, _, _) =>
        r.V2Request? && r.startAfter == p.startAfter && r.continuationToken == p.nextContinuationToken
      case VersionsRequest(_, _, _, _, _) =>
        r.VersionsRequest? ==> r.keyMarker == p.nextKeyMarker && r.versionIdMarker == p.nextVersionIdMarker
  {
    RequestAt(server, a, k, i);
    RequestAt(server, a, k, i - 1);
    NextStep(server, a, i - 1);
    hide ArgsAt, RequestsTo, PageAt;
  }

  lemma FirstArgs(server: Server, a: ListArgs)
    ensures ArgsAt(server, a, 0) == a
  {
  }

  /**
   * A listing of n + 1 requests sends all of them to the API of its first one exactly when versions
   * were asked for outright, or no version marker was given, or every page that continued handed
   * out another version marker. Otherwise it goes on as a listing of objects.
   */
  lemma ApiIsKept(server: Server, a: ListArgs, n: nat)
    ensures (forall k: nat :: k <= n ==> ApiOf(ArgsAt(server, a, k)) == ApiOf(a)) <==>
      || a.includeVersions || a.versionIdMarker == ""
      || (forall k: nat :: k < n ==> PageAt(server, a, k).nextVersionIdMarker != "")
  {
    hide PageAt, ArgsAt;
    if a.includeVersions || a.versionIdMarker == "" {
      forall k: nat | k <= n ensures ApiOf(ArgsAt(server, a, k)) == ApiOf(a) {
        ChoiceKept(server, a, k);
      }
    } else {
      MarkersHandedOut(server, a, n);
    }
  }

  lemma {:induction false} MarkersHandedOut(server: Server, a: ListArgs, n: nat)
    requires !a.includeVersions && a.versionIdMarker != ""
    ensures (forall k: nat :: k <= n ==> ApiOf(ArgsAt(server, a, k)) == ApiOf(a)) <==>
      forall k: nat :: k < n ==> PageAt(server, a, k).nextVersionIdMarker != ""
    decreases n
  {
    FirstArgs(server, a);
    hide PageAt, ArgsAt;
    if n > 0 {
      MarkersHandedOut(server, a, n - 1);
      ChoiceKept(server, a, n);
      ChoiceKept(server, a, n - 1);
      NextStep(server, a, n - 1);
    }
  }

  const UNMARKED: Reply := Reply([Item("a", "v1", Object)], [], true, "", "", "", "", "")
  const FROM_VERSION: ListArgs := ListArgs(true, "", "", 0, true, false, "", "", "", "a", "v1")

  /** Such a listing: it begins at a version, and its pages say that more follows but name no marker. */
  lemma ApiIsLost()
    ensures var server: Server := (k, r) => Some(UNMARKED);
      && Reached(server, FROM_VERSION, 1)
      && Sent(ArgsAt(server, FROM_VERSION, 0)).VersionsRequest?
      && Sent(ArgsAt(server, FROM_VERSION, 1)).V1Request?
  {
    var server: Server := (k, r) => Some(UNMARKED);
    FirstArgs(server, FROM_VERSION);
    NextStep(server, FROM_VERSION, 0);
    WhatContinues(server, FROM_VERSION, 0);
    assert OfKind(UNMARKED.entries[1..], false) == [];
    hide PageAt, ArgsAt;
  }
}
