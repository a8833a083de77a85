// Recursive listing of versions: the pair of a key and a version ID stands for a place in the
// bucket (src/client.cc:306-308).
module ListingVersions {
  import opened Wrappers
  import opened Listing
  import opened ListingRuns
  import opened ListingV1
  import opened ListingV2

  /** How many entries stand before the place of a pair of markers; none before the empty pair. */
  type PairPlaces = (Key, string) -> nat

  /** Versions and delete markers in the server's order, no pair of name and version twice. */
  ghost predicate ValidVersions(entries: seq<Item>, place: PairPlaces) {
    && Distinct(entries)
    && place("", "") == 0
    && (forall i :: 0 <= i < |entries| ==>
          entries[i].version != "" && place(entries[i].name, entries[i].version) == i + 1)
  }

  function FromPair(entries: seq<Item>, place: PairPlaces, prefix: string, key: Key, version: string): seq<Item> {
    Filter(Behind(entries, place(key, version)), WithPrefix(prefix))
  }

  /** A truncated page names its last entry. */
  ghost predicate Replies3(entries: seq<Item>, place: PairPlaces, q: Request, r: Reply)
    requires q.VersionsRequest?
  {
    var all := FromPair(entries, place, q.prefix, q.keyMarker, q.versionIdMarker);
    exists n: nat :: n >= 1 && Cut(all, r, n) &&
      (n < |all| ==> r.nextKeyMarker == all[n - 1].name && r.nextVersionIdMarker == all[n - 1].version)
  }

  ghost predicate ServesVersions(server: Server, entries: seq<Item>, place: PairPlaces) {
    forall k: nat, q: Request :: q.VersionsRequest? && q.delimiter == "" ==>
      server(k, q).Some? && Replies3(entries, place, q, server(k, q).value)
  }

  predicate IsVersions(a: ListArgs) {
    a.recursive && (a.includeVersions || a.versionIdMarker != "")
  }

  function Left3(entries: seq<Item>, place: PairPlaces): View {
    (a: ListArgs) => FromPair(entries, place, a.prefix, a.keyMarker, a.versionIdMarker)
  }

  /** Behind an entry that was listed, its own pair gives exactly what was listed after it. */
  lemma FromListedPair(entries: seq<Item>, place: PairPlaces, prefix: string, key: Key, version: string, m: nat)
    requires ValidVersions(entries, place) && m < |FromPair(entries, place, prefix, key, version)|
    ensures var all := FromPair(entries, place, prefix, key, version);
      all[m].version != "" && FromPair(entries, place, prefix, all[m].name, all[m].version) == all[m + 1..]
  {
    var rest, p := Behind(entries, place(key, version)), WithPrefix(prefix);
    var all := Filter(rest, p);
    FilterMember(rest, p);
    hide Filter;
    assert all[m] in all && all[m] in rest;
    var k :| 0 <= k < |rest| && rest[k] == all[m];
    var i := place(key, version) + k;
    assert entries[i] == all[m];
    FilterPlace(entries, p, place(key, version), i, m);
  }

  lemma ServesLeft3(entries: seq<Item>, place: PairPlaces, a: ListArgs, r: Reply)
    requires ValidVersions(entries, place) && IsVersions(a) && Replies3(entries, place, Sent(a), r)
    ensures Serves(Left3(entries, place), a, r)
    ensures r.truncated ==> IsVersions(NextArgs(a, Parsed(r)))
  {
    hide FromPair, OfKind, ValidVersions;
    var all := FromPair(entries, place, a.prefix, a.keyMarker, a.versionIdMarker);
    var n: nat :| n >= 1 && Cut(all, r, n) &&
      (n < |all| ==> r.nextKeyMarker == all[n - 1].name && r.nextVersionIdMarker == all[n - 1].version);
    if n < |all| {
      FromListedPair(entries, place, a.prefix, a.keyMarker, a.versionIdMarker, n - 1);
    }
    assert ServesCut(Left3(entries, place), a, r, n);
  }

  /** Every page of the listing is one of versions, even where only a marker said so. */
  lemma {:induction false} StaysVersions(server: Server, entries: seq<Item>, place: PairPlaces, a: ListArgs, k: nat)
    requires ValidVersions(entries, place) && ServesVersions(server, entries, place) && IsVersions(a)
    requires Reached(server, a, k)
    ensures IsVersions(ArgsAt(server, a, k)) && ReplyAt(server, a, k).Some?
    ensures Serves(Left3(entries, place), ArgsAt(server, a, k), ReplyAt(server, a, k).value)
    decreases k
  {
    hide Serves, ValidVersions, Replies3, PageAt;
    if k > 0 {
      StaysVersions(server, entries, place, a, k - 1);
      var before, r := ArgsAt(server, a, k - 1), ReplyAt(server, a, k - 1).value;
      assert Replies3(entries, place, Sent(before), r);
      ServesLeft3(entries, place, before, r);
      PageOf(server, a, k - 1);
      NextStep(server, a, k - 1);
      assert Continues(server, a, k - 1) && r.truncated;
    } else {
      FirstArgs(server, a);
    }
    var args := ArgsAt(server, a, k);
    hide ArgsAt, Reached;
    assert Sent(args).VersionsRequest? && Sent(args).delimiter == "";
    ServesLeft3(entries, place, args, ReplyAt(server, a, k).value);
  }

  lemma ListsPages3(server: Server, entries: seq<Item>, place: PairPlaces, a: ListArgs)
    requires ValidVersions(entries, place) && ServesVersions(server, entries, place) && IsVersions(a)
    ensures Pages(server, a, Left3(entries, place))
  {
    hide Serves, ValidVersions, ServesVersions, ReplyAt, ArgsAt, Reached;
    forall k: nat | Reached(server, a, k)
      ensures ReplyAt(server, a, k).Some? && Serves(Left3(entries, place), ArgsAt(server, a, k), ReplyAt(server, a, k).value)
    {
      StaysVersions(server, entries, place, a, k);
    }
  }

  /** The items are exactly the entries with the prefix, each of them once. */
  ghost predicate ListsOnce(items: seq<Item>, prefix: string, entries: seq<Item>) {
    && (forall x :: x in items <==> x in entries && prefix <= x.name)
    && (forall x :: x in items ==> multiset(items)[x] == 1)
  }

  /**
   * Iterating to the end, which is reached, lists every version and delete marker with the prefix
   * behind the markers exactly once; versions keep the server's order, and so do delete markers.
   */
  method ListVersions(server: Server, ghost entries: seq<Item>, ghost place: PairPlaces, args: ListArgs)
    returns (items: seq<Item>)
    requires ValidVersions(entries, place) && ServesVersions(server, entries, place) && IsVersions(args)
    ensures ListsOnce(items, args.prefix, Behind(entries, place(args.keyMarker, args.versionIdMarker)))
    ensures SameItems(items, FromPair(entries, place, args.prefix, args.keyMarker, args.versionIdMarker))
  {
    hide ServesVersions, IsVersions, Pages, Reached, Continues, SameItems, ListsOnce;
    ListsPages3(server, entries, place, args);
    NoneBefore(server, args);
    ghost var last := Ends(server, args, Left3(entries, place), 0);
    var requests;
    items, requests := ListAll(server, args, last);
    EndIsComplete(server, args, Left3(entries, place), last);
    ReachedBefore(server, args, last);
    ItemsAreEntries(server, args, Left3(entries, place), last + 1);
    EachOnce(entries, place, args, items);
  }

  lemma ReachedBefore(server: Server, a: ListArgs, n: nat)
    requires Reached(server, a, n)
    ensures forall j: nat :: j < n + 1 ==> Reached(server, a, j)
  {
    hide Continues;
  }

  lemma EachOnce(entries: seq<Item>, place: PairPlaces, a: ListArgs, items: seq<Item>)
    requires ValidVersions(entries, place)
    requires SameItems(items, FromPair(entries, place, a.prefix, a.keyMarker, a.versionIdMarker))
    ensures ListsOnce(items, a.prefix, Behind(entries, place(a.keyMarker, a.versionIdMarker)))
  {
    var rest := Behind(entries, place(a.keyMarker, a.versionIdMarker));
    var all := FromPair(entries, place, a.prefix, a.keyMarker, a.versionIdMarker);
    FilterMember(rest, WithPrefix(a.prefix));
    assert Distinct(rest);
    FilterDistinct(rest, WithPrefix(a.prefix));
    hide Filter, OfKind;
    forall x ensures multiset(items)[x] == if x in all then 1 else 0 {
      OnceEach(all, x);
    }
    assert forall x :: x in items <==> multiset(items)[x] > 0;
  }

  lemma {:induction false} OnceEach(s: seq<Item>, x: Item)
    requires Distinct(s)
    ensures multiset(s)[x] == if x in s then 1 else 0
    decreases |s|
  {
    if s != [] {
      OnceEach(s[1..], x);
      assert s == [s[0]] + s[1..];
    }
  }

  /** The server's order is not kept: a delete marker that comes first is listed last. */
  lemma MarkersComeLast()
    ensures var marker, version := Item("a", "v2", DeleteMarker), Item("a", "v1", Object);
      Parsed(Reply([marker, version], [], false, "", "", "", "", "")).contents == [version, marker]
  {
    var marker, version := Item("a", "v2", DeleteMarker), Item("a", "v1", Object);
    var s := [marker, version];
    assert s[1..] == [version] && s[1..][1..] == [];
    assert OfKind(s[1..], false) == [version] && OfKind(s[1..], true) == [];
  }
}
