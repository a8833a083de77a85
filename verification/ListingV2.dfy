// Recursive V2 listing of a sorted bucket, the default: a continuation token stands for a place in
// the bucket that only the server knows (src/client.cc:311-314).
module ListingV2 {
  import opened Wrappers
  import opened Listing
  import opened ListingRuns
  import opened ListingV1

  /** How many entries stand before the place of a token. */
  type Places = string -> nat

  function WithPrefix(prefix: string): Item -> bool {
    (x: Item) => prefix <= x.name
  }

  /** A token is followed if there is one, and otherwise the name to start after. */
  function From(b: Bucket, place: Places, prefix: string, startAfter: Key, token: string): seq<Item> {
    if token == "" then After(b, prefix, startAfter)
    else Filter(Behind(b.entries, place(token)), WithPrefix(prefix))
  }

  /** A token is named on a truncated page, and stands for the place right behind its last entry. */
  predicate Names(b: Bucket, place: Places, token: string, last: Item) {
    token != "" && 1 <= place(token) <= |b.entries| && b.entries[place(token) - 1] == last
  }

  ghost predicate Replies2(b: Bucket, place: Places, q: Request, r: Reply)
    requires q.V2Request?
  {
    var all := From(b, place, q.prefix, q.startAfter, q.continuationToken);
    exists n: nat :: n >= 1 && Cut(all, r, n) && (n < |all| ==> Names(b, place, r.nextContinuationToken, all[n - 1]))
  }

  /** The server answers every recursive V2 request from the bucket, with pages as long as it likes. */
  ghost predicate ServesV2(server: Server, b: Bucket, place: Places) {
    forall k: nat, q: Request :: q.V2Request? && q.delimiter == "" ==>
      server(k, q).Some? && Replies2(b, place, q, server(k, q).value)
  }

  predicate IsV2(a: ListArgs) {
    a.recursive && !a.useApiV1 && !a.includeVersions && a.versionIdMarker == ""
  }

  function Left2(b: Bucket, place: Places): View {
    (a: ListArgs) => From(b, place, a.prefix, a.startAfter, a.continuationToken)
  }

  /** Behind an entry that was listed, the token for its place gives exactly what was listed after it. */
  lemma FromListed(b: Bucket, place: Places, prefix: string, startAfter: Key, token: string, next: string, m: nat)
    requires ValidBucket(b) && m < |From(b, place, prefix, startAfter, token)|
    requires Names(b, place, next, From(b, place, prefix, startAfter, token)[m])
    ensures Filter(Behind(b.entries, place(next)), WithPrefix(prefix)) == From(b, place, prefix, startAfter, token)[m + 1..]
  {
    var i := place(next) - 1;
    AllDistinct(b);
    if token == "" {
      var p := Wanted(b, prefix, startAfter);
      FilterMember(b.entries, p);
      assert After(b, prefix, startAfter)[m] in After(b, prefix, startAfter);
      FilterBehind(b.entries, p, i, m);
      forall y | y in b.entries[i + 1..] ensures p(y) == WithPrefix(prefix)(y) {
        var j :| i < j < |b.entries| && b.entries[j] == y;
        assert ByName(b)(b.entries[i], b.entries[j]);
      }
      FilterSame(b.entries[i + 1..], p, WithPrefix(prefix));
    } else {
      FilterPlace(b.entries, WithPrefix(prefix), place(token), i, m);
    }
  }

  lemma ServesLeft2(b: Bucket, place: Places, a: ListArgs, r: Reply)
    requires ValidBucket(b) && IsV2(a) && Replies2(b, place, Sent(a), r)
    ensures Serves(Left2(b, place), a, r)
  {
    var all := From(b, place, a.prefix, a.startAfter, a.continuationToken);
    var n: nat :| n >= 1 && Cut(all, r, n) && (n < |all| ==> Names(b, place, r.nextContinuationToken, all[n - 1]));
    if n < |all| {
      FromListed(b, place, a.prefix, a.startAfter, a.continuationToken, r.nextContinuationToken, n - 1);
    }
    hide Filter, Wanted, OfKind;
    assert ServesCut(Left2(b, place), a, r, n);
  }

  lemma ListsPages2(server: Server, b: Bucket, place: Places, a: ListArgs)
    requires ValidBucket(b) && ServesV2(server, b, place) && IsV2(a)
    ensures Pages(server, a, Left2(b, place))
  {
    forall k: nat | Reached(server, a, k)
      ensures ReplyAt(server, a, k).Some? && Serves(Left2(b, place), ArgsAt(server, a, k), ReplyAt(server, a, k).value)
    {
      ChoiceKept(server, a, k);
      hide ArgsAt, Reached, Serves, Replies2;
      var args := ArgsAt(server, a, k);
      assert Sent(args).V2Request? && Sent(args).delimiter == "";
      ServesLeft2(b, place, args, ReplyAt(server, a, k).value);
    }
  }

  lemma OnlyObjects2(b: Bucket, place: Places, prefix: string, startAfter: Key, token: string)
    requires ValidBucket(b)
    ensures forall x :: x in From(b, place, prefix, startAfter, token) ==> x.kind == Object
  {
    FilterMember(b.entries, Wanted(b, prefix, startAfter));
    FilterMember(Behind(b.entries, place(token)), WithPrefix(prefix));
  }

  /**
   * Iterating to the end, which is reached, lists from a token exactly the objects with the prefix
   * that stand behind its place, and without a token those after the name to start after.
   */
  ghost predicate IsListing2(b: Bucket, place: Places, a: ListArgs, listed: seq<Item>) {
    && Ordered(ByName(b), listed)
    && (a.continuationToken == "" ==> IsListing(b, a.prefix, a.startAfter, listed))
    && (a.continuationToken != "" ==>
          forall x :: x in listed <==>
            a.prefix <= x.name && exists i :: place(a.continuationToken) <= i < |b.entries| && b.entries[i] == x)
  }

  lemma FromIsListing(b: Bucket, place: Places, a: ListArgs)
    requires ValidBucket(b)
    ensures IsListing2(b, place, a, From(b, place, a.prefix, a.startAfter, a.continuationToken))
  {
    AfterIsListing(b, a.prefix, a.startAfter);
    if a.continuationToken != "" {
      var rest := Behind(b.entries, place(a.continuationToken));
      FilterMember(rest, WithPrefix(a.prefix));
      FilterOrdered(rest, WithPrefix(a.prefix), ByName(b));
      hide Filter, ValidBucket, IsListing, Ordered;
      forall x ensures x in rest <==> exists i :: place(a.continuationToken) <= i < |b.entries| && b.entries[i] == x {
        BehindMember(b.entries, place(a.continuationToken), x);
      }
    }
  }

  lemma BehindMember(s: seq<Item>, j: nat, x: Item)
    ensures x in Behind(s, j) <==> exists i :: j <= i < |s| && s[i] == x
  {
    if x in Behind(s, j) {
      var k :| 0 <= k < |s| - j && Behind(s, j)[k] == x;
      assert s[j + k] == x;
    }
    if i :| j <= i < |s| && s[i] == x {
      assert Behind(s, j)[i - j] == x;
    }
  }

  method ListV2(server: Server, ghost b: Bucket, ghost place: Places, args: ListArgs) returns (items: seq<Item>)
    requires ValidBucket(b) && ServesV2(server, b, place) && IsV2(args)
    ensures IsListing2(b, place, args, items)
  {
    hide ValidBucket, ServesV2, IsV2, IsListing2, Pages, Reached, Continues, Filter, From;
    ListsPages2(server, b, place, args);
    NoneBefore(server, args);
    ghost var last := Ends(server, args, Left2(b, place), 0);
    var requests;
    items, requests := ListAll(server, args, last);
    FromIsListing(b, place, args);
    OnlyObjects2(b, place, args.prefix, args.startAfter, args.continuationToken);
    ObjectsInOrder(server, args, Left2(b, place), last);
  }
}
