// Recursive V1 listing of a sorted bucket: pages cut from the entries after a marker, the last name
// of a truncated page serving as the next marker (src/response.cc:307-311).
module ListingV1 {
  import opened Wrappers
  import opened Listing
  import opened ListingRuns

  /** The objects of a bucket in the server's order of names. */
  datatype Bucket = Bucket(entries: seq<Item>, less: (Key, Key) -> bool)

  ghost predicate StrictOrder(less: (Key, Key) -> bool) {
    && (forall x :: !less(x, x))
    && (forall x, y, z :: less(x, y) && less(y, z) ==> less(x, z))
  }

  function ByName(b: Bucket): (Item, Item) -> bool {
    (x: Item, y: Item) => b.less(x.name, y.name)
  }

  ghost predicate ValidBucket(b: Bucket) {
    && StrictOrder(b.less)
    && Ordered(ByName(b), b.entries)
    && forall x :: x in b.entries ==> x.name != "" && x.kind == Object
  }

  /** The entries with a prefix and after a name; the empty name stands before all. */
  function Wanted(b: Bucket, prefix: string, marker: Key): Item -> bool {
    (x: Item) => prefix <= x.name && (marker == "" || b.less(marker, x.name))
  }

  function After(b: Bucket, prefix: string, marker: Key): seq<Item> {
    Filter(b.entries, Wanted(b, prefix, marker))
  }

  /** A page of some length, whose next marker is left out or is its last name. */
  ghost predicate Replies(b: Bucket, prefix: string, marker: Key, r: Reply) {
    var all := After(b, prefix, marker);
    exists n: nat :: n >= 1 && Cut(all, r, n) && (r.nextMarker == "" || (n < |all| && r.nextMarker == all[n - 1].name))
  }

  predicate Cut(all: seq<Item>, r: Reply, n: nat) {
    && r.prefixes == []
    && r.entries == (if n < |all| then all[..n] else all)
    && (r.truncated <==> n < |all|)
  }

  /** The server answers every recursive V1 request from the bucket, with pages as long as it likes. */
  ghost predicate ServesV1(server: Server, b: Bucket) {
    forall k: nat, r: Request :: r.V1Request? && r.delimiter == "" ==>
      server(k, r).Some? && Replies(b, r.prefix, r.marker, server(k, r).value)
  }

  predicate IsV1(a: ListArgs) {
    a.recursive && a.useApiV1 && !a.includeVersions && a.versionIdMarker == ""
  }

  function Left(b: Bucket): View {
    (a: ListArgs) => After(b, a.prefix, a.marker)
  }

  lemma AllDistinct(b: Bucket)
    requires ValidBucket(b)
    ensures Distinct(b.entries)
  {
  }

  /** Listing on from a listed name gives exactly what was listed after it. */
  lemma AfterListed(b: Bucket, prefix: string, marker: Key, m: nat)
    requires ValidBucket(b) && m < |After(b, prefix, marker)|
    ensures var all := After(b, prefix, marker); After(b, prefix, all[m].name) == all[m + 1..]
  {
    var all, p := After(b, prefix, marker), Wanted(b, prefix, marker);
    FilterMember(b.entries, p);
    assert all[m] in b.entries && p(all[m]);
    var i :| 0 <= i < |b.entries| && b.entries[i] == all[m];
    AllDistinct(b);
    FilterBehind(b.entries, p, i, m);
    BehindName(b, prefix, marker, i);
  }

  /** Behind a place in the bucket, asking after the name there is the same as asking as before. */
  lemma BehindName(b: Bucket, prefix: string, marker: Key, i: nat)
    requires ValidBucket(b) && i < |b.entries| && Wanted(b, prefix, marker)(b.entries[i])
    ensures After(b, prefix, b.entries[i].name) == Filter(b.entries[i + 1..], Wanted(b, prefix, marker))
  {
    var x, a, rest := b.entries[i], b.entries[..i + 1], b.entries[i + 1..];
    var q := Wanted(b, prefix, x.name);
    assert b.entries == a + rest;
    FilterAppend(a, rest, q);
    forall y | y in a ensures !q(y) {
      var j :| 0 <= j < |a| && a[j] == y;
      if j < i {
        assert ByName(b)(b.entries[j], b.entries[i]);
      }
    }
    FilterNone(a, q);
    forall y | y in rest ensures q(y) == Wanted(b, prefix, marker)(y) {
      var j :| 0 <= j < |rest| && rest[j] == y;
      assert ByName(b)(b.entries[i], b.entries[i + 1 + j]);
    }
    FilterSame(rest, q, Wanted(b, prefix, marker));
    hide Filter;
    assert [] + Filter(rest, q) == Filter(rest, q);
  }

  /** A truncated page gets its last name as the next marker, whether the server names it or not. */
  lemma MarkerIsLastName(b: Bucket, prefix: string, marker: Key, r: Reply)
    requires ValidBucket(b) && Replies(b, prefix, marker, r) && r.truncated
    ensures r.entries != [] && Parsed(r).nextMarker == r.entries[|r.entries| - 1].name
  {
    var all := After(b, prefix, marker);
    FilterMember(b.entries, Wanted(b, prefix, marker));
    var n: nat :| n >= 1 && Cut(all, r, n) && (r.nextMarker == "" || (n < |all| && r.nextMarker == all[n - 1].name));
    assert forall x :: x in r.entries ==> x in all;
    NoneDeleted(r.entries);
    hide OfKind;
  }

  lemma ServesLeft(b: Bucket, a: ListArgs, r: Reply)
    requires ValidBucket(b) && IsV1(a) && Replies(b, a.prefix, a.marker, r)
    ensures Serves(Left(b), a, r)
  {
    var all := After(b, a.prefix, a.marker);
    var n: nat :| n >= 1 && Cut(all, r, n);
    if n < |all| {
      MarkerIsLastName(b, a.prefix, a.marker, r);
      AfterListed(b, a.prefix, a.marker, n - 1);
    }
    hide Filter, Wanted, Parsed;
    assert ServesCut(Left(b), a, r, n);
  }

  lemma ListsPages(server: Server, b: Bucket, a: ListArgs)
    requires ValidBucket(b) && ServesV1(server, b) && IsV1(a)
    ensures Pages(server, a, Left(b))
  {
    forall k: nat | Reached(server, a, k)
      ensures ReplyAt(server, a, k).Some? && Serves(Left(b), ArgsAt(server, a, k), ReplyAt(server, a, k).value)
    {
      ChoiceKept(server, a, k);
      hide ArgsAt, Reached, Serves, Replies;
      var args := ArgsAt(server, a, k);
      assert Sent(args).V1Request? && Sent(args).delimiter == "";
      ServesLeft(b, args, ReplyAt(server, a, k).value);
    }
  }

  /** What a recursive V1 listing is to give: each object with the prefix after the marker once, in order. */
  ghost predicate IsListing(b: Bucket, prefix: string, marker: Key, listed: seq<Item>) {
    && Ordered(ByName(b), listed)
    && forall x :: x in listed <==> x in b.entries && prefix <= x.name && (marker == "" || b.less(marker, x.name))
  }

  lemma AfterIsListing(b: Bucket, prefix: string, marker: Key)
    requires ValidBucket(b)
    ensures IsListing(b, prefix, marker, After(b, prefix, marker))
  {
    FilterMember(b.entries, Wanted(b, prefix, marker));
    FilterOrdered(b.entries, Wanted(b, prefix, marker), ByName(b));
  }

  /** Iterating to the end, which is reached, lists exactly the wanted objects, in order and each once. */
  method ListV1(server: Server, ghost b: Bucket, args: ListArgs) returns (items: seq<Item>)
    requires ValidBucket(b) && ServesV1(server, b) && IsV1(args)
    ensures IsListing(b, args.prefix, args.marker, items)
  {
    hide ValidBucket, ServesV1, IsV1, IsListing, Pages, Reached, Continues, Filter;
    ListsPages(server, b, args);
    NoneBefore(server, args);
    ghost var last := Ends(server, args, Left(b), 0);
    var requests;
    items, requests := ListAll(server, args, last);
    AfterIsListing(b, args.prefix, args.marker);
    OnlyObjects(b, args.prefix, args.marker);
    ObjectsInOrder(server, args, Left(b), last);
  }

  lemma OnlyObjects(b: Bucket, prefix: string, marker: Key)
    requires ValidBucket(b)
    ensures forall x :: x in After(b, prefix, marker) ==> x.kind == Object
  {
    FilterMember(b.entries, Wanted(b, prefix, marker));
  }
}
