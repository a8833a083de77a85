// What listings of all kinds have in common: a server that reads from a bucket behind some place,
// and pages that leave nothing out between them.
module ListingRuns {
  import opened Wrappers
  import opened Listing

  // ---------- selecting entries ----------

  function Filter(s: seq<Item>, p: Item -> bool): seq<Item> {
    if s == [] then [] else (if p(s[0]) then [s[0]] else []) + Filter(s[1..], p)
  }

  lemma Regroup(a: seq<Item>, b: seq<Item>, c: seq<Item>)
    ensures a + (b + c) == a + b + c
  {
  }

  lemma {:induction false} FilterMember(s: seq<Item>, p: Item -> bool)
    ensures forall x :: x in Filter(s, p) <==> x in s && p(x)
    decreases |s|
  {
    if s != [] {
      FilterMember(s[1..], p);
      assert forall x :: x in s <==> x == s[0] || x in s[1..];
    }
  }

  /** Selecting keeps any order the entries are in. */
  lemma {:induction false} FilterOrdered(s: seq<Item>, p: Item -> bool, less: (Item, Item) -> bool)
    requires Ordered(less, s)
    ensures Ordered(less, Filter(s, p))
    decreases |s|
  {
    if s != [] {
      FilterOrdered(s[1..], p, less);
      FilterMember(s[1..], p);
      assert forall x :: x in s[1..] ==> less(s[0], x);
      var rest := Filter(s[1..], p);
      assert forall i :: 0 <= i < |rest| ==> rest[i] in s[1..];
    }
  }

  predicate Ordered(less: (Item, Item) -> bool, s: seq<Item>) {
    forall i, j :: 0 <= i < j < |s| ==> less(s[i], s[j])
  }

  predicate Distinct(s: seq<Item>) {
    forall i, j :: 0 <= i < j < |s| ==> s[i] != s[j]
  }

  lemma {:induction false} FilterDistinct(s: seq<Item>, p: Item -> bool)
    requires Distinct(s)
    ensures Distinct(Filter(s, p))
  {
    FilterOrdered(s, p, (x, y) => x != y);
    assert Ordered((x, y) => x != y, Filter(s, p));
  }

  lemma {:induction false} FilterSame(s: seq<Item>, p: Item -> bool, q: Item -> bool)
    requires forall x :: x in s ==> p(x) == q(x)
    ensures Filter(s, p) == Filter(s, q)
    decreases |s|
  {
    if s != [] {
      FilterSame(s[1..], p, q);
    }
  }

  lemma {:induction false} FilterNone(s: seq<Item>, p: Item -> bool)
    requires forall x :: x in s ==> !p(x)
    ensures Filter(s, p) == []
    decreases |s|
  {
    if s != [] {
      FilterNone(s[1..], p);
    }
  }

  lemma {:induction false} FilterAppend(s: seq<Item>, t: seq<Item>, p: Item -> bool)
    ensures Filter(s + t, p) == Filter(s, p) + Filter(t, p)
    decreases |s|
  {
    if s == [] {
      assert s + t == t;
    } else {
      assert (s + t)[1..] == s[1..] + t && (s + t)[0] == s[0];
      FilterAppend(s[1..], t, p);
      Regroup(if p(s[0]) then [s[0]] else [], Filter(s[1..], p), Filter(t, p));
    }
  }

  /** Behind an entry that was selected come exactly the entries selected after it. */
  lemma FilterBehind(s: seq<Item>, p: Item -> bool, i: nat, m: nat)
    requires Distinct(s) && i < |s| && m < |Filter(s, p)| && Filter(s, p)[m] == s[i]
    ensures Filter(s[i + 1..], p) == Filter(s, p)[m + 1..]
  {
    FilterMember(s, p);
    FilterDistinct(s, p);
    hide Filter;
    var x, a, b := s[i], s[..i], s[i + 1..];
    assert x in Filter(s, p);
    assert s == a + ([x] + b);
    FilterSplit(a, x, b, p);
    PlaceUnique(Filter(a, p), x, Filter(b, p), m);
  }

  lemma FilterSplit(a: seq<Item>, x: Item, b: seq<Item>, p: Item -> bool)
    requires p(x)
    ensures Filter(a + ([x] + b), p) == Filter(a, p) + ([x] + Filter(b, p))
  {
    FilterOne(x, p);
    FilterAppend(a, [x] + b, p);
    FilterAppend([x], b, p);
    hide Filter;
  }

  lemma PlaceUnique(a: seq<Item>, x: Item, b: seq<Item>, m: nat)
    requires Distinct(a + ([x] + b)) && m < |a + ([x] + b)| && (a + ([x] + b))[m] == x
    ensures m == |a| && (a + ([x] + b))[m + 1..] == b
  {
    assert (a + ([x] + b))[|a|] == x;
  }

  lemma FilterOne(x: Item, p: Item -> bool)
    ensures Filter([x], p) == if p(x) then [x] else []
  {
    assert [x][1..] == [];
  }

  /** What follows the first j entries. */
  function Behind(s: seq<Item>, j: nat): seq<Item> {
    if j <= |s| then s[j..] else []
  }

  /** The same when the selection began at a place in the bucket. */
  lemma FilterPlace(s: seq<Item>, p: Item -> bool, j: nat, i: nat, m: nat)
    requires Distinct(s) && i < |s| && m < |Filter(Behind(s, j), p)| && Filter(Behind(s, j), p)[m] == s[i]
    ensures Filter(Behind(s, i + 1), p) == Filter(Behind(s, j), p)[m + 1..]
  {
    var t := Behind(s, j);
    FilterMember(t, p);
    hide Filter;
    assert s[i] in Filter(t, p);
    var k :| 0 <= k < |t| && t[k] == s[i];
    assert s[j + k] == s[i] && j + k == i;
    assert t[k + 1..] == s[i + 1..];
    FilterBehind(t, p, k, m);
  }

  // ---------- pages that go on where the last one ended ----------

  /** What a request asks for, by its arguments. */
  type View = ListArgs -> seq<Item>

  /** A page of some length, not empty while entries are left; `left` tells what comes next. */
  ghost predicate Serves(left: View, a: ListArgs, r: Reply) {
    exists n: nat :: n >= 1 && ServesCut(left, a, r, n)
  }

  predicate ServesCut(left: View, a: ListArgs, r: Reply, n: nat) {
    var all := left(a);
    && r.prefixes == []
    && r.entries == (if n < |all| then all[..n] else all)
    && (r.truncated <==> n < |all|)
    && (n < |all| ==> left(NextArgs(a, Parsed(r))) == all[n..])
  }

  function ReplyAt(server: Server, a: ListArgs, k: nat): Option<Reply> {
    server(k, Sent(ArgsAt(server, a, k)))
  }

  /** Every request of the listing is served so. */
  ghost predicate Pages(server: Server, a: ListArgs, left: View) {
    forall k: nat :: Reached(server, a, k) ==>
      ReplyAt(server, a, k).Some? && Serves(left, ArgsAt(server, a, k), ReplyAt(server, a, k).value)
  }

  /** The entries of the first k replies, in the server's order. */
  function Entries(server: Server, a: ListArgs, k: nat): seq<Item> {
    if k == 0 then []
    else Entries(server, a, k - 1) + match ReplyAt(server, a, k - 1) case Some(r) => r.entries case None => []
  }

  lemma {:induction false} OfKindSplits(items: seq<Item>)
    ensures |OfKind(items, false)| + |OfKind(items, true)| == |items|
    ensures multiset(OfKind(items, false)) + multiset(OfKind(items, true)) == multiset(items)
    decreases |items|
  {
    if items != [] {
      OfKindSplits(items[1..]);
      assert items == [items[0]] + items[1..];
    }
  }

  /**
   * Parsing keeps everything: the objects in the server's order, then the prefixes as they came,
   * then the delete markers; a marker that the server names is taken as it is.
   */
  lemma ParsedKeepsAll(r: Reply)
    ensures multiset(Parsed(r).contents) == multiset(r.entries) + multiset(r.prefixes)
    ensures exists objects, markers ::
      && Parsed(r).contents == objects + r.prefixes + markers
      && (forall x :: x in objects ==> x.kind != DeleteMarker)
      && (forall x :: x in markers ==> x.kind == DeleteMarker)
    ensures r.nextMarker != "" ==> Parsed(r).nextMarker == r.nextMarker
    ensures !r.truncated ==> Parsed(r).nextMarker == r.nextMarker
  {
    OfKindSplits(r.entries);
    OfKindOnly(r.entries);
    var objects, markers := OfKind(r.entries, false), OfKind(r.entries, true);
    hide OfKind;
    assert Parsed(r).contents == objects + r.prefixes + markers;
  }

  lemma {:induction false} OfKindOnly(items: seq<Item>)
    ensures forall x :: x in OfKind(items, false) ==> x.kind != DeleteMarker
    ensures forall x :: x in OfKind(items, true) ==> x.kind == DeleteMarker
    decreases |items|
  {
    if items != [] {
      OfKindOnly(items[1..]);
    }
  }

  lemma PageOf(server: Server, a: ListArgs, k: nat)
    requires ReplyAt(server, a, k).Some?
    ensures PageAt(server, a, k) == Parsed(ReplyAt(server, a, k).value)
  {
  }

  lemma ServedStep(left: View, a: ListArgs, r: Reply)
    requires Serves(left, a, r)
    ensures |Parsed(r).contents| == |r.entries| && Parsed(r).truncated == r.truncated
    ensures if Parsed(r).contents != [] && Parsed(r).truncated
            then r.entries + left(NextArgs(a, Parsed(r))) == left(a) && |left(NextArgs(a, Parsed(r)))| < |left(a)|
            else r.entries == left(a)
  {
    OfKindSplits(r.entries);
    var n: nat :| n >= 1 && ServesCut(left, a, r, n);
    hide OfKind;
  }

  /** What was listed and what the next request asks for make up the whole listing. */
  lemma {:induction false} NothingLost(server: Server, a: ListArgs, left: View, k: nat)
    requires Pages(server, a, left) && Reached(server, a, k)
    ensures Entries(server, a, k) + left(ArgsAt(server, a, k)) == left(a)
    ensures |left(ArgsAt(server, a, k))| + k <= |left(a)|
    decreases k
  {
    if k == 0 {
      FirstArgs(server, a);
      assert Entries(server, a, 0) == [];
    } else {
      NothingLost(server, a, left, k - 1);
      assert Reached(server, a, k - 1) && Continues(server, a, k - 1);
      PageOf(server, a, k - 1);
      NextStep(server, a, k - 1);
      var args, r := ArgsAt(server, a, k - 1), ReplyAt(server, a, k - 1).value;
      ServedStep(left, args, r);
      hide PageAt, ArgsAt, Serves, Parsed, ReplyAt, NextArgs;
      var before, rest := Entries(server, a, k - 1), left(ArgsAt(server, a, k));
      assert before + r.entries + rest == before + (r.entries + rest);
    }
  }

  lemma NoneBefore(server: Server, a: ListArgs)
    ensures Reached(server, a, 0)
  {
  }

  /** The listing ends. */
  lemma {:induction false} Ends(server: Server, a: ListArgs, left: View, k: nat) returns (n: nat)
    requires Pages(server, a, left) && Reached(server, a, k)
    ensures n >= k && Reached(server, a, n) && !Continues(server, a, n)
    decreases |left(a)| - k
  {
    hide PageAt, ArgsAt, Serves, Pages, Continues;
    NothingLost(server, a, left, k);
    n := k;
    if Continues(server, a, k) {
      NothingLost(server, a, left, k + 1);
      n := Ends(server, a, left, k + 1);
    }
  }

  /** At its end a listing has read all entries it asked for, each once, in the server's order. */
  lemma EndIsComplete(server: Server, a: ListArgs, left: View, n: nat)
    requires Pages(server, a, left) && Reached(server, a, n) && !Continues(server, a, n)
    ensures Entries(server, a, n + 1) == left(a)
  {
    NothingLost(server, a, left, n);
    PageOf(server, a, n);
    ServedStep(left, ArgsAt(server, a, n), ReplyAt(server, a, n).value);
    hide PageAt, ArgsAt, Serves, Parsed;
  }

  // ---------- items and entries ----------

  lemma {:induction false} OfKindAppend(a: seq<Item>, b: seq<Item>, deleted: bool)
    ensures OfKind(a + b, deleted) == OfKind(a, deleted) + OfKind(b, deleted)
    decreases |a|
  {
    if a == [] {
      assert a + b == b;
    } else {
      assert (a + b)[1..] == a[1..] + b && (a + b)[0] == a[0];
      OfKindAppend(a[1..], b, deleted);
      Regroup(if (a[0].kind == DeleteMarker) == deleted then [a[0]] else [], OfKind(a[1..], deleted), OfKind(b, deleted));
    }
  }

  lemma {:induction false} OfKindTwice(items: seq<Item>, deleted: bool, again: bool)
    ensures OfKind(OfKind(items, deleted), again) == if again == deleted then OfKind(items, deleted) else []
    decreases |items|
  {
    if items != [] {
      OfKindTwice(items[1..], deleted, again);
      var rest := OfKind(items[1..], deleted);
      assert ([items[0]] + rest)[1..] == rest && [] + rest == rest;
    }
  }

  lemma {:induction false} NoneDeleted(items: seq<Item>)
    ensures OfKind(items, true) == [] ==> OfKind(items, false) == items
    ensures (forall x :: x in items ==> x.kind == Object) ==> OfKind(items, true) == []
    decreases |items|
  {
    if items != [] {
      NoneDeleted(items[1..]);
      assert items == [items[0]] + items[1..];
      assert items[0] in items && forall x :: x in items[1..] ==> x in items;
    }
  }

  /** The same items as often, with the objects in the same order and the delete markers too. */
  ghost predicate SameItems(x: seq<Item>, y: seq<Item>) {
    && multiset(x) == multiset(y)
    && OfKind(x, false) == OfKind(y, false)
    && OfKind(x, true) == OfKind(y, true)
  }

  lemma SameAppend(x: seq<Item>, y: seq<Item>, x': seq<Item>, y': seq<Item>)
    requires SameItems(x, y) && SameItems(x', y')
    ensures SameItems(x + x', y + y')
  {
    OfKindAppend(x, x', false);
    OfKindAppend(x, x', true);
    OfKindAppend(y, y', false);
    OfKindAppend(y, y', true);
    hide OfKind;
  }

  lemma PageItems(r: Reply)
    requires r.prefixes == []
    ensures SameItems(Parsed(r).contents, r.entries)
  {
    hide OfKind, Parsed;
    var objects, markers := OfKind(r.entries, false), OfKind(r.entries, true);
    ContentsOf(r);
    OfKindSplits(r.entries);
    OfKindTwice(r.entries, false, false);
    OfKindTwice(r.entries, true, false);
    OfKindTwice(r.entries, false, true);
    OfKindTwice(r.entries, true, true);
    OfKindAppend(objects, markers, false);
    OfKindAppend(objects, markers, true);
  }

  lemma ContentsOf(r: Reply)
    requires r.prefixes == []
    ensures Parsed(r).contents == OfKind(r.entries, false) + OfKind(r.entries, true)
  {
    hide OfKind;
  }

  lemma NextItems(server: Server, a: ListArgs, left: View, k: nat)
    requires Pages(server, a, left) && Reached(server, a, k) && ReplyAt(server, a, k).Some?
    ensures var r := ReplyAt(server, a, k).value;
      && Items(server, a, k + 1) == Items(server, a, k) + Parsed(r).contents
      && Entries(server, a, k + 1) == Entries(server, a, k) + r.entries
      && r.prefixes == []
  {
    PageOf(server, a, k);
    hide PageAt, ArgsAt, Parsed;
  }

  /** The items of a listing are the entries read, but for where the delete markers stand. */
  lemma {:induction false} ItemsAreEntries(server: Server, a: ListArgs, left: View, k: nat)
    requires Pages(server, a, left) && forall j: nat :: j < k ==> Reached(server, a, j)
    ensures SameItems(Items(server, a, k), Entries(server, a, k))
    decreases k
  {
    hide PageAt, ArgsAt, Serves, Parsed, SameItems, ReplyAt, Reached;
    if k > 0 {
      ItemsAreEntries(server, a, left, k - 1);
      NextItems(server, a, left, k - 1);
      var r := ReplyAt(server, a, k - 1).value;
      PageItems(r);
      SameAppend(Items(server, a, k - 1), Entries(server, a, k - 1), Parsed(r).contents, r.entries);
    } else {
      NoItems(server, a);
    }
  }

  lemma NoItems(server: Server, a: ListArgs)
    ensures SameItems(Items(server, a, 0), Entries(server, a, 0))
  {
  }

  /** Without delete markers the items are the entries, in the same order. */
  lemma ObjectsInOrder(server: Server, a: ListArgs, left: View, n: nat)
    requires Pages(server, a, left) && Reached(server, a, n) && !Continues(server, a, n)
    requires forall x :: x in left(a) ==> x.kind == Object
    ensures Items(server, a, n + 1) == left(a)
  {
    hide PageAt, ArgsAt, Serves, Pages, Continues, SameItems;
    EndIsComplete(server, a, left, n);
    ItemsAreEntries(server, a, left, n + 1);
    SameObjects(Items(server, a, n + 1), left(a));
  }

  lemma SameObjects(x: seq<Item>, y: seq<Item>)
    requires SameItems(x, y) && forall i :: i in y ==> i.kind == Object
    ensures x == y
  {
    NoneDeleted(x);
    NoneDeleted(y);
    hide OfKind;
  }
}
