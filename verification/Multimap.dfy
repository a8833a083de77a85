// The header and query multimap (src/utils.cc:560-667): a map from keys as spelled to ordered sets
// of values, and an index from lower-cased keys to their spellings.
module Multimaps {
  import opened Octets
  import opened Chunks
  import opened UriCodec
  import opened Query

  // ---------- ordered sets ----------

  /** std::less on strings. */
  predicate Less(a: Bytes, b: Bytes)
    decreases |b|
  {
    b != [] && (a == [] || a[0] < b[0] || (a[0] == b[0] && Less(a[1..], b[1..])))
  }

  lemma {:induction false} LessTotal(a: Bytes, b: Bytes)
    ensures a != b ==> Less(a, b) || Less(b, a)
    ensures !(Less(a, b) && Less(b, a)) && !Less(a, a)
    decreases |a|
  {
    if a != [] {
      LessTotal(a[1..], a[1..]);
      if b != [] {
        LessTotal(a[1..], b[1..]);
        assert a == [a[0]] + a[1..] && b == [b[0]] + b[1..];
      }
    }
  }

  lemma {:induction false} LessTransitive(a: Bytes, b: Bytes, c: Bytes)
    requires Less(a, b) && Less(b, c)
    ensures Less(a, c)
    decreases |a|
  {
    if a != [] && a[0] == b[0] == c[0] {
      LessTransitive(a[1..], b[1..], c[1..]);
    }
  }

  /** The order is decided where the strings first differ; a string comes before its extensions. */
  lemma {:induction false} LessAtFirstDifference(a: Bytes, b: Bytes, k: nat)
    requires k <= |a| && k <= |b| && a[..k] == b[..k]
    requires k == |a| || k == |b| || a[k] != b[k]
    ensures Less(a, b) <==> k < |b| && (k == |a| || a[k] < b[k])
    decreases k
  {
    if k > 0 {
      assert a[0] == a[..k][0] == b[..k][0] == b[0];
      assert a[1..][..k - 1] == a[..k][1..] == b[..k][1..] == b[1..][..k - 1];
      LessAtFirstDifference(a[1..], b[1..], k - 1);
    }
  }

  ghost predicate IsLeast(m: Bytes, s: set<Bytes>) {
    m in s && forall y :: y in s && y != m ==> Less(m, y)
  }

  lemma BelowLeast(x: Bytes, m: Bytes, s: set<Bytes>)
    requires IsLeast(m, s) && Less(x, m)
    ensures forall y :: y in s ==> Less(x, y)
  {
    forall y | y in s ensures Less(x, y) {
      if y != m {
        LessTransitive(x, m, y);
      }
    }
  }

  lemma {:induction false} LeastExists(s: set<Bytes>)
    requires s != {}
    ensures exists m :: IsLeast(m, s)
    decreases |s|
  {
    var x :| x in s;
    var rest := s - {x};
    if rest == {} {
      assert s == {x};
      assert IsLeast(x, s);
    } else {
      LeastExists(rest);
      var m :| IsLeast(m, rest);
      LessTotal(x, m);
      if Less(m, x) {
        assert IsLeast(m, s);
      } else {
        BelowLeast(x, m, rest);
        assert IsLeast(x, s);
      }
    }
  }

  ghost function Least(s: set<Bytes>): (m: Bytes)
    requires s != {}
    ensures IsLeast(m, s)
  {
    LeastExists(s);
    var m :| IsLeast(m, s);
    m
  }

  /** The elements of a std::set in the order it is walked. */
  ghost function Sorted(s: set<Bytes>): seq<Bytes>
    decreases |s|
  {
    if s == {} then [] else [Least(s)] + Sorted(s - {Least(s)})
  }

  lemma {:induction false} SortedElements(s: set<Bytes>)
    ensures forall x :: x in Sorted(s) <==> x in s
    decreases |s|
  {
    if s != {} {
      SortedElements(s - {Least(s)});
    }
  }

  /** The walk is in strictly ascending order, so no element comes twice. */
  lemma {:induction false} SortedAscends(s: set<Bytes>, i: nat, j: nat)
    requires i < j < |Sorted(s)|
    ensures Less(Sorted(s)[i], Sorted(s)[j])
    decreases |s|
  {
    hide Less, Least;
    var rest := s - {Least(s)};
    if i == 0 {
      SortedElements(rest);
      assert Sorted(s)[j] == Sorted(rest)[j - 1] && Sorted(rest)[j - 1] in Sorted(rest);
    } else {
      SortedAscends(rest, i - 1, j - 1);
    }
  }

  /** Takes the least element out: one step of walking a std::set. */
  method PopLeast(s: set<Bytes>) returns (x: Bytes, rest: set<Bytes>)
    requires s != {}
    ensures x == Least(s) && rest == s - {x}
  {
    LeastExists(s);
    var m :| m in s && forall y :: y in s && y != m ==> Less(m, y);
    LessTotal(m, Least(s));
    x, rest := m, s - {m};
  }

  // ---------- the multimap ----------

  function LowerByte(c: Byte): Byte {
    if 'A' <= c <= 'Z' then (c as int + 32) as char else c
  }

  function ToLower(s: Bytes): Bytes {
    seq(|s|, i requires 0 <= i < |s| => LowerByte(s[i]))
  }

  /** The same byte, or the same letter in the other case. */
  predicate Twins(x: Byte, y: Byte) {
    || x == y
    || ('A' <= x <= 'Z' && y as int == x as int + ('a' as int - 'A' as int))
    || ('A' <= y <= 'Z' && x as int == y as int + ('a' as int - 'A' as int))
  }

  /** Keys are found alike exactly if they agree place by place but for the case of letters. */
  lemma AlikeButForCase(a: Bytes, b: Bytes)
    ensures ToLower(a) == ToLower(b) <==> |a| == |b| && forall i :: 0 <= i < |a| ==> Twins(a[i], b[i])
  {
    if ToLower(a) == ToLower(b) {
      assert |a| == |ToLower(a)| == |b|;
      forall i | 0 <= i < |a| ensures Twins(a[i], b[i]) {
        assert ToLower(a)[i] == ToLower(b)[i];
      }
    }
  }

  type Table = map<Bytes, set<Bytes>>

  /** The values under a key, none if it is absent. */
  function ValuesOf(m: Table, key: Bytes): set<Bytes> {
    if key in m then m[key] else {}
  }

  ghost predicate NoEmptySets(m: Table) {
    forall k :: k in m ==> m[k] != {}
  }

  /** The index holds, for each lower-cased key, exactly its spellings. */
  ghost predicate Indexes(keys: Table, m: Table) {
    && (forall k :: k in m ==> ToLower(k) in keys && k in keys[ToLower(k)])
    && (forall l, k :: l in keys && k in keys[l] ==> k in m && ToLower(k) == l)
    && NoEmptySets(keys)
  }

  ghost function PairsUnder(key: Bytes, values: seq<Bytes>): seq<Pair> {
    if values == [] then [] else [(key, values[0])] + PairsUnder(key, values[1..])
  }

  /** All pairs of some keys, key by key, each with its values in order. */
  ghost function PairsOf(m: Table, keys: seq<Bytes>): seq<Pair> {
    if keys == [] then [] else PairsUnder(keys[0], Sorted(ValuesOf(m, keys[0]))) + PairsOf(m, keys[1..])
  }

  ghost function AllPairs(m: Table): seq<Pair> {
    PairsOf(m, Sorted(m.Keys))
  }

  /** Both maps after some values are added under a key. */
  function WithValues(m: Table, key: Bytes, values: set<Bytes>): Table {
    m[key := ValuesOf(m, key) + values]
  }

  lemma IndexKept(keys: Table, m: Table, key: Bytes, values: set<Bytes>)
    requires NoEmptySets(m) && Indexes(keys, m) && values != {}
    ensures NoEmptySets(WithValues(m, key, values))
    ensures Indexes(WithValues(keys, ToLower(key), {key}), WithValues(m, key, values))
  {
    hide ToLower;
    var m1, keys1 := WithValues(m, key, values), WithValues(keys, ToLower(key), {key});
    forall k | k in m1 ensures ToLower(k) in keys1 && k in keys1[ToLower(k)] {
      if k != key {
        assert k in m;
      }
    }
    forall l, k | l in keys1 && k in keys1[l] ensures k in m1 && ToLower(k) == l {
      if k != key {
        assert l in keys && k in keys[l];
      }
    }
  }

  /** The keys that differ from this one in case only. */
  function Spellings(m: Table, key: Bytes): set<Bytes> {
    set k | k in m && ToLower(k) == ToLower(key)
  }

  lemma SpellingsIndexed(keys: Table, m: Table, key: Bytes)
    requires Indexes(keys, m)
    ensures Spellings(m, key) == ValuesOf(keys, ToLower(key))
  {
    hide ToLower;
  }

  lemma NothingSorted()
    ensures Sorted({}) == []
  {
  }

  lemma SortedStep(s: set<Bytes>)
    requires s != {}
    ensures Sorted(s) == [Least(s)] + Sorted(s - {Least(s)})
  {
  }

  /** The values under some keys, key by key. */
  ghost function ValuesInOrder(m: Table, keys: seq<Bytes>): seq<Bytes> {
    if keys == [] then [] else Sorted(ValuesOf(m, keys[0])) + ValuesInOrder(m, keys[1..])
  }

  /** The values come spelling by spelling, each spelling's in their own order. */
  lemma {:induction false} ValuesBySpelling(m: Table, keys: seq<Bytes>)
    ensures ValuesInOrder(m, keys) == Flat(seq(|keys|, i requires 0 <= i < |keys| => Sorted(ValuesOf(m, keys[i]))))
    decreases |keys|
  {
    var parts := seq(|keys|, i requires 0 <= i < |keys| => Sorted(ValuesOf(m, keys[i])));
    if keys != [] {
      ValuesBySpelling(m, keys[1..]);
      assert parts[1..] == seq(|keys[1..]|, i requires 0 <= i < |keys[1..]| => Sorted(ValuesOf(m, keys[1..][i])));
    }
  }

  /** A value is found under a key exactly if it was added under a spelling of it. */
  lemma {:induction false} FoundIfAdded(m: Table, key: Bytes, v: Bytes)
    ensures v in ValuesInOrder(m, Sorted(Spellings(m, key)))
      <==> exists k :: k in m && ToLower(k) == ToLower(key) && v in m[k]
  {
    SortedElements(Spellings(m, key));
    InOrderElements(m, Sorted(Spellings(m, key)), v);
    hide ToLower, Sorted;
    if k :| k in m && ToLower(k) == ToLower(key) && v in m[k] {
      assert k in Spellings(m, key);
    }
  }

  lemma {:induction false} InOrderElements(m: Table, keys: seq<Bytes>, v: Bytes)
    ensures v in ValuesInOrder(m, keys) <==> exists k :: k in keys && v in ValuesOf(m, k)
    decreases |keys|
  {
    if keys != [] {
      SortedElements(ValuesOf(m, keys[0]));
      InOrderElements(m, keys[1..], v);
      hide Sorted;
      assert forall k :: k in keys <==> k == keys[0] || k in keys[1..];
    }
  }

  /** Key by key the union of two maps. */
  function Merged(a: Table, b: Table): Table {
    map k | k in a.Keys + b.Keys :: ValuesOf(a, k) + ValuesOf(b, k)
  }

  ghost function MergedExcept(a: Table, b: Table, todo: set<Bytes>): Table {
    map k | k in a.Keys + (b.Keys - todo) :: ValuesOf(a, k) + if k in todo then {} else ValuesOf(b, k)
  }

  lemma MergeEnds(a: Table, b: Table)
    ensures MergedExcept(a, b, b.Keys) == a && MergedExcept(a, b, {}) == Merged(a, b)
  {
    var first, last := MergedExcept(a, b, b.Keys), MergedExcept(a, b, {});
    assert first.Keys == a.Keys && last.Keys == Merged(a, b).Keys;
    forall k | k in a ensures first[k] == a[k] {
    }
    forall k | k in last ensures last[k] == Merged(a, b)[k] {
    }
  }

  lemma HasValues(m: Table, key: Bytes)
    requires NoEmptySets(m) && key in m
    ensures m[key] != {}
  {
  }

  lemma MergeOne(a: Table, b: Table, todo: set<Bytes>, key: Bytes)
    requires key in todo && todo <= b.Keys
    ensures WithValues(MergedExcept(a, b, todo), key, b[key]) == MergedExcept(a, b, todo - {key})
  {
    var before, after := WithValues(MergedExcept(a, b, todo), key, b[key]), MergedExcept(a, b, todo - {key});
    assert before.Keys == after.Keys;
    forall k | k in after ensures before[k] == after[k] {
      if k == key {
        assert before[key] == ValuesOf(a, key) + {} + b[key] || key !in a.Keys;
      }
    }
  }

  class Multimap {
    var map_: Table
    var keys_: Table

    ghost predicate Valid()
      reads this
    {
      NoEmptySets(map_) && Indexes(keys_, map_)
    }

    constructor ()
      ensures Valid() && map_ == map[]
    {
      map_, keys_ := map[], map[];
    }

    method Add(key: Bytes, value: Bytes)
      requires Valid()
      modifies this
      ensures Valid()
      ensures map_ == old(map_)[key := ValuesOf(old(map_), key) + {value}]
    {
      hide ToLower, Indexes, NoEmptySets;
      IndexKept(keys_, map_, key, {value});
      map_ := WithValues(map_, key, {value});
      keys_ := WithValues(keys_, ToLower(key), {key});
    }

    /** Works on a copy of the other map, which may be this one. */
    method AddAll(headers: Multimap)
      requires Valid() && headers.Valid()
      modifies this
      ensures Valid()
      ensures map_ == Merged(old(map_), old(headers.map_))
    {
      hide ToLower, Indexes, NoEmptySets, MergedExcept;
      var m := headers.map_;
      ghost var before := map_;
      var todo := m.Keys;
      MergeEnds(before, m);
      while todo != {}
        invariant Valid() && todo <= m.Keys
        invariant map_ == MergedExcept(before, m, todo)
        decreases todo
      {
        var key :| key in todo;
        HasValues(m, key);
        IndexKept(keys_, map_, key, m[key]);
        MergeOne(before, m, todo, key);
        todo := todo - {key};
        map_ := WithValues(map_, key, m[key]);
        keys_ := WithValues(keys_, ToLower(key), {key});
      }
    }

    /** Is there a key that differs in case only? */
    method Contains(key: Bytes) returns (found: bool)
      requires Valid()
      ensures found <==> exists k :: k in map_ && ToLower(k) == ToLower(key)
    {
      hide ToLower;
      found := ToLower(key) in keys_;
      if found {
        var k :| k in keys_[ToLower(key)];
        assert k in map_ && ToLower(k) == ToLower(key);
      }
    }

    /** The values of every spelling of the key, spelling by spelling in order. */
    method Get(key: Bytes) returns (result: seq<Bytes>)
      requires Valid()
      ensures result == ValuesInOrder(map_, Sorted(Spellings(map_, key)))
    {
      hide ToLower, Sorted, Least;
      result := [];
      SpellingsIndexed(keys_, map_, key);
      NothingSorted();
      if ToLower(key) in keys_ {
        var todo := keys_[ToLower(key)];
        while todo != {}
          invariant todo <= Spellings(map_, key)
          invariant result + ValuesInOrder(map_, Sorted(todo)) == ValuesInOrder(map_, Sorted(Spellings(map_, key)))
          decreases todo
        {
          ghost var before, was := result, todo;
          var k;
          k, todo := PopLeast(todo);
          SortedStep(was);
          assert Sorted(was)[0] == k && Sorted(was)[1..] == Sorted(todo);
          var values := Listed(map_[k]);
          result := result + values;
          assert before + (values + ValuesInOrder(map_, Sorted(todo))) == result + ValuesInOrder(map_, Sorted(todo));
        }
      }
    }

    /** The lower-cased keys of all that was added, in order. */
    method Keys() returns (keys: seq<Bytes>)
      requires Valid()
      ensures keys == Sorted(set k | k in map_ :: ToLower(k))
    {
      hide ToLower, Sorted;
      keys := Listed(keys_.Keys);
      forall l ensures l in keys_ <==> l in (set k | k in map_ :: ToLower(k)) {
        if l in keys_ {
          var k :| k in keys_[l];
          assert k in map_ && ToLower(k) == l;
        }
      }
      assert keys_.Keys == set k | k in map_ :: ToLower(k);
    }

    /** ToQueryString: all pairs in key order, values in order under each key. */
    method ToQueryString() returns (query: Bytes)
      requires Valid()
      ensures query == QueryOf(AllPairs(map_))
    {
      query := [];
      var todo := map_.Keys;
      while todo != {}
        invariant Continued(query, PairsOf(map_, Sorted(todo))) == QueryOf(AllPairs(map_))
        invariant todo <= map_.Keys
        decreases |todo|
      {
        ghost var rest := PairsOf(map_, Sorted(todo - {Least(todo)}));
        assert Sorted(todo)[1..] == Sorted(todo - {Least(todo)});
        var key;
        key, todo := PopLeast(todo);
        query := WriteValues(query, key, map_[key], rest);
      }
    }
  }

  method Listed(s: set<Bytes>) returns (q: seq<Bytes>)
    ensures q == Sorted(s)
    ensures forall x :: x in q <==> x in s
  {
    q := [];
    var todo := s;
    SortedElements(s);
    while todo != {}
      invariant q + Sorted(todo) == Sorted(s)
      decreases |todo|
    {
      ghost var before, was := q, todo;
      var x;
      x, todo := PopLeast(todo);
      assert Sorted(was) == [x] + Sorted(todo);
      q := q + [x];
      assert before + ([x] + Sorted(todo)) == q + Sorted(todo);
    }
  }

  /** The inner loop: the pairs of one key. */
  method WriteValues(out: Bytes, key: Bytes, values: set<Bytes>, ghost rest: seq<Pair>) returns (query: Bytes)
    ensures Continued(query, rest) == Continued(out, PairsUnder(key, Sorted(values)) + rest)
  {
    hide Field, Continued;
    query := out;
    var todo := values;
    while todo != {}
      invariant Continued(query, PairsUnder(key, Sorted(todo)) + rest) == Continued(out, PairsUnder(key, Sorted(values)) + rest)
      decreases |todo|
    {
      var value;
      ghost var was := todo;
      value, todo := PopLeast(todo);
      WriteStep(query, key, value, was, rest);
      query := if query == [] then Field((key, value)) else query + "&" + Field((key, value));
    }
    assert PairsUnder(key, Sorted({})) + rest == rest;
  }

  lemma WriteStep(query: Bytes, key: Bytes, value: Bytes, was: set<Bytes>, rest: seq<Pair>)
    requires was != {} && value == Least(was)
    ensures var next := if query == [] then Field((key, value)) else query + "&" + Field((key, value));
      Continued(next, PairsUnder(key, Sorted(was - {value})) + rest) == Continued(query, PairsUnder(key, Sorted(was)) + rest)
  {
    hide Field, Continued, Least;
    var others := PairsUnder(key, Sorted(was - {value})) + rest;
    var pairs := PairsUnder(key, Sorted(was)) + rest;
    assert Sorted(was)[1..] == Sorted(was - {value});
    assert pairs[0] == (key, value) && pairs[1..] == others;
    ContinuedStep(query, pairs);
  }

  // ---------- the query string determines the multimap ----------

  lemma {:induction false} PairsUnderElements(key: Bytes, values: seq<Bytes>)
    ensures forall p :: p in PairsUnder(key, values) <==> p.0 == key && p.1 in values
    decreases |values|
  {
    if values != [] {
      PairsUnderElements(key, values[1..]);
      assert forall v :: v in values <==> v == values[0] || v in values[1..];
    }
  }

  lemma {:induction false} PairsOfElements(m: Table, keys: seq<Bytes>)
    ensures forall p :: p in PairsOf(m, keys) <==> p.0 in keys && p.1 in ValuesOf(m, p.0)
    decreases |keys|
  {
    if keys != [] {
      PairsUnderElements(keys[0], Sorted(ValuesOf(m, keys[0])));
      SortedElements(ValuesOf(m, keys[0]));
      PairsOfElements(m, keys[1..]);
      assert forall k :: k in keys <==> k == keys[0] || k in keys[1..];
    }
  }

  predicate Before(p: Pair, q: Pair) {
    Less(p.0, q.0) || (p.0 == q.0 && Less(p.1, q.1))
  }

  ghost predicate Ascending(pairs: seq<Pair>) {
    forall i, j :: 0 <= i < j < |pairs| ==> Before(pairs[i], pairs[j])
  }

  lemma {:induction false} PairsUnderAscend(key: Bytes, values: seq<Bytes>)
    requires forall i, j :: 0 <= i < j < |values| ==> Less(values[i], values[j])
    ensures Ascending(PairsUnder(key, values))
    decreases |values|
  {
    hide Less;
    if values != [] {
      PairsUnderAscend(key, values[1..]);
      PairsUnderElements(key, values[1..]);
      var rest := PairsUnder(key, values[1..]);
      forall j | 0 <= j < |rest| ensures Before((key, values[0]), rest[j]) {
        assert rest[j] in rest;
        var k :| 0 <= k < |values[1..]| && values[1..][k] == rest[j].1;
      }
    }
  }

  lemma {:induction false} PairsOfAscend(m: Table, keys: seq<Bytes>)
    requires forall i, j :: 0 <= i < j < |keys| ==> Less(keys[i], keys[j])
    ensures Ascending(PairsOf(m, keys))
    decreases |keys|
  {
    if keys != [] {
      var values := Sorted(ValuesOf(m, keys[0]));
      forall i, j | 0 <= i < j < |values| ensures Less(values[i], values[j]) {
        SortedAscends(ValuesOf(m, keys[0]), i, j);
      }
      hide Less, Sorted;
      PairsUnderAscend(keys[0], values);
      PairsUnderElements(keys[0], values);
      PairsOfAscend(m, keys[1..]);
      PairsOfElements(m, keys[1..]);
      var first, rest := PairsUnder(keys[0], values), PairsOf(m, keys[1..]);
      forall i, j | 0 <= i < |first| && 0 <= j < |rest| ensures Before(first[i], rest[j]) {
        assert first[i] in first && rest[j] in rest;
        var k :| 0 <= k < |keys[1..]| && keys[1..][k] == rest[j].0;
      }
      AscendingAppend(first, rest);
    }
  }

  lemma AscendingAppend(a: seq<Pair>, b: seq<Pair>)
    requires Ascending(a) && Ascending(b)
    requires forall i, j :: 0 <= i < |a| && 0 <= j < |b| ==> Before(a[i], b[j])
    ensures Ascending(a + b)
  {
    hide Before;
  }

  /** The pairs of a query string ascend by key, and by value under each key. */
  lemma AllPairsAscend(m: Table)
    ensures Ascending(AllPairs(m))
  {
    var keys := Sorted(m.Keys);
    forall i, j | 0 <= i < j < |keys| ensures Less(keys[i], keys[j]) {
      SortedAscends(m.Keys, i, j);
    }
    hide Sorted, Less;
    PairsOfAscend(m, keys);
  }

  /** Two multimaps with the same query string hold the same keys and values. */
  lemma QueryDetermines(a: Table, b: Table)
    requires NoEmptySets(a) && NoEmptySets(b) && QueryOf(AllPairs(a)) == QueryOf(AllPairs(b))
    ensures a == b
  {
    hide QueryOf, Parse, NoEmptySets;
    QueryRoundTrip(AllPairs(a));
    QueryRoundTrip(AllPairs(b));
    forall k, v ensures (k in a && v in a[k]) <==> (k in b && v in b[k]) {
      PairListed(a, k, v);
      PairListed(b, k, v);
    }
    SameContents(a, b);
  }

  /** The listed pairs are exactly the key-value pairs of the map. */
  lemma PairListed(m: Table, k: Bytes, v: Bytes)
    ensures (k, v) in AllPairs(m) <==> k in m && v in m[k]
  {
    SortedElements(m.Keys);
    PairsOfElements(m, Sorted(m.Keys));
    hide PairsOf, Sorted;
  }

  lemma SameContents(a: Table, b: Table)
    requires NoEmptySets(a) && NoEmptySets(b)
    requires forall k, v :: (k in a && v in a[k]) <==> (k in b && v in b[k])
    ensures a == b
  {
    forall k ensures k in a <==> k in b {
      if k in a {
        var v :| v in a[k];
        assert k in b;
      }
      if k in b {
        var v :| v in b[k];
        assert k in a;
      }
    }
    forall k | k in a ensures a[k] == b[k] {
      assert forall v :: v in a[k] <==> v in b[k];
    }
  }
}
