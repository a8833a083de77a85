// Server-side composition (src/client.cc:460-682): how many parts the sources make, which
// ranges are copied, and what the copies put together.
module ComposePlan {
  import opened Wrappers
  import opened Buffers
  import opened PartPlan

  const WORDS_64: nat := 0x1_0000_0000_0000_0000

  type Word64 = n: nat | n < WORDS_64

  function Wrap(n: int): Word64 {
    n % WORDS_64
  }

  /** A source object; `recorded` is the size BuildHeaders leaves behind. */
  datatype Source = Source(offset: Option<Word64>, length: Option<Word64>, ssec: bool, recorded: Option<Word64>)

  function Start(s: Source): Word64 {
    if s.offset.Some? then s.offset.value else 0
  }

  /** How many bytes of an object of `size` bytes are selected. */
  function Selected(s: Source, size: Word64): Word64 {
    if s.length.Some? then s.length.value
    else if s.offset.Some? then Wrap(size - s.offset.value)
    else size
  }

  /** The range checks of BuildHeaders (src/args.cc:370-391), sums wrapping as size_t does. */
  predicate RangeAccepted(s: Source, size: Word64) {
    && (s.offset.Some? ==> s.offset.value < size)
    && (s.length.Some? ==> s.length.value <= size && Wrap(Start(s) + s.length.value) <= size)
  }

  /** How many copy requests a selection of n bytes takes, and the size of the last one. */
  function PartsFor(n: nat): nat {
    if n > MAX_PART_SIZE then CeilDiv(n, MAX_PART_SIZE) else 1
  }

  function LastPart(n: nat): nat {
    if n <= MAX_PART_SIZE then n else if n % MAX_PART_SIZE == 0 then MAX_PART_SIZE else n % MAX_PART_SIZE
  }

  function TotalBytes(sources: seq<Source>, sizes: seq<Word64>, k: nat): nat
    requires k <= |sources| <= |sizes|
  {
    if k == 0 then 0 else TotalBytes(sources, sizes, k - 1) + Selected(sources[k - 1], sizes[k - 1])
  }

  /** The number of copies the first k sources take. */
  function TotalParts(sources: seq<Source>, sizes: seq<Word64>, k: nat): nat
    requires k <= |sources| <= |sizes|
  {
    if k == 0 then 0 else TotalParts(sources, sizes, k - 1) + PartsFor(Selected(sources[k - 1], sizes[k - 1]))
  }

  /** Reachable securely, of known size, range inside, and long enough unless it ends the object. */
  predicate SourceChecked(https: bool, s: Source, stat: Option<Word64>, isLast: bool) {
    && (s.ssec ==> https)
    && stat.Some?
    && RangeAccepted(s, stat.value)
    && (!isLast ==> Selected(s, stat.value) >= MIN_PART_SIZE)
  }

  /** One source passes: checked, and no short part before the end. */
  predicate SourceAccepted(https: bool, s: Source, stat: Option<Word64>, isLast: bool) {
    SourceChecked(https, s, stat, isLast) && (!isLast ==> LastPart(Selected(s, stat.value)) >= MIN_PART_SIZE)
  }

  function ValueOr(w: Option<Word64>, default: Word64): Word64 {
    if w.Some? then w.value else default
  }

  /** The sizes the server reported. */
  function Known(stats: seq<Option<Word64>>): seq<Word64> {
    seq(|stats|, i requires 0 <= i < |stats| => ValueOr(stats[i], 0))
  }

  /** Exactly what the first pass lets through. */
  predicate Accepted(https: bool, sources: seq<Source>, stats: seq<Option<Word64>>)
    requires |stats| == |sources|
  {
    && (forall i :: 0 <= i < |sources| ==> SourceAccepted(https, sources[i], stats[i], i == |sources| - 1))
    && TotalBytes(sources, Known(stats), |sources|) <= MAX_OBJECT_SIZE
    && TotalParts(sources, Known(stats), |sources|) <= MAX_MULTIPART_COUNT
  }

  /** The sources as they stand once their sizes have been recorded. */
  function Measured(sources: seq<Source>, sizes: seq<Word64>): seq<Source>
    requires |sources| == |sizes|
  {
    seq(|sources|, i requires 0 <= i < |sources| => sources[i].(recorded := Some(sizes[i])))
  }

  // ---------- the copies ----------

  /** One UploadPartCopy: its number, its source, and the byte range it asks for, if any. */
  datatype Copy = Copy(number: nat, source: nat, range: Option<(Word64, Word64)>)

  /** The copies of a selection larger than a part (the inner while loop). */
  function Split(number: nat, source: nat, offset: Word64, size: nat): seq<Copy>
    decreases size
  {
    if size == 0 then []
    else
      var length := Min(size, MAX_PART_SIZE);
      [Copy(number, source, Some((offset, Wrap(offset + length - 1))))]
      + Split(number + 1, source, Wrap(offset + length), size - length)
  }

  function SourceCopies(number: nat, source: nat, s: Source, size: Word64): seq<Copy> {
    var n := Selected(s, size);
    if n <= MAX_PART_SIZE then
      [Copy(number, source,
            if s.length.Some? || s.offset.Some? then Some((Start(s), Wrap(Start(s) + n - 1))) else None)]
    else Split(number, source, Start(s), n)
  }

  /** The copies of the first k sources. */
  function CopyPlan(sources: seq<Source>, sizes: seq<Word64>, k: nat): seq<Copy>
    requires k <= |sources| <= |sizes|
  {
    if k == 0 then []
    else
      var before := CopyPlan(sources, sizes, k - 1);
      before + SourceCopies(|before| + 1, k - 1, sources[k - 1], sizes[k - 1])
  }

  // ---------- what the copies denote ----------

  /** A server's reading of a copy: the whole object, or a range that lies inside it. */
  function CopiedBytes(c: Copy, objects: seq<Bytes>): Option<Bytes> {
    if c.source >= |objects| then None
    else
      var object' := objects[c.source];
      match c.range
      case None => Some(object')
      case Some((first, last)) => if first <= last < |object'| then Some(object'[first..last + 1]) else None
  }

  function Assembled(copies: seq<Copy>, objects: seq<Bytes>): Option<Bytes>
    decreases |copies|
  {
    if copies == [] then Some([])
    else
      var k := |copies| - 1;
      Join(Assembled(copies[..k], objects), CopiedBytes(copies[k], objects))
  }

  /** The selection is not empty by request, and does not run past the object. */
  predicate SelectionInside(s: Source, size: Word64) {
    s.length != Some(0) && Start(s) + Selected(s, size) <= size
  }

  /** Objects small enough for size_t, with these sizes. */
  predicate Holds(objects: seq<Bytes>, sizes: seq<Word64>) {
    |sizes| <= |objects| && forall i :: 0 <= i < |sizes| ==> |objects[i]| == sizes[i]
  }

  predicate AllInside(sources: seq<Source>, sizes: seq<Word64>, k: nat)
    requires k <= |sources| <= |sizes|
  {
    forall i :: 0 <= i < k ==> SelectionInside(sources[i], sizes[i])
  }

  /** The selected stretches of the first k objects, one after the other. */
  function Selection(sources: seq<Source>, sizes: seq<Word64>, objects: seq<Bytes>, k: nat): Bytes
    requires k <= |sources| <= |sizes| && Holds(objects, sizes) && AllInside(sources, sizes, k)
  {
    if k == 0 then []
    else
      var s := sources[k - 1];
      Selection(sources, sizes, objects, k - 1) + objects[k - 1][Start(s)..Start(s) + Selected(s, sizes[k - 1])]
  }

  function Join(a: Option<Bytes>, b: Option<Bytes>): Option<Bytes> {
    if a.Some? && b.Some? then Some(a.value + b.value) else None
  }

  lemma JoinAssociative(a: Option<Bytes>, b: Option<Bytes>, c: Option<Bytes>)
    ensures Join(Join(a, b), c) == Join(a, Join(b, c))
  {
    if a.Some? && b.Some? && c.Some? {
      assert a.value + b.value + c.value == a.value + (b.value + c.value);
    }
  }

  lemma JoinEmpty(a: Option<Bytes>)
    ensures Join(a, Some([])) == a == Join(Some([]), a)
  {
    if a.Some? {
      assert a.value + [] == a.value == [] + a.value;
    }
  }

  lemma {:induction false} AssembledAppend(a: seq<Copy>, b: seq<Copy>, objects: seq<Bytes>)
    ensures Assembled(a + b, objects) == Join(Assembled(a, objects), Assembled(b, objects))
    decreases |b|
  {
    hide CopiedBytes, Join;
    if b == [] {
      assert a + b == a;
      JoinEmpty(Assembled(a, objects));
    } else {
      var k := |b| - 1;
      assert (a + b)[..|a + b| - 1] == a + b[..k];
      AssembledAppend(a, b[..k], objects);
      JoinAssociative(Assembled(a, objects), Assembled(b[..k], objects), CopiedBytes(b[k], objects));
    }
  }

  lemma AssembledOne(c: Copy, objects: seq<Bytes>)
    ensures Assembled([c], objects) == CopiedBytes(c, objects)
  {
    hide CopiedBytes, Join;
    assert [c][..0] == [];
    JoinEmpty(CopiedBytes(c, objects));
  }

  lemma AssembledFirst(c: Copy, rest: seq<Copy>, objects: seq<Bytes>)
    ensures Assembled([c] + rest, objects) == Join(CopiedBytes(c, objects), Assembled(rest, objects))
  {
    AssembledAppend([c], rest, objects);
    AssembledOne(c, objects);
  }

  lemma WrapFacts(n: int)
    ensures 0 <= n < WORDS_64 ==> Wrap(n) == n
    ensures WORDS_64 <= n < 2 * WORDS_64 ==> Wrap(n) == n - WORDS_64
    ensures 0 - WORDS_64 <= n < 0 ==> Wrap(n) == n + WORDS_64
  {
  }

  lemma JoinSlices(o: Bytes, a: nat, b: nat, c: nat)
    requires a <= b <= c <= |o|
    ensures Join(Some(o[a..b]), Some(o[b..c])) == Some(o[a..c])
  {
    assert o[a..c] == o[a..b] + o[b..c];
  }

  lemma SplitUnfold(number: nat, source: nat, offset: Word64, size: nat)
    requires size > 0 && offset + size < WORDS_64
    ensures var length := Min(size, MAX_PART_SIZE);
      Split(number, source, offset, size)
      == [Copy(number, source, Some((offset, offset + length - 1)))] + Split(number + 1, source, offset + length, size - length)
  {
    var length := Min(size, MAX_PART_SIZE);
    WrapFacts(offset + length - 1);
    WrapFacts(offset + length);
    hide Wrap;
  }

  lemma CopiedSlice(number: nat, source: nat, a: Word64, b: nat, objects: seq<Bytes>)
    requires source < |objects| && a < b <= |objects[source]| < WORDS_64
    ensures CopiedBytes(Copy(number, source, Some((a, b - 1))), objects) == Some(objects[source][a..b])
  {
  }

  lemma SplitDenotesStep(number: nat, source: nat, offset: Word64, next: Word64, end: Word64, objects: seq<Bytes>)
    requires source < |objects| && offset < end <= |objects[source]| < WORDS_64
    requires next == offset + Min(end - offset, MAX_PART_SIZE)
    requires Assembled(Split(number + 1, source, next, end - next), objects) == Some(objects[source][next..end])
    ensures Assembled(Split(number, source, offset, end - offset), objects) == Some(objects[source][offset..end])
  {
    hide Split, Assembled, CopiedBytes, Join;
    SplitUnfold(number, source, offset, end - offset);
    assert offset < next <= end;
    hide Min;
    var c, rest := Copy(number, source, Some((offset, next - 1))), Split(number + 1, source, next, end - next);
    CopiedSlice(number, source, offset, next, objects);
    AssembledFirst(c, rest, objects);
    JoinSlices(objects[source], offset, next, end);
  }

  /** The split copies put the selection together again, without gap or overlap. */
  lemma {:induction false} SplitDenotes(number: nat, source: nat, offset: Word64, size: nat, objects: seq<Bytes>)
    requires source < |objects| && offset + size <= |objects[source]| < WORDS_64
    ensures Assembled(Split(number, source, offset, size), objects) == Some(objects[source][offset..offset + size])
    decreases size
  {
    hide Assembled;
    if size == 0 {
      NothingAssembled(objects);
      assert objects[source][offset..offset + size] == [];
    } else {
      var length := Min(size, MAX_PART_SIZE);
      SplitDenotes(number + 1, source, offset + length, size - length, objects);
      SplitDenotesStep(number, source, offset, offset + length, offset + size, objects);
    }
  }

  /** A selection that runs past the object has a copy the server cannot satisfy. */
  lemma {:induction false} SplitOutside(number: nat, source: nat, offset: Word64, size: nat, objects: seq<Bytes>)
    requires source < |objects| && offset <= |objects[source]| < offset + size && |objects[source]| < WORDS_64
    ensures Assembled(Split(number, source, offset, size), objects) == None
    decreases size
  {
    var length := Min(size, MAX_PART_SIZE);
    WrapFacts(offset + length - 1);
    WrapFacts(offset + length);
    hide Wrap, Assembled;
    var c := Copy(number, source, Some((offset, Wrap(offset + length - 1))));
    AssembledFirst(c, Split(number + 1, source, Wrap(offset + length), size - length), objects);
    if offset + length <= |objects[source]| {
      SplitOutside(number + 1, source, offset + length, size - length, objects);
    }
  }

  /** One accepted source: its copies denote its selection exactly when the selection is inside. */
  lemma SourceDenotes(number: nat, source: nat, s: Source, objects: seq<Bytes>)
    requires source < |objects| && |objects[source]| < WORDS_64 && RangeAccepted(s, |objects[source]|)
    ensures var size := |objects[source]|;
      Assembled(SourceCopies(number, source, s, size), objects) ==
      if SelectionInside(s, size) then Some(objects[source][Start(s)..Start(s) + Selected(s, size)]) else None
  {
    var size := |objects[source]|;
    var n := Selected(s, size);
    WrapFacts(Start(s) + n);
    WrapFacts(Start(s) + n - 1);
    WrapFacts(size - Start(s));
    hide Wrap;
    if n <= MAX_PART_SIZE {
      var c := SourceCopies(number, source, s, size)[0];
      AssembledOne(c, objects);
      assert SourceCopies(number, source, s, size) == [c];
      assert objects[source][0..size] == objects[source];
    } else if SelectionInside(s, size) {
      SplitDenotes(number, source, Start(s), n, objects);
    } else {
      SplitOutside(number, source, Start(s), n, objects);
    }
  }

  /**
   * The composed object is the selections joined exactly when no source asks for zero bytes and
   * no selection runs past its object; otherwise some copy asks for a range that does not exist.
   */
  lemma {:induction false} PlanDenotes(sources: seq<Source>, sizes: seq<Word64>, objects: seq<Bytes>, k: nat)
    requires k <= |sources| <= |sizes| && Holds(objects, sizes)
    requires forall i :: 0 <= i < k ==> RangeAccepted(sources[i], sizes[i])
    ensures Assembled(CopyPlan(sources, sizes, k), objects) ==
      if AllInside(sources, sizes, k) then Some(Selection(sources, sizes, objects, k)) else None
    decreases k
  {
    hide SourceCopies, Selected, Start, SelectionInside, RangeAccepted, Assembled;
    if k == 0 {
      NothingAssembled(objects);
    } else {
      var before := CopyPlan(sources, sizes, k - 1);
      PlanDenotes(sources, sizes, objects, k - 1);
      SourceDenotes(|before| + 1, k - 1, sources[k - 1], objects);
      AssembledAppend(before, SourceCopies(|before| + 1, k - 1, sources[k - 1], sizes[k - 1]), objects);
      assert AllInside(sources, sizes, k) <==>
          AllInside(sources, sizes, k - 1) && SelectionInside(sources[k - 1], sizes[k - 1]);
    }
  }

  lemma NothingAssembled(objects: seq<Bytes>)
    ensures Assembled([], objects) == Some([])
  {
  }

  // ---------- how many copies, and how large ----------

  /** How many bytes a copy moves. */
  function CopySize(c: Copy, sizes: seq<Word64>): int
    requires c.source < |sizes|
  {
    if c.range.Some? then c.range.value.1 - c.range.value.0 + 1 else sizes[c.source]
  }

  /** Numbers run on from `number`, all copies fit in a part, and those before the last fill one. */
  ghost predicate Regular(copies: seq<Copy>, number: nat, source: nat, sizes: seq<Word64>, last: nat)
    requires source < |sizes|
  {
    forall k :: 0 <= k < |copies| ==>
      && copies[k].number == number + k
      && copies[k].source == source
      && CopySize(copies[k], sizes) == if k < |copies| - 1 then MAX_PART_SIZE else last
  }

  lemma PartsStep(size: nat)
    requires size > MAX_PART_SIZE
    ensures PartsFor(size) == 1 + PartsFor(size - MAX_PART_SIZE)
    ensures LastPart(size) == LastPart(size - MAX_PART_SIZE)
  {
    var m := MAX_PART_SIZE;
    var rest := size - m;
    CeilDivCovers(rest, m);
    CeilDivUnique(size, m, 1 + CeilDiv(rest, m));
    ModPeriod(size, m);
    if rest < m {
      CeilDivUnique(rest, m, 1);
      SmallMod(rest, m);
    } else if rest == m {
      CeilDivUnique(rest, m, 1);
      DivUnique(rest, m, 1, 0);
    }
  }

  lemma {:induction false} SplitRegular(number: nat, source: nat, offset: Word64, size: nat, sizes: seq<Word64>)
    requires source < |sizes| && size > 0 && offset + size <= sizes[source]
    ensures |Split(number, source, offset, size)| == PartsFor(size)
    ensures Regular(Split(number, source, offset, size), number, source, sizes, LastPart(size))
    decreases size
  {
    var length := Min(size, MAX_PART_SIZE);
    WrapFacts(offset + length - 1);
    WrapFacts(offset + length);
    hide Wrap;
    if size > MAX_PART_SIZE {
      PartsStep(size);
      SplitRegular(number + 1, source, offset + length, size - length, sizes);
    } else {
      assert Split(number + 1, source, Wrap(offset + length), 0) == [];
    }
  }

  /** The copies of one source are as many and as large as the first pass counted. */
  lemma SourceRegular(number: nat, source: nat, s: Source, sizes: seq<Word64>)
    requires source < |sizes| && RangeAccepted(s, sizes[source]) && SelectionInside(s, sizes[source])
    ensures var n := Selected(s, sizes[source]);
      && |SourceCopies(number, source, s, sizes[source])| == PartsFor(n)
      && Regular(SourceCopies(number, source, s, sizes[source]), number, source, sizes, LastPart(n))
  {
    var n := Selected(s, sizes[source]);
    WrapFacts(sizes[source] - Start(s));
    WrapFacts(Start(s) + n - 1);
    hide Wrap;
    if n > MAX_PART_SIZE {
      SplitRegular(number, source, Start(s), n, sizes);
    }
  }

  /** As many copies as counted, whatever the selections are. */
  lemma {:induction false} SplitCount(number: nat, source: nat, offset: Word64, size: nat)
    requires size > 0
    ensures |Split(number, source, offset, size)| == PartsFor(size)
    decreases size
  {
    hide Wrap;
    var length := Min(size, MAX_PART_SIZE);
    if size > MAX_PART_SIZE {
      PartsStep(size);
      SplitCount(number + 1, source, Wrap(offset + length), size - length);
    } else {
      assert Split(number + 1, source, Wrap(offset + length), 0) == [];
    }
  }

  lemma {:induction false} PlanCount(sources: seq<Source>, sizes: seq<Word64>, k: nat)
    requires k <= |sources| <= |sizes|
    ensures |CopyPlan(sources, sizes, k)| == TotalParts(sources, sizes, k)
    decreases k
  {
    hide Selected, PartsFor, SourceCopies;
    if k > 0 {
      PlanCount(sources, sizes, k - 1);
      SourceCount(|CopyPlan(sources, sizes, k - 1)| + 1, k - 1, sources[k - 1], sizes[k - 1]);
    }
  }

  lemma SourceCount(number: nat, source: nat, s: Source, size: Word64)
    ensures |SourceCopies(number, source, s, size)| == PartsFor(Selected(s, size))
  {
    var n := Selected(s, size);
    if n > MAX_PART_SIZE {
      SplitCount(number, source, Start(s), n);
    }
  }

  /** A copy in its place: numbered, no larger than a part may be, and large enough unless it ends the plan. */
  ghost predicate InPlace(c: Copy, number: nat, sizes: seq<Word64>, ends: bool) {
    && c.number == number
    && c.source < |sizes|
    && CopySize(c, sizes) <= MAX_PART_SIZE
    && (ends || CopySize(c, sizes) >= MIN_PART_SIZE)
  }

  predicate LongEnough(s: Source, size: Word64) {
    Selected(s, size) >= MIN_PART_SIZE && LastPart(Selected(s, size)) >= MIN_PART_SIZE
  }

  ghost predicate AllInPlace(copies: seq<Copy>, number: nat, sizes: seq<Word64>, ends: bool) {
    forall k :: 0 <= k < |copies| ==> InPlace(copies[k], number + k, sizes, ends && k == |copies| - 1)
  }

  lemma SourceInPlace(number: nat, source: nat, s: Source, sizes: seq<Word64>, ends: bool)
    requires source < |sizes| && RangeAccepted(s, sizes[source]) && SelectionInside(s, sizes[source])
    requires ends || LongEnough(s, sizes[source])
    ensures AllInPlace(SourceCopies(number, source, s, sizes[source]), number, sizes, ends)
    ensures SourceCopies(number, source, s, sizes[source]) != []
  {
    SourceRegular(number, source, s, sizes);
    CeilDivCovers(Selected(s, sizes[source]), MAX_PART_SIZE);
    assert PartsFor(Selected(s, sizes[source])) >= 1;
    LastPartFits(Selected(s, sizes[source]));
    hide SourceCopies, Selected, LastPart, RangeAccepted, SelectionInside, PartsFor;
  }

  /**
   * An accepted plan with its selections inside: the copies are numbered 1, 2, 3, ..., none is
   * larger than a part may be, and only the very last may be smaller than a part must be.
   */
  lemma {:induction false} PlanRegular(sources: seq<Source>, sizes: seq<Word64>, k: nat, isLast: bool)
    requires k <= |sources| <= |sizes| && AllInside(sources, sizes, k)
    requires forall i :: 0 <= i < k ==> RangeAccepted(sources[i], sizes[i])
    requires forall i :: 0 <= i < k && !(isLast && i == k - 1) ==> LongEnough(sources[i], sizes[i])
    ensures AllInPlace(CopyPlan(sources, sizes, k), 1, sizes, isLast)
    decreases k
  {
    hide SourceCopies, RangeAccepted, SelectionInside, LongEnough, CopySize;
    if k > 0 {
      var before := CopyPlan(sources, sizes, k - 1);
      PlanRegular(sources, sizes, k - 1, false);
      SourceInPlace(|before| + 1, k - 1, sources[k - 1], sizes, isLast);
      InPlaceAppend(before, SourceCopies(|before| + 1, k - 1, sources[k - 1], sizes[k - 1]), sizes, isLast);
    }
  }

  lemma InPlaceAppend(a: seq<Copy>, b: seq<Copy>, sizes: seq<Word64>, ends: bool)
    requires AllInPlace(a, 1, sizes, false) && AllInPlace(b, |a| + 1, sizes, ends) && b != []
    ensures AllInPlace(a + b, 1, sizes, ends)
  {
    hide CopySize;
    forall j | 0 <= j < |a + b| ensures InPlace((a + b)[j], 1 + j, sizes, ends && j == |a + b| - 1) {
      if j < |a| {
        assert InPlace(a[j], 1 + j, sizes, false && j == |a| - 1);
      } else {
        assert InPlace(b[j - |a|], |a| + 1 + (j - |a|), sizes, ends && j - |a| == |b| - 1);
      }
    }
  }

  lemma LastPartFits(n: nat)
    ensures LastPart(n) <= MAX_PART_SIZE
  {
  }
}
