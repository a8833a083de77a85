// Composition in the caller's numbers: offset, length and object size, with no wrapping but where
// the code's sums wrap.
module ComposeNumbers {
  import opened Wrappers
  import opened Buffers
  import opened PartPlan
  import opened ComposePlan

  datatype ComposeError = Insecure | StatFailed | RangeRejected | TooShort | TooLarge | LastPartTooShort | TooManyCopies

  const MIB: nat := 1024 * 1024
  const GIB: nat := 1024 * MIB

  /** Offset inside the object; length no longer than it, and the end inside it, or past 2^64 and then inside it. */
  predicate RangeFits(s: Source, size: Word64) {
    match (s.offset, s.length)
    case (None, None) => true
    case (None, Some(n)) => n <= size
    case (Some(o), None) => o < size
    case (Some(o), Some(n)) => o < size && n <= size && (o + n <= size || 0 <= o + n - WORDS_64 <= size)
  }

  /** How many bytes are asked for: the length, or all from the offset on, or all. */
  function Extent(s: Source, size: Word64): int {
    match (s.offset, s.length)
    case (_, Some(n)) => n
    case (Some(o), None) => size - o
    case (None, None) => size
  }

  lemma RangeInNumbers(s: Source, size: Word64)
    ensures RangeAccepted(s, size) <==> RangeFits(s, size)
    ensures RangeFits(s, size) ==> Selected(s, size) == Extent(s, size)
  {
    if s.length.Some? {
      WrapFacts(Start(s) + s.length.value);
    }
    if s.offset.Some? {
      WrapFacts(size - s.offset.value);
    }
    hide Wrap;
  }

  /** The bytes of all extents, and the copies of at most 1 GiB they take, of the first k sources. */
  function ByteTotal(sources: seq<Source>, sizes: seq<Word64>, k: nat): int
    requires k <= |sources| <= |sizes|
  {
    if k == 0 then 0 else ByteTotal(sources, sizes, k - 1) + Extent(sources[k - 1], sizes[k - 1])
  }

  function CopyTotal(sources: seq<Source>, sizes: seq<Word64>, k: nat): int
    requires k <= |sources| <= |sizes|
  {
    if k == 0 then 0
    else
      var n := Extent(sources[k - 1], sizes[k - 1]);
      CopyTotal(sources, sizes, k - 1) + if n <= GIB then 1 else (n + GIB - 1) / GIB
  }

  /** Is a selection longer than a part split so that less than 5 MiB is left over? */
  predicate LeavesShortPart(n: int) {
    n > GIB && 0 < n % GIB < 5 * MIB
  }

  /** Why source k is refused once those before it have passed, or that it is not. */
  function Verdict(https: bool, sources: seq<Source>, stats: seq<Option<Word64>>, k: nat): Option<ComposeError>
    requires k < |sources| == |stats|
  {
    var s, sizes, last := sources[k], Known(stats), k == |sources| - 1;
    var n := Extent(s, sizes[k]);
    if s.ssec && !https then Some(Insecure)
    else if stats[k].None? then Some(StatFailed)
    else if !RangeFits(s, sizes[k]) then Some(RangeRejected)
    else if n < 5 * MIB && !last then Some(TooShort)
    else if (ByteTotal(sources, sizes, k) + n) % WORDS_64 > 1024 * GIB then Some(TooLarge)
    else if LeavesShortPart(n) && !last then Some(LastPartTooShort)
    else if CopyTotal(sources, sizes, k + 1) > 10000 then Some(TooManyCopies)
    else None
  }

  /** The first k sources pass. */
  ghost predicate Pass(https: bool, sources: seq<Source>, stats: seq<Option<Word64>>, k: nat)
    requires k <= |sources| == |stats|
  {
    forall i :: 0 <= i < k ==> Verdict(https, sources, stats, i).None?
  }

  /** Some source is the first that does not pass, and this is why. */
  ghost predicate RefusedFor(https: bool, sources: seq<Source>, stats: seq<Option<Word64>>, error: ComposeError)
    requires |sources| == |stats|
  {
    exists k :: 0 <= k < |sources| && Pass(https, sources, stats, k) && Verdict(https, sources, stats, k) == Some(error)
  }

  lemma Limits()
    ensures MIN_PART_SIZE == 5 * MIB && MAX_PART_SIZE == GIB && MAX_OBJECT_SIZE == 1024 * GIB && MAX_MULTIPART_COUNT == 10000
  {
  }

  lemma PartsInNumbers(n: nat)
    ensures PartsFor(n) == if n <= GIB then 1 else (n + GIB - 1) / GIB
    ensures n >= 5 * MIB ==> (LastPart(n) >= MIN_PART_SIZE <==> !LeavesShortPart(n))
  {
    Limits();
  }

  lemma {:induction false} TotalsInNumbers(sources: seq<Source>, sizes: seq<Word64>, k: nat)
    requires k <= |sources| <= |sizes|
    requires forall i :: 0 <= i < k ==> RangeFits(sources[i], sizes[i])
    ensures TotalBytes(sources, sizes, k) == ByteTotal(sources, sizes, k)
    ensures TotalParts(sources, sizes, k) == CopyTotal(sources, sizes, k)
    decreases k
  {
    hide RangeFits, Selected, PartsFor;
    if k > 0 {
      TotalsInNumbers(sources, sizes, k - 1);
      RangeInNumbers(sources[k - 1], sizes[k - 1]);
      PartsInNumbers(Selected(sources[k - 1], sizes[k - 1]));
    }
  }

  lemma PassFits(https: bool, sources: seq<Source>, stats: seq<Option<Word64>>, k: nat)
    requires k <= |sources| == |stats| && Pass(https, sources, stats, k)
    ensures forall i :: 0 <= i < k ==> stats[i].Some? && RangeFits(sources[i], Known(stats)[i])
  {
    hide RangeFits, Extent, ByteTotal, CopyTotal, LeavesShortPart;
    forall i | 0 <= i < k ensures stats[i].Some? && RangeFits(sources[i], Known(stats)[i]) {
      assert Verdict(https, sources, stats, i).None?;
    }
  }

  lemma TotalsGrow(sources: seq<Source>, sizes: seq<Word64>, k: nat, n: nat)
    requires k <= n <= |sources| <= |sizes|
    ensures TotalBytes(sources, sizes, k) <= TotalBytes(sources, sizes, n)
    ensures TotalParts(sources, sizes, k) <= TotalParts(sources, sizes, n)
    decreases n
  {
    if k < n {
      TotalsGrow(sources, sizes, k, n - 1);
    }
  }

  /** The running sum, wrapped: exact, or of a size that makes too many parts. */
  lemma CheckedSum(total: nat, n: Word64)
    requires total <= MAX_OBJECT_SIZE
    ensures Wrap(total + n) == total + n || PartsFor(n) > MAX_MULTIPART_COUNT
    ensures total + n <= MAX_OBJECT_SIZE ==> Wrap(total + n) == total + n
  {
    WrapFacts(total + n);
    CeilDivCovers(n, MAX_PART_SIZE);
    if total + n >= WORDS_64 && CeilDiv(n, MAX_PART_SIZE) <= MAX_MULTIPART_COUNT {
      MulMonotone(CeilDiv(n, MAX_PART_SIZE), MAX_MULTIPART_COUNT, MAX_PART_SIZE);
    }
  }

  /** A source passes exactly if it is accepted and the totals stay within the limits. */
  lemma VerdictInNumbers(https: bool, sources: seq<Source>, stats: seq<Option<Word64>>, k: nat)
    requires k < |sources| == |stats|
    requires forall i :: 0 <= i < k ==> RangeFits(sources[i], Known(stats)[i])
    requires TotalBytes(sources, Known(stats), k) <= MAX_OBJECT_SIZE
    ensures Verdict(https, sources, stats, k).None? <==>
      && SourceAccepted(https, sources[k], stats[k], k == |sources| - 1)
      && TotalBytes(sources, Known(stats), k + 1) <= MAX_OBJECT_SIZE
      && TotalParts(sources, Known(stats), k + 1) <= MAX_MULTIPART_COUNT
  {
    hide RangeFits, Selected, RangeAccepted, PartsFor, LastPart, LeavesShortPart, Wrap;
    var s, sizes := sources[k], Known(stats);
    TotalsInNumbers(sources, sizes, k);
    RangeInNumbers(s, sizes[k]);
    PartsInNumbers(Selected(s, sizes[k]));
    CheckedSum(TotalBytes(sources, sizes, k), Selected(s, sizes[k]));
    WrapIs(TotalBytes(sources, sizes, k) + Selected(s, sizes[k]));
    Limits();
    PartsGrow(sources, sizes, k);
  }

  lemma WrapIs(n: int)
    ensures Wrap(n) == n % WORDS_64
  {
  }

  lemma PartsGrow(sources: seq<Source>, sizes: seq<Word64>, k: nat)
    requires k < |sources| <= |sizes|
    ensures TotalParts(sources, sizes, k + 1) >= PartsFor(Selected(sources[k], sizes[k]))
  {
  }

  /** The first k sources pass exactly if each is accepted and their totals are within the limits. */
  lemma {:induction false} PassInNumbers(https: bool, sources: seq<Source>, stats: seq<Option<Word64>>, k: nat)
    requires k <= |sources| == |stats|
    ensures Pass(https, sources, stats, k) <==>
      && (forall i :: 0 <= i < k ==> SourceAccepted(https, sources[i], stats[i], i == |sources| - 1))
      && TotalBytes(sources, Known(stats), k) <= MAX_OBJECT_SIZE
      && TotalParts(sources, Known(stats), k) <= MAX_MULTIPART_COUNT
    decreases k
  {
    hide Verdict, SourceAccepted, RangeFits, Selected, PartsFor;
    if k > 0 {
      PassInNumbers(https, sources, stats, k - 1);
      TotalsGrow(sources, Known(stats), k - 1, k);
      if Pass(https, sources, stats, k - 1) {
        PassFits(https, sources, stats, k - 1);
        VerdictInNumbers(https, sources, stats, k - 1);
      }
    }
  }

  /** The first pass lets through exactly the sources with no verdict against any. */
  lemma AcceptedInNumbers(https: bool, sources: seq<Source>, stats: seq<Option<Word64>>)
    requires |stats| == |sources|
    ensures Accepted(https, sources, stats) <==> Pass(https, sources, stats, |sources|)
  {
    hide Verdict, SourceAccepted, Pass;
    PassInNumbers(https, sources, stats, |sources|);
  }

  // ---------- what is put together ----------

  /** The stretch of an object that a source asks for, if the object reaches that far. */
  function Stretch(s: Source, o: Bytes): Option<Bytes> {
    match (s.offset, s.length)
    case (None, None) => Some(o)
    case (Some(from), None) => if from < |o| then Some(o[from..]) else None
    case (None, Some(n)) => if 0 < n <= |o| then Some(o[..n]) else None
    case (Some(from), Some(n)) => if 0 < n && from + n <= |o| then Some(o[from..from + n]) else None
  }

  /** The copies of an accepted source put together exactly its stretch, or cannot be carried out. */
  lemma SourceStretch(number: nat, source: nat, s: Source, objects: seq<Bytes>)
    requires source < |objects| && |objects[source]| < WORDS_64 && RangeFits(s, |objects[source]|)
    ensures Assembled(SourceCopies(number, source, s, |objects[source]|), objects) == Stretch(s, objects[source])
    ensures s.length.None? ==> Stretch(s, objects[source]).Some?
  {
    var o := objects[source];
    RangeInNumbers(s, |o|);
    SourceDenotes(number, source, s, objects);
    hide Assembled, SourceCopies, Selected;
    assert o[0..|o|] == o;
  }

  function Stretches(sources: seq<Source>, objects: seq<Bytes>, k: nat): Option<Bytes>
    requires k <= |sources| <= |objects|
  {
    if k == 0 then Some([]) else Join(Stretches(sources, objects, k - 1), Stretch(sources[k - 1], objects[k - 1]))
  }

  /** The copies of the plan put together exactly the stretches asked for, one after the other. */
  lemma {:induction false} PlanStretches(sources: seq<Source>, sizes: seq<Word64>, objects: seq<Bytes>, k: nat)
    requires k <= |sources| <= |sizes| && Holds(objects, sizes)
    requires forall i :: 0 <= i < k ==> RangeFits(sources[i], sizes[i])
    ensures Assembled(CopyPlan(sources, sizes, k), objects) == Stretches(sources, objects, k)
    decreases k
  {
    hide SourceCopies, RangeFits, Assembled, Stretch, Join;
    if k == 0 {
      NothingAssembled(objects);
    } else {
      var before := CopyPlan(sources, sizes, k - 1);
      PlanStretches(sources, sizes, objects, k - 1);
      SourceStretch(|before| + 1, k - 1, sources[k - 1], objects);
      AssembledAppend(before, SourceCopies(|before| + 1, k - 1, sources[k - 1], sizes[k - 1]), objects);
    }
  }
}
