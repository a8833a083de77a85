// Client::ComposeObject and CalculatePartCount (src/client.cc:460-682, 1006-1029): the two passes
// over the sources, and what becomes of a composition when the second pass needs what the first
// one measured.
module Compose {
  import opened Wrappers
  import opened Buffers
  import opened Texts
  import opened PartPlan
  import opened ComposePlan
  import opened ComposeNumbers

  // ---------- the first pass ----------

  /** The division in CalculatePartCount agrees with the exact count and last size. */
  lemma CountedParts(n: nat)
    requires n > MAX_PART_SIZE
    ensures var count := n / MAX_PART_SIZE; var last := n - count * MAX_PART_SIZE;
      if last > 0 then PartsFor(n) == count + 1 && LastPart(n) == last
      else PartsFor(n) == count && LastPart(n) == MAX_PART_SIZE
  {
    var m := MAX_PART_SIZE;
    var count := n / m;
    assert n == m * count + n % m;
    CeilDivUnique(n, m, if n % m > 0 then count + 1 else count);
  }

  /** What the first pass asks of one source before counting it. */
  method CheckSource(https: bool, s: Source, stat: Option<Word64>, last: bool) returns (r: Result<Word64, ComposeError>)
    ensures r.Ok? ==>
      && (s.ssec ==> https) && stat.Some? && RangeFits(s, stat.value)
      && r.value == Extent(s, stat.value) && (last || r.value >= MIN_PART_SIZE)
    ensures r == Err(Insecure) <==> s.ssec && !https
    ensures r == Err(StatFailed) <==> (s.ssec ==> https) && stat.None?
    ensures r == Err(RangeRejected) <==> (s.ssec ==> https) && stat.Some? && !RangeFits(s, stat.value)
    ensures r.Err? ==> r.error in {Insecure, StatFailed, RangeRejected, TooShort}
    ensures r == Err(TooShort) ==> stat.Some? && RangeFits(s, stat.value) && Extent(s, stat.value) < MIN_PART_SIZE && !last
  {
    if s.ssec && !https {
      return Err(Insecure);
    }
    if stat.None? {
      return Err(StatFailed);
    }
    var size := stat.value;
    RangeInNumbers(s, size);
    if !RangeAccepted(s, size) {
      return Err(RangeRejected);
    }
    var n := Selected(s, size);
    if n < MIN_PART_SIZE && !last {
      return Err(TooShort);
    }
    return Ok(n);
  }

  /** The first pass succeeds for exactly the accepted inputs, with their exact number of parts. */
  method CalculatePartCount(https: bool, sources: seq<Source>, stats: seq<Option<Word64>>) returns (r: Result<nat, ComposeError>)
    requires |stats| == |sources|
    ensures r.Ok? <==> Pass(https, sources, stats, |sources|)
    ensures r.Ok? ==> r.value == CopyTotal(sources, Known(stats), |sources|)
    ensures r.Err? ==> RefusedFor(https, sources, stats, r.error)
    ensures r.Ok? <==> Accepted(https, sources, stats)
    ensures r.Ok? ==> r.value == TotalParts(sources, Known(stats), |sources|)
  {
    AcceptedInNumbers(https, sources, stats);
    hide Accepted, RangeFits, Extent, LeavesShortPart, PartsFor, LastPart, Wrap;
    Limits();
    ghost var sizes := Known(stats);
    var objectSize: nat, partCount: nat := 0, 0;
    for i := 0 to |sources|
      invariant Pass(https, sources, stats, i)
      invariant objectSize == ByteTotal(sources, sizes, i) <= MAX_OBJECT_SIZE
      invariant partCount == CopyTotal(sources, sizes, i) <= MAX_MULTIPART_COUNT
    {
      var s, last := sources[i], i == |sources| - 1;
      var checked := CheckSource(https, s, stats[i], last);
      if checked.Err? {
        assert Verdict(https, sources, stats, i) == Some(checked.error);
        return Err(checked.error);
      }
      var n := checked.value;
      CheckedSum(objectSize, n);
      WrapIs(objectSize + n);
      PartsInNumbers(n);
      objectSize := Wrap(objectSize + n);
      if objectSize > MAX_OBJECT_SIZE {
        assert Verdict(https, sources, stats, i) == Some(TooLarge);
        return Err(TooLarge);
      }
      var counted := CountParts(n, last);
      if counted.Err? {
        assert Verdict(https, sources, stats, i) == Some(counted.error);
        return counted;
      }
      partCount := partCount + counted.value;
      if partCount > MAX_MULTIPART_COUNT {
        assert Verdict(https, sources, stats, i) == Some(TooManyCopies);
        return Err(TooManyCopies);
      }
    }
    PassFits(https, sources, stats, |sources|);
    TotalsInNumbers(sources, sizes, |sources|);
    return Ok(partCount);
  }

  /** The parts one selection is split into. */
  method CountParts(n: nat, last: bool) returns (r: Result<nat, ComposeError>)
    requires last || n >= MIN_PART_SIZE
    ensures r.Ok? <==> last || LastPart(n) >= MIN_PART_SIZE
    ensures r.Ok? ==> r.value == PartsFor(n)
    ensures r.Err? ==> r.error == LastPartTooShort
  {
    hide PartsFor, LastPart;
    if n > MAX_PART_SIZE {
      var count := n / MAX_PART_SIZE;
      var lastPartSize := n - count * MAX_PART_SIZE;
      CountedParts(n);
      if lastPartSize > 0 {
        count := count + 1;
      } else {
        lastPartSize := MAX_PART_SIZE;
      }
      if lastPartSize < MIN_PART_SIZE && !last {
        return Err(LastPartTooShort);
      }
      return Ok(count);
    } else {
      SmallSelection(n);
      return Ok(1);
    }
  }

  lemma SmallSelection(n: nat)
    requires n <= MAX_PART_SIZE
    ensures PartsFor(n) == 1 && LastPart(n) == n
  {
  }

  // ---------- the second pass ----------

  datatype CopyOutcome = AllCopied | CopyRefused | SizeUnknown

  predicate Recorded(sources: seq<Source>) {
    forall i :: 0 <= i < |sources| ==> sources[i].recorded.Some?
  }

  function RecordedSizes(sources: seq<Source>): seq<Word64> {
    seq(|sources|, i requires 0 <= i < |sources| => ValueOr(sources[i].recorded, 0))
  }

  /** The whole plan over the recorded sizes. */
  function FullPlan(sources: seq<Source>): seq<Copy> {
    CopyPlan(sources, RecordedSizes(sources), |sources|)
  }

  /** The server's answers: to the copy with each place in the plan, and to the completion. */
  datatype Answers = Answers(copied: nat -> bool, completed: bool)

  /** Are the copies from place `low` on, up to `high`, all acknowledged? */
  predicate AllAcked(acks: nat -> bool, low: nat, high: nat) {
    forall k :: low <= k < high ==> acks(k)
  }

  /** How far the plan is carried out: up to its end, or up to the first copy that is not acknowledged. */
  ghost predicate CarriedOut(acks: nat -> bool, copies: seq<Copy>, all: seq<Copy>, ok: bool, acked: seq<Copy>) {
    && |copies| <= |acked| <= |all|
    && acked == all[..|acked|]
    && AllAcked(acks, |copies|, |acked|)
    && ok == (|acked| == |all|)
    && (!ok ==> !acks(|acked|))
  }

  /** The copies of one source (src/client.cc:600-669). */
  method CopySource(acks: nat -> bool, copies: seq<Copy>, i: nat, source: Source, objectSize: Word64)
    returns (ok: bool, acked: seq<Copy>)
    ensures CarriedOut(acks, copies, copies + SourceCopies(|copies| + 1, i, source, objectSize), ok, acked)
  {
    hide Wrap;
    var size: nat := Selected(source, objectSize);
    var offset: Word64 := Start(source);
    if size <= MAX_PART_SIZE {
      var range :=
        if source.length.Some? then Some((offset, Wrap(offset + source.length.value - 1)))
        else if source.offset.Some? then Some((offset, Wrap(offset + size - 1)))
        else None;
      ok := acks(|copies|);
      acked := if ok then copies + [Copy(|copies| + 1, i, range)] else copies;
      assert copies == (copies + SourceCopies(|copies| + 1, i, source, objectSize))[..|copies|];
    } else {
      ok, acked := CopySplit(acks, copies, i, offset, size);
    }
  }

  lemma SendNext(sent: seq<Copy>, c: Copy, rest: seq<Copy>, all: seq<Copy>)
    requires sent + ([c] + rest) == all
    ensures sent + [c] + rest == all && sent == all[..|sent|] && |sent| < |all|
  {
  }

  /** The copies of a selection larger than a part. */
  method CopySplit(acks: nat -> bool, copies: seq<Copy>, i: nat, start: Word64, total: nat)
    returns (ok: bool, acked: seq<Copy>)
    ensures CarriedOut(acks, copies, copies + Split(|copies| + 1, i, start, total), ok, acked)
  {
    hide Wrap;
    var offset: Word64, size: nat := start, total;
    acked := copies;
    ghost var all := copies + Split(|copies| + 1, i, offset, size);
    while size > 0
      invariant acked + Split(|acked| + 1, i, offset, size) == all
      invariant |copies| <= |acked| && AllAcked(acks, |copies|, |acked|)
    {
      var length := size;
      if length > MAX_PART_SIZE {
        length := MAX_PART_SIZE;
      }
      var c := Copy(|acked| + 1, i, Some((offset, Wrap(offset + length - 1))));
      ghost var rest := Split(|acked| + 2, i, Wrap(offset + length), size - length);
      assert Split(|acked| + 1, i, offset, size) == [c] + rest;
      SendNext(acked, c, rest, all);
      if !acks(|acked|) {
        ok := false;
        return;
      }
      acked := acked + [c];
      offset := Wrap(offset + length);
      size := size - length;
    }
    assert acked + [] == acked;
    ok := true;
  }

  /** How many sources come before the first whose size was never recorded. */
  function MeasuredPrefix(sources: seq<Source>): nat {
    if sources == [] || sources[0].recorded.None? then 0 else 1 + MeasuredPrefix(sources[1..])
  }

  lemma {:induction false} MeasuredBounds(sources: seq<Source>)
    ensures MeasuredPrefix(sources) <= |sources|
    ensures forall i :: 0 <= i < MeasuredPrefix(sources) ==> sources[i].recorded.Some?
    ensures MeasuredPrefix(sources) < |sources| ==> sources[MeasuredPrefix(sources)].recorded.None?
    ensures Recorded(sources) <==> MeasuredPrefix(sources) == |sources|
    decreases |sources|
  {
    if sources != [] {
      MeasuredBounds(sources[1..]);
    }
  }

  /** The copies that come before a size is missed. */
  function KnownPlan(sources: seq<Source>): seq<Copy> {
    MeasuredBounds(sources);
    CopyPlan(sources, RecordedSizes(sources), MeasuredPrefix(sources))
  }

  /** Sends the copies of all sources; stops where a size was never recorded (src/args.cc:401-410). */
  method CopyParts(acks: nat -> bool, sources: seq<Source>) returns (outcome: CopyOutcome, acked: seq<Copy>)
    ensures outcome.AllCopied? <==> Recorded(sources) && AllAcked(acks, 0, |FullPlan(sources)|)
    ensures outcome.SizeUnknown? <==> !Recorded(sources) && AllAcked(acks, 0, |KnownPlan(sources)|)
    ensures outcome.AllCopied? ==> acked == FullPlan(sources)
    ensures outcome.SizeUnknown? ==> acked == KnownPlan(sources)
    ensures outcome.CopyRefused? ==>
      && acked < KnownPlan(sources)
      && AllAcked(acks, 0, |acked|)
      && !acks(|acked|)
  {
    hide SourceCopies;
    ghost var sizes := RecordedSizes(sources);
    acked := [];
    MeasuredBounds(sources);
    for i := 0 to |sources|
      invariant i <= MeasuredPrefix(sources)
      invariant acked == CopyPlan(sources, sizes, i)
      invariant AllAcked(acks, 0, |acked|)
    {
      var source := sources[i];
      if source.recorded.None? {
        outcome := SizeUnknown;
        return;
      }
      var ok;
      ghost var before := acked;
      ok, acked := CopySource(acks, acked, i, source, source.recorded.value);
      PlanGrows(sources, sizes, i + 1, MeasuredPrefix(sources));
      if !ok {
        outcome := CopyRefused;
        return;
      }
      assert acked == before + SourceCopies(|before| + 1, i, source, sizes[i]);
    }
    outcome := AllCopied;
  }

  lemma PlanGrows(sources: seq<Source>, sizes: seq<Word64>, k: nat, n: nat)
    requires k <= n <= |sources| <= |sizes|
    ensures CopyPlan(sources, sizes, k) <= CopyPlan(sources, sizes, n)
    decreases n
  {
    hide SourceCopies;
    if k < n {
      PlanGrows(sources, sizes, k, n - 1);
    }
  }

  // ---------- the two passes together ----------

  datatype ComposeOutcome = Rejected(error: ComposeError) | NoSources | WholeCopy(ok: bool) | Refused | Composed | Terminated

  /** A single part and no range: the request becomes an ordinary copy. */
  predicate IsWholeCopy(sources: seq<Source>, sizes: seq<Word64>)
    requires |sources| == |sizes| > 0
  {
    TotalParts(sources, sizes, |sources|) == 1 && sources[0].offset.None? && sources[0].length.None?
  }

  /** What the server acknowledges of the requests that are sent: none that names an ID of no use. */
  function Acked(id: string, answers: Answers): nat -> bool {
    (k: nat) => Usable(id) && answers.copied(k)
  }

  /** Everything was measured and acknowledged. */
  ghost predicate AllGood(sources: seq<Source>, id: string, answers: Answers) {
    Recorded(sources) && AllAcked(Acked(id, answers), 0, |FullPlan(sources)|) && Usable(id) && answers.completed
  }

  /** All goes well up to a source whose size is missing. */
  ghost predicate SizeMissed(sources: seq<Source>, id: string, answers: Answers) {
    !Recorded(sources) && AllAcked(Acked(id, answers), 0, |KnownPlan(sources)|)
  }

  /** The copies of all sources, the completion, and the abort of what was opened. */
  method SecondPass(sources: seq<Source>, id: string, answers: Answers)
    returns (outcome: ComposeOutcome, acked: seq<Copy>, aborted: bool)
    ensures outcome in {Composed, Refused, Terminated}
    ensures outcome == Composed <==> AllGood(sources, id, answers)
    ensures outcome == Terminated <==> SizeMissed(sources, id, answers)
    ensures acked <= KnownPlan(sources)
    ensures outcome == Composed ==> acked == FullPlan(sources)
    ensures outcome == Terminated ==> acked == KnownPlan(sources)
    ensures aborted <==> outcome == Refused && Usable(id)
  {
    hide Recorded, FullPlan, KnownPlan, Usable, AllAcked;
    KnownIsFull(sources);
    var copies;
    copies, acked := CopyParts(Acked(id, answers), sources);
    match copies {
      case SizeUnknown => outcome := Terminated;
      case CopyRefused => outcome := Refused;
      case AllCopied => outcome := if Usable(id) && answers.completed then Composed else Refused;
    }
    aborted := outcome == Refused && Usable(id);
  }

  lemma KnownIsFull(sources: seq<Source>)
    ensures Recorded(sources) ==> KnownPlan(sources) == FullPlan(sources)
  {
    MeasuredBounds(sources);
  }

  /** The sources pass, and are not simply copied. */
  predicate IsComposed(https: bool, sources: seq<Source>, stats: seq<Option<Word64>>)
    requires |stats| == |sources|
  {
    sources != [] && Accepted(https, sources, stats) && !IsWholeCopy(sources, Known(stats))
  }

  /**
   * Client::ComposeObject. The first pass works on its own copy of the list, so the sizes it
   * records are gone when the second pass asks for them; `created` and `copied` are the server's
   * answers to the opening request, with its upload ID, and to an ordinary copy.
   */
  method ComposeObject(https: bool, sources: seq<Source>, stats: seq<Option<Word64>>,
                       created: Option<string>, copied: bool, answers: Answers)
    returns (outcome: ComposeOutcome, acked: seq<Copy>, aborted: bool)
    requires |stats| == |sources|
    ensures sources == [] <==> outcome == NoSources
    ensures outcome.Rejected? <==> sources != [] && !Accepted(https, sources, stats)
    ensures outcome.Rejected? ==> RefusedFor(https, sources, stats, outcome.error)
    ensures outcome.WholeCopy? <==> sources != [] && Accepted(https, sources, stats) && IsWholeCopy(sources, Known(stats))
    ensures outcome.WholeCopy? ==> outcome.ok == copied
    ensures outcome == Composed <==>
      IsComposed(https, sources, stats) && created.Some? && AllGood(sources, created.value, answers)
    ensures outcome == Terminated <==>
      IsComposed(https, sources, stats) && created.Some? && SizeMissed(sources, created.value, answers)
    ensures outcome == Composed ==> acked == FullPlan(sources)
    ensures outcome == Terminated ==> acked == KnownPlan(sources)
    ensures aborted <==> outcome == Refused && created.Some? && Usable(created.value)
  {
    hide FullPlan, KnownPlan, Accepted, TotalParts, AllGood, SizeMissed, Usable, Pass, RefusedFor;
    acked, aborted := [], false;
    if sources == [] {
      return NoSources, acked, aborted;
    }
    var count := CalculatePartCount(https, sources, stats);
    if count.Err? {
      return Rejected(count.error), acked, aborted;
    }
    if count.value == 1 && sources[0].offset.None? && sources[0].length.None? {
      return WholeCopy(copied), acked, aborted;
    }
    if created.None? {
      return Refused, acked, aborted;
    }
    outcome, acked, aborted := SecondPass(sources, created.value, answers);
  }

  /**
   * With sources as a caller builds them, none of them measured, a composition that passes the
   * first pass and is opened always ends the process before the first copy.
   */
  method ComposeUnmeasured(https: bool, sources: seq<Source>, stats: seq<Option<Word64>>,
                           id: string, copied: bool, answers: Answers)
    returns (outcome: ComposeOutcome)
    requires |stats| == |sources| && IsComposed(https, sources, stats)
    requires forall i :: 0 <= i < |sources| ==> sources[i].recorded.None?
    ensures outcome == Terminated
  {
    var acked, aborted;
    NothingMeasured(sources);
    hide Usable, IsComposed, FullPlan, KnownPlan;
    outcome, acked, aborted := ComposeObject(https, sources, stats, Some(id), copied, answers);
  }

  lemma NothingMeasured(sources: seq<Source>)
    requires sources != [] && sources[0].recorded.None?
    ensures !Recorded(sources) && KnownPlan(sources) == []
  {
    assert MeasuredPrefix(sources) == 0;
  }

  /** The smallest such input: the first byte of a two-byte object. */
  lemma UnmeasuredExists()
    ensures var sources, stats := [Source(Some(0), Some(1), false, None)], [Some(2)];
      IsComposed(false, sources, stats) && sources[0].recorded.None?
  {
    AcceptedAlone(Source(Some(0), Some(1), false, None), 2);
  }

  lemma OneSource(sources: seq<Source>, sizes: seq<Word64>)
    requires |sources| == |sizes| == 1
    ensures TotalBytes(sources, sizes, 1) == Selected(sources[0], sizes[0])
    ensures TotalParts(sources, sizes, 1) == PartsFor(Selected(sources[0], sizes[0]))
  {
    assert TotalBytes(sources, sizes, 0) == 0 && TotalParts(sources, sizes, 0) == 0;
  }

  /** A length of zero is accepted, and the copies of the plan cannot be carried out. */
  lemma ZeroLengthFails(o: Bytes)
    requires |o| < WORDS_64
    ensures var sources, stats := [Source(None, Some(0), false, None)], [Some(|o|)];
      && IsComposed(false, sources, stats)
      && Assembled(FullPlan(Measured(sources, Known(stats))), [o]) == None
  {
    var sources, stats: seq<Option<Word64>> := [Source(None, Some(0), false, None)], [Some(|o|)];
    AcceptedAlone(sources[0], |o|);
    assert !SelectionInside(sources[0], Known(stats)[0]);
    MeasuredPlan(false, sources, stats, [o]);
  }

  /** Two bytes from the last place but one of an object of 2^64-1 bytes: the sum wraps to zero. */
  lemma WrappedRangeFails(o: Bytes)
    requires |o| == WORDS_64 - 1
    ensures var sources, stats := [Source(Some(WORDS_64 - 2), Some(2), false, None)], [Some(WORDS_64 - 1)];
      && IsComposed(false, sources, stats)
      && Assembled(FullPlan(Measured(sources, Known(stats))), [o]) == None
  {
    var sources, stats: seq<Option<Word64>> := [Source(Some(WORDS_64 - 2), Some(2), false, None)], [Some(WORDS_64 - 1)];
    AcceptedAlone(sources[0], WORDS_64 - 1);
    assert !SelectionInside(sources[0], Known(stats)[0]);
    MeasuredPlan(false, sources, stats, [o]);
  }

  /** A single source with a range within one part needs no more than its range check. */
  lemma AcceptedAlone(s: Source, size: Word64)
    requires RangeAccepted(s, size) && !s.ssec && s.length.Some? && s.length.value <= MAX_PART_SIZE
    ensures IsComposed(false, [s], [Some(size)])
  {
    var sources, stats: seq<Option<Word64>> := [s], [Some(size)];
    OneSource(sources, Known(stats));
  }

  /**
   * What the second pass does once it has the measured sources: as many copies as counted and at
   * most 10000, putting exactly the stretches asked for together, or failing if one of them is
   * empty or not there; otherwise numbered in order and of admissible sizes.
   */
  lemma MeasuredPlan(https: bool, sources: seq<Source>, stats: seq<Option<Word64>>, objects: seq<Bytes>)
    requires |stats| == |sources| && sources != [] && Accepted(https, sources, stats) && Holds(objects, Known(stats))
    ensures var sizes, n := Known(stats), |sources|;
      var plan := FullPlan(Measured(sources, sizes));
      && 1 <= |plan| == TotalParts(sources, sizes, n) <= MAX_MULTIPART_COUNT
      && Assembled(plan, objects) == Stretches(sources, objects, n)
      && (Assembled(plan, objects) ==
            if AllInside(sources, sizes, n) then Some(Selection(sources, sizes, objects, n)) else None)
      && (AllInside(sources, sizes, n) ==> AllInPlace(plan, 1, sizes, true))
  {
    var sizes, n := Known(stats), |sources|;
    var measured := Measured(sources, sizes);
    assert RecordedSizes(measured) == sizes;
    PlanOfMeasured(sources, sizes, n);
    PlanCount(sources, sizes, n);
    PlanNonEmpty(sources, sizes);
    AcceptedRanges(https, sources, stats);
    AcceptedFits(https, sources, stats);
    hide Assembled, CopyPlan, TotalParts, RangeAccepted, RangeFits, LongEnough, SelectionInside, Stretches;
    PlanStretches(sources, sizes, objects, n);
    PlanDenotes(sources, sizes, objects, n);
    if AllInside(sources, sizes, n) {
      PlanRegular(sources, sizes, n, true);
    }
  }

  /** Where the request becomes an ordinary copy, the one object is all that was asked for. */
  lemma WholeCopyDenotes(https: bool, sources: seq<Source>, stats: seq<Option<Word64>>, objects: seq<Bytes>)
    requires |stats| == |sources| && sources != [] && IsWholeCopy(sources, Known(stats)) && Holds(objects, Known(stats))
    ensures |sources| == 1 && Stretches(sources, objects, 1) == Some(objects[0])
  {
    PartsAtLeast(sources, Known(stats), |sources|);
    hide TotalParts;
    assert Stretches(sources, objects, 0) == Some([]);
    assert [] + objects[0] == objects[0];
  }

  lemma {:induction false} PartsAtLeast(sources: seq<Source>, sizes: seq<Word64>, k: nat)
    requires k <= |sources| <= |sizes|
    ensures TotalParts(sources, sizes, k) >= k
    decreases k
  {
    if k > 0 {
      PartsAtLeast(sources, sizes, k - 1);
      CeilDivCovers(Selected(sources[k - 1], sizes[k - 1]), MAX_PART_SIZE);
      hide Selected;
    }
  }

  lemma AcceptedRanges(https: bool, sources: seq<Source>, stats: seq<Option<Word64>>)
    requires |stats| == |sources| && Accepted(https, sources, stats)
    ensures forall i :: 0 <= i < |sources| ==> RangeAccepted(sources[i], Known(stats)[i])
    ensures forall i :: 0 <= i < |sources| - 1 ==> LongEnough(sources[i], Known(stats)[i])
  {
    hide RangeAccepted, Selected, LastPart;
    forall i | 0 <= i < |sources| ensures SourceAccepted(https, sources[i], stats[i], i == |sources| - 1) {
    }
  }

  lemma AcceptedFits(https: bool, sources: seq<Source>, stats: seq<Option<Word64>>)
    requires |stats| == |sources| && Accepted(https, sources, stats)
    ensures forall i :: 0 <= i < |sources| ==> RangeFits(sources[i], Known(stats)[i])
  {
    AcceptedRanges(https, sources, stats);
    hide RangeAccepted, RangeFits, Accepted;
    forall i | 0 <= i < |sources| ensures RangeFits(sources[i], Known(stats)[i]) {
      RangeInNumbers(sources[i], Known(stats)[i]);
    }
  }

  lemma PlanNonEmpty(sources: seq<Source>, sizes: seq<Word64>)
    requires |sources| == |sizes| > 0
    ensures TotalParts(sources, sizes, |sources|) >= 1
  {
    CeilDivCovers(Selected(sources[|sources| - 1], sizes[|sources| - 1]), MAX_PART_SIZE);
  }

  /** Recording a size does not change what is selected. */
  lemma {:induction false} PlanOfMeasured(sources: seq<Source>, sizes: seq<Word64>, k: nat)
    requires k <= |sources| == |sizes|
    ensures CopyPlan(Measured(sources, sizes), sizes, k) == CopyPlan(sources, sizes, k)
    decreases k
  {
    hide SourceCopies;
    hide Selected;
    if k > 0 {
      PlanOfMeasured(sources, sizes, k - 1);
      CopiesOfMeasured(|CopyPlan(sources, sizes, k - 1)| + 1, k - 1, sources[k - 1], sizes[k - 1]);
    }
  }

  lemma CopiesOfMeasured(number: nat, source: nat, s: Source, size: Word64)
    ensures SourceCopies(number, source, s.(recorded := Some(size)), size) == SourceCopies(number, source, s, size)
  {
  }
}
