// The bookkeeping a run of the uploader must keep, stated on values: what is in flight, what
// the server holds, what the history allows. Upload.dfy keeps these over its fields.
module UploadLedger {
  import opened Wrappers
  import opened Buffers
  import opened Texts
  import opened PartPlan
  import opened Pieces
  import opened Server

  /** What is fixed for a run: the bytes to store, the part size, the ring, and what may go wrong early. */
  datatype Job = Job(payload: Bytes, size: nat, slots: nat, short: bool, reports: bool)

  /** What a successful upload stores. */
  function Payload(data: Bytes, objectSize: Option<nat>): Bytes {
    if objectSize.Some? then data[..Min(objectSize.value, |data|)] else data
  }

  /** The stream ends before the announced size. */
  predicate Short(data: Bytes, objectSize: Option<nat>) {
    objectSize.Some? && |data| < objectSize.value
  }

  predicate ValidJob(job: Job) {
    0 < job.slots && (|job.payload| > 0 ==> job.size > 0)
  }

  function RulesOf(job: Job): Rules {
    Rules(|job.payload|, job.size, job.slots, job.reports)
  }

  /** More than one part is needed, or the stream ends early: the whole is never sent in one request. */
  predicate Multi(job: Job)
    requires ValidJob(job)
  {
    job.short || PieceCount(|job.payload|, job.size) != 1
  }

  datatype Outcome = Acked(etag: string) | Failed

  /** An asynchronous UploadPart: its copy of the arguments, and how far it has got. */
  datatype Worker = Worker(number: nat, slot: nat, size: nat, uploadId: string, sent: Bytes, outcome: Option<Outcome>)

  /** No acknowledgement can come from this worker any more. */
  predicate Doomed(w: Worker) {
    !Usable(w.uploadId) || w.outcome == Some(Failed)
  }

  /** Steps this worker may still take. */
  function Remaining(w: Worker): nat {
    if w.outcome.Some? then 0 else if |w.sent| < w.size then 1 + w.size - |w.sent| else 1
  }

  // ---------- ring arithmetic ----------

  lemma ModDistinct(a: nat, b: nat, m: nat)
    requires a < b < a + m
    ensures a % m != b % m
  {
    var q := a / m;
    assert a == m * q + a % m;
    if a % m + (b - a) < m {
      DivUnique(b, m, q, a % m + (b - a));
    } else {
      assert m * (q + 1) == m * q + m;
      DivUnique(b, m, q + 1, a % m + (b - a) - m);
    }
  }

  lemma ModNext(a: nat, m: nat)
    requires 0 < m
    ensures (a % m + 1) % m == (a + 1) % m
  {
    var q, r := a / m, a % m;
    assert a == m * q + r;
    if r + 1 < m {
      DivUnique(a + 1, m, q, r + 1);
    } else {
      assert m * (q + 1) == m * q + m;
      DivUnique(a + 1, m, q + 1, 0);
      DivUnique(m, m, 1, 0);
    }
  }

  /** The slots of the parts numbered low+1 .. high. */
  function RingMap(low: nat, high: nat, m: nat): map<nat, nat>
    requires m > 0
    decreases high
  {
    if high <= low then map[] else RingMap(low, high - 1, m)[high := (high - 1) % m]
  }

  lemma {:induction false} RingMember(low: nat, high: nat, m: nat, n: nat)
    requires m > 0
    ensures n in RingMap(low, high, m) <==> low < n <= high
    ensures n in RingMap(low, high, m) ==> RingMap(low, high, m)[n] == (n - 1) % m
    decreases high
  {
    if high > low {
      RingMember(low, high - 1, m, n);
    }
  }

  lemma {:induction false} RingPop(low: nat, high: nat, m: nat)
    requires m > 0 && low < high
    ensures RingMap(low, high, m) - {low + 1} == RingMap(low + 1, high, m)
    decreases high
  {
    if high > low + 1 {
      RingPop(low, high - 1, m);
    }
  }

  /** With fewer parts in flight than slots, the next slot in turn is free. */
  lemma NextSlotFree(low: nat, high: nat, m: nat)
    requires m > 0 && low <= high < low + m
    ensures high % m !in RingMap(low, high, m).Values
  {
    var ring := RingMap(low, high, m);
    forall n | n in ring ensures ring[n] != high % m {
      RingMember(low, high, m, n);
      ModDistinct(n - 1, high, m);
    }
  }

  lemma {:induction false} RingSize(low: nat, high: nat, m: nat)
    requires m > 0 && low <= high
    ensures |RingMap(low, high, m)| == high - low
    decreases high
  {
    if high > low {
      RingSize(low, high - 1, m);
      RingMember(low, high - 1, m, high);
    }
  }

  // ---------- the invariants ----------

  /**
   * A run between two of its steps. Parts 1..dispatched have been handed to workers and the last
   * |inflight| of them are not collected yet; `blankId` says that the server handed out an
   * upload ID that no request can name and no part carries yet; `owed` says that the part collected
   * last is still to be reported.
   */
  datatype Run = Run(history: History, id: string, inflight: seq<Worker>, dispatched: nat,
                     error: Option<UploadError>, blankId: bool, parts: seq<Part>, bytes: nat, owed: bool)
  {
    function Low(): int {
      dispatched - |inflight|
    }
  }

  function Store(h: History, id: string): map<nat, Stored> {
    var s := Replay(h);
    if id in s.uploads then s.uploads[id] else map[]
  }

  /** What the server holds, and what was asked of it, when no final request has been sent. */
  ghost predicate ServerOk(job: Job, h: History, id: string, high: nat) {
    && Replay(h).committed == None
    && Replay(h).uploads.Keys == (if Usable(id) then {id} else {})
    && (forall n :: n in Store(h, id) ==> n <= high)
    && Faithful(h, job.payload, job.size)
    && Count(h, IsCreate) == (if Usable(id) then 1 else 0)
    && Count(h, IsComplete) == Count(h, IsAbort) == Count(h, IsWhole) == 0
  }

  /** Which parts have been dispatched and collected, and that the rules were kept. */
  ghost predicate TraceOk(job: Job, h: History, low: nat, high: nat)
    requires ValidJob(job)
  {
    && Busy(h) == RingMap(low, high, job.slots)
    && Dispatched(h) == high
    && Collected(h) == low
    && (!job.reports ==> Reports(h) == 0)
    && (forall n: nat :: HasStored(h, n) ==> n <= high)
    && Disciplined(h, RulesOf(job))
    && (h.Then? ==> !Final(h.event))
  }

  ghost predicate LedgerOk(job: Job, h: History, id: string, low: nat, high: nat)
    requires ValidJob(job)
  {
    ServerOk(job, h, id, high) && TraceOk(job, h, low, high)
  }

  /** What one event more adds to everything read off a history. */
  lemma Step(h: History, e: Event)
    ensures var g := Then(h, e);
      && Replay(g) == Apply(Replay(h), e)
      && Dispatched(g) == Dispatched(h) + (if e.Dispatch? then 1 else 0)
      && Collected(g) == Collected(h) + (if e.Collect? then 1 else 0)
      && Reports(g) == Reports(h) + (if e.Reported? then 1 else 0)
      && Noted(g) == (if Noted(h).Some? then Noted(h) else ErrorOf(h, e))
      && (Refused(g) <==> Refusal(e) || Refused(h))
      && Count(g, IsCreate) == Count(h, IsCreate) + (if IsCreate(e) then 1 else 0)
      && Count(g, IsComplete) == Count(h, IsComplete) + (if IsComplete(e) then 1 else 0)
      && Count(g, IsAbort) == Count(h, IsAbort) + (if IsAbort(e) then 1 else 0)
      && Count(g, IsWhole) == Count(h, IsWhole) + (if IsWhole(e) then 1 else 0)
    ensures forall n: nat :: HasStored(Then(h, e), n) <==> HasStored(h, n) || (e.PartStored? && e.number == n)
    ensures e.Dispatch? ==> Busy(Then(h, e)) == Busy(h)[e.number := e.slot]
    ensures e.Collect? ==> Busy(Then(h, e)) == Busy(h) - {e.number}
    ensures !e.Dispatch? && !e.Collect? ==> Busy(Then(h, e)) == Busy(h)
  {
  }

  /** Does the server neither store nor finish anything? */
  predicate Elsewhere(e: Event) {
    !e.PartStored? && !e.Created? && !IsComplete(e) && !IsAbort(e) && !IsWhole(e)
  }

  lemma ServerAfter(job: Job, h: History, id: string, high: nat, e: Event)
    requires ServerOk(job, h, id, high) && Elsewhere(e)
    ensures ServerOk(job, Then(h, e), id, high) && Store(Then(h, e), id) == Store(h, id)
  {
    Step(h, e);
    hide Usable, Piece;
  }

  /** The parts dispatched and collected after an event that the rules allow. */
  lemma TraceAfter(job: Job, h: History, low: nat, high: nat, e: Event)
    requires ValidJob(job) && TraceOk(job, h, low, high)
    requires (IsOwn(e) ==> Prompt(h, RulesOf(job))) && Allowed(h, e, RulesOf(job)) && !Final(e)
    requires low <= high && (e.Collect? ==> low < high)
    requires e.PartStored? ==> e.number <= high
    ensures TraceOk(job, Then(h, e), low + (if e.Collect? then 1 else 0), high + (if e.Dispatch? then 1 else 0))
  {
    if e.Collect? {
      RingPop(low, high, job.slots);
    }
    hide RingMap, Noted, Prompt, Cut, PieceCount;
    Step(h, e);
    BusyAfter(job, h, low, high, e);
    hide Busy, Reports, Dispatched, Collected, HasStored, Count, Refused, Replay;
    assert e.Reported? ==> job.reports;
    assert Disciplined(Then(h, e), RulesOf(job));
  }

  lemma BusyAfter(job: Job, h: History, low: nat, high: nat, e: Event)
    requires ValidJob(job) && Busy(h) == RingMap(low, high, job.slots) && low <= high
    requires e.Dispatch? ==> e == Dispatch(high + 1, high % job.slots)
    requires e.Collect? ==> e.number == low + 1 && low < high
    ensures Busy(Then(h, e)) ==
      RingMap(low + (if e.Collect? then 1 else 0), high + (if e.Dispatch? then 1 else 0), job.slots)
  {
    if e.Collect? {
      RingPop(low, high, job.slots);
    }
  }

  /** The record of part n in flight. */
  ghost predicate WorkerOk(job: Job, h: History, id: string, w: Worker, n: nat)
    requires ValidJob(job) && n >= 1
  {
    var piece := Piece(job.payload, job.size, n);
    && w.number == n
    && w.slot == (n - 1) % job.slots
    && w.size == |piece|
    && w.sent <= piece
    && (Usable(w.uploadId) ==> w.uploadId == id)
    && (!Usable(w.uploadId) ==> Refused(h) && (w.outcome.Some? ==> w.outcome.value == Failed))
    && (w.outcome == Some(Failed) ==> Refused(h) || n > MAX_MULTIPART_COUNT)
    && (w.outcome.Some? && w.outcome.value.Acked? ==>
          && n <= MAX_MULTIPART_COUNT
          && n in Store(h, id)
          && Store(h, id)[n] == Stored(piece, w.outcome.value.etag))
    && (w.outcome.None? ==> n !in Store(h, id))
    && (HasStored(h, n) <==> w.outcome.Some? && w.outcome.value.Acked?)
  }

  ghost predicate WorkersOk(job: Job, h: History, id: string, inflight: seq<Worker>, low: nat)
    requires ValidJob(job)
  {
    forall i :: 0 <= i < |inflight| ==> WorkerOk(job, h, id, inflight[i], low + i + 1)
  }

  ghost predicate SomeDoomed(inflight: seq<Worker>) {
    exists i :: 0 <= i < |inflight| && Doomed(inflight[i])
  }

  /** Errors have causes, and causes become errors. */
  ghost predicate Accounted(job: Job, r: Run)
    requires ValidJob(job)
  {
    && (Refused(r.history) ==> r.error.Some? || r.blankId || SomeDoomed(r.inflight))
    && (r.blankId || (r.id != "" && !Usable(r.id)) ==> Refused(r.history))
    && (r.blankId ==> !Usable(r.id))
    && (r.error == Some(ShortStream) ==> job.short)
    && r.error != Some(OutOfMemory)
    && (r.error.Some? ==>
          Refused(r.history) || job.short || PieceCount(|job.payload|, job.size) > MAX_MULTIPART_COUNT)
  }

  /** The collected parts are pieces 1, 2, 3, ... as stored, and were reported so. */
  ghost predicate CollectedOk(job: Job, h: History, id: string, parts: seq<Part>, low: nat, bytes: nat, owed: bool)
    requires ValidJob(job)
  {
    && |parts| == low <= MAX_MULTIPART_COUNT
    && ListsPieces(Store(h, id), parts, job.payload, job.size)
    && (owed ==> job.reports && low > 0)
    && (job.reports ==>
          var reported := if owed then low - 1 else low;
          Reports(h) == reported && bytes == Cut(|job.payload|, job.size, reported))
  }

  ghost predicate RunOk(job: Job, r: Run) {
    && ValidJob(job)
    && |r.inflight| <= job.slots
    && |r.inflight| <= r.dispatched <= PieceCount(|job.payload|, job.size)
    && WorkersOk(job, r.history, r.id, r.inflight, r.Low())
    && LedgerOk(job, r.history, r.id, r.Low(), r.dispatched)
    && Accounted(job, r)
    && r.error == Noted(r.history)
    && (r.error.Some? || r.dispatched > 0 || r.id != "" ==> Multi(job))
    && (r.error.None? ==> CollectedOk(job, r.history, r.id, r.parts, r.Low(), r.bytes, r.owed))
  }

  // ---------- events of the uploader itself ----------

  /** Events that leave the server and the ring as they are. */
  predicate Quiet(e: Event) {
    e.Fill? || e.Reported? || e.StreamEnded? || e.NoThread? || e.CreateRefused? || e.PartRefused?
  }

  lemma WorkersAfterQuiet(job: Job, h: History, id: string, inflight: seq<Worker>, low: nat, e: Event)
    requires ValidJob(job) && WorkersOk(job, h, id, inflight, low) && (Quiet(e) || e.Dispatch? || e.Collect?)
    ensures WorkersOk(job, Then(h, e), id, inflight, low)
  {
    assert Store(Then(h, e), id) == Store(h, id);
    forall i | 0 <= i < |inflight| ensures WorkerOk(job, Then(h, e), id, inflight[i], low + i + 1) {
      assert WorkerOk(job, h, id, inflight[i], low + i + 1);
    }
  }

  /** While no report is owed, everything collected has been reported. */
  lemma RunIsPrompt(job: Job, r: Run)
    requires RunOk(job, r) && !r.owed
    ensures Prompt(r.history, RulesOf(job))
  {
    hide WorkersOk, Accounted, ListsPieces, Cut, Disciplined, ServerOk, RingMap, Noted, Reports, Collected;
  }

  lemma RingInFlight(job: Job, r: Run)
    requires RunOk(job, r)
    ensures |Busy(r.history)| == |r.inflight| && Dispatched(r.history) == r.dispatched && Collected(r.history) == r.Low()
    ensures r.inflight == [] ==> Busy(r.history) == map[]
    ensures forall n :: n in Busy(r.history) <==> r.Low() < n <= r.dispatched
    ensures |r.inflight| < job.slots ==> r.dispatched % job.slots !in Busy(r.history).Values
  {
    RingSize(r.Low(), r.dispatched, job.slots);
    forall n: nat ensures n in Busy(r.history) <==> r.Low() < n <= r.dispatched {
      RingMember(r.Low(), r.dispatched, job.slots, n);
    }
    if |r.inflight| < job.slots {
      NextSlotFree(r.Low(), r.dispatched, job.slots);
    }
    hide WorkersOk, Accounted, CollectedOk, Disciplined, ServerOk, RingMap, Noted, Busy;
  }

  /** An event that is allowed and moves nothing keeps the ledger. */
  lemma LedgerAfterQuiet(job: Job, r: Run, e: Event)
    requires RunOk(job, r) && Quiet(e) && Allowed(r.history, e, RulesOf(job)) && (IsOwn(e) ==> Prompt(r.history, RulesOf(job)))
    ensures LedgerOk(job, Then(r.history, e), r.id, r.Low(), r.dispatched)
    ensures Store(Then(r.history, e), r.id) == Store(r.history, r.id)
  {
    hide WorkersOk, Accounted, CollectedOk, Prompt, Allowed, ServerOk, TraceOk, Noted, PieceCount;
    ServerAfter(job, r.history, r.id, r.dispatched, e);
    TraceAfter(job, r.history, r.Low(), r.dispatched, e);
  }

  /** Everything else that a quiet event keeps. */
  lemma RestAfterQuiet(job: Job, r: Run, e: Event)
    requires RunOk(job, r) && Quiet(e) && !e.Reported?
    ensures WorkersOk(job, Then(r.history, e), r.id, r.inflight, r.Low())
    ensures r.error.None? ==> CollectedOk(job, Then(r.history, e), r.id, r.parts, r.Low(), r.bytes, r.owed)
  {
    WorkersAfterQuiet(job, r.history, r.id, r.inflight, r.Low(), e);
    hide WorkersOk, Accounted, LedgerOk, ListsPieces, Cut, PieceCount, Noted;
    assert Store(Then(r.history, e), r.id) == Store(r.history, r.id);
    hide Store;
  }

  // ---------- worker steps ----------

  /** UploadPart refuses its own arguments: no usable upload ID, or a number above the limit. */
  lemma RunAfterInvalid(job: Job, r: Run, i: nat)
    requires RunOk(job, r) && i < |r.inflight|
    requires var w := r.inflight[i];
      w.outcome.None? && (!Usable(w.uploadId) || w.number > MAX_MULTIPART_COUNT)
    ensures RunOk(job, r.(inflight := r.inflight[i := r.inflight[i].(outcome := Some(Failed))]))
  {
    var w := r.inflight[i].(outcome := Some(Failed));
    assert WorkerOk(job, r.history, r.id, r.inflight[i], r.Low() + i + 1);
    assert WorkerOk(job, r.history, r.id, w, r.Low() + i + 1);
    WorkersUpdate(job, r.history, r.id, r.inflight, r.Low(), i, w);
    DoomedNow(r.inflight, i, w);
    hide LedgerOk, WorkersOk, WorkerOk, CollectedOk, Piece, PieceCount, SomeDoomed;
  }

  lemma DoomedNow(inflight: seq<Worker>, i: nat, w: Worker)
    requires i < |inflight| && Doomed(w)
    ensures SomeDoomed(inflight[i := w])
  {
    assert Doomed(inflight[i := w][i]);
  }

  lemma WorkersUpdate(job: Job, h: History, id: string, inflight: seq<Worker>, low: nat, i: nat, w: Worker)
    requires ValidJob(job) && WorkersOk(job, h, id, inflight, low) && i < |inflight|
    requires WorkerOk(job, h, id, w, low + i + 1)
    ensures WorkersOk(job, h, id, inflight[i := w], low)
  {
    forall k | 0 <= k < |inflight| && k != i ensures WorkerOk(job, h, id, inflight[k], low + k + 1) {
    }
  }

  lemma WorkerNumber(job: Job, r: Run, i: nat)
    requires RunOk(job, r) && i < |r.inflight|
    ensures WorkerOk(job, r.history, r.id, r.inflight[i], r.Low() + i + 1)
    ensures r.inflight[i].number == r.Low() + i + 1 && r.Low() < r.inflight[i].number <= r.dispatched
  {
    hide LedgerOk, Accounted, CollectedOk, Noted, Piece, PieceCount, Refused, HasStored, Store;
  }

  lemma LedgerAfterRefusal(job: Job, r: Run, n: nat)
    requires RunOk(job, r) && r.Low() < n <= r.dispatched
    ensures LedgerOk(job, Then(r.history, PartRefused(n)), r.id, r.Low(), r.dispatched)
    ensures Store(Then(r.history, PartRefused(n)), r.id) == Store(r.history, r.id)
  {
    hide LedgerOk, WorkersOk, Accounted, CollectedOk, Noted, PieceCount;
    RingInFlight(job, r);
    LedgerAfterQuiet(job, r, PartRefused(n));
  }

  /** A worker that was refused has failed, and nothing else changes. */
  lemma WorkersAfterRefusal(job: Job, r: Run, i: nat)
    requires RunOk(job, r) && i < |r.inflight| && r.inflight[i].outcome.None?
    ensures var w := r.inflight[i];
      WorkersOk(job, Then(r.history, PartRefused(w.number)), r.id, r.inflight[i := w.(outcome := Some(Failed))], r.Low())
  {
    hide LedgerOk, Accounted, CollectedOk, PieceCount, Noted, WorkersOk, Piece, Store;
    var w := r.inflight[i];
    var h', w' := Then(r.history, PartRefused(w.number)), w.(outcome := Some(Failed));
    RestAfterQuiet(job, r, PartRefused(w.number));
    WorkerNumber(job, r, i);
    Step(r.history, PartRefused(w.number));
    SameStore(r.history, PartRefused(w.number), r.id);
    hide Replay, Busy, Reports, Dispatched, Collected, HasStored, Noted, Count, Refused, Disciplined, Faithful;
    assert WorkerOk(job, h', r.id, w', r.Low() + i + 1);
    hide WorkerOk;
    WorkersUpdate(job, h', r.id, r.inflight, r.Low(), i, w');
  }

  lemma SameStore(h: History, e: Event, id: string)
    requires Elsewhere(e)
    ensures Store(Then(h, e), id) == Store(h, id)
  {
  }

  lemma RunAfterRefusal(job: Job, r: Run, i: nat)
    requires RunOk(job, r) && i < |r.inflight| && r.inflight[i].outcome.None?
    ensures RunOk(job, r.(history := Then(r.history, PartRefused(r.inflight[i].number)),
                          inflight := r.inflight[i := r.inflight[i].(outcome := Some(Failed))]))
  {
    hide Replay, Busy, Reports, Dispatched, Collected, HasStored, Noted, Count, Refused, Disciplined, Faithful, LedgerOk, WorkersOk, WorkerOk, CollectedOk, PieceCount, Piece, SomeDoomed;
    var w := r.inflight[i];
    WorkerNumber(job, r, i);
    LedgerAfterRefusal(job, r, w.number);
    RestAfterQuiet(job, r, PartRefused(w.number));
    WorkersAfterRefusal(job, r, i);
    DoomedNow(r.inflight, i, w.(outcome := Some(Failed)));
    Step(r.history, PartRefused(w.number));
  }

  lemma DoomedKept(inflight: seq<Worker>, i: nat, w: Worker)
    requires i < |inflight| && !Doomed(inflight[i])
    ensures SomeDoomed(inflight) ==> SomeDoomed(inflight[i := w])
  {
    var ws := inflight[i := w];
    forall k | 0 <= k < |inflight| && Doomed(inflight[k]) ensures Doomed(ws[k]) {
    }
  }

  lemma DoomedAppend(inflight: seq<Worker>, w: Worker)
    ensures SomeDoomed(inflight) || Doomed(w) ==> SomeDoomed(inflight + [w])
  {
    var ws := inflight + [w];
    assert ws[|inflight|] == w;
    forall k | 0 <= k < |inflight| && Doomed(inflight[k]) ensures Doomed(ws[k]) {
    }
  }

  lemma RunAfterByte(job: Job, r: Run, i: nat, b: bv8)
    requires RunOk(job, r) && i < |r.inflight| && r.inflight[i].outcome.None?
    requires var w := r.inflight[i];
      |w.sent| < w.size && w.number >= 1 && w.size == |Piece(job.payload, job.size, w.number)|
      && b == Piece(job.payload, job.size, w.number)[|w.sent|]
    ensures RunOk(job, r.(inflight := r.inflight[i := r.inflight[i].(sent := r.inflight[i].sent + [b])]))
  {
    hide LedgerOk, CollectedOk, Piece;
    var w := r.inflight[i];
    var ws := r.inflight[i := w.(sent := w.sent + [b])];
    assert WorkerOk(job, r.history, r.id, w, r.Low() + i + 1);
    assert w.sent + [b] <= Piece(job.payload, job.size, w.number);
    forall k | 0 <= k < |r.inflight| && Doomed(r.inflight[k]) ensures Doomed(ws[k]) {
    }
  }

  lemma StoreAfterStored(h: History, id: string, n: nat, body: Bytes, etag: string)
    requires id in Replay(h).uploads
    ensures Store(Then(h, PartStored(id, n, body, etag)), id) == Store(h, id)[n := Stored(body, etag)]
  {
  }

  lemma LedgerAfterStored(job: Job, r: Run, n: nat, etag: string)
    requires RunOk(job, r) && r.Low() < n <= r.dispatched && Usable(r.id)
    ensures LedgerOk(job, Then(r.history, PartStored(r.id, n, Piece(job.payload, job.size, n), etag)), r.id, r.Low(), r.dispatched)
  {
    RingInFlight(job, r);
    hide WorkersOk, Accounted, CollectedOk, RingMap, Piece, PieceCount, Usable, Prompt, TraceOk, Noted;
    TraceAfter(job, r.history, r.Low(), r.dispatched, PartStored(r.id, n, Piece(job.payload, job.size, n), etag));
    ServerAfterStored(job, r.history, r.id, r.dispatched, n, etag);
    hide ServerOk, Busy;
  }

  lemma ServerAfterStored(job: Job, h: History, id: string, high: nat, n: nat, etag: string)
    requires ServerOk(job, h, id, high) && 1 <= n <= high && Usable(id)
    ensures ServerOk(job, Then(h, PartStored(id, n, Piece(job.payload, job.size, n), etag)), id, high)
  {
    hide Piece, Usable;
    StoreAfterStored(h, id, n, Piece(job.payload, job.size, n), etag);
    Step(h, PartStored(id, n, Piece(job.payload, job.size, n), etag));
    hide Store;
  }

  lemma WorkersAfterStored(job: Job, r: Run, i: nat, etag: string)
    requires RunOk(job, r) && i < |r.inflight| && r.Low() + i + 1 <= MAX_MULTIPART_COUNT && r.inflight[i].uploadId == r.id && Usable(r.id)
    ensures var n := r.Low() + i + 1;
      WorkersOk(job, Then(r.history, PartStored(r.id, n, Piece(job.payload, job.size, n), etag)), r.id,
                r.inflight[i := r.inflight[i].(outcome := Some(Acked(etag)))], r.Low())
  {
    hide Piece, CollectedOk, Accounted;
    var n, ws := r.Low() + i + 1, r.inflight[i := r.inflight[i].(outcome := Some(Acked(etag)))];
    var h' := Then(r.history, PartStored(r.id, n, Piece(job.payload, job.size, n), etag));
    StoreAfterStored(r.history, r.id, n, Piece(job.payload, job.size, n), etag);
    hide LedgerOk, Store;
    assert WorkerOk(job, r.history, r.id, r.inflight[i], n);
    forall k | 0 <= k < |ws| && k != i ensures WorkerOk(job, h', r.id, ws[k], r.Low() + k + 1) {
      assert WorkerOk(job, r.history, r.id, r.inflight[k], r.Low() + k + 1);
    }
  }

  lemma CollectedAfterStored(job: Job, r: Run, n: nat, body: Bytes, etag: string)
    requires RunOk(job, r) && n > r.Low() && Usable(r.id) && r.error.None?
    ensures CollectedOk(job, Then(r.history, PartStored(r.id, n, body, etag)), r.id, r.parts, r.Low(), r.bytes, r.owed)
  {
    StoreAfterStored(r.history, r.id, n, body, etag);
    hide Piece, WorkersOk, Accounted, LedgerOk, Store, Noted, Cut;
  }

  /** The server stores the body: the worker's own piece, under its own number. */
  lemma RunAfterStored(job: Job, r: Run, i: nat, etag: string)
    requires RunOk(job, r) && i < |r.inflight|
    requires var w := r.inflight[i];
      w.outcome.None? && Usable(w.uploadId) && w.number <= MAX_MULTIPART_COUNT && |w.sent| >= w.size
    ensures var w := r.inflight[i];
      RunOk(job, r.(history := Then(r.history, PartStored(w.uploadId, w.number, w.sent, etag)),
                    inflight := r.inflight[i := w.(outcome := Some(Acked(etag)))]))
  {
    hide Replay, Busy, Reports, Dispatched, Collected, HasStored, Noted, Count, Refused, Disciplined, Faithful, LedgerOk, CollectedOk, PieceCount, Store, Usable;
    var w := r.inflight[i];
    assert WorkerOk(job, r.history, r.id, w, r.Low() + i + 1);
    assert w.sent == Piece(job.payload, job.size, w.number) && w.number == r.Low() + i + 1 && w.uploadId == r.id;
    hide WorkerOk, Piece;
    LedgerAfterStored(job, r, w.number, etag);
    WorkersAfterStored(job, r, i, etag);
    if r.error.None? {
      CollectedAfterStored(job, r, w.number, w.sent, etag);
    }
    DoomedKept(r.inflight, i, w.(outcome := Some(Acked(etag))));
    Step(r.history, PartStored(w.uploadId, w.number, w.sent, etag));
    hide WorkersOk, SomeDoomed;
  }

  // ---------- steps of the uploader ----------

  lemma RunStart(job: Job)
    requires ValidJob(job)
    ensures RunOk(job, Run(Begin, "", [], 0, None, false, [], 0, false))
  {
    assert PieceCount(|job.payload|, job.size) >= 0;
  }

  /** The reader starts overwriting the next slot in turn. */
  lemma RunAfterFill(job: Job, r: Run)
    requires RunOk(job, r) && |r.inflight| < job.slots && !r.owed
    ensures RunOk(job, r.(history := Then(r.history, Fill(r.dispatched % job.slots))))
  {
    RunAfterQuiet(job, r, Fill(r.dispatched % job.slots));
  }

  /** Events of the uploader that move nothing; some of them are errors. */
  lemma RunAfterQuiet(job: Job, r: Run, e: Event)
    requires RunOk(job, r) && !r.owed && (e.Fill? || e.StreamEnded? || e.NoThread? || e.CreateRefused?)
    requires e.Fill? ==> |r.inflight| < job.slots && e.slot == r.dispatched % job.slots
    requires !e.Fill? ==> r.error.None? && Multi(job) && (e.StreamEnded? ==> job.short)
    ensures RunOk(job, r.(history := Then(r.history, e), error := if e.Fill? then r.error else ErrorOf(r.history, e)))
  {
    RunIsPrompt(job, r);
    RingInFlight(job, r);
    LedgerAfterQuiet(job, r, e);
    RestAfterQuiet(job, r, e);
    Step(r.history, e);
    hide Replay, Busy, Reports, Dispatched, Collected, HasStored, Noted, Count, Refused, Disciplined, Faithful, LedgerOk, WorkersOk, CollectedOk, SomeDoomed, PieceCount, Prompt;
  }

  lemma SlotsInFlight(job: Job, r: Run)
    requires RunOk(job, r) && |r.inflight| < job.slots
    ensures forall i :: 0 <= i < |r.inflight| ==> r.inflight[i].slot != r.dispatched % job.slots
  {
    forall i | 0 <= i < |r.inflight| ensures r.inflight[i].slot != r.dispatched % job.slots {
      assert WorkerOk(job, r.history, r.id, r.inflight[i], r.Low() + i + 1);
      ModDistinct(r.Low() + i, r.dispatched, job.slots);
    }
  }

  lemma RunAfterError(job: Job, r: Run, e: Event)
    requires RunOk(job, r) && (e.CreateRefused? || e.NoThread?) && r.error.None? && !r.owed && Multi(job)
    ensures RunOk(job, r.(history := Then(r.history, e),
                          error := Some(if e.CreateRefused? then CreateFailed else ThreadFailed)))
  {
    RunAfterQuiet(job, r, e);
  }

  lemma RunAfterShort(job: Job, r: Run)
    requires RunOk(job, r) && job.short && r.error.None? && !r.owed
    ensures RunOk(job, r.(history := Then(r.history, StreamEnded), error := Some(ShortStream)))
  {
    RunAfterQuiet(job, r, StreamEnded);
  }

  lemma LedgerAfterCreated(job: Job, r: Run, id: string)
    requires RunOk(job, r) && r.id == "" && !r.owed
    ensures LedgerOk(job, Then(r.history, Created(id)), id, r.Low(), r.dispatched)
    ensures Store(Then(r.history, Created(id)), id) == map[] == Store(r.history, "")
  {
    RunIsPrompt(job, r);
    hide WorkersOk, Accounted, CollectedOk, RingMap, PieceCount, Prompt, TraceOk, Noted;
    TraceAfter(job, r.history, r.Low(), r.dispatched, Created(id));
    ServerAfterCreated(job, r.history, id, r.dispatched);
    hide ServerOk;
  }

  lemma ServerAfterCreated(job: Job, h: History, id: string, high: nat)
    requires ServerOk(job, h, "", high)
    ensures ServerOk(job, Then(h, Created(id)), id, high)
    ensures Store(Then(h, Created(id)), id) == map[] == Store(h, "")
  {
    Step(h, Created(id));
  }

  lemma WorkersAfterCreated(job: Job, r: Run, id: string)
    requires RunOk(job, r) && r.id == "" && !r.owed
    ensures WorkersOk(job, Then(r.history, Created(id)), id, r.inflight, r.Low())
  {
    hide Replay, Busy, Reports, Dispatched, Collected, HasStored, Noted, Count, Refused, Disciplined, Faithful, LedgerOk, Accounted, CollectedOk, Piece, PieceCount, Store, WorkerOk;
    LedgerAfterCreated(job, r, id);
    forall i | 0 <= i < |r.inflight| ensures WorkerOk(job, Then(r.history, Created(id)), id, r.inflight[i], r.Low() + i + 1) {
      WorkerAfterCreated(job, r.history, r.inflight[i], r.Low() + i + 1, id);
    }
  }

  lemma WorkerAfterCreated(job: Job, h: History, w: Worker, n: nat, id: string)
    requires ValidJob(job) && n >= 1 && WorkerOk(job, h, "", w, n)
    requires Store(Then(h, Created(id)), id) == map[] == Store(h, "")
    ensures WorkerOk(job, Then(h, Created(id)), id, w, n)
  {
    hide Replay, Busy, Reports, Dispatched, Collected, HasStored, Noted, Count, Refused, Disciplined, Faithful, Piece, Store;
    Step(h, Created(id));
  }

  /** The server opens an upload; an ID that no request can name is noted and opens nothing. */
  lemma RunAfterCreated(job: Job, r: Run, id: string)
    requires RunOk(job, r) && r.id == "" && !r.blankId && !r.owed && Multi(job)
    ensures RunOk(job, r.(history := Then(r.history, Created(id)), id := id, blankId := !Usable(id)))
  {
    hide Replay, Busy, Reports, Dispatched, Collected, HasStored, Noted, Count, Refused, Disciplined, Faithful, LedgerOk, WorkersOk, SomeDoomed, Piece, PieceCount, Store, Cut;
    LedgerAfterCreated(job, r, id);
    WorkersAfterCreated(job, r, id);
    Step(r.history, Created(id));
  }

  function NewWorker(job: Job, r: Run): Worker
    requires job.slots > 0
  {
    var n := r.dispatched + 1;
    Worker(n, r.dispatched % job.slots, |Piece(job.payload, job.size, n)|, r.id, [], None)
  }

  lemma LedgerAfterDispatch(job: Job, r: Run)
    requires RunOk(job, r) && |r.inflight| < job.slots && !r.owed && r.error.None?
    ensures var h' := Then(r.history, Dispatch(r.dispatched + 1, r.dispatched % job.slots));
      LedgerOk(job, h', r.id, r.Low(), r.dispatched + 1) && Store(h', r.id) == Store(r.history, r.id)
  {
    hide WorkersOk, Accounted, CollectedOk, Prompt, PieceCount, TraceOk, ServerOk, Noted, Busy, Dispatched, Collected;
    var e := Dispatch(r.dispatched + 1, r.dispatched % job.slots);
    RunIsPrompt(job, r);
    RingInFlight(job, r);
    assert Allowed(r.history, e, RulesOf(job));
    hide Allowed;
    TraceAfter(job, r.history, r.Low(), r.dispatched, e);
    ServerAfter(job, r.history, r.id, r.dispatched, e);
    hide Store;
    ServerHigher(job, Then(r.history, e), r.id, r.dispatched);
  }

  lemma ServerHigher(job: Job, h: History, id: string, high: nat)
    requires ServerOk(job, h, id, high)
    ensures ServerOk(job, h, id, high + 1)
  {
  }

  lemma NewWorkerOk(job: Job, r: Run)
    requires RunOk(job, r) && (r.id == "" ==> r.blankId)
    ensures WorkerOk(job, r.history, r.id, NewWorker(job, r), r.dispatched + 1)
  {
    hide WorkersOk, CollectedOk, Disciplined, Faithful, Busy, Noted, Piece, PieceCount, Dispatched, Collected, Reports;
    assert r.dispatched + 1 !in Store(r.history, r.id) && !HasStored(r.history, r.dispatched + 1);
    hide Store, HasStored, Replay;
  }

  lemma WorkersAfterDispatch(job: Job, r: Run)
    requires RunOk(job, r) && |r.inflight| < job.slots && (r.id == "" ==> r.blankId)
    ensures WorkersOk(job, Then(r.history, Dispatch(r.dispatched + 1, r.dispatched % job.slots)), r.id,
                      r.inflight + [NewWorker(job, r)], r.Low())
  {
    NewWorkerOk(job, r);
    hide WorkerOk, NewWorker, LedgerOk, Accounted, CollectedOk, Noted, PieceCount;
    var ws := r.inflight + [NewWorker(job, r)];
    forall i | 0 <= i < |ws| ensures WorkerOk(job, r.history, r.id, ws[i], r.Low() + i + 1) {
      if i < |r.inflight| {
        assert WorkerOk(job, r.history, r.id, r.inflight[i], r.Low() + i + 1);
      }
    }
    WorkersAfterQuiet(job, r.history, r.id, ws, r.Low(), Dispatch(r.dispatched + 1, r.dispatched % job.slots));
  }

  /** The next part goes in flight from the slot just filled. */
  lemma RunAfterDispatch(job: Job, r: Run)
    requires RunOk(job, r) && |r.inflight| < job.slots && r.dispatched < PieceCount(|job.payload|, job.size)
    requires (r.id == "" ==> r.blankId) && !r.owed && r.error.None? && Multi(job)
    ensures RunOk(job, r.(history := Then(r.history, Dispatch(r.dispatched + 1, r.dispatched % job.slots)),
                          inflight := r.inflight + [NewWorker(job, r)], dispatched := r.dispatched + 1, blankId := false))
  {
    hide Replay, Busy, Reports, Dispatched, Collected, HasStored, Noted, Count, Refused, Disciplined, Faithful;
    hide LedgerOk, WorkersOk, WorkerOk, Piece, PieceCount, SomeDoomed, ListsPieces, Store, Cut, Usable;
    Step(r.history, Dispatch(r.dispatched + 1, r.dispatched % job.slots));
    LedgerAfterDispatch(job, r);
    WorkersAfterDispatch(job, r);
    DoomedAppend(r.inflight, NewWorker(job, r));
  }

  /** The reader waits only for a full ring, or with everything dispatched, or after an error. */
  predicate MayCollect(job: Job, r: Run)
    requires ValidJob(job)
  {
    && r.inflight != [] && !r.owed
    && (r.error.None? && r.dispatched < PieceCount(|job.payload|, job.size) ==> |r.inflight| == job.slots)
  }

  lemma LedgerAfterCollect(job: Job, r: Run)
    requires RunOk(job, r) && MayCollect(job, r)
    ensures var h' := Then(r.history, Collect(r.Low() + 1));
      LedgerOk(job, h', r.id, r.Low() + 1, r.dispatched) && Store(h', r.id) == Store(r.history, r.id)
  {
    hide WorkersOk, Accounted, CollectedOk, Prompt, PieceCount, TraceOk, ServerOk, Noted, Busy, Dispatched, Collected;
    var e := Collect(r.Low() + 1);
    RunIsPrompt(job, r);
    RingInFlight(job, r);
    assert Allowed(r.history, e, RulesOf(job));
    hide Allowed;
    TraceAfter(job, r.history, r.Low(), r.dispatched, e);
    ServerAfter(job, r.history, r.id, r.dispatched, e);
    hide Store;
  }

  lemma WorkersAfterCollect(job: Job, r: Run)
    requires RunOk(job, r) && r.inflight != []
    ensures WorkersOk(job, Then(r.history, Collect(r.Low() + 1)), r.id, r.inflight[1..], r.Low() + 1)
  {
    var h' := Then(r.history, Collect(r.Low() + 1));
    WorkersAfterQuiet(job, r.history, r.id, r.inflight, r.Low(), Collect(r.Low() + 1));
    hide WorkerOk, LedgerOk, CollectedOk, Accounted, PieceCount;
    var ws := r.inflight[1..];
    forall i | 0 <= i < |ws| ensures WorkerOk(job, h', r.id, ws[i], r.Low() + 1 + i + 1) {
      assert WorkerOk(job, h', r.id, r.inflight[i + 1], r.Low() + (i + 1) + 1);
    }
  }

  lemma DoomedAfterCollect(inflight: seq<Worker>)
    requires inflight != [] && SomeDoomed(inflight) && !Doomed(inflight[0])
    ensures SomeDoomed(inflight[1..])
  {
    var k :| 0 <= k < |inflight| && Doomed(inflight[k]);
    assert Doomed(inflight[1..][k - 1]);
  }

  /** The oldest part leaves the ring. */
  lemma AfterCollect(job: Job, r: Run)
    requires RunOk(job, r) && MayCollect(job, r)
    ensures var h' := Then(r.history, Collect(r.Low() + 1));
      && r.inflight[0].number == r.Low() + 1
      && LedgerOk(job, h', r.id, r.Low() + 1, r.dispatched)
      && WorkersOk(job, h', r.id, r.inflight[1..], r.Low() + 1)
      && WorkerOk(job, r.history, r.id, r.inflight[0], r.Low() + 1)
      && Store(h', r.id) == Store(r.history, r.id)
      && (SomeDoomed(r.inflight) && !Doomed(r.inflight[0]) ==> SomeDoomed(r.inflight[1..]))
  {
    assert WorkerOk(job, r.history, r.id, r.inflight[0], r.Low() + 1);
    LedgerAfterCollect(job, r);
    WorkersAfterCollect(job, r);
    if SomeDoomed(r.inflight) && !Doomed(r.inflight[0]) {
      DoomedAfterCollect(r.inflight);
    }
    hide LedgerOk, WorkersOk, CollectedOk, Accounted, Piece, Store;
  }

  /** What the run becomes when its oldest part has ended and is collected. */
  function AfterFront(job: Job, r: Run): Run
    requires r.inflight != [] && r.inflight[0].outcome.Some?
  {
    var w := r.inflight[0];
    var s := r.(history := Then(r.history, Collect(w.number)), inflight := r.inflight[1..]);
    match w.outcome.value
    case Failed => s.(error := if r.error.Some? then r.error else Some(PartFailed))
    case Acked(etag) => s.(parts := r.parts + [Part(w.number, etag)], owed := job.reports && r.error.None?)
  }

  lemma FrontLost(job: Job, r: Run, parts: seq<Part>)
    requires RunOk(job, r) && MayCollect(job, r) && r.inflight[0].outcome.Some?
    requires r.error.Some? || r.inflight[0].outcome.value.Failed?
    ensures RunOk(job, r.(history := Then(r.history, Collect(r.inflight[0].number)),
                          inflight := r.inflight[1..], error := if r.error.Some? then r.error else Some(PartFailed),
                          parts := parts))
  {
    hide Replay, Busy, Reports, Dispatched, Collected, HasStored, Noted, Count, Refused, Disciplined, Faithful;
    AfterCollect(job, r);
    Step(r.history, Collect(r.inflight[0].number));
    assert !Doomed(r.inflight[0]) || !Usable(r.inflight[0].uploadId) || r.inflight[0].outcome == Some(Failed);
    assert !Usable(r.inflight[0].uploadId) || r.inflight[0].outcome == Some(Failed) ==>
        Refused(r.history) || r.inflight[0].number > MAX_MULTIPART_COUNT;
    hide LedgerOk, WorkersOk, WorkerOk, Piece, CollectedOk, Store, SomeDoomed, Doomed;
  }

  lemma RunAfterFront(job: Job, r: Run)
    requires RunOk(job, r) && MayCollect(job, r) && r.inflight[0].outcome.Some?
    ensures RunOk(job, AfterFront(job, r))
  {
    var next := AfterFront(job, r);
    if r.error.Some? || r.inflight[0].outcome.value.Failed? {
      FrontLost(job, r, next.parts);
      assert next == r.(history := next.history, inflight := r.inflight[1..], error := next.error, parts := next.parts);
    } else {
      FrontKept(job, r);
    }
    hide RunOk;
  }

  lemma FrontKept(job: Job, r: Run)
    requires RunOk(job, r) && MayCollect(job, r) && r.error.None?
    requires r.inflight[0].outcome.Some? && r.inflight[0].outcome.value.Acked?
    ensures RunOk(job, AfterFront(job, r))
  {
    hide Replay, Busy, Reports, Dispatched, Collected, HasStored, Noted, Count, Refused, Disciplined, Faithful;
    AfterCollect(job, r);
    CollectedAfterFront(job, r);
    Step(r.history, Collect(r.inflight[0].number));
    assert !Doomed(r.inflight[0]);
    hide LedgerOk, WorkersOk, WorkerOk, Piece, ListsPieces, Store, SomeDoomed, Doomed, Cut;
  }

  lemma CollectedAfterFront(job: Job, r: Run)
    requires RunOk(job, r) && r.inflight != [] && r.error.None?
    requires r.inflight[0].outcome.Some? && r.inflight[0].outcome.value.Acked?
    ensures var w := r.inflight[0];
      && w.number == r.Low() + 1 <= MAX_MULTIPART_COUNT
      && ListsPieces(Store(r.history, r.id), r.parts + [Part(w.number, w.outcome.value.etag)], job.payload, job.size)
  {
    var w := r.inflight[0];
    assert WorkerOk(job, r.history, r.id, w, r.Low() + 1);
    ListsPiecesAppend(Store(r.history, r.id), r.parts, job.payload, job.size, w.outcome.value.etag);
  }

  /** The size of the oldest part brings the reports up to its cut. */
  lemma FrontSize(job: Job, r: Run)
    requires RunOk(job, r) && r.inflight != [] && r.error.None? && !r.owed && job.reports
    ensures r.bytes + r.inflight[0].size == Cut(|job.payload|, job.size, r.Low() + 1)
  {
    assert WorkerOk(job, r.history, r.id, r.inflight[0], r.Low() + 1);
    PieceBounds(|job.payload|, job.size, r.Low() + 1);
  }

  lemma ListsPiecesAppend(store: map<nat, Stored>, parts: seq<Part>, payload: Bytes, size: nat, etag: string)
    requires ListsPieces(store, parts, payload, size)
    requires var n := |parts| + 1; n in store && store[n] == Stored(Piece(payload, size, n), etag)
    ensures ListsPieces(store, parts + [Part(|parts| + 1, etag)], payload, size)
  {
  }

  /** The report that was owed: all bytes up to the cut of the last part collected. */
  lemma RunAfterReport(job: Job, r: Run, bytes: nat, goOn: bool)
    requires RunOk(job, r) && r.error.None? && r.owed && bytes == Cut(|job.payload|, job.size, r.Low())
    ensures RunOk(job, r.(history := Then(r.history, Reported(bytes, goOn)), bytes := bytes, owed := false,
                          error := if goOn then None else Some(StoppedByProgress)))
  {
    hide Replay, Busy, Reports, Dispatched, Collected, HasStored, Noted, Count, Refused, Disciplined, Faithful;
    hide WorkersOk, WorkerOk, Piece, PieceCount, ListsPieces, SomeDoomed, Cut, LedgerOk;
    var e := Reported(bytes, goOn);
    RingInFlight(job, r);
    assert Allowed(r.history, e, RulesOf(job));
    LedgerAfterQuiet(job, r, e);
    WorkersAfterQuiet(job, r.history, r.id, r.inflight, r.Low(), e);
    Step(r.history, e);
    hide WorkersOk, Store, LedgerOk, Allowed;
  }

  // ---------- how a run ends ----------

  /**
   * All or nothing. The upload succeeds exactly when nothing was refused, the stream was long
   * enough and the parts are within the limit; otherwise the caller gets the first error. On
   * success the payload is committed, by one whole request if it is a single piece and by one
   * completion of all pieces if not, each of them reported if reports are asked for, and nothing is
   * aborted. Otherwise nothing is committed, and the upload that was opened, if any, is aborted
   * once, as the last thing that happens.
   */
  ghost predicate UploadOutcome(job: Job, error: Option<UploadError>, h: History)
    requires ValidJob(job)
  {
    var count := PieceCount(|job.payload|, job.size);
    && Busy(h) == map[]
    && Disciplined(h, RulesOf(job))
    && Faithful(h, job.payload, job.size)
    && error == Noted(h)
    && (error.None? <==> !Refused(h) && !job.short && count <= MAX_MULTIPART_COUNT)
    && (error == Some(ShortStream) ==> job.short)
    && Count(h, IsCreate) <= 1
    && Count(h, IsWhole) == (if !Multi(job) && error != Some(OutOfMemory) then 1 else 0)
    && (Count(h, IsWhole) == 1 ==> Count(h, IsCreate) == 0)
    && Count(h, IsAbort) == (if error.None? then 0 else Count(h, IsCreate))
    && (!job.reports ==> Reports(h) == 0)
    && (error.None? ==>
          && Replay(h) == ServerState(map[], Some(job.payload))
          && Count(h, IsCreate) + Count(h, IsWhole) == 1
          && Count(h, IsComplete) == Count(h, IsCreate)
          && (Count(h, IsCreate) == 1 ==>
                && h.Then? && h.event.Completed?
                && Reports(h) == (if job.reports then count else 0)
                && |h.event.parts| == count
                && forall j :: 0 <= j < count ==> h.event.parts[j].number == j + 1))
    && (error.Some? ==>
          && Replay(h).committed == None
          && (Count(h, IsCreate) == 0 ==> Replay(h).uploads == map[])
          && (Count(h, IsCreate) == 1 ==>
                && h.Then? && h.event.Aborted?
                && (h.event.acknowledged ==> Replay(h).uploads == map[])))
  }

  lemma NoBufferEnds(job: Job)
    requires ValidJob(job)
    ensures UploadOutcome(job, Some(OutOfMemory), Then(Begin, NoBuffer))
  {
    assert Replay(Begin) == ServerState(map[], None);
    assert Count(Begin, IsCreate) == Count(Begin, IsAbort) == Count(Begin, IsWhole) == 0;
  }

  lemma ReplayCompleted(h: History, id: string, parts: seq<Part>, payload: Bytes)
    requires Replay(h).uploads.Keys == {id} && Assemble(Store(h, id), parts) == Some(payload)
    ensures Replay(Then(h, Completed(id, parts))) == ServerState(map[], Some(payload))
  {
    assert Replay(h).uploads - {id} == map[];
  }

  /** Every part collected and none failed: the part list denotes the payload. */
  lemma PartsDenotePayload(job: Job, r: Run)
    requires RunOk(job, r) && r.inflight == [] && r.error.None?
    requires r.dispatched == PieceCount(|job.payload|, job.size)
    ensures Usable(r.id)
    ensures Assemble(Store(r.history, r.id), r.parts) == Some(job.payload)
    ensures Replay(r.history).uploads.Keys == {r.id}
  {
    hide Piece, PieceCount, Joined, WorkersOk, Accounted, Assemble;
    PiecesTile(job.payload, job.size);
    assert r.parts[0].number in Store(r.history, r.id);
    AssembleJoins(Store(r.history, r.id), r.parts, job.payload, job.size);
  }

  lemma CompleteSucceeds(job: Job, r: Run)
    requires RunOk(job, r) && r.inflight == [] && r.error.None? && !r.blankId && !job.short && !r.owed
    requires r.dispatched == PieceCount(|job.payload|, job.size)
    ensures Usable(r.id)
    ensures UploadOutcome(job, None, Then(r.history, Completed(r.id, r.parts)))
  {
    PartsDenotePayload(job, r);
    ReplayCompleted(r.history, r.id, r.parts, job.payload);
    RunIsPrompt(job, r);
    assert RingMap(r.dispatched, r.dispatched, job.slots) == map[];
    hide PieceCount, Piece, Joined, Store, WorkersOk, Assemble, Apply, Replay;
  }

  /** A refused completion aborts what was opened. */
  lemma CompleteFails(job: Job, r: Run, acknowledged: bool)
    requires RunOk(job, r) && r.inflight == [] && r.error.None? && Usable(r.id) && !r.owed
    ensures UploadOutcome(job, Some(CompleteFailed),
                          Then(Then(r.history, CompleteRefused(r.id, r.parts)), Aborted(r.id, acknowledged)))
  {
    hide Replay, Reports, Dispatched, Collected, HasStored, Noted, Count, Refused;
    hide PieceCount, Piece, WorkersOk, Accounted, CollectedOk, RingMap;
    RunIsPrompt(job, r);
    RingInFlight(job, r);
    var refused := Then(r.history, CompleteRefused(r.id, r.parts));
    assert Replay(r.history).uploads - {r.id} == map[];
    Step(r.history, CompleteRefused(r.id, r.parts));
    Step(refused, Aborted(r.id, acknowledged));
    assert Disciplined(refused, RulesOf(job)) && Faithful(refused, job.payload, job.size);
    hide Usable, Busy;
  }

  lemma RunFails(job: Job, r: Run, acknowledged: bool)
    requires RunOk(job, r) && r.inflight == [] && r.error.Some? && !r.owed
    ensures UploadOutcome(job, r.error, if Usable(r.id) then Then(r.history, Aborted(r.id, acknowledged)) else r.history)
  {
    RunIsPrompt(job, r);
    RingInFlight(job, r);
    hide Replay, Busy, Reports, Dispatched, Collected, HasStored, Noted, Count, Refused, PieceCount, Piece, WorkersOk, CollectedOk, RingMap, Usable;
    if Usable(r.id) {
      assert Replay(r.history).uploads - {r.id} == map[];
    } else {
      assert Replay(r.history).uploads == map[];
    }
    Step(r.history, Aborted(r.id, acknowledged));
  }

  /** The whole payload in one request, when one piece is all there is. */
  lemma WholeEnds(job: Job, r: Run, stored: bool)
    requires RunOk(job, r) && r.dispatched == 0 && r.error.None? && !r.blankId && r.id == "" && !job.short && !r.owed
    requires PieceCount(|job.payload|, job.size) == 1
    ensures UploadOutcome(job, if stored then None else Some(PutFailed),
                          Then(r.history, if stored then WholeStored(job.payload) else WholeRefused))
  {
    RunIsPrompt(job, r);
    assert Replay(r.history).uploads == map[];
  }
}
