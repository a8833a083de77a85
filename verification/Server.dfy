// What a run of the uploader did, event by event, and what a storage server makes of it.
module Server {
  import opened Wrappers
  import opened Buffers
  import opened Texts
  import opened Pieces
  import opened PartPlan

  datatype UploadError =
    | BadArguments(reason: PlanError) | NoInflight | OutOfMemory | ShortStream | CreateFailed
    | ThreadFailed | PartFailed | StoppedByProgress | CompleteFailed | PutFailed

  datatype Part = Part(number: nat, etag: string)

  /** Everything observable in a run, in the order it happened. */
  datatype Event =
    // the uploader and its ring of buffers
    | Fill(slot: nat)
    | Dispatch(number: nat, slot: nat)
    | Collect(number: nat)
    | Reported(bytes: nat, goOn: bool)
    | StreamEnded
    // requests the server acknowledged
    | Created(id: string)
    | PartStored(id: string, number: nat, body: Bytes, etag: string)
    | Completed(id: string, parts: seq<Part>)
    | WholeStored(body: Bytes)
    | Aborted(id: string, acknowledged: bool)
    // refusals
    | NoBuffer
    | NoThread(number: nat)
    | CreateRefused
    | PartRefused(number: nat)
    | CompleteRefused(id: string, parts: seq<Part>)
    | WholeRefused

  datatype History = Begin | Then(before: History, event: Event)

  // ---------- the server ----------

  datatype Stored = Stored(body: Bytes, etag: string)

  /** The uploads that requests can name, and the object committed last. */
  datatype ServerState = ServerState(uploads: map<string, map<nat, Stored>>, committed: Option<Bytes>)

  /** The object a part list denotes: numbers ascending, each entity tag the one handed out. */
  function Assemble(store: map<nat, Stored>, parts: seq<Part>): Option<Bytes>
    decreases |parts|
  {
    if parts == [] then Some([])
    else
      var last := parts[|parts| - 1];
      var rest := Assemble(store, parts[..|parts| - 1]);
      if && rest.Some? && last.number in store && store[last.number].etag == last.etag
         && (|parts| > 1 ==> parts[|parts| - 2].number < last.number)
      then Some(rest.value + store[last.number].body)
      else None
  }

  function Apply(s: ServerState, e: Event): ServerState {
    match e
    case Created(id) =>
      if Usable(id) then s.(uploads := s.uploads[id := map[]]) else s
    case PartStored(id, n, body, etag) =>
      if id in s.uploads then
        var store: map<nat, Stored> := s.uploads[id][n := Stored(body, etag)];
        s.(uploads := s.uploads[id := store])
      else s
    case Completed(id, parts) =>
      if id in s.uploads && Assemble(s.uploads[id], parts).Some?
      then ServerState(s.uploads - {id}, Assemble(s.uploads[id], parts))
      else s
    case WholeStored(body) => s.(committed := Some(body))
    case Aborted(id, acknowledged) => if acknowledged then s.(uploads := s.uploads - {id}) else s
    case _ => s
  }

  function Replay(h: History): ServerState {
    if h.Begin? then ServerState(map[], None) else Apply(Replay(h.before), h.event)
  }

  // ---------- reading a history ----------

  /** Parts dispatched and not yet collected, with the ring slot each one is sent from. */
  function Busy(h: History): map<nat, nat> {
    if h.Begin? then map[]
    else match h.event
      case Dispatch(n, slot) => Busy(h.before)[n := slot]
      case Collect(n) => Busy(h.before) - {n}
      case _ => Busy(h.before)
  }

  function Reports(h: History): nat {
    if h.Begin? then 0 else Reports(h.before) + if h.event.Reported? then 1 else 0
  }

  function Dispatched(h: History): nat {
    if h.Begin? then 0 else Dispatched(h.before) + if h.event.Dispatch? then 1 else 0
  }

  function Collected(h: History): nat {
    if h.Begin? then 0 else Collected(h.before) + if h.event.Collect? then 1 else 0
  }

  /** Did the server acknowledge this part? */
  predicate HasStored(h: History, n: nat) {
    h.Then? && ((h.event.PartStored? && h.event.number == n) || HasStored(h.before, n))
  }

  /** The error of an event, if it is one for the caller. */
  function ErrorOf(h: History, e: Event): Option<UploadError> {
    match e
    case NoBuffer => Some(OutOfMemory)
    case StreamEnded => Some(ShortStream)
    case CreateRefused => Some(CreateFailed)
    case NoThread(n) => Some(ThreadFailed)
    case Collect(n) => if HasStored(h, n) then None else Some(PartFailed)
    case Reported(bytes, goOn) => if goOn then None else Some(StoppedByProgress)
    case CompleteRefused(id, parts) => Some(CompleteFailed)
    case WholeRefused => Some(PutFailed)
    case _ => None
  }

  /** The first error of a run. */
  function Noted(h: History): Option<UploadError> {
    if h.Begin? then None
    else if Noted(h.before).Some? then Noted(h.before)
    else ErrorOf(h.before, h.event)
  }

  /** What a run is held to: the payload's length, the part size, the ring, and whether to report. */
  datatype Rules = Rules(length: nat, size: nat, slots: nat, progress: bool)

  predicate ValidRules(rules: Rules) {
    0 < rules.slots && (rules.length > 0 ==> rules.size > 0)
  }

  /** What the uploader does itself, other than reporting. */
  predicate IsOwn(e: Event) {
    !e.PartStored? && !e.PartRefused? && !e.Reported?
  }

  /** As long as nothing went wrong, every part collected has been reported, if reports are asked for. */
  predicate Prompt(h: History, rules: Rules) {
    Noted(h).None? ==> Reports(h) == if rules.progress then Collected(h) else 0
  }

  /**
   * The ordering rules of a run. Parts are dispatched and collected in order, each from the slot
   * whose turn it is, with no more in flight than there are slots; a slot is refilled only while no
   * part in flight uses it; while parts remain and nothing went wrong, the reader waits for one only
   * if all slots are in use. Each part collected is reported, cumulatively, before anything else is
   * done. Only parts in flight reach the server, nothing is completed or aborted while one is, and
   * nothing follows an abort or a completion.
   */
  predicate Disciplined(h: History, rules: Rules)
    requires ValidRules(rules)
  {
    h.Then? ==>
      && Disciplined(h.before, rules)
      && (h.before.Then? ==> !Final(h.before.event))
      && (IsOwn(h.event) ==> Prompt(h.before, rules))
      && Allowed(h.before, h.event, rules)
  }

  predicate Allowed(h: History, e: Event, rules: Rules)
    requires ValidRules(rules)
  {
    match e
    case Fill(slot) =>
      |Busy(h)| < rules.slots && slot == Dispatched(h) % rules.slots && slot !in Busy(h).Values
    case Dispatch(n, slot) =>
      && |Busy(h)| < rules.slots && slot == Dispatched(h) % rules.slots && slot !in Busy(h).Values
      && n == Dispatched(h) + 1 && Noted(h).None?
    case Collect(n) =>
      && n in Busy(h) && n == Collected(h) + 1
      && (Noted(h).None? && Dispatched(h) < PieceCount(rules.length, rules.size) ==> |Busy(h)| == rules.slots)
    case PartStored(id, n, body, etag) => n in Busy(h)
    case PartRefused(n) => n in Busy(h)
    case Reported(bytes, goOn) =>
      && rules.progress && Noted(h).None? && Reports(h) + 1 == Collected(h)
      && bytes == Cut(rules.length, rules.size, Collected(h))
    case Completed(id, parts) => Busy(h) == map[] && Noted(h).None?
    case CompleteRefused(id, parts) => Busy(h) == map[] && Noted(h).None?
    case Aborted(id, acknowledged) => Busy(h) == map[] && Noted(h).Some?
    case _ => true
  }

  predicate Final(e: Event) {
    e.Aborted? || e.Completed? || e.WholeStored? || e.WholeRefused?
  }

  /** Every body that reached the server is the piece its number says, or the whole payload. */
  predicate Faithful(h: History, payload: Bytes, size: nat) {
    h.Then? ==>
      && Faithful(h.before, payload, size)
      && match h.event
         case PartStored(id, n, body, etag) => n >= 1 && body == Piece(payload, size, n)
         case WholeStored(body) => body == payload
         case _ => true
  }

  predicate Refusal(e: Event) {
    || e.NoBuffer? || e.NoThread? || e.CreateRefused? || e.PartRefused? || e.CompleteRefused? || e.WholeRefused?
    || (e.Created? && !Usable(e.id)) || (e.Reported? && !e.goOn)
  }

  /** Did anything in this run say no? */
  predicate Refused(h: History) {
    h.Then? && (Refusal(h.event) || Refused(h.before))
  }

  predicate IsCreate(e: Event) { e.Created? && Usable(e.id) }
  predicate IsComplete(e: Event) { e.Completed? || e.CompleteRefused? }
  predicate IsAbort(e: Event) { e.Aborted? }
  predicate IsWhole(e: Event) { e.WholeStored? || e.WholeRefused? }

  function Count(h: History, kind: Event -> bool): nat {
    if h.Begin? then 0 else Count(h.before, kind) + if kind(h.event) then 1 else 0
  }

  // ---------- what a complete part list denotes ----------

  /** The list names pieces 1..n in order, each stored under the tag it carries. */
  ghost predicate ListsPieces(store: map<nat, Stored>, parts: seq<Part>, payload: Bytes, size: nat) {
    forall j :: 0 <= j < |parts| ==>
      && parts[j].number == j + 1
      && parts[j].number in store
      && store[parts[j].number] == Stored(Piece(payload, size, j + 1), parts[j].etag)
  }

  lemma {:induction false} AssembleJoins(store: map<nat, Stored>, parts: seq<Part>, payload: Bytes, size: nat)
    requires ListsPieces(store, parts, payload, size)
    ensures Assemble(store, parts) == Some(Joined(payload, size, |parts|))
    decreases |parts|
  {
    if parts != [] {
      AssembleJoins(store, parts[..|parts| - 1], payload, size);
    }
  }
}
