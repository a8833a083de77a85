// The S3 Select event stream as src/select.cc reads it: what a frame at the front of the
// pending bytes means, what a whole stream delivers, and how that depends on its chunks.
module SelectProtocol {
  import opened Wrappers
  import opened Octets
  import opened Chunks

  type Word32 = n: nat | n < 0x1_0000_0000

  datatype SelectError =
    | PreludeCrcMismatch(expected: Word32, got: Word32) | MessageCrcMismatch(expected: Word32, got: Word32)
    | HeaderTypeNotString | Remote(code: Bytes, message: Bytes) | BadXml(payload: Bytes) | UnknownEvent(name: Bytes)

  datatype Metrics = Metrics(scanned: Option<int>, processed: Option<int>, returned: Option<int>)

  datatype SelectResult = Ended | Failed(error: SelectError) | Stats(metrics: Metrics) | Records(payload: Bytes)

  predicate Terminal(r: SelectResult) {
    r.Ended? || r.Failed?
  }

  /** What becomes of a Progress or Stats payload; std::stoll throws on text that is no number. */
  datatype Reading = Malformed | NotANumber | Numbers(metrics: Metrics)

  /**
   * The foreign parts: zlib's CRC, the XML reader by event and payload, and the caller's wish to go
   * on after some results.
   */
  datatype Env = Env(crc: Bytes -> Word32, metrics: (Bytes, Bytes) -> Reading, goOn: seq<SelectResult> -> bool)

  function Take(s: Bytes, n: nat): Bytes {
    if n <= |s| then s[..n] else s
  }

  function Drop(s: Bytes, n: nat): Bytes {
    if n <= |s| then s[n..] else []
  }

  /** operator[] on a string: the byte past the end is NUL. */
  function At(s: Bytes, i: nat): nat {
    if i < |s| then s[i] as nat else 0
  }

  /** utils::Int: four bytes, most significant first. */
  function Int(s: Bytes): Word32
    requires |s| == 4
  {
    At(s, 0) * 0x100_0000 + At(s, 1) * 0x1_0000 + At(s, 2) * 0x100 + At(s, 3)
  }

  // ---------- one frame ----------

  /** The headers in d, added to those already read; nothing if a value is not a string. */
  function HeadersFrom(d: Bytes, headers: map<Bytes, Bytes>): Option<map<Bytes, Bytes>>
    decreases |d|
  {
    var length := At(d, 0);
    if length == 0 then Some(headers)
    else
      var named := Drop(d, 1);
      var typed := Drop(named, length);
      if At(typed, 0) != 7 then None
      else
        var sized := Drop(typed, 1);
        var valued := Drop(sized, 2);
        var size := At(sized, 0) * 256 + At(sized, 1);
        HeadersFrom(Drop(valued, size), headers[Take(named, length) := Take(valued, size)])
  }

  function Header(headers: map<Bytes, Bytes>, name: Bytes): Bytes {
    if name in headers then headers[name] else ""
  }

  /** What the front of the pending bytes calls for. */
  datatype Next =
    | NeedMore
    | Stop(result: SelectResult)
    | Throw
    | Skip(rest: Bytes)
    | Deliver(result: SelectResult, rest: Bytes)

  function Classify(env: Env, headers: map<Bytes, Bytes>, total: nat, headerLength: nat, body: Bytes, rest: Bytes): Next {
    var event := Header(headers, ":event-type");
    if Header(headers, ":message-type") == "error" then
      Stop(Failed(Remote(Header(headers, ":error-code"), Header(headers, ":error-message"))))
    else if event == "End" then Stop(Ended)
    else if event == "Cont" || total <= headerLength || total - headerLength <= 16 then Skip(rest)
    else
      var payload := Take(body, total - headerLength - 16);
      if event == "Progress" || event == "Stats" then
        match env.metrics(event, payload)
        case Malformed => Stop(Failed(BadXml(payload)))
        case NotANumber => Throw
        case Numbers(m) => Deliver(Stats(m), rest)
      else if event == "Records" then Deliver(Records(payload), rest)
      else Stop(Failed(UnknownEvent(event)))
  }

  /** The fields of the frame at the front, once their checksums agree. */
  datatype Parsed = Partial | Corrupt(error: SelectError) | Whole(total: nat, headerLength: nat, data: Bytes, rest: Bytes)

  function Parse(env: Env, p: Bytes): (r: Parsed)
    ensures r.Whole? ==> |p| >= 16 + |r.rest| && r.rest == p[|p| - |r.rest|..] && r.total == |p| - |r.rest| == |r.data| + 16
  {
    if |p| < 12 then Partial
    else if env.crc(p[..8]) != Int(p[8..12]) then
      Corrupt(PreludeCrcMismatch(Int(p[8..12]), env.crc(p[..8])))
    else
      var total := Int(p[..4]);
      if total < 16 || |p| < total then Partial
      else if env.crc(p[..total - 4]) != Int(p[total - 4..total]) then
        Corrupt(MessageCrcMismatch(Int(p[total - 4..total]), env.crc(p[..total - 4])))
      else Whole(total, Int(p[4..8]), p[12..total - 4], p[total..])
  }

  function Interpret(env: Env, f: Parsed): Next
    requires f.Whole?
  {
    match HeadersFrom(Take(f.data, f.headerLength), map[])
    case None => Stop(Failed(HeaderTypeNotString))
    case Some(headers) =>
      Classify(env, headers, f.total, f.headerLength, Drop(f.data, f.headerLength), f.rest)
  }

  function NextFrame(env: Env, p: Bytes): Next {
    match Parse(env, p)
    case Partial => NeedMore
    case Corrupt(error) => Stop(Failed(error))
    case Whole(_, _, _, _) => Interpret(env, Parse(env, p))
  }

  lemma ParseStable(env: Env, p: Bytes, q: Bytes)
    ensures match Parse(env, p)
      case Partial => true
      case Corrupt(error) => Parse(env, p + q) == Corrupt(error)
      case Whole(total, headerLength, data, rest) => Parse(env, p + q) == Whole(total, headerLength, data, rest + q)
  {
    if |p| >= 12 {
      var s, total := p + q, Int(p[..4]);
      assert s[..8] == p[..8] && s[8..12] == p[8..12];
      assert s[..4] == p[..4] && s[4..8] == p[4..8];
      if 16 <= total <= |p| {
        assert s[..total - 4] == p[..total - 4];
        assert s[total - 4..total] == p[total - 4..total];
        assert s[12..total - 4] == p[12..total - 4];
        assert s[total..] == p[total..] + q;
      }
    }
  }

  /** The fields of a frame, read one after the other, decide what the frame is. */
  lemma ParseFields(env: Env, prelude: Bytes, preludeCrc: Bytes, tail: Bytes)
    requires |prelude| == 8 && |preludeCrc| == 4
    ensures var p := prelude + preludeCrc + tail;
      if env.crc(prelude) != Int(preludeCrc)
      then Parse(env, p) == Corrupt(PreludeCrcMismatch(Int(preludeCrc), env.crc(prelude)))
      else Int(prelude[..4]) < 16 || |p| < Int(prelude[..4]) ==> Parse(env, p) == Partial
  {
    var p := prelude + preludeCrc + tail;
    assert p[..8] == prelude && p[8..12] == preludeCrc && p[..4] == prelude[..4];
  }

  lemma ParseComplete(env: Env, prelude: Bytes, preludeCrc: Bytes, data: Bytes, messageCrc: Bytes, rest: Bytes)
    requires |prelude| == 8 && |preludeCrc| == 4 && |messageCrc| == 4
    requires env.crc(prelude) == Int(preludeCrc) && Int(prelude[..4]) == |data| + 16
    ensures var got := env.crc(prelude + preludeCrc + data);
      Parse(env, prelude + preludeCrc + data + messageCrc + rest) ==
      if got != Int(messageCrc) then Corrupt(MessageCrcMismatch(Int(messageCrc), got))
      else Whole(|data| + 16, Int(prelude[4..8]), data, rest)
  {
    var p, total := prelude + preludeCrc + data + messageCrc + rest, |data| + 16;
    assert p[..8] == prelude && p[8..12] == preludeCrc && p[..4] == prelude[..4] && p[4..8] == prelude[4..8];
    assert p[..total - 4] == prelude + preludeCrc + data && p[total - 4..total] == messageCrc;
    assert p[12..total - 4] == data && p[total..] == rest;
  }

  /** The rest of the stream is passed through. */
  lemma InterpretRest(env: Env, f: Parsed, q: Bytes)
    requires f.Whole?
    ensures match Interpret(env, f)
      case NeedMore => false
      case Stop(r) => Interpret(env, f.(rest := q)) == Stop(r)
      case Throw => Interpret(env, f.(rest := q)) == Throw
      case Skip(rest) => rest == f.rest && Interpret(env, f.(rest := q)) == Skip(q)
      case Deliver(r, rest) => rest == f.rest && !Terminal(r) && Interpret(env, f.(rest := q)) == Deliver(r, q)
  {
    hide HeadersFrom, Header;
  }

  /** A frame takes at least sixteen bytes, leaves the end of what there was, and ends nothing itself. */
  lemma NextShrinks(env: Env, p: Bytes)
    ensures var n := NextFrame(env, p);
      && (n.Skip? || n.Deliver? ==> |p| >= 16 + |n.rest| && n.rest == p[|p| - |n.rest|..])
      && (n.Deliver? ==> !Terminal(n.result))
      && (n.Stop? ==> Terminal(n.result))
  {
    hide Interpret;
    if Parse(env, p).Whole? {
      InterpretRest(env, Parse(env, p), []);
      InterpretStops(env, Parse(env, p));
    }
  }

  lemma InterpretStops(env: Env, f: Parsed)
    requires f.Whole?
    ensures Interpret(env, f).Stop? ==> Terminal(Interpret(env, f).result)
  {
    hide HeadersFrom, Header;
  }

  /** Bytes that arrive later do not change a frame that is already complete. */
  lemma NextStable(env: Env, p: Bytes, q: Bytes)
    ensures match NextFrame(env, p)
      case NeedMore => true
      case Stop(r) => NextFrame(env, p + q) == Stop(r)
      case Throw => NextFrame(env, p + q) == Throw
      case Skip(rest) => NextFrame(env, p + q) == Skip(rest + q)
      case Deliver(r, rest) => NextFrame(env, p + q) == Deliver(r, rest + q)
  {
    ParseStable(env, p, q);
    hide Parse, Interpret;
    var f := Parse(env, p);
    if f.Whole? {
      InterpretRest(env, f, f.rest + q);
    }
  }

  // ---------- whole streams ----------

  /** Is the stream still read, was it ended by a result or its refusal, or by an exception? */
  datatype Ending = Open | Closed | Threw

  /** What has been delivered, the bytes not consumed, and whether the stream is over. */
  datatype Run = Run(delivered: seq<SelectResult>, rest: Bytes, ending: Ending)
  {
    predicate Over() {
      ending != Open
    }
  }

  /** Everything the pending bytes have to say. */
  function Decode(env: Env, p: Bytes, delivered: seq<SelectResult>): Run
    decreases |p|
  {
    NextShrinks(env, p);
    match NextFrame(env, p)
    case NeedMore => Run(delivered, p, Open)
    case Stop(r) => Run(delivered + [r], [], Closed)
    case Throw => Run(delivered, [], Threw)
    case Skip(rest) => Decode(env, rest, delivered)
    case Deliver(r, rest) =>
      if env.goOn(delivered + [r]) then Decode(env, rest, delivered + [r]) else Run(delivered + [r], [], Closed)
  }

  /** What one call of DataFunction makes of the pending bytes: a skipped frame ends the call. */
  function Pump(env: Env, p: Bytes, delivered: seq<SelectResult>): Run
    decreases |p|
  {
    NextShrinks(env, p);
    match NextFrame(env, p)
    case NeedMore => Run(delivered, p, Open)
    case Stop(r) => Run(delivered + [r], [], Closed)
    case Throw => Run(delivered, [], Threw)
    case Skip(rest) => Run(delivered, rest, Open)
    case Deliver(r, rest) =>
      if env.goOn(delivered + [r]) then Pump(env, rest, delivered + [r]) else Run(delivered + [r], [], Closed)
  }

  /** The calls of DataFunction for a sequence of chunks. */
  function Feed(env: Env, s: Run, chunks: seq<Bytes>): Run
    decreases |chunks|
  {
    if chunks == [] || s.Over() then s
    else Feed(env, Pump(env, s.rest + chunks[0], s.delivered), chunks[1..])
  }

  function Resume(env: Env, s: Run, more: Bytes): Run {
    if s.Over() then s else Decode(env, s.rest + more, s.delivered)
  }

  lemma {:induction false} DecodeGrows(env: Env, p: Bytes, delivered: seq<SelectResult>)
    ensures delivered <= Decode(env, p, delivered).delivered
    decreases |p|
  {
    NextShrinks(env, p);
    match NextFrame(env, p)
    case Skip(rest) => DecodeGrows(env, rest, delivered);
    case Deliver(r, rest) =>
      if env.goOn(delivered + [r]) {
        DecodeGrows(env, rest, delivered + [r]);
      }
    case _ =>
  }

  /** Stopping at a skipped frame loses nothing: what is left decodes to exactly what is missing. */
  lemma {:induction false} PumpResumes(env: Env, p: Bytes, q: Bytes, delivered: seq<SelectResult>)
    ensures Resume(env, Pump(env, p, delivered), q) == Decode(env, p + q, delivered)
    decreases |p|
  {
    NextShrinks(env, p);
    NextStable(env, p, q);
    match NextFrame(env, p)
    case Deliver(r, rest) =>
      if env.goOn(delivered + [r]) {
        PumpResumes(env, rest, q, delivered + [r]);
      }
    case _ =>
  }

  /** However the stream is cut, what was delivered and what is pending make up its whole decoding. */
  lemma {:induction false} FeedResumes(env: Env, s: Run, chunks: seq<Bytes>, more: Bytes)
    ensures Resume(env, Feed(env, s, chunks), more) == Resume(env, s, Flat(chunks) + more)
    decreases |chunks|
  {
    hide Decode, Pump, Resume;
    if chunks == [] {
      assert Flat(chunks) + more == more;
    } else if s.Over() {
      ResumeDone(env, s, more, Flat(chunks) + more);
    } else {
      var p, q := s.rest + chunks[0], Flat(chunks[1..]) + more;
      FeedResumes(env, Pump(env, p, s.delivered), chunks[1..], more);
      PumpResumes(env, p, q, s.delivered);
      assert p + q == s.rest + (Flat(chunks) + more);
      ResumeOpen(env, s, Flat(chunks) + more);
    }
  }

  lemma ResumeDone(env: Env, s: Run, p: Bytes, q: Bytes)
    requires s.Over()
    ensures Resume(env, s, p) == Resume(env, s, q)
  {
  }

  lemma ResumeOpen(env: Env, s: Run, more: Bytes)
    requires !s.Over()
    ensures Resume(env, s, more) == Decode(env, s.rest + more, s.delivered)
  {
  }

  const START: Run := Run([], [], Open)

  /** For every chunking, Cont frames included, what was delivered is a prefix of the whole decoding. */
  lemma FeedIsPrefix(env: Env, chunks: seq<Bytes>)
    ensures Feed(env, START, chunks).delivered <= Decode(env, Flat(chunks), []).delivered
  {
    var s := Feed(env, START, chunks);
    FeedResumes(env, START, chunks, []);
    assert Flat(chunks) + [] == Flat(chunks) && START.rest + Flat(chunks) == Flat(chunks);
    if !s.Over() {
      DecodeGrows(env, s.rest + [], s.delivered);
    }
  }

  // ---------- chunk independence ----------

  /** Some skipped frame stands before a frame with a result. */
  predicate ResultBehindSkip(env: Env, p: Bytes, delivered: seq<SelectResult>)
    decreases |p|
  {
    NextShrinks(env, p);
    match NextFrame(env, p)
    case Skip(rest) => Decode(env, rest, delivered).delivered != delivered
    case Deliver(r, rest) => env.goOn(delivered + [r]) && ResultBehindSkip(env, rest, delivered + [r])
    case _ => false
  }

  lemma {:induction false} FeedGrows(env: Env, s: Run, chunks: seq<Bytes>)
    ensures s.delivered <= Feed(env, s, chunks).delivered
    decreases |chunks|
  {
    if chunks != [] && !s.Over() {
      PumpGrows(env, s.rest + chunks[0], s.delivered);
      FeedGrows(env, Pump(env, s.rest + chunks[0], s.delivered), chunks[1..]);
    }
  }

  lemma {:induction false} PumpGrows(env: Env, p: Bytes, delivered: seq<SelectResult>)
    ensures delivered <= Pump(env, p, delivered).delivered
    decreases |p|
  {
    NextShrinks(env, p);
    match NextFrame(env, p)
    case Deliver(r, rest) =>
      if env.goOn(delivered + [r]) {
        PumpGrows(env, rest, delivered + [r]);
      }
    case _ =>
  }

  /** Nothing is added to what was pending. */
  lemma {:induction false} PumpLeaves(env: Env, p: Bytes, delivered: seq<SelectResult>)
    ensures |Pump(env, p, delivered).rest| <= |p|
    decreases |p|
  {
    NextShrinks(env, p);
    match NextFrame(env, p)
    case Deliver(r, rest) =>
      if env.goOn(delivered + [r]) {
        PumpLeaves(env, rest, delivered + [r]);
      }
    case _ =>
  }

  /** A call either ends waiting for bytes, or at a skipped frame with nothing deliverable behind it. */
  lemma {:induction false} PumpSettles(env: Env, p: Bytes, q: Bytes, delivered: seq<SelectResult>)
    requires !ResultBehindSkip(env, p + q, delivered)
    ensures var s := Pump(env, p, delivered);
      !s.Over() ==>
        || (NextFrame(env, s.rest).NeedMore? && !ResultBehindSkip(env, s.rest + q, s.delivered))
        || Decode(env, s.rest + q, s.delivered).delivered == s.delivered
    decreases |p|
  {
    NextShrinks(env, p);
    NextStable(env, p, q);
    match NextFrame(env, p)
    case Deliver(r, rest) =>
      if env.goOn(delivered + [r]) {
        PumpSettles(env, rest, q, delivered + [r]);
      }
    case _ =>
  }

  lemma {:induction false} FeedDeliversAll(env: Env, s: Run, chunks: seq<Bytes>)
    requires s.Over()
      || (NextFrame(env, s.rest).NeedMore? && !ResultBehindSkip(env, s.rest + Flat(chunks), s.delivered))
      || Decode(env, s.rest + Flat(chunks), s.delivered).delivered == s.delivered
    ensures Feed(env, s, chunks).delivered == Resume(env, s, Flat(chunks)).delivered
    decreases |chunks|
  {
    if s.Over() {
    } else if chunks == [] {
      assert s.rest + Flat(chunks) == s.rest;
    } else if Decode(env, s.rest + Flat(chunks), s.delivered).delivered == s.delivered {
      var t := Feed(env, s, chunks);
      FeedGrows(env, s, chunks);
      FeedResumes(env, s, chunks, []);
      assert Flat(chunks) + [] == Flat(chunks);
      if !t.Over() {
        DecodeGrows(env, t.rest + [], t.delivered);
      }
    } else {
      var p, q := s.rest + chunks[0], Flat(chunks[1..]);
      assert p + q == s.rest + Flat(chunks);
      PumpSettles(env, p, q, s.delivered);
      PumpResumes(env, p, q, s.delivered);
      FeedDeliversAll(env, Pump(env, p, s.delivered), chunks[1..]);
    }
  }

  lemma {:induction false} PumpStopsShort(env: Env, p: Bytes, delivered: seq<SelectResult>)
    requires ResultBehindSkip(env, p, delivered)
    ensures Pump(env, p, delivered).delivered != Decode(env, p, delivered).delivered
    decreases |p|
  {
    NextShrinks(env, p);
    match NextFrame(env, p)
    case Deliver(r, rest) => PumpStopsShort(env, rest, delivered + [r]);
    case _ =>
  }

  // ---------- a cut that delivers everything ----------

  /** The bytes of the frame at the front. */
  function Front(p: Bytes, rest: Bytes): Bytes
    requires |rest| <= |p|
  {
    p[..|p| - |rest|]
  }

  /** A frame means the same when nothing follows it. */
  lemma FrameAlone(env: Env, p: Bytes)
    ensures match NextFrame(env, p)
      case Skip(rest) => |rest| < |p| && p == Front(p, rest) + rest && NextFrame(env, Front(p, rest)) == Skip([])
      case Deliver(r, rest) => |rest| < |p| && p == Front(p, rest) + rest && NextFrame(env, Front(p, rest)) == Deliver(r, [])
      case _ => true
  {
    NextShrinks(env, p);
    var f := Parse(env, p);
    if f.Whole? {
      InterpretRest(env, f, []);
      ParseAlone(env, p);
      hide Parse, Interpret;
    }
  }

  lemma ParseAlone(env: Env, p: Bytes)
    requires Parse(env, p).Whole?
    ensures Parse(env, Front(p, Parse(env, p).rest)) == Parse(env, p).(rest := [])
  {
    var s, total := Front(p, Parse(env, p).rest), Int(p[..4]);
    assert s == p[..total];
    assert s[..8] == p[..8] && s[8..12] == p[8..12];
    assert s[..4] == p[..4] && s[4..8] == p[4..8];
    assert s[..total - 4] == p[..total - 4];
    assert s[total - 4..total] == p[total - 4..total];
    assert s[12..total - 4] == p[12..total - 4];
    assert s[total..] == [];
  }

  lemma NothingPending(env: Env, delivered: seq<SelectResult>)
    ensures Decode(env, [], delivered) == Run(delivered, [], Open) == Pump(env, [], delivered)
    ensures !ResultBehindSkip(env, [], delivered)
  {
  }

  /** Cut behind every frame, a stream delivers all that it has to say. */
  lemma {:induction false} FrameCut(env: Env, p: Bytes, delivered: seq<SelectResult>) returns (chunks: seq<Bytes>)
    ensures Flat(chunks) == p
    ensures Feed(env, Run(delivered, [], Open), chunks).delivered == Decode(env, p, delivered).delivered
    decreases |p|
  {
    NextShrinks(env, p);
    FrameAlone(env, p);
    FlatOne(p);
    chunks := [p];
    var s := Run(delivered, [], Open);
    assert s.rest + p == p;
    match NextFrame(env, p) {
      case Skip(rest) =>
        var more := FrameCut(env, rest, delivered);
        chunks := [Front(p, rest)] + more;
        FeedFirst(env, s, Front(p, rest), more);
      case Deliver(r, rest) =>
        var more := FrameCut(env, rest, delivered + [r]);
        chunks := [Front(p, rest)] + more;
        FeedFirst(env, s, Front(p, rest), more);
        NothingPending(env, delivered + [r]);
      case _ =>
        FeedFirst(env, s, p, []);
    }
  }

  lemma FeedFirst(env: Env, s: Run, chunk: Bytes, more: seq<Bytes>)
    requires !s.Over() && s.rest == []
    ensures Flat([chunk] + more) == chunk + Flat(more)
    ensures Feed(env, s, [chunk] + more) == Feed(env, Pump(env, chunk, s.delivered), more)
  {
    assert ([chunk] + more)[1..] == more && s.rest + chunk == chunk;
    hide Pump;
  }

  // ---------- the theorem ----------

  /** Are these chunks of the stream, and do they deliver all of it? */
  predicate DeliversAll(env: Env, stream: Bytes, chunks: seq<Bytes>) {
    Flat(chunks) == stream && Feed(env, START, chunks).delivered == Decode(env, stream, []).delivered
  }

  /** Some way of cutting a stream always delivers its whole decoding. */
  lemma SomeCutDeliversAll(env: Env, stream: Bytes)
    ensures exists chunks :: DeliversAll(env, stream, chunks)
  {
    var chunks := FrameCut(env, stream, []);
    assert DeliversAll(env, stream, chunks);
  }

  /** The decoding of the stream is what every cut delivers, exactly when no result stands behind a skipped frame. */
  lemma AllCutsDeliverAll(env: Env, stream: Bytes)
    ensures !ResultBehindSkip(env, stream, []) <==>
      forall chunks | Flat(chunks) == stream :: DeliversAll(env, stream, chunks)
  {
    if ResultBehindSkip(env, stream, []) {
      FlatOne(stream);
      assert START.rest + stream == stream;
      PumpStopsShort(env, stream, []);
      assert Feed(env, START, [stream]).delivered == Pump(env, stream, []).delivered;
      assert !DeliversAll(env, stream, [stream]);
    } else {
      forall chunks | Flat(chunks) == stream
        ensures DeliversAll(env, stream, chunks)
      {
        assert START.rest + stream == stream;
        FeedDeliversAll(env, START, chunks);
      }
    }
  }

  /**
   * What a stream delivers is the same for every two ways of cutting it exactly when no frame with
   * a result stands behind a Cont or payload-less frame.
   */
  lemma ChunkIndependence(env: Env, stream: Bytes)
    ensures !ResultBehindSkip(env, stream, []) <==>
      forall a, b | Flat(a) == stream && Flat(b) == stream ::
        Feed(env, START, a).delivered == Feed(env, START, b).delivered
  {
    AllCutsDeliverAll(env, stream);
    SomeCutDeliversAll(env, stream);
    hide Feed, Decode, ResultBehindSkip, Flat;
    if !ResultBehindSkip(env, stream, []) {
      forall a, b | Flat(a) == stream && Flat(b) == stream
        ensures Feed(env, START, a).delivered == Feed(env, START, b).delivered
      {
        assert DeliversAll(env, stream, a) && DeliversAll(env, stream, b);
      }
    } else {
      var a :| Flat(a) == stream && !DeliversAll(env, stream, a);
      var b :| DeliversAll(env, stream, b);
      assert Flat(b) == stream;
    }
  }

  // ---------- terminal results ----------

  /** Results that end the stream come last and at most once, and nothing is pending after them. */
  lemma {:induction false} TerminalIsLast(env: Env, p: Bytes, delivered: seq<SelectResult>)
    requires forall r :: r in delivered ==> !Terminal(r)
    ensures var s := Decode(env, p, delivered);
      && (forall i :: 0 <= i < |s.delivered| - 1 ==> !Terminal(s.delivered[i]))
      && (!s.Over() ==> forall r :: r in s.delivered ==> !Terminal(r))
      && (s.ending == Threw ==> forall r :: r in s.delivered ==> !Terminal(r))
      && (s.ending == Closed ==> s.delivered != [] && (Terminal(s.delivered[|s.delivered| - 1]) || !env.goOn(s.delivered)))
    decreases |p|
  {
    hide NextFrame;
    NextShrinks(env, p);
    match NextFrame(env, p)
    case Skip(rest) => TerminalIsLast(env, rest, delivered);
    case Deliver(r, rest) =>
      if env.goOn(delivered + [r]) {
        TerminalIsLast(env, rest, delivered + [r]);
      }
    case _ =>
  }
}
