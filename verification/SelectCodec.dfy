// The frame encoder of the project's tests (tests/tests.cc:106-143), and that decoding undoes it.
module SelectCodec {
  import opened Wrappers
  import opened Octets
  import opened Chunks
  import opened SelectProtocol

  type HeaderPair = (Bytes, Bytes)

  /** Names of 1..255 bytes, values of at most 65535. */
  predicate Encodable(headers: seq<HeaderPair>) {
    forall h :: h in headers ==> 1 <= |h.0| <= 255 && |h.1| <= 65535
  }

  function EncodeByte(v: nat): Byte
    requires v < 256
  {
    v as char
  }

  function PutUint32(v: Word32): Bytes {
    [EncodeByte(v / 0x100_0000), EncodeByte(v / 0x1_0000 % 256), EncodeByte(v / 0x100 % 256), EncodeByte(v % 256)]
  }

  function EncodeHeaders(headers: seq<HeaderPair>): Bytes
    requires Encodable(headers)
  {
    if headers == [] then []
    else
      var (name, value) := headers[0];
      [EncodeByte(|name|)] + name + [EncodeByte(7), EncodeByte(|value| / 256), EncodeByte(|value| % 256)] + value
      + EncodeHeaders(headers[1..])
  }

  /** Later headers replace earlier ones of the same name. */
  function Merge(known: map<Bytes, Bytes>, headers: seq<HeaderPair>): map<Bytes, Bytes>
    decreases |headers|
  {
    if headers == [] then known else Merge(known[headers[0].0 := headers[0].1], headers[1..])
  }

  predicate FitsFrame(headers: seq<HeaderPair>, payload: Bytes) {
    Encodable(headers) && 16 + |EncodeHeaders(headers)| + |payload| < 0x1_0000_0000
  }

  function MakeFrame(env: Env, headers: seq<HeaderPair>, payload: Bytes): Bytes
    requires FitsFrame(headers, payload)
  {
    RawFrame(env, EncodeHeaders(headers), payload)
  }

  /** A frame around any header section. */
  function RawFrame(env: Env, head: Bytes, payload: Bytes): Bytes
    requires 16 + |head| + |payload| < 0x1_0000_0000
  {
    var prelude := PutUint32(16 + |head| + |payload|) + PutUint32(|head|);
    var message := prelude + PutUint32(env.crc(prelude)) + (head + payload);
    message + PutUint32(env.crc(message))
  }

  /** The four bytes of a number come most significant first. */
  lemma IntIsBigEndian(a: Byte, b: Byte, c: Byte, d: Byte)
    ensures Int([a, b, c, d]) == ((a as nat * 256 + b as nat) * 256 + c as nat) * 256 + d as nat
  {
  }

  lemma FourDigits(v: Word32)
    ensures v == v / 0x100_0000 * 0x100_0000 + v / 0x1_0000 % 256 * 0x1_0000 + v / 0x100 % 256 * 0x100 + v % 256
  {
    var a := v / 0x100;
    var b := a / 0x100;
    assert b == v / 0x1_0000 && b / 0x100 == v / 0x100_0000;
  }

  lemma IntOfPut(v: Word32)
    ensures Int(PutUint32(v)) == v
  {
    FourDigits(v);
    ByteOfDigit(v / 0x100_0000);
    ByteOfDigit(v / 0x1_0000 % 256);
    ByteOfDigit(v / 0x100 % 256);
    ByteOfDigit(v % 256);
    hide EncodeByte;
  }

  lemma ByteOfDigit(d: nat)
    requires d < 256
    ensures EncodeByte(d) as nat == d
  {
  }

  lemma HeadersUnfold(d: Bytes, known: map<Bytes, Bytes>)
    requires At(d, 0) != 0 && At(Drop(Drop(d, 1), At(d, 0)), 0) == 7
    ensures var named := Drop(d, 1);
      var sized := Drop(Drop(named, At(d, 0)), 1);
      var valued, size := Drop(sized, 2), At(sized, 0) * 256 + At(sized, 1);
      HeadersFrom(d, known) == HeadersFrom(Drop(valued, size), known[Take(named, At(d, 0)) := Take(valued, size)])
  {
  }

  lemma HeaderStep(name: Bytes, value: Bytes, rest: Bytes, known: map<Bytes, Bytes>)
    requires 1 <= |name| <= 255 && |value| <= 65535
    ensures HeadersFrom([EncodeByte(|name|)] + name + [EncodeByte(7), EncodeByte(|value| / 256), EncodeByte(|value| % 256)]
                        + value + rest, known)
            == HeadersFrom(rest, known[name := value])
  {
    hide HeadersFrom;
    var sizes := [EncodeByte(|value| / 256), EncodeByte(|value| % 256)];
    var d := [EncodeByte(|name|)] + name + [EncodeByte(7), EncodeByte(|value| / 256), EncodeByte(|value| % 256)] + value + rest;
    var named := Drop(d, 1);
    assert named == name + ([EncodeByte(7)] + sizes + value + rest);
    assert Take(named, |name|) == name;
    var typed := Drop(named, |name|);
    assert typed == [EncodeByte(7)] + (sizes + value + rest);
    var sized := Drop(typed, 1);
    assert sized == sizes + (value + rest);
    var valued := Drop(sized, 2);
    assert valued == value + rest;
    assert Take(valued, |value|) == value && Drop(valued, |value|) == rest;
    assert At(sized, 0) * 256 + At(sized, 1) == |value|;
    hide EncodeByte;
    HeadersUnfold(d, known);
  }

  /** Decoding the encoded headers recovers them all. */
  lemma {:induction false} HeadersRoundTrip(headers: seq<HeaderPair>, known: map<Bytes, Bytes>)
    requires Encodable(headers)
    ensures HeadersFrom(EncodeHeaders(headers), known) == Some(Merge(known, headers))
    decreases |headers|
  {
    if headers != [] {
      var (name, value) := headers[0];
      HeaderStep(name, value, EncodeHeaders(headers[1..]), known);
      HeadersRoundTrip(headers[1..], known[name := value]);
    }
  }

  lemma ParseOfFrame(env: Env, head: Bytes, payload: Bytes, tail: Bytes)
    requires 16 + |head| + |payload| < 0x1_0000_0000
    ensures Parse(env, RawFrame(env, head, payload) + tail) == Whole(16 + |head| + |payload|, |head|, head + payload, tail)
  {
    var total := 16 + |head| + |payload|;
    var prelude := PutUint32(total) + PutUint32(|head|);
    var preludeCrc := PutUint32(env.crc(prelude));
    var messageCrc := PutUint32(env.crc(prelude + preludeCrc + (head + payload)));
    assert |prelude| == 8 && |preludeCrc| == |messageCrc| == 4;
    assert prelude[..4] == PutUint32(total) && prelude[4..8] == PutUint32(|head|);
    IntOfPut(total);
    IntOfPut(|head|);
    IntOfPut(env.crc(prelude));
    IntOfPut(env.crc(prelude + preludeCrc + (head + payload)));
    hide Int, PutUint32, Parse;
    ParseComplete(env, prelude, preludeCrc, head + payload, messageCrc, tail);
  }

  lemma InterpretDecoded(env: Env, total: nat, head: Bytes, payload: Bytes, tail: Bytes, headers: map<Bytes, Bytes>)
    requires HeadersFrom(head, map[]) == Some(headers)
    ensures Interpret(env, Whole(total, |head|, head + payload, tail)) == Classify(env, headers, total, |head|, payload, tail)
  {
    var data := head + payload;
    assert Take(data, |head|) == head && Drop(data, |head|) == payload;
    hide HeadersFrom, Classify, Take, Drop;
  }

  lemma NextOfWhole(env: Env, p: Bytes)
    ensures Parse(env, p).Whole? ==> NextFrame(env, p) == Interpret(env, Parse(env, p))
  {
    hide Parse, Interpret;
  }

  /** An encoded frame decodes to its own headers and payload, whatever follows it. */
  lemma FrameRoundTrip(env: Env, headers: seq<HeaderPair>, payload: Bytes, tail: Bytes)
    requires FitsFrame(headers, payload)
    ensures var n := |EncodeHeaders(headers)|;
      NextFrame(env, MakeFrame(env, headers, payload) + tail)
      == Classify(env, Merge(map[], headers), 16 + n + |payload|, n, payload, tail)
  {
    hide RawFrame, Parse, Interpret, NextFrame, HeadersFrom, Classify, EncodeHeaders, Encodable, Merge;
    var head := EncodeHeaders(headers);
    ParseOfFrame(env, head, payload, tail);
    HeadersRoundTrip(headers, map[]);
    NextOfWhole(env, MakeFrame(env, headers, payload) + tail);
    InterpretDecoded(env, 16 + |head| + |payload|, head, payload, tail, Merge(map[], headers));
  }

  // ---------- what each kind of frame means ----------

  /** The value a name has in a header list: the last one given, or nothing. */
  function LastValue(headers: seq<HeaderPair>, name: Bytes): Bytes {
    if headers == [] then ""
    else if headers[|headers| - 1].0 == name then headers[|headers| - 1].1
    else LastValue(headers[..|headers| - 1], name)
  }

  lemma {:induction false} MergeLast(known: map<Bytes, Bytes>, headers: seq<HeaderPair>, last: HeaderPair)
    ensures Merge(known, headers + [last]) == Merge(known, headers)[last.0 := last.1]
    decreases |headers|
  {
    var all := headers + [last];
    if headers == [] {
      assert all == [last] && all[1..] == [];
    } else {
      assert all[1..] == headers[1..] + [last];
      MergeLast(known[headers[0].0 := headers[0].1], headers[1..], last);
    }
  }

  /** Looking a name up in the decoded headers gives its last value. */
  lemma {:induction false} HeaderIsLast(headers: seq<HeaderPair>, name: Bytes)
    ensures Header(Merge(map[], headers), name) == LastValue(headers, name)
    decreases |headers|
  {
    if headers != [] {
      var before, last := headers[..|headers| - 1], headers[|headers| - 1];
      assert headers == before + [last];
      MergeLast(map[], before, last);
      HeaderIsLast(before, name);
    }
  }

  predicate IsError(headers: seq<HeaderPair>) {
    LastValue(headers, ":message-type") == "error"
  }

  function Event(headers: seq<HeaderPair>): Bytes {
    LastValue(headers, ":event-type")
  }

  /** The headers of an encoded frame, looked up by name. */
  lemma HeadersOf(headers: seq<HeaderPair>)
    ensures var decoded := Merge(map[], headers);
      && (Header(decoded, ":message-type") == "error" <==> IsError(headers))
      && Header(decoded, ":event-type") == Event(headers)
      && Header(decoded, ":error-code") == LastValue(headers, ":error-code")
      && Header(decoded, ":error-message") == LastValue(headers, ":error-message")
  {
    HeaderIsLast(headers, ":message-type");
    HeaderIsLast(headers, ":event-type");
    HeaderIsLast(headers, ":error-code");
    HeaderIsLast(headers, ":error-message");
    hide Header, Merge, LastValue;
  }

  lemma ErrorFrame(env: Env, headers: seq<HeaderPair>, payload: Bytes, tail: Bytes)
    requires FitsFrame(headers, payload) && IsError(headers)
    ensures NextFrame(env, MakeFrame(env, headers, payload) + tail)
      == Stop(Failed(Remote(LastValue(headers, ":error-code"), LastValue(headers, ":error-message"))))
  {
    hide NextFrame, MakeFrame, Merge, EncodeHeaders, Header, IsError, LastValue;
    FrameRoundTrip(env, headers, payload, tail);
    HeadersOf(headers);
  }

  lemma EndFrame(env: Env, headers: seq<HeaderPair>, payload: Bytes, tail: Bytes)
    requires FitsFrame(headers, payload) && !IsError(headers) && Event(headers) == "End"
    ensures NextFrame(env, MakeFrame(env, headers, payload) + tail) == Stop(Ended)
  {
    hide NextFrame, MakeFrame, Merge, EncodeHeaders, Header, IsError, LastValue;
    FrameRoundTrip(env, headers, payload, tail);
    HeadersOf(headers);
  }

  lemma SkippedFrame(env: Env, headers: seq<HeaderPair>, payload: Bytes, tail: Bytes)
    requires FitsFrame(headers, payload) && !IsError(headers) && Event(headers) != "End"
    requires Event(headers) == "Cont" || payload == []
    ensures NextFrame(env, MakeFrame(env, headers, payload) + tail) == Skip(tail)
  {
    hide NextFrame, MakeFrame, Merge, EncodeHeaders, Header, IsError, LastValue;
    FrameRoundTrip(env, headers, payload, tail);
    HeadersOf(headers);
  }

  /** A frame with a payload that is neither an error nor End nor Cont. */
  predicate Carries(headers: seq<HeaderPair>, payload: Bytes) {
    && FitsFrame(headers, payload)
    && !IsError(headers) && Event(headers) != "End" && Event(headers) != "Cont"
    && payload != []
  }

  lemma NumbersFrame(env: Env, headers: seq<HeaderPair>, payload: Bytes, tail: Bytes)
    requires Carries(headers, payload) && (Event(headers) == "Progress" || Event(headers) == "Stats")
    ensures NextFrame(env, MakeFrame(env, headers, payload) + tail) ==
      match env.metrics(Event(headers), payload)
      case Malformed => Stop(Failed(BadXml(payload)))
      case NotANumber => Throw
      case Numbers(m) => Deliver(Stats(m), tail)
  {
    hide NextFrame, MakeFrame, Merge, EncodeHeaders, Header, IsError, LastValue;
    FrameRoundTrip(env, headers, payload, tail);
    HeadersOf(headers);
    assert Take(payload, |payload|) == payload;
  }

  lemma RecordsFrame(env: Env, headers: seq<HeaderPair>, payload: Bytes, tail: Bytes)
    requires Carries(headers, payload) && Event(headers) == "Records"
    ensures NextFrame(env, MakeFrame(env, headers, payload) + tail) == Deliver(Records(payload), tail)
  {
    hide NextFrame, MakeFrame, Merge, EncodeHeaders, Header, IsError, LastValue;
    FrameRoundTrip(env, headers, payload, tail);
    HeadersOf(headers);
    assert Take(payload, |payload|) == payload;
  }

  lemma UnknownFrame(env: Env, headers: seq<HeaderPair>, payload: Bytes, tail: Bytes)
    requires Carries(headers, payload)
    requires Event(headers) != "Progress" && Event(headers) != "Stats" && Event(headers) != "Records"
    ensures NextFrame(env, MakeFrame(env, headers, payload) + tail) == Stop(Failed(UnknownEvent(Event(headers))))
  {
    hide NextFrame, MakeFrame, Merge, EncodeHeaders, Header, IsError, LastValue;
    FrameRoundTrip(env, headers, payload, tail);
    HeadersOf(headers);
  }

  /** A header that is not a string, behind any that are, is refused whatever follows it. */
  lemma NotStringFrame(env: Env, headers: seq<HeaderPair>, name: Bytes, kind: Byte, more: Bytes, payload: Bytes, tail: Bytes)
    requires Encodable(headers) && 1 <= |name| <= 255 && kind as nat != 7
    requires var head := EncodeHeaders(headers) + ([EncodeByte(|name|)] + name + [kind] + more);
      16 + |head| + |payload| < 0x1_0000_0000
    ensures var head := EncodeHeaders(headers) + ([EncodeByte(|name|)] + name + [kind] + more);
      NextFrame(env, RawFrame(env, head, payload) + tail) == Stop(Failed(HeaderTypeNotString))
  {
    var bad := [EncodeByte(|name|)] + name + [kind] + more;
    var head := EncodeHeaders(headers) + bad;
    HeadersBefore(headers, bad, map[]);
    NotStringHeader(name, kind, more, Merge(map[], headers));
    ParseOfFrame(env, head, payload, tail);
    NextOfWhole(env, RawFrame(env, head, payload) + tail);
    assert Take(head + payload, |head|) == head;
    hide HeadersFrom, RawFrame, Parse, NextFrame, Merge, EncodeHeaders, Take;
  }

  lemma NotStringHeader(name: Bytes, kind: Byte, more: Bytes, known: map<Bytes, Bytes>)
    requires 1 <= |name| <= 255 && kind as nat != 7
    ensures HeadersFrom([EncodeByte(|name|)] + name + [kind] + more, known) == None
  {
    var d := [EncodeByte(|name|)] + name + [kind] + more;
    assert Drop(d, 1) == name + ([kind] + more);
    assert Drop(Drop(d, 1), |name|) == [kind] + more;
  }

  /** Decoding goes on behind encoded headers with all of them known. */
  lemma {:induction false} HeadersBefore(headers: seq<HeaderPair>, rest: Bytes, known: map<Bytes, Bytes>)
    requires Encodable(headers)
    ensures HeadersFrom(EncodeHeaders(headers) + rest, known) == HeadersFrom(rest, Merge(known, headers))
    decreases |headers|
  {
    hide HeadersFrom;
    if headers == [] {
      assert EncodeHeaders(headers) + rest == rest;
    } else {
      var (name, value) := headers[0];
      var first := [EncodeByte(|name|)] + name + [EncodeByte(7), EncodeByte(|value| / 256), EncodeByte(|value| % 256)] + value;
      assert EncodeHeaders(headers) + rest == first + (EncodeHeaders(headers[1..]) + rest);
      HeaderStep(name, value, EncodeHeaders(headers[1..]) + rest, known);
      HeadersBefore(headers[1..], rest, known[name := value]);
    }
  }

  /** A checksum that disagrees ends the stream with both numbers, the prelude's as soon as it is there. */
  lemma CorruptPrelude(env: Env, prelude: Bytes, preludeCrc: Bytes, tail: Bytes)
    requires |prelude| == 8 && |preludeCrc| == 4 && env.crc(prelude) != Int(preludeCrc)
    ensures NextFrame(env, prelude + preludeCrc + tail)
      == Stop(Failed(PreludeCrcMismatch(Int(preludeCrc), env.crc(prelude))))
  {
    hide Parse, Int;
    ParseFields(env, prelude, preludeCrc, tail);
  }

  /** A length below 16 is waited for, and never arrives. */
  lemma ShortLengthWaits(env: Env, prelude: Bytes, preludeCrc: Bytes, tail: Bytes)
    requires |prelude| == 8 && |preludeCrc| == 4 && env.crc(prelude) == Int(preludeCrc) && Int(prelude[..4]) < 16
    ensures NextFrame(env, prelude + preludeCrc + tail) == NeedMore
  {
    hide Parse, Int;
    ParseFields(env, prelude, preludeCrc, tail);
  }

  lemma CorruptMessage(env: Env, prelude: Bytes, preludeCrc: Bytes, data: Bytes, messageCrc: Bytes, tail: Bytes)
    requires |prelude| == 8 && |preludeCrc| == 4 && |messageCrc| == 4
    requires env.crc(prelude) == Int(preludeCrc) && Int(prelude[..4]) == |data| + 16
    requires env.crc(prelude + preludeCrc + data) != Int(messageCrc)
    ensures NextFrame(env, prelude + preludeCrc + data + messageCrc + tail)
      == Stop(Failed(MessageCrcMismatch(Int(messageCrc), env.crc(prelude + preludeCrc + data))))
  {
    hide Parse, Int;
    ParseComplete(env, prelude, preludeCrc, data, messageCrc, tail);
  }

  // ---------- streams of Records ----------

  datatype Message = Message(headers: seq<HeaderPair>, payload: Bytes)

  /** A message a server sends for a piece of the answer. */
  predicate IsRecords(m: Message) {
    Carries(m.headers, m.payload) && Event(m.headers) == "Records"
  }

  function Stream(env: Env, ms: seq<Message>): Bytes
    requires forall i :: 0 <= i < |ms| ==> IsRecords(ms[i])
  {
    if ms == [] then [] else assert IsRecords(ms[0]); MakeFrame(env, ms[0].headers, ms[0].payload) + Stream(env, ms[1..])
  }

  function Payloads(ms: seq<Message>): seq<SelectResult> {
    if ms == [] then [] else [Records(ms[0].payload)] + Payloads(ms[1..])
  }

  lemma NextRecords(env: Env, m: Message, tail: Bytes)
    requires IsRecords(m)
    ensures NextFrame(env, MakeFrame(env, m.headers, m.payload) + tail) == Deliver(Records(m.payload), tail)
  {
    hide NextFrame, MakeFrame, Carries, Event;
    RecordsFrame(env, m.headers, m.payload, tail);
  }

  /** What the caller is given of some results: all up to the first it refuses to go on after. */
  function Accepted(env: Env, results: seq<SelectResult>, delivered: seq<SelectResult>): Run
    decreases |results|
  {
    if results == [] then Run(delivered, [], Open)
    else if env.goOn(delivered + [results[0]]) then Accepted(env, results[1..], delivered + [results[0]])
    else Run(delivered + [results[0]], [], Closed)
  }

  /** A prefix of the results; all of them unless the last one given was refused. */
  lemma {:induction false} AcceptedIsPrefix(env: Env, results: seq<SelectResult>, delivered: seq<SelectResult>)
    ensures var s := Accepted(env, results, delivered);
      && delivered <= s.delivered <= delivered + results
      && (s.ending == Open ==> s.delivered == delivered + results)
      && (s.ending == Closed ==> !env.goOn(s.delivered))
      && (forall n :: |delivered| < n < |s.delivered| ==> env.goOn(s.delivered[..n]))
      && s.ending != Threw
    decreases |results|
  {
    if results != [] && env.goOn(delivered + [results[0]]) {
      AcceptedIsPrefix(env, results[1..], delivered + [results[0]]);
      assert delivered + [results[0]] + results[1..] == delivered + results;
      var s := Accepted(env, results, delivered);
      assert s.delivered[..|delivered| + 1] == delivered + [results[0]];
    }
  }

  /** A record at the front is delivered, and the rest is decoded as if it came alone, or not at all. */
  lemma DecodeDelivered(env: Env, p: Bytes, r: SelectResult, rest: Bytes, delivered: seq<SelectResult>)
    requires NextFrame(env, p) == Deliver(r, rest)
    ensures Decode(env, p, delivered) ==
      if env.goOn(delivered + [r]) then Decode(env, rest, delivered + [r]) else Run(delivered + [r], [], Closed)
    ensures ResultBehindSkip(env, p, delivered) <==>
      env.goOn(delivered + [r]) && ResultBehindSkip(env, rest, delivered + [r])
  {
    hide NextFrame;
  }

  lemma {:induction false} RecordsDecode(env: Env, ms: seq<Message>, delivered: seq<SelectResult>)
    requires forall i :: 0 <= i < |ms| ==> IsRecords(ms[i])
    ensures Decode(env, Stream(env, ms), delivered) == Accepted(env, Payloads(ms), delivered)
    ensures !ResultBehindSkip(env, Stream(env, ms), delivered)
    decreases |ms|
  {
    hide IsRecords, MakeFrame, NextFrame, Decode, ResultBehindSkip;
    if ms == [] {
      NothingPending(env, delivered);
    } else {
      var r, tail := Records(ms[0].payload), Stream(env, ms[1..]);
      NextRecords(env, ms[0], tail);
      DecodeDelivered(env, Stream(env, ms), r, tail, delivered);
      RecordsDecode(env, ms[1..], delivered + [r]);
      assert Payloads(ms)[0] == r && Payloads(ms)[1..] == Payloads(ms[1..]);
    }
  }

  /**
   * However the bytes arrive, a run of Records messages delivers exactly its payloads, in order, up
   * to the first that the caller refuses to go on after.
   */
  lemma RecordsArrive(env: Env, ms: seq<Message>, chunks: seq<Bytes>)
    requires forall i :: 0 <= i < |ms| ==> IsRecords(ms[i])
    requires Flat(chunks) == Stream(env, ms)
    ensures Feed(env, START, chunks).delivered == Accepted(env, Payloads(ms), []).delivered
  {
    RecordsDecode(env, ms, []);
    AllCutsDeliverAll(env, Stream(env, ms));
    assert DeliversAll(env, Stream(env, ms), chunks);
  }

  // ---------- complete answers ----------

  /** A stream that goes on where others end. */
  lemma {:induction false} RecordsBefore(env: Env, ms: seq<Message>, tail: Bytes, delivered: seq<SelectResult>)
    requires forall i :: 0 <= i < |ms| ==> IsRecords(ms[i])
    ensures var s := Accepted(env, Payloads(ms), delivered);
      && Decode(env, Stream(env, ms) + tail, delivered) == (if s.ending == Open then Decode(env, tail, s.delivered) else s)
      && (ResultBehindSkip(env, Stream(env, ms) + tail, delivered) <==>
            s.ending == Open && ResultBehindSkip(env, tail, s.delivered))
    decreases |ms|
  {
    hide EncodeHeaders, IsError, Event, MakeFrame, NextFrame, Decode, ResultBehindSkip;
    if ms == [] {
      assert Stream(env, ms) + tail == tail;
    } else {
      var r, rest := Records(ms[0].payload), Stream(env, ms[1..]) + tail;
      NextRecords(env, ms[0], rest);
      assert IsRecords(ms[0]);
      assert Stream(env, ms) + tail == MakeFrame(env, ms[0].headers, ms[0].payload) + rest;
      DecodeDelivered(env, Stream(env, ms) + tail, r, rest, delivered);
      RecordsBefore(env, ms[1..], tail, delivered + [r]);
      assert Payloads(ms)[0] == r && Payloads(ms)[1..] == Payloads(ms[1..]);
    }
  }

  /** An End message, whatever else its headers and payload hold. */
  predicate IsEnd(m: Message) {
    FitsFrame(m.headers, m.payload) && !IsError(m.headers) && Event(m.headers) == "End"
  }

  function Answer(env: Env, ms: seq<Message>, end: Message, tail: Bytes): Bytes
    requires (forall i :: 0 <= i < |ms| ==> IsRecords(ms[i])) && IsEnd(end)
  {
    Stream(env, ms) + (MakeFrame(env, end.headers, end.payload) + tail)
  }

  lemma AnswerDecodes(env: Env, ms: seq<Message>, end: Message, tail: Bytes)
    requires (forall i :: 0 <= i < |ms| ==> IsRecords(ms[i])) && IsEnd(end)
    ensures var s := Accepted(env, Payloads(ms), []);
      Decode(env, Answer(env, ms, end, tail), []) == if s.ending == Open then Run(s.delivered + [Ended], [], Closed) else s
    ensures !ResultBehindSkip(env, Answer(env, ms, end, tail), [])
  {
    var s := Accepted(env, Payloads(ms), []);
    var rest := MakeFrame(env, end.headers, end.payload) + tail;
    EndFrame(env, end.headers, end.payload, tail);
    RecordsBefore(env, ms, rest, []);
    hide NextFrame, MakeFrame, Stream, IsRecords;
    StopDecodes(env, rest, Ended, s.delivered);
  }

  lemma StopDecodes(env: Env, p: Bytes, r: SelectResult, delivered: seq<SelectResult>)
    requires NextFrame(env, p) == Stop(r)
    ensures Decode(env, p, delivered) == Run(delivered + [r], [], Closed) && !ResultBehindSkip(env, p, delivered)
  {
    hide NextFrame;
  }

  /** Where the whole decoding is closed, so is every feeding that delivered all of it. */
  lemma {:induction false} ClosedGrows(env: Env, p: Bytes, delivered: seq<SelectResult>)
    ensures delivered <= Decode(env, p, delivered).delivered
    ensures Decode(env, p, delivered).ending == Closed ==> |Decode(env, p, delivered).delivered| > |delivered|
    decreases |p|
  {
    hide NextFrame;
    NextShrinks(env, p);
    match NextFrame(env, p)
    case Skip(rest) => ClosedGrows(env, rest, delivered);
    case Deliver(r, rest) =>
      if env.goOn(delivered + [r]) {
        ClosedGrows(env, rest, delivered + [r]);
      }
    case _ =>
  }

  lemma ClosedIsFed(env: Env, stream: Bytes, chunks: seq<Bytes>)
    requires DeliversAll(env, stream, chunks) && Decode(env, stream, []).ending == Closed
    ensures Feed(env, START, chunks).ending == Closed
  {
    var s := Feed(env, START, chunks);
    FeedResumes(env, START, chunks, []);
    assert Flat(chunks) + [] == stream && START.rest + stream == stream;
    hide Decode, Feed;
    if !s.Over() {
      ClosedGrows(env, s.rest + [], s.delivered);
    }
  }

  /**
   * A complete answer, Records messages and then End, however it is cut and whatever follows it:
   * the accepted payloads are delivered, then the end unless the caller refused, then nothing, and
   * the stream is closed.
   */
  lemma AnswerArrives(env: Env, ms: seq<Message>, end: Message, tail: Bytes, chunks: seq<Bytes>)
    requires (forall i :: 0 <= i < |ms| ==> IsRecords(ms[i])) && IsEnd(end)
    requires Flat(chunks) == Answer(env, ms, end, tail)
    ensures var s, fed := Accepted(env, Payloads(ms), []), Feed(env, START, chunks);
      && fed.delivered == (if s.ending == Open then s.delivered + [Ended] else s.delivered)
      && fed.ending == Closed
  {
    var stream := Answer(env, ms, end, tail);
    AnswerDecodes(env, ms, end, tail);
    AcceptedIsPrefix(env, Payloads(ms), []);
    AllCutsDeliverAll(env, stream);
    hide Answer, Decode, Feed, Accepted, ResultBehindSkip, IsRecords;
    assert DeliversAll(env, stream, chunks);
    ClosedIsFed(env, stream, chunks);
  }

  // ---------- a result behind a Cont frame ----------

  const CONT: seq<HeaderPair> := [(":event-type", "Cont")]

  lemma ContHeaders()
    ensures Encodable(CONT) && |EncodeHeaders(CONT)| < 100
    ensures Event(CONT) == "Cont" && !IsError(CONT)
  {
    assert CONT[1..] == [] && CONT[..0] == [];
    assert EncodeHeaders(CONT[1..]) == [];
  }

  /** Messages as asked for below exist. */
  lemma SomeRecords()
    ensures IsRecords(Message([(":event-type", "Records")], "1,2\n"))
  {
    var headers := [(":event-type", "Records")];
    assert headers[1..] == [] && headers[..0] == [];
    assert EncodeHeaders(headers[1..]) == [];
  }

  lemma NextCont(env: Env, payload: Bytes, tail: Bytes)
    requires |payload| < 0x1_0000_0000 - 116
    ensures FitsFrame(CONT, payload) && NextFrame(env, MakeFrame(env, CONT, payload) + tail) == Skip(tail)
  {
    ContHeaders();
    hide EncodeHeaders, Encodable, MakeFrame, NextFrame, Event, IsError;
    SkippedFrame(env, CONT, payload, tail);
  }

  /** A record behind a Cont frame stays undelivered in one chunk, and is delivered in two. */
  lemma RecordBehindCont(env: Env, payload: Bytes, m: Message)
    requires |payload| < 0x1_0000_0000 - 116 && IsRecords(m)
    ensures FitsFrame(CONT, payload)
    ensures var cont, record := MakeFrame(env, CONT, payload), MakeFrame(env, m.headers, m.payload);
      && ResultBehindSkip(env, cont + record, [])
      && Feed(env, START, [cont + record]).delivered == []
      && Feed(env, START, [cont, record]).delivered == [Records(m.payload)]
  {
    NextCont(env, payload, []);
    var cont, record := MakeFrame(env, CONT, payload), MakeFrame(env, m.headers, m.payload);
    NextCont(env, payload, record);
    NextRecords(env, m, []);
    hide MakeFrame, NextFrame, IsRecords, FitsFrame;
    assert cont + [] == cont && record + [] == record;
    SkippedThenDelivered(env, cont, record, Records(m.payload));
  }

  lemma SkippedThenDelivered(env: Env, cont: Bytes, record: Bytes, r: SelectResult)
    requires NextFrame(env, cont + record) == Skip(record) && NextFrame(env, cont) == Skip([])
    requires NextFrame(env, record) == Deliver(r, [])
    ensures ResultBehindSkip(env, cont + record, [])
    ensures Feed(env, START, [cont + record]).delivered == []
    ensures Feed(env, START, [cont, record]).delivered == [r]
  {
    hide NextFrame;
    var none: seq<SelectResult> := [];
    assert none + [r] == [r];
    DecodeDelivered(env, record, r, [], none);
    NothingPending(env, [r]);
    assert Decode(env, record, none).delivered == [r];
    assert Pump(env, record, none).delivered == [r] && Pump(env, cont, none) == START;
    FeedFirst(env, START, cont + record, []);
    FeedFirst(env, START, cont, [record]);
    FeedFirst(env, START, record, []);
    assert [cont] + [record] == [cont, record] && [cont + record] + [] == [cont + record] && [record] + [] == [record];
  }
}
