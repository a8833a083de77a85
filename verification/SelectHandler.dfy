// The resumable decoder of src/select.cc: fields that survive between chunks, filled in order.
module SelectHandling {
  import opened Wrappers
  import opened Octets
  import opened Chunks
  import opened SelectProtocol

  const WRAP_64: nat := 0x1_0000_0000_0000_0000
  const MAX_STRING: nat := 0x7fff_ffff_ffff_ffff

  class SelectHandler {
    const env: Env

    var done: bool
    var response: Bytes
    var prelude: Bytes
    var preludeRead: bool
    var preludeCrc: Bytes
    var preludeCrcRead: bool
    var totalLength: nat
    var data: Bytes
    var dataRead: bool
    var messageCrc: Bytes
    var messageCrcRead: bool

    var delivered: seq<SelectResult>   // the arguments result_func was called with, in order

    /** Fields are read in order, and a field that is not read is empty. */
    ghost predicate FieldsInOrder()
      reads this
    {
      && (preludeCrcRead ==> preludeRead) && (dataRead ==> preludeCrcRead) && (messageCrcRead ==> dataRead)
      && |prelude| == (if preludeRead then 8 else 0)
      && |preludeCrc| == (if preludeCrcRead then 4 else 0)
      && (preludeCrcRead ==> env.crc(prelude) == Int(preludeCrc) && totalLength == Int(prelude[..4]))
      && (dataRead ==> totalLength >= 16 && |data| == totalLength - 16)
      && (!dataRead ==> data == [])
      && |messageCrc| == (if messageCrcRead then 4 else 0)
    }

    /** Between calls: the last field of a frame is never left behind. */
    ghost predicate Valid()
      reads this
    {
      !done ==> FieldsInOrder() && !messageCrcRead && |Pending()| <= MAX_STRING
    }

    /** The bytes received and not yet consumed, wherever they are held. */
    ghost function Pending(): Bytes
      reads this
    {
      prelude + preludeCrc + data + messageCrc + response
    }

    constructor (env: Env)
      ensures Valid() && !done && Pending() == [] && delivered == [] && this.env == env
    {
      this.env := env;
      done, response, totalLength := false, [], 0;
      prelude, preludeRead, preludeCrc, preludeCrcRead := [], false, [], false;
      data, dataRead, messageCrc, messageCrcRead := [], false, [], false;
      delivered := [];
    }

    method Reset()
      modifies this
      ensures FieldsInOrder() && !preludeRead && Pending() == old(response) == response
      ensures done == old(done) && delivered == old(delivered)
    {
      prelude, preludeRead := [], false;
      preludeCrc, preludeCrcRead := [], false;
      data, dataRead := [], false;
      messageCrc, messageCrcRead := [], false;
    }

    method ReadPrelude() returns (ok: bool)
      requires FieldsInOrder() && !preludeRead
      modifies this`prelude, this`preludeRead, this`response
      ensures FieldsInOrder() && Pending() == old(Pending())
      ensures ok == (|old(Pending())| >= 8) == preludeRead
    {
      if |response| < 8 {
        return false;
      }
      preludeRead := true;
      prelude := response[..8];
      response := response[8..];
      return true;
    }

    /** Reads the checksum of the prelude; comparing it is left to the caller. */
    method ReadPreludeCrc() returns (ok: bool)
      requires FieldsInOrder() && preludeRead && !preludeCrcRead
      modifies this`preludeCrc, this`preludeCrcRead, this`response
      ensures Pending() == old(Pending()) && ok == (|old(Pending())| >= 12)
      ensures !ok ==> FieldsInOrder() && !preludeCrcRead
      ensures ok ==> preludeCrcRead && |preludeCrc| == 4
    {
      if |response| < 4 {
        return false;
      }
      preludeCrcRead := true;
      preludeCrc := response[..4];
      response := response[4..];
      return true;
    }

    method ReadData() returns (ok: bool)
      requires FieldsInOrder() && preludeCrcRead && !dataRead && |Pending()| <= MAX_STRING
      modifies this`data, this`dataRead, this`response
      ensures FieldsInOrder() && Pending() == old(Pending())
      ensures ok == (totalLength >= 16 && |old(Pending())| >= totalLength - 4) == dataRead
    {
      var dataLength := (totalLength + WRAP_64 - 8 - 4 - 4) % WRAP_64;
      if |response| < dataLength {
        return false;
      }
      dataRead := true;
      data := response[..dataLength];
      response := response[dataLength..];
      return true;
    }

    method ReadMessageCrc() returns (ok: bool)
      requires FieldsInOrder() && dataRead && !messageCrcRead
      modifies this`messageCrc, this`messageCrcRead, this`response
      ensures FieldsInOrder() && Pending() == old(Pending())
      ensures ok == (|old(Pending())| >= totalLength) == messageCrcRead
    {
      if |response| < 4 {
        return false;
      }
      messageCrcRead := true;
      messageCrc := response[..4];
      response := response[4..];
      return true;
    }

    /** SelectHandler::DecodeHeader (src/select.cc:86-112). */
    static method DecodeHeader(headerData: Bytes) returns (r: Option<map<Bytes, Bytes>>)
      ensures r == HeadersFrom(headerData, map[])
    {
      var d := headerData;
      var headers: map<Bytes, Bytes> := map[];
      while true
        invariant HeadersFrom(d, headers) == HeadersFrom(headerData, map[])
        decreases |d|
      {
        var length := At(d, 0);
        d := Drop(d, 1);
        if length == 0 {
          break;
        }
        var name := Take(d, length);
        d := Drop(d, length);
        if At(d, 0) != 7 {
          return None;
        }
        d := Drop(d, 1);
        length := At(d, 0) * 256 + At(d, 1);
        d := Drop(d, 2);
        var value := Take(d, length);
        d := Drop(d, length);
        headers := headers[name := value];
      }
      return Some(headers);
    }

    /** Calls result_func with a result that ends the stream. */
    method Finish(r: SelectResult)
      modifies this`done, this`delivered
      ensures done && delivered == old(delivered) + [r]
    {
      done := true;
      delivered := delivered + [r];
    }

    /** The prelude and its checksum. */
    method ReadHead() returns (ok: bool)
      requires Valid() && !done
      modifies this
      ensures done ==>
        && !ok && Parse(env, old(Pending())).Corrupt?
        && delivered == old(delivered) + [Failed(Parse(env, old(Pending())).error)]
      ensures !done ==>
        && Valid() && Pending() == old(Pending()) && delivered == old(delivered)
        && (if ok then preludeCrcRead else Parse(env, Pending()).Partial?)
    {
      ok := preludeCrcRead;
      if !preludeRead {
        var read := ReadPrelude();
        if !read {
          return;
        }
      }
      if !preludeCrcRead {
        ok := ReadPreludeCrc();
        if ok {
          ParseFields(env, prelude, preludeCrc, response);
          assert Pending() == prelude + preludeCrc + response;
          var got, expected := env.crc(prelude), Int(preludeCrc);
          if got != expected {
            Finish(Failed(PreludeCrcMismatch(expected, got)));
            ok := false;
            return;
          }
          totalLength := Int(prelude[..4]);
        }
      }
    }

    /** The data and the checksum of the message. */
    method ReadBody() returns (ok: bool)
      requires Valid() && !done && preludeCrcRead
      modifies this
      ensures done ==>
        && !ok && Parse(env, old(Pending())).Corrupt?
        && delivered == old(delivered) + [Failed(Parse(env, old(Pending())).error)]
      ensures !done ==> FieldsInOrder() && delivered == old(delivered) && Pending() == old(Pending())
      ensures !done && !ok ==> Valid() && Parse(env, Pending()).Partial?
      ensures ok ==>
        && !done && messageCrcRead
        && Parse(env, old(Pending())) == Whole(totalLength, Int(prelude[4..8]), data, response)
    {
      hide Parse, Int;
      assert Pending() == prelude + preludeCrc + (data + response);
      ParseFields(env, prelude, preludeCrc, data + response);
      ok := dataRead;
      if !dataRead {
        ok := ReadData();
        if !ok {
          return;
        }
      }
      ok := ReadMessageCrc();
      if ok {
        ParseComplete(env, prelude, preludeCrc, data, messageCrc, response);
        var got, expected := env.crc(prelude + preludeCrc + data), Int(messageCrc);
        if got != expected {
          Finish(Failed(MessageCrcMismatch(expected, got)));
          ok := false;
        }
      }
    }

    /** SelectHandler::process (src/select.cc:114-231), told by what the pending bytes call for. */
    method Process() returns (ret: bool, cont: bool, threw: bool)
      requires Valid() && !done
      modifies this
      ensures !threw ==> Valid()
      ensures match NextFrame(env, old(Pending()))
        case NeedMore => !threw && ret && !cont && !done && Pending() == old(Pending()) && delivered == old(delivered)
        case n => Follows(n, ret, cont, threw, old(delivered))
    {
      ret, cont, threw := true, false, false;
      var ok := ReadHead();
      if ok {
        ok := ReadBody();
      }
      if done {
        ret := false;
      } else if ok {
        ret, cont, threw := Act();
      }
    }

    /** The rest of process: decode the headers and act on the event. */
    method Act() returns (ret: bool, cont: bool, threw: bool)
      requires !done && FieldsInOrder() && messageCrcRead && |response| <= MAX_STRING
      modifies this
      ensures !threw ==> Valid()
      ensures Follows(Interpret(env, Whole(old(totalLength), Int(old(prelude[4..8])), old(data), old(response))),
                      ret, cont, threw, old(delivered))
    {
      hide HeadersFrom, Classify;
      var headerLength := Int(prelude[4..8]);
      var headerData := Take(data, headerLength);
      data := Drop(data, headerLength);
      var decoded := DecodeHeader(headerData);
      match decoded
      case None =>
        ret, cont, threw := false, false, false;
        Finish(Failed(HeaderTypeNotString));
      case Some(headers) =>
        ret, cont, threw := ActOn(headers, headerLength);
    }

    /** The state after a frame, told by what the frame called for. */
    ghost predicate Follows(n: Next, ret: bool, cont: bool, threw: bool, before: seq<SelectResult>)
      reads this
    {
      threw == n.Throw? &&
      match n
      case NeedMore => false
      case Throw => delivered == before
      case Stop(r) => !ret && done && delivered == before + [r]
      case Skip(rest) => ret && !cont && !done && Pending() == rest && delivered == before
      case Deliver(r, rest) =>
        && delivered == before + [r]
        && ret == cont == !done == env.goOn(delivered)
        && Pending() == rest
    }

    method ActOn(headers: map<Bytes, Bytes>, headerLength: nat) returns (ret: bool, cont: bool, threw: bool)
      requires !done && |response| <= MAX_STRING
      modifies this
      ensures !threw ==> Valid()
      ensures Follows(Classify(env, headers, old(totalLength), headerLength, old(data), old(response)),
                      ret, cont, threw, old(delivered))
    {
      ret, cont, threw := false, false, false;
      var event := Header(headers, ":event-type");
      if Header(headers, ":message-type") == "error" {
        Finish(Failed(Remote(Header(headers, ":error-code"), Header(headers, ":error-message"))));
        return;
      }
      if event == "End" {
        Finish(Ended);
        return;
      }
      if event == "Cont" || totalLength <= headerLength || totalLength - headerLength <= 16 {
        Reset();
        return true, false, false;
      }
      var payload := Take(data, totalLength - headerLength - 16);
      if event == "Progress" || event == "Stats" {
        var reading := env.metrics(event, payload);
        if reading.Malformed? {
          Finish(Failed(BadXml(payload)));
          return;
        }
        if reading.NotANumber? {
          threw := true;
          return;
        }
        cont := Report(Stats(reading.metrics));
        return cont, cont, false;
      }
      if event == "Records" {
        cont := Report(Records(payload));
        return cont, cont, false;
      }
      Finish(Failed(UnknownEvent(event)));
    }

    /** Calls result_func with a result that does not end the stream by itself. */
    method Report(r: SelectResult) returns (cont: bool)
      requires !done && |response| <= MAX_STRING
      modifies this
      ensures Valid() && Pending() == old(response) && delivered == old(delivered) + [r]
      ensures cont == !done == env.goOn(delivered)
    {
      delivered := delivered + [r];
      cont := env.goOn(delivered);
      Reset();
      done := !cont;
    }

    /**
     * SelectHandler::DataFunction (src/select.cc:233-244). An exception of the number reader passes
     * through it, and leaves the handler to no further use.
     */
    method DataFunction(chunk: Bytes) returns (ret: bool, threw: bool)
      requires Valid() && (!done ==> |Pending()| + |chunk| <= MAX_STRING)
      modifies this
      ensures !threw ==> Valid() && ret == !done
      ensures old(done) ==> !threw && done && delivered == old(delivered)
      ensures !old(done) ==>
        var s := Pump(env, old(Pending()) + chunk, old(delivered));
        && delivered == s.delivered
        && threw == (s.ending == Threw)
        && (!threw ==> done == s.Over())
        && (!threw && !done ==> Pending() == s.rest)
    {
      if done {
        return false, false;
      }
      response := response + chunk;
      assert Pending() == old(Pending()) + chunk;
      while true
        invariant Valid() && !done
        invariant Pump(env, Pending(), delivered) == Pump(env, old(Pending()) + chunk, old(delivered))
        decreases |Pending()|
      {
        NextShrinks(env, Pending());
        var cont;
        ret, cont, threw := Process();
        if threw {
          return;
        }
        if !ret {
          return;
        }
        if !cont {
          return;
        }
      }
    }
  }

  /**
   * The handler at the end of a transfer: chunks are passed on until one call says to stop or
   * throws (src/http.cc:322-333), and what was delivered is what the chunks feed.
   */
  method Receive(env: Env, chunks: seq<Bytes>) returns (delivered: seq<SelectResult>, ending: Ending)
    requires |Flat(chunks)| <= MAX_STRING
    ensures delivered == Feed(env, START, chunks).delivered && ending == Feed(env, START, chunks).ending
  {
    hide Pump, SelectHandler.Valid;
    var handler := new SelectHandler(env);
    for i := 0 to |chunks|
      invariant handler.Valid() && !handler.done && fresh(handler) && handler.env == env
      invariant Feed(env, Run(handler.delivered, handler.Pending(), Open), chunks[i..]) == Feed(env, START, chunks)
      invariant |handler.Pending()| + |Flat(chunks[i..])| <= MAX_STRING
    {
      ghost var s := Pump(env, handler.Pending() + chunks[i], handler.delivered);
      PumpLeaves(env, handler.Pending() + chunks[i], handler.delivered);
      assert chunks[i..][1..] == chunks[i + 1..];
      var ret, threw := handler.DataFunction(chunks[i]);
      if threw || !ret {
        return handler.delivered, if threw then Threw else Closed;
      }
      assert Run(handler.delivered, handler.Pending(), Open) == s;
    }
    assert chunks[|chunks|..] == [];
    return handler.delivered, Open;
  }
}
