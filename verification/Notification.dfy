// Line framing of bucket notifications (src/baseclient.cc:1256-1285): records arrive as lines of
// JSON, cut anywhere by the transport.
module Notification {
  import opened Wrappers
  import opened Chunks
  import opened Texts

  /** What the JSON reader makes of a line: an exception, an object without "Records", or a list. */
  datatype Parsed<R> = Malformed | NoRecords | Records(list: seq<R>)

  /** How a call ends: all complete lines handled, the callback refused, or the JSON reader threw. */
  datatype Status = Open | Refused | Threw

  /** The foreign parts: the JSON reader, and the caller's wish to go on after some record lists. */
  datatype Env<!R> = Env(parse: string -> Parsed<R>, goOn: seq<seq<R>> -> bool)

  datatype State<R> = State(calls: seq<seq<R>>, data: string, status: Status)

  // ---------- the meaning of a stream ----------

  /** The lines of a stream that a newline ends. */
  function Lines(stream: string): seq<string> {
    match Find(stream)
    case None => []
    case Some(pos) => [stream[..pos]] + Lines(stream[pos + 1..])
  }

  /** What follows the last newline. */
  function Tail(stream: string): string {
    match Find(stream)
    case None => stream
    case Some(pos) => Tail(stream[pos + 1..])
  }

  /** The first newline. */
  function Find(s: string): (r: Option<nat>)
    ensures r.Some? ==> r.value < |s| && s[r.value] == '\n' && '\n' !in s[..r.value]
    ensures r.None? ==> '\n' !in s
  {
    if s == "" then None
    else if s[0] == '\n' then Some(0)
    else
      var rest := Find(s[1..]);
      if rest.None? then None
      else
        assert s[..rest.value + 1] == [s[0]] + s[1..][..rest.value];
        Some(rest.value + 1)
  }

  /** The record lists to hand over for some lines, up to a refusal or a malformed line. */
  function Calls<R>(env: Env<R>, lines: seq<string>, calls: seq<seq<R>>): (seq<seq<R>>, Status)
    decreases |lines|
  {
    if lines == [] then (calls, Open)
    else
      var line := Trim(lines[0]);
      if line == "" then Calls(env, lines[1..], calls)
      else
        match env.parse(line)
        case Malformed => (calls, Threw)
        case NoRecords => Calls(env, lines[1..], calls)
        case Records(list) =>
          if list == [] then Calls(env, lines[1..], calls)
          else if env.goOn(calls + [list]) then Calls(env, lines[1..], calls + [list])
          else (calls + [list], Refused)
  }

  lemma FindUnique(s: string, pos: nat)
    requires pos < |s| && s[pos] == '\n' && '\n' !in s[..pos]
    ensures Find(s) == Some(pos)
  {
    assert s[pos] in s;
  }

  lemma LinesFirst(s: string, pos: nat)
    requires Find(s) == Some(pos)
    ensures pos < |s| && Lines(s) == [s[..pos]] + Lines(s[pos + 1..]) && Tail(s) == Tail(s[pos + 1..])
  {
  }

  lemma NoLines(s: string)
    requires Find(s) == None
    ensures Lines(s) == [] && Tail(s) == s
  {
  }

  /** Cutting a stream in two: the tail of the first part runs on into the second. */
  lemma {:induction false} LinesAppend(a: string, b: string)
    ensures Lines(a + b) == Lines(a) + Lines(Tail(a) + b)
    ensures Tail(a + b) == Tail(Tail(a) + b)
    decreases |a|
  {
    hide Lines, Tail;
    match Find(a)
    case None =>
      NoLines(a);
    case Some(pos) =>
      var rest := a[pos + 1..];
      assert (a + b)[..pos] == a[..pos] && (a + b)[pos + 1..] == rest + b;
      FindUnique(a + b, pos);
      LinesFirst(a, pos);
      LinesFirst(a + b, pos);
      LinesAppend(rest, b);
      hide Find;
      assert [a[..pos]] + (Lines(rest) + Lines(Tail(rest) + b)) == [a[..pos]] + Lines(rest) + Lines(Tail(rest) + b);
  }

  function Ended(lines: seq<string>): string {
    if lines == [] then "" else lines[0] + "\n" + Ended(lines[1..])
  }

  lemma EndedFirst(line: string, lines: seq<string>)
    ensures Ended([line] + lines) == line + "\n" + Ended(lines)
  {
    assert ([line] + lines)[1..] == lines;
  }

  lemma CutAtNewline(s: string, pos: nat, a: string, b: string)
    requires pos < |s| && s[pos] == '\n' && s[pos + 1..] == a + b
    ensures s[..pos] + "\n" + a + b == s
  {
  }

  /** The lines and the tail are the stream cut at its newlines, all of them and no other. */
  lemma {:induction false} LinesAreTheStream(stream: string)
    ensures Ended(Lines(stream)) + Tail(stream) == stream
    ensures '\n' !in Tail(stream) && forall i :: 0 <= i < |Lines(stream)| ==> '\n' !in Lines(stream)[i]
    decreases |stream|
  {
    match Find(stream)
    case None =>
    case Some(pos) =>
      var rest := stream[pos + 1..];
      LinesAreTheStream(rest);
      assert Lines(stream) == [stream[..pos]] + Lines(rest) && Tail(stream) == Tail(rest);
      hide Lines, Tail, Find;
      EndedFirst(stream[..pos], Lines(rest));
      CutAtNewline(stream, pos, Ended(Lines(rest)), Tail(rest));
  }

  /** Has this line records for the callback? */
  predicate HasRecords<R>(env: Env<R>, line: string) {
    Trim(line) != "" && env.parse(Trim(line)).Records? && env.parse(Trim(line)).list != []
  }

  predicate IsMalformed<R>(env: Env<R>, line: string) {
    Trim(line) != "" && env.parse(Trim(line)).Malformed?
  }

  /** The calls are the whole record lists of the lines at some places, and of no other handled line. */
  ghost predicate FromPlaces<R>(env: Env<R>, lines: seq<string>, n: nat, places: seq<nat>, calls: seq<seq<R>>) {
    && n <= |lines| && |places| == |calls|
    && (forall k :: 0 <= k < |places| ==>
          && places[k] < n && HasRecords(env, lines[places[k]])
          && calls[k] == env.parse(Trim(lines[places[k]])).list)
    && (forall k, m :: 0 <= k < m < |places| ==> places[k] < places[m])
    && (forall i :: 0 <= i < n && HasRecords(env, lines[i]) ==> i in places)
    && (forall i :: 0 <= i < n ==> !IsMalformed(env, lines[i]))
  }

  /** Why the handling of lines ended after n of them. */
  ghost predicate EndsAt<R>(env: Env<R>, lines: seq<string>, n: nat, calls: seq<seq<R>>, status: Status) {
    && n <= |lines|
    && (forall m :: 0 < m < |calls| ==> env.goOn(calls[..m]))
    && match status
       case Open => n == |lines| && (calls != [] ==> env.goOn(calls))
       case Refused => n > 0 && HasRecords(env, lines[n - 1]) && calls != [] && !env.goOn(calls)
       case Threw => n < |lines| && IsMalformed(env, lines[n]) && (calls != [] ==> env.goOn(calls))
  }

  lemma PlacesStep<R>(env: Env<R>, lines: seq<string>, n: nat, places: seq<nat>, calls: seq<seq<R>>)
    requires FromPlaces(env, lines, n, places, calls) && n < |lines| && !IsMalformed(env, lines[n])
    ensures HasRecords(env, lines[n]) ==>
      FromPlaces(env, lines, n + 1, places + [n], calls + [env.parse(Trim(lines[n])).list])
    ensures !HasRecords(env, lines[n]) ==> FromPlaces(env, lines, n + 1, places, calls)
  {
    hide Trim;
    if HasRecords(env, lines[n]) {
      var more := places + [n];
      assert more[|places|] == n;
      forall i | 0 <= i < n + 1 && HasRecords(env, lines[i]) ensures i in more {
        if i < n {
          assert i in places;
        }
      }
    }
  }

  /**
   * The callback is called once for each line with records, in order, with the whole list, up to
   * the first list it refuses or the first malformed line.
   */
  lemma {:induction false} CallsByPlace<R>(env: Env<R>, lines: seq<string>, n: nat, places: seq<nat>, calls: seq<seq<R>>)
      returns (end: nat, all: seq<nat>)
    requires FromPlaces(env, lines, n, places, calls)
    requires forall m :: 0 < m <= |calls| ==> env.goOn(calls[..m])
    ensures var (handed, status) := Calls(env, lines[n..], calls);
      FromPlaces(env, lines, end, all, handed) && EndsAt(env, lines, end, handed, status)
    decreases |lines| - n
  {
    hide Trim, FromPlaces;
    end, all := n, places;
    assert n <= |lines| by {
      PlacesBound(env, lines, n, places, calls);
    }
    assert calls == calls[..|calls|];
    if n < |lines| && !IsMalformed(env, lines[n]) {
      PlacesStep(env, lines, n, places, calls);
      assert lines[n..][0] == lines[n] && lines[n..][1..] == lines[n + 1..];
      if !HasRecords(env, lines[n]) {
        end, all := CallsByPlace(env, lines, n + 1, places, calls);
      } else {
        var more := calls + [env.parse(Trim(lines[n])).list];
        assert more[..|more|] == more;
        assert forall m :: 0 < m <= |calls| ==> more[..m] == calls[..m];
        end, all := n + 1, places + [n];
        if env.goOn(more) {
          end, all := CallsByPlace(env, lines, n + 1, places + [n], more);
        }
      }
    }
  }

  lemma PlacesBound<R>(env: Env<R>, lines: seq<string>, n: nat, places: seq<nat>, calls: seq<seq<R>>)
    requires FromPlaces(env, lines, n, places, calls)
    ensures n <= |lines|
  {
  }

  /** The same from the start. */
  lemma CallsFromStart<R>(env: Env<R>, lines: seq<string>) returns (end: nat, places: seq<nat>)
    ensures var (handed, status) := Calls(env, lines, []);
      FromPlaces(env, lines, end, places, handed) && EndsAt(env, lines, end, handed, status)
  {
    var none: seq<nat>, calls: seq<seq<R>> := [], [];
    assert lines[0..] == lines;
    end, places := CallsByPlace(env, lines, 0, none, calls);
  }

  lemma {:induction false} CallsAppend<R>(env: Env<R>, a: seq<string>, b: seq<string>, calls: seq<seq<R>>)
    ensures var (first, status) := Calls(env, a, calls);
      Calls(env, a + b, calls) == if status == Open then Calls(env, b, first) else (first, status)
    decreases |a|
  {
    hide Trim;
    if a == [] {
      assert a + b == b;
    } else {
      assert (a + b)[1..] == a[1..] + b;
      var line := Trim(a[0]);
      var next := if line != "" && env.parse(line).Records? && env.parse(line).list != [] then calls + [env.parse(line).list] else calls;
      CallsAppend(env, a[1..], b, next);
    }
  }

  lemma {:induction false} TailHasNoLine(s: string)
    ensures Lines(Tail(s)) == [] && Tail(Tail(s)) == Tail(s)
    decreases |s|
  {
    match Find(s)
    case None =>
    case Some(pos) => TailHasNoLine(s[pos + 1..]);
  }

  // ---------- the data function ----------

  class Listener<R> {
    const env: Env<R>

    var data: string            // the captured buffer: the line not yet ended
    var calls: seq<seq<R>>     // the record lists func was called with, in order

    constructor (env: Env<R>)
      ensures this.env == env && data == "" && calls == []
    {
      this.env := env;
      data, calls := "", [];
    }

    /** One call of the data function: the record lists of the lines now complete; the rest is kept. */
    method DataFunction(chunk: string) returns (status: Status)
      modifies this
      ensures (calls, status) == Calls(env, Lines(old(data) + chunk), old(calls))
      ensures status == Open ==> data == Tail(old(data) + chunk)
    {
      data := data + chunk;
      ghost var all := data;
      while true
        invariant Calls(env, Lines(data), calls) == Calls(env, Lines(all), old(calls))
        invariant Tail(data) == Tail(all)
        decreases |data|
      {
        var pos := Find(data);
        if pos.None? {
          return Open;
        }
        ghost var lines := Lines(data);
        var line := data[..pos.value];
        data := data[pos.value + 1..];
        assert lines[0] == line && lines[1..] == Lines(data);
        line := Trim(line);
        if line == "" {
          continue;
        }
        var json := env.parse(line);
        match json
        case Malformed =>
          return Threw;
        case NoRecords =>
        case Records(list) =>
          if list != [] {
            calls := calls + [list];
            if !env.goOn(calls) {
              return Refused;
            }
          }
      }
    }
  }

  // ---------- whole streams ----------

  /** A chunk after another, until one call does not end well. */
  function Hear<R>(env: Env<R>, s: State<R>, chunks: seq<string>): State<R>
    decreases |chunks|
  {
    if chunks == [] || s.status != Open then s
    else
      var (calls, status) := Calls(env, Lines(s.data + chunks[0]), s.calls);
      Hear(env, State(calls, Tail(s.data + chunks[0]), status), chunks[1..])
  }

  lemma {:induction false} HearFrom<R>(env: Env<R>, s: State<R>, chunks: seq<string>)
    requires s.status == Open && Lines(s.data) == [] && Tail(s.data) == s.data
    ensures var t := Hear(env, s, chunks);
      && (t.calls, t.status) == Calls(env, Lines(s.data + Flat(chunks)), s.calls)
      && (t.status == Open ==> t.data == Tail(s.data + Flat(chunks)))
    decreases |chunks|
  {
    if chunks == [] {
      assert s.data + Flat(chunks) == s.data;
    } else {
      var now, later := s.data + chunks[0], Flat(chunks[1..]);
      assert s.data + Flat(chunks) == now + later;
      LinesAppend(now, later);
      TailHasNoLine(now);
      CallsAppend(env, Lines(now), Lines(Tail(now) + later), s.calls);
      var (calls, status) := Calls(env, Lines(now), s.calls);
      if status == Open {
        HearFrom(env, State(calls, Tail(now), status), chunks[1..]);
      }
    }
  }

  /**
   * However the stream is cut, the callback sees the record lists of its complete lines, in order,
   * up to the first refusal or malformed line, and what stays buffered is the unfinished line.
   */
  lemma ChunksDoNotMatter<R>(env: Env<R>, chunks: seq<string>)
    ensures var t, stream := Hear(env, State([], "", Open), chunks), Flat(chunks);
      && (t.calls, t.status) == Calls(env, Lines(stream), [])
      && (t.status == Open ==> t.data == Tail(stream))
  {
    assert "" + Flat(chunks) == Flat(chunks);
    HearFrom(env, State([], "", Open), chunks);
  }

  /** The listener at the end of a transfer: chunks are passed on until one call does not end well. */
  method Receive<R>(env: Env<R>, chunks: seq<string>) returns (state: State<R>)
    ensures (state.calls, state.status) == Calls(env, Lines(Flat(chunks)), [])
    ensures state.status == Open ==> state.data == Tail(Flat(chunks))
  {
    hide Lines, Tail, Calls;
    ChunksDoNotMatter(env, chunks);
    var listener := new Listener(env);
    for i := 0 to |chunks|
      invariant fresh(listener) && listener.env == env
      invariant Hear(env, State(listener.calls, listener.data, Open), chunks[i..]) == Hear(env, State([], "", Open), chunks)
    {
      ghost var data, calls := listener.data, listener.calls;
      HearFirst(env, State(calls, data, Open), chunks[i..]);
      assert chunks[i..][1..] == chunks[i + 1..];
      var status := listener.DataFunction(chunks[i]);
      if status != Open {
        return State(listener.calls, listener.data, status);
      }
    }
    assert chunks[|chunks|..] == [];
    return State(listener.calls, listener.data, Open);
  }

  lemma HearFirst<R>(env: Env<R>, s: State<R>, chunks: seq<string>)
    requires chunks != [] && s.status == Open
    ensures var (calls, status) := Calls(env, Lines(s.data + chunks[0]), s.calls);
      && Hear(env, s, chunks) == Hear(env, State(calls, Tail(s.data + chunks[0]), status), chunks[1..])
      && (status != Open ==> Hear(env, s, chunks) == State(calls, Tail(s.data + chunks[0]), status))
  {
    hide Calls, Lines, Tail;
  }
}
