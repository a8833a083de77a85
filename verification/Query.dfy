// Query strings (src/utils.cc:650-667): what is written can be read back, pair by pair.
module Query {
  import opened Octets
  import opened UriCodec

  type Pair = (Bytes, Bytes)

  function Field(p: Pair): Bytes {
    Encode(p.0) + "=" + Encode(p.1)
  }

  /** The fields of the pairs, joined by '&'. */
  function QueryOf(pairs: seq<Pair>): Bytes {
    if pairs == [] then []
    else if |pairs| == 1 then Field(pairs[0])
    else Field(pairs[0]) + "&" + QueryOf(pairs[1..])
  }

  /** The first place of c, or the end. */
  function IndexOf(s: Bytes, c: Byte): (n: nat)
    ensures n <= |s|
  {
    if s == [] || s[0] == c then 0 else 1 + IndexOf(s[1..], c)
  }

  function ParseField(f: Bytes): Pair {
    var n := IndexOf(f, '=');
    (Decode(f[..n]), Decode(if n < |f| then f[n + 1..] else []))
  }

  /** Splitting on '&' and '=' and decoding. */
  function Parse(q: Bytes): seq<Pair>
    decreases |q|
  {
    if q == [] then []
    else
      var n := IndexOf(q, '&');
      [ParseField(q[..n])] + (if n < |q| then Parse(q[n + 1..]) else [])
  }

  lemma {:induction false} IndexAfter(a: Bytes, c: Byte, b: Bytes)
    requires c !in a
    ensures IndexOf(a + [c] + b, c) == |a| && IndexOf(a, c) == |a|
    decreases |a|
  {
    if a != [] {
      assert (a + [c] + b)[1..] == a[1..] + [c] + b;
      IndexAfter(a[1..], c, b);
    }
  }

  lemma EncodedHas(s: Bytes)
    ensures '=' !in Encode(s) && '&' !in Encode(s)
  {
    EncodedIsPlain(s);
  }

  lemma FieldRoundTrip(p: Pair)
    ensures ParseField(Field(p)) == p && '&' !in Field(p) && Field(p) != []
  {
    EncodedHas(p.0);
    EncodedHas(p.1);
    RoundTrip(p.0);
    RoundTrip(p.1);
    hide Encode, Decode, IndexOf;
    IndexAfter(Encode(p.0), '=', Encode(p.1));
    var f := Field(p);
    assert f[..|Encode(p.0)|] == Encode(p.0) && f[|Encode(p.0)| + 1..] == Encode(p.1);
  }

  lemma ParseFirst(f: Bytes, q: Bytes)
    requires f != [] && '&' !in f
    ensures Parse(f) == [ParseField(f)]
    ensures Parse(f + "&" + q) == [ParseField(f)] + Parse(q)
  {
    IndexAfter(f, '&', q);
    hide IndexOf, ParseField;
    var s: Bytes := f + "&" + q;
    assert s[..|f|] == f && s[|f| + 1..] == q && f[..|f|] == f;
  }

  /** Reading a query string back gives exactly the pairs, in order. */
  lemma {:induction false} QueryRoundTrip(pairs: seq<Pair>)
    ensures Parse(QueryOf(pairs)) == pairs
    decreases |pairs|
  {
    hide Field, ParseField, Parse;
    if pairs == [] {
      NothingToParse();
    } else {
      FieldRoundTrip(pairs[0]);
      ParseFirst(Field(pairs[0]), QueryOf(pairs[1..]));
      QueryRoundTrip(pairs[1..]);
      assert pairs == [pairs[0]] + pairs[1..];
    }
  }

  lemma NothingToParse()
    ensures Parse([]) == []
  {
  }

  /** How the writing loop builds the string from the front. */
  function Continued(out: Bytes, pairs: seq<Pair>): Bytes {
    if out == [] then QueryOf(pairs) else if pairs == [] then out else out + "&" + QueryOf(pairs)
  }

  lemma ContinuedStep(out: Bytes, pairs: seq<Pair>)
    requires pairs != []
    ensures var next := if out == [] then Field(pairs[0]) else out + "&" + Field(pairs[0]);
      next != [] && Continued(next, pairs[1..]) == Continued(out, pairs)
  {
    FieldRoundTrip(pairs[0]);
    hide Field;
    var f := Field(pairs[0]);
    if |pairs| > 1 {
      assert out + "&" + (f + "&" + QueryOf(pairs[1..])) == out + "&" + f + "&" + QueryOf(pairs[1..]);
    }
  }

  /** Two pairs, written out. */
  lemma TwoPairs(a: Bytes, b: Bytes, c: Bytes, d: Bytes)
    ensures QueryOf([(a, b), (c, d)]) == Encode(a) + "=" + Encode(b) + "&" + Encode(c) + "=" + Encode(d)
  {
    hide Encode;
    assert [(a, b), (c, d)][1..] == [(c, d)];
  }
}
