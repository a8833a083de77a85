// Percent-encoding (src/utils.cc:219-275), after sections 2.1 and 2.3 of RFC 3986, and the query
// strings built from it (src/utils.cc:650-667).
module UriCodec {
  import opened Octets

  predicate Unreserved(c: Byte) {
    'A' <= c <= 'Z' || 'a' <= c <= 'z' || '0' <= c <= '9' || c == '-' || c == '_' || c == '.' || c == '~'
  }

  const HEX: Bytes := "0123456789ABCDEF"

  predicate IsHexDigit(c: Byte) {
    '0' <= c <= '9' || 'A' <= c <= 'F' || 'a' <= c <= 'f'
  }

  function HexValue(c: Byte): (v: nat)
    requires IsHexDigit(c)
    ensures v < 16
  {
    if '0' <= c <= '9' then c as nat - '0' as nat
    else if 'a' <= c <= 'f' then c as nat - 'a' as nat + 10
    else c as nat - 'A' as nat + 10
  }

  function EncodeByte(c: Byte): Bytes {
    if Unreserved(c) then [c] else ['%', HEX[c as nat / 16], HEX[c as nat % 16]]
  }

  function Encode(value: Bytes): Bytes {
    if value == [] then [] else EncodeByte(value[0]) + Encode(value[1..])
  }

  /** Is there an escape at the front? */
  predicate Escaped(s: Bytes) {
    |s| > 2 && s[0] == '%' && IsHexDigit(s[1]) && IsHexDigit(s[2])
  }

  function Decode(s: Bytes): Bytes
    decreases |s|
  {
    if s == [] then []
    else if Escaped(s) then [Unescaped(s[1], s[2])] + Decode(s[3..])
    else [s[0]] + Decode(s[1..])
  }

  lemma Assoc(a: Bytes, b: Bytes, c: Bytes)
    ensures a + (b + c) == a + b + c
  {
  }

  lemma EncodeAt(value: Bytes, i: nat)
    requires i < |value|
    ensures Encode(value[i..]) == EncodeByte(value[i]) + Encode(value[i + 1..])
  {
    hide EncodeByte;
    assert value[i..][1..] == value[i + 1..];
  }

  method UriEncode(value: Bytes) returns (out: Bytes)
    ensures out == Encode(value)
  {
    hide Encode, EncodeByte;
    out := [];
    for i := 0 to |value|
      invariant out + Encode(value[i..]) == Encode(value)
    {
      EncodeAt(value, i);
      Assoc(out, EncodeByte(value[i]), Encode(value[i + 1..]));
      EncodedByte(value[i]);
      if Unreserved(value[i]) {
        out := out + [value[i]];
      } else {
        out := out + ['%', HEX[value[i] as nat / 16], HEX[value[i] as nat % 16]];
      }
    }
    NothingCoded();
    assert value[|value|..] == [] && out + [] == out;
  }

  lemma EncodedByte(c: Byte)
    ensures EncodeByte(c) == if Unreserved(c) then [c] else ['%', HEX[c as nat / 16], HEX[c as nat % 16]]
  {
  }

  lemma NothingCoded()
    ensures Encode([]) == [] && Decode([]) == [] && Whole([])
  {
  }

  function Unescaped(a: Byte, b: Byte): Byte
    requires IsHexDigit(a) && IsHexDigit(b)
  {
    (HexValue(a) * 16 + HexValue(b)) as char
  }

  lemma DecodeAt(value: Bytes, i: nat)
    requires i < |value|
    ensures if Escaped(value[i..])
            then i + 3 <= |value| && Decode(value[i..]) == [Unescaped(value[i + 1], value[i + 2])] + Decode(value[i + 3..])
            else Decode(value[i..]) == [value[i]] + Decode(value[i + 1..])
    ensures Escaped(value[i..]) <==>
      value[i] == '%' && i + 2 < |value| && IsHexDigit(value[i + 1]) && IsHexDigit(value[i + 2])
  {
    hide IsHexDigit, HexValue;
    var s := value[i..];
    assert s[1..] == value[i + 1..];
    if |s| > 2 {
      assert s[3..] == value[i + 3..];
    }
  }

  method UriDecode(value: Bytes) returns (out: Bytes)
    ensures out == Decode(value)
  {
    hide Decode, Escaped, IsHexDigit, HexValue, Unescaped;
    out := [];
    var i := 0;
    while i < |value|
      invariant i <= |value|
      invariant out + Decode(value[i..]) == Decode(value)
    {
      DecodeAt(value, i);
      if value[i] == '%' && i + 2 < |value| && IsHexDigit(value[i + 1]) && IsHexDigit(value[i + 2]) {
        var c := Unescaped(value[i + 1], value[i + 2]);
        Assoc(out, [c], Decode(value[i + 3..]));
        out := out + [c];
        i := i + 3;
      } else {
        Assoc(out, [value[i]], Decode(value[i + 1..]));
        out := out + [value[i]];
        i := i + 1;
      }
    }
    NothingCoded();
    assert value[|value|..] == [] && out + [] == out;
  }

  lemma HexRoundTrip(v: nat)
    requires v < 16
    ensures IsHexDigit(HEX[v]) && HexValue(HEX[v]) == v
  {
  }

  lemma UnescapedOfHex(c: Byte)
    ensures IsHexDigit(HEX[c as nat / 16]) && IsHexDigit(HEX[c as nat % 16])
    ensures Unescaped(HEX[c as nat / 16], HEX[c as nat % 16]) == c
  {
    HexRoundTrip(c as nat / 16);
    HexRoundTrip(c as nat % 16);
    hide IsHexDigit, HexValue;
  }

  /** An encoded byte at the front decodes to itself, whatever follows. */
  lemma DecodeEncoded(c: Byte, rest: Bytes)
    ensures Decode(EncodeByte(c) + rest) == [c] + Decode(rest)
  {
    UnescapedOfHex(c);
    hide IsHexDigit, HexValue, Unescaped;
    var s := EncodeByte(c) + rest;
    if Unreserved(c) {
      assert s[1..] == rest && s[0] == c != '%';
    } else {
      assert s[3..] == rest;
    }
  }

  /** No escape is begun and not ended: decoding stops at the end of the text. */
  predicate Whole(s: Bytes)
    decreases |s|
  {
    s == [] || (if Escaped(s) then Whole(s[3..]) else s[0] != '%' && Whole(s[1..]))
  }

  lemma {:induction false} WholeAppend(a: Bytes, b: Bytes)
    requires Whole(a)
    ensures Decode(a + b) == Decode(a) + Decode(b)
    ensures Whole(b) ==> Whole(a + b)
    decreases |a|
  {
    hide IsHexDigit, HexValue, Unescaped;
    if a == [] {
      assert a + b == b && Decode(a) + Decode(b) == Decode(b);
    } else if Escaped(a) {
      assert (a + b)[3..] == a[3..] + b;
      WholeAppend(a[3..], b);
      Assoc([Unescaped(a[1], a[2])], Decode(a[3..]), Decode(b));
    } else {
      assert (a + b)[1..] == a[1..] + b;
      WholeAppend(a[1..], b);
      Assoc([a[0]], Decode(a[1..]), Decode(b));
    }
  }

  lemma WholeByte(c: Byte)
    ensures Whole(EncodeByte(c)) && Decode(EncodeByte(c)) == [c]
  {
    DecodeEncoded(c, []);
    assert EncodeByte(c) + [] == EncodeByte(c);
    NothingCoded();
    assert [c] + Decode([]) == [c];
    WholeOne(c);
  }

  lemma WholeOne(c: Byte)
    ensures Whole(EncodeByte(c))
  {
    UnescapedOfHex(c);
    hide IsHexDigit, HexValue, Unescaped;
    var s := EncodeByte(c);
    if Unreserved(c) {
      assert s[1..] == [] && s[0] == c != '%';
    } else {
      assert s[3..] == [];
    }
  }

  /** For all byte strings. */
  lemma {:induction false} RoundTrip(s: Bytes)
    ensures Decode(Encode(s)) == s && Whole(Encode(s))
    decreases |s|
  {
    hide Decode, EncodeByte, Whole;
    if s == [] {
      NothingCoded();
    } else {
      WholeByte(s[0]);
      RoundTrip(s[1..]);
      WholeAppend(EncodeByte(s[0]), Encode(s[1..]));
      assert [s[0]] + s[1..] == s;
    }
  }

  /** Nothing encoded contains a separator. */
  lemma {:induction false} EncodedIsPlain(s: Bytes)
    ensures forall c :: c in Encode(s) ==> Unreserved(c) || c == '%'
    decreases |s|
  {
    if s != [] {
      EncodedIsPlain(s[1..]);
      forall c | c in EncodeByte(s[0]) ensures Unreserved(c) || c == '%' {
        if !Unreserved(s[0]) {
          HexIsPlain(s[0] as nat / 16);
          HexIsPlain(s[0] as nat % 16);
        }
      }
    }
  }

  lemma HexIsPlain(v: nat)
    requires v < 16
    ensures Unreserved(HEX[v])
  {
  }

  // ---------- the characters themselves ----------

  const UPPER: string := "ABCDEFGHIJKLMNOPQRSTUVWXYZ"
  const LOWER: string := "abcdefghijklmnopqrstuvwxyz"
  const DIGITS: string := "0123456789"
  const MARKS: string := "-_.~"

  /** The bytes that stay as they are. */
  predicate Plain(c: Byte) {
    c in UPPER || c in LOWER || c in DIGITS || c in MARKS
  }

  lemma UpperLetters(c: Byte)
    ensures c in UPPER <==> 'A' <= c <= 'Z'
  {
    if 'A' <= c <= 'Z' {
      assert UPPER[c as int - 'A' as int] == c;
    }
  }

  lemma LowerLetters(c: Byte)
    ensures c in LOWER <==> 'a' <= c <= 'z'
  {
    if 'a' <= c <= 'z' {
      assert LOWER[c as int - 'a' as int] == c;
    }
  }

  lemma Digits(c: Byte)
    ensures c in DIGITS <==> '0' <= c <= '9'
  {
    if '0' <= c <= '9' {
      assert DIGITS[c as int - '0' as int] == c;
    }
  }

  lemma Marks(c: Byte)
    ensures c in MARKS <==> c == '-' || c == '_' || c == '.' || c == '~'
  {
    assert MARKS[0] == '-' && MARKS[1] == '_' && MARKS[2] == '.' && MARKS[3] == '~';
  }

  /** The letters, the digits and four marks are plain, and nothing else is. */
  lemma UnreservedIsPlain(c: Byte)
    ensures Unreserved(c) <==> Plain(c)
  {
    UpperLetters(c);
    LowerLetters(c);
    Digits(c);
    Marks(c);
  }

  lemma {:induction false} PlainIsKept(s: Bytes)
    requires forall c :: c in s ==> Plain(c)
    ensures Encode(s) == s
    decreases |s|
  {
    if s != [] {
      UnreservedIsPlain(s[0]);
      assert s[0] in s;
      PlainIsKept(s[1..]);
      assert [s[0]] + s[1..] == s;
    }
  }

  const UPPER_DIGITS: Bytes := "0123456789ABCDEF"
  const LOWER_DIGITS: Bytes := "0123456789abcdef"

  /** Any other byte becomes a percent sign and its two upper-case digits. */
  lemma OthersAreEscaped(c: Byte, rest: Bytes)
    requires !Plain(c)
    ensures Encode([c] + rest) == ['%', UPPER_DIGITS[c as int / 16], UPPER_DIGITS[c as int % 16]] + Encode(rest)
  {
    UnreservedIsPlain(c);
    assert ([c] + rest)[1..] == rest;
  }

  /** Escapes are read alike in both cases. */
  lemma EscapesOfBothCases(v: Byte, high: Byte, low: Byte, rest: Bytes)
    requires high == UPPER_DIGITS[v as int / 16] || high == LOWER_DIGITS[v as int / 16]
    requires low == UPPER_DIGITS[v as int % 16] || low == LOWER_DIGITS[v as int % 16]
    ensures Decode(['%', high, low] + rest) == [v] + Decode(rest)
  {
    DigitOfBothCases(v as int / 16, high);
    DigitOfBothCases(v as int % 16, low);
    hide IsHexDigit, HexValue;
    var s := ['%', high, low] + rest;
    assert s[3..] == rest;
  }

  lemma DigitOfBothCases(v: nat, d: Byte)
    requires v < 16 && (d == UPPER_DIGITS[v] || d == LOWER_DIGITS[v])
    ensures IsHexDigit(d) && HexValue(d) == v
  {
  }

  predicate IsDigit(c: Byte) {
    c in UPPER_DIGITS || c in LOWER_DIGITS
  }

  /** Text in which no percent sign is followed by two digits decodes to itself. */
  lemma {:induction false} StrayIsKept(s: Bytes)
    requires forall i :: 0 <= i < |s| - 2 && s[i] == '%' ==> !IsDigit(s[i + 1]) || !IsDigit(s[i + 2])
    ensures Decode(s) == s
    decreases |s|
  {
    if s != [] {
      if |s| > 2 {
        HexIsDigit(s[1]);
        HexIsDigit(s[2]);
      }
      var t := s[1..];
      forall i | 0 <= i < |t| - 2 && t[i] == '%' ensures !IsDigit(t[i + 1]) || !IsDigit(t[i + 2]) {
        assert s[i + 1] == t[i] && s[i + 2] == t[i + 1] && s[i + 3] == t[i + 2];
      }
      StrayIsKept(t);
      assert [s[0]] + t == s;
    }
  }

  lemma HexIsDigit(c: Byte)
    ensures IsHexDigit(c) <==> IsDigit(c)
  {
    if '0' <= c <= '9' {
      assert UPPER_DIGITS[c as int - '0' as int] == c;
    } else if 'A' <= c <= 'F' {
      assert UPPER_DIGITS[10 + c as int - 'A' as int] == c;
    } else if 'a' <= c <= 'f' {
      assert LOWER_DIGITS[10 + c as int - 'a' as int] == c;
    }
  }

  // ---------- paths ----------

  /** Each run of slashes made one. */
  function Collapse(p: Bytes): Bytes {
    if |p| < 2 then p
    else if p[0] == '/' && p[1] == '/' then Collapse(p[1..])
    else [p[0]] + Collapse(p[1..])
  }

  /** Where std::getline stops: the next slash, or the end. */
  function TokenEnd(p: Bytes): (n: nat)
    ensures n <= |p| && '/' !in p[..n] && (n < |p| ==> p[n] == '/')
  {
    if p == [] || p[0] == '/' then 0
    else
      assert forall k :: 0 < k <= 1 + TokenEnd(p[1..]) ==> p[..k] == [p[0]] + p[1..][..k - 1];
      1 + TokenEnd(p[1..])
  }

  /** What follows the token that ends at p[n]. */
  function Following(p: Bytes, n: nat): Bytes {
    if n < |p| then p[n + 1..] else []
  }

  /** The non-empty tokens of p, a slash before each: what the loop of EncodePath appends to earlier tokens. */
  function Behind(p: Bytes): Bytes
    decreases |p|
  {
    if p == [] then []
    else
      var n := TokenEnd(p);
      (if n == 0 then [] else "/" + p[..n]) + Behind(Following(p, n))
  }

  /** The same with no earlier token. */
  function Front(p: Bytes): Bytes
    decreases |p|
  {
    if p == [] then []
    else
      var n := TokenEnd(p);
      if n == 0 then Front(Following(p, n)) else p[..n] + Behind(Following(p, n))
  }

  predicate EndsInSlash(p: Bytes) {
    p == [] || p[|p| - 1] == '/'
  }

  function Slash(b: bool): Bytes {
    if b then "/" else []
  }

  lemma {:induction false} CollapseToken(t: Bytes, q: Bytes)
    requires '/' !in t
    ensures Collapse(t + q) == t + Collapse(q)
    decreases |t|
  {
    if t == [] {
      assert t + q == q;
    } else {
      assert (t + q)[1..] == t[1..] + q;
      CollapseToken(t[1..], q);
      assert t == [t[0]] + t[1..];
    }
  }

  /** A path that begins with a token. */
  lemma CollapseWord(p: Bytes)
    requires p != [] && p[0] != '/'
    ensures var n := TokenEnd(p);
      n > 0 && Collapse(p) == p[..n] + (if n < |p| then Collapse("/" + Following(p, n)) else [])
  {
    var n := TokenEnd(p);
    WordEnds(p);
    hide Collapse, TokenEnd;
    CutAt(p, n);
    CollapseToken(p[..n], p[n..]);
    if n == |p| {
      CollapseNothing();
    }
  }

  lemma CutAt(p: Bytes, n: nat)
    requires n <= |p|
    ensures p == p[..n] + p[n..]
    ensures if n < |p| then p[n] == '/' ==> p[n..] == "/" + Following(p, n) else p[n..] == []
  {
  }

  lemma WordEnds(p: Bytes)
    requires p != [] && p[0] != '/'
    ensures var n := TokenEnd(p); n > 0 && EndsInSlash(p) == (n < |p| && EndsInSlash(Following(p, n)))
  {
    var n := TokenEnd(p);
    assert n > 0;
    hide TokenEnd;
    if n == |p| {
      assert p[..n] == p && p[|p| - 1] in p;
    }
  }

  lemma CollapseSlash(p: Bytes)
    ensures Collapse("/" + p) == if p != [] && p[0] == '/' then Collapse("/" + p[1..]) else "/" + Collapse(p)
  {
    var s: Bytes := "/" + p;
    assert s[1..] == p;
    if p != [] && p[0] == '/' {
      assert p == "/" + p[1..];
    }
  }

  /** Behind a token, the rest of a path collapses to the joined tokens and the last slash. */
  lemma {:induction false} BehindCollapses(p: Bytes)
    ensures Collapse("/" + p) == Behind(p) + Slash(EndsInSlash(p))
    decreases |p|
  {
    hide Collapse;
    CollapseSlash(p);
    if p == [] {
      CollapseNothing();
    } else if p[0] == '/' {
      assert TokenEnd(p) == 0 && Following(p, 0) == p[1..];
      BehindCollapses(p[1..]);
      assert [] + Behind(p[1..]) == Behind(p[1..]);
    } else {
      WordCollapses(p);
      Assoc("/", p[..TokenEnd(p)], Behind(Following(p, TokenEnd(p))));
      Assoc("/", p[..TokenEnd(p)] + Behind(Following(p, TokenEnd(p))), Slash(EndsInSlash(p)));
    }
  }

  lemma CollapseNothing()
    ensures Collapse([]) == []
  {
  }

  lemma {:induction false} WordCollapses(p: Bytes)
    requires p != [] && p[0] != '/'
    ensures Collapse(p) == p[..TokenEnd(p)] + Behind(Following(p, TokenEnd(p))) + Slash(EndsInSlash(p))
    decreases |p|, 0
  {
    hide Collapse;
    var n := TokenEnd(p);
    var rest := Following(p, n);
    CollapseWord(p);
    WordEnds(p);
    if n < |p| {
      BehindCollapses(rest);
      Assoc(p[..n], Behind(rest), Slash(EndsInSlash(p)));
    }
  }

  /** The front of a path: leading slashes become one. */
  lemma {:induction false} FrontCollapses(p: Bytes)
    ensures Collapse("/" + p) == "/" + Front(p) + Slash(EndsInSlash(p) && Front(p) != [])
    decreases |p|
  {
    hide Collapse;
    CollapseSlash(p);
    if p == [] {
      CollapseNothing();
    } else if p[0] == '/' {
      assert TokenEnd(p) == 0 && Following(p, 0) == p[1..];
      FrontCollapses(p[1..]);
    } else {
      WordCollapses(p);
      assert Front(p)[0] == p[0];
      Assoc("/", Front(p), Slash(EndsInSlash(p)));
    }
  }

  /** The slashes EncodePath puts around the joined tokens. */
  function Framed(path: Bytes, body: Bytes): Bytes
    requires path != []
  {
    var front: Bytes := if path[0] == '/' then "/" + body else body;
    if path[|path| - 1] == '/' && front != "/" then front + "/" else front
  }

  lemma FramedCollapses(path: Bytes)
    requires path != []
    ensures Framed(path, Front(path)) == Collapse(path)
  {
    hide Collapse;
    if path[0] == '/' {
      var rest := path[1..];
      assert path == "/" + rest && TokenEnd(path) == 0 && Following(path, 0) == rest;
      FrontCollapses(rest);
      assert ("/" + Front(rest))[1..] == Front(rest);
    } else {
      CollapseWord(path);
      WordCollapses(path);
      assert Front(path)[0] == path[0];
      assert Front(path) != "/";
    }
  }

  /** Every byte encoded but the slashes. */
  function EncodeKept(p: Bytes): Bytes {
    if p == [] then [] else (if p[0] == '/' then "/" else EncodeByte(p[0])) + EncodeKept(p[1..])
  }

  lemma {:induction false} KeptAppend(a: Bytes, b: Bytes)
    ensures EncodeKept(a + b) == EncodeKept(a) + EncodeKept(b)
    decreases |a|
  {
    hide EncodeByte;
    if a == [] {
      assert a + b == b && EncodeKept(a) + EncodeKept(b) == EncodeKept(b);
    } else {
      assert (a + b)[1..] == a[1..] + b;
      KeptAppend(a[1..], b);
      Assoc(if a[0] == '/' then "/" else EncodeByte(a[0]), EncodeKept(a[1..]), EncodeKept(b));
    }
  }

  lemma {:induction false} KeptToken(t: Bytes)
    requires '/' !in t
    ensures EncodeKept(t) == Encode(t)
    decreases |t|
  {
    hide EncodeByte;
    if t != [] {
      KeptToken(t[1..]);
    }
  }

  lemma SlashIsWhole()
    ensures Whole("/") && Decode("/") == "/" && EncodeKept("/") == "/"
  {
    var s: Bytes := "/";
    assert s[1..] == [];
  }

  /** Decoding gives back every path, slashes and all. */
  lemma {:induction false} KeptRoundTrip(p: Bytes)
    ensures Decode(EncodeKept(p)) == p && Whole(EncodeKept(p))
    decreases |p|
  {
    hide Decode, EncodeByte, Whole;
    if p == [] {
      NothingCoded();
    } else {
      WholeByte(p[0]);
      SlashIsWhole();
      KeptRoundTrip(p[1..]);
      WholeAppend(if p[0] == '/' then "/" else EncodeByte(p[0]), EncodeKept(p[1..]));
      assert [p[0]] + p[1..] == p;
    }
  }

  /** `out` is the encoding of `body`, which does not begin with a slash. */
  predicate Spells(out: Bytes, body: Bytes) {
    && out == EncodeKept(body)
    && (out == [] <==> body == [])
    && (out != [] ==> out[0] != '/' && body[0] != '/')
  }

  lemma SpellsNothing()
    ensures Spells([], [])
  {
  }

  lemma SpellsToken(token: Bytes)
    requires token != [] && '/' !in token
    ensures Spells(Encode(token), token)
  {
    KeptToken(token);
    EncodedIsPlain(token);
    FirstOfEncoded(token);
    assert Encode(token)[0] in Encode(token);
  }

  lemma FirstOfEncoded(token: Bytes)
    requires token != []
    ensures Encode(token) != []
  {
    assert |EncodeByte(token[0])| > 0;
  }

  lemma SpellsMore(out: Bytes, body: Bytes, token: Bytes)
    requires Spells(out, body) && out != [] && token != [] && '/' !in token
    ensures Spells(out + "/" + Encode(token), body + "/" + token)
  {
    SpellsToken(token);
    SlashIsWhole();
    KeptAppend(body, "/");
    KeptAppend(body + "/", token);
    hide EncodeKept;
  }

  lemma FramedEncodes(path: Bytes, out: Bytes, body: Bytes)
    requires path != [] && Spells(out, body)
    ensures Framed(path, out) == EncodeKept(Framed(path, body))
  {
    SlashIsWhole();
    KeptAppend("/", body);
    KeptAppend("/" + body, "/");
    KeptAppend(body, "/");
    hide EncodeKept;
    assert ("/" + out)[1..] == out && ("/" + body)[1..] == body;
  }

  /** One turn of the loop of EncodePath keeps what it is going to build. */
  lemma FrontStep(rest: Bytes, body: Bytes)
    requires rest != []
    ensures var n := TokenEnd(rest);
      var token, next := rest[..n], Following(rest, n);
      var body' := if token == [] then body else if body == [] then token else body + "/" + token;
      (if body == [] then Front(rest) else body + Behind(rest)) ==
      (if body' == [] then Front(next) else body' + Behind(next))
  {
    var n := TokenEnd(rest);
    var token, next := rest[..n], Following(rest, n);
    FrontUnfold(rest);
    hide TokenEnd, Front, Behind, Following;
    if token == [] {
      assert [] + Behind(next) == Behind(next);
    } else {
      Assoc(body, "/" + token, Behind(next));
      Assoc(body, "/", token);
    }
  }

  lemma FrontUnfold(p: Bytes)
    requires p != []
    ensures var n := TokenEnd(p);
      && Behind(p) == (if n == 0 then [] else "/" + p[..n]) + Behind(Following(p, n))
      && Front(p) == if n == 0 then Front(Following(p, n)) else p[..n] + Behind(Following(p, n))
  {
    hide TokenEnd, Following;
  }

  /**
   * EncodePath (src/utils.cc:260-275): the path with each run of slashes made one and every other
   * byte encoded, so that decoding gives the collapsed path. The first and last bytes are read, so
   * the path must not be empty.
   */
  method EncodePath(path: Bytes) returns (out: Bytes)
    requires path != []
    ensures out == EncodeKept(Collapse(path))
    ensures Decode(out) == Collapse(path)
  {
    hide Decode, Whole, EncodeKept;
    out := [];
    ghost var body: Bytes := [];
    var rest := path;
    SpellsNothing();
    while rest != []
      invariant Spells(out, body)
      invariant (if body == [] then Front(rest) else body + Behind(rest)) == Front(path)
      decreases |rest|
    {
      hide Front, Behind, TokenEnd, Spells;
      FrontStep(rest, body);
      var n := TokenEnd(rest);
      var token := rest[..n];
      if token != [] {
        var encoded := UriEncode(token);
        SpellsToken(token);
        SpellsEmpty(out, body);
        if out != [] {
          SpellsMore(out, body, token);
          out := out + "/" + encoded;
          body := body + "/" + token;
        } else {
          out, body := encoded, token;
        }
      }
      rest := if n < |rest| then rest[n + 1..] else [];
    }
    assert body + [] == body && Behind([]) == [] == Front([]);
    FramedCollapses(path);
    FramedEncodes(path, out, body);
    KeptRoundTrip(Collapse(path));
    hide Framed, Front, Behind, Spells, Collapse;
    out := Frame(path, out);
  }

  /** The end of EncodePath: the slashes around the joined tokens. */
  method Frame(path: Bytes, body: Bytes) returns (out: Bytes)
    requires path != []
    ensures out == Framed(path, body)
  {
    out := body;
    if path[0] == '/' {
      out := "/" + out;
    }
    if path[|path| - 1] == '/' && out != "/" {
      out := out + "/";
    }
  }

  lemma SpellsEmpty(out: Bytes, body: Bytes)
    requires Spells(out, body)
    ensures out == [] <==> body == []
  {
  }
}
