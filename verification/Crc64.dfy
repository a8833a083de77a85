// CRC-64/NVME as src/utils.cc computes it: the table-driven loop, the shift register it
// stands for, the division in normal bit order, and which corruptions it always detects.

/** Iterating a function, for any state type. */
module Iteration {
  function Iterate<T>(f: T -> T, s: T, n: nat): T
    decreases n
  {
    if n == 0 then s else Iterate(f, f(s), n - 1)
  }

  lemma {:induction false} IterateAdd<T>(f: T -> T, s: T, m: nat, n: nat)
    ensures Iterate(f, s, m + n) == Iterate(f, Iterate(f, s, m), n)
    decreases m
  {
    if m != 0 {
      IterateAdd(f, f(s), m - 1, n);
    }
  }

  /** A step that commutes with an operation still does after n rounds. */
  lemma {:induction false} IterateHomomorphic<T(!new)>(f: T -> T, op: (T, T) -> T, a: T, b: T, n: nat)
    requires forall x, y :: f(op(x, y)) == op(f(x), f(y))
    ensures Iterate(f, op(a, b), n) == op(Iterate(f, a, n), Iterate(f, b, n))
    decreases n
  {
    if n != 0 {
      IterateHomomorphic(f, op, f(a), f(b), n - 1);
    }
  }

  /** A step with a left inverse loses nothing in n rounds. */
  lemma {:induction false} IterateInjective<T(!new)>(f: T -> T, inverse: T -> T, a: T, b: T, n: nat)
    requires forall x :: inverse(f(x)) == x
    requires Iterate(f, a, n) == Iterate(f, b, n)
    ensures a == b
    decreases n
  {
    if n != 0 {
      IterateInjective(f, inverse, f(a), f(b), n - 1);
      assert inverse(f(a)) == inverse(f(b));
    }
  }

  /** Two machines related by a change of representation stay related. */
  lemma {:induction false} IterateConjugate<T(!new)>(f: T -> T, g: T -> T, view: T -> T, s: T, n: nat)
    requires forall x :: view(f(x)) == g(view(x))
    ensures view(Iterate(f, s, n)) == Iterate(g, view(s), n)
    decreases n
  {
    if n != 0 {
      IterateConjugate(f, g, view, f(s), n - 1);
    }
  }
}

/** The 64-bit word operations of the checksum, and the laws the proofs use. */
module Words {
  type Word = bv64

  function Xor(a: Word, b: Word): Word { a ^ b }
  function Right1(a: Word): Word { a >> 1 }
  function Left1(a: Word): Word { a << 1 }
  function Right8(a: Word): Word { a >> 8 }
  function Left8(a: Word): Word { a << 8 }
  function LowByte(a: Word): Word { a & 0xff }
  function HighBytes(a: Word): Word { a & 0xffff_ffff_ffff_ff00 }
  function FromByte(b: bv8): Word { b as bv64 }
  predicate Odd(a: Word) { a & 1 == 1 }
  predicate TopSet(a: Word) { a & 0x8000_0000_0000_0000 != 0 }

  /** The word read from its other end. */
  function Reflect(c: Word): Word {
    var a := ((c & 0x5555_5555_5555_5555) << 1) | ((c >> 1) & 0x5555_5555_5555_5555);
    var b := ((a & 0x3333_3333_3333_3333) << 2) | ((a >> 2) & 0x3333_3333_3333_3333);
    var d := ((b & 0x0f0f_0f0f_0f0f_0f0f) << 4) | ((b >> 4) & 0x0f0f_0f0f_0f0f_0f0f);
    var e := ((d & 0x00ff_00ff_00ff_00ff) << 8) | ((d >> 8) & 0x00ff_00ff_00ff_00ff);
    var f := ((e & 0x0000_ffff_0000_ffff) << 16) | ((e >> 16) & 0x0000_ffff_0000_ffff);
    (f << 32) | (f >> 32)
  }

  /** The bits above the n low bytes. */
  function Above(n: nat): Word {
    match n
    case 0 => 0xffff_ffff_ffff_ffff
    case 1 => 0xffff_ffff_ffff_ff00
    case 2 => 0xffff_ffff_ffff_0000
    case 3 => 0xffff_ffff_ff00_0000
    case 4 => 0xffff_ffff_0000_0000
    case 5 => 0xffff_ff00_0000_0000
    case 6 => 0xffff_0000_0000_0000
    case 7 => 0xff00_0000_0000_0000
    case _ => 0
  }

  /** Does the word fit in its n low bytes? */
  predicate Fits(w: Word, n: nat) {
    w & Above(n) == 0
  }

  lemma XorComm(a: Word, b: Word)
    ensures Xor(a, b) == Xor(b, a)
  {
  }

  lemma XorAssoc(a: Word, b: Word, c: Word)
    ensures Xor(a, Xor(b, c)) == Xor(Xor(a, b), c)
  {
  }

  lemma XorSwap(a: Word, b: Word, p: Word)
    ensures Xor(Xor(a, p), b) == Xor(Xor(a, b), p) == Xor(a, Xor(b, p))
  {
    hide Xor;
    XorAssoc(a, p, b);
    XorAssoc(a, b, p);
    XorComm(b, p);
  }

  lemma XorPair(a: Word, b: Word, p: Word)
    ensures Xor(Xor(a, p), Xor(b, p)) == Xor(a, b)
  {
    hide Xor;
    XorAssoc(Xor(a, p), b, p);
    XorSwap(a, b, p);
    XorAssoc(Xor(a, b), p, p);
    XorSelf(p);
    XorZero(Xor(a, b));
  }

  lemma XorSelf(a: Word)
    ensures Xor(a, a) == 0
  {
  }

  lemma XorZero(c: Word)
    ensures Xor(c, 0) == c
  {
  }

  lemma XorCancel(a: Word, b: Word, x: Word)
    requires Xor(a, x) == Xor(b, x) || Xor(x, a) == Xor(x, b)
    ensures a == b
  {
  }

  lemma Right1Xor(a: Word, b: Word)
    ensures Right1(Xor(a, b)) == Xor(Right1(a), Right1(b))
  {
  }

  lemma OddXor(a: Word, b: Word)
    ensures Odd(Xor(a, b)) <==> Odd(a) != Odd(b)
  {
  }

  lemma SplitWord(x: Word)
    ensures x == Xor(LowByte(x), HighBytes(x))
    ensures LowByte(HighBytes(x)) == 0
  {
  }

  lemma HighOfByte(c: Word, b: bv8)
    ensures Right8(HighBytes(Xor(c, FromByte(b)))) == Right8(c)
  {
  }

  lemma Left8Fits(b: bv8, w: Word, n: nat)
    requires n < 8 && Fits(w, n)
    ensures Fits(Xor(FromByte(b), Left8(w)), n + 1)
  {
  }

  lemma ShiftBack(w: Word, n: nat)
    requires n < 8 && Fits(w, n)
    ensures Right8(Left8(w)) == w
  {
    assert w & 0xff00_0000_0000_0000 == 0;
    RoundShift(w);
  }

  lemma RoundShift(w: Word)
    requires w & 0xff00_0000_0000_0000 == 0
    ensures (w << 8) >> 8 == w
  {
  }

  lemma LowOfLeft8(w: Word)
    ensures LowByte(Left8(w)) == 0
  {
  }

  lemma UnpackLow(b: bv8, v: Word)
    requires LowByte(v) == 0
    ensures LowByte(Xor(FromByte(b), v)) == FromByte(b)
  {
  }

  lemma UnpackHigh(b: bv8, v: Word)
    ensures Right8(Xor(FromByte(b), v)) == Right8(v)
  {
  }

  lemma FromByteInjective(a: bv8, b: bv8)
    requires FromByte(a) == FromByte(b)
    ensures a == b
  {
  }

  lemma ReflectXor(a: Word, b: Word)
    ensures Reflect(Xor(a, b)) == Xor(Reflect(a), Reflect(b))
  {
  }

  lemma ReflectShiftBits(c: Word)
    ensures Reflect(c >> 1) == Reflect(c) << 1
  {
  }

  lemma ReflectShift(c: Word)
    ensures Reflect(Right1(c)) == Left1(Reflect(c))
  {
    hide Reflect;
    ReflectShiftBits(c);
  }

  lemma ReflectOdd(c: Word)
    ensures Odd(c) <==> TopSet(Reflect(c))
  {
  }

  lemma ByteIndex(x: Word)
    ensures 0 <= LowByte(x) as int < 256
    ensures (LowByte(x) as int) as bv64 == LowByte(x)
  {
  }
}

/** One clock of the register, and its laws. */
module ShiftRegister {
  import opened Iteration
  import opened Words

  const POLY: Word := 0x9a6c9329ac4bc9b5
  const NORMAL_POLY: Word := 0xad93d23594c93659

  function BitStep(c: Word): Word {
    if Odd(c) then Xor(Right1(c), POLY) else Right1(c)
  }

  function BitUnstep(c: Word): Word {
    if TopSet(c) then Xor(Left1(Xor(c, POLY)), 1) else Left1(c)
  }

  /** One step of long division by x^64 + NORMAL_POLY, most significant bit first. */
  function DivideStep(r: Word): Word {
    if TopSet(r) then Xor(Left1(r), NORMAL_POLY) else Left1(r)
  }

  function Steps(c: Word, n: nat): Word {
    Iterate(BitStep, c, n)
  }

  lemma StepsAdd(c: Word, m: nat, n: nat)
    ensures Steps(c, m + n) == Steps(Steps(c, m), n)
  {
    IterateAdd(BitStep, c, m, n);
  }

  lemma StepsUnfold(c: Word, n: nat)
    ensures Steps(c, 0) == c
    ensures n > 0 ==> Steps(c, n) == Steps(BitStep(c), n - 1)
  {
    hide BitStep;
  }

  lemma BitStepXor(a: Word, b: Word)
    ensures BitStep(Xor(a, b)) == Xor(BitStep(a), BitStep(b))
  {
    hide Xor, Right1, Odd;
    Right1Xor(a, b);
    OddXor(a, b);
    XorSwap(Right1(a), Right1(b), POLY);
    XorPair(Right1(a), Right1(b), POLY);
  }

  lemma BitUnstepInverts(c: Word)
    ensures BitUnstep(BitStep(c)) == c
  {
  }

  /** The register is linear over exclusive or, for any number of clocks. */
  lemma StepsXor(a: Word, b: Word, n: nat)
    ensures Steps(Xor(a, b), n) == Xor(Steps(a, n), Steps(b, n))
  {
    forall x, y ensures BitStep(Xor(x, y)) == Xor(BitStep(x), BitStep(y)) {
      BitStepXor(x, y);
    }
    IterateHomomorphic(BitStep, Xor, a, b, n);
  }

  /** Distinct registers stay distinct, for any number of clocks. */
  lemma StepsInjective(a: Word, b: Word, n: nat)
    requires Steps(a, n) == Steps(b, n)
    ensures a == b
  {
    forall x ensures BitUnstep(BitStep(x)) == x {
      BitUnstepInverts(x);
    }
    IterateInjective(BitStep, BitUnstep, a, b, n);
  }

  /** The first four and the last four of eight clocks that only shift. */
  lemma ShiftFour(c: Word)
    requires c & 0xf == 0
    ensures Steps(c, 4) == c >> 4
  {
    assert !Odd(c) && !Odd(c >> 1) && !Odd(c >> 2) && !Odd(c >> 3);
    assert Right1(c) == c >> 1 && Right1(c >> 1) == c >> 2;
    assert Right1(c >> 2) == c >> 3 && Right1(c >> 3) == c >> 4;
    hide Odd, Right1, Steps;
    StepsUnfold(c, 4);
    StepsUnfold(c >> 1, 3);
    StepsUnfold(c >> 2, 2);
    StepsUnfold(c >> 3, 1);
    StepsUnfold(c >> 4, 0);
  }

  /** While the low byte is zero the register only shifts. */
  lemma ShiftOnly(c: Word)
    requires LowByte(c) == 0
    ensures Steps(c, 8) == Right8(c)
  {
    assert c & 0xf == 0 && (c >> 4) & 0xf == 0 && (c >> 4) >> 4 == Right8(c);
    ShiftFour(c);
    ShiftFour(c >> 4);
    StepsAdd(c, 4, 4);
  }

  lemma PolyReflected()
    ensures Reflect(POLY) == NORMAL_POLY
  {
  }

  lemma ReflectStep(c: Word)
    ensures Reflect(BitStep(c)) == DivideStep(Reflect(c))
  {
    hide Reflect, Xor, Right1, Left1, Odd, TopSet;
    ReflectShift(c);
    ReflectOdd(c);
    ReflectXor(Right1(c), POLY);
    PolyReflected();
  }

  lemma StepsReflect(c: Word, n: nat)
    ensures Reflect(Steps(c, n)) == Iterate(DivideStep, Reflect(c), n)
  {
    hide Reflect;
    forall x ensures Reflect(BitStep(x)) == DivideStep(Reflect(x)) {
      ReflectStep(x);
    }
    IterateConjugate(BitStep, DivideStep, Reflect, c, n);
  }
}

/** src/utils.cc:391-419, and what the checksum guarantees. */
module Crc64 {
  import opened Buffers
  import opened Iteration
  import opened Words
  import opened ShiftRegister

  const ONES: Word := 0xffff_ffff_ffff_ffff

  /** The register after one byte: the byte enters at the low end, then eight clocks. */
  function Update(c: Word, b: bv8): Word {
    Steps(Xor(c, FromByte(b)), 8)
  }

  function Register(c: Word, data: Bytes): Word
    decreases |data|
  {
    if data == [] then c else Register(Update(c, data[0]), data[1..])
  }

  function Checksum(data: Bytes): Word {
    Xor(Register(ONES, data), ONES)
  }

  // ---------- the table ----------

  /** One lookup and one shift replace eight clocks. */
  lemma TableUpdate(c: Word, b: bv8)
    ensures Xor(Steps(LowByte(Xor(c, FromByte(b))), 8), Right8(c)) == Update(c, b)
  {
    hide Xor, LowByte, HighBytes, FromByte, Right8, Steps;
    var x := Xor(c, FromByte(b));
    SplitWord(x);
    HighOfByte(c, b);
    StepsXor(LowByte(x), HighBytes(x), 8);
    ShiftOnly(HighBytes(x));
  }

  method Crc64NvmeTable() returns (table: seq<Word>)
    ensures |table| == 256
    ensures forall i :: 0 <= i < 256 ==> table[i] == Steps(i as bv64, 8)
  {
    hide Xor, Right1, Odd, Steps;
    table := [];
    for i := 0 to 256
      invariant |table| == i
      invariant forall k :: 0 <= k < i ==> table[k] == Steps(k as bv64, 8)
    {
      var crc := i as bv64;
      for j := 0 to 8
        invariant Steps(crc, 8 - j) == Steps(i as bv64, 8)
      {
        StepsUnfold(crc, 8 - j);
        crc := if Odd(crc) then Xor(Right1(crc), POLY) else Right1(crc);
      }
      StepsUnfold(crc, 0);
      table := table + [crc];
    }
  }

  method Crc64Nvme(data: Bytes) returns (crc: Word)
    ensures crc == Checksum(data)
  {
    hide Xor, LowByte, FromByte, Right8, Steps, Update;
    var table := Crc64NvmeTable();
    crc := ONES;
    for i := 0 to |data|
      invariant Register(crc, data[i..]) == Register(ONES, data)
    {
      var x := Xor(crc, FromByte(data[i]));
      ByteIndex(x);
      TableUpdate(crc, data[i]);
      assert data[i..][1..] == data[i + 1..];
      crc := Xor(table[LowByte(x) as int], Right8(crc));
    }
    crc := Xor(crc, ONES);
  }

  // ---------- error detection ----------

  lemma {:induction false} RegisterAppend(c: Word, p: Bytes, q: Bytes)
    ensures Register(c, p + q) == Register(Register(c, p), q)
    decreases |p|
  {
    hide Update;
    if p == [] {
      assert p + q == q;
    } else {
      assert (p + q)[1..] == p[1..] + q;
      RegisterAppend(Update(c, p[0]), p[1..], q);
    }
  }

  /** For a fixed input the register update is one-to-one. */
  lemma {:induction false} RegisterInjective(a: Word, b: Word, data: Bytes)
    requires Register(a, data) == Register(b, data)
    ensures a == b
    decreases |data|
  {
    hide Xor, FromByte, Steps;
    if data != [] {
      RegisterInjective(Update(a, data[0]), Update(b, data[0]), data[1..]);
      StepsInjective(Xor(a, FromByte(data[0])), Xor(b, FromByte(data[0])), 8);
      XorCancel(a, b, FromByte(data[0]));
    }
  }

  /** Up to eight bytes as one little-endian word. */
  function Pack(d: Bytes): Word {
    if d == [] then 0 else Xor(FromByte(d[0]), Left8(Pack(d[1..])))
  }

  lemma {:induction false} PackFits(d: Bytes)
    requires |d| <= 8
    ensures Fits(Pack(d), |d|)
    decreases |d|
  {
    hide Xor, FromByte, Left8;
    if d != [] {
      PackFits(d[1..]);
      Left8Fits(d[0], Pack(d[1..]), |d| - 1);
    }
  }

  lemma {:induction false} Unpack(d: Bytes)
    requires 0 < |d| <= 8
    ensures LowByte(Pack(d)) == FromByte(d[0])
    ensures Right8(Pack(d)) == Pack(d[1..])
    ensures Right8(Left8(Pack(d[1..]))) == Pack(d[1..])
  {
    hide Xor, FromByte, Left8, Right8, LowByte, Fits;
    PackFits(d[1..]);
    ShiftBack(Pack(d[1..]), |d| - 1);
    LowOfLeft8(Pack(d[1..]));
    UnpackLow(d[0], Left8(Pack(d[1..])));
    UnpackHigh(d[0], Left8(Pack(d[1..])));
  }

  lemma {:induction false} PackInjective(x: Bytes, y: Bytes)
    requires |x| == |y| <= 8 && Pack(x) == Pack(y)
    ensures x == y
    decreases |x|
  {
    hide FromByte, LowByte, Right8, Pack;
    if x != [] {
      Unpack(x);
      Unpack(y);
      FromByteInjective(x[0], y[0]);
      PackInjective(x[1..], y[1..]);
      assert x == [x[0]] + x[1..] && y == [y[0]] + y[1..];
    }
  }

  /** A block of up to eight bytes acts as one word clocked through the register. */
  lemma {:induction false} BlockUpdate(c: Word, d: Bytes)
    requires |d| <= 8
    ensures Register(c, d) == Steps(Xor(c, Pack(d)), 8 * |d|)
    decreases |d|
  {
    hide Xor, Steps, FromByte, Left8, Right8, LowByte;
    if d == [] {
      XorZero(c);
      StepsUnfold(c, 0);
    } else {
      var x, w := Xor(c, FromByte(d[0])), Left8(Pack(d[1..]));
      calc {
        Register(c, d);
        Register(Update(c, d[0]), d[1..]);
        { BlockUpdate(Update(c, d[0]), d[1..]); }
        Steps(Xor(Steps(x, 8), Pack(d[1..])), 8 * (|d| - 1));
        { Unpack(d); LowOfLeft8(Pack(d[1..])); ShiftOnly(w); }
        Steps(Xor(Steps(x, 8), Steps(w, 8)), 8 * (|d| - 1));
        { StepsXor(x, w, 8); }
        Steps(Steps(Xor(x, w), 8), 8 * (|d| - 1));
        { StepsAdd(Xor(x, w), 8, 8 * (|d| - 1)); }
        Steps(Xor(x, w), 8 * |d|);
        { XorAssoc(c, FromByte(d[0]), w); }
        Steps(Xor(c, Pack(d)), 8 * |d|);
      }
    }
  }

  /** Any corruption confined to eight consecutive bytes changes the checksum. */
  lemma DetectsBurst(before: Bytes, x: Bytes, y: Bytes, after: Bytes)
    requires |x| == |y| <= 8 && x != y
    ensures Checksum(before + x + after) != Checksum(before + y + after)
  {
    hide Xor, Register, Steps, Pack;
    if Checksum(before + x + after) == Checksum(before + y + after) {
      XorCancel(Register(ONES, before + x + after), Register(ONES, before + y + after), ONES);
      RegisterAppend(ONES, before + x, after);
      RegisterAppend(ONES, before + y, after);
      RegisterInjective(Register(ONES, before + x), Register(ONES, before + y), after);
      var c := Register(ONES, before);
      RegisterAppend(ONES, before, x);
      RegisterAppend(ONES, before, y);
      BlockUpdate(c, x);
      BlockUpdate(c, y);
      StepsInjective(Xor(c, Pack(x)), Xor(c, Pack(y)), 8 * |x|);
      XorCancel(Pack(x), Pack(y), c);
      PackInjective(x, y);
    }
  }

  // ---------- normal bit order ----------

  /** Long division of the bit-reflected bytes, most significant bit first. */
  function DivideRegister(r: Word, data: Bytes): Word
    decreases |data|
  {
    if data == [] then r
    else DivideRegister(Iterate(DivideStep, Xor(r, Reflect(FromByte(data[0]))), 8), data[1..])
  }

  /** The reflected register is the normal division seen from the other end. */
  lemma {:induction false} RegisterIsDivision(c: Word, data: Bytes)
    ensures Reflect(Register(c, data)) == DivideRegister(Reflect(c), data)
    decreases |data|
  {
    hide Reflect, Xor, FromByte, Steps;
    if data != [] {
      ReflectXor(c, FromByte(data[0]));
      StepsReflect(Xor(c, FromByte(data[0])), 8);
      RegisterIsDivision(Update(c, data[0]), data[1..]);
    }
  }

  lemma ReflectOnes()
    ensures Reflect(ONES) == ONES
  {
  }

  /** Read from its other end, the checksum is that of the division from all ones, inverted. */
  lemma ChecksumIsDivision(data: Bytes)
    ensures Reflect(Checksum(data)) == Xor(DivideRegister(ONES, data), ONES)
  {
    hide Reflect, Xor, Register, DivideRegister;
    ReflectOnes();
    ReflectXor(Register(ONES, data), ONES);
    RegisterIsDivision(ONES, data);
  }

  // ---------- the start value, the inversion and the published check ----------

  /** The register clocked a number of times that is written out. */
  function Clocked(c: Word, n: nat): Word
    decreases n
  {
    if n == 0 then c else Clocked(BitStep(c), n - 1)
  }

  lemma {:induction false} ClockedSteps(c: Word, n: nat)
    ensures Clocked(c, n) == Steps(c, n)
    decreases n
  {
    hide BitStep;
    StepsUnfold(c, n);
    if n > 0 {
      ClockedSteps(BitStep(c), n - 1);
    }
  }

  lemma NextByte(c: Word, b: bv8, next: Word, data: Bytes, rest: Bytes)
    requires data != [] && data[0] == b && data[1..] == rest && Clocked(Xor(c, FromByte(b)), 8) == next
    ensures Register(c, data) == Register(next, rest)
  {
    hide Xor, FromByte, Steps, Clocked;
    ClockedSteps(Xor(c, FromByte(b)), 8);
  }

  /** The digits 1 to 9 in ASCII. */
  const DIGITS: Bytes := [0x31, 0x32, 0x33, 0x34, 0x35, 0x36, 0x37, 0x38, 0x39]

  /** What each digit makes of the register. */
  lemma DigitClocks()
    ensures Clocked(Xor(0xffff_ffff_ffff_ffff, FromByte(0x31)), 8) == 0xdc6a_5e3c_b9e4_412d
    ensures Clocked(Xor(0xdc6a_5e3c_b9e4_412d, FromByte(0x32)), 8) == 0x96f1_8dfa_140c_58b1
    ensures Clocked(Xor(0x96f1_8dfa_140c_58b1, FromByte(0x33)), 8) == 0x6427_8334_3634_d71f
    ensures Clocked(Xor(0x6427_8334_3634_d71f, FromByte(0x34)), 8) == 0xd60a_2418_1d00_8e2b
    ensures Clocked(Xor(0xd60a_2418_1d00_8e2b, FromByte(0x35)), 8) == 0xe995_1d48_009d_3507
    ensures Clocked(Xor(0xe995_1d48_009d_3507, FromByte(0x36)), 8) == 0xf6a6_6499_e1f7_a4cf
    ensures Clocked(Xor(0xf6a6_6499_e1f7_a4cf, FromByte(0x37)), 8) == 0x62fd_0208_be12_5d88
    ensures Clocked(Xor(0x62fd_0208_be12_5d88, FromByte(0x38)), 8) == 0x132f_6f67_3d37_6b6b
    ensures Clocked(Xor(0x132f_6f67_3d37_6b6b, FromByte(0x39)), 8) == 0x5174_eb79_f586_6777
  {
  }

  lemma FirstDigits()
    ensures Register(0xffff_ffff_ffff_ffff, DIGITS) == Register(0xe995_1d48_009d_3507, [0x36, 0x37, 0x38, 0x39])
  {
    DigitClocks();
    hide Register, Clocked, Xor, FromByte;
    NextByte(0xffff_ffff_ffff_ffff, 0x31, 0xdc6a_5e3c_b9e4_412d, DIGITS, [0x32, 0x33, 0x34, 0x35, 0x36, 0x37, 0x38, 0x39]);
    NextByte(0xdc6a_5e3c_b9e4_412d, 0x32, 0x96f1_8dfa_140c_58b1, [0x32, 0x33, 0x34, 0x35, 0x36, 0x37, 0x38, 0x39], [0x33, 0x34, 0x35, 0x36, 0x37, 0x38, 0x39]);
    NextByte(0x96f1_8dfa_140c_58b1, 0x33, 0x6427_8334_3634_d71f, [0x33, 0x34, 0x35, 0x36, 0x37, 0x38, 0x39], [0x34, 0x35, 0x36, 0x37, 0x38, 0x39]);
    NextByte(0x6427_8334_3634_d71f, 0x34, 0xd60a_2418_1d00_8e2b, [0x34, 0x35, 0x36, 0x37, 0x38, 0x39], [0x35, 0x36, 0x37, 0x38, 0x39]);
    NextByte(0xd60a_2418_1d00_8e2b, 0x35, 0xe995_1d48_009d_3507, [0x35, 0x36, 0x37, 0x38, 0x39], [0x36, 0x37, 0x38, 0x39]);
  }

  lemma LastDigits()
    ensures Register(0xe995_1d48_009d_3507, [0x36, 0x37, 0x38, 0x39]) == 0x5174_eb79_f586_6777
  {
    DigitClocks();
    hide Register, Clocked, Xor, FromByte;
    NextByte(0xe995_1d48_009d_3507, 0x36, 0xf6a6_6499_e1f7_a4cf, [0x36, 0x37, 0x38, 0x39], [0x37, 0x38, 0x39]);
    NextByte(0xf6a6_6499_e1f7_a4cf, 0x37, 0x62fd_0208_be12_5d88, [0x37, 0x38, 0x39], [0x38, 0x39]);
    NextByte(0x62fd_0208_be12_5d88, 0x38, 0x132f_6f67_3d37_6b6b, [0x38, 0x39], [0x39]);
    NextByte(0x132f_6f67_3d37_6b6b, 0x39, 0x5174_eb79_f586_6777, [0x39], []);
    EmptyRegister(0x5174_eb79_f586_6777);
  }

  lemma EmptyRegister(c: Word)
    ensures Register(c, []) == c
  {
  }

  /** The check value of CRC-64/NVME: the checksum of the ASCII digits 1 to 9. */
  lemma CheckValue()
    ensures Checksum(DIGITS) == 0xae8b_1486_0a79_9888
  {
    hide Register;
    FirstDigits();
    LastDigits();
  }

  function Complement(d: Bytes): Bytes {
    seq(|d|, i requires 0 <= i < |d| => !d[i])
  }

  /** Ones in the n low bytes. */
  function Low(n: nat): Word {
    Xor(Above(n), 0xffff_ffff_ffff_ffff)
  }

  lemma ComplementByte(b: bv8, w: Word, n: nat)
    requires n < 8
    ensures Xor(FromByte(!b), Left8(Xor(Low(n), w))) == Xor(Low(n + 1), Xor(FromByte(b), Left8(w)))
  {
    hide Xor, FromByte, Left8, Low;
    NotByte(b);
    Left8Xor(Low(n), w);
    LowNext(n);
    XorExchange(0xff, FromByte(b), Left8(Low(n)), Left8(w));
  }

  lemma NotByte(b: bv8)
    ensures FromByte(!b) == Xor(0xff, FromByte(b))
  {
  }

  lemma Left8Xor(a: Word, b: Word)
    ensures Left8(Xor(a, b)) == Xor(Left8(a), Left8(b))
  {
  }

  lemma LowNext(n: nat)
    requires n < 8
    ensures Low(n + 1) == Xor(0xff, Left8(Low(n)))
  {
  }

  lemma XorExchange(a: Word, b: Word, c: Word, d: Word)
    ensures Xor(Xor(a, b), Xor(c, d)) == Xor(Xor(a, c), Xor(b, d))
  {
    hide Xor;
    XorAssoc(Xor(a, b), c, d);
    XorSwap(a, c, b);
    XorAssoc(Xor(a, c), b, d);
  }

  lemma {:induction false} PackComplement(d: Bytes)
    requires |d| <= 8
    ensures Pack(Complement(d)) == Xor(Low(|d|), Pack(d))
    decreases |d|
  {
    hide Xor, FromByte, Left8, Low;
    if d == [] {
      LowNone();
    } else {
      PackComplement(d[1..]);
      assert Complement(d)[1..] == Complement(d[1..]);
      ComplementByte(d[0], Pack(d[1..]), |d| - 1);
    }
  }

  lemma LowNone()
    ensures Xor(Low(0), 0) == 0 && Low(8) == 0xffff_ffff_ffff_ffff
  {
  }

  /** Starting from all ones is starting from nothing with the first eight bytes complemented. */
  lemma StartIsComplement(d: Bytes)
    requires |d| >= 8
    ensures Checksum(d) == !Register(0, Complement(d[..8]) + d[8..])
  {
    hide Xor, Register, Steps, Pack, Low;
    var first, rest := d[..8], d[8..];
    assert d == first + rest;
    RegisterAppend(ONES, first, rest);
    RegisterAppend(0, Complement(first), rest);
    BlockUpdate(ONES, first);
    BlockUpdate(0, Complement(first));
    PackComplement(first);
    LowNone();
    ZeroXor(Xor(ONES, Pack(first)));
    InvertOnes(Register(0, Complement(first) + rest));
  }

  lemma ZeroXor(c: Word)
    ensures Xor(0, c) == c
  {
  }

  lemma InvertOnes(c: Word)
    ensures Xor(c, ONES) == !c
  {
  }
}
