// How a stream is divided into parts before anything is sent: src/utils.cc:712-759.
module PartPlan {
  import opened Wrappers

  const MAX_MULTIPART_COUNT: nat := 10000
  const MIN_PART_SIZE: nat := 5 * 1024 * 1024
  // unsigned int times int: the product is reduced modulo 2^32 before it is widened
  const MAX_PART_SIZE: nat := (MIN_PART_SIZE * 1024) % 0x1_0000_0000
  const MAX_OBJECT_SIZE: nat := MAX_PART_SIZE * 1024
  const TWO_53: nat := 0x20_0000_0000_0000

  datatype PlanError = PartSizeTooSmall | PartSizeTooLarge | ObjectTooLarge | PartSizeMissing | TooManyParts

  datatype Plan = Plan(partSize: nat, partCount: Option<nat>)

  function Min(a: nat, b: nat): nat {
    if a <= b then a else b
  }

  function CeilDiv(n: nat, d: nat): nat
    requires d > 0
  {
    (n + d - 1) / d
  }

  /** The quotient is the one number of divisors that just covers n. */
  lemma CeilDivCovers(n: nat, d: nat)
    requires d > 0
    ensures var k := CeilDiv(n, d); n <= k * d < n + d && (n > 0 ==> k >= 1 && (k - 1) * d < n)
  {
    var k := CeilDiv(n, d);
    assert k * d + (n + d - 1) % d == n + d - 1;
    assert (k - 1) * d == k * d - d;
  }

  lemma MulMonotone(a: int, b: int, d: nat)
    requires a <= b
    ensures a * d <= b * d
  {
  }

  lemma MulLess(a: int, b: int, d: nat)
    requires a * d < b * d
    ensures a < b
  {
    if a >= b {
      MulMonotone(b, a, d);
    }
  }

  lemma DivUnique(a: nat, m: nat, q: nat, r: nat)
    requires r < m && a == m * q + r
    ensures a % m == r && a / m == q
  {
    var d := q - a / m;
    assert a == m * (a / m) + a % m;
    assert m * d == a % m - r;
    if d > 0 {
      MulMonotone(1, d, m);
    } else if d < 0 {
      MulMonotone(d, -1, m);
    }
  }

  lemma ModPeriod(a: nat, m: nat)
    requires 0 < m <= a
    ensures a % m == (a - m) % m
  {
    var q, r := (a - m) / m, (a - m) % m;
    assert a - m == m * q + r;
    assert m * (q + 1) == m * q + m;
    DivUnique(a, m, q + 1, r);
  }

  lemma SmallMod(a: nat, m: nat)
    requires a < m
    ensures a % m == a
  {
    DivUnique(a, m, 0, a);
  }

  lemma CeilDivUnique(n: nat, d: nat, k: nat)
    requires d > 0 && n > 0 && k >= 1 && (k - 1) * d < n <= k * d
    ensures CeilDiv(n, d) == k
  {
    CeilDivCovers(n, d);
    MulLess(k - 1, CeilDiv(n, d), d);
    MulLess(CeilDiv(n, d) - 1, k, d);
  }

  lemma CeilDivAtMost(n: nat, d: nat, k: nat)
    requires d > 0 && n <= k * d
    ensures CeilDiv(n, d) <= k
  {
    CeilDivCovers(n, d);
    if n == 0 {
      assert CeilDiv(n, d) == 0;
    } else {
      MulLess(CeilDiv(n, d) - 1, k, d);
    }
  }

  // ---------- the two rounded ceilings ----------

  /** What round-to-nearest double division promises: exact quotients are exact, others within 2^-53. */
  predicate RoundedQuotient(n: nat, d: nat, q: real)
    requires d > 0
  {
    var slack := q * d as real - n as real;
    && (CeilDiv(n, d) * d == n ==> slack == 0.0)
    && -(n as real) <= slack * TWO_53 as real <= n as real
  }

  function Ceil(q: real): int {
    -((-q).Floor)
  }

  lemma RealMulMonotone(a: real, b: real, d: real)
    requires a <= b && d >= 0.0
    ensures a * d <= b * d
  {
  }

  lemma RealMulLess(a: real, b: real, d: real)
    requires d > 0.0 && a * d < b * d
    ensures a < b
  {
    if a >= b {
      RealMulMonotone(b, a, d);
    }
  }

  lemma RealMulCancel(a: real, b: real, d: real)
    requires d > 0.0 && a * d == b * d
    ensures a == b
  {
    assert (a - b) * d == 0.0;
  }

  lemma CeilBetween(q: real, k: int)
    requires (k - 1) as real < q <= k as real
    ensures Ceil(q) == k
  {
  }

  lemma RealProduct(a: int, d: nat)
    ensures (a as real) * (d as real) == (a * d) as real
  {
  }

  lemma SmallSlack(n: nat, slack: real)
    requires n < TWO_53 && -(n as real) <= slack * TWO_53 as real <= n as real
    ensures -1.0 < slack < 1.0
  {
  }

  /** A value within one of n, seen in units of d, lies strictly between the multiples around n. */
  lemma BetweenMultiples(low: int, high: int, n: int, q: real, d: nat)
    requires d > 0 && low * d < n < high * d
    requires -1.0 < q * d as real - n as real < 1.0
    ensures low as real < q < high as real
  {
    RealProduct(low, d);
    RealProduct(high, d);
    RealMulLess(low as real, q, d as real);
    RealMulLess(q, high as real, d as real);
  }

  /** Rounding never moves the ceiling of a quotient of integers below 2^53. */
  lemma RoundedCeil(n: nat, d: nat, q: real)
    requires 0 < d && n < TWO_53 && RoundedQuotient(n, d, q)
    ensures Ceil(q) == CeilDiv(n, d)
  {
    var k := CeilDiv(n, d);
    CeilDivCovers(n, d);
    if n == k * d {
      RealProduct(k, d);
      RealMulCancel(q, k as real, d as real);
    } else {
      SmallSlack(n, q * d as real - n as real);
      BetweenMultiples(k - 1, k, n, q, d);
    }
    CeilBetween(q, k);
  }

  // ---------- the plan ----------

  /** The part size chosen when the caller gives none: a multiple of MIN_PART_SIZE. */
  function DefaultPartSize(objectSize: nat): nat {
    CeilDiv(CeilDiv(objectSize, MAX_MULTIPART_COUNT), MIN_PART_SIZE) * MIN_PART_SIZE
  }

  lemma DefaultPartSizeFits(objectSize: nat)
    requires objectSize <= MAX_OBJECT_SIZE
    ensures objectSize <= MAX_MULTIPART_COUNT * DefaultPartSize(objectSize)
    ensures DefaultPartSize(objectSize) <= MAX_PART_SIZE
    ensures objectSize > 0 ==> DefaultPartSize(objectSize) >= MIN_PART_SIZE
  {
    var c := CeilDiv(objectSize, MAX_MULTIPART_COUNT);
    CeilDivCovers(objectSize, MAX_MULTIPART_COUNT);
    CeilDivCovers(c, MIN_PART_SIZE);
    CeilDivAtMost(objectSize, MAX_MULTIPART_COUNT, MAX_PART_SIZE);
    CeilDivAtMost(c, MIN_PART_SIZE, MAX_PART_SIZE / MIN_PART_SIZE);
  }

  /**
   * The part size chosen is the smallest multiple of the minimum with which 10000 parts cover the
   * object.
   */
  lemma DefaultPartSizeIsLeast(objectSize: nat, k: nat)
    ensures exists n :: DefaultPartSize(objectSize) == n * MIN_PART_SIZE
    ensures objectSize <= MAX_MULTIPART_COUNT * DefaultPartSize(objectSize)
    ensures objectSize <= MAX_MULTIPART_COUNT * (k * MIN_PART_SIZE) ==> DefaultPartSize(objectSize) <= k * MIN_PART_SIZE
  {
    var c := CeilDiv(objectSize, MAX_MULTIPART_COUNT);
    CeilDivCovers(objectSize, MAX_MULTIPART_COUNT);
    CeilDivCovers(c, MIN_PART_SIZE);
    assert DefaultPartSize(objectSize) == CeilDiv(c, MIN_PART_SIZE) * MIN_PART_SIZE;
    if objectSize <= MAX_MULTIPART_COUNT * (k * MIN_PART_SIZE) {
      CeilDivAtMost(objectSize, MAX_MULTIPART_COUNT, k * MIN_PART_SIZE);
      CeilDivAtMost(c, MIN_PART_SIZE, k);
    }
  }

  /** Any quotient the division may round to. */
  method DoubleQuotient(n: nat, d: nat) returns (q: real)
    requires d > 0 && n < TWO_53
    ensures RoundedQuotient(n, d, q)
  {
    assert RoundedQuotient(n, d, n as real / d as real);
    q :| RoundedQuotient(n, d, q);
  }

  method SizeFromDoubles(objectSize: nat) returns (size: nat)
    requires objectSize <= MAX_OBJECT_SIZE
    ensures size == DefaultPartSize(objectSize)
  {
    var quotient := DoubleQuotient(objectSize, MAX_MULTIPART_COUNT);
    RoundedCeil(objectSize, MAX_MULTIPART_COUNT, quotient);
    CeilDivAtMost(objectSize, MAX_MULTIPART_COUNT, MAX_PART_SIZE);
    var psize := Ceil(quotient);
    var multiples := DoubleQuotient(psize, MIN_PART_SIZE);
    RoundedCeil(psize, MIN_PART_SIZE, multiples);
    size := Ceil(multiples) * MIN_PART_SIZE;
  }

  /** The size and count pair describes a division of n bytes with nothing left over. */
  predicate Divides(n: nat, size: nat, count: nat) {
    if n == 0 then size == 0 && count == 1
    else 1 <= count && (count - 1) * size < n <= count * size
  }

  function RequestedSize(objectSize: nat, partSize: nat): nat {
    if partSize > 0 then partSize else DefaultPartSize(objectSize)
  }

  /** Exactly the argument combinations that are refused. */
  predicate PlanRefused(objectSize: Option<nat>, partSize: nat) {
    || 0 < partSize < MIN_PART_SIZE
    || partSize > MAX_PART_SIZE
    || (objectSize.None? && partSize == 0)
    || (objectSize.Some? && objectSize.value > MAX_OBJECT_SIZE)
    || (objectSize.Some? && partSize > 0 && CeilDiv(objectSize.value, partSize) > MAX_MULTIPART_COUNT)
  }

  /** Why the arguments are refused, or that they are not; the first reason counts. */
  function PlanVerdict(objectSize: Option<nat>, partSize: nat): Option<PlanError> {
    if 0 < partSize < 5 * 1024 * 1024 then Some(PartSizeTooSmall)
    else if partSize > 1024 * 1024 * 1024 then Some(PartSizeTooLarge)
    else match objectSize
      case None => if partSize == 0 then Some(PartSizeMissing) else None
      case Some(n) =>
        if n > 1024 * 1024 * 1024 * 1024 then Some(ObjectTooLarge)
        else if partSize > 0 && n > 10000 * partSize then Some(TooManyParts)
        else None
  }

  lemma VerdictIsRefusal(objectSize: Option<nat>, partSize: nat)
    ensures PlanVerdict(objectSize, partSize).Some? <==> PlanRefused(objectSize, partSize)
  {
    if objectSize.Some? && partSize > 0 {
      CeilDivCovers(objectSize.value, partSize);
      if objectSize.value <= 10000 * partSize {
        CeilDivAtMost(objectSize.value, partSize, 10000);
      } else {
        MulLess(10000, CeilDiv(objectSize.value, partSize), partSize);
      }
    }
  }

  method CalcPartInfo(objectSize: Option<nat>, partSize: nat) returns (r: Result<Plan, PlanError>)
    ensures r.Err? <==> PlanRefused(objectSize, partSize)
    ensures PlanVerdict(objectSize, partSize) == if r.Err? then Some(r.error) else None
    ensures r.Ok? && objectSize.None? ==> r.value == Plan(partSize, None) && MIN_PART_SIZE <= partSize <= MAX_PART_SIZE
    ensures r.Ok? && objectSize.Some? ==>
      && r.value.partCount.Some?
      && r.value.partSize == Min(RequestedSize(objectSize.value, partSize), objectSize.value)
      && Divides(objectSize.value, r.value.partSize, r.value.partCount.value)
      && 1 <= r.value.partCount.value <= MAX_MULTIPART_COUNT
      && (r.value.partCount.value > 1 ==> MIN_PART_SIZE <= r.value.partSize <= MAX_PART_SIZE)
  {
    VerdictIsRefusal(objectSize, partSize);
    if partSize > 0 {
      if partSize < MIN_PART_SIZE {
        return Err(PartSizeTooSmall);
      }
      if partSize > MAX_PART_SIZE {
        return Err(PartSizeTooLarge);
      }
    }
    if objectSize.Some? {
      if objectSize.value > MAX_OBJECT_SIZE {
        return Err(ObjectTooLarge);
      }
    } else if partSize <= 0 {
      return Err(PartSizeMissing);
    }
    if objectSize.None? {
      return Ok(Plan(partSize, None));
    }
    var n, size := objectSize.value, partSize;
    if size <= 0 {
      size := SizeFromDoubles(n);
    }
    if size > n {
      size := n;
    }
    var count := if size > 0 then (n + size - 1) / size else 1;
    PlanCounts(n, partSize, size, count);
    if count > MAX_MULTIPART_COUNT {
      return Err(TooManyParts);
    }
    return Ok(Plan(size, Some(count)));
  }

  lemma PlanCounts(n: nat, partSize: nat, size: nat, count: nat)
    requires n <= MAX_OBJECT_SIZE && (partSize == 0 || MIN_PART_SIZE <= partSize <= MAX_PART_SIZE)
    requires size == Min(RequestedSize(n, partSize), n)
    requires count == if size > 0 then CeilDiv(n, size) else 1
    ensures Divides(n, size, count)
    ensures count > MAX_MULTIPART_COUNT <==> partSize > 0 && CeilDiv(n, partSize) > MAX_MULTIPART_COUNT
    ensures count > 1 ==> MIN_PART_SIZE <= size <= MAX_PART_SIZE
  {
    DefaultPartSizeFits(n);
    if n > 0 {
      CeilDivCovers(n, size);
      if size == n {
        CeilDivUnique(n, n, 1);
        if partSize > 0 {
          CeilDivUnique(n, partSize, 1);
        }
      } else if partSize == 0 {
        CeilDivAtMost(n, size, MAX_MULTIPART_COUNT);
      }
    } else if partSize > 0 {
      CeilDivAtMost(0, partSize, 0);
    }
  }
}
