/**
 64-bit division built from a 64-by-32-bit divide instruction (proj1/src/lib/arithmetic.c).

 Machine integers are mathematical integers in a subset type; every place where the C code can wrap
 is written as an explicit reduction (`Wrap64`, `ToSigned64`, ...), so a proof that the reduction
 does nothing is part of the result.
 */
module Arithmetic {
  import opened Words

  const B32: int := 0x1_0000_0000
  const B64: int := 0x1_0000_0000_0000_0000

  const I64_MIN: I64 := -0x8000_0000_0000_0000

  function Low32(x: U64): U32 { x % B32 }

  function Wrap64(x: int): U64 { x % B64 }

  /** Unsigned negation. */
  function Negate64(x: U64): U64 { if x == 0 then 0 else B64 - x }

  function ToSigned64(x: U64): I64 { if x < 0x8000_0000_0000_0000 then x else x - B64 }

  function ToSigned32(x: U32): I32 { if x < 0x8000_0000 then x else x - B32 }

  // ----- leading zeros -----

  /** How many doublings bring x up to the top bit of a 32-bit word. */
  function LeadingZeros(x: U32): (n: nat)
    requires x != 0
    ensures n <= 31
    decreases B32 - x
  {
    LeadingZerosBound(x, 0);
    CountDoublings(x)
  }

  function CountDoublings(x: U32): nat
    requires x != 0
    decreases B32 - x
  {
    if x >= 0x8000_0000 then 0 else 1 + CountDoublings(2 * x)
  }

  lemma {:induction false} LeadingZerosBound(x: U32, k: nat)
    requires k <= 31 && x >= Pow2(k)
    ensures CountDoublings(x) <= 31 - k
    decreases 31 - k
  {
    if x < 0x8000_0000 {
      if k == 31 { Pow2Of31(); } else { LeadingZerosBound(2 * x, k + 1); }
    }
  }

  function Pow2(k: nat): (p: nat)
    ensures p >= 1
  {
    if k == 0 then 1 else 2 * Pow2(k - 1)
  }

  lemma Pow2Of31()
    ensures Pow2(31) == 0x8000_0000 && Pow2(32) == B32
  {
    assert Pow2(8) == 256;
    Pow2Sum(8, 8);
    Pow2Sum(16, 8);
    Pow2Sum(24, 7);
    assert Pow2(7) == 128;
  }

  lemma {:induction false} Pow2Sum(j: nat, k: nat)
    ensures Pow2(j + k) == Pow2(j) * Pow2(k)
  {
    if k > 0 { Pow2Sum(j, k - 1); }
  }

  lemma DoubleFirst(x: int, p: int)
    requires x >= 0 && p >= 1
    ensures x * (2 * p) == (2 * x) * p >= 2 * x
  {
  }

  /** Doubling steps commute with the count: skipping k of them takes k off. */
  lemma {:induction false} SkipDoublings(x: U32, k: nat)
    requires 0 < x && x * Pow2(k) < B32
    ensures CountDoublings(x) == k + CountDoublings(x * Pow2(k))
    decreases k
  {
    if k > 0 {
      DoubleFirst(x, Pow2(k - 1));
      SkipDoublings(2 * x, k - 1);
    }
  }

  /** The normalised value occupies the top bit of the word. */
  lemma {:induction false} Normalised(x: U32)
    requires x != 0
    ensures 0x8000_0000 <= x * Pow2(CountDoublings(x)) < B32
    decreases B32 - x
  {
    if x < 0x8000_0000 {
      Normalised(2 * x);
      DoubleFirst(x, Pow2(CountDoublings(2 * x)));
    }
  }

  lemma SmallPowers()
    ensures Pow2(2) == 4 && Pow2(4) == 16 && Pow2(8) == 256 && Pow2(16) == 65536
  {
    Pow2Sum(2, 2);
    Pow2Sum(4, 4);
    Pow2Sum(8, 8);
  }

  lemma SkipStep(x: U32, k: nat, m: int)
    requires 0 < x && m == Pow2(k) && x * m < B32
    ensures x * m % B32 == x * m > 0
    ensures CountDoublings(x) == k + CountDoublings(x * m)
  {
    SkipDoublings(x, k);
  }

  /** `nlz`: binary search for the leading one, shifting the argument left as it goes. */
  method Nlz(x0: U32) returns (n: nat)
    requires x0 != 0
    ensures n == LeadingZeros(x0)
    ensures 0x8000_0000 <= x0 * Pow2(n) < B32
  {
    SmallPowers();
    var x := x0;
    n := 0;
    if x <= 0xFFFF {
      SkipStep(x, 16, 65536);
      n := n + 16;
      x := x * 65536 % B32;
    }
    assert x >= 0x1_0000 && n + CountDoublings(x) == CountDoublings(x0);
    if x <= 0xFF_FFFF {
      SkipStep(x, 8, 256);
      n := n + 8;
      x := x * 256 % B32;
    }
    assert x >= 0x100_0000 && n + CountDoublings(x) == CountDoublings(x0);
    if x <= 0xFFF_FFFF {
      SkipStep(x, 4, 16);
      n := n + 4;
      x := x * 16 % B32;
    }
    assert x >= 0x1000_0000 && n + CountDoublings(x) == CountDoublings(x0);
    if x <= 0x3FFF_FFFF {
      SkipStep(x, 2, 4);
      n := n + 2;
      x := x * 4 % B32;
    }
    assert x >= 0x4000_0000 && n + CountDoublings(x) == CountDoublings(x0);
    if x <= 0x7FFF_FFFF {
      n := n + 1;
    }
    Normalised(x0);
  }

  // ----- unsigned division -----

  /** The `divl` instruction: it traps (the precondition fails) when the quotient needs 33 bits. */
  function Divl(n: U64, d: U32): U32
    requires d != 0 && n / d < B32
  {
    DivAtLeast(n, d, 0);
    n / d
  }

  // Facts about products and quotients, one multiplication at a time.

  lemma MulMono(a: int, b: int, c: int)
    requires a <= b && 0 <= c
    ensures a * c <= b * c
  {
  }

  lemma MulStrict(a: int, b: int, c: int)
    requires a < b && 0 < c
    ensures a * c < b * c
  {
  }

  lemma MulCancel(a: int, b: int, c: int)
    requires a * c < b * c && 0 < c
    ensures a < b
  {
  }

  lemma MulSwap(a: int, b: int, c: int)
    ensures a * b * c == b * (a * c) == a * (b * c)
  {
  }

  lemma DivBounds(a: int, b: int)
    requires b > 0
    ensures a / b * b <= a < a / b * b + b
    ensures a / b * b + a % b == a
  {
  }

  /** a/b is the only q with q*b <= a < (q+1)*b. */
  lemma DivUnique(a: int, b: int, q: int)
    requires b > 0 && q * b <= a < q * b + b
    ensures a / b == q
  {
    DivBounds(a, b);
    var r := a / b;
    MulCancel(r, q + 1, b);
    MulCancel(q, r + 1, b);
  }

  lemma DivBelow(a: int, b: int, q: int)
    requires b > 0 && a < q * b
    ensures a / b < q
  {
    DivBounds(a, b);
    MulCancel(a / b, q, b);
  }

  lemma DivAtLeast(a: int, b: int, q: int)
    requires b > 0 && q * b <= a
    ensures q <= a / b
  {
    DivBounds(a, b);
    MulCancel(q, a / b + 1, b);
  }

  lemma DivDiv(a: int, b: int, c: int)
    requires a >= 0 && b > 0 && c > 0
    ensures b * c > 0 && a / b / c == a / (b * c)
  {
    var q := a / b / c;
    DivBounds(a, b);
    DivBounds(a / b, c);
    MulMono(q * c, a / b, b);
    MulMono(a / b, q * c + c - 1, b);
    MulSwap(q, c, b);
    assert c * b == b * c > 0 by { MulStrict(0, c, b); }
    assert (q * c + c - 1) * b == q * c * b + c * b - b;
    DivUnique(a, b * c, q);
  }

  /** `(d << s) >> 32` with s = nlz(d >> 32). */
  function TopWord(d: U64): U32
    requires B32 <= d
  {
    Wrap64(d * Pow2(LeadingZeros(d / B32))) / B32
  }

  /** Normalising loses no bit, and the top word is d divided by the power of two that was cut off. */
  lemma NormalisedDivisor(d: U64)
    requires B32 <= d
    ensures d * Pow2(LeadingZeros(d / B32)) < B64
    ensures 0x8000_0000 <= TopWord(d) == d / (2 * Pow2(31 - LeadingZeros(d / B32)))
  {
    var s := LeadingZeros(d / B32);
    Normalised(d / B32);
    DivBounds(d, B32);
    SplitWord(s);
    ShiftOut(d, d / B32, Pow2(s), 2 * Pow2(31 - s));
    WrapSmall(d * Pow2(s));
  }

  lemma WrapSmall(x: int)
    requires 0 <= x < B64
    ensures Wrap64(x) == x
  {
  }

  lemma SplitWord(s: nat)
    requires s <= 31
    ensures Pow2(s) * (2 * Pow2(31 - s)) == B32
  {
    Pow2Of31();
    Pow2Sum(s, 31 - s);
    MulSwap(Pow2(s), 2, Pow2(31 - s));
  }

  lemma ShiftOut(d: int, d1: int, p: int, r: int)
    requires p > 0 && r > 0 && p * r == B32 && d1 * B32 <= d < d1 * B32 + B32
    requires 0x8000_0000 <= d1 * p < B32
    ensures 0 <= d * p < B64 && 0x8000_0000 <= d * p / B32 == d / r
  {
    assert r * p == B32;
    MulCancel(d1, r, p);
    MulMono(d1 + 1, r, p);
    ShiftUp(d, d1, p);
    ShiftPair(d, p, r);
  }

  lemma ShiftUp(d: int, d1: int, p: int)
    requires p > 0 && d1 * B32 <= d < d1 * B32 + B32
    requires 0x8000_0000 <= d1 * p && (d1 + 1) * p <= B32
    ensures 0x8000_0000 * B32 <= d * p < B64
    ensures 0x8000_0000 <= d * p / B32 < B32
  {
    MulMono(d1 * B32, d, p);
    MulStrict(d, d1 * B32 + B32, p);
    MulSwap(d1, B32, p);
    assert (d1 * B32 + B32) * p == B32 * ((d1 + 1) * p) by { MulSwap(d1 + 1, B32, p); }
    DivBelow(d * p, B32, B32);
    DivAtLeast(d * p, B32, 0x8000_0000);
  }

  lemma ShiftPair(d: int, p: int, r: int)
    requires p > 0 && r > 0 && p * r == B32
    ensures d * p / B32 == d / r
  {
    var q := d / r;
    DivBounds(d, r);
    MulMono(q * r, d, p);
    MulStrict(d, q * r + r, p);
    assert r * p == B32;
    MulSwap(q, r, p);
    assert (q * r + r) * p == q * r * p + r * p;
    DivUnique(d * p, B32, q);
  }

  /** Clearing the low bits of d adds at most one to the quotient: (q - 1) * d <= n. */
  lemma OneTooMany(n: U64, d: int, v: int, r: int, q: int)
    requires r >= 2 && 0x8000_0000 <= v && v * r <= d < v * r + r
    requires 1 <= q && q * (v * r) <= n
    ensures (q - 1) * d <= n
  {
    var e := v * r;
    RemainderSmall(n, q, v, r);
    MulMono(d, e + (r - 1), q - 1);
    assert d * (q - 1) == (q - 1) * d;
    assert (e + (r - 1)) * (q - 1) == q * e - e + (q - 1) * (r - 1);
  }

  lemma RemainderSmall(n: U64, q: int, v: int, r: int)
    requires r >= 2 && 0x8000_0000 <= v && 1 <= q && q * (v * r) <= n
    ensures (q - 1) * (r - 1) <= v * r
  {
    MulMono(0x8000_0000, v, r);
    var h := 0x8000_0000 * r;
    MulMono(h, v * r, q);
    assert v * r * q == q * (v * r);
    assert h * q == 0x8000_0000 * (q * r) by { MulSwap(0x8000_0000, r, q); assert r * q == q * r; }
    assert q * r < 0x2_0000_0000;
    if r == 2 {
      assert q - 1 <= v * r;
    } else {
      assert (q - 1) * (r - 1) == q * r - q - r + 1;
      assert v * r >= 0x8000_0000 * 3;
      if r == 3 {
        assert q <= 0x2_0000_0000 / 3;
      }
    }
  }

  /** The estimate of Hacker's Delight: divide n/2 by the top 32 bits of the normalised divisor. */
  function Estimate(n: U64, d: U64): (q: nat)
    requires B32 <= d <= n
    ensures n / d <= q <= n / d + 1
    ensures q >= 1 && (q - 1) * d <= n
  {
    EstimateTight(n, d);
    Divl(n / 2, TopWord(d)) / Pow2(31 - LeadingZeros(d / B32))
  }

  /** `divl` cannot trap on the estimate, the left shift of d loses no bit, and
      floor(n / d) <= estimate <= floor(n / d) + 1. */
  lemma EstimateTight(n: U64, d: U64)
    requires B32 <= d <= n
    ensures d * Pow2(LeadingZeros(d / B32)) < B64
    ensures 0 < TopWord(d) && n / 2 / TopWord(d) < B32
    ensures var q := n / 2 / TopWord(d) / Pow2(31 - LeadingZeros(d / B32));
      n / d <= q <= n / d + 1 && q >= 1 && (q - 1) * d <= n
  {
    NormalisedDivisor(d);
    EstimateCore(n, d, TopWord(d), Pow2(31 - LeadingZeros(d / B32)));
  }

  lemma EstimateCore(n: U64, d: U64, v: int, h: int)
    requires 0 < d <= n && h >= 1 && v == d / (2 * h) && 0x8000_0000 <= v < B32
    ensures 0 <= n / 2 / v < B32
    ensures n / d <= n / 2 / v / h <= n / d + 1
    ensures n / 2 / v / h >= 1 && (n / 2 / v / h - 1) * d <= n
  {
    HalfFits(n, v);
    DivBounds(d, 2 * h);
    MulStrict(0, v, 2 * h);
    NestedQuotient(n, v, h);
    OffByOne(n, d, v, 2 * h);
  }

  lemma HalfFits(n: U64, v: int)
    requires 0x8000_0000 <= v
    ensures 0 <= n / 2 / v < B32
  {
    MulMono(0x8000_0000, v, B32);
    assert B32 * v == v * B32;
    DivBelow(n / 2, v, B32);
    DivAtLeast(n / 2, v, 0);
  }

  lemma NestedQuotient(n: nat, v: int, h: int)
    requires v > 0 && h > 0
    ensures v * (2 * h) > 0 && n / 2 / v / h == n / (v * (2 * h))
  {
    DivDiv(n, 2, v);
    DivDiv(n, 2 * v, h);
    MulSwap(2, v, h);
    assert 2 * v * h == v * (2 * h);
  }

  /** Dividing by v * r, the divisor with its low bits cleared, is too big by at most one. */
  lemma OffByOne(n: U64, d: U64, v: int, r: int)
    requires 0 < d <= n && r >= 2 && 0x8000_0000 <= v && 0 < v * r <= d < v * r + r
    ensures var q := n / (v * r); n / d <= q <= n / d + 1 && q >= 1 && (q - 1) * d <= n
  {
    var e := v * r;
    var q, k := n / e, n / d;
    DivBounds(n, e);
    DivBounds(n, d);
    DivAtLeast(n, d, 1);
    QuotientAntitone(n, d, e, k);
    OneTooMany(n, d, v, r, q);
    DivAtLeast(n, d, q - 1);
  }

  lemma QuotientAntitone(n: nat, d: int, e: int, k: nat)
    requires 0 < e <= d && k * d <= n
    ensures k <= n / e
  {
    MulMono(e, d, k);
    assert e * k == k * e && d * k == k * d;
    DivAtLeast(n, e, k);
  }

  /** `udiv64`: the floor quotient for every dividend and every nonzero divisor. */
  function UDiv64(n: U64, d: U64): (q: U64)
    requires d != 0
    ensures q == n / d
  {
    if d / B32 == 0 then
      DivideByWord(n, d)
    else if n < d then
      DivUnique(n, d, 0);
      0
    else
      Corrected(n, d, Estimate(n, d))
  }

  /** The last line of `udiv64`: take one off an estimate that is one too big. */
  function Corrected(n: U64, d: U64, q: nat): (r: U64)
    requires B32 <= d <= n && n / d <= q <= n / d + 1 && (q - 1) * d <= n && q >= 1
    ensures r == n / d
  {
    CorrectionExact(n, d, q);
    var left := Wrap64(n - (q - 1) * d);
    if left < d then q - 1 else q
  }

  function DivideByWord(n: U64, d: U64): (q: U64)
    requires 0 < d < B32
    ensures q == n / d
  {
    ShortDivision(n, d);
    var low := Divl(LowDividend(n, d), d);
    var high := B32 * HighDigit(n, d);
    Wrap64(low + high)
  }

  /** First quotient digit, and the dividend left for the second one. */
  function HighDigit(n: U64, d: U64): int
    requires 0 < d < B32
  {
    n / B32 / d
  }

  function LowDividend(n: U64, d: U64): U64
    requires 0 < d < B32
  {
    Wrap64(B32 * (n / B32 % d) + n % B32)
  }

  /** The proof in the source comment: divl's quotient fits and the two parts add up. */
  lemma ShortDivision(n: U64, d: U64)
    requires 0 < d < B32
    ensures LowDividend(n, d) / d < B32
    ensures 0 <= LowDividend(n, d) / d + B32 * HighDigit(n, d) == n / d < B64
  {
    var n1, n0 := n / B32, n % B32;
    DivBounds(n1, d);
    LongDivision(n1 / d, n1 % d, n0, n1, d);
    WrapSmall(B32 * (n1 % d) + n0);
    AbsQuotient(n, d);
  }

  /** Schoolbook: the first digit's remainder t goes in front of the second digit n0. */
  lemma LongDivision(k: nat, t: nat, n0: nat, n1: nat, d: int)
    requires 0 <= t < d < B32 && n0 < B32 && n1 == k * d + t
    ensures var m := B32 * t + n0;
      0 <= m < B64 && 0 <= m / d < B32 && m / d + B32 * k == (B32 * n1 + n0) / d
  {
    var m := B32 * t + n0;
    assert m < B32 * d;
    DivBelow(m, d, B32);
    DivAtLeast(m, d, 0);
    DivBounds(m, d);
    var w := m / d;
    assert (w + B32 * k) * d == w * d + B32 * (k * d) by { MulSwap(B32, k, d); }
    DivUnique(B32 * n1 + n0, d, w + B32 * k);
  }

  /** The test in the last line wraps nowhere and picks the floor from the two candidates. */
  lemma CorrectionExact(n: U64, d: U64, q: int)
    requires B32 <= d <= n && n / d <= q <= n / d + 1 && (q - 1) * d <= n && q >= 1
    ensures 0 <= (q - 1) * d <= n && 0 <= q < B64
    ensures (n - (q - 1) * d < d) <==> q == n / d + 1
  {
    DivBounds(n, d);
    MulMono(0, q - 1, d);
    MulMono(1, d, q - 1);
    assert d * (q - 1) == (q - 1) * d;
    if q == n / d {
      assert (q - 1) * d == n / d * d - d;
    }
  }

  // ----- the other three routines -----

  /** `umod64`, declared to return a 32-bit value. */
  function UMod64(n: U64, d: U64): (r: U32)
    requires d != 0
    ensures r == Low32(n % d)
  {
    var q := UDiv64(n, d);
    RestIsRemainder(n, d, q);
    Low32(Wrap64(n - d * q))
  }

  lemma RestIsRemainder(n: U64, d: U64, q: int)
    requires d != 0 && q == n / d
    ensures 0 <= n % d < B64 && Wrap64(n - d * q) == n % d
  {
    DivBounds(n, d);
    var m := n - d * q;
    assert d * q == q * d;
    assert m == n % d;
    assert 0 <= m < B64;
  }

  /** The declared 32-bit result is the true remainder for every dividend exactly when d <= 2^32. */
  lemma UMod64Exact(d: U64)
    requires d != 0
    ensures (forall n: U64 :: UMod64(n, d) == n % d) <==> d <= B32
  {
    if d > B32 {
      LargestRemainder(d);
      assert UMod64(d - 1, d) == Low32(d - 1) != (d - 1) % d;
    } else {
      forall n: U64 ensures Low32(n % d) == n % d {
        DivBounds(n, d);
      }
    }
  }

  lemma LargestRemainder(d: U64)
    requires d != 0
    ensures (d - 1) % d == d - 1
  {
    DivUnique(d - 1, d, 0);
    DivBounds(d - 1, d);
  }

  /** Quotient rounded toward zero, as C divides signed integers. */
  function TruncDiv(n: int, d: int): int
    requires d != 0
  {
    if (n < 0) == (d < 0) then Abs(n) / Abs(d) else -(Abs(n) / Abs(d))
  }

  function Abs(x: int): nat { if x < 0 then -x else x }

  /** `sdiv64`; negating the unsigned image of a negative argument gives its absolute value. */
  function SDiv64(n: I64, d: I64): I64
    requires d != 0
  {
    var q := UDiv64(Magnitude(n), Magnitude(d));
    SignedQuotient(q, (n < 0) == (d < 0))
  }

  function Magnitude(x: I64): (a: U64)
    ensures a == Abs(x)
  {
    if x >= 0 then x else Negate64(Wrap64(x))
  }

  function SignedQuotient(q: U64, same: bool): I64 {
    if same then ToSigned64(q) else ToSigned64(Negate64(q))
  }

  /** It truncates toward zero for every pair of operands but one, where the quotient is 2^63. */
  lemma SDiv64Exact(n: I64, d: I64)
    requires d != 0
    ensures SDiv64(n, d) == TruncDiv(n, d) <==> !(n == I64_MIN && d == -1)
  {
    var q: int := Abs(n) / Abs(d);
    AbsQuotient(Abs(n), Abs(d));
    SignedQuotientExact(q, (n < 0) == (d < 0));
  }

  lemma SignedQuotientExact(q: int, same: bool)
    requires 0 <= q <= 0x8000_0000_0000_0000
    ensures SignedQuotient(q, same) == (if same then q else -q) <==> !(same && q == 0x8000_0000_0000_0000)
  {
  }

  lemma AbsQuotient(a: nat, b: nat)
    requires b > 0
    ensures 0 <= a / b <= a
    ensures b >= 2 ==> 2 * (a / b) <= a
    ensures b == 1 ==> a / b == a
  {
    DivBounds(a, b);
    DivAtLeast(a, b, 0);
    assert a / b * b == b * (a / b);
    MulMono(1, b, a / b);
    if b >= 2 { MulMono(2, b, a / b); }
  }

  /** Remainder with the sign of the dividend, the partner of `TruncDiv`. */
  function TruncMod(n: int, d: int): int
    requires d != 0
  {
    n - d * TruncDiv(n, d)
  }

  /** `smod64`, declared to return a signed 32-bit value. */
  function SMod64(n: I64, d: I64): I32
    requires d != 0
  {
    ToSigned32(Low32(Wrap64(n - d * SDiv64(n, d))))
  }

  lemma TruncModBounds(n: int, d: int)
    requires d != 0
    ensures Abs(TruncMod(n, d)) == Abs(n) % Abs(d) < Abs(d)
  {
    var a, b := Abs(n), Abs(d);
    var q: int := a / b;
    DivBounds(a, b);
    assert q * b == b * q;
    assert (-b) * q == -(b * q) && b * -q == -(b * q) && (-b) * -q == b * q;
  }

  /** The remainder survives the narrowing for every dividend exactly when |d| <= 2^31. */
  lemma SMod64Exact(d: I64)
    requires d != 0
    ensures (forall n: I64 :: SMod64(n, d) == TruncMod(n, d)) <==> Abs(d) <= 0x8000_0000
  {
    if Abs(d) <= 0x8000_0000 {
      forall n: I64
        ensures SMod64(n, d) == TruncMod(n, d)
      {
        SMod64Narrow(n, d);
      }
    } else {
      var n: I64 := Abs(d) - 1;
      TruncDivSmall(n, d);
      SDiv64Exact(n, d);
      assert TruncMod(n, d) == n;
      assert SMod64(n, d) != n;
    }
  }

  lemma TruncDivSmall(n: int, d: int)
    requires d != 0 && 0 <= n < Abs(d)
    ensures TruncDiv(n, d) == 0
  {
    DivUnique(n, Abs(d), 0);
  }

  lemma SMod64Narrow(n: I64, d: I64)
    requires d != 0 && Abs(d) <= 0x8000_0000
    ensures SMod64(n, d) == TruncMod(n, d)
  {
    SDiv64Exact(n, d);
    TruncModBounds(n, d);
    if n == I64_MIN && d == -1 {
      assert SDiv64(n, d) == I64_MIN;
      assert Wrap64(n - d * SDiv64(n, d)) == 0;
      assert TruncDiv(n, d) == 0x8000_0000_0000_0000;
    } else {
      assert n - d * SDiv64(n, d) == TruncMod(n, d);
      var r := TruncMod(n, d);
      WrapNarrow(r);
    }
  }

  lemma WrapNarrow(r: int)
    requires -0x8000_0000 < r < 0x8000_0000
    ensures ToSigned32(Low32(Wrap64(r))) == r
  {
  }
}
