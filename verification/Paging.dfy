/**
 Paginate (internal/utils/utilities.go:26-43), whose page count is computed in
 floating point: int(math.Ceil(float64(totalRecords) / float64(pageSize))).

 A finite double is an integer of at most 53 bits times a power of two in the binary64
 exponent range, and the hardware quotient is any double nearest to the exact one
 (correct rounding, section 4.3.1 of IEEE 754-2008).
 */
module Paging {

  const DEFAULT_PAGE_SIZE := 6
  const TWO53 := 0x20_0000_0000_0000
  const TWO63 := 0x8000_0000_0000_0000
  const TWO64 := 0x1_0000_0000_0000_0000

  function Pow2(e: nat): (r: nat)
    ensures r >= 1
  {
    if e == 0 then 1 else 2 * Pow2(e - 1)
  }

  /** m * 2^e */
  function Scaled(m: int, e: int): real {
    if e >= 0 then (m * Pow2(e)) as real else m as real / Pow2(-e) as real
  }

  ghost predicate IsDouble(x: real) {
    exists m: int, e: int :: -TWO53 < m < TWO53 && -1074 <= e <= 971 && x == Scaled(m, e)
  }

  function Abs(x: real): real {
    if x < 0.0 then -x else x
  }

  /** q is a double nearest to x. */
  ghost predicate RoundsTo(x: real, q: real) {
    IsDouble(q) && forall y :: IsDouble(y) ==> Abs(q - x) <= Abs(y - x)
  }

  /** math.Ceil, as an integer. */
  function Ceil(x: real): int {
    if x == x.Floor as real then x.Floor else x.Floor + 1
  }

  /** The ceiling of n / p over the integers. */
  function CeilDiv(n: nat, p: nat): nat
    requires p > 0
  {
    (n + p - 1) / p
  }

  // ---------------------------------------------------------------- powers of two

  lemma {:induction false} Pow2Adds(a: nat, b: nat)
    ensures Pow2(a + b) == Pow2(a) * Pow2(b)
  {
    if a > 0 {
      Pow2Adds(a - 1, b);
    }
  }

  lemma Pow2Of53()
    ensures Pow2(53) == TWO53
  {
    assert Pow2(10) == 1024;
    Pow2Adds(10, 10);
    assert Pow2(20) == 1048576;
    Pow2Adds(3, 10);
    assert Pow2(13) == 8192;
    Pow2Adds(20, 13);
    assert Pow2(33) == 8589934592;
    Pow2Adds(20, 33);
  }

  /** The binade of a positive integer below 2^bits. */
  lemma {:induction false} Binade(m: nat, bits: nat) returns (t: nat)
    requires 1 <= m < Pow2(bits)
    ensures t < bits && Pow2(t) <= m < Pow2(t + 1)
  {
    if Pow2(bits - 1) <= m {
      t := bits - 1;
    } else {
      t := Binade(m, bits - 1);
    }
  }

  // ---------------------------------------------------------------- doubles

  lemma IntegersAreDoubles(k: int)
    requires -TWO53 <= k <= TWO53
    ensures IsDouble(k as real)
  {
    if k == TWO53 || k == -TWO53 {
      assert Scaled(k / 2, 1) == k as real by {
        assert Pow2(1) == 2;
      }
    } else {
      assert Scaled(k, 0) == k as real;
    }
  }

  /** Of the doubles with exponent e and a mantissa up to k, one is nearest to x. */
  lemma {:induction false} NearestMantissa(x: real, e: int, k: int) returns (q: real)
    requires -TWO53 < k < TWO53 && -1074 <= e <= 971
    ensures IsDouble(q)
    ensures forall m: int :: -TWO53 < m <= k ==> Abs(q - x) <= Abs(Scaled(m, e) - x)
    decreases k + TWO53
  {
    q := Scaled(k, e);
    if k > -TWO53 + 1 {
      var r := NearestMantissa(x, e, k - 1);
      if Abs(r - x) < Abs(q - x) {
        q := r;
      }
    }
  }

  lemma {:induction false} NearestUpToExponent(x: real, e: int) returns (q: real)
    requires -1074 <= e <= 971
    ensures IsDouble(q)
    ensures forall m: int, d: int :: -TWO53 < m < TWO53 && -1074 <= d <= e ==> Abs(q - x) <= Abs(Scaled(m, d) - x)
    decreases e + 1074
  {
    q := NearestMantissa(x, e, TWO53 - 1);
    if e > -1074 {
      var r := NearestUpToExponent(x, e - 1);
      if Abs(r - x) < Abs(q - x) {
        q := r;
      }
    }
  }

  /** Every number has a nearest double: correct rounding always has something to return. */
  lemma NearestDoubleExists(x: real) returns (q: real)
    ensures RoundsTo(x, q)
  {
    q := NearestUpToExponent(x, 971);
  }

  lemma ProductMonotone(a: int, b: int, c: nat)
    requires a <= b
    ensures a * c <= b * c
  {
  }

  lemma QuotientOfSum(m: int, d: nat)
    requires d > 0
    ensures (m * d + 1) as real / d as real == m as real + 1.0 / d as real
  {
    var r := d as real;
    assert (m * d + 1) as real == (m as real + 1.0 / r) * r;
  }

  /** Above an integer m in the binade of 2^t the next double is 2^(t-52) away. */
  lemma NextDouble(m: nat, t: nat)
    requires t <= 52 && Pow2(t) <= m < Pow2(t + 1)
    ensures IsDouble(m as real + 1.0 / Pow2(52 - t) as real)
  {
    var d := Pow2(52 - t);
    BinadeFits(m, t);
    ProductMonotone(0, m, d);
    var j := m * d + 1;
    QuotientOfSum(m, d);
    NextIsScaled(j, t, m as real + 1.0 / d as real);
  }

  lemma OneLess(a: nat, d: nat)
    ensures (a - 1) * d == a * d - d
  {
  }

  lemma BinadeFits(m: nat, t: nat)
    requires t <= 52 && m < Pow2(t + 1)
    ensures m * Pow2(52 - t) + 1 <= TWO53
    ensures t < 52 ==> m * Pow2(52 - t) + 1 < TWO53
  {
    assert t < 52 ==> Pow2(52 - t) >= 2;
    Pow2Of53();
    Pow2Adds(t + 1, 52 - t);
    OneLess(Pow2(t + 1), Pow2(52 - t));
    ProductMonotone(m, Pow2(t + 1) - 1, Pow2(52 - t));
  }

  lemma NextIsScaled(j: nat, t: nat, x: real)
    requires t <= 52 && j <= TWO53 && (j == TWO53 ==> t == 52) && x == j as real / Pow2(52 - t) as real
    ensures IsDouble(x)
  {
    if t == 52 {
      assert x == j as real;
      IntegersAreDoubles(j);
    } else {
      assert Scaled(j, t - 52) == x;
    }
  }

  /** 1/p as a lower bound on how far a quotient lies above an integer it does not reach. */
  lemma GapAbove(n: nat, p: nat, m: nat)
    requires p > 0 && m * p < n
    ensures n as real / p as real >= m as real + 1.0 / p as real
  {
    var x := n as real / p as real;
    assert x * p as real == n as real;
    var z := m as real + 1.0 / p as real;
    assert z * p as real == (m * p + 1) as real;
    if x < z {
      assert x * p as real < z * p as real;
    }
  }

  lemma Reciprocals(a: nat, b: nat)
    requires 0 < a <= b
    ensures 1.0 / b as real <= 1.0 / a as real
    ensures a < b ==> 1.0 / b as real < 1.0 / a as real
  {
    var x, y := 1.0 / a as real, 1.0 / b as real;
    assert x * a as real == 1.0 && y * b as real == 1.0;
  }

  lemma HalfOfReciprocal(d: nat)
    requires d > 0
    ensures 1.0 / (2 * d) as real == 0.5 * (1.0 / d as real)
  {
  }

  lemma Cancel(c: nat, a: nat, b: nat)
    requires c > 0 && c * a < c * b
    ensures a < b
  {
    if b <= a {
      ProductMonotone(b, a, c);
    }
  }

  /** Twice the gap exceeds the spacing of the doubles just above m: rounding cannot fall back to m. */
  lemma GapExceedsHalfSpacing(n: nat, p: nat, m: nat, t: nat)
    requires 0 < p && m * p < n <= TWO53 && t <= 52 && Pow2(t) <= m
    ensures 2.0 * (1.0 / p as real) > 1.0 / Pow2(52 - t) as real
  {
    Pow2Of53();
    Pow2Adds(t, 53 - t);
    ProductMonotone(Pow2(t), m, p);
    Cancel(Pow2(t), p, Pow2(53 - t));
    Reciprocals(p, Pow2(53 - t));
    HalfOfReciprocal(Pow2(52 - t));
  }

  lemma OneSpacingUpIsCloser(x: real, m: real, gap: real, spacing: real)
    requires x >= m + gap && 2.0 * gap > spacing > 0.0
    ensures Abs(m + spacing - x) < x - m
  {
  }

  /** Some double is closer to n/p than the integer m below it. */
  lemma CloserThanTheIntegerBelow(n: nat, p: nat, m: nat) returns (y: real)
    requires 0 < p <= TWO53 && m * p < n <= TWO53
    ensures IsDouble(y) && Abs(y - n as real / p as real) < n as real / p as real - m as real
  {
    GapAbove(n, p, m);
    if m == 0 {
      Pow2Of53();
      y := Scaled(1, -53);
      Reciprocals(p, TWO53);
    } else {
      Pow2Of53();
      ProductMonotone(1, p, m);
      var t := Binade(m, 53);
      NextDouble(m, t);
      GapExceedsHalfSpacing(n, p, m, t);
      var spacing := 1.0 / Pow2(52 - t) as real;
      y := m as real + spacing;
      OneSpacingUpIsCloser(n as real / p as real, m as real, 1.0 / p as real, spacing);
    }
  }

  /** The floating-point page count is exact: the ceiling of the rounded quotient is the integer ceiling. */
  lemma PageCountIsExact(n: nat, p: nat, q: real)
    requires 0 < n <= TWO53 && 0 < p <= TWO53 && RoundsTo(n as real / p as real, q)
    ensures Ceil(q) == CeilDiv(n, p)
  {
    var x, k := n as real / p as real, CeilDiv(n, p);
    CeilDivBounds(n, p);
    GapAbove(n, p, k - 1);
    NotAbove(n, p, k);
    IntegersAreDoubles(k - 1);
    IntegersAreDoubles(k);
    RoundingStaysBetween(x, q, (k - 1) as real, k as real);
    var y := CloserThanTheIntegerBelow(n, p, k - 1);
    RoundingPrefersCloser(x, q, y, (k - 1) as real);
    CeilIs(q, k);
  }

  lemma NotAbove(n: nat, p: nat, k: nat)
    requires p > 0 && n <= k * p
    ensures n as real / p as real <= k as real
  {
    var x := n as real / p as real;
    assert x * p as real == n as real <= (k * p) as real == k as real * p as real;
  }

  lemma RoundingStaysBetween(x: real, q: real, lo: real, hi: real)
    requires RoundsTo(x, q) && IsDouble(lo) && IsDouble(hi) && lo <= x <= hi
    ensures lo <= q <= hi
  {
  }

  lemma RoundingPrefersCloser(x: real, q: real, y: real, m: real)
    requires RoundsTo(x, q) && IsDouble(y) && m <= x && Abs(y - x) < x - m
    ensures q != m
  {
  }

  lemma CeilIs(q: real, k: int)
    requires (k - 1) as real < q <= k as real
    ensures Ceil(q) == k
  {
  }

  lemma CeilDivBounds(n: nat, p: nat)
    requires 0 < p && 0 < n
    ensures var k := CeilDiv(n, p); 1 <= k <= n && (k - 1) * p < n <= k * p
  {
    var k, r := CeilDiv(n, p), (n + p - 1) % p;
    assert n + p - 1 == k * p + r;
    assert (k - 1) * p == k * p - p;
    if k > n {
      ProductMonotone(n, k - 1, p);
      ProductMonotone(1, p, n);
    }
  }

  // ---------------------------------------------------------------- beyond 2^53, one record a page

  lemma SmallUnlessScaledUp(m: int, e: int)
    requires -TWO53 < m < TWO53 && e <= 0
    ensures Scaled(m, e) < TWO53 as real
  {
    if e < 0 {
      var d, x := Pow2(-e) as real, Scaled(m, e);
      assert x * d == m as real;
      assert x >= TWO53 as real ==> x * d >= TWO53 as real * d;
    }
  }

  /** From 2^53 on a double is an integer of at most 53 bits scaled up, so it is an integer. */
  lemma LargeDouble(q: real) returns (m: int, e: nat)
    requires IsDouble(q) && q >= TWO53 as real
    ensures 0 < m < TWO53 && 1 <= e <= 971 && q == (m * Pow2(e)) as real
  {
    var m', e' :| -TWO53 < m' < TWO53 && -1074 <= e' <= 971 && q == Scaled(m', e');
    assert e' >= 1 by {
      if e' <= 0 {
        SmallUnlessScaledUp(m', e');
      }
    }
    m, e := m', e';
    PositiveFactor(m, Pow2(e));
  }

  lemma PositiveFactor(m: int, c: nat)
    requires m * c > 0
    ensures m > 0
  {
  }

  lemma FactorMonotone(a: nat, b: nat, c: nat)
    requires a < b && c > 0
    ensures a * c < b * c
  {
  }

  /** In the binade of 2^t the doubles are the multiples of 2^(t-52). */
  lemma DoubleIffMultiple(n: nat, t: nat)
    requires 53 <= t <= 1023 && Pow2(t) <= n < Pow2(t + 1)
    ensures IsDouble(n as real) <==> n % Pow2(t - 52) == 0
  {
    Pow2Of53();
    Pow2Monotone(53, t);
    if n % Pow2(t - 52) == 0 {
      MultipleIsDouble(n, t);
    }
    if IsDouble(n as real) {
      DoubleIsMultiple(n, t);
    }
  }

  lemma MultipleIsDouble(n: nat, t: nat)
    requires 53 <= t <= 1023 && n < Pow2(t + 1) && n % Pow2(t - 52) == 0
    ensures IsDouble(n as real)
  {
    var c := Pow2(t - 52);
    var k := n / c;
    assert n == k * c;
    Pow2Of53();
    Pow2Adds(53, t - 52);
    if k >= TWO53 {
      ProductMonotone(TWO53, k, c);
    }
    assert Scaled(k, t - 52) == n as real;
  }

  lemma DoubleIsMultiple(n: nat, t: nat)
    requires 53 <= t && TWO53 <= Pow2(t) <= n && IsDouble(n as real)
    ensures n % Pow2(t - 52) == 0
  {
    var m, e := LargeDouble(n as real);
    assert n == m * Pow2(e);
    ExponentIsLarge(m, e, t);
    Pow2Adds(e - (t - 52), t - 52);
    MultipleOf(m, Pow2(e - (t - 52)), Pow2(t - 52));
  }

  lemma {:induction false} Pow2Monotone(a: nat, b: nat)
    requires a <= b
    ensures Pow2(a) <= Pow2(b)
  {
    if a < b {
      Pow2Monotone(a, b - 1);
    }
  }

  lemma ScaledMantissaBound(m: nat, e: nat)
    requires m < TWO53
    ensures m * Pow2(e) < Pow2(53 + e)
  {
    Pow2Of53();
    Pow2Adds(53, e);
    FactorMonotone(m, TWO53, Pow2(e));
  }

  /** A mantissa of 53 bits needs an exponent of t-52 to reach 2^t. */
  lemma ExponentIsLarge(m: nat, e: nat, t: nat)
    requires m < TWO53 && Pow2(t) <= m * Pow2(e)
    ensures e + 52 >= t
  {
    ScaledMantissaBound(m, e);
    if 53 + e <= t {
      Pow2Monotone(53 + e, t);
    }
  }

  lemma MultipleOf(m: nat, a: nat, c: nat)
    requires c > 0
    ensures (m * (a * c)) % c == 0
  {
    Associates(m, a, c);
    MultipleIsZero(m * a, c);
  }

  lemma Associates(m: nat, a: nat, c: nat)
    ensures m * (a * c) == (m * a) * c
  {
  }

  lemma MultipleIsZero(k: nat, c: nat)
    requires c > 0
    ensures (k * c) % c == 0
  {
    var x := k * c;
    var q, r := x / c, x % c;
    assert x == q * c + r;
    Distributes(k, q, c);
    OnlyZeroMultiple(k - q, c, r);
  }

  lemma Distributes(k: int, q: int, c: nat)
    ensures (k - q) * c == k * c - q * c
  {
  }

  lemma OnlyZeroMultiple(d: int, c: nat, r: nat)
    requires d * c == r < c
    ensures r == 0
  {
    if d >= 1 {
      ProductMonotone(1, d, c);
    } else if d <= -1 {
      ProductMonotone(d, -1, c);
    }
  }

  lemma NearestToADouble(x: real, q: real)
    requires IsDouble(x) && RoundsTo(x, q)
    ensures q == x
  {
    assert Abs(q - x) <= Abs(x - x);
  }

  /**
   With one record a page the page count is right exactly for the totals that are doubles:
   all up to 2^53, and beyond that the multiples of the spacing of their binade.
   x is the total as converted, q the quotient.
   */
  lemma OneARecordIff(n: nat, x: real, q: real)
    requires 0 < n && RoundsTo(n as real, x) && RoundsTo(x / 1.0, q)
    ensures Ceil(q) == CeilDiv(n, 1) <==> IsDouble(n as real)
  {
    NearestToADouble(x, q);
    if IsDouble(n as real) {
      NearestToADouble(n as real, x);
    } else {
      IntegersAreDoubles(TWO53);
      assert n > TWO53 by {
        if n <= TWO53 {
          IntegersAreDoubles(n);
        }
      }
      assert Abs(x - n as real) <= Abs(TWO53 as real - n as real);
      var m, e := LargeDouble(x);
      assert Ceil(x) as real == x;
    }
  }

  /** In terms of the total alone: up to 2^53, or a multiple of its binade's spacing. */
  lemma OneARecordIffMultiple(n: nat, t: nat, x: real, q: real)
    requires 0 < n && Pow2(t) <= n < Pow2(t + 1) && t <= 1023 && RoundsTo(n as real, x) && RoundsTo(x / 1.0, q)
    ensures Ceil(q) == CeilDiv(n, 1) <==> t <= 52 || n % Pow2(t - 52) == 0
  {
    OneARecordIff(n, x, q);
    if t <= 52 {
      Pow2Of53();
      Pow2Monotone(t + 1, 53);
      IntegersAreDoubles(n);
    } else {
      DoubleIffMultiple(n, t);
    }
  }

  // ---------------------------------------------------------------- Paginate

  /** Go's int is 64 bits wide and wraps around. */
  function Wrap64(x: int): int {
    (x + TWO63) % TWO64 - TWO63
  }

  function EffectivePage(page: int): int {
    if page <= 0 then 1 else page
  }

  function EffectiveSize(pageSize: int): int {
    if pageSize <= 0 then DEFAULT_PAGE_SIZE else pageSize
  }

  function Offset(page: int, pageSize: int): int {
    Wrap64((EffectivePage(page) - 1) * EffectiveSize(pageSize))
  }

  /** The offset is the Go product: it fits in 64 bits and differs from the true one by a multiple of 2^64. */
  lemma OffsetIsGoProduct(page: int, pageSize: int)
    ensures var exact := (if page >= 1 then page - 1 else 0) * (if pageSize >= 1 then pageSize else 6);
            && -TWO63 <= Offset(page, pageSize) < TWO63
            && (exact - Offset(page, pageSize)) % TWO64 == 0
            && (-TWO63 <= exact < TWO63 ==> Offset(page, pageSize) == exact)
  {
    var exact := (EffectivePage(page) - 1) * EffectiveSize(pageSize);
    WrapsByMultiples(exact);
  }

  lemma WrapsByMultiples(x: int)
    ensures -TWO63 <= Wrap64(x) < TWO63 && (x - Wrap64(x)) % TWO64 == 0
    ensures -TWO63 <= x < TWO63 ==> Wrap64(x) == x
  {
    var q, r := (x + TWO63) / TWO64, (x + TWO63) % TWO64;
    assert x + TWO63 == q * TWO64 + r && x - Wrap64(x) == q * TWO64;
  }

  /** divide is the hardware's division of two doubles. */
  method Paginate(page: int, pageSize: int, totalRecords: int, divide: (int, int) -> real)
    returns (offset: int, totalPage: int)
    requires 0 < totalRecords <= TWO53 && EffectiveSize(pageSize) <= TWO53 ==>
               RoundsTo(totalRecords as real / EffectiveSize(pageSize) as real, divide(totalRecords, EffectiveSize(pageSize)))
    ensures offset == Offset(page, pageSize)
    ensures totalPage == if totalRecords == 0 then 0 else Ceil(divide(totalRecords, EffectiveSize(pageSize)))
    ensures 0 < totalRecords <= TWO53 && EffectiveSize(pageSize) <= TWO53 ==>
              totalPage == CeilDiv(totalRecords, EffectiveSize(pageSize))
  {
    var page' := page;
    if page' <= 0 {
      page' := 1;
    }
    var size := pageSize;
    if size <= 0 {
      size := DEFAULT_PAGE_SIZE;
    }
    offset := Wrap64((page' - 1) * size);
    if totalRecords == 0 {
      totalPage := 0;
    } else {
      totalPage := Ceil(divide(totalRecords, size));
      if 0 < totalRecords <= TWO53 && size <= TWO53 {
        PageCountIsExact(totalRecords, size, divide(totalRecords, size));
      }
    }
  }
}
