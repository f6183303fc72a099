/**
  Just enough floating point. Doubles are the finite values of the binary64 format of
  IEEE 754-2008 (section 3.6), and an operation delivers any double nearest to the exact
  result (section 4.3.1), whichever way it breaks ties.
*/
module Binary64 {

  const TWO_53: nat := 0x20_0000_0000_0000

  // ---------------------------------------------------------------- products

  lemma NonNegative(x: real, z: real)
    requires x >= 0.0 && z >= 0.0
    ensures x * z >= 0.0
  {
  }

  lemma Distributes(x: real, y: real, z: real)
    ensures (x - y) * z == x * z - y * z
    ensures (x + y) * z == x * z + y * z
  {
  }

  lemma ProductOrder(x: real, y: real, z: real)
    requires x <= y && z >= 0.0
    ensures x * z <= y * z
  {
    NonNegative(y - x, z);
    Distributes(y, x, z);
  }

  lemma Positive(x: real, y: real)
    requires x > 0.0 && y > 0.0
    ensures x * y > 0.0
  {
  }

  lemma StrictProductOrder(x: real, y: real, z: real)
    requires x < y && z > 0.0
    ensures x * z < y * z
  {
    Positive(y - x, z);
    Distributes(y, x, z);
  }

  lemma Cancel(x: real, y: real, z: real)
    requires z > 0.0 && x * z < y * z
    ensures x < y
  {
    if y <= x {
      ProductOrder(y, x, z);
    }
  }

  lemma CancelAtMost(x: real, y: real, z: real)
    requires z > 0.0 && x * z <= y * z
    ensures x <= y
  {
    if y < x {
      StrictProductOrder(y, x, z);
    }
  }

  lemma DivideBack(x: real, z: real)
    requires z != 0.0
    ensures (x / z) * z == x
  {
  }

  lemma RealProduct(n: int, b: int)
    ensures n as real * b as real == (n * b) as real
  {
  }

  lemma NonNegativeInt(x: int, z: int)
    requires x >= 0 && z >= 0
    ensures x * z >= 0
  {
  }

  lemma DistributesInt(x: int, y: int, z: int)
    ensures (x - y) * z == x * z - y * z
    ensures (x + y) * z == x * z + y * z
  {
  }

  lemma ProductOrderInt(x: int, y: int, z: int)
    requires x <= y && z >= 0
    ensures x * z <= y * z
  {
    NonNegativeInt(y - x, z);
    DistributesInt(y, x, z);
  }

  lemma CancelInt(x: int, y: int, z: int)
    requires z > 0 && x * z < y * z
    ensures x < y
  {
    if y <= x {
      ProductOrderInt(y, x, z);
    }
  }

  // ---------------------------------------------------------------- powers of two

  function Pow2(n: nat): (p: nat)
    ensures p > 0
  {
    if n == 0 then 1 else 2 * Pow2(n - 1)
  }

  lemma {:induction false} Pow2Adds(a: nat, b: nat)
    ensures Pow2(a + b) == Pow2(a) * Pow2(b)
  {
    if a > 0 {
      Pow2Adds(a - 1, b);
      Doubles(Pow2(a - 1), Pow2(b));
    }
  }

  lemma Doubles(p: nat, q: nat)
    ensures 2 * (p * q) == (2 * p) * q
  {
  }

  lemma Pow2Values()
    ensures Pow2(52) == TWO_53 / 2 && Pow2(53) == TWO_53
  {
    assert Pow2(13) == 0x2000;
    Pow2Adds(13, 13);
    Pow2Adds(26, 26);
  }

  lemma {:induction false} Pow2Grows(a: nat, b: nat)
    ensures a <= b ==> Pow2(a) <= Pow2(b)
  {
    if a < b {
      Pow2Grows(a, b - 1);
    }
  }

  function Log2(n: nat): (k: nat)
    requires n >= 1
    ensures Pow2(k) <= n < Pow2(k + 1)
  {
    if n == 1 then 0 else 1 + Log2(n / 2)
  }

  // ---------------------------------------------------------------- doubles

  /** x == m * 2^e within the significand and exponent range of binary64. */
  ghost predicate IsDoubleWith(x: real, m: int, e: int) {
    && -(TWO_53 as int) < m < TWO_53
    && -1074 <= e <= 971
    && if e >= 0 then x == (m * Pow2(e)) as real else x * Pow2(-e) as real == m as real
  }

  ghost predicate IsDouble(x: real) {
    exists m: int, e: int :: IsDoubleWith(x, m, e)
  }

  function Abs(x: real): real {
    if x < 0.0 then -x else x
  }

  /** r is what a round-to-nearest operation may deliver when the exact result is q. */
  ghost predicate IsNearestDouble(q: real, r: real) {
    IsDouble(r) && forall x: real | IsDouble(x) :: Abs(r - q) <= Abs(x - q)
  }

  /** std::ceil */
  function Ceil(x: real): (c: int)
    ensures c as real - 1.0 < x <= c as real
  {
    -((-x).Floor)
  }

  lemma IntegerIsDouble(n: nat)
    requires n <= TWO_53
    ensures IsDouble(n as real)
  {
    if n < TWO_53 {
      assert n * Pow2(0) == n;
      assert IsDoubleWith(n as real, n, 0);
    } else {
      assert Pow2(1) == 2;
      assert IsDoubleWith(n as real, TWO_53 / 2, 1);
    }
  }

  /** A double is rounded to itself. */
  lemma NearestOfDouble(q: real, r: real)
    requires IsDouble(q) && IsNearestDouble(q, r)
    ensures r == q
  {
    assert Abs(r - q) <= Abs(q - q);
  }

  /** Rounding keeps the order, even if ties are broken in different ways. */
  lemma NearestIsMonotone(x: real, y: real, rx: real, ry: real)
    requires x < y && IsNearestDouble(x, rx) && IsNearestDouble(y, ry)
    ensures rx <= ry
  {
    assert Abs(rx - x) <= Abs(ry - x);
    assert Abs(ry - y) <= Abs(rx - y);
  }

  lemma NearestAtLeastOne(q: real, r: real)
    requires q >= 1.0 && IsNearestDouble(q, r)
    ensures r >= 1.0
  {
    IntegerIsDouble(1);
    if q == 1.0 {
      NearestOfDouble(q, r);
    } else {
      assert IsNearestDouble(1.0, 1.0);
      NearestIsMonotone(1.0, q, 1.0, r);
    }
  }

  // ---------------------------------------------------------------- there is one

  function Value(m: int, e: int): (x: real) {
    if e >= 0 then (m * Pow2(e)) as real else m as real / Pow2(-e) as real
  }

  lemma ValueIsDouble(m: int, e: int)
    requires -(TWO_53 as int) < m < TWO_53 && -1074 <= e <= 971
    ensures IsDoubleWith(Value(m, e), m, e)
  {
    if e < 0 {
      DivideBack(m as real, Pow2(-e) as real);
    }
  }

  lemma QuotientIsUnique(x: real, y: real, z: real)
    requires z > 0.0 && x * z == y
    ensures x == y / z
  {
    DivideBack(y, z);
    CancelAtMost(x, y / z, z);
    CancelAtMost(y / z, x, z);
  }

  lemma DoubleHasValue(x: real, m: int, e: int)
    requires IsDoubleWith(x, m, e)
    ensures x == Value(m, e)
  {
    if e < 0 {
      QuotientIsUnique(x, m as real, Pow2(-e) as real);
    }
  }

  const EXPONENTS: nat := 2046

  /** All doubles, one for each index below 2046 (2^54 - 1). */
  function Nth(k: nat): (x: real) {
    Value(k / EXPONENTS - (TWO_53 - 1), k % EXPONENTS - 1074)
  }

  lemma NthIsDouble(k: nat)
    requires k < EXPONENTS * (2 * TWO_53 - 1)
    ensures IsDouble(Nth(k))
  {
    ValueIsDouble(k / EXPONENTS - (TWO_53 - 1), k % EXPONENTS - 1074);
  }

  lemma IndexOf(a: nat, b: nat) returns (k: nat)
    requires a < 2 * TWO_53 - 1 && b < EXPONENTS
    ensures k < EXPONENTS * (2 * TWO_53 - 1) && k / EXPONENTS == a && k % EXPONENTS == b
  {
    k := EXPONENTS * a + b;
  }

  lemma DoubleIsNth(x: real) returns (k: nat)
    requires IsDouble(x)
    ensures k < EXPONENTS * (2 * TWO_53 - 1) && x == Nth(k)
  {
    var m: int, e: int :| IsDoubleWith(x, m, e);
    k := IndexOf(m + TWO_53 - 1, e + 1074);
    DoubleHasValue(x, m, e);
  }

  lemma {:induction false} Closest(q: real, n: nat) returns (i: nat)
    requires n > 0
    ensures i < n && forall j: nat | j < n :: Abs(Nth(i) - q) <= Abs(Nth(j) - q)
  {
    if n == 1 {
      i := 0;
    } else {
      i := Closest(q, n - 1);
      if Abs(Nth(n - 1) - q) < Abs(Nth(i) - q) {
        i := n - 1;
      }
    }
  }

  /** Every real number has a nearest double. */
  lemma NearestExists(q: real) returns (r: real)
    ensures IsNearestDouble(q, r)
  {
    var i := Closest(q, EXPONENTS * (2 * TWO_53 - 1));
    r := Nth(i);
    NthIsDouble(i);
    forall x: real | IsDouble(x)
      ensures Abs(r - q) <= Abs(x - q)
    {
      var k := DoubleIsNth(x);
    }
  }

  // ---------------------------------------------------------------- between two integers

  lemma SignificandFits(n: nat, p: nat, s: nat)
    requires s >= 1 && p * s == TWO_53 / 2
    requires n < 2 * p && n < TWO_53 - 1
    ensures n * s + 1 < TWO_53
  {
    if s == 1 {
    } else {
      ProductOrderInt(n, 2 * p - 1, s);
      DistributesInt(2 * p, 1, s);
      Doubles(p, s);
    }
  }

  lemma ScaledIsDouble(x: real, m: nat, k: nat, s: nat)
    requires k <= 52 && s == Pow2(52 - k) && m < TWO_53 && x * s as real == m as real
    ensures IsDouble(x)
  {
    if k == 52 {
      assert m * Pow2(0) == m;
      assert IsDoubleWith(x, m, 0);
    } else {
      assert IsDoubleWith(x, m, -(52 - k));
    }
  }

  /** The place of n among the powers of two: p <= n < 2 p, and s scales p to 2^52. */
  lemma ScaleOf(n: nat) returns (k: nat, p: nat, s: nat)
    requires 1 <= n < TWO_53 - 1
    ensures k <= 52 && s == Pow2(52 - k) && p * s == TWO_53 / 2
    ensures 1 <= p <= n < 2 * p && s >= 1 && n * s + 1 < TWO_53
  {
    Pow2Values();
    k := Log2(n);
    Pow2Grows(53, k);
    p, s := Pow2(k), Pow2(52 - k);
    Pow2Adds(k, 52 - k);
    SignificandFits(n, p, s);
  }

  /** A step of one part in s above n. */
  lemma StepAbove(n: nat, s: nat) returns (step: real)
    requires s >= 1
    ensures step * s as real == 1.0
    ensures (n as real + step) * s as real == (n * s + 1) as real
  {
    step := 1.0 / s as real;
    DivideBack(1.0, s as real);
    Distributes(n as real, step, s as real);
    RealProduct(n, s);
  }

  /** The next double above n, and how far it is. */
  lemma DoubleAbove(n: nat) returns (step: real, p: nat, s: nat)
    requires 1 <= n < TWO_53 - 1
    ensures IsDouble(n as real + step) && step * s as real == 1.0
    ensures p * s == TWO_53 / 2 && 1 <= p <= n && s >= 1
  {
    var k;
    k, p, s := ScaleOf(n);
    step := StepAbove(n, s);
    ScaledIsDouble(n as real + step, n * s + 1, k, s);
  }

  lemma ScaleExceedsDivisor(a: nat, b: nat, n: nat, p: nat, s: nat)
    requires p * s == TWO_53 / 2 && 1 <= p <= n
    requires n * b < a <= TWO_53
    ensures b < 2 * s
  {
    ProductOrderInt(p, n, b);
    assert b * p < (2 * s) * p by {
      Doubles(s, p);
    }
    CancelInt(b, 2 * s, p);
  }

  lemma StepBelowTwiceGap(gap: real, step: real, b: nat, s: nat)
    requires 0 < b < 2 * s && gap * b as real >= 1.0
    requires step * s as real == 1.0
    ensures 0.0 < step < 2.0 * gap
  {
    var c, d := b as real, s as real;
    assert 0.0 * c == 0.0 && 0.0 * d == 0.0;
    Cancel(0.0, gap, c);
    Cancel(0.0, step, d);
    StrictProductOrder(c, 2.0 * d, gap);
    assert (2.0 * gap) * d == (2.0 * d) * gap;
    Cancel(step, 2.0 * gap, d);
  }

  /** Some double lies closer to the quotient q of a by b than the integer n just below it. */
  lemma CloserDouble(a: nat, b: nat, n: nat, q: real) returns (x: real)
    requires 0 < b && 1 <= n < TWO_53 - 1 && n * b < a <= TWO_53
    requires n as real < q && (q - n as real) * b as real >= 1.0
    ensures IsDouble(x) && Abs(x - q) < q - n as real
  {
    var step, p, s := DoubleAbove(n);
    ScaleExceedsDivisor(a, b, n, p, s);
    StepBelowTwiceGap(q - n as real, step, b, s);
    x := n as real + step;
  }

  lemma NearestWithinIntegers(q: real, r: real, n: nat)
    requires n + 1 <= TWO_53 && n as real < q <= (n + 1) as real
    requires IsNearestDouble(q, r)
    ensures n as real <= r <= (n + 1) as real
  {
    IntegerIsDouble(n);
    IntegerIsDouble(n + 1);
    assert Abs(r - q) <= Abs(n as real - q);
    assert Abs(r - q) <= Abs((n + 1) as real - q);
  }

  // ---------------------------------------------------------------- beyond 2^53

  lemma AtMostItsMultiple(x: real, p: nat)
    requires p >= 1 && x >= 0.0
    ensures x <= x * p as real
  {
    ProductOrder(1.0, p as real, x);
  }

  lemma FractionIsSmall(x: real, p: nat, m: int)
    requires p >= 1 && x * p as real == m as real && m < TWO_53
    ensures x <= TWO_53 as real
  {
    if x >= 0.0 {
      AtMostItsMultiple(x, p);
    }
  }

  lemma EvenProduct(m: int, e: nat) returns (half: int)
    requires e >= 1
    ensures m * Pow2(e) == 2 * half
  {
    half := m * Pow2(e - 1);
    assert m * (2 * Pow2(e - 1)) == 2 * (m * Pow2(e - 1));
  }

  lemma EvenIsNotBetween(x: real, half: int)
    requires x == (2 * half) as real
    ensures x <= TWO_53 as real || x >= (TWO_53 + 2) as real
  {
    assert half <= TWO_53 / 2 || half >= TWO_53 / 2 + 1;
  }

  /** No double lies strictly between 2^53 and 2^53 + 2. */
  lemma DoublesAreSparse(x: real, m: int, e: int)
    requires IsDoubleWith(x, m, e)
    ensures x <= TWO_53 as real || x >= (TWO_53 + 2) as real
  {
    if e < 0 {
      FractionIsSmall(x, Pow2(-e), m);
    } else if e == 0 {
      assert m * Pow2(0) == m;
    } else {
      var half := EvenProduct(m, e);
      EvenIsNotBetween(x, half);
    }
  }

  /** The first integer that no double represents may be rounded down. */
  lemma FirstGapRoundsDown()
    ensures IsNearestDouble((TWO_53 + 1) as real, TWO_53 as real)
  {
    IntegerIsDouble(TWO_53);
    var q := (TWO_53 + 1) as real;
    forall x: real | IsDouble(x)
      ensures Abs(TWO_53 as real - q) <= Abs(x - q)
    {
      var m: int, e: int :| IsDoubleWith(x, m, e);
      DoublesAreSparse(x, m, e);
    }
  }
}
