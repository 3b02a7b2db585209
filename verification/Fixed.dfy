/** execution/src/fixed.rs: decimals with four digits, as scaled 64-bit integers. */
module Fixed {
  import opened Prelude

  const SCALE: int := 10000
  const HALF_SCALE: int := SCALE / 2

  const I32_MIN: int := -0x8000_0000
  const I64_MIN: int := -0x8000_0000_0000_0000

  type i32 = x: int | I32_MIN <= x < -I32_MIN witness 0
  type i64 = x: int | I64_MIN <= x < -I64_MIN witness 0

  /** What a cast keeps: the value of the type that is equal modulo its width. */
  function ToI32(x: int): (r: i32)
    ensures I32_MIN <= x < -I32_MIN <==> r == x
  {
    (x - I32_MIN) % 0x1_0000_0000 + I32_MIN
  }

  function ToI64(x: int): (r: i64)
    ensures I64_MIN <= x < -I64_MIN <==> r == x
  {
    (x - I64_MIN) % 0x1_0000_0000_0000_0000 + I64_MIN
  }

  function Abs(x: int): nat {
    if x < 0 then -x else x
  }

  function SignOf(x: int): int {
    if x < 0 then -1 else 1
  }

  /** Division as the processor does it, toward zero. */
  function Quotient(a: int, b: int): int
    requires b != 0
  {
    SignOf(a) * SignOf(b) * (Abs(a) / Abs(b))
  }

  datatype Decimal = Decimal(raw: i64) {
    function Mul(other: Decimal): Decimal {
      Decimal(ToI64(Quotient(raw * other.raw, SCALE)))
    }

    function Div(other: Decimal): Decimal {
      if other.raw == 0 then Decimal(0)
      else Decimal(ToI64(Quotient(raw * SCALE, other.raw)))
    }

    /** `None` when the addition of a half overflows, which aborts. */
    function ToIntRounded(): Option<i32> {
      if raw >= 0 then
        if raw + HALF_SCALE >= -I64_MIN then None
        else Some(ToI32(Quotient(raw + HALF_SCALE, SCALE)))
      else
        if raw - HALF_SCALE < I64_MIN then None
        else Some(ToI32(Quotient(raw - HALF_SCALE, SCALE)))
    }
  }

  function FromInt(value: i32): Decimal {
    Decimal(value * SCALE)
  }

  function FromFrac(numerator: i32, denominator: i32): Decimal {
    if denominator == 0 then Decimal(0) else FromInt(numerator).Div(FromInt(denominator))
  }

  /** The integer nearest to `n / d`, ties away from zero. */
  function Nearest(n: int, d: int): int
    requires d != 0
  {
    SignOf(n) * SignOf(d) * ((2 * Abs(n) + Abs(d)) / (2 * Abs(d)))
  }

  /******* Division by bounds *******/

  lemma CancelFactor(a: int, b: int, factor: int)
    requires factor > 0 && a * factor < b * factor
    ensures a < b
  {
  }

  lemma DivBounds(a: nat, b: nat)
    requires b > 0
    ensures b * (a / b) <= a < b * (a / b) + b
  {
  }

  lemma DivIs(a: nat, b: nat, q: nat)
    requires b > 0 && b * q <= a < b * q + b
    ensures a / b == q
  {
    DivBounds(a, b);
    var p := a / b;
    assert q * b < (p + 1) * b;
    CancelFactor(q, p + 1, b);
    assert p * b < (q + 1) * b;
    CancelFactor(p, q + 1, b);
  }

  lemma DivCancels(a: nat, b: nat, s: nat)
    requires b > 0 && s > 0
    ensures b * s > 0 && a * s / (b * s) == a / b
  {
    var q := a / b;
    DivBounds(a, b);
    ScaleBoth(a, b, q, b * q, s);
    DivIs(a * s, b * s, q);
  }

  lemma ScaleBoth(a: int, b: int, q: int, bq: int, s: int)
    requires s > 0 && bq == b * q && bq <= a < bq + b
    ensures b * s * q <= a * s < b * s * q + b * s
  {
    assert b * s * q == bq * s;
    assert (bq + b) * s == bq * s + b * s;
  }

  /******* Rounding *******/

  /** `Nearest` is what its name says. */
  lemma NearestIsNearest(n: int, d: int)
    requires d != 0
    ensures
      var product := d * Nearest(n, d);
      2 * Abs(n - product) <= Abs(d) && (2 * Abs(n - product) == Abs(d) ==> Abs(product) > Abs(n))
  {
    var a, b := Abs(n), Abs(d);
    var m := (2 * a + b) / (2 * b);
    DivBounds(2 * a + b, 2 * b);
    SignedProduct(n, d, m);
    assert 2 * b * m == 2 * (b * m);
  }

  lemma SignedProduct(n: int, d: int, m: int)
    ensures d * (SignOf(n) * SignOf(d) * m) == SignOf(n) * (Abs(d) * m)
  {
    assert d == SignOf(d) * Abs(d);
  }

  lemma NotBelowMiddle(a: nat, b: nat, q: nat, m: nat)
    requires b > 0 && 2 * (b * m) <= 2 * a + b && a * SCALE < b * q + b
    ensures SCALE * m <= q + HALF_SCALE
  {
    Distributes(SCALE, m, -HALF_SCALE, b);
    Distributes(1, q, 1, b);
    CancelFactor(SCALE * m - HALF_SCALE, q + 1, b);
  }

  lemma Distributes(s: int, m: int, h: int, b: int)
    ensures (s * m + h) * b == s * (b * m) + h * b
  {
  }

  lemma NotAboveMiddle(a: nat, b: nat, q: nat, m: nat)
    requires b > 0 && 2 * a + b < 2 * (b * m) + 2 * b && b * q <= a * SCALE
    ensures q + HALF_SCALE < SCALE * m + SCALE
  {
    var bm, bq := b * m, b * q;
    assert (SCALE * m + HALF_SCALE) * b == SCALE * bm + HALF_SCALE * b;
    assert q * b == bq;
    CancelFactor(q, SCALE * m + HALF_SCALE, b);
  }

  lemma BoundsOfNearest(a: nat, b: nat, m: nat)
    requires b > 0 && m == (2 * a + b) / (2 * b)
    ensures 2 * (b * m) <= 2 * a + b < 2 * (b * m) + 2 * b
  {
    QuotientBounds(2 * a + b, 2 * b, m);
    assert 2 * b * m == 2 * (b * m);
  }

  /** Scaling by the four digits first and rounding after loses nothing: truncating to the digits cannot
      cross the middle between two integers, because the middle is itself a four-digit number. */
  lemma NoDoubleRounding(a: nat, b: nat, q: nat, m: nat)
    requires b > 0 && q == a * SCALE / b && m == (2 * a + b) / (2 * b)
    ensures (q + HALF_SCALE) / SCALE == m
  {
    QuotientBounds(a * SCALE, b, q);
    BoundsOfNearest(a, b, m);
    RoundedIs(a, b, q, m);
  }

  lemma QuotientBounds(a: nat, b: nat, q: nat)
    requires b > 0 && q == a / b
    ensures b * q <= a < b * q + b
  {
    DivBounds(a, b);
  }

  lemma RoundedIs(a: nat, b: nat, q: nat, m: nat)
    requires b > 0 && b * q <= a * SCALE < b * q + b
    requires 2 * (b * m) <= 2 * a + b < 2 * (b * m) + 2 * b
    ensures (q + HALF_SCALE) / SCALE == m
  {
    NotBelowMiddle(a, b, q, m);
    NotAboveMiddle(a, b, q, m);
  }

  /** Both operands of the quotient carry the scale; it cancels. */
  lemma QuotientCancels(n: int, d: int)
    requires d != 0
    ensures Quotient(n * SCALE * SCALE, d * SCALE) == SignOf(n) * SignOf(d) * (Abs(n) * SCALE / Abs(d))
  {
    DivCancels(Abs(n) * SCALE, Abs(d), SCALE);
    assert Abs(n * SCALE * SCALE) == Abs(n) * SCALE * SCALE;
    assert Abs(d * SCALE) == Abs(d) * SCALE;
  }

  lemma FracIsQuotient(n: i32, d: i32, q: nat)
    requires d != 0 && q == Abs(n) * SCALE / Abs(d)
    ensures FromFrac(n, d).raw == SignOf(n) * SignOf(d) * q
    ensures q <= Abs(n) * SCALE
  {
    QuotientCancels(n, d);
    QuotientBounds(Abs(n) * SCALE, Abs(d), q);
    MulGrows(Abs(d), q);
    SignsKeepSize(n, d, q);
  }

  lemma SignsKeepSize(n: int, d: int, q: nat)
    ensures Abs(SignOf(n) * SignOf(d) * q) == q
  {
  }

  lemma MulGrows(b: nat, q: nat)
    requires b > 0
    ensures q <= b * q
  {
    assert (b - 1) * q >= 0;
  }

  lemma RoundsRaw(x: Decimal)
    requires Abs(x.raw) <= 0x8000_0000 * SCALE
    ensures x.ToIntRounded() == Some(ToI32(SignOf(x.raw) * ((Abs(x.raw) + HALF_SCALE) / SCALE)))
  {
  }

  /** A fraction converted and rounded is exactly the nearest integer, ties away from zero, for every
      numerator and denominator but one pair, whose quotient no `i32` holds; over zero it gives zero. */
  lemma RoundsToNearestIff(n: i32, d: i32)
    ensures d == 0 ==> FromFrac(n, d).ToIntRounded() == Some(0)
    ensures d != 0 ==>
              (FromFrac(n, d).ToIntRounded() == Some(Nearest(n, d)) <==> !(n == I32_MIN && d == -1))
  {
    if d != 0 {
      RoundsToNearest(n, d, Abs(n) * SCALE / Abs(d), (2 * Abs(n) + Abs(d)) / (2 * Abs(d)));
      NearestFits(n, d);
    }
  }

  /** The cast to `i32` apart, the result is the nearest integer. */
  lemma RoundsToNearest(n: i32, d: i32, q: nat, m: nat)
    requires d != 0 && q == Abs(n) * SCALE / Abs(d) && m == (2 * Abs(n) + Abs(d)) / (2 * Abs(d))
    ensures FromFrac(n, d).ToIntRounded() == Some(ToI32(SignOf(n) * SignOf(d) * m))
  {
    FracIsQuotient(n, d, q);
    NoDoubleRounding(Abs(n), Abs(d), q, m);
    RoundsFrac(FromFrac(n, d), SignOf(n) * SignOf(d), q, m);
  }

  lemma RoundsFrac(x: Decimal, sign: int, q: nat, m: nat)
    requires (sign == 1 || sign == -1) && x.raw == sign * q && q <= 0x8000_0000 * SCALE
    requires (q + HALF_SCALE) / SCALE == m
    ensures x.ToIntRounded() == Some(ToI32(sign * m))
  {
    RoundsRaw(x);
    RoundsWithSign(sign, q, sign * m);
  }

  lemma RoundsWithSign(sign: int, q: nat, nearest: int)
    requires sign == 1 || sign == -1
    requires nearest == sign * ((q + HALF_SCALE) / SCALE)
    ensures SignOf(sign * q) * ((Abs(sign * q) + HALF_SCALE) / SCALE) == nearest
  {
  }

  lemma NearestFits(n: i32, d: i32)
    requires d != 0
    ensures I32_MIN <= Nearest(n, d) < -I32_MIN <==> !(n == I32_MIN && d == -1)
  {
    var a, b := Abs(n), Abs(d);
    var m := (2 * a + b) / (2 * b);
    BoundsOfNearest(a, b, m);
    NearestShrinks(a, b, m);
  }

  lemma NearestShrinks(a: nat, b: nat, m: nat)
    requires b > 0 && 2 * (b * m) <= 2 * a + b < 2 * (b * m) + 2 * b
    ensures m <= a
    ensures b > 1 && a > 1 ==> m < a
    ensures b == 1 ==> m == a
  {
    if b > 1 && m >= 1 {
      assert b * m >= 2 * m;
      assert b * (m - 1) >= 2 * (m - 1);
      assert b * (m - 1) == b * m - b;
    }
  }

  /******* Products and quotients *******/

  /** Within range, a product is off by less than one unit of the last digit, and toward zero. */
  lemma MulWithinOneUnit(x: Decimal, y: Decimal)
    requires I64_MIN <= Quotient(x.raw * y.raw, SCALE) < -I64_MIN
    ensures
      var exact, got := x.raw * y.raw, x.Mul(y).raw * SCALE;
      Abs(exact - got) < SCALE && Abs(got) <= Abs(exact) && (got != 0 ==> (got < 0 <==> exact < 0))
  {
    QuotientOfScale(x.raw * y.raw);
  }

  lemma QuotientOfScale(exact: int)
    ensures
      var got := Quotient(exact, SCALE) * SCALE;
      Abs(exact - got) < SCALE && Abs(got) <= Abs(exact) && (got != 0 ==> (got < 0 <==> exact < 0))
  {
  }

  /** Within range, a quotient misses by less than the divisor, and toward zero. */
  lemma DivWithinOneUnit(x: Decimal, y: Decimal)
    requires y.raw != 0 && I64_MIN <= Quotient(x.raw * SCALE, y.raw) < -I64_MIN
    ensures
      var exact, got := x.raw * SCALE, y.raw * x.Div(y).raw;
      Abs(exact - got) < Abs(y.raw) && Abs(got) <= Abs(exact)
  {
    QuotientOf(x.raw * SCALE, y.raw);
  }

  lemma QuotientOf(n: int, d: int)
    requires d != 0
    ensures Abs(n - d * Quotient(n, d)) < Abs(d) && Abs(d * Quotient(n, d)) <= Abs(n)
  {
    var a, b := Abs(n), Abs(d);
    DivBounds(a, b);
    SignedProduct(n, d, a / b);
  }

  /** Integers go in and come out unchanged. */
  lemma IntegersRoundTrip(v: i32)
    ensures FromInt(v).ToIntRounded() == Some(v)
  {
    RoundsRaw(FromInt(v));
  }

  /** Within range, a product of integers is exact, and dividing by one of them gives the other back. */
  lemma IntegersAreExact(v: i32, w: i32)
    requires I64_MIN <= v * w * SCALE < -I64_MIN
    ensures FromInt(v).Mul(FromInt(w)).raw == v * w * SCALE
    ensures w != 0 ==> FromInt(v).Mul(FromInt(w)).Div(FromInt(w)) == FromInt(v)
  {
    var p := v * w;
    assert v * SCALE * (w * SCALE) == p * SCALE * SCALE;
    assert Quotient(p * SCALE * SCALE, SCALE) == p * SCALE;
    if w != 0 {
      assert p * SCALE * SCALE == (v * SCALE) * (w * SCALE);
      QuotientOfProduct(v * SCALE, w * SCALE);
    }
  }

  lemma QuotientOfProduct(a: int, b: int)
    requires b != 0
    ensures Quotient(a * b, b) == a
  {
    assert Abs(a * b) == Abs(a) * Abs(b);
    DivIs(Abs(a * b), Abs(b), Abs(a));
    if a != 0 {
      assert SignOf(a * b) == SignOf(a) * SignOf(b);
    }
  }

  /******* Every operand *******/

  /** `q` is `n / d` cut off toward zero. */
  ghost predicate CutOff(n: int, d: int, q: int) {
    Abs(n - d * q) < Abs(d) && Abs(d * q) <= Abs(n)
  }

  /** There is only one such number. */
  lemma CutOffIsOne(n: int, d: int, p: int, q: int)
    requires d != 0 && CutOff(n, d, p) && CutOff(n, d, q)
    ensures p == q
  {
    CloseTogether(n, d * p, d * q, Abs(d));
    assert d * (p - q) == d * p - d * q;
    if p != q {
      ProductAtLeast(d, p - q);
    }
  }

  lemma CloseTogether(n: int, x: int, y: int, bound: nat)
    requires Abs(n - x) < bound && Abs(x) <= Abs(n) && Abs(n - y) < bound && Abs(y) <= Abs(n)
    ensures Abs(x - y) < bound
  {
  }

  lemma ProductAtLeast(d: int, k: int)
    requires d != 0 && k != 0
    ensures Abs(d * k) >= Abs(d)
  {
    assert Abs(d * k) == Abs(d) * Abs(k);
    MulGrows(Abs(k), Abs(d));
  }

  lemma CastsModulo(x: int)
    ensures exists k: int :: ToI64(x) + k * 0x1_0000_0000_0000_0000 == x
    ensures exists k: int :: ToI32(x) + k * 0x1_0000_0000 == x
  {
    var k := (x - I64_MIN) / 0x1_0000_0000_0000_0000;
    assert ToI64(x) + k * 0x1_0000_0000_0000_0000 == x;
    var j := (x - I32_MIN) / 0x1_0000_0000;
    assert ToI32(x) + j * 0x1_0000_0000 == x;
  }

  /** For all operands a product is the exact one over 10000 cut off toward zero, modulo 2^64. */
  lemma MulIsCutOff(x: Decimal, y: Decimal)
    ensures exists k: int :: CutOff(x.raw * y.raw, 10000, x.Mul(y).raw + k * 0x1_0000_0000_0000_0000)
  {
    var q := Quotient(x.raw * y.raw, SCALE);
    QuotientOf(x.raw * y.raw, SCALE);
    CastsModulo(q);
    var k: int :| ToI64(q) + k * 0x1_0000_0000_0000_0000 == q;
    assert CutOff(x.raw * y.raw, 10000, x.Mul(y).raw + k * 0x1_0000_0000_0000_0000);
  }

  /** For all operands a quotient is the exact one cut off toward zero, modulo 2^64, and zero over zero. */
  lemma DivIsCutOff(x: Decimal, y: Decimal)
    ensures if y.raw == 0 then x.Div(y).raw == 0
            else exists k: int :: CutOff(x.raw * 10000, y.raw, x.Div(y).raw + k * 0x1_0000_0000_0000_0000)
  {
    if y.raw != 0 {
      var q := Quotient(x.raw * SCALE, y.raw);
      QuotientOf(x.raw * SCALE, y.raw);
      CastsModulo(q);
      var k: int :| ToI64(q) + k * 0x1_0000_0000_0000_0000 == q;
      assert CutOff(x.raw * 10000, y.raw, x.Div(y).raw + k * 0x1_0000_0000_0000_0000);
    }
  }

  /** A fraction is converted to exactly four digits, cut off toward zero. */
  lemma FracIsCutOff(n: i32, d: i32)
    ensures if d == 0 then FromFrac(n, d).raw == 0 else CutOff(n * 10000, d, FromFrac(n, d).raw)
  {
    if d != 0 {
      var q := Abs(n) * SCALE / Abs(d);
      FracIsQuotient(n, d, q);
      assert Quotient(n * SCALE, d) == SignOf(n) * SignOf(d) * q by {
        assert Abs(n * SCALE) == Abs(n) * SCALE;
      }
      QuotientOf(n * SCALE, d);
    }
  }

  /** Rounding aborts exactly when adding the half leaves the 64 bits; otherwise it gives the nearest integer,
      ties away from zero, modulo 2^32. */
  lemma RoundsOrAborts(x: Decimal)
    ensures x.ToIntRounded().None? <==> Abs(x.raw + SignOf(x.raw) * 5000) >= 0x8000_0000_0000_0000 + if x.raw < 0 then 1 else 0
    ensures x.ToIntRounded().Some? ==> exists k: int :: x.ToIntRounded().value + k * 0x1_0000_0000 == Nearest(x.raw, 10000)
  {
    if x.ToIntRounded().Some? {
      var rounded := SignOf(x.raw) * ((Abs(x.raw) + HALF_SCALE) / SCALE);
      RoundsAny(x);
      HalfUp(Abs(x.raw));
      CastsModulo(rounded);
    }
  }

  lemma RoundsAny(x: Decimal)
    requires x.ToIntRounded().Some?
    ensures x.ToIntRounded() == Some(ToI32(SignOf(x.raw) * ((Abs(x.raw) + HALF_SCALE) / SCALE)))
  {
  }

  lemma HalfUp(a: nat)
    ensures (a + HALF_SCALE) / SCALE == (2 * a + 10000) / 20000
  {
    DivCancels(a + HALF_SCALE, SCALE, 2);
  }
}
