/** The arithmetic context: results rounded to 28 significant digits, half to even. */
module DecimalContext {
  import opened Domain
  import opened AmountText

  /** What every rounding mode keeps: zero and order. */
  ghost predicate Rounding(rnd: real -> real) {
    rnd(0.0) == 0.0 && forall x, y :: x <= y ==> rnd(x) <= rnd(y)
  }

  type Context = rnd: real -> real | Rounding(rnd) witness Exact()

  /** The context that never rounds. */
  function Exact(): real -> real {
    (x: real) => x
  }

  /** Numbers from T27 up to T28 have 28 digits in front of the point. */
  const T27: real := 1000000000000000000000000000.0
  const T28: real := 10000000000000000000000000000.0

  /** The nearest integer; of two equally near ones the even one. */
  function NearestEven(x: real): int {
    var below := x.Floor;
    var rest := x - below as real;
    if rest < 0.5 || (rest == 0.5 && below % 2 == 0) then below else below + 1
  }

  /** How far a number is from having 28 digits in front of the point. */
  function Distance(x: real): real
    requires x > 0.0
  {
    if x >= T28 then x else if x < T27 then T28 / x else 0.0
  }

  lemma TenfoldIsNearer(x: real)
    requires 0.0 < x < T27
    ensures Distance(x * 10.0) <= Distance(x) - 1.0
  {
    var q := T28 / x;
    var r := T28 / (x * 10.0);
    assert q * x == T28;
    assert r * (x * 10.0) == T28;
    assert (r * 10.0 - q) * x == 0.0;
    assert r * 10.0 == q;
    if q < 10.0 {
      assert (10.0 - q) * x > 0.0;
    }
  }

  /** A positive number rounded to 28 significant digits. */
  function RoundedPositive(x: real): real
    requires x > 0.0
    decreases Distance(x)
  {
    if x >= T28 then 10.0 * RoundedPositive(x / 10.0)
    else if x < T27 then
      TenfoldIsNearer(x);
      RoundedPositive(x * 10.0) / 10.0
    else NearestEven(x) as real
  }

  function RoundHalfEven(x: real): real {
    if x > 0.0 then RoundedPositive(x) else if x < 0.0 then -RoundedPositive(-x) else 0.0
  }

  // ---------- Order ----------

  lemma NearestEvenIsNear(x: real)
    ensures x - 0.5 <= NearestEven(x) as real <= x + 0.5
    ensures x == x.Floor as real ==> NearestEven(x) as real == x
  {
  }

  lemma NearestEvenKeepsOrder(x: real, y: real)
    requires x <= y
    ensures NearestEven(x) <= NearestEven(y)
  {
    assert x.Floor <= y.Floor;
  }

  /** 28 digits stay 28 digits, or carry into a power of ten. */
  lemma MiddleStays(x: real)
    requires T27 <= x < T28
    ensures T27 <= RoundedPositive(x) <= T28
  {
    NearestEvenIsNear(T27);
    NearestEvenIsNear(T28);
    NearestEvenKeepsOrder(T27, x);
    NearestEvenKeepsOrder(x, T28);
  }

  lemma {:induction false} AtMostPowers(x: real)
    requires x > 0.0
    ensures x <= T28 ==> RoundedPositive(x) <= T28
    ensures x <= T27 ==> RoundedPositive(x) <= T27
    decreases Distance(x)
  {
    if x == T28 {
      NearestEvenIsNear(T27);
    } else if x < T27 {
      TenfoldIsNearer(x);
      AtMostPowers(x * 10.0);
    } else if x < T28 {
      MiddleStays(x);
      NearestEvenIsNear(T27);
    }
  }

  lemma {:induction false} AtLeastPowers(x: real)
    requires x >= T27
    ensures RoundedPositive(x) >= T27
    ensures x >= T28 ==> RoundedPositive(x) >= T28
    decreases Distance(x)
  {
    if x >= T28 {
      AtLeastPowers(x / 10.0);
    } else {
      MiddleStays(x);
    }
  }

  lemma {:induction false} PositiveKeepsOrder(x: real, y: real)
    requires 0.0 < x <= y
    ensures RoundedPositive(x) <= RoundedPositive(y)
    decreases Distance(x) + Distance(y)
  {
    if x >= T28 {
      PositiveKeepsOrder(x / 10.0, y / 10.0);
    } else if y < T27 {
      TenfoldIsNearer(x);
      TenfoldIsNearer(y);
      PositiveKeepsOrder(x * 10.0, y * 10.0);
    } else if y >= T28 {
      AtMostPowers(x);
      AtLeastPowers(y);
    } else if x < T27 {
      AtMostPowers(x);
      AtLeastPowers(y);
    } else {
      NearestEvenKeepsOrder(x, y);
    }
  }

  lemma {:induction false} PositiveStaysPositive(x: real)
    requires x > 0.0
    ensures RoundedPositive(x) > 0.0
    decreases Distance(x)
  {
    if x >= T28 {
      PositiveStaysPositive(x / 10.0);
    } else if x < T27 {
      TenfoldIsNearer(x);
      PositiveStaysPositive(x * 10.0);
    } else {
      MiddleStays(x);
    }
  }

  lemma RoundHalfEvenKeepsOrder(x: real, y: real)
    requires x <= y
    ensures RoundHalfEven(x) <= RoundHalfEven(y)
  {
    if x > 0.0 {
      PositiveKeepsOrder(x, y);
    } else if y < 0.0 {
      PositiveKeepsOrder(-y, -x);
    } else {
      if x < 0.0 { PositiveStaysPositive(-x); }
      if y > 0.0 { PositiveStaysPositive(y); }
    }
  }

  lemma RoundHalfEvenIsRounding()
    ensures Rounding(RoundHalfEven)
  {
    forall x, y | x <= y ensures RoundHalfEven(x) <= RoundHalfEven(y) {
      RoundHalfEvenKeepsOrder(x, y);
    }
  }

  /** The context the program computes in. */
  function Default(): Context {
    RoundHalfEvenIsRounding();
    RoundHalfEven
  }

  // ---------- Scale and precision ----------

  /** Moving the point rounds nothing. */
  lemma RoundingScales(x: real)
    ensures RoundHalfEven(x * 10.0) == RoundHalfEven(x) * 10.0
  {
  }

  lemma RoundingScalesDown(x: real)
    ensures RoundHalfEven(x / 10.0) == RoundHalfEven(x) / 10.0
  {
    RoundingScales(x / 10.0);
  }

  lemma RoundingScalesByHundred(x: real)
    ensures RoundHalfEven(x * 100.0) == RoundHalfEven(x) * 100.0
  {
    RoundingScales(x);
    RoundingScales(x * 10.0);
    assert x * 100.0 == x * 10.0 * 10.0;
  }

  lemma {:induction false} PositiveIsIdempotent(x: real)
    requires x > 0.0
    ensures RoundHalfEven(RoundedPositive(x)) == RoundedPositive(x)
    decreases Distance(x)
  {
    if x >= T28 {
      PositiveIsIdempotent(x / 10.0);
      RoundingScales(RoundedPositive(x / 10.0));
    } else if x < T27 {
      TenfoldIsNearer(x);
      PositiveIsIdempotent(x * 10.0);
      RoundingScalesDown(RoundedPositive(x * 10.0));
    } else {
      MiddleStays(x);
      var n := NearestEven(x);
      NearestEvenIsNear(n as real);
      NearestEvenIsNear(T27);
    }
  }

  /** What was rounded is not rounded again. */
  lemma RoundingIsIdempotent(x: real)
    ensures RoundHalfEven(RoundHalfEven(x)) == RoundHalfEven(x)
  {
    if x > 0.0 {
      PositiveIsIdempotent(x);
    } else if x < 0.0 {
      PositiveIsIdempotent(-x);
      PositiveStaysPositive(-x);
    }
  }

  /** One, and half a unit in the last of its 28 places. */
  const ONE_AND_HALF_UNIT: real := 1.0000000000000000000000000005

  lemma {:induction false} RoundsUpByHalfUnit(x: real)
    requires x > 0.0
    ensures RoundedPositive(x) <= x * 1.0000000000000000000000000005
    decreases Distance(x)
  {
    if x >= T28 {
      RoundsUpByHalfUnit(x / 10.0);
    } else if x < T27 {
      TenfoldIsNearer(x);
      RoundsUpByHalfUnit(x * 10.0);
    } else {
      NearestEvenIsNear(x);
    }
  }

  lemma {:induction false} RoundsDownByHalfUnit(x: real)
    requires x > 0.0
    ensures RoundedPositive(x) >= x * 0.9999999999999999999999999995
    decreases Distance(x)
  {
    if x >= T28 {
      RoundsDownByHalfUnit(x / 10.0);
    } else if x < T27 {
      TenfoldIsNearer(x);
      RoundsDownByHalfUnit(x * 10.0);
    } else {
      NearestEvenIsNear(x);
    }
  }

  lemma RoundingScalesByTenToFive(x: real)
    ensures RoundHalfEven(x * 100000.0) == RoundHalfEven(x) * 100000.0
  {
    RoundingScalesByHundred(x);
    RoundingScalesByHundred(x * 100.0);
    RoundingScales(x * 10000.0);
    assert x * 100000.0 == x * 10000.0 * 10.0 && x * 10000.0 == x * 100.0 * 100.0;
  }

  lemma RoundingScalesByTenToTwentyFive(x: real)
    ensures RoundHalfEven(x * 10000000000000000000000000.0) == RoundHalfEven(x) * 10000000000000000000000000.0
  {
    var y1 := x * 100000.0;
    var y2 := y1 * 100000.0;
    var y3 := y2 * 100000.0;
    var y4 := y3 * 100000.0;
    RoundingScalesByTenToFive(x);
    RoundingScalesByTenToFive(y1);
    RoundingScalesByTenToFive(y2);
    RoundingScalesByTenToFive(y3);
    RoundingScalesByTenToFive(y4);
    assert y4 * 100000.0 == x * 10000000000000000000000000.0;
  }

  /** Half a unit above one hundred still rounds to one hundred. */
  lemma HundredAbsorbsHalfUnit()
    ensures RoundHalfEven(100.0 * ONE_AND_HALF_UNIT) == 100.0
  {
    RoundingScalesByTenToTwentyFive(100.0 * ONE_AND_HALF_UNIT);
    assert 100.0 * ONE_AND_HALF_UNIT * 10000000000000000000000000.0 == T27 + 0.5;
    assert (T27 + 0.5).Floor == 1000000000000000000000000000;
  }

  // ---------- The same rounding, digit by digit ----------

  lemma {:induction false} TenthAdds(x: real, y: real, k: nat)
    ensures Tenth(x + y, k) == Tenth(x, k) + Tenth(y, k)
    decreases k
  {
    if k > 0 {
      TenthAdds(x / 10.0, y / 10.0, k - 1);
    }
  }

  lemma {:induction false} TenthUndoes(c: nat, k: nat)
    ensures Tenth(Times10(c, k) as real, k) == c as real
    decreases k
  {
    if k > 0 {
      assert Times10(c, k) as real / 10.0 == Times10(c, k - 1) as real;
      TenthUndoes(c, k - 1);
    }
  }

  lemma {:induction false} RoundingScalesByTenth(x: real, k: nat)
    ensures RoundHalfEven(Tenth(x, k)) == Tenth(RoundHalfEven(x), k)
    decreases k
  {
    if k > 0 {
      RoundingScalesDown(x);
      RoundingScalesByTenth(x / 10.0, k - 1);
    }
  }

  lemma {:induction false} RoundingScalesByTimes(n: nat, m: nat, k: nat)
    requires RoundHalfEven(n as real) == m as real
    ensures RoundHalfEven(Times10(n, k) as real) == Times10(m, k) as real
  {
    if k > 0 {
      RoundingScalesByTimes(n, m, k - 1);
      RoundingScales(Times10(n, k - 1) as real);
    }
  }

  /** If n rounds to m, then so do both at any exponent. */
  lemma RoundingIgnoresExponent(n: nat, m: nat, e: int)
    requires RoundHalfEven(n as real) == m as real
    ensures RoundHalfEven(Value(Decimal(n, e))) == Value(Decimal(m, e))
  {
    if e >= 0 {
      RoundingScalesByTimes(n, m, e);
    } else {
      RoundingScalesByTenth(n as real, -e);
    }
  }

  lemma PowersHaveNames()
    ensures Times10(1, 27) as real == T27 && Times10(1, 28) as real == T28
  {
    assert Times10(1, 9) == 1_000_000_000;
    Times10Adds(1, 9, 9);
    assert Times10(1_000_000_000, 9) == 1_000_000_000_000_000_000;
    Times10Adds(1, 18, 9);
    assert Times10(1_000_000_000_000_000_000, 9) == 1_000_000_000_000_000_000_000_000_000;
  }

  /** An integer of at most 28 digits is not rounded. */
  lemma {:induction false} ShortIntegersStay(n: nat)
    requires n as real <= T28
    ensures RoundHalfEven(n as real) == n as real
    decreases if n == 0 then 0.0 else Distance(n as real)
  {
    if n == 0 {
    } else if n as real == T28 {
      NearestEvenIsNear(T27);
    } else if n as real < T27 {
      TenfoldIsNearer(n as real);
      ShortIntegersStay(10 * n);
      RoundingScales(n as real);
    } else {
      NearestEvenIsNear(n as real);
    }
  }

  /** The last k digits, cut off. */
  lemma {:induction false} DropSplits(n: nat, k: nat)
    ensures Times10(DropDigits(n, k), k) <= n < Times10(DropDigits(n, k), k) + Times10(1, k)
  {
    if k > 0 {
      DropSplits(n / 10, k - 1);
    }
  }

  lemma {:induction false} DropAbove(n: nat, k: nat, length: nat)
    requires n >= Times10(1, length + k)
    ensures DropDigits(n, k) >= Times10(1, length)
    decreases k
  {
    if k > 0 {
      DropAbove(n / 10, k - 1, length);
    }
  }

  /** The digits cut off, against half a unit of the last digit kept. */
  lemma NearestByDigits(q: nat, rest: nat, k: nat)
    requires rest < Times10(1, k)
    ensures NearestEven(q as real + Tenth(rest as real, k))
         == if 2 * rest > Times10(1, k) || (2 * rest == Times10(1, k) && q % 2 == 1) then q + 1 else q
  {
    var t := Tenth(rest as real, k);
    var unit := Times10(1, k);
    TenthUndoes(1, k);
    TenthUndoes(0, k);
    TenthBelow(rest as real, unit as real, k);
    TenthAdds(rest as real, rest as real, k);
    assert t + t == Tenth((2 * rest) as real, k);
    if 2 * rest < unit {
      TenthBelow((2 * rest) as real, unit as real, k);
    } else if 2 * rest > unit {
      TenthBelow(unit as real, (2 * rest) as real, k);
    }
    assert (q as real + t).Floor == q;
  }

  lemma TenthIdentifies(x: real, y: real, k: nat)
    requires Tenth(x, k) == Tenth(y, k)
    ensures x == y
  {
    if x < y {
      TenthBelow(x, y, k);
    } else if y < x {
      TenthBelow(y, x, k);
    }
  }

  lemma LongIntegersRound(q: nat, rest: nat, k: nat, r: nat)
    requires T27 <= q as real < T28 && rest < Times10(1, k)
    requires r == if 2 * rest > Times10(1, k) || (2 * rest == Times10(1, k) && q % 2 == 1) then q + 1 else q
    ensures RoundHalfEven((Times10(q, k) + rest) as real) == Times10(r, k) as real
  {
    var n := Times10(q, k) + rest;
    TenthAdds(Times10(q, k) as real, rest as real, k);
    TenthUndoes(q, k);
    TenthUndoes(r, k);
    NearestByDigits(q, rest, k);
    RoundingScalesByTenth(n as real, k);
    TenthUndoes(0, k);
    TenthUndoes(1, k);
    TenthBelow(rest as real, Times10(1, k) as real, k);
    assert T27 <= Tenth(n as real, k) < T28;
    TenthIdentifies(RoundHalfEven(n as real), Times10(r, k) as real, k);
  }

  lemma RoundedIsTimes(d: Decimal, k: nat)
    requires |Digits(d.coefficient)| == PRECISION + k && k > 0
    ensures RoundHalfEven(Value(d)) == Value(Rounded(d))
  {
    var n := d.coefficient;
    var q := DropDigits(n, k);
    DigitsLength(n, PRECISION + k);
    DigitsLength(n, PRECISION + k - 1);
    DropBelow(n, k, PRECISION);
    DropAbove(n, k, PRECISION - 1);
    DropSplits(n, k);
    PowersHaveNames();
    var r := Rounded(d).coefficient;
    LongIntegersRound(q, n - Times10(q, k), k, r);
    RoundingIgnoresExponent(n, Times10(r, k), d.exponent);
    ShiftMany(r, d.exponent, k);
  }

  /** Rounding the digits of an amount and rounding its number are the same. */
  lemma AmountsRoundInContext(d: Decimal)
    ensures Value(Rounded(d)) == RoundHalfEven(Value(d))
  {
    var k := |Digits(d.coefficient)| - PRECISION;
    if k > 0 {
      RoundedIsTimes(d, k);
    } else {
      DigitsLength(d.coefficient, PRECISION);
      PowersHaveNames();
      ShortIntegersStay(d.coefficient);
      RoundingIgnoresExponent(d.coefficient, d.coefficient, d.exponent);
    }
  }
}
