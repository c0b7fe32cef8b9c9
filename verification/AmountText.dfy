/** The canonical amount text that keys a price-alert reservation. */
module AmountText {
  import opened Domain

  /** The default decimal context keeps 28 significant digits. */
  const PRECISION: nat := 28

  // ---------- Digit strings ----------

  const DIGITS := "0123456789"

  function Digits(n: nat): (s: string)
    ensures |s| > 0
  {
    if n < 10 then [DIGITS[n]] else Digits(n / 10) + [DIGITS[n % 10]]
  }

  predicate IsDigit(c: char) {
    '0' <= c <= '9'
  }

  predicate AllDigits(s: string) {
    forall i :: 0 <= i < |s| ==> IsDigit(s[i])
  }

  function DigitValue(c: char): nat {
    if IsDigit(c) then c as int - '0' as int else 0
  }

  function NumberOf(s: string): nat {
    if s == "" then 0 else 10 * NumberOf(s[..|s| - 1]) + DigitValue(s[|s| - 1])
  }

  function Zeros(n: nat): (s: string)
    ensures |s| == n && forall i :: 0 <= i < n ==> s[i] == '0'
  {
    seq(n, _ => '0')
  }

  // ---------- normalize ----------

  /** n without its last k digits. */
  function DropDigits(n: nat, k: nat): nat {
    if k == 0 then n else DropDigits(n / 10, k - 1)
  }

  /** Drop the digits beyond a precision, rounding half to even. */
  function RoundedTo(precision: nat, d: Decimal): Decimal {
    var length := |Digits(d.coefficient)|;
    if length <= precision then d
    else
      var dropped := length - precision;
      var quotient := DropDigits(d.coefficient, dropped);
      var rest := d.coefficient - Times10(quotient, dropped);
      var unit := Times10(1, dropped);
      var up := 2 * rest > unit || (2 * rest == unit && quotient % 2 == 1);
      Decimal(if up then quotient + 1 else quotient, d.exponent + dropped)
  }

  function Rounded(d: Decimal): Decimal {
    RoundedTo(PRECISION, d)
  }

  function Stripped(d: Decimal): (r: Decimal)
    ensures d.coefficient == 0 <==> r.coefficient == 0
    ensures r.coefficient % 10 != 0 || r == Decimal(0, 0)
    ensures r.coefficient <= d.coefficient
    decreases d.coefficient
  {
    if d.coefficient == 0 then Decimal(0, 0)
    else if d.coefficient % 10 == 0 then Stripped(Decimal(d.coefficient / 10, d.exponent + 1))
    else d
  }

  function Normalized(d: Decimal): Decimal {
    Stripped(Rounded(d))
  }

  // ---------- format and parse ----------

  /** A positional text: the digits before and behind the point. */
  datatype Positional = Positional(whole: string, fraction: string)

  /** The last `places` digits stand behind the point. */
  function PlacePoint(digits: string, places: nat): Positional {
    if |digits| > places then Positional(digits[..|digits| - places], digits[|digits| - places..])
    else Positional("0", Zeros(places - |digits|) + digits)
  }

  function FormatPlain(d: Decimal): Positional {
    if d.exponent >= 0 then Positional(Digits(d.coefficient) + Zeros(d.exponent), "")
    else PlacePoint(Digits(d.coefficient), -d.exponent)
  }

  function Render(p: Positional): string {
    if p.fraction == "" then p.whole else p.whole + "." + p.fraction
  }

  function EncodeAmount(d: Decimal): string {
    var n := Normalized(d);
    if n.coefficient == 0 then "0" else Render(FormatPlain(n))
  }

  /** Where c first occurs, or the length of s. */
  function IndexOf(s: string, c: char): (i: nat)
    ensures i <= |s|
    ensures forall k :: 0 <= k < i ==> s[k] != c
    ensures i < |s| ==> s[i] == c
  {
    if s == "" || s[0] == c then 0 else 1 + IndexOf(s[1..], c)
  }

  function Split(s: string): Positional {
    var dot := IndexOf(s, '.');
    if dot == |s| then Positional(s, "") else Positional(s[..dot], s[dot + 1..])
  }

  /** Every digit counts towards the coefficient, every place behind the point towards the exponent. */
  function ParsePositional(p: Positional): Option<Decimal> {
    var digits := p.whole + p.fraction;
    if digits == "" || !AllDigits(digits) then None
    else Some(Decimal(NumberOf(digits), -|p.fraction|))
  }

  function ParseAmount(s: string): Option<Decimal> {
    ParsePositional(Split(s))
  }

  // ---------- digits ----------

  lemma {:induction false} DigitsRead(n: nat)
    ensures AllDigits(Digits(n)) && NumberOf(Digits(n)) == n
  {
    if n >= 10 {
      DigitsRead(n / 10);
      var s := Digits(n);
      assert s[..|s| - 1] == Digits(n / 10);
    }
  }

  lemma {:induction false} TrailingZeros(s: string, k: nat)
    requires AllDigits(s)
    ensures AllDigits(s + Zeros(k)) && NumberOf(s + Zeros(k)) == Times10(NumberOf(s), k)
  {
    if k == 0 {
      assert s + Zeros(0) == s;
    } else {
      TrailingZeros(s, k - 1);
      var t := s + Zeros(k);
      assert t[..|t| - 1] == s + Zeros(k - 1);
    }
  }

  lemma {:induction false} LeadingZeros(k: nat, s: string)
    requires AllDigits(s)
    ensures AllDigits(Zeros(k) + s) && NumberOf(Zeros(k) + s) == NumberOf(s)
  {
    var t := Zeros(k) + s;
    if s != "" {
      LeadingZeros(k, s[..|s| - 1]);
      assert t[..|t| - 1] == Zeros(k) + s[..|s| - 1];
    } else if k > 0 {
      LeadingZeros(k - 1, s);
      assert t[..|t| - 1] == Zeros(k - 1) + s;
    }
  }

  // ---------- powers of ten ----------

  lemma {:induction false} Times10Below(x: nat, y: nat, k: nat)
    requires x < y
    ensures Times10(x, k) < Times10(y, k)
  {
    if k > 0 {
      Times10Below(x, y, k - 1);
    }
  }

  lemma {:induction false} Times10Inside(c: nat, k: nat)
    ensures Times10(10 * c, k) == Times10(c, k + 1)
  {
    if k > 0 {
      Times10Inside(c, k - 1);
    }
  }

  lemma {:induction false} Times10Adds(c: nat, j: nat, k: nat)
    ensures Times10(Times10(c, j), k) == Times10(c, j + k)
  {
    if k > 0 {
      Times10Adds(c, j, k - 1);
    }
  }

  lemma {:induction false} TenthBelow(x: real, y: real, k: nat)
    requires x < y
    ensures Tenth(x, k) < Tenth(y, k)
    decreases k
  {
    if k > 0 {
      TenthBelow(x / 10.0, y / 10.0, k - 1);
    }
  }

  lemma Shift(c: nat, e: int)
    ensures Value(Decimal(10 * c, e)) == Value(Decimal(c, e + 1))
  {
    if e >= 0 {
      Times10Inside(c, e);
    } else {
      assert (10 * c) as real / 10.0 == c as real;
      assert Tenth((10 * c) as real, -e) == Tenth(c as real, -e - 1);
    }
  }

  /** Writing k zeros out moves the exponent down by k. */
  lemma {:induction false} ShiftMany(c: nat, e: int, k: nat)
    ensures Value(Decimal(Times10(c, k), e)) == Value(Decimal(c, e + k))
    decreases k
  {
    if k > 0 {
      Shift(Times10(c, k - 1), e);
      ShiftMany(c, e + 1, k - 1);
    }
  }

  lemma SameExponent(c: nat, d: nat, e: int)
    requires Value(Decimal(c, e)) == Value(Decimal(d, e))
    ensures c == d
  {
    if c != d {
      var x, y := if c < d then c else d, if c < d then d else c;
      if e >= 0 {
        Times10Below(x, y, e);
      } else {
        TenthBelow(x as real, y as real, -e);
      }
    }
  }

  lemma ZeroValue(d: Decimal)
    ensures Value(d) == 0.0 <==> d.coefficient == 0
  {
    if d.exponent >= 0 {
      ShiftMany(0, 0, d.exponent);
    }
    ZeroHasOneValue(d.exponent);
    if Value(d) == 0.0 {
      SameExponent(d.coefficient, 0, d.exponent);
    }
  }

  lemma {:induction false} ZeroHasOneValue(e: int)
    ensures Value(Decimal(0, e)) == 0.0
    decreases if e < 0 then -e else e
  {
    if e < 0 {
      Shift(0, e);
      ZeroHasOneValue(e + 1);
    } else if e > 0 {
      Shift(0, e - 1);
      ZeroHasOneValue(e - 1);
    }
  }

  // ---------- the normal form ----------

  lemma {:induction false} StripKeepsValue(d: Decimal)
    ensures Value(Stripped(d)) == Value(d)
    decreases d.coefficient
  {
    if d.coefficient == 0 {
      ZeroHasOneValue(d.exponent);
      ZeroHasOneValue(0);
    } else if d.coefficient % 10 == 0 {
      StripKeepsValue(Decimal(d.coefficient / 10, d.exponent + 1));
      Shift(d.coefficient / 10, d.exponent);
    }
  }

  lemma TimesEndsInZero(c: nat, k: nat)
    requires k > 0
    ensures Times10(c, k) % 10 == 0
  {
  }

  lemma UniqueFromLower(a: Decimal, b: Decimal)
    requires Value(a) == Value(b) && a.exponent <= b.exponent && a.coefficient % 10 != 0
    ensures a == b
  {
    var k := b.exponent - a.exponent;
    ShiftMany(b.coefficient, a.exponent, k);
    SameExponent(a.coefficient, Times10(b.coefficient, k), a.exponent);
    if k > 0 {
      TimesEndsInZero(b.coefficient, k);
    }
  }

  /** A decimal without trailing zeros is determined by its value. */
  lemma StrippedIsUnique(a: Decimal, b: Decimal)
    requires Value(a) == Value(b) && a.coefficient % 10 != 0 && b.coefficient % 10 != 0
    ensures a == b
  {
    if a.exponent <= b.exponent {
      UniqueFromLower(a, b);
    } else {
      UniqueFromLower(b, a);
    }
  }

  lemma StrippingIdentifies(a: Decimal, b: Decimal)
    ensures Stripped(a) == Stripped(b) <==> Value(a) == Value(b)
  {
    StripKeepsValue(a);
    StripKeepsValue(b);
    ZeroValue(a);
    ZeroValue(b);
    if Value(a) == Value(b) && a.coefficient != 0 {
      StrippedIsUnique(Stripped(a), Stripped(b));
    }
  }

  // ---------- the text ----------

  lemma SplitOfRender(p: Positional)
    requires AllDigits(p.whole)
    ensures Split(Render(p)) == p
  {
    var s := Render(p);
    assert forall k :: 0 <= k < |p.whole| ==> s[k] == p.whole[k] != '.';
    if p.fraction != "" {
      assert s[|p.whole|] == '.';
      assert s[..|p.whole|] == p.whole && s[|p.whole| + 1..] == p.fraction;
    }
  }

  /** The number a plain text reads as: a positive exponent becomes written zeros. */
  function PlainNumber(d: Decimal): Decimal {
    if d.exponent >= 0 then Decimal(Times10(d.coefficient, d.exponent), 0) else d
  }

  lemma ZeroInFront(digits: string, gap: nat)
    requires AllDigits(digits)
    ensures AllDigits("0" + (Zeros(gap) + digits)) && NumberOf("0" + (Zeros(gap) + digits)) == NumberOf(digits)
  {
    LeadingZeros(gap + 1, digits);
    assert "0" + (Zeros(gap) + digits) == Zeros(gap + 1) + digits;
  }

  lemma DigitsParse(p: Positional, digits: string, places: nat)
    requires AllDigits(p.whole + p.fraction) && p.whole != "" && |p.fraction| == places
    requires NumberOf(p.whole + p.fraction) == NumberOf(digits)
    ensures AllDigits(p.whole)
    ensures ParsePositional(p) == Some(Decimal(NumberOf(digits), 0 - places))
  {
    forall i | 0 <= i < |p.whole| ensures IsDigit(p.whole[i]) {
      assert p.whole[i] == (p.whole + p.fraction)[i];
    }
  }

  lemma PlacedDigits(digits: string, places: nat)
    requires AllDigits(digits) && digits != ""
    ensures var p := PlacePoint(digits, places);
      && p.whole != "" && |p.fraction| == places
      && AllDigits(p.whole + p.fraction) && NumberOf(p.whole + p.fraction) == NumberOf(digits)
  {
    if |digits| > places {
      var split := |digits| - places;
      assert digits[..split] + digits[split..] == digits;
    } else {
      ZeroInFront(digits, places - |digits|);
    }
  }

  lemma PointParses(digits: string, places: nat)
    requires AllDigits(digits) && digits != ""
    ensures AllDigits(PlacePoint(digits, places).whole)
    ensures ParsePositional(PlacePoint(digits, places)) == Some(Decimal(NumberOf(digits), 0 - places))
  {
    var p := PlacePoint(digits, places);
    PlacedDigits(digits, places);
    DigitsParse(p, digits, places);
  }

  lemma PlainParses(d: Decimal)
    ensures ParsePositional(FormatPlain(d)) == Some(PlainNumber(d))
    ensures AllDigits(FormatPlain(d).whole)
  {
    var digits := Digits(d.coefficient);
    DigitsRead(d.coefficient);
    if d.exponent >= 0 {
      TrailingZeros(digits, d.exponent);
      assert digits + Zeros(d.exponent) + "" == digits + Zeros(d.exponent);
    } else {
      PointParses(digits, -d.exponent);
    }
  }

  lemma PlainReads(d: Decimal)
    ensures ParseAmount(Render(FormatPlain(d))) == Some(PlainNumber(d))
    ensures Value(PlainNumber(d)) == Value(d)
  {
    PlainParses(d);
    SplitOfRender(FormatPlain(d));
    if d.exponent >= 0 {
      ShiftMany(d.coefficient, 0, d.exponent);
    }
  }

  lemma ZeroReads()
    ensures ParseAmount("0") == Some(Decimal(0, 0))
  {
    SplitOfRender(Positional("0", ""));
    assert "0" + "" == "0";
    assert "0"[..0] == "";
  }

  /** Parsing the text of an amount gives back the amount, rounded to the context precision. */
  lemma EncodingReads(d: Decimal)
    ensures var p := ParseAmount(EncodeAmount(d));
      p.Some? && Value(p.value) == Value(Rounded(d))
  {
    StripKeepsValue(Rounded(d));
    if Normalized(d).coefficient == 0 {
      ZeroReads();
    } else {
      PlainReads(Normalized(d));
    }
  }

  /** Two amounts share a text exactly when they round to the same number. */
  lemma EncodingIdentifies(a: Decimal, b: Decimal)
    ensures EncodeAmount(a) == EncodeAmount(b) <==> Value(Rounded(a)) == Value(Rounded(b))
  {
    EncodingReads(a);
    EncodingReads(b);
    StrippingIdentifies(Rounded(a), Rounded(b));
  }

  predicate WithinPrecision(d: Decimal) {
    |Digits(d.coefficient)| <= PRECISION
  }

  /** Within the context precision the text is the number: equal texts, equal amounts. */
  lemma EncodingIdentifiesAmounts(a: Decimal, b: Decimal)
    requires WithinPrecision(a) && WithinPrecision(b)
    ensures EncodeAmount(a) == EncodeAmount(b) <==> Value(a) == Value(b)
  {
    EncodingIdentifies(a, b);
  }

  // ---------- how many digits survive ----------

  lemma {:induction false} DigitsLength(n: nat, length: nat)
    requires length > 0
    ensures |Digits(n)| <= length <==> n < Times10(1, length)
  {
    if length > 1 {
      if n >= 10 {
        DigitsLength(n / 10, length - 1);
      } else {
        Times10Below(0, 1, length - 1);
        assert Times10(0, length - 1) >= 0;
      }
    }
  }

  lemma {:induction false} DropBelow(n: nat, k: nat, length: nat)
    requires n < Times10(1, length + k)
    ensures DropDigits(n, k) < Times10(1, length)
    decreases k
  {
    if k > 0 {
      DropBelow(n / 10, k - 1, length);
    }
  }

  lemma {:induction false} DropUndoesTimes(q: nat, k: nat)
    ensures DropDigits(Times10(q, k), k) == q
  {
    if k > 0 {
      DropUndoesTimes(q, k - 1);
    }
  }

  lemma RoundedCoefficient(precision: nat, d: Decimal)
    requires precision > 0
    ensures RoundedTo(precision, d).coefficient <= Times10(1, precision)
  {
    var length := |Digits(d.coefficient)|;
    DigitsLength(d.coefficient, length);
    if length <= precision {
      DigitsLength(d.coefficient, precision);
    } else {
      DropBelow(d.coefficient, length - precision, precision);
    }
  }

  /** A stripped coefficient does not end in zero, so it falls short of a bound that does. */
  lemma StrippedBelow(d: Decimal, limit: nat)
    requires d.coefficient <= limit && limit % 10 == 0 && limit > 0
    ensures Stripped(d).coefficient < limit
  {
  }

  lemma PowerEndsInZero(k: nat)
    requires k > 0
    ensures Times10(1, k) % 10 == 0 && Times10(1, k) > 0
  {
    Times10Below(0, 1, k - 1);
    assert Times10(1, k) == 10 * Times10(1, k - 1);
  }

  /** Rounding to `precision` digits leaves at most that many once trailing zeros go. */
  lemma NormalizedLength(precision: nat, d: Decimal)
    requires precision > 0
    ensures Stripped(RoundedTo(precision, d)).coefficient < Times10(1, precision)
  {
    RoundedCoefficient(precision, d);
    PowerEndsInZero(precision);
    StrippedBelow(RoundedTo(precision, d), Times10(1, precision));
  }

  lemma NothingDropped(precision: nat, n: nat, quotient: nat, dropped: nat)
    requires n == Times10(quotient, dropped) && dropped > 0 && |Digits(n)| == precision + dropped
    ensures DropDigits(n, dropped) == quotient && Times10(1, dropped) > 0
  {
    DropUndoesTimes(quotient, dropped);
    Times10Below(0, 1, dropped);
  }

  lemma RoundedExactly(precision: nat, n: nat, quotient: nat, dropped: nat, e: int)
    requires n == Times10(quotient, dropped) && dropped > 0 && |Digits(n)| == precision + dropped
    ensures RoundedTo(precision, Decimal(n, e)) == Decimal(quotient, e + dropped)
  {
    NothingDropped(precision, n, quotient, dropped);
    var unit := Times10(1, dropped);
    assert n - Times10(quotient, dropped) == 0 < unit;
  }

  /** A number of at most `precision` digits followed by zeros rounds to itself. */
  lemma ExactRounding(precision: nat, n: nat, c: nat, zeros: nat, e: int)
    requires n == Times10(c, zeros) && c < Times10(1, precision) && precision > 0
    ensures Value(RoundedTo(precision, Decimal(n, e))) == Value(Decimal(n, e))
  {
    Times10Below(c, Times10(1, precision), zeros);
    Times10Adds(1, precision, zeros);
    DigitsLength(n, precision + zeros);
    var dropped := |Digits(n)| - precision;
    if dropped > 0 {
      Times10Adds(c, zeros - dropped, dropped);
      RoundedExactly(precision, n, Times10(c, zeros - dropped), dropped, e);
      ShiftMany(Times10(c, zeros - dropped), e, dropped);
    }
  }

  lemma PlainNumberRounds(precision: nat, n: Decimal)
    requires n.coefficient < Times10(1, precision) && precision > 0
    ensures Value(RoundedTo(precision, PlainNumber(n))) == Value(PlainNumber(n))
  {
    if n.exponent >= 0 {
      ExactRounding(precision, PlainNumber(n).coefficient, n.coefficient, n.exponent, 0);
    } else {
      ExactRounding(precision, n.coefficient, n.coefficient, 0, n.exponent);
    }
  }

  /** Re-encoding a stored text gives the same text, so reading it back never reports a
  non-canonical row. */
  lemma EncodingIsFixedPoint(d: Decimal)
    ensures ParseAmount(EncodeAmount(d)).Some?
    ensures EncodeAmount(ParseAmount(EncodeAmount(d)).value) == EncodeAmount(d)
  {
    var n := Normalized(d);
    EncodingReads(d);
    if n.coefficient == 0 {
      ZeroReads();
      NormalizedLength(PRECISION, d);
      PlainNumberRounds(PRECISION, Decimal(0, 0));
    } else {
      PlainReads(n);
      NormalizedLength(PRECISION, d);
      PlainNumberRounds(PRECISION, n);
    }
    EncodingIdentifies(ParseAmount(EncodeAmount(d)).value, d);
  }

  // ---------- beyond the precision ----------

  lemma OneDigitTooMany(precision: nat, tens: nat, units: nat)
    requires precision > 0 && tens == Times10(1, precision - 1) && units <= 1
    ensures RoundedTo(precision, Decimal(10 * tens + units, 0)) == Decimal(tens, 1)
  {
    var n := 10 * tens + units;
    DigitsLength(n, precision);
    DigitsLength(n, precision + 1);
    Times10Below(0, 1, precision - 1);
    assert |Digits(n)| == precision + 1;
    assert DropDigits(n, 1) == DropDigits(n / 10, 0) == tens;
    assert Times10(tens, 1) == 10 * Times10(tens, 0) && Times10(1, 1) == 10 * Times10(1, 0);
  }

  lemma LongAmountsMerge(precision: nat) returns (a: Decimal, b: Decimal)
    requires precision > 0
    ensures Value(a) != Value(b) && RoundedTo(precision, a) == RoundedTo(precision, b)
  {
    var tens := Times10(1, precision - 1);
    a, b := Decimal(10 * tens, 0), Decimal(10 * tens + 1, 0);
    if Value(a) == Value(b) {
      SameExponent(a.coefficient, b.coefficient, 0);
    }
    OneDigitTooMany(precision, tens, 0);
    OneDigitTooMany(precision, tens, 1);
  }

  /** Beyond the precision two different amounts can share a text. */
  lemma EncodingMergesLongAmounts() returns (a: Decimal, b: Decimal)
    ensures Value(a) != Value(b) && EncodeAmount(a) == EncodeAmount(b)
  {
    a, b := LongAmountsMerge(PRECISION);
    EncodingIdentifies(a, b);
  }
}
