/** Timestamps and dates as the program writes them, and why comparing the texts compares the times. */
module IsoTime {
  import opened Domain
  import opened Ordering
  import AmountText

  // ---------- The calendar ----------

  /** The fields of a date and time, in the Gregorian calendar extended backwards to year 1. */
  datatype Moment = Moment(year: nat, month: nat, day: nat, hour: nat, minute: nat, second: nat, micro: nat)

  function LeapDays(year: nat): nat {
    if year % 4 == 0 && (year % 100 != 0 || year % 400 == 0) then 1 else 0
  }

  function DaysIn(year: nat, month: nat): nat {
    if month == 2 then 28 + LeapDays(year) else if month in {4, 6, 9, 11} then 30 else 31
  }

  predicate ValidDate(m: Moment) {
    1 <= m.year <= 9999 && 1 <= m.month <= 12 && 1 <= m.day <= DaysIn(m.year, m.month)
  }

  predicate ValidMoment(m: Moment) {
    ValidDate(m) && m.hour < 24 && m.minute < 60 && m.second < 60 && m.micro < 1_000_000
  }

  function DaysBeforeYear(year: nat): int
    requires year > 0
  {
    (year - 1) * 365 + (year - 1) / 4 - (year - 1) / 100 + (year - 1) / 400
  }

  function DaysBeforeMonth(year: nat, month: nat): nat
    requires month > 0
  {
    if month == 1 then 0 else DaysBeforeMonth(year, month - 1) + DaysIn(year, month - 1)
  }

  /** The proleptic ordinal: the first day of year 1 has number 1. */
  function DayNumber(m: Moment): Date
    requires ValidDate(m)
  {
    DaysBeforeYear(m.year) + DaysBeforeMonth(m.year, m.month) + m.day
  }

  const MINUTE: int := 60_000_000

  /** The instant a clock shows whose offset from UTC is the given number of minutes. */
  function Instant(m: Moment, offset: int): Timestamp
    requires ValidMoment(m)
  {
    (((DayNumber(m) * 24 + m.hour) * 60 + m.minute) * 60 + m.second) * 1_000_000 + m.micro - offset * MINUTE
  }

  lemma {:induction false} LaterMonth(year: nat, m: nat, n: nat)
    requires 0 < m < n
    ensures DaysBeforeMonth(year, m) + DaysIn(year, m) <= DaysBeforeMonth(year, n)
    decreases n
  {
    if m < n - 1 {
      LaterMonth(year, m, n - 1);
    }
  }

  lemma WholeYear(year: nat)
    ensures DaysBeforeMonth(year, 12) + 31 == 365 + LeapDays(year)
  {
    assert DaysBeforeMonth(year, 2) == 31;
    assert DaysBeforeMonth(year, 4) == 90 + LeapDays(year);
    assert DaysBeforeMonth(year, 6) == 151 + LeapDays(year);
    assert DaysBeforeMonth(year, 8) == 212 + LeapDays(year);
    assert DaysBeforeMonth(year, 10) == 273 + LeapDays(year);
  }

  lemma EveryFourth(n: nat)
    requires n > 0
    ensures n / 4 == (n - 1) / 4 + if n % 4 == 0 then 1 else 0
  {
  }

  lemma EveryHundredth(n: nat)
    requires n > 0
    ensures n / 100 == (n - 1) / 100 + if n % 100 == 0 then 1 else 0
  {
  }

  lemma EveryFourHundredth(n: nat)
    requires n > 0
    ensures n / 400 == (n - 1) / 400 + if n % 400 == 0 then 1 else 0
  {
  }

  lemma CenturiesDivide(n: nat)
    ensures n % 100 == 0 ==> n % 4 == 0
    ensures n % 400 == 0 ==> n % 100 == 0
  {
    if n % 100 == 0 {
      assert n == 4 * (25 * (n / 100));
    }
    if n % 400 == 0 {
      assert n == 100 * (4 * (n / 400));
    }
  }

  lemma NextYear(year: nat)
    requires year > 0
    ensures DaysBeforeYear(year + 1) == DaysBeforeYear(year) + 365 + LeapDays(year)
  {
    EveryFourth(year);
    EveryHundredth(year);
    EveryFourHundredth(year);
    CenturiesDivide(year);
  }

  lemma {:induction false} LaterYear(y: nat, z: nat)
    requires 0 < y < z
    ensures DaysBeforeYear(y) + 365 + LeapDays(y) <= DaysBeforeYear(z)
    decreases z
  {
    NextYear(z - 1);
    if y < z - 1 {
      LaterYear(y, z - 1);
    }
  }

  /** Years first, then months, then days. */
  predicate EarlierDay(a: Moment, b: Moment) {
    a.year < b.year || (a.year == b.year && (a.month < b.month || (a.month == b.month && a.day < b.day)))
  }

  lemma EarlierDayIsLess(a: Moment, b: Moment)
    requires ValidDate(a) && ValidDate(b) && EarlierDay(a, b)
    ensures DayNumber(a) < DayNumber(b)
  {
    if a.year < b.year {
      LaterYear(a.year, b.year);
      WholeYear(a.year);
      if a.month < 12 { LaterMonth(a.year, a.month, 12); }
    } else if a.month < b.month {
      LaterMonth(a.year, a.month, b.month);
    }
  }

  /** Then hours, minutes, seconds and microseconds. */
  predicate EarlierTime(a: Moment, b: Moment) {
    || a.hour < b.hour
    || (a.hour == b.hour && (a.minute < b.minute || (a.minute == b.minute && EarlierSecond(a, b))))
  }

  predicate EarlierSecond(a: Moment, b: Moment) {
    a.second < b.second || (a.second == b.second && a.micro < b.micro)
  }

  predicate SameDay(a: Moment, b: Moment) {
    a.year == b.year && a.month == b.month && a.day == b.day
  }

  predicate Earlier(a: Moment, b: Moment) {
    EarlierDay(a, b) || (SameDay(a, b) && EarlierTime(a, b))
  }

  lemma EarlierIsLess(a: Moment, b: Moment, offset: int)
    requires ValidMoment(a) && ValidMoment(b) && Earlier(a, b)
    ensures Instant(a, offset) < Instant(b, offset)
  {
    if EarlierDay(a, b) {
      EarlierDayIsLess(a, b);
    }
  }

  // ---------- The text ----------

  /** The last `width` digits of n, with leading zeros. */
  function Padded(n: nat, width: nat): (s: string)
    ensures |s| == width
  {
    if width == 0 then "" else Padded(n / 10, width - 1) + [AmountText.DIGITS[n % 10]]
  }

  /** A number of fixed width and the separator that follows it. */
  datatype Field = Field(value: nat, width: nat, mark: char)

  function Written(fields: seq<Field>, rest: string): string {
    if fields == [] then rest
    else Padded(fields[0].value, fields[0].width) + ([fields[0].mark] + Written(fields[1..], rest))
  }

  function DateFields(m: Moment): seq<Field> {
    [Field(m.year, 4, '-'), Field(m.month, 2, '-')]
  }

  function ClockFields(m: Moment): seq<Field> {
    DateFields(m) + [Field(m.day, 2, 'T'), Field(m.hour, 2, ':'), Field(m.minute, 2, ':')]
  }

  /** `date.isoformat()`. */
  function DateText(m: Moment): string {
    Written(DateFields(m), Padded(m.day, 2))
  }

  function OffsetText(offset: int): string {
    var minutes := if offset < 0 then -offset else offset;
    (if offset < 0 then "-" else "+") + Written([Field(minutes / 60, 2, ':')], Padded(minutes % 60, 2))
  }

  /** The fraction is left out if it is zero. */
  function FractionText(micro: nat, offset: int): string {
    if micro == 0 then OffsetText(offset) else "." + (Padded(micro, 6) + OffsetText(offset))
  }

  /** `datetime.isoformat()` of a time zone whose offset is a whole number of minutes. */
  function MomentText(m: Moment, offset: int): string {
    Written(ClockFields(m), Padded(m.second, 2) + FractionText(m.micro, offset))
  }

  // ---------- The order of texts ----------

  /** Equally long beginnings decide, unless they are equal. */
  lemma {:induction false} BeginningDecides(x: string, y: string, s: string, t: string)
    requires |x| == |y|
    ensures TextBefore(x + s, y + t) <==> if x == y then TextBefore(s, t) else TextBefore(x, y)
    decreases |x|
  {
    if x == "" {
      assert x + s == s && y + t == t;
    } else {
      BeginningDecides(x[1..], y[1..], s, t);
      assert (x + s)[1..] == x[1..] + s && (y + t)[1..] == y[1..] + t;
      assert x == [x[0]] + x[1..] && y == [y[0]] + y[1..];
    }
  }

  lemma DigitCode(a: nat)
    requires a < 10
    ensures AmountText.DIGITS[a] as int == '0' as int + a
  {
    assert a in {0, 1, 2, 3, 4, 5, 6, 7, 8, 9};
  }

  lemma DigitsInOrder(a: nat, b: nat)
    requires a < 10 && b < 10
    ensures TextBefore([AmountText.DIGITS[a]], [AmountText.DIGITS[b]]) <==> a <= b
    ensures AmountText.DIGITS[a] == AmountText.DIGITS[b] <==> a == b
  {
    DigitCode(a);
    DigitCode(b);
  }

  lemma {:induction false} PaddedInOrder(a: nat, b: nat, width: nat)
    requires a < Times10(1, width) && b < Times10(1, width)
    ensures TextBefore(Padded(a, width), Padded(b, width)) <==> a <= b
    ensures Padded(a, width) == Padded(b, width) <==> a == b
    decreases width
  {
    if width > 0 {
      PaddedInOrder(a / 10, b / 10, width - 1);
      var x, y := Padded(a, width), Padded(b, width);
      assert x[..width - 1] == Padded(a / 10, width - 1) && x[width - 1] == AmountText.DIGITS[a % 10];
      assert y[..width - 1] == Padded(b / 10, width - 1) && y[width - 1] == AmountText.DIGITS[b % 10];
      DigitsInOrder(a % 10, b % 10);
      BeginningDecides(
        Padded(a / 10, width - 1), Padded(b / 10, width - 1), [AmountText.DIGITS[a % 10]], [AmountText.DIGITS[b % 10]]);
    }
  }

  /** Fields that fit their width, with the same widths and separators. */
  ghost predicate SameShape(a: seq<Field>, b: seq<Field>) {
    && |a| == |b|
    && (forall i :: 0 <= i < |a| ==> a[i].width == b[i].width && a[i].mark == b[i].mark)
    && (forall i :: 0 <= i < |a| ==> a[i].value < Times10(1, a[i].width) && b[i].value < Times10(1, b[i].width))
  }

  predicate FieldsBefore(a: seq<Field>, b: seq<Field>)
    requires |a| == |b|
  {
    a != [] && (a[0].value < b[0].value || (a[0].value == b[0].value && FieldsBefore(a[1..], b[1..])))
  }

  lemma FieldsStep(f: Field, a: seq<Field>, g: Field, b: seq<Field>)
    requires |a| == |b|
    ensures FieldsBefore([f] + a, [g] + b) <==> f.value < g.value || (f.value == g.value && FieldsBefore(a, b))
  {
    assert ([f] + a)[1..] == a && ([g] + b)[1..] == b;
  }

  lemma {:induction false} FieldsDecide(a: seq<Field>, b: seq<Field>, s: string, t: string)
    requires SameShape(a, b)
    ensures TextBefore(Written(a, s), Written(b, t)) <==> if a == b then TextBefore(s, t) else FieldsBefore(a, b)
    decreases |a|
  {
    if a != [] {
      FieldsDecide(a[1..], b[1..], s, t);
      PaddedInOrder(a[0].value, b[0].value, a[0].width);
      var x, y := [a[0].mark] + Written(a[1..], s), [b[0].mark] + Written(b[1..], t);
      BeginningDecides(Padded(a[0].value, a[0].width), Padded(b[0].value, b[0].width), x, y);
      BeginningDecides([a[0].mark], [b[0].mark], Written(a[1..], s), Written(b[1..], t));
      assert a == [a[0]] + a[1..] && b == [b[0]] + b[1..];
    }
  }

  lemma PowersOfTen()
    ensures Times10(1, 2) == 100 && Times10(1, 4) == 10_000 && Times10(1, 6) == 1_000_000
  {
    assert Times10(1, 3) == 1_000;
    assert Times10(1, 5) == 100_000;
  }

  lemma DateFieldsCompare(a: Moment, b: Moment)
    requires ValidDate(a) && ValidDate(b)
    ensures SameShape(DateFields(a), DateFields(b))
    ensures DateFields(a) == DateFields(b) <==> a.year == b.year && a.month == b.month
    ensures FieldsBefore(DateFields(a), DateFields(b)) <==> a.year < b.year || (a.year == b.year && a.month < b.month)
  {
    PowersOfTen();
    var x, y := DateFields(a), DateFields(b);
    assert x == [x[0]] + [x[1]] && y == [y[0]] + [y[1]];
    FieldsStep(x[0], [x[1]], y[0], [y[1]]);
    FieldsStep(x[1], [], y[1], []);
  }

  /** Dates are written in their order: the stored texts compare as the day numbers do. */
  lemma DateTextOrder(a: Moment, b: Moment)
    requires ValidDate(a) && ValidDate(b)
    ensures TextBefore(DateText(a), DateText(b)) <==> DayNumber(a) <= DayNumber(b)
  {
    DateFieldsCompare(a, b);
    FieldsDecide(DateFields(a), DateFields(b), Padded(a.day, 2), Padded(b.day, 2));
    PowersOfTen();
    PaddedInOrder(a.day, b.day, 2);
    if EarlierDay(a, b) {
      EarlierDayIsLess(a, b);
    } else if EarlierDay(b, a) {
      EarlierDayIsLess(b, a);
    }
  }

  /** The fields down to the minute. */
  predicate EarlierMinute(a: Moment, b: Moment) {
    EarlierDay(a, b) || (SameDay(a, b) && (a.hour < b.hour || (a.hour == b.hour && a.minute < b.minute)))
  }

  predicate SameMinute(a: Moment, b: Moment) {
    SameDay(a, b) && a.hour == b.hour && a.minute == b.minute
  }

  function TimeFields(m: Moment): seq<Field> {
    [Field(m.hour, 2, ':'), Field(m.minute, 2, ':')]
  }

  lemma TimeFieldsCompare(a: Moment, b: Moment)
    ensures TimeFields(a) == TimeFields(b) <==> a.hour == b.hour && a.minute == b.minute
    ensures FieldsBefore(TimeFields(a), TimeFields(b)) <==> a.hour < b.hour || (a.hour == b.hour && a.minute < b.minute)
  {
    var x, y := TimeFields(a), TimeFields(b);
    assert x == [x[0]] + [x[1]] && y == [y[0]] + [y[1]];
    FieldsStep(x[0], [x[1]], y[0], [y[1]]);
    FieldsStep(x[1], [], y[1], []);
  }

  lemma DayAndTimeCompare(a: Moment, b: Moment)
    ensures var x, y := [Field(a.day, 2, 'T')] + TimeFields(a), [Field(b.day, 2, 'T')] + TimeFields(b);
      FieldsBefore(x, y) <==> a.day < b.day || (a.day == b.day && FieldsBefore(TimeFields(a), TimeFields(b)))
  {
    FieldsStep(Field(a.day, 2, 'T'), TimeFields(a), Field(b.day, 2, 'T'), TimeFields(b));
  }

  /** Concatenated fields compare part by part. */
  lemma {:induction false} FieldsInParts(a: seq<Field>, b: seq<Field>, s: seq<Field>, t: seq<Field>)
    requires SameShape(a, b) && |s| == |t|
    ensures FieldsBefore(a + s, b + t) <==> if a == b then FieldsBefore(s, t) else FieldsBefore(a, b)
    decreases |a|
  {
    if a == [] {
      assert a + s == s && b + t == t;
    } else {
      FieldsInParts(a[1..], b[1..], s, t);
      assert a + s == [a[0]] + (a[1..] + s) && b + t == [b[0]] + (b[1..] + t);
      FieldsStep(a[0], a[1..] + s, b[0], b[1..] + t);
      assert a == [a[0]] + a[1..] && b == [b[0]] + b[1..];
    }
  }

  lemma ClockFieldsFit(a: Moment, b: Moment)
    requires ValidMoment(a) && ValidMoment(b)
    ensures SameShape(ClockFields(a), ClockFields(b))
    ensures ClockFields(a) == ClockFields(b) <==> SameMinute(a, b)
  {
    PowersOfTen();
    var x, y := ClockFields(a), ClockFields(b);
    assert x[0].value == a.year && x[1].value == a.month && x[2].value == a.day;
    assert x[3].value == a.hour && x[4].value == a.minute;
    assert y[0].value == b.year && y[1].value == b.month && y[2].value == b.day;
    assert y[3].value == b.hour && y[4].value == b.minute;
  }

  lemma ClockFieldsCompare(a: Moment, b: Moment)
    requires ValidMoment(a) && ValidMoment(b)
    ensures SameShape(ClockFields(a), ClockFields(b))
    ensures ClockFields(a) == ClockFields(b) <==> SameMinute(a, b)
    ensures FieldsBefore(ClockFields(a), ClockFields(b)) <==> EarlierMinute(a, b)
  {
    ClockFieldsFit(a, b);
    DateFieldsCompare(a, b);
    var x, y := [Field(a.day, 2, 'T')] + TimeFields(a), [Field(b.day, 2, 'T')] + TimeFields(b);
    FieldsInParts(DateFields(a), DateFields(b), x, y);
    assert ClockFields(a) == DateFields(a) + x && ClockFields(b) == DateFields(b) + y;
    DayAndTimeCompare(a, b);
    TimeFieldsCompare(a, b);
  }

  /** A fraction sorts behind no fraction, and fractions by their digits. */
  lemma FractionsInOrder(a: nat, b: nat, offset: int)
    requires a < 1_000_000 && b < 1_000_000
    ensures TextBefore(FractionText(a, offset), FractionText(b, offset)) <==> a <= b
  {
    var rest := OffsetText(offset);
    TextBeforeIsTotal(rest, rest);
    assert rest[0] in {'+', '-'};
    if a != 0 && b != 0 {
      PowersOfTen();
      PaddedInOrder(a, b, 6);
      BeginningDecides(".", ".", Padded(a, 6) + rest, Padded(b, 6) + rest);
      BeginningDecides(Padded(a, 6), Padded(b, 6), rest, rest);
    }
  }

  lemma SecondsInOrder(a: Moment, b: Moment, offset: int)
    requires ValidMoment(a) && ValidMoment(b)
    ensures var s, t := Padded(a.second, 2) + FractionText(a.micro, offset), Padded(b.second, 2) + FractionText(b.micro, offset);
      TextBefore(s, t) <==> !EarlierSecond(b, a)
  {
    PowersOfTen();
    PaddedInOrder(a.second, b.second, 2);
    FractionsInOrder(a.micro, b.micro, offset);
    BeginningDecides(
      Padded(a.second, 2), Padded(b.second, 2), FractionText(a.micro, offset), FractionText(b.micro, offset));
  }

  lemma EarlierIsTotal(a: Moment, b: Moment)
    requires !Earlier(a, b) && !Earlier(b, a)
    ensures a == b
  {
  }

  /** Times written with one offset, as the program writes all of its own in UTC: the texts compare as the
  instants do, with or without fractions. */
  lemma TextOrderIsTimeOrder(a: Moment, b: Moment, offset: int)
    requires ValidMoment(a) && ValidMoment(b)
    ensures TextBefore(MomentText(a, offset), MomentText(b, offset)) <==> Instant(a, offset) <= Instant(b, offset)
  {
    ClockFieldsCompare(a, b);
    SecondsInOrder(a, b, offset);
    FieldsDecide(
      ClockFields(a), ClockFields(b),
      Padded(a.second, 2) + FractionText(a.micro, offset), Padded(b.second, 2) + FractionText(b.micro, offset));
    if Earlier(a, b) {
      EarlierIsLess(a, b, offset);
    } else if Earlier(b, a) {
      EarlierIsLess(b, a, offset);
    } else {
      EarlierIsTotal(a, b);
    }
  }

  /** With two offsets it fails: one o'clock in UTC+2 is before half past midnight in UTC and sorts behind it. */
  lemma MixedOffsetsDisagree()
    ensures var a, b := Moment(2024, 1, 1, 1, 0, 0, 0), Moment(2024, 1, 1, 0, 30, 0, 0);
      Instant(a, 120) < Instant(b, 0) && !TextBefore(MomentText(a, 120), MomentText(b, 0))
  {
    var a, b := Moment(2024, 1, 1, 1, 0, 0, 0), Moment(2024, 1, 1, 0, 30, 0, 0);
    ClockFieldsCompare(a, b);
    FieldsDecide(
      ClockFields(a), ClockFields(b), Padded(0, 2) + FractionText(0, 120), Padded(0, 2) + FractionText(0, 0));
  }
}
