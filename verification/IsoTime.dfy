/**
 The fixed-width text form of a UTC instant (section 5.1 of RFC 3339 recommends such a form because
 it sorts).  Every time column of the job tables holds this text, and SQL compares it as text.
 */
module IsoTime {
  import Text

  /** A UTC `datetime`: year 1 to 9999, to the microsecond. */
  datatype Utc = Utc(year: nat, month: nat, day: nat, hour: nat, minute: nat, second: nat, micro: nat)

  predicate Leap(year: nat) {
    year % 4 == 0 && (year % 100 != 0 || year % 400 == 0)
  }

  function DaysInMonth(year: nat, month: nat): (d: nat)
    requires 1 <= month <= 12
    ensures 28 <= d <= 31
  {
    if month == 2 then (if Leap(year) then 29 else 28)
    else if month == 4 || month == 6 || month == 9 || month == 11 then 30
    else 31
  }

  predicate Valid(t: Utc) {
    1 <= t.year <= 9999 && 1 <= t.month <= 12 && 1 <= t.day <= DaysInMonth(t.year, t.month)
    && t.hour < 24 && t.minute < 60 && t.second < 60 && t.micro < 1_000_000
  }

  /** Days of the year before the first of the month. */
  function DaysBeforeMonth(year: nat, month: nat): nat
    requires 1 <= month <= 13
  {
    if month == 1 then 0 else DaysBeforeMonth(year, month - 1) + DaysInMonth(year, month - 1)
  }

  function DaysBeforeYear(year: nat): nat
    requires 1 <= year
  {
    if year == 1 then 0 else DaysBeforeYear(year - 1) + DaysBeforeMonth(year - 1, 13)
  }

  function Day(t: Utc): nat
    requires Valid(t)
  {
    DaysBeforeYear(t.year) + DaysBeforeMonth(t.year, t.month) + t.day - 1
  }

  /** Microseconds since the start of year 1: the chronological position of the instant. */
  function Instant(t: Utc): nat
    requires Valid(t)
  {
    (((Day(t) * 24 + t.hour) * 60 + t.minute) * 60 + t.second) * 1_000_000 + t.micro
  }

  function Digit(n: nat): char
    requires n < 10
  {
    ('0' as int + n) as char
  }

  /** `n` in exactly `width` decimal digits. */
  function Decimal(n: nat, width: nat): (s: string)
    ensures |s| == width
  {
    if width == 0 then "" else Decimal(n / 10, width - 1) + [Digit(n % 10)]
  }

  function Power10(width: nat): nat {
    if width == 0 then 1 else 10 * Power10(width - 1)
  }

  /** `isoformat(timespec="microseconds")` of a UTC time: `YYYY-MM-DDTHH:MM:SS.ffffff+00:00`. */
  function Iso(t: Utc): string {
    Decimal(t.year, 4) + ("-" + (Decimal(t.month, 2) + ("-" + (Decimal(t.day, 2) + ("T" +
    (Decimal(t.hour, 2) + (":" + (Decimal(t.minute, 2) + (":" + (Decimal(t.second, 2) + ("." +
    (Decimal(t.micro, 6) + "+00:00"))))))))))))
  }

  /** Fixed-width decimal text is ordered as the numbers are. */
  lemma {:induction false} DecimalOrder(a: nat, b: nat, width: nat)
    requires a < Power10(width) && b < Power10(width)
    ensures Text.Less(Decimal(a, width), Decimal(b, width)) <==> a < b
    ensures Decimal(a, width) == Decimal(b, width) <==> a == b
  {
    if width > 0 {
      var p, q := Decimal(a / 10, width - 1), Decimal(b / 10, width - 1);
      DecimalOrder(a / 10, b / 10, width - 1);
      Text.LessFixedWidth(p, [Digit(a % 10)], q, [Digit(b % 10)]);
      assert Decimal(a, width)[..width - 1] == p && Decimal(b, width)[..width - 1] == q;
      assert Decimal(a, width)[width - 1] == Digit(a % 10) && Decimal(b, width)[width - 1] == Digit(b % 10);
    }
  }

  /** One field followed by more text: the field decides, or on a tie the rest does. */
  lemma FieldOrder(a: nat, b: nat, width: nat, sep: string, x: string, y: string)
    requires a < Power10(width) && b < Power10(width)
    ensures Text.Less(Decimal(a, width) + (sep + x), Decimal(b, width) + (sep + y))
            <==> a < b || (a == b && Text.Less(x, y))
  {
    DecimalOrder(a, b, width);
    Text.LessFixedWidth(Decimal(a, width), sep + x, Decimal(b, width), sep + y);
    Text.LessCommonPrefix(sep, x, y);
  }

  lemma {:induction false} MonthBound(year: nat, m: nat, n: nat)
    requires 1 <= m < n <= 13
    ensures DaysBeforeMonth(year, m) + DaysInMonth(year, m) <= DaysBeforeMonth(year, n)
  {
    if m + 1 < n {
      MonthBound(year, m, n - 1);
    }
  }

  lemma {:induction false} YearBound(x: nat, y: nat)
    requires 1 <= x < y
    ensures DaysBeforeYear(x) + DaysBeforeMonth(x, 13) <= DaysBeforeYear(y)
  {
    if x + 1 < y {
      YearBound(x, y - 1);
    }
  }

  lemma MonthSteps(year: nat, m: nat)
    requires 1 <= m <= 11
    ensures DaysBeforeMonth(year, m + 2) == DaysBeforeMonth(year, m) + DaysInMonth(year, m) + DaysInMonth(year, m + 1)
  {
  }

  /** The months of a year make 365 or 366 days. */
  lemma YearLength(year: nat)
    ensures DaysBeforeMonth(year, 13) == 365 + if Leap(year) then 1 else 0
  {
    MonthSteps(year, 1);
    MonthSteps(year, 3);
    MonthSteps(year, 5);
    MonthSteps(year, 7);
    MonthSteps(year, 9);
    MonthSteps(year, 11);
  }

  lemma QuotientStep(n: nat, k: nat)
    requires k in {4, 100, 400}
    ensures (n + 1) / k == n / k + if (n + 1) % k == 0 then 1 else 0
  {
  }

  lemma MultipleOf100(q: nat)
    ensures (100 * q) % 4 == 0
  {
    assert 100 * q == 4 * (25 * q);
    Multiple(25 * q, 4);
  }

  lemma MultipleOf400(q: nat)
    ensures (400 * q) % 100 == 0
  {
    assert 400 * q == 100 * (4 * q);
    Multiple(4 * q, 100);
  }

  lemma Multiple(q: nat, k: nat)
    requires k in {4, 100}
    ensures (k * q) % k == 0
  {
  }

  lemma Divisibility(n: nat)
    ensures n % 400 == 0 ==> n % 100 == 0
    ensures n % 100 == 0 ==> n % 4 == 0
  {
    MultipleOf400(n / 400);
    MultipleOf100(n / 100);
    assert n % 400 == 0 ==> n == 400 * (n / 400);
    assert n % 100 == 0 ==> n == 100 * (n / 100);
  }

  /** The leap days of a year, by inclusion and exclusion. */
  lemma LeapCount(year: nat)
    ensures (if Leap(year) then 1 else 0)
         == (if year % 4 == 0 then 1 else 0) - (if year % 100 == 0 then 1 else 0) + (if year % 400 == 0 then 1 else 0)
  {
    Divisibility(year);
  }

  lemma CountStep(n: nat)
    ensures GregorianCount(n + 1) == GregorianCount(n) + 365 + if Leap(n + 1) then 1 else 0
  {
    QuotientStep(n, 4);
    QuotientStep(n, 100);
    QuotientStep(n, 400);
    LeapCount(n + 1);
  }

  /** The Gregorian calendar's count of days before a year. */
  lemma {:induction false} GregorianDays(year: nat)
    requires 1 <= year
    ensures DaysBeforeYear(year) == GregorianCount(year - 1)
  {
    if year > 1 {
      GregorianDays(year - 1);
      YearLength(year - 1);
      CountStep(year - 2);
    }
  }

  /** The days of the first `n` years. */
  function GregorianCount(n: nat): int {
    365 * n + n / 4 - n / 100 + n / 400
  }

  predicate EarlierDate(a: Utc, b: Utc) {
    a.year < b.year || (a.year == b.year && (a.month < b.month || (a.month == b.month && a.day < b.day)))
  }

  lemma DayInYear(t: Utc)
    requires Valid(t)
    ensures DaysBeforeYear(t.year) <= Day(t) < DaysBeforeYear(t.year) + DaysBeforeMonth(t.year, 13)
  {
    MonthBound(t.year, t.month, 13);
  }

  lemma DayGrows(a: Utc, b: Utc)
    requires Valid(a) && Valid(b) && EarlierDate(a, b)
    ensures Day(a) < Day(b)
  {
    if a.year < b.year {
      YearBound(a.year, b.year);
      DayInYear(a);
      DayInYear(b);
    } else if a.month < b.month {
      MonthBound(a.year, a.month, b.month);
    }
  }

  predicate EarlierTime(a: Utc, b: Utc) {
    a.hour < b.hour || (a.hour == b.hour && (a.minute < b.minute || (a.minute == b.minute &&
    (a.second < b.second || (a.second == b.second && a.micro < b.micro)))))
  }

  /** Field by field, in the order the text shows them. */
  predicate Earlier(a: Utc, b: Utc) {
    EarlierDate(a, b) || (a.year == b.year && a.month == b.month && a.day == b.day && EarlierTime(a, b))
  }

  lemma EarlierIsEarlierInstant(a: Utc, b: Utc)
    requires Valid(a) && Valid(b) && Earlier(a, b)
    ensures Instant(a) < Instant(b)
  {
    if EarlierDate(a, b) {
      DayGrows(a, b);
    }
  }

  lemma IsoOrderIsFieldOrder(a: Utc, b: Utc)
    requires Valid(a) && Valid(b)
    ensures Text.Less(Iso(a), Iso(b)) <==> Earlier(a, b)
  {
    assert Power10(2) == 100 && Power10(4) == 10_000 && Power10(6) == 1_000_000;
    var z := "+00:00";
    Text.LessIrreflexive(z);
    var us_a, us_b := Decimal(a.micro, 6) + z, Decimal(b.micro, 6) + z;
    assert z == z + "";
    FieldOrder(a.micro, b.micro, 6, z, "", "");
    var s_a, s_b := Decimal(a.second, 2) + ("." + us_a), Decimal(b.second, 2) + ("." + us_b);
    FieldOrder(a.second, b.second, 2, ".", us_a, us_b);
    var mi_a, mi_b := Decimal(a.minute, 2) + (":" + s_a), Decimal(b.minute, 2) + (":" + s_b);
    FieldOrder(a.minute, b.minute, 2, ":", s_a, s_b);
    var h_a, h_b := Decimal(a.hour, 2) + (":" + mi_a), Decimal(b.hour, 2) + (":" + mi_b);
    FieldOrder(a.hour, b.hour, 2, ":", mi_a, mi_b);
    var d_a, d_b := Decimal(a.day, 2) + ("T" + h_a), Decimal(b.day, 2) + ("T" + h_b);
    FieldOrder(a.day, b.day, 2, "T", h_a, h_b);
    var mo_a, mo_b := Decimal(a.month, 2) + ("-" + d_a), Decimal(b.month, 2) + ("-" + d_b);
    FieldOrder(a.month, b.month, 2, "-", d_a, d_b);
    FieldOrder(a.year, b.year, 4, "-", mo_a, mo_b);
    assert Iso(a) == Decimal(a.year, 4) + ("-" + mo_a);
    assert Iso(b) == Decimal(b.year, 4) + ("-" + mo_b);
  }

  /** The text comparisons made by SQL are comparisons of instants; equal text means one instant. */
  lemma IsoIsOrderEmbedding(a: Utc, b: Utc)
    requires Valid(a) && Valid(b)
    ensures Text.Less(Iso(a), Iso(b)) <==> Instant(a) < Instant(b)
    ensures Text.AtMost(Iso(a), Iso(b)) <==> Instant(a) <= Instant(b)
    ensures Iso(a) == Iso(b) <==> a == b
  {
    IsoOrderIsFieldOrder(a, b);
    IsoOrderIsFieldOrder(b, a);
    if Earlier(a, b) {
      EarlierIsEarlierInstant(a, b);
    } else if Earlier(b, a) {
      EarlierIsEarlierInstant(b, a);
    } else {
      assert a == b;
    }
    if Iso(a) == Iso(b) {
      Text.LessIrreflexive(Iso(a));
    }
  }
}
