/**
 * Proleptic Gregorian calendar dates and wall-clock timestamps, as far as the
 * reports need them: the calendar date of a start time (`to_date`), its year
 * and month, seconds for trip durations, subtracting whole days from a date
 * (`max_date - timedelta(days=14)`) and rendering a date as `yyyy-MM-dd`.
 *
 * Dates follow the range of Python's `datetime.date` (years 1 to 9999), and
 * `Ordinal` numbers days the way `date.toordinal` does (0001-01-01 is day 1).
 */
module Civil {
  import opened Wrappers

  datatype CivilDate = CivilDate(year: int, month: int, day: int)

  predicate IsLeapYear(y: int) {
    y % 4 == 0 && (y % 100 != 0 || y % 400 == 0)
  }

  function DaysInYear(y: int): int {
    if IsLeapYear(y) then 366 else 365
  }

  function DaysInMonth(y: int, m: int): int
    requires 1 <= m <= 12
  {
    if m == 2 then (if IsLeapYear(y) then 29 else 28)
    else if m == 4 || m == 6 || m == 9 || m == 11 then 30
    else 31
  }

  predicate IsValidDate(d: CivilDate) {
    1 <= d.year <= 9999 && 1 <= d.month <= 12 && 1 <= d.day <= DaysInMonth(d.year, d.month)
  }

  /** A calendar date that exists. */
  type Date = d: CivilDate | IsValidDate(d) witness CivilDate(1, 1, 1)

  type Hour = h: int | 0 <= h < 24
  type Minute = m: int | 0 <= m < 60
  type Second = s: int | 0 <= s < 60

  /** A parsed `yyyy-MM-dd HH:mm:ss` value. */
  datatype Timestamp = Timestamp(date: Date, hour: Hour, minute: Minute, second: Second)

  /** Days in the years before year `y` (closed form, as CPython computes it). */
  function DaysBeforeYear(y: int): int
    requires y >= 1
  {
    var y1 := y - 1;
    y1 * 365 + y1 / 4 - y1 / 100 + y1 / 400
  }

  /** Days in the months of year `y` before month `m`. */
  function DaysBeforeMonth(y: int, m: int): int
    requires 1 <= m <= 12
  {
    var before :=
      if m == 1 then 0 else if m == 2 then 31 else if m == 3 then 59
      else if m == 4 then 90 else if m == 5 then 120 else if m == 6 then 151
      else if m == 7 then 181 else if m == 8 then 212 else if m == 9 then 243
      else if m == 10 then 273 else if m == 11 then 304 else 334;
    if m > 2 && IsLeapYear(y) then before + 1 else before
  }

  /** Day number of a date; 0001-01-01 is day 1. */
  function Ordinal(d: Date): int {
    DaysBeforeYear(d.year) + DaysBeforeMonth(d.year, d.month) + d.day
  }

  /** Lexicographic order on (year, month, day). */
  predicate Before(a: Date, b: Date) {
    a.year < b.year
    || (a.year == b.year && (a.month < b.month || (a.month == b.month && a.day < b.day)))
  }

  /** The closed form adds exactly the length of year `y` when moving to `y + 1`. */
  lemma DaysBeforeNextYear(y: int)
    requires y >= 1
    ensures DaysBeforeYear(y + 1) == DaysBeforeYear(y) + DaysInYear(y)
  {
    var y1 := y - 1;
    assert y / 4 == y1 / 4 + (if y % 4 == 0 then 1 else 0);
    assert y / 100 == y1 / 100 + (if y % 100 == 0 then 1 else 0);
    assert y / 400 == y1 / 400 + (if y % 400 == 0 then 1 else 0);
  }

  lemma {:induction false} DaysBeforeYearMonotone(a: int, b: int)
    requires 1 <= a < b
    ensures DaysBeforeYear(a) + DaysInYear(a) <= DaysBeforeYear(b)
    decreases b - a
  {
    DaysBeforeNextYear(a);
    if a + 1 < b {
      DaysBeforeYearMonotone(a + 1, b);
    }
  }

  lemma MonthsMonotone(y: int, m1: int, m2: int)
    requires 1 <= m1 < m2 <= 12
    ensures DaysBeforeMonth(y, m1) + DaysInMonth(y, m1) <= DaysBeforeMonth(y, m2)
  {
  }

  lemma MonthStep(y: int, m: int)
    requires 1 <= m < 12
    ensures DaysBeforeMonth(y, m) + DaysInMonth(y, m) == DaysBeforeMonth(y, m + 1)
  {
  }

  lemma LastMonthFillsYear(y: int)
    ensures DaysBeforeMonth(y, 12) + DaysInMonth(y, 12) == DaysInYear(y)
  {
  }

  /** A date's day number lies inside its own year. */
  lemma OrdinalWithinYear(d: Date)
    ensures DaysBeforeYear(d.year) < Ordinal(d) <= DaysBeforeYear(d.year) + DaysInYear(d.year)
  {
    if d.month < 12 {
      MonthsMonotone(d.year, d.month, 12);
    }
    LastMonthFillsYear(d.year);
  }

  lemma OrdinalPositive(d: Date)
    ensures Ordinal(d) >= 1
  {
    var y1 := d.year - 1;
    assert y1 / 4 >= y1 / 100;
  }

  /** Day numbers order dates exactly as the calendar does. */
  lemma OrdinalOrder(a: Date, b: Date)
    ensures Before(a, b) <==> Ordinal(a) < Ordinal(b)
    ensures a == b <==> Ordinal(a) == Ordinal(b)
  {
    forall x: Date, y: Date | Before(x, y) ensures Ordinal(x) < Ordinal(y) {
      BeforeSmallerOrdinal(x, y);
    }
  }

  lemma BeforeSmallerOrdinal(a: Date, b: Date)
    requires Before(a, b)
    ensures Ordinal(a) < Ordinal(b)
  {
    if a.year < b.year {
      OrdinalWithinYear(a);
      OrdinalWithinYear(b);
      DaysBeforeYearMonotone(a.year, b.year);
    } else if a.month < b.month {
      MonthsMonotone(a.year, a.month, b.month);
    }
  }

  /** The day before `d`; there is none before 0001-01-01. */
  function PrevDay(d: Date): (r: Option<Date>)
    ensures r.None? <==> Ordinal(d) == 1
    ensures r.Some? ==> Ordinal(r.value) == Ordinal(d) - 1
  {
    if d.day > 1 then
      var p: Date := CivilDate(d.year, d.month, d.day - 1);
      OrdinalPositive(p);
      Some(p)
    else if d.month > 1 then
      var p: Date := CivilDate(d.year, d.month - 1, DaysInMonth(d.year, d.month - 1));
      MonthStep(d.year, d.month - 1);
      OrdinalPositive(p);
      Some(p)
    else if d.year > 1 then
      var p: Date := CivilDate(d.year - 1, 12, 31);
      DaysBeforeNextYear(d.year - 1);
      LastMonthFillsYear(d.year - 1);
      OrdinalPositive(p);
      Some(p)
    else
      None
  }

  /**
   * `d` minus `n` days, or None when the result would precede 0001-01-01
   * (Python raises OverflowError there).
   */
  function SubDays(d: Date, n: nat): (r: Option<Date>)
    ensures r.Some? <==> Ordinal(d) - n >= 1
    ensures r.Some? ==> Ordinal(r.value) == Ordinal(d) - n
    decreases n
  {
    if n == 0 then
      OrdinalPositive(d);
      Some(d)
    else
      match PrevDay(d)
      case None => None
      case Some(p) => SubDays(p, n - 1)
  }

  /** Seconds since the start of 0001-01-01 in the same time zone. */
  function Secs(t: Timestamp): int {
    Ordinal(t.date) * 86400 + t.hour * 3600 + t.minute * 60 + t.second
  }

  /** The seconds count of a timestamp falls inside the day of its date. */
  lemma SecsWithinDay(t: Timestamp)
    ensures Ordinal(t.date) * 86400 <= Secs(t) < (Ordinal(t.date) + 1) * 86400
  {
  }

  function DigitChar(n: int): char
    requires 0 <= n <= 9
  {
    ('0' as int + n) as char
  }

  function DigitValue(c: char): Option<int> {
    if '0' <= c <= '9' then Some(c as int - '0' as int) else None
  }

  function Pad2(n: int): string
    requires 0 <= n < 100
  {
    [DigitChar(n / 10), DigitChar(n % 10)]
  }

  function Pad4(n: int): string
    requires 0 <= n < 10000
  {
    [DigitChar(n / 1000), DigitChar(n / 100 % 10), DigitChar(n / 10 % 10), DigitChar(n % 10)]
  }

  /** `strftime("%Y-%m-%d")`. */
  function FormatDate(d: Date): (s: string)
    ensures |s| == 10 && s[4] == '-' && s[7] == '-'
  {
    Pad4(d.year) + "-" + Pad2(d.month) + "-" + Pad2(d.day)
  }

  /** The value of a non-empty string of decimal digits. */
  function Decimal(s: string): Option<int>
    decreases |s|
  {
    if |s| == 0 then None
    else
      match DigitValue(s[|s| - 1])
      case None => None
      case Some(last) =>
        if |s| == 1 then Some(last)
        else
          match Decimal(s[..|s| - 1])
          case None => None
          case Some(v) => Some(v * 10 + last)
  }

  /** Reads back a `yyyy-MM-dd` string; None when it is not a valid date. */
  function ParseDate(s: string): Option<Date> {
    if |s| == 10 && s[4] == '-' && s[7] == '-' then
      match (Decimal(s[..4]), Decimal(s[5..7]), Decimal(s[8..]))
      case (Some(y), Some(m), Some(d)) =>
        if IsValidDate(CivilDate(y, m, d)) then Some(CivilDate(y, m, d)) else None
      case _ => None
    else None
  }

  lemma Pad2Decimal(n: int)
    requires 0 <= n < 100
    ensures Decimal(Pad2(n)) == Some(n)
  {
    var s := Pad2(n);
    assert s[..1] == [DigitChar(n / 10)];
    assert Decimal(s[..1]) == Some(n / 10);
  }

  lemma Pad4Decimal(n: int)
    requires 0 <= n < 10000
    ensures Decimal(Pad4(n)) == Some(n)
  {
    var s := Pad4(n);
    assert s[..1] == [DigitChar(n / 1000)];
    assert s[..2][..1] == s[..1];
    assert s[..3][..2] == s[..2];
    assert s[..4][..3] == s[..3];
    assert s[..4] == s;
    assert n / 100 == n / 1000 * 10 + n / 100 % 10;
    assert n / 10 == n / 100 * 10 + n / 10 % 10;
    assert Decimal(s[..2]) == Some(n / 100);
    assert Decimal(s[..3]) == Some(n / 10);
  }

  /** Rendering a date and reading it back gives the same date. */
  lemma ParseFormatDate(d: Date)
    ensures ParseDate(FormatDate(d)) == Some(d)
  {
    var s := FormatDate(d);
    assert s[..4] == Pad4(d.year);
    assert s[5..7] == Pad2(d.month);
    assert s[8..] == Pad2(d.day);
    Pad4Decimal(d.year);
    Pad2Decimal(d.month);
    Pad2Decimal(d.day);
  }

  /** Different dates never render the same. */
  lemma FormatDateInjective(a: Date, b: Date)
    requires FormatDate(a) == FormatDate(b)
    ensures a == b
  {
    ParseFormatDate(a);
    ParseFormatDate(b);
  }
}
