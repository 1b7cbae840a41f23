/** Calendar dates as Python's datetime module treats them: the proleptic
    Gregorian calendar, day numbers counted the way date.toordinal() counts
    them (0001-01-01 is day 1), the range of years datetime accepts, the
    addition of a timedelta of whole days, the day difference of two dates,
    and the "%Y-%m-%d" rendering the scraper writes. */
module Dates {
  import opened Wrappers
  import opened Text

  /** datetime.MINYEAR and datetime.MAXYEAR. */
  const MinYear := 1
  const MaxYear := 9999

  datatype Date = Date(year: int, month: int, day: int)

  predicate IsLeapYear(y: int)
  {
    y % 4 == 0 && (y % 100 != 0 || y % 400 == 0)
  }

  function DaysInMonth(y: int, m: int): int
    requires 1 <= m <= 12
  {
    if m == 2 then (if IsLeapYear(y) then 29 else 28)
    else if m == 4 || m == 6 || m == 9 || m == 11 then 30
    else 31
  }

  function DaysInYear(y: int): int
  {
    if IsLeapYear(y) then 366 else 365
  }

  /** A calendar date of the proleptic Gregorian calendar (any year). */
  predicate Valid(d: Date)
  {
    1 <= d.month <= 12 && 1 <= d.day <= DaysInMonth(d.year, d.month)
  }

  /** A date a Python datetime can hold. */
  predicate InRange(d: Date)
  {
    Valid(d) && MinYear <= d.year <= MaxYear
  }

  /** Days in the years before year y, counted from 0001-01-01. */
  function DaysBeforeYear(y: int): int
  {
    var p := y - 1;
    p * 365 + p / 4 - p / 100 + p / 400
  }

  /** Days in the months of year y before month m (month 13 standing for the
      end of the year): the common-year table, plus the leap day after February. */
  function DaysBeforeMonth(y: int, m: int): int
    requires 1 <= m <= 13
  {
    [0, 31, 59, 90, 120, 151, 181, 212, 243, 273, 304, 334, 365][m - 1]
    + (if m > 2 && IsLeapYear(y) then 1 else 0)
  }

  /** date.toordinal(). */
  function Ordinal(d: Date): int
    requires Valid(d)
  {
    DaysBeforeYear(d.year) + DaysBeforeMonth(d.year, d.month) + d.day
  }

  /** (b - a).days: the whole days from a to b, the number of days to add to
      a to reach b. */
  function DaysBetween(a: Date, b: Date): (n: int)
    requires Valid(a) && Valid(b)
    ensures AddDays(a, n) == b
  {
    var n := Ordinal(b) - Ordinal(a);
    OrdinalInjective(AddDays(a, n), b);
    n
  }

  /** Going from y - 1 to y adds one to the quotient by 4, 100 or 400 exactly
      when that divisor divides y. */
  lemma QuotientSteps(y: int)
    ensures y / 4 - (y - 1) / 4 == (if y % 4 == 0 then 1 else 0)
    ensures y / 100 - (y - 1) / 100 == (if y % 100 == 0 then 1 else 0)
    ensures y / 400 - (y - 1) / 400 == (if y % 400 == 0 then 1 else 0)
  {
  }

  lemma YearLength(y: int)
    ensures DaysBeforeYear(y + 1) == DaysBeforeYear(y) + DaysInYear(y)
  {
    QuotientSteps(y);
  }

  lemma MonthLength(y: int, m: int)
    requires 1 <= m <= 12
    ensures DaysBeforeMonth(y, m + 1) == DaysBeforeMonth(y, m) + DaysInMonth(y, m)
  {
  }

  /** The day after d. */
  function NextDay(d: Date): (e: Date)
    requires Valid(d)
    ensures Valid(e) && Ordinal(e) == Ordinal(d) + 1
  {
    if d.day < DaysInMonth(d.year, d.month) then Date(d.year, d.month, d.day + 1)
    else if d.month < 12 then MonthLength(d.year, d.month); Date(d.year, d.month + 1, 1)
    else
      YearLength(d.year);
      Date(d.year + 1, 1, 1)
  }

  /** The day before d. */
  function PrevDay(d: Date): (e: Date)
    requires Valid(d)
    ensures Valid(e) && Ordinal(e) == Ordinal(d) - 1
  {
    if d.day > 1 then Date(d.year, d.month, d.day - 1)
    else if d.month > 1 then
      MonthLength(d.year, d.month - 1);
      Date(d.year, d.month - 1, DaysInMonth(d.year, d.month - 1))
    else
      YearLength(d.year - 1);
      Date(d.year - 1, 12, 31)
  }

  /** d + timedelta(days=n), stepping one calendar day at a time. */
  function AddDays(d: Date, n: int): (e: Date)
    requires Valid(d)
    ensures Valid(e) && Ordinal(e) == Ordinal(d) + n
    decreases if n < 0 then -n else n
  {
    if n == 0 then d
    else if n > 0 then AddDays(NextDay(d), n - 1)
    else AddDays(PrevDay(d), n + 1)
  }

  lemma {:induction false} DaysBeforeYearMonotone(y1: int, y2: int)
    requires y1 <= y2
    ensures DaysBeforeYear(y1) <= DaysBeforeYear(y2)
    decreases y2 - y1
  {
    if y1 < y2 {
      YearLength(y1);
      DaysBeforeYearMonotone(y1 + 1, y2);
    }
  }

  /** A date's day number lies inside its year and inside its month. */
  lemma OrdinalWithin(d: Date)
    requires Valid(d)
    ensures DaysBeforeYear(d.year) < Ordinal(d) <= DaysBeforeYear(d.year + 1)
    ensures Ordinal(d) <= DaysBeforeYear(d.year) + DaysBeforeMonth(d.year, d.month + 1)
  {
    YearLength(d.year);
    MonthLength(d.year, d.month);
  }

  /** Different dates have different day numbers. */
  lemma OrdinalInjective(a: Date, b: Date)
    requires Valid(a) && Valid(b) && Ordinal(a) == Ordinal(b)
    ensures a == b
  {
    OrdinalWithin(a);
    OrdinalWithin(b);
    if a.year < b.year {
      DaysBeforeYearMonotone(a.year + 1, b.year);
      assert false;
    } else if b.year < a.year {
      DaysBeforeYearMonotone(b.year + 1, a.year);
      assert false;
    }
    if a.month < b.month {
      assert false;
    } else if b.month < a.month {
      assert false;
    }
  }

  /** Adding n days to d gives e exactly when e lies n days after d. */
  lemma AddDaysIff(d: Date, n: int, e: Date)
    requires Valid(d) && Valid(e)
    ensures AddDays(d, n) == e <==> DaysBetween(d, e) == n
  {
    if DaysBetween(d, e) == n {
      OrdinalInjective(AddDays(d, n), e);
    }
  }

  /** Adding days is additive: two additions are one addition of the sum. */
  lemma AddDaysAdditive(d: Date, a: int, b: int)
    requires Valid(d)
    ensures AddDays(AddDays(d, a), b) == AddDays(d, a + b)
  {
    OrdinalInjective(AddDays(AddDays(d, a), b), AddDays(d, a + b));
  }

  /** Going n days forward and n days back returns to the start. */
  lemma AddDaysInverse(d: Date, n: int)
    requires Valid(d)
    ensures AddDays(AddDays(d, n), -n) == d
  {
    AddDaysAdditive(d, n, -n);
  }

  /** A date lies in datetime's range exactly when its day number lies between
      those of 0001-01-01 and 9999-12-31. */
  lemma InRangeByOrdinal(d: Date)
    requires Valid(d)
    ensures InRange(d) <==> 1 <= Ordinal(d) <= Ordinal(Date(MaxYear, 12, 31))
  {
    YearLength(MaxYear);
    assert Ordinal(Date(MaxYear, 12, 31)) == DaysBeforeYear(MaxYear + 1);
    OrdinalWithin(d);
    if d.year < MinYear {
      DaysBeforeYearMonotone(d.year + 1, MinYear);
    } else if d.year > MaxYear {
      DaysBeforeYearMonotone(MaxYear + 1, d.year);
    } else {
      DaysBeforeYearMonotone(MinYear, d.year);
      DaysBeforeYearMonotone(d.year + 1, MaxYear + 1);
    }
  }

  /** A date between two dates of datetime's range is in the range too. */
  lemma InRangeBetween(a: Date, d: Date, b: Date)
    requires InRange(a) && InRange(b) && Valid(d)
    requires Ordinal(a) <= Ordinal(d) <= Ordinal(b)
    ensures InRange(d)
  {
    InRangeByOrdinal(a);
    InRangeByOrdinal(b);
    InRangeByOrdinal(d);
  }

  /** strftime("%Y-%m-%d") of a date datetime can hold: four-digit year,
      two-digit month and day, separated by hyphens. */
  function Format(d: Date): (s: string)
    requires InRange(d)
    ensures |s| == 10 && s[4] == '-' && s[7] == '-'
    ensures forall k :: 0 <= k < 10 && k != 4 && k != 7 ==> IsDigit(s[k])
  {
    PadDigits(d.year, 4) + "-" + PadDigits(d.month, 2) + "-" + PadDigits(d.day, 2)
  }

  /** Reads a "YYYY-MM-DD" string back into a date datetime can hold. */
  function ParseIso(s: string): Option<Date>
  {
    if |s| == 10 && s[4] == '-' && s[7] == '-'
       && AllDigits(s[..4]) && AllDigits(s[5..7]) && AllDigits(s[8..])
    then
      var d := Date(DecodeDigits(s[..4]), DecodeDigits(s[5..7]), DecodeDigits(s[8..]));
      if InRange(d) then Some(d) else None
    else None
  }

  /** Reading a formatted date gives the date back, so Format loses nothing. */
  lemma ParseFormat(d: Date)
    requires InRange(d)
    ensures ParseIso(Format(d)) == Some(d)
  {
    var s := Format(d);
    assert s[..4] == PadDigits(d.year, 4);
    assert s[5..7] == PadDigits(d.month, 2);
    assert s[8..] == PadDigits(d.day, 2);
    DecodePadDigits(d.year, 4);
    DecodePadDigits(d.month, 2);
    DecodePadDigits(d.day, 2);
  }

  lemma FormatInjective(a: Date, b: Date)
    requires InRange(a) && InRange(b) && Format(a) == Format(b)
    ensures a == b
  {
    ParseFormat(a);
    ParseFormat(b);
  }
}
