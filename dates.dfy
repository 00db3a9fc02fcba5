/**
 * Calendar dates, the review-cycle deadline table and the date token read from a
 * snapshot's file name.
 */
module Dates {
  import opened Wrappers
  import opened Text

  /** A (year, month, day) triple; ValidDate says when it names a real day. */
  datatype Date = Date(year: int, month: int, day: int)

  predicate IsLeapYear(y: int) {
    y % 4 == 0 && (y % 100 != 0 || y % 400 == 0)
  }

  function DaysInMonth(y: int, m: int): (n: nat)
    requires 1 <= m <= 12
    ensures 28 <= n <= 31
    ensures m == 2 ==> (n == 29 <==> IsLeapYear(y))
  {
    if m == 2 then (if IsLeapYear(y) then 29 else 28)
    else if m == 4 || m == 6 || m == 9 || m == 11 then 30
    else 31
  }

  /** The dates Python's datetime.date accepts: years 1 to 9999 of the Gregorian calendar. */
  predicate ValidDate(d: Date) {
    1 <= d.year <= 9999 && 1 <= d.month <= 12 && 1 <= d.day <= DaysInMonth(d.year, d.month)
  }

  /** Python's `a < b` on dates: (year, month, day) compared lexicographically. */
  predicate Before(a: Date, b: Date) {
    a.year < b.year
    || (a.year == b.year && a.month < b.month)
    || (a.year == b.year && a.month == b.month && a.day < b.day)
  }

  /** Python's `a > b` on dates. */
  predicate After(a: Date, b: Date) {
    Before(b, a)
  }

  function DaysBeforeYear(y: int): int
    requires y >= 1
  {
    (y - 1) * 365 + (y - 1) / 4 - (y - 1) / 100 + (y - 1) / 400
  }

  function DaysBeforeMonth(y: int, m: int): nat
    requires 1 <= m <= 12
  {
    if m == 1 then 0 else DaysBeforeMonth(y, m - 1) + DaysInMonth(y, m - 1)
  }

  /** Python's date.toordinal(): 0001-01-01 is day 1. */
  function Ordinal(d: Date): int
    requires ValidDate(d)
  {
    DaysBeforeYear(d.year) + DaysBeforeMonth(d.year, d.month) + d.day
  }

  /** Python's (a - b).days. */
  function DaysBetween(a: Date, b: Date): (n: int)
    requires ValidDate(a) && ValidDate(b)
    ensures n > 0 <==> After(a, b)
    ensures n == 0 <==> a == b
    ensures n < 0 <==> Before(a, b)
  {
    OrdinalOrder(a, b);
    OrdinalOrder(b, a);
    Ordinal(a) - Ordinal(b)
  }

  lemma StepDiv4(x: int)
    ensures (x + 1) / 4 == x / 4 + (if (x + 1) % 4 == 0 then 1 else 0)
  {
  }

  lemma StepDiv100(x: int)
    ensures (x + 1) / 100 == x / 100 + (if (x + 1) % 100 == 0 then 1 else 0)
  {
  }

  lemma StepDiv400(x: int)
    ensures (x + 1) / 400 == x / 400 + (if (x + 1) % 400 == 0 then 1 else 0)
  {
  }

  lemma CenturyDivisibility(y: int)
    ensures y % 100 == 0 ==> y % 4 == 0
    ensures y % 400 == 0 ==> y % 100 == 0
  {
    if y % 100 == 0 {
      var k := y / 100;
      assert y == 100 * k;
      assert y / 4 == 25 * k;
    }
    if y % 400 == 0 {
      var k := y / 400;
      assert y == 400 * k;
      assert y / 100 == 4 * k;
    }
  }

  /** A year has 366 days exactly when it is a leap year. */
  lemma YearLength(y: int)
    requires y >= 1
    ensures DaysBeforeYear(y + 1) == DaysBeforeYear(y) + (if IsLeapYear(y) then 366 else 365)
  {
    StepDiv4(y - 1);
    StepDiv100(y - 1);
    StepDiv400(y - 1);
    CenturyDivisibility(y);
  }

  lemma DaysBeforeDecember(y: int)
    ensures DaysBeforeMonth(y, 12) + 31 == if IsLeapYear(y) then 366 else 365
  {
    assert DaysBeforeMonth(y, 2) == 31;
    assert DaysBeforeMonth(y, 4) == DaysBeforeMonth(y, 3) + 31;
    assert DaysBeforeMonth(y, 6) == DaysBeforeMonth(y, 5) + 31;
    assert DaysBeforeMonth(y, 8) == DaysBeforeMonth(y, 7) + 31;
    assert DaysBeforeMonth(y, 10) == DaysBeforeMonth(y, 9) + 30;
    assert DaysBeforeMonth(y, 12) == DaysBeforeMonth(y, 11) + 30;
  }

  lemma {:induction false} MonthsGrow(y: int, m: int, n: int)
    requires 1 <= m < n <= 12
    ensures DaysBeforeMonth(y, m) + DaysInMonth(y, m) <= DaysBeforeMonth(y, n)
    decreases n - m
  {
    if m + 1 < n {
      MonthsGrow(y, m + 1, n);
    }
  }

  lemma {:induction false} YearsGrow(y: int, z: int)
    requires 1 <= y < z
    ensures DaysBeforeYear(y) + 365 <= DaysBeforeYear(z)
    decreases z - y
  {
    YearLength(y);
    if y + 1 < z {
      YearsGrow(y + 1, z);
    }
  }

  /** Every valid date falls inside its own year's span of ordinals. */
  lemma WithinYear(d: Date)
    requires ValidDate(d)
    ensures DaysBeforeYear(d.year) < Ordinal(d) <= DaysBeforeYear(d.year + 1)
  {
    YearLength(d.year);
    DaysBeforeDecember(d.year);
    if d.month < 12 {
      MonthsGrow(d.year, d.month, 12);
    }
  }

  /**
   * The ordinal orders dates exactly as Python's comparison does, so strict deadline
   * comparisons and day differences agree.
   */
  lemma {:induction false} OrdinalOrder(a: Date, b: Date)
    requires ValidDate(a) && ValidDate(b)
    ensures Before(a, b) <==> Ordinal(a) < Ordinal(b)
    ensures a == b <==> Ordinal(a) == Ordinal(b)
  {
    if a.year != b.year {
      var (lo, hi) := if a.year < b.year then (a, b) else (b, a);
      WithinYear(lo);
      WithinYear(hi);
      if lo.year + 1 < hi.year {
        YearsGrow(lo.year + 1, hi.year);
      }
    } else if a.month != b.month {
      if a.month < b.month {
        MonthsGrow(a.year, a.month, b.month);
      } else {
        MonthsGrow(a.year, b.month, a.month);
      }
    }
  }

  /** The phases of a review cycle, keys of the deadline table. */
  datatype Phase = Start | ReviewersConfirmed | ReviewsSubmitted | ReportSubmitted | ReportEndorsed

  const CycleYear := 2022

  /** The fixed deadline table of the 2022 cycle. */
  function Deadline(ph: Phase): (d: Date)
    ensures ValidDate(d) && d.year == CycleYear
  {
    match ph
    case Start => Date(CycleYear, 3, 9)
    case ReviewersConfirmed => Date(CycleYear, 3, 20)
    case ReviewsSubmitted => Date(CycleYear, 4, 20)
    case ReportSubmitted => Date(CycleYear, 5, 4)
    case ReportEndorsed => Date(CycleYear, 5, 18)
  }

  /** The deadlines follow one another in the order of the phases. */
  lemma DeadlinesAscend()
    ensures Before(Deadline(Start), Deadline(ReviewersConfirmed))
    ensures Before(Deadline(ReviewersConfirmed), Deadline(ReviewsSubmitted))
    ensures Before(Deadline(ReviewsSubmitted), Deadline(ReportSubmitted))
    ensures Before(Deadline(ReportSubmitted), Deadline(ReportEndorsed))
  {
  }

  /**
   * Has the phase's deadline strictly passed on the snapshot date? On the deadline day
   * itself it has not.
   */
  predicate DeadlinePassed(fileDate: Date, ph: Phase)
    ensures DeadlinePassed(fileDate, ph) <==> !Before(fileDate, Deadline(ph)) && fileDate != Deadline(ph)
  {
    After(fileDate, Deadline(ph))
  }

  /** The day number shown in the chart title: days since the cycle's start. */
  function DayOffset(fileDate: Date): (n: int)
    requires ValidDate(fileDate)
    ensures n > 0 <==> DeadlinePassed(fileDate, Start)
    ensures n == 0 <==> fileDate == Deadline(Start)
  {
    DaysBetween(fileDate, Deadline(Start))
  }

  // ----- the date token of a file name -----

  /** The shape \d{4}-\d{2}-\d{2} at position p. */
  predicate DateShapeAt(s: string, p: nat) {
    p + 10 <= |s|
    && IsDigit(s[p]) && IsDigit(s[p + 1]) && IsDigit(s[p + 2]) && IsDigit(s[p + 3])
    && s[p + 4] == '-' && IsDigit(s[p + 5]) && IsDigit(s[p + 6])
    && s[p + 7] == '-' && IsDigit(s[p + 8]) && IsDigit(s[p + 9])
  }

  /** The leftmost date-shaped token at or after `from`. */
  function FirstDateFrom(s: string, from: nat): (r: Option<nat>)
    ensures r.Some? ==> from <= r.value && DateShapeAt(s, r.value)
    ensures r.Some? ==> forall q :: from <= q < r.value ==> !DateShapeAt(s, q)
    ensures r.None? ==> forall q :: from <= q ==> !DateShapeAt(s, q)
    decreases |s| + 1 - from
  {
    if from + 10 > |s| then None
    else if DateShapeAt(s, from) then Some(from)
    else FirstDateFrom(s, from + 1)
  }

  /** The (year, month, day) the token at p spells, before any calendar check. */
  function TokenAt(s: string, p: nat): Date
    requires DateShapeAt(s, p)
  {
    Date(DecimalValue(s[p..p + 4]), DecimalValue(s[p + 5..p + 7]), DecimalValue(s[p + 8..p + 10]))
  }

  /** Why reading the date of a file name fails. */
  datatype DateError =
    | NotFound     // no \d{4}-\d{2}-\d{2} substring: `.group()` on None raises
    | InvalidDate  // the token is not a calendar date: the date parser raises

  /** parse_date: the first date-shaped substring, read as a calendar date. */
  function ParseDate(name: string): (r: Result<Date, DateError>)
    ensures r.Ok? ==> ValidDate(r.value)
    ensures r == Err(NotFound) <==> forall p :: !DateShapeAt(name, p)
    ensures r.Ok? ==> exists p :: DateShapeAt(name, p) && (forall q :: q < p ==> !DateShapeAt(name, q))
                                  && r.value == TokenAt(name, p)
    ensures forall p :: DateShapeAt(name, p) && (forall q :: q < p ==> !DateShapeAt(name, q)) ==>
              r == (if ValidDate(TokenAt(name, p)) then Ok(TokenAt(name, p)) else Err(InvalidDate))
    ensures r == Err(InvalidDate) <==>
              exists p :: DateShapeAt(name, p) && (forall q :: q < p ==> !DateShapeAt(name, q))
                          && !ValidDate(TokenAt(name, p))
  {
    match FirstDateFrom(name, 0)
    case None => Err(NotFound)
    case Some(p) =>
      var d := TokenAt(name, p);
      if ValidDate(d) then Ok(d) else Err(InvalidDate)
  }

  /** ISO rendering of a date, as str() of a Python date prints it. */
  function FormatDate(d: Date): (s: string)
    requires ValidDate(d)
    ensures |s| == 10 && DateShapeAt(s, 0)
  {
    Digits(d.year, 4) + ['-'] + Digits(d.month, 2) + ['-'] + Digits(d.day, 2)
  }

  /**
   * A file name whose first digit starts an ISO date yields that date: formatting and
   * parse_date are inverse.
   */
  lemma FormatParseRoundTrip(prefix: string, d: Date, suffix: string)
    requires ValidDate(d)
    requires forall i :: 0 <= i < |prefix| ==> !IsDigit(prefix[i])
    ensures ParseDate(prefix + FormatDate(d) + suffix) == Ok(d)
  {
    var name := prefix + FormatDate(d) + suffix;
    var p := |prefix|;
    var f := FormatDate(d);
    assert name[p..p + 10] == f;
    assert DateShapeAt(name, p);
    forall q | 0 <= q < p
      ensures !DateShapeAt(name, q)
    {
      assert name[q] == prefix[q];
    }
    var r := FirstDateFrom(name, 0);
    assert r == Some(p);
    assert name[p..p + 4] == Digits(d.year, 4);
    assert name[p + 5..p + 7] == Digits(d.month, 2);
    assert name[p + 8..p + 10] == Digits(d.day, 2);
    DigitsRoundTrip(d.year, 4);
    DigitsRoundTrip(d.month, 2);
    DigitsRoundTrip(d.day, 2);
  }
}
