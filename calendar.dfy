/** Calendar days as integers. Day 0 is 1970-01-01, a Thursday. */
module Calendar {
  type Day = int

  /** Minutes since midnight, the model of an "HH:MM" time of day. */
  type Minutes = int

  const MinutesPerDay: int := 1440

  /** JavaScript's Date.getDay(): 0 is Sunday, 6 is Saturday. */
  function DayOfWeek(d: Day): (r: int)
    ensures 0 <= r < 7
  {
    (d + 4) % 7
  }

  lemma NextDayOfWeek(d: Day)
    ensures DayOfWeek(d + 1) == (DayOfWeek(d) + 1) % 7
  {
  }

  lemma PreviousDayOfWeek(d: Day)
    ensures DayOfWeek(d - 1) == (DayOfWeek(d) + 6) % 7
  {
  }

  /** Days from 0001-01-01 to January 1 of year y, proleptic Gregorian calendar. */
  function DaysBeforeYear(y: int): int {
    365 * (y - 1) + (y - 1) / 4 - (y - 1) / 100 + (y - 1) / 400
  }

  /** Day number of January 1 of year y. */
  function YearStart(y: int): Day {
    DaysBeforeYear(y) - DaysBeforeYear(1970)
  }

  /** Day number of December 31 of year y. */
  function YearEnd(y: int): Day {
    YearStart(y + 1) - 1
  }

  /** `date.getFullYear() === y`. */
  predicate InYear(d: Day, y: int) {
    YearStart(y) <= d <= YearEnd(y)
  }

  /** Going from year y - 1 to year y, the quotient by k grows by one exactly when k divides y. */
  lemma QuotientStep(y: int, k: int)
    requires k == 4 || k == 100 || k == 400
    ensures y / k - (y - 1) / k == if y % k == 0 then 1 else 0
  {
    if k == 4 {
    } else if k == 100 {
    } else {
    }
  }

  lemma YearLength(y: int)
    ensures 365 <= YearEnd(y) - YearStart(y) + 1 <= 366
  {
    var a, b, c := y / 4 - (y - 1) / 4, y / 100 - (y - 1) / 100, y / 400 - (y - 1) / 400;
    assert YearEnd(y) - YearStart(y) + 1 == 365 + a - b + c;
    QuotientStep(y, 4);
    QuotientStep(y, 100);
    QuotientStep(y, 400);
    if y % 100 == 0 {
      CenturyIsLeapMultiple(y);
    }
    if y % 400 == 0 {
      QuadricentennialIsCentury(y);
    }
  }

  /** Every multiple of 100 is a multiple of 4. */
  lemma CenturyIsLeapMultiple(y: int)
    requires y % 100 == 0
    ensures y % 4 == 0
  {
    var q := y / 100;
    assert y == 4 * (25 * q);
  }

  /** Every multiple of 400 is a multiple of 100. */
  lemma QuadricentennialIsCentury(y: int)
    requires y % 400 == 0
    ensures y % 100 == 0
  {
    var q := y / 400;
    assert y == 100 * (4 * q);
  }

  /** Anchors for the numbering: 1970-01-01 is day 0 and 2024-01-01, a Monday, is day 19723. */
  lemma KnownDays()
    ensures YearStart(1970) == 0 && DayOfWeek(0) == 4
    ensures YearStart(2024) == 19723 && DayOfWeek(19723) == 1
    ensures YearEnd(2024) == 19723 + 365
  {
  }
}
