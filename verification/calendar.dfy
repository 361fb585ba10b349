/** Gregorian calendar dates as Python's datetime accepts them: years 1 to
    9999, months 1 to 12, and days up to the month's length. */
module Calendar {

  datatype Date = Date(day: int, month: int, year: int)

  const MinYear: int := 1
  const MaxYear: int := 9999

  /** The Gregorian rule: every fourth year, except centuries not divisible by 400. */
  predicate IsLeapYear(year: int)
  {
    year % 4 == 0 && (year % 100 != 0 || year % 400 == 0)
  }

  function DaysInMonth(month: int, year: int): (n: int)
    requires 1 <= month <= 12
    ensures 28 <= n <= 31
    ensures n == 29 <==> month == 2 && IsLeapYear(year)
    ensures n == 28 <==> month == 2 && !IsLeapYear(year)
  {
    if month == 2 then (if IsLeapYear(year) then 29 else 28)
    else if month == 4 || month == 6 || month == 9 || month == 11 then 30
    else 31
  }

  /** A real calendar date in the range the date parser accepts. */
  predicate IsValid(d: Date)
  {
    && MinYear <= d.year <= MaxYear
    && 1 <= d.month <= 12
    && 1 <= d.day <= DaysInMonth(d.month, d.year)
  }

  /** Days in the months before `month` of `year`. */
  function DaysBeforeMonth(month: int, year: int): (n: int)
    requires 1 <= month <= 13
    ensures n >= 28 * (month - 1)
    decreases month
  {
    if month == 1 then 0 else DaysBeforeMonth(month - 1, year) + DaysInMonth(month - 1, year)
  }

  /** The position of a valid date within its year, counting from 1. */
  function DayOfYear(d: Date): int
    requires IsValid(d)
  {
    DaysBeforeMonth(d.month, d.year) + d.day
  }

  /** The month lengths add up to the year length the leap rule promises. */
  lemma YearLength(year: int)
    ensures DaysBeforeMonth(13, year) == if IsLeapYear(year) then 366 else 365
  {
  }

  lemma {:induction false} DaysBeforeMonthGrows(m1: int, m2: int, year: int)
    requires 1 <= m1 <= m2 <= 13
    ensures DaysBeforeMonth(m2, year) >= DaysBeforeMonth(m1, year) + 28 * (m2 - m1)
    decreases m2 - m1
  {
    if m1 < m2 {
      DaysBeforeMonthGrows(m1, m2 - 1, year);
    }
  }

  /** Valid dates number the days of their year without gaps: 1 to 365, or 366 in a leap year. */
  lemma DayOfYearInRange(d: Date)
    requires IsValid(d)
    ensures 1 <= DayOfYear(d) <= if IsLeapYear(d.year) then 366 else 365
  {
    YearLength(d.year);
    assert DaysBeforeMonth(d.month + 1, d.year) == DaysBeforeMonth(d.month, d.year) + DaysInMonth(d.month, d.year);
    DaysBeforeMonthGrows(d.month + 1, 13, d.year);
  }

  /** The leap-day cases the rule is known for. */
  lemma LeapDays()
    ensures IsValid(Date(29, 2, 2000))
    ensures !IsValid(Date(29, 2, 1900))
    ensures IsValid(Date(29, 2, 2024))
    ensures !IsValid(Date(29, 2, 2023))
    ensures !IsValid(Date(31, 4, 2023))
    ensures !IsValid(Date(1, 13, 2023)) && !IsValid(Date(0, 1, 2023)) && !IsValid(Date(1, 1, 0))
  {
  }
}
