/**
 * Calendar dates as the date part of a .NET DateTime (years 1 to 9999,
 * proleptic Gregorian calendar), compared lexicographically on
 * (year, month, day), together with DateTime.AddYears and the age rule
 * of the employee create operation.
 */
module Dates {

  datatype DateParts = DateParts(year: int, month: int, day: int)

  predicate IsLeapYear(y: int)
  {
    y % 4 == 0 && (y % 100 != 0 || y % 400 == 0)
  }

  function DaysInMonth(y: int, m: int): int
    requires 1 <= m <= 12
  {
    if m == 2 then (if IsLeapYear(y) then 29 else 28)
    else if m == 4 || m == 6 || m == 9 || m == 11 then 30
    else 31
  }

  predicate IsValidDate(d: DateParts)
  {
    && 1 <= d.year <= 9999
    && 1 <= d.month <= 12
    && 1 <= d.day <= DaysInMonth(d.year, d.month)
  }

  /** The dates a DateTime can hold. */
  type Date = d: DateParts | IsValidDate(d) witness DateParts(1, 1, 1)

  /** `a` comes strictly after `b`: the `>` operator on DateTime dates. */
  predicate Later(a: DateParts, b: DateParts)
  {
    || a.year > b.year
    || (a.year == b.year && a.month > b.month)
    || (a.year == b.year && a.month == b.month && a.day > b.day)
  }

  /**
   * DateTime.AddYears: the same month and day `n` years away, except that
   * 29 February becomes 28 February when the target year is not a leap year.
   */
  function AddYears(d: Date, n: int): (r: Date)
    requires 1 <= d.year + n <= 9999
    ensures r.year == d.year + n && r.month == d.month
    ensures r.day == d.day || (d.month == 2 && d.day == 29 && r.day == 28 && !IsLeapYear(r.year))
  {
    var y := d.year + n;
    if d.month == 2 && d.day == 29 && !IsLeapYear(y) then DateParts(y, 2, 28)
    else DateParts(y, d.month, d.day)
  }

  /** The month and day of `a` come after the month and day of `b` within a year. */
  predicate MonthDayAfter(a: DateParts, b: DateParts)
  {
    a.month > b.month || (a.month == b.month && a.day > b.day)
  }

  /**
   * Reference definition of age: the number of whole years from `dob` to
   * `today`, one less while this year's birthday (by month and day) is
   * still to come.
   */
  function CompletedYears(dob: Date, today: Date): int
  {
    today.year - dob.year - (if MonthDayAfter(dob, today) then 1 else 0)
  }

  /** Minimum age for a new employee. */
  const MinimumAge: int := 18

  /**
   * The source's test `dob > today.AddYears(-(today.Year - dob.Year))`
   * decides exactly whether the birthday is still to come this year: the
   * 29 February clamp never changes the answer, because a date of birth in
   * a non-leap year cannot be 29 February.
   */
  lemma ShiftedTodayComparison(dob: Date, today: Date)
    ensures Later(dob, AddYears(today, dob.year - today.year)) <==> MonthDayAfter(dob, today)
  {
  }

  /**
   * A person is at least MinimumAge years old exactly when they were born on
   * or before today moved back MinimumAge years (with the 29 February clamp).
   */
  lemma AdultIffBornByCutoff(dob: Date, today: Date)
    requires today.year > MinimumAge
    ensures CompletedYears(dob, today) >= MinimumAge <==> !Later(dob, AddYears(today, -MinimumAge))
  {
  }

  /** Someone born exactly MinimumAge years before today is MinimumAge years old. */
  lemma BirthdayBoundary(today: Date)
    requires today.year > MinimumAge
    ensures CompletedYears(AddYears(today, -MinimumAge), today) == MinimumAge
    ensures CompletedYears(AddYears(today, 1 - MinimumAge), today) == MinimumAge - 1
  {
  }
}
