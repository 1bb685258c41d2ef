/** The civil (proleptic Gregorian) calendar that time.Date, Time.Date and Time.AddDate work in, in UTC.
    Months are numbered consecutively: month m (1 to 12) of year y has index 12 * y + m - 1. */
module Calendar {
  import opened Common

  datatype Date = Date(year: int, month: int, day: int)

  predicate Leap(y: int) {
    y % 4 == 0 && (y % 100 != 0 || y % 400 == 0)
  }

  function DaysIn(y: int, month: int): int {
    if month == 2 then (if Leap(y) then 29 else 28)
    else if month in {4, 6, 9, 11} then 30
    else 31
  }

  const EPOCH_MONTH: int := 12 * 1970

  function DaysInMonth(index: int): int {
    DaysIn(index / 12, index % 12 + 1)
  }

  /** Days from the epoch to the first day of a month: the lengths of the months between, summed. */
  function MonthStart(index: int): int
    decreases if index < EPOCH_MONTH then EPOCH_MONTH - index else index - EPOCH_MONTH
  {
    if index == EPOCH_MONTH then 0
    else if index < EPOCH_MONTH then MonthStart(index + 1) - DaysInMonth(index)
    else MonthStart(index - 1) + DaysInMonth(index - 1)
  }

  /** time.Date at midnight UTC: a month outside 1 to 12 carries into the year, a day into the months. */
  function GoDate(year: int, month: int, day: int): Instant {
    (MonthStart(12 * year + month - 1) + day - 1) * DAY
  }

  /** The month a day lies in, found by walking from `guess`. */
  function MonthAt(day: int, guess: int): (index: int)
    ensures MonthStart(index) <= day < MonthStart(index + 1)
    decreases if day < MonthStart(guess) then 1 else 0,
              if day < MonthStart(guess) then MonthStart(guess) - day else day - MonthStart(guess)
  {
    MonthsGrow(guess);
    MonthsGrow(guess - 1);
    if day < MonthStart(guess) then MonthAt(day, guess - 1)
    else if MonthStart(guess + 1) <= day then MonthAt(day, guess + 1)
    else guess
  }

  function MonthOf(t: Instant): int {
    MonthAt(t / DAY, EPOCH_MONTH)
  }

  /** Time.Date in UTC. */
  function CivilDate(t: Instant): Date {
    var index := MonthOf(t);
    Date(index / 12, index % 12 + 1, t / DAY - MonthStart(index) + 1)
  }

  /** Time.AddDate: the date moves, the clock stays, and time.Date normalises the sum. */
  function AddDate(t: Instant, years: int, months: int, days: int): Instant {
    var d := CivilDate(t);
    GoDate(d.year + years, d.month + months, d.day + days) + t % DAY
  }

  /** Consecutive month starts are one month length apart, across leap days and the year's end. */
  lemma MonthStep(index: int)
    ensures MonthStart(index + 1) - MonthStart(index) == DaysInMonth(index)
    ensures 28 <= DaysInMonth(index) <= 31
  {}

  lemma MonthsGrow(index: int)
    ensures MonthStart(index) + 28 <= MonthStart(index + 1) <= MonthStart(index) + 31
  {
    MonthStep(index);
  }

  /** Days from the epoch to 1 January of year y, as the library computes them. */
  function YearStart(y: int): int {
    365 * (y - 1) + (y - 1) / 4 - (y - 1) / 100 + (y - 1) / 400 - 719_162
  }

  lemma FourthStep(y: int)
    ensures y / 4 - (y - 1) / 4 == if y % 4 == 0 then 1 else 0
  {}

  lemma CenturyStep(y: int)
    ensures y / 100 - (y - 1) / 100 == if y % 100 == 0 then 1 else 0
    ensures y % 100 == 0 ==> y % 4 == 0
  {
    assert y % 100 == 0 ==> y == 4 * (25 * (y / 100));
  }

  lemma FourthCenturyStep(y: int)
    ensures y / 400 - (y - 1) / 400 == if y % 400 == 0 then 1 else 0
    ensures y % 400 == 0 ==> y % 100 == 0
  {
    assert y % 400 == 0 ==> y == 100 * (4 * (y / 400));
  }

  lemma YearStep(y: int)
    ensures YearStart(y + 1) - YearStart(y) == if Leap(y) then 366 else 365
  {
    FourthStep(y);
    CenturyStep(y);
    FourthCenturyStep(y);
  }

  lemma MonthInYear(y: int, m: int)
    requires 0 <= m < 12
    ensures MonthStart(12 * y + m + 1) == MonthStart(12 * y + m) + DaysIn(y, m + 1)
  {
    assert (12 * y + m) / 12 == y && (12 * y + m) % 12 == m;
    MonthStep(12 * y + m);
  }

  lemma YearOfMonths(y: int)
    ensures MonthStart(12 * (y + 1)) - MonthStart(12 * y) == if Leap(y) then 366 else 365
  {
    MonthInYear(y, 0); MonthInYear(y, 1); MonthInYear(y, 2); MonthInYear(y, 3);
    MonthInYear(y, 4); MonthInYear(y, 5); MonthInYear(y, 6); MonthInYear(y, 7);
    MonthInYear(y, 8); MonthInYear(y, 9); MonthInYear(y, 10); MonthInYear(y, 11);
  }

  /** The closed form for years agrees with the sum of months, before and after the epoch. */
  lemma {:induction false} YearStartIsSumOfMonths(y: int)
    ensures YearStart(y) == MonthStart(12 * y)
    decreases if y < 1970 then 1970 - y else y - 1970
  {
    if y < 1970 {
      YearStartIsSumOfMonths(y + 1);
      YearStep(y);
      YearOfMonths(y);
    } else if y > 1970 {
      YearStartIsSumOfMonths(y - 1);
      YearStep(y - 1);
      YearOfMonths(y - 1);
    }
  }

  lemma JanuaryAndFebruary(y: int)
    ensures MonthStart(12 * y) == YearStart(y) && MonthStart(12 * y + 1) == YearStart(y) + 31
  {
    YearStartIsSumOfMonths(y);
    MonthInYear(y, 0);
  }

  lemma DaysSinceMarch(m: int)
    requires 0 <= m < 12
    ensures (153 * m + 2) / 5 == [0, 31, 61, 92, 122, 153, 184, 214, 245, 275, 306, 337][m]
  {}

  /** March and the months after it, counted back from the end of the year. */
  lemma {:induction false} MonthToDecember(y: int, m: int)
    requires 0 <= m < 10
    ensures MonthStart(12 * y + 2 + m) == YearStart(y + 1) - 306 + (153 * m + 2) / 5
    decreases 9 - m
  {
    MonthInYear(y, m + 2);
    DaysSinceMarch(m);
    if m == 9 {
      YearStartIsSumOfMonths(y + 1);
      assert 12 * y + (m + 2) + 1 == 12 * (y + 1);
    } else {
      MonthToDecember(y, m + 1);
      DaysSinceMarch(m + 1);
    }
  }

  lemma MonthOfNextYear(y: int, m: int)
    requires 10 <= m < 12
    ensures MonthStart(12 * y + 2 + m) == YearStart(y + 1) - 306 + (153 * m + 2) / 5
  {
    DaysSinceMarch(m);
    JanuaryAndFebruary(y + 1);
    assert 12 * y + 2 + m == 12 * (y + 1) + (m - 10);
  }

  lemma MonthSinceMarch(y: int, m: int)
    requires 0 <= m < 12
    ensures MonthStart(12 * y + 2 + m) == YearStart(y + 1) - 306 + (153 * m + 2) / 5
  {
    if m < 10 { MonthToDecember(y, m); } else { MonthOfNextYear(y, m); }
  }

  /** The calendar is the Gregorian one: midnight on a date, in nanoseconds since 1970, by the closed form that counts
      days in years that begin in March. */
  lemma DateIsGregorian(year: int, month: int, day: int)
    requires 1 <= month <= 12
    ensures var y, m := if month <= 2 then year - 1 else year, if month <= 2 then month + 9 else month - 3;
            GoDate(year, month, day)
            == (365 * y + y / 4 - y / 100 + y / 400 + (153 * m + 2) / 5 + day - 1 - 719_468) * 86_400_000_000_000
  {
    if month <= 2 { MonthSinceMarch(year - 1, month + 9); } else { MonthSinceMarch(year, month - 3); }
  }

  lemma {:induction false} MonthsSpread(a: int, b: int)
    requires a <= b
    ensures MonthStart(a) + 28 * (b - a) <= MonthStart(b)
    decreases b - a
  {
    if a < b {
      MonthsSpread(a, b - 1);
      MonthsGrow(b - 1);
    }
  }

  /** The month of an instant is the only one whose days hold it. */
  lemma MonthIsUnique(t: Instant, index: int)
    requires MonthStart(index) <= t / DAY < MonthStart(index + 1)
    ensures MonthOf(t) == index
  {
    var found := MonthOf(t);
    if found < index {
      MonthsSpread(found + 1, index);
    } else if index < found {
      MonthsSpread(index + 1, found);
    }
  }

  lemma MidnightIsWholeDays(days: int)
    ensures days * DAY / DAY == days && days * DAY % DAY == 0
  {}

  /** Time.Date undoes time.Date on every date the calendar has. */
  lemma DateRoundTrip(year: int, month: int, day: int)
    requires 1 <= month <= 12 && 1 <= day <= DaysIn(year, month)
    ensures CivilDate(GoDate(year, month, day)) == Date(year, month, day)
  {
    var index := 12 * year + month - 1;
    assert index / 12 == year && index % 12 == month - 1;
    MonthStep(index);
    MidnightIsWholeDays(MonthStart(index) + day - 1);
    MonthIsUnique(GoDate(year, month, day), index);
  }

  lemma WithinDays(t: Instant, a: int, b: int)
    requires a <= t / DAY < b
    ensures a * DAY <= t < b * DAY
  {}

  /** time.Date undoes Time.Date up to the time of day, and the date it gives is one the calendar has. */
  lemma DateBracketsItsInstant(t: Instant)
    ensures var d := CivilDate(t);
            1 <= d.month <= 12 && 1 <= d.day <= DaysIn(d.year, d.month)
            && GoDate(d.year, d.month, d.day) <= t < GoDate(d.year, d.month, d.day) + DAY
  {
    var index, days := MonthOf(t), t / DAY;
    MonthStep(index);
    WithinDays(t, days, days + 1);
    assert 12 * (index / 12) + index % 12 + 1 - 1 == index;
  }

  /** A month step from day `day` of month `index` lands on the same day of the next month. */
  predicate StepKeepsTheDay(index: int, day: int) {
    var from := GoDate(index / 12, index % 12 + 1, day);
    CivilDate(AddDate(from, 0, 1, 0)) == Date((index + 1) / 12, (index + 1) % 12 + 1, day)
  }

  /** Midnight on a day of a month. */
  function DayOfMonth(index: int, day: int): Instant {
    (MonthStart(index) + day - 1) * DAY
  }

  lemma DayOfMonthIsADate(index: int, day: int)
    requires 1 <= day <= 28
    ensures GoDate(index / 12, index % 12 + 1, day) == DayOfMonth(index, day)
    ensures CivilDate(DayOfMonth(index, day)) == Date(index / 12, index % 12 + 1, day)
    ensures DayOfMonth(index, day) % DAY == 0
  {
    assert 12 * (index / 12) + index % 12 == index;
    DateRoundTrip(index / 12, index % 12 + 1, day);
    MidnightIsWholeDays(MonthStart(index) + day - 1);
  }

  lemma MonthHoldsItsInstants(t: Instant)
    ensures DayOfMonth(MonthOf(t), 1) <= t < DayOfMonth(MonthOf(t) + 1, 1)
  {
    var index := MonthOf(t);
    WithinDays(t, MonthStart(index), MonthStart(index + 1));
  }

  lemma SameMonth(t: Instant, day: int)
    ensures GoDate(CivilDate(t).year, CivilDate(t).month, day) == DayOfMonth(MonthOf(t), day)
  {
    var index := MonthOf(t);
    assert 12 * (index / 12) + index % 12 + 1 - 1 == index;
  }

  /** Adding whole months to a day up to the 28th changes the month and nothing else. */
  lemma MonthStepsKeepTheDay(index: int, months: int, day: int)
    requires 1 <= day <= 28
    ensures AddDate(DayOfMonth(index, day), 0, months, 0) == DayOfMonth(index + months, day)
  {
    DayOfMonthIsADate(index, day);
    assert 12 * (index / 12) + (index % 12 + 1 + months) - 1 == index + months;
  }

  lemma JanuarySteps(day: int)
    requires day >= 29
    ensures !StepKeepsTheDay(12 * 2023, day)
  {
    var january := 12 * 2023;
    var from := GoDate(2023, 1, day);
    assert january / 12 == 2023 && january % 12 == 0 && (january + 1) / 12 == 2023 && (january + 1) % 12 == 1;
    var to := AddDate(from, 0, 1, 0);
    YearStartIsSumOfMonths(2023);
    DateBracketsItsInstant(to);
  }

  /** Why reset days stop at 28: exactly these days survive every month step, in every month of every year. */
  lemma DaysEveryMonthHas(day: int)
    requires day >= 1
    ensures day <= 28 <==> forall index: int :: StepKeepsTheDay(index, day)
  {
    if day <= 28 {
      forall index: int ensures StepKeepsTheDay(index, day) {
        DayOfMonthIsADate(index, day);
        MonthStepsKeepTheDay(index, 1, day);
        DayOfMonthIsADate(index + 1, day);
      }
    } else {
      JanuarySteps(day);
    }
  }
}
