/** Spend budgets: validation, the monthly calendar of periods, and the spend held against a period. */
module Budgets {
  import opened Common
  import opened Calendar

  datatype Budget = Budget(amount: real, unit: string, resetDay: Option<int>)

  /** The pair (spent, spent_period_start), in a row or held in memory. */
  datatype Spent = Spent(amount: real, period: Option<Instant>)

  const UNIT_USD := "usd"
  const UNIT_CREDITS := "credits"
  const FIRST_RESET_DAY := 1
  const LAST_RESET_DAY := 28

  /** The one period of a budget without a reset day. */
  const LIFETIME: Instant := 0

  predicate ValidAmount(amount: real, unit: string) {
    amount > 0.0 && unit in [UNIT_USD, UNIT_CREDITS]
  }

  predicate ValidBudget(b: Budget) {
    ValidAmount(b.amount, b.unit)
    && (b.resetDay.None? || FIRST_RESET_DAY <= b.resetDay.value <= LAST_RESET_DAY)
  }

  function PeriodStart(b: Budget, now: Instant): Instant {
    match b.resetDay
    case None => LIFETIME
    case Some(day) =>
      var today := CivilDate(now);
      var start := GoDate(today.year, today.month, day);
      if now < start then AddDate(start, 0, -1, 0) else start
  }

  function NextReset(b: Budget, now: Instant): Option<Instant> {
    if b.resetDay.None? then None
    else Some(AddDate(PeriodStart(b, now), 0, 1, 0))
  }

  function Remaining(b: Option<Budget>, spent: real): Option<real> {
    if b.None? then None
    else Some(if b.value.amount - spent > 0.0 then b.value.amount - spent else 0.0)
  }

  /** What counts of a held or stored spend in the period starting at `start`. */
  function SpentIn(s: Spent, start: Instant): real {
    if s.period == Some(start) then s.amount else 0.0
  }

  function SpentNow(b: Option<Budget>, held: Spent, now: Instant): real {
    if b.None? || held.period.None? || held.period.value != PeriodStart(b.value, now) then 0.0
    else held.amount
  }

  function HoldSpent(held: Spent, spent: real, start: Instant): Spent {
    if held.period.Some? && held.period.value == start && spent < held.amount then held
    else Spent(spent, Some(start))
  }

  predicate WithinBudget(b: Option<Budget>, held: Spent, now: Instant) {
    b.None? || SpentNow(b, held, now) < b.value.amount
  }

  // ----- The periods tile the timeline -----

  /** The month whose reset day began the period of `now`. */
  function PeriodMonth(day: int, now: Instant): int {
    var month := MonthOf(now);
    if now < DayOfMonth(month, day) then month - 1 else month
  }

  lemma ResetDayWithinMonth(month: int, day: int)
    requires FIRST_RESET_DAY <= day <= LAST_RESET_DAY
    ensures DayOfMonth(month, 1) <= DayOfMonth(month, day) < DayOfMonth(month + 1, 1)
  {
    MonthsGrow(month);
  }

  lemma PeriodMonthHoldsNow(day: int, now: Instant)
    requires FIRST_RESET_DAY <= day <= LAST_RESET_DAY
    ensures DayOfMonth(PeriodMonth(day, now), day) <= now < DayOfMonth(PeriodMonth(day, now) + 1, day)
  {
    var month := MonthOf(now);
    MonthHoldsItsInstants(now);
    ResetDayWithinMonth(month - 1, day);
    ResetDayWithinMonth(month + 1, day);
  }

  lemma PeriodStartsOnItsDay(b: Budget, now: Instant)
    requires b.resetDay.Some? && FIRST_RESET_DAY <= b.resetDay.value <= LAST_RESET_DAY
    ensures PeriodStart(b, now) == DayOfMonth(PeriodMonth(b.resetDay.value, now), b.resetDay.value)
  {
    var day := b.resetDay.value;
    SameMonth(now, day);
    MonthStepsKeepTheDay(MonthOf(now), -1, day);
  }

  /** A monthly period runs from its reset day in one month to its reset day in the next. */
  lemma PeriodIsAMonth(b: Budget, now: Instant)
    requires b.resetDay.Some? && FIRST_RESET_DAY <= b.resetDay.value <= LAST_RESET_DAY
    ensures var day, month := b.resetDay.value, PeriodMonth(b.resetDay.value, now);
            PeriodStart(b, now) == DayOfMonth(month, day)
            && NextReset(b, now) == Some(DayOfMonth(month + 1, day))
            && DayOfMonth(month, day) <= now < DayOfMonth(month + 1, day)
  {
    var day := b.resetDay.value;
    PeriodMonthHoldsNow(day, now);
    PeriodStartsOnItsDay(b, now);
    MonthStepsKeepTheDay(PeriodMonth(day, now), 1, day);
  }

  lemma ResetDaysSpread(a: int, b: int, day: int)
    requires a < b
    ensures DayOfMonth(a, day) + 28 * DAY <= DayOfMonth(b, day)
  {
    MonthsSpread(a, b);
  }

  /** Every instant lies in its own period; two instants share a period exactly when one lies in the
      other's half-open interval; a reset begins the next period on the same day of the next month;
      a period lasts 28 to 31 days. */
  lemma PeriodsTileTheTimeline(b: Budget, t: Instant, now: Instant)
    requires b.resetDay.Some? && FIRST_RESET_DAY <= b.resetDay.value <= LAST_RESET_DAY
    ensures var start, next := PeriodStart(b, now), NextReset(b, now).value;
            && start <= now < next
            && (PeriodStart(b, t) == start <==> start <= t < next)
            && PeriodStart(b, next) == next
            && PeriodStart(b, start) == start
            && 28 * DAY <= next - start <= 31 * DAY
            && CivilDate(start).day == CivilDate(next).day == b.resetDay.value
            && start % DAY == 0
  {
    var day := b.resetDay.value;
    var month := PeriodMonth(day, now);
    PeriodIsAMonth(b, now);
    PeriodOnlyMonth(b, t, month);
    PeriodFromItsMonth(b, month);
    PeriodFromItsMonth(b, month + 1);
    DayOfMonthIsADate(month, day);
    DayOfMonthIsADate(month + 1, day);
    MonthlyGap(month, day);
  }

  lemma MonthlyGap(month: int, day: int)
    ensures 28 * DAY <= DayOfMonth(month + 1, day) - DayOfMonth(month, day) <= 31 * DAY
  {
    MonthsGrow(month);
  }

  lemma PeriodFromItsMonth(b: Budget, month: int)
    requires b.resetDay.Some? && FIRST_RESET_DAY <= b.resetDay.value <= LAST_RESET_DAY
    ensures PeriodStart(b, DayOfMonth(month, b.resetDay.value)) == DayOfMonth(month, b.resetDay.value)
  {
    MonthlyGap(month, b.resetDay.value);
    PeriodOnlyMonth(b, DayOfMonth(month, b.resetDay.value), month);
  }

  lemma PeriodOnlyMonth(b: Budget, t: Instant, month: int)
    requires b.resetDay.Some? && FIRST_RESET_DAY <= b.resetDay.value <= LAST_RESET_DAY
    ensures PeriodStart(b, t) == DayOfMonth(month, b.resetDay.value)
            <==> DayOfMonth(month, b.resetDay.value) <= t < DayOfMonth(month + 1, b.resetDay.value)
  {
    var day := b.resetDay.value;
    var own := PeriodMonth(day, t);
    PeriodIsAMonth(b, t);
    if own < month {
      ResetDaysSpread(own, month, day);
      if own + 1 < month { ResetDaysSpread(own + 1, month, day); }
    } else if month < own {
      ResetDaysSpread(month, own, day);
      if month + 1 < own { ResetDaysSpread(month + 1, own, day); }
    }
  }

  /** A later instant is never in an earlier period. */
  lemma PeriodsMoveForward(b: Budget, t: Instant, now: Instant)
    requires ValidBudget(b) && t <= now
    ensures PeriodStart(b, t) <= PeriodStart(b, now)
  {
    if b.resetDay.Some? {
      PeriodsTileTheTimeline(b, now, t);
      PeriodsTileTheTimeline(b, t, now);
    }
  }

  /** Spend stops counting at the next reset, and a lifetime budget's never does. */
  lemma SpendCountsUntilTheReset(b: Budget, held: Spent, now: Instant, t: Instant)
    requires ValidBudget(b) && now <= t
    requires held.period == Some(PeriodStart(b, now))
    ensures b.resetDay.None? ==> SpentNow(Some(b), held, t) == held.amount
    ensures b.resetDay.Some? && t < NextReset(b, now).value ==> SpentNow(Some(b), held, t) == held.amount
    ensures b.resetDay.Some? && t >= NextReset(b, now).value ==> SpentNow(Some(b), held, t) == 0.0
  {
    if b.resetDay.Some? {
      PeriodsTileTheTimeline(b, t, now);
    }
  }

  /** What is left is never negative, and is nothing exactly when the key is locked out. */
  lemma NothingRemainsExactlyWhenLockedOut(b: Budget, held: Spent, now: Instant)
    requires ValidBudget(b)
    ensures Remaining(Some(b), SpentNow(Some(b), held, now)).value >= 0.0
    ensures Remaining(Some(b), SpentNow(Some(b), held, now)) == Some(0.0) <==> !WithinBudget(Some(b), held, now)
    ensures WithinBudget(Some(b), held, now) ==>
              Remaining(Some(b), SpentNow(Some(b), held, now)).value + SpentNow(Some(b), held, now) == b.amount
  {}

  /** The budgets accepted are those of a positive amount, in dollars or credits, with no reset day or one that every
      month of every year has. */
  lemma BudgetsAccepted(b: Budget)
    ensures ValidBudget(b)
            <==> b.amount > 0.0 && (b.unit == "usd" || b.unit == "credits")
                 && (b.resetDay.Some? ==>
                       b.resetDay.value >= 1 && forall index: int :: StepKeepsTheDay(index, b.resetDay.value))
  {
    if b.resetDay.Some? && b.resetDay.value >= 1 { DaysEveryMonthHas(b.resetDay.value); }
  }

  // ----- Agreement of a row and the held copy -----

  /** Two spends count the same at every instant from `from` on. */
  ghost predicate AgreeFrom(b: Option<Budget>, x: Spent, y: Spent, from: Instant) {
    forall t: Instant :: t >= from ==> SpentNow(b, x, t) == SpentNow(b, y, t)
  }
}
