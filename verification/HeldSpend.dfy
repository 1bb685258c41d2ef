/** The spend held in memory against the row it came from, over every interleaving of transactions and landings, and
    through resets, reloads, budget changes and crashes. */
module HeldSpend {
  import opened Common
  import opened Budgets
  import opened Keys
  import opened Pools
  import opened Stores
  import opened Writeback
  import opened System
  import opened Refinement
  import Ledger

  // ----- What a row, a held spend and an answer keep to -----

  /** Not negative, and of no period to come. */
  predicate SoundSpend(spent: Spent, clock: Instant) {
    spent.amount >= 0.0 && (spent.period.Some? ==> spent.period.value <= clock)
  }

  predicate SoundRow(row: KeyRow, clock: Instant) {
    (row.budget.Some? ==> ValidBudget(row.budget.value)) && SoundSpend(row.spent, clock)
  }

  /** An answer of the row's present period tells no more than the row holds. */
  predicate Fits(a: Answer, row: KeyRow, clock: Instant) {
    && a.spent >= 0.0 && a.start <= clock
    && (row.budget.Some? && a.start == PeriodStart(row.budget.value, clock) ==> a.spent <= SpentIn(row.spent, a.start))
  }

  ghost predicate AllFit(answers: seq<Answer>, id: string, row: KeyRow, clock: Instant) {
    forall a :: a in answers && a.id == id ==> Fits(a, row, clock)
  }

  /** The row of a key, if it is there, is sound and the answers for the key fit it; the pool has a valid budget. */
  ghost predicate Even(s: Sys, id: string, clock: Instant) {
    && (id in s.store.rows ==> SoundRow(s.store.rows[id].key, clock) && AllFit(s.answers, id, s.store.rows[id].key, clock))
    && PooledBudgetIsValid(s.pool.keys, id)
  }

  ghost predicate PooledBudgetIsValid(keys: seq<Key>, id: string) {
    forall i :: 0 <= i < |keys| && keys[i].row.id == id && keys[i].row.budget.Some? ==> ValidBudget(keys[i].row.budget.value)
  }

  predicate Carries(answers: seq<Answer>, id: string, p: Instant, total: real) {
    Answer(id, total, p) in answers
  }

  /** A held spend of a period against the row's total: never ahead of it, and level with it or about to be. */
  predicate Follows(held: Spent, total: real, answers: seq<Answer>, id: string, p: Instant) {
    && SpentIn(held, p) <= total
    && (SpentIn(held, p) == total || Carries(answers, id, p, total))
  }

  /** A pooled copy under its row's budget, with a held spend that follows the row's in the present period. */
  predicate LevelWith(held: KeyRow, row: KeyRow, answers: seq<Answer>, clock: Instant) {
    && held.budget == row.budget && SoundSpend(held.spent, clock)
    && (row.budget.Some? ==>
          var p := PeriodStart(row.budget.value, clock); Follows(held.spent, SpentIn(row.spent, p), answers, held.id, p))
  }

  ghost predicate Level(s: Sys, id: string, clock: Instant) {
    id in s.store.rows ==>
      forall i :: 0 <= i < |s.pool.keys| && s.pool.keys[i].row.id == id ==>
        LevelWith(s.pool.keys[i].row, s.store.rows[id].key, s.answers, clock)
  }

  // ----- Steps -----

  ghost predicate NoneInFlight(s: Sys, id: string) {
    forall a :: a in s.answers ==> a.id != id
  }

  predicate KeepsMoney(s: Store, written: Store, id: string) {
    id in s.rows && id in written.rows && SameMoney(s.rows[id].key, written.rows[id].key)
  }

  /** The same unit and reset day, whatever the amounts. */
  predicate SameTerms(a: Option<Budget>, b: Option<Budget>) {
    UnitOf(a) == UnitOf(b) && (a.Some? && b.Some? ==> a.value.resetDay == b.value.resetDay)
  }

  /** The row's spend stays, and counts in the same period of the same unit. */
  predicate KeepsTotal(s: Store, written: Store, id: string) {
    && id in s.rows && id in written.rows
    && SameTerms(s.rows[id].key.budget, written.rows[id].key.budget)
    && s.rows[id].key.spent == written.rows[id].key.spent
  }

  /** The period the pool charges is the one its row's budget is in. */
  predicate ChargesThePresent(s: Sys, e: SpendEvent, now: Instant) {
    var ask := AskFor(s.pool.keys, e, now);
    ask.For? && e.keyId in s.store.rows && s.store.rows[e.keyId].key.budget.Some?
    ==> ask.start == PeriodStart(s.store.rows[e.keyId].key.budget.value, now)
  }

  /** For the key: the clock does not go back, reports are of positive amounts, and while an answer is in flight
      neither an admin write nor a report under an outdated budget moves the row to another total; the amount of the
      budget may change at any time. */
  ghost predicate Steady(s: Sys, step: Step, id: string, clock: Instant) {
    && ClockAfter(step, clock) >= clock
    && (step.ReportSpend? && step.event.keyId == id ==>
          step.event.amount > 0.0 && (ChargesThePresent(s, step.event, step.now) || NoneInFlight(s, id)))
    && (step.AdminWrite? ==>
          && WellFormed(step.written)
          && (id in step.written.rows ==>
                && SoundRow(step.written.rows[id].key, clock)
                && (KeepsTotal(s.store, step.written, id) || NoneInFlight(s, id))))
  }

  ghost predicate SteadyRun(s: Sys, steps: seq<Step>, id: string, clock: Instant)
    decreases |steps|
  {
    steps == [] ||
    (Steady(s, steps[0], id, clock) && SteadyRun(Next(s, steps[0]), steps[1..], id, ClockAfter(steps[0], clock)))
  }

  /** An answer of another period that would replace what is held of the present one. */
  predicate Stale(s: Sys, i: nat, id: string, clock: Instant) {
    i < |s.answers| && s.answers[i].id == id &&
    var place := Find(s.pool.keys, id);
    place.Some? &&
    var row := s.pool.keys[place.value].row;
    row.budget.Some? && row.spent.period == Some(PeriodStart(row.budget.value, clock))
    && s.answers[i].start != PeriodStart(row.budget.value, clock)
  }

  /** Whether memory is level with the row after a step: an admin write to the key's budget or spend and a stale
      answer upset it, a reload and a boot restore it. */
  predicate StaysLevel(s: Sys, step: Step, id: string, clock: Instant, level: bool) {
    match step
    case AdminWrite(written) => level && (id in written.rows ==> KeepsMoney(s.store, written, id))
    case LandAnswer(i) => level && !Stale(s, i, id, clock)
    case ReloadKeys => true
    case Crash => true
    case _ => level
  }

  predicate EndsLevel(s: Sys, steps: seq<Step>, id: string, clock: Instant, level: bool)
    decreases |steps|
  {
    if steps == [] then level
    else EndsLevel(Next(s, steps[0]), steps[1..], id, ClockAfter(steps[0], clock), StaysLevel(s, steps[0], id, clock, level))
  }

  // ----- The clock moves on -----

  /** An instant between the start of a period and a later instant of it lies in it too. */
  lemma PeriodHoldsBetween(b: Budget, now: Instant, t: Instant)
    requires ValidBudget(b) && PeriodStart(b, t) <= now <= t
    ensures PeriodStart(b, now) == PeriodStart(b, t)
  {
    if b.resetDay.Some? { PeriodsTileTheTimeline(b, now, t); }
  }

  lemma PeriodIsPast(b: Budget, now: Instant)
    requires ValidBudget(b) && now >= 0
    ensures PeriodStart(b, now) <= now
  {
    if b.resetDay.Some? { PeriodsTileTheTimeline(b, now, now); }
  }

  lemma FitsLater(a: Answer, row: KeyRow, clock: Instant, later: Instant)
    requires SoundRow(row, clock) && Fits(a, row, clock) && clock <= later
    ensures Fits(a, row, later)
  {
    if row.budget.Some? && a.start == PeriodStart(row.budget.value, later) {
      PeriodHoldsBetween(row.budget.value, clock, later);
    }
  }

  lemma LevelWithLater(held: KeyRow, row: KeyRow, answers: seq<Answer>, clock: Instant, later: Instant)
    requires SoundRow(row, clock) && LevelWith(held, row, answers, clock) && clock <= later
    ensures LevelWith(held, row, answers, later)
  {
    if row.budget.Some? && PeriodStart(row.budget.value, later) <= clock {
      PeriodHoldsBetween(row.budget.value, clock, later);
    }
  }

  lemma Later(s: Sys, id: string, clock: Instant, later: Instant)
    requires Even(s, id, clock) && clock <= later
    ensures Even(s, id, later)
    ensures Level(s, id, clock) ==> Level(s, id, later)
  {
    if id in s.store.rows {
      var row := s.store.rows[id].key;
      forall a | a in s.answers && a.id == id ensures Fits(a, row, later) { FitsLater(a, row, clock, later); }
      if Level(s, id, clock) {
        forall i | 0 <= i < |s.pool.keys| && s.pool.keys[i].row.id == id
          ensures LevelWith(s.pool.keys[i].row, row, s.answers, later)
        {
          LevelWithLater(s.pool.keys[i].row, row, s.answers, clock, later);
        }
      }
    }
  }

  // ----- Steps that move no money -----

  /** The same rows but for usage and exhausted-until, the same answers, and pooled copies with the same money. */
  ghost predicate SameLedger(s: Sys, after: Sys) {
    && after.answers == s.answers && after.store.rows.Keys == s.store.rows.Keys
    && (forall id :: id in s.store.rows ==> KeepsMoney(s.store, after.store, id))
    && |after.pool.keys| == |s.pool.keys|
    && forall i :: 0 <= i < |s.pool.keys| ==>
         var k, k' := s.pool.keys[i].row, after.pool.keys[i].row;
         k'.id == k.id && k'.budget == k.budget && k'.spent == k.spent
  }

  lemma SameLedgerKeeps(s: Sys, after: Sys, id: string, clock: Instant)
    requires SameLedger(s, after) && Even(s, id, clock)
    ensures Even(after, id, clock)
    ensures Level(s, id, clock) ==> Level(after, id, clock)
  {
    if id in s.store.rows {
      assert KeepsMoney(s.store, after.store, id);
      var row := s.store.rows[id].key;
      forall a | a in s.answers && a.id == id ensures Fits(a, after.store.rows[id].key, clock) {
        assert Fits(a, row, clock);
      }
      if Level(s, id, clock) {
        forall i | 0 <= i < |s.pool.keys| && s.pool.keys[i].row.id == id
          ensures LevelWith(after.pool.keys[i].row, after.store.rows[id].key, s.answers, clock)
        {
          assert LevelWith(s.pool.keys[i].row, row, s.answers, clock);
        }
      }
    }
  }

  lemma FlushIsSameLedger(s: Sys, id: string, up: bool)
    ensures SameLedger(s, AfterFlushKey(s, id, up))
  {
    if id in s.flight { StoreEntryApplies(s.store, id, s.flight[id]); }
  }

  lemma ExhaustedIsSameLedger(s: Sys, id: string, until: Instant, up: bool)
    ensures SameLedger(s, AfterExhausted(s, id, until, up))
  {}

  lemma ServeIsSameLedger(s: Sys, d: Drawn, feature: string, now: Instant)
    requires Valid(s) && Attempt(s.pool.keys, d, feature, now)
    ensures SameLedger(s, AfterServe(s, d))
  {
    ServeStaysValid(s, d, feature, now);
  }

  lemma MoneylessKeeps(s: Sys, step: Step, id: string, clock: Instant)
    requires Valid(s) && Even(s, id, clock)
    requires !step.ReportSpend? && !step.LandAnswer? && !step.ReloadKeys? && !step.AdminWrite? && !step.Crash?
    ensures Even(Next(s, step), id, clock)
    ensures Level(s, id, clock) ==> Level(Next(s, step), id, clock)
  {
    match step {
      case DrawFor(feature, scope, now) =>
        DrawIsAttempt(s.pool, feature, scope, now);
        ServeIsSameLedger(s, Draw(s.pool, feature, scope, now), feature, now);
      case DrawKey(named, feature, scope, now) =>
        ByIdIsAttempt(s.pool, named, feature, scope, now);
        ServeIsSameLedger(s, ById(s.pool, named, feature, scope, now), feature, now);
      case BeginFlush =>
      case FlushKey(flushed, up) => FlushIsSameLedger(s, flushed, up);
      case MarkExhausted(named, until, up) => ExhaustedIsSameLedger(s, named, until, up);
    }
    SameLedgerKeeps(s, Next(s, step), id, clock);
  }

  // ----- Reports -----

  /** A report that is for another key, refused or not counted leaves this key's row, and its answers, alone. */
  lemma OtherReportKeeps(s: Sys, e: SpendEvent, now: Instant, up: bool, id: string)
    requires Valid(s) && Even(s, id, now)
    requires !up || e.keyId != id || !AskFor(s.pool.keys, e, now).For? || id !in s.store.rows
    ensures Even(AfterReport(s, e, now, up), id, now)
    ensures Level(s, id, now) ==> Level(AfterReport(s, e, now, up), id, now)
  {
    var after := AfterReport(s, e, now, up);
    if id in s.store.rows {
      assert after.store.rows[id] == s.store.rows[id];
      assert forall a: Answer :: a.id == id ==> (a in after.answers <==> a in s.answers);
      if Level(s, id, now) {
        forall i | 0 <= i < |s.pool.keys| && s.pool.keys[i].row.id == id
          ensures LevelWith(s.pool.keys[i].row, s.store.rows[id].key, after.answers, now)
        {
          assert LevelWith(s.pool.keys[i].row, s.store.rows[id].key, s.answers, now);
        }
      }
    }
  }

  /** What a transaction for a pooled key with a row does: the row's total of the charged period grows, and is the
      answer. */
  lemma CountedReport(s: Sys, e: SpendEvent, now: Instant)
    requires AskFor(s.pool.keys, e, now).For? && e.keyId in s.store.rows && e.amount > 0.0
    ensures var after, p := AfterReport(s, e, now, true), AskFor(s.pool.keys, e, now).start;
            && e.keyId in after.store.rows && after.pool == s.pool
            && var row, row' := s.store.rows[e.keyId].key, after.store.rows[e.keyId].key;
               && row' == row.(spent := row'.spent)
               && (row'.spent == row.spent || row'.spent == Spent(SpentIn(row.spent, p) + e.amount, Some(p)))
               && after.answers == s.answers + [Answer(e.keyId, SpentIn(row'.spent, p), p)]
  {}

  lemma CountedReportKeeps(s: Sys, e: SpendEvent, now: Instant)
    requires Valid(s) && Even(s, e.keyId, now) && now >= 0 && e.amount > 0.0
    requires e.keyId in s.store.rows && AskFor(s.pool.keys, e, now).For?
    requires ChargesThePresent(s, e, now) || NoneInFlight(s, e.keyId)
    ensures Even(AfterReport(s, e, now, true), e.keyId, now)
    ensures Level(s, e.keyId, now) ==> Level(AfterReport(s, e, now, true), e.keyId, now)
  {
    var id, after := e.keyId, AfterReport(s, e, now, true);
    var place := Find(s.pool.keys, id).value;
    var p := AskFor(s.pool.keys, e, now).start;
    CountedReport(s, e, now);
    PeriodIsPast(s.pool.keys[place].row.budget.value, now);
    var row, row' := s.store.rows[id].key, after.store.rows[id].key;
    forall a | a in after.answers && a.id == id ensures Fits(a, row', now) {
      if a in s.answers { assert Fits(a, row, now); }
    }
    if Level(s, id, now) {
      assert LevelWith(s.pool.keys[place].row, row, s.answers, now);
      assert Answer(id, SpentIn(row'.spent, p), p) in after.answers;
      forall i | 0 <= i < |s.pool.keys| && s.pool.keys[i].row.id == id
        ensures LevelWith(s.pool.keys[i].row, row', after.answers, now)
      {
        assert i == place;
      }
    }
  }

  lemma ReportKeeps(s: Sys, e: SpendEvent, now: Instant, up: bool, id: string)
    requires Valid(s) && Even(s, id, now) && now >= 0
    requires e.keyId == id ==> e.amount > 0.0 && (ChargesThePresent(s, e, now) || NoneInFlight(s, id))
    ensures Even(AfterReport(s, e, now, up), id, now)
    ensures Level(s, id, now) ==> Level(AfterReport(s, e, now, up), id, now)
  {
    if up && e.keyId == id && AskFor(s.pool.keys, e, now).For? && id in s.store.rows {
      CountedReportKeeps(s, e, now);
    } else {
      OtherReportKeeps(s, e, now, up, id);
    }
  }

  // ----- Landings -----

  lemma WithoutMembers(answers: seq<Answer>, i: nat, a: Answer)
    requires i < |answers|
    ensures a in Pools.Without(answers, i) ==> a in answers
    ensures a in answers ==> a == answers[i] || a in Pools.Without(answers, i)
  {
    if a in answers && a != answers[i] {
      var j :| 0 <= j < |answers| && answers[j] == a;
      assert Pools.Without(answers, i)[if j < i then j else j - 1] == a;
    }
  }

  /** Landing an answer that is not stale keeps the held spend behind the row and level with it or about to be. */
  lemma LandingFollows(held: Spent, row: KeyRow, answers: seq<Answer>, i: nat, clock: Instant)
    requires i < |answers| && row.budget.Some? && Fits(answers[i], row, clock)
    requires var p, a := PeriodStart(row.budget.value, clock), answers[i];
             && Follows(held, SpentIn(row.spent, p), answers, a.id, p)
             && SpentIn(row.spent, p) >= 0.0
             && (held.period != Some(p) || a.start == p)
    ensures var p, a := PeriodStart(row.budget.value, clock), answers[i];
            Follows(HoldSpent(held, a.spent, a.start), SpentIn(row.spent, p), Pools.Without(answers, i), a.id, p)
  {
    var p, a := PeriodStart(row.budget.value, clock), answers[i];
    WithoutMembers(answers, i, Answer(a.id, SpentIn(row.spent, p), p));
  }

  lemma LandedKeyKeepsLevel(s: Sys, i: nat, id: string, clock: Instant)
    requires Valid(s) && Even(s, id, clock) && Level(s, id, clock) && !Stale(s, i, id, clock)
    requires id in s.store.rows && i < |s.answers| && s.answers[i].id == id && Find(s.pool.keys, id).Some?
    ensures var place := Find(s.pool.keys, id).value;
            LevelWith(AfterLanding(s, i).pool.keys[place].row, s.store.rows[id].key, AfterLanding(s, i).answers, clock)
  {
    var a, row := s.answers[i], s.store.rows[id].key;
    var held := s.pool.keys[Find(s.pool.keys, id).value].row;
    assert a in s.answers && Fits(a, row, clock);
    assert LevelWith(held, row, s.answers, clock);
    if row.budget.Some? { LandingFollows(held.spent, row, s.answers, i, clock); }
  }

  lemma OtherLandingKeepsLevel(s: Sys, i: nat, id: string, clock: Instant, j: nat)
    requires Valid(s) && Level(s, id, clock) && id in s.store.rows
    requires i < |s.answers| && s.answers[i].id != id && j < |s.pool.keys| && s.pool.keys[j].row.id == id
    ensures AfterLanding(s, i).pool.keys[j] == s.pool.keys[j]
    ensures LevelWith(s.pool.keys[j].row, s.store.rows[id].key, AfterLanding(s, i).answers, clock)
  {
    var held, row := s.pool.keys[j].row, s.store.rows[id].key;
    assert LevelWith(held, row, s.answers, clock);
    if row.budget.Some? {
      var p := PeriodStart(row.budget.value, clock);
      WithoutMembers(s.answers, i, Answer(id, SpentIn(row.spent, p), p));
    }
  }

  lemma LandingStaysEven(s: Sys, i: nat, id: string, clock: Instant)
    requires Even(s, id, clock)
    ensures Even(AfterLanding(s, i), id, clock)
  {
    if i < |s.answers| && id in s.store.rows {
      forall a | a in Pools.Without(s.answers, i) && a.id == id ensures Fits(a, s.store.rows[id].key, clock) {
        WithoutMembers(s.answers, i, a);
      }
    }
  }

  lemma LandingStaysLevel(s: Sys, i: nat, id: string, clock: Instant)
    requires Valid(s) && Even(s, id, clock) && Level(s, id, clock) && !Stale(s, i, id, clock)
    ensures Level(AfterLanding(s, i), id, clock)
  {
    if i < |s.answers| && id in s.store.rows {
      var after := AfterLanding(s, i);
      forall j | 0 <= j < |after.pool.keys| && after.pool.keys[j].row.id == id
        ensures LevelWith(after.pool.keys[j].row, s.store.rows[id].key, after.answers, clock)
      {
        FindIsSome(s.pool.keys, id, j);
        if s.answers[i].id == id {
          LandedKeyKeepsLevel(s, i, id, clock);
        } else {
          OtherLandingKeepsLevel(s, i, id, clock, j);
        }
      }
    }
  }

  // ----- Reloads, boots and admin writes -----

  lemma {:induction false} StillPooledMembers(answers: seq<Answer>, keys: seq<Key>, a: Answer)
    ensures a in StillPooled(answers, keys) ==> a in answers && Find(keys, a.id).Some?
    ensures a in answers && Find(keys, a.id).Some? ==> a in StillPooled(answers, keys)
    decreases |answers|
  {
    if answers != [] {
      assert answers == Front(answers) + [Last(answers)];
      StillPooledMembers(Front(answers), keys, a);
    }
  }

  lemma LoadedLevels(s: Sys, keys: seq<Key>, id: string, clock: Instant)
    requires WellFormed(s.store) && Even(s, id, clock)
    requires s.pool.keys == ReloadFrom(keys, s.store, s.store.order)
    ensures Level(s, id, clock)
  {
    ReloadPlaces(keys, s.store, s.store.order);
  }

  lemma ReloadLevels(s: Sys, id: string, clock: Instant)
    requires Valid(s) && Even(s, id, clock)
    ensures Even(AfterReload(s), id, clock) && Level(AfterReload(s), id, clock)
  {
    var after := AfterReload(s);
    ReloadPlaces(s.pool.keys, s.store, s.store.order);
    if id in s.store.rows {
      forall a | a in after.answers && a.id == id ensures Fits(a, s.store.rows[id].key, clock) {
        StillPooledMembers(s.answers, after.pool.keys, a);
      }
    }
    LoadedLevels(after, s.pool.keys, id, clock);
  }

  lemma BootLevels(s: Sys, id: string, clock: Instant)
    requires WellFormed(s.store) && (id in s.store.rows ==> SoundRow(s.store.rows[id].key, clock))
    ensures Even(Next(s, Crash), id, clock) && Level(Next(s, Crash), id, clock)
  {
    ReloadPlaces([], s.store, s.store.order);
    LoadedLevels(Next(s, Crash), [], id, clock);
  }

  lemma AdminKeepsEven(s: Sys, written: Store, id: string, clock: Instant)
    requires Even(s, id, clock) && Steady(s, AdminWrite(written), id, clock)
    ensures Even(s.(store := written), id, clock)
    ensures Level(s, id, clock) && (id in written.rows ==> KeepsMoney(s.store, written, id)) ==>
              Level(s.(store := written), id, clock)
  {
    if id in written.rows && KeepsTotal(s.store, written, id) {
      var row, row' := s.store.rows[id].key, written.rows[id].key;
      assert row.budget.Some? ==> PeriodStart(row'.budget.value, clock) == PeriodStart(row.budget.value, clock);
      forall a | a in s.answers && a.id == id ensures Fits(a, row', clock) {
        assert Fits(a, row, clock);
      }
      if KeepsMoney(s.store, written, id) && Level(s, id, clock) {
        forall i | 0 <= i < |s.pool.keys| && s.pool.keys[i].row.id == id
          ensures LevelWith(s.pool.keys[i].row, written.rows[id].key, s.answers, clock)
        {
          assert LevelWith(s.pool.keys[i].row, s.store.rows[id].key, s.answers, clock);
        }
      }
    }
  }

  // ----- Runs -----

  lemma StepKeeps(s: Sys, step: Step, id: string, clock: Instant, level: bool)
    requires Valid(s) && clock >= 0 && Even(s, id, clock) && (level ==> Level(s, id, clock))
    requires Steady(s, step, id, clock)
    ensures Even(Next(s, step), id, ClockAfter(step, clock))
    ensures StaysLevel(s, step, id, clock, level) ==> Level(Next(s, step), id, ClockAfter(step, clock))
  {
    Later(s, id, clock, ClockAfter(step, clock));
    match step {
      case ReportSpend(e, now, up) => ReportKeeps(s, e, now, up, id);
      case LandAnswer(i) =>
        LandingStaysEven(s, i, id, clock);
        if StaysLevel(s, step, id, clock, level) { LandingStaysLevel(s, i, id, clock); }
      case ReloadKeys => ReloadLevels(s, id, clock);
      case AdminWrite(written) => AdminKeepsEven(s, written, id, clock);
      case Crash => BootLevels(s, id, clock);
      case _ => MoneylessKeeps(s, step, id, ClockAfter(step, clock));
    }
  }

  lemma {:induction false} RunKeeps(s: Sys, steps: seq<Step>, id: string, clock: Instant, level: bool)
    requires Valid(s) && clock >= 0 && Even(s, id, clock) && (level ==> Level(s, id, clock))
    requires SteadyRun(s, steps, id, clock)
    ensures Valid(Run(s, steps)) && Even(Run(s, steps), id, ClockAfterAll(steps, clock))
    ensures EndsLevel(s, steps, id, clock, level) ==> Level(Run(s, steps), id, ClockAfterAll(steps, clock))
    decreases |steps|
  {
    if steps != [] {
      StepStaysValid(s, steps[0]);
      StepKeeps(s, steps[0], id, clock, level);
      RunKeeps(Next(s, steps[0]), steps[1..], id, ClockAfter(steps[0], clock), StaysLevel(s, steps[0], id, clock, level));
    }
  }

  /** Out-of-order answers: however transactions and landings interleave, through any periods, draws, flushes, reloads,
      crashes, and budget changes made while no answer for the key is in flight, the held spend of the present period
      never passes the row's; it equals it, or an answer in flight carries the row's total; and once no answer for the
      key is in flight they are equal. */
  lemma HeldSpendFollowsTheRow(s: Sys, steps: seq<Step>, id: string, clock: Instant, level: bool, i: nat)
    requires Valid(s) && clock >= 0 && Even(s, id, clock) && (level ==> Level(s, id, clock))
    requires SteadyRun(s, steps, id, clock) && EndsLevel(s, steps, id, clock, level)
    requires var after := Run(s, steps); i < |after.pool.keys| && after.pool.keys[i].row.id == id && id in after.store.rows
    ensures var after := Run(s, steps);
            var held, row := after.pool.keys[i].row, after.store.rows[id].key;
            && held.budget == row.budget
            && (row.budget.Some? ==>
                  var p := PeriodStart(row.budget.value, ClockAfterAll(steps, clock));
                  && SpentIn(held.spent, p) <= SpentIn(row.spent, p)
                  && (SpentIn(held.spent, p) == SpentIn(row.spent, p)
                      || Answer(id, SpentIn(row.spent, p), p) in after.answers)
                  && (NoneInFlight(after, id) ==> SpentIn(held.spent, p) == SpentIn(row.spent, p)))
  {
    RunKeeps(s, steps, id, clock, level);
    var after := Run(s, steps);
    assert LevelWith(after.pool.keys[i].row, after.store.rows[id].key, after.answers, ClockAfterAll(steps, clock));
  }

  /** The check a report passed still holds at its transaction exactly when the pool's budget has the row's unit; the
      transaction is then the ledger's report. */
  lemma ReportIsCheckedInTheRowsUnit(s: Sys, e: SpendEvent, now: Instant)
    requires Valid(s) && e.keyId in s.store.rows && !AskFor(s.pool.keys, e, now).Refused()
    ensures var ask := AskFor(s.pool.keys, e, now);
            var report := Ledger.Report(e, if ask.For? then Some(ask.start) else None);
            var held, row := s.pool.keys[Find(s.pool.keys, e.keyId).value].row, s.store.rows[e.keyId].key;
            && AfterReport(s, e, now, true).store == Ledger.Next(s.store, report)
            && (Ledger.Checked(s.store, report) <==> UnitOf(held.budget) == UnitOf(row.budget))
  {}

  /** So a report accepted after a run that ends level is one the ledger's sum is about. */
  lemma LevelReportsAreChecked(s: Sys, steps: seq<Step>, id: string, clock: Instant, level: bool, e: SpendEvent,
                               now: Instant)
    requires Valid(s) && clock >= 0 && Even(s, id, clock) && (level ==> Level(s, id, clock))
    requires SteadyRun(s, steps, id, clock) && EndsLevel(s, steps, id, clock, level) && e.keyId == id
    requires id in Run(s, steps).store.rows && !AskFor(Run(s, steps).pool.keys, e, now).Refused()
    ensures var ask := AskFor(Run(s, steps).pool.keys, e, now);
            Ledger.Checked(Run(s, steps).store, Ledger.Report(e, if ask.For? then Some(ask.start) else None))
  {
    var after := Run(s, steps);
    RunKeeps(s, steps, id, clock, level);
    ReportIsCheckedInTheRowsUnit(after, e, now);
    HeldSpendFollowsTheRow(s, steps, id, clock, level, Find(after.pool.keys, id).value);
  }

  // ----- Where it ends -----

  /** What is held of the present period survives an answer exactly when the answer is of that period; an answer that
      lands after the reset from before it wipes the new period's spend from memory. */
  lemma StaleAnswerWipesThePeriod(held: Spent, p: Instant, answer: Answer)
    requires held.period == Some(p) && held.amount > 0.0
    ensures SpentIn(HoldSpent(held, answer.spent, answer.start), p) >= held.amount <==> answer.start == p
  {}

  /** An admin's budget change with an answer in flight across it, and the reload that follows. */
  function Rebudgeted(s: Sys, id: string, budget: Budget): Sys
    requires id in s.store.rows
  {
    AfterReload(s.(store := UpdateBudget(s.store, id, Some(budget))))
  }

  lemma RebudgetedKey(s: Sys, id: string, budget: Budget)
    requires Valid(s) && id in s.store.rows && Pooled(s.store, id)
    ensures var after := Rebudgeted(s, id, budget);
            var place := Find(after.pool.keys, id);
            && place.Some? && id in after.store.rows && after.pool.keys[place.value].row == after.store.rows[id].key
            && var row, row' := s.store.rows[id].key, after.store.rows[id].key;
               && row'.budget == Some(budget)
               && row'.spent == (if UnitOf(row.budget) == Some(budget.unit) then row.spent else Spent(0.0, None))
  {
    var written := UpdateBudget(s.store, id, Some(budget));
    assert Pooled(written, id);
    ReloadPlaces(s.pool.keys, written, written.order);
  }

  lemma LandedKey(s: Sys, j: nat)
    requires j < |s.answers| && Find(s.pool.keys, s.answers[j].id).Some?
    ensures var a, place := s.answers[j], Find(s.pool.keys, s.answers[j].id);
            var after := AfterLanding(s, j);
            && after.store == s.store && Find(after.pool.keys, a.id) == place
            && var held, held' := s.pool.keys[place.value].row, after.pool.keys[place.value].row;
               held' == held.(spent := HoldSpent(held.spent, a.spent, a.start))
  {
    var a, place := s.answers[j], Find(s.pool.keys, s.answers[j].id).value;
    var after := AfterLanding(s, j);
    assert forall i :: 0 <= i < |s.pool.keys| ==> after.pool.keys[i].row.id == s.pool.keys[i].row.id;
  }

  /** The held spend stays within the row's across such a change exactly when the change keeps the unit: otherwise the
      answer brings back a total of the old unit that the row has dropped, and can lock the key out. */
  lemma UnitChangeUnderAnAnswer(s: Sys, id: string, b: Budget, changed: Budget, a: Answer, j: nat, clock: Instant)
    requires Valid(s) && Even(s, id, clock) && id in s.store.rows && Pooled(s.store, id)
    requires s.store.rows[id].key.budget == Some(b)
    requires a in s.answers && a.id == id && a.start == PeriodStart(b, clock) && a.spent > 0.0
    requires j < |Rebudgeted(s, id, changed).answers| && Rebudgeted(s, id, changed).answers[j] == a
    ensures var after := AfterLanding(Rebudgeted(s, id, changed), j);
            var place := Find(after.pool.keys, id);
            && place.Some? && id in after.store.rows
            && var held, row := after.pool.keys[place.value].row, after.store.rows[id].key;
               && (SpentIn(held.spent, a.start) <= SpentIn(row.spent, a.start) <==> changed.unit == b.unit)
               && (changed.unit != b.unit && PeriodStart(changed, clock) == a.start ==>
                     (WithinBudget(held.budget, held.spent, clock) <==> a.spent < changed.amount)
                     && SpentNow(row.budget, row.spent, clock) == 0.0)
  {
    var rebudgeted := Rebudgeted(s, id, changed);
    RebudgetedKey(s, id, changed);
    LandedKey(rebudgeted, j);
    assert Fits(a, s.store.rows[id].key, clock);
  }
}
