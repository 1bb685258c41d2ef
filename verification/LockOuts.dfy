/** What keeps a key from everybody for a while: a spent budget, until the next reset, and a mark of exhaustion, until
    its time. */
module LockOuts {
  import opened Common
  import opened Budgets
  import opened Keys
  import opened Pools
  import opened Stores
  import opened Writeback
  import opened System
  import opened Refinement
  import opened HeldSpend
  import opened Replies

  /** The clock is past `from` and before the next reset of a budget at `from`; a lifetime budget has none. */
  predicate BeforeTheReset(b: Budget, from: Instant, t: Instant) {
    from <= t && (b.resetDay.Some? ==> t < NextReset(b, from).value)
  }

  lemma SamePeriod(b: Budget, from: Instant, t: Instant)
    requires ValidBudget(b) && BeforeTheReset(b, from, t)
    ensures PeriodStart(b, t) == PeriodStart(b, from)
  {
    if b.resetDay.Some? {
      PeriodsTileTheTimeline(b, t, from);
    }
  }

  /** The clock stays within the period, reports for the key are of positive amounts, and admin writes keep the key's
      budget and spend. */
  ghost predicate WithinPeriod(s: Sys, step: Step, id: string, b: Budget, from: Instant) {
    && (TimeOf(step).Some? ==> BeforeTheReset(b, from, TimeOf(step).value))
    && (step.ReportSpend? && step.event.keyId == id ==> step.event.amount > 0.0)
    && (step.AdminWrite? ==> WellFormed(step.written) && KeepsMoney(s.store, step.written, id))
  }

  ghost predicate PeriodRun(s: Sys, steps: seq<Step>, id: string, b: Budget, from: Instant)
    decreases |steps|
  {
    steps == [] ||
    (WithinPeriod(s, steps[0], id, b, from) && PeriodRun(Next(s, steps[0]), steps[1..], id, b, from))
  }

  predicate Spends(row: KeyRow, b: Budget, p: Instant) {
    row.budget == Some(b) && SpentIn(row.spent, p) >= b.amount
  }

  /** The row and every pooled copy stand at this budget in this period, and no answer of another period is in flight. */
  ghost predicate LockedOut(s: Sys, id: string, b: Budget, p: Instant) {
    && id in s.store.rows && Spends(s.store.rows[id].key, b, p)
    && (forall i :: 0 <= i < |s.pool.keys| && s.pool.keys[i].row.id == id ==> Spends(s.pool.keys[i].row, b, p))
    && (forall a :: a in s.answers && a.id == id ==> a.start == p)
  }

  /** A key level with its row that holds its whole budget is locked out. */
  lemma HeldAtBudgetIsLockedOut(s: Sys, id: string, b: Budget, clock: Instant, i: nat)
    requires Valid(s) && Level(s, id, clock) && id in s.store.rows && s.store.rows[id].key.budget == Some(b)
    requires forall a :: a in s.answers && a.id == id ==> a.start == PeriodStart(b, clock)
    requires i < |s.pool.keys| && s.pool.keys[i].row.id == id
    requires SpentIn(s.pool.keys[i].row.spent, PeriodStart(b, clock)) >= b.amount
    ensures LockedOut(s, id, b, PeriodStart(b, clock))
  {
    assert LevelWith(s.pool.keys[i].row, s.store.rows[id].key, s.answers, clock);
    forall j | 0 <= j < |s.pool.keys| && s.pool.keys[j].row.id == id ensures j == i {}
  }

  lemma LockedOutIsUnavailable(s: Sys, id: string, b: Budget, p: Instant, now: Instant, i: nat)
    requires LockedOut(s, id, b, p) && ValidBudget(b) && PeriodStart(b, now) == p
    requires i < |s.pool.keys| && s.pool.keys[i].row.id == id
    ensures !Available(s.pool.keys[i], now)
  {
    assert Spends(s.pool.keys[i].row, b, p);
  }

  /** Neither kind of draw serves a locked-out key before the reset. */
  lemma LockedOutIsNotServed(s: Sys, step: Step, id: string, b: Budget, from: Instant)
    requires Valid(s) && ValidBudget(b) && LockedOut(s, id, b, PeriodStart(b, from))
    requires WithinPeriod(s, step, id, b, from)
    ensures Serves(s, step) != Some(id)
  {
    if step.DrawFor? {
      DrawIsSoundAndComplete(s.pool, step.feature, step.scope, step.now);
    }
    if Serves(s, step) == Some(id) {
      SamePeriod(b, from, step.now);
      var i := if step.DrawFor? then Draw(s.pool, step.feature, step.scope, step.now).outcome.index
               else Find(s.pool.keys, step.id).value;
      LockedOutIsUnavailable(s, id, b, PeriodStart(b, from), step.now, i);
    }
  }

  lemma SameLedgerStaysLockedOut(s: Sys, after: Sys, id: string, b: Budget, p: Instant)
    requires LockedOut(s, id, b, p) && SameLedger(s, after)
    ensures LockedOut(after, id, b, p)
  {
    assert KeepsMoney(s.store, after.store, id);
    forall i | 0 <= i < |s.pool.keys| && after.pool.keys[i].row.id == id ensures Spends(after.pool.keys[i].row, b, p) {
      assert Spends(s.pool.keys[i].row, b, p);
    }
  }

  lemma MoneylessStaysLockedOut(s: Sys, step: Step, id: string, b: Budget, p: Instant)
    requires Valid(s) && LockedOut(s, id, b, p)
    requires !step.ReportSpend? && !step.LandAnswer? && !step.ReloadKeys? && !step.AdminWrite? && !step.Crash?
    ensures LockedOut(Next(s, step), id, b, p)
  {
    match step {
      case DrawFor(feature, scope, now) =>
        DrawIsAttempt(s.pool, feature, scope, now);
        ServeIsSameLedger(s, Draw(s.pool, feature, scope, now), feature, now);
      case DrawKey(named, feature, scope, now) =>
        ByIdIsAttempt(s.pool, named, feature, scope, now);
        ServeIsSameLedger(s, ById(s.pool, named, feature, scope, now), feature, now);
      case BeginFlush =>
      case FlushKey(flushed, up) => FlushIsSameLedger(s, flushed, up);
      case MarkExhausted(named, until, up) => ExhaustedIsSameLedger(s, named, until, up);
    }
    SameLedgerStaysLockedOut(s, Next(s, step), id, b, p);
  }

  lemma ReportStaysLockedOut(s: Sys, e: SpendEvent, now: Instant, up: bool, id: string, b: Budget)
    requires Valid(s) && LockedOut(s, id, b, PeriodStart(b, now))
    requires e.keyId == id ==> e.amount > 0.0
    ensures LockedOut(AfterReport(s, e, now, up), id, b, PeriodStart(b, now))
  {
    var ask := AskFor(s.pool.keys, e, now);
    if up && e.keyId == id && ask.For? {
      assert Spends(s.pool.keys[Find(s.pool.keys, id).value].row, b, PeriodStart(b, now));
      CountedReport(s, e, now);
    } else {
      UncountedReport(s, e, now, up, id);
    }
  }

  lemma UncountedReport(s: Sys, e: SpendEvent, now: Instant, up: bool, id: string)
    requires id in s.store.rows && (!up || e.keyId != id || !AskFor(s.pool.keys, e, now).For?)
    ensures var after := AfterReport(s, e, now, up);
            && id in after.store.rows && after.store.rows[id] == s.store.rows[id] && after.pool == s.pool
            && forall a: Answer :: a in after.answers && a.id == id ==> a in s.answers
  {}

  lemma LandingStaysLockedOut(s: Sys, i: nat, id: string, b: Budget, p: Instant)
    requires Valid(s) && LockedOut(s, id, b, p) && b.amount > 0.0
    ensures LockedOut(AfterLanding(s, i), id, b, p)
  {
    if i < |s.answers| {
      var after := AfterLanding(s, i);
      assert s.answers[i] in s.answers;
      forall a | a in after.answers && a.id == id ensures a.start == p {
        WithoutMembers(s.answers, i, a);
      }
      forall j | 0 <= j < |s.pool.keys| && after.pool.keys[j].row.id == id ensures Spends(after.pool.keys[j].row, b, p) {
        assert Spends(s.pool.keys[j].row, b, p);
      }
    }
  }

  lemma ReloadStaysLockedOut(s: Sys, id: string, b: Budget, p: Instant)
    requires WellFormed(s.store) && id in s.store.rows && Spends(s.store.rows[id].key, b, p)
    requires forall a :: a in s.answers && a.id == id ==> a.start == p
    ensures LockedOut(AfterReload(s), id, b, p)
  {
    var after := AfterReload(s);
    ReloadPlaces(s.pool.keys, s.store, s.store.order);
    forall a | a in after.answers && a.id == id ensures a.start == p {
      StillPooledMembers(s.answers, after.pool.keys, a);
    }
  }

  lemma StepStaysLockedOut(s: Sys, step: Step, id: string, b: Budget, from: Instant)
    requires Valid(s) && ValidBudget(b) && LockedOut(s, id, b, PeriodStart(b, from))
    requires WithinPeriod(s, step, id, b, from)
    ensures LockedOut(Next(s, step), id, b, PeriodStart(b, from))
  {
    var p := PeriodStart(b, from);
    match step {
      case ReportSpend(e, now, up) =>
        SamePeriod(b, from, now);
        ReportStaysLockedOut(s, e, now, up, id, b);
      case LandAnswer(i) => LandingStaysLockedOut(s, i, id, b, p);
      case ReloadKeys => ReloadStaysLockedOut(s, id, b, p);
      case AdminWrite(written) =>
      case Crash => ReloadStaysLockedOut(Sys(s.store, Pool([], 0), map[], map[], []), id, b, p);
      case _ => MoneylessStaysLockedOut(s, step, id, b, p);
    }
  }

  /** No step of a run serves the key. */
  ghost predicate NeverServes(s: Sys, steps: seq<Step>, id: string)
    decreases |steps|
  {
    steps == [] || (Serves(s, steps[0]) != Some(id) && NeverServes(Next(s, steps[0]), steps[1..], id))
  }

  /** The lock-out: from a state at its budget a key is served by no draw before the reset, through any reports,
      landings, reloads, flushes, crashes and clock steps that keep its budget. */
  lemma {:induction false} LockedOutUntilTheReset(s: Sys, steps: seq<Step>, id: string, b: Budget, from: Instant)
    requires Valid(s) && ValidBudget(b) && LockedOut(s, id, b, PeriodStart(b, from))
    requires PeriodRun(s, steps, id, b, from)
    ensures NeverServes(s, steps, id) && LockedOut(Run(s, steps), id, b, PeriodStart(b, from))
    decreases |steps|
  {
    if steps != [] {
      LockedOutIsNotServed(s, steps[0], id, b, from);
      StepStaysLockedOut(s, steps[0], id, b, from);
      StepStaysValid(s, steps[0]);
      LockedOutUntilTheReset(Next(s, steps[0]), steps[1..], id, b, from);
    }
  }

  // ----- Keys marked exhausted -----

  predicate BarredUntil(row: KeyRow, until: Instant) {
    row.exhaustedUntil.Some? && row.exhaustedUntil.value >= until
  }

  /** The row, while it is there, and every pooled copy are marked exhausted until this time or later. */
  ghost predicate Marked(s: Sys, id: string, until: Instant) {
    && (id in s.store.rows ==> BarredUntil(s.store.rows[id].key, until))
    && MarkedIn(s.pool.keys, id, until)
  }

  ghost predicate MarkedIn(keys: seq<Key>, id: string, until: Instant) {
    forall i :: 0 <= i < |keys| && keys[i].row.id == id ==> BarredUntil(keys[i].row, until)
  }

  /** Admin writes and later marks do not bring the time forward. */
  ghost predicate KeepsMark(step: Step, id: string, until: Instant) {
    && (step.MarkExhausted? && step.id == id ==> step.until >= until)
    && (step.AdminWrite? ==>
          WellFormed(step.written) && (id in step.written.rows ==> BarredUntil(step.written.rows[id].key, until)))
  }

  /** A mark that reaches the row marks the key in both places, whatever it was marked with before. */
  lemma MarkingMarks(s: Sys, id: string, until: Instant)
    requires Valid(s) && Find(s.pool.keys, id).Some?
    ensures Marked(Next(s, MarkExhausted(id, until, true)), id, until)
  {}

  lemma SameMarksStayMarked(s: Sys, after: Sys, id: string, until: Instant)
    requires Marked(s, id, until) && |after.pool.keys| == |s.pool.keys|
    requires id in after.store.rows ==>
               id in s.store.rows && after.store.rows[id].key.exhaustedUntil == s.store.rows[id].key.exhaustedUntil
    requires forall i :: 0 <= i < |s.pool.keys| ==>
               var k, k' := s.pool.keys[i].row, after.pool.keys[i].row;
               k'.id == k.id && k'.exhaustedUntil == k.exhaustedUntil
    ensures Marked(after, id, until)
  {
    forall i | 0 <= i < |s.pool.keys| && after.pool.keys[i].row.id == id ensures BarredUntil(after.pool.keys[i].row, until) {
      assert BarredUntil(s.pool.keys[i].row, until);
    }
  }

  lemma ServeStaysMarked(s: Sys, d: Drawn, feature: string, now: Instant, id: string, until: Instant)
    requires Valid(s) && Marked(s, id, until) && Attempt(s.pool.keys, d, feature, now)
    ensures Marked(AfterServe(s, d), id, until)
  {
    ServeStaysValid(s, d, feature, now);
    SameMarksStayMarked(s, AfterServe(s, d), id, until);
  }

  lemma ReportStaysMarked(s: Sys, e: SpendEvent, now: Instant, up: bool, id: string, until: Instant)
    requires Marked(s, id, until)
    ensures Marked(AfterReport(s, e, now, up), id, until)
  {}

  lemma LandingStaysMarked(s: Sys, i: nat, id: string, until: Instant)
    requires Marked(s, id, until)
    ensures Marked(AfterLanding(s, i), id, until)
  {
    SameMarksStayMarked(s, AfterLanding(s, i), id, until);
  }

  lemma MarkingStaysMarked(s: Sys, named: string, later: Instant, up: bool, id: string, until: Instant)
    requires Valid(s) && Marked(s, id, until) && (named == id ==> later >= until)
    ensures Marked(AfterExhausted(s, named, later, up), id, until)
  {
    var after := AfterExhausted(s, named, later, up);
    forall i | 0 <= i < |s.pool.keys| && after.pool.keys[i].row.id == id ensures BarredUntil(after.pool.keys[i].row, until) {
      assert s.pool.keys[i].row.id == id ==> BarredUntil(s.pool.keys[i].row, until);
    }
  }

  lemma ReloadStaysMarked(s: Sys, keys: seq<Key>, id: string, until: Instant)
    requires WellFormed(s.store) && (id in s.store.rows ==> BarredUntil(s.store.rows[id].key, until))
    ensures MarkedIn(ReloadFrom(keys, s.store, s.store.order), id, until)
  {
    ReloadPlaces(keys, s.store, s.store.order);
  }

  lemma StepStaysMarked(s: Sys, step: Step, id: string, until: Instant)
    requires Valid(s) && Marked(s, id, until) && KeepsMark(step, id, until)
    ensures Marked(Next(s, step), id, until)
  {
    match step {
      case DrawFor(feature, scope, now) =>
        DrawIsAttempt(s.pool, feature, scope, now);
        ServeStaysMarked(s, Draw(s.pool, feature, scope, now), feature, now, id, until);
      case DrawKey(named, feature, scope, now) =>
        ByIdIsAttempt(s.pool, named, feature, scope, now);
        ServeStaysMarked(s, ById(s.pool, named, feature, scope, now), feature, now, id, until);
      case BeginFlush =>
      case FlushKey(flushed, up) => if flushed in s.flight { StoreEntryApplies(s.store, flushed, s.flight[flushed]); }
      case ReportSpend(e, now, up) => ReportStaysMarked(s, e, now, up, id, until);
      case LandAnswer(i) => LandingStaysMarked(s, i, id, until);
      case MarkExhausted(named, later, up) => MarkingStaysMarked(s, named, later, up, id, until);
      case ReloadKeys => ReloadStaysMarked(s, s.pool.keys, id, until);
      case AdminWrite(written) =>
      case Crash => ReloadStaysMarked(s, [], id, until);
    }
  }

  lemma MarkedIsNotServed(s: Sys, step: Step, id: string, until: Instant)
    requires Marked(s, id, until) && (TimeOf(step).Some? ==> TimeOf(step).value < until)
    ensures Serves(s, step) != Some(id)
  {
    if Serves(s, step) == Some(id) { var i := ServedKeyIsFit(s, step, id); }
  }

  /** Every step happens before this time and keeps the mark. */
  ghost predicate MarkedRun(steps: seq<Step>, id: string, until: Instant) {
    forall i :: 0 <= i < |steps| ==>
      KeepsMark(steps[i], id, until) && (TimeOf(steps[i]).Some? ==> TimeOf(steps[i]).value < until)
  }

  /** A marked key is served by no draw before its time, through any draws, flushes, reports, landings, reloads, crashes,
      and admin writes and marks that do not bring the time forward. */
  lemma {:induction false} MarkedUntilItsTime(s: Sys, steps: seq<Step>, id: string, until: Instant)
    requires Valid(s) && Marked(s, id, until) && MarkedRun(steps, id, until)
    ensures NeverServes(s, steps, id) && Marked(Run(s, steps), id, until)
    decreases |steps|
  {
    if steps != [] {
      assert KeepsMark(steps[0], id, until);
      MarkedIsNotServed(s, steps[0], id, until);
      StepStaysMarked(s, steps[0], id, until);
      StepStaysValid(s, steps[0]);
      MarkedUntilItsTime(Next(s, steps[0]), steps[1..], id, until);
    }
  }

  /** So no step before `until` serves a key after it was marked. */
  lemma NotServedOnceMarked(s: Sys, steps: seq<Step>, id: string, until: Instant)
    requires Valid(s) && Find(s.pool.keys, id).Some? && MarkedRun(steps, id, until)
    ensures NeverServes(Next(s, MarkExhausted(id, until, true)), steps, id)
  {
    MarkingMarks(s, id, until);
    StepStaysValid(s, MarkExhausted(id, until, true));
    MarkedUntilItsTime(Next(s, MarkExhausted(id, until, true)), steps, id, until);
  }

  /** And from that time on the mark bars the key no more: once the clock has reached it, whether a named draw serves
      the key turns on everything but the mark. */
  lemma ServedAgainFromItsTime(s: Sys, i: nat, feature: string, scope: Scope, until: Instant, now: Instant)
    requires Valid(s) && i < |s.pool.keys| && s.pool.keys[i].row.exhaustedUntil == Some(until) && now >= until
    ensures var k := s.pool.keys[i];
            Serves(s, DrawKey(k.row.id, feature, scope, now)) == Some(k.row.id)
            <==> IsFit(k.(row := k.row.(exhaustedUntil := None)), feature, scope, now)
  {
    NamedDrawTold(s, i, feature, scope, now);
  }
}
