/** A reload is invisible: no caller can tell afterwards whether it happened; and exactly when one is seen. */
module ReloadRuns {
  import opened Common
  import opened Budgets
  import opened Keys
  import opened Pools
  import opened Stores
  import opened Writeback
  import opened System
  import opened Refinement
  import opened HeldSpend
  import opened SimilarRuns

  // ----- The pool as its rows configure it -----

  /** The ids a reload puts in the pool, in order. */
  function PooledIds(s: Store, order: seq<string>): seq<string>
    decreases |order|
  {
    if order == [] then []
    else PooledIds(s, Front(order)) + (if Pooled(s, Last(order)) then [Last(order)] else [])
  }

  ghost predicate SameIds(keys: seq<Key>, ids: seq<string>) {
    |keys| == |ids| && forall i :: 0 <= i < |keys| ==> keys[i].row.id == ids[i]
  }

  /** What a reload would load into the key, but for its spend. */
  predicate ConfiguredBy(s: Store, k: Key) {
    && k.row.id in s.rows
    && s.rows[k.row.id].key == k.row.(spent := s.rows[k.row.id].key.spent)
    && k.features == FeaturesOf(s, k.row.id) && k.secrets == SecretsOf(s, k.row.id)
  }

  ghost predicate Configured(s: Sys) {
    && SameIds(s.pool.keys, PooledIds(s.store, s.store.order))
    && forall i :: 0 <= i < |s.pool.keys| ==> ConfiguredBy(s.store, s.pool.keys[i])
  }

  /** Whether the pool is configured as its rows after a step: an admin write and a failed exhausted-until write upset
      it, a reload and a boot restore it. */
  predicate StaysConfigured(s: Sys, step: Step, configured: bool) {
    match step
    case AdminWrite(_) => false
    case MarkExhausted(id, _, up) => configured && (up || Find(s.pool.keys, id).None?)
    case ReloadKeys => true
    case Crash => true
    case _ => configured
  }

  predicate EndsConfigured(s: Sys, steps: seq<Step>, configured: bool)
    decreases |steps|
  {
    if steps == [] then configured
    else EndsConfigured(Next(s, steps[0]), steps[1..], StaysConfigured(s, steps[0], configured))
  }

  lemma {:induction false} ReloadFollowsTheIds(keys: seq<Key>, s: Store, order: seq<string>)
    requires WellFormed(s)
    ensures SameIds(ReloadFrom(keys, s, order), PooledIds(s, order))
    decreases |order|
  {
    if order != [] {
      ReloadFollowsTheIds(keys, s, Front(order));
    }
  }

  /** Two stores with the same keys in the same tiers load the same ids. */
  lemma {:induction false} SameTiersSameIds(a: Store, b: Store, order: seq<string>)
    requires a.rows.Keys == b.rows.Keys && a.tiers == b.tiers
    requires forall id :: id in a.rows ==> a.rows[id].key.tierId == b.rows[id].key.tierId
    ensures PooledIds(a, order) == PooledIds(b, order)
    decreases |order|
  {
    if order != [] {
      SameTiersSameIds(a, b, Front(order));
    }
  }

  /** The same configuration: everything but usage columns and counters, spends, and what changed alike on both sides. */
  ghost predicate SameConfiguration(s: Sys, after: Sys) {
    && after.store.order == s.store.order && after.store.tiers == s.store.tiers && after.store.secrets == s.store.secrets
    && after.store.rows.Keys == s.store.rows.Keys
    && (forall id :: id in s.store.rows ==>
          after.store.rows[id].key == s.store.rows[id].key.(spent := after.store.rows[id].key.spent))
    && |after.pool.keys| == |s.pool.keys|
    && forall i :: 0 <= i < |s.pool.keys| ==>
         var k, k' := s.pool.keys[i], after.pool.keys[i];
         k'.row == k.row.(spent := k'.row.spent) && k'.features == k.features && k'.secrets == k.secrets
  }

  lemma SameConfigurationKeeps(s: Sys, after: Sys)
    requires Configured(s) && SameConfiguration(s, after)
    ensures Configured(after)
  {
    SameTiersSameIds(s.store, after.store, s.store.order);
    forall i | 0 <= i < |s.pool.keys| ensures ConfiguredBy(after.store, after.pool.keys[i]) {
      assert ConfiguredBy(s.store, s.pool.keys[i]);
    }
  }

  lemma ServeKeepsConfiguration(s: Sys, d: Drawn, feature: string, now: Instant)
    requires Attempt(s.pool.keys, d, feature, now)
    ensures SameConfiguration(s, AfterServe(s, d))
  {
    forall i | 0 <= i < |s.pool.keys|
      ensures var k, k' := s.pool.keys[i], d.pool.keys[i];
              k'.row == k.row && k'.features == k.features && k'.secrets == k.secrets
    {
      AttemptOnKey(s.pool.keys, d, feature, now, i);
    }
  }

  lemma FlushKeepsConfiguration(s: Sys, id: string, up: bool)
    ensures SameConfiguration(s, AfterFlushKey(s, id, up))
  {
    if id in s.flight { StoreEntryApplies(s.store, id, s.flight[id]); }
  }

  lemma ReportKeepsConfiguration(s: Sys, e: SpendEvent, now: Instant, up: bool)
    ensures SameConfiguration(s, AfterReport(s, e, now, up))
  {}

  lemma LandingKeepsConfiguration(s: Sys, i: nat)
    ensures SameConfiguration(s, AfterLanding(s, i))
  {}

  function Exhausting(k: Key, id: string, until: Instant): Key {
    if k.row.id == id then k.(row := k.row.(exhaustedUntil := Some(until))) else k
  }

  lemma RowsExhaustAlike(row: KeyRow, held: KeyRow, until: Option<Instant>)
    requires row == held.(spent := row.spent)
    ensures row.(exhaustedUntil := until) == held.(exhaustedUntil := until).(spent := row.spent)
  {}

  lemma ExhaustingKeepsConfigured(s: Store, k: Key, id: string, until: Instant)
    requires ConfiguredBy(s, k)
    ensures ConfiguredBy(SetExhausted(s, id, until), Exhausting(k, id, until))
  {
    if k.row.id == id {
      RowsExhaustAlike(s.rows[id].key, k.row, Some(until));
    } else {
      assert SetExhausted(s, id, until).rows[k.row.id] == s.rows[k.row.id];
    }
  }

  ghost predicate Exhausts(s: Sys, after: Sys, id: string, until: Instant) {
    && after.store == SetExhausted(s.store, id, until) && |after.pool.keys| == |s.pool.keys|
    && forall i :: 0 <= i < |s.pool.keys| ==> after.pool.keys[i] == Exhausting(s.pool.keys[i], id, until)
  }

  lemma MarkingExhausts(s: Sys, id: string, until: Instant)
    requires DistinctIds(s.pool.keys) && Find(s.pool.keys, id).Some?
    ensures Exhausts(s, AfterExhausted(s, id, until, true), id, until)
  {}

  lemma ExhaustedStaysConfigured(s: Sys, after: Sys, id: string, until: Instant)
    requires Configured(s) && Exhausts(s, after, id, until)
    ensures Configured(after)
  {
    ExhaustedKeepsUsage(s.store, id, until);
    SameTiersSameIds(s.store, after.store, s.store.order);
    forall i | 0 <= i < |s.pool.keys|
      ensures after.pool.keys[i].row.id == s.pool.keys[i].row.id && ConfiguredBy(after.store, after.pool.keys[i])
    {
      assert ConfiguredBy(s.store, s.pool.keys[i]);
      ExhaustingKeepsConfigured(s.store, s.pool.keys[i], id, until);
    }
  }

  lemma LoadedIsConfigured(s: Sys, keys: seq<Key>)
    requires WellFormed(s.store) && s.pool.keys == ReloadFrom(keys, s.store, s.store.order)
    ensures Configured(s)
  {
    ReloadPlaces(keys, s.store, s.store.order);
    ReloadFollowsTheIds(keys, s.store, s.store.order);
  }

  lemma StepStaysConfigured(s: Sys, step: Step)
    requires Valid(s) && Configured(s) && StaysConfigured(s, step, true)
    requires !step.ReloadKeys? && !step.Crash?
    ensures Configured(Next(s, step))
  {
    if step.MarkExhausted? {
      if Find(s.pool.keys, step.id).Some? {
        MarkingExhausts(s, step.id, step.until);
        ExhaustedStaysConfigured(s, Next(s, step), step.id, step.until);
      }
    } else {
      match step {
        case DrawFor(feature, scope, now) =>
          DrawIsAttempt(s.pool, feature, scope, now);
          ServeKeepsConfiguration(s, Draw(s.pool, feature, scope, now), feature, now);
        case DrawKey(id, feature, scope, now) =>
          ByIdIsAttempt(s.pool, id, feature, scope, now);
          ServeKeepsConfiguration(s, ById(s.pool, id, feature, scope, now), feature, now);
        case BeginFlush =>
        case FlushKey(id, up) => FlushKeepsConfiguration(s, id, up);
        case ReportSpend(e, now, up) => ReportKeepsConfiguration(s, e, now, up);
        case LandAnswer(i) => LandingKeepsConfiguration(s, i);
      }
      SameConfigurationKeeps(s, Next(s, step));
    }
  }

  lemma {:induction false} RunStaysConfigured(s: Sys, steps: seq<Step>, id: string, clock: Instant, configured: bool)
    requires Valid(s) && SteadyRun(s, steps, id, clock) && (configured ==> Configured(s))
    ensures EndsConfigured(s, steps, configured) ==> Configured(Run(s, steps))
    decreases |steps|
  {
    if steps != [] {
      var step, after := steps[0], Next(s, steps[0]);
      StepStaysValid(s, step);
      if step.ReloadKeys? {
        LoadedIsConfigured(after, s.pool.keys);
      } else if step.Crash? {
        LoadedIsConfigured(after, []);
      } else if StaysConfigured(s, step, configured) {
        StepStaysConfigured(s, step);
      }
      RunStaysConfigured(after, steps[1..], id, ClockAfter(step, clock), StaysConfigured(s, step, configured));
    }
  }

  // ----- A reload is invisible -----

  /** Rows, budgets and answers as the program writes them. */
  ghost predicate Sound(s: Sys, clock: Instant) {
    Valid(s) && clock >= 0 && forall id: string :: Even(s, id, clock)
  }

  /** The pool agrees with its rows: the same configuration, and every held spend level. */
  ghost predicate Agreeing(s: Sys, clock: Instant) {
    Configured(s) && forall id: string :: Level(s, id, clock)
  }

  ghost predicate SteadyForAll(s: Sys, steps: seq<Step>, clock: Instant) {
    forall id: string :: SteadyRun(s, steps, id, clock)
  }

  /** Whatever upset the agreement during the run, a reload or a boot has restored it since. */
  ghost predicate EndsAgreeing(s: Sys, steps: seq<Step>, clock: Instant, agreeing: bool) {
    EndsConfigured(s, steps, agreeing) && forall id: string :: EndsLevel(s, steps, id, clock, agreeing)
  }

  lemma RunKeepsOne(s: Sys, steps: seq<Step>, id: string, clock: Instant, agreeing: bool)
    requires Sound(s, clock) && (agreeing ==> Agreeing(s, clock)) && SteadyForAll(s, steps, clock)
    ensures Valid(Run(s, steps)) && ClockAfterAll(steps, clock) >= 0 && Even(Run(s, steps), id, ClockAfterAll(steps, clock))
    ensures EndsLevel(s, steps, id, clock, agreeing) ==> Level(Run(s, steps), id, ClockAfterAll(steps, clock))
  {
    assert Even(s, id, clock) && (agreeing ==> Level(s, id, clock)) && SteadyRun(s, steps, id, clock);
    RunKeeps(s, steps, id, clock, agreeing);
    ClockStaysPositive(s, steps, id, clock);
  }

  lemma RunStaysAgreeing(s: Sys, steps: seq<Step>, clock: Instant, agreeing: bool)
    requires Sound(s, clock) && (agreeing ==> Agreeing(s, clock)) && SteadyForAll(s, steps, clock)
    ensures Sound(Run(s, steps), ClockAfterAll(steps, clock))
    ensures EndsAgreeing(s, steps, clock, agreeing) ==> Agreeing(Run(s, steps), ClockAfterAll(steps, clock))
  {
    forall id: string
      ensures Even(Run(s, steps), id, ClockAfterAll(steps, clock))
      ensures EndsLevel(s, steps, id, clock, agreeing) ==> Level(Run(s, steps), id, ClockAfterAll(steps, clock))
    {
      RunKeepsOne(s, steps, id, clock, agreeing);
    }
    RunKeepsOne(s, steps, "", clock, agreeing);
    assert SteadyRun(s, steps, "", clock);
    RunStaysConfigured(s, steps, "", clock, agreeing);
  }

  lemma {:induction false} ClockStaysPositive(s: Sys, steps: seq<Step>, id: string, clock: Instant)
    requires SteadyRun(s, steps, id, clock)
    ensures ClockAfterAll(steps, clock) >= clock
    decreases |steps|
  {
    if steps != [] { ClockStaysPositive(Next(s, steps[0]), steps[1..], id, ClockAfter(steps[0], clock)); }
  }

  /** A held spend level with its row and nothing in flight count the same from now on. */
  lemma LevelAgrees(held: KeyRow, row: KeyRow, answers: seq<Answer>, clock: Instant)
    requires SoundRow(row, clock) && LevelWith(held, row, answers, clock) && answers == []
    ensures AgreeFrom(row.budget, held.spent, row.spent, clock)
  {
    if row.budget.Some? {
      forall t: Instant | t >= clock ensures SpentNow(row.budget, held.spent, t) == SpentNow(row.budget, row.spent, t) {
        if PeriodStart(row.budget.value, t) <= clock { PeriodHoldsBetween(row.budget.value, clock, t); }
      }
    }
  }

  /** A reload of an agreeing pool changes nothing but spend that counts the same. */
  lemma ReloadOfAgreeingIsSimilar(s: Sys, clock: Instant)
    requires Sound(s, clock) && Agreeing(s, clock) && s.answers == []
    ensures Similar(s, AfterReload(s), clock)
  {
    var after := AfterReload(s);
    ReloadPlaces(s.pool.keys, s.store, s.store.order);
    ReloadFollowsTheIds(s.pool.keys, s.store, s.store.order);
    forall i | 0 <= i < |s.pool.keys| ensures KeySimilar(s.pool.keys[i], after.pool.keys[i], clock) {
      var k := s.pool.keys[i];
      FindIsSome(s.pool.keys, k.row.id, i);
      assert ConfiguredBy(s.store, k) && Even(s, k.row.id, clock) && Level(s, k.row.id, clock);
      LevelAgrees(k.row, s.store.rows[k.row.id].key, s.answers, clock);
    }
    forall id | id in s.store.rows ensures s.store.rows[id].key.spent.amount >= 0.0 {
      assert Even(s, id, clock);
    }
  }

  lemma ReloadNowIsInvisible(s: Sys, reloaded: Sys, after: seq<Step>, clock: Instant)
    requires Sound(s, clock) && Agreeing(s, clock) && s.answers == [] && reloaded == AfterReload(s)
    requires InTime(after, clock) && PositiveRun(after)
    ensures Replies(reloaded, after) == Replies(s, after)
  {
    ReloadOfAgreeingIsSimilar(s, clock);
    SimilarRunsReplyAlike(s, reloaded, after, clock);
  }

  /** A reload is invisible to serving: after any run, with every interleaving of transactions and landings in it, that
      ends with the pool agreeing and no answer in flight, reloading or not makes no difference to any later draw's
      reply or report's answer, whatever follows. */
  lemma ReloadIsInvisible(s: Sys, before: seq<Step>, after: seq<Step>, clock: Instant, agreeing: bool)
    requires Sound(s, clock) && (agreeing ==> Agreeing(s, clock))
    requires SteadyForAll(s, before, clock) && EndsAgreeing(s, before, clock, agreeing)
    requires Run(s, before).answers == []
    requires InTime(after, ClockAfterAll(before, clock)) && PositiveRun(after)
    ensures var middle := Run(s, before); Replies(Next(middle, ReloadKeys), after) == Replies(middle, after)
  {
    RunStaysAgreeing(s, before, clock, agreeing);
    ReloadNowIsInvisible(Run(s, before), Next(Run(s, before), ReloadKeys), after, ClockAfterAll(before, clock));
  }

  /** A boot agrees: the runs above start from any sound database. */
  lemma BootAgrees(s: Sys, clock: Instant)
    requires WellFormed(s.store) && clock >= 0
    requires forall id :: id in s.store.rows ==> SoundRow(s.store.rows[id].key, clock)
    ensures Sound(Next(s, Crash), clock) && Agreeing(Next(s, Crash), clock)
  {
    StepStaysValid(Sys(s.store, Pool([], 0), map[], map[], []), Crash);
    LoadedIsConfigured(Next(s, Crash), []);
    forall id: string ensures Even(Next(s, Crash), id, clock) && Level(Next(s, Crash), id, clock) {
      BootLevels(s, id, clock);
    }
  }

  // ----- When a reload is seen -----

  /** What keeps a key from a caller whatever it has spent. */
  predicate Barred(k: Key, feature: string, scope: Scope, now: Instant) {
    !Offers(k, feature, scope) || !HasRoom(k, feature, now) || !Available(k.(row := k.row.(budget := None)), now)
  }

  /** The reply to a draw of a key with a held spend, told by what bars the key and by its budget. */
  function ReplyWith(k: Key, spent: Spent, feature: string, scope: Scope, now: Instant): Reply {
    if !Offers(k, feature, scope) then NotGiven(OutOfScope)
    else if !Barred(k, feature, scope, now) && WithinBudget(k.row.budget, spent, now)
    then Given(k.row.id, k.row.keyValue, k.row.metadata, k.secrets)
    else NotGiven(Exhausted)
  }

  lemma ReplyByBudget(s: Sys, i: nat, feature: string, scope: Scope, now: Instant)
    requires Valid(s) && i < |s.pool.keys|
    ensures var k := s.pool.keys[i];
            ReplyTo(s, DrawKey(k.row.id, feature, scope, now)) == Some(ReplyWith(k, k.row.spent, feature, scope, now))
  {
    var k := s.pool.keys[i];
    FindIsSome(s.pool.keys, k.row.id, i);
    ServedExactlyWithRoom(k, feature, now);
  }

  /** A configured key after a reload: the same but for its row's spend. */
  lemma ReloadedKey(s: Sys, i: nat)
    requires Valid(s) && i < |s.pool.keys| && ConfiguredBy(s.store, s.pool.keys[i])
    requires Pooled(s.store, s.pool.keys[i].row.id)
    ensures var k, after := s.pool.keys[i], AfterReload(s);
            var place := Find(after.pool.keys, k.row.id);
            place.Some? && after.pool.keys[place.value] == k.(row := k.row.(spent := s.store.rows[k.row.id].key.spent))
  {
    ReloadPlaces(s.pool.keys, s.store, s.store.order);
    FindIsSome(s.pool.keys, s.pool.keys[i].row.id, i);
  }

  /** The reply to a draw of a configured key after a reload. */
  lemma ReplyAfterReload(s: Sys, after: Sys, i: nat, feature: string, scope: Scope, now: Instant)
    requires Valid(s) && i < |s.pool.keys| && ConfiguredBy(s.store, s.pool.keys[i])
    requires Pooled(s.store, s.pool.keys[i].row.id) && after == AfterReload(s)
    ensures var k := s.pool.keys[i];
            ReplyTo(after, DrawKey(k.row.id, feature, scope, now))
            == Some(ReplyWith(k, s.store.rows[k.row.id].key.spent, feature, scope, now))
  {
    var k, row := s.pool.keys[i], s.store.rows[s.pool.keys[i].row.id].key;
    StepStaysValid(s, ReloadKeys);
    ReloadedKey(s, i);
    ReplyByBudget(after, Find(after.pool.keys, k.row.id).value, feature, scope, now);
    OnlySpendDiffers(k, row.spent, feature, scope, now);
  }

  lemma OnlySpendDiffers(k: Key, spent: Spent, feature: string, scope: Scope, now: Instant)
    ensures ReplyWith(k.(row := k.row.(spent := spent)), spent, feature, scope, now)
            == ReplyWith(k, spent, feature, scope, now)
  {}

  /** A reload changes the reply to a draw of a configured key exactly if nothing else bars the key and the budget has
      room by one of held spend and row, but not by the other. */
  lemma ReloadIsSeenAcrossTheBudget(s: Sys, i: nat, feature: string, scope: Scope, now: Instant)
    requires Valid(s) && i < |s.pool.keys| && ConfiguredBy(s.store, s.pool.keys[i])
    requires Pooled(s.store, s.pool.keys[i].row.id)
    ensures var k := s.pool.keys[i];
            var draw, row := DrawKey(k.row.id, feature, scope, now), s.store.rows[k.row.id].key;
            && (ReplyTo(AfterReload(s), draw) != ReplyTo(s, draw)
                <==> !Barred(k, feature, scope, now)
                     && (WithinBudget(k.row.budget, k.row.spent, now) <==> !WithinBudget(k.row.budget, row.spent, now)))
            && (!Barred(k, feature, scope, now) ==>
                  ReplyTo(AfterReload(s), draw) == Some(if WithinBudget(k.row.budget, row.spent, now)
                                                        then Given(k.row.id, k.row.keyValue, k.row.metadata, k.secrets)
                                                        else NotGiven(Exhausted)))
  {
    ReplyByBudget(s, i, feature, scope, now);
    ReplyAfterReload(s, AfterReload(s), i, feature, scope, now);
  }

  /** A transaction that takes the row to its budget, its answer not yet landed. */
  lemma CrossedTheBudget(s: Sys, i: nat, e: SpendEvent, now: Instant)
    requires Valid(s) && i < |s.pool.keys| && ConfiguredBy(s.store, s.pool.keys[i]) && e.keyId == s.pool.keys[i].row.id
    requires e.requestId !in s.store.spendEvents && Pooled(s.store, e.keyId)
    requires var b := s.pool.keys[i].row.budget; b.Some? && e.unit == b.value.unit
    ensures var between, b := Next(s, ReportSpend(e, now, true)), s.pool.keys[i].row.budget;
            && Valid(between) && between.pool == s.pool
            && ConfiguredBy(between.store, s.pool.keys[i]) && Pooled(between.store, e.keyId)
            && SpentNow(b, between.store.rows[e.keyId].key.spent, now)
               == SpentNow(b, s.store.rows[e.keyId].key.spent, now) + e.amount
  {
    FindIsSome(s.pool.keys, e.keyId, i);
    StepStaysValid(s, ReportSpend(e, now, true));
  }

  lemma AgreeingCountsTheRow(s: Sys, i: nat, now: Instant)
    requires Sound(s, now) && Agreeing(s, now) && s.answers == [] && i < |s.pool.keys|
    ensures var k := s.pool.keys[i];
            ConfiguredBy(s.store, k)
            && SpentNow(k.row.budget, s.store.rows[k.row.id].key.spent, now) == SpentNow(k.row.budget, k.row.spent, now)
  {
    var k := s.pool.keys[i];
    assert ConfiguredBy(s.store, k) && Even(s, k.row.id, now) && Level(s, k.row.id, now);
    LevelAgrees(k.row, s.store.rows[k.row.id].key, s.answers, now);
  }

  /** Such a state: between a transaction that takes a row to its budget and the landing of its answer, the key is
      still given; after a reload it is exhausted. */
  lemma ReloadIsSeenBeforeTheLanding(s: Sys, i: nat, e: SpendEvent, feature: string, scope: Scope, now: Instant)
    requires Sound(s, now) && Agreeing(s, now) && s.answers == [] && i < |s.pool.keys|
    requires e.keyId == s.pool.keys[i].row.id && e.requestId !in s.store.spendEvents && e.amount > 0.0
    requires var b := s.pool.keys[i].row.budget; b.Some? && e.unit == b.value.unit
    requires !Barred(s.pool.keys[i], feature, scope, now) && Pooled(s.store, e.keyId)
    requires var k := s.pool.keys[i];
             && WithinBudget(k.row.budget, k.row.spent, now)
             && SpentNow(k.row.budget, k.row.spent, now) + e.amount >= k.row.budget.value.amount
    ensures var between, draw := Next(s, ReportSpend(e, now, true)), DrawKey(e.keyId, feature, scope, now);
            && ReplyTo(between, draw).Some? && ReplyTo(between, draw).value.Given?
            && ReplyTo(AfterReload(between), draw) == Some(NotGiven(Exhausted))
  {
    AgreeingCountsTheRow(s, i, now);
    CrossedTheBudget(s, i, e, now);
    var between := Next(s, ReportSpend(e, now, true));
    ReplyByBudget(between, i, feature, scope, now);
    ReplyAfterReload(between, AfterReload(between), i, feature, scope, now);
  }
}
