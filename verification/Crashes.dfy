/** Conservation of a lifetime cap's usage across crashes. */
module Crashes {
  import opened Common
  import opened Keys
  import opened Pools
  import opened Stores
  import opened UsageQueue
  import opened Writeback
  import opened System
  import opened Refinement

  /** The serves an entry carries. */
  function Carried(q: Queue, id: string): int {
    if id in q then q[id].n else 0
  }

  predicate PlainEntry(q: Queue, id: string) {
    id in q ==> q[id].reset.None? && q[id].n >= 0
  }

  /** A cap of `limit` calls for good. */
  predicate LifetimeCap(row: KeyRow, limit: int) {
    row.usageLimit == Some(limit) && (row.usageWindowSeconds.None? || row.usageWindowSeconds.value <= 0)
  }

  /** The key has a lifetime cap, in its row and wherever it is pooled, and only serves are queued for it. */
  ghost predicate Capped(s: Sys, id: string, limit: int) {
    && id in s.store.rows && LifetimeCap(s.store.rows[id].key, limit)
    && (forall i :: 0 <= i < |s.pool.keys| && s.pool.keys[i].row.id == id ==> LifetimeCap(s.pool.keys[i].row, limit))
    && PlainEntry(s.queue, id) && PlainEntry(s.flight, id)
  }

  /** Every serve the service still knows of: in the row, in flight, or pending. */
  function Known(s: Sys, id: string): int
    requires id in s.store.rows
  {
    s.store.rows[id].usage.count + Carried(s.flight, id) + Carried(s.queue, id)
  }

  /** An admin write keeps the key, its cap and its usage. */
  ghost predicate KeepsCap(s: Sys, step: Step, id: string, limit: int) {
    step.AdminWrite? ==>
      && id in step.written.rows && id in s.store.rows
      && LifetimeCap(step.written.rows[id].key, limit)
      && step.written.rows[id].usage == s.store.rows[id].usage
  }

  ghost predicate CapRun(s: Sys, steps: seq<Step>, id: string, limit: int)
    decreases |steps|
  {
    steps == [] ||
    (Orderly(s, steps[0]) && KeepsCap(s, steps[0], id, limit) && CapRun(Next(s, steps[0]), steps[1..], id, limit))
  }

  function Lost(s: Sys, step: Step, id: string): int {
    if step.Crash? then Carried(s.flight, id) + Carried(s.queue, id) else 0
  }

  function Gained(s: Sys, step: Step, id: string): int {
    if Serves(s, step) == Some(id) then 1 else 0
  }

  /** How often a run serves the key, and how many of its serves the run's crashes lose. */
  function ServedTimes(s: Sys, steps: seq<Step>, id: string): int
    decreases |steps|
  {
    if steps == [] then 0 else Gained(s, steps[0], id) + ServedTimes(Next(s, steps[0]), steps[1..], id)
  }

  function LostServes(s: Sys, steps: seq<Step>, id: string): int
    decreases |steps|
  {
    if steps == [] then 0 else Lost(s, steps[0], id) + LostServes(Next(s, steps[0]), steps[1..], id)
  }

  lemma CapIsKeptByServe(s: Sys, d: Drawn, feature: string, now: Instant, id: string, limit: int)
    requires Valid(s) && Capped(s, id, limit) && Attempt(s.pool.keys, d, feature, now)
    ensures Capped(AfterServe(s, d), id, limit)
    ensures Known(AfterServe(s, d), id) == Known(s, id) + (if ServedId(s.pool, d) == Some(id) then 1 else 0)
  {
    forall i | 0 <= i < |s.pool.keys| ensures d.pool.keys[i].row == s.pool.keys[i].row {
      AttemptOnKey(s.pool.keys, d, feature, now, i);
    }
    if d.outcome.Served? {
      AttemptOnKey(s.pool.keys, d, feature, now, d.outcome.index);
    }
  }

  lemma ServedBelowTheCap(s: Sys, d: Drawn, feature: string, now: Instant, id: string, limit: int)
    requires Valid(s) && Coherent(s) && Capped(s, id, limit) && Attempt(s.pool.keys, d, feature, now)
    requires ServedId(s.pool, d) == Some(id)
    ensures Known(s, id) < limit
  {
    var k := s.pool.keys[d.outcome.index];
    AttemptOnKey(s.pool.keys, d, feature, now, d.outcome.index);
    assert CoherentKey(s, k);
  }

  lemma CapIsKeptByReload(s: Sys, keys: seq<Key>, id: string, limit: int)
    requires WellFormed(s.store) && id in s.store.rows && LifetimeCap(s.store.rows[id].key, limit)
    ensures forall i :: var reloaded := ReloadFrom(keys, s.store, s.store.order);
              0 <= i < |reloaded| && reloaded[i].row.id == id ==> LifetimeCap(reloaded[i].row, limit)
  {
    ReloadPlaces(keys, s.store, s.store.order);
  }

  lemma ServeConserves(s: Sys, d: Drawn, feature: string, now: Instant, id: string, limit: int)
    requires Valid(s) && Coherent(s) && Capped(s, id, limit) && Attempt(s.pool.keys, d, feature, now)
    ensures Capped(AfterServe(s, d), id, limit)
    ensures Known(AfterServe(s, d), id) == Known(s, id) + (if ServedId(s.pool, d) == Some(id) then 1 else 0)
    ensures ServedId(s.pool, d) == Some(id) ==> Known(s, id) < limit
  {
    CapIsKeptByServe(s, d, feature, now, id, limit);
    if ServedId(s.pool, d) == Some(id) { ServedBelowTheCap(s, d, feature, now, id, limit); }
  }

  lemma FlushConservesServes(s: Sys, flushed: string, up: bool, id: string, limit: int)
    requires Valid(s) && Capped(s, id, limit)
    ensures Capped(AfterFlushKey(s, flushed, up), id, limit)
    ensures Known(AfterFlushKey(s, flushed, up), id) == Known(s, id)
  {
    if flushed in s.flight { StoreEntryApplies(s.store, flushed, s.flight[flushed]); }
  }

  lemma ExhaustedConserves(s: Sys, named: string, until: Instant, up: bool, id: string, limit: int)
    requires Valid(s) && Capped(s, id, limit)
    ensures Capped(AfterExhausted(s, named, until, up), id, limit)
    ensures Known(AfterExhausted(s, named, until, up), id) == Known(s, id)
  {}

  lemma ReloadConserves(s: Sys, id: string, limit: int)
    requires WellFormed(s.store) && id in s.store.rows && LifetimeCap(s.store.rows[id].key, limit)
    requires PlainEntry(s.queue, id) && PlainEntry(s.flight, id)
    ensures Capped(AfterReload(s), id, limit) && Known(AfterReload(s), id) == Known(s, id)
  {
    CapIsKeptByReload(s, s.pool.keys, id, limit);
  }

  lemma LandingConserves(s: Sys, i: nat, id: string, limit: int)
    requires Valid(s) && Capped(s, id, limit)
    ensures Capped(AfterLanding(s, i), id, limit) && Known(AfterLanding(s, i), id) == Known(s, id)
  {}

  /** One step conserves serves: what it serves is known afterwards, and only a crash forgets. */
  lemma StepConserves(s: Sys, step: Step, id: string, limit: int)
    requires Valid(s) && Coherent(s) && Capped(s, id, limit) && Orderly(s, step) && KeepsCap(s, step, id, limit)
    ensures Capped(Next(s, step), id, limit)
    ensures Known(Next(s, step), id) + Lost(s, step, id) == Known(s, id) + Gained(s, step, id)
    ensures Gained(s, step, id) == 1 ==> Known(s, id) < limit
  {
    match step {
      case DrawFor(feature, scope, now) =>
        DrawIsAttempt(s.pool, feature, scope, now);
        ServeConserves(s, Draw(s.pool, feature, scope, now), feature, now, id, limit);
      case DrawKey(named, feature, scope, now) =>
        ByIdIsAttempt(s.pool, named, feature, scope, now);
        ServeConserves(s, ById(s.pool, named, feature, scope, now), feature, now, id, limit);
      case BeginFlush =>
      case FlushKey(flushed, up) =>
        FlushConservesServes(s, flushed, up, id, limit);
      case ReportSpend(e, now, up) =>
        ReportConserves(s, e, now, up, id, limit);
      case LandAnswer(i) =>
        LandingConserves(s, i, id, limit);
      case MarkExhausted(named, until, up) =>
        ExhaustedConserves(s, named, until, up, id, limit);
      case ReloadKeys =>
        ReloadConserves(s, id, limit);
      case AdminWrite(written) =>
      case Crash =>
        CapIsKeptByReload(s, [], id, limit);
    }
  }

  lemma ReportConserves(s: Sys, e: SpendEvent, now: Instant, up: bool, id: string, limit: int)
    requires Valid(s) && Capped(s, id, limit)
    ensures Capped(AfterReport(s, e, now, up), id, limit)
    ensures Known(AfterReport(s, e, now, up), id) == Known(s, id)
  {}

  /** Conservation: what the service knows at the end and what crashes lost is what it knew at the start and what it
      served; so a key with a lifetime cap is served at most its remaining calls and the serves lost. */
  lemma {:induction false} ServesAreConserved(s: Sys, steps: seq<Step>, id: string, limit: int)
    requires Valid(s) && Coherent(s) && Capped(s, id, limit) && CapRun(s, steps, id, limit)
    requires Known(s, id) <= limit
    ensures Capped(Run(s, steps), id, limit)
    ensures Known(Run(s, steps), id) + LostServes(s, steps, id) == Known(s, id) + ServedTimes(s, steps, id)
    ensures Known(Run(s, steps), id) <= limit
    ensures ServedTimes(s, steps, id) <= limit - Known(s, id) + LostServes(s, steps, id)
    decreases |steps|
  {
    if steps != [] {
      StepStaysCoherent(s, steps[0]);
      StepConserves(s, steps[0], id, limit);
      ServesAreConserved(Next(s, steps[0]), steps[1..], id, limit);
    }
  }
}
