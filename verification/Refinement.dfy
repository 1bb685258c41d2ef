/** The write-behind refinement: the database row, the entry in flight and the entry pending always stand for the
    counter the pool serves from; and what a crash can cost. */
module Refinement {
  import opened Common
  import opened Keys
  import opened Pools
  import opened Stores
  import opened UsageQueue
  import opened Writeback
  import opened System

  /** What the row becomes once the flush in flight and then the next one have landed. */
  function Settled(s: Sys, id: string): Counter
    requires id in s.store.rows
  {
    ApplyEntry(s.queue, id, ApplyEntry(s.flight, id, s.store.rows[id].usage))
  }

  predicate CoherentKey(s: Sys, k: Key) {
    k.row.id in s.store.rows ==> k.usage == Settled(s, k.row.id)
  }

  ghost predicate CoherentKeys(s: Sys) {
    forall i :: 0 <= i < |s.pool.keys| ==> CoherentKey(s, s.pool.keys[i])
  }

  /** Every key's tier has features: a tier is never written without any. */
  ghost predicate Featured(s: Store) {
    forall id :: id in s.rows ==> FeaturesOf(s, id) != map[]
  }

  /** Nothing is queued for a row that has yet to enter the pool. */
  ghost predicate NewcomersIdle(s: Sys) {
    forall id :: id in s.store.rows && Find(s.pool.keys, id).None? ==> id !in s.queue && id !in s.flight
  }

  ghost predicate Coherent(s: Sys) {
    CoherentKeys(s) && Featured(s.store) && NewcomersIdle(s)
  }

  /** Keys that a reload lets in had nothing queued. */
  ghost predicate EntersClean(s: Sys) {
    forall id :: id in s.store.order && Pooled(s.store, id) && Find(s.pool.keys, id).None?
      ==> Settled(s, id) == s.store.rows[id].usage
  }

  /** An admin write as the API makes it: tiers keep features, usage columns stay, and a new key's id is new. */
  ghost predicate AdminKeeps(s: Sys, written: Store) {
    && WellFormed(written) && Featured(written)
    && forall id :: id in written.rows ==>
         if id in s.store.rows then written.rows[id].usage == s.store.rows[id].usage
         else Find(s.pool.keys, id).None? && id !in s.queue && id !in s.flight
  }

  /** No cap below one call is due to roll over. */
  ghost predicate NoEmptyRollOver(keys: seq<Key>, now: Instant) {
    forall i :: 0 <= i < |keys| ==> !RollsOverUnserved(keys[i], now)
  }

  /** What the program keeps to: one flush at a time, caps of at least one call, admin writes as the API makes them. */
  ghost predicate Orderly(s: Sys, step: Step) {
    match step
    case DrawFor(_, _, now) => NoEmptyRollOver(s.pool.keys, now)
    case DrawKey(_, _, _, now) => NoEmptyRollOver(s.pool.keys, now)
    case BeginFlush => s.flight == map[]
    case AdminWrite(written) => AdminKeeps(s, written)
    case _ => true
  }

  ghost predicate OrderlyRun(s: Sys, steps: seq<Step>)
    decreases |steps|
  {
    steps == [] || (Orderly(s, steps[0]) && OrderlyRun(Next(s, steps[0]), steps[1..]))
  }

  // ----- Draws -----

  /** What both kinds of draw do to the pool. */
  ghost predicate Attempt(keys: seq<Key>, d: Drawn, feature: string, now: Instant) {
    && |d.pool.keys| == |keys|
    && (d.outcome.Served? ==> d.outcome.index < |keys|)
    && exists places: seq<nat> :: AttemptAt(keys, d, feature, now, places)
  }

  ghost predicate AttemptAt(keys: seq<Key>, d: Drawn, feature: string, now: Instant, places: seq<nat>)
    requires |d.pool.keys| == |keys|
  {
    forall i :: 0 <= i < |keys| ==> TriedAtMostOnce(keys[i], d.pool.keys[i], i, places, d.outcome, feature, now)
  }

  lemma DrawIsAttempt(pool: Pool, feature: string, scope: Scope, now: Instant)
    ensures Attempt(pool.keys, Draw(pool, feature, scope, now), feature, now)
  {
    DrawFrame(pool, feature, scope, now);
    assert AttemptAt(pool.keys, Draw(pool, feature, scope, now), feature, now,
                     Candidates(pool.keys, feature, scope, now));
  }

  lemma ByIdIsAttempt(pool: Pool, id: string, feature: string, scope: Scope, now: Instant)
    ensures Attempt(pool.keys, ById(pool, id, feature, scope, now), feature, now)
  {
    var place := Find(pool.keys, id);
    var places := if place.Some? then [place.value] else [];
    assert AttemptAt(pool.keys, ById(pool, id, feature, scope, now), feature, now, places);
  }

  /** What an attempt does to one key, in terms of the gates alone. */
  lemma AttemptOnKey(keys: seq<Key>, d: Drawn, feature: string, now: Instant, i: nat)
    requires Attempt(keys, d, feature, now) && i < |keys|
    ensures d.pool.keys[i] == keys[i].(usage := d.pool.keys[i].usage, rates := d.pool.keys[i].rates)
    ensures d.outcome.Served? && d.outcome.index == i ==>
              var t := TryServe(keys[i], feature, now);
              t.ok && d.pool.keys[i] == t.after && d.outcome.charge == t.charge
    ensures !(d.outcome.Served? && d.outcome.index == i) && !RollsOverUnserved(keys[i], now)
            ==> d.pool.keys[i].usage == keys[i].usage
  {
    var places: seq<nat> :| AttemptAt(keys, d, feature, now, places);
    assert TriedAtMostOnce(keys[i], d.pool.keys[i], i, places, d.outcome, feature, now);
    GatesTouchOnlyTheirCounters(keys[i], feature, now);
    if !TryServe(keys[i], feature, now).ok {
      RefusalChangesOnlyItsRateCounter(keys[i], feature, now);
    }
  }

  lemma PersistOfAnother(q: Queue, id: string, charge: Charge, other: string, row: Counter)
    requires id != other
    ensures ApplyEntry(Persist(q, id, charge), other, row) == ApplyEntry(q, other, row)
  {}

  // ----- Flushing -----

  lemma FlushKeySettles(s: Sys, id: string, up: bool, other: string)
    requires other in s.store.rows
    ensures other in AfterFlushKey(s, id, up).store.rows
    ensures Settled(AfterFlushKey(s, id, up), other) == Settled(s, other)
  {
    if id in s.flight {
      StoreEntryApplies(s.store, id, s.flight[id]);
      if id == other {
        RequeueIsComposition(s.queue, id, s.flight[id], s.store.rows[other].usage);
      }
    }
  }

  /** The Writer's own flush, started on queue `q`, with the keys in `todo` still to be stored. */
  function Flushing(s: Sys, q: Queue, down: set<string>, todo: set<string>): Sys {
    s.(store := Flushed(s.store, q, down + todo), queue := Only(q, down - todo), flight := Only(q, todo))
  }

  lemma {:induction false} FlushingIsARun(s: Sys, q: Queue, down: set<string>, todo: set<string>) returns (steps: seq<Step>)
    requires todo <= q.Keys
    ensures Run(Flushing(s, q, down, todo), steps) == Flushing(s, q, down, {})
    ensures forall i :: 0 <= i < |steps| ==> steps[i].FlushKey? && steps[i].id in todo
                                             && steps[i].up == (steps[i].id !in down)
    decreases |todo|
  {
    if todo == {} { return []; }
    var id :| id in todo;
    FlushedNext(s.store, q, down, todo, id);
    assert Only(q, todo) - {id} == Only(q, todo - {id});
    var step := FlushKey(id, id !in down);
    assert Next(Flushing(s, q, down, todo), step) == Flushing(s, q, down, todo - {id});
    var later := FlushingIsARun(s, q, down, todo - {id});
    steps := [step] + later;
  }

  /** What Writer.Flush does to rows and queue is a run of the service's steps, so the refinement holds of it too. */
  lemma FlushIsARun(s: Sys, down: set<string>) returns (steps: seq<Step>)
    requires s.flight == map[]
    ensures Run(s, [BeginFlush] + steps) == s.(store := Flushed(s.store, s.queue, down), queue := Only(s.queue, down))
    ensures forall i :: 0 <= i < |steps| ==> steps[i].FlushKey? && steps[i].id in s.queue
                                             && steps[i].up == (steps[i].id !in down)
  {
    var q := s.queue;
    assert Next(s, BeginFlush) == Flushing(s, q, down, q.Keys);
    steps := FlushingIsARun(s, q, down, q.Keys);
    assert down + {} == down && down - {} == down;
    assert Only(q, {}) == map[];
  }

  // ----- Reloads -----

  /** A reload keeps the refinement exactly when the keys it lets in had nothing queued. */
  lemma ReloadKeepsExactlyIfEntersClean(s: Sys)
    requires Valid(s) && CoherentKeys(s)
    ensures CoherentKeys(AfterReload(s)) <==> EntersClean(s)
  {
    var after := AfterReload(s);
    ReloadPlaces(s.pool.keys, s.store, s.store.order);
    forall i | 0 <= i < |after.pool.keys|
      ensures var k := after.pool.keys[i];
              k.row.id in s.store.order && Pooled(s.store, k.row.id)
              && (CoherentKey(after, k) <==>
                    (Find(s.pool.keys, k.row.id).None? ==> Settled(s, k.row.id) == s.store.rows[k.row.id].usage))
    {
      var k := after.pool.keys[i];
      var place := Find(s.pool.keys, k.row.id);
      if place.Some? {
        assert CoherentKey(s, s.pool.keys[place.value]);
      }
    }
    if CoherentKeys(after) {
      forall id | id in s.store.order && Pooled(s.store, id) && Find(s.pool.keys, id).None?
        ensures Settled(s, id) == s.store.rows[id].usage
      {
        var place := Find(after.pool.keys, id).value;
        assert CoherentKey(after, after.pool.keys[place]);
      }
    }
  }

  // ----- Valid states -----

  lemma ServeStaysValid(s: Sys, d: Drawn, feature: string, now: Instant)
    requires Valid(s) && Attempt(s.pool.keys, d, feature, now)
    ensures Valid(AfterServe(s, d))
    ensures forall i :: 0 <= i < |s.pool.keys| ==> d.pool.keys[i].row == s.pool.keys[i].row
  {
    forall i | 0 <= i < |s.pool.keys| ensures d.pool.keys[i].row == s.pool.keys[i].row {
      AttemptOnKey(s.pool.keys, d, feature, now, i);
    }
  }

  lemma ReportStaysValid(s: Sys, e: SpendEvent, now: Instant, up: bool)
    requires Valid(s)
    ensures Valid(AfterReport(s, e, now, up))
  {
    var ask := AskFor(s.pool.keys, e, now);
    var start := if ask.For? then Some(ask.start) else None;
    if RecordSpend(s.store, e, start).Recorded? { ReportKeepsUsage(s.store, e, start); }
  }

  lemma ExhaustedStaysValid(s: Sys, id: string, until: Instant, up: bool)
    requires Valid(s)
    ensures Valid(AfterExhausted(s, id, until, up))
  {}

  lemma StepStaysValid(s: Sys, step: Step)
    requires Valid(s) && (step.AdminWrite? ==> WellFormed(step.written))
    ensures Valid(Next(s, step))
  {
    match step {
      case DrawFor(feature, scope, now) =>
        DrawIsAttempt(s.pool, feature, scope, now);
        ServeStaysValid(s, Draw(s.pool, feature, scope, now), feature, now);
      case DrawKey(id, feature, scope, now) =>
        ByIdIsAttempt(s.pool, id, feature, scope, now);
        ServeStaysValid(s, ById(s.pool, id, feature, scope, now), feature, now);
      case BeginFlush =>
      case FlushKey(id, up) => if id in s.flight { StoreEntryApplies(s.store, id, s.flight[id]); }
      case ReportSpend(e, now, up) => ReportStaysValid(s, e, now, up);
      case LandAnswer(i) =>
      case MarkExhausted(id, until, up) => ExhaustedStaysValid(s, id, until, up);
      case ReloadKeys => ReloadPlaces(s.pool.keys, s.store, s.store.order);
      case AdminWrite(written) =>
      case Crash => ReloadPlaces([], s.store, s.store.order);
    }
  }

  // ----- The refinement -----

  lemma ServeStaysCoherent(s: Sys, d: Drawn, feature: string, now: Instant)
    requires Valid(s) && Coherent(s) && Attempt(s.pool.keys, d, feature, now)
    requires NoEmptyRollOver(s.pool.keys, now)
    ensures Coherent(AfterServe(s, d))
  {
    var after := AfterServe(s, d);
    ServeStaysValid(s, d, feature, now);
    forall i | 0 <= i < |s.pool.keys| ensures CoherentKey(after, d.pool.keys[i]) {
      if s.pool.keys[i].row.id in s.store.rows { ServedKeyStaysCoherent(s, d, feature, now, i); }
    }
    forall id | id in s.store.rows && Find(d.pool.keys, id).None? ensures id !in after.queue && id !in after.flight {
      assert Find(s.pool.keys, id).None?;
    }
  }

  lemma ServedKeyStaysCoherent(s: Sys, d: Drawn, feature: string, now: Instant, i: nat)
    requires Valid(s) && CoherentKeys(s) && Attempt(s.pool.keys, d, feature, now)
    requires NoEmptyRollOver(s.pool.keys, now) && i < |s.pool.keys| && s.pool.keys[i].row.id in s.store.rows
    ensures CoherentKey(AfterServe(s, d), d.pool.keys[i])
  {
    AttemptOnKey(s.pool.keys, d, feature, now, i);
    var k := s.pool.keys[i];
    assert CoherentKey(s, k);
    var row := ApplyEntry(s.flight, k.row.id, s.store.rows[k.row.id].usage);
    if d.outcome.Served? && d.outcome.index == i {
      ChargeMirrorsTheGate(k, feature, now, s.queue, row);
    } else if d.outcome.Served? {
      PersistOfAnother(s.queue, s.pool.keys[d.outcome.index].row.id, d.outcome.charge, k.row.id, row);
    }
  }

  /** A step that leaves the pool's usage and what the rows settle at alone. */
  lemma SameUsageStaysCoherent(s: Sys, after: Sys)
    requires Coherent(s)
    requires |after.pool.keys| == |s.pool.keys|
    requires forall i :: 0 <= i < |s.pool.keys| ==>
               after.pool.keys[i].row.id == s.pool.keys[i].row.id && after.pool.keys[i].usage == s.pool.keys[i].usage
    requires after.store.rows.Keys == s.store.rows.Keys && Featured(after.store)
    requires forall id :: id in s.store.rows ==> Settled(after, id) == Settled(s, id)
    requires after.queue.Keys + after.flight.Keys <= s.queue.Keys + s.flight.Keys
    ensures Coherent(after)
  {
    forall i | 0 <= i < |s.pool.keys| ensures CoherentKey(after, after.pool.keys[i]) {
      assert CoherentKey(s, s.pool.keys[i]);
    }
    forall id | id in after.store.rows && Find(after.pool.keys, id).None? ensures id !in after.queue && id !in after.flight {
      assert Find(s.pool.keys, id).None?;
      assert id !in s.queue.Keys + s.flight.Keys;
    }
  }

  lemma FlushStaysCoherent(s: Sys, id: string, up: bool)
    requires Coherent(s)
    ensures Coherent(AfterFlushKey(s, id, up))
  {
    var after := AfterFlushKey(s, id, up);
    if id in s.flight { StoreEntryApplies(s.store, id, s.flight[id]); }
    forall other | other in s.store.rows ensures Settled(after, other) == Settled(s, other) {
      FlushKeySettles(s, id, up, other);
    }
    SameUsageStaysCoherent(s, after);
  }

  /** A transaction on a row's spend leaves its usage columns alone. */
  lemma ReportKeepsUsage(s: Store, e: SpendEvent, start: Option<Instant>)
    requires WellFormed(s) && RecordSpend(s, e, start).Recorded?
    ensures var after := RecordSpend(s, e, start).store;
            && WellFormed(after) && after.rows.Keys == s.rows.Keys && after.tiers == s.tiers
            && forall id :: id in s.rows ==>
                 after.rows[id].usage == s.rows[id].usage && after.rows[id].key.tierId == s.rows[id].key.tierId
  {}

  lemma ReportStaysCoherent(s: Sys, e: SpendEvent, now: Instant, up: bool)
    requires Valid(s) && Coherent(s)
    ensures Coherent(AfterReport(s, e, now, up))
  {
    var after := AfterReport(s, e, now, up);
    var ask := AskFor(s.pool.keys, e, now);
    var start := if ask.For? then Some(ask.start) else None;
    if RecordSpend(s.store, e, start).Recorded? {
      ReportKeepsUsage(s.store, e, start);
    }
    SameUsageStaysCoherent(s, after);
  }

  lemma LandingStaysCoherent(s: Sys, i: nat)
    requires Coherent(s)
    ensures Coherent(AfterLanding(s, i))
  {
    SameUsageStaysCoherent(s, AfterLanding(s, i));
  }

  lemma ExhaustedStaysCoherent(s: Sys, id: string, until: Instant, up: bool)
    requires Valid(s) && Coherent(s)
    ensures Coherent(AfterExhausted(s, id, until, up))
  {
    var place := Find(s.pool.keys, id);
    if place.Some? {
      var k := s.pool.keys[place.value];
      var marked := WithKey(s, place.value, k.(row := k.row.(exhaustedUntil := Some(until))));
      SameUsageStaysCoherent(s, marked);
      if up {
        ExhaustedKeepsUsage(s.store, id, until);
        SameUsageStaysCoherent(marked, marked.(store := SetExhausted(s.store, id, until)));
      }
    }
  }

  lemma ExhaustedKeepsUsage(s: Store, id: string, until: Instant)
    ensures var after := SetExhausted(s, id, until);
            && after.rows.Keys == s.rows.Keys && after.tiers == s.tiers
            && forall other :: other in s.rows ==>
                 after.rows[other].usage == s.rows[other].usage && after.rows[other].key.tierId == s.rows[other].key.tierId
  {}

  lemma ReloadStaysCoherent(s: Sys)
    requires Valid(s) && Coherent(s)
    ensures Coherent(AfterReload(s))
  {
    ReloadKeepsExactlyIfEntersClean(s);
    ReloadPlaces(s.pool.keys, s.store, s.store.order);
  }

  lemma AdminStaysCoherent(s: Sys, written: Store)
    requires Valid(s) && Coherent(s) && AdminKeeps(s, written)
    ensures Coherent(s.(store := written))
  {
    var after := s.(store := written);
    forall i | 0 <= i < |s.pool.keys| ensures CoherentKey(after, s.pool.keys[i]) {
      assert CoherentKey(s, s.pool.keys[i]);
      assert Find(s.pool.keys, s.pool.keys[i].row.id).Some?;
    }
  }

  /** The keys of a boot stand as their rows do. */
  lemma BootedKeys(s: Store, keys: seq<Key>)
    requires WellFormed(s) && keys == ReloadFrom([], s, s.order)
    ensures DistinctIds(keys)
    ensures forall i :: 0 <= i < |keys| ==> keys[i].row.id in s.rows && keys[i].usage == s.rows[keys[i].row.id].usage
  {
    ReloadPlaces([], s, s.order);
    forall i | 0 <= i < |keys| ensures keys[i].row.id in s.rows && keys[i].usage == s.rows[keys[i].row.id].usage {
      assert keys[i] == Reloaded([], s, keys[i].row.id);
    }
  }

  /** A state with nothing queued whose keys stand as their rows do. */
  lemma BootedIsCoherent(s: Sys)
    requires Featured(s.store) && s.queue == map[] && s.flight == map[]
    requires forall i :: 0 <= i < |s.pool.keys| ==>
               s.pool.keys[i].row.id in s.store.rows && s.pool.keys[i].usage == s.store.rows[s.pool.keys[i].row.id].usage
    ensures Coherent(s)
  {
    forall i | 0 <= i < |s.pool.keys| ensures CoherentKey(s, s.pool.keys[i]) {}
  }

  lemma CrashIsCoherent(s: Sys)
    requires WellFormed(s.store) && Featured(s.store)
    ensures Valid(Next(s, Crash)) && Coherent(Next(s, Crash))
  {
    BootedKeys(s.store, Next(s, Crash).pool.keys);
    BootedIsCoherent(Next(s, Crash));
  }

  lemma StepStaysCoherent(s: Sys, step: Step)
    requires Valid(s) && Coherent(s) && Orderly(s, step)
    ensures Valid(Next(s, step)) && Coherent(Next(s, step))
  {
    StepStaysValid(s, step);
    match step {
      case DrawFor(feature, scope, now) =>
        DrawIsAttempt(s.pool, feature, scope, now);
        ServeStaysCoherent(s, Draw(s.pool, feature, scope, now), feature, now);
      case DrawKey(id, feature, scope, now) =>
        ByIdIsAttempt(s.pool, id, feature, scope, now);
        ServeStaysCoherent(s, ById(s.pool, id, feature, scope, now), feature, now);
      case BeginFlush => SameUsageStaysCoherent(s, Next(s, step));
      case FlushKey(id, up) => FlushStaysCoherent(s, id, up);
      case ReportSpend(e, now, up) => ReportStaysCoherent(s, e, now, up);
      case LandAnswer(i) => LandingStaysCoherent(s, i);
      case MarkExhausted(id, until, up) => ExhaustedStaysCoherent(s, id, until, up);
      case ReloadKeys => ReloadStaysCoherent(s);
      case AdminWrite(written) => AdminStaysCoherent(s, written);
      case Crash => CrashIsCoherent(s);
    }
  }

  /** The write-behind refinement: in every reachable state, between any two store calls of a flush, after any
      failures, and between an admin write and its reload, row, in-flight entry and pending entry together are the
      pool's counter, for every pooled key that still has a row. */
  lemma {:induction false} QueueRefinesTheRows(s: Sys, steps: seq<Step>)
    requires Valid(s) && Coherent(s) && OrderlyRun(s, steps)
    ensures Valid(Run(s, steps)) && Coherent(Run(s, steps))
    decreases |steps|
  {
    if steps != [] {
      StepStaysCoherent(s, steps[0]);
      QueueRefinesTheRows(Next(s, steps[0]), steps[1..]);
    }
  }
}
