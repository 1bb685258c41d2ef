/** The whole service as a machine: the database, the pool, the usage queue with a flush in flight, and the answers
    of spend transactions that have not reached the pool yet. Its steps are the atomic sections of the program. */
module System {
  import opened Common
  import opened Budgets
  import opened Keys
  import opened Pools
  import opened Stores
  import opened UsageQueue
  import opened Writeback

  /** What a spend transaction answered; the pool has yet to hold it. */
  datatype Answer = Answer(id: string, spent: real, start: Instant)

  datatype Sys = Sys(store: Store, pool: Pool, queue: Queue, flight: Queue, answers: seq<Answer>)

  /** Calls that reach the database say whether they found it `up`. An AdminWrite changes rows alone: its reload is a
      later ReloadKeys, or never comes when the reload fails. */
  datatype Step =
    | DrawFor(feature: string, scope: Scope, now: Instant)
    | DrawKey(id: string, feature: string, scope: Scope, now: Instant)
    | BeginFlush
    | FlushKey(id: string, up: bool)
    | ReportSpend(event: SpendEvent, now: Instant, up: bool)
    | LandAnswer(i: nat)
    | MarkExhausted(id: string, until: Instant, up: bool)
    | ReloadKeys
    | AdminWrite(written: Store)
    | Crash

  // ----- Reload -----

  /** A row in the pool: a known key keeps its counters, a new one takes the row's. */
  function Reloaded(keys: seq<Key>, s: Store, id: string): Key
    requires id in s.rows
  {
    var place := Find(keys, id);
    if place.Some? then Load(keys[place.value], s.rows[id].key, FeaturesOf(s, id), SecretsOf(s, id))
    else Key(s.rows[id].key, SecretsOf(s, id), FeaturesOf(s, id), s.rows[id].usage, map[])
  }

  /** Keys whose tier has no features stay out of the pool. */
  predicate Pooled(s: Store, id: string) {
    id in s.rows && FeaturesOf(s, id) != map[]
  }

  function ReloadFrom(keys: seq<Key>, s: Store, order: seq<string>): seq<Key>
    decreases |order|
  {
    if order == [] then []
    else
      var id := Last(order);
      ReloadFrom(keys, s, Front(order)) + (if Pooled(s, id) then [Reloaded(keys, s, id)] else [])
  }

  /** Answers to keys no longer pooled are held by nobody. */
  function StillPooled(answers: seq<Answer>, keys: seq<Key>): seq<Answer>
    decreases |answers|
  {
    if answers == [] then []
    else StillPooled(Front(answers), keys) + (if Find(keys, Last(answers).id).Some? then [Last(answers)] else [])
  }

  function AfterReload(s: Sys): Sys {
    var keys := ReloadFrom(s.pool.keys, s.store, s.store.order);
    s.(pool := s.pool.(keys := keys), answers := StillPooled(s.answers, keys))
  }

  // ----- The other steps -----

  function ServedId(pool: Pool, d: Drawn): Option<string> {
    if d.outcome.Served? && d.outcome.index < |pool.keys| then Some(pool.keys[d.outcome.index].row.id) else None
  }

  function AfterServe(s: Sys, d: Drawn): Sys {
    var id := ServedId(s.pool, d);
    s.(pool := d.pool, queue := if id.Some? then Persist(s.queue, id.value, d.outcome.charge) else s.queue)
  }

  function AfterFlushKey(s: Sys, id: string, up: bool): Sys {
    if id !in s.flight then s
    else if up then s.(store := StoreEntry(s.store, id, s.flight[id]), flight := s.flight - {id})
    else s.(queue := Requeue(s.queue, id, s.flight[id]), flight := s.flight - {id})
  }

  /** The period the pool computes for a report, or that it refuses the report. */
  datatype Ask = Unknown | OtherUnit | NoPeriod | For(start: Instant) {
    predicate Refused() {
      Unknown? || OtherUnit?
    }
  }

  function AskFor(keys: seq<Key>, e: SpendEvent, now: Instant): Ask {
    var place := Find(keys, e.keyId);
    if place.None? then Unknown
    else
      var budget := keys[place.value].row.budget;
      if budget.None? then NoPeriod
      else if e.unit != budget.value.unit then OtherUnit
      else For(PeriodStart(budget.value, now))
  }

  function AfterReport(s: Sys, e: SpendEvent, now: Instant, up: bool): Sys {
    var ask := AskFor(s.pool.keys, e, now);
    if !up || ask.Refused() then s
    else
      var r := RecordSpend(s.store, e, if ask.For? then Some(ask.start) else None);
      if r.KeyNotFound? then s
      else s.(store := r.store, answers := if ask.For? then s.answers + [Answer(e.keyId, r.spent, ask.start)] else s.answers)
  }

  /** What the caller of a report is told. */
  datatype SpendReply = Told(spent: real, resetsAt: Option<Instant>, duplicate: bool) | UnknownKey | UnitMismatch | Failed

  function SpendReplyTo(s: Sys, e: SpendEvent, now: Instant, up: bool): SpendReply {
    var ask := AskFor(s.pool.keys, e, now);
    if ask.Unknown? then UnknownKey
    else if ask.OtherUnit? then UnitMismatch
    else
      var r := RecordSpend(s.store, e, if ask.For? then Some(ask.start) else None);
      if !up then Failed
      else if r.KeyNotFound? then UnknownKey
      else
        var budget := s.pool.keys[Find(s.pool.keys, e.keyId).value].row.budget;
        Told(r.spent, if budget.Some? then NextReset(budget.value, now) else None, r.duplicate)
  }

  function WithKey(s: Sys, place: nat, k: Key): Sys
    requires place < |s.pool.keys|
  {
    s.(pool := s.pool.(keys := s.pool.keys[place := k]))
  }

  function AfterLanding(s: Sys, i: nat): Sys {
    if i >= |s.answers| then s
    else
      var a := s.answers[i];
      var landed := s.(answers := Without(s.answers, i));
      var place := Find(s.pool.keys, a.id);
      if place.None? then landed
      else WithKey(landed, place.value, HoldSpend(s.pool.keys[place.value], a.spent, a.start))
  }

  function AfterExhausted(s: Sys, id: string, until: Instant, up: bool): Sys {
    var place := Find(s.pool.keys, id);
    if place.None? then s
    else
      var k := s.pool.keys[place.value];
      WithKey(s, place.value, k.(row := k.row.(exhaustedUntil := Some(until))))
        .(store := if up then SetExhausted(s.store, id, until) else s.store)
  }

  function Next(s: Sys, step: Step): Sys {
    match step
    case DrawFor(feature, scope, now) => AfterServe(s, Draw(s.pool, feature, scope, now))
    case DrawKey(id, feature, scope, now) => AfterServe(s, ById(s.pool, id, feature, scope, now))
    case BeginFlush => s.(queue := map[], flight := s.queue)
    case FlushKey(id, up) => AfterFlushKey(s, id, up)
    case ReportSpend(e, now, up) => AfterReport(s, e, now, up)
    case LandAnswer(i) => AfterLanding(s, i)
    case MarkExhausted(id, until, up) => AfterExhausted(s, id, until, up)
    case ReloadKeys => AfterReload(s)
    case AdminWrite(written) => s.(store := written)
    case Crash => Sys(s.store, Pool(ReloadFrom([], s.store, s.store.order), 0), map[], map[], [])
  }

  /** The key a step serves, if any. */
  function Serves(s: Sys, step: Step): Option<string> {
    match step
    case DrawFor(feature, scope, now) => ServedId(s.pool, Draw(s.pool, feature, scope, now))
    case DrawKey(id, feature, scope, now) => ServedId(s.pool, ById(s.pool, id, feature, scope, now))
    case _ => None
  }

  /** What a caller is told: the key's value and what travels with it, why there is none, or where the spend stands. */
  datatype Reply = Given(id: string, keyValue: string, metadata: map<string, string>, secrets: map<string, string>)
                 | NotGiven(why: Outcome)
                 | Reported(spend: SpendReply)

  function ReplyOf(pool: Pool, d: Drawn): Reply {
    if d.outcome.Served? && d.outcome.index < |pool.keys| then
      var k := pool.keys[d.outcome.index];
      Given(k.row.id, k.row.keyValue, k.row.metadata, k.secrets)
    else NotGiven(d.outcome)
  }

  function ReplyTo(s: Sys, step: Step): Option<Reply> {
    match step
    case DrawFor(feature, scope, now) => Some(ReplyOf(s.pool, Draw(s.pool, feature, scope, now)))
    case DrawKey(id, feature, scope, now) => Some(ReplyOf(s.pool, ById(s.pool, id, feature, scope, now)))
    case ReportSpend(e, now, up) => Some(Reported(SpendReplyTo(s, e, now, up)))
    case _ => None
  }

  function Replies(s: Sys, steps: seq<Step>): seq<Option<Reply>>
    decreases |steps|
  {
    if steps == [] then [] else [ReplyTo(s, steps[0])] + Replies(Next(s, steps[0]), steps[1..])
  }

  function Run(s: Sys, steps: seq<Step>): Sys
    decreases |steps|
  {
    if steps == [] then s else Run(Next(s, steps[0]), steps[1..])
  }

  /** When a step happens; steps that do not read the clock happen at any time. */
  function TimeOf(step: Step): Option<Instant> {
    if step.DrawFor? || step.DrawKey? || step.ReportSpend? then Some(step.now) else None
  }

  function ClockAfter(step: Step, clock: Instant): Instant {
    if TimeOf(step).Some? then TimeOf(step).value else clock
  }

  /** The clock after a run. */
  function ClockAfterAll(steps: seq<Step>, clock: Instant): Instant
    decreases |steps|
  {
    if steps == [] then clock else ClockAfterAll(steps[1..], ClockAfter(steps[0], clock))
  }

  /** The clock never goes back. */
  ghost predicate InTime(steps: seq<Step>, from: Instant)
    decreases |steps|
  {
    steps == [] || (ClockAfter(steps[0], from) >= from && InTime(steps[1..], ClockAfter(steps[0], from)))
  }

  // ----- Well-formed states -----

  ghost predicate DistinctIds(keys: seq<Key>) {
    forall i, j :: 0 <= i < j < |keys| ==> keys[i].row.id != keys[j].row.id
  }

  ghost predicate Valid(s: Sys) {
    && WellFormed(s.store)
    && DistinctIds(s.pool.keys)
  }

  /** A key in the pool after a reload is the reloaded row, in order of creation, and every row with features is there. */
  lemma {:induction false} ReloadPlaces(keys: seq<Key>, s: Store, order: seq<string>)
    requires WellFormed(s)
    requires forall a, b :: 0 <= a < b < |order| ==> order[a] != order[b]
    ensures var reloaded := ReloadFrom(keys, s, order);
            && DistinctIds(reloaded)
            && (forall i :: 0 <= i < |reloaded| ==>
                  var id := reloaded[i].row.id; id in order && Pooled(s, id) && reloaded[i] == Reloaded(keys, s, id))
            && (forall id :: id in order && Pooled(s, id) ==> Find(reloaded, id).Some?)
    decreases |order|
  {
    if order != [] {
      var id, earlier := Last(order), ReloadFrom(keys, s, Front(order));
      ReloadPlaces(keys, s, Front(order));
      assert order == Front(order) + [id];
      var reloaded := ReloadFrom(keys, s, order);
      if Pooled(s, id) {
        assert Reloaded(keys, s, id).row.id == id;
        assert id !in Front(order);
      }
      forall other | other in order && Pooled(s, other) ensures Find(reloaded, other).Some? {
        FindIsSome(reloaded, other, if other == id then |reloaded| - 1 else Find(earlier, other).value);
      }
    }
  }

  /** A crash and the boot after it: a reload into an empty pool, with nothing queued or in flight. */
  lemma CrashIsABoot(s: Sys)
    ensures Next(s, Crash) == Next(Sys(s.store, Pool([], 0), map[], map[], []), ReloadKeys)
  {}

  lemma FindIsSome(keys: seq<Key>, id: string, place: nat)
    requires place < |keys| && keys[place].row.id == id
    ensures Find(keys, id).Some?
    ensures DistinctIds(keys) ==> Find(keys, id) == Some(place)
  {}
}
