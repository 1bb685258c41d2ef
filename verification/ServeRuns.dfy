/** The limits seen from outside: how often one key is served, over any run of the service, counted by the rate window
    of a feature or by the key's usage window. */
module ServeRuns {
  import opened Common
  import opened Keys
  import opened Pools
  import opened Stores
  import opened System
  import opened Refinement
  import Window

  type Mark = Window.Mark

  /** Which of a key's windows counts: the rate window of a feature, or the usage window. */
  datatype Meter = Rate(feature: string) | Cap

  function CounterIn(k: Key, meter: Meter): Counter {
    match meter
    case Rate(feature) => RateCounter(k, feature)
    case Cap => k.usage
  }

  /** The limit of the window and its width in nanoseconds, from the columns: of the feature if the key has it, or of a
      windowed cap. */
  predicate Limits(row: KeyRow, features: map<string, FeatureLimit>, meter: Meter, limit: int, width: int) {
    match meter
    case Rate(feature) =>
      feature in features ==>
        var l := features[feature];
        && l.rateLimit == limit
        && width == if l.windowSeconds > 0 then l.windowSeconds * 1_000_000_000 else 60_000_000_000
    case Cap =>
      && row.usageLimit == Some(limit) && row.usageWindowSeconds.Some? && row.usageWindowSeconds.value > 0
      && width == row.usageWindowSeconds.value * 1_000_000_000
  }

  /** The key is pooled with this limit. */
  ghost predicate Metered(s: Sys, id: string, meter: Meter, limit: int, width: int) {
    var place := Find(s.pool.keys, id);
    place.Some? && var k := s.pool.keys[place.value]; Limits(k.row, k.features, meter, limit, width)
  }

  /** A reload of this store keeps the key pooled and its limit. */
  ghost predicate StoreMeters(s: Store, id: string, meter: Meter, limit: int, width: int) {
    WellFormed(s) && id in s.order && Pooled(s, id) && Limits(s.rows[id].key, FeaturesOf(s, id), meter, limit, width)
  }

  /** The clock does not go back, the process does not restart, and no reload takes the key or its limit away. */
  ghost predicate KeepsLimit(s: Sys, step: Step, id: string, meter: Meter, limit: int, width: int, clock: Instant) {
    && !step.Crash?
    && (TimeOf(step).Some? ==> TimeOf(step).value >= clock)
    && (step.AdminWrite? ==> WellFormed(step.written))
    && (step.ReloadKeys? ==> StoreMeters(s.store, id, meter, limit, width))
  }

  ghost predicate LimitRun(s: Sys, steps: seq<Step>, id: string, meter: Meter, limit: int, width: int, clock: Instant)
    decreases |steps|
  {
    steps == [] ||
    (KeepsLimit(s, steps[0], id, meter, limit, width, clock)
     && LimitRun(Next(s, steps[0]), steps[1..], id, meter, limit, width, ClockAfter(steps[0], clock)))
  }

  function CounterOf(s: Sys, id: string, meter: Meter): Counter
    requires Find(s.pool.keys, id).Some?
  {
    CounterIn(s.pool.keys[Find(s.pool.keys, id).value], meter)
  }

  predicate Counts(meter: Meter, drawn: string) {
    meter.Rate? ==> meter.feature == drawn
  }

  predicate ServesFor(s: Sys, step: Step, id: string, meter: Meter) {
    (step.DrawFor? || step.DrawKey?) && Counts(meter, step.feature) && Serves(s, step) == Some(id)
  }

  /** A step's serve of the key that the meter counts, if it is one: when, and in which window. */
  function MarkOf(s: Sys, step: Step, id: string, meter: Meter): seq<Mark> {
    var after := Next(s, step);
    if ServesFor(s, step, id, meter) && Find(after.pool.keys, id).Some? && CounterOf(after, id, meter).start.Some?
    then [Window.Mark(TimeOf(step).value, CounterOf(after, id, meter).start.value)] else []
  }

  /** The serves of a run. */
  function ServesLogged(s: Sys, steps: seq<Step>, id: string, meter: Meter): seq<Mark>
    decreases |steps|
  {
    if steps == [] then []
    else MarkOf(s, steps[0], id, meter) + ServesLogged(Next(s, steps[0]), steps[1..], id, meter)
  }

  /** What the gates do to one counter of a key they are tried on. */
  lemma TryOnCounter(k: Key, drawn: string, now: Instant, meter: Meter, limit: int, width: int)
    requires Limits(k.row, k.features, meter, limit, width)
    ensures var t := TryServe(k, drawn, now);
            var hit := Window.TryHit(CounterIn(k, meter), limit, Some(width), now);
            || (CounterIn(t.after, meter) == CounterIn(k, meter) && !(t.ok && Counts(meter, drawn)))
            || (CounterIn(t.after, meter) == hit.after && (t.ok ==> hit.ok && Counts(meter, drawn)))
  {}

  lemma AttemptOnCounter(keys: seq<Key>, d: Drawn, drawn: string, now: Instant, i: nat, meter: Meter, limit: int, width: int)
    requires Attempt(keys, d, drawn, now) && i < |keys| && Limits(keys[i].row, keys[i].features, meter, limit, width)
    ensures var before, after := CounterIn(keys[i], meter), CounterIn(d.pool.keys[i], meter);
            var served := d.outcome.Served? && d.outcome.index == i && Counts(meter, drawn);
            var hit := Window.TryHit(before, limit, Some(width), now);
            (after == before && !served) || (after == hit.after && (served ==> hit.ok))
  {
    var places: seq<nat> :| AttemptAt(keys, d, drawn, now, places);
    assert TriedAtMostOnce(keys[i], d.pool.keys[i], i, places, d.outcome, drawn, now);
    TryOnCounter(keys[i], drawn, now, meter, limit, width);
  }

  /** A log of a counter that stood at `first` when it began, kept by the key's counter. */
  ghost predicate Kept(first: Counter, s: Sys, id: string, meter: Meter, log: seq<Mark>, limit: int, width: int,
                       clock: Instant) {
    && Metered(s, id, meter, limit, width)
    && Window.Recorded(first, CounterOf(s, id, meter), log, limit, width, clock)
  }

  lemma RecordedLater(first: Counter, c: Counter, log: seq<Mark>, limit: int, width: int, clock: Instant, later: Instant)
    requires Window.Recorded(first, c, log, limit, width, clock) && clock <= later
    ensures Window.Recorded(first, c, log, limit, width, later)
  {}

  /** The key's place and its limits survive a draw. */
  lemma ServeKeepsMetered(s: Sys, d: Drawn, drawn: string, now: Instant, id: string, meter: Meter, limit: int, width: int)
    requires Valid(s) && Metered(s, id, meter, limit, width) && Attempt(s.pool.keys, d, drawn, now)
    ensures Find(d.pool.keys, id) == Find(s.pool.keys, id)
    ensures Metered(AfterServe(s, d), id, meter, limit, width)
  {
    var i := Find(s.pool.keys, id).value;
    ServeStaysValid(s, d, drawn, now);
    FindIsSome(d.pool.keys, id, i);
    AttemptOnKey(s.pool.keys, d, drawn, now, i);
  }

  lemma ServeKeepsLog(first: Counter, s: Sys, d: Drawn, drawn: string, now: Instant, id: string, meter: Meter,
                      limit: int, width: int, clock: Instant, log: seq<Mark>)
    requires Valid(s) && Kept(first, s, id, meter, log, limit, width, clock)
    requires Attempt(s.pool.keys, d, drawn, now) && clock <= now
    ensures var after, served := AfterServe(s, d), Counts(meter, drawn) && ServedId(s.pool, d) == Some(id);
            && Metered(after, id, meter, limit, width)
            && (served ==> CounterOf(after, id, meter).start.Some?)
            && Kept(first, after, id, meter,
                    log + (if served then [Window.Mark(now, CounterOf(after, id, meter).start.value)] else []),
                    limit, width, now)
  {
    var i := Find(s.pool.keys, id).value;
    ServeKeepsMetered(s, d, drawn, now, id, meter, limit, width);
    AttemptOnCounter(s.pool.keys, d, drawn, now, i, meter, limit, width);
    assert ServedId(s.pool, d) == Some(id) <==> d.outcome.Served? && d.outcome.index == i;
    Window.HitIsRecorded(first, CounterOf(s, id, meter), log, limit, width, clock, now);
    RecordedLater(first, CounterOf(s, id, meter), log, limit, width, clock, now);
    assert log + [] == log;
  }

  /** Steps that leave the counters of the pool alone. */
  ghost predicate SameCounters(a: seq<Key>, b: seq<Key>) {
    |a| == |b| && forall i :: 0 <= i < |a| ==>
      && b[i] == a[i].(row := a[i].row.(spent := b[i].row.spent, exhaustedUntil := b[i].row.exhaustedUntil))
  }

  lemma LandingKeepsCounters(s: Sys, i: nat)
    ensures SameCounters(s.pool.keys, AfterLanding(s, i).pool.keys)
  {}

  lemma ExhaustedKeepsCounters(s: Sys, id: string, until: Instant, up: bool)
    ensures SameCounters(s.pool.keys, AfterExhausted(s, id, until, up).pool.keys)
  {}

  lemma OtherStepsKeepCounters(s: Sys, step: Step)
    requires !step.DrawFor? && !step.DrawKey? && !step.ReloadKeys? && !step.Crash?
    ensures SameCounters(s.pool.keys, Next(s, step).pool.keys)
  {
    match step {
      case BeginFlush =>
      case FlushKey(id, up) =>
      case ReportSpend(e, now, up) =>
      case LandAnswer(i) => LandingKeepsCounters(s, i);
      case MarkExhausted(id, until, up) => ExhaustedKeepsCounters(s, id, until, up);
      case AdminWrite(written) =>
    }
  }

  lemma SameCountersSameFind(a: seq<Key>, b: seq<Key>, id: string)
    requires SameCounters(a, b) && DistinctIds(a) && Find(a, id).Some?
    ensures Find(b, id) == Find(a, id)
  {
    FindIsSome(b, id, Find(a, id).value);
  }

  lemma SameCountersKeepLog(first: Counter, s: Sys, after: Sys, id: string, meter: Meter, limit: int, width: int,
                            clock: Instant, later: Instant, log: seq<Mark>)
    requires DistinctIds(s.pool.keys) && Kept(first, s, id, meter, log, limit, width, clock)
    requires SameCounters(s.pool.keys, after.pool.keys) && clock <= later
    ensures Kept(first, after, id, meter, log, limit, width, later)
  {
    SameCountersSameFind(s.pool.keys, after.pool.keys, id);
    var place := Find(s.pool.keys, id).value;
    assert after.pool.keys[place] == s.pool.keys[place].(row := after.pool.keys[place].row);
    RecordedLater(first, CounterOf(s, id, meter), log, limit, width, clock, later);
  }

  lemma ReloadKeepsLog(first: Counter, s: Sys, id: string, meter: Meter, limit: int, width: int, clock: Instant,
                       log: seq<Mark>)
    requires Kept(first, s, id, meter, log, limit, width, clock) && StoreMeters(s.store, id, meter, limit, width)
    ensures Kept(first, AfterReload(s), id, meter, log, limit, width, clock)
  {
    ReloadPlaces(s.pool.keys, s.store, s.store.order);
  }

  lemma OtherStepKeepsLog(first: Counter, s: Sys, step: Step, id: string, meter: Meter, limit: int, width: int,
                          clock: Instant, log: seq<Mark>)
    requires Valid(s) && Kept(first, s, id, meter, log, limit, width, clock)
    requires KeepsLimit(s, step, id, meter, limit, width, clock) && !step.DrawFor? && !step.DrawKey?
    ensures MarkOf(s, step, id, meter) == []
    ensures Kept(first, Next(s, step), id, meter, log + [], limit, width, ClockAfter(step, clock))
  {
    assert log + [] == log;
    if step.ReloadKeys? {
      ReloadKeepsLog(first, s, id, meter, limit, width, clock, log);
    } else {
      OtherStepsKeepCounters(s, step);
      SameCountersKeepLog(first, s, Next(s, step), id, meter, limit, width, clock, ClockAfter(step, clock), log);
    }
  }

  /** A draw of either kind, told by the state after it and whom it served. */
  lemma DrawKeepsLog(first: Counter, s: Sys, step: Step, d: Drawn, id: string, meter: Meter, limit: int, width: int,
                     clock: Instant, log: seq<Mark>)
    requires Valid(s) && Kept(first, s, id, meter, log, limit, width, clock)
    requires (step.DrawFor? || step.DrawKey?) && Attempt(s.pool.keys, d, step.feature, step.now) && clock <= step.now
    requires Next(s, step) == AfterServe(s, d) && Serves(s, step) == ServedId(s.pool, d)
    ensures Kept(first, Next(s, step), id, meter, log + MarkOf(s, step, id, meter), limit, width, step.now)
  {
    ServeKeepsLog(first, s, d, step.feature, step.now, id, meter, limit, width, clock, log);
  }

  lemma StepKeepsLog(first: Counter, s: Sys, step: Step, id: string, meter: Meter, limit: int, width: int,
                     clock: Instant, log: seq<Mark>)
    requires Valid(s) && Kept(first, s, id, meter, log, limit, width, clock)
    requires KeepsLimit(s, step, id, meter, limit, width, clock)
    ensures Kept(first, Next(s, step), id, meter, log + MarkOf(s, step, id, meter), limit, width, ClockAfter(step, clock))
  {
    match step {
      case DrawFor(drawn, scope, now) =>
        DrawIsAttempt(s.pool, drawn, scope, now);
        DrawKeepsLog(first, s, step, Draw(s.pool, drawn, scope, now), id, meter, limit, width, clock, log);
      case DrawKey(named, drawn, scope, now) =>
        ByIdIsAttempt(s.pool, named, drawn, scope, now);
        DrawKeepsLog(first, s, step, ById(s.pool, named, drawn, scope, now), id, meter, limit, width, clock, log);
      case _ =>
        OtherStepKeepsLog(first, s, step, id, meter, limit, width, clock, log);
    }
  }

  lemma Regroup<T>(a: seq<T>, b: seq<T>, c: seq<T>)
    ensures a + (b + c) == (a + b) + c
    ensures a + [] == a && [] + a == a
  {}

  /** The serves of a run extend the log it began with. */
  lemma {:induction false} RunKeepsLog(first: Counter, s: Sys, steps: seq<Step>, id: string, meter: Meter, limit: int,
                                       width: int, clock: Instant, log: seq<Mark>)
    returns (end: Counter, later: Instant, all: seq<Mark>)
    requires Valid(s) && Kept(first, s, id, meter, log, limit, width, clock)
    requires LimitRun(s, steps, id, meter, limit, width, clock)
    ensures all == log + ServesLogged(s, steps, id, meter)
    ensures Window.Recorded(first, end, all, limit, width, later)
    decreases |steps|
  {
    if steps == [] {
      end, later, all := CounterOf(s, id, meter), clock, log;
      Regroup(log, [], []);
    } else {
      var after, mark := Next(s, steps[0]), MarkOf(s, steps[0], id, meter);
      StepStaysValid(s, steps[0]);
      StepKeepsLog(first, s, steps[0], id, meter, limit, width, clock, log);
      end, later, all := RunKeepsLog(first, after, steps[1..], id, meter, limit, width, ClockAfter(steps[0], clock),
                                     log + mark);
      Regroup(log, mark, ServesLogged(after, steps[1..], id, meter));
    }
  }

  /** The bounds on serves: through draws of any kind, flushes, reports, admin writes and reloads that keep the key's
      limit, any interval serves the key at most (ceil(length / width) + 1) * limit times by this meter, and any window
      at most the limit, what it held before the run included. */
  lemma ServesAreBounded(s: Sys, steps: seq<Step>, id: string, meter: Meter, limit: int, width: int, clock: Instant,
                         begin: Instant, length: nat, w: Instant)
    requires Valid(s) && Metered(s, id, meter, limit, width) && LimitRun(s, steps, id, meter, limit, width, clock)
    requires width > 0 && CounterOf(s, id, meter).count >= 0
    requires CounterOf(s, id, meter).start.Some? ==> CounterOf(s, id, meter).start.value <= clock
    ensures Window.CallsWithin(ServesLogged(s, steps, id, meter), begin, begin + length)
            <= (Window.CeilDiv(length, width) + 1) * (if limit < 0 then 0 else limit)
    ensures var serves := Window.CallsOf(ServesLogged(s, steps, id, meter), w);
            serves == 0 || serves + Window.HeldAtFirst(CounterOf(s, id, meter), w) <= limit
  {
    var first := CounterOf(s, id, meter);
    Window.NothingRecorded(first, limit, width, clock);
    var end, later, all := RunKeepsLog(first, s, steps, id, meter, limit, width, clock, []);
    Regroup(ServesLogged(s, steps, id, meter), [], []);
    Window.RecordIsBounded(first, end, all, limit, width, later, begin, length, w);
  }
}
