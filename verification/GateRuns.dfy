/** What the gates of one key guarantee over whole runs: calls of any gate in any order, as concurrent draws make
    them, with reloads and spend between them. */
module GateRuns {
  import opened Common
  import opened Keys
  import opened Window

  datatype GateStep =
    | RateCall(feature: string, now: Instant)
    | UsageCall(now: Instant)
    | Loading(row: KeyRow, features: map<string, FeatureLimit>, secrets: map<string, string>)
    | Holding(spent: real, start: Instant)

  function Next(k: Key, step: GateStep): Key {
    match step
    case RateCall(feature, now) => Keys.TryRate(k, feature, now).after
    case UsageCall(now) => TryUsage(k, now).after
    case Loading(row, features, secrets) => Load(k, row, features, secrets)
    case Holding(spent, start) => HoldSpend(k, spent, start)
  }

  function Run(k: Key, steps: seq<GateStep>): Key
    decreases |steps|
  {
    if steps == [] then k else Next(Run(k, Front(steps)), Last(steps))
  }

  /** The clock after a run that began at `from`. */
  function Clock(steps: seq<GateStep>, from: Instant): Instant
    decreases |steps|
  {
    if steps == [] then from
    else if Last(steps).RateCall? || Last(steps).UsageCall? then Last(steps).now
    else Clock(Front(steps), from)
  }

  /** The clock never goes back. */
  ghost predicate InTime(steps: seq<GateStep>, from: Instant)
    decreases |steps|
  {
    steps == [] || (InTime(Front(steps), from) && Clock(Front(steps), from) <= Clock(steps, from))
  }

  // ----- The rate limit -----

  /** Whenever the key has the feature, it is with this limit. */
  ghost predicate FixedRate(k: Key, steps: seq<GateStep>, feature: string, limit: FeatureLimit) {
    && (feature in k.features ==> k.features[feature] == limit)
    && forall i :: 0 <= i < |steps| && steps[i].Loading? && feature in steps[i].features ==>
         steps[i].features[feature] == limit
  }

  predicate Admits(k: Key, step: GateStep, feature: string) {
    step.RateCall? && step.feature == feature && Keys.TryRate(k, feature, step.now).ok
  }

  /** The calls of a feature its rate limit admitted, with the windows they fell in. */
  function Admitted(k: Key, steps: seq<GateStep>, feature: string): seq<Mark>
    decreases |steps|
  {
    if steps == [] then []
    else
      var before, last := Run(k, Front(steps)), Last(steps);
      Admitted(k, Front(steps), feature)
      + (if Admits(before, last, feature) && RateCounter(Next(before, last), feature).start.Some?
         then [Mark(last.now, RateCounter(Next(before, last), feature).start.value)] else [])
  }

  lemma {:induction false} LimitStaysFixed(k: Key, steps: seq<GateStep>, feature: string, limit: FeatureLimit)
    requires FixedRate(k, steps, feature, limit)
    ensures feature in Run(k, steps).features ==> Run(k, steps).features[feature] == limit
    decreases |steps|
  {
    if steps != [] {
      LimitStaysFixed(k, Front(steps), feature, limit);
    }
  }

  /** A counter as a key starts out with it: none, or one whose window began in the past. */
  predicate FreshCounter(c: Counter, clock: Instant) {
    c.count >= 0 && (c.start.Some? ==> c.start.value <= clock)
  }

  /** Over any run the admitted calls are logged: each in its window, windows at least a width apart, none with more
      than the limit. */
  lemma {:induction false} RateIsLogged(k: Key, steps: seq<GateStep>, feature: string, limit: FeatureLimit, from: Instant)
    requires FixedRate(k, steps, feature, limit) && InTime(steps, from)
    requires FreshCounter(RateCounter(k, feature), from)
    ensures Recorded(RateCounter(k, feature), RateCounter(Run(k, steps), feature), Admitted(k, steps, feature),
                     limit.rateLimit, limit.Window(), Clock(steps, from))
    decreases |steps|
  {
    if steps == [] {
      NothingRecorded(RateCounter(k, feature), limit.rateLimit, limit.Window(), from);
    } else {
      var before, last := Run(k, Front(steps)), Last(steps);
      RateIsLogged(k, Front(steps), feature, limit, from);
      LimitStaysFixed(k, Front(steps), feature, limit);
      RateStepIsLogged(RateCounter(k, feature), before, Admitted(k, Front(steps), feature), last, feature, limit,
                       Clock(Front(steps), from), Clock(steps, from));
    }
  }

  lemma RateStepIsLogged(first: Counter, k: Key, log: seq<Mark>, step: GateStep, feature: string, limit: FeatureLimit,
                         clock: Instant, later: Instant)
    requires feature in k.features ==> k.features[feature] == limit
    requires Recorded(first, RateCounter(k, feature), log, limit.rateLimit, limit.Window(), clock)
    requires clock <= later && ((step.RateCall? || step.UsageCall?) ==> later == step.now)
    ensures var after := RateCounter(Next(k, step), feature);
            Recorded(first, after, log + (if Admits(k, step, feature) && after.start.Some?
                                          then [Mark(step.now, after.start.value)] else []),
                     limit.rateLimit, limit.Window(), later)
  {
    assert log + [] == log;
    if step.RateCall? && step.feature == feature && feature in k.features {
      HitIsRecorded(first, RateCounter(k, feature), log, limit.rateLimit, limit.Window(), clock, later);
    } else {
      assert RateCounter(Next(k, step), feature) == RateCounter(k, feature);
    }
  }

  /** The sliding rate bound: in every run, reloads included, any interval holds at most
      (ceil(length / window) + 1) * limit admitted calls of a feature, and every window at most the limit, what it
      held before the run included. */
  lemma RateIsBounded(k: Key, steps: seq<GateStep>, feature: string, limit: FeatureLimit, from: Instant,
                      begin: Instant, length: nat, w: Instant)
    requires FixedRate(k, steps, feature, limit) && InTime(steps, from)
    requires FreshCounter(RateCounter(k, feature), from)
    ensures var width := if limit.windowSeconds > 0 then limit.windowSeconds * 1_000_000_000 else 60_000_000_000;
            CallsWithin(Admitted(k, steps, feature), begin, begin + length)
            <= (CeilDiv(length, width) + 1) * (if limit.rateLimit < 0 then 0 else limit.rateLimit)
    ensures var calls := CallsOf(Admitted(k, steps, feature), w);
            calls == 0 || calls + HeldAtFirst(RateCounter(k, feature), w) <= limit.rateLimit
  {
    RateIsLogged(k, steps, feature, limit, from);
    RecordIsBounded(RateCounter(k, feature), RateCounter(Run(k, steps), feature), Admitted(k, steps, feature),
                    limit.rateLimit, limit.Window(), Clock(steps, from), begin, length, w);
  }

  lemma {:induction false} RateIsExact(k: Key, steps: seq<GateStep>, feature: string, limit: FeatureLimit, from: Instant)
    requires FixedRate(k, steps, feature, limit) && InTime(steps, from)
    requires FreshCounter(RateCounter(k, feature), from)
    ensures Exact(RateCounter(k, feature), RateCounter(Run(k, steps), feature), Admitted(k, steps, feature))
    decreases |steps|
  {
    if steps != [] {
      var before, last := Run(k, Front(steps)), Last(steps);
      var log := Admitted(k, Front(steps), feature);
      RateIsExact(k, Front(steps), feature, limit, from);
      RateIsLogged(k, Front(steps), feature, limit, from);
      LimitStaysFixed(k, Front(steps), feature, limit);
      RateStepIsExact(RateCounter(k, feature), before, log, last, feature, limit);
    }
  }

  lemma RateStepIsExact(first: Counter, k: Key, log: seq<Mark>, step: GateStep, feature: string, limit: FeatureLimit)
    requires feature in k.features ==> k.features[feature] == limit
    requires Accounted(first, RateCounter(k, feature), log, limit.rateLimit) && Exact(first, RateCounter(k, feature), log)
    ensures var after := RateCounter(Next(k, step), feature);
            Exact(first, after, log + (if Admits(k, step, feature) && after.start.Some?
                                       then [Mark(step.now, after.start.value)] else []))
  {
    assert log + [] == log;
    if step.RateCall? && step.feature == feature && feature in k.features {
      HitIsExact(first, RateCounter(k, feature), log, limit.rateLimit, limit.Window(), step.now);
    } else {
      assert RateCounter(Next(k, step), feature) == RateCounter(k, feature);
    }
  }

  /** The rate gate by its history: after any run a call is admitted exactly if the window in force holds fewer calls
      than the limit, those it held before the run and those admitted since; and that is what the listing reports. */
  lemma AdmittedByHistory(k: Key, steps: seq<GateStep>, feature: string, limit: FeatureLimit, from: Instant, now: Instant)
    requires FixedRate(k, steps, feature, limit) && InTime(steps, from)
    requires FreshCounter(RateCounter(k, feature), from) && feature in Run(k, steps).features
    ensures var width := if limit.windowSeconds > 0 then limit.windowSeconds * 1_000_000_000 else 60_000_000_000;
            var start := RateCounter(Run(k, steps), feature).start;
            var calls := if start.Some? && now - start.value < width
                         then CallsOf(Admitted(k, steps, feature), start.value)
                              + HeldAtFirst(RateCounter(k, feature), start.value)
                         else 0;
            && (Keys.TryRate(Run(k, steps), feature, now).ok <==> calls < limit.rateLimit)
            && RateUsageOf(Run(k, steps), feature, now) == RateInfo(calls, limit.rateLimit, limit.windowSeconds)
  {
    RateIsExact(k, steps, feature, limit, from);
    LimitStaysFixed(k, steps, feature, limit);
    RateCallByColumns(Run(k, steps), feature, now);
  }

  // ----- The usage cap -----

  /** The columns hold this cap: a window of so many nanoseconds, or none. */
  predicate HasCap(row: KeyRow, limit: int, width: Option<int>) {
    && row.usageLimit == Some(limit)
    && width == if row.usageWindowSeconds.Some? && row.usageWindowSeconds.value > 0
                then Some(row.usageWindowSeconds.value * 1_000_000_000) else None
  }

  /** The key keeps its cap and its window. */
  ghost predicate FixedCap(k: Key, steps: seq<GateStep>, limit: int, width: Option<int>) {
    && HasCap(k.row, limit, width)
    && forall i :: 0 <= i < |steps| && steps[i].Loading? ==> HasCap(steps[i].row, limit, width)
  }

  predicate Uses(k: Key, step: GateStep) {
    step.UsageCall? && TryUsage(k, step.now).ok
  }

  /** The calls the usage cap let through, with the windows they fell in. */
  function LetThrough(k: Key, steps: seq<GateStep>): seq<Mark>
    decreases |steps|
  {
    if steps == [] then []
    else
      var before, last := Run(k, Front(steps)), Last(steps);
      LetThrough(k, Front(steps))
      + (if Uses(before, last) && Next(before, last).usage.start.Some?
         then [Mark(last.now, Next(before, last).usage.start.value)] else [])
  }

  function TimesLetThrough(k: Key, steps: seq<GateStep>): nat
    decreases |steps|
  {
    if steps == [] then 0
    else TimesLetThrough(k, Front(steps)) + (if Uses(Run(k, Front(steps)), Last(steps)) then 1 else 0)
  }

  lemma {:induction false} CapStaysFixed(k: Key, steps: seq<GateStep>, limit: int, width: Option<int>)
    requires FixedCap(k, steps, limit, width)
    ensures HasCap(Run(k, steps).row, limit, width)
    decreases |steps|
  {
    if steps != [] {
      CapStaysFixed(k, Front(steps), limit, width);
    }
  }

  lemma {:induction false} UsageIsLogged(k: Key, steps: seq<GateStep>, limit: int, width: int, from: Instant)
    requires FixedCap(k, steps, limit, Some(width)) && InTime(steps, from)
    requires FreshCounter(k.usage, from)
    ensures Recorded(k.usage, Run(k, steps).usage, LetThrough(k, steps), limit, width, Clock(steps, from))
    decreases |steps|
  {
    if steps == [] {
      NothingRecorded(k.usage, limit, width, from);
    } else {
      var before, last := Run(k, Front(steps)), Last(steps);
      UsageIsLogged(k, Front(steps), limit, width, from);
      CapStaysFixed(k, Front(steps), limit, Some(width));
      UsageStepIsLogged(k.usage, before, LetThrough(k, Front(steps)), last, limit, width,
                        Clock(Front(steps), from), Clock(steps, from));
    }
  }

  lemma CapIsTheGates(row: KeyRow, limit: int, width: Option<int>)
    requires HasCap(row, limit, width)
    ensures row.usageLimit == Some(limit) && UsageWidth(row) == width
  {}

  /** A usage call is a hit of the key's counter. */
  lemma UsageCallIsAHit(k: Key, limit: int, width: Option<int>, now: Instant)
    requires HasCap(k.row, limit, width)
    ensures var hit := TryHit(k.usage, limit, width, now);
            TryUsage(k, now).after.usage == hit.after && TryUsage(k, now).ok == hit.ok
  {
    CapIsTheGates(k.row, limit, width);
  }

  lemma UsageStepIsLogged(first: Counter, k: Key, log: seq<Mark>, step: GateStep, limit: int, width: int,
                          clock: Instant, later: Instant)
    requires HasCap(k.row, limit, Some(width))
    requires Recorded(first, k.usage, log, limit, width, clock)
    requires clock <= later && ((step.RateCall? || step.UsageCall?) ==> later == step.now)
    ensures var after := Next(k, step).usage;
            Recorded(first, after, log + (if Uses(k, step) && after.start.Some?
                                          then [Mark(step.now, after.start.value)] else []), limit, width, later)
  {
    assert log + [] == log;
    if step.UsageCall? {
      UsageCallIsAHit(k, limit, Some(width), later);
      HitIsRecorded(first, k.usage, log, limit, width, clock, later);
    } else {
      assert Next(k, step).usage == k.usage;
    }
  }

  lemma UsageStepIsExact(first: Counter, k: Key, log: seq<Mark>, step: GateStep, limit: int, width: int)
    requires HasCap(k.row, limit, Some(width)) && Accounted(first, k.usage, log, limit) && Exact(first, k.usage, log)
    ensures var after := Next(k, step).usage;
            Exact(first, after, log + (if Uses(k, step) && after.start.Some?
                                       then [Mark(step.now, after.start.value)] else []))
  {
    assert log + [] == log;
    if step.UsageCall? {
      UsageCallIsAHit(k, limit, Some(width), step.now);
      HitIsExact(first, k.usage, log, limit, width, step.now);
    } else {
      assert Next(k, step).usage == k.usage;
    }
  }

  lemma {:induction false} UsageIsExact(k: Key, steps: seq<GateStep>, limit: int, width: int, from: Instant)
    requires FixedCap(k, steps, limit, Some(width)) && InTime(steps, from)
    requires FreshCounter(k.usage, from)
    ensures Exact(k.usage, Run(k, steps).usage, LetThrough(k, steps))
    decreases |steps|
  {
    if steps != [] {
      var before := Run(k, Front(steps));
      UsageIsExact(k, Front(steps), limit, width, from);
      UsageIsLogged(k, Front(steps), limit, width, from);
      CapStaysFixed(k, Front(steps), limit, Some(width));
      UsageStepIsExact(k.usage, before, LetThrough(k, Front(steps)), Last(steps), limit, width);
    }
  }

  /** A windowed cap by its history: after any run a call is let through exactly if the window in force holds fewer
      calls than the limit. */
  lemma LetThroughByHistory(k: Key, steps: seq<GateStep>, limit: int, width: int, from: Instant, now: Instant)
    requires FixedCap(k, steps, limit, Some(width)) && InTime(steps, from)
    requires FreshCounter(k.usage, from)
    ensures var start := Run(k, steps).usage.start;
            var calls := if start.Some? && now - start.value < width
                         then CallsOf(LetThrough(k, steps), start.value) + HeldAtFirst(k.usage, start.value) else 0;
            TryUsage(Run(k, steps), now).ok <==> calls < limit
  {
    UsageIsExact(k, steps, limit, width, from);
    CapStaysFixed(k, steps, limit, Some(width));
    UsageCallByColumns(Run(k, steps), now);
  }

  /** A windowed cap: no window ever lets more than its limit through, what it held before the run included; the call
      `limit` places after another falls in a later window; and any interval holds a bounded number. */
  lemma WindowedCapHolds(k: Key, steps: seq<GateStep>, limit: int, width: int, from: Instant, begin: Instant, length: nat,
                         w: Instant)
    requires FixedCap(k, steps, limit, Some(width)) && InTime(steps, from)
    requires FreshCounter(k.usage, from)
    ensures Spaced(LetThrough(k, steps), limit, width)
    ensures CallsWithin(LetThrough(k, steps), begin, begin + length)
            <= (CeilDiv(length, width) + 1) * (if limit < 0 then 0 else limit)
    ensures var calls := CallsOf(LetThrough(k, steps), w); calls == 0 || calls + HeldAtFirst(k.usage, w) <= limit
  {
    UsageIsLogged(k, steps, limit, width, from);
    RecordIsBounded(k.usage, Run(k, steps).usage, LetThrough(k, steps), limit, width, Clock(steps, from), begin, length, w);
  }

  /** A lifetime cap: what is let through is counted, and a call is let through exactly while the count is below the
      limit. */
  lemma {:induction false} LifetimeCapHolds(k: Key, steps: seq<GateStep>, limit: int)
    requires FixedCap(k, steps, limit, None)
    ensures Run(k, steps).usage.count == k.usage.count + TimesLetThrough(k, steps)
    ensures TimesLetThrough(k, steps) > 0 ==> Run(k, steps).usage.count <= limit
    ensures forall now :: TryUsage(Run(k, steps), now).ok <==> k.usage.count + TimesLetThrough(k, steps) < limit
    decreases |steps|
  {
    if steps != [] {
      CapStaysFixed(k, Front(steps), limit, None);
      LifetimeCapHolds(k, Front(steps), limit);
    }
    CapStaysFixed(k, steps, limit, None);
  }

  // ----- Draws are runs of gates -----

  /** What a draw does to a key it tries is a run of that key's two gates. */
  lemma TryIsARunOfGates(k: Key, feature: string, now: Instant)
    ensures var gates := if Keys.TryRate(k, feature, now).ok then [RateCall(feature, now), UsageCall(now)]
                         else [RateCall(feature, now)];
            Run(k, gates) == TryServe(k, feature, now).after
  {
    var one, two := [RateCall(feature, now)], [RateCall(feature, now), UsageCall(now)];
    assert Front(one) == [] && Run(k, []) == k;
    assert Run(k, one) == Next(k, RateCall(feature, now));
    assert Front(two) == one;
    assert Run(k, two) == Next(Run(k, one), UsageCall(now));
  }
}
