/** A pooled key: its configuration, its live counters and the gates a draw passes it through. */
module Keys {
  import opened Common
  import opened Budgets
  import Window

  type Counter = Window.Counter

  datatype FeatureLimit = FeatureLimit(rateLimit: int, windowSeconds: Int32) {
    function Window(): int {
      if windowSeconds <= 0 then MINUTE else windowSeconds * SECOND
    }
  }

  /** The columns of a key that a reload copies into the pool. */
  datatype KeyRow = KeyRow(
    id: string, name: string, keyValue: string, tierId: string, isActive: bool,
    expiresAt: Option<Instant>, usageLimit: Option<int>, usageWindowSeconds: Option<Int32>,
    exhaustedUntil: Option<Instant>, budget: Option<Budget>, spent: Spent, metadata: map<string, string>)

  /** The value of a PoolKey: what was loaded, then the counters that live only in memory. */
  datatype Key = Key(row: KeyRow, secrets: map<string, string>, features: map<string, FeatureLimit>,
                     usage: Counter, rates: map<string, Counter>)

  function Load(k: Key, row: KeyRow, features: map<string, FeatureLimit>, secrets: map<string, string>): Key {
    k.(row := row, features := features, secrets := secrets)
  }

  /** A counter never used starts empty at the Go zero time. */
  function RateCounter(k: Key, feature: string): Counter {
    if feature in k.rates then k.rates[feature] else Window.Counter(0, Some(ZERO_TIME))
  }

  datatype RateTry = RateTry(after: Key, ok: bool)

  function TryRate(k: Key, feature: string, now: Instant): RateTry {
    if feature !in k.features then RateTry(k, false)
    else
      var limit := k.features[feature];
      var hit := Window.TryHit(RateCounter(k, feature), limit.rateLimit, Some(limit.Window()), now);
      RateTry(k.(rates := k.rates[feature := hit.after]), hit.ok)
  }

  predicate Available(k: Key, now: Instant) {
    && k.row.isActive
    && (k.row.expiresAt.None? || now < k.row.expiresAt.value)
    && (k.row.exhaustedUntil.None? || now >= k.row.exhaustedUntil.value)
    && WithinBudget(k.row.budget, k.row.spent, now)
  }

  /** The width of the usage window; a lifetime cap has none. */
  function UsageWidth(row: KeyRow): Option<int> {
    if row.usageWindowSeconds.Some? && row.usageWindowSeconds.value > 0
    then Some(row.usageWindowSeconds.value * SECOND) else None
  }

  datatype UsageTry = UsageTry(after: Key, ok: bool, reset: Option<Instant>)

  function TryUsage(k: Key, now: Instant): UsageTry {
    if k.row.usageLimit.None? then UsageTry(k, true, None)
    else
      var hit := Window.TryHit(k.usage, k.row.usageLimit.value, UsageWidth(k.row), now);
      UsageTry(k.(usage := hit.after), hit.ok, if hit.reset then Some(now) else None)
  }

  /** What a serve leaves for the write-behind queue. */
  datatype Charge = Nothing | OneServe | NewWindow(start: Instant)

  datatype Try = Try(after: Key, ok: bool, charge: Charge)

  /** The two gates a draw puts a candidate through. */
  function TryServe(k: Key, feature: string, now: Instant): Try {
    var rate := TryRate(k, feature, now);
    if !rate.ok then Try(rate.after, false, Nothing)
    else
      var usage := TryUsage(rate.after, now);
      if !usage.ok then Try(usage.after, false, Nothing)
      else if k.row.usageLimit.None? then Try(usage.after, true, Nothing)
      else if usage.reset.Some? then Try(usage.after, true, NewWindow(usage.reset.value))
      else Try(usage.after, true, OneServe)
  }

  function HoldSpend(k: Key, spent: real, start: Instant): Key {
    k.(row := k.row.(spent := HoldSpent(k.row.spent, spent, start)))
  }

  datatype RateInfo = RateInfo(used: int, limit: int, windowSeconds: Int32)

  function RateUsageOf(k: Key, feature: string, now: Instant): RateInfo
    requires feature in k.features
  {
    var limit := k.features[feature];
    RateInfo(if feature in k.rates then Window.Used(k.rates[feature], Some(limit.Window()), now) else 0,
             limit.rateLimit, limit.windowSeconds)
  }

  // ----- What the gates mean -----

  /** The window's use is below its limit, both gates, read from the key before the draw. */
  predicate HasRoom(k: Key, feature: string, now: Instant) {
    && feature in k.features
    && Window.Used(RateCounter(k, feature), Some(k.features[feature].Window()), now) < k.features[feature].rateLimit
    && (k.row.usageLimit.Some? ==> Window.Used(k.usage, UsageWidth(k.row), now) < k.row.usageLimit.value)
  }

  lemma ServedExactlyWithRoom(k: Key, feature: string, now: Instant)
    ensures TryServe(k, feature, now).ok <==> HasRoom(k, feature, now)
  {}

  /** What a window of a width in nanoseconds holds at `now`: its count while it is in force, and nothing after. */
  function InForce(c: Counter, width: int, now: Instant): int {
    if c.start.Some? && now - c.start.value < width then c.count else 0
  }

  /** The rate gate's verdict and effect, from the columns of the limit: a window lasts windowSeconds, or a minute if
      that is not positive; a call passes below the limit and is counted in the window in force or in a new one. */
  lemma RateCallByColumns(k: Key, feature: string, now: Instant)
    requires feature in k.features
    ensures var limit, c := k.features[feature], RateCounter(k, feature);
            var width := if limit.windowSeconds > 0 then limit.windowSeconds * 1_000_000_000 else 60_000_000_000;
            var t := TryRate(k, feature, now);
            && (t.ok <==> InForce(c, width, now) < limit.rateLimit)
            && RateCounter(t.after, feature)
               == Window.Counter(InForce(c, width, now) + (if t.ok then 1 else 0),
                                 if c.start.Some? && now - c.start.value < width then c.start else Some(now))
  {}

  /** The usage gate's verdict and effect, from the columns of the key: without a limit it always passes and counts
      nothing; without a positive window the count is for life. */
  lemma UsageCallByColumns(k: Key, now: Instant)
    ensures var t, windowed := TryUsage(k, now), k.row.usageWindowSeconds.Some? && k.row.usageWindowSeconds.value > 0;
            var used := if windowed then InForce(k.usage, k.row.usageWindowSeconds.value * 1_000_000_000, now)
                        else k.usage.count;
            && (t.ok <==> k.row.usageLimit.Some? ==> used < k.row.usageLimit.value)
            && (k.row.usageLimit.None? ==> t.after.usage == k.usage)
            && (k.row.usageLimit.Some? ==> t.after.usage.count == used + (if t.ok then 1 else 0))
            && (k.row.usageLimit.Some? ==>
                  t.after.usage.start
                  == if windowed && !(k.usage.start.Some?
                                      && now - k.usage.start.value < k.row.usageWindowSeconds.value * 1_000_000_000)
                     then Some(now) else k.usage.start)
  {}

  /** The usage the admin listing reports is the one the gate counts against, for a clock past the Go zero time
      by the longest window. */
  lemma ReportedUsageIsTheGates(k: Key, feature: string, now: Instant)
    requires feature in k.features && now >= 0
    ensures TryRate(k, feature, now).ok <==>
            RateUsageOf(k, feature, now).used < RateUsageOf(k, feature, now).limit
  {}

  /** A gate changes its own counter and nothing else of the key. */
  lemma GatesTouchOnlyTheirCounters(k: Key, feature: string, now: Instant)
    ensures var rate := TryRate(k, feature, now).after;
            rate == k.(rates := rate.rates) && rate.rates - {feature} == k.rates - {feature}
    ensures var usage := TryUsage(k, now).after; usage == k.(usage := usage.usage)
    ensures k.row.usageLimit.None? ==> TryUsage(k, now).after == k
  {}

  /** A refused candidate has changed its rate counter for the feature and nothing else, exactly unless its
      usage window rolled over onto a limit that admits no call. */
  lemma RefusalChangesOnlyItsRateCounter(k: Key, feature: string, now: Instant)
    requires !TryServe(k, feature, now).ok
    ensures var after := TryServe(k, feature, now).after;
            (after == k.(rates := after.rates) && after.rates - {feature} == k.rates - {feature})
            <==> !(TryRate(k, feature, now).ok && RollsOverUnserved(k, now))
  {
    var rated := TryRate(k, feature, now).after;
    assert rated.rates - {feature} == k.rates - {feature};
  }

  /** A window due to roll over under a limit no call fits in. */
  predicate RollsOverUnserved(k: Key, now: Instant) {
    k.row.usageLimit.Some? && k.row.usageLimit.value <= 0 && Window.Elapsed(k.usage, UsageWidth(k.row), now)
  }

  class PoolKey {
    var id: string
    var name: string
    var keyValue: string
    var tierId: string
    var isActive: bool
    var expiresAt: Option<Instant>
    var usageLimit: Option<int>
    var usageCount: int
    var usageWindowSeconds: Option<Int32>
    var usageWindowStart: Option<Instant>
    var exhaustedUntil: Option<Instant>
    var budget: Option<Budget>
    var spent: real
    var spentPeriodStart: Option<Instant>
    var metadata: map<string, string>
    var secrets: map<string, string>
    var features: map<string, FeatureLimit>
    var rateCounters: map<string, Counter>

    ghost function View(): Key
      reads this
    {
      Key(KeyRow(id, name, keyValue, tierId, isActive, expiresAt, usageLimit, usageWindowSeconds,
                 exhaustedUntil, budget, Spent(spent, spentPeriodStart), metadata),
          secrets, features, Window.Counter(usageCount, usageWindowStart), rateCounters)
    }

    /** A key entering the pool: its counters come from the row, the rest from the first load. */
    constructor (row: KeyRow, features: map<string, FeatureLimit>, secrets: map<string, string>, usage: Counter)
      ensures View() == Key(row, secrets, features, usage, map[])
    {
      usageCount, usageWindowStart := usage.count, usage.start;
      rateCounters := map[];
      id, name, keyValue, tierId, isActive := row.id, row.name, row.keyValue, row.tierId, row.isActive;
      expiresAt, usageLimit, usageWindowSeconds := row.expiresAt, row.usageLimit, row.usageWindowSeconds;
      exhaustedUntil, budget := row.exhaustedUntil, row.budget;
      spent, spentPeriodStart := row.spent.amount, row.spent.period;
      metadata := row.metadata;
      this.secrets, this.features := secrets, features;
    }

    method Reload(row: KeyRow, features: map<string, FeatureLimit>, secrets: map<string, string>)
      modifies this
      ensures View() == Load(old(View()), row, features, secrets)
    {
      LoadIdentity(row);
      LoadLimits(row);
      LoadSpend(row);
      this.secrets, this.features := secrets, features;
    }

    method LoadIdentity(row: KeyRow)
      modifies `id, `name, `keyValue, `tierId, `isActive, `metadata
      ensures id == row.id && name == row.name && keyValue == row.keyValue && tierId == row.tierId
      ensures isActive == row.isActive && metadata == row.metadata
    {
      id, name, keyValue, tierId, isActive := row.id, row.name, row.keyValue, row.tierId, row.isActive;
      metadata := row.metadata;
    }

    method LoadLimits(row: KeyRow)
      modifies `expiresAt, `usageLimit, `usageWindowSeconds, `exhaustedUntil
      ensures expiresAt == row.expiresAt && usageLimit == row.usageLimit
      ensures usageWindowSeconds == row.usageWindowSeconds && exhaustedUntil == row.exhaustedUntil
    {
      expiresAt, usageLimit, usageWindowSeconds := row.expiresAt, row.usageLimit, row.usageWindowSeconds;
      exhaustedUntil := row.exhaustedUntil;
    }

    method LoadSpend(row: KeyRow)
      modifies `budget, `spent, `spentPeriodStart
      ensures budget == row.budget && Spent(spent, spentPeriodStart) == row.spent
    {
      budget, spent, spentPeriodStart := row.budget, row.spent.amount, row.spent.period;
    }

    method RateGate(feature: string, now: Instant) returns (ok: bool)
      modifies this
      ensures View() == TryRate(old(View()), feature, now).after
      ensures ok == TryRate(old(View()), feature, now).ok
    {
      if feature !in features {
        return false;
      }
      var limit := features[feature];
      var rc := Window.Counter(0, Some(ZERO_TIME));
      if feature in rateCounters {
        rc := rateCounters[feature];
      }
      if rc.start.None? || now - rc.start.value >= limit.Window() {
        rc := Window.Counter(0, Some(now));
      }
      ok := rc.count < limit.rateLimit;
      if ok {
        rc := rc.(count := rc.count + 1);
      }
      rateCounters := rateCounters[feature := rc];
    }

    method UsageGate(now: Instant) returns (ok: bool, reset: Option<Instant>)
      modifies this
      ensures View() == TryUsage(old(View()), now).after
      ensures ok == TryUsage(old(View()), now).ok && reset == TryUsage(old(View()), now).reset
    {
      reset := None;
      if usageLimit.None? {
        return true, None;
      }
      if usageWindowSeconds.Some? && usageWindowSeconds.value > 0 {
        var window := usageWindowSeconds.value * SECOND;
        if usageWindowStart.None? || now - usageWindowStart.value >= window {
          usageCount := 0;
          usageWindowStart := Some(now);
          reset := Some(now);
        }
      }
      if usageCount >= usageLimit.value {
        return false, reset;
      }
      usageCount := usageCount + 1;
      ok := true;
    }

    method Hold(spent: real, start: Instant)
      modifies this
      ensures View() == HoldSpend(old(View()), spent, start)
    {
      if spentPeriodStart.Some? && spentPeriodStart.value == start && spent < this.spent {
        return;
      }
      this.spent, spentPeriodStart := spent, Some(start);
    }

    method RateUsage(now: Instant) returns (usage: map<string, RateInfo>)
      ensures usage == map feature | feature in features :: RateUsageOf(View(), feature, now)
    {
      usage := map[];
      var todo := features.Keys;
      while todo != {}
        invariant todo <= features.Keys
        invariant usage == map feature | feature in features.Keys - todo :: RateUsageOf(View(), feature, now)
      {
        var feature :| feature in todo;
        var limit := features[feature];
        var info := RateInfo(0, limit.rateLimit, limit.windowSeconds);
        if feature in rateCounters && !Window.Elapsed(rateCounters[feature], Some(limit.Window()), now) {
          info := info.(used := rateCounters[feature].count);
        }
        usage := usage[feature := info];
        todo := todo - {feature};
      }
    }
  }
}
