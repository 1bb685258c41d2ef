/** Two services that differ only in spend that counts the same: no caller can tell them apart. */
module SimilarRuns {
  import opened Common
  import opened Budgets
  import opened Keys
  import opened Pools
  import opened Stores
  import opened Writeback
  import opened System
  import opened HeldSpend

  // ----- Pools that differ only in spend that counts the same -----

  ghost predicate KeySimilar(a: Key, b: Key, from: Instant) {
    && b == a.(row := a.row.(spent := b.row.spent))
    && AgreeFrom(a.row.budget, a.row.spent, b.row.spent, from)
  }

  ghost predicate KeysSimilar(a: seq<Key>, b: seq<Key>, from: Instant) {
    |a| == |b| && forall i :: 0 <= i < |a| ==> KeySimilar(a[i], b[i], from)
  }

  ghost predicate NonNegative(s: Sys) {
    && (forall id :: id in s.store.rows ==> s.store.rows[id].key.spent.amount >= 0.0)
    && (forall a :: a in s.answers ==> a.spent >= 0.0)
  }

  ghost predicate Similar(a: Sys, b: Sys, from: Instant) {
    && b == a.(pool := b.pool)
    && b.pool.next == a.pool.next
    && KeysSimilar(a.pool.keys, b.pool.keys, from)
    && NonNegative(a)
  }

  lemma AgreeLater(b: Option<Budget>, x: Spent, y: Spent, from: Instant, later: Instant)
    requires AgreeFrom(b, x, y, from) && from <= later
    ensures AgreeFrom(b, x, y, later)
  {}

  lemma SimilarLater(a: Sys, b: Sys, from: Instant, later: Instant)
    requires Similar(a, b, from) && from <= later
    ensures Similar(a, b, later)
  {
    forall i | 0 <= i < |a.pool.keys| ensures KeySimilar(a.pool.keys[i], b.pool.keys[i], later) {
      AgreeLater(a.pool.keys[i].row.budget, a.pool.keys[i].row.spent, b.pool.keys[i].row.spent, from, later);
    }
  }

  /** Holding the same answer keeps two agreeing spends in agreement, whatever period the answer is for. */
  lemma HoldingKeepsAgreement(b: Option<Budget>, x: Spent, y: Spent, from: Instant, spent: real, start: Instant)
    requires AgreeFrom(b, x, y, from) && spent >= 0.0
    ensures AgreeFrom(b, HoldSpent(x, spent, start), HoldSpent(y, spent, start), from)
  {
    var x', y' := HoldSpent(x, spent, start), HoldSpent(y, spent, start);
    forall t: Instant | t >= from ensures SpentNow(b, x', t) == SpentNow(b, y', t) {
      assert SpentNow(b, x, t) == SpentNow(b, y, t);
    }
  }

  lemma SimilarKeysRateAlike(a: Key, b: Key, feature: string, now: Instant)
    requires b == a.(row := a.row.(spent := b.row.spent))
    ensures var ra, rb := TryRate(a, feature, now), TryRate(b, feature, now);
            ra.ok == rb.ok && ra.after == a.(rates := ra.after.rates) && rb.after == b.(rates := ra.after.rates)
  {}

  lemma SimilarKeysUseAlike(a: Key, b: Key, now: Instant)
    requires b == a.(row := a.row.(spent := b.row.spent))
    ensures var ua, ub := TryUsage(a, now), TryUsage(b, now);
            ua.ok == ub.ok && ua.reset == ub.reset
            && ua.after == a.(usage := ua.after.usage) && ub.after == b.(usage := ua.after.usage)
  {}

  lemma SimilarKeysTryAlike(a: Key, b: Key, feature: string, now: Instant)
    requires KeySimilar(a, b, now)
    ensures var ta, tb := TryServe(a, feature, now), TryServe(b, feature, now);
            ta.ok == tb.ok && ta.charge == tb.charge && KeySimilar(ta.after, tb.after, now)
  {
    SimilarKeysRateAlike(a, b, feature, now);
    SimilarKeysUseAlike(TryRate(a, feature, now).after, TryRate(b, feature, now).after, now);
  }

  lemma SimilarKeysOfferAlike(a: Key, b: Key, feature: string, scope: Scope, now: Instant)
    requires KeySimilar(a, b, now)
    ensures Offers(a, feature, scope) == Offers(b, feature, scope)
    ensures Available(a, now) == Available(b, now)
  {}

  lemma {:induction false} SimilarCandidates(a: seq<Key>, b: seq<Key>, feature: string, scope: Scope, now: Instant)
    requires KeysSimilar(a, b, now)
    ensures Candidates(a, feature, scope, now) == Candidates(b, feature, scope, now)
    decreases |a|
  {
    if a != [] {
      var last := |a| - 1;
      SimilarCandidates(a[..last], b[..last], feature, scope, now);
      SimilarKeysOfferAlike(a[last], b[last], feature, scope, now);
    }
  }

  ghost predicate DrawnAlike(a: Drawn, b: Drawn, now: Instant) {
    && a.outcome == b.outcome && a.pool.next == b.pool.next
    && KeysSimilar(a.pool.keys, b.pool.keys, now)
  }

  lemma {:induction false} SimilarRotation(a: Pool, b: Pool, places: seq<nat>, feature: string, now: Instant)
    requires KeysSimilar(a.keys, b.keys, now) && a.next == b.next && Places(places, a.keys)
    ensures DrawnAlike(Rotate(a, places, feature, now), Rotate(b, places, feature, now), now)
    decreases |places|
  {
    if places != [] {
      var i := a.next % |places|;
      var place := places[i];
      var ta, tb := TryServe(a.keys[place], feature, now), TryServe(b.keys[place], feature, now);
      SimilarKeysTryAlike(a.keys[place], b.keys[place], feature, now);
      var a', b' := Pool(a.keys[place := ta.after], Advance(a.next)), Pool(b.keys[place := tb.after], Advance(b.next));
      assert KeysSimilar(a'.keys, b'.keys, now);
      if !ta.ok {
        SimilarRotation(a', b', Pools.Without(places, i), feature, now);
      }
    }
  }

  lemma SimilarOffers(a: seq<Key>, b: seq<Key>, feature: string, scope: Scope, now: Instant)
    requires KeysSimilar(a, b, now)
    ensures (exists k :: k in a && Offers(k, feature, scope)) ==> (exists k :: k in b && Offers(k, feature, scope))
  {
    if k :| k in a && Offers(k, feature, scope) {
      var i :| 0 <= i < |a| && a[i] == k;
      SimilarKeysOfferAlike(a[i], b[i], feature, scope, now);
      assert b[i] in b;
    }
  }

  lemma SimilarBack(a: seq<Key>, b: seq<Key>, now: Instant)
    requires KeysSimilar(a, b, now)
    ensures KeysSimilar(b, a, now)
  {
    forall i | 0 <= i < |a| ensures KeySimilar(b[i], a[i], now) {
      assert KeySimilar(a[i], b[i], now);
    }
  }

  lemma SimilarDraws(a: Pool, b: Pool, feature: string, scope: Scope, now: Instant)
    requires KeysSimilar(a.keys, b.keys, now) && a.next == b.next
    ensures DrawnAlike(Draw(a, feature, scope, now), Draw(b, feature, scope, now), now)
  {
    SimilarCandidates(a.keys, b.keys, feature, scope, now);
    SimilarRotation(a, b, Candidates(a.keys, feature, scope, now), feature, now);
    SimilarBack(a.keys, b.keys, now);
    SimilarOffers(a.keys, b.keys, feature, scope, now);
    SimilarOffers(b.keys, a.keys, feature, scope, now);
  }

  lemma {:induction false} SimilarFind(a: seq<Key>, b: seq<Key>, id: string, from: Instant)
    requires KeysSimilar(a, b, from)
    ensures Find(a, id) == Find(b, id)
    decreases |a|
  {
    if a != [] {
      var last := |a| - 1;
      SimilarFind(a[..last], b[..last], id, from);
      assert KeySimilar(a[last], b[last], from);
    }
  }

  lemma SimilarById(a: Pool, b: Pool, id: string, feature: string, scope: Scope, now: Instant)
    requires KeysSimilar(a.keys, b.keys, now) && a.next == b.next
    ensures DrawnAlike(ById(a, id, feature, scope, now), ById(b, id, feature, scope, now), now)
  {
    SimilarFind(a.keys, b.keys, id, now);
    var place := Find(a.keys, id);
    if place.Some? {
      SimilarKeysOfferAlike(a.keys[place.value], b.keys[place.value], feature, scope, now);
      SimilarKeysTryAlike(a.keys[place.value], b.keys[place.value], feature, now);
    }
  }

  lemma SimilarServes(a: Sys, b: Sys, da: Drawn, db: Drawn, now: Instant)
    requires Similar(a, b, now) && DrawnAlike(da, db, now)
    ensures Similar(AfterServe(a, da), AfterServe(b, db), now)
    ensures ReplyOf(a.pool, da) == ReplyOf(b.pool, db)
  {
    if da.outcome.Served? && da.outcome.index < |a.pool.keys| {
      assert KeySimilar(a.pool.keys[da.outcome.index], b.pool.keys[da.outcome.index], now);
    }
  }

  lemma {:induction false} SimilarReloads(a: seq<Key>, b: seq<Key>, s: Store, order: seq<string>, from: Instant)
    requires KeysSimilar(a, b, from)
    ensures ReloadFrom(a, s, order) == ReloadFrom(b, s, order)
    decreases |order|
  {
    if order != [] {
      var id := Last(order);
      SimilarReloads(a, b, s, Front(order), from);
      SimilarFind(a, b, id, from);
      var place := Find(a, id);
      if place.Some? {
        assert KeySimilar(a[place.value], b[place.value], from);
      }
    }
  }

  lemma SameKeysAreSimilar(a: Sys, b: Sys, from: Instant)
    requires a == b && NonNegative(a)
    ensures Similar(a, b, from)
  {}

  /** Amounts an admin write and a report bring in are not negative. */
  predicate PositiveAmounts(step: Step) {
    && (step.ReportSpend? ==> step.event.amount > 0.0)
    && (step.AdminWrite? ==> forall id :: id in step.written.rows ==> step.written.rows[id].key.spent.amount >= 0.0)
  }

  lemma SimilarReports(a: Sys, b: Sys, e: SpendEvent, now: Instant, up: bool, from: Instant)
    requires Similar(a, b, from) && e.amount > 0.0
    ensures Similar(AfterReport(a, e, now, up), AfterReport(b, e, now, up), from)
    ensures SpendReplyTo(a, e, now, up) == SpendReplyTo(b, e, now, up)
  {
    SimilarFind(a.pool.keys, b.pool.keys, e.keyId, from);
    var place := Find(a.pool.keys, e.keyId);
    if place.Some? {
      assert KeySimilar(a.pool.keys[place.value], b.pool.keys[place.value], from);
    }
    assert AskFor(a.pool.keys, e, now) == AskFor(b.pool.keys, e, now);
    ReportStaysNonNegative(a, e, now, up);
  }

  lemma ReportStaysNonNegative(s: Sys, e: SpendEvent, now: Instant, up: bool)
    requires NonNegative(s) && e.amount > 0.0
    ensures NonNegative(AfterReport(s, e, now, up))
  {}

  lemma SimilarLandings(a: Sys, b: Sys, i: nat, from: Instant)
    requires Similar(a, b, from)
    ensures Similar(AfterLanding(a, i), AfterLanding(b, i), from)
  {
    if i < |a.answers| {
      var answer := a.answers[i];
      assert answer in a.answers;
      forall other | other in Pools.Without(a.answers, i) ensures other.spent >= 0.0 {
        WithoutMembers(a.answers, i, other);
      }
      SimilarFind(a.pool.keys, b.pool.keys, answer.id, from);
      var place := Find(a.pool.keys, answer.id);
      if place.Some? {
        var x, y := a.pool.keys[place.value], b.pool.keys[place.value];
        assert KeySimilar(x, y, from);
        HoldingKeepsAgreement(x.row.budget, x.row.spent, y.row.spent, from, answer.spent, answer.start);
      }
    }
  }

  lemma SimilarExhausted(a: Sys, b: Sys, id: string, until: Instant, up: bool, from: Instant)
    requires Similar(a, b, from)
    ensures Similar(AfterExhausted(a, id, until, up), AfterExhausted(b, id, until, up), from)
  {
    SimilarFind(a.pool.keys, b.pool.keys, id, from);
    var place := Find(a.pool.keys, id);
    if place.Some? {
      assert KeySimilar(a.pool.keys[place.value], b.pool.keys[place.value], from);
    }
  }

  lemma SimilarAfterReload(a: Sys, b: Sys, from: Instant)
    requires b == a.(pool := b.pool) && b.pool.next == a.pool.next && KeysSimilar(a.pool.keys, b.pool.keys, from)
    requires NonNegative(a)
    ensures Similar(AfterReload(a), AfterReload(b), from)
  {
    SimilarReloads(a.pool.keys, b.pool.keys, a.store, a.store.order, from);
    forall answer | answer in AfterReload(a).answers ensures answer.spent >= 0.0 {
      StillPooledMembers(a.answers, AfterReload(a).pool.keys, answer);
    }
    SameKeysAreSimilar(AfterReload(a), AfterReload(b), from);
  }

  lemma SimilarFlushes(a: Sys, b: Sys, id: string, up: bool, from: Instant)
    requires Similar(a, b, from)
    ensures Similar(AfterFlushKey(a, id, up), AfterFlushKey(b, id, up), from)
  {
    if id in a.flight { StoreEntryApplies(a.store, id, a.flight[id]); }
  }

  lemma SimilarDrawSteps(a: Sys, b: Sys, step: Step)
    requires step.DrawFor? || step.DrawKey?
    requires Similar(a, b, step.now)
    ensures Similar(Next(a, step), Next(b, step), step.now) && ReplyTo(a, step) == ReplyTo(b, step)
  {
    match step {
      case DrawFor(feature, scope, now) =>
        SimilarDraws(a.pool, b.pool, feature, scope, now);
        SimilarServes(a, b, Draw(a.pool, feature, scope, now), Draw(b.pool, feature, scope, now), now);
      case DrawKey(id, feature, scope, now) =>
        SimilarById(a.pool, b.pool, id, feature, scope, now);
        SimilarServes(a, b, ById(a.pool, id, feature, scope, now), ById(b.pool, id, feature, scope, now), now);
    }
  }

  lemma SimilarSteps(a: Sys, b: Sys, step: Step, from: Instant)
    requires Similar(a, b, from) && PositiveAmounts(step) && ClockAfter(step, from) >= from
    ensures Similar(Next(a, step), Next(b, step), ClockAfter(step, from))
    ensures ReplyTo(a, step) == ReplyTo(b, step)
  {
    SimilarLater(a, b, from, ClockAfter(step, from));
    match step {
      case BeginFlush =>
      case FlushKey(id, up) => SimilarFlushes(a, b, id, up, from);
      case ReportSpend(e, now, up) => SimilarReports(a, b, e, now, up, now);
      case LandAnswer(i) => SimilarLandings(a, b, i, from);
      case MarkExhausted(id, until, up) => SimilarExhausted(a, b, id, until, up, from);
      case ReloadKeys => SimilarAfterReload(a, b, from);
      case AdminWrite(written) =>
      case Crash => SameKeysAreSimilar(Next(a, Crash), Next(b, Crash), from);
      case _ => SimilarDrawSteps(a, b, step);
    }
  }

  ghost predicate PositiveRun(steps: seq<Step>) {
    forall i :: 0 <= i < |steps| ==> PositiveAmounts(steps[i])
  }

  /** Similar states answer every later draw alike. */
  lemma {:induction false} SimilarRunsReplyAlike(a: Sys, b: Sys, steps: seq<Step>, from: Instant)
    requires Similar(a, b, from) && InTime(steps, from) && PositiveRun(steps)
    ensures Replies(a, steps) == Replies(b, steps)
    decreases |steps|
  {
    if steps != [] {
      var clock := ClockAfter(steps[0], from);
      assert PositiveAmounts(steps[0]);
      SimilarSteps(a, b, steps[0], from);
      SimilarRunsReplyAlike(Next(a, steps[0]), Next(b, steps[0]), steps[1..], clock);
    }
  }
}
