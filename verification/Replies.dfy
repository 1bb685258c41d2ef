/** What callers are told, read from the columns of the keys and rows. */
module Replies {
  import opened Common
  import opened Calendar
  import opened Budgets
  import opened Keys
  import opened Pools
  import opened Stores
  import opened System
  import opened Refinement
  import opened HeldSpend

  // ----- Who can be served -----

  predicate InScope(k: Key, feature: string, scope: Scope) {
    (scope == None || k.row.tierId in scope.value) && feature in k.features
  }

  /** Active, not expired, not marked exhausted, and with budget left in the present period. */
  predicate IsOpen(row: KeyRow, now: Instant) {
    && row.isActive
    && (row.expiresAt.Some? ==> now < row.expiresAt.value)
    && (row.exhaustedUntil.Some? ==> row.exhaustedUntil.value <= now)
    && (row.budget.Some? ==>
          (if row.spent.period == Some(PeriodStart(row.budget.value, now)) then row.spent.amount else 0.0)
          < row.budget.value.amount)
  }

  /** Room in the rate window of the feature, which lasts windowSeconds or a minute, and under the usage limit, whose
      window lasts usageWindowSeconds or for good. */
  predicate HasCalls(k: Key, feature: string, now: Instant)
    requires feature in k.features
  {
    var limit, windowSeconds := k.features[feature], k.row.usageWindowSeconds;
    var width := if limit.windowSeconds > 0 then limit.windowSeconds * 1_000_000_000 else 60_000_000_000;
    && InForce(RateCounter(k, feature), width, now) < limit.rateLimit
    && (k.row.usageLimit.Some? ==>
          (if windowSeconds.Some? && windowSeconds.value > 0
           then InForce(k.usage, windowSeconds.value * 1_000_000_000, now) else k.usage.count)
          < k.row.usageLimit.value)
  }

  predicate IsFit(k: Key, feature: string, scope: Scope, now: Instant) {
    InScope(k, feature, scope) && IsOpen(k.row, now) && HasCalls(k, feature, now)
  }

  lemma OpenIsAvailable(k: Key, now: Instant)
    ensures Available(k, now) <==> IsOpen(k.row, now)
  {}

  lemma CallsAreRoom(k: Key, feature: string, now: Instant)
    requires feature in k.features
    ensures HasRoom(k, feature, now) <==> HasCalls(k, feature, now)
  {
    RateCallByColumns(k, feature, now);
    UsageCallByColumns(k, now);
    ServedExactlyWithRoom(k, feature, now);
  }

  lemma FitIsServable(k: Key, feature: string, scope: Scope, now: Instant)
    ensures Offers(k, feature, scope) <==> InScope(k, feature, scope)
    ensures Servable(k, feature, scope, now) <==> IsFit(k, feature, scope, now)
  {
    OpenIsAvailable(k, now);
    if feature in k.features { CallsAreRoom(k, feature, now); }
  }

  /** What a served caller gets of a key. */
  function Handed(k: Key): Reply {
    Given(k.row.id, k.row.keyValue, k.row.metadata, k.secrets)
  }

  // ----- Draws -----

  /** A draw of a named key: not found exactly if no pooled key has the id. */
  lemma UnpooledDrawTold(s: Sys, id: string, feature: string, scope: Scope, now: Instant)
    ensures ReplyTo(s, DrawKey(id, feature, scope, now)) == Some(NotGiven(NotFound))
            <==> forall i :: 0 <= i < |s.pool.keys| ==> s.pool.keys[i].row.id != id
  {}

  /** A draw of a pooled key: out of scope exactly if its tier is not in the caller's scope or lacks the feature, the
      key exactly if it is fit, and exhausted exactly otherwise. */
  lemma NamedDrawTold(s: Sys, i: nat, feature: string, scope: Scope, now: Instant)
    requires Valid(s) && i < |s.pool.keys|
    ensures var k := s.pool.keys[i];
            var draw := DrawKey(k.row.id, feature, scope, now);
            && ReplyTo(s, draw) == Some(if !InScope(k, feature, scope) then NotGiven(OutOfScope)
                                        else if IsFit(k, feature, scope, now) then Handed(k) else NotGiven(Exhausted))
            && (Serves(s, draw) == Some(k.row.id) <==> IsFit(k, feature, scope, now))
  {
    var k := s.pool.keys[i];
    FindIsSome(s.pool.keys, k.row.id, i);
    FitIsServable(k, feature, scope, now);
    ServedExactlyWithRoom(k, feature, now);
  }

  ghost predicate AnyInScope(keys: seq<Key>, feature: string, scope: Scope) {
    exists i :: 0 <= i < |keys| && InScope(keys[i], feature, scope)
  }

  ghost predicate AnyFit(keys: seq<Key>, feature: string, scope: Scope, now: Instant) {
    exists i :: 0 <= i < |keys| && IsFit(keys[i], feature, scope, now)
  }

  lemma AnyFitIsAnyServable(keys: seq<Key>, feature: string, scope: Scope, now: Instant)
    ensures AnyInScope(keys, feature, scope) <==> exists k :: k in keys && Offers(k, feature, scope)
    ensures AnyFit(keys, feature, scope, now) <==> AnyServable(keys, feature, scope, now)
  {
    forall i | 0 <= i < |keys|
      ensures Offers(keys[i], feature, scope) <==> InScope(keys[i], feature, scope)
      ensures Servable(keys[i], feature, scope, now) <==> IsFit(keys[i], feature, scope, now)
    {
      FitIsServable(keys[i], feature, scope, now);
    }
    if k :| k in keys && Offers(k, feature, scope) {
      var i :| 0 <= i < |keys| && keys[i] == k;
      assert InScope(keys[i], feature, scope);
    }
    if i :| 0 <= i < |keys| && InScope(keys[i], feature, scope) {
      assert keys[i] in keys && Offers(keys[i], feature, scope);
    }
  }

  /** A draw for a feature: out of scope exactly if no pooled key is in scope, exhausted exactly if some is but none is
      fit, and otherwise a fit key. */
  lemma DrawTold(s: Sys, feature: string, scope: Scope, now: Instant)
    ensures var reply, keys := ReplyTo(s, DrawFor(feature, scope, now)), s.pool.keys;
            && (reply == Some(NotGiven(OutOfScope)) <==> !AnyInScope(keys, feature, scope))
            && (reply == Some(NotGiven(Exhausted))
                <==> AnyInScope(keys, feature, scope) && !AnyFit(keys, feature, scope, now))
            && (AnyFit(keys, feature, scope, now) ==>
                  exists i :: 0 <= i < |keys| && IsFit(keys[i], feature, scope, now) && reply == Some(Handed(keys[i])))
  {
    DrawIsSoundAndComplete(s.pool, feature, scope, now);
    AnyFitIsAnyServable(s.pool.keys, feature, scope, now);
    var outcome := Draw(s.pool, feature, scope, now).outcome;
    if outcome.Served? {
      FitIsServable(s.pool.keys[outcome.index], feature, scope, now);
      assert AnyInScope(s.pool.keys, feature, scope);
    }
  }

  /** No draw of either kind serves a key that is not fit. */
  lemma ServedKeyIsFit(s: Sys, step: Step, id: string) returns (i: nat)
    requires Serves(s, step) == Some(id)
    ensures step.DrawFor? || step.DrawKey?
    ensures i < |s.pool.keys| && s.pool.keys[i].row.id == id
    ensures IsFit(s.pool.keys[i], step.feature, step.scope, step.now)
  {
    if step.DrawFor? {
      DrawIsSoundAndComplete(s.pool, step.feature, step.scope, step.now);
      i := Draw(s.pool, step.feature, step.scope, step.now).outcome.index;
    } else {
      i := Find(s.pool.keys, step.id).value;
      ServedExactlyWithRoom(s.pool.keys[i], step.feature, step.now);
    }
    FitIsServable(s.pool.keys[i], step.feature, step.scope, step.now);
  }

  // ----- Spend reports -----

  lemma UnpooledReportTold(s: Sys, e: SpendEvent, now: Instant, up: bool)
    requires forall i :: 0 <= i < |s.pool.keys| ==> s.pool.keys[i].row.id != e.keyId
    ensures SpendReplyTo(s, e, now, up) == UnknownKey && Next(s, ReportSpend(e, now, up)) == s
  {}

  /** Why a report for a pooled key is not answered: its unit is not the budget's, the database is not up, or the key
      has a budget and no row. */
  lemma ReportRefusedExactly(s: Sys, i: nat, e: SpendEvent, now: Instant, up: bool)
    requires Valid(s) && i < |s.pool.keys| && s.pool.keys[i].row.id == e.keyId
    ensures var reply, b := SpendReplyTo(s, e, now, up), s.pool.keys[i].row.budget;
            var mismatch := b.Some? && b.value.unit != e.unit;
            && (reply == UnitMismatch <==> mismatch)
            && (reply == Failed <==> !mismatch && !up)
            && (reply == UnknownKey <==> !mismatch && up && b.Some? && e.keyId !in s.store.rows)
            && (!reply.Told? ==> Next(s, ReportSpend(e, now, up)) == s)
  {
    FindIsSome(s.pool.keys, e.keyId, i);
  }

  /** What an answered report for a key with a budget is told: the row's total of the charged period as the step leaves
      it, which has grown by the amount exactly if the request was new; and when that period ends. */
  lemma ReportToldTheTotal(s: Sys, i: nat, e: SpendEvent, now: Instant, up: bool)
    requires Valid(s) && i < |s.pool.keys| && s.pool.keys[i].row.id == e.keyId
    requires s.pool.keys[i].row.budget.Some? && SpendReplyTo(s, e, now, up).Told?
    ensures var told, b := SpendReplyTo(s, e, now, up), s.pool.keys[i].row.budget.value;
            var after, p := Next(s, ReportSpend(e, now, up)), PeriodStart(b, now);
            && e.keyId in s.store.rows && e.keyId in after.store.rows
            && var row, row' := s.store.rows[e.keyId].key.spent, after.store.rows[e.keyId].key.spent;
               && told.spent == (if row'.period == Some(p) then row'.amount else 0.0)
               && told.spent == (if row.period == Some(p) then row.amount else 0.0)
                                + (if e.requestId in s.store.spendEvents then 0.0 else e.amount)
               && (told.duplicate <==> e.requestId in s.store.spendEvents)
               && told.resetsAt == NextReset(b, now)
               && after.answers == s.answers + [Answer(e.keyId, told.spent, p)]
  {
    FindIsSome(s.pool.keys, e.keyId, i);
  }

  /** The period a report is charged to, and when it ends: from the reset day of a month to that of the next around the
      instant of the report; for a budget without a reset day the one period that never ends. */
  lemma ChargedPeriod(b: Budget, now: Instant)
    requires ValidBudget(b)
    ensures b.resetDay.None? ==> PeriodStart(b, now) == 0 && NextReset(b, now) == None
    ensures b.resetDay.Some? ==>
              var day := b.resetDay.value;
              var month := PeriodMonth(day, now);
              && PeriodStart(b, now) == DayOfMonth(month, day) <= now < DayOfMonth(month + 1, day)
              && NextReset(b, now) == Some(DayOfMonth(month + 1, day))
  {
    if b.resetDay.Some? { PeriodIsAMonth(b, now); }
  }

  /** What an answered report for a key without a budget is told: no spend, no reset, and whether it was a duplicate. */
  lemma ReportWithoutBudgetTold(s: Sys, i: nat, e: SpendEvent, now: Instant, up: bool)
    requires Valid(s) && i < |s.pool.keys| && s.pool.keys[i].row.id == e.keyId && s.pool.keys[i].row.budget.None? && up
    ensures SpendReplyTo(s, e, now, up) == Told(0.0, None, e.requestId in s.store.spendEvents)
    ensures var after := Next(s, ReportSpend(e, now, up));
            after.store.rows == s.store.rows && after.answers == s.answers
            && after.store.spendEvents.Keys == s.store.spendEvents.Keys + {e.requestId}
  {
    FindIsSome(s.pool.keys, e.keyId, i);
  }

  // ----- Reloads -----

  /** One id comes before another. */
  ghost predicate ComesBefore(order: seq<string>, a: string, b: string) {
    exists x, y :: 0 <= x < y < |order| && order[x] == a && order[y] == b
  }

  lemma ComesBeforeInLonger(order: seq<string>, a: string, b: string)
    requires order != []
    ensures ComesBefore(Front(order), a, b) ==> ComesBefore(order, a, b)
    ensures a in Front(order) ==> ComesBefore(order, a, Last(order))
  {
    if ComesBefore(Front(order), a, b) {
      var x, y :| 0 <= x < y < |Front(order)| && Front(order)[x] == a && Front(order)[y] == b;
      assert order[x] == a && order[y] == b;
    }
    if a in Front(order) {
      var x :| 0 <= x < |Front(order)| && Front(order)[x] == a;
      assert order[x] == a && order[|order| - 1] == Last(order);
    }
  }

  ghost predicate InOrderOf(order: seq<string>, keys: seq<Key>) {
    && (forall i :: 0 <= i < |keys| ==> keys[i].row.id in order)
    && forall a, b :: 0 <= a < b < |keys| ==> ComesBefore(order, keys[a].row.id, keys[b].row.id)
  }

  lemma {:induction false} ReloadKeepsTheOrder(keys: seq<Key>, s: Store, order: seq<string>)
    requires WellFormed(s)
    ensures InOrderOf(order, ReloadFrom(keys, s, order))
    decreases |order|
  {
    if order != [] {
      var id, earlier := Last(order), ReloadFrom(keys, s, Front(order));
      var reloaded := ReloadFrom(keys, s, order);
      ReloadKeepsTheOrder(keys, s, Front(order));
      assert order == Front(order) + [id];
      assert |reloaded| > |earlier| ==> reloaded[|earlier|].row.id == id;
      forall a, b | 0 <= a < b < |reloaded| ensures ComesBefore(order, reloaded[a].row.id, reloaded[b].row.id) {
        assert reloaded[a] == earlier[a] && earlier[a].row.id in Front(order);
        if b < |earlier| { assert ComesBefore(Front(order), earlier[a].row.id, earlier[b].row.id); }
        ComesBeforeInLonger(order, reloaded[a].row.id, reloaded[b].row.id);
      }
    }
  }

  /** The pool after a reload: exactly the keys whose tier has features, in the order of the rows; each with its row, its
      tier's features and its secrets; and with the counters it had in the pool, or its row's if it is new there. Answers
      in flight for keys that are not pooled any more are held by nobody. */
  lemma ReloadedPool(s: Sys, id: string)
    requires Valid(s)
    ensures var keys, rows := AfterReload(s).pool.keys, s.store.rows;
            && AfterReload(s).pool.next == s.pool.next
            && ((exists i :: 0 <= i < |keys| && keys[i].row.id == id)
                <==> id in rows && rows[id].key.tierId in s.store.tiers && s.store.tiers[rows[id].key.tierId] != map[])
            && InOrderOf(s.store.order, keys)
            && (forall a: Answer :: a.id == id ==>
                  (a in AfterReload(s).answers
                   <==> a in s.answers && exists i :: 0 <= i < |keys| && keys[i].row.id == id))
  {
    forall a: Answer ensures a in AfterReload(s).answers <==> a in s.answers && Find(AfterReload(s).pool.keys, a.id).Some? {
      StillPooledMembers(s.answers, AfterReload(s).pool.keys, a);
    }
    ReloadPlaces(s.pool.keys, s.store, s.store.order);
    ReloadKeepsTheOrder(s.pool.keys, s.store, s.store.order);
  }

  lemma ReloadedKeyByColumns(s: Sys, i: nat)
    requires Valid(s) && i < |AfterReload(s).pool.keys|
    ensures var k := AfterReload(s).pool.keys[i];
            && k.row.id in s.store.rows && k.row == s.store.rows[k.row.id].key
            && k.row.tierId in s.store.tiers && k.features == s.store.tiers[k.row.tierId]
            && k.secrets == (if k.row.id in s.store.secrets then s.store.secrets[k.row.id] else map[])
            && (forall j :: 0 <= j < |s.pool.keys| && s.pool.keys[j].row.id == k.row.id ==>
                  k.usage == s.pool.keys[j].usage && k.rates == s.pool.keys[j].rates)
            && ((forall j :: 0 <= j < |s.pool.keys| ==> s.pool.keys[j].row.id != k.row.id) ==>
                  k.usage == s.store.rows[k.row.id].usage && k.rates == map[])
  {
    ReloadPlaces(s.pool.keys, s.store, s.store.order);
  }
}
