/** The pool manager: its methods, each one step of the service. */
module Managers {
  import opened Common
  import opened Budgets
  import opened Keys
  import opened Pools
  import opened Stores
  import opened UsageQueue
  import opened Writeback
  import opened System

  class Manager {
    var keys: seq<PoolKey>
    var next: nat
    const store: Postgres
    const usage: Writer

    /** No key is in the pool twice. */
    ghost predicate Valid()
      reads this
    {
      forall i, j :: 0 <= i < j < |keys| ==> keys[i] != keys[j]
    }

    static ghost function Views(keys: seq<PoolKey>): (views: seq<Key>)
      reads keys
      ensures |views| == |keys|
      ensures forall i :: 0 <= i < |keys| ==> views[i] == keys[i].View()
    {
      seq(|keys|, i requires 0 <= i < |keys| reads keys => keys[i].View())
    }

    ghost function PoolView(): Pool
      reads this, keys
    {
      Pool(Views(keys), next)
    }

    /** The service with no flush in flight and these answers yet to land. */
    ghost function StateWith(answers: seq<Answer>): Sys
      reads this, keys, store, usage
    {
      Sys(store.View(), PoolView(), usage.usage, map[], answers)
    }

    ghost function State(): Sys
      reads this, keys, store, usage
    {
      StateWith([])
    }

    /** An empty pool; the first reload fills it. */
    constructor (store: Postgres, usage: Writer)
      ensures Valid() && keys == [] && next == 0 && this.store == store && this.usage == usage
    {
      keys, next := [], 0;
      this.store, this.usage := store, usage;
    }

    method FindKey(id: string) returns (place: Option<nat>)
      ensures place == Find(Views(keys), id)
    {
      for i := 0 to |keys|
        invariant forall j :: 0 <= j < i ==> keys[j].id != id
      {
        if keys[i].id == id {
          return Some(i);
        }
      }
      place := None;
    }

    /** One candidate meets the two gates. */
    static method TryKey(key: PoolKey, feature: string, now: Instant) returns (ok: bool, charge: Charge)
      modifies key
      ensures key.View() == TryServe(old(key.View()), feature, now).after
      ensures ok == TryServe(old(key.View()), feature, now).ok
      ensures charge == TryServe(old(key.View()), feature, now).charge
    {
      charge := Nothing;
      ok := key.RateGate(feature, now);
      if ok {
        var reset;
        ok, reset := key.UsageGate(now);
        if ok && key.usageLimit.Some? {
          charge := if reset.Some? then NewWindow(reset.value) else OneServe;
        }
      }
    }

    /** A candidate of this pool meets the gates; no other key changes, and a pass is what the caller is given. */
    method TryAt(key: PoolKey, ghost place: nat, feature: string, now: Instant)
      returns (ok: bool, charge: Charge, given: Reply)
      requires Valid() && place < |keys| && keys[place] == key
      modifies key
      ensures var t := TryServe(old(Views(keys))[place], feature, now);
              ok == t.ok && charge == t.charge && Views(keys) == old(Views(keys))[place := t.after]
      ensures given == Given(old(key.View()).row.id, old(key.View()).row.keyValue, old(key.View()).row.metadata,
                             old(key.View()).secrets)
    {
      ghost var views := Views(keys);
      GatesTouchOnlyTheirCounters(key.View(), feature, now);
      given := Given(key.id, key.keyValue, key.metadata, key.secrets);
      ok, charge := TryKey(key, feature, now);
      assert Views(keys) == views[place := TryServe(views[place], feature, now).after];
    }

    /** The keys are those at these places of the pool. */
    ghost predicate StandAt(available: seq<PoolKey>, places: seq<nat>)
      reads this
    {
      |available| == |places| && forall a :: 0 <= a < |places| ==> places[a] < |keys| && available[a] == keys[places[a]]
    }

    static ghost predicate AnyOffers(keys: seq<Key>, feature: string, scope: Scope) {
      exists k :: k in keys && Offers(k, feature, scope)
    }

    /** The search for available keys, having looked at the first `i`. */
    ghost predicate LookedAt(views: seq<Key>, i: nat, feature: string, scope: Scope, now: Instant,
                             available: seq<PoolKey>, offered: bool, places: seq<nat>)
      requires i <= |views|
      reads this
    {
      && places == Candidates(views[..i], feature, scope, now)
      && StandAt(available, places) && offered == AnyOffers(views[..i], feature, scope)
    }

    method LookAt(i: nat, feature: string, scope: Scope, now: Instant, found: seq<PoolKey>, offeredBefore: bool,
                  ghost foundPlaces: seq<nat>)
      returns (available: seq<PoolKey>, offered: bool, ghost places: seq<nat>)
      requires i < |keys| && LookedAt(Views(keys), i, feature, scope, now, found, offeredBefore, foundPlaces)
      ensures LookedAt(Views(keys), i + 1, feature, scope, now, available, offered, places)
    {
      OneMoreKey(Views(keys), i, feature, scope, now);
      var offers, ready := Readiness(keys[i], feature, scope, now);
      available, offered, places := found, offeredBefore || offers, foundPlaces;
      if offers && ready {
        available, places := found + [keys[i]], foundPlaces + [i];
      }
    }

    method AvailableKeys(feature: string, scope: Scope, now: Instant)
      returns (available: seq<PoolKey>, offered: bool, ghost places: seq<nat>)
      ensures places == Candidates(Views(keys), feature, scope, now)
      ensures StandAt(available, places) && offered == AnyOffers(Views(keys), feature, scope)
    {
      available, offered, places := [], false, [];
      for i := 0 to |keys|
        invariant LookedAt(Views(keys), i, feature, scope, now, available, offered, places)
      {
        available, offered, places := LookAt(i, feature, scope, now, available, offered, places);
      }
      assert Views(keys)[..|keys|] == Views(keys);
    }

    static method Readiness(key: PoolKey, feature: string, scope: Scope, now: Instant) returns (offers: bool, ready: bool)
      ensures offers == Offers(key.View(), feature, scope) && ready == Available(key.View(), now)
    {
      offers := (scope.None? || key.tierId in scope.value) && feature in key.features;
      ready := AvailableNow(key, now);
    }

    static lemma OneMoreKey(keys: seq<Key>, i: nat, feature: string, scope: Scope, now: Instant)
      requires i < |keys|
      ensures Candidates(keys[..i + 1], feature, scope, now)
              == Candidates(keys[..i], feature, scope, now) + (if Candidate(keys[i], feature, scope, now) then [i] else [])
      ensures AnyOffers(keys[..i + 1], feature, scope)
              == (AnyOffers(keys[..i], feature, scope) || Offers(keys[i], feature, scope))
    {
      assert keys[..i + 1] == keys[..i] + [keys[i]];
    }

    static predicate AvailableNow(key: PoolKey, now: Instant)
      reads key
      ensures AvailableNow(key, now) == Available(key.View(), now)
    {
      && key.isActive
      && (key.expiresAt.None? || now < key.expiresAt.value)
      && (key.exhaustedUntil.None? || now >= key.exhaustedUntil.value)
      && WithinBudget(key.budget, Spent(key.spent, key.spentPeriodStart), now)
    }

    /** The keys as loaded, whatever their counters. */
    static ghost predicate SameRows(a: seq<Key>, b: seq<Key>) {
      |a| == |b| && forall i :: 0 <= i < |a| ==> a[i].row == b[i].row && a[i].secrets == b[i].secrets
    }

    /** One turn of the draw's loop. */
    method RotateOnce(available: seq<PoolKey>, ghost places: seq<nat>, feature: string, now: Instant)
      returns (i: nat, ok: bool, id: string, charge: Charge, given: Reply)
      requires Valid() && StandAt(available, places) && |places| > 0
      modifies this`next, keys
      ensures keys == old(keys) && i < |places|
      ensures Places(Pools.Without(places, i), Views(keys))
      ensures Rotate(old(PoolView()), places, feature, now)
              == if ok then Drawn(PoolView(), Served(places[i], charge))
                 else Rotate(PoolView(), Pools.Without(places, i), feature, now)
      ensures id == Views(keys)[places[i]].row.id
      ensures var k := Views(keys)[places[i]]; given == Given(k.row.id, k.row.keyValue, k.row.metadata, k.secrets)
    {
      i := next % |available|;
      next := (next + 1) % TWO_TO_64;
      var key := available[i];
      id := key.id;
      GatesTouchOnlyTheirCounters(key.View(), feature, now);
      ok, charge, given := TryAt(key, places[i], feature, now);
    }

    static lemma {:induction false} RotationKeepsRows(pool: Pool, places: seq<nat>, feature: string, now: Instant)
      requires Places(places, pool.keys)
      ensures SameRows(pool.keys, Rotate(pool, places, feature, now).pool.keys)
      decreases |places|
    {
      if places != [] {
        var i := pool.next % |places|;
        var t := TryServe(pool.keys[places[i]], feature, now);
        assert t.after.row == pool.keys[places[i]].row && t.after.secrets == pool.keys[places[i]].secrets;
        if !t.ok {
          RotationKeepsRows(Pool(pool.keys[places[i] := t.after], Advance(pool.next)),
                            Pools.Without(places, i), feature, now);
        }
      }
    }

    /** The draw's loop over the available keys. */
    method RotateAmong(candidates: seq<PoolKey>, ghost candidatePlaces: seq<nat>, feature: string, now: Instant)
      returns (served: bool, id: string, charge: Charge, given: Reply, ghost drawn: Drawn)
      requires Valid() && StandAt(candidates, candidatePlaces)
      modifies this`next, keys
      ensures keys == old(keys)
      ensures drawn == Rotate(old(PoolView()), candidatePlaces, feature, now) && PoolView() == drawn.pool
      ensures if served then IsServe(drawn.pool.keys, drawn.outcome, id, charge, given) else drawn.outcome == Exhausted
    {
      drawn := Rotate(PoolView(), candidatePlaces, feature, now);
      ghost var places: seq<nat> := candidatePlaces;
      var available := candidates;
      served, id, charge, given := false, "", Nothing, NotGiven(Exhausted);
      while |available| > 0 && !served
        invariant StandAt(available, places)
        invariant if served then drawn.pool == PoolView() && IsServe(drawn.pool.keys, drawn.outcome, id, charge, given)
                  else Rotate(PoolView(), places, feature, now) == drawn
        decreases |available|
      {
        var i;
        i, served, id, charge, given := RotateOnce(available, places, feature, now);
        WithoutAt(available, i);
        WithoutAt(places, i);
        available := Pools.Without(available, i);
        places := Pools.Without(places, i);
      }
    }

    static lemma WithoutAt<T>(s: seq<T>, i: nat)
      requires i < |s|
      ensures |Pools.Without(s, i)| == |s| - 1
      ensures forall j :: 0 <= j < |s| - 1 ==> Pools.Without(s, i)[j] == s[if j < i then j else j + 1]
    {}

    /** The place served, as its id, charge and reply tell it. */
    static ghost predicate IsServe(keys: seq<Key>, outcome: Outcome, id: string, charge: Charge, given: Reply) {
      outcome.Served? && outcome.index < |keys| &&
      var k := keys[outcome.index];
      id == k.row.id && charge == outcome.charge && given == Given(k.row.id, k.row.keyValue, k.row.metadata, k.secrets)
    }

    /** A draw from the pool, but for what it leaves in the queue. */
    method DrawFromPool(feature: string, scope: Scope, now: Instant)
      returns (served: bool, id: string, charge: Charge, reply: Reply, ghost drawn: Drawn)
      requires Valid()
      modifies this`next, keys
      ensures keys == old(keys)
      ensures drawn == Rotate(old(PoolView()), Candidates(old(Views(keys)), feature, scope, now), feature, now)
      ensures PoolView() == drawn.pool
      ensures if served then IsServe(drawn.pool.keys, drawn.outcome, id, charge, reply)
              else drawn.outcome == Exhausted && reply == NotGiven(RefusalOf(old(Views(keys)), feature, scope))
    {
      ghost var places;
      var available, offered;
      available, offered, places := AvailableKeys(feature, scope, now);
      served, id, charge, reply, drawn := RotateAmong(available, places, feature, now);
      if !served {
        reply := NotGiven(if offered then Exhausted else OutOfScope);
      }
    }

    static ghost function RefusalOf(keys: seq<Key>, feature: string, scope: Scope): Outcome {
      if AnyOffers(keys, feature, scope) then Exhausted else OutOfScope
    }

    /** The draw, and its charge queued; `drawn` is what the rotation gave. */
    method DrawAndQueue(feature: string, scope: Scope, now: Instant)
      returns (served: bool, id: string, charge: Charge, reply: Reply, ghost drawn: Drawn)
      requires Valid()
      modifies this`next, keys, usage`usage
      ensures keys == old(keys)
      ensures drawn == Rotate(old(PoolView()), Candidates(old(Views(keys)), feature, scope, now), feature, now)
      ensures PoolView() == drawn.pool
      ensures usage.usage == if served then Persist(old(usage.usage), id, charge) else old(usage.usage)
      ensures if served then IsServe(drawn.pool.keys, drawn.outcome, id, charge, reply)
              else drawn.outcome == Exhausted && reply == NotGiven(RefusalOf(old(Views(keys)), feature, scope))
    {
      served, id, charge, reply, drawn := DrawFromPool(feature, scope, now);
      if served {
        usage.PersistCharge(id, charge);
      }
    }

    method GetKeyForFeature(feature: string, scope: Scope, now: Instant) returns (reply: Reply)
      requires Valid()
      modifies this`next, keys, usage`usage
      ensures State() == Next(old(State()), DrawFor(feature, scope, now))
      ensures Some(reply) == ReplyTo(old(State()), DrawFor(feature, scope, now))
      ensures keys == old(keys)
    {
      ghost var before := State();
      var served, id, charge;
      ghost var drawn;
      served, id, charge, reply, drawn := DrawAndQueue(feature, scope, now);
      DrawByRotation(before, drawn, feature, scope, now, served, id, charge, reply);
    }

    /** A draw of the service, told by what the rotation gave. */
    static lemma DrawByRotation(s: Sys, drawn: Drawn, feature: string, scope: Scope, now: Instant,
                                served: bool, id: string, charge: Charge, reply: Reply)
      requires drawn == Rotate(s.pool, Candidates(s.pool.keys, feature, scope, now), feature, now)
      requires if served then IsServe(drawn.pool.keys, drawn.outcome, id, charge, reply)
               else drawn.outcome == Exhausted && reply == NotGiven(RefusalOf(s.pool.keys, feature, scope))
      ensures Next(s, DrawFor(feature, scope, now))
              == s.(pool := drawn.pool, queue := if served then Persist(s.queue, id, charge) else s.queue)
      ensures ReplyTo(s, DrawFor(feature, scope, now)) == Some(reply)
    {
      RotationKeepsRows(s.pool, Candidates(s.pool.keys, feature, scope, now), feature, now);
    }

    /** The named key's turn at the gates, or why it has none. */
    method TryNamed(id: string, feature: string, scope: Scope, now: Instant)
      returns (served: bool, charge: Charge, reply: Reply, ghost drawn: Drawn)
      requires Valid()
      modifies keys
      ensures drawn == ById(old(PoolView()), id, feature, scope, now) && PoolView() == drawn.pool
      ensures if served then IsServe(old(Views(keys)), drawn.outcome, id, charge, reply)
              else !drawn.outcome.Served? && reply == NotGiven(drawn.outcome)
    {
      drawn := ById(PoolView(), id, feature, scope, now);
      served, charge := false, Nothing;
      var place := FindKey(id);
      if place.None? {
        reply := NotGiven(NotFound);
      } else {
        var key := keys[place.value];
        if (scope.Some? && key.tierId !in scope.value) || feature !in key.features {
          reply := NotGiven(OutOfScope);
        } else if !AvailableNow(key, now) {
          reply := NotGiven(Exhausted);
        } else {
          served, charge, reply := TryAt(key, place.value, feature, now);
          if !served {
            reply := NotGiven(Exhausted);
          }
        }
      }
    }

    method KeyByID(id: string, feature: string, scope: Scope, now: Instant) returns (reply: Reply)
      requires Valid()
      modifies keys, usage`usage
      ensures State() == Next(old(State()), DrawKey(id, feature, scope, now))
      ensures Some(reply) == ReplyTo(old(State()), DrawKey(id, feature, scope, now))
    {
      ghost var before := State();
      ghost var drawn;
      var served, charge;
      served, charge, reply, drawn := TryNamed(id, feature, scope, now);
      if served {
        usage.PersistCharge(id, charge);
      }
      NamedServe(before, drawn, id, feature, scope, now, served, charge, reply);
    }

    /** A draw of one key, told by what its turn gave. */
    static lemma NamedServe(s: Sys, drawn: Drawn, id: string, feature: string, scope: Scope, now: Instant,
                            served: bool, charge: Charge, reply: Reply)
      requires drawn == ById(s.pool, id, feature, scope, now)
      requires if served then IsServe(s.pool.keys, drawn.outcome, id, charge, reply)
               else !drawn.outcome.Served? && reply == NotGiven(drawn.outcome)
      ensures Next(s, DrawKey(id, feature, scope, now))
              == s.(pool := drawn.pool, queue := if served then Persist(s.queue, id, charge) else s.queue)
      ensures ReplyTo(s, DrawKey(id, feature, scope, now)) == Some(reply)
    {}

    /** The key's exhausted-until in the pool. */
    method ExhaustAt(key: PoolKey, ghost place: nat, until: Instant)
      requires Valid() && place < |keys| && keys[place] == key
      modifies key
      ensures var views := old(Views(keys));
              Views(keys) == views[place := views[place].(row := views[place].row.(exhaustedUntil := Some(until)))]
    {
      ghost var views := Views(keys);
      key.exhaustedUntil := Some(until);
      assert Views(keys) == views[place := views[place].(row := views[place].row.(exhaustedUntil := Some(until)))];
    }

    method SetExhaustedUntil(id: string, until: Instant) returns (found: bool)
      requires Valid()
      modifies keys
      ensures var views := old(Views(keys));
              var place := Find(views, id);
              && found == place.Some?
              && Views(keys) == if found then
                   views[place.value := views[place.value].(row := views[place.value].row.(exhaustedUntil := Some(until)))]
                 else views
    {
      var place := FindKey(id);
      found := place.Some?;
      if found {
        ExhaustAt(keys[place.value], place.value, until);
      }
    }

    /** Pool and row, each as it is left. */
    method MarkBoth(id: string, until: Instant, up: bool) returns (found: bool)
      requires Valid()
      modifies keys, store`rows
      ensures var views := old(Views(keys));
              var place := Find(views, id);
              && found == place.Some?
              && Views(keys) == if found then
                   views[place.value := views[place.value].(row := views[place.value].row.(exhaustedUntil := Some(until)))]
                 else views
      ensures store.View() == if found && up then SetExhausted(old(store.View()), id, until) else old(store.View())
    {
      found := SetExhaustedUntil(id, until);
      if found {
        var ok := store.SetKeyExhaustedCall(id, until, up);
      }
    }

    method MarkExhaustedUntil(id: string, until: Instant, up: bool) returns (found: bool)
      requires Valid()
      modifies keys, store`rows
      ensures State() == Next(old(State()), MarkExhausted(id, until, up))
      ensures found == Find(old(Views(keys)), id).Some?
    {
      ghost var before := State();
      found := MarkBoth(id, until, up);
      ExhaustedParts(before, id, until, up);
    }

    static lemma ExhaustedParts(s: Sys, id: string, until: Instant, up: bool)
      ensures var place := Find(s.pool.keys, id);
              Next(s, MarkExhausted(id, until, up))
              == if place.None? then s
                 else
                   var k := s.pool.keys[place.value];
                   s.(pool := s.pool.(keys := s.pool.keys[place.value := k.(row := k.row.(exhaustedUntil := Some(until)))]),
                      store := if up then SetExhausted(s.store, id, until) else s.store)
    {}

    /** What the pool asks of the database for a report, and when the spend it is told starts again. */
    method AskPeriod(e: SpendEvent, now: Instant) returns (ask: Ask, place: Option<nat>, resetsAt: Option<Instant>)
      ensures ask == AskFor(Views(keys), e, now) && place == Find(Views(keys), e.keyId)
      ensures !ask.Refused() ==>
                var budget := Views(keys)[place.value].row.budget;
                resetsAt == if budget.Some? then NextReset(budget.value, now) else None
    {
      resetsAt := None;
      place := FindKey(e.keyId);
      if place.None? {
        return Unknown, None, None;
      }
      var key := keys[place.value];
      if key.budget.None? {
        ask := NoPeriod;
      } else if e.unit != key.budget.value.unit {
        ask := OtherUnit;
      } else {
        ask := For(PeriodStart(key.budget.value, now));
        resetsAt := NextReset(key.budget.value, now);
      }
    }

    /** The first half of RecordSpend, up to the answer of its transaction: what is to land, and on which key. */
    method BeginSpend(e: SpendEvent, now: Instant, up: bool, ghost answers: seq<Answer>)
      returns (reply: SpendReply, key: Option<PoolKey>, spent: real, start: Instant)
      modifies store`rows, store`spendEvents
      ensures StateWith(answers + (if key.Some? then [Answer(e.keyId, spent, start)] else []))
              == AfterReport(old(StateWith(answers)), e, now, up)
      ensures reply == SpendReplyTo(old(StateWith(answers)), e, now, up)
      ensures key.Some? ==> FindsUnderItsId(key.value) && key.value.id == e.keyId
    {
      ghost var before := StateWith(answers);
      key, spent, start := None, 0.0, 0;
      var ask, place, resetsAt := AskPeriod(e, now);
      if ask.Refused() {
        reply := if ask.Unknown? then UnknownKey else UnitMismatch;
      } else {
        var duplicate, answered, known;
        spent, duplicate, answered, known := store.RecordSpendCall(e, if ask.For? then Some(ask.start) else None, up);
        reply := if answered then Told(spent, resetsAt, duplicate) else if known then Failed else UnknownKey;
        if answered && ask.For? {
          key, start := Some(keys[place.value]), ask.start;
        }
      }
      ReportParts(before, e, now, up);
    }

    static lemma ReportParts(s: Sys, e: SpendEvent, now: Instant, up: bool)
      ensures var ask := AskFor(s.pool.keys, e, now);
              var r := Stores.RecordSpend(s.store, e, if ask.For? then Some(ask.start) else None);
              AfterReport(s, e, now, up)
              == if !up || ask.Refused() || r.KeyNotFound? then s
                 else s.(store := r.store,
                         answers := s.answers + (if ask.For? then [Answer(e.keyId, r.spent, ask.start)] else []))
    {}

    /** The key is the one the pool finds under its id. */
    ghost predicate FindsUnderItsId(key: PoolKey)
      reads this, keys, key
    {
      var place := Find(Views(keys), key.id);
      place.Some? && keys[place.value] == key
    }

    /** The second half: the answer lands on the key its report was for, which a reload may have dropped since. */
    method LandSpend(key: PoolKey, spent: real, start: Instant, ghost answers: seq<Answer>, ghost i: nat)
      requires Valid() && (key in keys ==> FindsUnderItsId(key))
      requires key in keys ==> i < |answers| && answers[i] == Answer(key.id, spent, start)
      modifies key
      ensures if key in keys then StateWith(Pools.Without(answers, i)) == AfterLanding(old(StateWith(answers)), i)
              else StateWith(answers) == old(StateWith(answers))
    {
      ghost var views := Views(keys);
      key.Hold(spent, start);
      if key in keys {
        ghost var place := Find(views, key.id).value;
        assert Views(keys) == views[place := HoldSpend(views[place], spent, start)];
      } else {
        assert Views(keys) == views;
      }
    }

    /** Both halves with nothing in between. */
    method RecordSpend(e: SpendEvent, now: Instant, up: bool) returns (reply: SpendReply)
      requires Valid()
      modifies keys, store`rows, store`spendEvents
      ensures State() == AfterLanding(AfterReport(old(State()), e, now, up), 0)
      ensures reply == SpendReplyTo(old(State()), e, now, up)
    {
      var key, spent, start;
      reply, key, spent, start := BeginSpend(e, now, up, []);
      if key.Some? {
        ghost var answers := [Answer(e.keyId, spent, start)];
        LandSpend(key.value, spent, start, answers, 0);
        assert Pools.Without(answers, 0) == [];
      }
    }

    /** The keys of the pool by the ids they have in these views. */
    ghost predicate Indexes(existing: map<string, PoolKey>, views: seq<Key>)
      reads this
    {
      && |views| == |keys|
      && (forall id :: id in existing <==> Find(views, id).Some?)
      && forall id :: id in existing ==> existing[id] == keys[Find(views, id).value]
    }

    /** The keys now pooled, by id. */
    method Existing() returns (existing: map<string, PoolKey>)
      requires DistinctIds(Views(keys))
      ensures Indexes(existing, Views(keys))
    {
      existing := map[];
      ghost var views := Views(keys);
      for i := 0 to |keys|
        invariant forall j :: 0 <= j < i ==> keys[j].id in existing && existing[keys[j].id] == keys[j]
        invariant forall id :: id in existing ==> exists j :: 0 <= j < i && keys[j].id == id
      {
        assert forall j :: 0 <= j < i ==> views[j].row.id != views[i].row.id;
        existing := existing[keys[i].id := keys[i]];
      }
    }

    /** One row of the database in the pool: the key it has there, or a new one. */
    method LoadRow(existing: map<string, PoolKey>, id: string) returns (key: PoolKey)
      requires id in store.rows
      modifies if id in existing then {existing[id]} else {}
      ensures if id in existing then key == existing[id] else fresh(key)
      ensures var s := store.View();
              key.View() == if id in existing
                            then Load(old(existing[id].View()), s.rows[id].key, FeaturesOf(s, id), SecretsOf(s, id))
                            else Key(s.rows[id].key, SecretsOf(s, id), FeaturesOf(s, id), s.rows[id].usage, map[])
    {
      var row := store.rows[id];
      var features := if row.key.tierId in store.tiers then store.tiers[row.key.tierId] else map[];
      var secrets := if id in store.secrets then store.secrets[id] else map[];
      if id in existing {
        key := existing[id];
        key.Reload(row.key, features, secrets);
      } else {
        key := new PoolKey(row.key, features, secrets, row.usage);
      }
    }

    /** The reload's loop, having seen the rows `done`: what it has gathered, and what it has yet to touch. */
    ghost predicate Reloading(views: seq<Key>, done: seq<string>, gathered: seq<PoolKey>)
      reads this, keys, store, gathered
    {
      && |views| == |keys|
      && (forall i, j :: 0 <= i < j < |gathered| ==> gathered[i] != gathered[j])
      && Views(gathered) == ReloadFrom(views, store.View(), done)
      && (forall p :: 0 <= p < |keys| ==>
            if keys[p] in gathered then views[p].row.id in done else keys[p].View() == views[p])
    }

    lemma GatheredOneMore(views: seq<Key>, done: seq<string>, id: string, gathered: seq<PoolKey>, key: PoolKey)
      requires Views(gathered) == ReloadFrom(views, store.View(), done)
      requires Pooled(store.View(), id) && key.View() == Reloaded(views, store.View(), id)
      ensures Views(gathered + [key]) == ReloadFrom(views, store.View(), done + [id])
    {
      assert Front(done + [id]) == done;
      assert Views(gathered + [key]) == Views(gathered) + [key.View()];
    }

    lemma SkippedOneMore(views: seq<Key>, done: seq<string>, id: string, gathered: seq<PoolKey>)
      requires Reloading(views, done, gathered) && !Pooled(store.View(), id)
      ensures Reloading(views, done + [id], gathered)
    {
      assert Front(done + [id]) == done;
    }

    method ReloadRow(existing: map<string, PoolKey>, ghost views: seq<Key>, ghost done: seq<string>, id: string,
                     gathered: seq<PoolKey>) returns (more: seq<PoolKey>)
      requires Valid() && Reloading(views, done, gathered)
      requires id in store.rows && id !in done
      requires Indexes(existing, views)
      modifies keys
      ensures Reloading(views, done + [id], more)
    {
      var row := store.rows[id];
      more := gathered;
      if row.key.tierId in store.tiers && store.tiers[row.key.tierId] != map[] {
        var key := LoadRow(existing, id);
        GatheredOneMore(views, done, id, gathered, key);
        more := gathered + [key];
      } else {
        SkippedOneMore(views, done, id, gathered);
      }
    }

    method ReloadNth(existing: map<string, PoolKey>, ghost views: seq<Key>, n: nat, gathered: seq<PoolKey>)
      returns (more: seq<PoolKey>)
      requires Valid() && Indexes(existing, views) && WellFormed(store.View()) && n < |store.order|
      requires Reloading(views, store.order[..n], gathered)
      modifies keys
      ensures Reloading(views, store.order[..n + 1], more)
    {
      assert store.order[n] in store.View().rows;
      more := ReloadRow(existing, views, store.order[..n], store.order[n], gathered);
      assert store.order[..n + 1] == store.order[..n] + [store.order[n]];
    }

    /** The reload's loop over the rows. */
    method LoadRows(existing: map<string, PoolKey>, ghost views: seq<Key>) returns (gathered: seq<PoolKey>)
      requires Valid() && Indexes(existing, views) && WellFormed(store.View()) && Reloading(views, [], [])
      modifies keys
      ensures Reloading(views, store.order, gathered)
    {
      gathered := [];
      for n := 0 to |store.order|
        invariant Reloading(views, store.order[..n], gathered)
      {
        gathered := ReloadNth(existing, views, n, gathered);
      }
      assert store.order[..|store.order|] == store.order;
    }

    method GatherRows() returns (gathered: seq<PoolKey>)
      requires Valid() && WellFormed(store.View()) && DistinctIds(Views(keys))
      modifies keys
      ensures Reloading(old(Views(keys)), store.order, gathered)
    {
      var existing := Existing();
      gathered := LoadRows(existing, Views(keys));
    }

    method ReloadPool(up: bool) returns (ok: bool)
      requires Valid() && WellFormed(store.View()) && DistinctIds(Views(keys))
      modifies `keys, keys
      ensures ok == up && Valid()
      ensures State() == if up then Next(old(State()), ReloadKeys) else old(State())
    {
      ghost var before := State();
      if up {
        var gathered := GatherRows();
        keys := gathered;
      }
      ok := up;
      assert up ==> State() == AfterReload(before);
    }
  }
}
