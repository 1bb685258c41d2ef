/** The draw: which key a pool serves for a feature and a scope, and what the attempt leaves behind. */
module Pools {
  import opened Common
  import opened Keys

  /** The tiers a caller may draw from; None is the admin, who may draw from all. */
  type Scope = Option<set<string>>

  datatype Pool = Pool(keys: seq<Key>, next: nat)

  datatype Outcome = Served(index: nat, charge: Charge) | OutOfScope | Exhausted | NotFound

  datatype Drawn = Drawn(pool: Pool, outcome: Outcome)

  predicate Offers(k: Key, feature: string, scope: Scope) {
    (scope.None? || k.row.tierId in scope.value) && feature in k.features
  }

  predicate Candidate(k: Key, feature: string, scope: Scope, now: Instant) {
    Offers(k, feature, scope) && Available(k, now)
  }

  /** The places in the pool of the keys a draw may try, in pool order. */
  function Candidates(keys: seq<Key>, feature: string, scope: Scope, now: Instant): (places: seq<nat>)
    ensures Places(places, keys)
  {
    if keys == [] then []
    else
      var last := |keys| - 1;
      Candidates(keys[..last], feature, scope, now)
      + (if Candidate(keys[last], feature, scope, now) then [last] else [])
  }

  predicate Places(places: seq<nat>, keys: seq<Key>) {
    forall a :: 0 <= a < |places| ==> places[a] < |keys|
  }

  lemma {:induction false} CandidatesAreExact(keys: seq<Key>, feature: string, scope: Scope, now: Instant)
    ensures var places := Candidates(keys, feature, scope, now);
            && Distinct(places)
            && (forall i: nat :: i in places <==> i < |keys| && Candidate(keys[i], feature, scope, now))
  {
    if keys != [] {
      var last := |keys| - 1;
      CandidatesAreExact(keys[..last], feature, scope, now);
      var earlier := Candidates(keys[..last], feature, scope, now);
      assert forall a :: 0 <= a < |earlier| ==> earlier[a] < last;
      if Candidate(keys[last], feature, scope, now) {
        assert Candidates(keys, feature, scope, now) == earlier + [last];
      }
    }
  }

  /** The candidates are in the order of the pool. */
  lemma {:induction false} CandidatesAscend(keys: seq<Key>, feature: string, scope: Scope, now: Instant)
    ensures Ascending(Candidates(keys, feature, scope, now))
  {
    if keys != [] { CandidatesAscend(keys[..|keys| - 1], feature, scope, now); }
  }

  ghost predicate Ascending(places: seq<nat>) {
    forall a, b :: 0 <= a < b < |places| ==> places[a] < places[b]
  }

  ghost predicate Distinct(places: seq<nat>) {
    forall a, b :: 0 <= a < b < |places| ==> places[a] != places[b]
  }

  function Without<T>(s: seq<T>, i: nat): seq<T>
    requires i < |s|
  {
    s[..i] + s[i + 1..]
  }

  function Advance(next: nat): nat {
    (next + 1) % TWO_TO_64
  }

  /** The draw's loop: the shared counter picks among the candidates left, and a refused one is dropped. */
  function Rotate(pool: Pool, places: seq<nat>, feature: string, now: Instant): Drawn
    requires Places(places, pool.keys)
    decreases |places|
  {
    if places == [] then Drawn(pool, Exhausted)
    else
      var i := pool.next % |places|;
      var place := places[i];
      var t := TryServe(pool.keys[place], feature, now);
      var pool' := Pool(pool.keys[place := t.after], Advance(pool.next));
      if t.ok then Drawn(pool', Served(place, t.charge))
      else Rotate(pool', Without(places, i), feature, now)
  }

  function Draw(pool: Pool, feature: string, scope: Scope, now: Instant): Drawn {
    var drawn := Rotate(pool, Candidates(pool.keys, feature, scope, now), feature, now);
    if drawn.outcome.Exhausted? && !exists k :: k in pool.keys && Offers(k, feature, scope)
    then drawn.(outcome := OutOfScope)
    else drawn
  }

  function Find(keys: seq<Key>, id: string): (place: Option<nat>)
    ensures place.Some? ==> place.value < |keys| && keys[place.value].row.id == id
    ensures place.Some? ==> forall i :: 0 <= i < place.value ==> keys[i].row.id != id
    ensures place.None? ==> forall i :: 0 <= i < |keys| ==> keys[i].row.id != id
  {
    if keys == [] then None
    else
      var last := |keys| - 1;
      var earlier := Find(keys[..last], id);
      if earlier.Some? then earlier
      else if keys[last].row.id == id then Some(last)
      else None
  }

  /** Manager.KeyByID: the same gates for one named key, without the rotation. */
  function ById(pool: Pool, id: string, feature: string, scope: Scope, now: Instant): Drawn {
    var place := Find(pool.keys, id);
    if place.None? then Drawn(pool, NotFound)
    else
      var k := pool.keys[place.value];
      if !Offers(k, feature, scope) then Drawn(pool, OutOfScope)
      else if !Available(k, now) then Drawn(pool, Exhausted)
      else
        var t := TryServe(k, feature, now);
        Drawn(pool.(keys := pool.keys[place.value := t.after]),
              if t.ok then Served(place.value, t.charge) else Exhausted)
  }

  // ----- Soundness, completeness and frame of a draw -----

  /** How a draw over some places may have left one key: untouched, or put through the gates once
      and, unless it is the one served, refused by them. */
  ghost predicate TriedAtMostOnce(before: Key, after: Key, place: nat, places: seq<nat>, outcome: Outcome,
                                  feature: string, now: Instant) {
    var t := TryServe(before, feature, now);
    if outcome.Served? && outcome.index == place then
      place in places && t.ok && after == t.after && outcome.charge == t.charge
    else
      after == before || (place in places && !t.ok && after == t.after)
  }

  lemma WithoutOne(places: seq<nat>, i: nat)
    requires Distinct(places) && i < |places|
    ensures Distinct(Without(places, i)) && places[i] !in Without(places, i)
    ensures forall p :: p in places <==> p == places[i] || p in Without(places, i)
  {
    var rest := Without(places, i);
    forall p | p in places && p != places[i] ensures p in rest {
      var a :| 0 <= a < |places| && places[a] == p;
      assert rest[if a < i then a else a - 1] == p;
    }
  }

  /** A refusal first and the rest of the loop after it, seen as one loop. */
  lemma TriedFirst(before: Key, tried: Key, after: Key, place: nat, p: nat, places: seq<nat>, i: nat,
                   outcome: Outcome, feature: string, now: Instant)
    requires Distinct(places) && i < |places| && place == places[i]
    requires p == place ==> !TryServe(before, feature, now).ok && tried == TryServe(before, feature, now).after
    requires p != place ==> tried == before
    requires outcome.Served? ==> outcome.index in Without(places, i)
    requires TriedAtMostOnce(tried, after, p, Without(places, i), outcome, feature, now)
    ensures TriedAtMostOnce(before, after, p, places, outcome, feature, now)
  {
    WithoutOne(places, i);
  }

  lemma {:induction false} RotateFrame(pool: Pool, places: seq<nat>, feature: string, now: Instant)
    requires Places(places, pool.keys) && Distinct(places)
    ensures var d := Rotate(pool, places, feature, now);
            && |d.pool.keys| == |pool.keys|
            && (d.outcome.Exhausted? || (d.outcome.Served? && d.outcome.index in places))
            && (forall i :: 0 <= i < |pool.keys| ==>
                  TriedAtMostOnce(pool.keys[i], d.pool.keys[i], i, places, d.outcome, feature, now))
            && (d.outcome.Exhausted? ==> forall i :: i in places ==> !TryServe(pool.keys[i], feature, now).ok)
    decreases |places|
  {
    if places != [] {
      var i := pool.next % |places|;
      var place := places[i];
      var t := TryServe(pool.keys[place], feature, now);
      WithoutOne(places, i);
      if !t.ok {
        var pool' := Pool(pool.keys[place := t.after], Advance(pool.next));
        RotateFrame(pool', Without(places, i), feature, now);
        var d := Rotate(pool, places, feature, now);
        forall p | 0 <= p < |pool.keys|
          ensures TriedAtMostOnce(pool.keys[p], d.pool.keys[p], p, places, d.outcome, feature, now)
        {
          TriedFirst(pool.keys[p], pool'.keys[p], d.pool.keys[p], place, p, places, i, d.outcome, feature, now);
        }
      }
    }
  }

  /** A key a draw could serve from the state it found. */
  predicate Servable(k: Key, feature: string, scope: Scope, now: Instant) {
    Candidate(k, feature, scope, now) && HasRoom(k, feature, now)
  }

  lemma PassingCandidatesAreServable(keys: seq<Key>, feature: string, scope: Scope, now: Instant, i: nat)
    requires i < |keys|
    ensures i in Candidates(keys, feature, scope, now) && TryServe(keys[i], feature, now).ok
            <==> Servable(keys[i], feature, scope, now)
  {
    CandidatesAreExact(keys, feature, scope, now);
    ServedExactlyWithRoom(keys[i], feature, now);
  }

  ghost predicate AnyServable(keys: seq<Key>, feature: string, scope: Scope, now: Instant) {
    exists i :: 0 <= i < |keys| && Servable(keys[i], feature, scope, now)
  }

  lemma RotationServesIfItCan(pool: Pool, feature: string, scope: Scope, now: Instant)
    ensures var outcome := Rotate(pool, Candidates(pool.keys, feature, scope, now), feature, now).outcome;
            && (outcome.Served? || outcome.Exhausted?)
            && (outcome.Served? ==> outcome.index < |pool.keys| && Servable(pool.keys[outcome.index], feature, scope, now))
            && (outcome.Served? <==> AnyServable(pool.keys, feature, scope, now))
  {
    var places := Candidates(pool.keys, feature, scope, now);
    CandidatesAreExact(pool.keys, feature, scope, now);
    RotateFrame(pool, places, feature, now);
    var outcome := Rotate(pool, places, feature, now).outcome;
    if outcome.Served? {
      PassingCandidatesAreServable(pool.keys, feature, scope, now, outcome.index);
    } else {
      forall i | 0 <= i < |pool.keys| ensures !Servable(pool.keys[i], feature, scope, now) {
        PassingCandidatesAreServable(pool.keys, feature, scope, now, i);
      }
    }
  }

  /** A draw serves a servable key whenever there is one, says "out of scope" exactly when no key in scope has the
      feature, and "exhausted" exactly when some has it but none could have been served. */
  lemma DrawIsSoundAndComplete(pool: Pool, feature: string, scope: Scope, now: Instant)
    ensures var outcome := Draw(pool, feature, scope, now).outcome;
            var offered := exists k :: k in pool.keys && Offers(k, feature, scope);
            && (outcome.Served? ==> outcome.index < |pool.keys| && Servable(pool.keys[outcome.index], feature, scope, now))
            && (outcome.Served? <==> AnyServable(pool.keys, feature, scope, now))
            && (outcome.OutOfScope? <==> !offered)
            && (outcome.Exhausted? <==> offered && !AnyServable(pool.keys, feature, scope, now))
  {
    RotationServesIfItCan(pool, feature, scope, now);
  }

  /** Each key meets the gates at most once, and only the served one passes them. */
  lemma DrawFrame(pool: Pool, feature: string, scope: Scope, now: Instant)
    ensures var d := Draw(pool, feature, scope, now);
            && |d.pool.keys| == |pool.keys|
            && (d.outcome.Served? ==> d.outcome.index < |pool.keys|)
            && (forall i :: 0 <= i < |pool.keys| ==>
                  TriedAtMostOnce(pool.keys[i], d.pool.keys[i], i, Candidates(pool.keys, feature, scope, now),
                                  d.outcome, feature, now))
  {
    CandidatesAreExact(pool.keys, feature, scope, now);
    RotateFrame(pool, Candidates(pool.keys, feature, scope, now), feature, now);
  }

  /** The usage of a key is charged exactly when that key is served; with caps of at least one call nothing else of
      any key's usage changes, and no draw changes what was loaded. */
  lemma DrawChargesOnlyTheServed(pool: Pool, feature: string, scope: Scope, now: Instant, i: nat)
    requires i < |pool.keys|
    ensures var d := Draw(pool, feature, scope, now);
            && |d.pool.keys| == |pool.keys|
            && d.pool.keys[i] == pool.keys[i].(usage := d.pool.keys[i].usage, rates := d.pool.keys[i].rates)
            && d.pool.keys[i].rates - {feature} == pool.keys[i].rates - {feature}
            && (if d.outcome.Served? && d.outcome.index == i then
                  d.pool.keys[i].usage == TryUsage(pool.keys[i], now).after.usage
                else !RollsOverUnserved(pool.keys[i], now) ==> d.pool.keys[i].usage == pool.keys[i].usage)
  {
    DrawFrame(pool, feature, scope, now);
    var k := pool.keys[i];
    GatesTouchOnlyTheirCounters(k, feature, now);
    if !TryServe(k, feature, now).ok {
      RefusalChangesOnlyItsRateCounter(k, feature, now);
    }
  }

  // ----- Which key a draw serves -----

  /** The places not tried yet, in their order. */
  function Untried(places: seq<nat>, tried: seq<nat>): seq<nat> {
    if places == [] then []
    else (if places[0] in tried then [] else [places[0]]) + Untried(places[1..], tried)
  }

  lemma {:induction false} UntriedAll(places: seq<nat>)
    ensures Untried(places, []) == places
  {
    if places != [] { UntriedAll(places[1..]); }
  }

  /** A place that is not among them does not matter. */
  lemma {:induction false} UntriedElsewhere(places: seq<nat>, place: nat, tried: seq<nat>)
    requires place !in places
    ensures Untried(places, [place] + tried) == Untried(places, tried)
  {
    if places != [] { UntriedElsewhere(places[1..], place, tried); }
  }

  lemma WithoutFirst(places: seq<nat>)
    requires places != []
    ensures Without(places, 0) == places[1..]
  {}

  lemma WithoutLater(places: seq<nat>, i: nat)
    requires 0 < i < |places|
    ensures var rest := Without(places, i);
            rest != [] && rest[0] == places[0] && rest[1..] == Without(places[1..], i - 1)
  {}

  /** Trying one place and then others is trying the others among the rest. */
  lemma {:induction false} UntriedWithoutOne(places: seq<nat>, i: nat, tried: seq<nat>)
    requires Distinct(places) && i < |places|
    ensures Untried(places, [places[i]] + tried) == Untried(Without(places, i), tried)
    decreases i
  {
    var all := [places[i]] + tried;
    assert forall p :: p in all <==> p == places[i] || p in tried;
    if i == 0 {
      WithoutFirst(places);
      assert places[0] !in places[1..];
      UntriedElsewhere(places[1..], places[0], tried);
    } else {
      WithoutLater(places, i);
      UntriedWithoutOne(places[1..], i - 1, tried);
      assert places[1..][i - 1] == places[i];
    }
  }

  /** The k-th turn of a loop that began with the counter at `next` tries the place the counter then points at among
      those not tried before. */
  ghost predicate TriesInTurn(next: nat, places: seq<nat>, tried: seq<nat>) {
    forall k :: 0 <= k < |tried| ==> TriesThe(next, places, tried, k)
  }

  ghost predicate TriesThe(next: nat, places: seq<nat>, tried: seq<nat>, k: nat)
    requires k < |tried|
  {
    PointsAt((next + k) % 0x1_0000_0000_0000_0000, Untried(places, tried[..k]), tried[k])
  }

  /** The place a value of the counter points at among those left. */
  predicate PointsAt(counter: nat, left: seq<nat>, place: nat) {
    left != [] && place == left[counter % |left|]
  }

  lemma CounterMovesOn(next: nat, turns: nat)
    ensures (Advance(next) + turns) % TWO_TO_64 == (next + 1 + turns) % TWO_TO_64
  {}

  lemma FirstTurn(next: nat, places: seq<nat>, i: nat, later: seq<nat>)
    requires next < TWO_TO_64 && places != [] && i == next % |places|
    ensures TriesThe(next, places, [places[i]] + later, 0)
  {
    UntriedAll(places);
    assert ([places[i]] + later)[..0] == [];
    assert (next + 0) % TWO_TO_64 == next;
  }

  lemma LaterTurn(next: nat, places: seq<nat>, i: nat, later: seq<nat>, k: nat)
    requires Distinct(places) && i < |places| && k < |later|
    requires TriesThe(Advance(next), Without(places, i), later, k)
    ensures TriesThe(next, places, [places[i]] + later, k + 1)
  {
    var tried := [places[i]] + later;
    assert tried[..k + 1] == [places[i]] + later[..k];
    UntriedWithoutOne(places, i, later[..k]);
    CounterMovesOn(next, k);
    assert PointsAt((Advance(next) + k) % TWO_TO_64, Untried(places, tried[..k + 1]), later[k]);
  }

  lemma TurnsBeginWith(next: nat, places: seq<nat>, i: nat, later: seq<nat>)
    requires Distinct(places) && next < TWO_TO_64 && places != [] && i == next % |places|
    requires TriesInTurn(Advance(next), Without(places, i), later)
    ensures TriesInTurn(next, places, [places[i]] + later)
  {
    FirstTurn(next, places, i, later);
    forall k | 0 < k < 1 + |later| ensures TriesThe(next, places, [places[i]] + later, k) {
      assert TriesThe(Advance(next), Without(places, i), later, k - 1);
      LaterTurn(next, places, i, later, k - 1);
    }
  }

  /** Each of these places is refused from this state of the keys. */
  ghost predicate Refused(keys: seq<Key>, tried: seq<nat>, feature: string, now: Instant) {
    forall k :: 0 <= k < |tried| ==> tried[k] < |keys| && !TryServe(keys[tried[k]], feature, now).ok
  }

  /** How a loop's turns end: with a place that passes, or with all the places tried. */
  ghost predicate TurnsEnd(keys: seq<Key>, places: seq<nat>, tried: seq<nat>, outcome: Outcome, feature: string,
                           now: Instant) {
    if outcome.Served? then
      && tried != [] && outcome.index == Last(tried) < |keys| && TryServe(keys[Last(tried)], feature, now).ok
      && Refused(keys, Front(tried), feature, now)
    else |tried| == |places| && Refused(keys, tried, feature, now)
  }

  /** The turns of a loop over some places: all but a served last one refused from the state at entry, and all the
      places if none is served. */
  ghost predicate TakesTurns(pool: Pool, places: seq<nat>, tried: seq<nat>, d: Drawn, feature: string, now: Instant) {
    && TriesInTurn(pool.next, places, tried) && (forall p :: p in tried ==> p in places)
    && d.pool.next == (pool.next + |tried|) % 0x1_0000_0000_0000_0000
    && TurnsEnd(pool.keys, places, tried, d.outcome, feature, now)
  }

  lemma RefusedFirst(keys: seq<Key>, place: nat, after: Key, later: seq<nat>, feature: string, now: Instant)
    requires place < |keys| && place !in later && !TryServe(keys[place], feature, now).ok
    requires Refused(keys[place := after], later, feature, now)
    ensures Refused(keys, [place] + later, feature, now)
  {
    var tried := [place] + later;
    forall k | 0 <= k < |tried| ensures tried[k] < |keys| && !TryServe(keys[tried[k]], feature, now).ok {
      if k > 0 { assert later[k - 1] in later && keys[place := after][later[k - 1]] == keys[later[k - 1]]; }
    }
  }

  lemma TurnsEndAfterARefusal(keys: seq<Key>, places: seq<nat>, i: nat, after: Key, later: seq<nat>, outcome: Outcome,
                              feature: string, now: Instant)
    requires i < |places| && places[i] < |keys| && places[i] !in later
    requires !TryServe(keys[places[i]], feature, now).ok
    requires TurnsEnd(keys[places[i] := after], Without(places, i), later, outcome, feature, now)
    ensures TurnsEnd(keys, places, [places[i]] + later, outcome, feature, now)
  {
    var place := places[i];
    if outcome.Served? {
      assert Last(later) in later;
      assert forall p :: p in Front(later) ==> p in later;
      assert Front([place] + later) == [place] + Front(later);
      RefusedFirst(keys, place, after, Front(later), feature, now);
    } else {
      RefusedFirst(keys, place, after, later, feature, now);
    }
  }

  lemma OneTurnServes(pool: Pool, places: seq<nat>, feature: string, now: Instant)
    requires Places(places, pool.keys) && Distinct(places) && pool.next < TWO_TO_64 && places != []
    requires TryServe(pool.keys[places[pool.next % |places|]], feature, now).ok
    ensures var tried := [places[pool.next % |places|]];
            TakesTurns(pool, places, tried, Rotate(pool, places, feature, now), feature, now)
  {
    var i := pool.next % |places|;
    assert TriesInTurn(Advance(pool.next), Without(places, i), []);
    TurnsBeginWith(pool.next, places, i, []);
    assert [places[i]] + [] == [places[i]];
  }

  lemma RefusedTurnThenOthers(pool: Pool, places: seq<nat>, i: nat, after: Key, later: seq<nat>, d: Drawn, feature: string,
                              now: Instant)
    requires Places(places, pool.keys) && Distinct(places) && pool.next < TWO_TO_64
    requires places != [] && i == pool.next % |places| && !TryServe(pool.keys[places[i]], feature, now).ok
    requires TakesTurns(Pool(pool.keys[places[i] := after], Advance(pool.next)), Without(places, i), later, d, feature, now)
    ensures TakesTurns(pool, places, [places[i]] + later, d, feature, now)
  {
    WithoutOne(places, i);
    TurnsBeginWith(pool.next, places, i, later);
    TurnsEndAfterARefusal(pool.keys, places, i, after, later, d.outcome, feature, now);
    CounterMovesOn(pool.next, |later|);
  }

  lemma {:induction false} RotationTakesTurns(pool: Pool, places: seq<nat>, feature: string, now: Instant)
    returns (tried: seq<nat>)
    requires Places(places, pool.keys) && Distinct(places) && pool.next < TWO_TO_64
    ensures TakesTurns(pool, places, tried, Rotate(pool, places, feature, now), feature, now)
    decreases |places|
  {
    if places == [] {
      tried := [];
    } else {
      var i := pool.next % |places|;
      var t := TryServe(pool.keys[places[i]], feature, now);
      tried := [places[i]];
      if t.ok {
        OneTurnServes(pool, places, feature, now);
      } else {
        WithoutOne(places, i);
        var refused := Pool(pool.keys[places[i] := t.after], Advance(pool.next));
        var later := RotationTakesTurns(refused, Without(places, i), feature, now);
        RefusedTurnThenOthers(pool, places, i, t.after, later,
                              Rotate(refused, Without(places, i), feature, now), feature, now);
        tried := tried + later;
      }
    }
  }

  /** The turns of a draw: the k-th tries, of the candidates not tried before, the one at the counter's k-th value from
      the draw's first, modulo how many are left; all but the one served would be refused from the state at entry; the
      counter has moved on by one a turn; and a draw that serves none has tried them all. */
  lemma DrawTakesTurns(pool: Pool, feature: string, scope: Scope, now: Instant) returns (tried: seq<nat>)
    requires pool.next < 0x1_0000_0000_0000_0000
    ensures TakesTurns(pool, Candidates(pool.keys, feature, scope, now), tried,
                       Draw(pool, feature, scope, now), feature, now)
  {
    CandidatesAreExact(pool.keys, feature, scope, now);
    tried := RotationTakesTurns(pool, Candidates(pool.keys, feature, scope, now), feature, now);
  }

  // ----- Fairness of the rotation -----

  /** A run of draws of one feature and scope: the pool before each and after the last, and what each gave. */
  ghost predicate DrawRun(pools: seq<Pool>, outcomes: seq<Outcome>, feature: string, scope: Scope, times: seq<Instant>) {
    && |outcomes| == |times| && |pools| == |times| + 1
    && forall i :: 0 <= i < |times| ==> Draw(pools[i], feature, scope, times[i]) == Drawn(pools[i + 1], outcomes[i])
  }

  /** At every draw the candidates are the same and each has room. */
  ghost predicate NeverRefuse(pools: seq<Pool>, places: seq<nat>, feature: string, scope: Scope, times: seq<Instant>)
    requires |pools| == |times| + 1
  {
    forall i :: 0 <= i < |times| ==> AllReady(pools[i], places, feature, scope, times[i])
  }

  ghost predicate AllReady(pool: Pool, places: seq<nat>, feature: string, scope: Scope, now: Instant) {
    && Candidates(pool.keys, feature, scope, now) == places
    && forall a :: 0 <= a < |places| ==> HasRoom(pool.keys[places[a]], feature, now)
  }

  /** How often a place is among the served. */
  function TimesServed(outcomes: seq<Outcome>, place: nat): nat {
    if outcomes == [] then 0
    else (if outcomes[0].Served? && outcomes[0].index == place then 1 else 0) + TimesServed(outcomes[1..], place)
  }

  /** How often a hand that starts at `p` and goes round n positions for m steps stands on position r. */
  function Visits(p: nat, m: nat, n: nat, r: nat): nat
    requires p < n
    decreases m
  {
    if m == 0 then 0 else (if p == r then 1 else 0) + Visits(Around(p, n), m - 1, n, r)
  }

  function Around(p: nat, n: nat): nat {
    if p + 1 == n then 0 else p + 1
  }

  lemma {:induction false} VisitsSplit(p: nat, a: nat, m: nat, n: nat, r: nat)
    requires p < n && a <= n
    ensures var q := if p + a < n then p + a else p + a - n;
            q < n && Visits(p, a + m, n, r) == Visits(p, a, n, r) + Visits(q, m, n, r)
    decreases a
  {
    if a > 0 {
      VisitsSplit(Around(p, n), a - 1, m, n, r);
    }
  }

  lemma {:induction false} VisitsWithinARound(p: nat, m: nat, n: nat, r: nat)
    requires p < n && r < n && m <= n
    ensures Visits(p, m, n, r) == if (if r >= p then r - p else r - p + n) < m then 1 else 0
    decreases m
  {
    if m > 0 {
      VisitsWithinARound(Around(p, n), m - 1, n, r);
    }
  }

  lemma {:induction false} VisitsEven(p: nat, rounds: nat, rest: nat, n: nat, r: nat)
    requires p < n && r < n && rest < n
    ensures Visits(p, rounds * n + rest, n, r) == rounds + Visits(p, rest, n, r)
    decreases rounds
  {
    if rounds > 0 {
      var m := (rounds - 1) * n + rest;
      assert rounds * n + rest == n + m;
      assert m >= 0;
      VisitsSplit(p, n, m, n, r);
      VisitsWithinARound(p, n, n, r);
      VisitsEven(p, rounds - 1, rest, n, r);
    } else {
      assert rounds * n + rest == rest;
    }
  }

  lemma NextPosition(x: nat, n: nat)
    requires n > 0
    ensures (x + 1) % n == Around(x % n, n)
  {
    var q, p := x / n, x % n;
    assert x == q * n + p;
    if p + 1 == n {
      assert x + 1 == (q + 1) * n;
      ModOfMultiple(q + 1, 0, n);
    } else {
      ModOfMultiple(q, p + 1, n);
    }
  }

  lemma {:induction false} ModOfMultiple(q: nat, p: nat, n: nat)
    requires p < n
    ensures (q * n + p) % n == p
  {
    var x := q * n + p;
    var d := x / n - q;
    assert x == x / n * n + x % n;
    assert d * n == p - x % n;
    assert d >= 1 ==> d * n >= n;
    assert d <= -1 ==> d * n + n <= 0;
  }

  lemma FirstCandidateServes(pool: Pool, places: seq<nat>, feature: string, scope: Scope, now: Instant)
    requires AllReady(pool, places, feature, scope, now) && places != []
    ensures var d := Draw(pool, feature, scope, now);
            d.outcome.Served? && d.outcome.index == places[pool.next % |places|] && d.pool.next == Advance(pool.next)
  {
    var place := places[pool.next % |places|];
    CandidatesAreExact(pool.keys, feature, scope, now);
    assert place in places;
    ServedExactlyWithRoom(pool.keys[place], feature, now);
  }

  /** One draw served where the counter pointed and moved it on. */
  predicate InTurn(before: Pool, after: Pool, outcome: Outcome, places: seq<nat>) {
    && places != []
    && outcome.Served? && outcome.index == places[before.next % |places|]
    && after.next == Advance(before.next)
  }

  ghost predicate AllInTurn(pools: seq<Pool>, outcomes: seq<Outcome>, places: seq<nat>) {
    && |pools| == |outcomes| + 1
    && forall i :: 0 <= i < |outcomes| ==> InTurn(pools[i], pools[i + 1], outcomes[i], places)
  }

  lemma ReadyRunIsInTurn(pools: seq<Pool>, outcomes: seq<Outcome>, places: seq<nat>, feature: string,
                         scope: Scope, times: seq<Instant>)
    requires DrawRun(pools, outcomes, feature, scope, times) && NeverRefuse(pools, places, feature, scope, times)
    requires places != []
    ensures AllInTurn(pools, outcomes, places)
  {
    forall i | 0 <= i < |outcomes| ensures InTurn(pools[i], pools[i + 1], outcomes[i], places) {
      FirstCandidateServes(pools[i], places, feature, scope, times[i]);
    }
  }

  /** The hand of the rotation: where the counter points at each draw. */
  ghost predicate Turns(hand: seq<nat>, n: nat) {
    && (forall i :: 0 <= i < |hand| ==> hand[i] < n)
    && forall i :: 0 <= i < |hand| - 1 ==> hand[i + 1] == Around(hand[i], n)
  }

  lemma {:induction false} TurnsCounted(outcomes: seq<Outcome>, hand: seq<nat>, places: seq<nat>, r: nat)
    requires |hand| == |outcomes| && Turns(hand, |places|) && Distinct(places) && r < |places|
    requires forall i :: 0 <= i < |hand| ==> outcomes[i].Served? && outcomes[i].index == places[hand[i]]
    ensures outcomes != [] ==> TimesServed(outcomes, places[r]) == Visits(hand[0], |outcomes|, |places|, r)
    decreases |outcomes|
  {
    if outcomes != [] {
      TurnsCounted(outcomes[1..], hand[1..], places, r);
      assert outcomes[0].index == places[r] <==> hand[0] == r;
    }
  }

  lemma {:induction false} NextsCountUp(pools: seq<Pool>, outcomes: seq<Outcome>, places: seq<nat>, k: nat)
    requires AllInTurn(pools, outcomes, places) && pools[0].next + |outcomes| <= TWO_TO_64 && k <= |outcomes|
    ensures forall i :: 0 <= i < k ==> pools[i].next == pools[0].next + i
    decreases k
  {
    if k > 1 {
      NextsCountUp(pools, outcomes, places, k - 1);
      assert InTurn(pools[k - 2], pools[k - 1], outcomes[k - 2], places);
    }
  }

  /** The position after a value's is the first exactly when the next value is a multiple. */
  lemma FirstPosition(last: nat, next: nat, n: nat)
    requires n > 0 && next == last + 1
    ensures Around(last % n, n) == 0 <==> next % n == 0
  {
    NextPosition(last, n);
  }

  lemma NothingModulo(n: nat)
    requires n > 0
    ensures 0 % n == 0
  {}

  /** The counter keeps the rotation going at its wrap exactly when the number of candidates divides it. */
  lemma TurnAtTheWrap(n: nat)
    requires n > 0
    ensures var last: nat := 0xFFFF_FFFF_FFFF_FFFF;
            Advance(last) % n == Around(last % n, n) <==> 0x1_0000_0000_0000_0000 % n == 0
  {
    var last: nat := 0xFFFF_FFFF_FFFF_FFFF;
    FirstPosition(last, 0x1_0000_0000_0000_0000, n);
    NothingModulo(n);
    assert Advance(last) == 0;
  }

  /** No draw of the run steps over the wrap, or the wrap does no harm. */
  predicate KeepsTurns(next: nat, draws: nat, n: nat)
    requires n > 0
  {
    next + draws <= 0x1_0000_0000_0000_0000
    || (next < 0x1_0000_0000_0000_0000 && 0x1_0000_0000_0000_0000 % n == 0)
  }

  lemma TurnOfCounter(next: nat, n: nat)
    requires n > 0 && (next + 1 < TWO_TO_64 || (next + 1 == TWO_TO_64 && TWO_TO_64 % n == 0))
    ensures Advance(next) % n == Around(next % n, n)
  {
    if next + 1 < TWO_TO_64 {
      assert Advance(next) == next + 1;
      NextPosition(next, n);
    } else {
      TurnAtTheWrap(n);
    }
  }

  lemma CounterInRange(pools: seq<Pool>, outcomes: seq<Outcome>, places: seq<nat>, i: nat)
    requires AllInTurn(pools, outcomes, places) && places != [] && i < |outcomes| - 1
    requires KeepsTurns(pools[0].next, |outcomes|, |places|)
    ensures pools[i + 1].next == Advance(pools[i].next)
    ensures var next := pools[i].next;
            next + 1 < TWO_TO_64 || (next + 1 == TWO_TO_64 && TWO_TO_64 % |places| == 0)
  {
    assert InTurn(pools[i], pools[i + 1], outcomes[i], places);
    if pools[0].next + |outcomes| <= TWO_TO_64 {
      NextsCountUp(pools, outcomes, places, |outcomes|);
    } else if i > 0 {
      assert InTurn(pools[i - 1], pools[i], outcomes[i - 1], places);
    }
  }

  lemma NextTurn(pools: seq<Pool>, outcomes: seq<Outcome>, places: seq<nat>, i: nat)
    requires AllInTurn(pools, outcomes, places) && places != [] && i < |outcomes| - 1
    requires KeepsTurns(pools[0].next, |outcomes|, |places|)
    ensures pools[i + 1].next % |places| == Around(pools[i].next % |places|, |places|)
  {
    CounterInRange(pools, outcomes, places, i);
    TurnOfCounter(pools[i].next, |places|);
  }

  /** Draws serve the candidates in strict rotation. */
  lemma ServedInRotation(pools: seq<Pool>, outcomes: seq<Outcome>, places: seq<nat>, r: nat)
    requires AllInTurn(pools, outcomes, places) && Distinct(places) && r < |places|
    requires KeepsTurns(pools[0].next, |outcomes|, |places|)
    ensures TimesServed(outcomes, places[r]) == Visits(pools[0].next % |places|, |outcomes|, |places|, r)
  {
    var hand := seq(|outcomes|, i requires 0 <= i < |outcomes| => pools[i].next % |places|);
    forall i | 0 <= i < |outcomes|
      ensures outcomes[i].Served? && outcomes[i].index == places[hand[i]]
      ensures i < |outcomes| - 1 ==> hand[i + 1] == Around(hand[i], |places|)
    {
      assert InTurn(pools[i], pools[i + 1], outcomes[i], places);
      if i < |outcomes| - 1 { NextTurn(pools, outcomes, places, i); }
    }
    TurnsCounted(outcomes, hand, places, r);
  }

  /** Fairness: over rounds * n + rest draws from n candidates that never refuse, every candidate is served
      `rounds` times, or once more if its turn is among the `rest`. */
  lemma RotationIsFair(pools: seq<Pool>, outcomes: seq<Outcome>, places: seq<nat>, feature: string,
                       scope: Scope, times: seq<Instant>, rounds: nat, rest: nat, r: nat)
    requires DrawRun(pools, outcomes, feature, scope, times) && NeverRefuse(pools, places, feature, scope, times)
    requires Distinct(places) && r < |places|
    requires |times| == rounds * |places| + rest && rest < |places|
    requires KeepsTurns(pools[0].next, |times|, |places|)
    ensures var p := pools[0].next % |places|;
            var turn := if r >= p then r - p else r - p + |places|;
            TimesServed(outcomes, places[r]) == rounds + (if turn < rest then 1 else 0)
  {
    var p := pools[0].next % |places|;
    ReadyRunIsInTurn(pools, outcomes, places, feature, scope, times);
    ServedInRotation(pools, outcomes, places, r);
    VisitsEven(p, rounds, rest, |places|, r);
    VisitsWithinARound(p, rest, |places|, r);
  }
}
