/** The cache of consumer lookups, and how it agrees with the database it stands for. */
module AuthCaches {
  import opened Common

  datatype Consumer = Consumer(id: string, isActive: bool)

  /** Consumers under their token hash, and the tiers each may draw from, in row order. */
  datatype AuthDb = AuthDb(consumers: map<string, Consumer>, scopes: map<string, seq<string>>)

  datatype Caller = Caller(consumerId: string, allowedTierIds: set<string>)

  datatype Entry = Entry(caller: Caller, expires: Instant)

  /** GetConsumerByTokenHash: only an active consumer is found. */
  function ConsumerOf(db: AuthDb, tokenHash: string): Option<string> {
    if tokenHash in db.consumers && db.consumers[tokenHash].isActive then Some(db.consumers[tokenHash].id) else None
  }

  function ScopesOf(db: AuthDb, consumerId: string): seq<string> {
    if consumerId in db.scopes then db.scopes[consumerId] else []
  }

  /** The caller of a consumer read from one state of the database with the scopes of another. */
  function LookupOver(first: AuthDb, second: AuthDb, tokenHash: string): Option<Caller> {
    var id := ConsumerOf(first, tokenHash);
    if id.None? then None else Some(Caller(id.value, set tier | tier in ScopesOf(second, id.value)))
  }

  /** A lookup that misses the cache and reads both tables at once. */
  function FreshLookup(db: AuthDb, tokenHash: string): Option<Caller> {
    LookupOver(db, db, tokenHash)
  }

  /** The consumer of an answer is there and active under this token. */
  predicate IsActiveUnder(db: AuthDb, tokenHash: string, consumerId: string) {
    tokenHash in db.consumers && db.consumers[tokenHash].isActive && db.consumers[tokenHash].id == consumerId
  }

  /** A tier is listed for the consumer. */
  predicate IsListed(db: AuthDb, consumerId: string, tier: string) {
    consumerId in db.scopes && tier in db.scopes[consumerId]
  }

  /** A lookup answers a caller exactly if the first state has its consumer, active under the token, and its tiers are
      those the second lists for it; so it answers nobody exactly if no active consumer has the token. */
  lemma LookupByColumns(first: AuthDb, second: AuthDb, tokenHash: string, caller: Caller)
    ensures LookupOver(first, second, tokenHash) == Some(caller)
            <==> IsActiveUnder(first, tokenHash, caller.consumerId)
                 && forall tier :: tier in caller.allowedTierIds <==> IsListed(second, caller.consumerId, tier)
    ensures LookupOver(first, second, tokenHash) == None
            <==> forall consumerId :: !IsActiveUnder(first, tokenHash, consumerId)
  {
    var id := ConsumerOf(first, tokenHash);
    if id.Some? {
      assert IsActiveUnder(first, tokenHash, id.value);
      var tiers := set tier | tier in ScopesOf(second, id.value);
      assert forall tier :: tier in tiers <==> IsListed(second, id.value, tier);
      if forall tier :: tier in caller.allowedTierIds <==> IsListed(second, id.value, tier) {
        assert caller.consumerId == id.value ==> caller.allowedTierIds == tiers;
      }
    }
  }

  class AuthCache {
    const ttl: int
    var entries: map<string, Entry>

    constructor (ttl: int)
      ensures this.ttl == ttl && entries == map[]
    {
      this.ttl, entries := ttl, map[];
    }

    method Get(tokenHash: string, now: Instant) returns (caller: Option<Caller>)
      ensures caller == if tokenHash in entries && now <= entries[tokenHash].expires
                        then Some(entries[tokenHash].caller) else None
    {
      if tokenHash !in entries || now > entries[tokenHash].expires {
        return None;
      }
      caller := Some(entries[tokenHash].caller);
    }

    method Put(tokenHash: string, caller: Caller, now: Instant)
      modifies this
      ensures entries == old(entries)[tokenHash := Entry(caller, now + ttl)]
    {
      entries := entries[tokenHash := Entry(caller, now + ttl)];
    }

    method ClearAfterWrite(onlyReads: bool)
      modifies this
      ensures entries == if onlyReads then old(entries) else map[]
    {
      if !onlyReads {
        entries := map[];
      }
    }

    /** Server.consumerCaller: the consumer is read from `first`, its scopes from `second`, and the entry is put at
        `later`. A failed read is an error and caches nothing. */
    method ConsumerCaller(first: AuthDb, second: AuthDb, tokenHash: string, now: Instant, later: Instant,
                          consumersUp: bool, scopesUp: bool)
      returns (caller: Option<Caller>, failed: bool)
      modifies this
      ensures var cached := tokenHash in old(entries) && now <= old(entries)[tokenHash].expires;
              var found := LookupOver(first, second, tokenHash);
              && (cached ==> caller == Some(old(entries)[tokenHash].caller) && !failed && entries == old(entries))
              && (!cached && !failed ==> caller == found)
              && (!cached ==> (failed <==> !consumersUp || (found.Some? && !scopesUp)))
              && (!cached ==> entries == if !failed && found.Some?
                                         then old(entries)[tokenHash := Entry(found.value, later + ttl)] else old(entries))
    {
      failed := false;
      caller := Get(tokenHash, now);
      if caller.Some? {
        return;
      }
      if !consumersUp {
        return None, true;
      }
      var id := ConsumerOf(first, tokenHash);
      if id.None? {
        return None, false;
      }
      if !scopesUp {
        return None, true;
      }
      var scopeIds := ScopesOf(second, id.value);
      var allowed: set<string> := {};
      for i := 0 to |scopeIds|
        invariant allowed == set tier | tier in scopeIds[..i]
      {
        allowed := allowed + {scopeIds[i]};
      }
      assert scopeIds[..|scopeIds|] == scopeIds;
      caller := Some(Caller(id.value, allowed));
      Put(tokenHash, caller.value, later);
    }
  }

  // ----- Lookups and admin writes interleaved -----

  /** The database from an instant on, and the admin write that made it so. */
  datatype Version = Version(db: AuthDb, since: Instant, writer: nat)

  /** A lookup under way, with the instant of its miss, how many versions there had been at its first read, and what
      it has read so far. */
  datatype Lookup =
    | Missed(tokenHash: string, began: Instant)
    | HasConsumer(tokenHash: string, began: Instant, seen: nat, id: string)
    | HasScopes(tokenHash: string, began: Instant, seen: nat, caller: Caller)

  /** A cached entry with the lookup that made it: when it missed, when it was put, and what it had seen. */
  datatype Kept = Kept(entry: Entry, began: Instant, put: Instant, seen: nat)

  /** `writes` are the admin writes whose handler has begun and whose clearing is still to come. */
  datatype State = State(versions: seq<Version>, entries: map<string, Kept>, lookups: map<nat, Lookup>, writes: set<nat>,
                         clock: Instant)

  datatype Step =
    | Miss(lookup: nat, tokenHash: string, now: Instant)
    | ReadConsumer(lookup: nat, now: Instant)
    | ReadScopes(lookup: nat, now: Instant)
    | PutEntry(lookup: nat, now: Instant)
    | GiveUp(lookup: nat)
    | BeginWrite(write: nat)
    | WriteDb(write: nat, db: AuthDb, now: Instant)
    | EndWrite(write: nat)

  function Db(s: State): AuthDb
    requires s.versions != []
  {
    s.versions[|s.versions| - 1].db
  }

  function TimeOf(s: State, step: Step): Instant {
    if step.GiveUp? || step.BeginWrite? || step.EndWrite? then s.clock else step.now
  }

  /** The write has not made a version yet. */
  predicate IsNew(s: State, write: nat) {
    write !in s.writes && forall v :: 0 <= v < |s.versions| ==> s.versions[v].writer != write
  }

  /** The clock does not go back; a lookup starts only on a miss and reads in order; the database changes only inside
      an admin write. */
  predicate Enabled(s: State, step: Step) {
    && s.versions != [] && TimeOf(s, step) >= s.clock
    && match step
       case Miss(l, h, now) => l !in s.lookups && !(h in s.entries && now <= s.entries[h].entry.expires)
       case ReadConsumer(l, _) => l in s.lookups && s.lookups[l].Missed?
       case ReadScopes(l, _) => l in s.lookups && s.lookups[l].HasConsumer?
       case PutEntry(l, _) => l in s.lookups && s.lookups[l].HasScopes?
       case GiveUp(l) => l in s.lookups
       case BeginWrite(w) => IsNew(s, w)
       case WriteDb(w, _, _) => w in s.writes
       case EndWrite(w) => w in s.writes
  }

  function Next(s: State, step: Step, ttl: int): State
    requires Enabled(s, step)
  {
    var s' := s.(clock := TimeOf(s, step));
    match step
    case Miss(l, h, now) => s'.(lookups := s.lookups[l := Missed(h, now)])
    case ReadConsumer(l, _) =>
      var id := ConsumerOf(Db(s), s.lookups[l].tokenHash);
      if id.None? then s'.(lookups := s.lookups - {l})
      else s'.(lookups := s.lookups[l := HasConsumer(s.lookups[l].tokenHash, s.lookups[l].began, |s.versions|, id.value)])
    case ReadScopes(l, _) =>
      var caller := Caller(s.lookups[l].id, set tier | tier in ScopesOf(Db(s), s.lookups[l].id));
      s'.(lookups := s.lookups[l := HasScopes(s.lookups[l].tokenHash, s.lookups[l].began, s.lookups[l].seen, caller)])
    case PutEntry(l, now) =>
      s'.(entries := s.entries[s.lookups[l].tokenHash :=
                                 Kept(Entry(s.lookups[l].caller, now + ttl), s.lookups[l].began, now, s.lookups[l].seen)],
          lookups := s.lookups - {l})
    case GiveUp(l) => s'.(lookups := s.lookups - {l})
    case BeginWrite(w) => s'.(writes := s.writes + {w})
    case WriteDb(w, db, now) => s'.(versions := s.versions + [Version(db, now, w)])
    case EndWrite(w) => s'.(writes := s.writes - {w}, entries := map[])
  }

  ghost predicate IsRun(s: State, steps: seq<Step>, ttl: int)
    decreases |steps|
  {
    steps == [] || (Enabled(s, steps[0]) && IsRun(Next(s, steps[0], ttl), steps[1..], ttl))
  }

  ghost function Run(s: State, steps: seq<Step>, ttl: int): State
    requires IsRun(s, steps, ttl)
    decreases |steps|
  {
    if steps == [] then s else Run(Next(s, steps[0], ttl), steps[1..], ttl)
  }

  predicate Initial(s: State) {
    |s.versions| == 1 && s.versions[0].since <= s.clock && s.entries == map[] && s.lookups == map[] && s.writes == {}
  }

  // ----- When a cached answer is a fresh one -----

  /** Every write that has changed the database since `seen` versions is still to clear the cache. */
  predicate StillToClear(s: State, seen: nat) {
    forall v :: seen <= v < |s.versions| ==> s.versions[v].writer in s.writes
  }

  /** A lookup puts its entry only if no write that has changed the database since its first read has cleared the cache
      already. */
  predicate PutsInTime(s: State, step: Step) {
    step.PutEntry? && step.lookup in s.lookups && s.lookups[step.lookup].HasScopes? ==>
      StillToClear(s, s.lookups[step.lookup].seen)
  }

  ghost predicate AlwaysInTime(s: State, steps: seq<Step>, ttl: int)
    requires IsRun(s, steps, ttl)
    decreases |steps|
  {
    steps == [] || (PutsInTime(s, steps[0]) && AlwaysInTime(Next(s, steps[0], ttl), steps[1..], ttl))
  }

  /** What a lookup has read is what the database holds, unless the database has changed since its first read. */
  predicate LookupIsFresh(s: State, l: Lookup)
    requires s.versions != []
  {
    match l
    case Missed(_, _) => true
    case HasConsumer(h, _, seen, id) => seen <= |s.versions| && (seen == |s.versions| ==> ConsumerOf(Db(s), h) == Some(id))
    case HasScopes(h, _, seen, caller) =>
      seen <= |s.versions| && (seen == |s.versions| ==> FreshLookup(Db(s), h) == Some(caller))
  }

  predicate EntryIsFresh(s: State, h: string, k: Kept)
    requires s.versions != []
  {
    && k.seen <= |s.versions| && StillToClear(s, k.seen)
    && (k.seen == |s.versions| ==> FreshLookup(Db(s), h) == Some(k.entry.caller))
  }

  ghost predicate Agrees(s: State) {
    && s.versions != []
    && (forall h :: h in s.entries ==> EntryIsFresh(s, h, s.entries[h]))
    && (forall l :: l in s.lookups ==> LookupIsFresh(s, s.lookups[l]))
  }

  lemma WriteKeepsAgreement(s: State, w: nat, db: AuthDb, now: Instant, ttl: int)
    requires Agrees(s) && Enabled(s, WriteDb(w, db, now))
    ensures Agrees(Next(s, WriteDb(w, db, now), ttl))
  {
    var after := Next(s, WriteDb(w, db, now), ttl);
    forall h | h in s.entries ensures EntryIsFresh(after, h, s.entries[h]) {
      assert EntryIsFresh(s, h, s.entries[h]);
      forall v | s.entries[h].seen <= v < |after.versions| ensures after.versions[v].writer in after.writes {
        if v < |s.versions| { assert s.versions[v].writer in s.writes; }
      }
    }
    forall l | l in s.lookups ensures LookupIsFresh(after, s.lookups[l]) {
      assert LookupIsFresh(s, s.lookups[l]);
    }
  }

  lemma StepKeepsAgreement(s: State, step: Step, ttl: int)
    requires Agrees(s) && Enabled(s, step) && PutsInTime(s, step)
    ensures Agrees(Next(s, step, ttl))
  {
    if step.WriteDb? {
      WriteKeepsAgreement(s, step.write, step.db, step.now, ttl);
    } else {
      var after := Next(s, step, ttl);
      forall h | h in after.entries ensures EntryIsFresh(after, h, after.entries[h]) {
        if h in s.entries { assert EntryIsFresh(s, h, s.entries[h]); }
        if step.PutEntry? { assert LookupIsFresh(s, s.lookups[step.lookup]); }
      }
      forall l | l in after.lookups ensures LookupIsFresh(after, after.lookups[l]) {
        if l in s.lookups { assert LookupIsFresh(s, s.lookups[l]); }
      }
    }
  }

  /** Agreement: where no lookup puts its entry after the clearing of a write it did not see, every cached answer is
      what the database answers at that moment, unless a write has changed the database and its clearing is still to
      come, and its consumer is there and active; so a revocation holds as soon as its write returns. */
  lemma {:induction false} CachedAnswersAreFresh(s: State, steps: seq<Step>, ttl: int, h: string)
    requires Agrees(s) && IsRun(s, steps, ttl) && AlwaysInTime(s, steps, ttl)
    ensures var end := Run(s, steps, ttl);
            && Agrees(end)
            && (h in end.entries ==>
                  || (FreshLookup(Db(end), h) == Some(end.entries[h].entry.caller)
                      && IsActiveUnder(Db(end), h, end.entries[h].entry.caller.consumerId))
                  || exists v :: end.entries[h].seen <= v < |end.versions| && end.versions[v].writer in end.writes)
    decreases |steps|
  {
    if steps == [] {
      if h in s.entries && FreshLookup(Db(s), h) != Some(s.entries[h].entry.caller) {
        assert EntryIsFresh(s, h, s.entries[h]);
        assert s.versions[|s.versions| - 1].writer in s.writes;
      }
      if h in s.entries { LookupByColumns(Db(s), Db(s), h, s.entries[h].entry.caller); }
    } else {
      StepKeepsAgreement(s, steps[0], ttl);
      CachedAnswersAreFresh(Next(s, steps[0], ttl), steps[1..], ttl, h);
    }
  }

  /** A whole admin write inside a lookup, after its reads and before its put. */
  function WriteInsideLookup(s: State, l: nat, w: nat, db: AuthDb, now: Instant, ttl: int): State
    requires Enabled(s, PutEntry(l, now)) && IsNew(s, w)
  {
    var begun := Next(s, BeginWrite(w), ttl);
    var written := Next(begun, WriteDb(w, db, now), ttl);
    var ended := Next(written, EndWrite(w), ttl);
    Next(ended, PutEntry(l, now), ttl)
  }

  /** Without that: the entry such a lookup puts agrees with the database exactly when the write left the consumer's
      answer as it was; the clearing has come too early to matter. */
  lemma OverlapAgreesExactlyIfUnchanged(s: State, l: nat, w: nat, db: AuthDb, now: Instant, ttl: int)
    requires Enabled(s, PutEntry(l, now)) && IsNew(s, w)
    requires LookupIsFresh(s, s.lookups[l]) && s.lookups[l].seen == |s.versions|
    ensures var after, h := WriteInsideLookup(s, l, w, db, now, ttl), s.lookups[l].tokenHash;
            && after.writes == s.writes && after.versions != [] && Db(after) == db && h in after.entries
            && (FreshLookup(db, h) == Some(after.entries[h].entry.caller)
                <==> FreshLookup(db, h) == FreshLookup(Db(s), h))
  {}

  /** So a consumer revoked by that write, whatever else it does, is still answered for, a time to live long. */
  lemma OverlapRestoresARevokedConsumer(s: State, l: nat, w: nat, db: AuthDb, now: Instant, ttl: nat)
    requires Enabled(s, PutEntry(l, now)) && IsNew(s, w)
    requires ConsumerOf(db, s.lookups[l].tokenHash).None?
    ensures var after, h := WriteInsideLookup(s, l, w, db, now, ttl), s.lookups[l].tokenHash;
            && after.versions != [] && FreshLookup(Db(after), h).None?
            && h in after.entries && now + ttl <= after.entries[h].entry.expires
            && after.entries[h].entry.caller == s.lookups[l].caller
  {}

  // ----- In every interleaving, a cached answer is not old -----

  /** A version that was current at some instant from `began` on. */
  predicate CurrentSince(versions: seq<Version>, i: nat, began: Instant) {
    i < |versions| && (i + 1 < |versions| ==> versions[i + 1].since >= began)
  }

  /** The consumer was read from a version current since `began`, the scopes from the same version or a later one. */
  ghost predicate ReadSince(versions: seq<Version>, h: string, caller: Caller, began: Instant) {
    exists i: nat, j: nat :: ReadFrom(versions, h, caller, began, i, j)
  }

  predicate ReadFrom(versions: seq<Version>, h: string, caller: Caller, began: Instant, i: nat, j: nat) {
    && CurrentSince(versions, i, began) && i <= j < |versions|
    && ConsumerOf(versions[i].db, h) == Some(caller.consumerId)
    && caller.allowedTierIds == set tier | tier in ScopesOf(versions[j].db, caller.consumerId)
  }

  ghost predicate ConsumerReadSince(versions: seq<Version>, h: string, id: string, began: Instant) {
    exists i: nat :: CurrentSince(versions, i, began) && ConsumerOf(versions[i].db, h) == Some(id)
  }

  ghost predicate LookupIsRecent(s: State, l: Lookup) {
    l.began <= s.clock && match l
    case Missed(_, _) => true
    case HasConsumer(h, began, _, id) => ConsumerReadSince(s.versions, h, id, began)
    case HasScopes(h, began, _, caller) => ReadSince(s.versions, h, caller, began)
  }

  ghost predicate EntryIsRecent(s: State, h: string, k: Kept, ttl: int) {
    && k.began <= k.put <= s.clock && k.entry.expires == k.put + ttl
    && ReadSince(s.versions, h, k.entry.caller, k.began)
  }

  ghost predicate AllRecent(s: State, ttl: int) {
    && s.versions != []
    && (forall h :: h in s.entries ==> EntryIsRecent(s, h, s.entries[h], ttl))
    && (forall l :: l in s.lookups ==> LookupIsRecent(s, s.lookups[l]))
  }

  lemma MoreVersions(versions: seq<Version>, v: Version, h: string, caller: Caller, id: string, began: Instant)
    requires v.since >= began
    ensures ReadSince(versions, h, caller, began) ==> ReadSince(versions + [v], h, caller, began)
    ensures ConsumerReadSince(versions, h, id, began) ==> ConsumerReadSince(versions + [v], h, id, began)
  {
    if i: nat, j: nat :| ReadFrom(versions, h, caller, began, i, j) {
      assert ReadFrom(versions + [v], h, caller, began, i, j);
    }
    if i: nat :| CurrentSince(versions, i, began) && ConsumerOf(versions[i].db, h) == Some(id) {
      assert CurrentSince(versions + [v], i, began) && ConsumerOf((versions + [v])[i].db, h) == Some(id);
    }
  }

  lemma WriteKeepsRecent(s: State, w: nat, db: AuthDb, now: Instant, ttl: int)
    requires AllRecent(s, ttl) && Enabled(s, WriteDb(w, db, now))
    ensures AllRecent(Next(s, WriteDb(w, db, now), ttl), ttl)
  {
    var after := Next(s, WriteDb(w, db, now), ttl);
    forall h | h in s.entries ensures EntryIsRecent(after, h, s.entries[h], ttl) {
      MoreVersions(s.versions, Version(db, now, w), h, s.entries[h].entry.caller, "", s.entries[h].began);
    }
    forall l | l in s.lookups ensures LookupIsRecent(after, s.lookups[l]) {
      match s.lookups[l] {
        case Missed(h, began) =>
        case HasConsumer(h, began, _, id) => MoreVersions(s.versions, Version(db, now, w), h, Caller("", {}), id, began);
        case HasScopes(h, began, _, caller) => MoreVersions(s.versions, Version(db, now, w), h, caller, "", began);
      }
    }
  }

  lemma ReadConsumerIsRecent(s: State, l: nat, now: Instant, ttl: int)
    requires AllRecent(s, ttl) && Enabled(s, ReadConsumer(l, now))
    ensures AllRecent(Next(s, ReadConsumer(l, now), ttl), ttl)
  {
    var id := ConsumerOf(Db(s), s.lookups[l].tokenHash);
    if id.Some? {
      assert CurrentSince(s.versions, |s.versions| - 1, s.lookups[l].began);
      assert ConsumerReadSince(s.versions, s.lookups[l].tokenHash, id.value, s.lookups[l].began);
    }
  }

  lemma ReadScopesIsRecent(s: State, l: nat, now: Instant, ttl: int)
    requires AllRecent(s, ttl) && Enabled(s, ReadScopes(l, now))
    ensures AllRecent(Next(s, ReadScopes(l, now), ttl), ttl)
  {
    var h, began, id := s.lookups[l].tokenHash, s.lookups[l].began, s.lookups[l].id;
    assert LookupIsRecent(s, s.lookups[l]);
    var i: nat :| CurrentSince(s.versions, i, began) && ConsumerOf(s.versions[i].db, h) == Some(id);
    var caller := Caller(id, set tier | tier in ScopesOf(Db(s), id));
    assert ReadFrom(s.versions, h, caller, began, i, |s.versions| - 1);
  }

  lemma StepKeepsRecent(s: State, step: Step, ttl: int)
    requires AllRecent(s, ttl) && Enabled(s, step)
    ensures AllRecent(Next(s, step, ttl), ttl)
  {
    match step {
      case WriteDb(w, db, now) => WriteKeepsRecent(s, w, db, now, ttl);
      case ReadConsumer(l, now) => ReadConsumerIsRecent(s, l, now, ttl);
      case ReadScopes(l, now) => ReadScopesIsRecent(s, l, now, ttl);
      case PutEntry(l, now) => assert LookupIsRecent(s, s.lookups[l]);
      case _ =>
    }
  }

  /** Bounded staleness: in every interleaving of lookups and admin writes, an answer the cache gives at `now` was
      read from the database no earlier than `now`, less the time to live, less the time its lookup took. */
  lemma {:induction false} CachedAnswersAreRecent(s: State, steps: seq<Step>, ttl: int, h: string, now: Instant)
    requires AllRecent(s, ttl) && IsRun(s, steps, ttl)
    ensures var end := Run(s, steps, ttl);
            AllRecent(end, ttl) &&
            (h in end.entries && now <= end.entries[h].entry.expires ==>
               var k := end.entries[h];
               k.began >= now - ttl - (k.put - k.began) && ReadSince(end.versions, h, k.entry.caller, k.began))
    decreases |steps|
  {
    if steps != [] {
      StepKeepsRecent(s, steps[0], ttl);
      CachedAnswersAreRecent(Next(s, steps[0], ttl), steps[1..], ttl, h, now);
    }
  }

  /** Both invariants hold of the cache the service starts with. */
  lemma StartsEmpty(s: State, ttl: int)
    requires Initial(s)
    ensures Agrees(s) && AllRecent(s, ttl)
  {}
}
