/** A reload as it runs beside other work: it reads the rows, and installs what it read later. */
module SplitReloads {
  import opened Common
  import opened Keys
  import opened Pools
  import opened Stores
  import opened System
  import opened Refinement

  /** The second half of a reload that read these rows. */
  function Install(s: Sys, read: Store): Sys {
    var keys := ReloadFrom(s.pool.keys, read, read.order);
    s.(pool := s.pool.(keys := keys), answers := StillPooled(s.answers, keys))
  }

  lemma InstallOfTheRowsIsAReload(s: Sys)
    ensures Install(s, s.store) == AfterReload(s)
  {}

  predicate Reads(read: Store, id: string) {
    id in read.order && Pooled(read, id)
  }

  lemma InstalledExactlyWhatWasRead(s: Sys, read: Store, id: string)
    requires WellFormed(read)
    ensures Find(Install(s, read).pool.keys, id).Some? <==> Reads(read, id)
  {
    ReloadPlaces(s.pool.keys, read, read.order);
  }

  /** A key the install lets in stands, as far as its row is still there, exactly as the row that was read. */
  lemma InstalledKey(s: Sys, read: Store, i: nat)
    requires Valid(s) && WellFormed(read) && CoherentKeys(s) && i < |Install(s, read).pool.keys|
    ensures var k := Install(s, read).pool.keys[i];
            && Reads(read, k.row.id)
            && (CoherentKey(Install(s, read), k)
                <==> (Find(s.pool.keys, k.row.id).None? && k.row.id in s.store.rows ==>
                        Settled(s, k.row.id) == read.rows[k.row.id].usage))
  {
    ReloadPlaces(s.pool.keys, read, read.order);
    var k := Install(s, read).pool.keys[i];
    var place := Find(s.pool.keys, k.row.id);
    if place.Some? { assert CoherentKey(s, s.pool.keys[place.value]); }
  }

  /** A stale install keeps the refinement exactly if every key it lets in was read as what its row settles at now. */
  lemma InstallKeepsExactlyIfReadAsSettled(s: Sys, read: Store)
    requires Valid(s) && WellFormed(read) && CoherentKeys(s)
    ensures CoherentKeys(Install(s, read))
            <==> forall id :: Reads(read, id) && Find(s.pool.keys, id).None? && id in s.store.rows ==>
                   Settled(s, id) == read.rows[id].usage
  {
    var after := Install(s, read);
    forall i | 0 <= i < |after.pool.keys|
      ensures var k := after.pool.keys[i];
              && Reads(read, k.row.id)
              && (CoherentKey(after, k)
                  <==> (Find(s.pool.keys, k.row.id).None? && k.row.id in s.store.rows ==>
                          Settled(s, k.row.id) == read.rows[k.row.id].usage))
    {
      InstalledKey(s, read, i);
    }
    if CoherentKeys(after) {
      forall id | Reads(read, id) && Find(s.pool.keys, id).None? && id in s.store.rows
        ensures Settled(s, id) == read.rows[id].usage
      {
        InstalledExactlyWhatWasRead(s, read, id);
        assert CoherentKey(after, after.pool.keys[Find(after.pool.keys, id).value]);
      }
    }
  }

  /** The reload after it keeps the refinement exactly if every key that was not read settles at its row as it is. */
  lemma ReloadAfterInstallKeepsExactly(s: Sys, read: Store)
    requires Valid(s) && WellFormed(read) && CoherentKeys(Install(s, read))
    ensures CoherentKeys(AfterReload(Install(s, read)))
            <==> forall id :: id in s.store.rows && Pooled(s.store, id) && !Reads(read, id) ==>
                   Settled(s, id) == s.store.rows[id].usage
  {
    var installed := Install(s, read);
    ReloadPlaces(s.pool.keys, read, read.order);
    ReloadKeepsExactlyIfEntersClean(installed);
    forall id | id in s.store.rows ensures Find(installed.pool.keys, id).Some? <==> Reads(read, id) {
      InstalledExactlyWhatWasRead(s, read, id);
    }
    assert forall id :: id in s.store.rows ==> Settled(installed, id) == Settled(s, id);
  }

  /** A new key in the pool stands as its row does. */
  lemma NewKeyIsItsRow(s: Sys, id: string)
    requires Valid(s) && Coherent(s) && id in s.store.rows && Find(s.pool.keys, id).None?
    ensures var place := Find(AfterReload(s).pool.keys, id);
            place.Some? && AfterReload(s).pool.keys[place.value] == Reloaded([], s.store, id)
  {
    ReloadPlaces(s.pool.keys, s.store, s.store.order);
    assert Pooled(s.store, id);
  }

  /** A draw that serves a capped key queues an update of its row that is not nothing. */
  lemma ServeQueuesAnUpdate(s: Sys, place: nat, feature: string, now: Instant)
    requires Valid(s) && place < |s.pool.keys| && s.flight == map[]
    requires var k := s.pool.keys[place];
             && k.row.id in s.store.rows && k.usage == s.store.rows[k.row.id].usage && k.row.id !in s.queue
             && k.features == FeaturesOf(s.store, k.row.id)
             && Available(k, now) && HasRoom(k, feature, now) && k.row.usageLimit.Some?
    ensures var k := s.pool.keys[place];
            var draw := DrawKey(k.row.id, feature, None, now);
            && Serves(s, draw) == Some(k.row.id) && Next(s, draw).flight == map[] && Next(s, draw).store == s.store
            && Settled(Next(s, draw), k.row.id) != s.store.rows[k.row.id].usage
  {
    FindIsSome(s.pool.keys, s.pool.keys[place].row.id, place);
    ServedExactlyWithRoom(s.pool.keys[place], feature, now);
  }

  /** The run that loses a serve: a reload reads the rows; a key is added, reloaded into the pool and served; the first
      reload installs what it read, without the key; and the next reload brings the key back from a row that has not
      seen the serve. Every state before the stale install is coherent; the last one is not. */
  lemma SplitReloadForgetsAServe(s: Sys, written: Store, id: string, feature: string, now: Instant)
    requires Valid(s) && Coherent(s) && s.flight == map[]
    requires AdminKeeps(s, written) && id in written.rows && id !in s.store.rows
    requires var k := Reloaded([], written, id); Available(k, now) && HasRoom(k, feature, now) && k.row.usageLimit.Some?
    ensures var added := Next(Next(s, AdminWrite(written)), ReloadKeys);
            var served := Next(added, DrawKey(id, feature, None, now));
            var again := AfterReload(Install(served, s.store));
            && Coherent(added) && Serves(added, DrawKey(id, feature, None, now)) == Some(id)
            && (NoEmptyRollOver(added.pool.keys, now) ==> Coherent(served))
            && var place := Find(again.pool.keys, id);
               place.Some? && !CoherentKey(again, again.pool.keys[place.value])
  {
    var wrote := Next(s, AdminWrite(written));
    StepStaysCoherent(s, AdminWrite(written));
    StepStaysCoherent(wrote, ReloadKeys);
    var added := Next(wrote, ReloadKeys);
    NewKeyIsItsRow(wrote, id);
    var place := Find(added.pool.keys, id).value;
    ServeQueuesAnUpdate(added, place, feature, now);
    var served := Next(added, DrawKey(id, feature, None, now));
    StepStaysValid(added, DrawKey(id, feature, None, now));
    if NoEmptyRollOver(added.pool.keys, now) { StepStaysCoherent(added, DrawKey(id, feature, None, now)); }
    StaleInstallForgets(served, s.store, id);
  }

  /** A key a stale install drops with usage queued comes back without it. */
  lemma StaleInstallForgets(s: Sys, read: Store, id: string)
    requires WellFormed(s.store) && WellFormed(read) && id in s.store.rows && Pooled(s.store, id) && id !in read.rows
    requires Settled(s, id) != s.store.rows[id].usage
    ensures var again := AfterReload(Install(s, read));
            var place := Find(again.pool.keys, id);
            place.Some? && !CoherentKey(again, again.pool.keys[place.value])
  {
    var installed := Install(s, read);
    InstalledExactlyWhatWasRead(s, read, id);
    ReloadPlaces(installed.pool.keys, s.store, s.store.order);
  }
}
