/** The write-behind queue: the Writer of usage counts and audit events, and the event queue over whole runs. */
module Writeback {
  import opened Common
  import opened Keys
  import opened Stores
  import opened UsageQueue

  const DEFAULT_MAX_EVENTS: nat := 10_000

  /** What keepEvents keeps: the newest `max`. */
  function Newest<T>(s: seq<T>, max: nat): seq<T> {
    if |s| > max then s[|s| - max..] else s
  }

  /** The store call a flush makes for one entry. */
  function StoreEntry(s: Store, id: string, u: Usage): Store {
    if u.reset.Some? then ResetUsageWindow(s, id, u.reset.value, u.n) else AddUsage(s, id, u.n)
  }

  lemma StoreEntryApplies(s: Store, id: string, u: Usage)
    ensures StoreEntry(s, id, u)
            == if id in s.rows then s.(rows := s.rows[id := s.rows[id].(usage := Apply(u, s.rows[id].usage))]) else s
  {}

  /** A whole flush of a queue, the entries of the keys in `down` failing. */
  function Flushed(s: Store, q: Queue, down: set<string>): Store {
    s.(rows := map id | id in s.rows ::
         if id in q && id !in down then s.rows[id].(usage := Apply(q[id], s.rows[id].usage)) else s.rows[id])
  }

  function Only(q: Queue, ids: set<string>): Queue {
    map id | id in q && id in ids :: q[id]
  }

  /** One entry more of a flush. */
  lemma FlushedNext(s: Store, q: Queue, down: set<string>, todo: set<string>, id: string)
    requires id in todo && todo <= q.Keys
    ensures Flushed(s, q, down + (todo - {id}))
            == if id in down then Flushed(s, q, down + todo) else StoreEntry(Flushed(s, q, down + todo), id, q[id])
    ensures Only(q, down - (todo - {id}))
            == if id in down then Requeue(Only(q, down - todo), id, q[id]) else Only(q, down - todo)
  {
    if id in down {
      assert down + (todo - {id}) == down + todo;
      assert down - (todo - {id}) == (down - todo) + {id};
    } else {
      assert down - (todo - {id}) == down - todo;
      StoreEntryApplies(Flushed(s, q, down + todo), id, q[id]);
      assert Flushed(s, q, down + (todo - {id})).rows == StoreEntry(Flushed(s, q, down + todo), id, q[id]).rows;
    }
  }

  // ----- What arrives while a flush is under way -----

  /** A serve's charge, or an event. */
  datatype Arrival = Charging(id: string, charge: Charge) | Occurring(event: UsageEvent)

  function Queued(q: Queue, arrivals: seq<Arrival>): Queue
    decreases |arrivals|
  {
    if arrivals == [] then q
    else
      var earlier, last := Queued(q, Front(arrivals)), Last(arrivals);
      if last.Charging? then Persist(earlier, last.id, last.charge) else earlier
  }

  function EventsOf(arrivals: seq<Arrival>): seq<UsageEvent>
    decreases |arrivals|
  {
    if arrivals == [] then []
    else EventsOf(Front(arrivals)) + (if Last(arrivals).Occurring? then [Last(arrivals).event] else [])
  }

  function Flatten<T>(batches: seq<seq<T>>): seq<T>
    decreases |batches|
  {
    if batches == [] then [] else Flatten(Front(batches)) + Last(batches)
  }

  lemma NewestOfSuffix<T>(s: seq<T>, cut: nat, max: nat)
    requires cut + max <= |s|
    ensures Newest(s[cut..], max) == Newest(s, max)
  {}

  lemma NewestOfFirst<T>(a: seq<T>, b: seq<T>, max: nat)
    ensures Newest(Newest(a, max) + b, max) == Newest(a + b, max)
  {
    if |a| > max {
      assert Newest(a, max) + b == (a + b)[|a| - max..];
      NewestOfSuffix(a + b, |a| - max, max);
    }
  }

  lemma NewestOfSecond<T>(a: seq<T>, b: seq<T>, max: nat)
    ensures Newest(a + Newest(b, max), max) == Newest(a + b, max)
  {
    if |b| > max {
      assert (a + b)[|a| + |b| - max..] == b[|b| - max..];
      assert (a + b[|b| - max..])[|a|..] == b[|b| - max..];
    }
  }

  lemma NewestOfBoth<T>(a: seq<T>, b: seq<T>, max: nat)
    ensures Newest(Newest(a, max) + Newest(b, max), max) == Newest(a + b, max)
    ensures Newest(Newest(a, max) + b, max) == Newest(a + b, max)
    ensures Newest(a + Newest(b, max), max) == Newest(a + b, max)
  {
    NewestOfFirst(a, b, max);
    NewestOfSecond(a, b, max);
    NewestOfSecond(Newest(a, max), b, max);
  }

  lemma {:induction false} QueuedAppend(q: Queue, a: seq<Arrival>, b: seq<Arrival>)
    ensures Queued(q, a + b) == Queued(Queued(q, a), b)
    decreases |b|
  {
    if b == [] {
      assert a + b == a;
    } else {
      assert Front(a + b) == a + Front(b);
      QueuedAppend(q, a, Front(b));
    }
  }

  lemma {:induction false} EventsAppend(a: seq<Arrival>, b: seq<Arrival>)
    ensures EventsOf(a + b) == EventsOf(a) + EventsOf(b)
    decreases |b|
  {
    if b == [] {
      assert a + b == a;
    } else {
      assert Front(a + b) == a + Front(b);
      EventsAppend(a, Front(b));
    }
  }

  lemma QueuedMore(q: Queue, stretches: seq<seq<Arrival>>, more: seq<Arrival>)
    ensures Queued(q, Flatten(stretches + [more])) == Queued(Queued(q, Flatten(stretches)), more)
  {
    assert Front(stretches + [more]) == stretches;
    QueuedAppend(q, Flatten(stretches), more);
  }

  lemma NewestMore(stretches: seq<seq<Arrival>>, more: seq<Arrival>, max: nat)
    ensures Newest(EventsOf(Flatten(stretches + [more])), max)
            == Newest(Newest(EventsOf(Flatten(stretches)), max) + EventsOf(more), max)
  {
    assert Front(stretches + [more]) == stretches;
    EventsAppend(Flatten(stretches), more);
    NewestOfBoth(EventsOf(Flatten(stretches)), EventsOf(more), max);
  }

  lemma OneMoreArrival(q: Queue, events: seq<UsageEvent>, arrivals: seq<Arrival>, i: nat, max: nat)
    requires i < |arrivals|
    ensures var earlier, a := arrivals[..i], arrivals[i];
            && Queued(q, arrivals[..i + 1])
               == (if a.Charging? then Persist(Queued(q, earlier), a.id, a.charge) else Queued(q, earlier))
            && Newest(events + EventsOf(arrivals[..i + 1]), max)
               == (if a.Occurring? then Newest(Newest(events + EventsOf(earlier), max) + [a.event], max)
                   else Newest(events + EventsOf(earlier), max))
  {
    var earlier, a := arrivals[..i], arrivals[i];
    assert Front(arrivals[..i + 1]) == earlier;
    if a.Occurring? {
      NewestOfBoth(events + EventsOf(earlier), [a.event], max);
      assert events + EventsOf(earlier) + [a.event] == events + (EventsOf(earlier) + [a.event]);
    } else {
      assert EventsOf(arrivals[..i + 1]) == EventsOf(earlier);
    }
  }

  lemma FlushEnd(batch: seq<UsageEvent>, late: seq<UsageEvent>, max: nat)
    ensures Newest(batch + Newest(late, max), max) == Newest(batch + late, max)
    ensures [] + late == late
  {
    NewestOfBoth(batch, late, max);
  }

  lemma RequeueUnderOne(q: Queue, other: string, charge: Charge, id: string, failed: Usage)
    ensures Requeue(Persist(q, other, charge), id, failed) == Persist(Requeue(q, id, failed), other, charge)
  {}

  /** A failed entry requeued after later charges lies under them, as if it had never left. */
  lemma {:induction false} RequeueUnder(q: Queue, arrivals: seq<Arrival>, id: string, failed: Usage)
    ensures Requeue(Queued(q, arrivals), id, failed) == Queued(Requeue(q, id, failed), arrivals)
    decreases |arrivals|
  {
    if arrivals != [] {
      var last := Last(arrivals);
      RequeueUnder(q, Front(arrivals), id, failed);
      if last.Charging? { RequeueUnderOne(Queued(q, Front(arrivals)), last.id, last.charge, id, failed); }
    }
  }

  lemma ChargedAlike(q: Queue, row: Counter, q': Queue, row': Counter, other: string, charge: Charge, id: string)
    requires ApplyEntry(q, id, row) == ApplyEntry(q', id, row')
    ensures ApplyEntry(Persist(q, other, charge), id, row) == ApplyEntry(Persist(q', other, charge), id, row')
  {}

  /** Queue and row that stand for the same counter still do after the same arrivals. */
  lemma {:induction false} ArrivalsAlike(q: Queue, row: Counter, q': Queue, row': Counter, arrivals: seq<Arrival>,
                                         id: string)
    requires ApplyEntry(q, id, row) == ApplyEntry(q', id, row')
    ensures ApplyEntry(Queued(q, arrivals), id, row) == ApplyEntry(Queued(q', arrivals), id, row')
    decreases |arrivals|
  {
    if arrivals != [] {
      var earlier, last := Front(arrivals), Last(arrivals);
      ArrivalsAlike(q, row, q', row', earlier, id);
      if last.Charging? { ChargedAlike(Queued(q, earlier), row, Queued(q', earlier), row', last.id, last.charge, id); }
    }
  }

  /** A flush moves updates from the queue to the rows and loses none, whatever fails and whatever arrives meanwhile:
      row and queue together stand for the same counter as with no flush at all, for every key. */
  lemma FlushConserves(s: Store, q: Queue, down: set<string>, arrivals: seq<Arrival>, id: string)
    requires id in s.rows
    ensures ApplyEntry(Queued(Only(q, down), arrivals), id, Flushed(s, q, down).rows[id].usage)
            == ApplyEntry(Queued(q, arrivals), id, s.rows[id].usage)
  {
    ArrivalsAlike(Only(q, down), Flushed(s, q, down).rows[id].usage, q, s.rows[id].usage, arrivals, id);
  }

  class Writer {
    var usage: Queue
    var events: seq<UsageEvent>
    const maxEvents: nat

    /** The writer's events as the event machine has them, with a batch in flight or none. */
    ghost function EventsWith(flight: Option<seq<UsageEvent>>, recorded: seq<seq<UsageEvent>>): EventState
      reads this
    {
      EventState(events, flight, recorded)
    }

    constructor ()
      ensures usage == map[] && events == [] && maxEvents == 10_000
      ensures EventsWith(None, []) == START
    {
      usage, events, maxEvents := map[], [], DEFAULT_MAX_EVENTS;
    }

    method Serve(id: string)
      modifies `usage
      ensures usage == Served(old(usage), id)
    {
      var u := Usage(0, None);
      if id in usage {
        u := usage[id];
      }
      usage := usage[id := u.(n := u.n + 1)];
    }

    method ResetWindow(id: string, start: Instant)
      modifies `usage
      ensures usage == WindowReset(old(usage), id, start)
    {
      usage := usage[id := Usage(1, Some(start))];
    }

    /** Manager.persistUsage. */
    method PersistCharge(id: string, charge: Charge)
      modifies `usage
      ensures usage == Persist(old(usage), id, charge)
    {
      match charge
      case Nothing =>
      case OneServe => Serve(id);
      case NewWindow(start) => ResetWindow(id, start);
    }

    method Event(e: UsageEvent)
      modifies `events
      ensures events == Newest(old(events) + [e], maxEvents)
      ensures forall flight, recorded ::
                EventsWith(flight, recorded) == After(old(EventsWith(flight, recorded)), EventStep.Arrive(e), maxEvents)
    {
      KeepEvents(events + [e]);
    }

    method KeepEvents(kept: seq<UsageEvent>)
      modifies `events
      ensures events == Newest(kept, maxEvents)
    {
      var drop := if |kept| - maxEvents > 0 then |kept| - maxEvents else 0;
      events := kept[drop..];
    }

    /** The first locked section of a flush: the queue is taken out and starts again empty. */
    method Swap(ghost recorded: seq<seq<UsageEvent>>) returns (served: Queue, batch: seq<UsageEvent>)
      modifies `usage, `events
      ensures served == old(usage) && batch == old(events)
      ensures usage == map[] && events == []
      ensures EventsWith(Some(batch), recorded) == After(old(EventsWith(None, recorded)), TakeOut, maxEvents)
    {
      served, batch := usage, events;
      usage, events := map[], [];
    }

    method RequeueUsage(id: string, failed: Usage)
      modifies `usage
      ensures usage == Requeue(old(usage), id, failed)
    {
      if id !in usage {
        usage := usage[id := failed];
        return;
      }
      var now := usage[id];
      if now.reset.Some? {
        assert usage[id := now] == usage;
        return;
      }
      usage := usage[id := Usage(now.n + failed.n, failed.reset)];
    }

    /** One turn of the flush's loop: the entry reaches its row or goes back to the queue. */
    method FlushEntry(store: Postgres, id: string, u: Usage, up: bool)
      modifies `usage, store`rows
      ensures store.View() == if up then StoreEntry(old(store.View()), id, u) else old(store.View())
      ensures usage == if up then old(usage) else Requeue(old(usage), id, u)
    {
      var ok;
      if u.reset.Some? {
        ok := store.ResetUsageWindowCall(id, u.reset.value, u.n, up);
      } else {
        ok := store.AddUsageCall(id, u.n, up);
      }
      if !ok {
        RequeueUsage(id, u);
      }
    }

    /** The end of a flush: the batch is recorded, or put back before the events that came meanwhile. */
    method FlushEvents(store: Postgres, batch: seq<UsageEvent>, up: bool)
      modifies `events, store`batches
      ensures store.batches == if batch != [] && up then old(store.batches) + [batch] else old(store.batches)
      ensures events == if batch == [] || up then old(events) else Newest(batch + old(events), maxEvents)
      ensures EventsWith(None, store.batches)
              == After(old(EventsWith(Some(batch), store.batches)), Finish(up), maxEvents)
    {
      if |batch| == 0 {
        return;
      }
      var ok := store.RecordUsageEventsCall(batch, up);
      if !ok {
        KeepEvents(batch + events);
      }
    }

    method ArriveOne(a: Arrival)
      requires |events| <= maxEvents
      modifies `usage, `events
      ensures usage == if a.Charging? then Persist(old(usage), a.id, a.charge) else old(usage)
      ensures events == if a.Occurring? then Newest(old(events) + [a.event], maxEvents) else old(events)
    {
      match a
      case Charging(id, charge) => PersistCharge(id, charge);
      case Occurring(e) => Event(e);
    }

    /** What others do to the writer between two of a flush's locked sections. */
    method Arrive(arrivals: seq<Arrival>)
      requires |events| <= maxEvents
      modifies `usage, `events
      ensures usage == Queued(old(usage), arrivals)
      ensures events == Newest(old(events) + EventsOf(arrivals), maxEvents)
    {
      assert events + [] == events;
      for i := 0 to |arrivals|
        invariant usage == Queued(old(usage), arrivals[..i])
        invariant events == Newest(old(events) + EventsOf(arrivals[..i]), maxEvents)
      {
        OneMoreArrival(old(usage), old(events), arrivals, i, maxEvents);
        ArriveOne(arrivals[i]);
      }
      assert arrivals[..|arrivals|] == arrivals;
    }

    /** A flush. The entries of the keys in `down` fail, and the events if `eventsDown`; others' charges and events
        arrive between its store calls and during the last, `meanwhile` says which after how many calls. */
    method Flush(store: Postgres, down: set<string>, eventsDown: bool, meanwhile: seq<seq<Arrival>>)
      requires |meanwhile| == |usage| + 1
      modifies `usage, `events, store`rows, store`batches
      ensures store.View() == Flushed(old(store.View()), old(usage), down)
      ensures usage == Queued(Only(old(usage), down), Flatten(meanwhile))
      ensures store.batches == if old(events) != [] && !eventsDown then old(store.batches) + [old(events)]
                               else old(store.batches)
      ensures events == Newest((if eventsDown then old(events) else []) + EventsOf(Flatten(meanwhile)), maxEvents)
    {
      var batch := FlushUsage(store, down, meanwhile);
      FlushEnd(batch, EventsOf(Flatten(meanwhile)), maxEvents);
      FlushEvents(store, batch, !eventsDown);
    }

    /** The flush up to its call for the events, with what arrives during that. */
    method FlushUsage(store: Postgres, down: set<string>, meanwhile: seq<seq<Arrival>>) returns (batch: seq<UsageEvent>)
      requires |meanwhile| == |usage| + 1
      modifies `usage, `events, store`rows
      ensures batch == old(events) && store.View() == Flushed(old(store.View()), old(usage), down)
      ensures usage == Queued(Only(old(usage), down), Flatten(meanwhile))
      ensures events == Newest(EventsOf(Flatten(meanwhile)), maxEvents)
    {
      ghost var before := store.View();
      var served;
      served, batch := Swap(store.batches);
      FlushEntries(store, served, down, meanwhile, before);
      ArriveMeanwhile(meanwhile[|served|], store, before, served, down, {}, meanwhile[..|served|]);
      assert meanwhile[..|served|] + [meanwhile[|served|]] == meanwhile;
      assert down + {} == down && down - {} == down;
    }

    /** A flush that took `served`, with the entries of `todo` still to store and these stretches arrived since. */
    ghost predicate Flushing(store: Postgres, before: Store, served: Queue, down: set<string>, todo: set<string>,
                             arrived: seq<seq<Arrival>>)
      reads this, store
    {
      && todo <= served.Keys && store.View() == Flushed(before, served, down + todo)
      && usage == Queued(Only(served, down - todo), Flatten(arrived))
      && events == Newest(EventsOf(Flatten(arrived)), maxEvents)
    }

    method ArriveMeanwhile(more: seq<Arrival>, ghost store: Postgres, ghost before: Store, ghost served: Queue,
                           ghost down: set<string>, ghost todo: set<string>, ghost arrived: seq<seq<Arrival>>)
      requires Flushing(store, before, served, down, todo, arrived)
      modifies `usage, `events
      ensures Flushing(store, before, served, down, todo, arrived + [more])
    {
      QueuedMore(Only(served, down - todo), arrived, more);
      NewestMore(arrived, more, maxEvents);
      Arrive(more);
    }

    /** One turn of the loop, up to the end of its store call. */
    method FlushTurn(store: Postgres, id: string, u: Usage, up: bool, ghost before: Store, ghost served: Queue,
                     ghost down: set<string>, ghost todo: set<string>, ghost arrived: seq<seq<Arrival>>)
      requires Flushing(store, before, served, down, todo, arrived)
      requires id in todo && u == served[id] && up == (id !in down)
      modifies `usage, store`rows
      ensures Flushing(store, before, served, down, todo - {id}, arrived)
    {
      FlushedNext(before, served, down, todo, id);
      RequeueUnder(Only(served, down - todo), Flatten(arrived), id, u);
      FlushEntry(store, id, u, up);
    }

    /** The flush's loop over the entries it took, in any order. */
    method FlushEntries(store: Postgres, served: Queue, down: set<string>, meanwhile: seq<seq<Arrival>>, ghost before: Store)
      requires |meanwhile| == |served| + 1 && usage == map[] && events == [] && store.View() == before
      modifies `usage, `events, store`rows
      ensures Flushing(store, before, served, down, {}, meanwhile[..|served|])
    {
      var todo := served.Keys;
      var n := 0;
      assert Flushed(before, served, down + todo) == before;
      while todo != {}
        invariant n + |todo| == |served| && Flushing(store, before, served, down, todo, meanwhile[..n])
      {
        var id :| id in todo;
        FlushTurn(store, id, served[id], id !in down, before, served, down, todo, meanwhile[..n]);
        todo := todo - {id};
        ArriveMeanwhile(meanwhile[n], store, before, served, down, todo, meanwhile[..n]);
        assert meanwhile[..n + 1] == meanwhile[..n] + [meanwhile[n]];
        n := n + 1;
      }
    }
  }

  // ----- The event queue over whole runs -----

  /** What can happen to the events: one arrives, a flush takes them out, that flush's store call ends. */
  datatype EventStep = Arrive(event: UsageEvent) | TakeOut | Finish(stored: bool)

  datatype EventState = EventState(pending: seq<UsageEvent>, flight: Option<seq<UsageEvent>>,
                                   recorded: seq<seq<UsageEvent>>)

  /** A flush ends only after it began, and the next begins only after that. */
  predicate Enabled(s: EventState, step: EventStep) {
    match step
    case Arrive(_) => true
    case TakeOut => s.flight.None?
    case Finish(_) => s.flight.Some?
  }

  function After(s: EventState, step: EventStep, max: nat): EventState
    requires Enabled(s, step)
  {
    match step
    case Arrive(e) => s.(pending := Newest(s.pending + [e], max))
    case TakeOut => s.(pending := [], flight := Some(s.pending))
    case Finish(stored) =>
      var batch := s.flight.value;
      if batch == [] then s.(flight := None)
      else if stored then s.(flight := None, recorded := s.recorded + [batch])
      else s.(flight := None, pending := Newest(batch + s.pending, max))
  }

  /** Events arriving one after the other. */
  function ArriveAll(s: EventState, events: seq<UsageEvent>, max: nat): EventState
    decreases |events|
  {
    if events == [] then s else After(ArriveAll(s, Front(events), max), Arrive(Last(events)), max)
  }

  lemma {:induction false} ArriveAllKeepsTheNewest(s: EventState, events: seq<UsageEvent>, max: nat)
    requires s.pending == []
    ensures ArriveAll(s, events, max) == s.(pending := Newest(events, max))
    decreases |events|
  {
    if events != [] {
      ArriveAllKeepsTheNewest(s, Front(events), max);
      NewestOfBoth(Front(events), [Last(events)], max);
      assert Front(events) + [Last(events)] == events;
    }
  }

  /** What Writer.Flush leaves of the events is a run of the machine: the batch is taken out, the events that come
      meanwhile arrive, and the store call ends. */
  lemma FlushIsAnEventRun(s: EventState, late: seq<UsageEvent>, stored: bool, max: nat)
    requires s.flight.None?
    ensures var taken := ArriveAll(After(s, TakeOut, max), late, max);
            && Enabled(taken, Finish(stored))
            && After(taken, Finish(stored), max)
               == EventState(Newest((if stored then [] else s.pending) + late, max), None,
                             if s.pending != [] && stored then s.recorded + [s.pending] else s.recorded)
  {
    ArriveAllKeepsTheNewest(After(s, TakeOut, max), late, max);
    NewestOfBoth(s.pending, late, max);
    assert [] + late == late;
  }

  const START := EventState([], None, [])

  /** A run of the queue of a new writer, in any interleaving. */
  ghost predicate EventRun(steps: seq<EventStep>, max: nat)
    decreases |steps|, 0
  {
    steps == [] ||
    (EventRun(Front(steps), max) && Enabled(EventsAfter(Front(steps), max), Last(steps)))
  }

  ghost function EventsAfter(steps: seq<EventStep>, max: nat): EventState
    requires EventRun(steps, max)
    decreases |steps|, 1
  {
    if steps == [] then START else After(EventsAfter(Front(steps), max), Last(steps), max)
  }

  /** Every event that arrived, in order. */
  function Log(steps: seq<EventStep>): seq<UsageEvent>
    decreases |steps|
  {
    if steps == [] then []
    else Log(Front(steps)) + (if Last(steps).Arrive? then [Last(steps).event] else [])
  }

  /** How much of the log had arrived when the last flush began. */
  function Swapped(steps: seq<EventStep>): nat
    decreases |steps|
  {
    if steps == [] then 0
    else if Last(steps).TakeOut? then |Log(Front(steps))|
    else Swapped(Front(steps))
  }

  /** How much of the log had arrived when the last flush that succeeded began. */
  function Settled(steps: seq<EventStep>): nat
    decreases |steps|
  {
    if steps == [] then 0
    else if Last(steps) == Finish(true) then Swapped(Front(steps))
    else Settled(Front(steps))
  }

  /** With `settled` and `swapped` marking the log, pending and in-flight events are the newest of their parts. */
  ghost predicate HoldsTheNewest(s: EventState, log: seq<UsageEvent>, settled: nat, swapped: nat, max: nat)
    requires settled <= swapped <= |log|
  {
    if s.flight.None? then s.pending == Newest(log[settled..], max)
    else s.flight.value == Newest(log[settled..swapped], max) && s.pending == Newest(log[swapped..], max)
  }

  lemma SuffixGrows<T>(log: seq<T>, from: nat, e: T, max: nat)
    requires from <= |log|
    ensures Newest(Newest(log[from..], max) + [e], max) == Newest((log + [e])[from..], max)
  {
    NewestOfBoth(log[from..], [e], max);
    assert (log + [e])[from..] == log[from..] + [e];
  }

  lemma ArrivalHoldsTheNewest(s: EventState, log: seq<UsageEvent>, settled: nat, swapped: nat, e: UsageEvent, max: nat)
    requires settled <= swapped <= |log| && HoldsTheNewest(s, log, settled, swapped, max)
    ensures HoldsTheNewest(After(s, Arrive(e), max), log + [e], settled, swapped, max)
  {
    if s.flight.None? {
      SuffixGrows(log, settled, e, max);
    } else {
      SuffixGrows(log, swapped, e, max);
      assert (log + [e])[settled..swapped] == log[settled..swapped];
    }
  }

  lemma FinishHoldsTheNewest(s: EventState, log: seq<UsageEvent>, settled: nat, swapped: nat, stored: bool, max: nat)
    requires settled <= swapped <= |log| && HoldsTheNewest(s, log, settled, swapped, max) && s.flight.Some?
    ensures HoldsTheNewest(After(s, Finish(stored), max), log, if stored then swapped else settled, swapped, max)
  {
    NewestOfBoth(log[settled..swapped], log[swapped..], max);
    assert log[settled..swapped] + log[swapped..] == log[settled..];
  }

  lemma {:induction false} MarksAreOrdered(steps: seq<EventStep>)
    ensures Settled(steps) <= Swapped(steps) <= |Log(steps)|
    decreases |steps|
  {
    if steps != [] { MarksAreOrdered(Front(steps)); }
  }

  /** Pending and in-flight events are the newest of those no successful flush has taken. */
  lemma {:induction false} PendingIsTheNewest(steps: seq<EventStep>, max: nat)
    requires EventRun(steps, max)
    ensures Settled(steps) <= Swapped(steps) <= |Log(steps)|
    ensures HoldsTheNewest(EventsAfter(steps, max), Log(steps), Settled(steps), Swapped(steps), max)
    decreases |steps|
  {
    MarksAreOrdered(steps);
    if steps != [] {
      PendingIsTheNewest(Front(steps), max);
      StepHoldsTheNewest(EventsAfter(Front(steps), max), Log(Front(steps)), Settled(Front(steps)),
                         Swapped(Front(steps)), Last(steps), max);
    }
  }

  /** Pending events as a stretch of the log: its end, from the last batch taken or stored on, and never more than the
      newest `max`; and a batch in flight the newest `max` of what lies before. */
  ghost predicate EndsTheLog(s: EventState, log: seq<UsageEvent>, settled: nat, swapped: nat, max: nat)
    requires settled <= swapped <= |log|
  {
    var from := if s.flight.None? then settled else swapped;
    && s.pending == log[if |log| - from > max then |log| - max else from..]
    && (s.flight.Some? ==> s.flight.value == log[if swapped - settled > max then swapped - max else settled..swapped])
  }

  lemma NewestEndsTheLog(s: EventState, log: seq<UsageEvent>, settled: nat, swapped: nat, max: nat)
    requires settled <= swapped <= |log| && HoldsTheNewest(s, log, settled, swapped, max)
    ensures EndsTheLog(s, log, settled, swapped, max)
  {
    var from := if s.flight.None? then settled else swapped;
    NewestOfStretch(log, from, |log|, max);
    NewestOfStretch(log, settled, swapped, max);
    assert log[from..|log|] == log[from..];
  }

  lemma PendingIsTheEndOfTheLog(steps: seq<EventStep>, max: nat)
    requires EventRun(steps, max)
    ensures Settled(steps) <= Swapped(steps) <= |Log(steps)|
    ensures EndsTheLog(EventsAfter(steps, max), Log(steps), Settled(steps), Swapped(steps), max)
  {
    PendingIsTheNewest(steps, max);
    NewestEndsTheLog(EventsAfter(steps, max), Log(steps), Settled(steps), Swapped(steps), max);
  }

  lemma NewestOfStretch<T>(log: seq<T>, from: nat, to: nat, max: nat)
    requires from <= to <= |log|
    ensures Newest(log[from..to], max) == log[if to - from > max then to - max else from..to]
  {}

  lemma StepHoldsTheNewest(s: EventState, log: seq<UsageEvent>, settled: nat, swapped: nat, step: EventStep, max: nat)
    requires Enabled(s, step) && settled <= swapped <= |log| && HoldsTheNewest(s, log, settled, swapped, max)
    ensures HoldsTheNewest(After(s, step, max), log + (if step.Arrive? then [step.event] else []),
                           if step == Finish(true) then swapped else settled,
                           if step.TakeOut? then |log| else swapped, max)
  {
    assert log + [] == log;
    match step {
      case Arrive(e) => ArrivalHoldsTheNewest(s, log, settled, swapped, e, max);
      case TakeOut => assert log[settled..|log|] == log[settled..];
      case Finish(stored) => FinishHoldsTheNewest(s, log, settled, swapped, stored, max);
    }
  }

  /** Everything still to be found: what was recorded, what is in flight, what is pending. */
  ghost function Kept(s: EventState): seq<UsageEvent> {
    Flatten(s.recorded) + (if s.flight.Some? then s.flight.value else []) + s.pending
  }

  /** A step that makes the queue longer than it may be. */
  ghost predicate Overflows(s: EventState, step: EventStep, max: nat) {
    match step
    case Arrive(_) => |s.pending| + 1 > max
    case TakeOut => false
    case Finish(stored) => s.flight.Some? && s.flight.value != [] && !stored && |s.flight.value + s.pending| > max
  }

  ghost predicate EverOverflowed(steps: seq<EventStep>, max: nat)
    requires EventRun(steps, max)
    decreases |steps|
  {
    steps != [] && (EverOverflowed(Front(steps), max) || Overflows(EventsAfter(Front(steps), max), Last(steps), max))
  }

  /** `a` is `b` with some elements left out: in order, and each at most once. */
  ghost predicate Subsequence<T>(a: seq<T>, b: seq<T>)
    decreases |b|
  {
    if b == [] then a == []
    else Subsequence(a, Front(b)) || (a != [] && Last(a) == Last(b) && Subsequence(Front(a), Front(b)))
  }

  lemma {:induction false} SubsequenceOfItself<T>(a: seq<T>)
    ensures Subsequence(a, a)
    decreases |a|
  {
    if a != [] { SubsequenceOfItself(Front(a)); }
  }

  lemma {:induction false} SubsequenceIsShorter<T>(a: seq<T>, b: seq<T>)
    requires Subsequence(a, b)
    ensures |a| <= |b| && (|a| == |b| ==> a == b)
    decreases |b|
  {
    if b != [] {
      if Subsequence(a, Front(b)) {
        SubsequenceIsShorter(a, Front(b));
      } else {
        SubsequenceIsShorter(Front(a), Front(b));
        assert a == Front(a) + [Last(a)] && b == Front(b) + [Last(b)];
      }
    }
  }

  /** Leaving out a stretch in the middle of a subsequence leaves one. */
  lemma {:induction false} SubsequenceWithout<T>(a: seq<T>, i: nat, j: nat, b: seq<T>)
    requires i <= j <= |a| && Subsequence(a, b)
    ensures Subsequence(a[..i] + a[j..], b)
    decreases |b|
  {
    var c := a[..i] + a[j..];
    if b == [] {
    } else if Subsequence(a, Front(b)) {
      SubsequenceWithout(a, i, j, Front(b));
    } else if j < |a| {
      SubsequenceWithout(Front(a), i, j, Front(b));
      assert Front(c) == Front(a)[..i] + Front(a)[j..];
    } else if i < |a| {
      SubsequenceWithout(Front(a), i, |a| - 1, Front(b));
      assert c == Front(a)[..i] + Front(a)[|a| - 1..];
    } else {
      assert c == a;
    }
  }

  /** The log is kept whole exactly when nothing ever overflowed; otherwise what is kept is the log with some events
      left out, in order and none twice. */
  lemma {:induction false} LogIsKeptUnlessOverflowed(steps: seq<EventStep>, max: nat)
    requires EventRun(steps, max)
    ensures Subsequence(Kept(EventsAfter(steps, max)), Log(steps))
    ensures Kept(EventsAfter(steps, max)) == Log(steps) <==> !EverOverflowed(steps, max)
    decreases |steps|
  {
    if steps != [] {
      var earlier, step := Front(steps), Last(steps);
      LogIsKeptUnlessOverflowed(earlier, max);
      StepKeepsOrDrops(EventsAfter(earlier, max), step, max, Log(earlier));
    }
  }

  lemma StepKeepsOrDrops(s: EventState, step: EventStep, max: nat, log: seq<UsageEvent>)
    requires Enabled(s, step) && Subsequence(Kept(s), log)
    ensures var log' := log + (if step.Arrive? then [step.event] else []);
            Subsequence(Kept(After(s, step, max)), log')
            && (Kept(After(s, step, max)) == log' <==> Kept(s) == log && !Overflows(s, step, max))
  {
    var log' := log + (if step.Arrive? then [step.event] else []);
    var grown := Kept(s) + (if step.Arrive? then [step.event] else []);
    assert Subsequence(grown, log') by {
      if step.Arrive? {
        assert Front(grown) == Kept(s) && Front(log') == log;
      } else {
        assert grown == Kept(s) && log' == log;
      }
    }
    var i, j := DroppedBy(s, step, max);
    SubsequenceWithout(grown, i, j, log');
    SubsequenceIsShorter(Kept(s), log);
    SubsequenceIsShorter(grown, log');
    SubsequenceIsShorter(grown[..i] + grown[j..], log');
    if i == j {
      assert grown[..i] + grown[j..] == grown;
    }
  }

  /** Cutting `all` after `before` to its newest drops a stretch at its front. */
  lemma CutToNewest<T>(before: seq<T>, all: seq<T>, max: nat) returns (j: nat)
    ensures |before| <= j <= |before + all|
    ensures before + Newest(all, max) == (before + all)[..|before|] + (before + all)[j..]
    ensures |before| < j <==> |all| > max
  {
    j := if |all| > max then |before| + |all| - max else |before|;
    assert (before + all)[j..] == Newest(all, max);
  }

  lemma ArrivalDrops(s: EventState, e: UsageEvent, max: nat) returns (i: nat, j: nat)
    ensures i <= j <= |Kept(s) + [e]|
    ensures Kept(After(s, Arrive(e), max)) == (Kept(s) + [e])[..i] + (Kept(s) + [e])[j..]
    ensures i < j <==> Overflows(s, Arrive(e), max)
  {
    var before := Flatten(s.recorded) + (if s.flight.Some? then s.flight.value else []);
    i := |before|;
    j := CutToNewest(before, s.pending + [e], max);
    assert Kept(s) + [e] == before + (s.pending + [e]);
  }

  lemma FailureDrops(s: EventState, max: nat) returns (i: nat, j: nat)
    requires s.flight.Some? && s.flight.value != []
    ensures i <= j <= |Kept(s)|
    ensures Kept(After(s, Finish(false), max)) == Kept(s)[..i] + Kept(s)[j..]
    ensures i < j <==> Overflows(s, Finish(false), max)
  {
    var past := Flatten(s.recorded);
    var all := s.flight.value + s.pending;
    i := |past|;
    j := CutToNewest(past, all, max);
    assert Kept(s) == past + all;
    assert Kept(After(s, Finish(false), max)) == past + Newest(all, max);
  }

  /** The stretch of events a step drops: a proper one exactly when it overflows. */
  lemma DroppedBy(s: EventState, step: EventStep, max: nat) returns (i: nat, j: nat)
    requires Enabled(s, step)
    ensures var grown := Kept(s) + (if step.Arrive? then [step.event] else []);
            i <= j <= |grown| && Kept(After(s, step, max)) == grown[..i] + grown[j..]
            && (i < j <==> Overflows(s, step, max))
  {
    i, j := 0, 0;
    assert Kept(s) + [] == Kept(s);
    match step {
      case Arrive(e) => i, j := ArrivalDrops(s, e, max);
      case TakeOut => assert Kept(After(s, step, max)) == Kept(s);
      case Finish(stored) =>
        if s.flight.value != [] && !stored {
          i, j := FailureDrops(s, max);
        } else {
          FinishKeeps(s, stored, max);
        }
    }
  }

  lemma FinishKeeps(s: EventState, stored: bool, max: nat)
    requires s.flight.Some? && (s.flight.value == [] || stored)
    ensures Kept(After(s, Finish(stored), max)) == Kept(s)
  {
    var batch := s.flight.value;
    if batch != [] {
      var recorded := s.recorded + [batch];
      assert Front(recorded) == s.recorded;
    }
  }
}
