/** The coalescing of usage updates: each pending entry is an update of one row's
    (usage_count, usage_window_start), and a failed entry is composed with what came after it. */
module UsageQueue {
  import opened Common
  import opened Keys
  import Window

  /** "Add n", or with a reset "the window started then and counts n". */
  datatype Usage = Usage(n: int, reset: Option<Instant>)

  type Queue = map<string, Usage>

  /** AddUsage and ResetUsageWindow, on the two columns they write. */
  function Apply(u: Usage, row: Counter): Counter {
    if u.reset.Some? then Window.Counter(u.n, u.reset)
    else row.(count := row.count + u.n)
  }

  function ApplyEntry(q: Queue, id: string, row: Counter): Counter {
    if id in q then Apply(q[id], row) else row
  }

  function Served(q: Queue, id: string): Queue {
    q[id := if id in q then Usage(q[id].n + 1, q[id].reset) else Usage(1, None)]
  }

  function WindowReset(q: Queue, id: string, start: Instant): Queue {
    q[id := Usage(1, Some(start))]
  }

  /** Manager.persistUsage for one serve. */
  function Persist(q: Queue, id: string, charge: Charge): Queue {
    match charge
    case Nothing => q
    case OneServe => Served(q, id)
    case NewWindow(start) => WindowReset(q, id, start)
  }

  function Merge(failed: Usage, now: Usage): Usage {
    if now.reset.Some? then now else Usage(now.n + failed.n, failed.reset)
  }

  function Requeue(q: Queue, id: string, failed: Usage): Queue {
    q[id := if id in q then Merge(failed, q[id]) else failed]
  }

  /** Requeueing is composition: the merged entry does what the failed one and then the newer one would. */
  lemma MergeIsComposition(failed: Usage, now: Usage, row: Counter)
    ensures Apply(Merge(failed, now), row) == Apply(now, Apply(failed, row))
  {}

  lemma RequeueIsComposition(q: Queue, id: string, failed: Usage, row: Counter)
    ensures ApplyEntry(Requeue(q, id, failed), id, row) == ApplyEntry(q, id, Apply(failed, row))
  {}

  /** The update a serve leaves does to the row exactly what the gate did to the counter, unless the gate rolled
      the window over and then refused: that roll-over is the one change the queue never hears of. */
  lemma ChargeMirrorsTheGate(k: Key, feature: string, now: Instant, q: Queue, row: Counter)
    requires ApplyEntry(q, k.row.id, row) == k.usage
    ensures var t := TryServe(k, feature, now);
            ApplyEntry(Persist(q, k.row.id, t.charge), k.row.id, row) == t.after.usage
            <==> !(TryRate(k, feature, now).ok && RollsOverUnserved(k, now))
  {}

  /** The order of two charges matters: a window's first serve queued after the second forgets the second. This is
      what a draw's gates and its queueing being one step rules out. */
  lemma ChargesQueueInOrder(q: Queue, id: string, start: Instant, row: Counter)
    ensures ApplyEntry(Persist(Persist(q, id, NewWindow(start)), id, OneServe), id, row) == Window.Counter(2, Some(start))
    ensures ApplyEntry(Persist(Persist(q, id, OneServe), id, NewWindow(start)), id, row) == Window.Counter(1, Some(start))
  {}
}
