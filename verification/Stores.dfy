/** The database as the pool and the queue see it: rows, and the effect of each call that writes them. */
module Stores {
  import opened Common
  import opened Budgets
  import opened Keys
  import Window

  datatype Row = Row(key: KeyRow, usage: Counter)

  datatype SpendEvent = SpendEvent(keyId: string, amount: real, unit: string, requestId: string)

  datatype UsageEvent = UsageEvent(id: string, keyId: string, consumerId: string, feature: string)

  /** Keys in order of creation with their rows, the features of each tier, the secrets of each key (opened), and
      spend_events under its unique request_id. */
  datatype Store = Store(
    order: seq<string>, rows: map<string, Row>, tiers: map<string, map<string, FeatureLimit>>,
    secrets: map<string, map<string, string>>, spendEvents: map<string, SpendEvent>)

  ghost predicate WellFormed(s: Store) {
    && (forall id :: id in s.order <==> id in s.rows)
    && (forall id :: id in s.rows ==> s.rows[id].key.id == id)
    && (forall a, b :: 0 <= a < b < |s.order| ==> s.order[a] != s.order[b])
  }

  function FeaturesOf(s: Store, id: string): map<string, FeatureLimit>
    requires id in s.rows
  {
    if s.rows[id].key.tierId in s.tiers then s.tiers[s.rows[id].key.tierId] else map[]
  }

  function SecretsOf(s: Store, id: string): map<string, string> {
    if id in s.secrets then s.secrets[id] else map[]
  }

  /** UPDATE keys ... WHERE id = $1: a missing row is left missing. */
  function WithRow(s: Store, id: string, row: Row): Store
    requires id in s.rows
  {
    s.(rows := s.rows[id := row])
  }

  function WithUsage(s: Store, id: string, usage: Counter): Store {
    if id in s.rows then WithRow(s, id, s.rows[id].(usage := usage)) else s
  }

  function AddUsage(s: Store, id: string, n: int): Store {
    if id in s.rows then WithUsage(s, id, s.rows[id].usage.(count := s.rows[id].usage.count + n)) else s
  }

  function ResetUsageWindow(s: Store, id: string, start: Instant, count: int): Store {
    WithUsage(s, id, Window.Counter(count, Some(start)))
  }

  function SetExhausted(s: Store, id: string, until: Instant): Store {
    if id in s.rows then WithRow(s, id, s.rows[id].(key := s.rows[id].key.(exhaustedUntil := Some(until)))) else s
  }

  /** The row with an amount added in a period; a period other than the row's starts from nothing. */
  function Charged(row: Row, start: Instant, amount: real): Row {
    row.(key := row.key.(spent := Spent(SpentIn(row.key.spent, start) + amount, Some(start))))
  }

  function UnitOf(b: Option<Budget>): Option<string> {
    if b.None? then None else Some(b.value.unit)
  }

  /** PostgresAdapter.UpdateKeyBudget: the spend survives a change that keeps the unit. */
  function UpdateBudget(s: Store, id: string, budget: Option<Budget>): Store
    requires id in s.rows
  {
    var key := s.rows[id].key;
    var spent := if UnitOf(key.budget) == UnitOf(budget) then key.spent else Spent(0.0, None);
    WithRow(s, id, s.rows[id].(key := key.(budget := budget, spent := spent)))
  }

  predicate SameMoney(a: KeyRow, b: KeyRow) {
    a.budget == b.budget && a.spent == b.spent
  }

  datatype Recording = Recorded(store: Store, spent: real, duplicate: bool) | KeyNotFound

  /** PostgresAdapter.RecordSpend, one transaction: the event is kept once per request_id, and counted in the
      given period the first time only. Without a period no row is read or written. */
  function RecordSpend(s: Store, e: SpendEvent, start: Option<Instant>): Recording {
    var duplicate := e.requestId in s.spendEvents;
    if start.None? then
      Recorded(if duplicate then s else s.(spendEvents := s.spendEvents[e.requestId := e]), 0.0, duplicate)
    else if e.keyId !in s.rows then KeyNotFound
    else
      var row := s.rows[e.keyId];
      if duplicate then Recorded(s, SpentIn(row.key.spent, start.value), true)
      else
        var charged := Charged(row, start.value, e.amount);
        Recorded(s.(rows := s.rows[e.keyId := charged], spendEvents := s.spendEvents[e.requestId := e]),
                 charged.key.spent.amount, false)
  }

  /** The database. Each call either takes effect or fails without one; `up` says which. */
  class Postgres {
    var order: seq<string>
    var rows: map<string, Row>
    var tiers: map<string, map<string, FeatureLimit>>
    var secrets: map<string, map<string, string>>
    var spendEvents: map<string, SpendEvent>
    var batches: seq<seq<UsageEvent>>

    ghost function View(): Store
      reads this
    {
      Store(order, rows, tiers, secrets, spendEvents)
    }

    method AddUsageCall(id: string, n: int, up: bool) returns (ok: bool)
      modifies `rows
      ensures ok == up && View() == if up then AddUsage(old(View()), id, n) else old(View())
    {
      if up && id in rows {
        var row := rows[id];
        rows := rows[id := row.(usage := Window.Counter(row.usage.count + n, row.usage.start))];
      }
      ok := up;
    }

    method ResetUsageWindowCall(id: string, start: Instant, count: int, up: bool) returns (ok: bool)
      modifies `rows
      ensures ok == up && View() == if up then ResetUsageWindow(old(View()), id, start, count) else old(View())
    {
      if up && id in rows {
        rows := rows[id := rows[id].(usage := Window.Counter(count, Some(start)))];
      }
      ok := up;
    }

    method RecordUsageEventsCall(events: seq<UsageEvent>, up: bool) returns (ok: bool)
      modifies `batches
      ensures ok == up && batches == if up then old(batches) + [events] else old(batches)
    {
      if up {
        batches := batches + [events];
      }
      ok := up;
    }

    method SetKeyExhaustedCall(id: string, until: Instant, up: bool) returns (ok: bool)
      modifies `rows
      ensures ok == up && View() == if up then SetExhausted(old(View()), id, until) else old(View())
    {
      if up && id in rows {
        var row := rows[id];
        rows := rows[id := row.(key := row.key.(exhaustedUntil := Some(until)))];
      }
      ok := up;
    }

    method UpdateKeyBudgetCall(id: string, budget: Option<Budget>, up: bool) returns (ok: bool)
      modifies `rows
      ensures ok == (up && id in old(rows))
      ensures View() == if up && id in old(rows) then UpdateBudget(old(View()), id, budget) else old(View())
    {
      ok := up && id in rows;
      if ok {
        var row := rows[id];
        var spent := row.key.spent;
        if UnitOf(row.key.budget) != UnitOf(budget) {
          spent := Spent(0.0, None);
        }
        rows := rows[id := row.(key := row.key.(budget := budget, spent := spent))];
      }
    }

    method RecordSpendCall(e: SpendEvent, start: Option<Instant>, up: bool)
      returns (spent: real, duplicate: bool, ok: bool, known: bool)
      modifies `rows, `spendEvents
      ensures ok ==> up
      ensures known == (up ==> !RecordSpend(old(View()), e, start).KeyNotFound?)
      ensures ok == (up && known)
      ensures ok ==> Recorded(View(), spent, duplicate) == RecordSpend(old(View()), e, start)
      ensures !ok ==> View() == old(View())
    {
      spent, duplicate, ok, known := 0.0, e.requestId in spendEvents, up, true;
      if !up {
        return;
      }
      if start.Some? {
        if e.keyId !in rows {
          return 0.0, false, false, false;
        }
        var row := rows[e.keyId];
        spent := if row.key.spent.period == start then row.key.spent.amount else 0.0;
        if !duplicate {
          spent := spent + e.amount;
          rows := rows[e.keyId := row.(key := row.key.(spent := Spent(spent, start)))];
        }
      }
      if !duplicate {
        spendEvents := spendEvents[e.requestId := e];
      }
    }
  }
}
