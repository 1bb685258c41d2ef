/** What the spend ledger holds after any run of reports and budget changes. */
module Ledger {
  import opened Common
  import opened Budgets
  import opened Stores

  /** A spend report with the period the pool computed for it, or an admin's budget change. */
  datatype Step = Report(event: SpendEvent, start: Option<Instant>) | SetBudget(id: string, budget: Option<Budget>)

  function Next(s: Store, step: Step): Store {
    match step
    case Report(e, start) =>
      var r := RecordSpend(s, e, start);
      if r.Recorded? then r.store else s
    case SetBudget(id, budget) => if id in s.rows then UpdateBudget(s, id, budget) else s
  }

  function Run(s: Store, steps: seq<Step>): Store
    decreases |steps|
  {
    if steps == [] then s else Next(Run(s, steps[..|steps| - 1]), steps[|steps| - 1])
  }

  /** The store before step i of a run. */
  function Before(s: Store, steps: seq<Step>, i: nat): Store
    requires i <= |steps|
  {
    Run(s, steps[..i])
  }

  function BudgetIn(s: Store, id: string): Option<Budget> {
    if id in s.rows then s.rows[id].key.budget else None
  }

  function SpentRow(s: Store, id: string): Spent {
    if id in s.rows then s.rows[id].key.spent else Spent(0.0, None)
  }

  /** What Manager.RecordSpend checks before the transaction: either no budget and no period, or a report in the
      budget's unit with its period. */
  ghost predicate Checked(s: Store, step: Step) {
    step.Report? ==>
      && (BudgetIn(s, step.event.keyId).None? <==> step.start.None?)
      && (step.start.Some? ==> step.event.unit == BudgetIn(s, step.event.keyId).value.unit)
  }

  /** A report the transaction records when its request is new: with a period, the key's row has to be there. */
  predicate Recordable(s: Store, step: Step) {
    step.Report? && (step.start.None? || step.event.keyId in s.rows)
  }

  /** A new report for the key is of a period no earlier than the row's. */
  predicate InOrder(s: Store, step: Step, id: string) {
    step.Report? && step.event.keyId == id && step.event.requestId !in s.spendEvents
    && step.start.Some? && SpentRow(s, id).period.Some?
    ==> SpentRow(s, id).period.value <= step.start.value
  }

  ghost predicate InOrderRun(s: Store, steps: seq<Step>, id: string) {
    forall i :: 0 <= i < |steps| ==> InOrder(Before(s, steps, i), steps[i], id)
  }

  // ----- The ledger sum, defined on the history alone -----

  ghost predicate ChangesUnit(s: Store, steps: seq<Step>, i: nat, id: string)
    requires i < |steps|
  {
    steps[i].SetBudget? && steps[i].id == id && id in s.rows
    && UnitOf(BudgetIn(Before(s, steps, i), id)) != UnitOf(steps[i].budget)
  }

  /** No unit change of the key from step `from` on. */
  ghost predicate SameUnitSince(s: Store, steps: seq<Step>, from: nat, id: string) {
    forall i :: from <= i < |steps| ==> !ChangesUnit(s, steps, i, id)
  }

  /** The first recordable report of its request_id. */
  ghost predicate FirstOfItsRequest(s: Store, steps: seq<Step>, i: nat)
    requires i < |steps| && steps[i].Report?
  {
    && steps[i].event.requestId !in s.spendEvents
    && forall j :: 0 <= j < i && Recordable(s, steps[j]) ==> steps[j].event.requestId != steps[i].event.requestId
  }

  ghost predicate Counted(s: Store, steps: seq<Step>, i: nat, id: string, p: Instant)
    requires i < |steps|
  {
    steps[i].Report? && steps[i].event.keyId == id && steps[i].start == Some(p)
    && FirstOfItsRequest(s, steps, i) && SameUnitSince(s, steps, i + 1, id)
  }

  /** The sum over the first k steps of the reports that count for the key in the period, and what the row
      already held there. */
  ghost function Total(s: Store, steps: seq<Step>, k: nat, id: string, p: Instant): real
    requires k <= |steps|
  {
    if k == 0 then
      (if SameUnitSince(s, steps, 0, id) then SpentIn(SpentRow(s, id), p) else 0.0)
    else
      Total(s, steps, k - 1, id, p)
      + (if Counted(s, steps, k - 1, id, p) then steps[k - 1].event.amount else 0.0)
  }

  lemma BeforeIsPrefix(s: Store, steps: seq<Step>, i: nat)
    requires i < |steps|
    ensures Before(s, steps[..|steps| - 1], i) == Before(s, steps, i)
  {
    assert steps[..|steps| - 1][..i] == steps[..i];
  }

  lemma UnitsOfPrefix(s: Store, steps: seq<Step>, from: nat, id: string)
    requires steps != []
    ensures SameUnitSince(s, steps, from, id) <==>
              SameUnitSince(s, steps[..|steps| - 1], from, id)
              && (from < |steps| ==> !ChangesUnit(s, steps, |steps| - 1, id))
  {
    var earlier := steps[..|steps| - 1];
    forall i | 0 <= i < |earlier|
      ensures ChangesUnit(s, steps, i, id) == ChangesUnit(s, earlier, i, id)
    {
      BeforeIsPrefix(s, steps, i);
    }
  }

  lemma CountedOfPrefix(s: Store, steps: seq<Step>, i: nat, id: string, p: Instant)
    requires i < |steps| - 1
    ensures Counted(s, steps, i, id, p) <==>
              Counted(s, steps[..|steps| - 1], i, id, p) && !ChangesUnit(s, steps, |steps| - 1, id)
  {
    var earlier := steps[..|steps| - 1];
    UnitsOfPrefix(s, steps, i + 1, id);
    assert forall j :: 0 <= j <= i ==> steps[j] == earlier[j];
  }

  /** Extending a history keeps every earlier contribution, or wipes them all with a unit change. */
  lemma {:induction false} TotalOfPrefix(s: Store, steps: seq<Step>, k: nat, id: string, p: Instant)
    requires k < |steps|
    ensures Total(s, steps, k, id, p)
            == if ChangesUnit(s, steps, |steps| - 1, id) then 0.0 else Total(s, steps[..|steps| - 1], k, id, p)
  {
    var earlier := steps[..|steps| - 1];
    if k == 0 {
      UnitsOfPrefix(s, steps, 0, id);
    } else {
      TotalOfPrefix(s, steps, k - 1, id, p);
      CountedOfPrefix(s, steps, k - 1, id, p);
    }
  }

  /** One step keeps the keys, and remembers the request of the report it records. */
  lemma StepKeepsKeys(s: Store, step: Step)
    ensures Next(s, step).rows.Keys == s.rows.Keys
    ensures Next(s, step).spendEvents.Keys
            == if Recordable(s, step) then s.spendEvents.Keys + {step.event.requestId} else s.spendEvents.Keys
  {}

  ghost predicate Requested(s: Store, steps: seq<Step>, requestId: string) {
    exists j :: 0 <= j < |steps| && Recordable(s, steps[j]) && steps[j].event.requestId == requestId
  }

  lemma RequestedLast(s: Store, steps: seq<Step>, requestId: string)
    requires steps != []
    ensures var last := steps[|steps| - 1];
            Requested(s, steps, requestId) <==>
              Requested(s, steps[..|steps| - 1], requestId) || (Recordable(s, last) && last.event.requestId == requestId)
  {
    var earlier := steps[..|steps| - 1];
    assert forall j :: 0 <= j < |earlier| ==> steps[j] == earlier[j];
    if Requested(s, earlier, requestId) {
      var j :| 0 <= j < |earlier| && Recordable(s, earlier[j]) && earlier[j].event.requestId == requestId;
      assert Recordable(s, steps[j]) && steps[j].event.requestId == requestId;
    }
  }

  lemma {:induction false} RequestsKept(s: Store, steps: seq<Step>, requestId: string)
    ensures Run(s, steps).rows.Keys == s.rows.Keys
    ensures requestId in Run(s, steps).spendEvents <==> requestId in s.spendEvents || Requested(s, steps, requestId)
    decreases |steps|
  {
    if steps != [] {
      var earlier, last := steps[..|steps| - 1], |steps| - 1;
      RequestsKept(s, earlier, requestId);
      StepKeepsKeys(Run(s, earlier), steps[last]);
      RequestedLast(s, steps, requestId);
    }
  }

  lemma PrefixIsInOrder(s: Store, steps: seq<Step>, id: string)
    requires steps != [] && InOrderRun(s, steps, id)
    ensures InOrderRun(s, steps[..|steps| - 1], id)
  {
    var earlier := steps[..|steps| - 1];
    forall i | 0 <= i < |earlier| ensures InOrder(Before(s, earlier, i), earlier[i], id) {
      BeforeIsPrefix(s, steps, i);
    }
  }

  /** One report adds its amount in its period, once, and forgets earlier periods only. */
  lemma ReportAddsOnce(s: Store, step: Step, id: string, p: Instant)
    requires step.Report? && InOrder(s, step, id) && id in s.rows
    requires var after := SpentRow(Next(s, step), id).period; after.Some? ==> after.value <= p
    ensures SpentRow(s, id).period.Some? ==> SpentRow(s, id).period.value <= p
    ensures SpentIn(SpentRow(Next(s, step), id), p)
            == SpentIn(SpentRow(s, id), p)
               + (if step.event.keyId == id && step.start == Some(p) && step.event.requestId !in s.spendEvents
                  then step.event.amount else 0.0)
  {}

  /** A budget change keeps a row's spend in the same unit and drops it with the unit. */
  lemma BudgetChangeKeepsOrDrops(s: Store, step: Step, id: string, p: Instant)
    requires step.SetBudget? && id in s.rows
    ensures var changes := step.id == id && UnitOf(BudgetIn(s, id)) != UnitOf(step.budget);
            SpentRow(Next(s, step), id) == if changes then Spent(0.0, None) else SpentRow(s, id)
    ensures var b, b' := BudgetIn(s, id), step.budget;
            step.id == id ==>
              BudgetIn(Next(s, step), id) == b'
              && SpentRow(Next(s, step), id)
                 == if (b.None? && b'.None?) || (b.Some? && b'.Some? && b.value.unit == b'.value.unit)
                    then SpentRow(s, id) else Spent(0.0, None)
  {}

  /** The ledger sum: after any run of reports, checked or not, and budget changes, in which the key's new reports are
      of non-decreasing periods, the row holds for its period and every later one exactly the reports counted since the
      last unit change, one per request_id. */
  lemma {:induction false} RowHoldsTheSum(s: Store, steps: seq<Step>, id: string, p: Instant)
    requires InOrderRun(s, steps, id) && id in s.rows
    requires SpentRow(Run(s, steps), id).period.Some? ==> SpentRow(Run(s, steps), id).period.value <= p
    ensures SpentIn(SpentRow(Run(s, steps), id), p) == Total(s, steps, |steps|, id, p)
    decreases |steps|
  {
    if steps != [] {
      var last := |steps| - 1;
      var earlier := steps[..last];
      var before := Run(s, earlier);
      PrefixIsInOrder(s, steps, id);
      TotalOfPrefix(s, steps, last, id, p);
      assert Before(s, steps, last) == before;
      RequestsKept(s, earlier, "");
      if steps[last].Report? {
        LastIsFirstOfItsRequest(s, steps);
        ReportAddsOnce(before, steps[last], id, p);
        RowHoldsTheSum(s, earlier, id, p);
      } else {
        BudgetChangeKeepsOrDrops(before, steps[last], id, p);
        if !ChangesUnit(s, steps, last, id) {
          RowHoldsTheSum(s, earlier, id, p);
        }
      }
    }
  }

  lemma LastIsFirstOfItsRequest(s: Store, steps: seq<Step>)
    requires steps != [] && steps[|steps| - 1].Report?
    ensures var last := steps[|steps| - 1];
            FirstOfItsRequest(s, steps, |steps| - 1)
            <==> last.event.requestId !in Run(s, steps[..|steps| - 1]).spendEvents
  {
    var earlier, last := steps[..|steps| - 1], |steps| - 1;
    RequestsKept(s, earlier, steps[last].event.requestId);
    assert forall j :: 0 <= j < last ==> steps[j] == earlier[j];
  }

  /** The unit of a row's budget stays what it was at a step, if no unit change has come since. */
  lemma {:induction false} UnitSince(s: Store, steps: seq<Step>, i: nat, id: string)
    requires id in s.rows && i < |steps| && steps[i].Report? && SameUnitSince(s, steps, i + 1, id)
    ensures UnitOf(BudgetIn(Run(s, steps), id)) == UnitOf(BudgetIn(Before(s, steps, i), id))
    decreases |steps|
  {
    var last := |steps| - 1;
    var earlier := steps[..last];
    RequestsKept(s, earlier, "");
    assert Before(s, steps, last) == Run(s, earlier);
    BudgetChangesOnlyByAdmin(Run(s, earlier), steps[last], id);
    if i < last {
      BeforeIsPrefix(s, steps, i);
      UnitsOfPrefix(s, steps, i + 1, id);
      UnitSince(s, earlier, i, id);
    }
  }

  /** A counted amount was reported in the unit of the row's present budget exactly if that was the row's unit at its
      transaction; so every amount in the sum was, if the manager's check still held at each transaction. */
  lemma CountedInThePresentUnit(s: Store, steps: seq<Step>, i: nat, id: string, p: Instant)
    requires id in s.rows && i < |steps| && Counted(s, steps, i, id, p)
    ensures UnitOf(BudgetIn(Run(s, steps), id)) == Some(steps[i].event.unit)
            <==> UnitOf(BudgetIn(Before(s, steps, i), id)) == Some(steps[i].event.unit)
    ensures Checked(Before(s, steps, i), steps[i]) ==> UnitOf(BudgetIn(Run(s, steps), id)) == Some(steps[i].event.unit)
  {
    UnitSince(s, steps, i, id);
  }

  lemma BudgetChangesOnlyByAdmin(s: Store, step: Step, id: string)
    requires id in s.rows
    ensures BudgetIn(Next(s, step), id)
            == if step.SetBudget? && step.id == id then step.budget else BudgetIn(s, id)
  {}

  // ----- Where the ledger's promise ends -----

  /** The later of the row's period and a report's counts exactly what the row held of it and what the report adds to it,
      if and only if the report is not late: one for an earlier period forgets the present one. */
  lemma LateReportForgetsThePresent(s: Store, e: SpendEvent, q: Instant, start: Instant)
    requires e.keyId in s.rows && e.requestId !in s.spendEvents
    requires SpentRow(s, e.keyId).period == Some(q) && SpentRow(s, e.keyId).amount > 0.0
    ensures var before, after := SpentRow(s, e.keyId), SpentRow(Next(s, Report(e, Some(start))), e.keyId);
            var latest := if q > start then q else start;
            SpentIn(after, latest) == SpentIn(before, latest) + (if start == latest then e.amount else 0.0)
            <==> start >= q
  {}

  /** The unit the pool checked a report against can be gone by the time of the transaction, by a change or a removal
      of the budget: then, and only then, the amount lands in a row of another unit or of none. */
  lemma UnitCheckedTooEarly(s: Store, e: SpendEvent, p: Instant, budget: Option<Budget>)
    requires Checked(s, Report(e, Some(p))) && e.requestId !in s.spendEvents
    ensures var changed := Next(s, SetBudget(e.keyId, budget));
            var after := Next(changed, Report(e, Some(p)));
            SpentIn(SpentRow(after, e.keyId), p) == SpentIn(SpentRow(changed, e.keyId), p) + e.amount
            && (UnitOf(BudgetIn(after, e.keyId)) == Some(e.unit) <==> UnitOf(budget) == UnitOf(BudgetIn(s, e.keyId)))
  {}

  /** A change that keeps the unit keeps what a row's spend counts for exactly when the two budgets are in the same
      period: a spend survives a change of reset day only as long as that does not move the period's start. */
  lemma ChangeKeepsWhatCounts(s: Store, id: string, b: Budget, changed: Budget, now: Instant)
    requires id in s.rows && BudgetIn(s, id) == Some(b) && changed.unit == b.unit
    requires SpentNow(Some(b), SpentRow(s, id), now) > 0.0
    ensures var after := Next(s, SetBudget(id, Some(changed)));
            BudgetIn(after, id) == Some(changed)
            && (SpentNow(Some(changed), SpentRow(after, id), now) == SpentNow(Some(b), SpentRow(s, id), now)
                <==> PeriodStart(changed, now) == PeriodStart(b, now))
  {}

  // ----- Idempotence and order independence -----

  /** The steps with every report of an already recorded request_id left out. */
  function WithoutRepeats(s: Store, steps: seq<Step>): seq<Step>
    decreases |steps|
  {
    if steps == [] then []
    else
      var earlier, last := steps[..|steps| - 1], steps[|steps| - 1];
      WithoutRepeats(s, earlier)
      + (if last.Report? && last.event.requestId in Run(s, earlier).spendEvents then [] else [last])
  }

  /** Idempotence: reports repeated any number of times, in any period, leave the store as if they came once. */
  lemma {:induction false} RepeatsChangeNothing(s: Store, steps: seq<Step>)
    ensures Run(s, WithoutRepeats(s, steps)) == Run(s, steps)
    decreases |steps|
  {
    if steps != [] {
      var earlier, last := steps[..|steps| - 1], steps[|steps| - 1];
      RepeatsChangeNothing(s, earlier);
      var kept := WithoutRepeats(s, earlier);
      if last.Report? && last.event.requestId in Run(s, earlier).spendEvents {
        assert WithoutRepeats(s, steps) == kept;
        RepeatIsNoStep(Run(s, earlier), last);
      } else {
        assert WithoutRepeats(s, steps) == kept + [last];
        assert (kept + [last])[..|kept|] == kept;
      }
    }
  }

  lemma RepeatIsNoStep(s: Store, step: Step)
    requires step.Report? && step.event.requestId in s.spendEvents
    ensures Next(s, step) == s
  {}

  /** Two reports of different requests, in one period if for one key, may land in either order. */
  predicate Commute(a: Step, b: Step) {
    && a.Report? && b.Report?
    && a.event.requestId != b.event.requestId
    && (a.event.keyId == b.event.keyId ==> a.start == b.start)
  }

  lemma ChargesCommute(row: Row, start: Instant, a: real, b: real)
    ensures Charged(Charged(row, start, a), start, b) == Charged(Charged(row, start, b), start, a)
  {}

  /** Whether a report writes the store at all, and whether it charges its key's row. */
  predicate Records(s: Store, step: Step)
    requires step.Report?
  {
    step.event.requestId !in s.spendEvents && (step.start.None? || step.event.keyId in s.rows)
  }

  function RowAfter(s: Store, step: Step, id: string): Row
    requires step.Report? && id in s.rows
  {
    if Records(s, step) && step.start.Some? && step.event.keyId == id
    then Charged(s.rows[id], step.start.value, step.event.amount) else s.rows[id]
  }

  lemma ReportEffect(s: Store, step: Step)
    requires step.Report?
    ensures Next(s, step).rows == map id | id in s.rows :: RowAfter(s, step, id)
    ensures Next(s, step).spendEvents
            == if Records(s, step) then s.spendEvents[step.event.requestId := step.event] else s.spendEvents
    ensures Next(s, step) == s.(rows := Next(s, step).rows, spendEvents := Next(s, step).spendEvents)
  {}

  lemma RowsCommute(s: Store, a: Step, b: Step, id: string)
    requires Commute(a, b) && id in s.rows
    ensures id in Next(s, a).rows && id in Next(s, b).rows
    ensures RowAfter(Next(s, a), b, id) == RowAfter(Next(s, b), a, id)
  {
    ReportEffect(s, a);
    ReportEffect(s, b);
    if a.start.Some? && b.start.Some? && a.event.keyId == id && b.event.keyId == id {
      ChargesCommute(s.rows[id], a.start.value, a.event.amount, b.event.amount);
    }
  }

  lemma AllRowsCommute(s: Store, a: Step, b: Step)
    requires Commute(a, b)
    ensures Next(Next(s, a), b).rows == Next(Next(s, b), a).rows
  {
    var sa, sb := Next(s, a), Next(s, b);
    ReportEffect(s, a);
    ReportEffect(s, b);
    ReportEffect(sa, b);
    ReportEffect(sb, a);
    forall id | id in s.rows ensures RowAfter(sa, b, id) == RowAfter(sb, a, id) {
      RowsCommute(s, a, b, id);
    }
  }

  lemma RequestsCommute(s: Store, a: Step, b: Step)
    requires Commute(a, b)
    ensures Next(Next(s, a), b).spendEvents == Next(Next(s, b), a).spendEvents
  {
    ReportEffect(s, a);
    ReportEffect(s, b);
    ReportEffect(Next(s, a), b);
    ReportEffect(Next(s, b), a);
  }

  lemma ReportsCommute(s: Store, a: Step, b: Step)
    requires Commute(a, b)
    ensures Next(Next(s, a), b) == Next(Next(s, b), a)
  {
    AllRowsCommute(s, a, b);
    RequestsCommute(s, a, b);
    ReportEffect(s, a);
    ReportEffect(s, b);
    ReportEffect(Next(s, a), b);
    ReportEffect(Next(s, b), a);
  }

  ghost predicate AllCommute(steps: seq<Step>) {
    forall i, j :: 0 <= i < j < |steps| ==> Commute(steps[i], steps[j])
  }

  lemma RunOneMore(s: Store, steps: seq<Step>, step: Step)
    ensures Run(s, steps + [step]) == Next(Run(s, steps), step)
  {
    assert (steps + [step])[..|steps|] == steps;
  }

  lemma {:induction false} LastMovesForward(s: Store, steps: seq<Step>, i: nat)
    requires AllCommute(steps) && i < |steps|
    ensures Run(s, steps) == Next(Run(s, steps[..i] + steps[i + 1..]), steps[i])
    decreases |steps|
  {
    var last := |steps| - 1;
    var earlier := steps[..last];
    assert steps == earlier + [steps[last]];
    RunOneMore(s, earlier, steps[last]);
    if i == last {
      assert steps[..i] + steps[i + 1..] == earlier;
    } else {
      var shorter := earlier[..i] + earlier[i + 1..];
      LastMovesForward(s, earlier, i);
      assert steps[..i] + steps[i + 1..] == shorter + [steps[last]];
      RunOneMore(s, shorter, steps[last]);
      assert Commute(steps[i], steps[last]);
      ReportsCommute(Run(s, shorter), steps[i], steps[last]);
    }
  }

  /** Order independence: reports of distinct requests, each key's within one period, end in the same store
      whatever order they land in. */
  lemma {:induction false} OrderDoesNotMatter(s: Store, a: seq<Step>, b: seq<Step>)
    requires multiset(a) == multiset(b) && AllCommute(a) && AllCommute(b)
    ensures Run(s, a) == Run(s, b)
    decreases |a|
  {
    if a == [] {
      assert |multiset(b)| == 0;
      assert b == [];
    } else {
      var last := |a| - 1;
      var i := TakeOut(a, b);
      var rest := b[..i] + b[i + 1..];
      assert AllCommute(a[..last]);
      assert AllCommute(rest);
      OrderDoesNotMatter(s, a[..last], rest);
      LastMovesForward(s, b, i);
    }
  }

  /** The last step of one order, found in the other and taken out of both. */
  lemma TakeOut(a: seq<Step>, b: seq<Step>) returns (i: nat)
    requires multiset(a) == multiset(b) && a != []
    ensures i < |b| && b[i] == a[|a| - 1]
    ensures multiset(a[..|a| - 1]) == multiset(b[..i] + b[i + 1..])
  {
    var last := |a| - 1;
    assert a[last] in multiset(b);
    i :| 0 <= i < |b| && b[i] == a[last];
    assert a == a[..last] + [a[last]];
    assert b == b[..i] + [b[i]] + b[i + 1..];
    assert multiset(a[..last]) == multiset(a) - multiset{a[last]};
    assert multiset(b[..i] + b[i + 1..]) == multiset(b) - multiset{b[i]};
  }
}
