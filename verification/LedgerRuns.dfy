/** The ledger inside the service: the theorems about reports and budget changes hold of every run of the service. */
module LedgerRuns {
  import opened Common
  import opened Budgets
  import opened Keys
  import opened Pools
  import opened Stores
  import opened Writeback
  import opened System
  import Ledger

  /** The same money in the same rows, and the same recorded requests. */
  ghost predicate SameBooks(a: Store, b: Store) {
    && a.rows.Keys == b.rows.Keys && a.spendEvents == b.spendEvents
    && forall id :: id in a.rows ==> SameMoney(a.rows[id].key, b.rows[id].key)
  }

  /** What an admin write is to the ledger: nothing, or one change of a budget. */
  ghost predicate Books(s: Store, written: Store, booked: seq<Ledger.Step>) {
    || (booked == [] && SameBooks(s, written))
    || (|booked| == 1 && ChangesBudget(s, written, booked[0]))
  }

  ghost predicate ChangesBudget(s: Store, written: Store, change: Ledger.Step) {
    change.SetBudget? && change.id in s.rows && SameBooks(UpdateBudget(s, change.id, change.budget), written)
  }

  ghost predicate IsBookable(s: Store, written: Store) {
    exists booked :: Books(s, written, booked)
  }

  ghost function BookedWrite(s: Store, written: Store): (booked: seq<Ledger.Step>)
    ensures IsBookable(s, written) ==> Books(s, written, booked)
    ensures |booked| <= 1
  {
    if booked :| Books(s, written, booked) then booked else []
  }

  /** What a step of the service is to the ledger. */
  ghost function Booked(s: Sys, step: Step): (booked: seq<Ledger.Step>)
    ensures |booked| <= 1
  {
    match step
    case ReportSpend(e, now, up) =>
      var ask := AskFor(s.pool.keys, e, now);
      if up && !ask.Refused() then [Ledger.Report(e, if ask.For? then Some(ask.start) else None)] else []
    case AdminWrite(written) => BookedWrite(s.store, written)
    case _ => []
  }

  /** The reports of a run that reached the database, and its budget changes, in order. */
  ghost function LedgerOf(s: Sys, steps: seq<Step>): seq<Ledger.Step>
    decreases |steps|
  {
    if steps == [] then [] else Booked(s, steps[0]) + LedgerOf(Next(s, steps[0]), steps[1..])
  }

  /** Admin writes change a budget, or no money at all. */
  ghost predicate BookedRun(s: Sys, steps: seq<Step>)
    decreases |steps|
  {
    steps == [] || (BookedStep(s, steps[0]) && BookedRun(Next(s, steps[0]), steps[1..]))
  }

  ghost predicate BookedStep(s: Sys, step: Step) {
    step.AdminWrite? ==> IsBookable(s.store, step.written)
  }

  // ----- The same books stay the same -----

  lemma RowAfterAlike(a: Store, b: Store, report: Ledger.Step, id: string)
    requires SameBooks(a, b) && report.Report? && id in a.rows
    ensures SameMoney(Ledger.RowAfter(a, report, id).key, Ledger.RowAfter(b, report, id).key)
  {
    assert SameMoney(a.rows[id].key, b.rows[id].key);
  }

  lemma SameBooksRecordAlike(a: Store, b: Store, report: Ledger.Step)
    requires SameBooks(a, b) && report.Report?
    ensures SameBooks(Ledger.Next(a, report), Ledger.Next(b, report))
  {
    Ledger.ReportEffect(a, report);
    Ledger.ReportEffect(b, report);
    forall id | id in a.rows ensures SameMoney(Ledger.RowAfter(a, report, id).key, Ledger.RowAfter(b, report, id).key) {
      RowAfterAlike(a, b, report, id);
    }
  }

  lemma SameBooksUpdateAlike(a: Store, b: Store, id: string, budget: Option<Budget>)
    requires SameBooks(a, b) && id in a.rows
    ensures SameBooks(UpdateBudget(a, id, budget), UpdateBudget(b, id, budget))
  {
    assert SameMoney(a.rows[id].key, b.rows[id].key);
  }

  lemma SameBooksStepAlike(a: Store, b: Store, step: Ledger.Step)
    requires SameBooks(a, b)
    ensures SameBooks(Ledger.Next(a, step), Ledger.Next(b, step))
  {
    match step
    case Report(e, start) => SameBooksRecordAlike(a, b, step);
    case SetBudget(id, budget) => if id in a.rows { SameBooksUpdateAlike(a, b, id, budget); }
  }

  lemma {:induction false} SameBooksRunAlike(a: Store, b: Store, steps: seq<Ledger.Step>)
    requires SameBooks(a, b)
    ensures SameBooks(Ledger.Run(a, steps), Ledger.Run(b, steps))
    decreases |steps|
  {
    if steps != [] {
      var last := |steps| - 1;
      SameBooksRunAlike(a, b, steps[..last]);
      SameBooksStepAlike(Ledger.Run(a, steps[..last]), Ledger.Run(b, steps[..last]), steps[last]);
    }
  }

  lemma SameBooksChain(a: Store, b: Store, c: Store)
    requires SameBooks(a, b) && SameBooks(b, c)
    ensures SameBooks(a, c)
  {
    forall id | id in a.rows ensures SameMoney(a.rows[id].key, c.rows[id].key) {
      assert SameMoney(a.rows[id].key, b.rows[id].key) && SameMoney(b.rows[id].key, c.rows[id].key);
    }
  }

  // ----- A run of the service is a run of the ledger -----

  lemma FlushKeepsBooks(s: Sys, id: string, up: bool)
    ensures SameBooks(s.store, AfterFlushKey(s, id, up).store)
  {
    if id in s.flight { StoreEntryApplies(s.store, id, s.flight[id]); }
  }

  lemma ReportIsBooked(s: Sys, e: SpendEvent, now: Instant, up: bool)
    ensures AfterReport(s, e, now, up).store
            == (if Booked(s, ReportSpend(e, now, up)) == [] then s.store
                else Ledger.Next(s.store, Booked(s, ReportSpend(e, now, up))[0]))
  {}

  lemma ExhaustedKeepsBooks(s: Sys, id: string, until: Instant, up: bool)
    ensures SameBooks(s.store, AfterExhausted(s, id, until, up).store)
  {}

  lemma SameBooksAsItself(s: Store)
    ensures SameBooks(s, s)
  {}

  /** The store as the ledger's side of a step leaves it. */
  ghost function StoreBooked(s: Sys, step: Step): Store {
    if Booked(s, step) == [] then s.store else Ledger.Next(s.store, Booked(s, step)[0])
  }

  lemma SettingABudget(s: Store, change: Ledger.Step, written: Store)
    requires ChangesBudget(s, written, change)
    ensures SameBooks(Ledger.Next(s, change), written)
  {}

  lemma BookedAsWritten(s: Store, written: Store, booked: seq<Ledger.Step>)
    requires Books(s, written, booked)
    ensures SameBooks(if booked == [] then s else Ledger.Next(s, booked[0]), written)
  {
    if booked != [] { SettingABudget(s, booked[0], written); }
  }

  lemma AdminIsBooked(s: Sys, written: Store)
    requires BookedStep(s, AdminWrite(written))
    ensures SameBooks(StoreBooked(s, AdminWrite(written)), written)
  {
    BookedAsWritten(s.store, written, BookedWrite(s.store, written));
  }

  lemma StepIsBooked(s: Sys, step: Step)
    requires BookedStep(s, step)
    ensures SameBooks(StoreBooked(s, step), Next(s, step).store)
  {
    match step {
      case FlushKey(id, up) => FlushKeepsBooks(s, id, up);
      case ReportSpend(e, now, up) =>
        ReportIsBooked(s, e, now, up);
        SameBooksAsItself(AfterReport(s, e, now, up).store);
      case MarkExhausted(id, until, up) => ExhaustedKeepsBooks(s, id, until, up);
      case AdminWrite(written) => AdminIsBooked(s, written);
      case LandAnswer(i) => LandingKeepsStore(s, i);
      case _ => SameBooksAsItself(s.store);
    }
  }

  lemma LandingKeepsStore(s: Sys, i: nat)
    ensures SameBooks(s.store, AfterLanding(s, i).store)
  {}

  lemma {:induction false} LedgerRunAppend(s: Store, a: seq<Ledger.Step>, b: seq<Ledger.Step>)
    ensures Ledger.Run(s, a + b) == Ledger.Run(Ledger.Run(s, a), b)
    decreases |b|
  {
    if b == [] {
      assert a + b == a;
    } else {
      var last := |b| - 1;
      assert (a + b)[..|a + b| - 1] == a + b[..last];
      LedgerRunAppend(s, a, b[..last]);
    }
  }

  /** Every run of the service, with draws, flushes, landings, reloads and crashes in any interleaving, leaves in the
      database the books that its reports and budget changes alone would. */
  lemma {:induction false} RunIsALedgerRun(s: Sys, steps: seq<Step>)
    requires BookedRun(s, steps)
    ensures SameBooks(Ledger.Run(s.store, LedgerOf(s, steps)), Run(s, steps).store)
    decreases |steps|
  {
    if steps != [] {
      var booked, after := Booked(s, steps[0]), Next(s, steps[0]);
      var rest := LedgerOf(after, steps[1..]);
      StepIsBooked(s, steps[0]);
      assert booked != [] ==> booked == [booked[0]] && booked[..0] == [];
      assert SameBooks(Ledger.Run(s.store, booked), after.store);
      RunIsALedgerRun(after, steps[1..]);
      SameBooksRunAlike(Ledger.Run(s.store, booked), after.store, rest);
      SameBooksChain(Ledger.Run(Ledger.Run(s.store, booked), rest), Ledger.Run(after.store, rest), Run(s, steps).store);
      LedgerRunAppend(s.store, booked, rest);
    }
  }

  // ----- What that gives -----

  /** The ledger sum of a run of the service: the row's spend is the total of the run's reports. */
  lemma RowHoldsTheSumOfItsRun(s: Sys, steps: seq<Step>, id: string, p: Instant)
    requires BookedRun(s, steps) && id in s.store.rows && Ledger.InOrderRun(s.store, LedgerOf(s, steps), id)
    requires var spent := Ledger.SpentRow(Run(s, steps).store, id).period; spent.Some? ==> spent.value <= p
    ensures id in Run(s, steps).store.rows
    ensures SpentIn(Run(s, steps).store.rows[id].key.spent, p)
            == Ledger.Total(s.store, LedgerOf(s, steps), |LedgerOf(s, steps)|, id, p)
  {
    RunIsALedgerRun(s, steps);
    Ledger.RequestsKept(s.store, LedgerOf(s, steps), "");
    assert SameMoney(Ledger.Run(s.store, LedgerOf(s, steps)).rows[id].key, Run(s, steps).store.rows[id].key);
    Ledger.RowHoldsTheSum(s.store, LedgerOf(s, steps), id, p);
  }

  /** Repeated reports in a run of the service leave the books as if each request had come once. */
  lemma RepeatsInARunChangeNothing(s: Sys, steps: seq<Step>)
    requires BookedRun(s, steps)
    ensures SameBooks(Ledger.Run(s.store, Ledger.WithoutRepeats(s.store, LedgerOf(s, steps))), Run(s, steps).store)
  {
    RunIsALedgerRun(s, steps);
    Ledger.RepeatsChangeNothing(s.store, LedgerOf(s, steps));
  }

  /** Two runs from the same books whose reports are the same, of distinct requests and each key's within one period,
      end in the same books, in whatever order the reports came and whatever else happened. */
  lemma OrderInARunDoesNotMatter(a: Sys, b: Sys, left: seq<Step>, right: seq<Step>,
                                 booked: seq<Ledger.Step>, reordered: seq<Ledger.Step>)
    requires SameBooks(a.store, b.store) && BookedRun(a, left) && BookedRun(b, right)
    requires booked == LedgerOf(a, left) && reordered == LedgerOf(b, right)
    requires multiset(booked) == multiset(reordered) && Ledger.AllCommute(booked) && Ledger.AllCommute(reordered)
    ensures SameBooks(Run(a, left).store, Run(b, right).store)
  {
    RunIsALedgerRun(a, left);
    RunIsALedgerRun(b, right);
    Ledger.OrderDoesNotMatter(a.store, booked, reordered);
    SameBooksRunAlike(a.store, b.store, reordered);
    SameBooksBack(Ledger.Run(a.store, booked), Run(a, left).store);
    SameBooksChain(Run(a, left).store, Ledger.Run(a.store, booked), Ledger.Run(b.store, reordered));
    SameBooksChain(Run(a, left).store, Ledger.Run(b.store, reordered), Run(b, right).store);
  }

  lemma SameBooksBack(a: Store, b: Store)
    requires SameBooks(a, b)
    ensures SameBooks(b, a)
  {
    forall id | id in b.rows ensures SameMoney(b.rows[id].key, a.rows[id].key) {
      assert SameMoney(a.rows[id].key, b.rows[id].key);
    }
  }
}
