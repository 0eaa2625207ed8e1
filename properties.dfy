/**
 * Properties relating the ledger's operations to each other: how adding and
 * deleting move the totals, that the cash balance plus everything spent is
 * conserved, that a row of the activity table always leads back to its
 * record on a well-formed document, and what deleting right after adding
 * restores (and what it does not).
 */
module LedgerProperties {
  import opened Entries

  /** Wallet plus everything spent: what the cash would be with no expenses. */
  function Cash(doc: Document): real {
    doc.wallet + TotalSpent(doc.expenses)
  }

  // ---------------------------------------------------------------------------
  // Well-formedness is kept
  // ---------------------------------------------------------------------------

  lemma SubmitKeepsWellFormed(doc: Document, entry: EntryType, date: string, amount: real, desc: string)
    requires WellFormed(doc)
    ensures WellFormed(Submit(doc, entry, date, amount, desc))
  {
  }

  lemma RemovedKeepsWellFormed(doc: Document, t: Target)
    requires WellFormed(doc)
    ensures WellFormed(Removed(doc, t))
  {
  }

  // ---------------------------------------------------------------------------
  // From a table row back to its record
  // ---------------------------------------------------------------------------

  /** An expense's row leads back to it exactly when its amount is not negative. */
  lemma ExpenseRowRoundTrip(e: Expense)
    ensures TargetOf(ExpenseRowOf(e)) == ExpenseTarget(e) <==> e.amount >= 0.0
  {
  }

  /**
   * A debt's row leads back to it exactly when its amount is not negative
   * and its tag is one of the two known ones: a row for any other tag is
   * labelled outgoing and rebuilt as a payable.
   */
  lemma DebtRowRoundTrip(d: Debt)
    ensures TargetOf(DebtRowOf(d)) == DebtTarget(d)
        <==> d.amount >= 0.0 && (d.kind == RECEIVABLE || d.kind == PAYABLE)
    ensures d.kind != RECEIVABLE ==>
      TargetOf(DebtRowOf(d)) == DebtTarget(d.(kind := PAYABLE, amount := Abs(d.amount)))
  {
  }

  /**
   * On a well-formed document, deleting through any row of the activity
   * table finds its record, and exactly one record goes.
   */
  lemma DeleteByRowFinds(doc: Document, index: nat)
    requires WellFormed(doc)
    requires index < |doc.expenses| + |doc.debts|
    ensures Matches(doc, TargetOf(ActivityRows(doc)[index]))
    ensures var r := DeleteRow(doc, index);
      |r.expenses| + |r.debts| == |doc.expenses| + |doc.debts| - 1
  {
    var rows := ActivityRows(doc);
    if index < |doc.expenses| {
      var e := doc.expenses[index];
      assert rows[index] == ExpenseRowOf(e);
      assert e in doc.expenses;
      ExpenseRowRoundTrip(e);
    } else {
      var d := doc.debts[index - |doc.expenses|];
      assert rows[|doc.expenses| + (index - |doc.expenses|)] == DebtRowOf(d);
      assert d in doc.debts;
      DebtRowRoundTrip(d);
    }
  }

  // ---------------------------------------------------------------------------
  // Totals under add and delete
  // ---------------------------------------------------------------------------

  lemma TotalSpentRemoveFirst(es: seq<Expense>, e: Expense)
    requires e in es
    ensures TotalSpent(RemoveFirst(es, e)) == TotalSpent(es) - e.amount
  {
    var k := FirstIndex(es, e);
    assert es == es[..k] + [es[k]] + es[k + 1..];
    TotalSpentConcat(es[..k] + [es[k]], es[k + 1..]);
    TotalSpentConcat(es[..k], [es[k]]);
    TotalSpentConcat(es[..k], es[k + 1..]);
    assert TotalSpent([es[k]]) == TotalSpent([]) + es[k].amount by {
      assert [es[k]][..0] == [];
    }
  }

  lemma DebtTotalRemoveFirst(ds: seq<Debt>, d: Debt, kind: string)
    requires d in ds
    ensures DebtTotal(RemoveFirst(ds, d), kind)
         == DebtTotal(ds, kind) - (if d.kind == kind then d.amount else 0.0)
  {
    var k := FirstIndex(ds, d);
    assert ds == ds[..k] + [ds[k]] + ds[k + 1..];
    DebtTotalConcat(ds[..k] + [ds[k]], ds[k + 1..], kind);
    DebtTotalConcat(ds[..k], [ds[k]], kind);
    DebtTotalConcat(ds[..k], ds[k + 1..], kind);
    assert [ds[k]][..0] == [];
  }

  /**
   * An accepted expense adds its amount to the total spent and takes it off
   * the net position; a receivable adds to what is to be received and to the
   * net position; a payable adds to what is to be paid and takes it off the
   * net position. A rejected submission changes no total.
   */
  lemma SubmitTotals(doc: Document, entry: EntryType, date: string, amount: real, desc: string)
    ensures var before, after := Summarize(doc), Summarize(Submit(doc, entry, date, amount, desc));
      if !(amount > 0.0 && desc != []) then after == before
      else match entry
        case SpentOn =>
          after == before.(totalSpent := before.totalSpent + amount, netPosition := before.netPosition - amount)
        case OwedToMe =>
          after == before.(toReceive := before.toReceive + amount, netPosition := before.netPosition + amount)
        case OwedByMe =>
          after == before.(toPay := before.toPay + amount, netPosition := before.netPosition - amount)
  {
    if amount > 0.0 && desc != [] {
      match entry
      case SpentOn =>
        var es := doc.expenses;
        assert (es + [Expense(date, desc, amount)])[..|es|] == es;
      case OwedToMe =>
        var ds := doc.debts;
        assert (ds + [Debt(date, desc, amount, RECEIVABLE)])[..|ds|] == ds;
      case OwedByMe =>
        var ds := doc.debts;
        assert (ds + [Debt(date, desc, amount, PAYABLE)])[..|ds|] == ds;
    }
  }

  /**
   * Deleting a found expense takes its amount off the total spent and adds
   * it back to the net position, through the refunded wallet; the debt
   * totals stay. When nothing matches, no total changes.
   */
  lemma RemovedExpenseTotals(doc: Document, e: Expense)
    ensures var before, after := Summarize(doc), Summarize(Removed(doc, ExpenseTarget(e)));
      var refund := if e in doc.expenses then e.amount else 0.0;
      after.totalSpent == before.totalSpent - refund &&
      after.toReceive == before.toReceive && after.toPay == before.toPay &&
      after.netPosition == before.netPosition + refund
  {
    if e in doc.expenses {
      TotalSpentRemoveFirst(doc.expenses, e);
    }
  }

  /**
   * Deleting a found receivable takes its amount off what is to be received
   * and off the net position; a found payable, off what is to be paid and
   * onto the net position. The wallet and the total spent stay, and when
   * nothing matches no total changes.
   */
  lemma RemovedDebtTotals(doc: Document, d: Debt)
    ensures var before, after := Summarize(doc), Summarize(Removed(doc, DebtTarget(d)));
      var found := d in doc.debts;
      after.totalSpent == before.totalSpent &&
      after.toReceive == before.toReceive - (if found && d.kind == RECEIVABLE then d.amount else 0.0) &&
      after.toPay == before.toPay - (if found && d.kind == PAYABLE then d.amount else 0.0) &&
      after.netPosition == before.netPosition
        - (if found && d.kind == RECEIVABLE then d.amount else 0.0)
        + (if found && d.kind == PAYABLE then d.amount else 0.0)
  {
    if d in doc.debts {
      DebtTotalRemoveFirst(doc.debts, d, RECEIVABLE);
      DebtTotalRemoveFirst(doc.debts, d, PAYABLE);
    }
  }

  // ---------------------------------------------------------------------------
  // Cash conservation over any run of the form and the delete button
  // ---------------------------------------------------------------------------

  /** One press of "Add Entry" or of "Delete Selected Record". */
  datatype Op =
    | AddOp(entry: EntryType, date: string, amount: real, desc: string)
    | DeleteOp(index: nat)

  /** A delete is offered only for a row of the table; any other index changes nothing. */
  function Apply(doc: Document, op: Op): Document {
    match op
    case AddOp(entry, date, amount, desc) => Submit(doc, entry, date, amount, desc)
    case DeleteOp(index) =>
      if index < |doc.expenses| + |doc.debts| then DeleteRow(doc, index) else doc
  }

  function Replay(doc: Document, ops: seq<Op>): Document
    decreases |ops|
  {
    if ops == [] then doc else Replay(Apply(doc, ops[0]), ops[1..])
  }

  /** Adding and deleting never change the wallet plus the total spent. */
  lemma ApplyConservesCash(doc: Document, op: Op)
    ensures Cash(Apply(doc, op)) == Cash(doc)
  {
    if op.DeleteOp? && op.index < |doc.expenses| + |doc.debts| {
      RemovedConservesCash(doc, TargetOf(ActivityRows(doc)[op.index]));
    }
  }

  /** A delete refunds exactly what it takes off the total spent. */
  lemma RemovedConservesCash(doc: Document, t: Target)
    ensures Cash(Removed(doc, t)) == Cash(doc)
  {
    if t.ExpenseTarget? && t.expense in doc.expenses {
      TotalSpentRemoveFirst(doc.expenses, t.expense);
    }
  }

  /**
   * Wallet conservation: after any run of additions and deletions, the
   * wallet equals its starting value plus what was spent then, minus what
   * is spent now.
   */
  lemma {:induction false} ReplayConservesCash(doc: Document, ops: seq<Op>)
    ensures Replay(doc, ops).wallet
         == doc.wallet + TotalSpent(doc.expenses) - TotalSpent(Replay(doc, ops).expenses)
    decreases |ops|
  {
    if ops != [] {
      ApplyConservesCash(doc, ops[0]);
      ReplayConservesCash(Apply(doc, ops[0]), ops[1..]);
    }
  }

  /** Starting from the empty document, the wallet is minus everything spent. */
  lemma FromEmptyWalletIsMinusSpent(ops: seq<Op>)
    ensures Replay(EmptyDocument, ops).wallet == -TotalSpent(Replay(EmptyDocument, ops).expenses)
  {
    ReplayConservesCash(EmptyDocument, ops);
  }

  /** Every document reached from a well-formed one is well-formed. */
  lemma {:induction false} ReplayKeepsWellFormed(doc: Document, ops: seq<Op>)
    requires WellFormed(doc)
    ensures WellFormed(Replay(doc, ops))
    decreases |ops|
  {
    if ops != [] {
      match ops[0] {
        case AddOp(entry, date, amount, desc) =>
          SubmitKeepsWellFormed(doc, entry, date, amount, desc);
        case DeleteOp(index) =>
          if index < |doc.expenses| + |doc.debts| {
            RemovedKeepsWellFormed(doc, TargetOf(ActivityRows(doc)[index]));
          }
      }
      ReplayKeepsWellFormed(Apply(doc, ops[0]), ops[1..]);
    }
  }

  // ---------------------------------------------------------------------------
  // Deleting the entry just added
  // ---------------------------------------------------------------------------

  /** The index label of the row of the entry a submission has just appended. */
  function NewRowIndex(doc: Document, entry: EntryType): nat {
    if entry == SpentOn then |doc.expenses| else |doc.expenses| + |doc.debts|
  }

  /**
   * Deleting through the row of an entry just added restores the wallet and
   * the contents of both lists, as multisets.
   */
  lemma SubmitThenDelete(doc: Document, entry: EntryType, date: string, amount: real, desc: string)
    requires amount > 0.0 && desc != []
    ensures var added := Submit(doc, entry, date, amount, desc);
      NewRowIndex(doc, entry) < |added.expenses| + |added.debts| &&
      var back := DeleteRow(added, NewRowIndex(doc, entry));
      back.wallet == doc.wallet &&
      multiset(back.expenses) == multiset(doc.expenses) &&
      multiset(back.debts) == multiset(doc.debts)
  {
    match entry
    case SpentOn =>
      AddedExpenseRow(doc, Expense(date, desc, amount));
    case OwedToMe =>
      AddedDebtRow(doc, Debt(date, desc, amount, RECEIVABLE));
    case OwedByMe =>
      AddedDebtRow(doc, Debt(date, desc, amount, PAYABLE));
  }

  /** Deleting through the row of an expense appended last removes one copy of it and refunds it. */
  lemma AddedExpenseRow(doc: Document, e: Expense)
    requires e.amount > 0.0
    ensures var added := doc.(wallet := doc.wallet - e.amount, expenses := doc.expenses + [e]);
      var back := DeleteRow(added, |doc.expenses|);
      back.wallet == doc.wallet && multiset(back.expenses) == multiset(doc.expenses) && back.debts == doc.debts
  {
    var added := doc.(wallet := doc.wallet - e.amount, expenses := doc.expenses + [e]);
    assert ActivityRows(added)[|doc.expenses|] == ExpenseRowOf(e);
    assert TargetOf(ExpenseRowOf(e)) == ExpenseTarget(e);
    assert e in added.expenses;
    RemoveFirstOfAppended(doc.expenses, e);
  }

  /** Deleting through the row of a debt appended last removes one copy of it. */
  lemma AddedDebtRow(doc: Document, d: Debt)
    requires d.amount > 0.0 && (d.kind == RECEIVABLE || d.kind == PAYABLE)
    ensures var added := doc.(debts := doc.debts + [d]);
      var back := DeleteRow(added, |doc.expenses| + |doc.debts|);
      back.wallet == doc.wallet && back.expenses == doc.expenses && multiset(back.debts) == multiset(doc.debts)
  {
    var added := doc.(debts := doc.debts + [d]);
    assert ActivityRows(added)[|doc.expenses| + |doc.debts|] == DebtRowOf(d);
    assert TargetOf(DebtRowOf(d)) == DebtTarget(d);
    RemoveFirstOfAppended(doc.debts, d);
  }

  lemma RemoveFirstOfAppended<T>(s: seq<T>, x: T)
    ensures multiset(RemoveFirst(s + [x], x)) == multiset(s)
  {
    assert multiset(s + [x]) == multiset(s) + multiset{x};
  }

  /**
   * The order is not always restored: with an identical expense already
   * recorded, deleting through the new row removes the earlier twin, so the
   * records that were between them now come before it.
   */
  lemma DeleteRemovesEarlierTwin()
    ensures var lunch := Expense("2024-01-01", "Lunch", 200.0);
      var tea := Expense("2024-01-02", "Tea", 20.0);
      var doc := Document(1000.0, [lunch, tea], []);
      var added := Submit(doc, SpentOn, "2024-01-01", 200.0, "Lunch");
      DeleteRow(added, 2).expenses == [tea, lunch] != doc.expenses
  {
    var lunch := Expense("2024-01-01", "Lunch", 200.0);
    var tea := Expense("2024-01-02", "Tea", 20.0);
    var doc := Document(1000.0, [lunch, tea], []);
    var added := Submit(doc, SpentOn, "2024-01-01", 200.0, "Lunch");
    assert added.expenses == [lunch, tea, lunch];
    assert ActivityRows(added)[2] == ExpenseRowOf(lunch);
    assert TargetOf(ExpenseRowOf(lunch)) == ExpenseTarget(lunch);
    assert FirstIndex(added.expenses, lunch) == 0;
    assert [lunch, tea, lunch][1..] == [tea, lunch];
  }

  /**
   * A worked run of the dashboard: 1000 in the wallet, 200 spent on lunch,
   * 500 owed by Ravi, then the lunch deleted through its row.
   */
  lemma DashboardScenario()
    ensures var lunch := Expense("2024-01-01", "Lunch", 200.0);
      var ravi := Debt("2024-01-02", "Ravi", 500.0, RECEIVABLE);
      Submit(Document(1000.0, [], []), SpentOn, "2024-01-01", 200.0, "Lunch") == Document(800.0, [lunch], []) &&
      Summarize(Document(800.0, [lunch], [])).totalSpent == 200.0 &&
      Submit(Document(800.0, [lunch], []), OwedToMe, "2024-01-02", 500.0, "Ravi") == Document(800.0, [lunch], [ravi]) &&
      Summarize(Document(800.0, [lunch], [ravi])) == Totals(200.0, 500.0, 0.0, 1300.0) &&
      DeleteRow(Document(800.0, [lunch], [ravi]), 0) == Document(1000.0, [], [ravi]) &&
      Summarize(Document(1000.0, [], [ravi])) == Totals(0.0, 500.0, 0.0, 1500.0)
  {
    var lunch := Expense("2024-01-01", "Lunch", 200.0);
    var ravi := Debt("2024-01-02", "Ravi", 500.0, RECEIVABLE);
    ScenarioAdds(lunch, ravi);
    ScenarioDelete(lunch, ravi);
    ScenarioTotals(lunch, ravi);
  }

  lemma ScenarioAdds(lunch: Expense, ravi: Debt)
    requires lunch == Expense("2024-01-01", "Lunch", 200.0)
    requires ravi == Debt("2024-01-02", "Ravi", 500.0, RECEIVABLE)
    ensures Submit(Document(1000.0, [], []), SpentOn, "2024-01-01", 200.0, "Lunch")
         == Document(800.0, [lunch], [])
    ensures Submit(Document(800.0, [lunch], []), OwedToMe, "2024-01-02", 500.0, "Ravi")
         == Document(800.0, [lunch], [ravi])
  {
  }

  lemma ScenarioDelete(lunch: Expense, ravi: Debt)
    requires lunch == Expense("2024-01-01", "Lunch", 200.0)
    requires ravi == Debt("2024-01-02", "Ravi", 500.0, RECEIVABLE)
    ensures DeleteRow(Document(800.0, [lunch], [ravi]), 0) == Document(1000.0, [], [ravi])
  {
    var d2 := Document(800.0, [lunch], [ravi]);
    assert ActivityRows(d2)[0] == ExpenseRowOf(lunch);
    assert TargetOf(ExpenseRowOf(lunch)) == ExpenseTarget(lunch);
    assert FirstIndex([lunch], lunch) == 0;
    assert RemoveFirst([lunch], lunch) == [];
  }

  lemma ScenarioTotals(lunch: Expense, ravi: Debt)
    requires lunch.amount == 200.0 && ravi.amount == 500.0 && ravi.kind == RECEIVABLE
    ensures Summarize(Document(800.0, [lunch], [])).totalSpent == 200.0
    ensures Summarize(Document(800.0, [lunch], [ravi])) == Totals(200.0, 500.0, 0.0, 1300.0)
    ensures Summarize(Document(1000.0, [], [ravi])) == Totals(0.0, 500.0, 0.0, 1500.0)
  {
    assert [lunch][..0] == [] && [ravi][..0] == [];
    assert TotalSpent([lunch]) == 200.0;
    assert RECEIVABLE != PAYABLE;
    assert DebtTotal([ravi], RECEIVABLE) == 500.0;
    assert DebtTotal([ravi], PAYABLE) == 0.0;
  }
}
