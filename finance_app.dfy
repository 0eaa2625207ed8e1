/**
 * The dashboard script's in-memory document and the statements that change
 * it, lifted into a class: adding an entry from the sidebar form,
 * overwriting the wallet, building the activity table, and deleting the
 * record behind a row of that table.
 */
module FinanceApp {
  import opened Entries
  import LedgerProperties

  class Ledger {
    var wallet: real
    var expenses: seq<Expense>
    var debts: seq<Debt>

    /** The document this ledger holds. */
    function Doc(): Document
      reads this
    {
      Document(wallet, expenses, debts)
    }

    /** The default document the loader returns: no cash and no entries. */
    constructor Empty()
      ensures Doc() == EmptyDocument
    {
      wallet, expenses, debts := 0.0, [], [];
    }

    /** A ledger over a document loaded from the store. */
    constructor Load(doc: Document)
      ensures Doc() == doc
    {
      wallet, expenses, debts := doc.wallet, doc.expenses, doc.debts;
    }

    /**
     * The sidebar form's submission. An expense is appended and its amount
     * taken out of the wallet; a debt is appended tagged receivable or
     * payable and the wallet is left alone; a non-positive amount or an
     * empty description leaves everything as it was.
     */
    method AddEntry(entry: EntryType, date: string, amount: real, desc: string) returns (added: bool)
      modifies this
      ensures added <==> amount > 0.0 && desc != []
      ensures !added ==> Doc() == old(Doc())
      ensures added && entry == SpentOn ==>
        expenses == old(expenses) + [Expense(date, desc, amount)] &&
        wallet == old(wallet) - amount && debts == old(debts)
      ensures added && entry == OwedToMe ==>
        debts == old(debts) + [Debt(date, desc, amount, RECEIVABLE)] &&
        wallet == old(wallet) && expenses == old(expenses)
      ensures added && entry == OwedByMe ==>
        debts == old(debts) + [Debt(date, desc, amount, PAYABLE)] &&
        wallet == old(wallet) && expenses == old(expenses)
      ensures Doc() == Submit(old(Doc()), entry, date, amount, desc)
      ensures WellFormed(old(Doc())) ==> WellFormed(Doc())
    {
      added := amount > 0.0 && desc != [];
      if added {
        match entry
        case SpentOn =>
          wallet := wallet - amount;
          expenses := expenses + [Expense(date, desc, amount)];
        case OwedToMe =>
          debts := debts + [Debt(date, desc, amount, RECEIVABLE)];
        case OwedByMe =>
          debts := debts + [Debt(date, desc, amount, PAYABLE)];
      }
      if WellFormed(old(Doc())) {
        LedgerProperties.SubmitKeepsWellFormed(old(Doc()), entry, date, amount, desc);
      }
    }

    /** Overwrites the wallet with the actual cash balance; entries are untouched. */
    method SetWallet(balance: real)
      modifies this
      ensures wallet == balance
      ensures expenses == old(expenses) && debts == old(debts)
    {
      wallet := balance;
    }

    /**
     * Builds the activity list: a row per expense and then a row per debt,
     * each in list order, with the signed amount.
     */
    method ActivityTable() returns (rows: seq<Row>)
      ensures rows == ActivityRows(Doc())
      ensures |rows| == |expenses| + |debts|
      ensures forall i :: 0 <= i < |expenses| ==> rows[i] == ExpenseRowOf(expenses[i])
      ensures forall j :: 0 <= j < |debts| ==> rows[|expenses| + j] == DebtRowOf(debts[j])
    {
      rows := [];
      var i := 0;
      while i < |expenses|
        invariant 0 <= i <= |expenses|
        invariant rows == ExpenseRows(expenses[..i])
      {
        assert expenses[..i + 1][..i] == expenses[..i];
        rows := rows + [ExpenseRowOf(expenses[i])];
        i := i + 1;
      }
      assert expenses[..i] == expenses;
      var j := 0;
      while j < |debts|
        invariant 0 <= j <= |debts|
        invariant rows == ExpenseRows(expenses) + DebtRows(debts[..j])
      {
        assert debts[..j + 1][..j] == debts[..j];
        rows := rows + [DebtRowOf(debts[j])];
        j := j + 1;
      }
      assert debts[..j] == debts;
    }

    /**
     * Deletes the record behind the activity row whose index label is
     * `index`: rebuilds date, description, absolute amount and (for a debt)
     * the type from the row, then removes the first equal record from the
     * matching list. Reports whether a record was found; when none is,
     * nothing changes.
     */
    method DeleteByRow(index: nat) returns (deleted: bool)
      requires index < |expenses| + |debts|
      modifies this
      ensures var t := TargetOf(ActivityRows(old(Doc()))[index]);
        deleted == Matches(old(Doc()), t) && Doc() == Removed(old(Doc()), t)
      ensures !deleted ==> Doc() == old(Doc())
      ensures WellFormed(old(Doc())) ==>
        deleted && WellFormed(Doc()) && |expenses| + |debts| == old(|expenses| + |debts|) - 1
    {
      ghost var before := Doc();
      var rows := ActivityTable();
      var row := rows[index];
      var amount := Abs(row.amount);
      if row.category == ExpenseLabel {
        deleted := DeleteExpense(Expense(row.date, row.description, amount));
      } else {
        var kind := if row.category == IncomingLabel then RECEIVABLE else PAYABLE;
        deleted := DeleteDebt(Debt(row.date, row.description, amount, kind));
      }
      if WellFormed(before) {
        LedgerProperties.DeleteByRowFinds(before, index);
        LedgerProperties.RemovedKeepsWellFormed(before, TargetOf(ActivityRows(before)[index]));
      }
    }

    /**
     * Scans the expenses for the first one equal to `target`; if there is
     * one, refunds its amount to the wallet and removes it.
     */
    method DeleteExpense(target: Expense) returns (found: bool)
      modifies this
      ensures found == (target in old(expenses))
      ensures found ==> wallet == old(wallet) + target.amount
      ensures Doc() == Removed(old(Doc()), ExpenseTarget(target))
    {
      found := false;
      var i := 0;
      while i < |expenses|
        invariant 0 <= i <= |expenses|
        invariant Doc() == old(Doc())
        invariant forall k :: 0 <= k < i ==> expenses[k] != target
      {
        if expenses[i] == target {
          assert i == FirstIndex(expenses, target);
          wallet := wallet + target.amount;
          expenses := expenses[..i] + expenses[i + 1..];
          found := true;
          break;
        }
        i := i + 1;
      }
    }

    /** Scans the debts for the first one equal to `target` and removes it. */
    method DeleteDebt(target: Debt) returns (found: bool)
      modifies this
      ensures found == (target in old(debts))
      ensures wallet == old(wallet)
      ensures Doc() == Removed(old(Doc()), DebtTarget(target))
    {
      found := false;
      var i := 0;
      while i < |debts|
        invariant 0 <= i <= |debts|
        invariant Doc() == old(Doc())
        invariant forall k :: 0 <= k < i ==> debts[k] != target
      {
        if debts[i] == target {
          assert i == FirstIndex(debts, target);
          debts := debts[..i] + debts[i + 1..];
          found := true;
          break;
        }
        i := i + 1;
      }
    }
  }
}
