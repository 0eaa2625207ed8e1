/**
 * The ledger document of the personal finance tracker, as values, and the
 * pure computations the dashboard derives from it: the four totals, the
 * activity table, the reconstruction of a record from a table row, and the
 * removal of the first record equal to it.
 */
module Entries {

  /** The two debt type tags the tracker writes into the document. */
  const RECEIVABLE: string := "receivable"
  const PAYABLE: string := "payable"

  /** Amounts are exact numbers; dates are opaque `YYYY-MM-DD` strings. */
  datatype Expense = Expense(date: string, description: string, amount: real)

  /** `kind` is the stored tag; a loaded document may hold any string there. */
  datatype Debt = Debt(date: string, person: string, amount: real, kind: string)

  datatype Document = Document(wallet: real, expenses: seq<Expense>, debts: seq<Debt>)

  /** The document created when none exists or the stored one is unreadable. */
  const EmptyDocument: Document := Document(0.0, [], [])

  /** The three choices of the "Select Type" radio in the sidebar form. */
  datatype EntryType = SpentOn | OwedToMe | OwedByMe

  /**
   * The activity table's "Type" column: "Expense", "Incoming (Owed to You)"
   * or "Outgoing (You Owe)".
   */
  datatype Label = ExpenseLabel | IncomingLabel | OutgoingLabel

  /** One row of the activity table, with its signed display amount. */
  datatype Row = Row(date: string, category: Label, description: string, amount: real)

  datatype Totals = Totals(totalSpent: real, toReceive: real, toPay: real, netPosition: real)

  /** The record a delete looks for, rebuilt from a table row. */
  datatype Target = ExpenseTarget(expense: Expense) | DebtTarget(debt: Debt)

  /**
   * What every document the sidebar form builds satisfies: positive amounts
   * and only the two known debt tags.
   */
  predicate WellFormed(doc: Document) {
    (forall e :: e in doc.expenses ==> e.amount > 0.0) &&
    (forall d :: d in doc.debts ==> d.amount > 0.0 && (d.kind == RECEIVABLE || d.kind == PAYABLE))
  }

  function Abs(x: real): real {
    if x < 0.0 then -x else x
  }

  // ---------------------------------------------------------------------------
  // Adding an entry
  // ---------------------------------------------------------------------------

  /**
   * The sidebar form's submission: ignored unless the amount is positive and
   * the description is non-empty; an expense also takes its amount out of the
   * wallet, a debt leaves the wallet alone.
   */
  function Submit(doc: Document, entry: EntryType, date: string, amount: real, desc: string): (r: Document)
    ensures doc.expenses <= r.expenses && doc.debts <= r.debts
    ensures |r.expenses| + |r.debts|
         == |doc.expenses| + |doc.debts| + (if amount > 0.0 && desc != [] then 1 else 0)
    ensures r.wallet + TotalSpent(r.expenses) == doc.wallet + TotalSpent(doc.expenses)
    ensures entry != SpentOn ==> r.wallet == doc.wallet
  {
    assert doc.expenses == (doc.expenses + [Expense(date, desc, amount)])[..|doc.expenses|];
    if !(amount > 0.0 && desc != []) then doc
    else match entry
      case SpentOn =>
        doc.(wallet := doc.wallet - amount, expenses := doc.expenses + [Expense(date, desc, amount)])
      case OwedToMe => doc.(debts := doc.debts + [Debt(date, desc, amount, RECEIVABLE)])
      case OwedByMe => doc.(debts := doc.debts + [Debt(date, desc, amount, PAYABLE)])
  }

  // ---------------------------------------------------------------------------
  // Totals
  // ---------------------------------------------------------------------------

  /** Sum of the expense amounts, added in list order. */
  function TotalSpent(es: seq<Expense>): (r: real)
    ensures (forall e :: e in es ==> e.amount >= 0.0) ==> r >= 0.0
  {
    if es == [] then 0.0
    else
      assert forall e :: e in es[..|es| - 1] ==> e in es;
      TotalSpent(es[..|es| - 1]) + es[|es| - 1].amount
  }

  /** Sum of the amounts of the debts whose tag is `kind`. */
  function DebtTotal(ds: seq<Debt>, kind: string): (r: real)
    ensures (forall d :: d in ds ==> d.amount >= 0.0) ==> r >= 0.0
    ensures (forall d :: d in ds ==> d.kind != kind) ==> r == 0.0
  {
    if ds == [] then 0.0
    else
      assert forall d :: d in ds[..|ds| - 1] ==> d in ds;
      DebtTotal(ds[..|ds| - 1], kind) + (if ds[|ds| - 1].kind == kind then ds[|ds| - 1].amount else 0.0)
  }

  /** Sum of all debt amounts, whatever their tag. */
  function AllDebts(ds: seq<Debt>): real {
    if ds == [] then 0.0 else AllDebts(ds[..|ds| - 1]) + ds[|ds| - 1].amount
  }

  /** The four figures at the top of the dashboard. */
  function Summarize(doc: Document): (t: Totals)
    ensures WellFormed(doc) ==> t.totalSpent >= 0.0 && t.toReceive >= 0.0 && t.toPay >= 0.0
    ensures WellFormed(doc) ==> t.toReceive + t.toPay == AllDebts(doc.debts)
  {
    var toReceive := DebtTotal(doc.debts, RECEIVABLE);
    var toPay := DebtTotal(doc.debts, PAYABLE);
    assert WellFormed(doc) ==> toReceive + toPay == AllDebts(doc.debts) by {
      if WellFormed(doc) {
        TotalsPartition(doc.debts);
      }
    }
    Totals(TotalSpent(doc.expenses), toReceive, toPay, (doc.wallet + toReceive) - toPay)
  }

  lemma {:induction false} TotalSpentConcat(a: seq<Expense>, b: seq<Expense>)
    ensures TotalSpent(a + b) == TotalSpent(a) + TotalSpent(b)
    decreases |b|
  {
    if b == [] {
      assert a + b == a;
    } else {
      var b' := b[..|b| - 1];
      assert (a + b)[..|a + b| - 1] == a + b';
      TotalSpentConcat(a, b');
    }
  }

  lemma {:induction false} DebtTotalConcat(a: seq<Debt>, b: seq<Debt>, kind: string)
    ensures DebtTotal(a + b, kind) == DebtTotal(a, kind) + DebtTotal(b, kind)
    decreases |b|
  {
    if b == [] {
      assert a + b == a;
    } else {
      var b' := b[..|b| - 1];
      assert (a + b)[..|a + b| - 1] == a + b';
      DebtTotalConcat(a, b', kind);
    }
  }

  /**
   * When every debt is tagged receivable or payable, the two filtered sums
   * split the sum of all debts.
   */
  lemma {:induction false} TotalsPartition(ds: seq<Debt>)
    requires forall d :: d in ds ==> d.kind == RECEIVABLE || d.kind == PAYABLE
    ensures DebtTotal(ds, RECEIVABLE) + DebtTotal(ds, PAYABLE) == AllDebts(ds)
    decreases |ds|
  {
    if ds != [] {
      var init := ds[..|ds| - 1];
      assert forall d :: d in init ==> d in ds;
      assert ds[|ds| - 1] in ds;
      TotalsPartition(init);
    }
  }

  // ---------------------------------------------------------------------------
  // The activity table
  // ---------------------------------------------------------------------------

  /** An expense is shown as money going out: its amount negated. */
  function ExpenseRowOf(e: Expense): Row {
    Row(e.date, ExpenseLabel, e.description, -e.amount)
  }

  /**
   * A receivable is shown as incoming with a positive amount; every other
   * debt is shown as outgoing with its amount negated.
   */
  function DebtRowOf(d: Debt): Row {
    if d.kind == RECEIVABLE then Row(d.date, IncomingLabel, d.person, d.amount)
    else Row(d.date, OutgoingLabel, d.person, -d.amount)
  }

  function ExpenseRows(es: seq<Expense>): (rows: seq<Row>)
    ensures |rows| == |es|
    ensures forall i :: 0 <= i < |es| ==> rows[i] == ExpenseRowOf(es[i])
  {
    if es == [] then [] else ExpenseRows(es[..|es| - 1]) + [ExpenseRowOf(es[|es| - 1])]
  }

  function DebtRows(ds: seq<Debt>): (rows: seq<Row>)
    ensures |rows| == |ds|
    ensures forall j :: 0 <= j < |ds| ==> rows[j] == DebtRowOf(ds[j])
  {
    if ds == [] then [] else DebtRows(ds[..|ds| - 1]) + [DebtRowOf(ds[|ds| - 1])]
  }

  /**
   * The activity list before it is reversed for display: one row per
   * expense, in list order, then one row per debt, in list order.
   */
  function ActivityRows(doc: Document): (rows: seq<Row>)
    ensures |rows| == |doc.expenses| + |doc.debts|
    ensures forall i :: 0 <= i < |doc.expenses| ==> rows[i] == ExpenseRowOf(doc.expenses[i])
    ensures forall j :: 0 <= j < |doc.debts| ==> rows[|doc.expenses| + j] == DebtRowOf(doc.debts[j])
  {
    ExpenseRows(doc.expenses) + DebtRows(doc.debts)
  }

  /**
   * The table as displayed: in reverse list order (debts last-added first,
   * then expenses last-added first), each row keeping its index label,
   * which is its position in the list before reversal.
   */
  function Displayed(rows: seq<Row>): (shown: seq<(nat, Row)>)
    ensures |shown| == |rows|
    ensures forall p :: 0 <= p < |shown| ==>
      shown[p].0 == |rows| - 1 - p && shown[p].1 == rows[shown[p].0]
  {
    if rows == [] then [] else [(|rows| - 1, rows[|rows| - 1])] + Displayed(rows[..|rows| - 1])
  }

  /**
   * On a well-formed document, a row's amount is positive exactly when it is
   * an incoming (receivable) row: expenses and payables show as negative.
   */
  lemma ActivityRowSigns(doc: Document)
    requires WellFormed(doc)
    ensures forall i :: 0 <= i < |ActivityRows(doc)| ==>
      (ActivityRows(doc)[i].amount > 0.0 <==> ActivityRows(doc)[i].category == IncomingLabel) &&
      (ActivityRows(doc)[i].category != IncomingLabel ==> ActivityRows(doc)[i].amount < 0.0)
  {
  }

  /** Sum of the signed amounts of a list of rows. */
  function SignedSum(rows: seq<Row>): real {
    if rows == [] then 0.0 else SignedSum(rows[..|rows| - 1]) + rows[|rows| - 1].amount
  }

  lemma {:induction false} SignedSumConcat(a: seq<Row>, b: seq<Row>)
    ensures SignedSum(a + b) == SignedSum(a) + SignedSum(b)
    decreases |b|
  {
    if b == [] {
      assert a + b == a;
    } else {
      var b' := b[..|b| - 1];
      assert (a + b)[..|a + b| - 1] == a + b';
      SignedSumConcat(a, b');
    }
  }

  lemma {:induction false} ExpenseRowsSum(es: seq<Expense>)
    ensures SignedSum(ExpenseRows(es)) == -TotalSpent(es)
    decreases |es|
  {
    if es != [] {
      var init := es[..|es| - 1];
      ExpenseRowsSum(init);
      assert ExpenseRows(es) == ExpenseRows(init) + [ExpenseRowOf(es[|es| - 1])];
      assert (ExpenseRows(init) + [ExpenseRowOf(es[|es| - 1])])[..|es| - 1] == ExpenseRows(init);
    }
  }

  lemma {:induction false} DebtRowsSum(ds: seq<Debt>)
    requires forall d :: d in ds ==> d.kind == RECEIVABLE || d.kind == PAYABLE
    ensures SignedSum(DebtRows(ds)) == DebtTotal(ds, RECEIVABLE) - DebtTotal(ds, PAYABLE)
    decreases |ds|
  {
    if ds != [] {
      var init := ds[..|ds| - 1];
      assert forall d :: d in init ==> d in ds;
      assert ds[|ds| - 1] in ds;
      DebtRowsSum(init);
      assert DebtRows(ds) == DebtRows(init) + [DebtRowOf(ds[|ds| - 1])];
      assert (DebtRows(init) + [DebtRowOf(ds[|ds| - 1])])[..|ds| - 1] == DebtRows(init);
    }
  }

  /**
   * On a well-formed document the signed amounts of the activity table add
   * up to the net position less the wallet, less everything spent: rows
   * carry the sign of their effect on the user's worth.
   */
  lemma ActivitySignedSum(doc: Document)
    requires WellFormed(doc)
    ensures SignedSum(ActivityRows(doc))
         == Summarize(doc).netPosition - doc.wallet - Summarize(doc).totalSpent
  {
    SignedSumConcat(ExpenseRows(doc.expenses), DebtRows(doc.debts));
    ExpenseRowsSum(doc.expenses);
    DebtRowsSum(doc.debts);
  }

  // ---------------------------------------------------------------------------
  // Deleting a record picked from the table
  // ---------------------------------------------------------------------------

  /**
   * Rebuilds the record a row stands for: date, description and the
   * absolute amount; a row not labelled as an expense names a debt, a
   * receivable when its label is the incoming one and a payable otherwise.
   */
  function TargetOf(row: Row): (t: Target)
    ensures t.ExpenseTarget? <==> row.category == ExpenseLabel
    ensures t.ExpenseTarget? ==>
      t.expense.date == row.date && t.expense.description == row.description &&
      t.expense.amount >= 0.0 && (t.expense.amount == row.amount || t.expense.amount == -row.amount)
    ensures t.DebtTarget? ==>
      t.debt.date == row.date && t.debt.person == row.description &&
      t.debt.amount >= 0.0 && (t.debt.amount == row.amount || t.debt.amount == -row.amount) &&
      (t.debt.kind == RECEIVABLE <==> row.category == IncomingLabel) &&
      (t.debt.kind == RECEIVABLE || t.debt.kind == PAYABLE)
  {
    var amount := Abs(row.amount);
    match row.category
    case ExpenseLabel => ExpenseTarget(Expense(row.date, row.description, amount))
    case IncomingLabel => DebtTarget(Debt(row.date, row.description, amount, RECEIVABLE))
    case OutgoingLabel => DebtTarget(Debt(row.date, row.description, amount, PAYABLE))
  }

  /** The index of the first element equal to `x`, or `|s|` when there is none. */
  function FirstIndex<T(==)>(s: seq<T>, x: T): (k: nat)
    ensures k <= |s|
    ensures k < |s| ==> s[k] == x
    ensures forall j :: 0 <= j < k ==> s[j] != x
  {
    if s == [] then 0 else if s[0] == x then 0 else 1 + FirstIndex(s[1..], x)
  }

  /**
   * `s` without its first occurrence of `x`, the others kept in order; `s`
   * itself when `x` does not occur.
   */
  function RemoveFirst<T(==)>(s: seq<T>, x: T): (r: seq<T>)
    ensures x in s ==> |r| == |s| - 1
    ensures x !in s ==> r == s
    ensures multiset(r) == multiset(s) - multiset{x}
    ensures forall j :: 0 <= j < FirstIndex(s, x) && j < |r| ==> r[j] == s[j]
    ensures forall j :: FirstIndex(s, x) <= j < |r| ==> r[j] == s[j + 1]
  {
    var k := FirstIndex(s, x);
    if k < |s| then
      DropAt(s, k);
      s[..k] + s[k + 1..]
    else
      assert x !in s;
      s
  }

  /** Dropping the element at `k` loses exactly one copy of it. */
  lemma DropAt<T>(s: seq<T>, k: nat)
    requires k < |s|
    ensures multiset(s[..k] + s[k + 1..]) == multiset(s) - multiset{s[k]}
  {
    assert s == s[..k] + [s[k]] + s[k + 1..];
  }

  /** Whether the list the target belongs to holds a record equal to it. */
  predicate Matches(doc: Document, t: Target)
    ensures Matches(doc, t) <==> match t
      case ExpenseTarget(e) => FirstIndex(doc.expenses, e) < |doc.expenses|
      case DebtTarget(d) => FirstIndex(doc.debts, d) < |doc.debts|
  {
    match t
    case ExpenseTarget(e) => e in doc.expenses
    case DebtTarget(d) => d in doc.debts
  }

  /**
   * The document after the delete scan: the first equal record removed,
   * and for an expense its amount refunded to the wallet; unchanged when
   * nothing matches.
   */
  function Removed(doc: Document, t: Target): (r: Document)
    ensures |r.expenses| + |r.debts| == |doc.expenses| + |doc.debts| - (if Matches(doc, t) then 1 else 0)
    ensures !Matches(doc, t) ==> r == doc
    ensures t.ExpenseTarget? ==>
      r.debts == doc.debts && multiset(r.expenses) == multiset(doc.expenses) - multiset{t.expense} &&
      r.wallet == doc.wallet + (if Matches(doc, t) then t.expense.amount else 0.0)
    ensures t.DebtTarget? ==>
      r.wallet == doc.wallet && r.expenses == doc.expenses &&
      multiset(r.debts) == multiset(doc.debts) - multiset{t.debt}
  {
    match t
    case ExpenseTarget(e) =>
      if e in doc.expenses
      then doc.(wallet := doc.wallet + e.amount, expenses := RemoveFirst(doc.expenses, e))
      else doc
    case DebtTarget(d) => doc.(debts := RemoveFirst(doc.debts, d))
  }

  /** The delete of the record behind the row with index label `index`. */
  function DeleteRow(doc: Document, index: nat): (r: Document)
    requires index < |doc.expenses| + |doc.debts|
    ensures index < |doc.expenses| ==> r.debts == doc.debts
    ensures index >= |doc.expenses| ==> r.expenses == doc.expenses && r.wallet == doc.wallet
    ensures |r.expenses| + |r.debts| >= |doc.expenses| + |doc.debts| - 1
  {
    Removed(doc, TargetOf(ActivityRows(doc)[index]))
  }
}
