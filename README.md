# Personal finance tracker: the ledger

This project models the ledger at the heart of a single-page personal finance
dashboard, and proves properties of it in Dafny. The dashboard keeps one
document:

- a wallet balance (cash in hand);
- a list of expenses, each with a date, a description and an amount;
- a list of debts, each with a date, a person, an amount and a type tag.
  The tag is `receivable` when someone owes the user and `payable` when the
  user owes someone.

The script changes that document in these ways:

- The sidebar form adds an entry. An expense is appended and taken out of the
  wallet. A receivable or payable is appended and leaves the wallet alone. A
  submission with a non-positive amount or an empty description is ignored.
- The wallet can be overwritten with the actual cash balance.
- The dashboard derives four totals: total spent, to receive, to pay, and net
  position.
- It flattens the document into an activity table with signed amounts:
  expense rows, then debt rows. It shows that table in reverse list order:
  debts from last added to first, then expenses from last added to first.
  This is not date order across the two lists, since an expense added after a
  debt still appears below every debt.
- A record picked from that table can be deleted. The date, description and
  absolute amount are rebuilt from the row, and for a debt the type is rebuilt
  from the row's label. The first equal record in the matching list is
  removed, and an expense is refunded to the wallet.

Layout:

- `entries.dfy` (module `Entries`) holds the document as values and the pure
  computations: the submission rule (`Submit`), the totals (`Summarize`), the
  activity rows and their display order, rebuilding a record from a row
  (`TargetOf`), and first-match removal (`FirstIndex`, `RemoveFirst`,
  `Removed`).
- `finance_app.dfy` (module `FinanceApp`) holds the class `Ledger`. Its fields
  are the wallet and the two lists, which the script updates in place. Its
  methods are `AddEntry`, `SetWallet`, `ActivityTable` (the appending loop)
  and `DeleteByRow`. The delete is built from the two scanning loops
  `DeleteExpense` and `DeleteDebt`. The `ensures` of the add, the table and
  the deletes tie the new state to the pure functions of `Entries`.
  `SetWallet` states its new state directly.
- `properties.dfy` (module `LedgerProperties`) holds the lemmas that relate
  operations to each other. They cover totals under add and delete,
  conservation of the wallet plus the total spent over any run of adds and
  deletes, and well-formedness being kept. They also show that on a
  well-formed document a delete through any table row finds its record, and
  what deleting right after adding does and does not restore.

Modelling choices:

- Amounts are exact `real`s.
- Dates are opaque strings passed in by the caller.
- The debt type is the stored string tag. A document loaded from disk may
  carry any tag, and the model keeps such tags.
- The table's "Type" column (`Expense`, `Incoming (Owed to You)`,
  `Outgoing (You Owe)`) is the datatype `Label`. The delete code tests whether
  the label contains "Incoming"; among those three labels that is the same as
  being `IncomingLabel`.
- A delete takes the row's index label. The displayed table is reversed but
  keeps each row's label, and that label is its position in the unreversed
  activity list. The model therefore looks the row up there, as
  `df.loc[label]` does.

The script has no edit operation. A delete finds its record by equal field
values, not by a stored identity, and a failed delete only shows an error
message. The model follows the script: a failed delete returns `false` and
leaves the document unchanged.

## Model

| member | source | states |
|---|---|---|
| `FinanceApp.Ledger.Empty` | finance_app.py:14-22 | The ledger holds the default document that `load_data` returns: wallet 0 and two empty lists. When the script falls back to it is file handling, which is left out. |
| `FinanceApp.Ledger.Load` | finance_app.py:18-20 | The ledger holds exactly the loaded document. |
| `FinanceApp.Ledger.AddEntry` | finance_app.py:43-67 | The entry is accepted iff amount > 0 and the description is non-empty. An accepted expense is appended at the end of `expenses`, the wallet drops by the amount, and `debts` is unchanged. An accepted receivable or payable is appended at the end of `debts` with that tag, and the wallet and `expenses` are unchanged. A rejected submission leaves the whole document unchanged. Well-formedness is kept. |
| `FinanceApp.Ledger.SetWallet` | finance_app.py:73-76 | The wallet becomes the given balance, and both lists are unchanged. |
| `FinanceApp.Ledger.ActivityTable` | finance_app.py:117-124 | The loop returns one row per expense in list order and then one row per debt in list order, `|expenses| + |debts|` rows in all. Each row is the entry's row with its signed amount. |
| `FinanceApp.Ledger.DeleteByRow` | finance_app.py:163-195 | The method rebuilds the target from the row with index label `index`. It reports success iff an equal record exists in the matching list. The new document is that record's first occurrence removed, with an expense refunded to the wallet. Nothing changes on failure. On a well-formed document it always succeeds, removes exactly one record and keeps well-formedness. |
| `FinanceApp.Ledger.DeleteExpense` | finance_app.py:174-180 | The scan finds a match iff the target is among the expenses. On a match, the wallet rises by the amount and the first equal expense is removed. Otherwise nothing changes. |
| `FinanceApp.Ledger.DeleteDebt` | finance_app.py:181-188 | The scan finds a match iff the target is among the debts. The first equal debt is removed, and the wallet is never touched. |
| `Entries.TotalsPartition` | finance_app.py:90-93 | When every debt is tagged receivable or payable, to-receive plus to-pay equals the sum of all debt amounts. |
| `Entries.Submit` | finance_app.py:43-65 | A submission only appends: both old lists stay prefixes of the new ones. The record count grows by one exactly when amount > 0 and the description is non-empty, and otherwise stays. The wallet plus the total spent is unchanged, so an expense takes exactly its amount out of the wallet. A debt submission never touches the wallet. |
| `Entries.TotalSpent` | finance_app.py:90 | The total spent is the sum of the expense amounts in list order. When no amount is negative it is non-negative. |
| `Entries.DebtTotal` | finance_app.py:91-92 | The sum over the debts carrying the given tag. When no amount is negative it is non-negative, and it is zero when no debt carries the tag. |
| `Entries.Summarize` | finance_app.py:90-93 | The four dashboard figures. The net position is defined as the wallet plus to-receive minus to-pay. On a well-formed document the three sums are non-negative, and to-receive plus to-pay is the sum of all debt amounts. |
| `Entries.ExpenseRows` | finance_app.py:118-119 | Row i is expense i's row, dated and described like it, with its amount negated. |
| `Entries.DebtRows` | finance_app.py:120-124 | Row j is debt j's row. A receivable is incoming with a positive amount. Any other tag is outgoing with the amount negated. |
| `Entries.ActivityRows` | finance_app.py:117-124 | The activity list has `|expenses| + |debts|` rows: the expenses' rows first, then the debts' rows, each in list order. |
| `Entries.Displayed` | finance_app.py:128-131 | The displayed table is the activity list reversed. Display position p carries index label `n-1-p` and the row at that label. |
| `Entries.ActivityRowSigns` | finance_app.py:119-124 | On a well-formed document, a row's amount is positive iff the row is incoming, and every expense or outgoing row has a strictly negative amount. |
| `Entries.ActivitySignedSum` | finance_app.py:117-124 | On a well-formed document, the table's signed amounts sum to net position minus wallet minus total spent. |
| `Entries.TargetOf` | finance_app.py:166-183 | The rebuilt target is an expense exactly when the row is labelled as one. It carries the row's date, and the row's description as the description or person. Its amount is the row's amount or its negation, and never negative. For a debt, the tag is receivable exactly when the row is incoming, and payable otherwise. |
| `Entries.Matches` | finance_app.py:172-188 | A target matches exactly when the first-match scan of its list stops inside the list. |
| `Entries.Removed` | finance_app.py:172-188 | The record count drops by one exactly when the target matches, and nothing changes otherwise. An expense target leaves the debts alone. It takes one copy of the target out of the expenses and refunds the wallet by its amount when found. A debt target leaves the wallet and expenses alone and takes one copy out of the debts. |
| `Entries.DeleteRow` | finance_app.py:163-188 | A delete through an expense row never touches the debts. A delete through a debt row never touches the expenses or the wallet. At most one record goes. |
| `Entries.FirstIndex` | finance_app.py:175-176 | The result is the index of the first element equal to the target, or the list length when there is none. |
| `Entries.RemoveFirst` | finance_app.py:175-188 | Removing the first equal element shortens the list by one exactly when the target is present. The multiset loses one copy of the target. Elements before the match keep their places, later ones shift down by one, and an absent target leaves the list unchanged. |
| `LedgerProperties.ExpenseRowRoundTrip` | finance_app.py:166-176 | Rebuilding the target from an expense's row gives that expense back iff its amount is not negative. |
| `LedgerProperties.DebtRowRoundTrip` | finance_app.py:166-185 | Rebuilding the target from a debt's row gives that debt back iff its amount is not negative and its tag is receivable or payable. A debt with any tag other than receivable comes back as a payable with the absolute amount. |
| `LedgerProperties.DeleteByRowFinds` | finance_app.py:156-188 | On a well-formed document, deleting through any table row finds a match, and the two lists together shrink by exactly one. |
| `LedgerProperties.SubmitKeepsWellFormed` | finance_app.py:43-65 | Every submission keeps amounts positive and tags known. |
| `LedgerProperties.RemovedKeepsWellFormed` | finance_app.py:172-188 | Every delete keeps amounts positive and tags known. |
| `LedgerProperties.SubmitTotals` | finance_app.py:43-65 | An expense raises total spent and lowers the net position by the amount. A receivable raises to-receive and the net position. A payable raises to-pay and lowers the net position. A rejected submission changes no total. |
| `LedgerProperties.RemovedExpenseTotals` | finance_app.py:174-180 | Deleting a found expense lowers total spent and raises the net position by its amount, and the debt totals stay. No match, no change. |
| `LedgerProperties.RemovedDebtTotals` | finance_app.py:181-188 | Deleting a found receivable lowers to-receive and the net position. Deleting a found payable lowers to-pay and raises the net position. Total spent stays. No match, no change. |
| `LedgerProperties.ApplyConservesCash` | finance_app.py:51-177 | One add or delete keeps the wallet plus total spent unchanged. |
| `LedgerProperties.RemovedConservesCash` | finance_app.py:174-180 | A delete leaves the wallet plus total spent unchanged: the refund at line 177 equals what leaves the expenses. |
| `LedgerProperties.ReplayConservesCash` | finance_app.py:43-188 | After any run of adds and deletes, the wallet equals the starting wallet plus the starting total spent, minus the current total spent. |
| `LedgerProperties.FromEmptyWalletIsMinusSpent` | finance_app.py:14 | Starting from the empty document, the wallet is always minus the total spent, as long as it is not overwritten. |
| `LedgerProperties.ReplayKeepsWellFormed` | finance_app.py:43-188 | Any run of adds and deletes from a well-formed document ends in a well-formed one. |
| `LedgerProperties.SubmitThenDelete` | finance_app.py:163-180 | Deleting through the row of an entry just added restores the wallet and both lists as multisets. |
| `LedgerProperties.AddedExpenseRow` | finance_app.py:174-180 | Deleting through the row of the expense appended last refunds it and removes one copy of it. Debts are untouched. |
| `LedgerProperties.AddedDebtRow` | finance_app.py:181-188 | Deleting through the row of the receivable or payable appended last removes one copy of it. The wallet and expenses are untouched. |
| `LedgerProperties.DeleteRemovesEarlierTwin` | finance_app.py:175-180 | When an identical expense was recorded earlier, deleting through the new row removes the earlier twin. `[lunch, tea]` plus lunch, then delete, gives `[tea, lunch]`, not the original order. |
| `LedgerProperties.DashboardScenario` | finance_app.py:43-93 | A concrete run. Wallet 1000, spend 200 → wallet 800 and spent 200. Ravi owes 500 → to-receive 500 and net 1300. Delete the lunch → wallet 1000, spent 0, net 1500. |

## Left out

- Streamlit widgets, forms, metrics, styling, success and error messages, and
  `st.rerun`. These are presentation. The result of a delete is returned as a
  boolean instead.
- Loading and saving the JSON file, and the corrupt-file fallback. This is file
  I/O. The ledger is built either empty or from a given document.
- The `data.get("wallet_balance", 0.0)` default for a missing key. A
  document always has its three parts here.
- `datetime.now()` and its `strftime` formatting. This is a clock call, so the
  date is a parameter.
- The pandas DataFrame, the CSV encoding and the download button. These are a
  foreign library and export formatting.
- Parsing the `"i | date | desc | ₹amt"` option string, and the "None" choice
  of the select box. These are UI plumbing. A delete takes the row's index
  label directly. Only labels of existing rows are offered, which is the
  `requires` of `DeleteByRow`.
- Floating-point rounding, and the `:,.2f` currency formatting. Amounts are
  exact reals.
- Documents whose records lack a field, or hold a non-numeric amount. The
  script would raise on them, and the model's records always have every
  field.
