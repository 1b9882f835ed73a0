# Travel expense balance and settlement engine, in Dafny

This project models the balance engine of a trip expense-sharing application
(`lib/balance-calculator.ts`) and proves properties of it. Travellers log
expenses, which are split into per-member shares, and direct transfers. The
engine has three entry points:

- `calculateBalances` folds expenses, shares and transfers into one record per
  member. Each record holds `paid`, `owed` and `balance = paid - owed`. The
  records are listed by balance, largest first, with a stable sort.
- `calculateSettlements` matches creditors (balance above 0.01) against
  debtors (balance below -0.01). The matching is greedy and walks both lists
  with two cursors. Each iteration that moves more than 0.01 proposes one
  payment, rounded to cents.
- `calculateDebtMatrix` builds a gross table, debtor id -> payer id -> sum of
  the debtor's shares in expenses that payer paid. The table is not netted and
  ignores transfers.

Each entry point is imperative, as in the program:

- `Balances.CalculateBalances` updates a table keyed by member id, one loop at
  a time.
- `Settlements.MatchLoop` runs the `while` loop over freshly allocated working
  arrays. It lowers their amounts in place and never touches the input
  balances.
- `DebtMatrix.CalculateDebtMatrix` updates nested maps cell by cell.

`CalculateBalances` and `CalculateDebtMatrix` are proved equal to closed-form
functions, `Balances.Balances` and `DebtMatrix.Matrix`, built from sums over
the inputs. `MatchLoop` is proved equal to the recursive run `Match`, which
replays the `while` loop one iteration at a time. `Settlements.Settle` reads
the settlements off that run. The properties are lemmas about these
functions.

Files:

- `records.dfy`: the record types, the `a || b` id fallback, display-name
  resolution, and the per-expense share sums that both the balances and the
  debt matrix use.
- `stable_sort.dfy`: the stable descending sort used by both pipelines.
- `balances.dfy`, `settlements.dfy`, `debt_matrix.dfy`: the three entry points.
- `scenario.dfy`: worked examples and properties that involve more than one
  entry point.

Modelling choices:

- Amounts are exact `real`s. `Math.round(x * 100) / 100` is
  `Floor(x * 100 + 1/2) / 100`.
- JavaScript `||` on ids treats a missing id and the empty string alike, so
  both resolve to "no id".
- A repeated member id keeps its first position in the table. It takes the
  display name of the last member with that id, as `Map.set` does.

## Model

| member | source | states |
|---|---|---|
| `Records.Resolve` | lib/balance-calculator.ts:64-65 | The fallback from `payerId` to `payer?.id`, followed by the truthiness test. A non-empty direct id wins, then a non-empty nested id; otherwise there is no id. A resolved id is never empty. |
| `Records.PayerOf` | lib/balance-calculator.ts:64 | `payerId` if non-empty, else the nested payer's id if non-empty, else no payer; a payer id is never empty. The same rule is applied at line 157. |
| `Records.MemberOf` | lib/balance-calculator.ts:71 | `memberId` if non-empty, else the nested member's id if non-empty, else no member; a member id is never empty. The same rule is applied at line 161. |
| `Records.DisplayName` | lib/balance-calculator.ts:55 | A non-empty name always wins; the email is used exactly when the name is missing or empty; the result is empty only when both are. |
| `Balances.KnownIff` | lib/balance-calculator.ts:52-60 | The table has a key exactly for each id some member carries. |
| `Balances.LastIndex` | lib/balance-calculator.ts:52-55 | For a member id, the position of the last member carrying it: that member has the id and no later member does. |
| `Balances.NameOfLast` | lib/balance-calculator.ts:53-55 | The name recorded for an id is the display name (`name` if non-empty, else `email`) of the member at `LastIndex`, since each `Map.set` replaces the earlier record. |
| `Balances.CalculateBalances` | lib/balance-calculator.ts:44-99 | The loops and the final sort return exactly `Balances(members, expenses, transfers)`. |
| `Balances.InitBalances` | lib/balance-calculator.ts:52-60 | One zeroed record per distinct member id, keys in first-insertion order. |
| `Balances.ApplyExpenses` | lib/balance-calculator.ts:63-77 | After the loop each record holds the closed-form sums over all expenses. |
| `Balances.ApplyExpense` | lib/balance-calculator.ts:64-76 | One expense adds its amount to the resolved payer and each share to the resolved member; missing and unknown ids are skipped. |
| `Balances.CreditPayer` | lib/balance-calculator.ts:64-68 | The expense's amount is added to the `paid` of its resolved payer when that id is a key; nothing else changes. |
| `Balances.ApplyShares` | lib/balance-calculator.ts:70-76 | After the share loop, each member's `owed` has grown by the sum of its shares in this expense. |
| `Balances.ChargeShare` | lib/balance-calculator.ts:71-75 | One share adds its amount to the `owed` of its resolved member when that id is a key; nothing else changes. |
| `Balances.ApplyTransfers` | lib/balance-calculator.ts:80-91 | Each transfer adds to the sender's `paid` and the receiver's `owed` when they are members. |
| `Balances.ApplyTransfer` | lib/balance-calculator.ts:80-91 | One transfer takes the table from the closed form over the earlier transfers to the closed form including it. |
| `Balances.CreditSender` | lib/balance-calculator.ts:81-87 | The sender's `paid` grows by the amount when the sender is a key; nothing else changes. |
| `Balances.CreditReceiver` | lib/balance-calculator.ts:82-90 | The receiver's `owed` grows by the amount when the receiver is a key, which completes the transfer. |
| `Balances.AssignBalances` | lib/balance-calculator.ts:94-96 | Every record gets `balance = paid - owed`, and then equals the member's closed-form entry. |
| `Balances.FinalBalances` | lib/balance-calculator.ts:94-98 | Sets `balance = paid - owed` everywhere and lists the records in insertion order. |
| `Balances.BalancesOnePerMember` | lib/balance-calculator.ts:52-98 | Exactly one entry per distinct member id; every member has an entry; ids are distinct. |
| `Balances.BalanceFields` | lib/balance-calculator.ts:55-96 | Each entry of `Balances` is the closed-form `Entry` of its member: `paid` = expenses paid + transfers sent; `owed` = shares + transfers received; `balance = paid - owed`; the name is the display name of the last member with that id. |
| `Balances.BalancesSorted` | lib/balance-calculator.ts:98 | The result is ordered by balance, non-increasing, and entries with equal balance keep member insertion order. |
| `Balances.IdleMemberIsZero` | lib/balance-calculator.ts:56-58 | A member no payer, share or transfer references keeps `paid = owed = balance = 0`. |
| `Balances.UnknownExpenseIgnored` | lib/balance-calculator.ts:64-75 | An expense whose payer and share members are missing or not members changes no balance, wherever it stands in the list. |
| `Balances.UnknownTransferIgnored` | lib/balance-calculator.ts:81-90 | A transfer between two non-members changes nothing. |
| `Balances.TransferEffect` | lib/balance-calculator.ts:80-91 | A further transfer of `a` raises the sender's `paid` and the receiver's `owed` by `a` and leaves every other record and the order of members as they were. |
| `Balances.NetAfterTransfer` | lib/balance-calculator.ts:80-91 | A transfer between two members adds to one balance what it takes from another, so the sum of the balances is unchanged. |
| `Balances.NetAfterExpense` | lib/balance-calculator.ts:63-77 | An expense paid by a member, whose shares all resolve to members and add up to its amount, leaves the sum of the balances unchanged. |
| `Balances.BalancesSumToZero` | lib/balance-calculator.ts:63-96 | If every id referenced is a member's and every expense's shares sum to its amount, the balances sum to exactly 0, whatever the transfers. |
| `StableSort.SortDescending` | lib/balance-calculator.ts:98 | The sort's output is non-increasing in the key. |
| `StableSort.SortStable` | lib/balance-calculator.ts:98-116 | The sort at lines 98, 111 and 116 is stable: the elements sharing a key keep their relative order. |
| `StableSort.SortUnique` | lib/balance-calculator.ts:98-116 | For the sort at lines 98, 111 and 116: any non-increasing arrangement that keeps each key's elements in order is the sort's output, so the result does not depend on the algorithm. |
| `StableSort.SortSum` | lib/balance-calculator.ts:98 | Sorting keeps the sum of the keys. |
| `Settlements.CreditorOrigin` | lib/balance-calculator.ts:108-110 | Every creditor record is `{id, name, balance}` of an entry whose balance is above 0.01. |
| `Settlements.CreditorsComplete` | lib/balance-calculator.ts:108-110 | Every entry whose balance is above 0.01 yields a creditor record. |
| `Settlements.DebtorOrigin` | lib/balance-calculator.ts:113-115 | Every debtor record is `{id, name, -balance}` of an entry whose balance is below -0.01. |
| `Settlements.DebtorsComplete` | lib/balance-calculator.ts:113-115 | Every entry whose balance is below -0.01 yields a debtor record with the magnitude it owes. |
| `Settlements.PartiesAbove` | lib/balance-calculator.ts:108-115 | Every creditor and every debtor record starts with an amount above 0.01. |
| `Settlements.Creditors` | lib/balance-calculator.ts:108-111 | The creditor records, sorted: the same records, largest amount first, equal amounts in input order. |
| `Settlements.Debtors` | lib/balance-calculator.ts:113-116 | The debtor records, sorted: the same records, largest amount first, equal amounts in input order. |
| `Settlements.Round2Bounds` | lib/balance-calculator.ts:133 | `Round2` models `Math.round(amount * 100) / 100`. Rounding moves an amount by at most half a cent and yields whole cents. An amount above 0.01 rounds to at least 0.01. |
| `Settlements.Round2Cents` | lib/balance-calculator.ts:133 | A whole number of cents rounds to itself. |
| `Settlements.Next` | lib/balance-calculator.ts:124-141 | One iteration keeps both cursors in range and moves at least one of them, so the loop terminates. |
| `Settlements.Match` | lib/balance-calculator.ts:123-142 | The loop stops with a cursor at the end of its list. It keeps each record's id and name and never moves a cursor back. |
| `Settlements.CalculateSettlements` | lib/balance-calculator.ts:107-145 | Returns exactly `Settle(balances)`. |
| `Settlements.MatchLoop` | lib/balance-calculator.ts:118-144 | The `while` loop on working copies pushes exactly the settlements `Emitted` derives from the run's steps. |
| `Settlements.Advance` | lib/balance-calculator.ts:137-141 | Subtracting the matched amount from both current records and advancing the cursors is one `Next` step. |
| `Settlements.MatchLength` | lib/balance-calculator.ts:123-142 | From a running state the loop takes at least one and at most (creditor count + debtor count - 1 - i - j) more iterations; otherwise it takes none. |
| `Settlements.SettlementCount` | lib/balance-calculator.ts:120-142 | For `Settle`, the result of `calculateSettlements`: at most (creditor count + debtor count - 1) settlements when both lists are non-empty, none otherwise. |
| `Settlements.NextProgress` | lib/balance-calculator.ts:127-141 | One iteration keeps the loop invariant `Progress` and conserves each amount plus what has been taken from it. |
| `Settlements.RunOutcome` | lib/balance-calculator.ts:120-142 | Working amounts never go negative and equal start minus taken. Records behind a cursor are left with under 0.01. Every iteration takes at least 0.01. The loop stops once one list is used up. |
| `Settlements.EmittedFrom` | lib/balance-calculator.ts:129-135 | `Emitted` lists the pushes of a run. Each pushed settlement comes from one iteration whose amount exceeded 0.01. It carries that debtor's and creditor's names and the rounded amount. |
| `Settlements.SettlementShape` | lib/balance-calculator.ts:108-135 | Each settlement is paid by an entry with balance below -0.01 to a different entry with balance above 0.01. It is the rounding of an amount above 0.01 that is at most both magnitudes, and it is whole cents, at least 0.01. |
| `DebtMatrix.CalculateDebtMatrix` | lib/balance-calculator.ts:147-174 | The nested-map loops return exactly `Matrix(balances, expenses)`. |
| `DebtMatrix.InitRows` | lib/balance-calculator.ts:150-153 | One empty row for each member id in the balances and no other rows. |
| `DebtMatrix.AddExpense` | lib/balance-calculator.ts:156-171 | An expense without a payer leaves every row as it was; otherwise its shares are added. |
| `DebtMatrix.AddShares` | lib/balance-calculator.ts:160-170 | After the share loop every row equals the closed-form row over the expenses seen so far. |
| `DebtMatrix.CreditedRows` | lib/balance-calculator.ts:160-170 | After any number of shares of an expense, every row holds the closed-form row of the earlier expenses plus that member's shares so far, under the payer's cell. |
| `DebtMatrix.AddShare` | lib/balance-calculator.ts:161-169 | A share of a member with a row, other than the payer, adds to the cell (member, payer), starting from 0. Every other row is unchanged. |
| `DebtMatrix.OwesOutside` | lib/balance-calculator.ts:167 | A cell that does not exist yet has nothing owed, so starting an absent cell from 0 matches the closed form. |
| `DebtMatrix.PayeesIff` | lib/balance-calculator.ts:157-168 | Row `m` gets a cell for `p` exactly when some expense paid by `p != m` has a share resolving to `m`. |
| `DebtMatrix.MatrixCells` | lib/balance-calculator.ts:150-171 | For the closed form `Matrix`, with cells `Owes`: rows exist exactly for the ids in `balances`. Row `m` has cell `p` exactly when `p != m` paid an expense with a share resolving to `m`. The cell is the sum of those shares, and no row has a cell for itself. |
| `DebtMatrix.OwesNonNegative` | lib/balance-calculator.ts:164-168 | With non-negative share amounts every cell is non-negative. |
| `DebtMatrix.SkippedExpense` | lib/balance-calculator.ts:157-166 | An expense with no payer, or whose shares are all self-shares, unresolvable or without a row, leaves the table unchanged. |
| `Scenario.ThreeLedger` | lib/balance-calculator.ts:52-96 | A pays 90 and B pays 30, split evenly three ways, with ids given directly or through the nested relation. Balances: A = 50, B = -10, C = -40. |
| `Scenario.ThreeMemberPlan` | lib/balance-calculator.ts:107-145 | Those balances give the plan "C pays A 40, then B pays A 10". |
| `Scenario.ThreeTravellersPlan` | lib/balance-calculator.ts:44-145 | From the raw records to the same two-payment plan. |
| `Scenario.ThreeAfterTransfer` | lib/balance-calculator.ts:80-98 | After C transfers 40 to A: A = 10, C = 0, B = -10, in that order. |
| `Scenario.CentsLeftOver` | lib/balance-calculator.ts:108-116 | Balances 0.01, 0.01 and -0.02 sum to zero, yet give an empty plan. |
| `Scenario.SingleMemberSquare` | lib/balance-calculator.ts:44-145 | One member whose expenses are all their own ends with balance 0 and an empty plan. |
| `Scenario.TripMatrixNotNetted` | lib/balance-calculator.ts:156-171 | In the example, B owes A 30 and A owes B 10, and both cells are kept. |

## Where the code decides

- Settlements do not always bring balances to within 0.01 of zero. Filtering
  uses strict `> 0.01` and `< -0.01`. An iteration whose amount is exactly
  0.01 is not pushed, yet it is still subtracted. `Scenario.CentsLeftOver`
  shows a zero-sum input whose plan leaves a member two cents short. The model
  follows the code. `Settlements.RunOutcome` states what the loop does
  guarantee.
- The code allows duplicate member ids. A repeated id keeps one entry, so
  `calculateBalances` returns one entry per distinct id, not per member.
- Settlements carry display names only, as in the code, not member ids.
- All three sorts are stable (`Array.prototype.sort`), so equal amounts keep the
  order they had in the input.

## Left out

- Parsing amounts with `parseFloat`, and binary floating-point error in
  `+=`, `-`, `Math.min` and `Math.round`: amounts are exact `real`s, already
  parsed. The thresholds and the rounding are modelled on exact values.
- The unused `Decimal` import. The ids of expenses, transfers and users are
  fields of the records, carried but never read, as in the program.
- DebtMatrix.CalculateDebtMatrix: the result is an unordered Dafny `map`. The
  iteration order of the program's nested `Map`s (rows in balance order, cells
  in order of first contribution) is not modelled.
- The rest of the application (HTTP routes, authentication, invites,
  notifications, persistence, the user interface) is not part of this model.
