/** `calculateBalances`: folds expenses, their shares and transfers into one
    `MemberBalance` per member, then sorts by balance, largest first.

    The specification is closed-form: a member's `paid` is the sum of the
    amounts of the expenses it paid plus the transfers it sent, its `owed` the
    sum of its shares plus the transfers it received (`Entry`). The method
    `CalculateBalances` accumulates the same numbers step by step in a table
    keyed by member id, as the program does with its `Map`. */
module Balances {
  import opened Records
  import opened StableSort

  /** The keys of the program's `Map` after the members were inserted: each
      distinct id once, in order of first insertion. */
  function MemberIds(members: seq<Member>): (ids: seq<string>)
    ensures forall i, j :: 0 <= i < j < |ids| ==> ids[i] != ids[j]
  {
    if members == [] then []
    else
      var ids := MemberIds(members[..|members| - 1]);
      var id := members[|members| - 1].id;
      if id in ids then ids else ids + [id]
  }

  /** `id` is a key of the table. */
  predicate Known(members: seq<Member>, id: string) {
    id in MemberIds(members)
  }

  /** The table has a key for exactly the ids some member carries. */
  lemma {:induction false} KnownIff(members: seq<Member>, id: string)
    ensures Known(members, id) <==> exists k :: 0 <= k < |members| && members[k].id == id
  {
    if members != [] {
      var n := |members| - 1;
      var prefix := members[..n];
      KnownIff(prefix, id);
      assert forall k :: 0 <= k < n ==> prefix[k] == members[k];
    }
  }

  /** The display name the table holds for `id`: a later member with the
      same id replaces the record of an earlier one. */
  function NameOf(members: seq<Member>, id: string): string
    requires Known(members, id)
  {
    var n := |members| - 1;
    if members[n].id == id then DisplayName(members[n]) else NameOf(members[..n], id)
  }

  /** Position of the last member carrying `id`. */
  function LastIndex(members: seq<Member>, id: string): (k: nat)
    requires Known(members, id)
    ensures k < |members| && members[k].id == id
    ensures forall k' :: k < k' < |members| ==> members[k'].id != id
  {
    var n := |members| - 1;
    if members[n].id == id then n
    else
      assert forall k :: 0 <= k < n ==> members[..n][k] == members[k];
      LastIndex(members[..n], id)
  }

  /** The name recorded for `id` is the display name of the last member
      carrying that id. */
  lemma {:induction false} NameOfLast(members: seq<Member>, id: string)
    requires Known(members, id)
    ensures NameOf(members, id) == DisplayName(members[LastIndex(members, id)])
  {
    var n := |members| - 1;
    if members[n].id != id {
      NameOfLast(members[..n], id);
    }
  }

  function PaidFor(e: Expense, id: string): real {
    if PayerOf(e) == Some(id) then e.amount else 0.0
  }

  /** Amounts of the expenses whose payer resolves to `id`. */
  function ExpensesPaid(expenses: seq<Expense>, id: string): real {
    if expenses == [] then 0.0
    else ExpensesPaid(expenses[..|expenses| - 1], id) + PaidFor(expenses[|expenses| - 1], id)
  }

  function ExpensesOwed(expenses: seq<Expense>, id: string): real {
    if expenses == [] then 0.0
    else ExpensesOwed(expenses[..|expenses| - 1], id) + SharesOwed(expenses[|expenses| - 1].shares, id)
  }

  function TransfersSent(transfers: seq<Transfer>, id: string): real {
    if transfers == [] then 0.0
    else
      var t := transfers[|transfers| - 1];
      TransfersSent(transfers[..|transfers| - 1], id) + (if t.fromMemberId == id then t.amount else 0.0)
  }

  function TransfersReceived(transfers: seq<Transfer>, id: string): real {
    if transfers == [] then 0.0
    else
      var t := transfers[|transfers| - 1];
      TransfersReceived(transfers[..|transfers| - 1], id) + (if t.toMemberId == id then t.amount else 0.0)
  }

  /** The record the engine reports for member `id`. */
  function Entry(members: seq<Member>, expenses: seq<Expense>, transfers: seq<Transfer>, id: string): MemberBalance
    requires Known(members, id)
  {
    var paid := ExpensesPaid(expenses, id) + TransfersSent(transfers, id);
    var owed := ExpensesOwed(expenses, id) + TransfersReceived(transfers, id);
    MemberBalance(id, NameOf(members, id), paid, owed, paid - owed)
  }

  /** The table's values in insertion order, before the final sort. */
  function Ledger(members: seq<Member>, expenses: seq<Expense>, transfers: seq<Transfer>): seq<MemberBalance> {
    var ids := MemberIds(members);
    seq(|ids|, k requires 0 <= k < |ids| => Entry(members, expenses, transfers, ids[k]))
  }

  function BalanceOf(b: MemberBalance): real {
    b.balance
  }

  function IdOf(b: MemberBalance): string {
    b.memberId
  }

  /** The result of `calculateBalances`. */
  function Balances(members: seq<Member>, expenses: seq<Expense>, transfers: seq<Transfer>): seq<MemberBalance> {
    Sort(Ledger(members, expenses, transfers), BalanceOf)
  }

  /** The state of the program's `Map` once `expenses` and `transfers` have
      been folded in and before balances are assigned: `keys` is its
      insertion order, `table` its contents. */
  ghost predicate Accumulated(keys: seq<string>, table: map<string, MemberBalance>,
                              members: seq<Member>, expenses: seq<Expense>, transfers: seq<Transfer>)
  {
    && keys == MemberIds(members)
    && (forall id :: id in table <==> id in keys)
    && (forall id :: id in table ==> table[id] == Entry(members, expenses, transfers, id).(balance := 0.0))
  }

  method CalculateBalances(members: seq<Member>, expenses: seq<Expense>, transfers: seq<Transfer>)
    returns (r: seq<MemberBalance>)
    ensures r == Balances(members, expenses, transfers)
  {
    var keys, table := InitBalances(members);
    table := ApplyExpenses(keys, table, members, expenses);
    table := ApplyTransfers(keys, table, members, expenses, transfers);
    var values := FinalBalances(keys, table, members, expenses, transfers);
    r := Sort(values, BalanceOf);
  }

  /** One zeroed record per member id; a repeated id keeps its first
      position and takes the later member's name. */
  method InitBalances(members: seq<Member>) returns (keys: seq<string>, table: map<string, MemberBalance>)
    ensures Accumulated(keys, table, members, [], [])
  {
    keys, table := [], map[];
    var k := 0;
    while k < |members|
      invariant 0 <= k <= |members|
      invariant keys == MemberIds(members[..k])
      invariant forall id :: id in table <==> id in keys
      invariant forall id :: id in table ==> table[id] == MemberBalance(id, NameOf(members[..k], id), 0.0, 0.0, 0.0)
    {
      var m := members[k];
      assert members[..k + 1][..k] == members[..k];
      assert members[..k + 1][k] == m;
      if m.id !in table {
        keys := keys + [m.id];
      }
      table := table[m.id := MemberBalance(m.id, DisplayName(m), 0.0, 0.0, 0.0)];
      k := k + 1;
    }
    assert members[..|members|] == members;
  }

  /** Folds the expenses in, one after the other. */
  method ApplyExpenses(keys: seq<string>, table0: map<string, MemberBalance>, ghost members: seq<Member>,
                       expenses: seq<Expense>)
    returns (table: map<string, MemberBalance>)
    requires Accumulated(keys, table0, members, [], [])
    ensures Accumulated(keys, table, members, expenses, [])
  {
    table := table0;
    var k := 0;
    ghost var done: seq<Expense> := [];
    while k < |expenses|
      invariant 0 <= k <= |expenses|
      invariant done == expenses[..k]
      invariant Accumulated(keys, table, members, done, [])
    {
      table := ApplyExpense(keys, table, members, done, expenses[k]);
      PrefixSnoc(expenses, k);
      done := done + [expenses[k]];
      k := k + 1;
    }
    assert done == expenses;
  }

  /** The table while expense `e` is being folded in after `done`: the
      payer is credited and the first `t` shares are charged. */
  ghost predicate PartlyApplied(keys: seq<string>, table: map<string, MemberBalance>, members: seq<Member>,
                                done: seq<Expense>, e: Expense, t: nat)
    requires t <= |e.shares|
  {
    && keys == MemberIds(members)
    && (forall id :: id in table <==> id in keys)
    && (forall id :: id in table ==>
          var b := Entry(members, done, [], id);
          table[id] == b.(paid := b.paid + PaidFor(e, id), owed := b.owed + SharesOwed(e.shares[..t], id), balance := 0.0))
  }

  /** Credits the expense's amount to its payer and each share to its
      member; a missing or unknown id is skipped. */
  method ApplyExpense(keys: seq<string>, table0: map<string, MemberBalance>, ghost members: seq<Member>,
                      ghost done: seq<Expense>, e: Expense)
    returns (table: map<string, MemberBalance>)
    requires Accumulated(keys, table0, members, done, [])
    ensures Accumulated(keys, table, members, done + [e], [])
  {
    table := CreditPayer(keys, table0, members, done, e);
    table := ApplyShares(keys, table, members, done, e);
    ExpenseApplied(keys, table, members, done, e);
  }

  method CreditPayer(keys: seq<string>, table0: map<string, MemberBalance>, ghost members: seq<Member>,
                     ghost done: seq<Expense>, e: Expense)
    returns (table: map<string, MemberBalance>)
    requires Accumulated(keys, table0, members, done, [])
    ensures PartlyApplied(keys, table, members, done, e, 0)
  {
    table := table0;
    var payerId := PayerOf(e);
    if payerId.Some? && payerId.value in table {
      var payer := table[payerId.value];
      table := table[payerId.value := payer.(paid := payer.paid + e.amount)];
    }
    assert e.shares[..0] == [];
  }

  /** Once every share is charged, the table holds the records for `done + [e]`. */
  lemma ExpenseApplied(keys: seq<string>, table: map<string, MemberBalance>, members: seq<Member>,
                       done: seq<Expense>, e: Expense)
    requires PartlyApplied(keys, table, members, done, e, |e.shares|)
    ensures Accumulated(keys, table, members, done + [e], [])
  {
    assert e.shares[..|e.shares|] == e.shares;
    assert (done + [e])[..|done|] == done;
  }

  method ApplyShares(keys: seq<string>, table0: map<string, MemberBalance>, ghost members: seq<Member>,
                     ghost done: seq<Expense>, e: Expense)
    returns (table: map<string, MemberBalance>)
    requires PartlyApplied(keys, table0, members, done, e, 0)
    ensures PartlyApplied(keys, table, members, done, e, |e.shares|)
  {
    table := table0;
    var t := 0;
    while t < |e.shares|
      invariant 0 <= t <= |e.shares|
      invariant PartlyApplied(keys, table, members, done, e, t)
    {
      table := ChargeShare(keys, table, members, done, e, t);
      t := t + 1;
    }
  }

  /** Share `t` adds its amount to the `owed` of its member, if that member
      is a key. */
  method ChargeShare(keys: seq<string>, table0: map<string, MemberBalance>, ghost members: seq<Member>,
                     ghost done: seq<Expense>, e: Expense, t: nat)
    returns (table: map<string, MemberBalance>)
    requires t < |e.shares|
    requires PartlyApplied(keys, table0, members, done, e, t)
    ensures PartlyApplied(keys, table, members, done, e, t + 1)
  {
    table := table0;
    var share := e.shares[t];
    var memberId := MemberOf(share);
    if memberId.Some? && memberId.value in table {
      var member := table[memberId.value];
      table := table[memberId.value := member.(owed := member.owed + share.shareAmount)];
    }
    SharesOwedSnoc(e.shares, t);
  }

  /** Credits each transfer to the sender's `paid` and the receiver's `owed`. */
  method ApplyTransfers(keys: seq<string>, table0: map<string, MemberBalance>, members: seq<Member>,
                        expenses: seq<Expense>, transfers: seq<Transfer>)
    returns (table: map<string, MemberBalance>)
    requires Accumulated(keys, table0, members, expenses, [])
    ensures Accumulated(keys, table, members, expenses, transfers)
  {
    table := table0;
    var k := 0;
    ghost var done: seq<Transfer> := [];
    while k < |transfers|
      invariant 0 <= k <= |transfers|
      invariant done == transfers[..k]
      invariant Accumulated(keys, table, members, expenses, done)
    {
      table := ApplyTransfer(keys, table, members, expenses, done, transfers[k]);
      PrefixSnoc(transfers, k);
      done := done + [transfers[k]];
      k := k + 1;
    }
    assert done == transfers;
  }

  /** One transfer: the sender's `paid` and the receiver's `owed` grow by its
      amount; an id that is not a key is skipped. */
  method ApplyTransfer(keys: seq<string>, table0: map<string, MemberBalance>, ghost members: seq<Member>,
                       ghost expenses: seq<Expense>, ghost done: seq<Transfer>, transfer: Transfer)
    returns (table: map<string, MemberBalance>)
    requires Accumulated(keys, table0, members, expenses, done)
    ensures Accumulated(keys, table, members, expenses, done + [transfer])
  {
    table := CreditSender(keys, table0, members, expenses, done, transfer);
    table := CreditReceiver(keys, table, members, expenses, done, transfer);
  }

  method CreditSender(keys: seq<string>, table0: map<string, MemberBalance>, ghost members: seq<Member>,
                      ghost expenses: seq<Expense>, ghost done: seq<Transfer>, transfer: Transfer)
    returns (table: map<string, MemberBalance>)
    requires Accumulated(keys, table0, members, expenses, done)
    ensures SenderCredited(keys, table, members, expenses, done, transfer)
  {
    table := table0;
    if transfer.fromMemberId in table {
      var from := table[transfer.fromMemberId];
      table := table[transfer.fromMemberId := from.(paid := from.paid + transfer.amount)];
    }
  }

  method CreditReceiver(keys: seq<string>, table0: map<string, MemberBalance>, ghost members: seq<Member>,
                        ghost expenses: seq<Expense>, ghost done: seq<Transfer>, transfer: Transfer)
    returns (table: map<string, MemberBalance>)
    requires SenderCredited(keys, table0, members, expenses, done, transfer)
    ensures Accumulated(keys, table, members, expenses, done + [transfer])
  {
    table := table0;
    if transfer.toMemberId in table {
      var to := table[transfer.toMemberId];
      table := table[transfer.toMemberId := to.(owed := to.owed + transfer.amount)];
    }
    TransferEntries(members, expenses, done, transfer);
  }

  /** The table between the two updates of one transfer. */
  ghost predicate SenderCredited(keys: seq<string>, table: map<string, MemberBalance>, members: seq<Member>,
                                 expenses: seq<Expense>, done: seq<Transfer>, transfer: Transfer)
  {
    && keys == MemberIds(members)
    && (forall id :: id in table <==> id in keys)
    && (forall id :: id in table ==>
          var b := Entry(members, expenses, done, id);
          table[id] == b.(paid := b.paid + (if transfer.fromMemberId == id then transfer.amount else 0.0), balance := 0.0))
  }

  /** What one more transfer does to each record. */
  lemma TransferEntries(members: seq<Member>, expenses: seq<Expense>, done: seq<Transfer>, transfer: Transfer)
    ensures forall id :: Known(members, id) ==>
              var b := Entry(members, expenses, done, id);
              Entry(members, expenses, done + [transfer], id).(balance := 0.0)
                == b.(paid := b.paid + (if transfer.fromMemberId == id then transfer.amount else 0.0),
                      owed := b.owed + (if transfer.toMemberId == id then transfer.amount else 0.0),
                      balance := 0.0)
  {
    assert (done + [transfer])[..|done|] == done;
  }

  /** Assigns `balance = paid - owed` to every record, then lists the records
      in insertion order (`Array.from(balances.values())`). */
  method FinalBalances(keys: seq<string>, table0: map<string, MemberBalance>, ghost members: seq<Member>,
                       ghost expenses: seq<Expense>, ghost transfers: seq<Transfer>)
    returns (values: seq<MemberBalance>)
    requires Accumulated(keys, table0, members, expenses, transfers)
    ensures values == Ledger(members, expenses, transfers)
  {
    var table := AssignBalances(keys, table0, members, expenses, transfers);
    values := [];
    var k := 0;
    while k < |keys|
      invariant 0 <= k <= |keys|
      invariant values == Ledger(members, expenses, transfers)[..k]
    {
      values := values + [table[keys[k]]];
      k := k + 1;
    }
  }

  /** The first loop of the final pass: `balance = paid - owed` for every key. */
  method AssignBalances(keys: seq<string>, table0: map<string, MemberBalance>, ghost members: seq<Member>,
                        ghost expenses: seq<Expense>, ghost transfers: seq<Transfer>)
    returns (table: map<string, MemberBalance>)
    requires Accumulated(keys, table0, members, expenses, transfers)
    ensures keys == MemberIds(members)
    ensures forall id :: id in table <==> id in keys
    ensures forall q :: 0 <= q < |keys| ==> table[keys[q]] == Entry(members, expenses, transfers, keys[q])
  {
    table := table0;
    var k := 0;
    while k < |keys|
      invariant 0 <= k <= |keys|
      invariant forall id :: id in table <==> id in keys
      invariant forall q :: 0 <= q < |keys| ==>
        table[keys[q]] == if q < k then Entry(members, expenses, transfers, keys[q])
                          else Entry(members, expenses, transfers, keys[q]).(balance := 0.0)
    {
      var b := table[keys[k]];
      table := table[keys[k] := b.(balance := b.paid - b.owed)];
      k := k + 1;
    }
  }

  // ----- What the result says -----

  /** Exactly one entry per distinct member id; each entry is that member's
      closed-form record. */
  lemma BalancesOnePerMember(members: seq<Member>, expenses: seq<Expense>, transfers: seq<Transfer>)
    ensures |Balances(members, expenses, transfers)| == |MemberIds(members)|
    ensures forall b :: b in Balances(members, expenses, transfers) ==>
              Known(members, b.memberId) && b == Entry(members, expenses, transfers, b.memberId)
    ensures forall k :: 0 <= k < |members| ==>
              exists b :: b in Balances(members, expenses, transfers) && b.memberId == members[k].id
    ensures DistinctBy(Balances(members, expenses, transfers), IdOf)
  {
    var ids := MemberIds(members);
    var l := Ledger(members, expenses, transfers);
    var r := Balances(members, expenses, transfers);
    SameEntries(l, r);
    forall k | 0 <= k < |members| ensures exists b :: b in r && b.memberId == members[k].id {
      KnownIff(members, members[k].id);
      var q :| 0 <= q < |ids| && ids[q] == members[k].id;
      assert l[q] in r;
    }
    assert DistinctBy(l, IdOf);
    SortDistinct(l, BalanceOf, IdOf);
  }

  lemma SameEntries(l: seq<MemberBalance>, r: seq<MemberBalance>)
    requires multiset(r) == multiset(l)
    ensures forall b :: b in r <==> b in l
  {
    forall b ensures b in r <==> b in l {
      assert b in r <==> b in multiset(r);
      assert b in l <==> b in multiset(l);
    }
  }

  /** Every entry's numbers: paid is what the member fronted (expenses it
      paid, transfers it sent), owed is what was allocated to it (its shares,
      transfers it received), and `balance = paid - owed`. Its name is the
      display name of the last member with its id. */
  lemma BalanceFields(members: seq<Member>, expenses: seq<Expense>, transfers: seq<Transfer>, b: MemberBalance)
    requires b in Balances(members, expenses, transfers)
    ensures b.paid == ExpensesPaid(expenses, b.memberId) + TransfersSent(transfers, b.memberId)
    ensures b.owed == ExpensesOwed(expenses, b.memberId) + TransfersReceived(transfers, b.memberId)
    ensures b.balance == b.paid - b.owed
    ensures Known(members, b.memberId) && b.memberName == DisplayName(members[LastIndex(members, b.memberId)])
  {
    BalancesOnePerMember(members, expenses, transfers);
    NameOfLast(members, b.memberId);
  }

  /** The result is ordered by balance, largest first; entries with equal
      balances keep the members' insertion order. */
  lemma BalancesSorted(members: seq<Member>, expenses: seq<Expense>, transfers: seq<Transfer>)
    ensures Descending(Balances(members, expenses, transfers), BalanceOf)
    ensures forall v :: WithKey(Balances(members, expenses, transfers), BalanceOf, v)
                     == WithKey(Ledger(members, expenses, transfers), BalanceOf, v)
  {
    SortDescending(Ledger(members, expenses, transfers), BalanceOf);
    forall v ensures WithKey(Balances(members, expenses, transfers), BalanceOf, v)
                  == WithKey(Ledger(members, expenses, transfers), BalanceOf, v)
    {
      SortStable(Ledger(members, expenses, transfers), BalanceOf, v);
    }
  }

  // ----- References to ids that are not members -----

  /** No payer, share or transfer names `id`. */
  ghost predicate Untouched(expenses: seq<Expense>, transfers: seq<Transfer>, id: string) {
    && (forall k :: 0 <= k < |expenses| ==> PayerOf(expenses[k]) != Some(id))
    && (forall k, q :: 0 <= k < |expenses| && 0 <= q < |expenses[k].shares| ==> MemberOf(expenses[k].shares[q]) != Some(id))
    && (forall k :: 0 <= k < |transfers| ==> transfers[k].fromMemberId != id && transfers[k].toMemberId != id)
  }

  lemma {:induction false} UntouchedSums(expenses: seq<Expense>, transfers: seq<Transfer>, id: string)
    requires Untouched(expenses, transfers, id)
    ensures ExpensesPaid(expenses, id) == 0.0 && ExpensesOwed(expenses, id) == 0.0
    ensures TransfersSent(transfers, id) == 0.0 && TransfersReceived(transfers, id) == 0.0
  {
    if transfers != [] {
      var n := |transfers| - 1;
      assert forall k :: 0 <= k < n ==> transfers[..n][k] == transfers[k];
      UntouchedSums(expenses, transfers[..n], id);
    } else if expenses != [] {
      var n := |expenses| - 1;
      assert forall k :: 0 <= k < n ==> expenses[..n][k] == expenses[k];
      UntouchedSums(expenses[..n], transfers, id);
      SharesUntouched(expenses[n].shares, id);
    }
  }

  /** A member nobody references keeps `paid = owed = balance = 0`. */
  lemma IdleMemberIsZero(members: seq<Member>, expenses: seq<Expense>, transfers: seq<Transfer>, b: MemberBalance)
    requires b in Balances(members, expenses, transfers)
    requires Untouched(expenses, transfers, b.memberId)
    ensures b.paid == 0.0 && b.owed == 0.0 && b.balance == 0.0
  {
    BalancesOnePerMember(members, expenses, transfers);
    UntouchedSums(expenses, transfers, b.memberId);
  }

  lemma {:induction false} ExpensesPaidConcat(a: seq<Expense>, b: seq<Expense>, id: string)
    ensures ExpensesPaid(a + b, id) == ExpensesPaid(a, id) + ExpensesPaid(b, id)
  {
    if b != [] {
      var n := |b| - 1;
      assert (a + b)[..|a| + n] == a + b[..n];
      ExpensesPaidConcat(a, b[..n], id);
    } else {
      assert a + b == a;
    }
  }

  lemma {:induction false} ExpensesOwedConcat(a: seq<Expense>, b: seq<Expense>, id: string)
    ensures ExpensesOwed(a + b, id) == ExpensesOwed(a, id) + ExpensesOwed(b, id)
  {
    if b != [] {
      var n := |b| - 1;
      assert (a + b)[..|a| + n] == a + b[..n];
      ExpensesOwedConcat(a, b[..n], id);
    } else {
      assert a + b == a;
    }
  }

  lemma {:induction false} TransfersConcat(a: seq<Transfer>, b: seq<Transfer>, id: string)
    ensures TransfersSent(a + b, id) == TransfersSent(a, id) + TransfersSent(b, id)
    ensures TransfersReceived(a + b, id) == TransfersReceived(a, id) + TransfersReceived(b, id)
  {
    if b != [] {
      var n := |b| - 1;
      assert (a + b)[..|a| + n] == a + b[..n];
      TransfersConcat(a, b[..n], id);
    } else {
      assert a + b == a;
    }
  }

  /** An expense whose payer and share members are all missing or not
      members changes nothing, wherever it stands in the list. */
  lemma UnknownExpenseIgnored(members: seq<Member>, before: seq<Expense>, e: Expense, after: seq<Expense>,
                              transfers: seq<Transfer>)
    requires PayerOf(e).Some? ==> !Known(members, PayerOf(e).value)
    requires forall q :: 0 <= q < |e.shares| ==> MemberOf(e.shares[q]).Some? ==> !Known(members, MemberOf(e.shares[q]).value)
    ensures Balances(members, before + [e] + after, transfers) == Balances(members, before + after, transfers)
  {
    var l1 := Ledger(members, before + [e] + after, transfers);
    var l2 := Ledger(members, before + after, transfers);
    forall k | 0 <= k < |l1| ensures l1[k] == l2[k] {
      var id := MemberIds(members)[k];
      ExpensesPaidConcat(before + [e], after, id);
      ExpensesPaidConcat(before, [e], id);
      ExpensesPaidConcat(before, after, id);
      ExpensesOwedConcat(before + [e], after, id);
      ExpensesOwedConcat(before, [e], id);
      ExpensesOwedConcat(before, after, id);
      assert [e][..0] == [];
      SharesUntouched(e.shares, id);
    }
    assert l1 == l2;
  }

  /** A transfer between two ids that are not members changes nothing. */
  lemma UnknownTransferIgnored(members: seq<Member>, expenses: seq<Expense>, before: seq<Transfer>, t: Transfer,
                               after: seq<Transfer>)
    requires !Known(members, t.fromMemberId) && !Known(members, t.toMemberId)
    ensures Balances(members, expenses, before + [t] + after) == Balances(members, expenses, before + after)
  {
    var l1 := Ledger(members, expenses, before + [t] + after);
    var l2 := Ledger(members, expenses, before + after);
    forall k | 0 <= k < |l1| ensures l1[k] == l2[k] {
      var id := MemberIds(members)[k];
      TransfersConcat(before + [t], after, id);
      TransfersConcat(before, [t], id);
      TransfersConcat(before, after, id);
      assert [t][..0] == [];
    }
    assert l1 == l2;
  }

  /** One more transfer of `a`: the sender's paid and the receiver's owed
      grow by `a`, every other record and the insertion order stay as they
      were. */
  lemma TransferEffect(members: seq<Member>, expenses: seq<Expense>, transfers: seq<Transfer>, t: Transfer)
    ensures |Ledger(members, expenses, transfers + [t])| == |Ledger(members, expenses, transfers)|
    ensures forall k :: 0 <= k < |Ledger(members, expenses, transfers)| ==>
      var was := Ledger(members, expenses, transfers)[k];
      var paid := was.paid + (if t.fromMemberId == was.memberId then t.amount else 0.0);
      var owed := was.owed + (if t.toMemberId == was.memberId then t.amount else 0.0);
      Ledger(members, expenses, transfers + [t])[k] == was.(paid := paid, owed := owed, balance := paid - owed)
  {
    assert (transfers + [t])[..|transfers|] == transfers;
  }

  // ----- Conservation -----

  function SumOver(ids: seq<string>, f: string -> real): real {
    if ids == [] then 0.0 else f(ids[0]) + SumOver(ids[1..], f)
  }

  lemma {:induction false} SumOverAdd(ids: seq<string>, f: string -> real, g: string -> real, h: string -> real)
    requires forall u :: h(u) == f(u) + g(u)
    ensures SumOver(ids, h) == SumOver(ids, f) + SumOver(ids, g)
  {
    if ids != [] {
      SumOverAdd(ids[1..], f, g, h);
    }
  }

  lemma {:induction false} SumOverSub(ids: seq<string>, f: string -> real, g: string -> real, h: string -> real)
    requires forall u :: h(u) == f(u) - g(u)
    ensures SumOver(ids, h) == SumOver(ids, f) - SumOver(ids, g)
  {
    if ids != [] {
      SumOverSub(ids[1..], f, g, h);
    }
  }

  /** Summing over distinct ids an amount that only `target` carries. */
  lemma {:induction false} SumOverSingle(ids: seq<string>, target: Option<string>, a: real, f: string -> real)
    requires forall i, j :: 0 <= i < j < |ids| ==> ids[i] != ids[j]
    requires forall u :: f(u) == if target == Some(u) then a else 0.0
    ensures SumOver(ids, f) == if target.Some? && target.value in ids then a else 0.0
  {
    if ids != [] {
      SumOverSingle(ids[1..], target, a, f);
      assert target.Some? && target.value in ids[1..] ==> ids[0] != target.value;
      assert target.Some? && target.value in ids ==> target.value == ids[0] || target.value in ids[1..];
    }
  }

  lemma {:induction false} SharesOverKnown(ids: seq<string>, shares: seq<Share>)
    requires forall i, j :: 0 <= i < j < |ids| ==> ids[i] != ids[j]
    requires forall q :: 0 <= q < |shares| ==> MemberOf(shares[q]).Some? && MemberOf(shares[q]).value in ids
    ensures SumOver(ids, u => SharesOwed(shares, u)) == ShareTotal(shares)
  {
    if shares != [] {
      var n := |shares| - 1;
      var s := shares[n];
      assert forall q :: 0 <= q < n ==> shares[..n][q] == shares[q];
      SharesOverKnown(ids, shares[..n]);
      SumOverAdd(ids, u => SharesOwed(shares[..n], u), u => OwedFor(s, u), u => SharesOwed(shares, u));
      SumOverSingle(ids, MemberOf(s), s.shareAmount, u => OwedFor(s, u));
    } else {
      SumOverSingle(ids, None, 0.0, u => SharesOwed(shares, u));
    }
  }

  /** Every payer, share member, sender and receiver is a member, and every
      expense's shares add up to its amount. */
  ghost predicate Closed(members: seq<Member>, expenses: seq<Expense>, transfers: seq<Transfer>) {
    && (forall k :: 0 <= k < |expenses| ==>
          && PayerOf(expenses[k]).Some? && Known(members, PayerOf(expenses[k]).value)
          && ShareTotal(expenses[k].shares) == expenses[k].amount)
    && (forall k, q :: 0 <= k < |expenses| && 0 <= q < |expenses[k].shares| ==>
          MemberOf(expenses[k].shares[q]).Some? && Known(members, MemberOf(expenses[k].shares[q]).value))
    && (forall k :: 0 <= k < |transfers| ==>
          Known(members, transfers[k].fromMemberId) && Known(members, transfers[k].toMemberId))
  }

  function Net(expenses: seq<Expense>, transfers: seq<Transfer>, id: string): real {
    (ExpensesPaid(expenses, id) + TransfersSent(transfers, id)) - (ExpensesOwed(expenses, id) + TransfersReceived(transfers, id))
  }

  lemma {:induction false} NetSumsToZero(members: seq<Member>, expenses: seq<Expense>, transfers: seq<Transfer>)
    requires Closed(members, expenses, transfers)
    ensures SumOver(MemberIds(members), u => Net(expenses, transfers, u)) == 0.0
  {
    var ids := MemberIds(members);
    if transfers != [] {
      var n := |transfers| - 1;
      ClosedWithoutLastTransfer(members, expenses, transfers);
      NetSumsToZero(members, expenses, transfers[..n]);
      NetAfterTransfer(ids, expenses, transfers);
    } else if expenses != [] {
      var n := |expenses| - 1;
      ClosedWithoutLastExpense(members, expenses, transfers);
      NetSumsToZero(members, expenses[..n], transfers);
      NetAfterExpense(ids, expenses, transfers);
    } else {
      SumOverSingle(ids, None, 0.0, u => Net(expenses, transfers, u));
    }
  }

  lemma ClosedWithoutLastTransfer(members: seq<Member>, expenses: seq<Expense>, transfers: seq<Transfer>)
    requires transfers != [] && Closed(members, expenses, transfers)
    ensures var t := transfers[|transfers| - 1];
      && Closed(members, expenses, transfers[..|transfers| - 1])
      && t.fromMemberId in MemberIds(members) && t.toMemberId in MemberIds(members)
  {
    var n := |transfers| - 1;
    assert forall k :: 0 <= k < n ==> transfers[..n][k] == transfers[k];
  }

  lemma ClosedWithoutLastExpense(members: seq<Member>, expenses: seq<Expense>, transfers: seq<Transfer>)
    requires expenses != [] && Closed(members, expenses, transfers)
    ensures var e := expenses[|expenses| - 1];
      && Closed(members, expenses[..|expenses| - 1], transfers)
      && PayerOf(e).Some? && PayerOf(e).value in MemberIds(members) && ShareTotal(e.shares) == e.amount
      && forall q :: 0 <= q < |e.shares| ==> MemberOf(e.shares[q]).Some? && MemberOf(e.shares[q]).value in MemberIds(members)
  {
    var n := |expenses| - 1;
    assert forall k :: 0 <= k < n ==> expenses[..n][k] == expenses[k];
  }

  /** A transfer between two members leaves the sum of the balances as it was. */
  lemma NetAfterTransfer(ids: seq<string>, expenses: seq<Expense>, transfers: seq<Transfer>)
    requires forall i, j :: 0 <= i < j < |ids| ==> ids[i] != ids[j]
    requires transfers != []
    requires transfers[|transfers| - 1].fromMemberId in ids && transfers[|transfers| - 1].toMemberId in ids
    ensures SumOver(ids, u => Net(expenses, transfers, u)) == SumOver(ids, u => Net(expenses, transfers[..|transfers| - 1], u))
  {
    var prefix := transfers[..|transfers| - 1];
    var t := transfers[|transfers| - 1];
    var sent := (u: string) => if Some(t.fromMemberId) == Some(u) then t.amount else 0.0;
    var received := (u: string) => if Some(t.toMemberId) == Some(u) then t.amount else 0.0;
    var plus := (u: string) => Net(expenses, prefix, u) + sent(u);
    SumOverAdd(ids, u => Net(expenses, prefix, u), sent, plus);
    SumOverSub(ids, plus, received, u => Net(expenses, transfers, u));
    SumOverSingle(ids, Some(t.fromMemberId), t.amount, sent);
    SumOverSingle(ids, Some(t.toMemberId), t.amount, received);
  }

  /** A fully shared expense among members leaves the sum of the balances as
      it was. */
  lemma NetAfterExpense(ids: seq<string>, expenses: seq<Expense>, transfers: seq<Transfer>)
    requires forall i, j :: 0 <= i < j < |ids| ==> ids[i] != ids[j]
    requires expenses != []
    requires var e := expenses[|expenses| - 1];
      && PayerOf(e).Some? && PayerOf(e).value in ids && ShareTotal(e.shares) == e.amount
      && forall q :: 0 <= q < |e.shares| ==> MemberOf(e.shares[q]).Some? && MemberOf(e.shares[q]).value in ids
    ensures SumOver(ids, u => Net(expenses, transfers, u)) == SumOver(ids, u => Net(expenses[..|expenses| - 1], transfers, u))
  {
    var prefix := expenses[..|expenses| - 1];
    var e := expenses[|expenses| - 1];
    var plus := (u: string) => Net(prefix, transfers, u) + PaidFor(e, u);
    SumOverAdd(ids, u => Net(prefix, transfers, u), u => PaidFor(e, u), plus);
    SumOverSub(ids, plus, u => SharesOwed(e.shares, u), u => Net(expenses, transfers, u));
    SumOverSingle(ids, PayerOf(e), e.amount, u => PaidFor(e, u));
    SharesOverKnown(ids, e.shares);
  }

  lemma {:induction false} LedgerSum(members: seq<Member>, expenses: seq<Expense>, transfers: seq<Transfer>,
                                     l: seq<MemberBalance>, ids: seq<string>)
    requires |l| == |ids|
    requires forall k :: 0 <= k < |l| ==> l[k].balance == Net(expenses, transfers, ids[k])
    ensures SumOf(l, BalanceOf) == SumOver(ids, u => Net(expenses, transfers, u))
  {
    if l != [] {
      LedgerSum(members, expenses, transfers, l[1..], ids[1..]);
    }
  }

  /** Conservation: when every reference is to a member and every expense is
      fully shared, the balances add up to zero; transfers cancel out. */
  lemma BalancesSumToZero(members: seq<Member>, expenses: seq<Expense>, transfers: seq<Transfer>)
    requires Closed(members, expenses, transfers)
    ensures SumOf(Balances(members, expenses, transfers), BalanceOf) == 0.0
  {
    var l := Ledger(members, expenses, transfers);
    SortSum(l, BalanceOf);
    LedgerSum(members, expenses, transfers, l, MemberIds(members));
    NetSumsToZero(members, expenses, transfers);
  }
}
