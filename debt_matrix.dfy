/** `calculateDebtMatrix`: a gross table, debtor id -> payer id -> the sum of
    that debtor's shares in expenses the payer paid. Nothing is netted and
    transfers play no part.

    `Matrix` is the closed form: one row per id in the balances, and in row
    `m` a cell for every payer `p != m` of an expense in which a share
    resolves to `m` (`Payees`), holding the sum of those shares (`Owes`).
    `CalculateDebtMatrix` builds the same table cell by cell, as the program
    does with its nested `Map`s. */
module DebtMatrix {
  import opened Records

  /** The ids that get a row. */
  function RowIds(balances: seq<MemberBalance>): set<string> {
    set k | 0 <= k < |balances| :: balances[k].memberId
  }

  /** Some share of the list resolves to `m`. */
  predicate HasShare(shares: seq<Share>, m: string) {
    exists q :: 0 <= q < |shares| && MemberOf(shares[q]) == Some(m)
  }

  /** Expense `e` makes `m` a direct debtor of `p`. */
  predicate Charges(e: Expense, m: string, p: string) {
    PayerOf(e) == Some(p) && p != m && HasShare(e.shares, m)
  }

  /** The ids `m` owes something to directly. */
  function Payees(expenses: seq<Expense>, m: string): set<string> {
    if expenses == [] then {}
    else
      var e := expenses[|expenses| - 1];
      Payees(expenses[..|expenses| - 1], m) + (if PayerOf(e).Some? && Charges(e, m, PayerOf(e).value) then {PayerOf(e).value} else {})
  }

  /** The sum of `m`'s shares in expenses paid by `p`, when `m` is not `p`. */
  function Owes(expenses: seq<Expense>, m: string, p: string): real {
    if expenses == [] then 0.0
    else
      var e := expenses[|expenses| - 1];
      Owes(expenses[..|expenses| - 1], m, p) + (if PayerOf(e) == Some(p) && p != m then SharesOwed(e.shares, m) else 0.0)
  }

  function Row(expenses: seq<Expense>, m: string): map<string, real> {
    map p | p in Payees(expenses, m) :: Owes(expenses, m, p)
  }

  /** The result of `calculateDebtMatrix`. */
  function Matrix(balances: seq<MemberBalance>, expenses: seq<Expense>): map<string, map<string, real>> {
    map m | m in RowIds(balances) :: Row(expenses, m)
  }

  method CalculateDebtMatrix(balances: seq<MemberBalance>, expenses: seq<Expense>)
    returns (matrix: map<string, map<string, real>>)
    ensures matrix == Matrix(balances, expenses)
  {
    matrix := InitRows(balances);
    ghost var ids := RowIds(balances);
    var k := 0;
    ghost var done: seq<Expense> := [];
    while k < |expenses|
      invariant 0 <= k <= |expenses|
      invariant done == expenses[..k]
      invariant forall m :: m in matrix <==> m in ids
      invariant forall m :: m in matrix ==> matrix[m] == Row(done, m)
    {
      matrix := AddExpense(matrix, ids, done, expenses[k]);
      PrefixSnoc(expenses, k);
      done := done + [expenses[k]];
      k := k + 1;
    }
    assert done == expenses;
    RowsMakeMatrix(matrix, balances, expenses);
  }

  /** One empty row per id in the balances, which is the row of no expenses. */
  method InitRows(balances: seq<MemberBalance>) returns (matrix: map<string, map<string, real>>)
    ensures forall m :: m in matrix <==> m in RowIds(balances)
    ensures forall m :: m in matrix ==> matrix[m] == Row([], m)
  {
    matrix := map[];
    var k := 0;
    while k < |balances|
      invariant 0 <= k <= |balances|
      invariant forall m :: m in matrix <==> m in RowIds(balances[..k])
      invariant forall m :: m in matrix ==> matrix[m] == map[]
    {
      assert forall q :: 0 <= q < k ==> balances[..k + 1][q] == balances[..k][q];
      assert balances[..k + 1][k] == balances[k];
      matrix := matrix[balances[k].memberId := map[]];
      k := k + 1;
    }
    assert balances[..|balances|] == balances;
  }

  lemma RowsMakeMatrix(matrix: map<string, map<string, real>>, balances: seq<MemberBalance>, expenses: seq<Expense>)
    requires forall m :: m in matrix <==> m in RowIds(balances)
    requires forall m :: m in matrix ==> matrix[m] == Row(expenses, m)
    ensures matrix == Matrix(balances, expenses)
  {
  }

  /** Row `m` while the shares of `e` are being added after `done`: the
      first `t` shares have been counted. */
  ghost predicate RowSoFar(row: map<string, real>, done: seq<Expense>, e: Expense, t: nat, m: string)
    requires t <= |e.shares|
  {
    var p := PayerOf(e);
    && (forall c :: c in row <==> c in Payees(done, m) || (p == Some(c) && c != m && HasShare(e.shares[..t], m)))
    && (forall c :: c in row ==>
          row[c] == Owes(done, m, c) + (if p == Some(c) && c != m then SharesOwed(e.shares[..t], m) else 0.0))
  }

  /** Adds every share of `e` whose member has a row and is not the payer
      to the cell (member, payer); an expense without a payer is skipped. */
  method AddExpense(matrix0: map<string, map<string, real>>, ghost ids: set<string>, ghost done: seq<Expense>, e: Expense)
    returns (matrix: map<string, map<string, real>>)
    requires forall m :: m in matrix0 <==> m in ids
    requires forall m :: m in matrix0 ==> matrix0[m] == Row(done, m)
    ensures forall m :: m in matrix <==> m in ids
    ensures forall m :: m in matrix ==> matrix[m] == Row(done + [e], m)
  {
    var payerId := PayerOf(e);
    if payerId.None? {
      matrix := matrix0;
      forall m | m in matrix ensures matrix[m] == Row(done + [e], m) {
        UnpaidRow(done, e, m);
      }
    } else {
      matrix := AddShares(matrix0, ids, done, e, payerId.value);
    }
  }

  lemma UnpaidRow(done: seq<Expense>, e: Expense, m: string)
    requires PayerOf(e).None?
    ensures Row(done + [e], m) == Row(done, m)
  {
    assert (done + [e])[..|done|] == done;
    assert Payees(done + [e], m) == Payees(done, m);
  }

  lemma StartRow(row: map<string, real>, done: seq<Expense>, e: Expense, m: string)
    requires row == Row(done, m)
    ensures RowSoFar(row, done, e, 0, m)
  {
    assert e.shares[..0] == [];
  }

  /** The loop over the shares of an expense paid by `payer`. */
  method AddShares(matrix0: map<string, map<string, real>>, ghost ids: set<string>, ghost done: seq<Expense>, e: Expense,
                   payer: string)
    returns (matrix: map<string, map<string, real>>)
    requires PayerOf(e) == Some(payer)
    requires forall m :: m in matrix0 <==> m in ids
    requires forall m :: m in matrix0 ==> matrix0[m] == Row(done, m)
    ensures forall m :: m in matrix <==> m in ids
    ensures forall m :: m in matrix ==> matrix[m] == Row(done + [e], m)
  {
    matrix := matrix0;
    var t := 0;
    while t < |e.shares|
      invariant 0 <= t <= |e.shares|
      invariant matrix == Credited(matrix0, payer, e.shares[..t])
    {
      assert e.shares[..t + 1][..t] == e.shares[..t];
      matrix := AddShare(matrix, payer, e.shares[t]);
      t := t + 1;
    }
    assert e.shares[..|e.shares|] == e.shares;
    CreditedRows(matrix0, ids, done, e, |e.shares|);
    CompleteRows(matrix, done, e);
  }

  /** The table after the given shares of an expense paid by `payer` were
      looked at, one after the other. */
  function Credited(matrix: map<string, map<string, real>>, payer: string, shares: seq<Share>): map<string, map<string, real>>
  {
    if shares == [] then matrix
    else
      var before := Credited(matrix, payer, shares[..|shares| - 1]);
      map m | m in before :: Credit(before[m], payer, shares[|shares| - 1], m)
  }

  /** Looking at the first `t` shares leaves every row in the state
      `RowSoFar` describes. */
  lemma {:induction false} CreditedRows(matrix0: map<string, map<string, real>>, ids: set<string>, done: seq<Expense>,
                                        e: Expense, t: nat)
    requires PayerOf(e).Some? && t <= |e.shares|
    requires forall m :: m in matrix0 <==> m in ids
    requires forall m :: m in matrix0 ==> matrix0[m] == Row(done, m)
    ensures forall m :: m in Credited(matrix0, PayerOf(e).value, e.shares[..t]) <==> m in ids
    ensures forall m :: m in Credited(matrix0, PayerOf(e).value, e.shares[..t]) ==>
              RowSoFar(Credited(matrix0, PayerOf(e).value, e.shares[..t])[m], done, e, t, m)
  {
    if t == 0 {
      assert e.shares[..0] == [];
      StartRows(matrix0, done, e);
    } else {
      CreditedRows(matrix0, ids, done, e, t - 1);
      assert e.shares[..t][..t - 1] == e.shares[..t - 1];
      var before := Credited(matrix0, PayerOf(e).value, e.shares[..t - 1]);
      forall m | m in before
        ensures RowSoFar(Credit(before[m], PayerOf(e).value, e.shares[t - 1], m), done, e, t, m)
      {
        ShareStep(before[m], done, e, t - 1, m);
      }
    }
  }

  lemma StartRows(matrix: map<string, map<string, real>>, done: seq<Expense>, e: Expense)
    requires forall m :: m in matrix ==> matrix[m] == Row(done, m)
    ensures forall m :: m in matrix ==> RowSoFar(matrix[m], done, e, 0, m)
  {
    forall m | m in matrix ensures RowSoFar(matrix[m], done, e, 0, m) {
      StartRow(matrix[m], done, e, m);
    }
  }

  lemma CompleteRows(matrix: map<string, map<string, real>>, done: seq<Expense>, e: Expense)
    requires forall m :: m in matrix ==> RowSoFar(matrix[m], done, e, |e.shares|, m)
    ensures forall m :: m in matrix ==> matrix[m] == Row(done + [e], m)
  {
    forall m | m in matrix ensures matrix[m] == Row(done + [e], m) {
      RowComplete(matrix[m], done, e, m);
    }
  }

  /** One share of an expense paid by `payer`: if its member has a row and
      is not the payer, its amount is added to the cell (member, payer),
      which starts from 0 when absent. Every other cell stays as it was. */
  method AddShare(matrix0: map<string, map<string, real>>, payer: string, share: Share)
    returns (matrix: map<string, map<string, real>>)
    ensures matrix == map m | m in matrix0 :: Credit(matrix0[m], payer, share, m)
  {
    matrix := matrix0;
    var memberId := MemberOf(share);
    if memberId.Some? && memberId.value != payer && memberId.value in matrix {
      var row := matrix[memberId.value];
      var current := if payer in row then row[payer] else 0.0;
      matrix := matrix[memberId.value := row[payer := current + share.shareAmount]];
    }
  }

  /** Row `m` after share `s` of an expense paid by `payer` was looked at. */
  function Credit(row: map<string, real>, payer: string, s: Share, m: string): map<string, real> {
    if MemberOf(s) == Some(m) && m != payer
    then row[payer := (if payer in row then row[payer] else 0.0) + s.shareAmount]
    else row
  }

  lemma ShareStep(row: map<string, real>, done: seq<Expense>, e: Expense, t: nat, m: string)
    requires PayerOf(e).Some? && t < |e.shares|
    requires RowSoFar(row, done, e, t, m)
    ensures RowSoFar(Credit(row, PayerOf(e).value, e.shares[t], m), done, e, t + 1, m)
  {
    ShareSnoc(e.shares, t, m);
    var p := PayerOf(e).value;
    if p !in row {
      // A cell created now starts from nothing, as `get(payerId) || 0` does.
      OwesOutside(done, m, p);
      if !HasShare(e.shares[..t], m) {
        SharesUntouched(e.shares[..t], m);
      }
    }
  }

  /** Looking at one more share. */
  lemma ShareSnoc(shares: seq<Share>, t: nat, m: string)
    requires t < |shares|
    ensures HasShare(shares[..t + 1], m) <==> HasShare(shares[..t], m) || MemberOf(shares[t]) == Some(m)
    ensures SharesOwed(shares[..t + 1], m)
              == SharesOwed(shares[..t], m) + (if MemberOf(shares[t]) == Some(m) then shares[t].shareAmount else 0.0)
  {
    var next := shares[..t + 1];
    assert next[..t] == shares[..t];
    assert next[t] == shares[t];
    assert forall q :: 0 <= q < t ==> next[q] == shares[..t][q];
    if HasShare(shares[..t], m) {
      var q :| 0 <= q < t && MemberOf(shares[..t][q]) == Some(m);
      assert MemberOf(next[q]) == Some(m);
    }
  }

  /** Nothing is owed to an id outside `Payees`. */
  lemma {:induction false} OwesOutside(expenses: seq<Expense>, m: string, p: string)
    requires p !in Payees(expenses, m)
    ensures Owes(expenses, m, p) == 0.0
  {
    if expenses != [] {
      var n := |expenses| - 1;
      var e := expenses[n];
      OwesOutside(expenses[..n], m, p);
      if PayerOf(e) == Some(p) && p != m {
        SharesUntouched(e.shares, m);
      }
    }
  }

  lemma RowComplete(row: map<string, real>, done: seq<Expense>, e: Expense, m: string)
    requires RowSoFar(row, done, e, |e.shares|, m)
    ensures row == Row(done + [e], m)
  {
    assert (done + [e])[..|done|] == done;
    assert e.shares[..|e.shares|] == e.shares;
  }

  // ----- What the table says -----

  lemma {:induction false} PayeesIff(expenses: seq<Expense>, m: string, p: string)
    ensures p in Payees(expenses, m) <==> exists k :: 0 <= k < |expenses| && Charges(expenses[k], m, p)
  {
    if expenses != [] {
      var n := |expenses| - 1;
      assert forall k :: 0 <= k < n ==> expenses[..n][k] == expenses[k];
      PayeesIff(expenses[..n], m, p);
    }
  }

  /** Rows exist exactly for the ids in the balances. Row `m` has a cell for
      `p` exactly when `p` is not `m` and paid an expense in which a share
      resolves to `m`; the cell holds the sum of `m`'s shares in the
      expenses `p` paid. No row holds a cell for its own id. */
  lemma MatrixCells(balances: seq<MemberBalance>, expenses: seq<Expense>, m: string, p: string)
    ensures m in Matrix(balances, expenses) <==> exists k :: 0 <= k < |balances| && balances[k].memberId == m
    ensures m in Matrix(balances, expenses) ==>
      && (p in Matrix(balances, expenses)[m] <==>
            p != m && exists k, q :: 0 <= k < |expenses| && 0 <= q < |expenses[k].shares|
                                   && PayerOf(expenses[k]) == Some(p) && MemberOf(expenses[k].shares[q]) == Some(m))
      && (p in Matrix(balances, expenses)[m] ==> Matrix(balances, expenses)[m][p] == Owes(expenses, m, p))
    ensures m in Matrix(balances, expenses) ==> m !in Matrix(balances, expenses)[m]
  {
    PayeesIff(expenses, m, p);
    PayeesIff(expenses, m, m);
  }

  /** With non-negative share amounts every cell is non-negative. */
  lemma {:induction false} OwesNonNegative(expenses: seq<Expense>, m: string, p: string)
    requires forall k, q :: 0 <= k < |expenses| && 0 <= q < |expenses[k].shares| ==> expenses[k].shares[q].shareAmount >= 0.0
    ensures Owes(expenses, m, p) >= 0.0
  {
    if expenses != [] {
      var n := |expenses| - 1;
      assert forall k :: 0 <= k < n ==> expenses[..n][k] == expenses[k];
      OwesNonNegative(expenses[..n], m, p);
      SharesNonNegative(expenses[n].shares, m);
    }
  }

  lemma {:induction false} SharesNonNegative(shares: seq<Share>, m: string)
    requires forall q :: 0 <= q < |shares| ==> shares[q].shareAmount >= 0.0
    ensures SharesOwed(shares, m) >= 0.0
  {
    if shares != [] {
      var n := |shares| - 1;
      assert forall q :: 0 <= q < n ==> shares[..n][q] == shares[q];
      SharesNonNegative(shares[..n], m);
    }
  }

  lemma {:induction false} PayeesConcat(a: seq<Expense>, b: seq<Expense>, m: string)
    ensures Payees(a + b, m) == Payees(a, m) + Payees(b, m)
  {
    if b != [] {
      var n := |b| - 1;
      assert (a + b)[..|a| + n] == a + b[..n];
      PayeesConcat(a, b[..n], m);
    } else {
      assert a + b == a;
    }
  }

  lemma {:induction false} OwesConcat(a: seq<Expense>, b: seq<Expense>, m: string, p: string)
    ensures Owes(a + b, m, p) == Owes(a, m, p) + Owes(b, m, p)
  {
    if b != [] {
      var n := |b| - 1;
      assert (a + b)[..|a| + n] == a + b[..n];
      OwesConcat(a, b[..n], m, p);
    } else {
      assert a + b == a;
    }
  }

  /** An expense without a payer, or one none of whose shares resolves to
      a row id other than its payer's, leaves the table as it was, wherever
      it stands in the list: self-shares, shares of ids without a row and
      unresolvable shares are skipped. */
  lemma SkippedExpense(balances: seq<MemberBalance>, before: seq<Expense>, e: Expense, after: seq<Expense>)
    requires PayerOf(e).Some? ==>
      forall q :: 0 <= q < |e.shares| && MemberOf(e.shares[q]).Some? ==>
        MemberOf(e.shares[q]) == PayerOf(e) || MemberOf(e.shares[q]).value !in RowIds(balances)
    ensures Matrix(balances, before + [e] + after) == Matrix(balances, before + after)
  {
    forall m | m in RowIds(balances) ensures Row(before + [e] + after, m) == Row(before + after, m) {
      SkippedRow(before, e, after, m);
    }
  }

  lemma SkippedRow(before: seq<Expense>, e: Expense, after: seq<Expense>, m: string)
    requires PayerOf(e).Some? ==>
      forall q :: 0 <= q < |e.shares| ==> MemberOf(e.shares[q]) != Some(m) || MemberOf(e.shares[q]) == PayerOf(e)
    ensures Row(before + [e] + after, m) == Row(before + after, m)
  {
    PayeesConcat(before + [e], after, m);
    PayeesConcat(before, [e], m);
    PayeesConcat(before, after, m);
    assert [e][..0] == [];
    assert Payees([e], m) == {};
    forall p ensures Owes(before + [e] + after, m, p) == Owes(before + after, m, p) {
      OwesConcat(before + [e], after, m, p);
      OwesConcat(before, [e], m, p);
      OwesConcat(before, after, m, p);
      if PayerOf(e) == Some(p) && p != m {
        SharesUntouched(e.shares, m);
      }
    }
  }
}
