/** Worked examples and properties that span the three entry points.

    Three travellers: A pays 90 and B pays 30, each split evenly among A, B
    and C. The balances are A = 50, B = -10 and C = -40, and the plan is
    that C pays A 40, then B pays A 10. */
module Scenario {
  import opened Records
  import opened StableSort
  import opened Settlements
  import opened Balances
  import DebtMatrix

  function ThreeBalances(): seq<MemberBalance> {
    [MemberBalance("a", "A", 90.0, 40.0, 50.0),
     MemberBalance("b", "B", 30.0, 40.0, -10.0),
     MemberBalance("c", "C", 0.0, 40.0, -40.0)]
  }

  /** The creditor list is A alone; the debtors are C before B, the larger
      debt first. */
  lemma ThreeParties()
    ensures Creditors(ThreeBalances()) == [Party("a", "A", 50.0)]
    ensures Debtors(ThreeBalances()) == [Party("c", "C", 40.0), Party("b", "B", 10.0)]
  {
    var bs := ThreeBalances();
    assert bs[1..] == [bs[1], bs[2]] && bs[1..][1..] == [bs[2]] && bs[1..][1..][1..] == [];
    assert CreditorsOf(bs[1..][1..]) == [];
    assert CreditorsOf(bs[1..]) == [];
    assert CreditorsOf(bs) == [Party("a", "A", 50.0)];
    assert DebtorsOf(bs[1..][1..]) == [Party("c", "C", 40.0)];
    assert DebtorsOf(bs[1..]) == [Party("b", "B", 10.0), Party("c", "C", 40.0)];
    assert DebtorsOf(bs) == [Party("b", "B", 10.0), Party("c", "C", 40.0)];
    SortTwo(Party("b", "B", 10.0), Party("c", "C", 40.0));
    assert Sort([Party("a", "A", 50.0)], AmountOf) == [Party("a", "A", 50.0)];
  }

  lemma SortTwo(x: Party, y: Party)
    requires x.amount < y.amount
    ensures Sort([x, y], AmountOf) == [y, x]
  {
    assert [x, y][1..] == [y];
    assert [y][1..] == [];
    assert Sort([y], AmountOf) == [y];
  }

  /** The first iteration takes 40 from A and from C, which moves the
      debtor cursor past C. */
  lemma ThreeFirstStep()
    ensures Next(State([Party("a", "A", 50.0)], [Party("c", "C", 40.0), Party("b", "B", 10.0)], 0, 0, []))
         == State([Party("a", "A", 10.0)], [Party("c", "C", 0.0), Party("b", "B", 10.0)], 0, 1, [Step(0, 0, 40.0)])
  {
    var s1 := Next(State([Party("a", "A", 50.0)], [Party("c", "C", 40.0), Party("b", "B", 10.0)], 0, 0, []));
    assert s1.creditors == [Party("a", "A", 10.0)];
    assert s1.debtors == [Party("c", "C", 0.0), Party("b", "B", 10.0)];
  }

  /** The second takes 10 from A and from B, which ends both lists. */
  lemma ThreeSecondStep()
    ensures Next(State([Party("a", "A", 10.0)], [Party("c", "C", 0.0), Party("b", "B", 10.0)], 0, 1, [Step(0, 0, 40.0)]))
         == State([Party("a", "A", 0.0)], [Party("c", "C", 0.0), Party("b", "B", 0.0)], 1, 2, [Step(0, 0, 40.0), Step(0, 1, 10.0)])
  {
    var s2 := Next(State([Party("a", "A", 10.0)], [Party("c", "C", 0.0), Party("b", "B", 10.0)], 0, 1, [Step(0, 0, 40.0)]));
    assert s2.creditors == [Party("a", "A", 0.0)];
    assert s2.debtors == [Party("c", "C", 0.0), Party("b", "B", 0.0)];
    assert s2.steps == [Step(0, 0, 40.0), Step(0, 1, 10.0)];
  }

  lemma ThreeRun()
    ensures Run(ThreeBalances()).steps == [Step(0, 0, 40.0), Step(0, 1, 10.0)]
  {
    ThreeParties();
    ThreeFirstStep();
    ThreeSecondStep();
    var s0 := State([Party("a", "A", 50.0)], [Party("c", "C", 40.0), Party("b", "B", 10.0)], 0, 0, []);
    var s1 := State([Party("a", "A", 10.0)], [Party("c", "C", 0.0), Party("b", "B", 10.0)], 0, 1, [Step(0, 0, 40.0)]);
    var s2 := State([Party("a", "A", 0.0)], [Party("c", "C", 0.0), Party("b", "B", 0.0)], 1, 2, [Step(0, 0, 40.0), Step(0, 1, 10.0)]);
    calc {
      Run(ThreeBalances());
      Match(s0);
      { MatchNext(s0); }
      Match(s1);
      { MatchNext(s1); }
      Match(s2);
      { MatchLength(s2); }
      s2;
    }
  }

  /** Both steps exceed a cent, so both are pushed, whole cents already. */
  lemma ThreeEmitted()
    ensures Emitted([Step(0, 0, 40.0), Step(0, 1, 10.0)], [Party("a", "A", 50.0)],
                    [Party("c", "C", 40.0), Party("b", "B", 10.0)])
         == [Settlement("C", "A", 40.0), Settlement("B", "A", 10.0)]
  {
    var cs := [Party("a", "A", 50.0)];
    var ds := [Party("c", "C", 40.0), Party("b", "B", 10.0)];
    Round2Cents(4000);
    Round2Cents(1000);
    EmittedSnoc([], Step(0, 0, 40.0), cs, ds);
    EmittedSnoc([Step(0, 0, 40.0)], Step(0, 1, 10.0), cs, ds);
  }

  lemma ThreeMemberPlan()
    ensures Settle(ThreeBalances()) == [Settlement("C", "A", 40.0), Settlement("B", "A", 10.0)]
  {
    ThreeParties();
    ThreeRun();
    ThreeEmitted();
  }

  // ----- From the records to the balances -----

  function Travellers(): seq<Member> {
    [Member("a", User("u1", Some("A"), "a@example.com")),
     Member("b", User("u2", Some(""), "B")),
     Member("c", User("u3", None, "C"))]
  }

  /** A pays 90, named directly; B pays 30, named through the loaded
      relation. Each is split evenly among the three. */
  function Trip(): seq<Expense> {
    [Expense("e1", 90.0, None, Some("a"),
             [Share(Some("a"), 30.0, None), Share(Some("b"), 30.0, None), Share(Some("c"), 30.0, None)]),
     Expense("e2", 30.0, Some(Ref("b")), Some(""),
             [Share(None, 10.0, Some(Ref("a"))), Share(None, 10.0, Some(Ref("b"))), Share(None, 10.0, Some(Ref("c")))])]
  }

  lemma TravellerIds()
    ensures MemberIds(Travellers()) == ["a", "b", "c"]
    ensures NameOf(Travellers(), "a") == "A" && NameOf(Travellers(), "b") == "B" && NameOf(Travellers(), "c") == "C"
  {
    var ms := Travellers();
    assert ms[..2][..1] == ms[..1];
    assert ms[..1][..0] == [];
    assert MemberIds(ms[..1]) == ["a"];
    assert MemberIds(ms[..2]) == ["a", "b"];
    assert ms[..2] == ms[..|ms| - 1];
  }

  lemma TripSums(id: string)
    requires id in {"a", "b", "c"}
    ensures ExpensesPaid(Trip(), id) == if id == "a" then 90.0 else if id == "b" then 30.0 else 0.0
    ensures ExpensesOwed(Trip(), id) == 40.0
  {
    var es := Trip();
    assert es[..1][..0] == [];
    assert es[..|es| - 1] == es[..1];
    ThreeShares(es[0].shares, id);
    ThreeShares(es[1].shares, id);
  }

  lemma ThreeShares(shares: seq<Share>, id: string)
    requires |shares| == 3
    ensures SharesOwed(shares, id) == OwedFor(shares[0], id) + OwedFor(shares[1], id) + OwedFor(shares[2], id)
  {
    var two, one := shares[..2], shares[..1];
    assert two[..1] == one && two[1] == shares[1] && one[..0] == [] && one[0] == shares[0];
    assert SharesOwed(one, id) == OwedFor(shares[0], id);
    assert SharesOwed(two, id) == SharesOwed(one, id) + OwedFor(shares[1], id);
    assert shares[..|shares| - 1] == two;
  }

  lemma WithKeyThree(x: MemberBalance, y: MemberBalance, z: MemberBalance, v: real)
    ensures WithKey([x, y, z], BalanceOf, v) ==
      (if x.balance == v then [x] else []) + (if y.balance == v then [y] else []) + (if z.balance == v then [z] else [])
  {
    assert [x, y, z][1..] == [y, z] && [y, z][1..] == [z] && [z][1..] == [];
    assert WithKey([z], BalanceOf, v) == (if z.balance == v then [z] else []);
    assert WithKey([y, z], BalanceOf, v) == (if y.balance == v then [y] else []) + WithKey([z], BalanceOf, v);
    assert WithKey([x, y, z], BalanceOf, v) == (if x.balance == v then [x] else []) + WithKey([y, z], BalanceOf, v);
  }

  /** A = 90 - 40, B = 30 - 40, C = 0 - 40; already in descending order. */
  lemma ThreeLedger()
    ensures Ledger(Travellers(), Trip(), []) == ThreeBalances()
  {
    TravellerIds();
    TripSums("a");
    TripSums("b");
    TripSums("c");
  }

  lemma ThreeBalancesSorted()
    ensures Balances.Balances(Travellers(), Trip(), []) == ThreeBalances()
  {
    ThreeLedger();
    ThreeAlreadySorted();
  }

  lemma ThreeAlreadySorted()
    ensures Sort(ThreeBalances(), BalanceOf) == ThreeBalances()
  {
    var bs := ThreeBalances();
    assert Descending(bs, BalanceOf);
    SortUnique(bs, bs, BalanceOf);
  }

  /** From the records to the plan: C pays A 40, then B pays A 10. */
  lemma ThreeTravellersPlan()
    ensures Settle(Balances.Balances(Travellers(), Trip(), [])) == [Settlement("C", "A", 40.0), Settlement("B", "A", 10.0)]
  {
    ThreeBalancesSorted();
    ThreeMemberPlan();
  }

  lemma ThreeLedgerAfterTransfer()
    ensures Ledger(Travellers(), Trip(), [Transfer("t1", 40.0, "c", "a")]) ==
      [MemberBalance("a", "A", 90.0, 80.0, 10.0),
       MemberBalance("b", "B", 30.0, 40.0, -10.0),
       MemberBalance("c", "C", 40.0, 40.0, 0.0)]
  {
    var ts := [Transfer("t1", 40.0, "c", "a")];
    ThreeLedger();
    TransferEffect(Travellers(), Trip(), [], Transfer("t1", 40.0, "c", "a"));
    assert [] + ts == ts;
  }

  /** After C hands A 40 in cash, C's paid and A's owed grow by 40: C is
      square, A is owed 10 and B owes 10. */
  lemma ThreeAfterTransfer()
    ensures Balances.Balances(Travellers(), Trip(), [Transfer("t1", 40.0, "c", "a")]) ==
      [MemberBalance("a", "A", 90.0, 80.0, 10.0),
       MemberBalance("c", "C", 40.0, 40.0, 0.0),
       MemberBalance("b", "B", 30.0, 40.0, -10.0)]
  {
    var ts := [Transfer("t1", 40.0, "c", "a")];
    ThreeLedgerAfterTransfer();
    var l := Ledger(Travellers(), Trip(), ts);
    var r := [MemberBalance("a", "A", 90.0, 80.0, 10.0),
              MemberBalance("c", "C", 40.0, 40.0, 0.0),
              MemberBalance("b", "B", 30.0, 40.0, -10.0)];
    forall v ensures WithKey(r, BalanceOf, v) == WithKey(l, BalanceOf, v) {
      WithKeyThree(r[0], r[1], r[2], v);
      WithKeyThree(l[0], l[1], l[2], v);
    }
    SortUnique(l, r, BalanceOf);
  }

  // ----- Residuals the plan leaves -----

  /** Two members owed a cent each and one owing two cents: the balances add
      up to zero, yet no one is above the tolerance on the creditor side, so
      the plan is empty and the debtor stays two cents short. */
  lemma CentsLeftOver()
    ensures Settle([MemberBalance("a", "A", 0.01, 0.0, 0.01),
                    MemberBalance("b", "B", 0.01, 0.0, 0.01),
                    MemberBalance("c", "C", 0.0, 0.02, -0.02)]) == []
  {
    var bs := [MemberBalance("a", "A", 0.01, 0.0, 0.01),
               MemberBalance("b", "B", 0.01, 0.0, 0.01),
               MemberBalance("c", "C", 0.0, 0.02, -0.02)];
    assert bs[1..][1..][1..] == [];
    assert CreditorsOf(bs) == [];
    MatchLength(State(Creditors(bs), Debtors(bs), 0, 0, []));
  }

  /** A trip with one member, whose expenses that member both pays and
      consumes: the member is square and the plan is empty. */
  lemma SingleMemberSquare(m: Member, expenses: seq<Expense>, transfers: seq<Transfer>)
    requires Closed([m], expenses, transfers)
    ensures |Balances.Balances([m], expenses, transfers)| == 1
    ensures Balances.Balances([m], expenses, transfers)[0].balance == 0.0
    ensures Settle(Balances.Balances([m], expenses, transfers)) == []
  {
    var r := Balances.Balances([m], expenses, transfers);
    assert [m][..0] == [];
    assert MemberIds([m]) == [m.id];
    BalancesOnePerMember([m], expenses, transfers);
    BalancesSumToZero([m], expenses, transfers);
    assert r == [r[0]] && r[1..] == [];
    assert SumOf(r, BalanceOf) == r[0].balance + SumOf(r[1..], BalanceOf);
    assert r[0].balance == 0.0;
    assert CreditorsOf(r) == [] && DebtorsOf(r) == [];
    SettlementCount(r);
  }

  /** The debt table of the trip is gross: B owes A 30 for the first
      expense and A owes B 10 for the second, and both cells stay. */
  lemma TripMatrixNotNetted()
    ensures "a" in DebtMatrix.Matrix(ThreeBalances(), Trip()) && "b" in DebtMatrix.Matrix(ThreeBalances(), Trip())
    ensures "a" in DebtMatrix.Matrix(ThreeBalances(), Trip())["b"]
    ensures "b" in DebtMatrix.Matrix(ThreeBalances(), Trip())["a"]
    ensures DebtMatrix.Matrix(ThreeBalances(), Trip())["b"]["a"] == 30.0
    ensures DebtMatrix.Matrix(ThreeBalances(), Trip())["a"]["b"] == 10.0
  {
    var es := Trip();
    assert "a" in DebtMatrix.RowIds(ThreeBalances()) && "b" in DebtMatrix.RowIds(ThreeBalances()) by {
      assert ThreeBalances()[0].memberId == "a" && ThreeBalances()[1].memberId == "b";
    }
    assert es[..1][..0] == [];
    assert es[..|es| - 1] == es[..1];
    TripSums("a");
    TripSums("b");
    ThreeShares(es[0].shares, "b");
    ThreeShares(es[1].shares, "a");
    assert MemberOf(es[0].shares[1]) == Some("b");
    assert MemberOf(es[1].shares[0]) == Some("a");
    assert DebtMatrix.Owes(es, "b", "a") == 30.0;
    assert DebtMatrix.Owes(es, "a", "b") == 10.0;
    assert DebtMatrix.Charges(es[0], "b", "a");
    assert DebtMatrix.Charges(es[1], "a", "b");
    assert "a" in DebtMatrix.Payees(es, "b");
    assert "b" in DebtMatrix.Payees(es, "a");
  }
}
