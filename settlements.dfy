/** `calculateSettlements`: greedy two-cursor matching of creditors against
    debtors.

    The creditor and debtor lists are built fresh from the balances (a pure
    filter, map and stable sort); the matching loop then works on its own
    copies, so the input balances are never touched. `Match` is the loop
    written as a recursive function over the working records and the two
    cursors. It also records every iteration as a `Step`, including the
    iterations whose amount is too small to be emitted. The lemmas below
    state what the loop guarantees about those steps. */
module Settlements {
  import opened Records
  import opened StableSort

  /** Below this an amount counts as settled. */
  const Epsilon: real := 0.01

  /** A working creditor or debtor record `{ id, name, amount }`. */
  datatype Party = Party(id: string, name: string, amount: real)

  /** One iteration of the loop: indices of the creditor and debtor it
      matched, and the amount it took from both, before rounding. */
  datatype Step = Step(creditor: nat, debtor: nat, amount: real)

  /** The loop's working state: the two working lists, the two cursors and
      the steps taken so far. */
  datatype State = State(creditors: seq<Party>, debtors: seq<Party>, i: nat, j: nat, steps: seq<Step>) {
    predicate Valid() {
      i <= |creditors| && j <= |debtors|
    }

    /** The loop condition. */
    predicate Running() {
      i < |creditors| && j < |debtors|
    }
  }

  function AmountOf(p: Party): real {
    p.amount
  }

  /** Members owed more than the tolerance, in input order. */
  function CreditorsOf(balances: seq<MemberBalance>): seq<Party> {
    if balances == [] then []
    else
      var b := balances[0];
      (if b.balance > Epsilon then [Party(b.memberId, b.memberName, b.balance)] else []) + CreditorsOf(balances[1..])
  }

  /** Members owing more than the tolerance, with the magnitude they owe. */
  function DebtorsOf(balances: seq<MemberBalance>): seq<Party> {
    if balances == [] then []
    else
      var b := balances[0];
      (if b.balance < -Epsilon then [Party(b.memberId, b.memberName, -b.balance)] else []) + DebtorsOf(balances[1..])
  }

  /** The creditors, largest amount first; equal amounts keep input order. */
  function Creditors(balances: seq<MemberBalance>): (r: seq<Party>)
    ensures multiset(r) == multiset(CreditorsOf(balances))
    ensures Descending(r, AmountOf)
    ensures forall v :: WithKey(r, AmountOf, v) == WithKey(CreditorsOf(balances), AmountOf, v)
  {
    SortDescending(CreditorsOf(balances), AmountOf);
    SortStableAll(CreditorsOf(balances), AmountOf);
    Sort(CreditorsOf(balances), AmountOf)
  }

  /** The debtors, largest amount owed first; equal amounts keep input order. */
  function Debtors(balances: seq<MemberBalance>): (r: seq<Party>)
    ensures multiset(r) == multiset(DebtorsOf(balances))
    ensures Descending(r, AmountOf)
    ensures forall v :: WithKey(r, AmountOf, v) == WithKey(DebtorsOf(balances), AmountOf, v)
  {
    SortDescending(DebtorsOf(balances), AmountOf);
    SortStableAll(DebtorsOf(balances), AmountOf);
    Sort(DebtorsOf(balances), AmountOf)
  }

  lemma SortStableAll(parties: seq<Party>, key: Party -> real)
    ensures forall v :: WithKey(Sort(parties, key), key, v) == WithKey(parties, key, v)
  {
    forall v ensures WithKey(Sort(parties, key), key, v) == WithKey(parties, key, v) {
      SortStable(parties, key, v);
    }
  }

  /** `Math.round(x * 100) / 100`; `Math.round` rounds halves upwards. */
  function Round2(x: real): real {
    ((x * 100.0 + 0.5).Floor as real) / 100.0
  }

  /** `Round2` moves its argument by at most half a cent, lands on a whole
      number of cents, and keeps an amount above the tolerance at least one
      cent. */
  lemma Round2Bounds(x: real)
    ensures x - 0.005 < Round2(x) <= x + 0.005
    ensures IsCents(Round2(x))
    ensures x > Epsilon ==> Round2(x) >= Epsilon
  {
  }

  /** A whole number of cents is left as it is. */
  lemma Round2Cents(n: int)
    ensures Round2(n as real / 100.0) == n as real / 100.0
  {
    assert (n as real / 100.0) * 100.0 + 0.5 == n as real + 0.5;
    assert (n as real + 0.5).Floor == n;
  }

  /** Whether `x` is a whole number of cents. */
  predicate IsCents(x: real) {
    (x * 100.0).Floor as real == x * 100.0
  }

  function Min(a: real, b: real): real {
    if a <= b then a else b
  }

  /** One iteration: take the smaller of the two current amounts from both
      records, then move each cursor whose record dropped below the
      tolerance. */
  function Next(s: State): (t: State)
    requires s.Valid() && s.Running()
    ensures t.Valid()
    ensures |t.creditors| == |s.creditors| && |t.debtors| == |s.debtors|
    ensures t.i + t.j > s.i + s.j
  {
    var c := s.creditors[s.i];
    var d := s.debtors[s.j];
    var a := Min(c.amount, d.amount);
    var cs := s.creditors[s.i := c.(amount := c.amount - a)];
    var ds := s.debtors[s.j := d.(amount := d.amount - a)];
    State(cs, ds,
          if cs[s.i].amount < Epsilon then s.i + 1 else s.i,
          if ds[s.j].amount < Epsilon then s.j + 1 else s.j,
          s.steps + [Step(s.i, s.j, a)])
  }

  /** The matching loop, run to the end from state `s`. */
  function Match(s: State): (out: State)
    requires s.Valid()
    ensures out.Valid() && !out.Running()
    ensures |out.creditors| == |s.creditors| && |out.debtors| == |s.debtors|
    ensures forall k :: 0 <= k < |s.creditors| ==>
              out.creditors[k].id == s.creditors[k].id && out.creditors[k].name == s.creditors[k].name
    ensures forall k :: 0 <= k < |s.debtors| ==>
              out.debtors[k].id == s.debtors[k].id && out.debtors[k].name == s.debtors[k].name
    ensures s.i <= out.i && s.j <= out.j
    ensures StepsInRange(s.steps, |s.creditors|, |s.debtors|) ==> StepsInRange(out.steps, |s.creditors|, |s.debtors|)
    decreases |s.creditors| - s.i + |s.debtors| - s.j
  {
    if s.Running() then Match(Next(s)) else s
  }

  ghost predicate StepsInRange(steps: seq<Step>, creditors: nat, debtors: nat) {
    forall q :: 0 <= q < |steps| ==> steps[q].creditor < creditors && steps[q].debtor < debtors
  }

  /** The settlements the loop pushes: one per step whose amount exceeds the
      tolerance, from the debtor's name to the creditor's name, in cents. */
  function Emitted(steps: seq<Step>, cs: seq<Party>, ds: seq<Party>): seq<Settlement>
    requires StepsInRange(steps, |cs|, |ds|)
  {
    if steps == [] then []
    else
      var st := steps[|steps| - 1];
      Emitted(steps[..|steps| - 1], cs, ds)
        + (if st.amount > Epsilon then [Settlement(ds[st.debtor].name, cs[st.creditor].name, Round2(st.amount))] else [])
  }

  lemma MatchNext(s: State)
    requires s.Valid() && s.Running()
    ensures Match(s) == Match(Next(s))
  {
  }

  lemma EmittedSnoc(steps: seq<Step>, st: Step, cs: seq<Party>, ds: seq<Party>)
    requires StepsInRange(steps, |cs|, |ds|) && st.creditor < |cs| && st.debtor < |ds|
    ensures StepsInRange(steps + [st], |cs|, |ds|)
    ensures Emitted(steps + [st], cs, ds) == Emitted(steps, cs, ds)
              + (if st.amount > Epsilon then [Settlement(ds[st.debtor].name, cs[st.creditor].name, Round2(st.amount))] else [])
  {
    assert (steps + [st])[..|steps|] == steps;
  }

  /** The run of the loop on the balances' creditors and debtors. */
  function Run(balances: seq<MemberBalance>): (out: State)
    ensures out.Valid()
  {
    Match(State(Creditors(balances), Debtors(balances), 0, 0, []))
  }

  lemma RunInRange(balances: seq<MemberBalance>)
    ensures StepsInRange(Run(balances).steps, |Creditors(balances)|, |Debtors(balances)|)
  {
  }

  /** The result of `calculateSettlements`. */
  function Settle(balances: seq<MemberBalance>): seq<Settlement> {
    RunInRange(balances);
    Emitted(Run(balances).steps, Creditors(balances), Debtors(balances))
  }

  method CalculateSettlements(balances: seq<MemberBalance>) returns (settlements: seq<Settlement>)
    ensures settlements == Settle(balances)
  {
    settlements := MatchLoop(Creditors(balances), Debtors(balances));
  }

  /** The `while` loop of `calculateSettlements` on working copies of the
      sorted creditor and debtor lists. */
  method MatchLoop(cs: seq<Party>, ds: seq<Party>) returns (settlements: seq<Settlement>)
    ensures StepsInRange(Match(State(cs, ds, 0, 0, [])).steps, |cs|, |ds|)
    ensures settlements == Emitted(Match(State(cs, ds, 0, 0, [])).steps, cs, ds)
  {
    // Working copies: the loop changes their amounts, never the balances.
    var creditors := new Party[|cs|](k requires 0 <= k < |cs| => cs[k]);
    var debtors := new Party[|ds|](k requires 0 <= k < |ds| => ds[k]);
    settlements := [];
    var i, j := 0, 0;
    ghost var trace: seq<Step> := [];
    assert creditors[..] == cs && debtors[..] == ds;
    while i < creditors.Length && j < debtors.Length
      invariant 0 <= i <= creditors.Length && 0 <= j <= debtors.Length
      invariant creditors.Length == |cs| && debtors.Length == |ds| && creditors != debtors
      invariant Match(State(creditors[..], debtors[..], i, j, trace)) == Match(State(cs, ds, 0, 0, []))
      invariant StepsInRange(trace, |cs|, |ds|)
      invariant settlements == Emitted(trace, cs, ds)
      decreases creditors.Length - i + debtors.Length - j
    {
      var amount := Min(creditors[i].amount, debtors[j].amount);
      if amount > Epsilon {
        settlements := settlements + [Settlement(debtors[j].name, creditors[i].name, Round2(amount))];
      }
      ghost var before := State(creditors[..], debtors[..], i, j, trace);
      EmittedSnoc(trace, Step(i, j, amount), cs, ds);
      MatchNext(before);
      i, j := Advance(creditors, debtors, i, j, amount, trace);
      trace := trace + [Step(before.i, before.j, amount)];
    }
  }

  /** The body of the loop after the push: take `amount` from both current
      records and move each cursor whose record dropped below the tolerance. */
  method Advance(creditors: array<Party>, debtors: array<Party>, i: nat, j: nat, amount: real, ghost trace: seq<Step>)
    returns (i': nat, j': nat)
    requires creditors != debtors
    requires i < creditors.Length && j < debtors.Length
    requires amount == Min(creditors[i].amount, debtors[j].amount)
    modifies creditors, debtors
    ensures State(creditors[..], debtors[..], i', j', trace + [Step(i, j, amount)])
         == Next(State(old(creditors[..]), old(debtors[..]), i, j, trace))
  {
    ghost var next := Next(State(creditors[..], debtors[..], i, j, trace));
    var creditor := creditors[i];
    var debtor := debtors[j];
    creditors[i] := creditor.(amount := creditor.amount - amount);
    assert creditors[..] == next.creditors;
    debtors[j] := debtor.(amount := debtor.amount - amount);
    assert debtors[..] == next.debtors;
    i', j' := i, j;
    if creditors[i].amount < Epsilon {
      i' := i + 1;
    }
    if debtors[j].amount < Epsilon {
      j' := j + 1;
    }
  }

  // ----- What the loop guarantees -----

  /** Every iteration moves at least one cursor, so the loop ends; a run
      that starts with both cursors in range takes at most
      `|creditors| + |debtors| - 1` further iterations, one that does not
      takes none. */
  lemma {:induction false} MatchLength(s: State)
    requires s.Valid()
    ensures !s.Running() ==> Match(s) == s
    ensures s.Running() ==>
      |s.steps| < |Match(s).steps| <= |s.steps| + |s.creditors| + |s.debtors| - 1 - s.i - s.j
    decreases |s.creditors| - s.i + |s.debtors| - s.j
  {
    if s.Running() {
      var t := Next(s);
      if t.Running() {
        MatchLength(t);
      }
    }
  }

  /** At most one settlement per iteration. */
  lemma {:induction false} EmittedLength(steps: seq<Step>, cs: seq<Party>, ds: seq<Party>)
    requires StepsInRange(steps, |cs|, |ds|)
    ensures |Emitted(steps, cs, ds)| <= |steps|
  {
    if steps != [] {
      var n := |steps| - 1;
      assert StepsInRange(steps[..n], |cs|, |ds|) by {
        assert forall q :: 0 <= q < n ==> steps[..n][q] == steps[q];
      }
      EmittedLength(steps[..n], cs, ds);
    }
  }

  /** The plan has at most `|creditors| + |debtors| - 1` settlements when
      both sides are non-empty, and none otherwise. */
  lemma SettlementCount(balances: seq<MemberBalance>)
    ensures |Settle(balances)| <=
      if |Creditors(balances)| > 0 && |Debtors(balances)| > 0
      then |Creditors(balances)| + |Debtors(balances)| - 1 else 0
  {
    var s0 := State(Creditors(balances), Debtors(balances), 0, 0, []);
    MatchLength(s0);
    RunInRange(balances);
    EmittedLength(Run(balances).steps, Creditors(balances), Debtors(balances));
  }

  /** The state of the loop between iterations: a record behind its cursor
      holds a remainder in `[0, 0.01)`, a record at or after it at least
      0.01, and every iteration so far took at least 0.01 from both sides. */
  ghost predicate Progress(s: State) {
    && s.Valid()
    && StepsInRange(s.steps, |s.creditors|, |s.debtors|)
    && (forall k :: 0 <= k < |s.creditors| ==>
          if k < s.i then 0.0 <= s.creditors[k].amount < Epsilon else s.creditors[k].amount >= Epsilon)
    && (forall k :: 0 <= k < |s.debtors| ==>
          if k < s.j then 0.0 <= s.debtors[k].amount < Epsilon else s.debtors[k].amount >= Epsilon)
    && (forall q :: 0 <= q < |s.steps| ==> s.steps[q].amount >= Epsilon)
  }

  /** What creditor `k` (or debtor `k`) has given up so far. */
  function Taken(steps: seq<Step>, k: nat, creditor: bool): (total: real)
  {
    if steps == [] then 0.0
    else
      var st := steps[|steps| - 1];
      Taken(steps[..|steps| - 1], k, creditor)
        + (if (if creditor then st.creditor else st.debtor) == k then st.amount else 0.0)
  }

  /** An amount plus what was taken from it never changes. */
  ghost predicate Conserves(s: State, t: State) {
    && |t.creditors| == |s.creditors| && |t.debtors| == |s.debtors|
    && (forall k :: 0 <= k < |s.creditors| ==>
          t.creditors[k].amount + Taken(t.steps, k, true) == s.creditors[k].amount + Taken(s.steps, k, true))
    && (forall k :: 0 <= k < |s.debtors| ==>
          t.debtors[k].amount + Taken(t.steps, k, false) == s.debtors[k].amount + Taken(s.steps, k, false))
  }

  lemma NextProgress(s: State)
    requires Progress(s) && s.Running()
    ensures Progress(Next(s))
    ensures Conserves(s, Next(s))
  {
    var t := Next(s);
    assert t.steps[..|s.steps|] == s.steps;
    assert StepsInRange(t.steps, |t.creditors|, |t.debtors|) by {
      forall q | 0 <= q < |t.steps| ensures t.steps[q].creditor < |t.creditors| && t.steps[q].debtor < |t.debtors| {
        if q < |s.steps| {
          assert t.steps[q] == s.steps[q];
        }
      }
    }
  }

  lemma {:induction false} MatchProgress(s: State)
    requires Progress(s)
    ensures Progress(Match(s))
    ensures Conserves(s, Match(s))
    decreases |s.creditors| - s.i + |s.debtors| - s.j
  {
    if s.Running() {
      var t := Next(s);
      NextProgress(s);
      MatchProgress(t);
    }
  }

  /** Every working record starts above the tolerance. */
  lemma {:induction false} PartiesAbove(balances: seq<MemberBalance>)
    ensures forall c :: c in CreditorsOf(balances) ==> c.amount > Epsilon
    ensures forall d :: d in DebtorsOf(balances) ==> d.amount > Epsilon
  {
    if balances != [] {
      PartiesAbove(balances[1..]);
    }
  }

  lemma StartProgress(balances: seq<MemberBalance>)
    ensures Progress(State(Creditors(balances), Debtors(balances), 0, 0, []))
  {
    PartiesAbove(balances);
    SortedAbove(CreditorsOf(balances));
    SortedAbove(DebtorsOf(balances));
  }

  /** Sorting keeps every amount at or above the threshold. */
  lemma SortedAbove(parties: seq<Party>)
    requires forall c :: c in parties ==> c.amount > Epsilon
    ensures forall k :: 0 <= k < |Sort(parties, AmountOf)| ==> Sort(parties, AmountOf)[k].amount >= Epsilon
  {
    var sorted := Sort(parties, AmountOf);
    forall k | 0 <= k < |sorted| ensures sorted[k].amount >= Epsilon {
      assert sorted[k] in multiset(parties);
    }
  }

  /** The outcome of the loop. Each working amount stays non-negative and
      equals the starting amount minus what the steps took from it. The loop
      stops once one side is used up; every record that side passed was
      matched to within a cent, and every step took at least a cent. */
  lemma RunOutcome(balances: seq<MemberBalance>)
    ensures var out, cs, ds := Run(balances), Creditors(balances), Debtors(balances);
      && (out.i == |cs| || out.j == |ds|)
      && (forall k :: 0 <= k < |cs| ==>
            && 0.0 <= out.creditors[k].amount == cs[k].amount - Taken(out.steps, k, true)
            && (k < out.i ==> out.creditors[k].amount < Epsilon))
      && (forall k :: 0 <= k < |ds| ==>
            && 0.0 <= out.debtors[k].amount == ds[k].amount - Taken(out.steps, k, false)
            && (k < out.j ==> out.debtors[k].amount < Epsilon))
      && (forall q :: 0 <= q < |out.steps| ==> out.steps[q].amount >= Epsilon)
  {
    StartProgress(balances);
    MatchProgress(State(Creditors(balances), Debtors(balances), 0, 0, []));
  }

  /** Every pushed settlement comes from one step whose amount exceeded the
      tolerance, and carries that step's debtor and creditor names and its
      amount rounded to cents. */
  lemma {:induction false} EmittedFrom(steps: seq<Step>, cs: seq<Party>, ds: seq<Party>, x: Settlement)
    requires StepsInRange(steps, |cs|, |ds|)
    requires x in Emitted(steps, cs, ds)
    ensures exists q :: 0 <= q < |steps| && steps[q].amount > Epsilon
              && x == Settlement(ds[steps[q].debtor].name, cs[steps[q].creditor].name, Round2(steps[q].amount))
  {
    var n := |steps| - 1;
    var prefix := steps[..n];
    assert forall q :: 0 <= q < n ==> prefix[q] == steps[q];
    if x !in Emitted(prefix, cs, ds) {
      assert steps[n].amount > Epsilon;
    } else {
      EmittedFrom(prefix, cs, ds, x);
    }
  }

  /** A creditor record is a balance entry above the tolerance. */
  lemma {:induction false} CreditorOrigin(balances: seq<MemberBalance>, c: Party)
    requires c in CreditorsOf(balances)
    ensures exists p :: 0 <= p < |balances| && balances[p].balance > Epsilon
              && c == Party(balances[p].memberId, balances[p].memberName, balances[p].balance)
  {
    if c != Party(balances[0].memberId, balances[0].memberName, balances[0].balance) || balances[0].balance <= Epsilon {
      CreditorOrigin(balances[1..], c);
      var p :| 0 <= p < |balances[1..]| && balances[1..][p].balance > Epsilon
               && c == Party(balances[1..][p].memberId, balances[1..][p].memberName, balances[1..][p].balance);
      assert balances[p + 1] == balances[1..][p];
    }
  }

  /** A debtor record is a balance entry below minus the tolerance, carrying
      the magnitude it owes. */
  lemma {:induction false} DebtorOrigin(balances: seq<MemberBalance>, d: Party)
    requires d in DebtorsOf(balances)
    ensures exists p :: 0 <= p < |balances| && balances[p].balance < -Epsilon
              && d == Party(balances[p].memberId, balances[p].memberName, -balances[p].balance)
  {
    if d != Party(balances[0].memberId, balances[0].memberName, -balances[0].balance) || balances[0].balance >= -Epsilon {
      DebtorOrigin(balances[1..], d);
      var p :| 0 <= p < |balances[1..]| && balances[1..][p].balance < -Epsilon
               && d == Party(balances[1..][p].memberId, balances[1..][p].memberName, -balances[1..][p].balance);
      assert balances[p + 1] == balances[1..][p];
    }
  }

  /** Every balance entry above the tolerance becomes a creditor record. */
  lemma {:induction false} CreditorsComplete(balances: seq<MemberBalance>, p: nat)
    requires p < |balances| && balances[p].balance > Epsilon
    ensures Party(balances[p].memberId, balances[p].memberName, balances[p].balance) in CreditorsOf(balances)
  {
    if p > 0 {
      assert balances[1..][p - 1] == balances[p];
      CreditorsComplete(balances[1..], p - 1);
    }
  }

  /** Every balance entry below minus the tolerance becomes a debtor record
      carrying the magnitude it owes. */
  lemma {:induction false} DebtorsComplete(balances: seq<MemberBalance>, p: nat)
    requires p < |balances| && balances[p].balance < -Epsilon
    ensures Party(balances[p].memberId, balances[p].memberName, -balances[p].balance) in DebtorsOf(balances)
  {
    if p > 0 {
      assert balances[1..][p - 1] == balances[p];
      DebtorsComplete(balances[1..], p - 1);
    }
  }

  /** Settlement `x` is a payment from entry `p`, whose balance is below
      -0.01, to entry `q`, whose balance is above 0.01, of the amount `a`
      rounded to cents, where `a` exceeds 0.01 and neither balance's
      magnitude. */
  ghost predicate PaysFromTo(balances: seq<MemberBalance>, x: Settlement, p: int, q: int, a: real) {
    && 0 <= p < |balances| && 0 <= q < |balances| && p != q
    && balances[p].balance < -Epsilon && balances[p].memberName == x.from
    && balances[q].balance > Epsilon && balances[q].memberName == x.to
    && Epsilon < a <= -balances[p].balance && a <= balances[q].balance
    && x.amount == Round2(a)
  }

  /** Each settlement is paid by a debtor to a different member who is a
      creditor; its amount is a whole number of cents, at least one cent. */
  lemma SettlementShape(balances: seq<MemberBalance>, x: Settlement)
    requires x in Settle(balances)
    ensures exists p, q, a :: PaysFromTo(balances, x, p, q, a)
    ensures x.amount >= Epsilon && IsCents(x.amount)
  {
    var cs, ds, out := Creditors(balances), Debtors(balances), Run(balances);
    RunInRange(balances);
    EmittedFrom(out.steps, cs, ds, x);
    var n :| 0 <= n < |out.steps| && out.steps[n].amount > Epsilon
             && x == Settlement(ds[out.steps[n].debtor].name, cs[out.steps[n].creditor].name, Round2(out.steps[n].amount));
    var st := out.steps[n];
    var c, d := cs[st.creditor], ds[st.debtor];
    assert st.amount <= c.amount && st.amount <= d.amount by {
      RunOutcome(balances);
      TakenCovers(out.steps, st, true);
      TakenCovers(out.steps, st, false);
    }
    assert c in multiset(CreditorsOf(balances));
    assert d in multiset(DebtorsOf(balances));
    CreditorOrigin(balances, c);
    DebtorOrigin(balances, d);
    var q :| 0 <= q < |balances| && balances[q].balance > Epsilon
             && c == Party(balances[q].memberId, balances[q].memberName, balances[q].balance);
    var p :| 0 <= p < |balances| && balances[p].balance < -Epsilon
             && d == Party(balances[p].memberId, balances[p].memberName, -balances[p].balance);
    Round2Bounds(st.amount);
    assert PaysFromTo(balances, x, p, q, st.amount);
  }

  /** A step takes no more from a record than the total taken from it, as
      long as every step takes a non-negative amount. */
  lemma {:induction false} TakenCovers(steps: seq<Step>, st: Step, creditor: bool)
    requires st in steps
    requires forall q :: 0 <= q < |steps| ==> steps[q].amount >= 0.0
    ensures st.amount <= Taken(steps, if creditor then st.creditor else st.debtor, creditor)
  {
    var n := |steps| - 1;
    var prefix := steps[..n];
    assert forall q :: 0 <= q < n ==> prefix[q] == steps[q];
    TakenNonNegative(prefix, if creditor then st.creditor else st.debtor, creditor);
    if st != steps[n] {
      assert st in prefix;
      TakenCovers(prefix, st, creditor);
    }
  }

  lemma {:induction false} TakenNonNegative(steps: seq<Step>, k: nat, creditor: bool)
    requires forall q :: 0 <= q < |steps| ==> steps[q].amount >= 0.0
    ensures Taken(steps, k, creditor) >= 0.0
  {
    if steps != [] {
      var n := |steps| - 1;
      assert forall q :: 0 <= q < n ==> steps[..n][q] == steps[q];
      TakenNonNegative(steps[..n], k, creditor);
    }
  }
}
