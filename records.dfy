/** The record shapes the balance engine reads and produces, and the two
    small rules it applies to them: the `a || b` fallback between a direct
    identifier and a nested relation object, and display-name resolution;
    and the per-expense share sums both `calculateBalances` and
    `calculateDebtMatrix` rely on.

    Amounts arrive in the program as decimal strings; here they are already
    parsed, exact `real`s. */
module Records {

  datatype Option<T> = None | Some(value: T)

  /** A nested relation object `{ id }` (an expense's `payer`, a share's `member`). */
  datatype Ref = Ref(id: string)

  datatype User = User(id: string, name: Option<string>, email: string)

  datatype Member = Member(id: string, user: User)

  /** A share may name its member directly (`memberId`) or through the loaded
      relation (`member`); either may be missing. */
  datatype Share = Share(memberId: Option<string>, shareAmount: real, member: Option<Ref>)

  datatype Expense = Expense(
    id: string,
    amount: real,
    payer: Option<Ref>,
    payerId: Option<string>,
    shares: seq<Share>)

  datatype Transfer = Transfer(id: string, amount: real, fromMemberId: string, toMemberId: string)

  /** Engine output: `balance > 0` means the member is owed money. */
  datatype MemberBalance = MemberBalance(
    memberId: string,
    memberName: string,
    paid: real,
    owed: real,
    balance: real)

  /** Engine output: a suggested payment between display names. */
  datatype Settlement = Settlement(from: string, to: string, amount: real)

  /** JavaScript truthiness of an optional string: present and non-empty. */
  predicate Truthy(s: Option<string>) {
    s.Some? && s.value != ""
  }

  function RefId(r: Option<Ref>): Option<string> {
    if r.Some? then Some(r.value.id) else None
  }

  /** `primary || fallback`, followed by the truthiness test every caller
      applies to the outcome: a falsy outcome (missing or "") is `None`. */
  function Resolve(primary: Option<string>, fallback: Option<string>): (r: Option<string>)
    ensures r.Some? <==> Truthy(primary) || Truthy(fallback)
    ensures r.Some? ==> r.value != ""
    ensures Truthy(primary) ==> r == primary
    ensures !Truthy(primary) && Truthy(fallback) ==> r == fallback
  {
    if Truthy(primary) then primary
    else if Truthy(fallback) then fallback
    else None
  }

  /** `expense.payerId || expense.payer?.id`: a non-empty `payerId` wins,
      then a non-empty nested payer id; otherwise the expense has no payer. */
  function PayerOf(e: Expense): (r: Option<string>)
    ensures r.None? <==> !Truthy(e.payerId) && (e.payer.None? || e.payer.value.id == "")
    ensures r.Some? ==> r.value != "" && (r == e.payerId || (e.payer.Some? && r.value == e.payer.value.id))
    ensures Truthy(e.payerId) ==> r == e.payerId
  {
    Resolve(e.payerId, RefId(e.payer))
  }

  /** `share.memberId || share.member?.id`: a non-empty `memberId` wins,
      then a non-empty nested member id; otherwise the share has no member. */
  function MemberOf(s: Share): (r: Option<string>)
    ensures r.None? <==> !Truthy(s.memberId) && (s.member.None? || s.member.value.id == "")
    ensures r.Some? ==> r.value != "" && (r == s.memberId || (s.member.Some? && r.value == s.member.value.id))
    ensures Truthy(s.memberId) ==> r == s.memberId
  {
    Resolve(s.memberId, RefId(s.member))
  }

  /** `member.user.name || member.user.email`: the name unless it is missing
      or empty, else the email. The result is empty only when both are. */
  function DisplayName(m: Member): (r: string)
    ensures Truthy(m.user.name) ==> r == m.user.name.value
    ensures !Truthy(m.user.name) ==> r == m.user.email
    ensures r == "" <==> !Truthy(m.user.name) && m.user.email == ""
  {
    if Truthy(m.user.name) then m.user.name.value else m.user.email
  }

  /** The sum of the share amounts of one expense. */
  function ShareTotal(shares: seq<Share>): real {
    if shares == [] then 0.0 else ShareTotal(shares[..|shares| - 1]) + shares[|shares| - 1].shareAmount
  }

  /** What share `s` charges to `id`. */
  function OwedFor(s: Share, id: string): real {
    if MemberOf(s) == Some(id) then s.shareAmount else 0.0
  }

  /** Share amounts whose member resolves to `id`, within one expense. */
  function SharesOwed(shares: seq<Share>, id: string): real {
    if shares == [] then 0.0
    else SharesOwed(shares[..|shares| - 1], id) + OwedFor(shares[|shares| - 1], id)
  }

  /** An id no share resolves to is charged nothing. */
  lemma {:induction false} SharesUntouched(shares: seq<Share>, id: string)
    requires forall q :: 0 <= q < |shares| ==> MemberOf(shares[q]) != Some(id)
    ensures SharesOwed(shares, id) == 0.0
  {
    if shares != [] {
      var n := |shares| - 1;
      assert forall q :: 0 <= q < n ==> shares[..n][q] == shares[q];
      SharesUntouched(shares[..n], id);
    }
  }

  /** Looking at one more share of an expense. */
  lemma SharesOwedSnoc(shares: seq<Share>, t: nat)
    requires t < |shares|
    ensures forall id :: SharesOwed(shares[..t + 1], id) == SharesOwed(shares[..t], id) + OwedFor(shares[t], id)
  {
    assert shares[..t + 1][..t] == shares[..t];
  }

  /** The first `k + 1` elements are the first `k` followed by element `k`. */
  lemma PrefixSnoc<T>(s: seq<T>, k: nat)
    requires k < |s|
    ensures s[..k + 1] == s[..k] + [s[k]]
  {
  }
}
