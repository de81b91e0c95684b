// The agreement lifecycle: what each route does to the store when it runs alone.
module Escrow {
  import opened Wrappers
  import opened Money
  import opened Ledger
  import opened Store

  datatype Reason =
    | NotFound
    | Forbidden
    | Invalid
    | Conflict
    | NotInvited
    | Money(error: Error)

  datatype Reply = Ok | Refused(reason: Reason)

  datatype Res = Res(store: Store, reply: Reply)

  // ----------------------------------------------------------------- lookups

  function Party(ps: seq<Participant>, role: Role): Option<UserId> {
    if ps == [] then None
    else if ps[0].role == role then Some(ps[0].user)
    else Party(ps[1..], role)
  }

  /** The party in a role is the first participant that has it. */
  lemma {:induction false} PartyIs(ps: seq<Participant>, role: Role)
    ensures Party(ps, role).None? ==> forall i :: 0 <= i < |ps| ==> ps[i].role != role
    ensures Party(ps, role).Some? ==>
      exists i :: 0 <= i < |ps| && ps[i].role == role && ps[i].user == Party(ps, role).value
                  && forall j :: 0 <= j < i ==> ps[j].role != role
  {
    if ps != [] && ps[0].role != role {
      PartyIs(ps[1..], role);
      if Party(ps, role).Some? {
        var i :| 0 <= i < |ps[1..]| && ps[1..][i].role == role && ps[1..][i].user == Party(ps, role).value
                 && forall j :: 0 <= j < i ==> ps[1..][j].role != role;
        assert ps[i + 1] == ps[1..][i];
        assert forall j :: 0 < j < i + 1 ==> ps[j] == ps[1..][j - 1];
      }
    }
  }

  function MemberIndex(ps: seq<Participant>, user: UserId): (i: Option<nat>)
    ensures i.Some? ==> i.value < |ps| && ps[i.value].user == user
    ensures i.Some? ==> forall j :: 0 <= j < i.value ==> ps[j].user != user
    ensures i.None? ==> forall p :: p in ps ==> p.user != user
  {
    if ps == [] then None
    else if ps[0].user == user then Some(0)
    else match MemberIndex(ps[1..], user)
      case None => None
      case Some(i) => Some(i + 1)
  }

  function JoinedCount(ps: seq<Participant>): nat {
    if ps == [] then 0 else (if ps[0].membership == Joined then 1 else 0) + JoinedCount(ps[1..])
  }

  /** The caller's row with its membership set, added when there is none. */
  function WithMember(ps: seq<Participant>, user: UserId, role: Role, membership: Membership): seq<Participant> {
    match MemberIndex(ps, user)
    case Some(i) => ps[i := ps[i].(membership := membership)]
    case None => ps + [Participant(user, role, membership)]
  }

  datatype Context = Context(depositor: UserId, beneficiary: UserId)

  function GetContext(s: Store, a: nat): Option<Context> {
    if a >= |s.agreements| then None
    else
      var ps := s.agreements[a].participants;
      if Party(ps, Depositor).Some? && Party(ps, Beneficiary).Some?
      then Some(Context(Party(ps, Depositor).value, Party(ps, Beneficiary).value))
      else None
  }

  predicate Funded(s: Store, a: nat) {
    HasEntryOfKind(s.books.ledger, a, EscrowLock)
  }

  predicate Released(s: Store, a: nat) {
    Has(s.books.ledger, Out(a))
  }

  predicate AllApproved(conditions: seq<ConditionStatus>) {
    conditions != [] && forall c :: c in conditions ==> c == Approved
  }

  lemma ApprovedMeans(conditions: seq<ConditionStatus>)
    ensures AllApproved(conditions) <==>
              |conditions| > 0 && forall i :: 0 <= i < |conditions| ==> conditions[i] == Approved
  {
    forall i | 0 <= i < |conditions| ensures conditions[i] in conditions {
    }
  }

  predicate Live(d: Dispute) {
    !d.status.Resolved?
  }

  predicate HasLive(disputes: seq<Dispute>) {
    exists i :: 0 <= i < |disputes| && Live(disputes[i])
  }

  function Put(s: Store, a: nat, ag: Agreement): Store
    requires a < |s.agreements|
  {
    s.(agreements := s.agreements[a := ag])
  }

  function SetStatus(s: Store, a: nat, status: AgreementStatus): Store
    requires a < |s.agreements|
  {
    Put(s, a, s.agreements[a].(status := status))
  }

  /** A money handler ends: its session is committed on success and dropped on failure. */
  function Finish(v: View, outcome: Outcome): Res {
    match outcome
    case Failed(e) => Res(v.db, Refused(Money(e)))
    case _ => Res(v.tx, Ok)
  }

  // ---------------------------------------------------------- forming a deal

  function Create(s: Store, user: UserId, email: nat, invitee: nat, role: Role, amount: Amount, conditions: nat): Res {
    if !Payable(amount) || invitee == email then Res(s, Refused(Invalid))
    else
      Res(s.(agreements := s.agreements + [Agreement(
        amount, Pending, [Participant(user, role, Joined)],
        Invitation(invitee, Opposite(role), Open),
        seq(conditions, _ => Outstanding), [])]), Ok)
  }

  function Accept(s: Store, a: nat, user: UserId, email: nat): Res {
    if a >= |s.agreements| || s.agreements[a].invitation.email != email then Res(s, Refused(NotInvited))
    else
      var ag := s.agreements[a];
      var me := MemberIndex(ag.participants, user);
      if me.Some? && ag.participants[me.value].membership == Joined then Res(s, Ok)
      else if ag.status != Pending || ag.invitation.status != Open then Res(s, Refused(Invalid))
      else
        var ps := WithMember(ag.participants, user, ag.invitation.role, Joined);
        Res(Put(s, a, ag.(participants := ps, invitation := ag.invitation.(status := Taken),
                          status := if JoinedCount(ps) >= 2 then Active else Pending)), Ok)
  }

  function Reject(s: Store, a: nat, user: UserId, email: nat): Res {
    if Funded(s, a) && !Released(s, a) then Res(s, Refused(Invalid))
    else if a >= |s.agreements| then Res(s, Refused(NotFound))
    else
      var ag := s.agreements[a];
      if ag.status != Pending && ag.status != Active then Res(s, Refused(Invalid))
      else if ag.invitation.email != email then Res(s, Refused(NotInvited))
      else
        var me := MemberIndex(ag.participants, user);
        if me.Some? && ag.participants[me.value].membership == Declined then Res(s, Ok)
        else
          Res(Put(s, a, ag.(participants := WithMember(ag.participants, user, ag.invitation.role, Declined),
                            invitation := ag.invitation.(status := Expired), status := Cancelled)), Ok)
  }

  function Cancel(s: Store, a: nat, user: UserId): Res {
    if Funded(s, a) && !Released(s, a) then Res(s, Refused(Invalid))
    else if a >= |s.agreements| then Res(s, Refused(NotFound))
    else
      var ag := s.agreements[a];
      if MemberIndex(ag.participants, user).None? then Res(s, Refused(Forbidden))
      else if ag.status == Cancelled then Res(s, Ok)
      else if ag.status != Pending && ag.status != Active then Res(s, Refused(Invalid))
      else Res(SetStatus(s, a, Cancelled), Ok)
  }

  // ------------------------------------------------------------------- money

  function Fund(s: Store, a: nat, user: UserId): Res {
    match GetContext(s, a)
    case None => Res(s, Refused(NotFound))
    case Some(c) =>
      if c.depositor != user then Res(s, Refused(Forbidden))
      else if s.agreements[a].status in {Cancelled, Completed, Refunded, Disputed} then Res(s, Refused(Invalid))
      else if Funded(s, a) then Res(s, Refused(Invalid))
      else
        var (v, o) := EntryInSession(Clean(s), LegFor(LockOf(a), user, s.agreements[a].amount, EntryCompleted));
        Finish(v, o)
  }

  /** prepare_release then apply_transfer: shared by every release path. */
  function PerformRelease(s: Store, a: nat): Res {
    match GetContext(s, a)
    case None => Res(s, Refused(NotFound))
    case Some(c) =>
      if s.agreements[a].status in {Disputed, Cancelled, Refunded} then Res(s, Refused(Invalid))
      else
        var amount := s.agreements[a].amount;
        var (v, o) := TransferInSession(View(s, SetStatus(s, a, Completed)), a,
                                        LegFor(Out(a), c.depositor, amount, EntryCompleted),
                                        LegFor(In(a), c.beneficiary, amount, EntryCompleted));
        Finish(v, o)
  }

  /** prepare_refund then apply_entry: shared by every refund path. */
  function PerformRefund(s: Store, a: nat): Res {
    match GetContext(s, a)
    case None => Res(s, Refused(NotFound))
    case Some(c) =>
      if s.agreements[a].status == Completed then Res(s, Refused(Invalid))
      else
        var (v, o) := EntryInSession(View(s, SetStatus(s, a, Refunded)),
                                     LegFor(RefundOf(a), c.depositor, s.agreements[a].amount, EntryCompleted));
        Finish(v, o)
  }

  function Release(s: Store, a: nat, user: UserId): Res {
    match GetContext(s, a)
    case None => Res(s, Refused(NotFound))
    case Some(c) =>
      if user != c.depositor && user != c.beneficiary then Res(s, Refused(Invalid))
      else if !Funded(s, a) then Res(s, Refused(Invalid))
      else if !AllApproved(s.agreements[a].conditions) then Res(s, Refused(Invalid))
      else PerformRelease(s, a)
  }

  /** Admin only. */
  function Refund(s: Store, a: nat): Res {
    if !Funded(s, a) || Released(s, a) then Res(s, Refused(Invalid)) else PerformRefund(s, a)
  }

  // -------------------------------------------------------------- conditions

  /** `named` says whether the required party's email is on the agreement. */
  function AddCondition(s: Store, a: nat, user: UserId, named: bool): Res {
    if a >= |s.agreements| then Res(s, Refused(NotFound))
    else
      var ag := s.agreements[a];
      if MemberIndex(ag.participants, user).None? then Res(s, Refused(Forbidden))
      else if ag.status != Pending then Res(s, Refused(Invalid))
      else if !named then Res(s, Refused(NotFound))
      else Res(Put(s, a, ag.(conditions := ag.conditions + [Outstanding])), Ok)
  }

  /** `_require_depositor`: who may decide a condition, and when. */
  function MayDecide(s: Store, a: nat, c: nat, user: UserId): Reply {
    if a >= |s.agreements| || c >= |s.agreements[a].conditions| then Refused(NotFound)
    else
      var ag := s.agreements[a];
      var me := MemberIndex(ag.participants, user);
      if me.None? || ag.participants[me.value].role != Depositor then Refused(Forbidden)
      else if ag.status != Active || ag.conditions[c] == Approved then Refused(Invalid)
      else Ok
  }

  function Decide(s: Store, a: nat, c: nat, status: ConditionStatus): Store
    requires a < |s.agreements| && c < |s.agreements[a].conditions|
  {
    var ag := s.agreements[a];
    Put(s, a, ag.(conditions := ag.conditions[c := status]))
  }

  function ReleaseIfReady(s: Store, a: nat): Store {
    if a < |s.agreements| && Funded(s, a) && !Released(s, a)
      && AllApproved(s.agreements[a].conditions) && s.agreements[a].status != Disputed
    then PerformRelease(s, a).store
    else s
  }

  function ApproveCondition(s: Store, a: nat, c: nat, user: UserId): Res {
    var may := MayDecide(s, a, c, user);
    if may != Ok then Res(s, may) else Res(ReleaseIfReady(Decide(s, a, c, Approved), a), Ok)
  }

  function RejectCondition(s: Store, a: nat, c: nat, user: UserId): Res {
    var may := MayDecide(s, a, c, user);
    if may != Ok then Res(s, may) else Res(Decide(s, a, c, Rejected), Ok)
  }

  // ---------------------------------------------------------------- disputes

  function RaiseDispute(s: Store, a: nat, user: UserId): Res {
    if a >= |s.agreements| then Res(s, Refused(NotFound))
    else
      var ag := s.agreements[a];
      var me := MemberIndex(ag.participants, user);
      if me.None? || ag.participants[me.value].membership != Joined then Res(s, Refused(Forbidden))
      else if HasLive(ag.disputes) then Res(s, Refused(Conflict))
      else if ag.status != Active then Res(s, Refused(Invalid))
      else if forall p :: p in ag.participants ==> p.user == user then Res(s, Refused(NotFound))
      else Res(Put(s, a, ag.(disputes := ag.disputes + [Dispute(Raised, ag.status)], status := Disputed)), Ok)
  }

  function Review(s: Store, a: nat, d: nat): Res {
    if a >= |s.agreements| || d >= |s.agreements[a].disputes| then Res(s, Refused(NotFound))
    else
      var ag := s.agreements[a];
      if ag.disputes[d].status != Raised then Res(s, Refused(Conflict))
      else Res(Put(s, a, ag.(disputes := ag.disputes[d := ag.disputes[d].(status := UnderReview)])), Ok)
  }

  /** The decision alone: close the dispute, unfreeze what it froze, move nothing. */
  function RecordDecision(s: Store, a: nat, d: nat, decision: Decision): Store
    requires a < |s.agreements| && d < |s.agreements[a].disputes|
  {
    var ag := s.agreements[a];
    Put(s, a, ag.(disputes := ag.disputes[d := ag.disputes[d].(status := Resolved(decision))],
                  status := if ag.status == Disputed then ag.disputes[d].statusBefore else ag.status))
  }

  /** The settlement the route attempts once the decision is committed. */
  function Settle(s: Store, a: nat, decision: Decision): Store {
    if Funded(s, a) && !Released(s, a) then
      match decision
      case FavourBeneficiary => PerformRelease(s, a).store
      case FavourDepositor => PerformRefund(s, a).store
      case _ => s
    else s
  }

  function ResolveDispute(s: Store, a: nat, d: nat, decision: Decision): Res {
    if decision == Split then Res(s, Refused(Invalid))
    else if a >= |s.agreements| || d >= |s.agreements[a].disputes| then Res(s, Refused(NotFound))
    else if !Live(s.agreements[a].disputes[d]) then Res(s, Refused(Conflict))
    else Res(Settle(RecordDecision(s, a, d, decision), a, decision), Ok)
  }

  // ------------------------------------------------------------------ actions

  datatype Action =
    | DoCreate(user: UserId, email: nat, invitee: nat, role: Role, amount: Amount, conditions: nat)
    | DoAccept(a: nat, user: UserId, email: nat)
    | DoReject(a: nat, user: UserId, email: nat)
    | DoCancel(a: nat, user: UserId)
    | DoFund(a: nat, user: UserId)
    | DoRelease(a: nat, user: UserId)
    | DoRefund(a: nat)
    | DoAddCondition(a: nat, user: UserId, named: bool)
    | DoApprove(a: nat, c: nat, user: UserId)
    | DoRejectCondition(a: nat, c: nat, user: UserId)
    | DoRaise(a: nat, user: UserId)
    | DoReview(a: nat, d: nat)
    | DoResolve(a: nat, d: nat, decision: Decision)

  function Step(s: Store, action: Action): Res {
    match action
    case DoCreate(user, email, invitee, role, amount, n) => Create(s, user, email, invitee, role, amount, n)
    case DoAccept(a, user, email) => Accept(s, a, user, email)
    case DoReject(a, user, email) => Reject(s, a, user, email)
    case DoCancel(a, user) => Cancel(s, a, user)
    case DoFund(a, user) => Fund(s, a, user)
    case DoRelease(a, user) => Release(s, a, user)
    case DoRefund(a) => Refund(s, a)
    case DoAddCondition(a, user, named) => AddCondition(s, a, user, named)
    case DoApprove(a, c, user) => ApproveCondition(s, a, c, user)
    case DoRejectCondition(a, c, user) => RejectCondition(s, a, c, user)
    case DoRaise(a, user) => RaiseDispute(s, a, user)
    case DoReview(a, d) => Review(s, a, d)
    case DoResolve(a, d, decision) => ResolveDispute(s, a, d, decision)
  }
}
