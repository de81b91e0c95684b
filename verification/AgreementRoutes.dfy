// The agreement, condition and dispute routes as they run: ordered steps over
// one request session, flushing, committing and rolling back where the code
// does. Each is proved to leave committed exactly what module Escrow says, so
// everything proved there is about these.
module AgreementRoutes {
  import opened Wrappers
  import opened Money
  import opened Ledger
  import opened Store
  import opened Escrow
  import opened EscrowOutcomes
  import opened EscrowProofs
  import opened EscrowTheorems
  import opened WalletRepositoryModule

  class Routes {
    const session: Session
    const wallets: WalletRepository

    constructor (session: Session)
      ensures this.session == session && wallets.session == session
    {
      this.session := session;
      wallets := new WalletRepository(session);
    }

    /** A request starts with a session of its own, nothing flushed. */
    ghost predicate Ready()
      reads session
    {
      wallets.session == session && session.tx == session.db
    }

    method Save(a: nat, ag: Agreement, commit: bool)
      requires session.Valid() && a < |session.tx.agreements|
      modifies session
      ensures session.tx == Put(old(session.tx), a, ag)
      ensures session.db == if commit then session.tx else old(session.db)
    {
      session.tx := session.tx.(agreements := session.tx.agreements[a := ag]);
      if commit {
        var _ := session.Commit();
      }
    }

    // ------------------------------------------------------ forming a deal

    method CreateAgreement(user: UserId, email: nat, invitee: nat, role: Role, amount: Amount, conditions: nat)
        returns (reply: Reply)
      requires Ready()
      modifies session
      ensures Res(session.db, reply) == Create(old(session.db), user, email, invitee, role, amount, conditions)
      ensures reply == Ok <==> amount > 0 && amount % UNIT == 0 && invitee != email
      ensures reply == Ok ==>
        && |session.db.agreements| == |old(session.db).agreements| + 1
        && Formed(session.db.agreements[|old(session.db).agreements|], user, invitee, role, amount, conditions)
    {
      CreateOutcome(session.tx, user, email, invitee, role, amount, conditions);
      if amount <= 0 || amount % UNIT != 0 {
        return Refused(Invalid);
      }
      if invitee == email {
        return Refused(Invalid);
      }
      var ag := Agreement(amount, Pending, [], Invitation(invitee, Opposite(role), Open), [], []);
      ag := ag.(participants := ag.participants + [Participant(user, role, Joined)]);
      var i := 0;
      while i < conditions
        invariant 0 <= i <= conditions
        invariant ag == Agreement(amount, Pending, [Participant(user, role, Joined)],
            Invitation(invitee, Opposite(role), Open), seq(i, _ => Outstanding), [])
      {
        ag := ag.(conditions := ag.conditions + [Outstanding]);
        i := i + 1;
      }
      session.tx := session.tx.(agreements := session.tx.agreements + [ag]);
      var _ := session.Commit();
      return Ok;
    }

    method AcceptAgreement(a: nat, user: UserId, email: nat) returns (reply: Reply)
      requires Ready()
      modifies session
      ensures Res(session.db, reply) == Accept(old(session.db), a, user, email)
    {
      if a >= |session.tx.agreements| || session.tx.agreements[a].invitation.email != email {
        return Refused(NotInvited);
      }
      var ag := session.tx.agreements[a];
      var me := MemberIndex(ag.participants, user);
      if me.Some? && ag.participants[me.value].membership == Joined {
        return Ok;
      }
      if ag.status != Pending {
        return Refused(Invalid);
      }
      if ag.invitation.status != Open {
        return Refused(Invalid);
      }
      if me.None? {
        ag := ag.(participants := ag.participants + [Participant(user, ag.invitation.role, Joined)]);
      } else {
        ag := ag.(participants := ag.participants[me.value := ag.participants[me.value].(membership := Joined)]);
      }
      ag := ag.(invitation := ag.invitation.(status := Taken));
      Save(a, ag, true);
      var accepted := CountJoined(session.tx.agreements[a].participants);
      if accepted >= 2 {
        ag := ag.(status := Active);
      } else {
        ag := ag.(status := Pending);
      }
      Save(a, ag, true);
      return Ok;
    }

    method CountJoined(ps: seq<Participant>) returns (n: nat)
      ensures n == JoinedCount(ps)
    {
      n := 0;
      var i := |ps|;
      while i > 0
        invariant 0 <= i <= |ps| && n == JoinedCount(ps[i..])
      {
        i := i - 1;
        assert ps[i..][1..] == ps[i + 1..];
        if ps[i].membership == Joined {
          n := n + 1;
        }
      }
    }

    method RejectAgreement(a: nat, user: UserId, email: nat) returns (reply: Reply)
      requires Ready()
      modifies session
      ensures Res(session.db, reply) == Reject(old(session.db), a, user, email)
    {
      if IsFunded(a) && !IsReleased(a) {
        return Refused(Invalid);
      }
      if a >= |session.tx.agreements| {
        return Refused(NotFound);
      }
      var ag := session.tx.agreements[a];
      if ag.status == Disputed {
        return Refused(Invalid);
      }
      if ag.status !in {Pending, Active} {
        return Refused(Invalid);
      }
      if ag.invitation.email != email {
        return Refused(NotInvited);
      }
      var me := MemberIndex(ag.participants, user);
      if me.Some? && ag.participants[me.value].membership == Declined {
        return Ok;
      }
      if me.None? {
        ag := ag.(participants := ag.participants + [Participant(user, ag.invitation.role, Declined)]);
      } else {
        ag := ag.(participants := ag.participants[me.value := ag.participants[me.value].(membership := Declined)]);
      }
      ag := ag.(invitation := ag.invitation.(status := Expired));
      Save(a, ag, true);
      Save(a, ag.(status := Cancelled), true);
      return Ok;
    }

    method CancelAgreement(a: nat, user: UserId) returns (reply: Reply)
      requires Ready()
      modifies session
      ensures Res(session.db, reply) == Cancel(old(session.db), a, user)
      ensures EscrowInv(old(session.db)) && a < |old(session.db).agreements| ==>
        var ag := old(session.db).agreements[a];
        reply == Ok <==>
          && MemberIndex(ag.participants, user).Some?
          && (ag.status in {Pending, Cancelled} || (ag.status == Active && !Funded(old(session.db), a)))
    {
      if EscrowInv(session.tx) && a < |session.tx.agreements| {
        CancelOutcome(session.tx, a, user);
      }
      if IsFunded(a) && !IsReleased(a) {
        return Refused(Invalid);
      }
      if a >= |session.tx.agreements| {
        return Refused(NotFound);
      }
      var ag := session.tx.agreements[a];
      if MemberIndex(ag.participants, user).None? {
        return Refused(Forbidden);
      }
      if ag.status == Cancelled {
        return Ok;
      }
      if ag.status != Pending && ag.status != Active {
        return Refused(Invalid);
      }
      Save(a, ag.(status := Cancelled), true);
      return Ok;
    }

    // ---------------------------------------------------------------- money

    predicate IsFunded(a: nat)
      reads session
    {
      HasEntryOfKind(session.tx.books.ledger, a, EscrowLock)
    }

    predicate IsReleased(a: nat)
      reads session
    {
      Has(session.tx.books.ledger, Out(a))
    }

    /** Success: the last repository to touch the session commits what is left.
        Failure: the exception ends the request. */
    method Conclude(outcome: Outcome) returns (reply: Reply)
      requires session.Valid()
      modifies session
      ensures Res(session.db, reply) == Finish(old(session.Seen()), outcome)
    {
      if outcome.Failed? {
        return Refused(Reason.Money(outcome.error));
      }
      assert session.db.books.ledger == session.tx.books.ledger;
      var _ := session.Commit();
      return Ok;
    }

    method FundAgreement(a: nat, user: UserId) returns (reply: Reply)
      requires Ready()
      modifies session
      ensures Res(session.db, reply) == Fund(old(session.db), a, user)
    {
      var context := GetContext(session.tx, a);
      if context.None? {
        return Refused(NotFound);
      }
      if context.value.depositor != user {
        return Refused(Forbidden);
      }
      if session.tx.agreements[a].status in {Cancelled, Completed, Refunded, Disputed} {
        return Refused(Invalid);
      }
      if IsFunded(a) {
        return Refused(Invalid);
      }
      var outcome := wallets.ApplyEntry(LegFor(LockOf(a), user, session.tx.agreements[a].amount, EntryCompleted), None);
      reply := Conclude(outcome);
    }

    /** prepare_release flushes the status; apply_transfer commits it with the
        money, or rolls both back. */
    method PerformEscrowRelease(a: nat) returns (reply: Reply)
      requires Ready()
      modifies session
      ensures Res(session.db, reply) == PerformRelease(old(session.db), a)
    {
      var context := GetContext(session.tx, a);
      if context.None? {
        return Refused(NotFound);
      }
      var ag := session.tx.agreements[a];
      if ag.status == Disputed {
        return Refused(Invalid);
      }
      if ag.status in {Cancelled, Refunded} {
        return Refused(Invalid);
      }
      Save(a, ag.(status := Completed), false);
      var outcome := wallets.ApplyTransfer(a, LegFor(Out(a), context.value.depositor, ag.amount, EntryCompleted),
                                           LegFor(In(a), context.value.beneficiary, ag.amount, EntryCompleted), None);
      reply := Conclude(outcome);
    }

    method PerformEscrowRefund(a: nat) returns (reply: Reply)
      requires Ready()
      modifies session
      ensures Res(session.db, reply) == PerformRefund(old(session.db), a)
    {
      var context := GetContext(session.tx, a);
      if context.None? {
        return Refused(NotFound);
      }
      var ag := session.tx.agreements[a];
      if ag.status == Completed {
        return Refused(Invalid);
      }
      Save(a, ag.(status := Refunded), false);
      var outcome := wallets.ApplyEntry(LegFor(RefundOf(a), context.value.depositor, ag.amount, EntryCompleted), None);
      reply := Conclude(outcome);
    }

    method ReleaseEscrow(a: nat, user: UserId) returns (reply: Reply)
      requires Ready()
      modifies session
      ensures Res(session.db, reply) == Release(old(session.db), a, user)
      ensures EscrowInv(old(session.db)) && a < |old(session.db).agreements| && reply == Ok ==>
        var conditions := old(session.db).agreements[a].conditions;
        |conditions| > 0 && forall i :: 0 <= i < |conditions| ==> conditions[i] == Approved
    {
      if EscrowInv(session.tx) && a < |session.tx.agreements| {
        PermittedReleaseSucceeds(session.tx, a, user);
      }
      var context := GetContext(session.tx, a);
      if context.None? {
        return Refused(NotFound);
      }
      if user != context.value.depositor && user != context.value.beneficiary {
        return Refused(Invalid);
      }
      if !IsFunded(a) {
        return Refused(Invalid);
      }
      var approved := AllConditionsApproved(a);
      if !approved {
        return Refused(Invalid);
      }
      reply := PerformEscrowRelease(a);
    }

    method RefundEscrow(a: nat) returns (reply: Reply)
      requires Ready()
      modifies session
      ensures Res(session.db, reply) == Refund(old(session.db), a)
    {
      if !IsFunded(a) {
        return Refused(Invalid);
      }
      if IsReleased(a) {
        return Refused(Invalid);
      }
      reply := PerformEscrowRefund(a);
    }

    // ----------------------------------------------------------- conditions

    /** No conditions means nothing to approve, and that is not approval. */
    method AllConditionsApproved(a: nat) returns (approved: bool)
      requires a < |session.tx.agreements|
      ensures approved <==>
        && |session.tx.agreements[a].conditions| > 0
        && forall i :: 0 <= i < |session.tx.agreements[a].conditions| ==>
             session.tx.agreements[a].conditions[i] == Approved
      ensures approved <==> AllApproved(session.tx.agreements[a].conditions)
    {
      var conditions := session.tx.agreements[a].conditions;
      ApprovedMeans(conditions);
      if conditions == [] {
        return false;
      }
      var i := 0;
      while i < |conditions|
        invariant 0 <= i <= |conditions|
        invariant forall j :: 0 <= j < i ==> conditions[j] == Approved
      {
        if conditions[i] != Approved {
          return false;
        }
        i := i + 1;
      }
      return true;
    }

    method AddConditionTo(a: nat, user: UserId, named: bool) returns (reply: Reply)
      requires Ready()
      modifies session
      ensures Res(session.db, reply) == AddCondition(old(session.db), a, user, named)
      ensures EscrowInv(old(session.db)) && reply == Ok ==>
        !Has(session.db.books.ledger, LockOf(a)) && Blocked(session.db, a)
    {
      if EscrowInv(session.tx) && a < |session.tx.agreements| {
        AddOutcome(session.tx, a, user, named);
      }
      if a >= |session.tx.agreements| {
        return Refused(NotFound);
      }
      var ag := session.tx.agreements[a];
      if MemberIndex(ag.participants, user).None? {
        return Refused(Forbidden);
      }
      if ag.status != Pending {
        return Refused(Invalid);
      }
      if !named {
        return Refused(NotFound);
      }
      Save(a, ag.(conditions := ag.conditions + [Outstanding]), true);
      return Ok;
    }

    /** Its own transaction after the approval: a failure here undoes nothing. */
    method ReleaseEscrowIfReady(a: nat)
      requires Ready()
      modifies session
      ensures session.db == ReleaseIfReady(old(session.db), a)
      ensures EscrowInv(old(session.db)) && a < |old(session.db).agreements| ==>
        var ag := old(session.db).agreements[a];
        Has(old(session.db).books.ledger, LockOf(a)) && ag.status == Active && |ag.conditions| > 0
        && (forall i :: 0 <= i < |ag.conditions| ==> ag.conditions[i] == Approved) ==>
          && session.db.agreements == old(session.db).agreements[a := ag.(status := Completed)]
          && PaidOut(old(session.db).books, session.db.books, a, ag)
    {
      if EscrowInv(session.tx) && a < |session.tx.agreements| && Has(session.tx.books.ledger, LockOf(a))
         && session.tx.agreements[a].status == Active && |session.tx.agreements[a].conditions| > 0
         && forall i :: 0 <= i < |session.tx.agreements[a].conditions| ==>
              session.tx.agreements[a].conditions[i] == Approved {
        ReadyIsReleased(session.tx, a);
      }
      if !IsFunded(a) || IsReleased(a) {
        return;
      }
      if a >= |session.tx.agreements| {
        return;
      }
      var approved := AllConditionsApproved(a);
      if !approved {
        return;
      }
      if session.tx.agreements[a].status == Disputed {
        return;
      }
      var _ := PerformEscrowRelease(a);
    }

    method ApproveConditionOf(a: nat, c: nat, user: UserId) returns (reply: Reply)
      requires Ready()
      modifies session
      ensures Res(session.db, reply) == ApproveCondition(old(session.db), a, c, user)
      ensures EscrowInv(old(session.db)) && reply == Ok && Has(old(session.db).books.ledger, LockOf(a)) ==>
        && a < |session.db.agreements| == |old(session.db).agreements|
        && var ag := old(session.db).agreements[a];
           (forall i :: 0 <= i < |ag.conditions| && i != c ==> ag.conditions[i] == Approved) ==>
             session.db.agreements[a].status == Completed && PaidOut(old(session.db).books, session.db.books, a, ag)
    {
      if EscrowInv(session.tx) && a < |session.tx.agreements| && c < |session.tx.agreements[a].conditions| {
        ApproveOutcome(session.tx, a, c, user);
      }
      reply := MayDecide(session.tx, a, c, user);
      if reply == Ok {
        var ag := session.tx.agreements[a];
        Save(a, ag.(conditions := ag.conditions[c := Approved]), true);
        ReleaseEscrowIfReady(a);
      }
    }

    method RejectConditionOf(a: nat, c: nat, user: UserId) returns (reply: Reply)
      requires Ready()
      modifies session
      ensures Res(session.db, reply) == RejectCondition(old(session.db), a, c, user)
      ensures EscrowInv(old(session.db)) && reply == Ok ==> Blocked(session.db, a)
    {
      if EscrowInv(session.tx) && a < |session.tx.agreements| && c < |session.tx.agreements[a].conditions| {
        RejectConditionOutcome(session.tx, a, c, user);
      }
      reply := MayDecide(session.tx, a, c, user);
      if reply == Ok {
        var ag := session.tx.agreements[a];
        Save(a, ag.(conditions := ag.conditions[c := ConditionStatus.Rejected]), true);
      }
    }

    // ------------------------------------------------------------- disputes

    /** The dispute and the freeze land in one transaction. */
    method Raise(a: nat, user: UserId) returns (reply: Reply)
      requires Ready()
      modifies session
      ensures Res(session.db, reply) == RaiseDispute(old(session.db), a, user)
    {
      if a >= |session.tx.agreements| {
        return Refused(NotFound);
      }
      var ag := session.tx.agreements[a];
      var me := MemberIndex(ag.participants, user);
      if me.None? || ag.participants[me.value].membership != Joined {
        return Refused(Forbidden);
      }
      var live := AnyLive(ag.disputes);
      if live {
        return Refused(Reason.Conflict);
      }
      if ag.status != Active {
        return Refused(Invalid);
      }
      var other := AnotherParty(ag.participants, user);
      if !other {
        return Refused(NotFound);
      }
      Save(a, ag.(disputes := ag.disputes + [Dispute(Raised, ag.status)]), false);
      ag := session.tx.agreements[a];
      Save(a, ag.(status := Disputed), false);
      var _ := session.Commit();
      return Ok;
    }

    method AnyLive(disputes: seq<Dispute>) returns (live: bool)
      ensures live <==> HasLive(disputes)
    {
      var i := 0;
      while i < |disputes|
        invariant 0 <= i <= |disputes|
        invariant forall j :: 0 <= j < i ==> !Live(disputes[j])
      {
        if Live(disputes[i]) {
          return true;
        }
        i := i + 1;
      }
      return false;
    }

    method AnotherParty(ps: seq<Participant>, user: UserId) returns (found: bool)
      ensures found <==> !(forall p :: p in ps ==> p.user == user)
    {
      var i := 0;
      while i < |ps|
        invariant 0 <= i <= |ps|
        invariant forall j :: 0 <= j < i ==> ps[j].user == user
      {
        if ps[i].user != user {
          assert ps[i] in ps;
          return true;
        }
        i := i + 1;
      }
      return false;
    }

    method MarkUnderReview(a: nat, d: nat) returns (reply: Reply)
      requires Ready()
      modifies session
      ensures Res(session.db, reply) == Review(old(session.db), a, d)
      ensures EscrowInv(old(session.db)) && reply == Ok ==>
        && a < |session.db.agreements| == |old(session.db).agreements| && Frozen(session.db, a)
        && session.db.agreements[a].status == old(session.db).agreements[a].status
    {
      if EscrowInv(session.tx) && a < |session.tx.agreements| && d < |session.tx.agreements[a].disputes| {
        ReviewOutcome(session.tx, a, d);
      }
      if a >= |session.tx.agreements| || d >= |session.tx.agreements[a].disputes| {
        return Refused(NotFound);
      }
      var ag := session.tx.agreements[a];
      if ag.disputes[d].status != Raised {
        return Refused(Reason.Conflict);
      }
      Save(a, ag.(disputes := ag.disputes[d := ag.disputes[d].(status := UnderReview)]), true);
      return Ok;
    }

    /** The decision is committed first; then the money is moved, and a payout
        that fails is caught and leaves the decision standing. */
    method Resolve(a: nat, d: nat, decision: Decision) returns (reply: Reply)
      requires Ready()
      modifies session
      ensures Res(session.db, reply) == ResolveDispute(old(session.db), a, d, decision)
    {
      if decision == Split {
        return Refused(Invalid);
      }
      if a >= |session.tx.agreements| || d >= |session.tx.agreements[a].disputes| {
        return Refused(NotFound);
      }
      var ag := session.tx.agreements[a];
      if ag.disputes[d].status.Resolved? {
        return Refused(Reason.Conflict);
      }
      var dispute := ag.disputes[d];
      ag := ag.(disputes := ag.disputes[d := dispute.(status := Resolved(decision))]);
      if ag.status == Disputed {
        ag := ag.(status := dispute.statusBefore);
      }
      Save(a, ag, false);
      assert session.tx.books.ledger == session.db.books.ledger;
      var _ := session.Commit();
      assert session.db == RecordDecision(old(session.db), a, d, decision);
      if IsFunded(a) && !IsReleased(a) {
        if decision == FavourBeneficiary {
          var _ := PerformEscrowRelease(a);
        } else if decision == FavourDepositor {
          var _ := PerformEscrowRefund(a);
        }
      }
      return Ok;
    }
  }
}
