// Exactly when each route that moves no money succeeds, in any reachable state,
// and what it leaves; and what no route ever does to a deal's conditions.
module EscrowOutcomes {
  import opened Wrappers
  import opened Money
  import opened Ledger
  import opened Store
  import opened Escrow
  import opened EscrowProofs
  import opened EscrowTheorems

  predicate Member(ag: Agreement, user: UserId, membership: Membership) {
    var me := MemberIndex(ag.participants, user);
    me.Some? && ag.participants[me.value].membership == membership
  }

  /** A deal is created exactly for a positive amount of whole kobo and an invitee
      other than its creator. It is added behind the others, pending: its creator
      in the role they chose, an open invitation to the invitee for the other one,
      and every condition still to be approved. */
  lemma CreateOutcome(s: Store, user: UserId, email: nat, invitee: nat, role: Role, amount: Amount, conditions: nat)
    ensures var r := Create(s, user, email, invitee, role, amount, conditions);
      && (r.reply == Ok <==> amount > 0 && amount % UNIT == 0 && invitee != email)
      && (r.reply != Ok ==> r.store == s)
      && (r.reply == Ok ==>
           && |r.store.agreements| == |s.agreements| + 1 && r.store.agreements[..|s.agreements|] == s.agreements
           && r.store.books == s.books && r.store.payments == s.payments
           && Formed(r.store.agreements[|s.agreements|], user, invitee, role, amount, conditions))
  {
  }

  ghost predicate Formed(ag: Agreement, user: UserId, invitee: nat, role: Role, amount: Amount, conditions: nat) {
    && ag.amount == amount && ag.status == Pending && ag.disputes == []
    && ag.participants == [Participant(user, role, Joined)] && Party(ag.participants, role) == Some(user)
    && ag.invitation == Invitation(invitee, if role == Depositor then Beneficiary else Depositor, Open)
    && |ag.conditions| == conditions && forall i :: 0 <= i < conditions ==> ag.conditions[i] == Outstanding
  }

  /** Accepting is for the invitee while the invitation is open, and harmless for
      anyone who has joined. It makes a pending deal a live one: the newcomer joins
      behind the creator, in the role that was open, and the invitation is taken. */
  lemma AcceptOutcome(s: Store, a: nat, user: UserId, email: nat)
    requires EscrowInv(s) && a < |s.agreements|
    ensures var ag, r := s.agreements[a], Accept(s, a, user, email);
      && (r.reply == Ok <==> (
            && ag.invitation.email == email
            && (Member(ag, user, Joined) || (ag.status == Pending && ag.invitation.status == Open))))
      && (r.reply != Ok || Member(ag, user, Joined) ==> r.store == s)
      && (r.reply == Ok && !Member(ag, user, Joined) ==> (
            && ag.participants == [ag.participants[0]] && user != ag.participants[0].user
            && r.store == s.(agreements := s.agreements[a := ag.(
                 participants := [ag.participants[0], Participant(user, ag.invitation.role, Joined)],
                 invitation := ag.invitation.(status := Taken), status := Active)])
            && ag.invitation.role != ag.participants[0].role))
  {
    var ag := s.agreements[a];
    assert AgreementOk(s.books.ledger, ag, a);
    if ag.status == Pending {
      assert ag.participants == [ag.participants[0]];
      Joins(s, a, user, email, ag.participants[0]);
    }
  }

  lemma Joins(s: Store, a: nat, user: UserId, email: nat, creator: Participant)
    requires a < |s.agreements| && s.agreements[a].status == Pending
    requires s.agreements[a].participants == [creator] && creator.membership == Joined
    ensures var ag, r := s.agreements[a], Accept(s, a, user, email);
      && (r.reply == Ok <==> ag.invitation.email == email && (user == creator.user || ag.invitation.status == Open))
      && (r.reply != Ok || user == creator.user ==> r.store == s)
      && (r.reply == Ok && user != creator.user ==>
           r.store == s.(agreements := s.agreements[a := ag.(
             participants := [creator, Participant(user, ag.invitation.role, Joined)],
             invitation := ag.invitation.(status := Taken), status := Active)]))
  {
    var q := Participant(user, s.agreements[a].invitation.role, Joined);
    assert [creator] + [q] == [creator, q] && [creator][1..] == [];
    CountsTwo(creator, q);
  }

  lemma CountsTwo(p: Participant, q: Participant)
    requires p.membership == q.membership == Joined
    ensures JoinedCount([p, q]) == 2
  {
    assert [p, q][1..] == [q] && [q][1..] == [];
    assert JoinedCount([q]) == 1;
  }

  /** Cancelling is for members of a deal that is forming, or live and unfunded;
      on a cancelled deal it is harmless, and on any other it is refused. */
  lemma CancelOutcome(s: Store, a: nat, user: UserId)
    requires EscrowInv(s) && a < |s.agreements|
    ensures var ag, r := s.agreements[a], Cancel(s, a, user);
      && (r.reply == Ok <==> (
            && MemberIndex(ag.participants, user).Some?
            && (ag.status in {Pending, Cancelled} || (ag.status == Active && !Funded(s, a)))))
      && r.store == (if r.reply == Ok then s.(agreements := s.agreements[a := ag.(status := Cancelled)]) else s)
  {
    var ag := s.agreements[a];
    assert AgreementOk(s.books.ledger, ag, a);
    FundedByKind(s.books.ledger, a);
    assert s.agreements[a := ag] == s.agreements;
  }

  /** Declining is for the invitee, under the same rule. It ends the deal, spends
      the invitation, and leaves the invitee among the participants as declined. */
  lemma RejectOutcome(s: Store, a: nat, user: UserId, email: nat)
    requires EscrowInv(s) && a < |s.agreements|
    ensures var ag, r := s.agreements[a], Reject(s, a, user, email);
      && (r.reply == Ok <==>
           ag.invitation.email == email && (ag.status == Pending || (ag.status == Active && !Funded(s, a))))
      && (r.reply != Ok || Member(ag, user, Declined) ==> r.store == s)
      && (r.reply == Ok && !Member(ag, user, Declined) ==>
           && a < |r.store.agreements|
           && var ag' := r.store.agreements[a];
              && r.store == s.(agreements := s.agreements[a := ag'])
              && ag' == ag.(participants := ag'.participants, invitation := ag.invitation.(status := Expired),
                            status := Cancelled)
              && Member(ag', user, Declined) && OthersStay(ag.participants, ag'.participants, user))
  {
    var ag := s.agreements[a];
    assert AgreementOk(s.books.ledger, ag, a);
    FundedByKind(s.books.ledger, a);
    NowMember(ag.participants, user, ag.invitation.role, Declined);
    OnlyOwnRow(ag.participants, user, ag.invitation.role, Declined);
  }

  /** No row but the user's is different, and theirs at most in its membership. */
  ghost predicate OthersStay(ps: seq<Participant>, ps': seq<Participant>, user: UserId) {
    && |ps| <= |ps'| <= |ps| + 1
    && (forall i :: 0 <= i < |ps| ==> ps'[i].user == ps[i].user && ps'[i].role == ps[i].role)
    && (forall i :: 0 <= i < |ps'| && ps'[i].user != user ==> i < |ps| && ps'[i] == ps[i])
  }

  lemma OnlyOwnRow(ps: seq<Participant>, user: UserId, role: Role, membership: Membership)
    ensures OthersStay(ps, WithMember(ps, user, role, membership), user)
  {
  }

  lemma {:induction false} NowMember(ps: seq<Participant>, user: UserId, role: Role, membership: Membership)
    ensures var ps' := WithMember(ps, user, role, membership);
      MemberIndex(ps', user).Some? && ps'[MemberIndex(ps', user).value].membership == membership
  {
    var ps' := WithMember(ps, user, role, membership);
    if ps == [] {
      assert ps' == [Participant(user, role, membership)];
    } else if ps[0].user != user {
      NowMember(ps[1..], user, role, membership);
      assert ps'[1..] == WithMember(ps[1..], user, role, membership);
    }
  }

  /** A dispute can be raised exactly by someone who has joined a live deal: the
      deal then has no other live dispute and always has another party. It freezes
      the deal, and records the status to return to. */
  lemma RaiseOutcome(s: Store, a: nat, user: UserId)
    requires EscrowInv(s) && a < |s.agreements|
    ensures var ag, r := s.agreements[a], RaiseDispute(s, a, user);
      && (r.reply == Ok <==> ag.status == Active && Member(ag, user, Joined))
      && (r.reply != Ok ==> r.store == s)
      && (r.reply == Ok ==>
           r.store == s.(agreements := s.agreements[a :=
             ag.(disputes := ag.disputes + [Dispute(Raised, Active)], status := Disputed)]))
      && (r.reply == Ok ==> Frozen(r.store, a))
  {
    var ag := s.agreements[a];
    assert AgreementOk(s.books.ledger, ag, a);
    if ag.status == Active {
      assert ag.participants[0] in ag.participants && ag.participants[1] in ag.participants;
    }
    var r := RaiseDispute(s, a, user);
    if r.reply == Ok {
      assert Live(r.store.agreements[a].disputes[|ag.disputes|]);
    }
  }

  /** A condition is added exactly by a member of a pending deal, for a party that
      exists. No money is locked for the deal then, and none can be released
      before the new condition is approved. */
  lemma AddOutcome(s: Store, a: nat, user: UserId, named: bool)
    requires EscrowInv(s) && a < |s.agreements|
    ensures var ag, r := s.agreements[a], AddCondition(s, a, user, named);
      && (r.reply == Ok <==> ag.status == Pending && MemberIndex(ag.participants, user).Some? && named)
      && (r.reply != Ok ==> r.store == s)
      && (r.reply == Ok ==>
           && r.store == s.(agreements := s.agreements[a := ag.(conditions := ag.conditions + [Outstanding])])
           && !Has(r.store.books.ledger, LockOf(a)) && Blocked(r.store, a))
  {
    assert AgreementOk(s.books.ledger, s.agreements[a], a);
    var r := AddCondition(s, a, user, named);
    if r.reply == Ok {
      StillOpen(r.store, a, |s.agreements[a].conditions|);
    }
  }

  /** Some condition is not approved, so neither release route pays. */
  ghost predicate Blocked(s: Store, a: nat) {
    && a < |s.agreements| && (exists i :: 0 <= i < |s.agreements[a].conditions|
                                  && s.agreements[a].conditions[i] != Approved)
    && (forall user: UserId :: Release(s, a, user).reply != Ok && Release(s, a, user).store == s)
    && ReleaseIfReady(s, a) == s
  }

  lemma StillOpen(s: Store, a: nat, c: nat)
    requires a < |s.agreements| && c < |s.agreements[a].conditions| && s.agreements[a].conditions[c] != Approved
    ensures Blocked(s, a)
  {
    assert s.agreements[a].conditions[c] in s.agreements[a].conditions;
  }

  /** A condition is rejected exactly by the depositor of an active deal, unless
      it is approved already; and then no release goes through until it is. */
  lemma RejectConditionOutcome(s: Store, a: nat, c: nat, user: UserId)
    requires EscrowInv(s) && a < |s.agreements| && c < |s.agreements[a].conditions|
    ensures var ag, r := s.agreements[a], RejectCondition(s, a, c, user);
      && (r.reply == Ok <==>
           ag.status == Active && Party(ag.participants, Depositor) == Some(user) && ag.conditions[c] != Approved)
      && (r.reply != Ok ==> r.store == s)
      && (r.reply == Ok ==>
           && r.store == s.(agreements := s.agreements[a :=
                ag.(conditions := ag.conditions[c := ConditionStatus.Rejected])])
           && Blocked(r.store, a))
  {
    var ag := s.agreements[a];
    assert AgreementOk(s.books.ledger, ag, a);
    var r := RejectCondition(s, a, c, user);
    if ag.status == Active {
      var ps := ag.participants;
      assert ps[1..] == [ps[1]] && ps[1..][1..] == [];
    }
    if r.reply == Ok {
      StillOpen(r.store, a, c);
    }
  }

  /** With nothing to approve, nothing is ever approved: no release path pays. */
  lemma NoConditionsNoRelease(s: Store, a: nat, user: UserId)
    requires EscrowInv(s) && a < |s.agreements| && s.agreements[a].conditions == []
    ensures Release(s, a, user).reply.Refused? && Release(s, a, user).store == s
    ensures ReleaseIfReady(s, a) == s
    ensures forall c: nat ::
      ApproveCondition(s, a, c, user).reply.Refused? && ApproveCondition(s, a, c, user).store == s
  {
    ApprovedMeans(s.agreements[a].conditions);
  }

  /** The money of a deal has gone from its depositor's escrow to its beneficiary. */
  ghost predicate PaidOut(b: Books, b': Books, a: nat, ag: Agreement) {
    && Has(b'.ledger, Out(a)) && Has(b'.ledger, In(a))
    && Party(ag.participants, Depositor).Some? && Party(ag.participants, Beneficiary).Some?
    && Party(ag.participants, Depositor) != Party(ag.participants, Beneficiary)
    && forall u: UserId ::
         && Balance(b', u, Available) ==
              Balance(b, u, Available) + (if Some(u) == Party(ag.participants, Beneficiary) then ag.amount else 0)
         && Balance(b', u, Bucket.Escrow) ==
              Balance(b, u, Bucket.Escrow) - (if Some(u) == Party(ag.participants, Depositor) then ag.amount else 0)
  }

  /** Approving is for the depositor of an active deal, once for each condition.
      With the last approval of a funded deal the money is released in the same
      request; any other approval changes that condition and nothing else. */
  lemma ApproveOutcome(s: Store, a: nat, c: nat, user: UserId)
    requires EscrowInv(s) && a < |s.agreements| && c < |s.agreements[a].conditions|
    ensures var ag, r := s.agreements[a], ApproveCondition(s, a, c, user);
      var approved := ag.(conditions := ag.conditions[c := Approved]);
      && (r.reply == Ok <==>
           ag.status == Active && Party(ag.participants, Depositor) == Some(user) && ag.conditions[c] != Approved)
      && (r.reply != Ok ==> r.store == s)
      && (r.reply == Ok ==>
           if Has(s.books.ledger, LockOf(a))
              && forall i :: 0 <= i < |ag.conditions| && i != c ==> ag.conditions[i] == Approved
           then r.store.agreements == s.agreements[a := approved.(status := Completed)]
                && r.store.payments == s.payments && PaidOut(s.books, r.store.books, a, ag)
           else r.store == s.(agreements := s.agreements[a := approved]))
  {
    var ag := s.agreements[a];
    assert AgreementOk(s.books.ledger, ag, a);
    DecidingIsFor(ag, user);
    if MayDecide(s, a, c, user) == Ok {
      var s1 := Decide(s, a, c, Approved);
      if Has(s.books.ledger, LockOf(a))
         && forall i :: 0 <= i < |ag.conditions| && i != c ==> ag.conditions[i] == Approved {
        ConditionsKeep(s, a, ag.conditions[c := Approved]);
        ReadyIsReleased(s1, a);
        SameParties(s.books, ReleaseIfReady(s1, a).books, a, s1.agreements[a], ag);
      } else {
        NotReady(s, a, c);
      }
    }
  }

  lemma SameParties(b: Books, b': Books, a: nat, ag: Agreement, ag': Agreement)
    requires PaidOut(b, b', a, ag) && ag'.participants == ag.participants && ag'.amount == ag.amount
    ensures PaidOut(b, b', a, ag')
  {
  }

  /** Unfunded, or with another condition open, nothing is released. */
  lemma NotReady(s: Store, a: nat, c: nat)
    requires AllGenuine(s.books.ledger) && a < |s.agreements| && c < |s.agreements[a].conditions|
    requires !Has(s.books.ledger, LockOf(a)) || exists i ::
               0 <= i < |s.agreements[a].conditions| && i != c && s.agreements[a].conditions[i] != Approved
    ensures ReleaseIfReady(Decide(s, a, c, Approved), a) == Decide(s, a, c, Approved)
  {
    var s1 := Decide(s, a, c, Approved);
    FundedByKind(s.books.ledger, a);
    ApprovedMeans(s1.agreements[a].conditions);
    if Has(s.books.ledger, LockOf(a)) {
      var cs := s.agreements[a].conditions;
      var i :| 0 <= i < |cs| && i != c && cs[i] != Approved;
      assert s1.agreements[a].conditions[i] == cs[i];
    }
  }

  /** The first participant with a user's name decides what they may decide. */
  lemma DecidingIsFor(ag: Agreement, user: UserId)
    requires PartiesOk(ag)
    ensures ag.status == Active ==>
      (Party(ag.participants, Depositor) == Some(user) <==>
        && MemberIndex(ag.participants, user).Some?
        && ag.participants[MemberIndex(ag.participants, user).value].role == Depositor)
  {
    if ag.status == Active {
      var ps := ag.participants;
      assert ps[1..] == [ps[1]] && ps[1..][1..] == [];
    }
  }

  /** An active, funded deal with every condition approved is released on the spot. */
  lemma ReadyIsReleased(s: Store, a: nat)
    requires EscrowInv(s) && a < |s.agreements| && Has(s.books.ledger, LockOf(a)) && s.agreements[a].status == Active
    requires |s.agreements[a].conditions| > 0
    requires forall i :: 0 <= i < |s.agreements[a].conditions| ==> s.agreements[a].conditions[i] == Approved
    ensures var ag, s' := s.agreements[a], ReleaseIfReady(s, a);
      && s'.agreements == s.agreements[a := ag.(status := Completed)] && s'.payments == s.payments
      && PaidOut(s.books, s'.books, a, ag)
  {
    assert AgreementOk(s.books.ledger, s.agreements[a], a);
    FundedByKind(s.books.ledger, a);
    ApprovedMeans(s.agreements[a].conditions);
    ReleaseSucceeds(s, a);
    ReleasePays(s, a);
    ReleasedByGroup(PerformRelease(s, a).store.books.ledger, a);
  }

  /** The money of a deal is back in its depositor's available balance. */
  ghost predicate PaidBack(b: Books, b': Books, a: nat, ag: Agreement) {
    && Has(b'.ledger, RefundOf(a)) && Party(ag.participants, Depositor).Some?
    && forall u: UserId ::
         var paid := if Some(u) == Party(ag.participants, Depositor) then ag.amount else 0;
         && Balance(b', u, Available) == Balance(b, u, Available) + paid
         && Balance(b', u, Bucket.Escrow) == Balance(b, u, Bucket.Escrow) - paid
  }

  /** What resolving the dispute of a disputed, funded deal pays: the beneficiary,
      or the depositor, or nobody; and nothing is paid for any other deal. */
  lemma ResolvePays(s: Store, a: nat, d: nat, decision: Decision)
    requires EscrowInv(s) && ResolveDispute(s, a, d, decision).reply == Ok
    ensures var ag, b, b' := s.agreements[a], s.books, ResolveDispute(s, a, d, decision).store.books;
      if ag.status == Disputed && Has(b.ledger, LockOf(a)) && decision == FavourBeneficiary then PaidOut(b, b', a, ag)
      else if ag.status == Disputed && Has(b.ledger, LockOf(a)) && decision == FavourDepositor
      then PaidBack(b, b', a, ag)
      else b' == b
  {
    var ag := s.agreements[a];
    var s1 := RecordDecision(s, a, d, decision);
    DecisionKeeps(s, a, d, decision);
    SettlingPays(s1, a, decision);
  }

  lemma SettlingPays(s: Store, a: nat, decision: Decision)
    requires EscrowInv(s) && a < |s.agreements| && s.agreements[a].status in {Active, Refunded} && decision != Split
    ensures var ag, b, b' := s.agreements[a], s.books, Settle(s, a, decision).books;
      if ag.status == Active && Has(b.ledger, LockOf(a)) && decision == FavourBeneficiary then PaidOut(b, b', a, ag)
      else if ag.status == Active && Has(b.ledger, LockOf(a)) && decision == FavourDepositor then PaidBack(b, b', a, ag)
      else b' == b
  {
    assert AgreementOk(s.books.ledger, s.agreements[a], a);
    FundedByKind(s.books.ledger, a);
    if Has(s.books.ledger, LockOf(a)) {
      if decision == FavourBeneficiary && s.agreements[a].status == Active {
        ReleaseSucceeds(s, a);
        ReleasePays(s, a);
        ReleasedByGroup(PerformRelease(s, a).store.books.ledger, a);
      } else if decision == FavourDepositor {
        RefundSucceeds(s, a);
        RefundPays(s, a);
      }
    }
  }

  /** Only an open dispute can be claimed; claiming it leaves the deal frozen, with
      the same status and the same dispute live. */
  lemma ReviewOutcome(s: Store, a: nat, d: nat)
    requires EscrowInv(s) && a < |s.agreements| && d < |s.agreements[a].disputes|
    ensures var ag, r := s.agreements[a], Review(s, a, d);
      && (r.reply == Ok <==> ag.disputes[d].status == Raised)
      && (r.reply != Ok ==> r.store == s)
      && (r.reply == Ok ==>
           && Frozen(s, a) && Frozen(r.store, a)
           && r.store == s.(agreements := s.agreements[a :=
                ag.(disputes := ag.disputes[d := ag.disputes[d].(status := UnderReview)])])
           && forall i :: 0 <= i < |ag.disputes| ==> (Live(r.store.agreements[a].disputes[i]) <==> i == d))
  {
    var ag := s.agreements[a];
    assert AgreementOk(s.books.ledger, ag, a);
    var r := Review(s, a, d);
    if r.reply == Ok {
      assert Live(ag.disputes[d]) && Live(r.store.agreements[a].disputes[d]);
    }
  }

  /** Who is turned away as having no business with the deal: whoever is not its
      depositor when it comes to paying or deciding, not a member when it comes to
      changing it, and not joined when it comes to disputing it. */
  lemma WhoIsForbidden(s: Store, a: nat, user: UserId, named: bool, c: nat)
    requires EscrowInv(s) && a < |s.agreements|
    ensures var ag := s.agreements[a];
      && (ag.status !in {Pending, Cancelled} ==>
           (Fund(s, a, user).reply == Refused(Forbidden) <==> Party(ag.participants, Depositor) != Some(user)))
      && (c < |ag.conditions| && ag.status == Active ==>
           (ApproveCondition(s, a, c, user).reply == Refused(Forbidden) <==>
             Party(ag.participants, Depositor) != Some(user)))
      && (AddCondition(s, a, user, named).reply == Refused(Forbidden) <==> MemberIndex(ag.participants, user).None?)
      && (!Funded(s, a) ==>
           (Cancel(s, a, user).reply == Refused(Forbidden) <==> MemberIndex(ag.participants, user).None?))
      && (RaiseDispute(s, a, user).reply == Refused(Forbidden) <==> !Member(ag, user, Joined))
      && (forall email: nat :: Accept(s, a, user, email).reply == Refused(NotInvited) <==> ag.invitation.email != email)
  {
    var ag := s.agreements[a];
    assert AgreementOk(s.books.ledger, ag, a);
    DecidingIsFor(ag, user);
    if ag.status != Cancelled {
      Parties(ag);
    }
  }

  /** How an action may change the conditions of a deal. */
  predicate MayChange(s: Store, action: Action, a: nat, c: nat)
    requires a < |s.agreements|
  {
    && s.agreements[a].status == Active
    && match action
       case DoApprove(i, j, user) => i == a && j == c && Party(s.agreements[a].participants, Depositor) == Some(user)
       case DoRejectCondition(i, j, user) =>
         i == a && j == c && Party(s.agreements[a].participants, Depositor) == Some(user)
       case _ => false
  }

  /** The conditions of the deal an action is about, afterwards. */
  function ConditionsAfter(s: Store, action: Action, a: nat): seq<ConditionStatus>
    requires a < |s.agreements|
  {
    var cs := s.agreements[a].conditions;
    match action
    case DoApprove(_, c, user) => if MayDecide(s, a, c, user) == Ok then cs[c := Approved] else cs
    case DoRejectCondition(_, c, user) => if MayDecide(s, a, c, user) == Ok then cs[c := ConditionStatus.Rejected]
        else cs
    case DoAddCondition(_, user, named) => if AddCondition(s, a, user, named).reply == Ok then cs + [Outstanding]
        else cs
    case _ => cs
  }

  lemma PaperConditions(s: Store, action: Action, a: nat)
    requires a < |s.agreements| && Target(action) == Some(a) && Paper(action)
    ensures a < |Step(s, action).store.agreements|
    ensures Step(s, action).store.agreements[a].conditions == ConditionsAfter(s, action, a)
  {
  }

  lemma OwnConditions(s: Store, action: Action, a: nat)
    requires EscrowInv(s) && a < |s.agreements| && Target(action) == Some(a)
    ensures a < |Step(s, action).store.agreements|
    ensures Step(s, action).store.agreements[a].conditions == ConditionsAfter(s, action, a)
  {
    match action
    case DoApprove(_, c, user) => ApprovingConditions(s, a, c, user);
    case DoRelease(_, _) => SettlingKeepsConditions(s, a);
    case DoRefund(_) => SettlingKeepsConditions(s, a);
    case DoResolve(_, d, decision) => ResolvingKeepsConditions(s, a, d, decision);
    case DoFund(_, user) => FundTries(s, a, user);
    case _ => PaperConditions(s, action, a);
  }

  /** What no route does to the conditions: none is ever removed, none is added
      once the deal is no longer pending, an approval is final, and only the
      depositor of a live deal decides one, one at a time. So a release that was
      justified by approvals stays justified. */
  lemma ConditionsEvolve(s: Store, action: Action, a: nat)
    requires EscrowInv(s) && a < |s.agreements|
    ensures a < |Step(s, action).store.agreements|
    ensures var cs, cs' := s.agreements[a].conditions, Step(s, action).store.agreements[a].conditions;
      && |cs| <= |cs'| && (s.agreements[a].status != Pending ==> |cs'| == |cs|)
      && (forall c :: 0 <= c < |cs| && cs[c] == Approved ==> cs'[c] == Approved)
      && (forall c: nat :: c < |cs| && cs'[c] != cs[c] ==> MayChange(s, action, a, c))
  {
    if Target(action) != Some(a) {
      StepEvolves(s, action, a);
    } else {
      OwnConditions(s, action, a);
      if action.DoApprove? && MayDecide(s, a, action.c, action.user) == Ok {
        DecidedBy(s, a, action.c, action.user);
      }
      if action.DoRejectCondition? && MayDecide(s, a, action.c, action.user) == Ok {
        DecidedBy(s, a, action.c, action.user);
      }
    }
  }

  lemma ApprovingConditions(s: Store, a: nat, c: nat, user: UserId)
    requires EscrowInv(s) && a < |s.agreements|
    ensures a < |ApproveCondition(s, a, c, user).store.agreements|
    ensures var cs, cs' := s.agreements[a].conditions, ApproveCondition(s, a, c, user).store.agreements[a].conditions;
      if MayDecide(s, a, c, user) == Ok
      then s.agreements[a].status == Active && Party(s.agreements[a].participants, Depositor) == Some(user)
           && c < |cs| && cs' == cs[c := Approved]
      else cs' == cs
  {
    if MayDecide(s, a, c, user) == Ok {
      DecidedBy(s, a, c, user);
      SettlingKeepsConditions(Decide(s, a, c, Approved), a);
    }
  }

  /** Who may decide is the depositor. */
  lemma DecidedBy(s: Store, a: nat, c: nat, user: UserId)
    requires EscrowInv(s) && a < |s.agreements| && MayDecide(s, a, c, user) == Ok
    ensures Party(s.agreements[a].participants, Depositor) == Some(user)
  {
    var ag := s.agreements[a];
    assert AgreementOk(s.books.ledger, ag, a);
    var ps := ag.participants;
    assert ps[1..] == [ps[1]] && ps[1..][1..] == [];
  }

  lemma SettlingKeepsConditions(s: Store, a: nat)
    requires a < |s.agreements|
    ensures |PerformRelease(s, a).store.agreements| == |PerformRefund(s, a).store.agreements| == |s.agreements|
    ensures PerformRelease(s, a).store.agreements[a].conditions == s.agreements[a].conditions
    ensures PerformRefund(s, a).store.agreements[a].conditions == s.agreements[a].conditions
  {
  }

  lemma ResolvingKeepsConditions(s: Store, a: nat, d: nat, decision: Decision)
    requires a < |s.agreements|
    ensures |ResolveDispute(s, a, d, decision).store.agreements| == |s.agreements|
    ensures ResolveDispute(s, a, d, decision).store.agreements[a].conditions == s.agreements[a].conditions
  {
    if d < |s.agreements[a].disputes| {
      SettlingKeepsConditions(RecordDecision(s, a, d, decision), a);
    }
  }
}
