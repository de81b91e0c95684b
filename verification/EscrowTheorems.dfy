// What the lifecycle promises, one step at a time, for any agreement and any
// route: which statuses follow which, which entries may appear when, what a
// dispute freezes and what resolving it does, and what no route ever touches.
module EscrowTheorems {
  import opened Wrappers
  import opened Money
  import opened Ledger
  import opened Store
  import opened Escrow
  import opened EscrowProofs

  /** The status graph. The last three have no way out. */
  predicate Lifecycle(from: AgreementStatus, to: AgreementStatus) {
    from == to ||
    match from
    case Pending => to in {Active, Cancelled}
    case Active => to in {Disputed, Completed, Cancelled, Refunded}
    case Disputed => to in {Active, Completed, Refunded}
    case _ => false
  }

  /** The agreement an action is about. */
  function Target(action: Action): Option<nat> {
    match action
    case DoCreate(_, _, _, _, _, _) => None
    case DoAccept(a, _, _) => Some(a)
    case DoReject(a, _, _) => Some(a)
    case DoCancel(a, _) => Some(a)
    case DoFund(a, _) => Some(a)
    case DoRelease(a, _) => Some(a)
    case DoRefund(a) => Some(a)
    case DoAddCondition(a, _, _) => Some(a)
    case DoApprove(a, _, _) => Some(a)
    case DoRejectCondition(a, _, _) => Some(a)
    case DoRaise(a, _) => Some(a)
    case DoReview(a, _) => Some(a)
    case DoResolve(a, _, _) => Some(a)
  }

  /** When an entry about an agreement may appear: a lock while the deal is live
      and stays so, release legs with completion, a refund with being refunded. */
  predicate MayAppear(q: Ref, before: AgreementStatus, after: AgreementStatus) {
    match q
    case LockOf(_) => before == after == Active
    case Out(_) => after == Completed && before in {Active, Disputed}
    case In(_) => after == Completed && before in {Active, Disputed}
    case RefundOf(_) => after == Refunded && before in {Active, Disputed}
    case _ => false
  }

  /** How agreement `a` may differ after a step about it. */
  ghost predicate Evolves(s: Store, s': Store, a: nat)
    requires a < |s.agreements|
  {
    && |s'.agreements| == |s.agreements|
    && Lifecycle(s.agreements[a].status, s'.agreements[a].status)
    && s'.agreements[a].amount == s.agreements[a].amount
    && (forall q: Ref :: AgreementOf(q) == Some(a) && Find(s'.books.ledger, q) != Find(s.books.ledger, q) ==>
          Find(s.books.ledger, q).None? && MayAppear(q, s.agreements[a].status, s'.agreements[a].status))
  }

  /** Nothing about any other agreement. */
  ghost predicate OnlyAbout(s: Store, s': Store, a: nat) {
    && |s'.agreements| >= |s.agreements|
    && (forall i: nat :: i < |s.agreements| && i != a ==> s'.agreements[i] == s.agreements[i])
    && (forall q: Ref :: AgreementOf(q) != Some(a) ==> Find(s'.books.ledger, q) == Find(s.books.ledger, q))
  }

  // ------------------------------------------------------ the money handlers

  lemma FundEvolves(s: Store, a: nat, user: UserId)
    requires EscrowInv(s)
    ensures OnlyAbout(s, Fund(s, a, user).store, a)
    ensures a < |s.agreements| ==>
        Evolves(s, Fund(s, a, user).store, a) && Fund(s, a, user).store.agreements == s.agreements
  {
    var s' := Fund(s, a, user).store;
    if s' != s {
      var ag := s.agreements[a];
      assert ag.status == Active by {
        assert AgreementOk(s.books.ledger, ag, a);
        Parties(ag);
      }
      assert !Has(s.books.ledger, LockOf(a)) by { FundedByKind(s.books.ledger, a); }
      assert forall q: Ref :: q != LockOf(a) ==> Find(s'.books.ledger, q) == Find(s.books.ledger, q) by {
        EntryEffect(s.books, LockOf(a), user, ag.amount, EntryCompleted);
      }
    }
  }

  lemma SettledEvolves(s: Store, s': Store, a: nat, status: AgreementStatus, from: UserId)
    requires EscrowInv(s) && a < |s.agreements| && Settled(s, s', a, status, from)
    requires status == Completed || status == Refunded
    requires s.agreements[a].status in (if status == Completed then {Active, Disputed, Completed}
        else {Active, Disputed, Refunded})
    ensures OnlyAbout(s, s', a) && Evolves(s, s', a)
  {
    assert AgreementOk(s.books.ledger, s.agreements[a], a);
    ReleasedByGroup(s.books.ledger, a);
    ReleasedByGroup(s'.books.ledger, a);
    forall q: Ref | AgreementOf(q) != Some(a) ensures Find(s'.books.ledger, q) == Find(s.books.ledger, q) {
      assert q !in {Out(a), In(a), RefundOf(a)};
    }
  }

  /** A funded deal leaves its live statuses only as PerformRelease and PerformRefund say. */
  lemma PerformEvolves(s: Store, a: nat)
    requires EscrowInv(s) && Has(s.books.ledger, LockOf(a)) && a < |s.agreements|
    ensures OnlyAbout(s, PerformRelease(s, a).store, a) && Evolves(s, PerformRelease(s, a).store, a)
    ensures OnlyAbout(s, PerformRefund(s, a).store, a) && Evolves(s, PerformRefund(s, a).store, a)
  {
    assert AgreementOk(s.books.ledger, s.agreements[a], a);
    ReleaseSucceeds(s, a);
    RefundSucceeds(s, a);
    if s.agreements[a].status in {Active, Completed} {
      SettledEvolves(s, PerformRelease(s, a).store, a, Completed, GetContext(s, a).value.depositor);
    }
    if s.agreements[a].status != Completed {
      SettledEvolves(s, PerformRefund(s, a).store, a, Refunded, GetContext(s, a).value.depositor);
    }
  }

  // -------------------------------------------------------------- every route

  lemma FundedExists(s: Store, a: nat)
    requires EscrowInv(s) && Funded(s, a)
    ensures a < |s.agreements| && Has(s.books.ledger, LockOf(a))
  {
    FundedByKind(s.books.ledger, a);
    assert a >= |s.agreements| ==> Untouched(s.books.ledger, a);
  }

  /** A paper change followed by a settlement, seen as one step. */
  lemma PaperThenMoney(s: Store, a: nat, ag: Agreement, s': Store)
    requires a < |s.agreements| && ag.amount == s.agreements[a].amount
    requires ag.status == s.agreements[a].status || (s.agreements[a].status == Disputed && ag.status == Active)
    requires ag.status in {Active, Disputed, Completed, Refunded}
    requires OnlyAbout(Put(s, a, ag), s', a) && Evolves(Put(s, a, ag), s', a)
    requires s'.agreements[a].status == Cancelled ==> ag.status == s.agreements[a].status
    requires ag.status != s.agreements[a].status ==>
        Find(s'.books.ledger, LockOf(a)) == Find(s.books.ledger, LockOf(a)) && s'.agreements[a].status != Disputed
    ensures OnlyAbout(s, s', a) && Evolves(s, s', a)
  {
  }

  /** Settling does nothing, or what one of the two money handlers does. */
  lemma SettleShape(s: Store, a: nat, decision: Decision)
    ensures
      || Settle(s, a, decision) == s
      || (Funded(s, a) && Settle(s, a, decision) == PerformRelease(s, a).store)
      || (Funded(s, a) && Settle(s, a, decision) == PerformRefund(s, a).store)
  {
  }

  /** The money handlers leave the lock, and any status but their own, alone. */
  lemma PerformKeepsLock(s: Store, a: nat)
    requires EscrowInv(s) && Has(s.books.ledger, LockOf(a)) && a < |s.agreements|
    ensures |PerformRelease(s, a).store.agreements| == |PerformRefund(s, a).store.agreements| == |s.agreements|
    ensures forall s' :: s' in {PerformRelease(s, a).store, PerformRefund(s, a).store} ==>
      && Find(s'.books.ledger, LockOf(a)) == Find(s.books.ledger, LockOf(a))
      && s'.agreements[a].status in {s.agreements[a].status, Completed, Refunded}
  {
    ReleaseSucceeds(s, a);
    RefundSucceeds(s, a);
  }

  lemma SettleEvolves(s: Store, a: nat, decision: Decision)
    requires EscrowInv(s) && a < |s.agreements|
    ensures OnlyAbout(s, Settle(s, a, decision), a) && Evolves(s, Settle(s, a, decision), a)
    ensures Find(Settle(s, a, decision).books.ledger, LockOf(a)) == Find(s.books.ledger, LockOf(a))
    ensures Settle(s, a, decision).agreements[a].status in {s.agreements[a].status, Completed, Refunded}
  {
    SettleShape(s, a, decision);
    if Funded(s, a) {
      FundedExists(s, a);
      PerformEvolves(s, a);
      PerformKeepsLock(s, a);
    }
  }

  lemma ResolveEvolves(s: Store, a: nat, d: nat, decision: Decision)
    requires EscrowInv(s)
    ensures OnlyAbout(s, ResolveDispute(s, a, d, decision).store, a)
    ensures a < |s.agreements| ==> Evolves(s, ResolveDispute(s, a, d, decision).store, a)
  {
    if a < |s.agreements| && d < |s.agreements[a].disputes| && Live(s.agreements[a].disputes[d]) {
      DecisionKeeps(s, a, d, decision);
      var s1 := RecordDecision(s, a, d, decision);
      SettleEvolves(s1, a, decision);
      if decision != Split {
        PaperThenMoney(s, a, s1.agreements[a], Settle(s1, a, decision));
      }
    }
  }

  lemma ApproveEvolves(s: Store, a: nat, c: nat, user: UserId)
    requires EscrowInv(s)
    ensures OnlyAbout(s, ApproveCondition(s, a, c, user).store, a)
    ensures a < |s.agreements| ==> Evolves(s, ApproveCondition(s, a, c, user).store, a)
  {
    if MayDecide(s, a, c, user) == Ok {
      var s1 := Decide(s, a, c, Approved);
      ConditionsKeep(s, a, s.agreements[a].conditions[c := Approved]);
      if Funded(s1, a) {
        FundedExists(s1, a);
        PerformEvolves(s1, a);
      }
    }
  }

  lemma ReleaseRouteEvolves(s: Store, a: nat, user: UserId)
    requires EscrowInv(s)
    ensures OnlyAbout(s, Release(s, a, user).store, a)
    ensures a < |s.agreements| ==> Evolves(s, Release(s, a, user).store, a)
  {
    if Funded(s, a) {
      FundedExists(s, a);
      PerformEvolves(s, a);
    }
  }

  lemma RefundRouteEvolves(s: Store, a: nat)
    requires EscrowInv(s)
    ensures OnlyAbout(s, Refund(s, a).store, a)
    ensures a < |s.agreements| ==> Evolves(s, Refund(s, a).store, a)
  {
    if Funded(s, a) {
      FundedExists(s, a);
      PerformEvolves(s, a);
    }
  }

  /** Routes that move no money, one by one. */
  predicate Paper(action: Action) {
    !action.DoFund? && !action.DoRelease? && !action.DoRefund? && !action.DoApprove? && !action.DoResolve?
  }

  lemma PaperEvolves(s: Store, action: Action, a: nat)
    requires EscrowInv(s) && Paper(action) && Target(action) == Some(a)
    ensures Step(s, action).store.books == s.books
    ensures OnlyAbout(s, Step(s, action).store, a)
    ensures a < |s.agreements| ==> Evolves(s, Step(s, action).store, a)
  {
    var s' := Step(s, action).store;
    if a < |s.agreements| && s' != s {
      assert AgreementOk(s.books.ledger, s.agreements[a], a);
      assert s' == Put(s, a, s'.agreements[a]);
    }
  }

  lemma RouteEvolves(s: Store, action: Action, a: nat)
    requires EscrowInv(s) && Target(action) == Some(a)
    ensures OnlyAbout(s, Step(s, action).store, a)
    ensures a < |s.agreements| ==> Evolves(s, Step(s, action).store, a)
  {
    match action
    case DoFund(_, user) => FundEvolves(s, a, user);
    case DoRelease(_, user) => ReleaseRouteEvolves(s, a, user);
    case DoRefund(_) => RefundRouteEvolves(s, a);
    case DoApprove(_, c, user) => ApproveEvolves(s, a, c, user);
    case DoResolve(_, d, decision) => ResolveEvolves(s, a, d, decision);
    case _ => PaperEvolves(s, action, a);
  }

  /** Any route, any agreement: another agreement's routes leave it and its
      entries alone; its own move it along the status graph, keep its amount,
      never remove or replace an entry, and add one only where allowed. */
  lemma StepEvolves(s: Store, action: Action, a: nat)
    requires EscrowInv(s) && a < |s.agreements|
    ensures var s' := Step(s, action).store;
      if Target(action) == Some(a) then Evolves(s, s', a)
      else a < |s'.agreements| && s'.agreements[a] == s.agreements[a]
           && forall q: Ref :: AgreementOf(q) == Some(a) ==> Find(s'.books.ledger, q) == Find(s.books.ledger, q)
  {
    match Target(action)
    case Some(i) => RouteEvolves(s, action, i);
    case None =>
  }

  // ------------------------------------------------------------ the promises

  /** What the ledger and the status say about one agreement, in every state:
      completed exactly when both release legs exist, refunded exactly when the
      refund exists, never both, cancelled only if never locked. */
  lemma StatusIsLedger(s: Store, a: nat)
    requires EscrowInv(s) && a < |s.agreements|
    ensures var l, status := s.books.ledger, s.agreements[a].status;
      && (status == Completed <==> Has(l, Out(a)) && Has(l, In(a)))
      && (status == Completed <==> |Group(l, a)| == 2)
      && (status == Refunded <==> Has(l, RefundOf(a)))
      && !(Has(l, Out(a)) && Has(l, RefundOf(a)))
      && (status == Cancelled ==> !Funded(s, a))
  {
    assert AgreementOk(s.books.ledger, s.agreements[a], a);
    ReleasedByGroup(s.books.ledger, a);
    FundedByKind(s.books.ledger, a);
  }

  /** Every release is justified: a deal whose escrow was paid out has conditions
      and all of them approved, or a dispute decided for the beneficiary. */
  lemma ReleaseWasJustified(s: Store, a: nat)
    requires EscrowInv(s) && (Has(s.books.ledger, Out(a)) || Has(s.books.ledger, In(a)))
    ensures a < |s.agreements|
    ensures var ag := s.agreements[a];
      || (|ag.conditions| > 0 && forall i :: 0 <= i < |ag.conditions| ==> ag.conditions[i] == Approved)
      || exists i :: 0 <= i < |ag.disputes| && ag.disputes[i].status == Resolved(FavourBeneficiary)
  {
    ReleasedByGroup(s.books.ledger, a);
    assert a >= |s.agreements| ==> Untouched(s.books.ledger, a);
    assert a < |s.agreements| ==> AgreementOk(s.books.ledger, s.agreements[a], a);
  }

  predicate Final(status: AgreementStatus) {
    status in {Completed, Cancelled, Refunded}
  }

  /** A final status is never left, and nothing more is ever posted about the deal. */
  lemma FinalStays(s: Store, action: Action, a: nat)
    requires EscrowInv(s) && a < |s.agreements| && Final(s.agreements[a].status)
    ensures var s' := Step(s, action).store; a < |s'.agreements| && s'.agreements[a].status == s.agreements[a].status
    ensures forall q: Ref :: AgreementOf(q) == Some(a) ==>
        Find(Step(s, action).store.books.ledger, q) == Find(s.books.ledger, q)
  {
    StepEvolves(s, action, a);
  }

  ghost predicate Frozen(s: Store, a: nat) {
    a < |s.agreements| && HasLive(s.agreements[a].disputes)
  }

  lemma ResolvesOnly(s: Store, action: Action, a: nat)
    requires EscrowInv(s) && Frozen(s, a) && !(action.DoResolve? && action.a == a)
    ensures Frozen(Step(s, action).store, a)
    ensures s.agreements[a].status == Disputed && !action.DoRefund? ==>
        Step(s, action).store.agreements[a].status == Disputed
    ensures s.agreements[a].status == Disputed ==> Step(s, action).store.agreements[a].status != Completed
  {
    var ag := s.agreements[a];
    assert AgreementOk(s.books.ledger, ag, a);
    var i :| 0 <= i < |ag.disputes| && Live(ag.disputes[i]);
    StepEvolves(s, action, a);
    var s' := Step(s, action).store;
    if Target(action) == Some(a) {
      StaysLive(s, action, a, i);
    }
  }

  /** What a disputed or refunded deal's own routes leave of a live dispute, when
      they are not an administrator's. */
  lemma PartiesLeaveLive(s: Store, action: Action, a: nat, i: nat)
    requires a < |s.agreements| && Target(action) == Some(a) && !action.DoResolve? && !action.DoRefund?
    requires s.agreements[a].status in {Disputed, Refunded}
    requires i < |s.agreements[a].disputes| && Live(s.agreements[a].disputes[i])
    ensures var s' := Step(s, action).store;
      a < |s'.agreements| && i < |s'.agreements[a].disputes| && Live(s'.agreements[a].disputes[i])
      && s'.agreements[a].status == s.agreements[a].status
  {
  }

  /** A refund writes no row but the status. */
  lemma RefundLeavesRows(s: Store, a: nat)
    requires a < |s.agreements|
    ensures Refund(s, a).store.agreements in {s.agreements, SetStatus(s, a, Refunded).agreements}
  {
  }

  /** Only resolving closes a dispute: every other route keeps its row, at most marking it under review. */
  lemma StaysLive(s: Store, action: Action, a: nat, i: nat)
    requires EscrowInv(s) && a < |s.agreements| && Target(action) == Some(a) && !action.DoResolve?
    requires i < |s.agreements[a].disputes| && Live(s.agreements[a].disputes[i])
    ensures var s' := Step(s, action).store;
      a < |s'.agreements| && i < |s'.agreements[a].disputes| && Live(s'.agreements[a].disputes[i])
      && (action.DoRefund? || s'.agreements[a].status == s.agreements[a].status)
      && (action.DoRefund? ==> s'.agreements[a].status in {s.agreements[a].status, Refunded})
  {
    assert AgreementOk(s.books.ledger, s.agreements[a], a);
    assert HasLive(s.agreements[a].disputes);
    if action.DoRefund? {
      RefundLeavesRows(s, a);
    } else {
      PartiesLeaveLive(s, action, a, i);
    }
  }

  /** The freeze: while a dispute on a deal is live, no route but resolving it
      posts anything about the deal, except an administrator's refund. */
  lemma FreezeHolds(s: Store, action: Action, a: nat)
    requires EscrowInv(s) && Frozen(s, a) && !(action.DoResolve? && action.a == a)
    ensures Frozen(Step(s, action).store, a)
    ensures forall q: Ref ::
        AgreementOf(q) == Some(a) && Find(Step(s, action).store.books.ledger, q) != Find(s.books.ledger, q) ==>
          q == RefundOf(a) && action == DoRefund(a)
  {
    StepEvolves(s, action, a);
    ResolvesOnly(s, action, a);
    assert AgreementOk(s.books.ledger, s.agreements[a], a);
  }

  /** A disputed deal has exactly one live dispute, and a live dispute keeps the
      deal disputed unless an administrator refunded it. */
  lemma OneLiveDispute(s: Store, a: nat)
    requires EscrowInv(s) && a < |s.agreements|
    ensures s.agreements[a].status == Disputed ==> Frozen(s, a)
    ensures Frozen(s, a) ==> s.agreements[a].status in {Disputed, Refunded}
    ensures var ds := s.agreements[a].disputes;
      forall i, j :: 0 <= i < |ds| && 0 <= j < |ds| && Live(ds[i]) && Live(ds[j]) ==> i == j
  {
    assert AgreementOk(s.books.ledger, s.agreements[a], a);
  }

  /** Where resolving a live dispute leaves the deal, whatever happened before:
      a decision is carried out in full if the deal is funded and unsettled, a
      deal already refunded stays refunded, and only a deal this dispute froze
      becomes active again. */
  function Verdict(before: AgreementStatus, funded: bool, decision: Decision): AgreementStatus {
    if before != Disputed then before
    else if !funded || decision == Dismissed then Active
    else if decision == FavourBeneficiary then Completed
    else Refunded
  }

  /** What the settlement makes of an active or refunded deal. */
  lemma SettleOutcome(s: Store, a: nat, decision: Decision)
    requires EscrowInv(s) && a < |s.agreements| && s.agreements[a].status in {Active, Refunded} && decision != Split
    ensures var ag := s.agreements[a];
      Settle(s, a, decision).agreements == s.agreements[a := ag.(status :=
        if ag.status == Refunded || !Funded(s, a) || decision == Dismissed then ag.status
        else if decision == FavourBeneficiary then Completed
        else Refunded)]
  {
    assert s.agreements[a := s.agreements[a]] == s.agreements;
    assert AgreementOk(s.books.ledger, s.agreements[a], a);
    if Funded(s, a) {
      FundedExists(s, a);
      ReleaseSucceeds(s, a);
      RefundSucceeds(s, a);
    }
  }

  lemma ResolveOutcome(s: Store, a: nat, d: nat, decision: Decision)
    requires EscrowInv(s)
    ensures var r := ResolveDispute(s, a, d, decision);
      && (r.reply == Ok <==>
           decision != Split && a < |s.agreements| && d < |s.agreements[a].disputes|
           && !s.agreements[a].disputes[d].status.Resolved?)
      && (r.reply != Ok ==> r.store == s)
      && (decision == Split ==> r.reply == Refused(Invalid))
      && (r.reply == Ok ==>
           && a < |r.store.agreements|
           && r.store.agreements[a].status == Verdict(s.agreements[a].status, Funded(s, a), decision)
           && r.store.agreements[a].disputes ==
                s.agreements[a].disputes[d := s.agreements[a].disputes[d].(status := Resolved(decision))]
           && !Frozen(r.store, a))
  {
    if ResolveDispute(s, a, d, decision).reply == Ok {
      DecisionKeeps(s, a, d, decision);
      SettleOutcome(RecordDecision(s, a, d, decision), a, decision);
    }
  }

  /** A release that its route permits goes through: money locked for a deal is
      always there to be moved. */
  lemma PermittedReleaseSucceeds(s: Store, a: nat, user: UserId)
    requires EscrowInv(s) && a < |s.agreements|
    ensures Release(s, a, user).reply != Ok ==> Release(s, a, user).store == s
    ensures Release(s, a, user).reply == Ok <==>
              && Funded(s, a) && s.agreements[a].status in {Active, Completed}
              && |s.agreements[a].conditions| > 0
              && (forall i :: 0 <= i < |s.agreements[a].conditions| ==> s.agreements[a].conditions[i] == Approved)
              && MemberIndex(s.agreements[a].participants, user).Some?
  {
    ApprovedMeans(s.agreements[a].conditions);
    if Funded(s, a) {
      FundedExists(s, a);
      ReleaseSucceeds(s, a);
      if s.agreements[a].status in {Active, Completed} {
        assert AgreementOk(s.books.ledger, s.agreements[a], a);
        PartiesAreMembers(s.agreements[a], user);
      }
    }
  }

  /** So does a refund; a second refund is a replay and succeeds as well. */
  lemma PermittedRefundSucceeds(s: Store, a: nat)
    requires EscrowInv(s) && a < |s.agreements|
    ensures Refund(s, a).reply == Ok <==> Funded(s, a) && s.agreements[a].status != Completed
  {
    if Funded(s, a) {
      FundedExists(s, a);
      assert AgreementOk(s.books.ledger, s.agreements[a], a);
      RefundSucceeds(s, a);
    }
  }

  lemma PartiesAreMembers(ag: Agreement, user: UserId)
    requires PartiesOk(ag) && ag.status in {Active, Completed}
    ensures Party(ag.participants, Depositor).Some? && Party(ag.participants, Beneficiary).Some?
    ensures MemberIndex(ag.participants, user).Some? <==>
              Some(user) == Party(ag.participants, Depositor) || Some(user) == Party(ag.participants, Beneficiary)
  {
    var ps := ag.participants;
    assert ps[1..] == [ps[1]] && ps[1..][1..] == [];
    if MemberIndex(ps, user).None? {
      assert ps[0] in ps && ps[1] in ps;
    }
  }

  // ------------------------------------------------------- who is paid what

  /** Who may try to fund, and when. */
  predicate MayFund(s: Store, a: nat, user: UserId)
    requires a < |s.agreements|
  {
    s.agreements[a].status == Active && Party(s.agreements[a].participants, Depositor) == Some(user) && !Funded(s, a)
  }

  lemma FundTries(s: Store, a: nat, user: UserId)
    requires EscrowInv(s) && a < |s.agreements|
    ensures var r := ApplyEntry(s.books, LegFor(LockOf(a), user, s.agreements[a].amount, EntryCompleted));
      if !MayFund(s, a, user)
      then Fund(s, a, user).reply.Refused? && !Fund(s, a, user).reply.reason.Money? && Fund(s, a, user).store == s
      else if r.outcome.Failed? then
        Fund(s, a, user) ==
          Res(if user in s.books.wallets then s else s.(books := r.books), Refused(Reason.Money(r.outcome.error)))
      else Fund(s, a, user) == Res(s.(books := r.books), Ok)
  {
    var ag := s.agreements[a];
    assert AgreementOk(s.books.ledger, ag, a);
    if ag.status != Cancelled {
      Parties(ag);
    }
  }

  /** Funding goes through exactly for the depositor of a live, unfunded deal
      with the money available, and then moves that money into their escrow. */
  lemma FundingMoves(s: Store, a: nat, user: UserId)
    requires EscrowInv(s) && a < |s.agreements|
    ensures var amount, r := s.agreements[a].amount, Fund(s, a, user);
      && r.store.agreements == s.agreements
      && (r.reply == Ok <==> MayFund(s, a, user) && Balance(s.books, user, Available) >= amount)
      && (r.reply == Ok ==>
           Moved(s.books, r.store.books, EscrowLock, user, amount) && Has(r.store.books.ledger, LockOf(a)))
      && (r.reply == Refused(Reason.Money(InsufficientFunds)) <==>
           MayFund(s, a, user) && Balance(s.books, user, Available) < amount)
      && (r.reply != Ok ==> SameBalances(s.books, r.store.books) && r.store.books.ledger == s.books.ledger)
  {
    var amount := s.agreements[a].amount;
    FundTries(s, a, user);
    if MayFund(s, a, user) {
      assert AgreementOk(s.books.ledger, s.agreements[a], a);
      FundedByKind(s.books.ledger, a);
      EntryEffect(s.books, LockOf(a), user, amount, EntryCompleted);
      EnsureFacts(s.books, user);
      assert Balance(s.books, user, Available) >= 0 && Balance(s.books, user, Bucket.Escrow) >= 0;
      WhyDebitFails(s.books, LegFor(LockOf(a), user, amount, EntryCompleted));
    }
  }

  /** A release pays the beneficiary out of the depositor's escrow, once. */
  lemma ReleasePays(s: Store, a: nat)
    requires EscrowInv(s) && a < |s.agreements| && Has(s.books.ledger, LockOf(a))
    requires s.agreements[a].status in {Active, Completed}
    ensures GetContext(s, a).Some? && GetContext(s, a).value.depositor != GetContext(s, a).value.beneficiary
    ensures var c, amount := GetContext(s, a).value, s.agreements[a].amount;
      var paid := if s.agreements[a].status == Active then amount else 0;
      var b, b' := s.books, PerformRelease(s, a).store.books;
      forall u: UserId ::
        && Balance(b', u, Available) == Balance(b, u, Available) + (if u == c.beneficiary then paid else 0)
        && Balance(b', u, Bucket.Escrow) == Balance(b, u, Bucket.Escrow) - (if u == c.depositor then paid else 0)
  {
    var ag := s.agreements[a];
    assert AgreementOk(s.books.ledger, ag, a);
    Parties(ag);
    var c := GetContext(s, a).value;
    ReleaseEffect(s.books, a, c.depositor, c.beneficiary, ag.amount);
    HeldIsThere(s, a, c.depositor);
  }

  /** What escrow movements post is complete at once. */
  lemma MovementsAreComplete(s: Store, a: nat, user: UserId)
    ensures Fund(s, a, user).reply == Ok && !Has(s.books.ledger, LockOf(a)) ==>
      MarkedComplete(Fund(s, a, user).store.books, LockOf(a))
    ensures PerformRelease(s, a).reply == Ok && |Group(s.books.ledger, a)| != 2 ==>
      && MarkedComplete(PerformRelease(s, a).store.books, Out(a))
      && MarkedComplete(PerformRelease(s, a).store.books, In(a))
    ensures PerformRefund(s, a).reply == Ok && !Has(s.books.ledger, RefundOf(a)) ==>
      MarkedComplete(PerformRefund(s, a).store.books, RefundOf(a))
  {
  }

  predicate MarkedComplete(b: Books, ref: Ref) {
    ref in b.marks && b.marks[ref] == EntryCompleted
  }

  /** A refund puts the depositor's escrow back where it came from, once. */
  lemma RefundPays(s: Store, a: nat)
    requires EscrowInv(s) && a < |s.agreements| && Has(s.books.ledger, LockOf(a)) && s.agreements[a].status != Completed
    ensures GetContext(s, a).Some?
    ensures var c, amount := GetContext(s, a).value, s.agreements[a].amount;
      var paid := if s.agreements[a].status == Refunded then 0 else amount;
      var b, b' := s.books, PerformRefund(s, a).store.books;
      forall u: UserId ::
        && Balance(b', u, Available) == Balance(b, u, Available) + (if u == c.depositor then paid else 0)
        && Balance(b', u, Bucket.Escrow) == Balance(b, u, Bucket.Escrow) - (if u == c.depositor then paid else 0)
  {
    RefundPosts(s, a);
    var depositor, amount := GetContext(s, a).value.depositor, s.agreements[a].amount;
    EntryMoves(s.books, RefundOf(a), depositor, amount);
    assert Payable(amount) by {
      assert AgreementOk(s.books.ledger, s.agreements[a], a);
    }
  }
}
