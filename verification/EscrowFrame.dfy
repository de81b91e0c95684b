// What the agreement lifecycle leaves alone: payments, every entry that is not
// about an agreement, and the money that has crossed the system's boundary.
module EscrowFrame {
  import opened Wrappers
  import opened Money
  import opened Ledger
  import opened Store
  import opened Escrow

  /** Nothing new crossed the boundary, and no entry that is not about an
      agreement appeared, changed or was marked differently. */
  ghost predicate SameOutside(b: Books, b': Books) {
    && Flow(b'.ledger) == Flow(b.ledger)
    && (forall q: Ref :: AgreementOf(q) == None ==> Find(b'.ledger, q) == Find(b.ledger, q))
    && (forall q: Ref :: AgreementOf(q) == None ==>
         (q in b'.marks <==> q in b.marks) && (q in b.marks ==> b'.marks[q] == b.marks[q]))
    && (forall u :: u in b.wallets ==> u in b'.wallets)
  }

  /** A change of the books that only moves money already inside. */
  ghost predicate Internal(b: Books, b': Books) {
    SameOutside(b, b') && (Conserved(b) ==> Conserved(b'))
  }

  /** Internal changes change no total: locks, releases and refunds move money
      between buckets and wallets and neither make nor lose any. */
  lemma InternalKeepsTotal(b: Books, b': Books, users: nat)
    requires Internal(b, b') && Conserved(b) && Bounded(b, users) && Bounded(b', users)
    ensures Total(b', users) == Total(b, users)
  {
    assert Total(b, users) == Flow(b.ledger);
    assert Total(b', users) == Flow(b'.ledger);
  }

  lemma EnsureInternal(b: Books, user: UserId)
    ensures Internal(b, Ensure(b, user))
  {
    if Conserved(b) {
      EnsureConserves(b, user);
    }
  }

  lemma PostOutside(b: Books, leg: Leg)
    requires leg.user in b.wallets && PostLeg(b, leg).Success? && AgreementOf(leg.ref).Some?
    requires leg.kind in {EscrowLock, EscrowReleaseOut, EscrowReleaseIn, EscrowRefund}
    ensures SameOutside(b, PostLeg(b, leg).value)
  {
    PostedFacts(b, leg);
    assert Init(PostLeg(b, leg).value.ledger) == b.ledger;
  }

  lemma EntryInternal(b: Books, ref: Ref, user: UserId, amount: Amount)
    requires AgreementOf(ref).Some? && GroupOf(ref).None?
    ensures Internal(b, ApplyEntry(b, LegFor(ref, user, amount, EntryCompleted)).books)
  {
    var leg := LegFor(ref, user, amount, EntryCompleted);
    EnsureInternal(b, user);
    if Conserved(b) {
      EntryConserves(b, leg);
    }
    if Find(b.ledger, ref).None? && PostLeg(Ensure(b, user), leg).Success? {
      PostOutside(Ensure(b, user), leg);
    }
  }

  lemma PairOutside(b: Books, debit: Leg, credit: Leg)
    requires debit.user in b.wallets && credit.user in b.wallets && PostTransfer(b, debit, credit).Success?
    requires debit.kind == EscrowReleaseOut && credit.kind == EscrowReleaseIn
    requires AgreementOf(debit.ref).Some? && AgreementOf(credit.ref).Some?
    ensures SameOutside(b, PostTransfer(b, debit, credit).value)
  {
    PostOutside(b, debit);
    PostOutside(PostLeg(b, debit).value, credit);
  }

  lemma ReleaseInternal(b: Books, a: nat, from: UserId, to: UserId, amount: Amount)
    ensures Internal(b, ApplyTransfer(b, a, LegFor(Out(a), from, amount, EntryCompleted),
        LegFor(In(a), to, amount, EntryCompleted)).books)
  {
    var debit, credit := LegFor(Out(a), from, amount, EntryCompleted), LegFor(In(a), to, amount, EntryCompleted);
    var b2 := Ensure(Ensure(b, from), to);
    EnsureInternal(b, from);
    EnsureInternal(Ensure(b, from), to);
    if Conserved(b) {
      TransferConserves(b, a, debit, credit);
    }
    if PostTransfer(b2, debit, credit).Success? {
      PairOutside(b2, debit, credit);
    }
  }

  lemma PerformReleaseIsInternal(s: Store, a: nat)
    ensures PerformRelease(s, a).store.payments == s.payments && Internal(s.books, PerformRelease(s, a).store.books)
  {
    match GetContext(s, a)
    case None =>
    case Some(c) => ReleaseInternal(s.books, a, c.depositor, c.beneficiary, s.agreements[a].amount);
  }

  lemma PerformRefundIsInternal(s: Store, a: nat)
    ensures PerformRefund(s, a).store.payments == s.payments && Internal(s.books, PerformRefund(s, a).store.books)
  {
    match GetContext(s, a)
    case None =>
    case Some(c) => EntryInternal(s.books, RefundOf(a), c.depositor, s.agreements[a].amount);
  }

  lemma FundIsInternal(s: Store, a: nat, user: UserId)
    ensures Fund(s, a, user).store.payments == s.payments && Internal(s.books, Fund(s, a, user).store.books)
  {
    match GetContext(s, a)
    case None =>
    case Some(c) => EntryInternal(s.books, LockOf(a), user, s.agreements[a].amount);
  }

  /** What a resolution commits: nothing, the decision, or the decision and one
      of the two settlements. */
  lemma ResolveShape(s: Store, a: nat, d: nat, decision: Decision)
    ensures var s' := ResolveDispute(s, a, d, decision).store;
      || s' == s
      || (&& a < |s.agreements| && d < |s.agreements[a].disputes|
          && var s1 := RecordDecision(s, a, d, decision);
             s' == s1 || s' == PerformRelease(s1, a).store || s' == PerformRefund(s1, a).store)
  {
  }

  lemma ResolveIsInternal(s: Store, a: nat, d: nat, decision: Decision)
    ensures ResolveDispute(s, a, d, decision).store.payments == s.payments
    ensures Internal(s.books, ResolveDispute(s, a, d, decision).store.books)
  {
    ResolveShape(s, a, d, decision);
    if a < |s.agreements| && d < |s.agreements[a].disputes| {
      PerformReleaseIsInternal(RecordDecision(s, a, d, decision), a);
      PerformRefundIsInternal(RecordDecision(s, a, d, decision), a);
    }
  }

  /** Every route keeps the payments and moves money only inside the system. */
  lemma StepIsInternal(s: Store, action: Action)
    ensures Step(s, action).store.payments == s.payments
    ensures Internal(s.books, Step(s, action).store.books)
  {
    match action
    case DoFund(a, user) => FundIsInternal(s, a, user);
    case DoRelease(a, _) => PerformReleaseIsInternal(s, a);
    case DoRefund(a) => PerformRefundIsInternal(s, a);
    case DoApprove(a, c, user) =>
      if MayDecide(s, a, c, user) == Ok {
        PerformReleaseIsInternal(Decide(s, a, c, Approved), a);
      }
    case DoResolve(a, d, decision) => ResolveIsInternal(s, a, d, decision);
    case _ => assert Step(s, action).store.books == s.books;
  }
}
