// What the agreement lifecycle keeps, over every run of its routes.
module EscrowProofs {
  import opened Wrappers
  import opened Sums
  import opened Money
  import opened Ledger
  import opened Store
  import opened Escrow

  // --------------------------------------------------------------- invariant

  /** A pending deal has its creator alone; a live or settled one has two
      different people in opposite roles. A cancelled one can have anyone. */
  predicate PartiesOk(ag: Agreement) {
    var ps := ag.participants;
    match ag.status
    case Pending => |ps| == 1 && ps[0].membership == Joined && ag.invitation.role == Opposite(ps[0].role)
    case Cancelled => true
    case _ => |ps| == 2 && ps[1].role == Opposite(ps[0].role) && ps[0].user != ps[1].user
  }

  predicate DisputesOk(ag: Agreement) {
    && (forall i, j ::
         0 <= i < |ag.disputes| && 0 <= j < |ag.disputes| && Live(ag.disputes[i]) && Live(ag.disputes[j]) ==> i == j)
    && (forall i :: 0 <= i < |ag.disputes| ==> ag.disputes[i].statusBefore == Active)
    && (ag.status == Disputed ==> HasLive(ag.disputes))
    && (HasLive(ag.disputes) ==> ag.status == Disputed || ag.status == Refunded)
  }

  /** A reason to pay the beneficiary: every condition approved, or a decision for them. */
  predicate Justified(ag: Agreement) {
    (|ag.conditions| > 0 && forall i :: 0 <= i < |ag.conditions| ==> ag.conditions[i] == Approved)
    || exists i :: 0 <= i < |ag.disputes| && ag.disputes[i].status == Resolved(FavourBeneficiary)
  }

  /** Status and ledger agree on one agreement. */
  predicate MoneyAgrees(ledger: seq<Entry>, ag: Agreement, a: nat) {
    && (Has(ledger, Out(a)) <==> ag.status == Completed)
    && (Has(ledger, RefundOf(a)) <==> ag.status == Refunded)
    && (Has(ledger, LockOf(a)) ==> ag.status in {Active, Disputed, Completed, Refunded})
    && (ag.status in {Completed, Refunded} ==> Has(ledger, LockOf(a)))
    && (ag.status == Completed ==> Justified(ag))
    && (Has(ledger, LockOf(a)) ==> var e := Find(ledger, LockOf(a)).value;
          Some(e.user) == Party(ag.participants, Depositor) && e.amount == ag.amount)
  }

  predicate AgreementOk(ledger: seq<Entry>, ag: Agreement, a: nat) {
    Payable(ag.amount) && PartiesOk(ag) && DisputesOk(ag) && MoneyAgrees(ledger, ag, a)
  }

  predicate Untouched(ledger: seq<Entry>, a: nat) {
    !Has(ledger, LockOf(a)) && !Has(ledger, Out(a)) && !Has(ledger, RefundOf(a))
  }

  /** What agreement `a` holds in `user`'s escrow bucket. */
  function Held(s: Store, user: UserId, a: nat): Amount {
    if a < |s.agreements| && Has(s.books.ledger, LockOf(a)) && !Has(s.books.ledger, Out(a))
      && !Has(s.books.ledger, RefundOf(a)) && Party(s.agreements[a].participants, Depositor) == Some(user)
    then s.agreements[a].amount else 0
  }

  ghost function HeldFor(s: Store, user: UserId): Amount {
    SumTo((a: nat) => Held(s, user, a), |s.agreements|)
  }

  /** Escrow attribution: the bucket is exactly the deals it is committed to. */
  ghost predicate Attributed(s: Store) {
    forall u: UserId {:trigger HeldFor(s, u)} :: Balance(s.books, u, Bucket.Escrow) == HeldFor(s, u)
  }

  ghost predicate EscrowInv(s: Store) {
    && GoodBooks(s.books)
    && (forall a: nat :: a < |s.agreements| ==> AgreementOk(s.books.ledger, s.agreements[a], a))
    && (forall a: nat :: a >= |s.agreements| ==> Untouched(s.books.ledger, a))
    && Attributed(s)
  }

  // ------------------------------------------------------------ frame lemmas

  /** The ledger says the same about agreement `a` in both. */
  ghost predicate SameFacts(l: seq<Entry>, l': seq<Entry>, a: nat) {
    && Find(l', LockOf(a)) == Find(l, LockOf(a))
    && (Has(l', Out(a)) <==> Has(l, Out(a)))
    && (Has(l', RefundOf(a)) <==> Has(l, RefundOf(a)))
  }

  /** A step that touches at most agreement `k`: the invariant follows from what
      happened there and from the escrow buckets having moved to match. */
  lemma StepAt(s: Store, s': Store, k: nat)
    requires EscrowInv(s) && GoodBooks(s'.books)
    requires |s'.agreements| == |s.agreements|
    requires forall a: nat :: a != k ==>
        SameFacts(s.books.ledger, s'.books.ledger, a) && (a < |s.agreements| ==> s'.agreements[a] == s.agreements[a])
    requires k < |s.agreements| ==> AgreementOk(s'.books.ledger, s'.agreements[k], k)
    requires k >= |s.agreements| ==> SameFacts(s.books.ledger, s'.books.ledger, k)
    requires forall u: UserId ::
        Balance(s'.books, u, Bucket.Escrow) == Balance(s.books, u, Bucket.Escrow) + Held(s', u, k) - Held(s, u, k)
    ensures EscrowInv(s')
  {
    forall a: nat | a < |s'.agreements| ensures AgreementOk(s'.books.ledger, s'.agreements[a], a) {
      assert a != k ==> SameFacts(s.books.ledger, s'.books.ledger, a);
    }
    forall a: nat | a >= |s'.agreements| ensures Untouched(s'.books.ledger, a) {
      assert SameFacts(s.books.ledger, s'.books.ledger, a);
      assert Untouched(s.books.ledger, a);
    }
    forall u: UserId ensures Balance(s'.books, u, Bucket.Escrow) == HeldFor(s', u) {
      forall a: nat | a != k ensures Held(s', u, a) == Held(s, u, a) {
        assert SameFacts(s.books.ledger, s'.books.ledger, a);
      }
      SumDiffersAt((a: nat) => Held(s, u, a), (a: nat) => Held(s', u, a), |s.agreements|, k);
      assert Balance(s.books, u, Bucket.Escrow) == HeldFor(s, u);
    }
  }

  /** A step whose new entries are all about agreement `a`. */
  lemma MoneyStep(s: Store, s': Store, a: nat)
    requires EscrowInv(s) && GoodBooks(s'.books) && a < |s.agreements|
    requires |s'.agreements| == |s.agreements| && s'.agreements == s.agreements[a := s'.agreements[a]]
    requires forall q: Ref :: AgreementOf(q) != Some(a) ==> Find(s'.books.ledger, q) == Find(s.books.ledger, q)
    requires AgreementOk(s'.books.ledger, s'.agreements[a], a)
    requires forall u: UserId ::
        Balance(s'.books, u, Bucket.Escrow) == Balance(s.books, u, Bucket.Escrow) + Held(s', u, a) - Held(s, u, a)
    ensures EscrowInv(s')
  {
    forall i: nat | i != a ensures SameFacts(s.books.ledger, s'.books.ledger, i) {
      assert AgreementOf(LockOf(i)) == Some(i) && AgreementOf(Out(i)) == Some(i) && AgreementOf(RefundOf(i)) == Some(i);
    }
    StepAt(s, s', a);
  }

  /** A step that moves no money and keeps the depositor of a funded deal. */
  lemma PaperStep(s: Store, a: nat, ag: Agreement)
    requires EscrowInv(s) && a < |s.agreements|
    requires AgreementOk(s.books.ledger, ag, a) && ag.amount == s.agreements[a].amount
    ensures EscrowInv(Put(s, a, ag))
  {
    assert AgreementOk(s.books.ledger, s.agreements[a], a);
    StepAt(s, Put(s, a, ag), a);
  }

  /** A deal's held amount is within its depositor's escrow bucket. */
  lemma HeldIsThere(s: Store, a: nat, user: UserId)
    requires EscrowInv(s)
    ensures Held(s, user, a) <= Balance(s.books, user, Bucket.Escrow)
  {
    forall i: nat | i < |s.agreements| ensures Held(s, user, i) >= 0 {
      assert AgreementOk(s.books.ledger, s.agreements[i], i);
    }
    TermAtMostSum((i: nat) => Held(s, user, i), |s.agreements|, a);
    assert Balance(s.books, user, Bucket.Escrow) == HeldFor(s, user);
  }

  // -------------------------------------------------------- money handlers

  /** With both parties known, the depositor is one of two different people. */
  lemma Parties(ag: Agreement)
    requires PartiesOk(ag) && ag.status != Cancelled
    ensures ag.status != Pending ==>
      && Party(ag.participants, Depositor).Some? && Party(ag.participants, Beneficiary).Some?
      && Party(ag.participants, Depositor) != Party(ag.participants, Beneficiary)
    ensures ag.status == Pending ==>
        Party(ag.participants, Depositor).None? || Party(ag.participants, Beneficiary).None?
  {
    var ps := ag.participants;
    if ag.status == Pending {
      assert ps[1..] == [];
    } else {
      assert ps[1..] == [ps[1]] && ps[1..][1..] == [];
    }
  }

  /** Funding writes nothing unless its caller is the depositor of an open,
      unfunded deal; and then no more than its one movement writes. */
  lemma FundShape(s: Store, a: nat, user: UserId)
    ensures Fund(s, a, user).store == s
      || (&& a < |s.agreements| && GetContext(s, a).Some? && GetContext(s, a).value.depositor == user
          && s.agreements[a].status !in {Cancelled, Completed, Refunded, Disputed} && !Funded(s, a)
          && Fund(s, a, user).store == s.(books :=
              ApplyEntry(s.books, LegFor(LockOf(a), user, s.agreements[a].amount, EntryCompleted)).books))
  {
  }

  /** An active deal agrees with a ledger that only gained its lock. */
  lemma LockedAgrees(l: seq<Entry>, l': seq<Entry>, ag: Agreement, a: nat)
    requires AgreementOk(l, ag, a) && ag.status == Active
    requires forall q: Ref :: q != LockOf(a) ==> Find(l', q) == Find(l, q)
    requires Has(l', LockOf(a)) ==>
      var e := Find(l', LockOf(a)).value; Some(e.user) == Party(ag.participants, Depositor) && e.amount == ag.amount
    ensures AgreementOk(l', ag, a)
  {
  }

  /** The lock puts in the escrow bucket what the deal then holds. */
  lemma LockIsHeld(s: Store, b': Books, a: nat, user: UserId)
    requires a < |s.agreements| && Party(s.agreements[a].participants, Depositor) == Some(user)
    requires !Has(s.books.ledger, LockOf(a)) && !Has(b'.ledger, Out(a)) && !Has(b'.ledger, RefundOf(a))
    requires if Has(b'.ledger, LockOf(a)) then Moved(s.books, b', EscrowLock, user, s.agreements[a].amount)
             else SameBalances(s.books, b')
    ensures forall u: UserId :: Balance(b', u, Bucket.Escrow) ==
              Balance(s.books, u, Bucket.Escrow) + Held(s.(books := b'), u, a) - Held(s, u, a)
  {
  }

  lemma FundKeeps(s: Store, a: nat, user: UserId)
    requires EscrowInv(s)
    ensures EscrowInv(Fund(s, a, user).store)
  {
    FundShape(s, a, user);
    if Fund(s, a, user).store != s {
      var ag := s.agreements[a];
      var b' := ApplyEntry(s.books, LegFor(LockOf(a), user, ag.amount, EntryCompleted)).books;
      assert AgreementOk(s.books.ledger, ag, a);
      Parties(ag);
      assert ag.status.Active?;
      FundedByKind(s.books.ledger, a);
      EntryEffect(s.books, LockOf(a), user, ag.amount, EntryCompleted);
      LockedAgrees(s.books.ledger, b'.ledger, ag, a);
      LockIsHeld(s, b', a, user);
      MoneyStep(s, s.(books := b'), a);
    }
  }

  /** What a settlement does to the store, the agreement's new status included:
      its own entries appear, and the escrow leaves the depositor's bucket once. */
  ghost predicate Settled(s: Store, s': Store, a: nat, status: AgreementStatus, from: UserId)
    requires a < |s.agreements|
  {
    && s'.agreements == s.agreements[a := s.agreements[a].(status := status)]
    && s'.payments == s.payments
    && GoodBooks(s'.books)
    && (forall q: Ref :: q !in {Out(a), In(a), RefundOf(a)} ==> Find(s'.books.ledger, q) == Find(s.books.ledger, q))
    && (Has(s'.books.ledger, Out(a)) <==> status == Completed)
    && (Has(s'.books.ledger, RefundOf(a)) <==> status == Refunded)
    && (s.agreements[a].status == status ==> s'.books == s.books)
    && (s.agreements[a].status != status ==> forall u: UserId ::
          Balance(s'.books, u, Bucket.Escrow) == Balance(s.books, u, Bucket.Escrow)
            - (if u == from then s.agreements[a].amount else 0))
  }

  /** A permitted release cannot fail: the escrow it needs is there. */
  lemma ReleaseSucceeds(s: Store, a: nat)
    requires EscrowInv(s) && Has(s.books.ledger, LockOf(a)) && a < |s.agreements|
    ensures PerformRelease(s, a).reply == Ok <==> s.agreements[a].status in {Active, Completed}
    ensures if s.agreements[a].status in {Active, Completed}
            then GetContext(s, a).Some?
                 && Settled(s, PerformRelease(s, a).store, a, Completed, GetContext(s, a).value.depositor)
            else PerformRelease(s, a).store == s
  {
    var ag := s.agreements[a];
    assert AgreementOk(s.books.ledger, ag, a);
    Parties(ag);
    var c := GetContext(s, a).value;
    ReleaseEffect(s.books, a, c.depositor, c.beneficiary, ag.amount);
    HeldIsThere(s, a, c.depositor);
  }

  /** A permitted refund cannot fail either. */
  lemma RefundPosts(s: Store, a: nat)
    requires EscrowInv(s) && Has(s.books.ledger, LockOf(a)) && a < |s.agreements|
    requires s.agreements[a].status != Completed
    ensures GetContext(s, a).Some?
    ensures var r := ApplyEntry(s.books,
        LegFor(RefundOf(a), GetContext(s, a).value.depositor, s.agreements[a].amount, EntryCompleted));
      && !r.outcome.Failed?
      && (r.outcome.Replayed? <==> s.agreements[a].status == Refunded)
      && PerformRefund(s, a) == Res(SetStatus(s, a, Refunded).(books := r.books), Ok)
  {
    var ag := s.agreements[a];
    assert AgreementOk(s.books.ledger, ag, a);
    Parties(ag);
    var c := GetContext(s, a).value;
    EntryOutcome(s.books, RefundOf(a), c.depositor, ag.amount, EntryCompleted);
    HeldIsThere(s, a, c.depositor);
    assert Balance(s.books, c.depositor, Available) >= 0;
  }

  /** A refund's books settle its deal. */
  lemma RefundSettles(s: Store, a: nat, from: UserId, b': Books)
    requires a < |s.agreements| && !Has(s.books.ledger, Out(a)) && s.agreements[a].amount > 0
    requires GoodBooks(b') && Has(b'.ledger, RefundOf(a))
    requires forall q: Ref :: q != RefundOf(a) ==> Find(b'.ledger, q) == Find(s.books.ledger, q)
    requires if s.agreements[a].status == Refunded then b' == s.books
             else Moved(s.books, b', EscrowRefund, from, s.agreements[a].amount)
    ensures Settled(s, SetStatus(s, a, Refunded).(books := b'), a, Refunded, from)
  {
  }

  lemma RefundSucceeds(s: Store, a: nat)
    requires EscrowInv(s) && Has(s.books.ledger, LockOf(a)) && a < |s.agreements|
    ensures PerformRefund(s, a).reply == Ok <==> s.agreements[a].status != Completed
    ensures if s.agreements[a].status != Completed
            then GetContext(s, a).Some?
                 && Settled(s, PerformRefund(s, a).store, a, Refunded, GetContext(s, a).value.depositor)
            else PerformRefund(s, a).store == s
  {
    var ag := s.agreements[a];
    assert AgreementOk(s.books.ledger, ag, a);
    if ag.status == Completed {
      Parties(ag);
    } else {
      RefundPosts(s, a);
      var depositor := GetContext(s, a).value.depositor;
      EntryEffect(s.books, RefundOf(a), depositor, ag.amount, EntryCompleted);
      RefundSettles(s, a, depositor,
        ApplyEntry(s.books, LegFor(RefundOf(a), depositor, ag.amount, EntryCompleted)).books);
    }
  }

  /** A funded deal settled by a release or by a refund is still in order. */
  lemma SettledOk(l: seq<Entry>, l': seq<Entry>, ag: Agreement, a: nat, status: AgreementStatus)
    requires AgreementOk(l, ag, a) && Has(l, LockOf(a)) && Find(l', LockOf(a)) == Find(l, LockOf(a))
    requires status == Completed || status == Refunded
    requires ag.status in (if status == Completed then {Active, Completed} else {Active, Disputed, Refunded})
    requires status == Completed ==> Justified(ag)
    requires Has(l', Out(a)) <==> status == Completed
    requires Has(l', RefundOf(a)) <==> status == Refunded
    ensures AgreementOk(l', ag.(status := status), a)
  {
    var ag' := ag.(status := status);
    assert PartiesOk(ag') && DisputesOk(ag');
  }

  lemma SettlementKeeps(s: Store, s': Store, a: nat, status: AgreementStatus, from: UserId)
    requires EscrowInv(s) && a < |s.agreements| && Has(s.books.ledger, LockOf(a))
    requires status == Completed || status == Refunded
    requires s.agreements[a].status in (if status == Completed then {Active, Completed}
        else {Active, Disputed, Refunded})
    requires status == Completed ==> Justified(s.agreements[a])
    requires Party(s.agreements[a].participants, Depositor) == Some(from)
    requires Settled(s, s', a, status, from)
    ensures EscrowInv(s')
  {
    var ag := s.agreements[a];
    assert AgreementOk(s.books.ledger, ag, a);
    SettledOk(s.books.ledger, s'.books.ledger, ag, a, status);
    assert Find(s'.books.ledger, LockOf(a)) == Find(s.books.ledger, LockOf(a));
    MoneyStep(s, s', a);
  }

  lemma ReleaseKeeps(s: Store, a: nat)
    requires EscrowInv(s) && Has(s.books.ledger, LockOf(a)) && a < |s.agreements|
    requires s.agreements[a].status == Active ==> Justified(s.agreements[a])
    ensures EscrowInv(PerformRelease(s, a).store)
  {
    ReleaseSucceeds(s, a);
    if s.agreements[a].status in {Active, Completed} {
      assert AgreementOk(s.books.ledger, s.agreements[a], a);
      SettlementKeeps(s, PerformRelease(s, a).store, a, Completed, GetContext(s, a).value.depositor);
    }
  }

  lemma RefundKeeps(s: Store, a: nat)
    requires EscrowInv(s) && Has(s.books.ledger, LockOf(a)) && a < |s.agreements|
    ensures EscrowInv(PerformRefund(s, a).store)
  {
    RefundSucceeds(s, a);
    if s.agreements[a].status != Completed {
      assert AgreementOk(s.books.ledger, s.agreements[a], a);
      SettlementKeeps(s, PerformRefund(s, a).store, a, Refunded, GetContext(s, a).value.depositor);
    }
  }

  // -------------------------------------------------------- every handler

  lemma CreateKeeps(s: Store, user: UserId, email: nat, invitee: nat, role: Role, amount: Amount, n: nat)
    requires EscrowInv(s)
    ensures EscrowInv(Create(s, user, email, invitee, role, amount, n).store)
  {
    var s' := Create(s, user, email, invitee, role, amount, n).store;
    if s' != s {
      var k := |s.agreements|;
      assert Untouched(s.books.ledger, k);
      forall a: nat | a < |s'.agreements| ensures AgreementOk(s'.books.ledger, s'.agreements[a], a) {
        if a < k {
          assert AgreementOk(s.books.ledger, s.agreements[a], a);
        }
      }
      forall u: UserId ensures Balance(s'.books, u, Bucket.Escrow) == HeldFor(s', u) {
        SumDiffersAt((a: nat) => Held(s, u, a), (a: nat) => Held(s', u, a), k, k);
        assert HeldFor(s', u) == HeldFor(s, u) + Held(s', u, k);
      }
    }
  }

  /** Joining and declining, the two ways an invitation is answered. */
  lemma AcceptKeeps(s: Store, a: nat, user: UserId, email: nat)
    requires EscrowInv(s)
    ensures EscrowInv(Accept(s, a, user, email).store)
  {
    var s' := Accept(s, a, user, email).store;
    if s' != s {
      var ag := s.agreements[a];
      assert AgreementOk(s.books.ledger, ag, a);
      var ps := WithMember(ag.participants, user, ag.invitation.role, Joined);
      assert ag.participants == [ag.participants[0]];
      assert ps == ag.participants + [Participant(user, ag.invitation.role, Joined)];
      assert ps[1..] == [ps[1]] && ps[1..][1..] == [];
      assert ps[0].membership == Joined && JoinedCount(ps[1..]) == 1;
      PaperStep(s, a, s'.agreements[a]);
    }
  }

  lemma RejectKeeps(s: Store, a: nat, user: UserId, email: nat)
    requires EscrowInv(s)
    ensures EscrowInv(Reject(s, a, user, email).store)
  {
    var s' := Reject(s, a, user, email).store;
    FundedByKind(s.books.ledger, a);
    if s' != s {
      assert AgreementOk(s.books.ledger, s.agreements[a], a);
      PaperStep(s, a, s'.agreements[a]);
    }
  }

  lemma CancelKeeps(s: Store, a: nat, user: UserId)
    requires EscrowInv(s)
    ensures EscrowInv(Cancel(s, a, user).store)
  {
    var s' := Cancel(s, a, user).store;
    FundedByKind(s.books.ledger, a);
    if s' != s {
      assert AgreementOk(s.books.ledger, s.agreements[a], a);
      PaperStep(s, a, s'.agreements[a]);
    }
  }

  /** Conditions change only where no release depends on them any more. */
  lemma ConditionsKeep(s: Store, a: nat, conditions: seq<ConditionStatus>)
    requires EscrowInv(s) && a < |s.agreements| && s.agreements[a].status != Completed
    ensures EscrowInv(Put(s, a, s.agreements[a].(conditions := conditions)))
  {
    assert AgreementOk(s.books.ledger, s.agreements[a], a);
    PaperStep(s, a, s.agreements[a].(conditions := conditions));
  }

  lemma ApproveKeeps(s: Store, a: nat, c: nat, user: UserId)
    requires EscrowInv(s)
    ensures EscrowInv(ApproveCondition(s, a, c, user).store)
  {
    if MayDecide(s, a, c, user) == Ok {
      var s1 := Decide(s, a, c, Approved);
      ConditionsKeep(s, a, s.agreements[a].conditions[c := Approved]);
      FundedByKind(s1.books.ledger, a);
      ApprovedMeans(s1.agreements[a].conditions);
      if ReleaseIfReady(s1, a) != s1 {
        ReleaseKeeps(s1, a);
      }
    }
  }

  lemma RaiseKeeps(s: Store, a: nat, user: UserId)
    requires EscrowInv(s)
    ensures EscrowInv(RaiseDispute(s, a, user).store)
  {
    var s' := RaiseDispute(s, a, user).store;
    if s' != s {
      var ag, ag' := s.agreements[a], s'.agreements[a];
      assert AgreementOk(s.books.ledger, ag, a);
      assert Live(ag'.disputes[|ag.disputes|]);
      PaperStep(s, a, ag');
    }
  }

  lemma ReviewKeeps(s: Store, a: nat, d: nat)
    requires EscrowInv(s)
    ensures EscrowInv(Review(s, a, d).store)
  {
    var s' := Review(s, a, d).store;
    if s' != s {
      var ag, ag' := s.agreements[a], s'.agreements[a];
      assert AgreementOk(s.books.ledger, ag, a);
      assert Live(ag.disputes[d]) && Live(ag'.disputes[d]);
      assert DisputesOk(ag');
      PaperStep(s, a, ag');
    }
  }

  /** Closing the one live dispute: nothing stays live, and a frozen deal is active again. */
  lemma DecisionKeeps(s: Store, a: nat, d: nat, decision: Decision)
    requires EscrowInv(s) && a < |s.agreements| && d < |s.agreements[a].disputes| && Live(s.agreements[a].disputes[d])
    ensures EscrowInv(RecordDecision(s, a, d, decision))
    ensures var ag' := RecordDecision(s, a, d, decision).agreements[a];
      && !HasLive(ag'.disputes)
      && s.agreements[a].status in {Disputed, Refunded}
      && ag'.status == (if s.agreements[a].status == Disputed then Active else Refunded)
  {
    var ag := s.agreements[a];
    var ag' := RecordDecision(s, a, d, decision).agreements[a];
    assert AgreementOk(s.books.ledger, ag, a);
    assert HasLive(ag.disputes);
    PaperStep(s, a, ag');
  }

  lemma ResolveKeeps(s: Store, a: nat, d: nat, decision: Decision)
    requires EscrowInv(s)
    ensures EscrowInv(ResolveDispute(s, a, d, decision).store)
  {
    if a < |s.agreements| && d < |s.agreements[a].disputes| && Live(s.agreements[a].disputes[d]) {
      DecisionKeeps(s, a, d, decision);
      var s1 := RecordDecision(s, a, d, decision);
      FundedByKind(s1.books.ledger, a);
      if Funded(s1, a) && !Released(s1, a) {
        if decision == FavourBeneficiary {
          assert s1.agreements[a].disputes[d].status == Resolved(FavourBeneficiary);
          ReleaseKeeps(s1, a);
        } else if decision == FavourDepositor {
          RefundKeeps(s1, a);
        }
      }
    }
  }

  /** Every route keeps the whole invariant. */
  lemma StepKeepsEscrow(s: Store, action: Action)
    requires EscrowInv(s)
    ensures EscrowInv(Step(s, action).store)
  {
    match action
    case DoCreate(user, email, invitee, role, amount, n) => CreateKeeps(s, user, email, invitee, role, amount, n);
    case DoAccept(a, user, email) => AcceptKeeps(s, a, user, email);
    case DoReject(a, user, email) => RejectKeeps(s, a, user, email);
    case DoCancel(a, user) => CancelKeeps(s, a, user);
    case DoFund(a, user) => FundKeeps(s, a, user);
    case DoRelease(a, user) => ReleaseRouteKeeps(s, a, user);
    case DoRefund(a) => RefundRouteKeeps(s, a);
    case DoAddCondition(a, user, named) => AddKeeps(s, a, user, named);
    case DoApprove(a, c, user) => ApproveKeeps(s, a, c, user);
    case DoRejectCondition(a, c, user) => RejectConditionKeeps(s, a, c, user);
    case DoRaise(a, user) => RaiseKeeps(s, a, user);
    case DoReview(a, d) => ReviewKeeps(s, a, d);
    case DoResolve(a, d, decision) => ResolveKeeps(s, a, d, decision);
  }

  lemma AddKeeps(s: Store, a: nat, user: UserId, named: bool)
    requires EscrowInv(s)
    ensures EscrowInv(AddCondition(s, a, user, named).store)
  {
    if a < |s.agreements| && s.agreements[a].status == Pending {
      ConditionsKeep(s, a, s.agreements[a].conditions + [Outstanding]);
    }
  }

  lemma RejectConditionKeeps(s: Store, a: nat, c: nat, user: UserId)
    requires EscrowInv(s)
    ensures EscrowInv(RejectCondition(s, a, c, user).store)
  {
    if MayDecide(s, a, c, user) == Ok {
      ConditionsKeep(s, a, s.agreements[a].conditions[c := Rejected]);
    }
  }

  lemma ReleaseRouteKeeps(s: Store, a: nat, user: UserId)
    requires EscrowInv(s)
    ensures EscrowInv(Release(s, a, user).store)
  {
    FundedByKind(s.books.ledger, a);
    if GetContext(s, a).Some? && Funded(s, a) && AllApproved(s.agreements[a].conditions) {
      ApprovedMeans(s.agreements[a].conditions);
      ReleaseKeeps(s, a);
    }
  }

  lemma RefundRouteKeeps(s: Store, a: nat)
    requires EscrowInv(s)
    ensures EscrowInv(Refund(s, a).store)
  {
    FundedByKind(s.books.ledger, a);
    if Funded(s, a) {
      assert a >= |s.agreements| ==> Untouched(s.books.ledger, a);
      RefundKeeps(s, a);
    }
  }
}
