// The whole system: agreements, payments and an honest provider, moving in any
// order for any number of steps from an empty database.
module SystemRuns {
  import opened Wrappers
  import opened Sums
  import opened Money
  import opened Ledger
  import opened Store
  import opened Escrow
  import opened EscrowProofs
  import opened EscrowTheorems
  import opened EscrowFrame
  import opened Payments
  import opened PaymentProofs
  import opened Solvency

  datatype Move =
    | Life(action: Action)
    | Pay(payment: PayAction)
    | OpenWallet(user: UserId)   // a balance read creates the wallet on a miss

  function Next(w: World, move: Move): World
    requires |w.wires| == |w.store.payments|
  {
    match move
    case Life(action) => w.(store := Escrow.Step(w.store, action).store)
    case Pay(payment) => PayStep(w, payment)
    case OpenWallet(user) => w.(store := w.store.(books := Ensure(w.store.books, user)))
  }

  predicate HonestMove(w: World, move: Move)
    requires |w.wires| == |w.store.payments|
  {
    move.Pay? ==> Honest(w, move.payment)
  }

  ghost predicate SystemInv(w: World) {
    PaymentInv(w) && EscrowInv(w.store)
  }

  // ------------------------------------- the two halves leave each other alone

  /** Nothing an agreement depends on is different. */
  ghost predicate SameDeals(b: Books, b': Books) {
    && (forall q: Ref :: AgreementOf(q).Some? ==> Find(b'.ledger, q) == Find(b.ledger, q))
    && (forall u: UserId :: Balance(b', u, Bucket.Escrow) == Balance(b, u, Bucket.Escrow))
  }

  /** One more entry, not about any agreement, and no escrow bucket moved. */
  lemma AddedSameDeals(b: Books, b': Books, ref: Ref, e: Entry, kind: Kind, user: UserId, amount: Amount)
    requires AgreementOf(ref).None? && Index(b'.ledger) == Index(b.ledger)[ref := e]
    requires kind in {Deposit, Withdrawal, WithdrawalReversal} && Moved(b, b', kind, user, amount)
    ensures SameDeals(b, b')
  {
    assert Delta(kind, Bucket.Escrow, amount) == 0;
    forall q: Ref | AgreementOf(q).Some? ensures Find(b'.ledger, q) == Find(b.ledger, q) {
      assert q != ref;
    }
  }

  lemma PostSameDeals(b: Books, leg: Leg)
    requires leg.user in b.wallets && PostLeg(b, leg).Success?
    requires AgreementOf(leg.ref).None? && leg.kind in {Deposit, Withdrawal, WithdrawalReversal}
    ensures SameDeals(b, PostLeg(b, leg).value)
  {
    var b' := PostLeg(b, leg).value;
    PostMoves(b, leg);
    AddedSameDeals(b, b', leg.ref, Last(b'.ledger), leg.kind, leg.user, leg.amount);
  }

  lemma EnsureSameDeals(b: Books, user: UserId)
    ensures SameDeals(b, Ensure(b, user))
  {
  }

  lemma EntrySameDeals(b: Books, ref: Ref, user: UserId, amount: Amount, status: EntryStatus)
    requires ref.DepositOf? || ref.WithdrawalOf? || ref.ReversalOf?
    ensures SameDeals(b, ApplyEntry(b, LegFor(ref, user, amount, status)).books)
  {
    var leg := LegFor(ref, user, amount, status);
    EnsureSameDeals(b, user);
    if Find(b.ledger, ref).None? && PostLeg(Ensure(b, user), leg).Success? {
      PostSameDeals(Ensure(b, user), leg);
    }
  }

  lemma MarkSameDeals(b: Books, p: nat, status: EntryStatus)
    requires GoodBooks(b)
    ensures SameDeals(b, Mark(b, WithdrawalOf(p), status)) && GoodBooks(Mark(b, WithdrawalOf(p), status))
  {
    MarkFacts(b, p, status);
  }

  lemma UndoSameDeals(s: Store, p: nat, final: PaymentStatus, amount: Amount)
    requires GoodBooks(s.books) && p < |s.payments|
    ensures var r := ApplyEntry(MarkedTx(s, p, final, EntryReversed).books,
        LegFor(ReversalOf(p), s.payments[p].user, amount, EntryCompleted));
      SameDeals(s.books, r.books)
    ensures SameDeals(s.books, MarkedTx(s, p, final, EntryReversed).books)
  {
    MarkSameDeals(s.books, p, EntryReversed);
    EntrySameDeals(Mark(s.books, WithdrawalOf(p), EntryReversed), ReversalOf(p), s.payments[p].user, amount,
      EntryCompleted);
  }

  ghost predicate DealsKept(s: Store, s': Store) {
    s'.agreements == s.agreements && SameDeals(s.books, s'.books)
  }

  lemma ReverseDeals(s: Store, p: nat)
    requires GoodBooks(s.books) && p < |s.payments|
    ensures DealsKept(s, ReverseWithdrawal(s, p))
  {
    UndoSameDeals(s, p, PaymentFailed, s.payments[p].amount);
  }

  lemma UndoneDeals(s: Store, p: nat, final: PaymentStatus)
    requires GoodBooks(s.books)
    ensures DealsKept(s, TransferUndone(s, p, final).store)
  {
    if p < |s.payments| && Has(s.books.ledger, WithdrawalOf(p)) {
      UndoSameDeals(s, p, final, Find(s.books.ledger, WithdrawalOf(p)).value.amount);
    }
  }

  lemma ChargeDeals(s: Store, p: nat, answer: ChargeReply, naira: Option<bool>)
    requires GoodBooks(s.books)
    ensures DealsKept(s, ChargeSuccess(s, p, answer, naira).store)
  {
    if p < |s.payments| && answer.ChargeSays? && answer.kobo.Some? {
      EntrySameDeals(s.books, DepositOf(p), s.payments[p].user, FromKobo(answer.kobo.value), EntryCompleted);
    }
  }

  lemma WithdrawDeals(s: Store, user: UserId, amount: Amount, gate: Gate)
    requires GoodBooks(s.books)
    ensures DealsKept(s, RequestWithdrawal(s, user, amount, gate).store)
  {
    EntrySameDeals(s.books, WithdrawalOf(|s.payments|), user, amount, EntryPending);
  }

  lemma MarkedDeals(s: Store, p: nat)
    requires GoodBooks(s.books) && p < |s.payments|
    ensures DealsKept(s, MarkedTx(s, p, PaymentSuccess, EntryCompleted))
  {
    MarkSameDeals(s.books, p, EntryCompleted);
  }

  lemma SentDeals(w: World, p: nat, outcome: SendOutcome)
    requires GoodBooks(w.store.books) && |w.wires| == |w.store.payments|
    ensures DealsKept(w.store, PayStep(w, TransferSent(p, outcome)).store)
  {
    if p < |w.wires| {
      ReverseDeals(w.store, p);
    }
  }

  lemma PolledDeals(s: Store, p: nat, user: UserId, reply: TransferReply)
    requires GoodBooks(s.books)
    ensures DealsKept(s, Poll(s, p, user, reply))
  {
    if p < |s.payments| {
      MarkedDeals(s, p);
      ReverseDeals(s, p);
    }
  }

  /** No payment step, by an honest provider or not, touches a deal or the escrow
      bucket of anyone. */
  lemma PayStepKeepsDeals(w: World, action: PayAction)
    requires GoodBooks(w.store.books) && |w.wires| == |w.store.payments|
    ensures DealsKept(w.store, PayStep(w, action).store)
  {
    match action
    case ChargeEvent(p, answer, naira) => ChargeDeals(w.store, p, answer, naira);
    case WithdrawRequested(user, amount, gate) => WithdrawDeals(w.store, user, amount, gate);
    case TransferSent(p, outcome) => SentDeals(w, p, outcome);
    case SuccessEvent(p, reply) => if p < |w.wires| { MarkedDeals(w.store, p); }
    case FailedEvent(p) => UndoneDeals(w.store, p, PaymentFailed);
    case ReversedEvent(p) => UndoneDeals(w.store, p, PaymentRefunded);
    case Polled(p, user, reply) => PolledDeals(w.store, p, user, reply);
    case _ =>
  }

  /** Escrow attribution survives anything that leaves deals and escrow buckets alone. */
  lemma DealsKeepEscrow(s: Store, s': Store)
    requires EscrowInv(s) && DealsKept(s, s') && GoodBooks(s'.books)
    ensures EscrowInv(s')
  {
    forall a: nat ensures SameFacts(s.books.ledger, s'.books.ledger, a) {
      assert AgreementOf(LockOf(a)).Some? && AgreementOf(Out(a)).Some? && AgreementOf(RefundOf(a)).Some?;
    }
    StepAt(s, s', |s.agreements|);
  }

  /** Payment accounting survives anything internal. */
  lemma InternalKeepsPayments(w: World, s': Store)
    requires PaymentInv(w) && GoodBooks(s'.books) && s'.payments == w.store.payments
    requires Internal(w.store.books, s'.books)
    ensures PaymentInv(w.(store := s'))
  {
    var b, b' := w.store.books, s'.books;
    forall p: nat ensures FactsOf(b', p) == FactsOf(b, p) {
      assert AgreementOf(DepositOf(p)) == None && AgreementOf(WithdrawalOf(p)) == None
        && AgreementOf(ReversalOf(p)) == None;
    }
    RowStep(w, w.(store := s'), |w.wires|);
  }

  lemma NextKeeps(w: World, move: Move)
    requires SystemInv(w) && HonestMove(w, move)
    ensures SystemInv(Next(w, move))
  {
    match move
    case Life(action) =>
      StepKeepsEscrow(w.store, action);
      StepIsInternal(w.store, action);
      InternalKeepsPayments(w, Escrow.Step(w.store, action).store);
    case Pay(payment) =>
      PayStepKeeps(w, payment);
      PayStepKeepsDeals(w, payment);
      DealsKeepEscrow(w.store, PayStep(w, payment).store);
    case OpenWallet(user) =>
      EnsureFacts(w.store.books, user);
      EnsureInternal(w.store.books, user);
      InternalKeepsPayments(w, w.store.(books := Ensure(w.store.books, user)));
      DealsKeepEscrow(w.store, w.store.(books := Ensure(w.store.books, user)));
  }

  // -------------------------------------------------------------------- runs

  predicate Makes(w: World, move: Move, w': World) {
    |w.wires| == |w.store.payments| && HonestMove(w, move) && Next(w, move) == w'
  }

  /** The world after a run, if the provider was honest throughout. */
  ghost predicate Reaches(w: World, moves: seq<Move>, w': World)
    decreases |moves|
  {
    if moves == [] then w' == w
    else exists m: World :: Reaches(w, Init(moves), m) && Makes(m, Last(moves), w')
  }

  lemma EmptyInv()
    ensures SystemInv(EmptyWorld)
  {
    var b := EmptyBooks;
    forall users: nat ensures Total(b, users) == 0 {
      SumMonotone((u: nat) => 0, (u: nat) => Balance(b, u, Available) + Balance(b, u, Bucket.Escrow), users);
      NothingSums(users);
    }
    forall p: nat ensures FactsOf(b, p) == NoFacts {
    }
    assert EscrowInv(EmptyStore);
  }

  lemma Extends(start: World, moves: seq<Move>, w: World, move: Move, w': World)
    requires Reaches(start, moves, w) && Makes(w, move, w')
    ensures Reaches(start, moves + [move], w')
  {
    var more := moves + [move];
    assert Init(more) == moves && Last(more) == move;
  }

  lemma MakesKeeps(w: World, move: Move, w': World)
    requires SystemInv(w) && Makes(w, move, w')
    ensures SystemInv(w') && w'.carried == w.carried
  {
    NextKeeps(w, move);
  }

  lemma {:induction false} RunKeeps(w: World, moves: seq<Move>, w': World)
    requires SystemInv(w) && Reaches(w, moves, w')
    ensures SystemInv(w') && w'.carried == w.carried
    decreases |moves|
  {
    if moves != [] {
      var m: World :| Reaches(w, Init(moves), m) && Makes(m, Last(moves), w');
      RunKeeps(w, Init(moves), m);
      MakesKeeps(m, Last(moves), w');
    }
  }

  /** Everything at once. */
  ghost predicate InOrder(w: World, users: nat)
    requires |w.wires| == |w.store.payments|
  {
    // balances are the running sums of the ledger and are never negative
    && BooksOk(w.store.books) && GroupsWhole(w.store.books.ledger) && AllGenuine(w.store.books.ledger)
    // everyone's escrow bucket is exactly their unsettled deals
    && (forall u: UserId :: Balance(w.store.books, u, Bucket.Escrow) == HeldFor(w.store, u))
    // all money held is deposits and reversals less withdrawals
    && Total(w.store.books, users) == Flow(w.store.books.ledger)
    // and with what the banks kept never exceeds what was there and what was paid in
    && Total(w.store.books, users) + Payouts(w) + OnTheWay(w) == w.carried + Charges(w) && OnTheWay(w) >= 0
    // each deal's status is what the ledger says, and a release was justified
    && (forall a: nat :: a < |w.store.agreements| ==> AgreementOk(w.store.books.ledger, w.store.agreements[a], a))
    // each withdrawal is undone at most once, and each payment credited at most once
    && (forall p: nat :: p < |w.wires| ==> UndoneOnce(w, p) && CreditedOnce(w, p))
  }

  /** In every state any honest run can reach from a state in order. */
  lemma EveryStateFrom(start: World, moves: seq<Move>, w: World, users: nat)
    requires SystemInv(start) && Reaches(start, moves, w) && Bounded(w.store.books, users)
    ensures |w.wires| == |w.store.payments| && w.carried == start.carried && InOrder(w, users)
  {
    RunKeeps(start, moves, w);
    Solvent(w, users);
    forall u: UserId ensures Balance(w.store.books, u, Bucket.Escrow) == HeldFor(w.store, u) {
    }
    forall p: nat | p < |w.wires| ensures UndoneOnce(w, p) && CreditedOnce(w, p) {
      UndoneOnceExactly(w, p);
      CreditedOnceExactly(w, p);
    }
  }

  /** And so from an empty database, with nothing carried. */
  lemma EveryReachableState(moves: seq<Move>, w: World, users: nat)
    requires Reaches(EmptyWorld, moves, w) && Bounded(w.store.books, users)
    ensures |w.wires| == |w.store.payments| && w.carried == 0 && InOrder(w, users)
  {
    EmptyInv();
    EveryStateFrom(EmptyWorld, moves, w, users);
  }

  lemma FinalNext(w: World, move: Move, a: nat)
    requires SystemInv(w) && a < |w.store.agreements| && Final(w.store.agreements[a].status)
    ensures var s' := Next(w, move).store;
      && a < |s'.agreements| && s'.agreements[a].status == w.store.agreements[a].status
      && forall q: Ref :: AgreementOf(q) == Some(a) ==> Find(s'.books.ledger, q) == Find(w.store.books.ledger, q)
  {
    match move
    case Life(action) => FinalStays(w.store, action, a);
    case Pay(payment) => PayStepKeepsDeals(w, payment);
    case OpenWallet(user) =>
  }

  lemma FrozenNext(w: World, move: Move, a: nat)
    requires SystemInv(w) && Frozen(w.store, a) && !(move.Life? && move.action.DoResolve? && move.action.a == a)
    ensures Frozen(Next(w, move).store, a)
    ensures forall q: Ref ::
        AgreementOf(q) == Some(a) && Find(Next(w, move).store.books.ledger, q) != Find(w.store.books.ledger, q) ==>
          q == RefundOf(a) && move == Life(DoRefund(a))
  {
    match move
    case Life(action) => FreezeHolds(w.store, action, a);
    case Pay(payment) => PayStepKeepsDeals(w, payment);
    case OpenWallet(user) =>
  }

  /** Over any run: a deal in a final status stays there, and not one entry about
      it is ever added, changed or removed. */
  lemma {:induction false} FinalForever(w: World, moves: seq<Move>, w': World, a: nat)
    requires SystemInv(w) && Reaches(w, moves, w')
    requires a < |w.store.agreements| && Final(w.store.agreements[a].status)
    ensures a < |w'.store.agreements| && w'.store.agreements[a].status == w.store.agreements[a].status
    ensures forall q: Ref :: AgreementOf(q) == Some(a) ==>
        Find(w'.store.books.ledger, q) == Find(w.store.books.ledger, q)
    decreases |moves|
  {
    if moves != [] {
      var m: World :| Reaches(w, Init(moves), m) && Makes(m, Last(moves), w');
      FinalForever(w, Init(moves), m, a);
      RunKeeps(w, Init(moves), m);
      FinalNext(m, Last(moves), a);
    }
  }

  /** Over any run in which nobody resolves a dispute on the deal: once frozen it
      stays frozen, it is not released, and the only entry that can appear about
      it is an administrator's refund. */
  lemma {:induction false} FrozenUntilResolved(w: World, moves: seq<Move>, w': World, a: nat)
    requires SystemInv(w) && Reaches(w, moves, w') && Frozen(w.store, a)
    requires forall m :: m in moves ==> !(m.Life? && m.action.DoResolve? && m.action.a == a)
    ensures Frozen(w'.store, a)
    ensures forall q: Ref ::
        AgreementOf(q) == Some(a) && Find(w'.store.books.ledger, q) != Find(w.store.books.ledger, q) ==>
          q == RefundOf(a) && Life(DoRefund(a)) in moves
    decreases |moves|
  {
    if moves != [] {
      var m: World :| Reaches(w, Init(moves), m) && Makes(m, Last(moves), w');
      assert Last(moves) in moves && forall x :: x in Init(moves) ==> x in moves;
      FrozenUntilResolved(w, Init(moves), m, a);
      RunKeeps(w, Init(moves), m);
      FrozenNext(m, Last(moves), a);
    }
  }
}
