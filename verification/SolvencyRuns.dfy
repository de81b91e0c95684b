// A run from an empty database that ends in a reversal after success: the
// shortfall of module Solvency is reached by customers, provider and handlers
// that all do what they should.
module SolvencyRuns {
  import opened Wrappers
  import opened Money
  import opened Ledger
  import opened Store
  import opened Payments
  import opened PaymentProofs
  import opened PaymentOutcomes
  import opened Solvency
  import opened SystemRuns

  /** Some honest run from an empty database ends here. */
  ghost predicate Reached(w: World) {
    PaymentInv(w) && w.carried == 0 && exists moves: seq<Move> :: Reaches(EmptyWorld, moves, w)
  }

  lemma FromEmpty()
    ensures Reached(EmptyWorld)
  {
    SystemRuns.EmptyInv();
    assert Reaches(EmptyWorld, [], EmptyWorld);
  }

  lemma OneMore(w: World, action: PayAction)
    requires Reached(w) && Honest(w, action)
    ensures Reached(PayStep(w, action))
  {
    var moves: seq<Move> :| Reaches(EmptyWorld, moves, w);
    Extends(EmptyWorld, moves, w, Pay(action), PayStep(w, action));
    PayStepKeeps(w, action);
  }

  /** A payment of `kobo` is asked for and made. */
  lemma Paid(user: UserId, kobo: int) returns (w: World)
    requires kobo > 0
    ensures Reached(w) && w.store.books == EmptyBooks
    ensures w.store.payments == [Payment(user, FromKobo(kobo), Funding, PaymentPending)]
    ensures w.wires == [Wire(true, Some(Charge(kobo, true)), None, false, false)]
  {
    var asks := FundRequested(user, FromKobo(kobo), true, true);
    FromEmpty();
    OneMore(EmptyWorld, asks);
    var w1 := PayStep(EmptyWorld, asks);
    OneMore(w1, CustomerPays(0, Charge(kobo, true)));
    w := PayStep(w1, CustomerPays(0, Charge(kobo, true)));
  }

  /** And credited. */
  lemma Funded(user: UserId, kobo: int) returns (w: World)
    requires kobo > 0
    ensures Reached(w) && Balance(w.store.books, user, Available) == FromKobo(kobo)
    ensures w.store.payments == [Payment(user, FromKobo(kobo), Funding, PaymentSuccess)]
    ensures w.wires == [Wire(true, Some(Charge(kobo, true)), None, false, false)]
  {
    var w0 := Paid(user, kobo);
    var answer := ChargeSays(true, Some(true), Some(kobo));
    ChargeOutcome(w0, 0, answer, None);
    OneMore(w0, ChargeEvent(0, answer, None));
    w := PayStep(w0, ChargeEvent(0, answer, None));
  }

  /** All of it is debited. */
  lemma Debited(user: UserId, kobo: int) returns (w: World)
    requires kobo > 0
    ensures Reached(w) && Has(w.store.books.ledger, WithdrawalOf(1))
    ensures w.store.payments == [Payment(user, FromKobo(kobo), Funding, PaymentSuccess),
                                 Payment(user, FromKobo(kobo), Withdrawing, PaymentPending)]
    ensures w.wires == [Wire(true, Some(Charge(kobo, true)), None, false, false), Wire(false, None, None, true, false)]
  {
    var w0 := Funded(user, kobo);
    var amount := FromKobo(kobo);
    var gate := Gate(true, amount, amount, true);
    assert Payable(amount);
    WithdrawalOutcome(w0, user, amount, gate);
    OneMore(w0, WithdrawRequested(user, amount, gate));
    w := PayStep(w0, WithdrawRequested(user, amount, gate));
  }

  /** Sent, and settled at the bank. */
  lemma AtBank(user: UserId, kobo: int) returns (w: World)
    requires kobo > 0
    ensures Reached(w) && Has(w.store.books.ledger, WithdrawalOf(1))
    ensures w.store.payments == [Payment(user, FromKobo(kobo), Funding, PaymentSuccess),
                                 Payment(user, FromKobo(kobo), Withdrawing, PaymentPending)]
    ensures |w.wires| == 2 && w.wires[1].transfer == Some(Transfer(kobo, Succeeded))
  {
    var w0 := Debited(user, kobo);
    KoboRoundTrip(FromKobo(kobo));
    OneMore(w0, TransferSent(1, Executed));
    var w1 := PayStep(w0, TransferSent(1, Executed));
    OneMore(w1, ProviderMoves(1, Succeeded));
    w := PayStep(w1, ProviderMoves(1, Succeeded));
  }

  /** And marked a success. */
  lemma PaidOut(user: UserId, kobo: int) returns (w: World)
    requires kobo > 0
    ensures Reached(w)
    ensures w.store.payments == [Payment(user, FromKobo(kobo), Funding, PaymentSuccess),
                                 Payment(user, FromKobo(kobo), Withdrawing, PaymentSuccess)]
    ensures |w.wires| == 2 && w.wires[1].transfer == Some(Transfer(kobo, Succeeded))
  {
    var w0 := AtBank(user, kobo);
    var event := SuccessEvent(1, TransferSays(true, false));
    OneMore(w0, event);
    w := PayStep(w0, event);
  }

  /** So the shortfall is reached: for any customer and any amount there is an
      honest run after which no withdrawal is pending and wallets and payouts equal
      the charges, and one more honest step after which still none is pending, the
      database is the same, and the sum is short by that amount. */
  lemma ShortfallIsReached(user: UserId, kobo: int)
    requires kobo > 0
    ensures exists w: World ::
              && Reached(w)
              && forall users: nat :: Bounded(w.store.books, users) ==> ShortAfterReversal(w, users, FromKobo(kobo))
  {
    var w := PaidOut(user, kobo);
    forall users: nat | Bounded(w.store.books, users) ensures ShortAfterReversal(w, users, FromKobo(kobo)) {
      Short(w, users, user, kobo);
    }
  }

  lemma Short(w: World, users: nat, user: UserId, kobo: int)
    requires PaymentInv(w) && w.carried == 0 && Bounded(w.store.books, users)
    requires w.store.payments == [Payment(user, FromKobo(kobo), Funding, PaymentSuccess),
                                  Payment(user, FromKobo(kobo), Withdrawing, PaymentSuccess)]
    requires |w.wires| == 2 && w.wires[1].transfer == Some(Transfer(kobo, Succeeded))
    ensures ShortAfterReversal(w, users, FromKobo(kobo))
  {
    EqualWhenNonePending(w, users);
    UndeliveredReversal(w, 1, users);
  }

  ghost predicate ShortAfterReversal(w: World, users: nat, amount: Amount)
    requires |w.wires| == |w.store.payments|
  {
    var w' := PayStep(w, ProviderMoves(1, TransferReversed));
    && Honest(w, ProviderMoves(1, TransferReversed))
    && |w'.wires| == |w'.store.payments|
    && NoWithdrawalPending(w) && Total(w.store.books, users) + Payouts(w) == Charges(w)
    && NoWithdrawalPending(w') && w'.store == w.store
    && Total(w'.store.books, users) + Payouts(w') <= Charges(w') - amount
  }
}
