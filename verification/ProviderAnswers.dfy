// From the provider's answer to the customer's money: what a withdrawal makes of
// the one answer it gets, and exactly when that leaves the money in two places.
module ProviderAnswers {
  import opened Ledger
  import opened Payments
  import opened PaymentProofs
  import opened Solvency
  import PaystackClient
  import SolvencyRuns

  /** How a withdrawal takes the answer, and what in truth became of the transfer. */
  function TakenAs(answer: PaystackClient.Attempt, executed: bool): SendOutcome {
    if PaystackClient.ReversesDebit(PaystackClient.Named(answer)) then RejectedWith(executed)
    else if executed then Executed
    else Lost
  }

  /** No refusal, and yet the debit is put back: broken off, a server error,
      unreadable, or an acceptance that names no transfer. */
  predicate Unclear(answer: PaystackClient.Attempt) {
    match answer
    case TimedOut => false
    case Broken => true
    case Answer(code, body) => code >= 500 || body.NotJson? || (body.accepted && body.data.None?)
  }

  /** The provider has refused the transfer for a reason that is not its reference. */
  ghost predicate RefusedOutright(answer: PaystackClient.Attempt) {
    PaystackClient.Refused(answer) && !PaystackClient.AboutTheReference(answer.body.message)
  }

  /** Sending keeps the payments in order exactly unless the transfer was executed
      and its answer is unclear or an outright refusal; so with a provider that
      executes nothing it refuses, exactly unless an executed transfer was
      answered unclearly. */
  lemma KeepsOrderExactly(w: World, p: nat, answer: PaystackClient.Attempt, executed: bool)
    requires PaymentInv(w) && p < |w.wires| && w.wires[p].sending
    ensures var w' := PayStep(w, TransferSent(p, TakenAs(answer, executed)));
      && (PaymentInv(w') <==> !(executed && (Unclear(answer) || RefusedOutright(answer))))
      && ((executed ==> !PaystackClient.Refused(answer)) ==>
           (PaymentInv(w') <==> !(executed && Unclear(answer))))
  {
    PaystackClient.WhatReverses(answer);
    if executed && PaystackClient.ReversesDebit(PaystackClient.Named(answer)) {
      PutBackThoughExecuted(w, p);
    } else {
      TransferSentKeeps(w, p, TakenAs(answer, executed));
    }
  }

  /** A reversal beside a transfer that is still under way is never in order. */
  lemma NeverBoth(w: World, p: nat)
    requires p < |w.wires| == |w.store.payments| && FactsOf(w.store.books, p).rev.Some?
    requires w.wires[p].transfer.Some? && w.wires[p].transfer.value.state == Processing
    ensures !PaymentInv(w)
  {
    assert !RowOk(p, w.store.payments[p], FactsOf(w.store.books, p), w.wires[p]);
  }

  lemma PutBack(w: World, p: nat)
    requires PaymentInv(w) && p < |w.wires| && w.wires[p].sending
    ensures FactsOf(ReverseWithdrawal(w.store, p).books, p).rev.Some?
  {
    var row := w.store.payments[p];
    assert RowOk(p, row, FactsOf(w.store.books, p), w.wires[p]);
    ReverseBooks(w.store.books, p, row.user, row.amount);
  }

  lemma PutBackThoughExecuted(w: World, p: nat)
    requires PaymentInv(w) && p < |w.wires| && w.wires[p].sending
    ensures !PaymentInv(PayStep(w, TransferSent(p, RejectedWith(true))))
  {
    PutBack(w, p);
    NeverBoth(PayStep(w, TransferSent(p, RejectedWith(true))), p);
  }

  /** And it is reached: for any customer, any amount and any answer that is taken
      for a rejection, an honest run from an empty database ends where sending the
      transfer, if it is executed, leaves the money with the customer and, once
      settled, at the bank. */
  lemma PaidTwiceIsReached(user: UserId, kobo: int, answer: PaystackClient.Attempt)
    requires kobo > 0 && (Unclear(answer) || RefusedOutright(answer))
    ensures exists w: World :: SolvencyRuns.Reached(w) && PaidTwice(w, 1, TakenAs(answer, true))
  {
    PaystackClient.WhatReverses(answer);
    var w := SolvencyRuns.Debited(user, kobo);
    RejectedButExecuted(w, 1);
    assert PaidTwice(w, 1, TakenAs(answer, true));
  }

  ghost predicate PaidTwice(w: World, p: nat, outcome: SendOutcome) {
    && p < |w.wires| == |w.store.payments| && w.wires[p].sending
    && var w1 := PayStep(w, TransferSent(p, outcome));
       |w1.wires| == |w1.store.payments|
       && var w2 := PayStep(w1, ProviderMoves(p, Succeeded));
          && p < |w2.wires| && FactsOf(w2.store.books, p).rev.Some?
          && Net(FactsOf(w2.store.books, p)) + KeptByBank(w2.wires[p]) > PaidIn(w2.wires[p])
  }
}
