// Where the customers' money is. Everything paid in is in a wallet, kept by a
// bank that was paid out to, waiting to be credited, or debited and not yet
// either kept or put back; nothing is in two places.
module Solvency {
  import opened Wrappers
  import opened Sums
  import opened Money
  import opened Ledger
  import opened Store
  import opened Escrow
  import opened Payments
  import opened PaymentProofs

  /** Naira the customer paid on a reference, in ledger units. */
  function PaidIn(x: Wire): Amount {
    if x.charge.Some? && x.charge.value.naira then FromKobo(x.charge.value.kobo) else 0
  }

  /** What the bank kept of a transfer. */
  function KeptByBank(x: Wire): Amount {
    if x.transfer.Some? && x.transfer.value.state == Succeeded then FromKobo(x.transfer.value.kobo) else 0
  }

  /** Paid, but not credited yet. */
  function Uncredited(f: Facts, x: Wire): Amount {
    if f.dep.None? then PaidIn(x) else 0
  }

  /** Debited, and neither kept by the bank nor put back. */
  function InLimbo(f: Facts, x: Wire): Amount {
    if f.wd.Some? && f.rev.None? && KeptByBank(x) == 0 then f.wd.value.amount else 0
  }

  ghost function Charges(w: World): Amount {
    SumTo((p: nat) => if p < |w.wires| then PaidIn(w.wires[p]) else 0, |w.wires|)
  }

  ghost function Payouts(w: World): Amount {
    SumTo((p: nat) => if p < |w.wires| then KeptByBank(w.wires[p]) else 0, |w.wires|)
  }

  /** What one payment has on its way, in or out. */
  ghost function OneOnTheWay(w: World, p: nat): Amount
    requires p < |w.wires|
  {
    Uncredited(FactsOf(w.store.books, p), w.wires[p]) + InLimbo(FactsOf(w.store.books, p), w.wires[p])
  }

  ghost function OnTheWay(w: World): Amount {
    SumTo((p: nat) => if p < |w.wires| then OneOnTheWay(w, p) else 0, |w.wires|)
  }

  /** Nothing of this payment is on its way. A naira charge has its row marked
      success; a debit that was made has its row marked failed or refunded, or
      its transfer settled at the bank and not reversed since. */
  predicate AtRest(row: Payment, debited: bool, x: Wire) {
    match row.purpose
    case Funding => x.charge.Some? && x.charge.value.naira ==> row.status == PaymentSuccess
    case Withdrawing =>
      debited ==>
        row.status in {PaymentFailed, PaymentRefunded} || (x.transfer.Some? && x.transfer.value.state == Succeeded)
  }

  predicate PaymentAtRest(w: World, p: nat)
    requires p < |w.wires| == |w.store.payments|
  {
    AtRest(w.store.payments[p], Has(w.store.books.ledger, WithdrawalOf(p)), w.wires[p])
  }

  /** One payment's money, accounted for. */
  lemma RowBalances(p: nat, row: Payment, f: Facts, x: Wire)
    requires RowOk(p, row, f, x)
    ensures PaidIn(x) == Since(f, x) + KeptByBank(x) + Uncredited(f, x) + InLimbo(f, x)
    ensures Uncredited(f, x) >= 0 && InLimbo(f, x) >= 0
    ensures Uncredited(f, x) + InLimbo(f, x) == 0 <==> AtRest(row, f.wd.Some?, x)
  {
  }

  /** Solvency: wallet balances plus payouts the bank kept never exceed verified
      charges and what the wallets held when the ledger was opened, and what is
      missing is exactly what is on its way; so they are equal exactly when every
      payment is at rest. */
  lemma Solvent(w: World, users: nat)
    requires PaymentInv(w) && Bounded(w.store.books, users)
    ensures Total(w.store.books, users) + Payouts(w) + OnTheWay(w) == w.carried + Charges(w)
    ensures Total(w.store.books, users) + Payouts(w) <= w.carried + Charges(w)
    ensures Total(w.store.books, users) + Payouts(w) == w.carried + Charges(w) <==>
              forall p: nat :: p < |w.wires| ==> PaymentAtRest(w, p)
  {
    var b, n := w.store.books, |w.wires|;
    var net := (p: nat) => NetOf(w, p);
    var kept := (p: nat) => if p < |w.wires| then KeptByBank(w.wires[p]) else 0;
    var out := (p: nat) => if p < |w.wires| then OneOnTheWay(w, p) else 0;
    var paid := (p: nat) => if p < |w.wires| then PaidIn(w.wires[p]) else 0;
    forall p: nat | p < n
      ensures paid(p) == net(p) + kept(p) + out(p) && out(p) >= 0
      ensures out(p) == 0 <==> PaymentAtRest(w, p)
    {
      assert RowOk(p, w.store.payments[p], FactsOf(b, p), w.wires[p]);
      RowBalances(p, w.store.payments[p], FactsOf(b, p), w.wires[p]);
    }
    SumsAddUp(paid, net, kept, out, n);
    ZeroSum(out, n);
    assert SumTo(net, n) == NetTotal(w);
    assert SumTo(kept, n) == Payouts(w);
    assert SumTo(out, n) == OnTheWay(w);
    assert SumTo(paid, n) == Charges(w);
    assert Total(b, users) == Flow(b.ledger);
  }

  lemma {:induction false} SumsAddUp(h: nat -> int, a: nat -> int, b: nat -> int, c: nat -> int, n: nat)
    requires forall i: nat :: i < n ==> h(i) == a(i) + b(i) + c(i)
    ensures SumTo(h, n) == SumTo(a, n) + SumTo(b, n) + SumTo(c, n)
  {
    if n > 0 {
      SumsAddUp(h, a, b, c, n - 1);
    }
  }

  lemma {:induction false} ZeroSum(f: nat -> int, n: nat)
    requires forall i: nat :: i < n ==> f(i) >= 0
    ensures SumTo(f, n) >= 0
    ensures SumTo(f, n) == 0 <==> forall i: nat :: i < n ==> f(i) == 0
  {
    if n > 0 {
      ZeroSum(f, n - 1);
    }
  }

  // ----------------------------------------------------- payment by payment

  ghost predicate AtMostOne(l: seq<Entry>, ref: Ref) {
    forall e, e' :: e in l && e' in l && e.ref == e'.ref == ref ==> e == e'
  }

  lemma NeverTwo(l: seq<Entry>, ref: Ref)
    requires UniqueRefs(l)
    ensures AtMostOne(l, ref)
  {
    forall e, e' | e in l && e' in l && e.ref == e'.ref == ref ensures e == e' {
      FindMember(l, e);
      FindMember(l, e');
    }
  }

  /** One reversal entry at most, only with its debit, on the same wallet and for
      the same amount; it is there exactly when the row says failed or refunded,
      and the debit's mark says the same as the row. */
  ghost predicate UndoneOnce(w: World, p: nat)
    requires p < |w.store.payments|
  {
    var row, f := w.store.payments[p], FactsOf(w.store.books, p);
    && AtMostOne(w.store.books.ledger, ReversalOf(p))
    && (f.rev.Some? ==>
         && f.wd.Some? && f.rev.value.user == f.wd.value.user == row.user
         && f.rev.value.amount == f.wd.value.amount == row.amount)
    && (f.rev.Some? <==> row.purpose == Withdrawing && row.status in {PaymentFailed, PaymentRefunded})
    && (f.wd.Some? ==> f.mark == Some(MarkFor(row.status)))
  }

  /** One deposit at most; and of a funding row that was not settled before the
      ledger, exactly when it says success, for its owner and for what the
      provider verified. */
  ghost predicate CreditedOnce(w: World, p: nat)
    requires p < |w.wires| == |w.store.payments|
  {
    var row, f := w.store.payments[p], FactsOf(w.store.books, p);
    && AtMostOne(w.store.books.ledger, DepositOf(p))
    && (row.purpose == Funding && !w.wires[p].legacy ==>
         && (row.status == PaymentSuccess <==> f.dep.Some?)
         && (f.dep.Some? ==>
              && f.dep.value.user == row.user && w.wires[p].charge.Some?
              && f.dep.value.amount == FromKobo(w.wires[p].charge.value.kobo)))
  }

  /** A withdrawal is undone at most once and exactly. */
  lemma UndoneOnceExactly(w: World, p: nat)
    requires PaymentInv(w) && p < |w.wires|
    ensures UndoneOnce(w, p)
  {
    assert RowOk(p, w.store.payments[p], FactsOf(w.store.books, p), w.wires[p]);
    NeverTwo(w.store.books.ledger, ReversalOf(p));
  }

  /** A funding row says success exactly when its one deposit exists. */
  lemma CreditedOnceExactly(w: World, p: nat)
    requires PaymentInv(w) && p < |w.wires|
    ensures CreditedOnce(w, p)
  {
    assert RowOk(p, w.store.payments[p], FactsOf(w.store.books, p), w.wires[p]);
    NeverTwo(w.store.books.ledger, DepositOf(p));
  }

  /** Paying exactly what was asked for credits exactly that, for every amount
      with no more than two decimals, and only for those. */
  lemma PaidInFull(w: World, p: nat)
    requires PaymentInv(w) && p < |w.wires| && w.store.payments[p].purpose == Funding
    requires w.store.payments[p].status == PaymentPending
    requires w.wires[p].charge == Some(Charge(ToKobo(w.store.payments[p].amount), true))
    ensures var d := ChargeSuccess(w.store, p, ChargeSays(true, Some(true), Some(w.wires[p].charge.value.kobo)), None);
      && d.hook == Processed
      && FactsOf(d.store.books, p).dep.Some?
      && (FactsOf(d.store.books, p).dep.value.amount == w.store.payments[p].amount <==>
           WholeKobo(w.store.payments[p].amount))
  {
    var row, b := w.store.payments[p], w.store.books;
    assert RowOk(p, row, FactsOf(b, p), w.wires[p]);
    KoboRoundTrip(row.amount);
    var credited := FromKobo(ToKobo(row.amount));
    CreditAffordable(b, Deposit, row.user, credited);
    PayEntry(b, DepositOf(p), p, row.user, credited, EntryCompleted);
    PayRow(b, DepositOf(p), p, row.user, credited, EntryCompleted);
  }

  // ------------------------------------------ where the promises stop holding

  /** "Nothing persisted" when a withdrawal is refused holds exactly when it was
      refused before its row was written, or its user had a wallet: creating the
      wallet commits the row without the debit. */
  lemma RefusedWithdrawalPersists(s: Store, user: UserId, amount: Amount, gate: Gate)
    requires GoodBooks(s.books) && Find(s.books.ledger, WithdrawalOf(|s.payments|)).None?
    requires RequestWithdrawal(s, user, amount, gate).reply != Ok
    ensures RequestWithdrawal(s, user, amount, gate).store == s <==> !Passes(gate, amount) || user in s.books.wallets
  {
    if Passes(gate, amount) {
      WithdrawalResult(s, user, amount, gate);
    }
  }

  /** A pending row whose charge is verified in naira, case by case. */
  lemma ChargeResult(s: Store, p: nat, kobo: int)
    requires p < |s.payments| && s.payments[p].status == PaymentPending && Find(s.books.ledger, DepositOf(p)).None?
    ensures var row, credited := s.payments[p], FromKobo(kobo);
      var r := ApplyEntry(s.books, LegFor(DepositOf(p), row.user, credited, EntryCompleted));
      var kept := PutPayment(s, p, row.(amount := credited, status := PaymentSuccess)).(books := r.books);
      var d := ChargeSuccess(s, p, ChargeSays(true, Some(true), Some(kobo)), None);
      match r.outcome
      case Failed(e) => d == Delivered(if row.user in s.books.wallets then s else kept, HandlerFailed(e))
      case _ => d == Delivered(kept, Processed)
  {
  }

  /** A verified amount that is not positive is never credited; the row it leaves
      says success without a deposit exactly when the user had no wallet. */
  lemma UnpayableCharge(s: Store, p: nat, kobo: int)
    requires GoodBooks(s.books) && p < |s.payments| && s.payments[p].status == PaymentPending
    requires Find(s.books.ledger, DepositOf(p)).None?
    ensures var d := ChargeSuccess(s, p, ChargeSays(true, Some(true), Some(kobo)), None);
      && (d.hook == Processed <==> kobo > 0)
      && p < |d.store.payments|
      && (d.store.payments[p].status == PaymentSuccess && Find(d.store.books.ledger, DepositOf(p)).None? <==>
           kobo <= 0 && s.payments[p].user !in s.books.wallets)
  {
    var row, credited := s.payments[p], FromKobo(kobo);
    ChargeResult(s, p, kobo);
    assert Payable(credited) <==> kobo > 0;
    EntryEffect(s.books, DepositOf(p), row.user, credited, EntryCompleted);
    if kobo > 0 {
      CreditAffordable(s.books, Deposit, row.user, credited);
    }
  }

  /** A definite rejection is only safe to reverse if nothing was executed: a
      provider that executed the transfer and then rejected it leaves the money
      both with the customer and at the bank. */
  lemma RejectedButExecuted(w: World, p: nat)
    requires PaymentInv(w) && p < |w.wires| && w.wires[p].sending
    ensures var w' := PayStep(PayStep(w, TransferSent(p, RejectedWith(true))), ProviderMoves(p, Succeeded));
      && |w'.wires| == |w.wires|
      && FactsOf(w'.store.books, p).rev.Some?
      && Net(FactsOf(w'.store.books, p)) + KeptByBank(w'.wires[p]) > PaidIn(w'.wires[p])
  {
    var row, b := w.store.payments[p], w.store.books;
    var f := FactsOf(b, p);
    assert RowOk(p, row, f, w.wires[p]);
    KoboRoundTrip(row.amount);
    ReverseBooks(b, p, row.user, row.amount);
    RejectedWorld(w, p);
  }

  lemma RejectedWorld(w: World, p: nat)
    requires |w.wires| == |w.store.payments| && p < |w.wires| && w.wires[p].sending
    ensures PayStep(PayStep(w, TransferSent(p, RejectedWith(true))), ProviderMoves(p, Succeeded)) ==
            w.(store := ReverseWithdrawal(w.store, p),
               wires := w.wires[p := w.wires[p].(sending := false,
                 transfer := Some(Transfer(ToKobo(w.store.payments[p].amount), Succeeded)))])
    ensures var r := ApplyEntry(Mark(w.store.books, WithdrawalOf(p), EntryReversed),
                                LegFor(ReversalOf(p), w.store.payments[p].user, w.store.payments[p].amount,
                                  EntryCompleted));
      r.outcome.Posted? ==> ReverseWithdrawal(w.store, p).books == r.books
  {
    var w1 := PayStep(w, TransferSent(p, RejectedWith(true)));
    var w2 := PayStep(w1, ProviderMoves(p, Succeeded));
    assert w2.wires == w.wires[p := w.wires[p].(sending := false,
      transfer := Some(Transfer(ToKobo(w.store.payments[p].amount), Succeeded)))];
  }

  // ------------------------------------------- when no withdrawal is pending

  predicate NoWithdrawalPending(w: World)
    requires |w.wires| == |w.store.payments|
  {
    forall p :: 0 <= p < |w.wires| && w.store.payments[p].purpose == Withdrawing ==>
      w.store.payments[p].status != PaymentPending
  }

  /** A naira charge whose row has not been marked success. */
  predicate ChargeWaits(w: World, p: nat)
    requires p < |w.wires| == |w.store.payments|
  {
    && w.store.payments[p].purpose == Funding && w.store.payments[p].status != PaymentSuccess
    && w.wires[p].charge.Some? && w.wires[p].charge.value.naira
  }

  /** A withdrawal marked success whose transfer the provider has reversed since. */
  predicate ReversedSuccess(w: World, p: nat)
    requires p < |w.wires| == |w.store.payments|
  {
    && w.store.payments[p].purpose == Withdrawing && w.store.payments[p].status == PaymentSuccess
    && w.wires[p].transfer.Some? && w.wires[p].transfer.value.state == TransferReversed
  }

  /** With no withdrawal pending the wallets and payouts equal the charges exactly
      when no naira charge waits to be credited and no successful withdrawal has
      been reversed since. */
  lemma EqualWhenNonePending(w: World, users: nat)
    requires PaymentInv(w) && Bounded(w.store.books, users) && NoWithdrawalPending(w)
    ensures Total(w.store.books, users) + Payouts(w) == w.carried + Charges(w) <==>
              forall p: nat :: p < |w.wires| ==> !ChargeWaits(w, p) && !ReversedSuccess(w, p)
  {
    Solvent(w, users);
    forall p: nat | p < |w.wires| ensures PaymentAtRest(w, p) <==> !ChargeWaits(w, p) && !ReversedSuccess(w, p) {
      assert RowOk(p, w.store.payments[p], FactsOf(w.store.books, p), w.wires[p]);
    }
  }

  /** A reversal after success counts from the moment the provider makes it: no
      row is pending, the database is unchanged, and the wallets and payouts fall
      short of the charges by at least that debit, until the event is delivered. */
  lemma UndeliveredReversal(w: World, p: nat, users: nat)
    requires PaymentInv(w) && Bounded(w.store.books, users) && NoWithdrawalPending(w)
    requires p < |w.wires| && w.store.payments[p].purpose == Withdrawing && w.store.payments[p].status == PaymentSuccess
    requires w.wires[p].transfer.value.state == Succeeded
    ensures var w' := PayStep(w, ProviderMoves(p, TransferReversed));
      && Honest(w, ProviderMoves(p, TransferReversed)) && PaymentInv(w')
      && w'.store == w.store && NoWithdrawalPending(w')
      && Total(w'.store.books, users) + Payouts(w') <= w'.carried + Charges(w') - w.store.payments[p].amount
      && w.store.payments[p].amount > 0
  {
    var w' := PayStep(w, ProviderMoves(p, TransferReversed));
    assert RowOk(p, w.store.payments[p], FactsOf(w.store.books, p), w.wires[p]);
    PayStepKeeps(w, ProviderMoves(p, TransferReversed));
    Solvent(w', users);
    assert RowOk(p, w'.store.payments[p], FactsOf(w'.store.books, p), w'.wires[p]);
    PartOfTheWhole(w', p);
  }

  /** What is on its way for one payment is part of all that is. */
  lemma PartOfTheWhole(w: World, p: nat)
    requires PaymentInv(w) && p < |w.wires|
    ensures OneOnTheWay(w, p) <= OnTheWay(w)
  {
    var out := (i: nat) => if i < |w.wires| then OneOnTheWay(w, i) else 0;
    forall i: nat | i < |w.wires| ensures out(i) >= 0 {
      RowBalances(i, w.store.payments[i], FactsOf(w.store.books, i), w.wires[i]);
    }
    TermAtMostSum(out, |w.wires|, p);
  }
}
