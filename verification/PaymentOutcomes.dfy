// Exactly when each funding and withdrawal step goes through, and whose balance
// it then moves by how much, in any state an honest provider allows.
module PaymentOutcomes {
  import opened Wrappers
  import opened Money
  import opened Ledger
  import opened Store
  import opened Escrow
  import opened Payments
  import opened PaymentProofs

  /** Only this user's available balance moved, by this much. */
  ghost predicate Credited(b: Books, b': Books, user: UserId, amount: Amount) {
    && (forall u: UserId :: Balance(b', u, Available) == Balance(b, u, Available) + (if u == user then amount else 0))
    && (forall u: UserId :: Balance(b', u, Bucket.Escrow) == Balance(b, u, Bucket.Escrow))
  }

  /** A payable credit that was never made goes through. */
  lemma CreditMoves(b: Books, ref: Ref, user: UserId, amount: Amount)
    requires BooksOk(b) && (ref.DepositOf? || ref.ReversalOf?) && !Has(b.ledger, ref) && Payable(amount)
    ensures var r := ApplyEntry(b, LegFor(ref, user, amount, EntryCompleted));
      r.outcome.Posted? && Credited(b, r.books, user, amount)
  {
    var kind, r := KindOf(ref), ApplyEntry(b, LegFor(ref, user, amount, EntryCompleted));
    CreditAffordable(b, kind, user, amount);
    EntryOutcome(b, ref, user, amount, EntryCompleted);
    assert Moved(Ensure(b, user), r.books, kind, user, amount) by {
      PostMoves(Ensure(b, user), LegFor(ref, user, amount, EntryCompleted));
    }
    MovedIsCredited(b, r.books, kind, user, amount);
  }

  lemma MovedIsCredited(b: Books, b': Books, kind: Kind, user: UserId, amount: Amount)
    requires Moved(Ensure(b, user), b', kind, user, amount) && kind in {Deposit, WithdrawalReversal} && amount > 0
    ensures Credited(b, b', user, amount)
  {
    EnsureFacts(b, user);
  }

  /** A funding request moves no money. It leaves a row for the amount asked for,
      pending, or failed if the provider refused it. */
  lemma FundRequestOutcome(w: World, user: UserId, amount: Amount, page: bool, accepted: bool)
    requires |w.wires| == |w.store.payments|
    ensures var w' := PayStep(w, FundRequested(user, amount, page, accepted));
      && w'.store.books == w.store.books && w'.store.agreements == w.store.agreements
      && |w'.store.payments| == |w.store.payments| + 1 && w'.store.payments[..|w.store.payments|] == w.store.payments
      && w'.store.payments[|w.store.payments|] ==
           Payment(user, amount, Funding, if accepted then PaymentPending else PaymentFailed)
  {
  }

  /** What a charge event has to bring for its pending row to be credited. */
  predicate Complete(reply: ChargeReply, eventNaira: Option<bool>) {
    && reply.ChargeSays? && reply.success && reply.kobo.Some?
    && (if reply.naira.Some? then reply.naira else eventNaira) == Some(true)
  }

  /** A charge event credits its row's owner with what the customer paid, exactly
      when the row is pending and the answer is complete; otherwise it changes
      nothing. A verified charge is never refused by the ledger. */
  lemma ChargeOutcome(w: World, p: nat, reply: ChargeReply, eventNaira: Option<bool>)
    requires PaymentInv(w) && p < |w.wires| && Honest(w, ChargeEvent(p, reply, eventNaira))
    ensures var row, d := w.store.payments[p], ChargeSuccess(w.store, p, reply, eventNaira);
      && !d.hook.HandlerFailed?
      && (d.hook == Processed <==> row.status == PaymentPending && Complete(reply, eventNaira))
      && (d.hook != Processed ==> d.store == w.store)
      && (d.hook == Processed ==>
          && w.wires[p].charge.Some?
          && var paid := FromKobo(w.wires[p].charge.value.kobo);
             && d.store.payments == w.store.payments[p := row.(amount := paid, status := PaymentSuccess)]
             && Credited(w.store.books, d.store.books, row.user, paid))
  {
    var row, b := w.store.payments[p], w.store.books;
    assert RowOk(p, row, FactsOf(b, p), w.wires[p]);
    if row.status == PaymentPending && Complete(reply, eventNaira) {
      assert Payable(FromKobo(reply.kobo.value));
      CreditMoves(b, DepositOf(p), row.user, FromKobo(reply.kobo.value));
    }
  }

  /** A withdrawal is accepted exactly when it passes its checks, is payable and
      is covered, and then the debit is made before anything is sent. */
  lemma WithdrawalOutcome(w: World, user: UserId, amount: Amount, gate: Gate)
    requires PaymentInv(w)
    ensures var r := RequestWithdrawal(w.store, user, amount, gate);
      && (r.reply == Ok <==>
           && gate.enabled && gate.min <= amount <= gate.max && gate.account
           && amount > 0 && amount % UNIT == 0 && Balance(w.store.books, user, Available) >= amount)
      && (r.reply == Refused(Reason.Money(InsufficientFunds)) <==>
           && gate.enabled && gate.min <= amount <= gate.max && gate.account
           && amount > 0 && amount % UNIT == 0 && Balance(w.store.books, user, Available) < amount)
      && (!gate.enabled || amount < gate.min || amount > gate.max || !gate.account ==> r.store == w.store)
      && (r.reply == Ok ==>
          && r.store.payments == w.store.payments + [Payment(user, amount, Withdrawing, PaymentPending)]
          && Has(r.store.books.ledger, WithdrawalOf(|w.store.payments|))
          && Credited(w.store.books, r.store.books, user, -amount))
      && (r.reply != Ok ==> Credited(w.store.books, r.store.books, user, 0))
  {
    var p, b := |w.store.payments|, w.store.books;
    assert FactsOf(b, p) == NoFacts;
    if Passes(gate, amount) {
      WithdrawalResult(w.store, user, amount, gate);
      DebitMoves(b, WithdrawalOf(p), user, amount);
      WhyDebitFails(b, LegFor(WithdrawalOf(p), user, amount, EntryPending));
    }
  }

  /** A debit that was never made goes through exactly when it is payable and covered. */
  lemma DebitMoves(b: Books, ref: Ref, user: UserId, amount: Amount)
    requires GoodBooks(b) && ref.WithdrawalOf? && !Has(b.ledger, ref)
    ensures var r := ApplyEntry(b, LegFor(ref, user, amount, EntryPending));
      && (r.outcome.Posted? <==> Payable(amount) && Balance(b, user, Available) >= amount)
      && (r.outcome.Posted? ==> Has(r.books.ledger, ref) && Credited(b, r.books, user, -amount))
      && (!r.outcome.Posted? ==> Credited(b, r.books, user, 0))
  {
    EntryOutcome(b, ref, user, amount, EntryPending);
    AffordableDebit(b, user, amount);
    EnsureFacts(b, user);
    if ApplyEntry(b, LegFor(ref, user, amount, EntryPending)).outcome.Posted? {
      PostMoves(Ensure(b, user), LegFor(ref, user, amount, EntryPending));
    }
  }

  lemma AffordableDebit(b: Books, user: UserId, amount: Amount)
    requires BooksOk(b)
    ensures Affordable(b, Withdrawal, user, amount) <==> Payable(amount) && Balance(b, user, Available) >= amount
  {
    assert Balance(b, user, Bucket.Escrow) >= 0;
  }

  /** Marking the debit and putting it back, as seen on every balance. */
  lemma UndoCredits(b: Books, p: nat, user: UserId, amount: Amount)
    requires GoodBooks(b) && Conserved(b) && Payable(amount) && Has(b.ledger, WithdrawalOf(p))
    requires !Has(b.ledger, ReversalOf(p))
    ensures var r := ApplyEntry(Mark(b, WithdrawalOf(p), EntryReversed),
        LegFor(ReversalOf(p), user, amount, EntryCompleted));
      r.outcome.Posted? && Credited(b, r.books, user, amount)
  {
    MarkFacts(b, p, EntryReversed);
    CreditMoves(Mark(b, WithdrawalOf(p), EntryReversed), ReversalOf(p), user, amount);
  }

  /** transfer.failed and transfer.reversed put the debit back for its owner
      exactly when the row is pending, or a success that is now reversed; any
      other delivery, a repeat included, changes nothing. */
  lemma UndoneOutcome(w: World, p: nat, reversed: bool)
    requires PaymentInv(w) && p < |w.wires| && Honest(w, if reversed then ReversedEvent(p) else FailedEvent(p))
    ensures var final := if reversed then PaymentRefunded else PaymentFailed;
      var row, d := w.store.payments[p], TransferUndone(w.store, p, final);
      if row.status == PaymentPending || (reversed && row.status == PaymentSuccess)
      then d.hook == Processed
           && d.store.payments == w.store.payments[p := row.(status := final)]
           && Credited(w.store.books, d.store.books, row.user, row.amount)
      else d == Delivered(w.store, AlreadyProcessed)
  {
    var row, b := w.store.payments[p], w.store.books;
    assert RowOk(p, row, FactsOf(b, p), w.wires[p]);
    if row.status == PaymentPending || (reversed && row.status == PaymentSuccess) {
      UndoCredits(b, p, row.user, row.amount);
    }
  }

  /** The same events without any assumption about the provider: an unknown row
      and one that may not be undone are left alone; a row without a debit gets its
      status and no money, whoever asks; and a debit is put back at most once, to
      its row's owner and for its own amount. */
  lemma UndoneAnyhow(s: Store, p: nat, final: PaymentStatus)
    requires GoodBooks(s.books)
    ensures var d := TransferUndone(s, p, final);
      if p >= |s.payments| then d == Delivered(s, UnknownReference)
      else
        var row := s.payments[p];
        if !(row.status == PaymentPending || (final == PaymentRefunded && row.status == PaymentSuccess))
        then d == Delivered(s, AlreadyProcessed)
        else
          && d.store.payments == s.payments[p := row.(status := final)] && d.store.agreements == s.agreements
          && if !Has(s.books.ledger, WithdrawalOf(p)) then d.hook == NoLedgerEntry && d.store.books == s.books
             else if Has(s.books.ledger, ReversalOf(p))
             then d.hook == Processed
                  && d.store.books.ledger == s.books.ledger && d.store.books.wallets == s.books.wallets
             else
               && d.hook == Processed && Has(d.store.books.ledger, ReversalOf(p))
               && Credited(s.books, d.store.books, row.user, Find(s.books.ledger, WithdrawalOf(p)).value.amount)
  {
    if p < |s.payments| && Has(s.books.ledger, WithdrawalOf(p)) && !Has(s.books.ledger, ReversalOf(p)) {
      PutsBack(s.books, p, s.payments[p].user);
    }
  }

  lemma PutsBack(b: Books, p: nat, user: UserId)
    requires GoodBooks(b) && Has(b.ledger, WithdrawalOf(p)) && !Has(b.ledger, ReversalOf(p))
    ensures var amount := Find(b.ledger, WithdrawalOf(p)).value.amount;
      var r := ApplyEntry(Mark(b, WithdrawalOf(p), EntryReversed),
        LegFor(ReversalOf(p), user, amount, EntryCompleted));
      r.outcome.Posted? && Has(r.books.ledger, ReversalOf(p)) && Credited(b, r.books, user, amount)
  {
    var amount, marked := Find(b.ledger, WithdrawalOf(p)).value.amount, Mark(b, WithdrawalOf(p), EntryReversed);
    StoredIsPayable(b, WithdrawalOf(p));
    MarkFacts(b, p, EntryReversed);
    CreditMoves(marked, ReversalOf(p), user, amount);
    CreditStored(marked, ReversalOf(p), user, amount);
  }

  lemma StoredIsPayable(b: Books, ref: Ref)
    requires BooksOk(b) && Has(b.ledger, ref)
    ensures Payable(Find(b.ledger, ref).value.amount)
  {
    Found(b.ledger, ref);
    var e := Find(b.ledger, ref).value;
    var i :| 0 <= i < |b.ledger| && b.ledger[i] == e;
    assert EntryOk(b.ledger, i);
  }

  lemma CreditStored(b: Books, ref: Ref, user: UserId, amount: Amount)
    requires ApplyEntry(b, LegFor(ref, user, amount, EntryCompleted)).outcome.Posted?
    ensures Has(ApplyEntry(b, LegFor(ref, user, amount, EntryCompleted)).books.ledger, ref)
  {
    PostedFacts(Ensure(b, user), LegFor(ref, user, amount, EntryCompleted));
  }

  /** transfer.success marks its pending row and its debit once the provider
      confirms it, and moves no money; anything else changes nothing. */
  lemma SuccessOutcome(w: World, p: nat, reply: TransferReply)
    requires PaymentInv(w) && p < |w.wires| && Honest(w, SuccessEvent(p, reply))
    ensures var row, d := w.store.payments[p], TransferSuccess(w.store, p, reply);
      if row.status == PaymentPending && reply.TransferSays? && reply.success
      then d.hook == Processed && d.store.payments == w.store.payments[p := row.(status := PaymentSuccess)]
           && FactsOf(d.store.books, p).mark == Some(EntryCompleted)
           && d.store.books.ledger == w.store.books.ledger && d.store.books.wallets == w.store.books.wallets
      else d.store == w.store && d.hook != Processed
  {
    assert RowOk(p, w.store.payments[p], FactsOf(w.store.books, p), w.wires[p]);
    MarkFacts(w.store.books, p, EntryCompleted);
  }

  /** What becomes of a withdrawal when its transfer is sent. Accepted, it is under
      way for exactly the amount debited; lost, nothing has changed; rejected, the
      row has failed and the debit is back with its owner. */
  lemma SentOutcome(w: World, p: nat, outcome: SendOutcome)
    requires PaymentInv(w) && p < |w.wires| && w.wires[p].sending
    ensures var row, w' := w.store.payments[p], PayStep(w, TransferSent(p, outcome));
      && |w'.wires| == |w.wires| && !w'.wires[p].sending
      && (if outcome.RejectedWith?
          then w'.store.payments == w.store.payments[p := row.(status := PaymentFailed)]
               && Credited(w.store.books, w'.store.books, row.user, row.amount)
          else w'.store == w.store)
      && (outcome.Executed? ==>
           w'.wires[p].transfer.Some? && w'.wires[p].transfer.value.state == Processing
           && FromKobo(w'.wires[p].transfer.value.kobo) == row.amount)
      && (outcome.Lost? ==> w'.wires[p].transfer == None)
  {
    var row := w.store.payments[p];
    assert RowOk(p, row, FactsOf(w.store.books, p), w.wires[p]);
    KoboRoundTrip(row.amount);
    if outcome.RejectedWith? {
      UndoCredits(w.store.books, p, row.user, row.amount);
    }
  }

  /** A poll without any assumption about the provider: nobody else's row, no row
      that is settled, and no row without a debit that is said to have succeeded is
      touched; a success moves no money, and a failure fails the row. */
  lemma PollAnyhow(s: Store, p: nat, user: UserId, reply: TransferReply)
    requires GoodBooks(s.books) && p < |s.payments|
    ensures var row, s' := s.payments[p], Poll(s, p, user, reply);
      && (row.user != user || row.status != PaymentPending || reply.TransferUnknown? ==> s' == s)
      && (reply.TransferSays? && !reply.success && !reply.undone ==> s' == s)
      && (reply.TransferSays? && reply.success && !Has(s.books.ledger, WithdrawalOf(p)) ==> s' == s)
      && (row.user == user && row.status == PaymentPending && reply.TransferSays? && reply.success
          && Has(s.books.ledger, WithdrawalOf(p)) ==>
            && s'.payments == s.payments[p := row.(status := PaymentSuccess)]
            && s'.books.ledger == s.books.ledger && s'.books.wallets == s.books.wallets
            && FactsOf(s'.books, p).mark == Some(EntryCompleted))
      && (s' == s || s'.payments == s.payments[p := row.(status := PaymentSuccess)]
          || s'.payments == s.payments[p := row.(status := PaymentFailed)])
  {
    MarkFacts(s.books, p, EntryCompleted);
  }

  /** A poll moves money only when the provider says the owner's pending transfer
      did not happen, and then moves exactly the debit back. */
  lemma PollOutcome(w: World, p: nat, user: UserId, reply: TransferReply)
    requires PaymentInv(w) && p < |w.wires| && Honest(w, Polled(p, user, reply))
    ensures var row, s' := w.store.payments[p], Poll(w.store, p, user, reply);
      if row.user != user || row.status != PaymentPending then s' == w.store
      else if reply.TransferUnknown? || (!reply.success && !reply.undone) then s' == w.store
      else if reply.success
      then s'.payments == w.store.payments[p := row.(status := PaymentSuccess)]
           && Credited(w.store.books, s'.books, user, 0)
      else s'.payments == w.store.payments[p := row.(status := PaymentFailed)]
           && Credited(w.store.books, s'.books, user, row.amount)
  {
    var row, b := w.store.payments[p], w.store.books;
    assert RowOk(p, row, FactsOf(b, p), w.wires[p]);
    if row.user == user && row.status == PaymentPending && reply.TransferSays? && !reply.success && reply.undone {
      UndoCredits(b, p, row.user, row.amount);
    }
  }
}
