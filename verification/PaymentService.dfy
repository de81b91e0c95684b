// Funding, withdrawal, webhook handling and status polls as they run, over the
// request's session. Each is proved to leave committed exactly what module
// Payments says.
module PaymentServiceModule {
  import opened Wrappers
  import opened Money
  import opened Ledger
  import opened Store
  import opened Escrow
  import opened Payments
  import opened WalletRepositoryModule

  class PaymentService {
    const session: Session
    const wallets: WalletRepository

    constructor (session: Session)
      ensures this.session == session && wallets.session == session
    {
      this.session := session;
      wallets := new WalletRepository(session);
    }

    ghost predicate Ready()
      reads session
    {
      wallets.session == session && session.tx == session.db
    }

    method SavePayment(p: nat, row: Payment, commit: bool)
      requires session.Valid() && p < |session.tx.payments|
      modifies session
      ensures session.tx == PutPayment(old(session.tx), p, row)
      ensures session.db == if commit then session.tx else old(session.db)
    {
      session.tx := session.tx.(payments := session.tx.payments[p := row]);
      if commit {
        var _ := session.Commit();
      }
    }

    /** Record the intent first; only then is the provider asked. */
    method RequestWalletFund(user: UserId, amount: Amount, accepted: bool) returns (p: nat)
      requires Ready()
      modifies session
      ensures p == |old(session.db).payments|
      ensures session.db == RequestFunding(old(session.db), user, amount, accepted)
    {
      p := |session.tx.payments|;
      session.tx := session.tx.(payments := session.tx.payments + [Payment(user, amount, Funding, PaymentPending)]);
      var _ := session.Commit();
      if !accepted {
        SavePayment(p, session.tx.payments[p].(status := PaymentFailed), true);
      }
      assert session.db == RequestFunding(old(session.db), user, amount, accepted);
    }

    /** The handler's answer: a failure rolls back, anything else is marked processed,
        and that commit carries along whatever was still pending. */
    method Answer(outcome: Outcome) returns (hook: Hook)
      requires session.Valid()
      modifies session
      ensures Delivered(session.db, hook) == Close(old(session.Seen()), outcome)
    {
      if outcome.Failed? {
        session.Rollback();
        return HandlerFailed(outcome.error);
      }
      var _ := session.Commit();
      return Processed;
    }

    method HandleChargeSuccess(p: nat, reply: ChargeReply, eventNaira: Option<bool>) returns (hook: Hook)
      requires Ready()
      modifies session
      ensures Delivered(session.db, hook) == ChargeSuccess(old(session.db), p, reply, eventNaira)
    {
      if p >= |session.tx.payments| {
        return UnknownReference;
      }
      var row := session.tx.payments[p];
      if row.status != PaymentPending {
        return AlreadyProcessed;
      }
      if reply.ChargeUnknown? {
        return VerifyFailed;
      }
      if !reply.success {
        return NotVerified;
      }
      var currency := eventNaira;
      if reply.naira.Some? {
        currency := reply.naira;
      }
      if currency != Some(true) {
        return UnsupportedCurrency;
      }
      if reply.kobo.None? {
        return Malformed;
      }
      var credited := FromKobo(reply.kobo.value);
      SavePayment(p, row.(amount := credited, status := PaymentSuccess), false);
      var outcome := wallets.ApplyEntry(LegFor(DepositOf(p), row.user, credited, EntryCompleted), None);
      hook := Answer(outcome);
    }

    /** Debit first; the row is flushed so that the debit commits it. */
    method RequestWithdrawalOf(user: UserId, amount: Amount, gate: Gate) returns (reply: Reply)
      requires Ready()
      modifies session
      ensures Res(session.db, reply) == RequestWithdrawal(old(session.db), user, amount, gate)
    {
      if !gate.enabled {
        return Refused(Invalid);
      }
      if amount < gate.min || amount > gate.max {
        return Refused(Invalid);
      }
      if !gate.account {
        return Refused(Invalid);
      }
      var p := |session.tx.payments|;
      session.tx := session.tx.(payments := session.tx.payments + [Payment(user, amount, Withdrawing, PaymentPending)]);
      var outcome := wallets.ApplyEntry(LegFor(WithdrawalOf(p), user, amount, EntryPending), None);
      if outcome.Failed? {
        return Refused(Reason.Money(outcome.error));
      }
      var _ := session.Commit();
      return Ok;
    }

    /** The row, the debit's mark and the money back, in one commit. */
    method ReverseWithdrawalOf(p: nat)
      requires Ready() && p < |session.tx.payments|
      modifies session
      ensures session.db == ReverseWithdrawal(old(session.db), p)
    {
      var row := session.tx.payments[p];
      SavePayment(p, row.(status := PaymentFailed), false);
      wallets.MarkEntryStatus(WithdrawalOf(p), EntryReversed, false);
      var _ := wallets.ApplyEntry(LegFor(ReversalOf(p), row.user, row.amount, EntryCompleted), None);
    }

    method GetWithdrawal(p: nat, user: UserId, reply: TransferReply)
      requires Ready()
      modifies session
      ensures session.db == Poll(old(session.db), p, user, reply)
    {
      if p >= |session.tx.payments| || session.tx.payments[p].user != user {
        return;
      }
      if session.tx.payments[p].status != PaymentPending || reply.TransferUnknown? {
        return;
      }
      if reply.success {
        SavePayment(p, session.tx.payments[p].(status := PaymentSuccess), false);
        wallets.MarkEntryStatus(WithdrawalOf(p), EntryCompleted, true);
      } else if reply.undone {
        ReverseWithdrawalOf(p);
      }
    }

    method HandleTransferSuccess(p: nat, reply: TransferReply) returns (hook: Hook)
      requires Ready()
      modifies session
      ensures Delivered(session.db, hook) == TransferSuccess(old(session.db), p, reply)
    {
      if p >= |session.tx.payments| {
        return UnknownReference;
      }
      if session.tx.payments[p].status != PaymentPending {
        return AlreadyProcessed;
      }
      if reply.TransferUnknown? {
        return VerifyFailed;
      }
      if !reply.success {
        return NotVerified;
      }
      SavePayment(p, session.tx.payments[p].(status := PaymentSuccess), false);
      wallets.MarkEntryStatus(WithdrawalOf(p), EntryCompleted, true);
      var _ := session.Commit();
      return Processed;
    }

    /** transfer.failed and transfer.reversed. Without the debit's entry no credit is invented. */
    method HandleTransferReversal(p: nat, final: PaymentStatus) returns (hook: Hook)
      requires Ready()
      modifies session
      ensures Delivered(session.db, hook) == TransferUndone(old(session.db), p, final)
    {
      if p >= |session.tx.payments| {
        return UnknownReference;
      }
      var row := session.tx.payments[p];
      var allowed := if final == PaymentRefunded then {PaymentPending, PaymentSuccess} else {PaymentPending};
      if row.status !in allowed {
        return AlreadyProcessed;
      }
      var original := Find(session.tx.books.ledger, WithdrawalOf(p));
      if original.None? {
        SavePayment(p, row.(status := final), true);
        return NoLedgerEntry;
      }
      SavePayment(p, row.(status := final), false);
      wallets.MarkEntryStatus(WithdrawalOf(p), EntryReversed, false);
      var outcome := wallets.ApplyEntry(LegFor(ReversalOf(p), row.user, original.value.amount, EntryCompleted), None);
      hook := Answer(outcome);
    }
  }
}
