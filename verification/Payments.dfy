// Money crossing the boundary: funding and withdrawal requests, webhook
// deliveries and status polls, beside the payment provider they talk to. A
// payment's reference is its position in the table, so references are fresh.
module Payments {
  import opened Wrappers
  import opened Money
  import opened Ledger
  import opened Store
  import opened Escrow

  // ------------------------------------------------- the provider, per reference

  datatype Charge = Charge(kobo: int, naira: bool)

  datatype TransferState = Processing | Succeeded | TransferFailed | TransferReversed

  datatype Transfer = Transfer(kobo: int, state: TransferState)

  /** What exists outside the database for one reference: whether the provider
      opened a payment page for it, what was paid there, the transfer it was
      sent, and whether a withdrawal request is about to send that transfer. Of a
      legacy reference, settled before there was a ledger, nothing is left to happen. */
  datatype Wire = Wire(page: bool, charge: Option<Charge>, transfer: Option<Transfer>, sending: bool, legacy: bool)

  /** With what the wallets already held when the ledger was opened. */
  datatype World = World(store: Store, wires: seq<Wire>, carried: Amount)

  const EmptyWorld := World(EmptyStore, [], 0)

  /** Answers of verify_transaction: an error, or a status with the settled
      currency and amount, either of which can be missing. */
  datatype ChargeReply = ChargeUnknown | ChargeSays(success: bool, naira: Option<bool>, kobo: Option<int>)

  /** Answers of verify_transfer: an error, or a status. */
  datatype TransferReply = TransferUnknown | TransferSays(success: bool, undone: bool)

  /** What becomes of the one transfer request a withdrawal makes. */
  datatype SendOutcome =
    | Executed              // accepted, whether or not the answer came back
    | Lost                  // timed out, and nothing was executed
    | RejectedWith(executed: bool)  // answered with a definite error

  /** What a webhook delivery ends in. */
  datatype Hook =
    | UnknownReference
    | AlreadyProcessed
    | VerifyFailed
    | NotVerified
    | UnsupportedCurrency
    | Malformed
    | Processed
    | NoLedgerEntry
    | HandlerFailed(error: Error)

  datatype Delivered = Delivered(store: Store, hook: Hook)

  // ----------------------------------------------------------------- funding

  function PutPayment(s: Store, p: nat, row: Payment): Store
    requires p < |s.payments|
  {
    s.(payments := s.payments[p := row])
  }

  /** Record the intent first; a refused initialisation marks it failed. */
  function RequestFunding(s: Store, user: UserId, amount: Amount, accepted: bool): Store {
    s.(payments := s.payments + [Payment(user, amount, Funding, if accepted then PaymentPending else PaymentFailed)])
  }

  /** The webhook's answer is committed after the handler, whatever the handler left pending. */
  function Close(v: View, outcome: Outcome): Delivered {
    match outcome
    case Failed(e) => Delivered(v.db, HandlerFailed(e))
    case _ => Delivered(v.tx, Processed)
  }

  /** charge.success: credit what verification reports, never what the event says. */
  function ChargeSuccess(s: Store, p: nat, reply: ChargeReply, eventNaira: Option<bool>): Delivered {
    if p >= |s.payments| then Delivered(s, UnknownReference)
    else
      var row := s.payments[p];
      if row.status != PaymentPending then Delivered(s, AlreadyProcessed)
      else match reply
        case ChargeUnknown => Delivered(s, VerifyFailed)
        case ChargeSays(success, naira, kobo) =>
          if !success then Delivered(s, NotVerified)
          else if (if naira.Some? then naira else eventNaira) != Some(true) then Delivered(s, UnsupportedCurrency)
          else if kobo.None? then Delivered(s, Malformed)
          else
            var credited := FromKobo(kobo.value);
            var tx := PutPayment(s, p, row.(amount := credited, status := PaymentSuccess));
            var (v, o) := EntryInSession(View(s, tx), LegFor(DepositOf(p), row.user, credited, EntryCompleted));
            Close(v, o)
  }

  // -------------------------------------------------------------- withdrawal

  /** The checks before anything is written: switched on, within limits, an account to pay. */
  datatype Gate = Gate(enabled: bool, min: Amount, max: Amount, account: bool)

  predicate Passes(gate: Gate, amount: Amount) {
    gate.enabled && gate.min <= amount <= gate.max && gate.account
  }

  /** Up to the debit: the row is flushed, and apply_entry commits it with the debit. */
  function RequestWithdrawal(s: Store, user: UserId, amount: Amount, gate: Gate): Res {
    if !Passes(gate, amount) then Res(s, Refused(Invalid))
    else
      var p := |s.payments|;
      var tx := s.(payments := s.payments + [Payment(user, amount, Withdrawing, PaymentPending)]);
      var (v, o) := EntryInSession(View(s, tx), LegFor(WithdrawalOf(p), user, amount, EntryPending));
      Finish(v, o)
  }

  function MarkedTx(s: Store, p: nat, status: PaymentStatus, mark: EntryStatus): Store
    requires p < |s.payments|
  {
    PutPayment(s, p, s.payments[p].(status := status)).(books := Mark(s.books, WithdrawalOf(p), mark))
  }

  /** `_reverse_withdrawal`, called where nothing commits after it: what a replay
      left pending is dropped with the request. */
  function ReverseWithdrawal(s: Store, p: nat): Store
    requires p < |s.payments|
  {
    var row := s.payments[p];
    EntryInSession(View(s, MarkedTx(s, p, PaymentFailed, EntryReversed)),
                   LegFor(ReversalOf(p), row.user, row.amount, EntryCompleted)).0.db
  }

  /** The status poll, for the owner of a pending row. */
  function Poll(s: Store, p: nat, user: UserId, reply: TransferReply): Store {
    if p >= |s.payments| || s.payments[p].user != user || s.payments[p].status != PaymentPending then s
    else match reply
      case TransferUnknown => s
      case TransferSays(success, undone) =>
        if success
          then (if Has(s.books.ledger, WithdrawalOf(p)) then MarkedTx(s, p, PaymentSuccess, EntryCompleted) else s)
        else if undone then ReverseWithdrawal(s, p)
        else s
  }

  function TransferSuccess(s: Store, p: nat, reply: TransferReply): Delivered {
    if p >= |s.payments| then Delivered(s, UnknownReference)
    else if s.payments[p].status != PaymentPending then Delivered(s, AlreadyProcessed)
    else match reply
      case TransferUnknown => Delivered(s, VerifyFailed)
      case TransferSays(success, _) =>
        if !success then Delivered(s, NotVerified)
        else Delivered(MarkedTx(s, p, PaymentSuccess, EntryCompleted), Processed)
  }

  /** transfer.failed and transfer.reversed: only the second may follow a success. */
  function TransferUndone(s: Store, p: nat, final: PaymentStatus): Delivered {
    if p >= |s.payments| then Delivered(s, UnknownReference)
    else
      var row := s.payments[p];
      if row.status != PaymentPending && !(final == PaymentRefunded && row.status == PaymentSuccess)
      then Delivered(s, AlreadyProcessed)
      else match Find(s.books.ledger, WithdrawalOf(p))
        case None => Delivered(PutPayment(s, p, row.(status := final)), NoLedgerEntry)
        case Some(original) =>
          var (v, o) := EntryInSession(View(s, MarkedTx(s, p, final, EntryReversed)),
                                       LegFor(ReversalOf(p), row.user, original.amount, EntryCompleted));
          Close(v, o)
  }

  // -------------------------------------------------------------------- steps

  datatype PayAction =
    | FundRequested(user: UserId, amount: Amount, page: bool, accepted: bool)
    | CustomerPays(p: nat, charge: Charge)
    | ChargeEvent(p: nat, answer: ChargeReply, naira: Option<bool>)
    | WithdrawRequested(user: UserId, amount: Amount, gate: Gate)
    | TransferSent(p: nat, outcome: SendOutcome)
    | ProviderMoves(p: nat, state: TransferState)
    | SuccessEvent(p: nat, reply: TransferReply)
    | FailedEvent(p: nat)
    | ReversedEvent(p: nat)
    | Polled(p: nat, user: UserId, reply: TransferReply)

  function SetWire(w: World, p: nat, x: Wire): World
    requires p < |w.wires|
  {
    w.(wires := w.wires[p := x])
  }

  /** Rows appended to the table get a wire of their own. */
  function Connect(w: World, s: Store, wire: Wire): World {
    w.(store := s, wires := if |s.payments| > |w.store.payments| then w.wires + [wire] else w.wires)
  }

  /** The one transfer request of a withdrawal whose debit is committed. */
  function SendTransfer(w: World, p: nat, outcome: SendOutcome): World
    requires p < |w.wires| == |w.store.payments|
  {
    var sent := Some(Transfer(ToKobo(w.store.payments[p].amount), Processing));
    match outcome
    case Executed => SetWire(w, p, w.wires[p].(sending := false, transfer := sent))
    case Lost => SetWire(w, p, w.wires[p].(sending := false))
    case RejectedWith(executed) =>
      w.(store := ReverseWithdrawal(w.store, p),
         wires := w.wires[p := w.wires[p].(sending := false, transfer := if executed then sent else None)])
  }

  function PayStep(w: World, action: PayAction): World
    requires |w.wires| == |w.store.payments|
  {
    match action
    case FundRequested(user, amount, page, accepted) =>
      Connect(w, RequestFunding(w.store, user, amount, accepted), Wire(page, None, None, false, false))
    case CustomerPays(p, charge) =>
      if p < |w.wires| then SetWire(w, p, w.wires[p].(charge := Some(charge))) else w
    case ChargeEvent(p, answer, naira) => w.(store := ChargeSuccess(w.store, p, answer, naira).store)
    case WithdrawRequested(user, amount, gate) =>
      var r := RequestWithdrawal(w.store, user, amount, gate);
      Connect(w, r.store, Wire(false, None, None, r.reply == Ok, false))
    case TransferSent(p, outcome) => if p < |w.wires| && w.wires[p].sending then SendTransfer(w, p, outcome) else w
    case ProviderMoves(p, state) =>
      if p < |w.wires| && w.wires[p].transfer.Some?
      then SetWire(w, p, w.wires[p].(transfer := Some(w.wires[p].transfer.value.(state := state))))
      else w
    case SuccessEvent(p, reply) => w.(store := TransferSuccess(w.store, p, reply).store)
    case FailedEvent(p) => w.(store := TransferUndone(w.store, p, PaymentFailed).store)
    case ReversedEvent(p) => w.(store := TransferUndone(w.store, p, PaymentRefunded).store)
    case Polled(p, user, reply) => w.(store := Poll(w.store, p, user, reply))
  }

  // ------------------------------------------------- the provider assumptions

  predicate MayMove(from: TransferState, to: TransferState) {
    match from
    case Processing => to != Processing
    case Succeeded => to == TransferReversed
    case _ => false
  }

  predicate TruthfulTransfer(x: Wire, reply: TransferReply) {
    match reply
    case TransferUnknown => true
    case TransferSays(success, undone) =>
      && x.transfer.Some?
      && (success ==> x.transfer.value.state == Succeeded)
      && (undone ==> x.transfer.value.state in {TransferFailed, TransferReversed})
  }

  predicate TruthfulCharge(x: Wire, reply: ChargeReply, eventNaira: Option<bool>) {
    match reply
    case ChargeUnknown => true
    case ChargeSays(success, naira, kobo) =>
      success ==>
        && x.charge.Some?
        && (naira.Some? ==> naira.value == x.charge.value.naira)
        && (kobo.Some? ==> kobo.value == x.charge.value.kobo)
        && (eventNaira.Some? ==> eventNaira.value == x.charge.value.naira)
  }

  /** The provider is honest: it takes one positive payment per open page, says
      of a reference only what is so and only if it was sent it as that kind of
      operation, emits transfer events only for what happened, settles a transfer
      once and reverses only a settled one, and a definite rejection means that
      nothing was executed. */
  predicate Honest(w: World, action: PayAction)
    requires |w.wires| == |w.store.payments|
  {
    match action
    case FundRequested(_, _, page, accepted) => accepted ==> page
    case CustomerPays(p, charge) => p < |w.wires| && w.wires[p].page && w.wires[p].charge.None? && charge.kobo > 0
    case ChargeEvent(p, answer, naira) => p < |w.wires| ==> TruthfulCharge(w.wires[p], answer, naira)
    case WithdrawRequested(_, _, _) => true
    case TransferSent(_, outcome) => !outcome.RejectedWith? || !outcome.executed
    case ProviderMoves(p, state) =>
      p < |w.wires| && w.wires[p].transfer.Some? ==> MayMove(w.wires[p].transfer.value.state, state)
    case SuccessEvent(p, reply) => p < |w.wires| ==> TruthfulTransfer(w.wires[p], reply)
    case FailedEvent(p) => p < |w.wires| ==>
        w.wires[p].transfer.Some? && w.wires[p].transfer.value.state == TransferFailed
    case ReversedEvent(p) => p < |w.wires| ==>
        w.wires[p].transfer.Some? && w.wires[p].transfer.value.state == TransferReversed
    case Polled(p, _, reply) => p < |w.wires| ==> TruthfulTransfer(w.wires[p], reply)
  }
}
