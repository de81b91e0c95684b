// What every run of funding, withdrawal, webhooks and polls keeps, whatever the
// order and repetition of deliveries, and how the money adds up across the
// boundary.
module PaymentProofs {
  import opened Wrappers
  import opened Sums
  import opened Money
  import opened Ledger
  import opened Store
  import opened Escrow
  import opened Payments

  // --------------------------------------------------------------- invariant

  /** What the ledger holds about one payment. */
  datatype Facts = Facts(dep: Option<Entry>, wd: Option<Entry>, rev: Option<Entry>, mark: Option<EntryStatus>)

  const NoFacts := Facts(None, None, None, None)

  function MarkOf(b: Books, ref: Ref): Option<EntryStatus> {
    if ref in b.marks && Has(b.ledger, ref) then Some(b.marks[ref]) else None
  }

  function FactsOf(b: Books, p: nat): Facts {
    Facts(Find(b.ledger, DepositOf(p)), Find(b.ledger, WithdrawalOf(p)), Find(b.ledger, ReversalOf(p)),
      MarkOf(b, WithdrawalOf(p)))
  }

  function EntryFor(ref: Ref, user: UserId, amount: Amount, e: Entry): bool {
    e.user == user && e.amount == amount && e.kind == KindOf(ref)
  }

  predicate FundingOk(p: nat, row: Payment, f: Facts, x: Wire) {
    && f.wd.None? && f.rev.None? && x.transfer.None? && !x.sending
    && (x.charge.Some? ==> x.page)
    && row.status in {PaymentPending, PaymentSuccess, PaymentFailed}
    && (row.status == PaymentPending ==> x.page)
    && (row.status == PaymentSuccess <==> f.dep.Some?)
    && (x.charge.Some? ==> x.charge.value.kobo > 0)
    && (f.dep.Some? ==>
        && x.charge.Some? && x.charge.value.naira
        && row.amount == FromKobo(x.charge.value.kobo)
        && EntryFor(DepositOf(p), row.user, row.amount, f.dep.value))
  }

  /** How far the debit's mark has to agree with the row. */
  function MarkFor(status: PaymentStatus): EntryStatus {
    match status
    case PaymentPending => EntryPending
    case PaymentSuccess => EntryCompleted
    case _ => EntryReversed
  }

  predicate WithdrawalOk(p: nat, row: Payment, f: Facts, x: Wire) {
    && f.dep.None? && x.charge.None? && !x.page
    && (f.wd.None? ==> f.rev.None? && x.transfer.None? && !x.sending && row.status == PaymentPending)
    && (f.wd.Some? ==>
        && Payable(row.amount)
        && EntryFor(WithdrawalOf(p), row.user, row.amount, f.wd.value)
        && f.mark == Some(MarkFor(row.status)))
    && (f.rev.Some? ==> EntryFor(ReversalOf(p), row.user, row.amount, f.rev.value))
    && (f.rev.Some? <==> row.status in {PaymentFailed, PaymentRefunded})
    && (x.sending ==> f.wd.Some? && x.transfer.None? && row.status == PaymentPending)
    && (x.transfer.Some? ==> FromKobo(x.transfer.value.kobo) == row.amount)
    && (row.status == PaymentSuccess ==> x.transfer.Some? && x.transfer.value.state in {Succeeded, TransferReversed})
    && (f.rev.Some? && x.transfer.Some? ==> x.transfer.value.state in {TransferFailed, TransferReversed})
    && (row.status == PaymentRefunded ==> x.transfer.Some? && x.transfer.value.state == TransferReversed)
  }

  /** Settled before the ledger: its deposit may have been written behind it or not. */
  predicate SettledBefore(row: Payment, f: Facts, x: Wire) {
    && row.purpose == Funding && row.status in {PaymentSuccess, PaymentFailed} && f.wd.None? && f.rev.None?
    && x.charge.None? && x.transfer.None? && !x.page && !x.sending
  }

  predicate RowOk(p: nat, row: Payment, f: Facts, x: Wire) {
    if x.legacy then SettledBefore(row, f, x)
    else if row.purpose == Funding then FundingOk(p, row, f, x)
    else WithdrawalOk(p, row, f, x)
  }

  /** What a payment has brought into the wallets, or taken out of them. */
  function Net(f: Facts): Amount {
    (if f.dep.Some? then f.dep.value.amount else 0)
    - (if f.wd.Some? then f.wd.value.amount else 0)
    + (if f.rev.Some? then f.rev.value.amount else 0)
  }

  /** The same since the ledger was opened. */
  function Since(f: Facts, x: Wire): Amount {
    if x.legacy then 0 else Net(f)
  }

  ghost function NetOf(w: World, p: nat): Amount {
    if p < |w.wires| then Since(FactsOf(w.store.books, p), w.wires[p]) else 0
  }

  ghost function NetTotal(w: World): Amount {
    SumTo((p: nat) => NetOf(w, p), |w.wires|)
  }

  ghost predicate PaymentInv(w: World) {
    && |w.wires| == |w.store.payments|
    && GoodBooks(w.store.books)
    && Conserved(w.store.books)
    && (forall p: nat :: p < |w.wires| ==> RowOk(p, w.store.payments[p], FactsOf(w.store.books, p), w.wires[p]))
    && (forall p: nat :: p >= |w.wires| ==> FactsOf(w.store.books, p) == NoFacts)
    && Flow(w.store.books.ledger) == w.carried + NetTotal(w)
  }

  // ------------------------------------------------------- one step, one row

  /** A step about payment `k` alone, possibly a new one: the invariant follows
      from what its row says afterwards and from the flow having moved to match. */
  lemma RowStep(w: World, w': World, k: nat)
    requires PaymentInv(w) && GoodBooks(w'.store.books) && Conserved(w'.store.books)
    requires |w'.wires| == |w'.store.payments| && |w.wires| <= |w'.wires| <= |w.wires| + 1
    requires k <= |w.wires| && (|w'.wires| > |w.wires| ==> k == |w.wires|) && w'.carried == w.carried
    requires forall p: nat :: p < |w.wires| && p != k ==>
        w'.wires[p] == w.wires[p] && w'.store.payments[p] == w.store.payments[p]
    requires forall p: nat :: p != k ==> FactsOf(w'.store.books, p) == FactsOf(w.store.books, p)
    requires k < |w'.wires| ==> RowOk(k, w'.store.payments[k], FactsOf(w'.store.books, k), w'.wires[k])
    requires k >= |w'.wires| ==> FactsOf(w'.store.books, k) == NoFacts
    requires Flow(w'.store.books.ledger) == Flow(w.store.books.ledger) + NetOf(w', k) - NetOf(w, k)
    ensures PaymentInv(w')
  {
    NetMoves(w, w', k);
    forall p: nat | p < |w'.wires|
      ensures RowOk(p, w'.store.payments[p], FactsOf(w'.store.books, p), w'.wires[p])
    {
      assert p != k ==> RowOk(p, w.store.payments[p], FactsOf(w.store.books, p), w.wires[p]);
    }
  }

  lemma NetMoves(w: World, w': World, k: nat)
    requires |w.wires| <= |w'.wires| <= |w.wires| + 1 && k <= |w.wires| && (|w'.wires| > |w.wires| ==> k == |w.wires|)
    requires forall p: nat :: p < |w.wires| && p != k ==> w'.wires[p] == w.wires[p]
    requires forall p: nat :: p != k ==> FactsOf(w'.store.books, p) == FactsOf(w.store.books, p)
    ensures NetTotal(w') == NetTotal(w) + NetOf(w', k) - NetOf(w, k)
  {
    var n := |w'.wires|;
    assert NetOf(w, |w.wires|) == 0;
    SumDiffersAt((p: nat) => NetOf(w, p), (p: nat) => NetOf(w', p), n, k);
    assert k >= n ==> NetOf(w', k) == NetOf(w, k) == 0;
  }

  // ----------------------------------------------------- one entry, one row

  /** One posting: the flow changes by what its entry brings in. */
  lemma PostedFlow(b: Books, leg: Leg)
    requires leg.user in b.wallets && PostLeg(b, leg).Success?
    ensures var b' := PostLeg(b, leg).value;
      && Flow(b'.ledger) == Flow(b.ledger) + External(Last(b'.ledger))
      && Last(b'.ledger).user == leg.user && Last(b'.ledger).kind == leg.kind && Last(b'.ledger).amount == leg.amount
      && Index(b'.ledger) == Index(b.ledger)[leg.ref := Last(b'.ledger)]
      && b'.marks == b.marks[leg.ref := leg.status]
  {
    PostedFacts(b, leg);
    assert Init(PostLeg(b, leg).value.ledger) == b.ledger;
  }

  function FactsAfter(f: Facts, ref: Ref, e: Entry, status: EntryStatus): Facts {
    match ref
    case DepositOf(_) => f.(dep := Some(e))
    case WithdrawalOf(_) => f.(wd := Some(e), mark := Some(status))
    case ReversalOf(_) => f.(rev := Some(e))
    case _ => f
  }

  /** What a new entry under one of a payment's references changes for each payment. */
  lemma FactsAdded(b: Books, b': Books, ref: Ref, p: nat, e: Entry, status: EntryStatus)
    requires ref in {DepositOf(p), WithdrawalOf(p), ReversalOf(p)}
    requires Index(b'.ledger) == Index(b.ledger)[ref := e] && b'.marks == b.marks[ref := status]
    ensures forall i: nat :: i != p ==> FactsOf(b', i) == FactsOf(b, i)
    ensures FactsOf(b', p) == FactsAfter(FactsOf(b, p), ref, e, status)
  {
  }

  /** A posting under one of a payment's references, as seen from every payment. */
  lemma PostedRow(b: Books, ref: Ref, p: nat, user: UserId, amount: Amount, status: EntryStatus)
    requires user in b.wallets && PostLeg(b, LegFor(ref, user, amount, status)).Success?
    requires ref in {DepositOf(p), WithdrawalOf(p), ReversalOf(p)}
    ensures var b' := PostLeg(b, LegFor(ref, user, amount, status)).value;
      && (forall i: nat :: i != p ==> FactsOf(b', i) == FactsOf(b, i))
      && FactsOf(b', p) == FactsAfter(FactsOf(b, p), ref, Last(b'.ledger), status)
      && EntryFor(ref, user, amount, Last(b'.ledger))
      && Flow(b'.ledger) == Flow(b.ledger) + External(Last(b'.ledger))
  {
    PostedFlow(b, LegFor(ref, user, amount, status));
    var b' := PostLeg(b, LegFor(ref, user, amount, status)).value;
    FactsAdded(b, b', ref, p, Last(b'.ledger), status);
  }

  /** apply_entry under one of a payment's references: exactly when it posts, and
      what it changes in the facts and the flow. */
  lemma PayEntry(b: Books, ref: Ref, p: nat, user: UserId, amount: Amount, status: EntryStatus)
    requires GoodBooks(b) && Conserved(b) && ref in {DepositOf(p), WithdrawalOf(p), ReversalOf(p)}
    ensures var r := ApplyEntry(b, LegFor(ref, user, amount, status));
      && GoodBooks(r.books) && Conserved(r.books)
      && (r.outcome.Replayed? <==> Has(b.ledger, ref))
      && (r.outcome.Posted? <==> !Has(b.ledger, ref) && Affordable(b, KindOf(ref), user, amount))
      && (!r.outcome.Posted? ==> r.books.ledger == b.ledger && r.books.marks == b.marks)
  {
    var r := ApplyEntry(b, LegFor(ref, user, amount, status));
    assert GoodBooks(r.books) by { EntryEffect(b, ref, user, amount, status); }
    assert Conserved(r.books) by { EntryConserves(b, LegFor(ref, user, amount, status)); }
    EntryOutcome(b, ref, user, amount, status);
  }

  lemma PayRow(b: Books, ref: Ref, p: nat, user: UserId, amount: Amount, status: EntryStatus)
    requires ref in {DepositOf(p), WithdrawalOf(p), ReversalOf(p)}
    requires ApplyEntry(b, LegFor(ref, user, amount, status)).outcome.Posted?
    ensures var r := ApplyEntry(b, LegFor(ref, user, amount, status));
      && (forall i: nat :: i != p ==> FactsOf(r.books, i) == FactsOf(b, i))
      && r.books.ledger != []
      && FactsOf(r.books, p) == FactsAfter(FactsOf(b, p), ref, Last(r.books.ledger), status)
      && EntryFor(ref, user, amount, Last(r.books.ledger))
      && Flow(r.books.ledger) == Flow(b.ledger) + External(Last(r.books.ledger))
  {
    PostedRow(Ensure(b, user), ref, p, user, amount, status);
  }

  lemma MarkFacts(b: Books, p: nat, status: EntryStatus)
    requires GoodBooks(b)
    ensures var b' := Mark(b, WithdrawalOf(p), status);
      && GoodBooks(b') && b'.ledger == b.ledger && b'.wallets == b.wallets
      && (Conserved(b) ==> Conserved(b'))
      && (forall i: nat :: i != p ==> FactsOf(b', i) == FactsOf(b, i))
      && FactsOf(b', p) == FactsOf(b, p).(mark := if Has(b.ledger, WithdrawalOf(p)) then Some(status) else None)
  {
    var b' := Mark(b, WithdrawalOf(p), status);
    forall i: nat | i < |b'.ledger| ensures EntryOk(b'.ledger, i) && b'.ledger[i].user in b'.wallets {
      assert EntryOk(b.ledger, i);
    }
    forall u: UserId, k: Bucket ensures Balance(b', u, k) == Sum(b'.ledger, u, k) && Balance(b', u, k) >= 0 {
      assert Balance(b', u, k) == Balance(b, u, k) == Sum(b.ledger, u, k);
    }
    if Conserved(b) {
      forall users: nat | Bounded(b', users) ensures Total(b', users) == Flow(b'.ledger) {
        assert Bounded(b, users);
        SumMonotone((u: nat) => Balance(b, u, Available) + Balance(b, u, Bucket.Escrow),
                    (u: nat) => Balance(b', u, Available) + Balance(b', u, Bucket.Escrow), users);
        assert Total(b, users) == Flow(b.ledger);
      }
    }
  }

  /** A credit of a payable amount always goes through. */
  lemma CreditAffordable(b: Books, kind: Kind, user: UserId, amount: Amount)
    requires BooksOk(b) && kind in {Deposit, WithdrawalReversal} && Payable(amount)
    ensures Affordable(b, kind, user, amount)
  {
    assert Balance(b, user, Available) >= 0 && Balance(b, user, Bucket.Escrow) >= 0;
  }

  lemma ReverseFacts(b: Books, p: nat, user: UserId, amount: Amount)
    requires GoodBooks(b) && Has(b.ledger, WithdrawalOf(p))
    requires ApplyEntry(Mark(b, WithdrawalOf(p), EntryReversed),
               LegFor(ReversalOf(p), user, amount, EntryCompleted)).outcome.Posted?
    ensures var r := ApplyEntry(Mark(b, WithdrawalOf(p), EntryReversed),
        LegFor(ReversalOf(p), user, amount, EntryCompleted));
      && (forall i: nat :: i != p ==> FactsOf(r.books, i) == FactsOf(b, i))
      && FactsOf(r.books, p).rev.Some?
      && FactsOf(r.books, p) == FactsOf(b, p).(mark := Some(EntryReversed), rev := FactsOf(r.books, p).rev)
      && EntryFor(ReversalOf(p), user, amount, FactsOf(r.books, p).rev.value)
      && Flow(r.books.ledger) == Flow(b.ledger) + amount
  {
    MarkFacts(b, p, EntryReversed);
    PayRow(Mark(b, WithdrawalOf(p), EntryReversed), ReversalOf(p), p, user, amount, EntryCompleted);
  }

  /** Marking the debit and putting the money back, in one commit. */
  lemma ReverseBooks(b: Books, p: nat, user: UserId, amount: Amount)
    requires GoodBooks(b) && Conserved(b) && Payable(amount)
    requires Has(b.ledger, WithdrawalOf(p)) && !Has(b.ledger, ReversalOf(p))
    ensures var r := ApplyEntry(Mark(b, WithdrawalOf(p), EntryReversed),
        LegFor(ReversalOf(p), user, amount, EntryCompleted));
      && r.outcome.Posted? && GoodBooks(r.books) && Conserved(r.books)
      && (forall i: nat :: i != p ==> FactsOf(r.books, i) == FactsOf(b, i))
      && FactsOf(r.books, p).rev.Some?
      && FactsOf(r.books, p) == FactsOf(b, p).(mark := Some(EntryReversed), rev := FactsOf(r.books, p).rev)
      && EntryFor(ReversalOf(p), user, amount, FactsOf(r.books, p).rev.value)
      && Flow(r.books.ledger) == Flow(b.ledger) + amount
  {
    var b1 := Mark(b, WithdrawalOf(p), EntryReversed);
    MarkFacts(b, p, EntryReversed);
    CreditAffordable(b1, WithdrawalReversal, user, amount);
    PayEntry(b1, ReversalOf(p), p, user, amount, EntryCompleted);
    ReverseFacts(b, p, user, amount);
  }

  // ------------------------------------------------------------ every action

  lemma FundRequestedKeeps(w: World, user: UserId, amount: Amount, page: bool, accepted: bool)
    requires PaymentInv(w) && (accepted ==> page)
    ensures PaymentInv(PayStep(w, FundRequested(user, amount, page, accepted)))
  {
    var w' := PayStep(w, FundRequested(user, amount, page, accepted));
    assert FactsOf(w.store.books, |w.wires|) == NoFacts;
    RowStep(w, w', |w.wires|);
  }

  /** The provider's own moves: a payment arrives, a transfer settles. */
  lemma WireKeeps(w: World, p: nat, x: Wire)
    requires PaymentInv(w) && p < |w.wires| && RowOk(p, w.store.payments[p], FactsOf(w.store.books, p), x)
    requires x.legacy == w.wires[p].legacy
    ensures PaymentInv(SetWire(w, p, x))
  {
    RowStep(w, SetWire(w, p, x), p);
  }

  /** A charge event writes nothing unless its row is pending and its answer is a
      success in naira with an amount; if its deposit is posted, it writes that
      and the row. */
  lemma ChargeShape(s: Store, p: nat, answer: ChargeReply, naira: Option<bool>)
    ensures var s' := ChargeSuccess(s, p, answer, naira).store;
      s' != s ==>
        && p < |s.payments| && s.payments[p].status == PaymentPending
        && answer.ChargeSays? && answer.success && answer.kobo.Some?
        && (if answer.naira.Some? then answer.naira else naira) == Some(true)
        && var credited := FromKobo(answer.kobo.value);
           var r := ApplyEntry(s.books, LegFor(DepositOf(p), s.payments[p].user, credited, EntryCompleted));
           r.outcome.Posted? ==>
             s' == PutPayment(s, p, s.payments[p].(amount := credited, status := PaymentSuccess)).(books := r.books)
  {
  }

  /** A credited row is as it should be, if the provider said what was paid. */
  lemma CreditedRow(p: nat, row: Payment, f: Facts, x: Wire, e: Entry)
    requires RowOk(p, row, f, x) && row.status == PaymentPending && row.purpose == Funding
    requires x.charge.Some? && x.charge.value.naira
    requires EntryFor(DepositOf(p), row.user, FromKobo(x.charge.value.kobo), e)
    ensures RowOk(p, row.(amount := FromKobo(x.charge.value.kobo), status := PaymentSuccess), f.(dep := Some(e)), x)
    ensures Since(f.(dep := Some(e)), x) == Since(f, x) + External(e)
  {
  }

  /** The row and its deposit, written together. */
  function CreditedStore(s: Store, p: nat, credited: Amount): Store
    requires p < |s.payments|
  {
    var row := s.payments[p];
    PutPayment(s, p, row.(amount := credited, status := PaymentSuccess)).(books :=
      ApplyEntry(s.books, LegFor(DepositOf(p), row.user, credited, EntryCompleted)).books)
  }

  lemma RowCredited(w: World, p: nat)
    requires PaymentInv(w) && p < |w.wires| && w.store.payments[p].status == PaymentPending
    requires w.wires[p].charge.Some? && w.wires[p].charge.value.naira
    ensures var credited := FromKobo(w.wires[p].charge.value.kobo);
      && ApplyEntry(w.store.books,
           LegFor(DepositOf(p), w.store.payments[p].user, credited, EntryCompleted)).outcome.Posted?
      && PaymentInv(w.(store := CreditedStore(w.store, p, credited)))
  {
    var row, b := w.store.payments[p], w.store.books;
    var credited := FromKobo(w.wires[p].charge.value.kobo);
    var s' := CreditedStore(w.store, p, credited);
    assert RowOk(p, row, FactsOf(b, p), w.wires[p]) && Payable(credited);
    CreditAffordable(b, Deposit, row.user, credited);
    PayEntry(b, DepositOf(p), p, row.user, credited, EntryCompleted);
    PayRow(b, DepositOf(p), p, row.user, credited, EntryCompleted);
    CreditedRow(p, row, FactsOf(b, p), w.wires[p], Last(s'.books.ledger));
    RowStep(w, w.(store := s'), p);
  }

  lemma ChargeEventKeeps(w: World, p: nat, answer: ChargeReply, naira: Option<bool>)
    requires PaymentInv(w) && Honest(w, ChargeEvent(p, answer, naira))
    ensures PaymentInv(PayStep(w, ChargeEvent(p, answer, naira)))
  {
    var s' := ChargeSuccess(w.store, p, answer, naira).store;
    ChargeShape(w.store, p, answer, naira);
    if s' != w.store {
      assert answer.kobo.value == w.wires[p].charge.value.kobo;
      RowCredited(w, p);
    }
  }

  /** A request that gets past its checks, case by case. */
  lemma WithdrawalResult(s: Store, user: UserId, amount: Amount, gate: Gate)
    requires GoodBooks(s.books) && Find(s.books.ledger, WithdrawalOf(|s.payments|)).None? && Passes(gate, amount)
    ensures var r := ApplyEntry(s.books, LegFor(WithdrawalOf(|s.payments|), user, amount, EntryPending));
      var kept := s.(payments := s.payments + [Payment(user, amount, Withdrawing, PaymentPending)], books := r.books);
      if r.outcome.Posted? then RequestWithdrawal(s, user, amount, gate) == Res(kept, Ok)
      else RequestWithdrawal(s, user, amount, gate).reply != Ok
           && RequestWithdrawal(s, user, amount, gate).store == if user in s.books.wallets then s else kept
  {
    EntryEffect(s.books, WithdrawalOf(|s.payments|), user, amount, EntryPending);
  }

  lemma WithdrawRequestedKeeps(w: World, user: UserId, amount: Amount, gate: Gate)
    requires PaymentInv(w)
    ensures PaymentInv(PayStep(w, WithdrawRequested(user, amount, gate)))
  {
    var p, b := |w.wires|, w.store.books;
    var w' := PayStep(w, WithdrawRequested(user, amount, gate));
    if w' != w {
      assert FactsOf(b, p) == NoFacts;
      WithdrawalResult(w.store, user, amount, gate);
      PayEntry(b, WithdrawalOf(p), p, user, amount, EntryPending);
      var r := ApplyEntry(b, LegFor(WithdrawalOf(p), user, amount, EntryPending));
      if r.outcome.Posted? {
        PayRow(b, WithdrawalOf(p), p, user, amount, EntryPending);
        WithdrawalPosted(r.books, p, user, amount);
      }
      assert w'.store.books == r.books;
      RowStep(w, w', p);
    }
  }

  lemma WithdrawalPosted(b: Books, p: nat, user: UserId, amount: Amount)
    requires b.ledger != [] && FactsOf(b, p) == FactsAfter(NoFacts, WithdrawalOf(p), Last(b.ledger), EntryPending)
    requires EntryFor(WithdrawalOf(p), user, amount, Last(b.ledger)) && Payable(amount)
    ensures RowOk(p, Payment(user, amount, Withdrawing, PaymentPending), FactsOf(b, p),
              Wire(false, None, None, true, false))
    ensures Net(FactsOf(b, p)) == External(Last(b.ledger))
  {
  }

  lemma ReverseKeeps(w: World, p: nat, x: Wire)
    requires PaymentInv(w) && p < |w.wires| && w.store.payments[p].status == PaymentPending
    requires Has(w.store.books.ledger, WithdrawalOf(p))
    requires !x.sending && x.charge.None? && !x.page && !x.legacy
    requires x.transfer.Some? ==>
      && w.wires[p].transfer.Some? && x.transfer.value.kobo == w.wires[p].transfer.value.kobo
      && x.transfer.value.state in {TransferFailed, TransferReversed}
    ensures PaymentInv(w.(store := ReverseWithdrawal(w.store, p), wires := w.wires[p := x]))
  {
    var row, b := w.store.payments[p], w.store.books;
    assert RowOk(p, row, FactsOf(b, p), w.wires[p]);
    ReverseBooks(b, p, row.user, row.amount);
    RowStep(w, w.(store := ReverseWithdrawal(w.store, p), wires := w.wires[p := x]), p);
  }

  lemma TransferSentKeeps(w: World, p: nat, outcome: SendOutcome)
    requires PaymentInv(w) && Honest(w, TransferSent(p, outcome))
    ensures PaymentInv(PayStep(w, TransferSent(p, outcome)))
  {
    if p < |w.wires| && w.wires[p].sending {
      var row := w.store.payments[p];
      assert RowOk(p, row, FactsOf(w.store.books, p), w.wires[p]);
      KoboRoundTrip(row.amount);
      match outcome
      case RejectedWith(_) => ReverseKeeps(w, p, w.wires[p].(sending := false, transfer := None));
      case Executed => WireKeeps(w, p,
          w.wires[p].(sending := false, transfer := Some(Transfer(ToKobo(row.amount), Processing))));
      case Lost => WireKeeps(w, p, w.wires[p].(sending := false));
    }
  }

  lemma MarkedKeeps(w: World, p: nat)
    requires PaymentInv(w) && p < |w.wires| && w.store.payments[p].status == PaymentPending
    requires Has(w.store.books.ledger, WithdrawalOf(p))
    requires w.wires[p].transfer.Some? && w.wires[p].transfer.value.state == Succeeded
    ensures PaymentInv(w.(store := MarkedTx(w.store, p, PaymentSuccess, EntryCompleted)))
  {
    assert RowOk(p, w.store.payments[p], FactsOf(w.store.books, p), w.wires[p]);
    MarkFacts(w.store.books, p, EntryCompleted);
    RowStep(w, w.(store := MarkedTx(w.store, p, PaymentSuccess, EntryCompleted)), p);
  }

  lemma SuccessEventKeeps(w: World, p: nat, reply: TransferReply)
    requires PaymentInv(w) && Honest(w, SuccessEvent(p, reply))
    ensures PaymentInv(PayStep(w, SuccessEvent(p, reply)))
  {
    if p < |w.wires| && w.store.payments[p].status == PaymentPending && reply.TransferSays? && reply.success {
      assert RowOk(p, w.store.payments[p], FactsOf(w.store.books, p), w.wires[p]);
      MarkedKeeps(w, p);
    }
  }

  /** A transfer event writes nothing unless its row is pending, or a success that
      has been reversed; if the debit is there and its reversal is posted, it
      writes that, the mark and the row. */
  lemma UndoneShape(s: Store, p: nat, final: PaymentStatus)
    ensures var s' := TransferUndone(s, p, final).store;
      s' != s ==>
        && p < |s.payments|
        && (|| s.payments[p].status == PaymentPending
            || (final == PaymentRefunded && s.payments[p].status == PaymentSuccess))
        && (Has(s.books.ledger, WithdrawalOf(p)) ==>
             var r := ApplyEntry(Mark(s.books, WithdrawalOf(p), EntryReversed),
               LegFor(ReversalOf(p), s.payments[p].user, Find(s.books.ledger, WithdrawalOf(p)).value.amount,
                 EntryCompleted));
             r.outcome.Posted? ==> s' == MarkedTx(s, p, final, EntryReversed).(books := r.books))
  {
  }

  /** A reversed row is as it should be. */
  lemma ReversedRow(p: nat, row: Payment, f: Facts, x: Wire, f': Facts, final: PaymentStatus)
    requires RowOk(p, row, f, x) && f.wd.Some? && f.rev.None? && f'.rev.Some?
    requires f' == f.(mark := Some(EntryReversed), rev := f'.rev)
    requires EntryFor(ReversalOf(p), row.user, row.amount, f'.rev.value) && !x.sending
    requires final == PaymentFailed || final == PaymentRefunded
    requires if final == PaymentFailed
             then x.transfer.Some? ==> x.transfer.value.state in {TransferFailed, TransferReversed}
             else x.transfer.Some? && x.transfer.value.state == TransferReversed
    ensures RowOk(p, row.(status := final), f', x) && Since(f', x) == Since(f, x) + row.amount
  {
  }

  /** What a row with a transfer that can still be undone says. */
  lemma UndoableRow(p: nat, row: Payment, f: Facts, x: Wire)
    requires RowOk(p, row, f, x) && x.transfer.Some? && row.status in {PaymentPending, PaymentSuccess}
    ensures f.wd.Some? && f.rev.None? && f.wd.value.amount == row.amount && Payable(row.amount) && !x.sending
  {
  }

  function UndoneEntry(s: Store, p: nat): Applied
    requires p < |s.payments|
  {
    ApplyEntry(Mark(s.books, WithdrawalOf(p), EntryReversed),
               LegFor(ReversalOf(p), s.payments[p].user, s.payments[p].amount, EntryCompleted))
  }

  lemma RowReversed(w: World, p: nat, final: PaymentStatus)
    requires PaymentInv(w) && p < |w.wires| && w.wires[p].transfer.Some?
    requires w.store.payments[p].status in {PaymentPending, PaymentSuccess} && final in {PaymentFailed, PaymentRefunded}
    requires w.wires[p].transfer.value.state == (if final == PaymentFailed then TransferFailed else TransferReversed)
    ensures UndoneEntry(w.store, p).outcome.Posted?
    ensures PaymentInv(w.(store :=
              MarkedTx(w.store, p, final, EntryReversed).(books := UndoneEntry(w.store, p).books)))
  {
    var row, b := w.store.payments[p], w.store.books;
    var s' := MarkedTx(w.store, p, final, EntryReversed).(books := UndoneEntry(w.store, p).books);
    assert RowOk(p, row, FactsOf(b, p), w.wires[p]);
    UndoableRow(p, row, FactsOf(b, p), w.wires[p]);
    ReverseBooks(b, p, row.user, row.amount);
    ReversedRow(p, row, FactsOf(b, p), w.wires[p], FactsOf(s'.books, p), final);
    RowStep(w, w.(store := s'), p);
  }

  lemma UndoneKeeps(w: World, p: nat, final: PaymentStatus)
    requires PaymentInv(w) && final in {PaymentFailed, PaymentRefunded}
    requires p < |w.wires| ==>
      && w.wires[p].transfer.Some?
      && w.wires[p].transfer.value.state == (if final == PaymentFailed then TransferFailed else TransferReversed)
    ensures PaymentInv(w.(store := TransferUndone(w.store, p, final).store))
  {
    var s' := TransferUndone(w.store, p, final).store;
    UndoneShape(w.store, p, final);
    if s' != w.store {
      assert RowOk(p, w.store.payments[p], FactsOf(w.store.books, p), w.wires[p]);
      UndoableRow(p, w.store.payments[p], FactsOf(w.store.books, p), w.wires[p]);
      RowReversed(w, p, final);
    }
  }

  lemma PolledKeeps(w: World, p: nat, user: UserId, reply: TransferReply)
    requires PaymentInv(w) && Honest(w, Polled(p, user, reply))
    ensures PaymentInv(PayStep(w, Polled(p, user, reply)))
  {
    if Poll(w.store, p, user, reply) != w.store {
      assert RowOk(p, w.store.payments[p], FactsOf(w.store.books, p), w.wires[p]);
      if reply.success {
        MarkedKeeps(w, p);
      } else {
        ReverseKeeps(w, p, w.wires[p]);
        assert w.wires[p := w.wires[p]] == w.wires;
      }
    }
  }

  /** Every step of an honest provider, and every handler, keeps the invariant. */
  lemma PayStepKeeps(w: World, action: PayAction)
    requires PaymentInv(w) && Honest(w, action)
    ensures PaymentInv(PayStep(w, action))
  {
    match action
    case FundRequested(user, amount, page, accepted) => FundRequestedKeeps(w, user, amount, page, accepted);
    case CustomerPays(p, charge) =>
      assert RowOk(p, w.store.payments[p], FactsOf(w.store.books, p), w.wires[p]);
      WireKeeps(w, p, w.wires[p].(charge := Some(charge)));
    case ChargeEvent(p, answer, naira) => ChargeEventKeeps(w, p, answer, naira);
    case WithdrawRequested(user, amount, gate) => WithdrawRequestedKeeps(w, user, amount, gate);
    case TransferSent(p, outcome) => TransferSentKeeps(w, p, outcome);
    case ProviderMoves(p, state) =>
      if p < |w.wires| && w.wires[p].transfer.Some? {
        assert RowOk(p, w.store.payments[p], FactsOf(w.store.books, p), w.wires[p]);
        WireKeeps(w, p, w.wires[p].(transfer := Some(w.wires[p].transfer.value.(state := state))));
      }
    case SuccessEvent(p, reply) => SuccessEventKeeps(w, p, reply);
    case FailedEvent(p) => UndoneKeeps(w, p, PaymentFailed);
    case ReversedEvent(p) => UndoneKeeps(w, p, PaymentRefunded);
    case Polled(p, user, reply) => PolledKeeps(w, p, user, reply);
  }
}
