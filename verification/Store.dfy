// The rows the application keeps, and one request's view of them: what is
// committed, and what the request's own transaction sees with its flushed writes.
module Store {
  import opened Wrappers
  import opened Money
  import opened Ledger

  // -------------------------------------------------------------- agreements

  datatype Role = Depositor | Beneficiary

  function Opposite(role: Role): Role {
    if role == Depositor then Beneficiary else Depositor
  }

  datatype Membership = Joined | Declined

  datatype Participant = Participant(user: UserId, role: Role, membership: Membership)

  datatype InvitationStatus = Open | Taken | Expired

  datatype Invitation = Invitation(email: nat, role: Role, status: InvitationStatus)

  datatype ConditionStatus = Outstanding | Submitted | Approved | Rejected

  datatype Decision = FavourDepositor | FavourBeneficiary | Split | Dismissed

  datatype DisputeStatus = Raised | UnderReview | Resolved(decision: Decision)

  datatype AgreementStatus = Pending | Active | Disputed | Completed | Cancelled | Refunded

  datatype Dispute = Dispute(status: DisputeStatus, statusBefore: AgreementStatus)

  datatype Agreement = Agreement(
    amount: Amount, status: AgreementStatus,
    participants: seq<Participant>, invitation: Invitation,
    conditions: seq<ConditionStatus>, disputes: seq<Dispute>)

  // ------------------------------------------------------- provider payments

  datatype Purpose = Funding | Withdrawing

  datatype PaymentStatus = PaymentPending | PaymentSuccess | PaymentFailed | PaymentRefunded

  datatype Payment = Payment(user: UserId, amount: Amount, purpose: Purpose, status: PaymentStatus)

  // ------------------------------------------------------------------- store

  /** Agreements and payments are named by their position: a fresh id is the next one. */
  datatype Store = Store(books: Books, agreements: seq<Agreement>, payments: seq<Payment>)

  const EmptyStore := Store(EmptyBooks, [], [])

  /** One request's session. Handlers start with `tx == db`. */
  datatype View = View(db: Store, tx: Store)

  function Clean(s: Store): View {
    View(s, s)
  }

  // ------------------------------------------- money inside a request session

  /** apply_entry inside a session. A replay leaves the flushed writes pending, a
      success commits them with the entry. A failure discards them, unless the
      wallet had to be created: that step commits, and takes them with it. */
  function EntryInSession(v: View, leg: Leg): (View, Outcome) {
    var r := ApplyEntry(v.tx.books, leg);
    match r.outcome
    case Replayed(_) => (v, r.outcome)
    case Posted(_) => (Clean(v.tx.(books := r.books)), r.outcome)
    case Failed(_) =>
      (if leg.user in v.tx.books.wallets then Clean(v.db) else Clean(v.tx.(books := r.books)), r.outcome)
  }

  /** apply_transfer inside a session, with the same rule for two wallets. */
  function TransferInSession(v: View, group: nat, debit: Leg, credit: Leg): (View, Outcome) {
    var r := ApplyTransfer(v.tx.books, group, debit, credit);
    match r.outcome
    case Replayed(_) => (v, r.outcome)
    case Posted(_) => (Clean(v.tx.(books := r.books)), r.outcome)
    case Failed(_) =>
      (if debit.user in v.tx.books.wallets && credit.user in v.tx.books.wallets
       then Clean(v.db) else Clean(v.tx.(books := r.books)), r.outcome)
  }

  /** apply_entry when it is overtaken: its look found nothing, and by the time it
      holds its wallet row another caller has committed `now`, with an entry under
      its reference. If the row covers the leg, the commit conflicts; the session
      is rolled back, and the second look finds the other caller's entry. */
  function EntryOvertaken(now: Store, leg: Leg): (View, Outcome)
    requires leg.user in now.books.wallets && Find(now.books.ledger, leg.ref).Some?
  {
    match PostWallet(now.books.wallets[leg.user], leg)
    case Failure(e) => (Clean(now), Failed(e))
    case Success(_) => (Clean(now), Replayed([Find(now.books.ledger, leg.ref).value]))
  }

  /** apply_transfer when it is overtaken on either reference. */
  function TransferOvertaken(now: Store, group: nat, debit: Leg, credit: Leg): (View, Outcome)
    requires debit.user in now.books.wallets && credit.user in now.books.wallets
    requires Find(now.books.ledger, debit.ref).Some? || Find(now.books.ledger, credit.ref).Some?
  {
    match PostTransfer(now.books, debit, credit)
    case Failure(e) => (Clean(now), Failed(e))
    case Success(_) =>
      var existing := Group(now.books.ledger, group);
      (Clean(now), if |existing| == 2 then Replayed(ReplayPair(existing, group)) else Failed(IntegrityError))
  }

  // ---------------------------------------------------- genuine references

  /** The kind of movement, the agreement and the group a reference names. */
  function KindOf(ref: Ref): Kind {
    match ref
    case LockOf(_) => EscrowLock
    case Out(_) => EscrowReleaseOut
    case In(_) => EscrowReleaseIn
    case RefundOf(_) => EscrowRefund
    case DepositOf(_) => Deposit
    case WithdrawalOf(_) => Withdrawal
    case ReversalOf(_) => WithdrawalReversal
    case Opening(_) => AdjustmentCredit
  }

  function AgreementOf(ref: Ref): Option<nat> {
    match ref
    case LockOf(a) => Some(a)
    case Out(a) => Some(a)
    case In(a) => Some(a)
    case RefundOf(a) => Some(a)
    case _ => None
  }

  function GroupOf(ref: Ref): Option<nat> {
    match ref
    case Out(g) => Some(g)
    case In(g) => Some(g)
    case _ => None
  }

  /** The leg a service asks for under a reference. */
  function LegFor(ref: Ref, user: UserId, amount: Amount, status: EntryStatus): Leg {
    Leg(user, KindOf(ref), amount, ref, GroupOf(ref), AgreementOf(ref), status)
  }

  /** An entry is of the kind, and about the object, that its reference names. */
  predicate Genuine(e: Entry) {
    e.kind == KindOf(e.ref) && e.agreement == AgreementOf(e.ref) && e.group == GroupOf(e.ref)
  }

  predicate AllGenuine(ledger: seq<Entry>) {
    forall e :: e in ledger ==> Genuine(e)
  }

  predicate Has(ledger: seq<Entry>, ref: Ref) {
    Find(ledger, ref).Some?
  }

  /** Funded by entry type is funded by reference, in a genuine ledger. */
  lemma FundedByKind(ledger: seq<Entry>, a: nat)
    requires AllGenuine(ledger)
    ensures HasEntryOfKind(ledger, a, EscrowLock) <==> Has(ledger, LockOf(a))
  {
    Found(ledger, LockOf(a));
    if HasEntryOfKind(ledger, a, EscrowLock) {
      var i :| 0 <= i < |ledger| && ledger[i].agreement == Some(a) && ledger[i].kind == EscrowLock;
      assert Genuine(ledger[i]) && ledger[i].ref == LockOf(a);
    }
  }

  /** Both release legs are stored or neither is, and the group query sees them. */
  lemma ReleasedByGroup(ledger: seq<Entry>, a: nat)
    requires UniqueRefs(ledger) && GroupsWhole(ledger) && AllGenuine(ledger)
    ensures |Group(ledger, a)| == 2 <==> Has(ledger, Out(a))
    ensures Has(ledger, In(a)) <==> Has(ledger, Out(a))
  {
    var legs := Group(ledger, a);
    if legs != [] {
      GroupMember(ledger, legs[0], a);
      GroupMember(ledger, legs[1], a);
      FindMember(ledger, legs[0]);
      FindMember(ledger, legs[1]);
    }
    Found(ledger, Out(a));
    Found(ledger, In(a));
    if Has(ledger, Out(a)) {
      GroupMember(ledger, Find(ledger, Out(a)).value, a);
    }
    if Has(ledger, In(a)) {
      GroupMember(ledger, Find(ledger, In(a)).value, a);
    }
  }

  // ------------------------------------------------- effects of one movement

  ghost predicate GoodBooks(b: Books) {
    BooksOk(b) && GroupsWhole(b.ledger) && AllGenuine(b.ledger)
  }

  /** Can this movement be posted: payable, and neither bucket goes negative. */
  predicate Affordable(b: Books, kind: Kind, user: UserId, amount: Amount) {
    && Payable(amount)
    && Balance(b, user, Available) + Delta(kind, Available, amount) >= 0
    && Balance(b, user, Bucket.Escrow) + Delta(kind, Bucket.Escrow, amount) >= 0
  }

  /** Only one user's balances moved, by the kind's effect. */
  ghost predicate Moved(b: Books, b': Books, kind: Kind, user: UserId, amount: Amount) {
    var available, escrow := Delta(kind, Available, amount), Delta(kind, Bucket.Escrow, amount);
    && (forall u: UserId ::
         Balance(b', u, Available) == Balance(b, u, Available) + (if u == user then available else 0))
    && (forall u: UserId ::
         Balance(b', u, Bucket.Escrow) == Balance(b, u, Bucket.Escrow) + (if u == user then escrow else 0))
  }

  ghost predicate SameBalances(b: Books, b': Books) {
    forall u: UserId, k: Bucket :: Balance(b', u, k) == Balance(b, u, k)
  }

  /** Postings cannot fail for want of money when they are affordable, and the
      other way round. */
  lemma PostWhen(b: Books, leg: Leg)
    requires BooksOk(b) && leg.user in b.wallets
    ensures PostLeg(b, leg).Success? <==> Affordable(b, leg.kind, leg.user, leg.amount)
  {
    assert Balance(b, leg.user, Available) == b.wallets[leg.user].available;
    assert Balance(b, leg.user, Bucket.Escrow) == b.wallets[leg.user].escrow;
  }

  lemma GenuineAppend(ledger: seq<Entry>, e: Entry)
    requires AllGenuine(ledger) && Genuine(e)
    ensures AllGenuine(ledger + [e])
  {
  }

  /** Which of the three answers apply_entry gives, and with which books. */
  lemma EntryOutcome(b: Books, ref: Ref, user: UserId, amount: Amount, status: EntryStatus)
    requires BooksOk(b)
    ensures var leg := LegFor(ref, user, amount, status);
      var r := ApplyEntry(b, leg);
      && (r.outcome.Replayed? <==> Has(b.ledger, ref))
      && (r.outcome.Posted? <==> !Has(b.ledger, ref) && Affordable(b, KindOf(ref), user, amount))
      && (r.outcome.Replayed? ==> r.books == b && r.outcome.entries == [Find(b.ledger, ref).value])
      && (r.outcome.Failed? ==> r.books == Ensure(b, user))
      && (r.outcome.Posted? ==>
          && PostLeg(Ensure(b, user), leg).Success?
          && r.books == PostLeg(Ensure(b, user), leg).value
          && r.outcome.entries == [Last(r.books.ledger)])
  {
    EnsureFacts(b, user);
    if !Has(b.ledger, ref) {
      PostWhen(Ensure(b, user), LegFor(ref, user, amount, status));
      SameAfford(b, Ensure(b, user), KindOf(ref), user, amount);
    }
  }

  lemma SameAfford(b: Books, b': Books, kind: Kind, user: UserId, amount: Amount)
    requires SameBalances(b, b')
    ensures Affordable(b', kind, user, amount) <==> Affordable(b, kind, user, amount)
  {
  }

  /** A posting under a new service reference keeps the books good. */
  lemma PostedGood(b: Books, ref: Ref, user: UserId, amount: Amount, status: EntryStatus)
    requires GoodBooks(b) && GroupOf(ref) == None && !Has(b.ledger, ref) && user in b.wallets
    requires PostLeg(b, LegFor(ref, user, amount, status)).Success?
    ensures GoodBooks(PostLeg(b, LegFor(ref, user, amount, status)).value)
  {
    var leg := LegFor(ref, user, amount, status);
    var b' := PostLeg(b, leg).value;
    PostKeepsBooks(b, leg);
    assert b'.ledger == b.ledger + [Last(b'.ledger)];
    Appended(b.ledger, Last(b'.ledger));
    GroupsKept(b.ledger, b'.ledger);
    GenuineAppend(b.ledger, Last(b'.ledger));
  }

  /** And changes nothing but its user's balances, its own entry and its mark. */
  lemma PostedEffect(b: Books, ref: Ref, user: UserId, amount: Amount, status: EntryStatus)
    requires user in b.wallets && PostLeg(b, LegFor(ref, user, amount, status)).Success?
    ensures var b' := PostLeg(b, LegFor(ref, user, amount, status)).value;
      && (forall q: Ref :: q != ref ==> Find(b'.ledger, q) == Find(b.ledger, q))
      && Moved(b, b', KindOf(ref), user, amount)
      && Find(b'.ledger, ref) == Some(Last(b'.ledger))
      && Last(b'.ledger).user == user && Last(b'.ledger).amount == amount
      && b'.marks == b.marks[ref := status]
  {
    PostMoves(b, LegFor(ref, user, amount, status));
  }

  /** apply_entry for one of the service references: exactly when it posts,
      replays or fails, and everything it changes. */
  lemma EntryEffect(b: Books, ref: Ref, user: UserId, amount: Amount, status: EntryStatus)
    requires GoodBooks(b) && GroupOf(ref) == None
    ensures var r := ApplyEntry(b, LegFor(ref, user, amount, status));
      && GoodBooks(r.books)
      && (forall q: Ref :: q != ref ==> Find(r.books.ledger, q) == Find(b.ledger, q))
      && (r.outcome.Replayed? <==> Has(b.ledger, ref))
      && (r.outcome.Posted? <==> !Has(b.ledger, ref) && Affordable(b, KindOf(ref), user, amount))
      && (r.outcome.Replayed? ==> r.books == b && r.outcome.entries == [Find(b.ledger, ref).value])
      && (r.outcome.Failed? ==>
           r.books == Ensure(b, user) && SameBalances(b, r.books) && Find(r.books.ledger, ref).None?)
      && (r.outcome.Posted? ==>
          && Moved(b, r.books, KindOf(ref), user, amount)
          && Has(r.books.ledger, ref)
          && r.outcome.entries == [Find(r.books.ledger, ref).value]
          && Find(r.books.ledger, ref).value.user == user
          && Find(r.books.ledger, ref).value.amount == amount
          && r.books.marks == b.marks[ref := status])
  {
    EntryOutcome(b, ref, user, amount, status);
    EnsureFacts(b, user);
    if ApplyEntry(b, LegFor(ref, user, amount, status)).outcome.Posted? {
      PostedGood(Ensure(b, user), ref, user, amount, status);
      PostedEffect(Ensure(b, user), ref, user, amount, status);
    }
  }

  /** A replay is genuine: the entry is of the requested kind, about the requested
      agreement, in the requested group. */
  lemma ReplaysAreGenuine(b: Books, ref: Ref, user: UserId, amount: Amount, status: EntryStatus)
    requires AllGenuine(b.ledger)
    ensures var r := ApplyEntry(b, LegFor(ref, user, amount, status));
      r.outcome.Replayed? ==> (
        && |r.outcome.entries| == 1
        && var e := r.outcome.entries[0];
           e in b.ledger && e.ref == ref && e.kind == KindOf(ref) && e.agreement == AgreementOf(ref)
             && e.group == GroupOf(ref))
  {
    Found(b.ledger, ref);
  }

  lemma PostMoves(b: Books, leg: Leg)
    requires leg.user in b.wallets && PostLeg(b, leg).Success?
    ensures var b' := PostLeg(b, leg).value;
      && Index(b'.ledger) == Index(b.ledger)[leg.ref := Last(b'.ledger)]
      && Moved(b, b', leg.kind, leg.user, leg.amount)
  {
    PostedFacts(b, leg);
  }

  /** Posted, a movement has its effect; replayed, none. */
  lemma EntryMoves(b: Books, ref: Ref, user: UserId, amount: Amount)
    requires BooksOk(b)
    ensures var r := ApplyEntry(b, LegFor(ref, user, amount, EntryCompleted));
      && (r.outcome.Posted? ==> Moved(b, r.books, KindOf(ref), user, amount))
      && (r.outcome.Replayed? ==> r.books == b)
  {
    EntryOutcome(b, ref, user, amount, EntryCompleted);
    EnsureFacts(b, user);
    if ApplyEntry(b, LegFor(ref, user, amount, EntryCompleted)).outcome.Posted? {
      PostMoves(Ensure(b, user), LegFor(ref, user, amount, EntryCompleted));
    }
  }

  /** A payable debit that is not covered is refused for want of funds. */
  lemma WhyDebitFails(b: Books, leg: Leg)
    requires leg.kind in {EscrowLock, Withdrawal} && BooksOk(b) && Find(b.ledger, leg.ref).None?
    ensures ApplyEntry(b, leg).outcome == Failed(InsufficientFunds) <==>
              Payable(leg.amount) && Balance(b, leg.user, Available) < leg.amount
  {
    EnsureFacts(b, leg.user);
    var w := Ensure(b, leg.user).wallets[leg.user];
    assert w.available == Balance(b, leg.user, Available) && w.escrow == Balance(b, leg.user, Bucket.Escrow);
    assert Balance(b, leg.user, Available) >= 0 && Balance(b, leg.user, Bucket.Escrow) >= 0;
    PostingTable(w, leg);
  }

  /** apply_transfer for a release between two different users. */
  lemma ReleaseEffect(b: Books, a: nat, from: UserId, to: UserId, amount: Amount)
    requires GoodBooks(b) && from != to
    ensures var r := ApplyTransfer(b, a, LegFor(Out(a), from, amount, EntryCompleted),
        LegFor(In(a), to, amount, EntryCompleted));
      && GoodBooks(r.books)
      && (forall q: Ref :: q != Out(a) && q != In(a) ==> Find(r.books.ledger, q) == Find(b.ledger, q))
      && (r.outcome.Replayed? <==> Has(b.ledger, Out(a)))
      && (r.outcome.Posted? <==> !Has(b.ledger, Out(a)) && Payable(amount) && Balance(b, from, Bucket.Escrow) >= amount)
      && (r.outcome.Replayed? ==> r.books == b)
      && (r.outcome.Failed? ==> SameBalances(b, r.books) && r.books.ledger == b.ledger)
      && (r.outcome.Posted? ==>
          && Has(r.books.ledger, Out(a)) && Has(r.books.ledger, In(a))
          && r.books.marks == b.marks[Out(a) := EntryCompleted][In(a) := EntryCompleted]
          && forall u: UserId ::
            && Balance(r.books, u, Bucket.Escrow) == Balance(b, u, Bucket.Escrow) - (if u == from then amount else 0)
            && Balance(r.books, u, Available) == Balance(b, u, Available) + (if u == to then amount else 0))
  {
    var debit, credit := LegFor(Out(a), from, amount, EntryCompleted), LegFor(In(a), to, amount, EntryCompleted);
    TransferKeepsBooks(b, a, debit, credit);
    ReleasedByGroup(b.ledger, a);
    var b0 := Ensure(b, from);
    var b' := Ensure(b0, to);
    EnsureFacts(b, from);
    EnsureFacts(b0, to);
    PairWhen(b', a, from, to, amount);
    if PostTransfer(b', debit, credit).Success? {
      PairEffect(b', a, from, to, amount);
    }
  }

  /** Paying out of one wallet's escrow into another wallet fails only for a
      bad amount or too little escrow. */
  lemma PairWhen(b: Books, a: nat, from: UserId, to: UserId, amount: Amount)
    requires BooksOk(b) && from != to && from in b.wallets && to in b.wallets
    ensures PostTransfer(b, LegFor(Out(a), from, amount, EntryCompleted),
        LegFor(In(a), to, amount, EntryCompleted)).Success?
            <==> Payable(amount) && Balance(b, from, Bucket.Escrow) >= amount
  {
    assert Balance(b, from, Available) >= 0 && Balance(b, to, Available) >= 0 && Balance(b, to, Bucket.Escrow) >= 0;
  }

  lemma PairEffect(b: Books, a: nat, from: UserId, to: UserId, amount: Amount)
    requires GoodBooks(b) && from != to && from in b.wallets && to in b.wallets
    requires PostTransfer(b, LegFor(Out(a), from, amount, EntryCompleted),
        LegFor(In(a), to, amount, EntryCompleted)).Success?
    ensures var b' := PostTransfer(b, LegFor(Out(a), from, amount, EntryCompleted),
        LegFor(In(a), to, amount, EntryCompleted)).value;
      && AllGenuine(b'.ledger)
      && (forall q: Ref :: q != Out(a) && q != In(a) ==> Find(b'.ledger, q) == Find(b.ledger, q))
      && Has(b'.ledger, Out(a)) && Has(b'.ledger, In(a))
      && b'.marks == b.marks[Out(a) := EntryCompleted][In(a) := EntryCompleted]
      && forall u: UserId ::
           Balance(b', u, Bucket.Escrow) == Balance(b, u, Bucket.Escrow) - (if u == from then amount else 0)
                         && Balance(b', u, Available) == Balance(b, u, Available) + (if u == to then amount else 0)
  {
    var debit, credit := LegFor(Out(a), from, amount, EntryCompleted), LegFor(In(a), to, amount, EntryCompleted);
    var b1 := PostLeg(b, debit).value;
    PostedFacts(b, debit);
    GenuineAppend(b.ledger, Last(b1.ledger));
    PostedFacts(b1, credit);
    GenuineAppend(b1.ledger, Last(PostLeg(b1, credit).value.ledger));
  }
}
