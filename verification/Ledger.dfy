// The two-bucket wallet ledger as values: what one posting does, what the two
// money entry points do when nothing runs beside them, and the facts every
// ledger they build satisfies.
module Ledger {
  import opened Wrappers
  import opened Sums
  import opened Money

  type UserId = nat

  datatype Kind =
    | Deposit
    | EscrowLock
    | EscrowReleaseOut
    | EscrowReleaseIn
    | EscrowRefund
    | Withdrawal
    | WithdrawalReversal
    | AdjustmentCredit
    | AdjustmentDebit

  datatype Bucket = Available | Escrow

  /** The effects table: the sign each kind of movement has on each bucket. */
  function Sign(kind: Kind, bucket: Bucket): int {
    match (kind, bucket)
    case (Deposit, Available) => 1
    case (EscrowLock, Available) => -1
    case (EscrowLock, Escrow) => 1
    case (EscrowReleaseOut, Escrow) => -1
    case (EscrowReleaseIn, Available) => 1
    case (EscrowRefund, Available) => 1
    case (EscrowRefund, Escrow) => -1
    case (Withdrawal, Available) => -1
    case (WithdrawalReversal, Available) => 1
    case (AdjustmentCredit, Available) => 1
    case (AdjustmentDebit, Available) => -1
    case (_, _) => 0
  }

  function Delta(kind: Kind, bucket: Bucket, amount: Amount): Amount {
    var sign := Sign(kind, bucket);
    if sign > 0 then amount else if sign < 0 then -amount else 0
  }

  /** Ledger references. The strings they stand for are in module References. */
  datatype Ref =
    | LockOf(agreement: nat)
    | Out(group: nat)
    | In(group: nat)
    | RefundOf(agreement: nat)
    | DepositOf(payment: nat)
    | WithdrawalOf(payment: nat)
    | ReversalOf(payment: nat)
    | Opening(wallet: nat)

  datatype EntryStatus = EntryPending | EntryCompleted | EntryReversed

  datatype Entry = Entry(
    ref: Ref, user: UserId, kind: Kind, amount: Amount,
    availableDelta: Amount, escrowDelta: Amount,
    balanceAfter: Amount, escrowAfter: Amount,
    group: Option<nat>, agreement: Option<nat>)
  {
    function Delta(bucket: Bucket): Amount {
      if bucket == Available then availableDelta else escrowDelta
    }

    function After(bucket: Bucket): Amount {
      if bucket == Available then balanceAfter else escrowAfter
    }
  }

  /** What a caller asks for: a kind of movement, never a delta. */
  datatype Leg = Leg(
    user: UserId, kind: Kind, amount: Amount, ref: Ref,
    group: Option<nat>, agreement: Option<nat>, status: EntryStatus)

  datatype Wallet = Wallet(available: Amount, escrow: Amount)

  /** One wallet per user, the append-only ledger, and the presentational status
      of each entry (kept beside the ledger because no balance depends on it). */
  datatype Books = Books(wallets: map<UserId, Wallet>, ledger: seq<Entry>, marks: map<Ref, EntryStatus>)

  const EmptyBooks := Books(map[], [], map[])

  datatype Error =
    | BadRequest
    | InsufficientFunds
    | InsufficientEscrow
    | IntegrityError

  datatype Outcome =
    | Posted(entries: seq<Entry>)
    | Replayed(entries: seq<Entry>)
    | Failed(error: Error)

  datatype Applied = Applied(books: Books, outcome: Outcome)

  function Last<T>(s: seq<T>): T
    requires |s| > 0
  {
    s[|s| - 1]
  }

  function Init<T>(s: seq<T>): seq<T>
    requires |s| > 0
  {
    s[..|s| - 1]
  }

  // ---------------------------------------------------------------- lookups

  /** The unique index on `reference`. */
  function Index(ledger: seq<Entry>): map<Ref, Entry> {
    if ledger == [] then map[] else Index(Init(ledger))[Last(ledger).ref := Last(ledger)]
  }

  function Find(ledger: seq<Entry>, ref: Ref): Option<Entry> {
    if ref in Index(ledger) then Some(Index(ledger)[ref]) else None
  }

  function Group(ledger: seq<Entry>, group: nat): seq<Entry> {
    if ledger == [] then []
    else Group(Init(ledger), group) + (if Last(ledger).group == Some(group) then [Last(ledger)] else [])
  }

  /** The read behind `is_agreement_funded`: any entry of that kind for the agreement. */
  predicate HasEntryOfKind(ledger: seq<Entry>, agreement: nat, kind: Kind) {
    exists i :: 0 <= i < |ledger| && ledger[i].agreement == Some(agreement) && ledger[i].kind == kind
  }

  function Sum(ledger: seq<Entry>, user: UserId, bucket: Bucket): Amount {
    if ledger == [] then 0
    else Sum(Init(ledger), user, bucket) + (if Last(ledger).user == user then Last(ledger).Delta(bucket) else 0)
  }

  function Balance(b: Books, user: UserId, bucket: Bucket): Amount {
    if user !in b.wallets then 0
    else if bucket == Available then b.wallets[user].available
    else b.wallets[user].escrow
  }

  // ------------------------------------------------------------- operations

  /** `_apply_ledger_entry`, on one wallet: validate, then move both buckets. */
  function PostWallet(w: Wallet, leg: Leg): Result<(Wallet, Entry), Error> {
    if !Payable(leg.amount) then Failure(BadRequest)
    else
      var da, de := Delta(leg.kind, Available, leg.amount), Delta(leg.kind, Escrow, leg.amount);
      if w.available + da < 0 then Failure(InsufficientFunds)
      else if w.escrow + de < 0 then Failure(InsufficientEscrow)
      else
        var w' := Wallet(w.available + da, w.escrow + de);
        Success((w', Entry(leg.ref, leg.user, leg.kind, leg.amount, da, de,
                           w'.available, w'.escrow, leg.group, leg.agreement)))
  }

  /** The effects table and the refusals, kind by kind. */
  lemma PostingTable(w: Wallet, leg: Leg)
    requires w.available >= 0 && w.escrow >= 0
    ensures var r, amount := PostWallet(w, leg), leg.amount;
      && (r == Failure(BadRequest) <==> amount <= 0 || amount % UNIT != 0)
      && (r == Failure(InsufficientFunds) <==>
           amount > 0 && amount % UNIT == 0
           && leg.kind in {EscrowLock, Withdrawal, AdjustmentDebit} && w.available < amount)
      && (r == Failure(InsufficientEscrow) <==>
           amount > 0 && amount % UNIT == 0 && leg.kind in {EscrowReleaseOut, EscrowRefund} && w.escrow < amount)
      && (r.Success? ==>
           && r.value.0.available == w.available
                + (if leg.kind in {Deposit, EscrowReleaseIn, EscrowRefund, WithdrawalReversal, AdjustmentCredit}
                   then amount
                   else if leg.kind in {EscrowLock, Withdrawal, AdjustmentDebit} then -amount
                   else 0)
           && r.value.0.escrow == w.escrow
                + (if leg.kind == EscrowLock then amount
                   else if leg.kind in {EscrowReleaseOut, EscrowRefund} then -amount
                   else 0))
  {
  }

  function PostLeg(b: Books, leg: Leg): Result<Books, Error>
    requires leg.user in b.wallets
  {
    match PostWallet(b.wallets[leg.user], leg)
    case Failure(e) => Failure(e)
    case Success((w, entry)) =>
      Success(Books(b.wallets[leg.user := w], b.ledger + [entry], b.marks[leg.ref := leg.status]))
  }

  /** `ensure_wallet`: insert an empty wallet, do nothing on conflict. */
  function Ensure(b: Books, user: UserId): Books {
    if user in b.wallets then b else b.(wallets := b.wallets[user := Wallet(0, 0)])
  }

  /** `apply_entry` with no concurrent writer. */
  function ApplyEntry(b: Books, leg: Leg): Applied {
    match Find(b.ledger, leg.ref)
    case Some(e) => Applied(b, Replayed([e]))
    case None =>
      var b' := Ensure(b, leg.user);
      match PostLeg(b', leg)
      case Failure(e) => Applied(b', Failed(e))
      case Success(posted) => Applied(posted, Posted([Last(posted.ledger)]))
  }

  /** The two legs of a transfer carry the references derived from their group. */
  predicate TransferLegs(group: nat, debit: Leg, credit: Leg) {
    && debit.ref == Out(group) && credit.ref == In(group)
    && debit.group == credit.group == Some(group)
  }

  /** Both legs, the second reading the balances the first one left. */
  function PostTransfer(b: Books, debit: Leg, credit: Leg): Result<Books, Error>
    requires debit.user in b.wallets && credit.user in b.wallets
  {
    match PostLeg(b, debit)
    case Failure(e) => Failure(e)
    case Success(b1) => PostLeg(b1, credit)
  }

  /** The replayed pair, debit first, whatever order the rows come back in. */
  function ReplayPair(existing: seq<Entry>, group: nat): seq<Entry>
    requires |existing| == 2
  {
    if existing[0].ref == Out(group) then existing else [existing[1], existing[0]]
  }

  /** `apply_transfer` with no concurrent writer. */
  function ApplyTransfer(b: Books, group: nat, debit: Leg, credit: Leg): Applied {
    var existing := Group(b.ledger, group);
    if |existing| == 2 then Applied(b, Replayed(ReplayPair(existing, group)))
    else
      var b' := Ensure(Ensure(b, debit.user), credit.user);
      match PostTransfer(b', debit, credit)
      case Failure(e) => Applied(b', Failed(e))
      case Success(posted) =>
        if Find(b.ledger, debit.ref).Some? || Find(b.ledger, credit.ref).Some?
        then Applied(b', Failed(IntegrityError))
        else Applied(posted, Posted(posted.ledger[|b.ledger|..]))
  }

  /** `mark_entry_status`: presentational, and nothing at all for a missing entry. */
  function Mark(b: Books, ref: Ref, status: EntryStatus): Books {
    if Find(b.ledger, ref).None? then b else b.(marks := b.marks[ref := status])
  }

  /** Marking reaches only an entry that is stored, and nothing but its mark. */
  lemma MarkReaches(b: Books, ref: Ref, status: EntryStatus)
    ensures (forall e :: e in b.ledger ==> e.ref != ref) ==> Mark(b, ref, status) == b
    ensures (exists e :: e in b.ledger && e.ref == ref) ==>
      Mark(b, ref, status) == b.(marks := b.marks[ref := status])
  {
    Found(b.ledger, ref);
  }

  // -------------------------------------------------------------- invariant

  /** The i-th entry explains itself: its deltas are the kind's effect on a
      payable amount, and its `*_after` columns are the running sums. */
  ghost predicate EntryOk(ledger: seq<Entry>, i: nat)
    requires i < |ledger|
  {
    var e := ledger[i];
    && Payable(e.amount)
    && forall k: Bucket ::
         e.Delta(k) == Delta(e.kind, k, e.amount) && e.After(k) == Sum(ledger[..i + 1], e.user, k) && e.After(k) >= 0
  }

  /** The reconciliation query finds nothing, for any wallet and either bucket. */
  ghost predicate Reconciles(b: Books) {
    && (forall u: UserId, k: Bucket {:trigger Sum(b.ledger, u, k)} :: Balance(b, u, k) == Sum(b.ledger, u, k))
    && (forall u: UserId, k: Bucket :: Balance(b, u, k) >= 0)
  }

  ghost predicate UniqueRefs(ledger: seq<Entry>) {
    forall i, j :: 0 <= i < j < |ledger| ==> ledger[i].ref != ledger[j].ref
  }

  /** A group has no legs or exactly its debit and its credit. */
  ghost predicate GroupsWhole(ledger: seq<Entry>) {
    forall g: nat :: var legs := Group(ledger, g);
      legs == [] || (|legs| == 2 && legs[0].ref == Out(g) && legs[1].ref == In(g))
  }

  ghost predicate BooksOk(b: Books) {
    && (forall i: nat :: i < |b.ledger| ==> EntryOk(b.ledger, i) && b.ledger[i].user in b.wallets)
    && Reconciles(b)
    && UniqueRefs(b.ledger)
    && (forall e :: e in b.ledger ==> e.ref in b.marks)
  }

  // ----------------------------------------------------------- small lemmas

  /** Everything the lookups and sums say after one more entry. */
  lemma Appended(ledger: seq<Entry>, e: Entry)
    ensures Index(ledger + [e]) == Index(ledger)[e.ref := e]
    ensures forall u: UserId, k: Bucket ::
        Sum(ledger + [e], u, k) == Sum(ledger, u, k) + (if e.user == u then e.Delta(k) else 0)
    ensures forall g: nat :: Group(ledger + [e], g) == Group(ledger, g) + (if e.group == Some(g) then [e] else [])
  {
    assert Init(ledger + [e]) == ledger;
  }

  /** What a reference finds is an entry of the ledger under that reference. */
  lemma {:induction false} Found(ledger: seq<Entry>, r: Ref)
    ensures Find(ledger, r).Some? ==> Find(ledger, r).value in ledger && Find(ledger, r).value.ref == r
    ensures Find(ledger, r).None? ==> forall e :: e in ledger ==> e.ref != r
  {
    if ledger != [] {
      Found(Init(ledger), r);
      assert ledger == Init(ledger) + [Last(ledger)];
    }
  }

  /** With unique references an entry of the ledger is what its reference finds. */
  lemma {:induction false} FindMember(ledger: seq<Entry>, e: Entry)
    requires UniqueRefs(ledger) && e in ledger
    ensures Find(ledger, e.ref) == Some(e)
  {
    if Last(ledger) != e {
      assert e in Init(ledger);
      var i :| 0 <= i < |ledger| - 1 && ledger[i] == e;
      assert ledger[i].ref != ledger[|ledger| - 1].ref;
      FindMember(Init(ledger), e);
    }
  }

  lemma {:induction false} GroupMember(ledger: seq<Entry>, e: Entry, g: nat)
    ensures e in Group(ledger, g) <==> e in ledger && e.group == Some(g)
  {
    if ledger != [] {
      GroupMember(Init(ledger), e, g);
      assert ledger == Init(ledger) + [Last(ledger)];
    }
  }

  /** What one successful posting changes: one new entry, one user's balances. */
  lemma PostedFacts(b: Books, leg: Leg)
    requires leg.user in b.wallets && PostLeg(b, leg).Success?
    ensures var b' := PostLeg(b, leg).value;
      && b'.ledger == b.ledger + [Last(b'.ledger)]
      && Index(b'.ledger) == Index(b.ledger)[leg.ref := Last(b'.ledger)]
      && (forall g: nat ::
           Group(b'.ledger, g) == Group(b.ledger, g) + (if leg.group == Some(g) then [Last(b'.ledger)] else []))
      && (forall u: UserId, k: Bucket ::
           Balance(b', u, k) == Balance(b, u, k) + (if u == leg.user then Delta(leg.kind, k, leg.amount) else 0))
      && (forall u: UserId, k: Bucket ::
           Sum(b'.ledger, u, k) == Sum(b.ledger, u, k) + (if u == leg.user then Delta(leg.kind, k, leg.amount) else 0))
  {
    Appended(b.ledger, Last(PostLeg(b, leg).value.ledger));
  }

  lemma EnsureFacts(b: Books, u: UserId)
    ensures forall v: UserId, k: Bucket :: Balance(Ensure(b, u), v, k) == Balance(b, v, k)
    ensures BooksOk(b) ==> BooksOk(Ensure(b, u))
    ensures Ensure(b, u).ledger == b.ledger && Ensure(b, u).marks == b.marks
  {
    var b' := Ensure(b, u);
    if BooksOk(b) {
      forall i: nat | i < |b'.ledger| ensures EntryOk(b'.ledger, i) && b'.ledger[i].user in b'.wallets {
        assert EntryOk(b.ledger, i);
      }
    }
  }

  /** An entry that explains itself still does once more has been written. */
  lemma EntryStaysOk(l: seq<Entry>, e: Entry, i: nat)
    requires i < |l| && EntryOk(l, i)
    ensures EntryOk(l + [e], i)
  {
    assert (l + [e])[..i + 1] == l[..i + 1];
  }

  /** The posting moves a balance and a sum by the same delta. */
  lemma PostReconciles(b: Books, leg: Leg)
    requires Reconciles(b) && leg.user in b.wallets && PostLeg(b, leg).Success?
    ensures Reconciles(PostLeg(b, leg).value)
  {
    var b' := PostLeg(b, leg).value;
    PostedFacts(b, leg);
    forall u: UserId, k: Bucket ensures Balance(b', u, k) == Sum(b'.ledger, u, k) {
      assert Balance(b, u, k) == Sum(b.ledger, u, k);
    }
    forall u: UserId, k: Bucket ensures Balance(b', u, k) >= 0 {
      assert Balance(b, u, k) >= 0;
    }
  }

  /** The new entry explains itself: its columns are the balances, which reconcile. */
  lemma NewEntryOk(b: Books, leg: Leg)
    requires leg.user in b.wallets && PostLeg(b, leg).Success? && Reconciles(PostLeg(b, leg).value)
    ensures EntryOk(PostLeg(b, leg).value.ledger, |b.ledger|)
  {
    var b' := PostLeg(b, leg).value;
    assert b'.ledger[..|b.ledger| + 1] == b'.ledger;
    forall k: Bucket ensures b'.ledger[|b.ledger|].After(k) == Sum(b'.ledger, leg.user, k) >= 0 {
      assert Balance(b', leg.user, k) == Sum(b'.ledger, leg.user, k);
    }
  }

  lemma FreshStaysUnique(l: seq<Entry>, e: Entry)
    requires UniqueRefs(l) && Find(l, e.ref).None?
    ensures UniqueRefs(l + [e])
  {
    Found(l, e.ref);
  }

  /** Posting under a fresh reference keeps the whole ledger explained. */
  lemma PostKeepsBooks(b: Books, leg: Leg)
    requires BooksOk(b) && leg.user in b.wallets && Find(b.ledger, leg.ref).None?
    requires PostLeg(b, leg).Success?
    ensures BooksOk(PostLeg(b, leg).value)
  {
    var b' := PostLeg(b, leg).value;
    var e := Last(b'.ledger);
    assert b'.ledger == b.ledger + [e];
    PostReconciles(b, leg);
    FreshStaysUnique(b.ledger, e);
    forall i: nat | i < |b'.ledger| ensures EntryOk(b'.ledger, i) && b'.ledger[i].user in b'.wallets {
      if i < |b.ledger| {
        EntryStaysOk(b.ledger, e, i);
      } else {
        NewEntryOk(b, leg);
      }
    }
  }

  // ---------------------------------------------------- the two entry points

  /** A single-wallet movement. Nothing that happens to it can break the books:
      a replay and a failure leave every balance and the ledger alone, a success
      adds its one entry. `Group` is untouched because no caller of apply_entry
      passes a group. */
  lemma EntryKeepsBooks(b: Books, leg: Leg)
    requires BooksOk(b) && GroupsWhole(b.ledger) && leg.group == None
    ensures BooksOk(ApplyEntry(b, leg).books) && GroupsWhole(ApplyEntry(b, leg).books.ledger)
  {
    if Find(b.ledger, leg.ref).None? {
      var b' := Ensure(b, leg.user);
      EnsureFacts(b, leg.user);
      if PostLeg(b', leg).Success? {
        PostKeepsBooks(b', leg);
        PostKeepsGroups(b', leg);
      }
    }
  }

  lemma PostKeepsGroups(b: Books, leg: Leg)
    requires GroupsWhole(b.ledger) && leg.group == None && leg.user in b.wallets && PostLeg(b, leg).Success?
    ensures GroupsWhole(PostLeg(b, leg).value.ledger)
  {
    PostedFacts(b, leg);
    GroupsKept(b.ledger, PostLeg(b, leg).value.ledger);
  }

  lemma GroupsKept(l: seq<Entry>, l': seq<Entry>)
    requires GroupsWhole(l) && forall g: nat :: Group(l', g) == Group(l, g)
    ensures GroupsWhole(l')
  {
  }

  /** What a single-wallet movement returns is stored under its own reference. */
  lemma EntryAnswers(b: Books, leg: Leg)
    ensures var r := ApplyEntry(b, leg);
      if r.outcome.Failed? then r.books == Ensure(b, leg.user)
      else Find(r.books.ledger, leg.ref).Some? && r.outcome.entries == [Find(r.books.ledger, leg.ref).value]
  {
    var b' := Ensure(b, leg.user);
    if Find(b.ledger, leg.ref).None? && PostLeg(b', leg).Success? {
      PostedFacts(b', leg);
    }
  }

  /** The books a two-wallet movement can leave. */
  lemma TransferBooks(b: Books, group: nat, debit: Leg, credit: Leg)
    ensures var b' := Ensure(Ensure(b, debit.user), credit.user);
      var after := ApplyTransfer(b, group, debit, credit).books;
      || after == b || after == b'
      || (&& |Group(b.ledger, group)| != 2 && Find(b.ledger, debit.ref).None? && Find(b.ledger, credit.ref).None?
          && PostTransfer(b', debit, credit) == Success(after))
  {
  }

  /** A two-wallet movement adds both legs or neither. */
  lemma TransferKeepsBooks(b: Books, group: nat, debit: Leg, credit: Leg)
    requires BooksOk(b) && GroupsWhole(b.ledger) && TransferLegs(group, debit, credit)
    ensures BooksOk(ApplyTransfer(b, group, debit, credit).books)
    ensures GroupsWhole(ApplyTransfer(b, group, debit, credit).books.ledger)
  {
    var b' := Ensure(Ensure(b, debit.user), credit.user);
    var after := ApplyTransfer(b, group, debit, credit).books;
    TransferBooks(b, group, debit, credit);
    EnsureFacts(b, debit.user);
    EnsureFacts(Ensure(b, debit.user), credit.user);
    if after != b && after != b' {
      PairKeepsBooks(b', group, debit, credit);
    }
  }

  /** The second leg's reference is still free after the first. */
  lemma SecondIsFresh(b: Books, group: nat, debit: Leg, credit: Leg)
    requires debit.user in b.wallets && PostLeg(b, debit).Success? && TransferLegs(group, debit, credit)
    requires Find(b.ledger, credit.ref).None?
    ensures Find(PostLeg(b, debit).value.ledger, credit.ref).None?
  {
    PostedFacts(b, debit);
  }

  lemma PairExplained(b: Books, group: nat, debit: Leg, credit: Leg)
    requires debit.user in b.wallets && credit.user in b.wallets
    requires BooksOk(b) && TransferLegs(group, debit, credit) && PostTransfer(b, debit, credit).Success?
    requires Find(b.ledger, debit.ref).None? && Find(b.ledger, credit.ref).None?
    ensures BooksOk(PostTransfer(b, debit, credit).value)
  {
    PostKeepsBooks(b, debit);
    SecondIsFresh(b, group, debit, credit);
    PostKeepsBooks(PostLeg(b, debit).value, credit);
  }

  lemma PairWhole(b: Books, group: nat, debit: Leg, credit: Leg)
    requires debit.user in b.wallets && credit.user in b.wallets
    requires GroupsWhole(b.ledger) && TransferLegs(group, debit, credit)
    requires |Group(b.ledger, group)| != 2 && PostTransfer(b, debit, credit).Success?
    ensures GroupsWhole(PostTransfer(b, debit, credit).value.ledger)
    ensures var l := PostTransfer(b, debit, credit).value.ledger; Group(l, group) == l[|b.ledger|..]
  {
    var b1 := PostLeg(b, debit).value;
    var b2 := PostLeg(b1, credit).value;
    assert b2.ledger == b.ledger + [Last(b1.ledger)] + [Last(b2.ledger)];
    PairGroups(b.ledger, Last(b1.ledger), Last(b2.ledger), group);
  }

  /** Both legs of a group that was not there yet. */
  lemma PairKeepsBooks(b: Books, group: nat, debit: Leg, credit: Leg)
    requires debit.user in b.wallets && credit.user in b.wallets
    requires BooksOk(b) && GroupsWhole(b.ledger) && TransferLegs(group, debit, credit)
    requires |Group(b.ledger, group)| != 2 && PostTransfer(b, debit, credit).Success?
    requires Find(b.ledger, debit.ref).None? && Find(b.ledger, credit.ref).None?
    ensures BooksOk(PostTransfer(b, debit, credit).value)
    ensures GroupsWhole(PostTransfer(b, debit, credit).value.ledger)
    ensures var l := PostTransfer(b, debit, credit).value.ledger; Group(l, group) == l[|b.ledger|..]
  {
    PairExplained(b, group, debit, credit);
    PairWhole(b, group, debit, credit);
  }

  lemma PairGroups(l: seq<Entry>, e1: Entry, e2: Entry, group: nat)
    requires GroupsWhole(l) && |Group(l, group)| != 2
    requires e1.group == e2.group == Some(group) && e1.ref == Out(group) && e2.ref == In(group)
    ensures GroupsWhole(l + [e1] + [e2])
    ensures Group(l + [e1] + [e2], group) == (l + [e1] + [e2])[|l|..]
  {
    Appended(l, e1);
    Appended(l + [e1], e2);
    assert Group(l, group) == [];
    assert (l + [e1] + [e2])[|l|..] == [e1] + [e2];
  }

  /** A whole group's legs are stored under their own references. */
  lemma LegsFound(l: seq<Entry>, group: nat)
    requires UniqueRefs(l) && GroupsWhole(l) && |Group(l, group)| == 2
    ensures Find(l, Out(group)) == Some(Group(l, group)[0]) && Find(l, In(group)) == Some(Group(l, group)[1])
  {
    var legs := Group(l, group);
    GroupMember(l, legs[0], group);
    GroupMember(l, legs[1], group);
    FindMember(l, legs[0]);
    FindMember(l, legs[1]);
  }

  /** And they are what a transfer that does not fail returns. */
  lemma TransferReturns(b: Books, group: nat, debit: Leg, credit: Leg)
    requires BooksOk(b) && GroupsWhole(b.ledger) && TransferLegs(group, debit, credit)
    requires !ApplyTransfer(b, group, debit, credit).outcome.Failed?
    ensures var r := ApplyTransfer(b, group, debit, credit);
      Group(r.books.ledger, group) == r.outcome.entries && |r.outcome.entries| == 2
  {
    if |Group(b.ledger, group)| != 2 {
      EnsureFacts(b, debit.user);
      EnsureFacts(Ensure(b, debit.user), credit.user);
      PairKeepsBooks(Ensure(Ensure(b, debit.user), credit.user), group, debit, credit);
    }
  }

  /** A transfer that does not fail returns its group's two legs, debit first,
      each stored under its own reference; one that fails moves nothing. */
  lemma TransferAnswers(b: Books, group: nat, debit: Leg, credit: Leg)
    requires BooksOk(b) && GroupsWhole(b.ledger) && TransferLegs(group, debit, credit)
    ensures var r := ApplyTransfer(b, group, debit, credit);
      if r.outcome.Failed? then r.books == Ensure(Ensure(b, debit.user), credit.user)
      else (
        && Group(r.books.ledger, group) == r.outcome.entries && |r.outcome.entries| == 2
        && Find(r.books.ledger, Out(group)) == Some(r.outcome.entries[0])
        && Find(r.books.ledger, In(group)) == Some(r.outcome.entries[1]))
  {
    var r := ApplyTransfer(b, group, debit, credit);
    if !r.outcome.Failed? {
      TransferReturns(b, group, debit, credit);
      TransferKeepsBooks(b, group, debit, credit);
      LegsFound(r.books.ledger, group);
    }
  }

  // ------------------------------------------------------------ conservation

  /** All money held, over the users below a bound. */
  ghost function Total(b: Books, users: nat): Amount {
    SumTo((u: nat) => Balance(b, u, Available) + Balance(b, u, Escrow), users)
  }

  /** Every user with a wallet is below the bound. */
  ghost predicate Bounded(b: Books, users: nat) {
    forall u :: u in b.wallets ==> u < users
  }

  /** What an entry brings in from, or sends out to, the world outside the ledger. */
  function External(e: Entry): Amount {
    match e.kind
    case Deposit => e.amount
    case WithdrawalReversal => e.amount
    case AdjustmentCredit => e.amount
    case Withdrawal => -e.amount
    case AdjustmentDebit => -e.amount
    case _ => 0
  }

  function Flow(ledger: seq<Entry>): Amount {
    if ledger == [] then 0 else Flow(Init(ledger)) + External(Last(ledger))
  }

  /** The total holds exactly what came in less what went out. */
  ghost predicate Conserved(b: Books) {
    forall users: nat :: Bounded(b, users) ==> Total(b, users) == Flow(b.ledger)
  }

  lemma TotalChanges(b: Books, b': Books, users: nat, user: UserId, delta: Amount)
    requires user < users
    requires forall u: UserId :: Balance(b', u, Available) + Balance(b', u, Escrow) ==
                                 Balance(b, u, Available) + Balance(b, u, Escrow) + (if u == user then delta else 0)
    ensures Total(b', users) == Total(b, users) + delta
  {
    var f := (u: nat) => Balance(b, u, Available) + Balance(b, u, Escrow);
    var g := (u: nat) => Balance(b', u, Available) + Balance(b', u, Escrow);
    SumDiffersAt(f, g, users, user);
  }

  lemma EnsureConserves(b: Books, user: UserId)
    requires Conserved(b)
    ensures Conserved(Ensure(b, user))
  {
    var b' := Ensure(b, user);
    EnsureFacts(b, user);
    forall users: nat | Bounded(b', users) ensures Total(b', users) == Flow(b'.ledger) {
      forall u | u in b.wallets ensures u < users { assert u in b'.wallets; }
      assert user in b'.wallets;
      TotalChanges(b, b', users, user, 0);
    }
  }

  /** One leg changes the total by the sum of its two effects, whatever its kind. */
  lemma PostChangesTotal(b: Books, leg: Leg, users: nat)
    requires leg.user in b.wallets && Bounded(b, users) && PostLeg(b, leg).Success?
    ensures Bounded(PostLeg(b, leg).value, users)
    ensures Total(PostLeg(b, leg).value, users) ==
            Total(b, users) + Delta(leg.kind, Available, leg.amount) + Delta(leg.kind, Escrow, leg.amount)
    ensures Flow(PostLeg(b, leg).value.ledger) == Flow(b.ledger) + External(Last(PostLeg(b, leg).value.ledger))
  {
    PostedFacts(b, leg);
    var b' := PostLeg(b, leg).value;
    assert Init(b'.ledger) == b.ledger;
    TotalChanges(b, b', users, leg.user, Delta(leg.kind, Available, leg.amount) + Delta(leg.kind, Escrow, leg.amount));
  }

  /** Every kind but the halves of a release moves the total by what it brings in. */
  lemma KindCrosses(kind: Kind, e: Entry)
    requires e.kind == kind && kind != EscrowReleaseOut && kind != EscrowReleaseIn
    ensures Payable(e.amount) ==>
              Delta(kind, Available, e.amount) + Delta(kind, Escrow, e.amount) == External(e)
  {
  }

  lemma PostConserves(b: Books, leg: Leg)
    requires Conserved(b) && leg.user in b.wallets && PostLeg(b, leg).Success?
    requires leg.kind != EscrowReleaseOut && leg.kind != EscrowReleaseIn
    ensures Conserved(PostLeg(b, leg).value)
  {
    var b' := PostLeg(b, leg).value;
    KindCrosses(leg.kind, Last(b'.ledger));
    forall users: nat | Bounded(b', users) ensures Total(b', users) == Flow(b'.ledger) {
      BoundedBefore(b, leg, users);
      assert Total(b, users) == Flow(b.ledger);
      PostChangesTotal(b, leg, users);
    }
  }

  lemma BoundedBefore(b: Books, leg: Leg, users: nat)
    requires leg.user in b.wallets && PostLeg(b, leg).Success? && Bounded(PostLeg(b, leg).value, users)
    ensures Bounded(b, users)
  {
    forall u | u in b.wallets ensures u < users {
      assert u in PostLeg(b, leg).value.wallets;
    }
  }

  /** Locks and refunds move money between buckets; deposits, withdrawals,
      reversals and adjustments change the total by what crosses the boundary. */
  lemma EntryConserves(b: Books, leg: Leg)
    requires Conserved(b)
    requires leg.kind != EscrowReleaseOut && leg.kind != EscrowReleaseIn
    ensures Conserved(ApplyEntry(b, leg).books)
  {
    var b' := Ensure(b, leg.user);
    EnsureConserves(b, leg.user);
    if Find(b.ledger, leg.ref).None? && PostLeg(b', leg).Success? {
      PostConserves(b', leg);
    }
  }

  lemma PairConserves(b: Books, debit: Leg, credit: Leg)
    requires Conserved(b) && debit.user in b.wallets && credit.user in b.wallets
    requires debit.kind == EscrowReleaseOut && credit.kind == EscrowReleaseIn && debit.amount == credit.amount
    requires PostTransfer(b, debit, credit).Success?
    ensures Conserved(PostTransfer(b, debit, credit).value)
  {
    var b1 := PostLeg(b, debit).value;
    var b2 := PostLeg(b1, credit).value;
    forall users: nat | Bounded(b2, users) ensures Total(b2, users) == Flow(b2.ledger) {
      BoundedBefore(b1, credit, users);
      BoundedBefore(b, debit, users);
      assert Total(b, users) == Flow(b.ledger);
      PostChangesTotal(b, debit, users);
      PostChangesTotal(b1, credit, users);
    }
  }

  /** A release moves the same amount out of one wallet and into another. */
  lemma TransferConserves(b: Books, group: nat, debit: Leg, credit: Leg)
    requires Conserved(b)
    requires debit.kind == EscrowReleaseOut && credit.kind == EscrowReleaseIn && debit.amount == credit.amount
    ensures Conserved(ApplyTransfer(b, group, debit, credit).books)
  {
    EnsureConserves(b, debit.user);
    EnsureConserves(Ensure(b, debit.user), credit.user);
    var b' := Ensure(Ensure(b, debit.user), credit.user);
    TransferBooks(b, group, debit, credit);
    if PostTransfer(b', debit, credit).Success? {
      PairConserves(b', debit, credit);
    }
  }

  /** A lock and a refund of the same amount cancel out on their wallet. */
  lemma RefundUndoesLock(w: Wallet, lock: Leg, refund: Leg)
    requires lock.kind == EscrowLock && refund.kind == EscrowRefund && lock.amount == refund.amount
    requires w.available >= 0 && w.escrow >= 0
    ensures PostWallet(w, lock).Success? ==>
              var back := PostWallet(PostWallet(w, lock).value.0, refund);
              back.Success? && back.value.0 == w
    ensures PostWallet(w, lock).Success? <==> Payable(lock.amount) && lock.amount <= w.available
  {
  }

  // ------------------------------------------------- runs of any operations

  datatype Op =
    | EntryOp(leg: Leg)
    | TransferOp(group: nat, debit: Leg, credit: Leg)

  ghost predicate WellFormed(op: Op) {
    match op
    case EntryOp(leg) => leg.group == None
    case TransferOp(g, debit, credit) => TransferLegs(g, debit, credit)
  }

  function Apply(b: Books, op: Op): Applied {
    match op
    case EntryOp(leg) => ApplyEntry(b, leg)
    case TransferOp(g, debit, credit) => ApplyTransfer(b, g, debit, credit)
  }

  lemma ApplyKeepsBooks(b: Books, op: Op)
    requires BooksOk(b) && GroupsWhole(b.ledger) && WellFormed(op)
    ensures BooksOk(Apply(b, op).books) && GroupsWhole(Apply(b, op).books.ledger)
  {
    match op
    case EntryOp(leg) => EntryKeepsBooks(b, leg);
    case TransferOp(g, debit, credit) => TransferKeepsBooks(b, g, debit, credit);
  }

  function RunOps(b: Books, ops: seq<Op>): Books {
    if ops == [] then b else Apply(RunOps(b, Init(ops)), Last(ops)).books
  }

  /** Any run from reconciled books ends in reconciled books. */
  lemma {:induction false} RunReconciles(b: Books, ops: seq<Op>)
    requires BooksOk(b) && GroupsWhole(b.ledger)
    requires forall op :: op in ops ==> WellFormed(op)
    ensures BooksOk(RunOps(b, ops)) && GroupsWhole(RunOps(b, ops).ledger)
  {
    if ops != [] {
      assert Last(ops) in ops;
      RunReconciles(b, Init(ops));
      ApplyKeepsBooks(RunOps(b, Init(ops)), Last(ops));
    }
  }

  /** Reconciliation over whole runs: whatever is applied, in whatever order,
      with whatever failures and repeats, every balance is the sum of its deltas
      and is never negative, every `*_after` column is the running sum, no
      reference is stored twice, and every group is whole. */
  lemma AnyRunReconciles(ops: seq<Op>)
    requires forall op :: op in ops ==> WellFormed(op)
    ensures BooksOk(RunOps(EmptyBooks, ops)) && GroupsWhole(RunOps(EmptyBooks, ops).ledger)
  {
    RunReconciles(EmptyBooks, ops);
  }

  /** What the services ask for: a release pairs its two halves for one amount,
      and no half of a release is ever posted alone. */
  predicate Balanced(op: Op) {
    match op
    case EntryOp(leg) => leg.kind != EscrowReleaseOut && leg.kind != EscrowReleaseIn
    case TransferOp(g, debit, credit) =>
      debit.kind == EscrowReleaseOut && credit.kind == EscrowReleaseIn && debit.amount == credit.amount
  }

  /** Conservation over whole runs: what all wallets hold, in both buckets, is
      deposits, reversals and credits less withdrawals and debits. */
  lemma {:induction false} AnyRunConserves(ops: seq<Op>)
    requires forall op :: op in ops ==> Balanced(op)
    ensures Conserved(RunOps(EmptyBooks, ops))
  {
    if ops == [] {
      forall users: nat ensures Total(EmptyBooks, users) == 0 {
        SumMonotone((u: nat) => 0, (u: nat) => Balance(EmptyBooks, u, Available) + Balance(EmptyBooks, u, Escrow),
          users);
        NothingSums(users);
      }
    } else {
      assert Last(ops) in ops;
      AnyRunConserves(Init(ops));
      var b := RunOps(EmptyBooks, Init(ops));
      match Last(ops)
      case EntryOp(leg) => EntryConserves(b, leg);
      case TransferOp(g, debit, credit) => TransferConserves(b, g, debit, credit);
    }
  }

  lemma {:induction false} NothingSums(users: nat)
    ensures SumTo((u: nat) => 0, users) == 0
  {
    if users > 0 {
      NothingSums(users - 1);
    }
  }
}
