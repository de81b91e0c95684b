// The choke point through which money moves, as it runs: locked wallet rows
// changed in place, entries added to the request's session, and the session
// committed or rolled back. Each entry point is proved to do exactly what the
// value-level rules of modules Ledger and Store say.
module WalletRepositoryModule {
  import opened Wrappers
  import opened Money
  import opened Ledger
  import opened Store

  /** A locked wallet row. Both legs of a self-transfer get the same one. */
  class WalletRow {
    const user: UserId
    var available: Amount
    var escrow: Amount

    constructor (user: UserId, available: Amount, escrow: Amount)
      ensures this.user == user && this.available == available && this.escrow == escrow
    {
      this.user, this.available, this.escrow := user, available, escrow;
    }
  }

  /** One request's database session: what is committed, and what it sees. */
  class Session {
    var db: Store
    var tx: Store

    constructor (db: Store)
      ensures this.db == this.tx == db
    {
      this.db, this.tx := db, db;
    }

    /** Between calls, whatever has been flushed, no ledger entry is pending. */
    ghost predicate Valid()
      reads this
    {
      tx.books.ledger == db.books.ledger
    }

    ghost function Seen(): View
      reads this
    {
      View(db, tx)
    }

    /** Commit, unless a pending entry's reference is already in the index. */
    method Commit() returns (ok: bool)
      requires db.books.ledger <= tx.books.ledger
      modifies this
      ensures tx == old(tx)
      ensures ok <==> NewRefs(old(db.books.ledger), old(tx.books.ledger))
      ensures db == if ok then tx else old(db)
    {
      var i := |db.books.ledger|;
      ok := true;
      while i < |tx.books.ledger|
        invariant tx == old(tx) && db == old(db)
        invariant |db.books.ledger| <= i <= |tx.books.ledger|
        invariant ok <==> NewRefs(db.books.ledger, tx.books.ledger[..i])
      {
        var ref := tx.books.ledger[i].ref;
        var taken := Find(tx.books.ledger[..i], ref);
        Found(tx.books.ledger[..i], ref);
        if taken.Some? {
          ok := false;
        }
        NewRefsStep(db.books.ledger, tx.books.ledger, i);
        i := i + 1;
      }
      assert tx.books.ledger[..i] == tx.books.ledger;
      if ok {
        db := tx;
      }
    }

    /** Others have committed `now` meanwhile. What this transaction reads of the
        ledger and the wallets is current again; its own flushed rows stay its own. */
    method Overtaken(now: Store)
      modifies this
      ensures db == now && tx == old(tx).(books := now.books)
    {
      db := now;
      tx := tx.(books := now.books);
    }

    method Rollback()
      modifies this
      ensures tx == db == old(db)
    {
      tx := db;
    }
  }

  /** No entry after the committed ones repeats an earlier reference. */
  ghost predicate NewRefs(committed: seq<Entry>, ledger: seq<Entry>) {
    forall i, j :: |committed| <= i < |ledger| && 0 <= j < i ==> ledger[j].ref != ledger[i].ref
  }

  lemma NewRefsStep(committed: seq<Entry>, ledger: seq<Entry>, i: nat)
    requires |committed| <= i < |ledger|
    ensures NewRefs(committed, ledger[..i + 1]) <==>
        NewRefs(committed, ledger[..i]) && Find(ledger[..i], ledger[i].ref).None?
  {
    Found(ledger[..i], ledger[i].ref);
    var longer, shorter := ledger[..i + 1], ledger[..i];
    if NewRefs(committed, longer) {
      forall j, k | |committed| <= j < |shorter| && 0 <= k < j ensures shorter[k].ref != shorter[j].ref {
        assert longer[k].ref != longer[j].ref;
      }
      forall k | 0 <= k < i ensures shorter[k].ref != ledger[i].ref {
        assert longer[k].ref != longer[i].ref;
      }
    }
    if NewRefs(committed, shorter) && Find(shorter, ledger[i].ref).None? {
      forall j, k | |committed| <= j < |longer| && 0 <= k < j ensures longer[k].ref != longer[j].ref {
        if j < i {
          assert shorter[k].ref != shorter[j].ref;
        } else {
          assert shorter[k] in shorter;
        }
      }
    }
  }

  class WalletRepository {
    const session: Session

    constructor (session: Session)
      ensures this.session == session
    {
      this.session := session;
    }

    // ------------------------------------------------------ wallet lifecycle

    /** Insert, do nothing on conflict, and commit: locks are released, and
        whatever was flushed before is committed with it. */
    method EnsureWallet(user: UserId)
      requires session.Valid()
      modifies session
      ensures session.Valid()
      ensures session.Seen() == Clean(old(session.tx).(books := Ensure(old(session.tx.books), user)))
    {
      if user !in session.tx.books.wallets {
        var b := session.tx.books;
        session.tx := session.tx.(books := b.(wallets := b.wallets[user := Wallet(0, 0)]));
      }
      var _ := session.Commit();
    }

    /** Commits only on a miss. */
    method ResolveWallet(user: UserId)
      requires session.Valid()
      modifies session
      ensures session.Valid() && user in session.tx.books.wallets
      ensures session.Seen() == if user in old(session.tx.books.wallets) then old(session.Seen())
                                else Clean(old(session.tx).(books := Ensure(old(session.tx.books), user)))
    {
      if user !in session.tx.books.wallets {
        EnsureWallet(user);
      }
    }

    method LockWallet(user: UserId) returns (row: WalletRow)
      requires user in session.tx.books.wallets
      ensures fresh(row) && row.user == user
      ensures Wallet(row.available, row.escrow) == session.tx.books.wallets[user]
    {
      var w := session.tx.books.wallets[user];
      row := new WalletRow(user, w.available, w.escrow);
    }

    // -------------------------------------------------------- the choke point

    /** The only place a balance changes: the row in place, with its entry. */
    method ApplyLedgerEntry(row: WalletRow, leg: Leg) returns (result: Result<Entry, Error>)
      requires row.user == leg.user
      modifies row, session
      ensures session.db == old(session.db)
      ensures match PostWallet(old(Wallet(row.available, row.escrow)), leg)
        case Failure(e) => result == Failure(e) && session.tx == old(session.tx)
                           && row.available == old(row.available) && row.escrow == old(row.escrow)
        case Success(posted) =>
          && result == Success(posted.1)
          && Wallet(row.available, row.escrow) == posted.0
          && session.tx == old(session.tx).(books := Books(
               old(session.tx.books.wallets)[leg.user := posted.0],
               old(session.tx.books.ledger) + [posted.1],
               old(session.tx.books.marks)[leg.ref := leg.status]))
    {
      if leg.amount <= 0 {
        return Failure(BadRequest);
      }
      if leg.amount % UNIT != 0 {
        return Failure(BadRequest);
      }
      var availableDelta, escrowDelta := leg.amount * Sign(leg.kind, Available),
        leg.amount * Sign(leg.kind, Bucket.Escrow);
      SignTimes(leg.kind, leg.amount);
      var newAvailable, newEscrow := row.available + availableDelta, row.escrow + escrowDelta;
      if newAvailable < 0 {
        return Failure(InsufficientFunds);
      }
      if newEscrow < 0 {
        return Failure(InsufficientEscrow);
      }
      var entry := Entry(leg.ref, leg.user, leg.kind, leg.amount, availableDelta, escrowDelta,
                         newAvailable, newEscrow, leg.group, leg.agreement);
      row.available := newAvailable;
      row.escrow := newEscrow;
      var b := session.tx.books;
      session.tx := session.tx.(books := Books(
        b.wallets[row.user := Wallet(row.available, row.escrow)], b.ledger + [entry], b.marks[leg.ref := leg.status]));
      return Success(entry);
    }

    // ------------------------------------------------------ the public wrappers

    /** Move money on one wallet, idempotently. `rival` is what another caller with
        the same reference has committed by the time the wallet row is locked. */
    method ApplyEntry(leg: Leg, rival: Option<Store>) returns (outcome: Outcome)
      requires session.Valid()
      requires rival.Some? ==> leg.user in rival.value.books.wallets && Find(rival.value.books.ledger, leg.ref).Some?
      modifies session
      ensures session.Valid()
      ensures (session.Seen(), outcome) ==
        if rival.None? || Find(old(session.tx.books.ledger), leg.ref).Some?
        then EntryInSession(old(session.Seen()), leg)
        else EntryOvertaken(rival.value, leg)
    {
      var existing := Find(session.tx.books.ledger, leg.ref);
      if existing.Some? {
        return Replayed([existing.value]);
      }
      ResolveWallet(leg.user);
      if rival.Some? {
        session.Overtaken(rival.value);
      }
      var row := LockWallet(leg.user);
      var result := ApplyLedgerEntry(row, leg);
      if result.Failure? {
        session.Rollback();
        return Failed(result.error);
      }
      OneNewRef(session.db.books.ledger, session.tx.books.ledger, leg.ref);
      var ok := session.Commit();
      if !ok {
        session.Rollback();
        existing := Find(session.tx.books.ledger, leg.ref);
        if existing.None? {
          return Failed(IntegrityError);
        }
        return Replayed([existing.value]);
      }
      return Posted([result.value]);
    }

    /** Lock the wallets a transfer touches, each once, and apply both legs. When
        both are on one wallet they share its row, and the second reads what the
        first left. */
    method ApplyLegs(debit: Leg, credit: Leg) returns (result: Result<seq<Entry>, Error>)
      requires debit.user in session.tx.books.wallets && credit.user in session.tx.books.wallets
      modifies session
      ensures session.db == old(session.db)
      ensures match PostTransfer(old(session.tx.books), debit, credit)
        case Failure(e) => result == Failure(e)
        case Success(b) => session.tx == old(session.tx).(books := b)
                           && result == Success(b.ledger[|old(session.tx.books.ledger)|..])
    {
      ghost var b := session.tx.books;
      var debitRow := LockWallet(debit.user);
      var creditRow := debitRow;
      if credit.user != debit.user {
        creditRow := LockWallet(credit.user);
      }
      var first := ApplyLedgerEntry(debitRow, debit);
      if first.Failure? {
        return Failure(first.error);
      }
      assert session.tx.books == PostLeg(b, debit).value;
      var second := ApplyLedgerEntry(creditRow, credit);
      if second.Failure? {
        return Failure(second.error);
      }
      assert session.tx.books == PostTransfer(b, debit, credit).value;
      assert session.tx.books.ledger[|b.ledger|..] == [first.value, second.value];
      return Success([first.value, second.value]);
    }

    /** Both wallets exist: apply the legs, commit, and look again if it conflicts. */
    method PostLegs(group: nat, debit: Leg, credit: Leg) returns (outcome: Outcome)
      requires session.Valid() && debit.ref != credit.ref
      requires debit.user in session.tx.books.wallets && credit.user in session.tx.books.wallets
      modifies session
      ensures session.Valid()
      ensures (session.Seen(), outcome) == PairPosted(old(session.Seen()), group, debit, credit)
    {
      ghost var base := session.tx.books;
      var result := ApplyLegs(debit, credit);
      if result.Failure? {
        session.Rollback();
        return Failed(result.error);
      }
      TwoNewRefs(base.ledger, session.tx.books.ledger, debit.ref, credit.ref);
      var ok := session.Commit();
      if !ok {
        session.Rollback();
        var existing := Group(session.tx.books.ledger, group);
        if |existing| != 2 {
          return Failed(IntegrityError);
        }
        return Replayed(ReplayPair(existing, group));
      }
      return Posted(result.value);
    }

    /** Move money between two wallets in one transaction; `rival` as for an entry. */
    method ApplyTransfer(group: nat, debit: Leg, credit: Leg, rival: Option<Store>) returns (outcome: Outcome)
      requires session.Valid() && TransferLegs(group, debit, credit)
      requires rival.Some? ==> debit.user in rival.value.books.wallets && credit.user in rival.value.books.wallets
      requires rival.Some? ==>
        Find(rival.value.books.ledger, debit.ref).Some? || Find(rival.value.books.ledger, credit.ref).Some?
      modifies session
      ensures session.Valid()
      ensures (session.Seen(), outcome) ==
        if rival.None? || |Group(old(session.tx.books.ledger), group)| == 2
        then TransferInSession(old(session.Seen()), group, debit, credit)
        else TransferOvertaken(rival.value, group, debit, credit)
    {
      var existing := Group(session.tx.books.ledger, group);
      if |existing| == 2 {
        return Replayed(ReplayPair(existing, group));
      }
      ResolveWallet(debit.user);
      ResolveWallet(credit.user);
      if rival.Some? {
        session.Overtaken(rival.value);
        OvertakenPair(session.Seen(), group, debit, credit);
      } else {
        ResolvedPair(old(session.Seen()), session.Seen(), group, debit, credit);
      }
      outcome := PostLegs(group, debit, credit);
    }

    /** Presentational: never touches a balance, and does nothing for a missing entry. */
    method MarkEntryStatus(ref: Ref, status: EntryStatus, commit: bool)
      requires session.Valid()
      modifies session
      ensures session.Valid()
      ensures session.tx == old(session.tx).(books := Mark(old(session.tx.books), ref, status))
      ensures session.db ==
        if commit && Find(old(session.tx.books.ledger), ref).Some? then session.tx else old(session.db)
    {
      var entry := Find(session.tx.books.ledger, ref);
      if entry.None? {
        return;
      }
      session.tx := session.tx.(books := session.tx.books.(marks := session.tx.books.marks[ref := status]));
      if commit {
        var _ := session.Commit();
      }
    }
  }

  /** A transfer from the point where both its wallets exist. */
  ghost function PairPosted(v: View, group: nat, debit: Leg, credit: Leg): (View, Outcome)
    requires debit.user in v.tx.books.wallets && credit.user in v.tx.books.wallets
  {
    match PostTransfer(v.tx.books, debit, credit)
    case Failure(e) => (Clean(v.db), Failed(e))
    case Success(b) =>
      if Find(v.tx.books.ledger, debit.ref).None? && Find(v.tx.books.ledger, credit.ref).None?
      then (Clean(v.tx.(books := b)), Posted(b.ledger[|v.tx.books.ledger|..]))
      else
        var existing := Group(v.db.books.ledger, group);
        (Clean(v.db), if |existing| == 2 then Replayed(ReplayPair(existing, group)) else Failed(IntegrityError))
  }

  lemma OvertakenPair(v: View, group: nat, debit: Leg, credit: Leg)
    requires debit.user in v.db.books.wallets && credit.user in v.db.books.wallets && v.tx.books == v.db.books
    requires Find(v.db.books.ledger, debit.ref).Some? || Find(v.db.books.ledger, credit.ref).Some?
    ensures PairPosted(v, group, debit, credit) == TransferOvertaken(v.db, group, debit, credit)
  {
  }

  /** Without a rival the second look finds what the first one did. */
  lemma ResolvedPair(v: View, v': View, group: nat, debit: Leg, credit: Leg)
    requires |Group(v.tx.books.ledger, group)| != 2 && v.db.books.ledger == v.tx.books.ledger
    requires var base := Ensure(Ensure(v.tx.books, debit.user), credit.user);
      && v'.tx == v.tx.(books := base)
      && v'.db == (if debit.user in v.tx.books.wallets && credit.user in v.tx.books.wallets then v.db else v'.tx)
    ensures PairPosted(v', group, debit, credit) == TransferInSession(v, group, debit, credit)
  {
  }

  lemma SignTimes(kind: Kind, amount: Amount)
    requires amount > 0
    ensures forall k: Bucket :: amount * Sign(kind, k) == Delta(kind, k, amount)
  {
    forall k: Bucket ensures amount * Sign(kind, k) == Delta(kind, k, amount) {
      if Sign(kind, k) == 1 {
        assert amount * 1 == amount;
      } else if Sign(kind, k) == -1 {
        assert amount * -1 == -amount;
      } else {
        assert Sign(kind, k) == 0 && amount * 0 == 0;
      }
    }
  }

  lemma OneNewRef(committed: seq<Entry>, ledger: seq<Entry>, ref: Ref)
    requires |ledger| == |committed| + 1 && committed <= ledger && Last(ledger).ref == ref
    ensures NewRefs(committed, ledger) <==> Find(committed, ref).None?
  {
    assert ledger[..|committed|] == committed && ledger[..|committed| + 1] == ledger;
    NewRefsStep(committed, ledger, |committed|);
  }

  lemma TwoNewRefs(committed: seq<Entry>, ledger: seq<Entry>, first: Ref, second: Ref)
    requires |ledger| == |committed| + 2 && committed <= ledger && first != second
    requires ledger[|committed|].ref == first && ledger[|committed| + 1].ref == second
    ensures NewRefs(committed, ledger) <==> Find(committed, first).None? && Find(committed, second).None?
  {
    var n := |committed|;
    assert ledger[..n] == committed && ledger[..n + 2] == ledger && ledger[..n + 1] == committed + [ledger[n]];
    NewRefsStep(committed, ledger, n);
    NewRefsStep(committed, ledger, n + 1);
    Appended(committed, ledger[n]);
  }
}
