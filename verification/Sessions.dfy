// The transaction boundary: what a money call does to the writes its caller had
// flushed. The repository's rule is that they commit with the money and are
// rolled back with it. The exact exceptions are a wallet created on the way,
// which commits them, and a caller overtaken by another with its reference, which
// succeeds and loses them.
module Sessions {
  import opened Money
  import opened Ledger
  import opened Store

  /** The caller has flushed changes to rows, but no ledger entry and no balance. */
  predicate OnlyRowsFlushed(v: View) {
    v.tx.books.ledger == v.db.books.ledger && v.tx.books.wallets == v.db.books.wallets
  }

  /** What is committed holds the same money as before. */
  ghost predicate NoMoneyMoved(s: Store, s': Store) {
    s'.books.ledger == s.books.ledger && SameBalances(s.books, s'.books)
  }

  /** Everything flushed, and this many entries, in one commit. */
  ghost predicate AllCommitted(v: View, v': View, entries: seq<Entry>, n: nat) {
    && v'.tx == v'.db && v'.db.agreements == v.tx.agreements && v'.db.payments == v.tx.payments
    && v'.db.books.ledger == v.db.books.ledger + entries && |entries| == n
  }

  /** apply_entry, with nobody in the way. Raising leaves ledger and balances
      alone, and leaves everything alone exactly when the wallet already existed;
      otherwise every flushed write has been committed. Posting commits all of it
      at once, and a replay commits none of it and drops none of it. */
  lemma EntryAllOrNothing(v: View, leg: Leg)
    requires OnlyRowsFlushed(v)
    ensures var (v', outcome) := EntryInSession(v, leg);
      && (outcome.Failed? ==>
          && NoMoneyMoved(v.db, v'.db) && v'.tx == v'.db
          && (v'.db == v.db <==> leg.user in v.db.books.wallets)
          && (v'.db != v.db ==> v'.db == v.tx.(books := Ensure(v.tx.books, leg.user))))
      && (outcome.Posted? ==> AllCommitted(v, v', outcome.entries, 1))
      && (outcome.Replayed? ==> v' == v)
  {
    EnsureFacts(v.tx.books, leg.user);
    if ApplyEntry(v.tx.books, leg).outcome.Posted? {
      PostedFacts(Ensure(v.tx.books, leg.user), leg);
    }
  }

  /** apply_transfer, with the same rule for two wallets. */
  lemma TransferAllOrNothing(v: View, group: nat, debit: Leg, credit: Leg)
    requires OnlyRowsFlushed(v)
    ensures var (v', outcome) := TransferInSession(v, group, debit, credit);
      && (outcome.Failed? ==>
          && NoMoneyMoved(v.db, v'.db) && v'.tx == v'.db
          && (v'.db == v.db <==> debit.user in v.db.books.wallets && credit.user in v.db.books.wallets)
          && (v'.db != v.db ==> v'.db == v.tx.(books := Ensure(Ensure(v.tx.books, debit.user), credit.user))))
      && (outcome.Posted? ==> AllCommitted(v, v', outcome.entries, 2))
      && (outcome.Replayed? ==> v' == v)
  {
    var b := Ensure(Ensure(v.tx.books, debit.user), credit.user);
    EnsureFacts(v.tx.books, debit.user);
    EnsureFacts(Ensure(v.tx.books, debit.user), credit.user);
    if PostTransfer(b, debit, credit).Success? {
      TransferEntries(b, debit, credit);
    }
  }

  lemma TransferEntries(b: Books, debit: Leg, credit: Leg)
    requires debit.user in b.wallets && credit.user in b.wallets && PostTransfer(b, debit, credit).Success?
    ensures var l := PostTransfer(b, debit, credit).value.ledger;
      |l| == |b.ledger| + 2 && l == b.ledger + l[|b.ledger|..]
  {
  }

  /** apply_entry, overtaken. The call posts nothing, and what is committed and
      seen afterwards is what the other caller left: nothing this caller flushed is
      in it, although the call succeeds, with the other's entry, exactly when the
      wallet covers the leg once more. */
  lemma OvertakenEntry(now: Store, leg: Leg)
    requires BooksOk(now.books) && leg.user in now.books.wallets && Find(now.books.ledger, leg.ref).Some?
    ensures var (v', outcome) := EntryOvertaken(now, leg);
      && v' == Clean(now) && !outcome.Posted?
      && (outcome.Replayed? <==> Affordable(now.books, leg.kind, leg.user, leg.amount))
      && (outcome.Replayed? ==>
           |outcome.entries| == 1 && outcome.entries[0] in now.books.ledger && outcome.entries[0].ref == leg.ref)
  {
    Found(now.books.ledger, leg.ref);
    PostWhen(now.books, leg);
  }

  /** apply_transfer, overtaken: the same, and for a whole ledger never an
      integrity error. */
  lemma OvertakenRelease(now: Store, a: nat, from: UserId, to: UserId, amount: Amount)
    requires GoodBooks(now.books) && from != to && from in now.books.wallets && to in now.books.wallets
    requires Has(now.books.ledger, Out(a)) || Has(now.books.ledger, In(a))
    ensures var (v', outcome) := TransferOvertaken(now, a, LegFor(Out(a), from, amount, EntryCompleted),
        LegFor(In(a), to, amount, EntryCompleted));
      && v' == Clean(now) && !outcome.Posted? && outcome != Failed(IntegrityError)
      && (outcome.Replayed? <==> Payable(amount) && Balance(now.books, from, Bucket.Escrow) >= amount)
      && (outcome.Replayed? ==> outcome.entries == Group(now.books.ledger, a))
  {
    ReleasedByGroup(now.books.ledger, a);
    PairWhen(now.books, a, from, to, amount);
  }
}
