// The two migrations, one after the other: whatever wallets and deposits there
// were, the application starts on books that satisfy the ledger's invariant.
module Migration {
  import opened Wrappers
  import opened Money
  import opened Ledger
  import opened Store
  import opened EscrowProofs
  import opened LedgerBackfill
  import WalletMerge

  /** The wallet table with one row per user, as books without a ledger. */
  function WalletsOf(rows: seq<WalletMerge.Row>): map<UserId, Wallet> {
    if rows == [] then map[]
    else WalletsOf(Init(rows))[Last(rows).user := Wallet(Last(rows).available, Last(rows).escrow)]
  }

  /** What the first migration leaves: one wallet per user, and no ledger yet. */
  function Normal(rows: seq<WalletMerge.Row>): Books {
    Books(WalletsOf(WalletMerge.Normalised(rows)), [], map[])
  }

  /** Merge and round the wallets, then write the ledger behind every balance. */
  function Migrated(rows: seq<WalletMerge.Row>, users: seq<UserId>, paid: seq<Paid>): Books
    requires forall u :: u in users ==> u in Normal(rows).wallets
  {
    ExplainAll(Normal(rows), users, paid)
  }

  /** What the legacy tables are taken to hold: row ids and payments are unique,
      and recorded deposits are payable. Balances can be anything. */
  ghost predicate LegacyOk(rows: seq<WalletMerge.Row>, paid: seq<Paid>) {
    && WalletMerge.UniqueIds(rows) && DistinctPayments(paid)
    && (forall d :: d in paid ==> Payable(d.amount))
  }

  /** Wallets of whole, non-negative amounts, and no ledger. */
  ghost predicate LegacyBooks(b: Books) {
    && b.ledger == [] && b.marks == map[]
    && forall u, k: Bucket :: u in b.wallets ==> Balance(b, u, k) >= 0 && WholeKobo(Balance(b, u, k))
  }

  // ------------------------------------------------------- after the merge

  lemma {:induction false} WalletsAreRows(rows: seq<WalletMerge.Row>, u: UserId)
    requires WalletMerge.OnePerUser(rows)
    ensures u in WalletsOf(rows) <==> WalletMerge.Has(rows, u)
    ensures u in WalletsOf(rows) ==> forall k: Bucket ::
      Balance(Books(WalletsOf(rows), [], map[]), u, k) == WalletMerge.SumFor(rows, u, k)
  {
    if rows != [] {
      var r := Last(rows);
      assert rows == Init(rows) + [r];
      WalletsAreRows(Init(rows), u);
      if r.user == u {
        assert r in rows && !WalletMerge.Has(Init(rows), u);
        WalletMerge.NoRowsNoSum(Init(rows), u, Available);
        WalletMerge.NoRowsNoSum(Init(rows), u, Bucket.Escrow);
      } else {
        assert WalletMerge.Has(rows, u) <==> WalletMerge.Has(Init(rows), u);
      }
    }
  }

  lemma {:induction false} SumsNotNegative(rows: seq<WalletMerge.Row>, u: UserId, k: Bucket)
    requires WalletMerge.Checked(rows)
    ensures WalletMerge.SumFor(rows, u, k) >= 0
  {
    if rows != [] {
      assert Last(rows) in rows && forall r :: r in Init(rows) ==> r in rows;
      SumsNotNegative(Init(rows), u, k);
    }
  }

  /** What `user` held in a bucket over all their wallets, to two decimals. */
  function Held(rows: seq<WalletMerge.Row>, user: UserId, bucket: Bucket): Amount {
    RoundHalfAway(WalletMerge.SumFor(rows, user, bucket))
  }

  /** Nothing is lost by the merge but what rounding takes: the books hold, bucket
      by bucket, what each user's rows held together. */
  lemma MergedBooks(rows: seq<WalletMerge.Row>, paid: seq<Paid>)
    requires LegacyOk(rows, paid) && WalletMerge.Checked(WalletMerge.Normalised(rows))
    ensures LegacyBooks(Normal(rows))
    ensures forall u :: u in Normal(rows).wallets <==> WalletMerge.Has(rows, u)
    ensures forall u, k: Bucket :: u in Normal(rows).wallets ==> Balance(Normal(rows), u, k) == Held(rows, u, k)
  {
    var b := Normal(rows);
    forall u, k: Bucket
      ensures u in b.wallets <==> WalletMerge.Has(rows, u)
      ensures u in b.wallets ==> Balance(b, u, k) == Held(rows, u, k) >= 0 && WholeKobo(Balance(b, u, k))
    {
      WalletMerge.NormalisePreserves(rows, u, k);
      WalletsAreRows(WalletMerge.Normalised(rows), u);
      SumsNotNegative(WalletMerge.Normalised(rows), u, k);
      RoundedHalfAway(WalletMerge.SumFor(rows, u, k));
    }
    forall u ensures u in b.wallets <==> WalletMerge.Has(rows, u) {
      assert u in b.wallets ==> Balance(b, u, Available) == Held(rows, u, Available);
      WalletMerge.NormalisePreserves(rows, u, Available);
      WalletsAreRows(WalletMerge.Normalised(rows), u);
    }
  }

  // ---------------------------------------------------- after the backfill

  /** One written entry, seen on its own: of a kind that brings money in, payable,
      about its user, and complete. */
  predicate Explains(e: Entry, user: UserId) {
    && e.user == user && Payable(e.amount) && Genuine(e)
    && (e.ref.DepositOf? || e.ref.Opening?)
    && e.availableDelta == e.amount && e.escrowDelta == 0 && e.escrowAfter == 0
  }

  lemma {:induction false} ExplainsAll(user: UserId, deposits: seq<Paid>, running: Amount, total: Amount)
    requires running <= total && WholeKobo(total) && WholeKobo(running)
    requires forall d :: d in deposits ==> Payable(d.amount)
    ensures forall e :: e in Explain(user, deposits, running, total) ==> Explains(e, user)
    decreases |deposits|
  {
    if !(deposits == [] || running + deposits[0].amount > total) {
      assert deposits[0] in deposits && forall d :: d in deposits[1..] ==> d in deposits;
      ExplainsAll(user, deposits[1..], running + deposits[0].amount, total);
    }
  }

  lemma {:induction false} NotNegative(es: seq<Entry>, user: UserId, k: Bucket)
    requires forall e :: e in es ==> Explains(e, user)
    ensures Sum(es, user, k) >= 0
  {
    if es != [] {
      assert Last(es) in es && forall e :: e in Init(es) ==> e in es;
      NotNegative(Init(es), user, k);
    }
  }

  /** A new wallet's entries explain themselves after what was written before. */
  lemma NewEntriesOk(l: seq<Entry>, user: UserId, deposits: seq<Paid>, total: Amount, i: nat)
    requires total >= 0 && WholeKobo(total) && forall d :: d in deposits ==> Payable(d.amount)
    requires forall e :: e in l ==> e.user != user
    requires i < |Explain(user, deposits, 0, total)|
    ensures EntryOk(l + Explain(user, deposits, 0, total), |l| + i)
  {
    var es := Explain(user, deposits, 0, total);
    var whole := l + es;
    ExplainsAll(user, deposits, 0, total);
    ExplainRuns(user, deposits, 0, total, i);
    assert es[i] in es && whole[|l| + i] == es[i];
    assert whole[..|l| + i + 1] == l + es[..i + 1];
    forall k: Bucket
      ensures es[i].Delta(k) == Delta(es[i].kind, k, es[i].amount)
      ensures es[i].After(k) == Sum(whole[..|l| + i + 1], user, k) >= 0
    {
      SumAppend(l, es[..i + 1], user, k);
      NothingYet(l, user, k);
      assert forall e :: e in es[..i + 1] ==> e in es;
      NotNegative(es[..i + 1], user, k);
      NoEscrow(es[..i + 1], user);
    }
  }

  lemma {:induction false} NoEscrow(es: seq<Entry>, user: UserId)
    requires forall e :: e in es ==> Explains(e, user)
    ensures Sum(es, user, Bucket.Escrow) == 0
  {
    if es != [] {
      assert Last(es) in es && forall e :: e in Init(es) ==> e in es;
      NoEscrow(Init(es), user);
    }
  }

  lemma {:induction false} CompleteHas(marks: map<Ref, EntryStatus>, es: seq<Entry>)
    ensures forall r :: r in Complete(marks, es) <==> r in marks || exists e :: e in es && e.ref == r
  {
    if es != [] {
      assert es == Init(es) + [Last(es)];
      CompleteHas(marks, Init(es));
    }
  }

  /** Both migrations go through: the tables are as they must be, the constraints
      hold, and the second is given every wallet it asks for, once. */
  ghost predicate Migrates(rows: seq<WalletMerge.Row>, users: seq<UserId>, paid: seq<Paid>) {
    && LegacyOk(rows, paid) && WalletMerge.Checked(WalletMerge.Normalised(rows))
    && (forall u :: u in users ==> u in Normal(rows).wallets)
    && (forall u :: u in users <==> Legacy(Normal(rows), u))
    && (forall i, j :: 0 <= i < j < |users| ==> users[i] != users[j])
  }

  ghost predicate AllCompleted(marks: map<Ref, EntryStatus>) {
    forall r :: r in marks ==> marks[r] == EntryCompleted
  }

  lemma {:induction false} CompleteMarks(marks: map<Ref, EntryStatus>, es: seq<Entry>)
    requires AllCompleted(marks)
    ensures AllCompleted(Complete(marks, es))
  {
    if es != [] {
      CompleteMarks(marks, Init(es));
    }
  }

  lemma {:induction false} MarksAll(b: Books, users: seq<UserId>, paid: seq<Paid>)
    requires b.marks == map[] && forall u :: u in users ==> u in b.wallets
    ensures AllCompleted(ExplainAll(b, users, paid).marks)
  {
    if users != [] {
      assert forall u :: u in Init(users) ==> u in users;
      MarksAll(b, Init(users), paid);
      var b1, v := ExplainAll(b, Init(users), paid), Last(users);
      CompleteMarks(b1.marks, Explain(v, DepositsOf(paid, v), 0, Holding(b1, v)));
    }
  }

  ghost predicate EntriesOk(l: seq<Entry>) {
    forall i: nat :: i < |l| ==> EntryOk(l, i)
  }

  /** The ledger so far: every entry explains itself, is about a wallet already
      done, and is marked. */
  ghost predicate WrittenOk(b: Books, users: seq<UserId>) {
    && EntriesOk(b.ledger)
    && (forall e :: e in b.ledger ==> e.user in users && Explains(e, e.user) && e.ref in b.marks)
  }

  lemma {:induction false} WritesAll(b: Books, users: seq<UserId>, paid: seq<Paid>)
    requires LegacyBooks(b) && DistinctPayments(paid)
    requires forall d :: d in paid ==> Payable(d.amount)
    requires forall u :: u in users ==> u in b.wallets
    requires forall u :: u in users ==> Legacy(b, u)
    requires forall i, j :: 0 <= i < j < |users| ==> users[i] != users[j]
    ensures WrittenOk(ExplainAll(b, users, paid), users)
  {
    if users != [] {
      var v := Last(users);
      assert users == Init(users) + [v] && v !in Init(users);
      WritesAll(b, Init(users), paid);
      StillHolds(b, Init(users), paid, v);
      WritesOne(ExplainAll(b, Init(users), paid), v, paid, Init(users));
    }
  }

  /** A wallet that has not had its turn holds what it held. */
  lemma StillHolds(b: Books, users: seq<UserId>, paid: seq<Paid>, v: UserId)
    requires LegacyBooks(b) && v in b.wallets && v !in users
    requires forall u :: u in users ==> u in b.wallets
    requires forall u :: u in users ==> Legacy(b, u)
    requires forall i, j :: 0 <= i < j < |users| ==> users[i] != users[j]
    ensures var total := Holding(ExplainAll(b, users, paid), v);
      total == Holding(b, v) && total >= 0 && WholeKobo(total)
  {
    BalancesAreRows(b);
    EveryWallet(b, users, paid, v, Available);
    EveryWallet(b, users, paid, v, Bucket.Escrow);
    assert WholeKobo(Balance(b, v, Available)) && WholeKobo(Balance(b, v, Bucket.Escrow));
  }

  lemma WritesOne(b: Books, v: UserId, paid: seq<Paid>, users: seq<UserId>)
    requires v in b.wallets && v !in users && WrittenOk(b, users) && Holding(b, v) >= 0 && WholeKobo(Holding(b, v))
    requires DistinctPayments(paid) && forall d :: d in paid ==> Payable(d.amount)
    ensures WrittenOk(ExplainWallet(b, v, paid), users + [v])
  {
    var es := Explain(v, DepositsOf(paid, v), 0, Holding(b, v));
    SelectedFacts(paid, v);
    ExplainsAll(v, DepositsOf(paid, v), 0, Holding(b, v));
    CompleteHas(b.marks, es);
    AllEntriesOk(b.ledger, v, DepositsOf(paid, v), Holding(b, v));
    assert ExplainWallet(b, v, paid).ledger == b.ledger + es;
  }

  lemma AllEntriesOk(l: seq<Entry>, v: UserId, deposits: seq<Paid>, total: Amount)
    requires EntriesOk(l) && forall e :: e in l ==> e.user != v
    requires total >= 0 && WholeKobo(total) && forall d :: d in deposits ==> Payable(d.amount)
    ensures EntriesOk(l + Explain(v, deposits, 0, total))
  {
    var whole := l + Explain(v, deposits, 0, total);
    forall i: nat | i < |whole| ensures EntryOk(whole, i) {
      if i < |l| {
        assert EntryOk(l, i) && whole[..i + 1] == l[..i + 1];
      } else {
        NewEntriesOk(l, v, deposits, total, i - |l|);
      }
    }
  }

  lemma {:induction false} NoGroups(l: seq<Entry>)
    requires forall e :: e in l ==> e.group == None
    ensures forall g: nat :: Group(l, g) == []
  {
    if l != [] {
      assert Last(l) in l && forall e :: e in Init(l) ==> e in l;
      NoGroups(Init(l));
    }
  }

  /** From any legacy tables whose rounded sums pass the constraints, whatever
      balances were explained by deposits and whatever were not, the migrations end
      with the final check passing and with books that satisfy the ledger's
      invariant: reconciled, running sums, unique and genuine references, whole
      groups. Each user has what all their wallets held, each bucket to two
      decimals, and all of it available. */
  lemma MigrationEstablishesLedger(rows: seq<WalletMerge.Row>, users: seq<UserId>, paid: seq<Paid>)
    requires Migrates(rows, users, paid)
    ensures var b := Migrated(rows, users, paid);
      && GoodBooks(b)
      && (forall u :: u in b.wallets ==> !Drifts(b, u))
      && (forall u :: u in b.wallets <==> WalletMerge.Has(rows, u))
      && (forall u :: u in b.wallets ==> Balance(b, u, Bucket.Escrow) == 0)
      && (forall u :: u in b.wallets ==>
            Balance(b, u, Available) == Held(rows, u, Available) + Held(rows, u, Bucket.Escrow))
      && (forall e :: e in b.ledger ==>
            Explains(e, e.user) && e.user in b.wallets && e.ref in b.marks && b.marks[e.ref] == EntryCompleted)
  {
    var b := Migrated(rows, users, paid);
    MigratedBalances(rows, users, paid);
    WritesAll(Normal(rows), users, paid);
    BackfillRefsUnique(Normal(rows), users, paid);
    WrittenIsGood(b, users);
    MarksAll(Normal(rows), users, paid);
  }

  /** Every balance after both, and the final check. */
  lemma MigratedBalances(rows: seq<WalletMerge.Row>, users: seq<UserId>, paid: seq<Paid>)
    requires Migrates(rows, users, paid)
    ensures LegacyBooks(Normal(rows))
    ensures var b := Migrated(rows, users, paid);
      && (forall u :: u in b.wallets <==> WalletMerge.Has(rows, u))
      && (forall u :: u in b.wallets ==> !Drifts(b, u) && b.wallets[u].escrow == 0)
      && (forall u :: u in b.wallets ==>
            && b.wallets[u].available == Held(rows, u, Available) + Held(rows, u, Bucket.Escrow)
            && b.wallets[u].available >= 0)
  {
    var b0, b := Normal(rows), Migrated(rows, users, paid);
    MergedBooks(rows, paid);
    BalancesAreRows(b0);
    BackfillReconciles(b0, users, paid);
    UntouchedAreEmpty(b0, users);
    forall u | u in b.wallets
      ensures b.wallets[u] == Wallet(Held(rows, u, Available) + Held(rows, u, Bucket.Escrow), 0)
    {
      assert Balance(b0, u, Available) == Held(rows, u, Available);
      assert Balance(b0, u, Bucket.Escrow) == Held(rows, u, Bucket.Escrow);
      assert u !in users ==> b0.wallets[u] == Wallet(0, 0);
    }
  }

  /** A ledger that explains every balance satisfies the invariant. */
  lemma WrittenIsGood(b: Books, users: seq<UserId>)
    requires WrittenOk(b, users) && UniqueRefs(b.ledger) && forall u :: u in users ==> u in b.wallets
    requires forall u :: u in b.wallets ==> !Drifts(b, u) && b.wallets[u].available >= 0 && b.wallets[u].escrow >= 0
    ensures GoodBooks(b)
  {
    NoGroups(b.ledger);
    AllReconcile(b, users);
    forall i: nat | i < |b.ledger| ensures EntryOk(b.ledger, i) && b.ledger[i].user in b.wallets {
      assert b.ledger[i] in b.ledger;
    }
  }

  lemma BalancesAreRows(b: Books)
    requires LegacyBooks(b)
    ensures forall u :: u in b.wallets ==> b.wallets[u].available >= 0 && b.wallets[u].escrow >= 0
  {
    forall u | u in b.wallets ensures b.wallets[u].available >= 0 && b.wallets[u].escrow >= 0 {
      assert Balance(b, u, Available) >= 0 && Balance(b, u, Bucket.Escrow) >= 0;
    }
  }

  /** A wallet the backfill leaves alone is empty. */
  lemma UntouchedAreEmpty(b: Books, users: seq<UserId>)
    requires LegacyBooks(b) && forall u :: u in users <==> Legacy(b, u)
    ensures forall u :: u in b.wallets && u !in users ==> b.wallets[u] == Wallet(0, 0) && !Drifts(b, u)
  {
    BalancesAreRows(b);
    forall u | u in b.wallets && u !in users ensures b.wallets[u] == Wallet(0, 0) {
      assert !Legacy(b, u);
    }
  }

  lemma AllReconcile(b: Books, users: seq<UserId>)
    requires WrittenOk(b, users) && forall u :: u in users ==> u in b.wallets
    requires forall u :: u in b.wallets ==> !Drifts(b, u) && b.wallets[u].available >= 0 && b.wallets[u].escrow >= 0
    ensures Reconciles(b)
  {
    forall u: UserId, k: Bucket ensures Balance(b, u, k) == Sum(b.ledger, u, k) {
      if u !in b.wallets {
        NothingYet(b.ledger, u, k);
      }
    }
    forall u: UserId, k: Bucket ensures Balance(b, u, k) >= 0 {
    }
  }

  /** So runs can start there: nothing is held for any deal yet, and any run of
      ledger operations keeps the invariant. */
  lemma RunsStartFromMigratedBooks(b: Books, payments: seq<Payment>, ops: seq<Op>)
    requires GoodBooks(b) && forall e :: e in b.ledger ==> e.ref.DepositOf? || e.ref.Opening?
    requires forall u :: u in b.wallets ==> Balance(b, u, Bucket.Escrow) == 0
    requires forall op :: op in ops ==> WellFormed(op)
    ensures EscrowInv(Store(b, [], payments))
    ensures BooksOk(RunOps(b, ops)) && GroupsWhole(RunOps(b, ops).ledger)
  {
    RunReconciles(b, ops);
    forall a: nat ensures Untouched(b.ledger, a) {
      Found(b.ledger, LockOf(a));
      Found(b.ledger, Out(a));
      Found(b.ledger, RefundOf(a));
    }
    forall u: UserId ensures Balance(b, u, Bucket.Escrow) == HeldFor(Store(b, [], payments), u) {
    }
  }
}
