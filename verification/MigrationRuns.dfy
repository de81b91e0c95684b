// The whole system on migrated books: old deals, old payments and the ledger
// written behind the old balances are a state from which every run stays in order.
module MigrationRuns {
  import opened Wrappers
  import opened Sums
  import opened Money
  import opened Ledger
  import opened Store
  import opened EscrowProofs
  import opened Payments
  import opened PaymentProofs
  import opened LedgerBackfill
  import opened Migration
  import opened SystemRuns

  /** A deal from before the ledger: no money was ever locked for it or disputed. */
  predicate OldDeal(ag: Agreement) {
    Payable(ag.amount) && PartiesOk(ag) && ag.status in {Pending, Active, Cancelled} && ag.disputes == []
  }

  /** A payment from before the ledger. One that succeeded is over; one that did
      not may still be paid. */
  predicate OldPayment(p: nat, row: Payment, x: Wire) {
    if row.status == PaymentSuccess then row.purpose == Funding && x == Wire(false, None, None, false, true)
    else row.purpose == Funding && !x.legacy && FundingOk(p, row, NoFacts, x)
  }

  /** The other tables, when the migrations run: each deposit to be written down is
      a payment that succeeded. */
  predicate OldTables(agreements: seq<Agreement>, payments: seq<Payment>, wires: seq<Wire>, paid: seq<Paid>) {
    && (forall ag :: ag in agreements ==> OldDeal(ag))
    && |wires| == |payments| && (forall p: nat :: p < |payments| ==> OldPayment(p, payments[p], wires[p]))
    && (forall d :: d in paid ==> d.payment < |payments| && payments[d.payment].status == PaymentSuccess)
  }

  /** Where the application starts: the migrated books, carrying all they hold. */
  function Started(b: Books, agreements: seq<Agreement>, payments: seq<Payment>, wires: seq<Wire>): World {
    World(Store(b, agreements, payments), wires, Flow(b.ledger))
  }

  // ------------------------------------------------ what the ledger is made of

  /** Opening balances, and deposits that were recorded. */
  ghost predicate FromPaid(l: seq<Entry>, paid: seq<Paid>) {
    forall e :: e in l ==> e.ref.Opening? || (e.ref.DepositOf? && Recorded(paid, e.ref.payment))
  }

  predicate Recorded(paid: seq<Paid>, p: nat) {
    exists d :: d in paid && d.payment == p
  }

  lemma {:induction false} LedgerFromPaid(b: Books, users: seq<UserId>, paid: seq<Paid>)
    requires b.ledger == [] && DistinctPayments(paid)
    requires forall u :: u in users ==> u in b.wallets
    ensures FromPaid(ExplainAll(b, users, paid).ledger, paid)
  {
    if users != [] {
      var v := Last(users);
      assert forall u :: u in Init(users) ==> u in users;
      LedgerFromPaid(b, Init(users), paid);
      var b1 := ExplainAll(b, Init(users), paid);
      var es := Explain(v, DepositsOf(paid, v), 0, Holding(b1, v));
      SelectedFacts(paid, v);
      ExplainRefs(v, DepositsOf(paid, v), 0, Holding(b1, v));
      forall e | e in es ensures e.ref.Opening? || (e.ref.DepositOf? && Recorded(paid, e.ref.payment)) {
        if e.ref != Opening(v) {
          var d :| d in DepositsOf(paid, v) && e.ref == DepositOf(d.payment);
          assert d in paid;
        }
      }
      assert ExplainAll(b, users, paid).ledger == b1.ledger + es;
    }
  }

  /** Such a ledger says nothing of any deal, any withdrawal, or a payment that
      was not recorded. */
  lemma NothingElse(b: Books, paid: seq<Paid>)
    requires FromPaid(b.ledger, paid)
    ensures forall a: nat :: Untouched(b.ledger, a)
    ensures forall p: nat :: FactsOf(b, p).wd.None? && FactsOf(b, p).rev.None? && FactsOf(b, p).mark.None?
    ensures forall p: nat :: !Recorded(paid, p) ==> FactsOf(b, p) == NoFacts
  {
    forall q: Ref | !q.Opening? && !(q.DepositOf? && Recorded(paid, q.payment)) ensures Find(b.ledger, q).None? {
      Found(b.ledger, q);
    }
  }

  // -------------------------------------------------------- all money is carried

  /** What the entries add up to over all users is what they brought in. */
  lemma {:induction false} SumsAreFlow(l: seq<Entry>, users: nat)
    requires forall e :: e in l ==> e.user < users && Explains(e, e.user)
    ensures SumTo((u: nat) => Sum(l, u, Available), users) == Flow(l)
  {
    if l == [] {
      SumMonotone((u: nat) => 0, (u: nat) => Sum(l, u, Available), users);
      NothingSums(users);
    } else {
      var e := Last(l);
      assert e in l && forall x :: x in Init(l) ==> x in l;
      SumsAreFlow(Init(l), users);
      SumDiffersAt((u: nat) => Sum(Init(l), u, Available), (u: nat) => Sum(l, u, Available), users, e.user);
    }
  }

  lemma MigratedConserves(b: Books)
    requires Reconciles(b)
    requires forall e :: e in b.ledger ==> Explains(e, e.user) && e.user in b.wallets
    requires forall u: UserId :: Balance(b, u, Bucket.Escrow) == 0
    ensures Conserved(b)
  {
    forall users: nat | Bounded(b, users) ensures Total(b, users) == Flow(b.ledger) {
      SumsAreFlow(b.ledger, users);
      var f := (u: nat) => Balance(b, u, Available) + Balance(b, u, Bucket.Escrow);
      var g := (u: nat) => Sum(b.ledger, u, Available);
      forall u: nat ensures f(u) == g(u) {
        assert Balance(b, u, Available) == Sum(b.ledger, u, Available);
      }
      SumMonotone(f, g, users);
    }
  }

  // ---------------------------------------------------------------- the start

  /** Nothing is held for any deal. */
  lemma NothingHeld(s: Store)
    requires GoodBooks(s.books) && forall a: nat :: Untouched(s.books.ledger, a)
    requires forall ag :: ag in s.agreements ==> OldDeal(ag)
    requires forall u: UserId :: Balance(s.books, u, Bucket.Escrow) == 0
    ensures EscrowInv(s)
  {
    forall a: nat | a < |s.agreements| ensures AgreementOk(s.books.ledger, s.agreements[a], a) {
      assert s.agreements[a] in s.agreements && Untouched(s.books.ledger, a);
    }
    forall u: UserId ensures HeldFor(s, u) == 0 {
      forall a: nat ensures EscrowProofs.Held(s, u, a) == 0 {
        assert Untouched(s.books.ledger, a);
      }
      SumMonotone((a: nat) => 0, (a: nat) => EscrowProofs.Held(s, u, a), |s.agreements|);
      NothingSums(|s.agreements|);
    }
  }

  /** Nothing has crossed the boundary since the start. */
  lemma NothingSince(w: World, paid: seq<Paid>)
    requires |w.wires| == |w.store.payments| && OldTables(w.store.agreements, w.store.payments, w.wires, paid)
    requires FromPaid(w.store.books.ledger, paid)
    ensures forall p: nat :: p < |w.wires| ==>
              RowOk(p, w.store.payments[p], FactsOf(w.store.books, p), w.wires[p]) && NetOf(w, p) == 0
    ensures forall p: nat :: p >= |w.wires| ==> FactsOf(w.store.books, p) == NoFacts
    ensures NetTotal(w) == 0
  {
    NothingElse(w.store.books, paid);
    SumMonotone((p: nat) => 0, (p: nat) => NetOf(w, p), |w.wires|);
    NothingSums(|w.wires|);
  }

  /** The application starts in order. */
  lemma StartsInOrder(rows: seq<WalletMerge.Row>, users: seq<UserId>, paid: seq<Paid>,
      agreements: seq<Agreement>, payments: seq<Payment>, wires: seq<Wire>)
    requires Migrates(rows, users, paid) && OldTables(agreements, payments, wires, paid)
    ensures SystemInv(Started(Migrated(rows, users, paid), agreements, payments, wires))
  {
    var b := Migrated(rows, users, paid);
    var w := Started(b, agreements, payments, wires);
    MigrationEstablishesLedger(rows, users, paid);
    LedgerFromPaid(Normal(rows), users, paid);
    NothingElse(b, paid);
    MigratedConserves(b);
    NothingHeld(w.store);
    NothingSince(w, paid);
  }

  /** And stays in order, over every run of the whole system: the books reconcile,
      everyone's escrow is their unsettled deals, every withdrawal is undone at most
      once, and all money is what was carried over and what was paid in since. */
  lemma RunsFromMigratedTables(rows: seq<WalletMerge.Row>, users: seq<UserId>, paid: seq<Paid>,
      agreements: seq<Agreement>, payments: seq<Payment>, wires: seq<Wire>, moves: seq<Move>, w: World, bound: nat)
    requires Migrates(rows, users, paid) && OldTables(agreements, payments, wires, paid)
    requires Reaches(Started(Migrated(rows, users, paid), agreements, payments, wires), moves, w)
    requires Bounded(w.store.books, bound)
    ensures |w.wires| == |w.store.payments| && InOrder(w, bound)
    ensures forall n: nat :: Bounded(Migrated(rows, users, paid), n) ==>
              w.carried == Total(Migrated(rows, users, paid), n)
  {
    StartsInOrder(rows, users, paid, agreements, payments, wires);
    EveryStateFrom(Started(Migrated(rows, users, paid), agreements, payments, wires), moves, w, bound);
  }
}
