// The migration that writes a ledger behind balances older than the ledger:
// one entry per recorded deposit as far as the balance goes, an opening entry
// for the rest, and the whole balance in the available bucket.
module LedgerBackfill {
  import opened Wrappers
  import opened Money
  import opened Ledger

  /** A successful funding payment, as the query returns it: oldest first. */
  datatype Paid = Paid(payment: nat, user: UserId, amount: Amount)

  // ---------------------------------------------------------- specification

  function DepositsOf(paid: seq<Paid>, user: UserId): seq<Paid> {
    if paid == [] then []
    else DepositsOf(Init(paid), user) + (if Last(paid).user == user then [Last(paid)] else [])
  }

  /** The user's own payments, all of them, in the order they were recorded. */
  lemma {:induction false} DepositsAre(paid: seq<Paid>, user: UserId) returns (at: seq<nat>)
    ensures |at| == |DepositsOf(paid, user)| && forall i, j :: 0 <= i < j < |at| ==> at[i] < at[j]
    ensures forall i :: 0 <= i < |at| ==>
      at[i] < |paid| && paid[at[i]] == DepositsOf(paid, user)[i] && paid[at[i]].user == user
    ensures forall j: nat :: j < |paid| && paid[j].user == user ==> j in at
  {
    if paid == [] {
      at := [];
    } else {
      at := DepositsAre(Init(paid), user);
      if Last(paid).user == user {
        at := at + [|paid| - 1];
      }
    }
  }

  function BackfilledEntry(ref: Ref, user: UserId, kind: Kind, amount: Amount, after: Amount): Entry {
    Entry(ref, user, kind, amount, amount, 0, after, 0, None, None)
  }

  /** The entries behind a balance: deposits while they fit, then the residual. */
  function Explain(user: UserId, deposits: seq<Paid>, running: Amount, total: Amount): seq<Entry> {
    if deposits == [] || running + deposits[0].amount > total
    then (if total - running > 0 then [BackfilledEntry(Opening(user), user, AdjustmentCredit, total - running, total)]
      else [])
    else
      var after := running + deposits[0].amount;
      [BackfilledEntry(DepositOf(deposits[0].payment), user, Deposit, deposits[0].amount, after)]
      + Explain(user, deposits[1..], after, total)
  }

  /** Every entry is written as completed. */
  function Complete(marks: map<Ref, EntryStatus>, es: seq<Entry>): map<Ref, EntryStatus> {
    if es == [] then marks else Complete(marks, Init(es))[Last(es).ref := EntryCompleted]
  }

  /** Entries added as they are, marked completed. */
  function Written(b: Books, es: seq<Entry>): Books {
    b.(ledger := b.ledger + es, marks := Complete(b.marks, es))
  }

  function Holding(b: Books, user: UserId): Amount {
    Balance(b, user, Available) + Balance(b, user, Bucket.Escrow)
  }

  /** One wallet: its entries, and its balance moved into the available bucket. */
  function ExplainWallet(b: Books, user: UserId, paid: seq<Paid>): Books
    requires user in b.wallets
  {
    var total := Holding(b, user);
    Written(b, Explain(user, DepositsOf(paid, user), 0, total)).(wallets := b.wallets[user := Wallet(total, 0)])
  }

  function ExplainAll(b: Books, users: seq<UserId>, paid: seq<Paid>): Books
    requires forall u :: u in users ==> u in b.wallets
    ensures ExplainAll(b, users, paid).wallets.Keys == b.wallets.Keys
  {
    if users == [] then b
    else
      assert Last(users) in users;
      ExplainWallet(ExplainAll(b, Init(users), paid), Last(users), paid)
  }

  /** `WHERE NOT EXISTS (entries) AND (available > 0 OR escrow > 0)`. */
  predicate Legacy(b: Books, user: UserId) {
    && user in b.wallets
    && (forall e :: e in b.ledger ==> e.user != user)
    && (b.wallets[user].available > 0 || b.wallets[user].escrow > 0)
  }

  /** The final query finds this wallet. */
  predicate Drifts(b: Books, user: UserId) {
    && user in b.wallets
    && (b.wallets[user].available != Sum(b.ledger, user, Available)
        || b.wallets[user].escrow != Sum(b.ledger, user, Bucket.Escrow))
  }

  // ------------------------------------------------------------- as it runs

  class Backfill {
    var books: Books

    constructor (books: Books)
      ensures this.books == books
    {
      this.books := books;
    }

    method SelectDeposits(paid: seq<Paid>, user: UserId) returns (deposits: seq<Paid>)
      ensures deposits == DepositsOf(paid, user)
    {
      deposits := [];
      var i := 0;
      while i < |paid|
        invariant 0 <= i <= |paid|
        invariant deposits == DepositsOf(paid[..i], user)
      {
        assert Init(paid[..i + 1]) == paid[..i];
        if paid[i].user == user {
          deposits := deposits + [paid[i]];
        }
        i := i + 1;
      }
      assert paid[..|paid|] == paid;
    }

    method Insert(ref: Ref, user: UserId, kind: Kind, amount: Amount, after: Amount)
      modifies this
      ensures books == Written(old(books), [BackfilledEntry(ref, user, kind, amount, after)])
    {
      var entry := Entry(ref, user, kind, amount, amount, 0, after, 0, None, None);
      assert Init([entry]) == [];
      assert Complete(books.marks, [entry]) == Complete(books.marks, [])[ref := EntryCompleted];
      books := books.(ledger := books.ledger + [entry], marks := books.marks[ref := EntryCompleted]);
    }

    /** Never manufacture more money than the wallet actually holds. */
    method BackfillWallet(user: UserId, paid: seq<Paid>)
      requires user in books.wallets
      modifies this
      ensures books == ExplainWallet(old(books), user, paid)
    {
      var w := books.wallets[user];
      var total := w.available + w.escrow;
      var running := 0;
      var deposits := SelectDeposits(paid, user);
      ghost var before := books;
      var i := 0;
      while i < |deposits|
        invariant 0 <= i <= |deposits| && books.wallets == before.wallets
        invariant Written(before, Explain(user, deposits, 0, total)) ==
                  Written(books, Explain(user, deposits[i..], running, total))
      {
        var amount := deposits[i].amount;
        if running + amount > total {
          break;
        }
        WrittenInParts(books, Explain(user, deposits[i..], running, total));
        running := running + amount;
        Insert(DepositOf(deposits[i].payment), user, Deposit, amount, running);
        assert deposits[i..][1..] == deposits[i + 1..];
        i := i + 1;
      }
      var residual := total - running;
      if residual > 0 {
        Insert(Opening(user), user, AdjustmentCredit, residual, total);
      }
      books := books.(wallets := books.wallets[user := Wallet(total, 0)]);
    }

    /** The whole step; false is the migration failing on a wallet that still drifts. */
    method Upgrade(legacy: seq<UserId>, paid: seq<Paid>) returns (ok: bool)
      requires forall u :: u in legacy <==> Legacy(books, u)
      modifies this
      ensures forall u :: u in legacy ==> u in old(books.wallets)
      ensures books == ExplainAll(old(books), legacy, paid)
      ensures ok <==> forall u :: u in books.wallets ==> !Drifts(books, u)
    {
      var i := 0;
      while i < |legacy|
        invariant 0 <= i <= |legacy|
        invariant forall u :: u in legacy ==> u in old(books.wallets)
        invariant books == ExplainAll(old(books), legacy[..i], paid)
      {
        assert Init(legacy[..i + 1]) == legacy[..i];
        assert legacy[i] in legacy;
        BackfillWallet(legacy[i], paid);
        i := i + 1;
      }
      assert legacy[..|legacy|] == legacy;
      ok := forall u :: u in books.wallets ==> !Drifts(books, u);
    }
  }

  // ------------------------------------------------------------- properties

  /** Writing entries one after the other is writing them all. */
  lemma WrittenInParts(b: Books, es: seq<Entry>)
    requires es != []
    ensures Written(b, es) == Written(Written(b, es[..1]), es[1..])
  {
    CompleteInParts(b.marks, es[..1], es[1..]);
    assert es[..1] + es[1..] == es;
    assert b.ledger + es[..1] + es[1..] == b.ledger + es;
  }

  lemma {:induction false} CompleteInParts(marks: map<Ref, EntryStatus>, first: seq<Entry>, rest: seq<Entry>)
    ensures Complete(marks, first + rest) == Complete(Complete(marks, first), rest)
  {
    if rest == [] {
      assert first + rest == first;
    } else {
      assert Init(first + rest) == first + Init(rest);
      CompleteInParts(marks, first, Init(rest));
    }
  }

  lemma {:induction false} SumAppend(l: seq<Entry>, es: seq<Entry>, user: UserId, k: Bucket)
    ensures Sum(l + es, user, k) == Sum(l, user, k) + Sum(es, user, k)
  {
    if es == [] {
      assert l + es == l;
    } else {
      assert Init(l + es) == l + Init(es);
      SumAppend(l, Init(es), user, k);
    }
  }

  /** The entries add up to exactly what had to be explained, for any recorded
      deposits at all, and touch nobody else. */
  lemma {:induction false} ExplainSums(user: UserId, deposits: seq<Paid>, running: Amount, total: Amount, u: UserId,
      k: Bucket)
    requires running <= total
    ensures Sum(Explain(user, deposits, running, total), u, k) == if u == user && k == Available then total - running
        else 0
    decreases |deposits|
  {
    if !(deposits == [] || running + deposits[0].amount > total) {
      var after := running + deposits[0].amount;
      var first := BackfilledEntry(DepositOf(deposits[0].payment), user, Deposit, deposits[0].amount, after);
      ExplainSums(user, deposits[1..], after, total, u, k);
      SumAppend([first], Explain(user, deposits[1..], after, total), u, k);
      assert Init([first]) == [];
    } else if total - running > 0 {
      assert Init(Explain(user, deposits, running, total)) == [];
    }
  }

  /** Each entry's balance_after is the running sum up to and including it. */
  lemma {:induction false} ExplainRuns(user: UserId, deposits: seq<Paid>, running: Amount, total: Amount, i: nat)
    requires running <= total && i < |Explain(user, deposits, running, total)|
    ensures var es := Explain(user, deposits, running, total);
      && es[i].user == user && es[i].escrowAfter == 0
      && es[i].balanceAfter == running + Sum(es[..i + 1], user, Available) && es[i].balanceAfter <= total
    decreases |deposits|
  {
    var es := Explain(user, deposits, running, total);
    assert es[..1] == [es[0]] && Init([es[0]]) == [];
    if !(deposits == [] || running + deposits[0].amount > total) && i > 0 {
      var after := running + deposits[0].amount;
      var rest := Explain(user, deposits[1..], after, total);
      ExplainRuns(user, deposits[1..], after, total, i - 1);
      assert es[..i + 1] == [es[0]] + rest[..i];
      SumAppend([es[0]], rest[..i], user, Available);
    }
  }

  /** What the first `n` deposits come to. */
  function UpTo(deposits: seq<Paid>, n: nat): Amount
    requires n <= |deposits|
  {
    if n == 0 then 0 else UpTo(deposits, n - 1) + deposits[n - 1].amount
  }

  lemma {:induction false} UpToFirst(deposits: seq<Paid>, n: nat)
    requires n < |deposits|
    ensures UpTo(deposits, n + 1) == deposits[0].amount + UpTo(deposits[1..], n)
  {
    if n > 0 {
      UpToFirst(deposits, n - 1);
    }
  }

  /** The first `n` deposits are the longest run from the oldest that never
      overshoots the balance: every step of it stays within the balance, and the
      next deposit, if there is one, would not have. */
  ghost predicate Longest(deposits: seq<Paid>, running: Amount, total: Amount, n: nat) {
    && n <= |deposits|
    && (forall i: nat :: i <= n ==> running + UpTo(deposits, i) <= total)
    && (n < |deposits| ==> running + UpTo(deposits, n + 1) > total)
  }

  /** Those deposits, in order, and one entry for what they leave unexplained. */
  ghost predicate Writes(es: seq<Entry>, user: UserId, deposits: seq<Paid>, n: nat, left: Amount)
    requires n <= |deposits|
  {
    && |es| == n + (if left > 0 then 1 else 0)
    && (forall i :: 0 <= i < n ==> es[i].ref == DepositOf(deposits[i].payment) && es[i].amount == deposits[i].amount)
    && (left > 0 ==> Last(es).ref == Opening(user) && Last(es).amount == left)
  }

  lemma {:induction false} GreedyPrefix(user: UserId, deposits: seq<Paid>, running: Amount, total: Amount)
      returns (n: nat)
    requires running <= total
    ensures Longest(deposits, running, total, n)
    ensures Writes(Explain(user, deposits, running, total), user, deposits, n, total - running - UpTo(deposits, n))
    decreases |deposits|
  {
    if deposits == [] || running + deposits[0].amount > total {
      n := 0;
    } else {
      var after := running + deposits[0].amount;
      var m := GreedyPrefix(user, deposits[1..], after, total);
      n := m + 1;
      LongestCons(deposits, running, total, m);
      UpToFirst(deposits, m);
      WritesCons(Explain(user, deposits[1..], after, total), user, deposits, running, m,
        total - after - UpTo(deposits[1..], m));
    }
  }

  lemma WritesCons(rest: seq<Entry>, user: UserId, deposits: seq<Paid>, running: Amount, m: nat, left: Amount)
    requires deposits != [] && m < |deposits| && Writes(rest, user, deposits[1..], m, left)
    ensures var first := BackfilledEntry(DepositOf(deposits[0].payment), user, Deposit, deposits[0].amount,
        running + deposits[0].amount);
      Writes([first] + rest, user, deposits, m + 1, left)
  {
    var first := BackfilledEntry(DepositOf(deposits[0].payment), user, Deposit, deposits[0].amount,
      running + deposits[0].amount);
    var es := [first] + rest;
    forall i | 0 <= i < m + 1
      ensures es[i].ref == DepositOf(deposits[i].payment) && es[i].amount == deposits[i].amount
    {
      if i > 0 {
        assert es[i] == rest[i - 1] && deposits[1..][i - 1] == deposits[i];
      }
    }
  }

  lemma LongestCons(deposits: seq<Paid>, running: Amount, total: Amount, m: nat)
    requires deposits != [] && running <= total && running + deposits[0].amount <= total
    requires Longest(deposits[1..], running + deposits[0].amount, total, m)
    ensures Longest(deposits, running, total, m + 1)
  {
    forall i: nat | i <= m + 1 ensures running + UpTo(deposits, i) <= total {
      if i > 0 {
        UpToFirst(deposits, i - 1);
        assert running + deposits[0].amount + UpTo(deposits[1..], i - 1) <= total;
      }
    }
    if m + 1 < |deposits| {
      UpToFirst(deposits, m + 1);
    }
  }

  // ---------------------------------------------------------- the whole table

  /** Explaining one wallet with no entries: it reconciles, and the others are as they were. */
  lemma OneWallet(b: Books, v: UserId, paid: seq<Paid>, u: UserId, k: Bucket)
    requires v in b.wallets && Holding(b, v) >= 0 && Sum(b.ledger, v, k) == 0
    ensures var b' := ExplainWallet(b, v, paid);
      && (u == v ==> b'.wallets[u] == Wallet(Holding(b, u), 0) && Balance(b', u, k) == Sum(b'.ledger, u, k))
      && (u != v ==> Balance(b', u, k) == Balance(b, u, k) && Sum(b'.ledger, u, k) == Sum(b.ledger, u, k))
      && (u != v && u in b.wallets ==> b'.wallets[u] == b.wallets[u])
  {
    var es := Explain(v, DepositsOf(paid, v), 0, Holding(b, v));
    ExplainSums(v, DepositsOf(paid, v), 0, Holding(b, v), u, k);
    SumAppend(b.ledger, es, u, k);
  }

  /** A wallet before the step, explained or left alone. */
  lemma {:induction false} EveryWallet(b: Books, users: seq<UserId>, paid: seq<Paid>, u: UserId, k: Bucket)
    requires forall v :: v in users ==> v in b.wallets
    requires forall v :: v in users ==> Legacy(b, v)
    requires forall i, j :: 0 <= i < j < |users| ==> users[i] != users[j]
    requires forall v :: v in b.wallets ==> b.wallets[v].available >= 0 && b.wallets[v].escrow >= 0
    ensures var b' := ExplainAll(b, users, paid);
      if u in users
      then b'.wallets[u] == Wallet(Holding(b, u), 0) && Balance(b', u, k) == Sum(b'.ledger, u, k)
      else Balance(b', u, k) == Balance(b, u, k) && Sum(b'.ledger, u, k) == Sum(b.ledger, u, k)
  {
    if users != [] {
      var v := Last(users);
      assert v in users && v !in Init(users) && Legacy(b, v);
      assert users == Init(users) + [v];
      EveryWallet(b, Init(users), paid, u, k);
      EveryWallet(b, Init(users), paid, v, Available);
      EveryWallet(b, Init(users), paid, v, Bucket.Escrow);
      NothingYet(b.ledger, v, k);
      OneWallet(ExplainAll(b, Init(users), paid), v, paid, u, k);
    }
  }

  lemma {:induction false} NothingYet(l: seq<Entry>, user: UserId, k: Bucket)
    requires forall e :: e in l ==> e.user != user
    ensures Sum(l, user, k) == 0
  {
    if l != [] {
      assert l == Init(l) + [Last(l)];
      NothingYet(Init(l), user, k);
    }
  }

  /** After the step every wallet without entries is explained: what it held is
      available, to the kobo, and the ledger says so. So the final check passes
      exactly when no wallet that already had entries was drifting before. */
  lemma BackfillReconciles(b: Books, users: seq<UserId>, paid: seq<Paid>)
    requires forall u :: u in users ==> u in b.wallets
    requires forall u :: u in users <==> Legacy(b, u)
    requires forall i, j :: 0 <= i < j < |users| ==> users[i] != users[j]
    requires forall u :: u in b.wallets ==> b.wallets[u].available >= 0 && b.wallets[u].escrow >= 0
    ensures var b' := ExplainAll(b, users, paid);
      && (forall u :: u in users ==> b'.wallets[u] == Wallet(Holding(b, u), 0) && !Drifts(b', u))
      && (forall u :: u in b.wallets && u !in users ==> b'.wallets[u] == b.wallets[u])
      && ((forall u :: u in b'.wallets ==> !Drifts(b', u)) <==>
           (forall u :: u in b.wallets && u !in users ==> !Drifts(b, u)))
  {
    var b' := ExplainAll(b, users, paid);
    forall u, k: Bucket | u in b.wallets
      ensures if u in users then b'.wallets[u] == Wallet(Holding(b, u), 0) && Balance(b', u, k) == Sum(b'.ledger, u, k)
              else Balance(b', u, k) == Balance(b, u, k) && Sum(b'.ledger, u, k) == Sum(b.ledger, u, k)
    {
      EveryWallet(b, users, paid, u, k);
    }
    forall u | u in b.wallets
      ensures u in users ==> !Drifts(b', u)
      ensures u !in users ==> b'.wallets[u] == b.wallets[u] && (Drifts(b', u) <==> Drifts(b, u))
    {
      assert Balance(b', u, Available) == b'.wallets[u].available;
      assert Balance(b', u, Bucket.Escrow) == b'.wallets[u].escrow;
      assert Balance(b, u, Available) == b.wallets[u].available && Balance(b, u, Bucket.Escrow) == b.wallets[u].escrow;
    }
  }

  // -------------------------------------------------------- unique references

  /** Deposit entries are about their payer, and opening entries about their wallet. */
  ghost predicate OwnRefs(l: seq<Entry>, paid: seq<Paid>) {
    && (forall e, d :: e in l && d in paid && e.ref == DepositOf(d.payment) ==> e.user == d.user)
    && (forall e :: e in l && e.ref.Opening? ==> e.user == e.ref.wallet)
  }

  ghost predicate DistinctPayments(paid: seq<Paid>) {
    forall i, j :: 0 <= i < j < |paid| ==> paid[i].payment != paid[j].payment
  }

  lemma {:induction false} SelectedFacts(paid: seq<Paid>, user: UserId)
    requires DistinctPayments(paid)
    ensures DistinctPayments(DepositsOf(paid, user))
    ensures forall d :: d in DepositsOf(paid, user) ==> d in paid && d.user == user
  {
    if paid != [] {
      SelectedFacts(Init(paid), user);
      forall d | d in DepositsOf(Init(paid), user) ensures d.payment != Last(paid).payment {
        var i :| 0 <= i < |Init(paid)| && Init(paid)[i] == d;
        assert paid[i] == d;
      }
    }
  }

  /** The entries written for one wallet repeat no reference among themselves. */
  lemma {:induction false} ExplainRefs(user: UserId, deposits: seq<Paid>, running: Amount, total: Amount)
    requires DistinctPayments(deposits)
    ensures var es := Explain(user, deposits, running, total);
      && UniqueRefs(es)
      && forall e :: e in es ==>
           e.user == user && (e.ref == Opening(user) || exists d :: d in deposits && e.ref == DepositOf(d.payment))
    decreases |deposits|
  {
    if !(deposits == [] || running + deposits[0].amount > total) {
      var after := running + deposits[0].amount;
      var rest := Explain(user, deposits[1..], after, total);
      ExplainRefs(user, deposits[1..], after, total);
      forall e | e in rest ensures e.ref != DepositOf(deposits[0].payment) {
        if e.ref != Opening(user) {
          var d :| d in deposits[1..] && e.ref == DepositOf(d.payment);
          var i :| 0 <= i < |deposits[1..]| && deposits[1..][i] == d;
          assert deposits[i + 1] == d;
        }
      }
      assert deposits[0] in deposits;
    }
  }

  /** No reference is written twice, so no insert can fail on the unique index. */
  lemma {:induction false} BackfillRefsUnique(b: Books, users: seq<UserId>, paid: seq<Paid>)
    requires forall v :: v in users ==> v in b.wallets
    requires forall v :: v in users ==> Legacy(b, v)
    requires forall i, j :: 0 <= i < j < |users| ==> users[i] != users[j]
    requires DistinctPayments(paid) && UniqueRefs(b.ledger) && OwnRefs(b.ledger, paid)
    ensures var l := ExplainAll(b, users, paid).ledger;
      UniqueRefs(l) && OwnRefs(l, paid) && forall e :: e in l ==> e in b.ledger || e.user in users
  {
    if users != [] {
      var v := Last(users);
      assert v in users && v !in Init(users);
      BackfillRefsUnique(b, Init(users), paid);
      var b1 := ExplainAll(b, Init(users), paid);
      var deposits := DepositsOf(paid, v);
      var es := Explain(v, deposits, 0, Holding(b1, v));
      SelectedFacts(paid, v);
      ExplainRefs(v, deposits, 0, Holding(b1, v));
      AppendOwn(b1.ledger, es, v, deposits, paid);
    }
  }

  lemma AppendOwn(l: seq<Entry>, es: seq<Entry>, v: UserId, deposits: seq<Paid>, paid: seq<Paid>)
    requires UniqueRefs(l) && OwnRefs(l, paid) && UniqueRefs(es) && DistinctPayments(paid)
    requires forall e :: e in l ==> e.user != v
    requires forall d :: d in deposits ==> d in paid && d.user == v
    requires forall e :: e in es ==>
        e.user == v && (e.ref == Opening(v) || exists d :: d in deposits && e.ref == DepositOf(d.payment))
    ensures UniqueRefs(l + es) && OwnRefs(l + es, paid)
  {
    forall e, f | e in l && f in es ensures e.ref != f.ref {
      if f.ref != Opening(v) {
        var d :| d in deposits && f.ref == DepositOf(d.payment);
      }
    }
    forall e, d | e in es && d in paid && e.ref == DepositOf(d.payment) ensures e.user == d.user {
      var q :| q in deposits && e.ref == DepositOf(q.payment);
      var i :| 0 <= i < |paid| && paid[i] == q;
      var j :| 0 <= j < |paid| && paid[j] == d;
      assert i == j;
    }
  }
}
