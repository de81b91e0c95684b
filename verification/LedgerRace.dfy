// The one answer that is not the sequential one, reached by runs in which every
// caller asks as the services do: two requests to fund one deal, and two
// releases of one deal whose beneficiary has no wallet yet.
module LedgerRace {
  import opened Wrappers
  import opened Money
  import opened Ledger
  import S = Store
  import opened LedgerProtocol
  import opened LedgerProtocolProofs
  import opened LedgerProtocolTheorems
  import opened LedgerProtocolServices

  // ---------------------------------------------------------- runs from a state

  predicate OnlySteps(ticks: seq<Tick>) {
    forall t :: t in ticks ==> t.Go?
  }

  predicate AllAsked(ticks: seq<Tick>) {
    forall t :: t in ticks && t.Arrive? ==> Asked(t.op)
  }

  /** Steps of the callers that are there lead from one state to the other. */
  ghost predicate Leads(start: Sys, sys: Sys) {
    exists ticks: seq<Tick> :: Reaches(start, ticks, sys) && OnlySteps(ticks)
  }

  /** Some run of callers that ask as the services do ends here. */
  ghost predicate Reached(sys: Sys) {
    exists ticks: seq<Tick> :: Reaches(EmptySys, ticks, sys) && AllAsked(ticks)
  }

  lemma Here(sys: Sys)
    ensures Leads(sys, sys)
  {
    assert Reaches(sys, [], sys);
  }

  lemma Extends(start: Sys, ticks: seq<Tick>, sys: Sys, tick: Tick, sys': Sys)
    requires Reaches(start, ticks, sys) && Ticks(sys, tick, sys')
    ensures Reaches(start, ticks + [tick], sys')
  {
    var more := ticks + [tick];
    assert Init(more) == ticks && Last(more) == tick;
  }

  lemma OneStep(start: Sys, sys: Sys, i: nat, id: nat)
    requires Leads(start, sys) && Enabled(sys, i) && FreshId(sys.ids, id)
    ensures Leads(start, Advance(sys, i, id))
  {
    var ticks: seq<Tick> :| Reaches(start, ticks, sys) && OnlySteps(ticks);
    Extends(start, ticks, sys, Go(i, id), Advance(sys, i, id));
    assert OnlySteps(ticks + [Go(i, id)]);
  }

  lemma Steps(start: Sys, sys: Sys, i: nat)
    requires Leads(start, sys) && Enabled(sys, i) && !sys.procs[i].pc.Inserting?
    ensures Leads(start, Advance(sys, i, 0))
  {
    var id := IdsBounded(sys.ids);
    OneStep(start, sys, i, id);
    assert Advance(sys, i, id) == Advance(sys, i, 0);
  }

  lemma Arrives(sys: Sys, op: Op, row: Option<nat>)
    requires Reached(sys) && Asked(op)
    ensures Reached(Spawn(sys, op, row))
  {
    var ticks: seq<Tick> :| Reaches(EmptySys, ticks, sys) && AllAsked(ticks);
    Extends(EmptySys, ticks, sys, Arrive(op, row), Spawn(sys, op, row));
    assert AllAsked(ticks + [Arrive(op, row)]);
  }

  lemma LastIsLast(ticks: seq<Tick>, more: seq<Tick>)
    requires more != []
    ensures ticks + more == ticks + Init(more) + [Last(more)]
  {
  }

  lemma {:induction false} RunsJoin(start: Sys, ticks: seq<Tick>, m: Sys, more: seq<Tick>, sys: Sys)
    requires Reaches(start, ticks, m) && Reaches(m, more, sys)
    ensures Reaches(start, ticks + more, sys)
    decreases |more|
  {
    if more == [] {
      assert ticks + more == ticks;
    } else {
      var last: Sys :| Reaches(m, Init(more), last) && Ticks(last, Last(more), sys);
      RunsJoin(start, ticks, m, Init(more), last);
      LastIsLast(ticks, more);
      Extends(start, ticks + Init(more), last, Last(more), sys);
    }
  }

  lemma ReachedOn(m: Sys, sys: Sys)
    requires Reached(m) && Leads(m, sys)
    ensures Reached(sys)
  {
    var ticks: seq<Tick> :| Reaches(EmptySys, ticks, m) && AllAsked(ticks);
    var more: seq<Tick> :| Reaches(m, more, sys) && OnlySteps(more);
    RunsJoin(EmptySys, ticks, m, more, sys);
    assert AllAsked(ticks + more);
  }

  // ------------------------------------------------- what one caller can do next

  function At(sys: Sys, i: nat, pc: Pc): Sys
    requires i < |sys.procs|
  {
    SetProc(sys, i, sys.procs[i].(pc := pc))
  }

  lemma MovesTwice(sys: Sys, i: nat, pc: Pc, pc': Pc)
    requires i < |sys.procs|
    ensures At(At(sys, i, pc), i, pc') == At(sys, i, pc')
  {
    assert sys.procs[i := sys.procs[i].(pc := pc)][i := sys.procs[i].(pc := pc')]
        == sys.procs[i := sys.procs[i].(pc := pc')];
  }

  /** Every wallet it needs is there: it goes on to its locks. */
  lemma {:induction false} Resolves(start: Sys, sys: Sys, i: nat, k: nat)
    requires Leads(start, sys) && i < |sys.procs| && sys.procs[i].pc == Resolving(k)
    requires Open(sys.books, sys.procs[i].op) && k <= |Users(sys.procs[i].op)|
    ensures Leads(start, At(sys, i, Locking([], LockOrder(sys.ids, sys.procs[i].op))))
    decreases |Users(sys.procs[i].op)| - k
  {
    Steps(start, sys, i);
    if k < |Users(sys.procs[i].op)| {
      assert Users(sys.procs[i].op)[k] in sys.books.wallets;
      Resolves(start, At(sys, i, Resolving(k + 1)), i, k + 1);
      MovesTwice(sys, i, Resolving(k + 1), Locking([], LockOrder(sys.ids, sys.procs[i].op)));
    }
  }

  lemma ChecksAndResolves(start: Sys, sys: Sys, i: nat)
    requires Leads(start, sys) && i < |sys.procs| && sys.procs[i].pc == Checking
    requires Open(sys.books, sys.procs[i].op) && Lookup(sys.books, sys.procs[i].op).None?
    ensures Leads(start, At(sys, i, Locking([], LockOrder(sys.ids, sys.procs[i].op))))
  {
    Steps(start, sys, i);
    Resolves(start, At(sys, i, Resolving(0)), i, 0);
    MovesTwice(sys, i, Resolving(0), Locking([], LockOrder(sys.ids, sys.procs[i].op)));
  }

  /** The state after a caller has created its k-th wallet. */
  function AfterInsert(sys: Sys, i: nat, k: nat, id: nat): Sys
    requires i < |sys.procs| && k < |Users(sys.procs[i].op)|
  {
    var u := Users(sys.procs[i].op)[k];
    Sys(Ensure(sys.books, u), if u in sys.ids then sys.ids else sys.ids[u := id],
        sys.procs[i := Committed(sys.procs[i]).(pc := Resolving(k + 1))], sys.log + [Opened(u)])
  }

  lemma Opens(start: Sys, sys: Sys, i: nat, k: nat, id: nat)
    requires Leads(start, sys) && i < |sys.procs| && sys.procs[i].pc == Resolving(k) && FreshId(sys.ids, id)
    requires k < |Users(sys.procs[i].op)| && Users(sys.procs[i].op)[k] !in sys.books.wallets
    ensures Leads(start, AfterInsert(sys, i, k, id))
  {
    Steps(start, sys, i);
    var s1 := At(sys, i, Inserting(k));
    OneStep(start, s1, i, id);
    assert s1.procs[i := Committed(s1.procs[i]).(pc := Resolving(k + 1))]
        == sys.procs[i := Committed(sys.procs[i]).(pc := Resolving(k + 1))];
  }

  predicate AllFree(sys: Sys, i: nat, ids: seq<nat>) {
    forall id, j: nat :: id in ids && j < |sys.procs| && j != i ==> !HoldsLock(sys.procs[j], WalletLock(id))
  }

  lemma {:induction false} TakesLocks(start: Sys, sys: Sys, i: nat, held: seq<nat>, waiting: seq<nat>)
    requires Leads(start, sys) && i < |sys.procs| && sys.procs[i].pc == Locking(held, waiting)
    requires AllFree(sys, i, waiting)
    ensures Leads(start, At(sys, i, Locking(held + waiting, [])))
    decreases |waiting|
  {
    if waiting == [] {
      assert held + waiting == held && At(sys, i, Locking(held, [])).procs == sys.procs;
    } else {
      assert waiting[0] in waiting && forall id :: id in waiting[1..] ==> id in waiting;
      Steps(start, sys, i);
      TakesLocks(start, At(sys, i, Locking(held + [waiting[0]], waiting[1..])), i, held + [waiting[0]], waiting[1..]);
      assert held + waiting == held + [waiting[0]] + waiting[1..];
      MovesTwice(sys, i, Locking(held + [waiting[0]], waiting[1..]), Locking(held + waiting, []));
    }
  }

  /** The state after a caller has committed its posting. */
  function AfterCommit(sys: Sys, i: nat, st: Staged): Sys
    requires i < |sys.procs|
  {
    Sys(Commit(sys.books, st), sys.ids, sys.procs[i := Finished(Committed(sys.procs[i]), Posted(st.entries))],
        sys.log + [Did(sys.procs[i].op)])
  }

  /** With its locks free, and rows that cover it: the posting is committed. */
  lemma GetsPosted(start: Sys, sys: Sys, i: nat, st: Staged)
    requires Leads(start, sys) && i < |sys.procs|
    requires sys.procs[i].pc == Locking([], LockOrder(sys.ids, sys.procs[i].op))
    requires AllFree(sys, i, LockOrder(sys.ids, sys.procs[i].op))
    requires Stage(sys.books.wallets, sys.procs[i].op) == Success(st) && !Conflicts(sys.books, sys.procs[i].op)
    ensures Leads(start, AfterCommit(sys, i, st))
  {
    var order := LockOrder(sys.ids, sys.procs[i].op);
    TakesLocks(start, sys, i, [], order);
    assert [] + order == order;
    var s1 := At(sys, i, Locking(order, []));
    Steps(start, s1, i);
    var s2 := At(sys, i, Committing(order, st));
    MovesTwice(sys, i, Locking(order, []), Committing(order, st));
    Steps(start, s2, i);
    assert s2.procs[i := Finished(Committed(s2.procs[i]), Posted(st.entries))]
        == sys.procs[i := Finished(Committed(sys.procs[i]), Posted(st.entries))];
  }

  /** With its locks free, and rows that do not: the caller is refused. */
  lemma GetsRefused(start: Sys, sys: Sys, i: nat, e: Error)
    requires Leads(start, sys) && i < |sys.procs|
    requires sys.procs[i].pc == Locking([], LockOrder(sys.ids, sys.procs[i].op))
    requires AllFree(sys, i, LockOrder(sys.ids, sys.procs[i].op))
    requires Stage(sys.books.wallets, sys.procs[i].op) == Failure(e)
    ensures Leads(start, SetProc(sys, i, Finished(RolledBack(sys.procs[i]), Failed(e))))
  {
    var order := LockOrder(sys.ids, sys.procs[i].op);
    TakesLocks(start, sys, i, [], order);
    assert [] + order == order;
    var s1 := At(sys, i, Locking(order, []));
    Steps(start, s1, i);
    assert s1.procs[i := Finished(RolledBack(s1.procs[i]), Failed(e))]
        == sys.procs[i := Finished(RolledBack(sys.procs[i]), Failed(e))];
  }

  // -------------------------------------------------------------- the race itself

  /** The rows cover the operation once and not twice. */
  predicate CoversOne(wallets: map<UserId, Wallet>, op: Op) {
    && Stage(wallets, op).Success?
    && Stage(wallets + Stage(wallets, op).value.wallets, op).Failure?
  }

  /** What the second of two is refused with. */
  function Shortage(wallets: map<UserId, Wallet>, op: Op): Error
    requires CoversOne(wallets, op)
  {
    Stage(wallets + Stage(wallets, op).value.wallets, op).error
  }

  /** For a movement out of the available balance that is half the amount and less. */
  lemma DebitCoversOne(wallets: map<UserId, Wallet>, leg: Leg)
    requires leg.kind in {Withdrawal, EscrowLock, AdjustmentDebit} && Payable(leg.amount)
    requires leg.user in wallets && wallets[leg.user].available >= 0 && wallets[leg.user].escrow >= 0
    ensures CoversOne(wallets, EntryOp(leg)) <==> leg.amount <= wallets[leg.user].available < 2 * leg.amount
    ensures CoversOne(wallets, EntryOp(leg)) ==> Shortage(wallets, EntryOp(leg)) == InsufficientFunds
  {
  }

  /** For a release it is the same about the depositor's escrow. */
  lemma ReleaseCoversOne(wallets: map<UserId, Wallet>, a: nat, payer: UserId, payee: UserId, amount: Amount)
    requires Payable(amount) && payer != payee && payer in wallets && payee in wallets
    requires forall u :: u in wallets ==> wallets[u].available >= 0 && wallets[u].escrow >= 0
    ensures var op := ReleaseOf(a, payer, payee, amount);
      && (CoversOne(wallets, op) <==> amount <= wallets[payer].escrow < 2 * amount)
      && (CoversOne(wallets, op) ==> Shortage(wallets, op) == InsufficientEscrow)
  {
    var op := ReleaseOf(a, payer, payee, amount);
    if Stage(wallets, op).Success? {
      var next := wallets + Stage(wallets, op).value.wallets;
      assert next[payer].escrow == wallets[payer].escrow - amount;
      assert next[payee] == Wallet(wallets[payee].available + amount, wallets[payee].escrow);
    }
  }

  /** What release_escrow asks for. */
  function ReleaseOf(a: nat, payer: UserId, payee: UserId, amount: Amount): Op {
    TransferOp(a, S.LegFor(Out(a), payer, amount, EntryCompleted), S.LegFor(In(a), payee, amount, EntryCompleted))
  }

  /** Two callers with one operation, which is not stored, at their free locks. */
  ghost predicate BothAtLock(sys: Sys, i: nat, j: nat, op: Op) {
    && i < |sys.procs| && j < |sys.procs| && i != j
    && sys.procs[i].op == sys.procs[j].op == op
    && sys.procs[i].pc == sys.procs[j].pc == Locking([], LockOrder(sys.ids, op))
    && AllFree(sys, i, LockOrder(sys.ids, op)) && AllFree(sys, j, LockOrder(sys.ids, op))
    && Lookup(sys.books, op).None? && CoversOne(sys.books.wallets, op)
  }

  /** The one has its posting, the other an error, though the posting is stored. */
  predicate RefusedThoughStored(sys: Sys, i: nat, j: nat, op: Op, e: Error) {
    && i < |sys.procs| && j < |sys.procs| && sys.procs[i].op == sys.procs[j].op == op
    && sys.procs[i].pc.Done? && sys.procs[i].pc.outcome.Posted?
    && Lookup(sys.books, op) == Some(sys.procs[i].pc.outcome.entries)
    && Apply(sys.books, op) == Applied(sys.books, Replayed(sys.procs[i].pc.outcome.entries))
    && sys.procs[j].pc == Done(Failed(e))
  }

  /** The first commits, and the second is still at its free lock. */
  lemma FirstPosts(start: Sys, sys: Sys, i: nat, j: nat, op: Op) returns (sys': Sys)
    requires Leads(start, sys) && BothAtLock(sys, i, j, op)
    requires Proper(op) && GroupsWhole(sys.books.ledger) && LegsGrouped(sys.books.ledger)
    ensures Leads(start, sys') && sys' == AfterCommit(sys, i, Stage(sys.books.wallets, op).value)
    ensures sys'.procs[j] == sys.procs[j] && AllFree(sys', j, LockOrder(sys.ids, op))
    ensures Lookup(sys'.books, op) == Some(Stage(sys.books.wallets, op).value.entries)
  {
    var st := Stage(sys.books.wallets, op).value;
    if Conflicts(sys.books, op) {
      ConflictIsReplay(sys.books, op);
    }
    GetsPosted(start, sys, i, st);
    sys' := AfterCommit(sys, i, st);
    OwnLookup(sys.books, op, st);
  }

  lemma SecondIsRefused(start: Sys, sys: Sys, i: nat, j: nat, op: Op) returns (sys': Sys)
    requires Leads(start, sys) && BothAtLock(sys, i, j, op)
    requires Proper(op) && GroupsWhole(sys.books.ledger) && LegsGrouped(sys.books.ledger)
    ensures Leads(start, sys') && |sys'.procs| == |sys.procs|
    ensures RefusedThoughStored(sys', i, j, op, Shortage(sys.books.wallets, op))
    ensures sys'.procs[i].row == sys.procs[i].row && sys'.procs[j].row == sys.procs[j].row
  {
    var s := FirstPosts(start, sys, i, j, op);
    GetsRefused(start, s, j, Shortage(sys.books.wallets, op));
    sys' := SetProc(s, j, Finished(RolledBack(s.procs[j]), Failed(Shortage(sys.books.wallets, op))));
    LookupReplays(sys'.books, op);
  }

  /** Two callers that have just come in with one operation that is not stored,
      known wallets, rows that cover it once, and their wallets' locks free. */
  ghost predicate Twins(sys: Sys, i: nat, j: nat, op: Op) {
    && i < |sys.procs| && j < |sys.procs| && i != j
    && sys.procs[i] == sys.procs[j] == Caller(op, None)
    && Open(sys.books, op) && Lookup(sys.books, op).None? && CoversOne(sys.books.wallets, op)
    && AllFree(sys, i, LockOrder(sys.ids, op)) && AllFree(sys, j, LockOrder(sys.ids, op))
  }

  /** From any state with such callers, whatever they ask for, some schedule
      refuses the second although what it asked for has been stored. */
  lemma LateTwinFails(sys: Sys, i: nat, j: nat, op: Op) returns (sys': Sys)
    requires ProtocolInv(sys) && Twins(sys, i, j, op)
    ensures Leads(sys, sys') && |sys'.procs| == |sys.procs|
    ensures RefusedThoughStored(sys', i, j, op, Shortage(sys.books.wallets, op))
  {
    assert ProcOk(sys.books, sys.ids, sys.procs[i]);
    Here(sys);
    ChecksAndResolves(sys, sys, i);
    var s1 := At(sys, i, Locking([], LockOrder(sys.ids, op)));
    ChecksAndResolves(sys, s1, j);
    var s2 := At(s1, j, Locking([], LockOrder(sys.ids, op)));
    sys' := SecondIsRefused(sys, s2, i, j, op);
  }

  // ----------------------------------------------------- a caller with no company

  predicate AllDone(sys: Sys) {
    forall p :: p in sys.procs ==> p.pc.Done?
  }

  /** Nobody that is done, waiting or about to check holds a wallet's lock. */
  lemma IdleHoldNothing(sys: Sys, i: nat, ids: seq<nat>)
    requires forall p :: p in sys.procs ==> p.pc.Done? || p.pc.Checking? || p.pc.WaitRow?
    ensures AllFree(sys, i, ids)
  {
    forall id, j: nat | id in ids && j < |sys.procs| && j != i ensures !HoldsLock(sys.procs[j], WalletLock(id)) {
      assert sys.procs[j] in sys.procs;
    }
  }

  lemma CommitIsPost(b: Books, leg: Leg)
    requires leg.user in b.wallets && PostLeg(b, leg).Success?
    ensures Stage(b.wallets, EntryOp(leg)).Success?
    ensures Commit(b, Stage(b.wallets, EntryOp(leg)).value) == PostLeg(b, leg).value
  {
    var st := Stage(b.wallets, EntryOp(leg)).value;
    assert b.wallets + st.wallets == b.wallets[leg.user := st.wallets[leg.user]];
    assert b.marks + st.marks == b.marks[leg.ref := leg.status];
  }

  /** Its wallet is created if need be, and it stands at its lock. */
  lemma ComesToLock(start: Sys, sys: Sys, i: nat, leg: Leg) returns (sys': Sys)
    requires Leads(start, sys) && i < |sys.procs| && sys.procs[i].pc.Checking? && sys.procs[i].op == EntryOp(leg)
    requires Find(sys.books.ledger, leg.ref).None?
    ensures Leads(start, sys') && |sys'.procs| == |sys.procs|
    ensures forall j :: 0 <= j < |sys.procs| && j != i ==> sys'.procs[j] == sys.procs[j]
    ensures sys'.books == Ensure(sys.books, leg.user) && sys'.procs[i].op == EntryOp(leg)
    ensures sys'.procs[i].pc == Locking([], LockOrder(sys'.ids, EntryOp(leg)))
  {
    Steps(start, sys, i);
    var s1 := At(sys, i, Resolving(0));
    assert Users(EntryOp(leg)) == [leg.user];
    if leg.user in sys.books.wallets {
      Resolves(start, s1, i, 0);
      sys' := At(s1, i, Locking([], LockOrder(sys.ids, EntryOp(leg))));
    } else {
      var id := IdsBounded(sys.ids);
      Opens(start, s1, i, 0, id);
      var s2 := AfterInsert(s1, i, 0, id);
      Resolves(start, s2, i, 1);
      sys' := At(s2, i, Locking([], LockOrder(s2.ids, EntryOp(leg))));
    }
  }

  /** A caller that comes in when everyone has finished posts what the sequential
      ledger posts. */
  lemma PostsAlone(sys: Sys, leg: Leg) returns (sys': Sys)
    requires Reached(sys) && AllDone(sys) && Asked(EntryOp(leg)) && Find(sys.books.ledger, leg.ref).None?
    requires PostLeg(Ensure(sys.books, leg.user), leg).Success?
    ensures Reached(sys') && AllDone(sys') && |sys'.procs| == |sys.procs| + 1
    ensures sys'.books == PostLeg(Ensure(sys.books, leg.user), leg).value
  {
    Arrives(sys, EntryOp(leg), None);
    var i := |sys.procs|;
    var s0 := Spawn(sys, EntryOp(leg), None);
    Here(s0);
    var s1 := ComesToLock(s0, s0, i, leg);
    forall id, j: nat | id in LockOrder(s1.ids, EntryOp(leg)) && j < |s1.procs| && j != i
      ensures !HoldsLock(s1.procs[j], WalletLock(id))
    {
      assert s1.procs[j] == sys.procs[j] && sys.procs[j] in sys.procs;
    }
    CommitIsPost(s1.books, leg);
    var st := Stage(s1.books.wallets, EntryOp(leg)).value;
    GetsPosted(s0, s1, i, st);
    sys' := AfterCommit(s1, i, st);
    ReachedOn(s0, sys');
    forall p | p in sys'.procs ensures p.pc.Done? {
      var j :| 0 <= j < |sys'.procs| && sys'.procs[j] == p;
      assert j != i ==> p == sys.procs[j] && sys.procs[j] in sys.procs;
    }
  }

  // ------------------------------------------------------- reaching such states

  lemma ReachedInv(sys: Sys)
    requires Reached(sys)
    ensures ProtocolInv(sys)
  {
    var ticks: seq<Tick> :| Reaches(EmptySys, ticks, sys) && AllAsked(ticks);
    AnyInterleaving(ticks, sys);
  }

  lemma EmptyReached()
    ensures Reached(EmptySys)
  {
    assert Reaches(EmptySys, [], EmptySys) && AllAsked([]);
  }

  /** An account holding `amount`, and nothing stored but the deposit. */
  lemma Rich(user: UserId, amount: Amount) returns (sys: Sys)
    requires Payable(amount)
    ensures Reached(sys) && AllDone(sys) && |sys.procs| == 1
    ensures sys.books.wallets == map[user := Wallet(amount, 0)]
    ensures forall q: Ref :: q != DepositOf(0) ==> Find(sys.books.ledger, q).None?
    ensures forall g: nat :: Group(sys.books.ledger, g) == []
  {
    var leg := S.LegFor(DepositOf(0), user, amount, EntryCompleted);
    EmptyReached();
    sys := PostsAlone(EmptySys, leg);
    PostedFacts(Ensure(EmptyBooks, user), leg);
  }

  /** The account has locked all it had for deal `a`. */
  lemma Locked(user: UserId, amount: Amount, a: nat) returns (sys: Sys)
    requires Payable(amount)
    ensures Reached(sys) && AllDone(sys) && |sys.procs| == 2
    ensures sys.books.wallets == map[user := Wallet(0, amount)]
    ensures forall g: nat :: Group(sys.books.ledger, g) == []
  {
    var leg := S.LegFor(LockOf(a), user, amount, EntryCompleted);
    var s := Rich(user, amount);
    sys := PostsAlone(s, leg);
    PostedFacts(s.books, leg);
  }

  /** For any account, any payable amount and any deal: a run of service calls
      ends with two requests to fund the deal, one of which has locked the money
      and the other been refused for want of it. */
  lemma LateFundIsReached(user: UserId, amount: Amount, a: nat)
    requires Payable(amount)
    ensures exists sys: Sys, i: nat, j: nat ::
              && Reached(sys)
              && RefusedThoughStored(sys, i, j, EntryOp(S.LegFor(LockOf(a), user, amount, EntryCompleted)),
                                     InsufficientFunds)
  {
    var leg := S.LegFor(LockOf(a), user, amount, EntryCompleted);
    var op := EntryOp(leg);
    var s0 := Rich(user, amount);
    Arrives(s0, op, None);
    var s1 := Spawn(s0, op, None);
    Arrives(s1, op, None);
    var s2 := Spawn(s1, op, None);
    DebitCoversOne(s2.books.wallets, leg);
    BothIdle(s0, s2, op, None);
    assert Twins(s2, 1, 2, op);
    ReachedInv(s2);
    var s3 := LateTwinFails(s2, 1, 2, op);
    ReachedOn(s2, s3);
  }

  /** Two new callers beside others that are done: no wallet's lock is held. */
  lemma BothIdle(was: Sys, sys: Sys, op: Op, row: Option<nat>)
    requires AllDone(was) && sys == Spawn(Spawn(was, op, row), op, row)
    ensures forall i: nat, ids: seq<nat> :: AllFree(sys, i, ids)
  {
    forall i: nat, ids: seq<nat> ensures AllFree(sys, i, ids) {
      IdleHoldNothing(sys, i, ids);
    }
  }

  lemma TakesRow(start: Sys, sys: Sys, i: nat, row: nat)
    requires Leads(start, sys) && i < |sys.procs| && sys.procs[i].pc == WaitRow && sys.procs[i].row == Some(row)
    requires FreeFor(sys, i, RowLock(row))
    ensures Leads(start, SetProc(sys, i, sys.procs[i].(rowHeld := true, pc := Checking)))
  {
    Steps(start, sys, i);
  }

  /** A release that comes in with its deal's row, and whose payee has no wallet
      yet, creates it; that commits, and lets the row go. */
  lemma LosesItsRow(start: Sys, sys: Sys, i: nat, row: nat, op: Op) returns (sys': Sys)
    requires Leads(start, sys) && i < |sys.procs| && sys.procs[i] == Caller(op, Some(row)) && op.TransferOp?
    requires FreeFor(sys, i, RowLock(row)) && Lookup(sys.books, op).None?
    requires op.debit.user in sys.books.wallets && op.credit.user !in sys.books.wallets
    ensures Leads(start, sys') && sys'.books == Ensure(sys.books, op.credit.user)
    ensures sys'.procs == sys.procs[i := Proc(op, Some(row), false, Kept, Locking([], LockOrder(sys'.ids, op)))]
  {
    TakesRow(start, sys, i, row);
    var s1 := SetProc(sys, i, sys.procs[i].(rowHeld := true, pc := Checking));
    Steps(start, s1, i);
    var s2 := At(s1, i, Resolving(0));
    assert Users(op) == [op.debit.user, op.credit.user];
    Steps(start, s2, i);
    var s3 := At(s2, i, Resolving(1));
    var id := IdsBounded(sys.ids);
    Opens(start, s3, i, 1, id);
    var s4 := AfterInsert(s3, i, 1, id);
    Resolves(start, s4, i, 2);
    sys' := At(s4, i, Locking([], LockOrder(s4.ids, op)));
  }

  /** So the next release with the same row takes it, finds nothing stored, and
      comes to the same locks. */
  lemma BothReleasesWait(start: Sys, sys: Sys, i: nat, j: nat, row: nat, op: Op) returns (sys': Sys)
    requires Leads(start, sys) && i < |sys.procs| && j < |sys.procs| && i != j && op.TransferOp?
    requires sys.procs[i] == sys.procs[j] == Caller(op, Some(row))
    requires FreeFor(sys, i, RowLock(row)) && FreeFor(sys, j, RowLock(row)) && Lookup(sys.books, op).None?
    requires op.debit.user in sys.books.wallets && op.credit.user !in sys.books.wallets
    ensures Leads(start, sys') && sys'.books == Ensure(sys.books, op.credit.user)
    ensures sys'.procs == sys.procs[i := Proc(op, Some(row), false, Kept, Locking([], LockOrder(sys'.ids, op)))]
                                   [j := Proc(op, Some(row), true, Pending, Locking([], LockOrder(sys'.ids, op)))]
  {
    var s1 := LosesItsRow(start, sys, i, row, op);
    TakesRow(start, s1, j, row);
    var s2 := SetProc(s1, j, s1.procs[j].(rowHeld := true, pc := Checking));
    ChecksAndResolves(start, s2, j);
    sys' := At(s2, j, Locking([], LockOrder(s2.ids, op)));
  }

  /** Two releases of one deal come in, each with the deal's row. */
  lemma TwoReleases(payer: UserId, payee: UserId, amount: Amount, a: nat, row: nat) returns (sys: Sys)
    requires Payable(amount) && payer != payee
    ensures var op := ReleaseOf(a, payer, payee, amount);
      && Reached(sys) && BothAtLock(sys, 2, 3, op) && sys.procs[2].row == sys.procs[3].row == Some(row)
      && Shortage(sys.books.wallets, op) == InsufficientEscrow
  {
    var op := ReleaseOf(a, payer, payee, amount);
    var s0 := Locked(payer, amount, a);
    Arrives(s0, op, Some(row));
    var s1 := Spawn(s0, op, Some(row));
    Arrives(s1, op, Some(row));
    var s2 := Spawn(s1, op, Some(row));
    ReachedInv(s2);
    NoRowsHeld(s2, 2, RowLock(row));
    NoRowsHeld(s2, 3, RowLock(row));
    Here(s2);
    sys := BothReleasesWait(s2, s2, 2, 3, row, op);
    ReleaseCoversOne(sys.books.wallets, a, payer, payee, amount);
    ReachedOn(s2, sys);
  }

  /** For any two accounts, any payable amount and any deal: a run of service
      calls ends with two releases of the deal, each of which came in with the
      deal's row; one has paid, and the other been refused for want of escrow. */
  lemma LateReleaseIsReached(payer: UserId, payee: UserId, amount: Amount, a: nat, row: nat)
    requires Payable(amount) && payer != payee
    ensures exists sys: Sys, i: nat, j: nat ::
              && Reached(sys)
              && RefusedThoughStored(sys, i, j, ReleaseOf(a, payer, payee, amount), InsufficientEscrow)
              && sys.procs[i].row == sys.procs[j].row == Some(row)
  {
    var s := TwoReleases(payer, payee, amount, a, row);
    ReachedInv(s);
    Here(s);
    var end := SecondIsRefused(s, s, 2, 3, ReleaseOf(a, payer, payee, amount));
    ReachedOn(s, end);
  }

  lemma NoRowsHeld(sys: Sys, i: nat, r: Lock)
    requires ProtocolInv(sys) && r.RowLock?
    requires forall p :: p in sys.procs ==> p.pc.Done? || p.pc.WaitRow?
    ensures FreeFor(sys, i, r)
  {
    forall j: nat | j < |sys.procs| && j != i ensures !HoldsLock(sys.procs[j], r) {
      assert ProcOk(sys.books, sys.ids, sys.procs[j]) && sys.procs[j] in sys.procs;
    }
  }
}
