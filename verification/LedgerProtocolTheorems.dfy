// What the concurrent ledger promises: every interleaving is a sequential
// history in commit order, every answer is the one that history gives, with one
// exception stated exactly, and no set of callers can deadlock.
module LedgerProtocolTheorems {
  import opened Wrappers
  import opened Sums
  import opened Money
  import opened Ledger
  import opened LedgerProtocol
  import opened LedgerProtocolProofs

  // -------------------------------------------------------------------- runs

  /** A caller arrives, or one of those there takes a step. */
  datatype Tick = Arrive(op: Op, row: Option<nat>) | Go(i: nat, id: nat)

  predicate Ticks(sys: Sys, tick: Tick, sys': Sys) {
    match tick
    case Arrive(op, row) => Proper(op) && sys' == Spawn(sys, op, row)
    case Go(i, id) => Enabled(sys, i) && FreshId(sys.ids, id) && sys' == Advance(sys, i, id)
  }

  ghost predicate Reaches(sys: Sys, ticks: seq<Tick>, sys': Sys)
    decreases |ticks|
  {
    if ticks == [] then sys' == sys
    else exists m: Sys :: Reaches(sys, Init(ticks), m) && Ticks(m, Last(ticks), sys')
  }

  lemma EmptyInv()
    ensures ProtocolInv(EmptySys)
  {
  }

  lemma {:induction false} AnyInterleaving(ticks: seq<Tick>, sys: Sys)
    requires Reaches(EmptySys, ticks, sys)
    ensures ProtocolInv(sys)
    decreases |ticks|
  {
    if ticks == [] {
      EmptyInv();
    } else {
      var m: Sys :| Reaches(EmptySys, Init(ticks), m) && Ticks(m, Last(ticks), sys);
      AnyInterleaving(Init(ticks), m);
      match Last(ticks)
      case Arrive(op, row) => SpawnKeeps(m, op, row);
      case Go(i, id) => AdvanceKeeps(m, i, id);
    }
  }

  /** Every interleaving of any number of callers leaves exactly the ledger that
      the sequential one reaches on the commits in their order. Balances are the
      sums of their deltas and never negative, no reference is stored twice, a
      group has no legs or two, and a caller that finished without an error holds
      what is stored under its own references. */
  lemma RefinesSequential(ticks: seq<Tick>, sys: Sys)
    requires Reaches(EmptySys, ticks, sys)
    ensures sys.books == Fold(sys.log)
    ensures forall u: UserId, k: Bucket :: Balance(sys.books, u, k) == Sum(sys.books.ledger, u, k) >= 0
    ensures forall i, j :: 0 <= i < j < |sys.books.ledger| ==> sys.books.ledger[i].ref != sys.books.ledger[j].ref
    ensures forall g: nat :: |Group(sys.books.ledger, g)| == 0 || |Group(sys.books.ledger, g)| == 2
    ensures forall i: nat :: i < |sys.procs| && sys.procs[i].pc.Done? ==>
      Answered(sys.books, sys.procs[i].op, sys.procs[i].pc.outcome)
  {
    AnyInterleaving(ticks, sys);
    forall u: UserId, k: Bucket ensures Balance(sys.books, u, k) == Sum(sys.books.ledger, u, k) >= 0 {
      assert Balance(sys.books, u, k) >= 0;
    }
    forall i: nat | i < |sys.procs| && sys.procs[i].pc.Done?
      ensures Answered(sys.books, sys.procs[i].op, sys.procs[i].pc.outcome)
    {
      assert ProcOk(sys.books, sys.ids, sys.procs[i]);
    }
  }

  /** What became of the changes a finished caller had flushed: they were
      committed with its posting; after an error they were rolled back, unless
      creating a wallet had committed them; a replay at the first look leaves them
      pending, and one after a conflict has rolled them back like an error. */
  lemma FlushedFate(ticks: seq<Tick>, sys: Sys, i: nat)
    requires Reaches(EmptySys, ticks, sys) && Enabled(sys, i) && Advance(sys, i, 0).procs[i].pc.Done?
    ensures var p, p' := sys.procs[i], Advance(sys, i, 0).procs[i];
      match p'.pc.outcome
      case Posted(_) => p'.flushed == Kept
      case Failed(_) => p'.flushed == (if p.flushed == Kept then Kept else Dropped)
      case Replayed(_) => p'.flushed == (if p.pc.Checking? then Pending else p.flushed)
                          && (p.pc.Rechecking? ==> p'.flushed != Pending)
  {
    AnyInterleaving(ticks, sys);
    assert ProcOk(sys.books, sys.ids, sys.procs[i]);
  }

  // ----------------------------------------------------------------- answers

  /** About to be refused for want of money, although the operation is stored. */
  predicate RefusedLate(sys: Sys, i: nat) {
    && i < |sys.procs| && sys.procs[i].pc.Locking? && sys.procs[i].pc.waiting == []
    && Lookup(sys.books, sys.procs[i].op).Some? && Stage(sys.books.wallets, sys.procs[i].op).Failure?
  }

  /** The step that finishes a caller gives the answer, and leaves the books, of
      the sequential ledger run at that moment, exactly unless the caller holds
      its locks, its operation has been stored meanwhile, and the rows it holds do
      not cover it; then it is refused, where the sequential ledger would replay. */
  lemma AnswersAreSequential(sys: Sys, i: nat, id: nat)
    requires ProtocolInv(sys) && Enabled(sys, i) && Advance(sys, i, id).procs[i].pc.Done?
    ensures var p, sys' := sys.procs[i], Advance(sys, i, id);
      var outcome := sys'.procs[i].pc.outcome;
      && outcome != Failed(IntegrityError)
      && (Apply(sys.books, p.op) == Applied(sys'.books, outcome) <==> !RefusedLate(sys, i))
      && (RefusedLate(sys, i) ==>
           outcome.Failed? && sys'.books == sys.books && Apply(sys.books, p.op).outcome.Replayed?)
  {
    var p, b := sys.procs[i], sys.books;
    assert ProcOk(b, sys.ids, p);
    LookupReplays(b, p.op);
    match p.pc
    case Locking(held, waiting) =>
      FailureIsNotIntegrity(b.wallets, p.op);
      if Lookup(b, p.op).None? {
        StageFails(b, p.op);
      }
    case Committing(held, st) =>
      NoConflictNoReplay(b, p.op);
      CommitBooks(b, p.op, st);
    case _ =>
  }

  /** What a caller can rely on beforehand: a payable movement that only credits
      is never refused late, so it always gets the sequential answer. */
  lemma CreditsAreNeverRefused(sys: Sys, i: nat)
    requires ProtocolInv(sys) && i < |sys.procs| && sys.procs[i].op.EntryOp?
    requires sys.procs[i].op.leg.kind in {Deposit, WithdrawalReversal, AdjustmentCredit}
    requires Payable(sys.procs[i].op.leg.amount)
    ensures !RefusedLate(sys, i)
    ensures Stage(sys.books.wallets, sys.procs[i].op).Success?
  {
    var u := sys.procs[i].op.leg.user;
    assert Balance(sys.books, u, Available) >= 0 && Balance(sys.books, u, Bucket.Escrow) >= 0;
    CreditStages(sys.books.wallets, sys.procs[i].op.leg);
  }

  lemma CreditStages(wallets: map<UserId, Wallet>, leg: Leg)
    requires leg.kind in {Deposit, WithdrawalReversal, AdjustmentCredit} && Payable(leg.amount)
    requires WalletOf(wallets, leg.user).available >= 0 && WalletOf(wallets, leg.user).escrow >= 0
    ensures Stage(wallets, EntryOp(leg)).Success?
  {
  }

  // ---------------------------------------------------------------- progress

  function Rank(r: Lock): nat {
    match r
    case RowLock(_) => 0
    case WalletLock(id) => id + 1
  }

  /** Row before wallets, and wallets in ascending order: whatever a caller
      holds comes before what it wants. */
  lemma OrderedWants(b: Books, ids: map<UserId, nat>, p: Proc, held: Lock, wanted: Lock)
    requires ProcOk(b, ids, p) && HoldsLock(p, held) && Wants(p) == Some(wanted)
    ensures Rank(held) < Rank(wanted)
  {
    match p.pc
    case Locking(h, waiting) =>
      var order := h + waiting;
      assert forall x, y :: 0 <= x < y < |order| ==> order[x] < order[y];
      assert order[|h|] == waiting[0];
      if held.WalletLock? {
        var x :| 0 <= x < |h| && h[x] == held.id;
        assert order[x] == held.id;
      }
    case _ =>
  }

  lemma KnownIds(b: Books, ids: map<UserId, nat>, op: Op)
    requires Open(b, op) && b.wallets.Keys == ids.Keys
    ensures forall id :: id in LockOrder(ids, op) ==> exists u :: u in ids && ids[u] == id
  {
    match op
    case EntryOp(leg) => assert leg.user in Users(op) && leg.user in ids.Keys;
    case TransferOp(_, debit, credit) =>
      assert debit.user in Users(op) && credit.user in Users(op);
      assert debit.user in ids.Keys && credit.user in ids.Keys;
  }

  /** A wanted wallet is one that has an id. */
  lemma WantsKnown(b: Books, ids: map<UserId, nat>, p: Proc, bound: nat)
    requires ProcOk(b, ids, p) && b.wallets.Keys == ids.Keys && Wants(p).Some?
    requires forall u :: u in ids ==> ids[u] < bound
    ensures Rank(Wants(p).value) <= bound
  {
    match p.pc
    case Locking(h, waiting) =>
      var order := h + waiting;
      assert order[|h|] == waiting[0];
      KnownIds(b, ids, p.op);
    case _ =>
  }

  lemma {:induction false} IdsBounded(ids: map<UserId, nat>) returns (bound: nat)
    ensures forall u :: u in ids ==> ids[u] < bound
    ensures FreshId(ids, bound)
    decreases |ids|
  {
    if ids == map[] {
      bound := 0;
    } else {
      var u :| u in ids;
      var rest := ids - {u};
      assert |rest.Keys| < |ids.Keys| by {
        assert rest.Keys == ids.Keys - {u};
      }
      var smaller := IdsBounded(rest);
      assert forall v :: v in ids && v != u ==> v in rest && rest[v] == ids[v];
      bound := if smaller > ids[u] then smaller else ids[u] + 1;
    }
  }

  /** Follow the blocked: each waits for a holder that waits for a later lock. */
  lemma {:induction false} Chase(sys: Sys, i: nat, bound: nat) returns (mover: nat)
    requires ProtocolInv(sys) && i < |sys.procs| && !sys.procs[i].pc.Done?
    requires forall u :: u in sys.ids ==> sys.ids[u] < bound
    ensures Enabled(sys, mover)
    decreases bound + 1 - (if Wants(sys.procs[i]).Some? then Rank(Wants(sys.procs[i]).value) else bound + 1)
  {
    var p := sys.procs[i];
    assert ProcOk(sys.books, sys.ids, p);
    if Enabled(sys, i) {
      return i;
    }
    var r := Wants(p).value;
    WantsKnown(sys.books, sys.ids, p, bound);
    var j: nat :| j < |sys.procs| && j != i && HoldsLock(sys.procs[j], r);
    var q := sys.procs[j];
    assert ProcOk(sys.books, sys.ids, q);
    if Wants(q).None? {
      return j;
    }
    OrderedWants(sys.books, sys.ids, q, r, Wants(q).value);
    mover := Chase(sys, j, bound);
  }

  /** Deadlock freedom: whenever some caller is unfinished, some caller can take
      a step, transfers in opposite directions included. */
  lemma NoDeadlock(sys: Sys)
    requires ProtocolInv(sys)
    ensures (exists i: nat :: i < |sys.procs| && !sys.procs[i].pc.Done?) <==>
        (exists i: nat, id: nat :: Enabled(sys, i) && FreshId(sys.ids, id))
  {
    var bound := IdsBounded(sys.ids);
    if i: nat :| i < |sys.procs| && !sys.procs[i].pc.Done? {
      var mover := Chase(sys, i, bound);
      assert Enabled(sys, mover) && FreshId(sys.ids, bound);
    }
  }

  /** How many steps a caller has left at most. */
  function StepsLeft(p: Proc): nat {
    match p.pc
    case WaitRow => 12
    case Checking => 11
    case Resolving(k) => if k <= |Users(p.op)| then 2 * (|Users(p.op)| - k) + 6 else 0
    case Inserting(k) => if k <= |Users(p.op)| then 2 * (|Users(p.op)| - k) + 5 else 0
    case Locking(_, waiting) => |waiting| + 3
    case Committing(_, _) => 2
    case Rechecking => 1
    case Done(_) => 0
  }

  ghost function AllStepsLeft(sys: Sys): int {
    SumTo((i: nat) => if i < |sys.procs| then StepsLeft(sys.procs[i]) else 0, |sys.procs|)
  }

  lemma OneStepLess(sys: Sys, i: nat, id: nat)
    requires i < |sys.procs| && ProcOk(sys.books, sys.ids, sys.procs[i]) && !sys.procs[i].pc.Done?
    ensures var sys' := Advance(sys, i, id);
      |sys'.procs| == |sys.procs| && StepsLeft(sys'.procs[i]) < StepsLeft(sys.procs[i])
      && forall j: nat :: j < |sys.procs| && j != i ==> sys'.procs[j] == sys.procs[j]
  {
    var p := sys.procs[i];
    match p.pc
    case Resolving(k) => assert |LockOrder(sys.ids, p.op)| <= |Users(p.op)|;
    case Inserting(k) =>
    case Locking(held, waiting) => assert waiting == [] ==>
        Advance(sys, i, id).procs[i].pc.Committing? || Advance(sys, i, id).procs[i].pc.Done?;
    case _ =>
  }

  /** Every step brings the end nearer: with no new arrivals, every run of these
      callers finishes all of them in at most `AllStepsLeft` steps. */
  lemma StepsRunOut(sys: Sys, i: nat, id: nat)
    requires ProtocolInv(sys) && Enabled(sys, i)
    ensures AllStepsLeft(Advance(sys, i, id)) < AllStepsLeft(sys)
    ensures 0 <= AllStepsLeft(Advance(sys, i, id))
  {
    var sys' := Advance(sys, i, id);
    assert ProcOk(sys.books, sys.ids, sys.procs[i]);
    OneStepLess(sys, i, id);
    var f := (j: nat) => if j < |sys.procs| then StepsLeft(sys.procs[j]) else 0;
    var g := (j: nat) => if j < |sys'.procs| then StepsLeft(sys'.procs[j]) else 0;
    SumDiffersAt(f, g, |sys.procs|, i);
    TermAtMostSum(g, |sys'.procs|, i);
  }

  /** So with no new arrivals no run is longer than that, whatever the schedule;
      and by NoDeadlock it ends only with everyone finished. */
  lemma {:induction false} RunsAreShort(sys: Sys, ticks: seq<Tick>, sys': Sys)
    requires ProtocolInv(sys) && Reaches(sys, ticks, sys')
    requires forall t :: t in ticks ==> t.Go?
    ensures ProtocolInv(sys')
    ensures |ticks| + AllStepsLeft(sys') <= AllStepsLeft(sys)
    decreases |ticks|
  {
    if ticks != [] {
      var m: Sys :| Reaches(sys, Init(ticks), m) && Ticks(m, Last(ticks), sys');
      assert Last(ticks) in ticks;
      RunsAreShort(sys, Init(ticks), m);
      AdvanceKeeps(m, Last(ticks).i, Last(ticks).id);
      StepsRunOut(m, Last(ticks).i, Last(ticks).id);
    }
  }
}
