// What a row lock taken first is good for: callers for one reference that come in
// with one row, and whose wallets exist, are served one at a time.
module LedgerRows {
  import opened Wrappers
  import opened Ledger
  import opened LedgerProtocol
  import opened LedgerProtocolProofs
  import opened LedgerProtocolTheorems

  /** The reference an operation is known by. */
  function Key(op: Op): Ref {
    match op
    case EntryOp(leg) => leg.ref
    case TransferOp(g, _, _) => Out(g)
  }

  /** Past its look, and not done. */
  predicate Underway(pc: Pc) {
    pc.Resolving? || pc.Locking? || pc.Committing?
  }

  /** One caller for the reference: it has its wallets, it keeps its row until it
      is done, and what it did not find is still not there. */
  predicate Guarded(b: Books, p: Proc, row: nat) {
    && p.row == Some(row) && Open(b, p.op)
    && (p.pc.WaitRow? || p.pc.Done? || ((p.pc.Checking? || Underway(p.pc)) && p.rowHeld))
    && (Underway(p.pc) ==> Lookup(b, p.op).None?)
  }

  ghost predicate OneAtATime(sys: Sys, key: Ref, row: nat) {
    forall i: nat :: i < |sys.procs| && Key(sys.procs[i].op) == key ==> Guarded(sys.books, sys.procs[i], row)
  }

  lemma KeysTellApart(op: Op, other: Op)
    requires Proper(op) && Proper(other) && Key(op) != Key(other)
    ensures !SamePlace(op, other)
  {
  }

  /** A caller for the reference takes its own step. */
  lemma OwnStep(sys: Sys, i: nat, id: nat, row: nat)
    requires ProtocolInv(sys) && Enabled(sys, i) && Guarded(sys.books, sys.procs[i], row)
    ensures Guarded(Advance(sys, i, id).books, Advance(sys, i, id).procs[i], row)
  {
    var p := sys.procs[i];
    assert ProcOk(sys.books, sys.ids, p);
    match p.pc
    case Resolving(k) =>
      if k < |Users(p.op)| {
        assert Users(p.op)[k] in Users(p.op);
      }
    case Committing(held, st) =>
      if Conflicts(sys.books, p.op) {
        ConflictIsReplay(sys.books, p.op);
      }
    case _ =>
  }

  /** Any other caller takes a step. */
  lemma OthersStep(sys: Sys, i: nat, id: nat, j: nat, row: nat)
    requires ProtocolInv(sys) && Enabled(sys, i) && j < |sys.procs| && j != i
    requires Guarded(sys.books, sys.procs[j], row)
    requires Key(sys.procs[i].op) == Key(sys.procs[j].op) ==> Guarded(sys.books, sys.procs[i], row)
    ensures Guarded(Advance(sys, i, id).books, sys.procs[j], row)
  {
    var p, q := sys.procs[i], sys.procs[j];
    assert ProcOk(sys.books, sys.ids, p) && ProcOk(sys.books, sys.ids, q);
    match p.pc
    case Committing(held, st) =>
      if !Conflicts(sys.books, p.op) && Underway(q.pc) {
        if Key(p.op) == Key(q.op) {
          assert HoldsLock(p, RowLock(row)) && HoldsLock(q, RowLock(row));
        } else {
          KeysTellApart(p.op, q.op);
          CommitLeavesOthers(sys.books, p.op, st, q.op);
        }
      }
    case _ =>
  }

  /** A newcomer for the reference brings the row, and its wallets exist. */
  predicate Brings(tick: Tick, key: Ref, row: nat, wallets: map<UserId, Wallet>) {
    tick.Arrive? && Key(tick.op) == key ==> tick.row == Some(row) && forall u :: u in Users(tick.op) ==> u in wallets
  }

  lemma TickKeepsOrder(sys: Sys, tick: Tick, sys': Sys, key: Ref, row: nat)
    requires ProtocolInv(sys) && OneAtATime(sys, key, row) && Ticks(sys, tick, sys')
    requires Brings(tick, key, row, sys.books.wallets)
    ensures OneAtATime(sys', key, row)
  {
    forall j: nat | j < |sys'.procs| && Key(sys'.procs[j].op) == key ensures Guarded(sys'.books, sys'.procs[j], row) {
      if tick.Go? {
        StepFrame(sys, tick.i, tick.id, j);
        if j == tick.i {
          OwnStep(sys, j, tick.id, row);
        } else {
          OthersStep(sys, tick.i, tick.id, j, row);
        }
      }
    }
  }

  lemma StepFrame(sys: Sys, i: nat, id: nat, j: nat)
    requires i < |sys.procs|
    ensures var sys' := Advance(sys, i, id);
      && |sys'.procs| == |sys.procs|
      && (j < |sys.procs| ==> sys'.procs[j].op == sys.procs[j].op && (j != i ==> sys'.procs[j] == sys.procs[j]))
      && forall u :: u in sys.books.wallets ==> u in sys'.books.wallets
  {
  }

  /** Over any run of any callers in which those for one reference bring one row
      and have wallets: none of these is ever refused late, so by
      AnswersAreSequential each gets the answer of the sequential ledger. */
  lemma {:induction false} RowsServeInTurn(sys: Sys, ticks: seq<Tick>, sys': Sys, key: Ref, row: nat)
    requires ProtocolInv(sys) && OneAtATime(sys, key, row) && Reaches(sys, ticks, sys')
    requires forall t :: t in ticks ==> Brings(t, key, row, sys.books.wallets)
    ensures ProtocolInv(sys') && OneAtATime(sys', key, row)
    ensures forall u :: u in sys.books.wallets ==> u in sys'.books.wallets
    ensures forall i: nat :: i < |sys'.procs| && Key(sys'.procs[i].op) == key ==> !RefusedLate(sys', i)
    decreases |ticks|
  {
    if ticks != [] {
      var m: Sys :| Reaches(sys, Init(ticks), m) && Ticks(m, Last(ticks), sys');
      assert Last(ticks) in ticks && forall t :: t in Init(ticks) ==> t in ticks;
      RowsServeInTurn(sys, Init(ticks), m, key, row);
      assert Brings(Last(ticks), key, row, m.books.wallets);
      TickKeepsOrder(m, Last(ticks), sys', key, row);
      match Last(ticks)
      case Arrive(op, r) => SpawnKeeps(m, op, r);
      case Go(i, id) =>
        AdvanceKeeps(m, i, id);
        StepFrame(m, i, id, 0);
    }
  }

  /** And what such a caller is told when it finishes is what the sequential
      ledger would tell it then. */
  lemma RowedAnswersAreSequential(sys: Sys, ticks: seq<Tick>, sys': Sys, key: Ref, row: nat, i: nat, id: nat)
    requires ProtocolInv(sys) && OneAtATime(sys, key, row) && Reaches(sys, ticks, sys')
    requires forall t :: t in ticks ==> Brings(t, key, row, sys.books.wallets)
    requires Enabled(sys', i) && Key(sys'.procs[i].op) == key && Advance(sys', i, id).procs[i].pc.Done?
    ensures Apply(sys'.books, sys'.procs[i].op)
         == Applied(Advance(sys', i, id).books, Advance(sys', i, id).procs[i].pc.outcome)
  {
    RowsServeInTurn(sys, ticks, sys', key, row);
    AnswersAreSequential(sys', i, id);
  }
}
