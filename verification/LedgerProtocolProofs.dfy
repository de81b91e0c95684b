// Every interleaving of any number of callers refines the sequential ledger in
// commit order, and none of them can be stuck for ever.
module LedgerProtocolProofs {
  import opened Wrappers
  import opened Ledger
  import opened LedgerProtocol

  // --------------------------------------------------------------- invariant

  predicate Open(b: Books, op: Op) {
    forall u :: u in Users(op) ==> u in b.wallets
  }

  /** A finished caller has what is stored under its own references, or an error. */
  predicate Answered(b: Books, op: Op, outcome: Outcome) {
    match outcome
    case Failed(e) => e != IntegrityError
    case Posted(entries) => Lookup(b, op) == Some(entries)
    case Replayed(entries) => Lookup(b, op) == Some(entries)
  }

  predicate ProcOk(b: Books, ids: map<UserId, nat>, p: Proc) {
    && Proper(p.op)
    && match p.pc
       case WaitRow => p.row.Some? && !p.rowHeld && p.flushed == Pending
       case Checking => p.flushed == Pending
       case Resolving(k) =>
         p.flushed != Dropped && k <= |Users(p.op)| && forall j :: 0 <= j < k ==> Users(p.op)[j] in b.wallets
       case Inserting(k) =>
         p.flushed != Dropped && k < |Users(p.op)| && forall j :: 0 <= j < k ==> Users(p.op)[j] in b.wallets
       case Locking(held, waiting) => p.flushed != Dropped && Open(b, p.op) && held + waiting == LockOrder(ids, p.op)
       case Committing(held, st) =>
         p.flushed != Dropped && Open(b, p.op) && held == LockOrder(ids, p.op) && Stage(b.wallets, p.op) == Success(st)
       case Rechecking => !p.rowHeld && p.flushed != Pending && Lookup(b, p.op).Some?
       case Done(outcome) =>
         && !p.rowHeld && Answered(b, p.op, outcome)
         && (outcome.Posted? ==> p.flushed == Kept)
         && (outcome.Failed? ==> p.flushed != Pending)
  }

  ghost predicate BooksGood(b: Books) {
    BooksOk(b) && GroupsWhole(b.ledger) && LegsGrouped(b.ledger)
  }

  predicate IdsOk(b: Books, ids: map<UserId, nat>) {
    && b.wallets.Keys == ids.Keys
    && forall u, v :: u in ids && v in ids && ids[u] == ids[v] ==> u == v
  }

  /** No lock has two holders. */
  ghost predicate Exclusive(procs: seq<Proc>) {
    forall i: nat, j: nat, r: Lock :: i < |procs| && j < |procs| && i != j && HoldsLock(procs[i], r) ==>
      !HoldsLock(procs[j], r)
  }

  ghost predicate ProtocolInv(sys: Sys) {
    && BooksGood(sys.books)
    && sys.books == Fold(sys.log)
    && IdsOk(sys.books, sys.ids)
    && Exclusive(sys.procs)
    && (forall i: nat :: i < |sys.procs| ==> ProcOk(sys.books, sys.ids, sys.procs[i]))
  }

  // ----------------------------------------------------- staging and committing

  lemma NoConflictNoReplay(b: Books, op: Op)
    requires Proper(op) && GroupsWhole(b.ledger) && !Conflicts(b, op)
    ensures Lookup(b, op).None?
  {
    if op.TransferOp? {
      var legs := Group(b.ledger, op.group);
      if |legs| == 2 {
        GroupMember(b.ledger, legs[0], op.group);
        Found(b.ledger, op.debit.ref);
      }
    }
  }

  /** Applying the legs to the locked rows does what the sequential ledger would
      do now, if it had nothing to replay. */
  lemma StageApplies(b: Books, op: Op)
    requires Proper(op) && Open(b, op) && Lookup(b, op).None? && !Conflicts(b, op)
    ensures match Stage(b.wallets, op)
      case Failure(e) => Apply(b, op) == Applied(b, Failed(e))
      case Success(st) => Apply(b, op) == Applied(Commit(b, st), Posted(st.entries))
  {
    match op
    case EntryOp(leg) =>
      assert leg.user in Users(op);
      if Stage(b.wallets, op).Success? {
        var st := Stage(b.wallets, op).value;
        assert b.wallets[leg.user := st.wallets[leg.user]] == b.wallets + st.wallets;
        assert b.marks[leg.ref := leg.status] == b.marks + st.marks;
      }
    case TransferOp(g, debit, credit) =>
      assert debit.user in Users(op) && credit.user in Users(op);
      if Stage(b.wallets, op).Success? {
        PairStaged(b, debit, credit, g);
      }
  }

  lemma PairStaged(b: Books, debit: Leg, credit: Leg, g: nat)
    requires debit.user in b.wallets && credit.user in b.wallets
    requires Stage(b.wallets, TransferOp(g, debit, credit)).Success?
    ensures PostTransfer(b, debit, credit) == Success(Commit(b, Stage(b.wallets, TransferOp(g, debit, credit)).value))
    ensures var st := Stage(b.wallets, TransferOp(g, debit, credit)).value;
      Commit(b, st).ledger[|b.ledger|..] == st.entries
  {
    var st := Stage(b.wallets, TransferOp(g, debit, credit)).value;
    var b1 := PostLeg(b, debit).value;
    var b2 := PostLeg(b1, credit).value;
    assert b2.wallets == b.wallets + st.wallets;
    assert b2.ledger == b.ledger + st.entries;
    assert b2.marks == b.marks + st.marks;
  }

  lemma StageFails(b: Books, op: Op)
    requires Proper(op) && Open(b, op) && Lookup(b, op).None? && Stage(b.wallets, op).Failure?
    ensures Apply(b, op) == Applied(b, Failed(Stage(b.wallets, op).error))
  {
    match op
    case EntryOp(leg) => assert leg.user in Users(op);
    case TransferOp(g, debit, credit) => assert debit.user in Users(op) && credit.user in Users(op);
  }

  /** Staging reads only the rows that are locked. */
  lemma StageLocal(w: map<UserId, Wallet>, w': map<UserId, Wallet>, op: Op)
    requires forall u :: u in Users(op) ==> WalletOf(w', u) == WalletOf(w, u)
    ensures Stage(w', op) == Stage(w, op)
  {
    match op
    case EntryOp(leg) => assert leg.user in Users(op);
    case TransferOp(g, debit, credit) => assert debit.user in Users(op) && credit.user in Users(op);
  }

  lemma StageTouches(w: map<UserId, Wallet>, op: Op)
    requires Stage(w, op).Success?
    ensures forall u :: u in Stage(w, op).value.wallets ==> u in Users(op)
  {
  }

  lemma CommitLegs(b: Books, op: Op, st: Staged)
    requires Proper(op) && LegsGrouped(b.ledger) && Stage(b.wallets, op) == Success(st)
    ensures LegsGrouped(Commit(b, st).ledger)
  {
  }

  function InGroup(e: Entry, g: nat): seq<Entry> {
    if e.group == Some(g) then [e] else []
  }

  /** The leg a transfer adds before its last one. */
  function FirstLeg(op: Op, st: Staged, g: nat): seq<Entry>
    requires st.entries != []
  {
    if op.TransferOp? && op.debit.group == Some(g) then [st.entries[0]] else []
  }

  lemma AddsOne(l: seq<Entry>, e: Entry)
    ensures forall g: nat :: Group(l + [e], g) == Group(l, g) + InGroup(e, g)
    ensures forall q: Ref :: q != e.ref ==> Find(l + [e], q) == Find(l, q)
    ensures Find(l + [e], e.ref) == Some(e)
  {
    Appended(l, e);
  }

  lemma AddsTwo(l: seq<Entry>, e1: Entry, e2: Entry)
    ensures forall g: nat :: Group(l + [e1, e2], g) == Group(l, g) + InGroup(e1, g) + InGroup(e2, g)
    ensures forall q: Ref :: q != e1.ref && q != e2.ref ==> Find(l + [e1, e2], q) == Find(l, q)
    ensures Find(l + [e1, e2], e2.ref) == Some(e2)
  {
    assert l + [e1, e2] == l + [e1] + [e2];
    AddsOne(l, e1);
    AddsOne(l + [e1], e2);
  }

  /** The entries a caller writes are one a leg, under the leg's reference and group. */
  lemma StagedEntries(b: Books, op: Op, st: Staged)
    requires Stage(b.wallets, op) == Success(st)
    ensures st.entries != []
    ensures op.EntryOp? ==>
      && st.entries == [Last(st.entries)]
      && Last(st.entries).ref == op.leg.ref && Last(st.entries).group == op.leg.group
    ensures op.TransferOp? ==>
      && st.entries == [st.entries[0], Last(st.entries)]
      && st.entries[0].ref == op.debit.ref && Last(st.entries).ref == op.credit.ref
      && st.entries[0].group == op.debit.group && Last(st.entries).group == op.credit.group
  {
  }

  /** What committing adds to each group, and under its last reference. */
  lemma CommitAdds(b: Books, op: Op, st: Staged)
    requires Stage(b.wallets, op) == Success(st)
    ensures |st.entries| == if op.EntryOp? then 1 else 2
    ensures forall g: nat ::
      Group(Commit(b, st).ledger, g) == Group(b.ledger, g) + FirstLeg(op, st, g) + InGroup(Last(st.entries), g)
    ensures Find(Commit(b, st).ledger, Last(st.entries).ref) == Some(Last(st.entries))
  {
    StagedEntries(b, op, st);
    if op.EntryOp? {
      AddsOne(b.ledger, Last(st.entries));
    } else {
      AddsTwo(b.ledger, st.entries[0], Last(st.entries));
    }
  }

  /** The references a caller writes under. */
  function RefsOf(op: Op): set<Ref> {
    match op
    case EntryOp(leg) => {leg.ref}
    case TransferOp(_, debit, credit) => {debit.ref, credit.ref}
  }

  lemma CommitLeavesRef(b: Books, op: Op, st: Staged, q: Ref)
    requires Stage(b.wallets, op) == Success(st) && q !in RefsOf(op)
    ensures Find(Commit(b, st).ledger, q) == Find(b.ledger, q)
  {
    StagedEntries(b, op, st);
    if op.EntryOp? {
      AddsOne(b.ledger, Last(st.entries));
    } else {
      AddsTwo(b.ledger, st.entries[0], Last(st.entries));
    }
  }

  lemma CommitLeavesGroup(b: Books, op: Op, st: Staged, g: nat)
    requires Stage(b.wallets, op) == Success(st) && Proper(op) && (op.TransferOp? ==> op.group != g)
    ensures Group(Commit(b, st).ledger, g) == Group(b.ledger, g)
  {
    StagedEntries(b, op, st);
    CommitAdds(b, op, st);
    assert InGroup(Last(st.entries), g) == [];
  }

  /** Operations that would be stored in the same place. */
  predicate SamePlace(op: Op, other: Op) {
    match other
    case EntryOp(leg) => leg.ref in RefsOf(op)
    case TransferOp(g, _, _) => op.TransferOp? && op.group == g
  }

  /** A commit changes no other operation's answer. */
  lemma CommitLeavesOthers(b: Books, op: Op, st: Staged, other: Op)
    requires Proper(op) && Stage(b.wallets, op) == Success(st) && !SamePlace(op, other)
    ensures Lookup(Commit(b, st), other) == Lookup(b, other)
  {
    match other
    case EntryOp(leg) => CommitLeavesRef(b, op, st, leg.ref);
    case TransferOp(g, _, _) => CommitLeavesGroup(b, op, st, g);
  }

  /** A commit leaves every stored operation as it was. */
  lemma LookupStable(b: Books, op: Op, st: Staged, other: Op)
    requires Proper(op) && GroupsWhole(b.ledger) && Stage(b.wallets, op) == Success(st) && !Conflicts(b, op)
    requires Proper(other) && Lookup(b, other).Some?
    ensures Lookup(Commit(b, st), other) == Lookup(b, other)
  {
    NoConflictNoReplay(b, op);
    CommitLeavesOthers(b, op, st, other);
  }

  lemma OwnLookup(b: Books, op: Op, st: Staged)
    requires Proper(op) && GroupsWhole(b.ledger) && Stage(b.wallets, op) == Success(st) && !Conflicts(b, op)
    ensures Lookup(Commit(b, st), op) == Some(st.entries)
  {
    NoConflictNoReplay(b, op);
    CommitAdds(b, op, st);
    if op.TransferOp? {
      assert Group(b.ledger, op.group) == [];
      assert Group(Commit(b, st).ledger, op.group) == st.entries;
    } else {
      assert st.entries == [Last(st.entries)];
    }
  }

  // ------------------------------------------------------- the other callers

  /** A caller that did not move: the wallets it knows are still there, the rows
      it has locked are unchanged, and what it found is still stored. */
  lemma ProcFrame(b: Books, ids: map<UserId, nat>, b': Books, ids': map<UserId, nat>, p: Proc)
    requires ProcOk(b, ids, p)
    requires b.wallets.Keys == ids.Keys
    requires forall u :: u in b.wallets ==> u in b'.wallets
    requires forall u :: u in ids ==> u in ids' && ids'[u] == ids[u]
    requires p.pc.Committing? ==> forall u :: u in Users(p.op) ==> WalletOf(b'.wallets, u) == WalletOf(b.wallets, u)
    requires Lookup(b, p.op).Some? ==> Lookup(b', p.op) == Lookup(b, p.op)
    ensures ProcOk(b', ids', p)
  {
    if p.pc.Committing? {
      StageLocal(b.wallets, b'.wallets, p.op);
    }
    if Open(b, p.op) {
      SameOrder(b, ids, ids', p.op);
    }
  }

  lemma SameOrder(b: Books, ids: map<UserId, nat>, ids': map<UserId, nat>, op: Op)
    requires Open(b, op) && b.wallets.Keys == ids.Keys
    requires forall u :: u in ids ==> u in ids' && ids'[u] == ids[u]
    ensures LockOrder(ids', op) == LockOrder(ids, op)
  {
    match op
    case EntryOp(leg) => assert leg.user in Users(op) && leg.user in ids.Keys;
    case TransferOp(_, debit, credit) =>
      assert debit.user in Users(op) && credit.user in Users(op);
      assert debit.user in ids.Keys && credit.user in ids.Keys;
  }

  /** A caller about to commit holds the lock of every wallet it moves. */
  lemma CommitterHolds(b: Books, ids: map<UserId, nat>, p: Proc, u: UserId)
    requires ProcOk(b, ids, p) && p.pc.Committing? && u in Users(p.op)
    ensures HoldsLock(p, WalletLock(IdOf(ids, u)))
  {
    match p.op
    case EntryOp(leg) =>
    case TransferOp(_, debit, credit) =>
  }

  /** Two callers about to commit have no wallet in common. */
  lemma CommittersApart(sys: Sys, i: nat, j: nat, u: UserId)
    requires ProtocolInv(sys) && i < |sys.procs| && j < |sys.procs| && i != j
    requires sys.procs[i].pc.Committing? && sys.procs[j].pc.Committing?
    ensures u in Users(sys.procs[i].op) ==> u !in Users(sys.procs[j].op)
  {
    if u in Users(sys.procs[i].op) && u in Users(sys.procs[j].op) {
      CommitterHolds(sys.books, sys.ids, sys.procs[i], u);
      CommitterHolds(sys.books, sys.ids, sys.procs[j], u);
      assert false;
    }
  }

  /** Locks after a step: only what was held before, or what was wanted and free. */
  lemma ExclusiveStep(sys: Sys, i: nat, p': Proc)
    requires Exclusive(sys.procs) && Enabled(sys, i)
    requires forall r: Lock :: HoldsLock(p', r) ==> HoldsLock(sys.procs[i], r) || Wants(sys.procs[i]) == Some(r)
    ensures Exclusive(sys.procs[i := p'])
  {
  }

  // ------------------------------------------------------------------- steps

  predicate FreshId(ids: map<UserId, nat>, id: nat) {
    forall u :: u in ids ==> ids[u] != id
  }

  /** A step that commits nothing. */
  lemma QuietStep(sys: Sys, i: nat, p': Proc)
    requires ProtocolInv(sys) && Enabled(sys, i) && ProcOk(sys.books, sys.ids, p')
    requires forall r: Lock :: HoldsLock(p', r) ==> HoldsLock(sys.procs[i], r) || Wants(sys.procs[i]) == Some(r)
    ensures ProtocolInv(SetProc(sys, i, p'))
  {
    ExclusiveStep(sys, i, p');
  }

  /** A step that commits, from its parts. */
  lemma CommittingStep(sys: Sys, i: nat, b': Books, ids': map<UserId, nat>, event: Event, p': Proc)
    requires ProtocolInv(sys) && Enabled(sys, i)
    requires BooksGood(b') && b' == Fold(sys.log + [event]) && IdsOk(b', ids')
    requires ProcOk(b', ids', p') && forall r: Lock :: !HoldsLock(p', r)
    requires forall j: nat :: j < |sys.procs| && j != i ==> ProcOk(b', ids', sys.procs[j])
    ensures ProtocolInv(Sys(b', ids', sys.procs[i := p'], sys.log + [event]))
  {
    ExclusiveStep(sys, i, p');
  }

  lemma FoldOne(log: seq<Event>, event: Event)
    ensures Fold(log + [event]) == After(Fold(log), event)
  {
    assert Init(log + [event]) == log;
  }

  /** A new wallet, and its fresh id: everyone else knows what they knew. */
  lemma InsertFrame(b: Books, ids: map<UserId, nat>, ids': map<UserId, nat>, u: UserId, q: Proc)
    requires ProcOk(b, ids, q) && b.wallets.Keys == ids.Keys
    requires forall v :: v in ids ==> v in ids' && ids'[v] == ids[v]
    ensures ProcOk(Ensure(b, u), ids', q)
  {
    if q.pc.Committing? {
      forall v | v in Users(q.op) ensures WalletOf(Ensure(b, u).wallets, v) == WalletOf(b.wallets, v) {
        assert v in b.wallets;
      }
    }
    EnsureLookup(b, u, q.op);
    ProcFrame(b, ids, Ensure(b, u), ids', q);
  }

  lemma EnsureLookup(b: Books, u: UserId, op: Op)
    ensures Lookup(Ensure(b, u), op) == Lookup(b, op)
  {
    assert Ensure(b, u).ledger == b.ledger;
  }

  lemma InsertedIds(b: Books, ids: map<UserId, nat>, u: UserId, id: nat)
    requires IdsOk(b, ids) && FreshId(ids, id)
    ensures IdsOk(Ensure(b, u), if u in ids then ids else ids[u := id])
  {
    assert u in b.wallets.Keys <==> u in ids.Keys;
  }

  /** What every caller knows is still so after the insert. */
  lemma InsertOthers(sys: Sys, i: nat, u: UserId, id: nat)
    requires ProtocolInv(sys) && FreshId(sys.ids, id)
    ensures var ids' := if u in sys.ids then sys.ids else sys.ids[u := id];
      && BooksGood(Ensure(sys.books, u)) && IdsOk(Ensure(sys.books, u), ids')
      && forall j: nat :: j < |sys.procs| && j != i ==> ProcOk(Ensure(sys.books, u), ids', sys.procs[j])
  {
    var ids' := if u in sys.ids then sys.ids else sys.ids[u := id];
    EnsureFacts(sys.books, u);
    InsertedIds(sys.books, sys.ids, u, id);
    forall j: nat | j < |sys.procs| && j != i ensures ProcOk(Ensure(sys.books, u), ids', sys.procs[j]) {
      InsertFrame(sys.books, sys.ids, ids', u, sys.procs[j]);
    }
  }

  /** The one that inserted knows one wallet more. */
  lemma InsertOwn(b: Books, ids: map<UserId, nat>, ids': map<UserId, nat>, p: Proc)
    requires ProcOk(b, ids, p) && p.pc.Inserting?
    ensures ProcOk(Ensure(b, Users(p.op)[p.pc.k]), ids', Committed(p).(pc := Resolving(p.pc.k + 1)))
  {
  }

  lemma InsertStep(sys: Sys, i: nat, id: nat)
    requires ProtocolInv(sys) && Enabled(sys, i) && FreshId(sys.ids, id) && sys.procs[i].pc.Inserting?
    ensures ProtocolInv(Advance(sys, i, id))
  {
    assert ProcOk(sys.books, sys.ids, sys.procs[i]);
    InsertIs(sys, i, id);
    InsertKeeps(sys, i, id, Users(sys.procs[i].op)[sys.procs[i].pc.k]);
  }

  /** The wallet's creation is the next event of the sequential history. */
  lemma InsertFolds(sys: Sys, u: UserId)
    requires sys.books == Fold(sys.log)
    ensures Ensure(sys.books, u) == Fold(sys.log + [Opened(u)])
  {
    FoldOne(sys.log, Opened(u));
  }

  lemma HoldsNothing(p: Proc, k: nat)
    ensures forall r: Lock :: !HoldsLock(Committed(p).(pc := Resolving(k)), r)
  {
  }

  lemma InsertKeeps(sys: Sys, i: nat, id: nat, u: UserId)
    requires ProtocolInv(sys) && Enabled(sys, i) && FreshId(sys.ids, id) && sys.procs[i].pc.Inserting?
    requires sys.procs[i].pc.k < |Users(sys.procs[i].op)| && u == Users(sys.procs[i].op)[sys.procs[i].pc.k]
    ensures ProtocolInv(Sys(Ensure(sys.books, u), if u in sys.ids then sys.ids else sys.ids[u := id],
              sys.procs[i := Committed(sys.procs[i]).(pc := Resolving(sys.procs[i].pc.k + 1))], sys.log + [Opened(u)]))
  {
    var p := sys.procs[i];
    var ids' := if u in sys.ids then sys.ids else sys.ids[u := id];
    var p' := Committed(p).(pc := Resolving(p.pc.k + 1));
    assert ProcOk(Ensure(sys.books, u), ids', p') by {
      assert ProcOk(sys.books, sys.ids, p);
      InsertOwn(sys.books, sys.ids, ids', p);
    }
    InsertOthers(sys, i, u, id);
    InsertFolds(sys, u);
    HoldsNothing(p, p.pc.k + 1);
    CommittingStep(sys, i, Ensure(sys.books, u), ids', Opened(u), p');
  }

  lemma InsertIs(sys: Sys, i: nat, id: nat)
    requires i < |sys.procs| && sys.procs[i].pc.Inserting? && sys.procs[i].pc.k < |Users(sys.procs[i].op)|
    ensures var p := sys.procs[i];
      var u := Users(p.op)[p.pc.k];
      Advance(sys, i, id) == Sys(Ensure(sys.books, u), if u in sys.ids then sys.ids else sys.ids[u := id],
                                 sys.procs[i := Committed(p).(pc := Resolving(p.pc.k + 1))], sys.log + [Opened(u)])
  {
  }

  /** Committing is what the sequential ledger does now. */
  lemma CommitBooks(b: Books, op: Op, st: Staged)
    requires BooksGood(b) && Proper(op) && Open(b, op) && Stage(b.wallets, op) == Success(st) && !Conflicts(b, op)
    ensures BooksGood(Commit(b, st)) && Commit(b, st).wallets.Keys == b.wallets.Keys
    ensures Apply(b, op) == Applied(Commit(b, st), Posted(st.entries))
    ensures Lookup(Commit(b, st), op) == Some(st.entries)
  {
    NoConflictNoReplay(b, op);
    StageApplies(b, op);
    ApplyKeepsBooks(b, op);
    CommitLegs(b, op, st);
    OwnLookup(b, op, st);
    StageTouches(b.wallets, op);
  }

  lemma CommitStep(sys: Sys, i: nat, id: nat)
    requires ProtocolInv(sys) && Enabled(sys, i) && sys.procs[i].pc.Committing?
    requires !Conflicts(sys.books, sys.procs[i].op)
    ensures ProtocolInv(Advance(sys, i, id))
  {
    var p, b := sys.procs[i], sys.books;
    assert ProcOk(b, sys.ids, p);
    var st := p.pc.staged;
    CommitBooks(b, p.op, st);
    forall j: nat | j < |sys.procs| && j != i ensures ProcOk(Commit(b, st), sys.ids, sys.procs[j]) {
      CommitFrame(sys, i, j, st);
    }
    FoldOne(sys.log, Did(p.op));
    CommittingStep(sys, i, Commit(b, st), sys.ids, Did(p.op), Finished(Committed(p), Posted(st.entries)));
  }

  lemma CommitFrame(sys: Sys, i: nat, j: nat, st: Staged)
    requires ProtocolInv(sys) && i < |sys.procs| && j < |sys.procs| && i != j
    requires sys.procs[i].pc.Committing? && sys.procs[i].pc.staged == st && !Conflicts(sys.books, sys.procs[i].op)
    ensures ProcOk(Commit(sys.books, st), sys.ids, sys.procs[j])
  {
    var p, q, b := sys.procs[i], sys.procs[j], sys.books;
    assert ProcOk(b, sys.ids, p) && ProcOk(b, sys.ids, q);
    StageTouches(b.wallets, p.op);
    if q.pc.Committing? {
      forall u | u in Users(q.op) ensures WalletOf(Commit(b, st).wallets, u) == WalletOf(b.wallets, u) {
        CommittersApart(sys, i, j, u);
      }
    }
    if Lookup(b, q.op).Some? {
      LookupStable(b, p.op, st, q.op);
    }
    ProcFrame(b, sys.ids, Commit(b, st), sys.ids, q);
  }

  lemma OpenWhenResolved(b: Books, op: Op)
    requires forall j :: 0 <= j < |Users(op)| ==> Users(op)[j] in b.wallets
    ensures Open(b, op)
  {
  }

  /** With all its locks: the caller has staged its legs, or is refused. */
  lemma StageStep(sys: Sys, i: nat)
    requires ProtocolInv(sys) && Enabled(sys, i) && sys.procs[i].pc.Locking? && sys.procs[i].pc.waiting == []
    ensures ProtocolInv(Advance(sys, i, 0))
  {
    var p := sys.procs[i];
    assert ProcOk(sys.books, sys.ids, p) && p.pc.held + [] == p.pc.held;
    FailureIsNotIntegrity(sys.books.wallets, p.op);
    match Stage(sys.books.wallets, p.op)
    case Failure(e) => QuietStep(sys, i, Finished(RolledBack(p), Failed(e)));
    case Success(st) => QuietStep(sys, i, p.(pc := Committing(p.pc.held, st)));
  }

  lemma OneLockMore(b: Books, ids: map<UserId, nat>, p: Proc)
    requires ProcOk(b, ids, p) && p.pc.Locking? && p.pc.waiting != []
    ensures ProcOk(b, ids, p.(pc := Locking(p.pc.held + [p.pc.waiting[0]], p.pc.waiting[1..])))
  {
    assert p.pc.held + [p.pc.waiting[0]] + p.pc.waiting[1..] == p.pc.held + p.pc.waiting;
  }

  /** It takes the next lock, which nobody else holds. */
  lemma TakeLockStep(sys: Sys, i: nat)
    requires ProtocolInv(sys) && Enabled(sys, i) && sys.procs[i].pc.Locking? && sys.procs[i].pc.waiting != []
    ensures ProtocolInv(Advance(sys, i, 0))
  {
    var p := sys.procs[i];
    var p' := p.(pc := Locking(p.pc.held + [p.pc.waiting[0]], p.pc.waiting[1..]));
    assert ProcOk(sys.books, sys.ids, p') by {
      assert ProcOk(sys.books, sys.ids, p);
      OneLockMore(sys.books, sys.ids, p);
    }
    HoldsOneMore(p, p');
    QuietStep(sys, i, p');
  }

  /** What it holds then is what it held, and the lock it wanted. */
  lemma HoldsOneMore(p: Proc, p': Proc)
    requires p.pc.Locking? && p.pc.waiting != []
    requires p' == p.(pc := Locking(p.pc.held + [p.pc.waiting[0]], p.pc.waiting[1..]))
    ensures Wants(p) == Some(WalletLock(p.pc.waiting[0]))
    ensures forall r: Lock :: HoldsLock(p', r) ==> HoldsLock(p, r) || Wants(p) == Some(r)
  {
  }

  lemma LockStep(sys: Sys, i: nat, id: nat)
    requires ProtocolInv(sys) && Enabled(sys, i) && sys.procs[i].pc.Locking?
    ensures ProtocolInv(Advance(sys, i, id))
  {
    assert Advance(sys, i, id) == Advance(sys, i, 0);
    if sys.procs[i].pc.waiting != [] {
      TakeLockStep(sys, i);
    } else {
      StageStep(sys, i);
    }
  }

  lemma ResolveStep(sys: Sys, i: nat, id: nat)
    requires ProtocolInv(sys) && Enabled(sys, i) && sys.procs[i].pc.Resolving?
    ensures ProtocolInv(Advance(sys, i, id))
  {
    var p := sys.procs[i];
    assert ProcOk(sys.books, sys.ids, p);
    if p.pc.k == |Users(p.op)| {
      OpenWhenResolved(sys.books, p.op);
      assert [] + LockOrder(sys.ids, p.op) == LockOrder(sys.ids, p.op);
    }
    QuietStep(sys, i, Advance(sys, i, id).procs[i]);
  }

  /** Waiting, looking up, and looking up again. */
  lemma LookStep(sys: Sys, i: nat, id: nat)
    requires ProtocolInv(sys) && Enabled(sys, i)
    requires sys.procs[i].pc.WaitRow? || sys.procs[i].pc.Checking? || sys.procs[i].pc.Rechecking?
    ensures ProtocolInv(Advance(sys, i, id))
  {
    assert ProcOk(sys.books, sys.ids, sys.procs[i]);
    QuietStep(sys, i, Advance(sys, i, id).procs[i]);
  }

  /** Every step of every caller keeps the invariant. */
  lemma AdvanceKeeps(sys: Sys, i: nat, id: nat)
    requires ProtocolInv(sys) && Enabled(sys, i) && FreshId(sys.ids, id)
    ensures ProtocolInv(Advance(sys, i, id))
  {
    var p, b := sys.procs[i], sys.books;
    assert ProcOk(b, sys.ids, p);
    match p.pc
    case Inserting(_) => InsertStep(sys, i, id);
    case Resolving(_) => ResolveStep(sys, i, id);
    case Locking(_, _) => LockStep(sys, i, id);
    case Committing(_, _) =>
      if Conflicts(b, p.op) {
        ConflictIsReplay(b, p.op);
        QuietStep(sys, i, RolledBack(p).(pc := Rechecking));
      } else {
        CommitStep(sys, i, id);
      }
    case WaitRow => LookStep(sys, i, id);
    case Checking => LookStep(sys, i, id);
    case Rechecking => LookStep(sys, i, id);
    case Done(_) =>
  }

  lemma FailureIsNotIntegrity(w: map<UserId, Wallet>, op: Op)
    ensures Stage(w, op).Failure? ==> Stage(w, op).error != IntegrityError
  {
  }

  lemma SpawnKeeps(sys: Sys, op: Op, row: Option<nat>)
    requires ProtocolInv(sys) && Proper(op)
    ensures ProtocolInv(Spawn(sys, op, row))
  {
    var sys' := Spawn(sys, op, row);
    var p := sys'.procs[|sys.procs|];
    assert forall r: Lock :: !HoldsLock(p, r);
    assert forall i: nat :: i < |sys.procs| ==> sys'.procs[i] == sys.procs[i];
  }
}
