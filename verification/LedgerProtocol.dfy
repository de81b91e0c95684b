// The two money entry points as a concurrent protocol: any number of callers,
// each taking one small step at a time, against row locks, commits and the
// unique index on `reference`. A locking read returns the current committed
// row, and the unique index is checked when a transaction commits.
module LedgerProtocol {
  import opened Wrappers
  import opened Ledger

  // ------------------------------------------------------------------- state

  /** What a caller has written but not committed. */
  datatype Staged = Staged(wallets: map<UserId, Wallet>, entries: seq<Entry>, marks: map<Ref, EntryStatus>)

  /** Where a caller is. */
  datatype Pc =
    | WaitRow                                   // wants its payment row's lock
    | Checking                                  // about to look its reference up
    | Resolving(k: nat)                         // wallets before the k-th are known to exist
    | Inserting(k: nat)                         // about to create the k-th wallet and commit
    | Locking(held: seq<nat>, waiting: seq<nat>)   // taking wallet locks in ascending order
    | Committing(held: seq<nat>, staged: Staged)
    | Rechecking                                // lost the race on the index, rolled back
    | Done(outcome: Outcome)

  /** What has become of the changes to other rows that the caller had flushed
      before it called: still pending, committed, or rolled back. */
  datatype Flushed = Pending | Kept | Dropped

  /** A caller may come in holding, or waiting for, a payment row's lock. */
  datatype Proc = Proc(op: Op, row: Option<nat>, rowHeld: bool, flushed: Flushed, pc: Pc)

  /** What has been committed, in commit order. */
  datatype Event = Opened(user: UserId) | Did(op: Op)

  datatype Sys = Sys(books: Books, ids: map<UserId, nat>, procs: seq<Proc>, log: seq<Event>)

  const EmptySys := Sys(EmptyBooks, map[], [], [])

  datatype Lock = RowLock(row: nat) | WalletLock(id: nat)

  // -------------------------------------------------------------- ingredients

  function Users(op: Op): seq<UserId> {
    match op
    case EntryOp(leg) => [leg.user]
    case TransferOp(_, debit, credit) => [debit.user, credit.user]
  }

  function WalletOf(wallets: map<UserId, Wallet>, user: UserId): Wallet {
    if user in wallets then wallets[user] else Wallet(0, 0)
  }

  function IdOf(ids: map<UserId, nat>, user: UserId): nat {
    if user in ids then ids[user] else 0
  }

  /** `sorted(set(wallet_ids))`. */
  function LockOrder(ids: map<UserId, nat>, op: Op): seq<nat> {
    match op
    case EntryOp(leg) => [IdOf(ids, leg.user)]
    case TransferOp(_, debit, credit) =>
      var x, y := IdOf(ids, debit.user), IdOf(ids, credit.user);
      if x == y then [x] else if x < y then [x, y] else [y, x]
  }

  /** The check at the top, and the one after a conflict. */
  function Lookup(b: Books, op: Op): Option<seq<Entry>> {
    match op
    case EntryOp(leg) =>
      var found := Find(b.ledger, leg.ref);
      if found.Some? then Some([found.value]) else None
    case TransferOp(group, _, _) =>
      var existing := Group(b.ledger, group);
      if |existing| == 2 then Some(ReplayPair(existing, group)) else None
  }

  /** Would the commit break the unique index? */
  predicate Conflicts(b: Books, op: Op) {
    match op
    case EntryOp(leg) => Find(b.ledger, leg.ref).Some?
    case TransferOp(_, debit, credit) => Find(b.ledger, debit.ref).Some? || Find(b.ledger, credit.ref).Some?
  }

  /** The legs, applied to the locked wallet rows; one row when both are the same. */
  function Stage(wallets: map<UserId, Wallet>, op: Op): Result<Staged, Error> {
    match op
    case EntryOp(leg) =>
      (match PostWallet(WalletOf(wallets, leg.user), leg)
       case Failure(e) => Failure(e)
       case Success((w, entry)) => Success(Staged(map[leg.user := w], [entry], map[leg.ref := leg.status])))
    case TransferOp(_, debit, credit) =>
      match PostWallet(WalletOf(wallets, debit.user), debit)
      case Failure(e) => Failure(e)
      case Success((w1, e1)) =>
        match PostWallet(if credit.user == debit.user then w1 else WalletOf(wallets, credit.user), credit)
        case Failure(e) => Failure(e)
        case Success((w2, e2)) =>
          Success(Staged(map[debit.user := w1][credit.user := w2], [e1, e2],
                         map[debit.ref := debit.status][credit.ref := credit.status]))
  }

  function Commit(b: Books, st: Staged): Books {
    Books(b.wallets + st.wallets, b.ledger + st.entries, b.marks + st.marks)
  }

  // -------------------------------------------------------------------- locks

  function HeldIds(pc: Pc): seq<nat> {
    match pc
    case Locking(held, _) => held
    case Committing(held, _) => held
    case _ => []
  }

  predicate HoldsLock(p: Proc, r: Lock) {
    match r
    case RowLock(x) => p.rowHeld && p.row == Some(x)
    case WalletLock(id) => id in HeldIds(p.pc)
  }

  function Wants(p: Proc): Option<Lock> {
    match p.pc
    case WaitRow => if p.row.Some? then Some(RowLock(p.row.value)) else None
    case Locking(_, waiting) => if waiting != [] then Some(WalletLock(waiting[0])) else None
    case _ => None
  }

  predicate FreeFor(sys: Sys, i: nat, r: Lock) {
    forall j: nat :: j < |sys.procs| && j != i ==> !HoldsLock(sys.procs[j], r)
  }

  /** A caller can move unless it has finished or another holds the lock it wants. */
  predicate Enabled(sys: Sys, i: nat) {
    i < |sys.procs| && !sys.procs[i].pc.Done? && (Wants(sys.procs[i]).Some? ==>
      FreeFor(sys, i, Wants(sys.procs[i]).value))
  }

  // -------------------------------------------------------------------- steps

  function SetProc(sys: Sys, i: nat, p: Proc): Sys
    requires i < |sys.procs|
  {
    sys.(procs := sys.procs[i := p])
  }

  function Finished(p: Proc, outcome: Outcome): Proc {
    p.(rowHeld := false, pc := Done(outcome))
  }

  /** A commit takes what is still pending with it. */
  function Committed(p: Proc): Proc {
    p.(rowHeld := false, flushed := if p.flushed == Pending then Kept else p.flushed)
  }

  /** So does a rollback, the other way. Either one releases every lock. */
  function RolledBack(p: Proc): Proc {
    p.(rowHeld := false, flushed := if p.flushed == Pending then Dropped else p.flushed)
  }

  /** One step of caller `i`; `id` is the fresh wallet id an insert would use. */
  function Advance(sys: Sys, i: nat, id: nat): Sys
    requires i < |sys.procs|
  {
    var p, b := sys.procs[i], sys.books;
    match p.pc
    case WaitRow => SetProc(sys, i, p.(rowHeld := true, pc := Checking))
    case Checking =>
      (match Lookup(b, p.op)
       case Some(found) => SetProc(sys, i, Finished(p, Replayed(found)))
       case None => SetProc(sys, i, p.(pc := Resolving(0))))
    case Resolving(k) =>
      if k >= |Users(p.op)| then SetProc(sys, i, p.(pc := Locking([], LockOrder(sys.ids, p.op))))
      else SetProc(sys, i, p.(pc := if Users(p.op)[k] in b.wallets then Resolving(k + 1) else Inserting(k)))
    case Inserting(k) =>
      if k >= |Users(p.op)| then sys
      else
        var u := Users(p.op)[k];
        Sys(Ensure(b, u), if u in sys.ids then sys.ids else sys.ids[u := id],
            sys.procs[i := Committed(p).(pc := Resolving(k + 1))], sys.log + [Opened(u)])
    case Locking(held, waiting) =>
      if waiting != [] then SetProc(sys, i, p.(pc := Locking(held + [waiting[0]], waiting[1..])))
      else (match Stage(b.wallets, p.op)
            case Failure(e) => SetProc(sys, i, Finished(RolledBack(p), Failed(e)))
            case Success(st) => SetProc(sys, i, p.(pc := Committing(held, st))))
    case Committing(held, st) =>
      if Conflicts(b, p.op) then SetProc(sys, i, RolledBack(p).(pc := Rechecking))
      else Sys(Commit(b, st), sys.ids, sys.procs[i := Finished(Committed(p), Posted(st.entries))],
        sys.log + [Did(p.op)])
    case Rechecking =>
      (match Lookup(b, p.op)
       case Some(found) => SetProc(sys, i, Finished(p, Replayed(found)))
       case None => SetProc(sys, i, Finished(p, Failed(IntegrityError))))
    case Done(_) => sys
  }

  function Caller(op: Op, row: Option<nat>): Proc {
    Proc(op, row, false, Pending, if row.Some? then WaitRow else Checking)
  }

  function Spawn(sys: Sys, op: Op, row: Option<nat>): Sys {
    sys.(procs := sys.procs + [Caller(op, row)])
  }

  /** What the services ask for: a single movement never uses a transfer's references. */
  predicate Proper(op: Op) {
    match op
    case EntryOp(leg) => leg.group == None && !leg.ref.Out? && !leg.ref.In?
    case TransferOp(g, debit, credit) => TransferLegs(g, debit, credit)
  }

  // ------------------------------------------------- against the sequential one

  function After(b: Books, event: Event): Books {
    match event
    case Opened(u) => Ensure(b, u)
    case Did(op) => Apply(b, op).books
  }

  /** The sequential ledger, run over the commits in their order. */
  function Fold(log: seq<Event>): Books {
    if log == [] then EmptyBooks else After(Fold(Init(log)), Last(log))
  }

  /** Release references are only ever stored as legs of their group. */
  predicate LegsGrouped(ledger: seq<Entry>) {
    forall e :: e in ledger ==> (e.ref.Out? || e.ref.In? ==> e.group == Some(e.ref.group))
  }

  lemma LookupReplays(b: Books, op: Op)
    ensures Lookup(b, op).Some? ==> Apply(b, op) == Applied(b, Replayed(Lookup(b, op).value))
    ensures Lookup(b, op).None? ==> !Apply(b, op).outcome.Replayed?
  {
  }

  /** A conflict on the index always means that the whole operation is stored. */
  lemma ConflictIsReplay(b: Books, op: Op)
    requires Proper(op) && GroupsWhole(b.ledger) && LegsGrouped(b.ledger) && Conflicts(b, op)
    ensures Lookup(b, op).Some?
  {
    if op.TransferOp? {
      var ref := if Find(b.ledger, op.debit.ref).Some? then op.debit.ref else op.credit.ref;
      Found(b.ledger, ref);
      GroupMember(b.ledger, Find(b.ledger, ref).value, op.group);
    }
  }
}
