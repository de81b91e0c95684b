// The concurrent ledger under the callers it has: the services, which build every
// leg from its reference and release what they take out.
module LedgerProtocolServices {
  import opened Ledger
  import opened Store
  import opened LedgerProtocol
  import opened LedgerProtocolProofs
  import opened LedgerProtocolTheorems

  /** A call as the services make it: legs built from their references, and a
      release that takes out what it puts in. */
  predicate Asked(op: Op) {
    match op
    case EntryOp(leg) => BuiltFromRef(leg) && GroupOf(leg.ref).None?
    case TransferOp(g, debit, credit) =>
      TransferLegs(g, debit, credit) && BuiltFromRef(debit) && BuiltFromRef(credit) && debit.amount == credit.amount
  }

  predicate BuiltFromRef(leg: Leg) {
    leg.kind == KindOf(leg.ref) && leg.agreement == AgreementOf(leg.ref) && leg.group == GroupOf(leg.ref)
  }

  /** Only what callers asked for is ever committed. */
  lemma {:induction false} CommitsAreAsked(ticks: seq<Tick>, sys: Sys)
    requires Reaches(EmptySys, ticks, sys)
    requires forall t :: t in ticks && t.Arrive? ==> Asked(t.op)
    ensures forall p :: p in sys.procs ==> Asked(p.op)
    ensures forall e :: e in sys.log && e.Did? ==> Asked(e.op)
    decreases |ticks|
  {
    if ticks != [] {
      var m: Sys :| Reaches(EmptySys, Init(ticks), m) && Ticks(m, Last(ticks), sys);
      assert Last(ticks) in ticks && forall t :: t in Init(ticks) ==> t in ticks;
      CommitsAreAsked(Init(ticks), m);
      if Last(ticks).Go? {
        SameOps(m, Last(ticks).i, Last(ticks).id);
      }
    }
  }

  lemma SameOps(sys: Sys, i: nat, id: nat)
    requires i < |sys.procs|
    ensures var sys' := Advance(sys, i, id);
      && |sys'.procs| == |sys.procs| && (forall j :: 0 <= j < |sys.procs| ==> sys'.procs[j].op == sys.procs[j].op)
      && (forall e :: e in sys'.log && e.Did? ==> e in sys.log || e.op == sys.procs[i].op)
  {
  }

  lemma {:induction false} FoldServes(log: seq<Event>)
    requires forall e :: e in log && e.Did? ==> Asked(e.op)
    ensures Conserved(Fold(log)) && AllGenuine(Fold(log).ledger)
  {
    if log == [] {
      AnyRunConserves([]);
    } else {
      assert Last(log) in log && forall e :: e in Init(log) ==> e in log;
      FoldServes(Init(log));
      var b := Fold(Init(log));
      match Last(log)
      case Opened(u) => EnsureConserves(b, u);
      case Did(op) =>
        AskedServes(b, op);
    }
  }

  lemma AskedServes(b: Books, op: Op)
    requires Asked(op) && Conserved(b) && AllGenuine(b.ledger)
    ensures Conserved(Apply(b, op).books) && AllGenuine(Apply(b, op).books.ledger)
  {
    match op
    case EntryOp(leg) =>
      EntryConserves(b, leg);
    case TransferOp(g, debit, credit) =>
      TransferConserves(b, g, debit, credit);
      TransferBooks(b, g, debit, credit);
  }

  /** A single movement that did not fail holds one genuine entry, under the
      reference and of the kind it asked for. */
  predicate GenuineAnswer(p: Proc) {
    p.op.EntryOp? && p.pc.Done? && !p.pc.outcome.Failed? ==>
      && |p.pc.outcome.entries| == 1 && Genuine(p.pc.outcome.entries[0])
      && p.pc.outcome.entries[0].ref == p.op.leg.ref && p.pc.outcome.entries[0].kind == p.op.leg.kind
  }

  /** And for callers that ask as the services do, every interleaving conserves
      money, stores only genuine entries, and replays only those. */
  lemma ServicesInterleaved(ticks: seq<Tick>, sys: Sys, users: nat)
    requires Reaches(EmptySys, ticks, sys) && Bounded(sys.books, users)
    requires forall t :: t in ticks && t.Arrive? ==> Asked(t.op)
    ensures Total(sys.books, users) == Flow(sys.books.ledger)
    ensures AllGenuine(sys.books.ledger)
    ensures forall i: nat :: i < |sys.procs| ==> GenuineAnswer(sys.procs[i])
  {
    AnyInterleaving(ticks, sys);
    CommitsAreAsked(ticks, sys);
    FoldServes(sys.log);
    forall i: nat | i < |sys.procs| ensures GenuineAnswer(sys.procs[i]) {
      var p := sys.procs[i];
      assert ProcOk(sys.books, sys.ids, p) && p in sys.procs;
      if p.op.EntryOp? {
        Found(sys.books.ledger, p.op.leg.ref);
      }
    }
  }
}
