// Webhook dedupe: insert first, then process. Deliveries may repeat, overlap,
// fail and die; the table decides which of them run a handler.
module WebhookEvents {
  import opened Wrappers
  import opened Ledger

  type Key = string

  datatype EventStatus = Received | Processed | Ignored | EventFailed

  datatype Event = Event(status: EventStatus, attempts: nat)

  const MAX_ATTEMPTS: nat := 5

  /** Can a delivery of this key be claimed? */
  predicate Claimable(events: map<Key, Event>, key: Key) {
    key in events ==> events[key].status == EventFailed && events[key].attempts < MAX_ATTEMPTS
  }

  function Claimed(events: map<Key, Event>, key: Key): map<Key, Event> {
    events[key := Event(Received, if key in events then events[key].attempts + 1 else 1)]
  }

  function Marked(events: map<Key, Event>, key: Key, status: EventStatus): map<Key, Event> {
    if key in events then events[key := events[key].(status := status)] else events
  }

  /** How a handler ends. It answers, and the event is processed; or it raises an
      application error below 500, which is acknowledged with 200 and still marked
      failed; or it asks the provider to deliver again, with a 500 of its own, an
      application error of 500 or more, or a crash it survives; or its process dies. */
  datatype Ending = Answered | Acknowledged | AskedAgain | Died

  /** The endings that leave the event failed, to be re-driven by any delivery. */
  predicate LeavesFailed(ending: Ending) {
    ending == Acknowledged || ending == AskedAgain
  }

  class WebhookEventRepository {
    var events: map<Key, Event>

    constructor ()
      ensures events == map[]
    {
      events := map[];
    }

    /** One upsert: insert, or re-drive a failed event that has attempts left. */
    method Claim(key: Key) returns (won: bool)
      modifies this
      ensures won <==> Claimable(old(events), key)
      ensures events == if won then Claimed(old(events), key) else old(events)
    {
      if key !in events {
        events := events[key := Event(Received, 1)];
        return true;
      }
      var event := events[key];
      if event.status == EventFailed && event.attempts < MAX_ATTEMPTS {
        events := events[key := Event(Received, event.attempts + 1)];
        return true;
      }
      return false;
    }

    method Mark(key: Key, status: EventStatus)
      modifies this
      ensures events == Marked(old(events), key, status)
    {
      if key !in events {
        return;
      }
      events := events[key := events[key].(status := status)];
    }

    /** One delivery from end to end; `ran` says whether its handler ran. */
    method Handle(key: Key, handled: bool, ending: Ending) returns (ran: bool)
      modifies this
      ensures ran <==> handled && Claimable(old(events), key)
      ensures events ==
        if !Claimable(old(events), key) then old(events)
        else if !handled then Marked(Claimed(old(events), key), key, Ignored)
        else match ending
          case Answered => Marked(Claimed(old(events), key), key, Processed)
          case Acknowledged => Marked(Claimed(old(events), key), key, EventFailed)
          case AskedAgain => Marked(Claimed(old(events), key), key, EventFailed)
          case Died => Claimed(old(events), key)
    {
      var won := Claim(key);
      if !won {
        return false;
      }
      if !handled {
        Mark(key, Ignored);
        return false;
      }
      ran := true;
      match ending
      case Answered => Mark(key, Processed);
      case Acknowledged => Mark(key, EventFailed);
      case AskedAgain => Mark(key, EventFailed);
      case Died =>
    }
  }

  // ------------------------------------------------- overlapping deliveries

  /** The table, the handlers running now, and for each key how its handler runs
      have ended so far, oldest first. */
  datatype Desk = Desk(events: map<Key, Event>, running: multiset<Key>, ended: map<Key, seq<Ending>>)

  const EmptyDesk := Desk(map[], multiset{}, map[])

  /** A delivery arrives for a key, of an event type that is handled or not; or
      a running handler ends. */
  datatype Tick = Arrives(key: Key, handled: bool) | Ends(key: Key, ending: Ending)

  function EndingsOf(d: Desk, key: Key): seq<Ending> {
    if key in d.ended then d.ended[key] else []
  }

  function StatusAfter(ending: Ending): EventStatus {
    match ending
    case Answered => Processed
    case Acknowledged => EventFailed
    case AskedAgain => EventFailed
    case Died => Received
  }

  function Next(d: Desk, tick: Tick): Desk {
    match tick
    case Arrives(key, handled) =>
      if !Claimable(d.events, key) then d
      else if handled then d.(events := Claimed(d.events, key), running := d.running + multiset{key})
      else d.(events := Marked(Claimed(d.events, key), key, Ignored))
    case Ends(key, ending) =>
      if key !in d.running then d
      else Desk(Marked(d.events, key, StatusAfter(ending)), d.running - multiset{key},
                d.ended[key := EndingsOf(d, key) + [ending]])
  }

  function Run(ticks: seq<Tick>): Desk {
    if ticks == [] then EmptyDesk else Next(Run(Init(ticks)), Last(ticks))
  }

  /** A key names its event type, so it is handled always or never. */
  predicate Consistent(ticks: seq<Tick>, handled: set<Key>) {
    forall t :: t in ticks && t.Arrives? ==> (t.handled <==> t.key in handled)
  }

  /** Handler runs of a key, ended or not. */
  function Runs(d: Desk, key: Key): nat {
    |EndingsOf(d, key)| + d.running[key]
  }

  predicate KeyOk(d: Desk, handled: set<Key>, key: Key) {
    var endings := EndingsOf(d, key);
    && d.running[key] <= 1
    && (forall i :: 0 <= i < |endings| - 1 ==> LeavesFailed(endings[i]))
    && (key !in d.events ==> Runs(d, key) == 0)
    && (key in d.events && key in handled ==>
        && d.events[key].attempts == Runs(d, key) && 1 <= Runs(d, key) <= MAX_ATTEMPTS
        && (d.running[key] == 1 ==> d.events[key].status == Received && (endings != [] ==> LeavesFailed(Last(endings))))
        && (d.running[key] == 0 ==> d.events[key].status == StatusAfter(Last(endings))))
    && (key in d.events && key !in handled ==> Runs(d, key) == 0 && d.events[key].status == Ignored)
  }

  /** Bounded re-drive: whatever is delivered, in whatever order and overlap, a
      key never has two handlers running at once, `attempts` counts its handler
      runs and is at most five, and a run after the first only follows runs that
      all left the event failed. */
  lemma {:induction false} BoundedRedrive(ticks: seq<Tick>, handled: set<Key>, key: Key)
    requires Consistent(ticks, handled)
    ensures KeyOk(Run(ticks), handled, key)
    ensures Run(ticks).running[key] <= 1 && Runs(Run(ticks), key) <= 5
  {
    if ticks != [] {
      BoundedRedrive(Init(ticks), handled, key);
      assert Last(ticks) in ticks;
      NextKeepsKey(Run(Init(ticks)), handled, Last(ticks), key);
    }
  }

  lemma NextKeepsKey(d: Desk, handled: set<Key>, tick: Tick, key: Key)
    requires KeyOk(d, handled, key) && (tick.Arrives? ==> (tick.handled <==> tick.key in handled))
    ensures KeyOk(Next(d, tick), handled, key)
  {
    var endings := EndingsOf(d, key);
    if tick.Ends? && tick.key == key && key in d.running {
      assert Next(d, tick).running[key] == d.running[key] - 1;
      assert EndingsOf(Next(d, tick), key) == endings + [tick.ending];
    }
  }

  /** Exactly when a delivery of a handled key runs a handler: fewer than five
      runs so far, none still running, and every one of them left the event
      failed. So an event answered once, or whose process died, is never handled
      again. */
  lemma HandledAgainIff(ticks: seq<Tick>, handled: set<Key>, key: Key)
    requires Consistent(ticks, handled) && key in handled
    ensures var d := Run(ticks);
      Next(d, Arrives(key, true)).running[key] == d.running[key] + 1 <==>
        && d.running[key] == 0 && |EndingsOf(d, key)| < 5
        && forall e :: e in EndingsOf(d, key) ==> e == Acknowledged || e == AskedAgain
  {
    BoundedRedrive(ticks, handled, key);
    ClaimableIff(Run(ticks), handled, key);
  }

  lemma ClaimableIff(d: Desk, handled: set<Key>, key: Key)
    requires KeyOk(d, handled, key) && key in handled
    ensures Claimable(d.events, key) <==>
        && d.running[key] == 0 && |EndingsOf(d, key)| < MAX_ATTEMPTS
        && forall e :: e in EndingsOf(d, key) ==> LeavesFailed(e)
  {
    var endings := EndingsOf(d, key);
    if endings != [] {
      assert Last(endings) in endings;
      if LeavesFailed(Last(endings)) {
        forall e | e in endings ensures LeavesFailed(e) {
          var i :| 0 <= i < |endings| && endings[i] == e;
        }
      }
    }
  }

  /** Telling the provider to stop does not close an event: after a first run that
      ended in an acknowledged error, the next delivery runs its handler again,
      exactly as if a redelivery had been asked for. */
  lemma AcknowledgedIsRedriven(key: Key, ending: Ending)
    ensures Claimable(Run([Arrives(key, true), Ends(key, ending)]).events, key) <==>
        ending == Acknowledged || ending == AskedAgain
  {
    var t1 := [Arrives(key, true)];
    var t2 := [Arrives(key, true), Ends(key, ending)];
    assert Init(t2) == t1 && Init(t1) == [];
    assert Run(t1) == Next(EmptyDesk, Arrives(key, true));
    assert key in Run(t1).running;
    assert Run(t2).events[key].status == StatusAfter(ending);
  }

  predicate ClosedKey(d: Desk, key: Key) {
    d.running[key] == 0 && !Claimable(d.events, key)
  }

  lemma ClosedStays(d: Desk, tick: Tick, key: Key)
    requires ClosedKey(d, key)
    ensures ClosedKey(Next(d, tick), key) && Runs(Next(d, tick), key) == Runs(d, key)
  {
  }

  /** Once closed, no sequence of deliveries opens it or runs anything for it. */
  lemma {:induction false} ClosedForGood(ticks: seq<Tick>, more: seq<Tick>, key: Key)
    requires ClosedKey(Run(ticks), key)
    ensures ClosedKey(Run(ticks + more), key) && Runs(Run(ticks + more), key) == Runs(Run(ticks), key)
    decreases |more|
  {
    if more == [] {
      assert ticks + more == ticks;
    } else {
      ClosedForGood(ticks, Init(more), key);
      ClosedStays(Run(ticks + Init(more)), Last(more), key);
      assert Init(ticks + more) == ticks + Init(more) && Last(ticks + more) == Last(more);
    }
  }

  /** Redelivering the same event, each time to the end, closes it after at most
      five deliveries, whatever the handler does. */
  lemma {:induction false} RedeliveryCloses(ticks: seq<Tick>, handled: set<Key>, key: Key, endings: seq<Ending>)
    requires Consistent(ticks, handled) && key in handled && Run(ticks).running[key] == 0
    requires |endings| >= 5
    ensures ClosedKey(Run(ticks + Deliveries(key, endings)), key)
  {
    RedeliveryCounts(ticks, handled, key, endings);
    BoundedRedrive(ticks + Deliveries(key, endings), handled, key);
    ClaimableIff(Run(ticks + Deliveries(key, endings)), handled, key);
  }

  function Deliveries(key: Key, endings: seq<Ending>): seq<Tick> {
    if endings == [] then [] else Deliveries(key, Init(endings)) + [Arrives(key, true), Ends(key, Last(endings))]
  }

  /** One delivery of an idle key, to its end. */
  lemma DeliverOnce(d: Desk, handled: set<Key>, key: Key, ending: Ending)
    requires KeyOk(d, handled, key) && key in handled && d.running[key] == 0
    ensures var d' := Next(Next(d, Arrives(key, true)), Ends(key, ending));
      && d'.running[key] == 0
      && (ClosedKey(d, key) ==> d' == d)
      && (!ClosedKey(d, key) ==> |EndingsOf(d', key)| == |EndingsOf(d, key)| + 1)
  {
    var d1 := Next(d, Arrives(key, true));
    if Claimable(d.events, key) {
      assert d1.running[key] == 1;
      assert Next(d1, Ends(key, ending)).ended[key] == EndingsOf(d, key) + [ending];
    }
  }

  lemma OneMoreDelivery(base: seq<Tick>, handled: set<Key>, key: Key, ending: Ending)
    requires Consistent(base, handled) && key in handled && Run(base).running[key] == 0
    ensures var more := base + [Arrives(key, true)] + [Ends(key, ending)];
      && Consistent(more, handled) && Run(more).running[key] == 0
      && (ClosedKey(Run(base), key) ==> Run(more) == Run(base))
      && (!ClosedKey(Run(base), key) ==> |EndingsOf(Run(more), key)| == |EndingsOf(Run(base), key)| + 1)
  {
    RunTwo(base, Arrives(key, true), Ends(key, ending));
    BoundedRedrive(base, handled, key);
    DeliverOnce(Run(base), handled, key, ending);
  }

  lemma {:induction false} RedeliveryCounts(ticks: seq<Tick>, handled: set<Key>, key: Key, endings: seq<Ending>)
    requires Consistent(ticks, handled) && key in handled && Run(ticks).running[key] == 0
    ensures var more := ticks + Deliveries(key, endings);
      && Consistent(more, handled) && Run(more).running[key] == 0
      && (ClosedKey(Run(more), key) || |EndingsOf(Run(more), key)| >= |endings|)
    decreases |endings|
  {
    var more := ticks + Deliveries(key, endings);
    if endings == [] {
      assert more == ticks;
    } else {
      RedeliveryCounts(ticks, handled, key, Init(endings));
      var base := ticks + Deliveries(key, Init(endings));
      assert more == base + [Arrives(key, true)] + [Ends(key, Last(endings))];
      OneMoreDelivery(base, handled, key, Last(endings));
    }
  }

  lemma RunTwo(ticks: seq<Tick>, t1: Tick, t2: Tick)
    ensures Run(ticks + [t1] + [t2]) == Next(Next(Run(ticks), t1), t2)
  {
    assert Init(ticks + [t1] + [t2]) == ticks + [t1] && Init(ticks + [t1]) == ticks;
  }

  // -------------------------------------------------------------- dedupe keys

  /** The event's own id, else its reference, else a digest of the body; cut to 200. */
  function DedupeKey(eventType: string, id: Option<string>, reference: Option<string>, digest: string): Key {
    Cut("paystack:" + eventType + ":" + Identifier(id, reference, digest))
  }

  function Identifier(id: Option<string>, reference: Option<string>, digest: string): string {
    if id.Some? && id.value != "" then id.value
    else if reference.Some? && reference.value != "" then reference.value
    else digest
  }

  function Cut(s: string): string {
    if |s| > 200 then s[..200] else s
  }

  function Take(s: string, n: nat): string {
    if |s| > n then s[..n] else s
  }

  /** For event types without a colon and short enough to be kept whole, as all
      handled ones are, two keys agree exactly when the types agree and the
      identifiers agree as far as the cut leaves them. */
  lemma KeyIdentifies(type1: string, id1: Option<string>, ref1: Option<string>, digest1: string,
                      type2: string, id2: Option<string>, ref2: Option<string>, digest2: string)
    requires ':' !in type1 && ':' !in type2 && |type1| <= 190 && |type2| <= 190
    ensures DedupeKey(type1, id1, ref1, digest1) == DedupeKey(type2, id2, ref2, digest2) <==>
              && type1 == type2
              && Take(Identifier(id1, ref1, digest1), 190 - |type1|) ==
                 Take(Identifier(id2, ref2, digest2), 190 - |type2|)
  {
    var x1, x2 := Identifier(id1, ref1, digest1), Identifier(id2, ref2, digest2);
    var y1, y2 := Take(x1, 190 - |type1|), Take(x2, 190 - |type2|);
    CutAfterPrefix(type1, x1);
    CutAfterPrefix(type2, x2);
    var s1, s2 := "paystack:" + type1 + ":" + y1, "paystack:" + type2 + ":" + y2;
    if s1 == s2 {
      assert s1[9..] == type1 + ":" + y1 && s2[9..] == type2 + ":" + y2;
      FirstColon(type1, type2, y1, y2);
    }
  }

  /** An optional field that is there and says something. */
  predicate Given(field: Option<string>) {
    field.Some? && field.value != ""
  }

  /** Two identifiers agree, for the same type, as far as the cut leaves them. */
  predicate AgreeToTheCut(type1: string, x1: string, type2: string, x2: string)
    requires |type1| <= 190 && |type2| <= 190
  {
    type1 == type2 && Take(x1, 190 - |type1|) == Take(x2, 190 - |type2|)
  }

  /** That is plain agreement for keys that are kept whole. */
  lemma KeptWhole(type1: string, x1: string, type2: string, x2: string)
    requires |type1| + |x1| <= 190 && |type2| + |x2| <= 190
    ensures AgreeToTheCut(type1, x1, type2, x2) <==> type1 == type2 && x1 == x2
  {
  }

  /** In the fields of the two events: those with ids of their own share a key
      exactly when types and ids agree, whatever else they carry; those without,
      exactly when types and references agree; those with neither, exactly when
      types and digests do. And an id can be taken for another's reference. */
  lemma KeysByField(type1: string, id1: Option<string>, ref1: Option<string>, digest1: string,
                    type2: string, id2: Option<string>, ref2: Option<string>, digest2: string)
    requires ':' !in type1 && ':' !in type2 && |type1| <= 190 && |type2| <= 190
    ensures var same := DedupeKey(type1, id1, ref1, digest1) == DedupeKey(type2, id2, ref2, digest2);
      && (Given(id1) && Given(id2) ==> (same <==> AgreeToTheCut(type1, id1.value, type2, id2.value)))
      && (!Given(id1) && !Given(id2) && Given(ref1) && Given(ref2) ==>
           (same <==> AgreeToTheCut(type1, ref1.value, type2, ref2.value)))
      && (!Given(id1) && !Given(id2) && !Given(ref1) && !Given(ref2) ==>
           (same <==> AgreeToTheCut(type1, digest1, type2, digest2)))
      && (Given(id1) && !Given(id2) && Given(ref2) ==>
           (same <==> AgreeToTheCut(type1, id1.value, type2, ref2.value)))
  {
    KeyIdentifies(type1, id1, ref1, digest1, type2, id2, ref2, digest2);
  }

  /** The cut falls inside the identifier. */
  lemma CutAfterPrefix(eventType: string, x: string)
    requires |eventType| <= 190
    ensures Cut("paystack:" + eventType + ":" + x) == "paystack:" + eventType + ":" + Take(x, 190 - |eventType|)
  {
    var p := "paystack:" + eventType + ":";
    assert |p| == 10 + |eventType|;
    if |x| > 190 - |eventType| {
      assert (p + x)[..200] == p + x[..190 - |eventType|];
    }
  }

  lemma FirstColon(t1: string, t2: string, x1: string, x2: string)
    requires ':' !in t1 && ':' !in t2 && t1 + ":" + x1 == t2 + ":" + x2
    ensures t1 == t2 && x1 == x2
  {
    var s := t1 + ":" + x1;
    assert s[|t1|] == ':' && s[|t2|] == ':' by {
      assert s == t2 + ":" + x2;
    }
    forall i | 0 <= i < |t1| ensures s[i] != ':' { assert s[i] == t1[i]; }
    forall i | 0 <= i < |t2| ensures s[i] != ':' { assert s[i] == t2[i]; }
    assert t1 == s[..|t1|] && t2 == s[..|t2|];
    assert x1 == s[|t1| + 1..] && x2 == s[|t2| + 1..];
  }

  /** So identifiers that differ only after the cut share a key, and their second
      event is taken for a duplicate of the first. */
  lemma CutKeysCollide(eventType: string, common: string, x1: string, x2: string)
    requires |"paystack:" + eventType + ":" + common| >= 200 && common != ""
    ensures DedupeKey(eventType, Some(common + x1), None, "") == DedupeKey(eventType, Some(common + x2), None, "")
  {
    var p := "paystack:" + eventType + ":" + common;
    assert "paystack:" + eventType + ":" + (common + x1) == p + x1;
    assert "paystack:" + eventType + ":" + (common + x2) == p + x2;
    assert Cut(p + x1) == p[..200] && Cut(p + x2) == p[..200];
  }
}
