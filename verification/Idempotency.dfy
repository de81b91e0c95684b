// Idempotency keys: reserve, then replay a stored response or record a new one.
module Idempotency {
  import opened Wrappers
  import opened Ledger

  const TTL: int := 24 * 3600
  const TIMEOUT: int := 120
  const MAX_KEY_LENGTH: nat := 120

  /** One per user, endpoint and client key. */
  datatype Key = Key(user: nat, endpoint: string, key: string)

  datatype RecordStatus = InProgress | Completed(response: nat)

  datatype Record = Record(id: nat, hash: nat, status: RecordStatus, created: int, expires: int)

  type Table = map<Key, Record>

  /** A reservation whose request is presumed dead. */
  predicate Stale(r: Record, now: int) {
    r.status == InProgress && r.created < now - TIMEOUT
  }

  predicate Reservable(table: Table, key: Key, now: int) {
    key in table ==> Stale(table[key], now)
  }

  /** A takeover keeps the row's id. */
  function Reserved(table: Table, key: Key, hash: nat, now: int, freshId: nat): Table {
    table[key := Record(if key in table then table[key].id else freshId, hash, InProgress, now, now + TTL)]
  }

  function AfterReserve(table: Table, key: Key, hash: nat, now: int, freshId: nat, sweep: bool): Table {
    var reserved := Reserved(table, key, hash, now, freshId);
    if sweep then Swept(reserved, now) else reserved
  }

  function Swept(table: Table, now: int): Table {
    map k | k in table && table[k].expires >= now :: table[k]
  }

  function CompletedTable(table: Table, id: nat, response: nat): Table {
    map k | k in table :: if table[k].id == id then table[k].(status := Completed(response)) else table[k]
  }

  function ReleasedTable(table: Table, id: nat): Table {
    map k | k in table && !(table[k].id == id && table[k].status == InProgress) :: table[k]
  }

  /** What begin answers. */
  datatype Begun =
    | BadKey
    | Proceed(record: Option<nat>)
    | KeyReused
    | Replay(response: nat)
    | InFlight

  /** The second half of begin, after the reservation was refused: the row as it
      is when it is read. */
  function Judge(table: Table, key: Key, hash: nat): Begun {
    if key !in table then Proceed(None)
    else if table[key].hash != hash then KeyReused
    else match table[key].status
      case Completed(response) => Replay(response)
      case InProgress => InFlight
  }

  ghost predicate UniqueIds(table: Table) {
    forall k, l :: k in table && l in table && table[k].id == table[l].id ==> k == l
  }

  class IdempotencyRepository {
    var table: Table
    var nextId: nat

    /** Row ids are unique, and the next one is not in use. */
    ghost predicate Valid()
      reads this
    {
      UniqueIds(table) && forall k :: k in table ==> table[k].id < nextId
    }

    constructor ()
      ensures Valid() && table == map[] && nextId == 0
    {
      table, nextId := map[], 0;
    }

    /** One upsert, and now and then a sweep of what has expired. */
    method Reserve(key: Key, hash: nat, now: int, sweep: bool) returns (id: Option<nat>)
      requires Valid()
      modifies this
      ensures Valid()
      ensures id.Some? <==> Reservable(old(table), key, now)
      ensures id.Some? ==>
        && key in table && table[key] == Record(id.value, hash, InProgress, now, now + 86_400)
        && (key in old(table) ==> id.value == old(table)[key].id)
      ensures table == if id.None? then old(table) else AfterReserve(old(table), key, hash, now, old(nextId), sweep)
    {
      var freshId := nextId;
      nextId := nextId + 1;
      if key !in table {
        id := Some(freshId);
        table := table[key := Record(freshId, hash, InProgress, now, now + TTL)];
      } else if table[key].status == InProgress && table[key].created < now - TIMEOUT {
        id := Some(table[key].id);
        table := table[key := table[key].(hash := hash, status := InProgress, created := now, expires := now + TTL)];
      } else {
        return None;
      }
      if sweep {
        table := Swept(table, now);
      }
    }

    /** The primary-key read behind `complete` and `release`. */
    method Get(id: nat) returns (key: Option<Key>)
      ensures key.Some? ==> key.value in table && table[key.value].id == id
      ensures key.None? ==> forall k :: k in table ==> table[k].id != id
    {
      var keys := table.Keys;
      while keys != {}
        invariant keys <= table.Keys
        invariant forall k :: k in table && k !in keys ==> table[k].id != id
        decreases |keys|
      {
        var k :| k in keys;
        if table[k].id == id {
          return Some(k);
        }
        keys := keys - {k};
      }
      return None;
    }

    /** Completing puts the response on the one row with this id. From then on the
        body it was reserved under is answered with it, and any other is refused. */
    method Complete(id: nat, response: nat)
      requires Valid()
      modifies this
      ensures Valid() && nextId == old(nextId)
      ensures table == CompletedTable(old(table), id, response)
      ensures forall k :: k in old(table) && old(table)[k].id == id ==>
        table == old(table)[k := old(table)[k].(status := Completed(response))]
      ensures forall k, hash: nat :: k in old(table) && old(table)[k].id == id ==>
        Judge(table, k, hash) == if hash == old(table)[k].hash then Replay(response) else KeyReused
      ensures (forall k :: k in old(table) ==> old(table)[k].id != id) ==> table == old(table)
    {
      var key := Get(id);
      if key.None? {
        return;
      }
      table := table[key.value := table[key.value].(status := Completed(response))];
    }

    /** Releasing frees the key of a reservation, and never drops a response. */
    method Release(id: nat)
      requires Valid()
      modifies this
      ensures Valid() && nextId == old(nextId)
      ensures table == ReleasedTable(old(table), id)
      ensures forall k :: k in old(table) && old(table)[k].id == id ==>
        table == if old(table)[k].status == InProgress then old(table) - {k} else old(table)
      ensures forall k, now: int :: k in old(table) && old(table)[k].id == id && old(table)[k].status == InProgress ==>
        Reservable(table, k, now)
      ensures (forall k :: k in old(table) ==> old(table)[k].id != id) ==> table == old(table)
    {
      var key := Get(id);
      if key.None? || table[key.value].status != InProgress {
        return;
      }
      table := table - {key.value};
    }
  }

  class IdempotencyContext {
    const repository: IdempotencyRepository
    const user: nat
    const key: Option<string>
    var recordId: Option<nat>
    var completed: bool

    constructor (repository: IdempotencyRepository, user: nat, key: Option<string>)
      ensures this.repository == repository && this.user == user && this.key == key
      ensures recordId == None && !completed
    {
      this.repository, this.user, this.key, recordId, completed := repository, user, key, None, false;
    }

    /** Reserve; refused, read the row and say why. Nothing runs between the two
        here; overlapping requests are the protocol below. */
    method Begin(endpoint: string, hash: nat, required: bool, now: int, sweep: bool) returns (begun: Begun)
      requires repository.Valid()
      modifies this, repository
      ensures repository.Valid() && completed == old(completed)
      ensures key.None? || key.value == "" ==> begun == if required then BadKey else Proceed(None)
      ensures key.Some? && |key.value| > 120 ==> begun == BadKey
      ensures key.Some? && 0 < |key.value| <= 120 ==>
        var k := Key(user, endpoint, key.value);
        var table := old(repository.table);
        if Reservable(table, k, now)
        then begun == Proceed(recordId) && recordId.Some?
             && repository.table == AfterReserve(table, k, hash, now, old(repository.nextId), sweep)
             && k in repository.table && repository.table[k].id == recordId.value
        else begun == Judge(table, k, hash)
      ensures !(begun.Proceed? && begun.record.Some?) ==>
          recordId == old(recordId) && repository.table == old(repository.table)
    {
      if key.None? || key.value == "" {
        return if required then BadKey else Proceed(None);
      }
      if |key.value| > MAX_KEY_LENGTH {
        return BadKey;
      }
      var k := Key(user, endpoint, key.value);
      var id := repository.Reserve(k, hash, now, sweep);
      if id.Some? {
        recordId := id;
        return Proceed(id);
      }
      if k !in repository.table {
        return Proceed(None);
      }
      var existing := repository.table[k];
      if existing.hash != hash {
        return KeyReused;
      }
      if existing.status.Completed? {
        return Replay(existing.status.response);
      }
      return InFlight;
    }

    method Complete(response: nat)
      requires repository.Valid()
      modifies this, repository
      ensures repository.Valid() && recordId == old(recordId)
      ensures completed == (old(completed) || recordId.Some?)
      ensures repository.table == if recordId.None? then old(repository.table)
                                  else CompletedTable(old(repository.table), recordId.value, response)
    {
      if recordId.None? {
        return;
      }
      repository.Complete(recordId.value, response);
      completed := true;
    }

    method ReleaseIfAbandoned()
      requires repository.Valid()
      modifies repository
      ensures repository.Valid()
      ensures repository.table == if recordId.None? || completed then old(repository.table)
                                  else ReleasedTable(old(repository.table), recordId.value)
    {
      if recordId.None? || completed {
        return;
      }
      repository.Release(recordId.value);
    }
  }

  // -------------------------------------------------- overlapping requests

  /** A request between reserving and answering. */
  datatype Request =
    | Reading(key: Key, hash: nat)                          // refused, about to read the row
    | Guarded(key: Key, hash: nat, id: nat, began: int)     // running under its reservation
    | Unguarded(key: Key, hash: nat)                        // running without one

  /** A handler that finished: what it answered, and when the row that holds the
      answer expires. One that ran without a reservation is held nowhere. */
  datatype Execution = Execution(key: Key, hash: nat, response: nat, expires: Option<int>)

  datatype Desk = Desk(table: Table, now: int, requests: map<nat, Request>, executed: seq<Execution>, nextId: nat)

  datatype Tick =
    | Passes(seconds: nat)
    | Begins(request: nat, key: Key, hash: nat)
    | Reads(request: nat)
    | Finishes(request: nat, response: nat)
    | Raises(request: nat)    // the teardown releases the reservation
    | Dies(request: nat)      // the process is gone, and nothing is released
    | Sweeps

  function Drop(requests: map<nat, Request>, request: nat): map<nat, Request> {
    requests - {request}
  }

  function Next(d: Desk, tick: Tick): Desk {
    match tick
    case Passes(seconds) => d.(now := d.now + seconds)
    case Begins(r, key, hash) =>
      if r in d.requests then d
      else if Reservable(d.table, key, d.now) then
        var table := Reserved(d.table, key, hash, d.now, d.nextId);
        d.(table := table, nextId := d.nextId + 1,
          requests := d.requests[r := Guarded(key, hash, table[key].id, d.now)])
      else d.(requests := d.requests[r := Reading(key, hash)])
    case Reads(r) =>
      if r !in d.requests || !d.requests[r].Reading? then d
      else if Judge(d.table, d.requests[r].key, d.requests[r].hash).Proceed?
      then d.(requests := d.requests[r := Unguarded(d.requests[r].key, d.requests[r].hash)])
      else d.(requests := Drop(d.requests, r))
    case Finishes(r, response) =>
      if r !in d.requests then d
      else (match d.requests[r]
        case Guarded(key, hash, id, _) =>
          var held := if key in d.table && d.table[key].id == id then Some(d.table[key].expires) else None;
          Desk(CompletedTable(d.table, id, response), d.now, Drop(d.requests, r),
               d.executed + [Execution(key, hash, response, held)], d.nextId)
        case Unguarded(key, hash) =>
          d.(requests := Drop(d.requests, r), executed := d.executed + [Execution(key, hash, response, None)])
        case Reading(_, _) => d)
    case Raises(r) =>
      if r !in d.requests then d
      else (match d.requests[r]
        case Guarded(_, _, id, _) => d.(table := ReleasedTable(d.table, id), requests := Drop(d.requests, r))
        case _ => d.(requests := Drop(d.requests, r)))
    case Dies(r) => d.(requests := Drop(d.requests, r))
    case Sweeps => d.(table := Swept(d.table, d.now))
  }

  /** Handlers finish within the in-flight timeout. */
  predicate Timely(d: Desk) {
    forall r :: r in d.requests && d.requests[r].Guarded? ==> d.now - d.requests[r].began <= TIMEOUT
  }

  predicate RowOk(d: Desk, key: Key) {
    key in d.table ==>
      && d.table[key].id < d.nextId
      && d.table[key].created <= d.now
      && d.table[key].expires == d.table[key].created + TTL
  }

  /** A running request's row is its own: its id, its body, its time, still in progress. */
  predicate RequestOk(d: Desk, r: nat) {
    r in d.requests && d.requests[r].Guarded? ==>
      var g := d.requests[r];
      && g.key in d.table && d.table[g.key].id == g.id && d.table[g.key].hash == g.hash
      && d.table[g.key].status == InProgress && d.table[g.key].created == g.began
  }

  /** Two requests running under reservations of one key. */
  predicate BothGuard(d: Desk, r: nat, s: nat) {
    && r in d.requests && s in d.requests && d.requests[r].Guarded? && d.requests[s].Guarded?
    && d.requests[r].key == d.requests[s].key
  }

  ghost predicate DeskInv(d: Desk) {
    && (forall k :: RowOk(d, k))
    && UniqueIds(d.table)
    && (forall r :: RequestOk(d, r))
    && (forall r, s :: BothGuard(d, r, s) ==> r == s)
    && (forall i :: 0 <= i < |d.executed| ==> StillThere(d, d.executed[i]))
  }

  predicate Holds(r: Record, c: Execution) {
    r.hash == c.hash && r.status == Completed(c.response) && c.expires == Some(r.expires)
  }

  /** Until it expires a recorded response is in the table, under the body it answered. */
  predicate StillThere(d: Desk, c: Execution) {
    c.expires.Some? ==>
      || d.now > c.expires.value
      || (c.key in d.table && Holds(d.table[c.key], c))
  }

  // ------------------------------------------------------------------ proofs

  lemma BeginsKeeps(d: Desk, r: nat, key: Key, hash: nat)
    requires DeskInv(d) && Timely(d)
    ensures DeskInv(Next(d, Begins(r, key, hash)))
  {
    var d' := Next(d, Begins(r, key, hash));
    assert RowOk(d, key);
    forall k ensures RowOk(d', k) {
      assert RowOk(d, k);
    }
    forall q ensures RequestOk(d', q) {
      assert RequestOk(d, q);
    }
    forall q, s | BothGuard(d', q, s) ensures q == s {
      assert RequestOk(d, q) && RequestOk(d, s);
      assert BothGuard(d, q, s) || q == r || s == r;
    }
    forall k, l | k in d'.table && l in d'.table && d'.table[k].id == d'.table[l].id ensures k == l {
      assert RowOk(d, k) && RowOk(d, l);
    }
    forall i | 0 <= i < |d'.executed| ensures StillThere(d', d'.executed[i]) {
      assert StillThere(d, d.executed[i]);
    }
  }

  lemma FinishesKeeps(d: Desk, r: nat, response: nat)
    requires DeskInv(d)
    ensures DeskInv(Next(d, Finishes(r, response)))
  {
    var d' := Next(d, Finishes(r, response));
    assert RequestOk(d, r);
    forall k ensures RowOk(d', k) {
      assert RowOk(d, k);
    }
    forall q ensures RequestOk(d', q) {
      assert RequestOk(d, q) && (BothGuard(d, q, r) ==> q == r);
    }
    forall q, s | BothGuard(d', q, s) ensures q == s {
      assert BothGuard(d, q, s);
    }
    forall i | 0 <= i < |d'.executed| ensures StillThere(d', d'.executed[i]) {
      if i < |d.executed| {
        assert StillThere(d, d.executed[i]);
      }
    }
  }

  lemma RaisesKeeps(d: Desk, r: nat)
    requires DeskInv(d)
    ensures DeskInv(Next(d, Raises(r)))
  {
    var d' := Next(d, Raises(r));
    assert RequestOk(d, r);
    forall k ensures RowOk(d', k) {
      assert RowOk(d, k);
    }
    forall q ensures RequestOk(d', q) {
      assert RequestOk(d, q) && (BothGuard(d, q, r) ==> q == r);
    }
    forall q, s | BothGuard(d', q, s) ensures q == s {
      assert BothGuard(d, q, s);
    }
    forall i | 0 <= i < |d'.executed| ensures StillThere(d', d'.executed[i]) {
      assert StillThere(d, d.executed[i]);
    }
  }

  /** Time, sweeps, reads and deaths: no row is written. */
  lemma OthersKeep(d: Desk, tick: Tick)
    requires DeskInv(d) && Timely(d) && (tick.Passes? || tick.Sweeps? || tick.Reads? || tick.Dies?)
    ensures DeskInv(Next(d, tick))
  {
    var d' := Next(d, tick);
    forall k ensures RowOk(d', k) {
      assert RowOk(d, k);
    }
    forall q ensures RequestOk(d', q) {
      assert RequestOk(d, q);
      if q in d.requests && d.requests[q].Guarded? {
        assert RowOk(d, d.requests[q].key);
      }
    }
    forall q, s | BothGuard(d', q, s) ensures q == s {
      assert BothGuard(d, q, s);
    }
    forall i | 0 <= i < |d'.executed| ensures StillThere(d', d'.executed[i]) {
      assert StillThere(d, d.executed[i]);
    }
  }

  /** In timely runs every tick keeps the invariant. */
  lemma TickKeeps(d: Desk, tick: Tick)
    requires DeskInv(d) && Timely(d)
    ensures DeskInv(Next(d, tick))
  {
    match tick
    case Begins(r, key, hash) => BeginsKeeps(d, r, key, hash);
    case Finishes(r, response) => FinishesKeeps(d, r, response);
    case Raises(r) => RaisesKeeps(d, r);
    case _ => OthersKeep(d, tick);
  }

  const EmptyDesk := Desk(map[], 0, map[], [], 0)

  function Run(ticks: seq<Tick>): Desk {
    if ticks == [] then EmptyDesk else Next(Run(Init(ticks)), Last(ticks))
  }

  /** Handlers were timely at every moment of the run. */
  ghost predicate TimelyRun(ticks: seq<Tick>) {
    forall n :: 0 <= n <= |ticks| ==> Timely(Run(ticks[..n]))
  }

  lemma TimelyPrefix(ticks: seq<Tick>)
    requires TimelyRun(ticks) && ticks != []
    ensures TimelyRun(Init(ticks))
  {
    forall n | 0 <= n <= |Init(ticks)| ensures Timely(Run(Init(ticks)[..n])) {
      assert Init(ticks)[..n] == ticks[..n];
    }
  }

  lemma {:induction false} TimelyRunKeeps(ticks: seq<Tick>)
    requires TimelyRun(ticks)
    ensures DeskInv(Run(ticks)) && Timely(Run(ticks))
  {
    assert ticks[..|ticks|] == ticks;
    if ticks != [] {
      TimelyPrefix(ticks);
      TimelyRunKeeps(Init(ticks));
      TickKeeps(Run(Init(ticks)), Last(ticks));
    }
  }

  /** Until it expires a recorded response is what every later request with the
      body it answered gets, and every request with another body is refused;
      neither runs. */
  lemma RecordedIsReplayed(ticks: seq<Tick>, c: Execution, hash: nat)
    requires TimelyRun(ticks) && c in Run(ticks).executed
    requires c.expires.Some? && Run(ticks).now <= c.expires.value
    ensures var d := Run(ticks);
      && !Reservable(d.table, c.key, d.now)
      && Judge(d.table, c.key, hash) == if hash == c.hash then Replay(c.response) else KeyReused
  {
    TimelyRunKeeps(ticks);
    var d := Run(ticks);
    var i :| 0 <= i < |d.executed| && d.executed[i] == c;
    assert StillThere(d, d.executed[i]);
  }

  /** While a reservation is being worked on and its row is there, a repeat of its
      request is told so, and a different request under its key is refused. */
  lemma HeldIsInFlight(ticks: seq<Tick>, r: nat, hash: nat)
    requires TimelyRun(ticks) && r in Run(ticks).requests && Run(ticks).requests[r].Guarded?
    requires Run(ticks).requests[r].key in Run(ticks).table
    ensures var d := Run(ticks);
      && !Reservable(d.table, d.requests[r].key, d.now)
      && Judge(d.table, d.requests[r].key, hash) == if hash == d.requests[r].hash then InFlight else KeyReused
  {
    TimelyRunKeeps(ticks);
    assert RequestOk(Run(ticks), r) && RowOk(Run(ticks), Run(ticks).requests[r].key);
  }

  // ------------------------------------------------- one execution per key

  /** A handler of this key is running, with a reservation or without. */
  predicate Running(d: Desk, r: nat, key: Key) {
    r in d.requests && !d.requests[r].Reading? && d.requests[r].key == key
  }

  /** Every request of this key that was refused found the row that refused it
      when it read it. */
  ghost predicate ReadsFind(ticks: seq<Tick>, key: Key) {
    forall n :: 0 <= n < |ticks| ==> ReadFinds(Run(ticks[..n]), ticks[n], key)
  }

  predicate IsReading(request: Request, key: Key) {
    request.Reading? && request.key == key
  }

  predicate ReadFinds(d: Desk, tick: Tick, key: Key) {
    tick.Reads? && tick.request in d.requests && IsReading(d.requests[tick.request], key) ==> key in d.table
  }

  /** Nothing runs or has run for this key without a reservation. */
  ghost predicate AllGuarded(d: Desk, key: Key) {
    && (forall r :: Running(d, r, key) ==> d.requests[r].Guarded?)
    && (forall i :: 0 <= i < |d.executed| && d.executed[i].key == key ==> d.executed[i].expires.Some?)
  }

  lemma {:induction false} StaysGuarded(ticks: seq<Tick>, key: Key)
    requires TimelyRun(ticks) && ReadsFind(ticks, key)
    ensures AllGuarded(Run(ticks), key)
  {
    if ticks != [] {
      var before := Init(ticks);
      TimelyPrefix(ticks);
      forall n | 0 <= n < |before| ensures ReadFinds(Run(before[..n]), before[n], key) {
        assert before[..n] == ticks[..n];
        assert ReadFinds(Run(ticks[..n]), ticks[n], key);
      }
      StaysGuarded(before, key);
      TimelyRunKeeps(before);
      assert ticks[..|ticks| - 1] == before;
      assert ReadFinds(Run(before), Last(ticks), key);
      GuardedNext(Run(before), Last(ticks), key);
    }
  }

  lemma GuardedNext(d: Desk, tick: Tick, key: Key)
    requires DeskInv(d) && AllGuarded(d, key) && ReadFinds(d, tick, key)
    ensures AllGuarded(Next(d, tick), key)
  {
    var d' := Next(d, tick);
    forall r | Running(d', r, key) ensures d'.requests[r].Guarded? {
      assert Running(d, r, key) || d'.requests[r].Guarded?;
    }
    if tick.Finishes? && tick.request in d.requests {
      assert RequestOk(d, tick.request);
      assert Running(d, tick.request, d.requests[tick.request].key) || d.requests[tick.request].Reading?;
    }
  }

  /** In a timely run in which every refused request of a key found its row, the
      key runs one handler at a time, and runs one only once every execution of
      it before has expired. So until then it executes at most once. */
  lemma OneExecution(ticks: seq<Tick>, key: Key, r: nat, s: nat)
    requires TimelyRun(ticks) && ReadsFind(ticks, key)
    ensures var d := Run(ticks);
      && (Running(d, r, key) && Running(d, s, key) ==> r == s)
      && (Running(d, r, key) ==>
            forall i :: 0 <= i < |d.executed| && d.executed[i].key == key ==>
              d.executed[i].expires.Some? && d.now > d.executed[i].expires.value)
  {
    TimelyRunKeeps(ticks);
    StaysGuarded(ticks, key);
    var d := Run(ticks);
    assert RequestOk(d, r) && (Running(d, r, key) && Running(d, s, key) ==> BothGuard(d, r, s));
    forall i | 0 <= i < |d.executed| && Running(d, r, key) && d.executed[i].key == key
      ensures d.executed[i].expires.Some? && d.now > d.executed[i].expires.value
    {
      assert StillThere(d, d.executed[i]);
    }
  }

  /** And not otherwise: after a refused request reads, one more request for its
      key makes two run at once exactly when the row was gone at the read. */
  lemma MissedReadRunsTwo(ticks: seq<Tick>, r: nat, q: nat, hash: nat)
    requires TimelyRun(ticks) && r in Run(ticks).requests && Run(ticks).requests[r].Reading?
    requires q !in Run(ticks).requests
    ensures var key := Run(ticks).requests[r].key;
      var more := ticks + [Reads(r)] + [Begins(q, key, hash)];
      && TimelyRun(more)
      && (Running(Run(more), r, key) && Running(Run(more), q, key) <==> key !in Run(ticks).table)
  {
    var d := Run(ticks);
    var key := d.requests[r].key;
    assert ticks[..|ticks|] == ticks;
    var d1 := Next(d, Reads(r));
    RunOne(ticks, Reads(r), d1);
    RunOne(ticks + [Reads(r)], Begins(q, key, hash), Next(d1, Begins(q, key, hash)));
  }

  /** Whatever the reads find, the executions that hold a reservation are one at a
      time, each after every recorded one before it has expired. */
  lemma OneRecordedExecution(ticks: seq<Tick>, r: nat, s: nat)
    requires TimelyRun(ticks)
    ensures var d := Run(ticks);
      && (BothGuard(d, r, s) ==> r == s)
      && (r in d.requests && d.requests[r].Guarded? ==>
            forall i ::
              0 <= i < |d.executed| && d.executed[i].key == d.requests[r].key && d.executed[i].expires.Some? ==>
                d.now > d.executed[i].expires.value)
  {
    TimelyRunKeeps(ticks);
    var d := Run(ticks);
    assert RequestOk(d, r);
    forall i | 0 <= i < |d.executed| && r in d.requests && d.requests[r].Guarded?
        && d.executed[i].key == d.requests[r].key && d.executed[i].expires.Some?
      ensures d.now > d.executed[i].expires.value
    {
      assert StillThere(d, d.executed[i]);
    }
  }

  /** A completed row is not changed by anything until it expires. */
  lemma CompletedStays(d: Desk, tick: Tick, key: Key)
    requires DeskInv(d) && Timely(d) && key in d.table && d.table[key].status.Completed?
    requires d.now <= d.table[key].expires
    ensures key in Next(d, tick).table && Next(d, tick).table[key] == d.table[key]
  {
    if (tick.Finishes? || tick.Raises?) && tick.request in d.requests {
      assert RequestOk(d, tick.request);
    }
  }

  /** A request that raises frees its key at once; one whose process died frees
      it exactly when the timeout has passed, unless a sweep took the row. */
  lemma AbandonedIsReservable(d: Desk, r: nat, seconds: nat)
    requires DeskInv(d) && Timely(d) && r in d.requests && d.requests[r].Guarded?
    ensures Reservable(Next(d, Raises(r)).table, d.requests[r].key, d.now)
    ensures var dead := Next(Next(d, Dies(r)), Passes(seconds));
      Reservable(dead.table, d.requests[r].key, dead.now) <==> d.now + seconds - d.requests[r].began > 120
  {
    assert RequestOk(d, r);
  }

  /** Five ticks in which no time passes: the first request raises between the
      second's refusal and its read. */
  function Overlap(key: Key, hash: nat): seq<Tick> {
    [Begins(1, key, hash), Begins(2, key, hash), Raises(1), Reads(2), Begins(3, key, hash)]
  }

  /** One request holds the key, and another has been refused. */
  function OneHolds(key: Key, hash: nat): Desk {
    Desk(map[key := Record(0, hash, InProgress, 0, TTL)], 0,
         map[1 := Guarded(key, hash, 0, 0), 2 := Reading(key, hash)], [], 1)
  }

  lemma OneHoldsReached(key: Key, hash: nat)
    ensures TimelyRun([Begins(1, key, hash), Begins(2, key, hash)])
    ensures Run([Begins(1, key, hash), Begins(2, key, hash)]) == OneHolds(key, hash)
  {
    var t0: seq<Tick> := [];
    var d1 := Desk(map[key := Record(0, hash, InProgress, 0, TTL)], 0, map[1 := Guarded(key, hash, 0, 0)], [], 1);
    assert TimelyRun(t0);
    RunOne(t0, Begins(1, key, hash), d1);
    RunOne([Begins(1, key, hash)], Begins(2, key, hash), OneHolds(key, hash));
    assert t0 + [Begins(1, key, hash)] == [Begins(1, key, hash)];
    assert [Begins(1, key, hash)] + [Begins(2, key, hash)] == [Begins(1, key, hash), Begins(2, key, hash)];
  }

  lemma OverlapReached(key: Key, hash: nat)
    ensures TimelyRun(Overlap(key, hash))
    ensures Run(Overlap(key, hash)) ==
            Desk(map[key := Record(1, hash, InProgress, 0, TTL)], 0,
                 map[2 := Unguarded(key, hash), 3 := Guarded(key, hash, 1, 0)], [], 2)
  {
    var t2 := [Begins(1, key, hash), Begins(2, key, hash)];
    var t3 := t2 + [Raises(1)];
    var t4 := t3 + [Reads(2)];
    var d3 := Desk(map[], 0, map[2 := Reading(key, hash)], [], 1);
    var d4 := Desk(map[], 0, map[2 := Unguarded(key, hash)], [], 1);
    OneHoldsReached(key, hash);
    Freed(key, hash);
    RunOne(t2, Raises(1), d3);
    RunOne(t3, Reads(2), d4);
    RunOne(t4, Begins(3, key, hash), Next(d4, Begins(3, key, hash)));
    assert t4 + [Begins(3, key, hash)] == Overlap(key, hash);
  }

  /** The holder raises, and the refused one finds nothing. */
  lemma Freed(key: Key, hash: nat)
    ensures Next(OneHolds(key, hash), Raises(1)) == Desk(map[], 0, map[2 := Reading(key, hash)], [], 1)
    ensures Next(Desk(map[], 0, map[2 := Reading(key, hash)], [], 1), Reads(2))
         == Desk(map[], 0, map[2 := Unguarded(key, hash)], [], 1)
  {
    var d := Next(OneHolds(key, hash), Raises(1));
    assert d.requests == map[2 := Reading(key, hash)];
    assert Next(d, Reads(2)).requests == map[2 := Unguarded(key, hash)];
  }

  /** It takes no sweep and no delay: the second and a third request then run for
      the same key at the same time, and both execute. */
  lemma UnguardedBesideGuarded(key: Key, hash: nat, x: nat, y: nat)
    ensures var d := Run(Overlap(key, hash)); Running(d, 2, key) && Running(d, 3, key)
    ensures var ticks := Overlap(key, hash) + [Finishes(2, x)] + [Finishes(3, y)];
      && TimelyRun(ticks) && Run(ticks).now == 0
      && Run(ticks).executed == [Execution(key, hash, x, None), Execution(key, hash, y, Some(TTL))]
  {
    OverlapReached(key, hash);
    var t5 := Overlap(key, hash);
    var d6 := Next(Run(t5), Finishes(2, x));
    RunOne(t5, Finishes(2, x), d6);
    RunOne(t5 + [Finishes(2, x)], Finishes(3, y), Next(d6, Finishes(3, y)));
  }

  /** One more tick of a timely run. */
  lemma RunOne(ticks: seq<Tick>, tick: Tick, d: Desk)
    requires TimelyRun(ticks) && Next(Run(ticks), tick) == d && Timely(d)
    ensures Run(ticks + [tick]) == d && TimelyRun(ticks + [tick])
  {
    var more := ticks + [tick];
    assert Init(more) == ticks;
    forall n | 0 <= n <= |more| ensures Timely(Run(more[..n])) {
      if n <= |ticks| {
        assert more[..n] == ticks[..n];
      } else {
        assert more[..n] == more;
      }
    }
  }
}
