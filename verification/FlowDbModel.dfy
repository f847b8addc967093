/**
 * The flow database over values: multisets of free ids, two finite maps and
 * the log of commands that the ring to the switch accepted.
 *
 * Whether a put into the ring succeeds depends on how far the consuming thread
 * has got, so every event carries the outcome of its puts; all outcomes are
 * allowed.
 */
module FlowDbModel {
  import opened Structs
  import opened IdHeaps
  import opened ReverseIndex

  /** Heap capacity, hash table capacity, and the egress port of every ingress port (-1: none). */
  datatype Config = Config(heapSize: nat, tableSize: nat, devPortMapping: seq<int>) {
    predicate Valid() {
      && 4 * heapSize < tableSize
      && heapSize <= SIZE_MAX
      && |devPortMapping| == MAX_DEV_PORT_ID
      && forall i :: 0 <= i < |devPortMapping| ==> -1 <= devPortMapping[i] < MAX_DEV_PORT_ID
    }

    function FeatureSize(): nat {
      4 * (heapSize + 1)
    }
  }

  datatype Command =
    | DpAddFlow(tuple: FiveTuple, flowId: int, sessionId: int)
    | DpRemoveFlow(tuple: FiveTuple, flowId: int)
    | DpClearRegisters(tuple: FiveTuple, sessionId: int)

  /** One command of the packet ring, with the outcome of the puts that its handler attempts. */
  datatype Event =
    | PktAddFlow(tuple: FiveTuple, accepted: bool)
    | PktRemoveFlow(tuple: FiveTuple, accepted: bool, clearAccepted: bool)
    | PktTimeoutFlow(flowId: int, clearAccepted: bool)
    | PktBloomFilter
  {
    predicate Valid(c: Config) {
      match this
      case PktAddFlow(t, _) => t.meta.devPort < MAX_DEV_PORT_ID
      case PktRemoveFlow(t, _, _) => t.meta.devPort < MAX_DEV_PORT_ID
      case PktTimeoutFlow(id, _) => 0 <= id < c.FeatureSize()
      case PktBloomFilter => true
    }
  }

  datatype Db = Db(
    flowFree: seq<multiset<int>>,
    sessionFree: seq<multiset<int>>,
    flows: map<FlowKey, Record>,
    sessions: map<FlowKey, Record>,
    sent: seq<Command>
  ) {
    ghost predicate Shaped() {
      && |flowFree| == |sessionFree| == NUM_PIPES
      && (forall k :: k in flows ==> flows[k].meta.devPort < MAX_DEV_PORT_ID)
      && (forall k :: k in sessions ==> sessions[k].meta.devPort < MAX_DEV_PORT_ID)
    }
  }

  function Pipe(t: FiveTuple): nat {
    DevPortToPipe(t.meta.devPort)
  }

  // ---------- Heap operations on multisets ----------

  ghost function Pop(free: seq<multiset<int>>, p: nat): (r: seq<multiset<int>>)
    requires p < |free| && free[p] != multiset{}
    ensures |r| == |free|
  {
    free[p := free[p] - multiset{Least(free[p])}]
  }

  ghost function Push(free: seq<multiset<int>>, p: nat, id: int): (r: seq<multiset<int>>)
    requires p < |free|
    ensures |r| == |free|
  {
    free[p := free[p] + multiset{id}]
  }

  ghost predicate NoneLeft(free: multiset<int>) {
    free == multiset{}
  }

  // ---------- Handlers ----------

  function Put(sent: seq<Command>, cmd: Command, accepted: bool): seq<Command> {
    if accepted then sent + [cmd] else sent
  }

  /** The new flow gets past the port lookup, the id supply and the flow table. */
  ghost predicate Admitted(c: Config, db: Db, t: FiveTuple)
    requires c.Valid() && db.Shaped() && t.meta.devPort < MAX_DEV_PORT_ID
  {
    && c.devPortMapping[t.meta.devPort] != -1
    && !NoneLeft(db.flowFree[Pipe(t)])
    && |db.flows| != c.tableSize && t.h !in db.flows
  }

  /** The tuple as stored: with the distance from its ingress pipe to its egress pipe. */
  function Stored(c: Config, t: FiveTuple): FiveTuple
    requires c.Valid() && t.meta.devPort < MAX_DEV_PORT_ID && c.devPortMapping[t.meta.devPort] != -1
  {
    t.(meta := t.meta.(egressOffset := DevPortToPipe(c.devPortMapping[t.meta.devPort]) - Pipe(t)))
  }

  ghost function AddFlow(c: Config, db: Db, t: FiveTuple, accepted: bool): (db': Db)
    requires c.Valid() && db.Shaped() && t.meta.devPort < MAX_DEV_PORT_ID
    ensures db'.Shaped()
  {
    if !Admitted(c, db, t) then db
    else
      var p, t' := Pipe(t), Stored(c, t);
      var id := Least(db.flowFree[p]);
      var flows := db.flows[t.h := Record(t'.meta, id)];
      if t.h in db.sessions then
        Send(db, t', id, db.sessions[t.h].id, flows, accepted)
      else if NoneLeft(db.sessionFree[p]) then
        // no session id is left: the flow stays in the table and nothing is sent
        db.(flowFree := Pop(db.flowFree, p), flows := flows)
      else
        var sid := Least(db.sessionFree[p]);
        var sessions := if |db.sessions| == c.tableSize then db.sessions else db.sessions[t.h := Record(t'.meta, sid)];
        Send(db.(sessionFree := Pop(db.sessionFree, p), sessions := sessions), t', id, sid, flows, accepted)
  }

  /** Commits the flow if the ring takes its command; otherwise rolls it back, but not its session. */
  ghost function Send(db: Db, t: FiveTuple, id: int, sid: int, flows: map<FlowKey, Record>, accepted: bool): (db': Db)
    requires db.Shaped() && t.meta.devPort < MAX_DEV_PORT_ID && db.flowFree[Pipe(t)] != multiset{}
    requires forall k :: k in flows ==> flows[k].meta.devPort < MAX_DEV_PORT_ID
    ensures db'.Shaped()
  {
    if accepted then
      db.(flowFree := Pop(db.flowFree, Pipe(t)), flows := flows, sent := db.sent + [DpAddFlow(t, id, sid)])
    else
      db.(flowFree := Push(Pop(db.flowFree, Pipe(t)), Pipe(t), id))
  }

  /** The outcome for a key that has no session yet. */
  lemma AddWithNewSession(c: Config, db: Db, t: FiveTuple, accepted: bool)
    requires c.Valid() && db.Shaped() && t.meta.devPort < MAX_DEV_PORT_ID && Admitted(c, db, t)
    requires t.h !in db.sessions && |db.sessions| < c.tableSize
    ensures var p, t' := Pipe(t), Stored(c, t);
      var id, flows := Least(db.flowFree[p]), db.flows[t.h := Record(t'.meta, Least(db.flowFree[p]))];
      AddFlow(c, db, t, accepted) ==
        if NoneLeft(db.sessionFree[p]) then db.(flowFree := Pop(db.flowFree, p), flows := flows)
        else
          var sid := Least(db.sessionFree[p]);
          Send(db.(sessionFree := Pop(db.sessionFree, p), sessions := db.sessions[t.h := Record(t'.meta, sid)]),
               t', id, sid, flows, accepted)
  {
  }

  /** The outcome for a key whose session an earlier, dropped add has left behind. */
  lemma AddWithOldSession(c: Config, db: Db, t: FiveTuple, accepted: bool)
    requires c.Valid() && db.Shaped() && t.meta.devPort < MAX_DEV_PORT_ID && Admitted(c, db, t) && t.h in db.sessions
    ensures var t', id := Stored(c, t), Least(db.flowFree[Pipe(t)]);
      AddFlow(c, db, t, accepted) ==
        Send(db, t', id, db.sessions[t.h].id, db.flows[t.h := Record(t'.meta, id)], accepted)
  {
  }

  /** Frees the session of a removed flow and asks the switch to clear its registers. */
  ghost function CleanSession(db: Db, t: FiveTuple, clearAccepted: bool): (db': Db)
    requires db.Shaped() && t.meta.devPort < MAX_DEV_PORT_ID
    ensures db'.Shaped()
  {
    if t.h !in db.sessions then db
    else
      var sid := db.sessions[t.h].id;
      db.(sessions := db.sessions - {t.h}, sessionFree := Push(db.sessionFree, Pipe(t), sid),
          sent := Put(db.sent, DpClearRegisters(t, sid), clearAccepted))
  }

  /** Takes a stored flow out; its id returns to the heap of the pipe of the given tuple. */
  ghost function DropFlow(db: Db, t: FiveTuple, accepted: bool, clearAccepted: bool): (db': Db)
    requires db.Shaped() && t.meta.devPort < MAX_DEV_PORT_ID && t.h in db.flows
    ensures db'.Shaped()
  {
    var id := db.flows[t.h].id;
    CleanSession(
      db.(flows := db.flows - {t.h}, flowFree := Push(db.flowFree, Pipe(t), id),
          sent := Put(db.sent, DpRemoveFlow(t, id), accepted)),
      t, clearAccepted)
  }

  /** The flow that holds an id, as it is stored. */
  ghost function Holder(db: Db, id: int): (t: FiveTuple)
    requires db.Shaped() && LiveId(db.flows, id)
    ensures t.h in db.flows && db.flows[t.h] == Record(t.meta, id)
  {
    var k :| k in db.flows && db.flows[k].id == id;
    FiveTuple(k, db.flows[k].meta)
  }

  ghost function Step(c: Config, db: Db, ev: Event): (db': Db)
    requires c.Valid() && db.Shaped() && ev.Valid(c)
    ensures db'.Shaped()
  {
    match ev
    case PktAddFlow(t, accepted) => AddFlow(c, db, t, accepted)
    case PktRemoveFlow(t, accepted, clearAccepted) =>
      if t.h in db.flows then DropFlow(db, t, accepted, clearAccepted) else db
    case PktTimeoutFlow(id, clearAccepted) =>
      // the put of the removal waits until there is room
      if LiveId(db.flows, id) then DropFlow(db, Holder(db, id), true, clearAccepted) else db
    case PktBloomFilter => db
  }

  ghost predicate ValidRun(c: Config, evs: seq<Event>) {
    c.Valid() && forall i :: 0 <= i < |evs| ==> evs[i].Valid(c)
  }

  /** A step stores nothing but the tuple that it adds. */
  lemma StepStores(c: Config, db: Db, ev: Event, k: FlowKey)
    requires c.Valid() && db.Shaped() && ev.Valid(c)
    ensures k in Step(c, db, ev).flows ==> StoredBefore(c, db.flows, ev, k, Step(c, db, ev).flows[k])
    ensures k in Step(c, db, ev).sessions ==> StoredBefore(c, db.sessions, ev, k, Step(c, db, ev).sessions[k])
  {
    match ev
    case PktAddFlow(t, accepted) =>
      if Admitted(c, db, t) {
        AddInsertsAtMost(c, db, t, accepted);
      }
    case PktRemoveFlow(t, accepted, clearAccepted) =>
      if t.h in db.flows {
        DropStores(db, t, accepted, clearAccepted, k);
      }
    case PktTimeoutFlow(id, clearAccepted) =>
      if LiveId(db.flows, id) {
        DropStores(db, Holder(db, id), true, clearAccepted, k);
      }
    case PktBloomFilter =>
  }

  lemma DropStores(db: Db, t: FiveTuple, accepted: bool, clearAccepted: bool, k: FlowKey)
    requires db.Shaped() && t.meta.devPort < MAX_DEV_PORT_ID && t.h in db.flows
    ensures var db' := DropFlow(db, t, accepted, clearAccepted);
      && (k in db'.flows ==> k in db.flows && db'.flows[k] == db.flows[k])
      && (k in db'.sessions ==> k in db.sessions && db'.sessions[k] == db.sessions[k])
  {
  }

  /** At most one id is taken from pipe `p`, and it goes to a new entry for `k`. */
  ghost predicate InsertsAtMost(free: seq<multiset<int>>, free': seq<multiset<int>>,
                                m: map<FlowKey, Record>, m': map<FlowKey, Record>, p: nat, k: FlowKey, meta: Meta)
    requires p < |free|
  {
    && (free' == free || (free[p] != multiset{} && free' == Pop(free, p)))
    && (m' == m || (free[p] != multiset{} && m' == m[k := Record(meta, Least(free[p]))]))
  }

  lemma AddInsertsAtMost(c: Config, db: Db, t: FiveTuple, accepted: bool)
    requires c.Valid() && db.Shaped() && t.meta.devPort < MAX_DEV_PORT_ID && Admitted(c, db, t)
    ensures var db', p, meta := AddFlow(c, db, t, accepted), Pipe(t), Stored(c, t).meta;
      && InsertsAtMost(db.flowFree, db'.flowFree, db.flows, db'.flows, p, t.h, meta)
      && InsertsAtMost(db.sessionFree, db'.sessionFree, db.sessions, db'.sessions, p, t.h, meta)
  {
    PushPop(db.flowFree, Pipe(t));
    if t.h in db.sessions {
    } else if NoneLeft(db.sessionFree[Pipe(t)]) {
    }
  }

  ghost predicate StoredBefore(c: Config, m: map<FlowKey, Record>, ev: Event, k: FlowKey, r: Record)
    requires c.Valid() && ev.Valid(c)
  {
    || (k in m && m[k] == r)
    || (ev.PktAddFlow? && k == ev.tuple.h && c.devPortMapping[ev.tuple.meta.devPort] != -1 &&
          r.meta == Stored(c, ev.tuple).meta)
  }

  // ---------- Initial state and runs ----------

  /** The ids of pipe `p`, in the order in which they are written into the heap. */
  function InitialIds(c: Config, p: nat, n: nat): (s: seq<int>)
    ensures |s| == n
    ensures forall k :: 0 <= k < n ==> s[k] == (k + 1) * 4 + p
  {
    seq(n, k => (k + 1) * 4 + p)
  }

  ghost function Init(c: Config): (db: Db)
    ensures db.Shaped()
  {
    var free := seq(NUM_PIPES, p requires 0 <= p < NUM_PIPES => multiset(InitialIds(c, p, c.heapSize)));
    Db(free, free, map[], map[], [])
  }

  ghost function Run(c: Config, evs: seq<Event>): (db: Db)
    requires ValidRun(c, evs)
    ensures db.Shaped()
  {
    if evs == [] then Init(c) else Step(c, Run(c, evs[..|evs| - 1]), evs[|evs| - 1])
  }

  // ---------- Id conservation ----------

  predicate IsId(c: Config, x: int) {
    1 <= x / 4 <= c.heapSize
  }

  ghost predicate DistinctIds(m: map<FlowKey, Record>) {
    forall k, k' :: k in m && k' in m && k != k' ==> m[k].id != m[k'].id
  }

  function Copies(free: seq<multiset<int>>, x: int): nat
    requires |free| == NUM_PIPES
  {
    free[0][x] + free[1][x] + free[2][x] + free[3][x]
  }

  /** Every id is in exactly one place: one copy in one heap, or held by one entry of the table. */
  ghost predicate Conserved(c: Config, free: seq<multiset<int>>, m: map<FlowKey, Record>)
    requires |free| == NUM_PIPES
  {
    && DistinctIds(m)
    && forall x :: Copies(free, x) + (if LiveId(m, x) then 1 else 0) == if IsId(c, x) then 1 else 0
  }

  lemma ConservedPop(c: Config, free: seq<multiset<int>>, m: map<FlowKey, Record>, p: nat, k: FlowKey, r: Record)
    requires |free| == NUM_PIPES && p < NUM_PIPES && Conserved(c, free, m) && k !in m
    requires free[p] != multiset{} && r.id == Least(free[p])
    ensures Conserved(c, Pop(free, p), m[k := r])
    ensures IsId(c, r.id) && r.id != 0 && !LiveId(m, r.id)
  {
    var free', m' := Pop(free, p), m[k := r];
    assert r.id in free[p] && Copies(free, r.id) >= 1;
    forall x ensures Copies(free', x) == Copies(free, x) - (if x == r.id then 1 else 0) {
      CopiesUpdate(free, p, free'[p], x);
    }
    forall x ensures LiveId(m', x) <==> LiveId(m, x) || x == r.id {
      LiveAfterInsert(m, k, r, x);
    }
    forall j | j in m ensures m[j].id != r.id {
      assert LiveId(m, m[j].id);
    }
  }

  lemma CopiesUpdate(free: seq<multiset<int>>, p: nat, ids: multiset<int>, x: int)
    requires |free| == NUM_PIPES && p < NUM_PIPES
    ensures Copies(free[p := ids], x) == Copies(free, x) - free[p][x] + ids[x]
  {
  }

  lemma LiveAfterInsert(m: map<FlowKey, Record>, k: FlowKey, r: Record, x: int)
    requires k !in m
    ensures LiveId(m[k := r], x) <==> LiveId(m, x) || x == r.id
  {
    var m' := m[k := r];
    if LiveId(m, x) {
      var j :| j in m && m[j].id == x;
      assert j in m' && m'[j].id == x;
    }
    assert k in m' && m'[k].id == r.id;
  }

  lemma ConservedPush(c: Config, free: seq<multiset<int>>, m: map<FlowKey, Record>, p: nat, k: FlowKey)
    requires |free| == NUM_PIPES && p < NUM_PIPES && Conserved(c, free, m) && k in m
    ensures Conserved(c, Push(free, p, m[k].id), m - {k})
  {
    var free', m' := Push(free, p, m[k].id), m - {k};
    forall x ensures Copies(free', x) == Copies(free, x) + (if x == m[k].id then 1 else 0) {
      CopiesUpdate(free, p, free'[p], x);
    }
    forall x ensures LiveId(m', x) <==> LiveId(m, x) && x != m[k].id {
      if LiveId(m, x) && x != m[k].id {
        var j :| j in m && m[j].id == x;
        assert j in m' && m'[j].id == x;
      }
    }
  }

  lemma PushPop(free: seq<multiset<int>>, p: nat)
    requires p < |free| && free[p] != multiset{}
    ensures Push(Pop(free, p), p, Least(free[p])) == free
  {
    assert Least(free[p]) in free[p];
    assert free[p] - multiset{Least(free[p])} + multiset{Least(free[p])} == free[p];
  }

  ghost predicate AllConserved(c: Config, db: Db)
    requires db.Shaped()
  {
    Conserved(c, db.flowFree, db.flows) && Conserved(c, db.sessionFree, db.sessions)
  }

  lemma StepConserves(c: Config, db: Db, ev: Event)
    requires c.Valid() && db.Shaped() && ev.Valid(c) && AllConserved(c, db)
    ensures AllConserved(c, Step(c, db, ev))
  {
    match ev
    case PktAddFlow(t, accepted) =>
      if Admitted(c, db, t) {
        AddConserves(c, db, t, accepted);
      }
    case PktRemoveFlow(t, accepted, clearAccepted) =>
      if t.h in db.flows {
        DropConserves(c, db, t, accepted, clearAccepted);
      }
    case PktTimeoutFlow(id, clearAccepted) =>
      if LiveId(db.flows, id) {
        DropConserves(c, db, Holder(db, id), true, clearAccepted);
      }
    case PktBloomFilter =>
  }

  lemma AddConserves(c: Config, db: Db, t: FiveTuple, accepted: bool)
    requires c.Valid() && db.Shaped() && t.meta.devPort < MAX_DEV_PORT_ID
    requires AllConserved(c, db) && Admitted(c, db, t)
    ensures AllConserved(c, AddFlow(c, db, t, accepted))
  {
    var p := Pipe(t);
    ConservedPop(c, db.flowFree, db.flows, p, t.h, Record(Stored(c, t).meta, Least(db.flowFree[p])));
    PushPop(db.flowFree, p);
    if t.h !in db.sessions && db.sessionFree[p] != multiset{} {
      ConservedPop(c, db.sessionFree, db.sessions, p, t.h, Record(Stored(c, t).meta, Least(db.sessionFree[p])));
      TableHasRoom(c, db.sessionFree, db.sessions);
    }
  }

  lemma DropConserves(c: Config, db: Db, t: FiveTuple, accepted: bool, clearAccepted: bool)
    requires c.Valid() && db.Shaped() && t.meta.devPort < MAX_DEV_PORT_ID && t.h in db.flows
    requires AllConserved(c, db)
    ensures AllConserved(c, DropFlow(db, t, accepted, clearAccepted))
  {
    ConservedPush(c, db.flowFree, db.flows, Pipe(t), t.h);
    if t.h in db.sessions {
      ConservedPush(c, db.sessionFree, db.sessions, Pipe(t), t.h);
    }
  }

  // ---------- The id supply keeps the tables below full ----------

  lemma {:induction false} IdsAreDistinctKeys(m: map<FlowKey, Record>, ids: set<int>)
    requires DistinctIds(m) && (forall k :: k in m ==> m[k].id in ids)
    ensures |m| <= |ids|
    decreases |m|
  {
    if m != map[] {
      var k :| k in m;
      var m' := m - {k};
      assert m.Keys == m'.Keys + {k};
      IdsAreDistinctKeys(m', ids - {m[k].id});
    }
  }

  /** The first `n` ids of pipe `p`. */
  ghost function PipeIds(p: nat, n: nat): (ids: set<int>)
    requires p < NUM_PIPES
    ensures |ids| == n
    ensures forall x :: x in ids <==> x % 4 == p && 1 <= x / 4 <= n
  {
    if n == 0 then {} else PipeIds(p, n - 1) + {4 * n + p}
  }

  /** A table whose ids come from the heaps has a free slot. */
  lemma TableHasRoom(c: Config, free: seq<multiset<int>>, m: map<FlowKey, Record>)
    requires c.Valid() && |free| == NUM_PIPES && Conserved(c, free, m)
    ensures |m| < c.tableSize
  {
    var n := c.heapSize;
    var ids := PipeIds(0, n) + PipeIds(1, n) + PipeIds(2, n) + PipeIds(3, n);
    forall k | k in m ensures m[k].id in ids {
      assert LiveId(m, m[k].id);
      assert IsId(c, m[k].id) && m[k].id in PipeIds(m[k].id % 4, n);
    }
    IdsAreDistinctKeys(m, ids);
  }

  // ---------- Pipes ----------

  /** Every heap holds only ids of its own pipe. */
  ghost predicate PipePure(free: seq<multiset<int>>) {
    forall p, x :: 0 <= p < |free| && x in free[p] ==> x % 4 == p
  }

  /** Every entry's id belongs to the pipe on which its tuple arrived. */
  ghost predicate OnOwnPipe(m: map<FlowKey, Record>) {
    forall k :: k in m ==> m[k].id % 4 == DevPortToPipe(m[k].meta.devPort)
  }

  ghost predicate PipesKept(db: Db) {
    PipePure(db.flowFree) && PipePure(db.sessionFree) && OnOwnPipe(db.flows) && OnOwnPipe(db.sessions)
  }

  /** A removal names the pipe of the stored flow and of its session. */
  ghost predicate SamePipe(db: Db, t: FiveTuple)
    requires t.h in db.flows
  {
    db.flows[t.h].id % 4 == Pipe(t) && (t.h in db.sessions ==> db.sessions[t.h].id % 4 == Pipe(t))
  }

  ghost predicate PipeConsistent(c: Config, db: Db, ev: Event)
    requires db.Shaped()
  {
    match ev
    case PktAddFlow(_, _) => true
    case PktRemoveFlow(t, _, _) => t.h in db.flows ==> SamePipe(db, t)
    case PktTimeoutFlow(id, _) => LiveId(db.flows, id) ==> SamePipe(db, Holder(db, id))
    case PktBloomFilter => true
  }

  /** Heaps stay on their own pipes exactly when removals arrive on the pipe of their adds. */
  lemma PipesKeptIff(c: Config, db: Db, ev: Event)
    requires c.Valid() && db.Shaped() && ev.Valid(c) && AllConserved(c, db) && PipesKept(db)
    ensures PipesKept(Step(c, db, ev)) <==> PipeConsistent(c, db, ev)
  {
    match ev
    case PktAddFlow(t, accepted) =>
      if Admitted(c, db, t) {
        AddKeepsPipes(c, db, t, accepted);
      }
    case PktRemoveFlow(t, accepted, clearAccepted) =>
      if t.h in db.flows {
        DropPipesIff(db, t, accepted, clearAccepted);
      }
    case PktTimeoutFlow(id, clearAccepted) =>
      if LiveId(db.flows, id) {
        DropPipesIff(db, Holder(db, id), true, clearAccepted);
      }
    case PktBloomFilter =>
  }

  lemma AddKeepsPipes(c: Config, db: Db, t: FiveTuple, accepted: bool)
    requires c.Valid() && db.Shaped() && t.meta.devPort < MAX_DEV_PORT_ID && Admitted(c, db, t)
    requires AllConserved(c, db) && PipesKept(db)
    ensures PipesKept(AddFlow(c, db, t, accepted))
  {
    var db', p, meta := AddFlow(c, db, t, accepted), Pipe(t), Stored(c, t).meta;
    AddInsertsAtMost(c, db, t, accepted);
    InsertKeepsPipes(db.flowFree, db'.flowFree, db.flows, db'.flows, p, t.h, meta);
    InsertKeepsPipes(db.sessionFree, db'.sessionFree, db.sessions, db'.sessions, p, t.h, meta);
  }

  lemma InsertKeepsPipes(free: seq<multiset<int>>, free': seq<multiset<int>>,
                         m: map<FlowKey, Record>, m': map<FlowKey, Record>, p: nat, k: FlowKey, meta: Meta)
    requires p < |free| && PipePure(free) && OnOwnPipe(m) && DevPortToPipe(meta.devPort) == p
    requires InsertsAtMost(free, free', m, m', p, k, meta)
    ensures PipePure(free') && OnOwnPipe(m')
  {
    if free[p] != multiset{} {
      PurePop(free, p);
    }
  }

  lemma PurePop(free: seq<multiset<int>>, p: nat)
    requires p < |free| && free[p] != multiset{} && PipePure(free)
    ensures PipePure(Pop(free, p)) && Least(free[p]) % 4 == p
  {
    var free' := Pop(free, p);
    assert Least(free[p]) in free[p];
    forall q, x | 0 <= q < |free'| && x in free'[q] ensures x % 4 == q {
      assert x in free[q];
    }
  }

  lemma DropPipesIff(db: Db, t: FiveTuple, accepted: bool, clearAccepted: bool)
    requires db.Shaped() && t.meta.devPort < MAX_DEV_PORT_ID && t.h in db.flows && PipesKept(db)
    ensures PipesKept(DropFlow(db, t, accepted, clearAccepted)) <==> SamePipe(db, t)
  {
    var db', p := DropFlow(db, t, accepted, clearAccepted), Pipe(t);
    assert db.flows[t.h].id in db'.flowFree[p];
    if t.h in db.sessions {
      assert db.sessions[t.h].id in db'.sessionFree[p];
    }
  }

  // ---------- Room in the heaps ----------

  /** No heap holds more ids than its array has room for. */
  ghost predicate HeapsFit(c: Config, db: Db) {
    BankFits(db.flowFree, c.heapSize) && BankFits(db.sessionFree, c.heapSize)
  }

  ghost predicate BankFits(free: seq<multiset<int>>, n: nat) {
    forall p :: 0 <= p < |free| ==> |free[p]| <= n
  }

  lemma PushFitsIff(free: seq<multiset<int>>, p: nat, id: int, n: nat)
    requires p < |free| && BankFits(free, n)
    ensures BankFits(Push(free, p, id), n) <==> |free[p]| < n
  {
    assert |Push(free, p, id)[p]| == |free[p]| + 1;
  }

  lemma PopFits(free: seq<multiset<int>>, p: nat, n: nat)
    requires p < |free| && free[p] != multiset{} && BankFits(free, n)
    ensures BankFits(Pop(free, p), n) && |Pop(free, p)[p]| < n
  {
    assert |Pop(free, p)[p]| == |free[p]| - 1;
  }

  /** Removing a stored flow by this tuple pushes an id past the end of a heap array. */
  ghost predicate RemovalOverflows(c: Config, db: Db, t: FiveTuple)
    requires db.Shaped() && t.meta.devPort < MAX_DEV_PORT_ID
  {
    && t.h in db.flows
    && (|| |db.flowFree[Pipe(t)]| >= c.heapSize
        || (t.h in db.sessions && |db.sessionFree[Pipe(t)]| >= c.heapSize))
  }

  ghost predicate Overflows(c: Config, db: Db, ev: Event)
    requires db.Shaped() && ev.Valid(c)
  {
    match ev
    case PktAddFlow(_, _) => false
    case PktRemoveFlow(t, _, _) => RemovalOverflows(c, db, t)
    case PktTimeoutFlow(id, _) => LiveId(db.flows, id) && RemovalOverflows(c, db, Holder(db, id))
    case PktBloomFilter => false
  }

  /** The heaps stay within their arrays exactly when the event does not remove a flow into a full heap. */
  lemma HeapsFitIff(c: Config, db: Db, ev: Event)
    requires c.Valid() && db.Shaped() && ev.Valid(c) && HeapsFit(c, db)
    ensures HeapsFit(c, Step(c, db, ev)) <==> !Overflows(c, db, ev)
  {
    match ev
    case PktAddFlow(t, accepted) =>
      if Admitted(c, db, t) {
        AddFits(c, db, t, accepted);
      }
    case PktRemoveFlow(t, accepted, clearAccepted) =>
      if t.h in db.flows {
        DropFitsIff(c, db, t, accepted, clearAccepted);
      }
    case PktTimeoutFlow(id, clearAccepted) =>
      if LiveId(db.flows, id) {
        DropFitsIff(c, db, Holder(db, id), true, clearAccepted);
      }
    case PktBloomFilter =>
  }

  lemma AddFits(c: Config, db: Db, t: FiveTuple, accepted: bool)
    requires c.Valid() && db.Shaped() && t.meta.devPort < MAX_DEV_PORT_ID && Admitted(c, db, t) && HeapsFit(c, db)
    ensures HeapsFit(c, AddFlow(c, db, t, accepted))
  {
    var p := Pipe(t);
    AddInsertsAtMost(c, db, t, accepted);
    PopFits(db.flowFree, p, c.heapSize);
    if db.sessionFree[p] != multiset{} {
      PopFits(db.sessionFree, p, c.heapSize);
    }
  }

  lemma DropFitsIff(c: Config, db: Db, t: FiveTuple, accepted: bool, clearAccepted: bool)
    requires db.Shaped() && t.meta.devPort < MAX_DEV_PORT_ID && t.h in db.flows && HeapsFit(c, db)
    ensures HeapsFit(c, DropFlow(db, t, accepted, clearAccepted)) <==> !RemovalOverflows(c, db, t)
  {
    PushFitsIff(db.flowFree, Pipe(t), db.flows[t.h].id, c.heapSize);
    if t.h in db.sessions {
      PushFitsIff(db.sessionFree, Pipe(t), db.sessions[t.h].id, c.heapSize);
    }
  }

  /** The add stores a new session. */
  ghost predicate OpensSession(c: Config, db: Db, t: FiveTuple)
    requires c.Valid() && db.Shaped() && t.meta.devPort < MAX_DEV_PORT_ID
  {
    Admitted(c, db, t) && t.h !in db.sessions && !NoneLeft(db.sessionFree[Pipe(t)])
  }

  /** The egress register of the session that the add stores. */
  ghost function NewRegister(c: Config, db: Db, t: FiveTuple): int
    requires c.Valid() && db.Shaped() && t.meta.devPort < MAX_DEV_PORT_ID && OpensSession(c, db, t)
  {
    Least(db.sessionFree[Pipe(t)]) + Stored(c, t).meta.egressOffset
  }

  /** The handler of the event writes to no array outside its bounds: not to a heap, not to the egress index. */
  ghost predicate Safe(c: Config, db: Db, ev: Event)
    requires c.Valid() && db.Shaped() && ev.Valid(c)
  {
    && !Overflows(c, db, ev)
    && (ev.PktAddFlow? && OpensSession(c, db, ev.tuple) ==> 0 <= NewRegister(c, db, ev.tuple) < c.FeatureSize())
  }

  /** While heaps are pure, a push into the heap of a live id's pipe fits. */
  lemma PushFits(c: Config, free: seq<multiset<int>>, m: map<FlowKey, Record>, k: FlowKey)
    requires |free| == NUM_PIPES && Conserved(c, free, m) && PipePure(free) && k in m
    ensures |free[m[k].id % 4]| < c.heapSize
  {
    var p, id := m[k].id % 4, m[k].id;
    assert LiveId(m, id) && IsId(c, id);
    var others := PipeIds(p, c.heapSize) - {id};
    forall x ensures free[p][x] <= multiset(others)[x] {
      assert Copies(free, x) >= free[p][x];
      if free[p][x] > 0 {
        assert x in free[p] && x in others;
      }
    }
    SubMultiset(free[p], multiset(others));
  }

  lemma SubMultiset(a: multiset<int>, b: multiset<int>)
    requires a <= b
    ensures |a| <= |b|
  {
    assert b == a + (b - a);
  }
}
