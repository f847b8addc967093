/** What holds in every reachable state of the flow database, over all runs. */
module FlowDbRuns {
  import opened Structs
  import opened ReverseIndex
  import opened IdHeaps
  import opened FlowDbModel

  // ---------- Conservation over runs ----------

  lemma {:induction false} InitialCount(c: Config, p: nat, n: nat, x: int)
    requires p < NUM_PIPES
    ensures multiset(InitialIds(c, p, n))[x] == if x % 4 == p && 1 <= x / 4 <= n then 1 else 0
  {
    var s := InitialIds(c, p, n);
    if n == 0 {
      assert s == [];
    } else {
      InitialCount(c, p, n - 1, x);
      assert s == InitialIds(c, p, n - 1) + [n * 4 + p];
    }
  }

  lemma InitConserved(c: Config)
    ensures AllConserved(c, Init(c)) && PipesKept(Init(c))
  {
    var free := Init(c).flowFree;
    forall x ensures Copies(free, x) == if IsId(c, x) then 1 else 0 {
      forall p | 0 <= p < NUM_PIPES ensures free[p][x] == if x % 4 == p && 1 <= x / 4 <= c.heapSize then 1 else 0 {
        InitialCount(c, p, c.heapSize, x);
      }
    }
    forall p, x | 0 <= p < |free| && x in free[p] ensures x % 4 == p {
      InitialCount(c, p, c.heapSize, x);
    }
  }

  /**
   * No id is ever lost or issued twice, whatever is dropped, duplicated or
   * removed on a foreign pipe; and both hash tables always have a free slot,
   * so every probe ends.  The heaps of the model are unbounded: the program
   * lives up to it as long as no removal meets a full heap, and then the
   * heaps fit their arrays.
   */
  lemma {:induction false} IdsConserved(c: Config, evs: seq<Event>)
    requires ValidRun(c, evs)
    ensures AllConserved(c, Run(c, evs))
    ensures |Run(c, evs).flows| < c.tableSize && |Run(c, evs).sessions| < c.tableSize
    ensures NoOverflow(c, evs) ==> HeapsFit(c, Run(c, evs))
  {
    AlwaysFitsIff(c, evs);
    if evs == [] {
      InitConserved(c);
    } else {
      IdsConserved(c, evs[..|evs| - 1]);
      StepConserves(c, Run(c, evs[..|evs| - 1]), evs[|evs| - 1]);
    }
    TableHasRoom(c, Run(c, evs).flowFree, Run(c, evs).flows);
    TableHasRoom(c, Run(c, evs).sessionFree, Run(c, evs).sessions);
  }

  /** Every tuple arrives on the pipe that `route` names for its key. */
  ghost predicate Routed(evs: seq<Event>, route: FlowKey -> nat) {
    forall i :: 0 <= i < |evs| ==> EventRouted(evs[i], route)
  }

  ghost predicate EventRouted(ev: Event, route: FlowKey -> nat) {
    match ev
    case PktAddFlow(t, _) => Pipe(t) == route(t.h)
    case PktRemoveFlow(t, _, _) => Pipe(t) == route(t.h)
    case _ => true
  }

  ghost predicate TableRouted(m: map<FlowKey, Record>, route: FlowKey -> nat) {
    forall k :: k in m ==> DevPortToPipe(m[k].meta.devPort) == route(k)
  }

  /** If every five-tuple keeps to one pipe, each heap keeps to its own ids and a push never overflows. */
  lemma {:induction false} PipesConserved(c: Config, evs: seq<Event>, route: FlowKey -> nat)
    requires ValidRun(c, evs) && Routed(evs, route)
    ensures PipesKept(Run(c, evs))
    ensures TableRouted(Run(c, evs).flows, route) && TableRouted(Run(c, evs).sessions, route)
    ensures forall k :: k in Run(c, evs).flows ==> |Run(c, evs).flowFree[Run(c, evs).flows[k].id % 4]| < c.heapSize
    ensures forall k :: k in Run(c, evs).sessions ==>
      |Run(c, evs).sessionFree[Run(c, evs).sessions[k].id % 4]| < c.heapSize
  {
    IdsConserved(c, evs);
    if evs == [] {
      InitConserved(c);
    } else {
      var db, ev := Run(c, evs[..|evs| - 1]), evs[|evs| - 1];
      PipesConserved(c, evs[..|evs| - 1], route);
      IdsConserved(c, evs[..|evs| - 1]);
      assert EventRouted(ev, route);
      RoutedIsConsistent(c, db, ev, route);
      PipesKeptIff(c, db, ev);
      StepRouted(c, db, ev, route);
    }
    var db := Run(c, evs);
    forall k | k in db.flows ensures |db.flowFree[db.flows[k].id % 4]| < c.heapSize {
      PushFits(c, db.flowFree, db.flows, k);
    }
    forall k | k in db.sessions ensures |db.sessionFree[db.sessions[k].id % 4]| < c.heapSize {
      PushFits(c, db.sessionFree, db.sessions, k);
    }
  }

  lemma PartitionAt(c: Config, free: seq<multiset<int>>, m: map<FlowKey, Record>, p: nat, x: int)
    requires |free| == NUM_PIPES && p < NUM_PIPES && Conserved(c, free, m) && PipePure(free)
    ensures free[p][x] + (if x % 4 == p && LiveId(m, x) then 1 else 0) == if x % 4 == p && IsId(c, x) then 1 else 0
  {
    assert forall q :: 0 <= q < NUM_PIPES && q != x % 4 ==> free[q][x] == 0;
  }

  /** The free ids of a pipe and the live ids with its remainder partition the ids of the pipe. */
  lemma PipePartition(c: Config, evs: seq<Event>, route: FlowKey -> nat, p: nat, x: int)
    requires ValidRun(c, evs) && Routed(evs, route) && p < NUM_PIPES
    ensures var db := Run(c, evs);
      && db.flowFree[p][x] + (if x % 4 == p && LiveId(db.flows, x) then 1 else 0)
      == (if x % 4 == p && 1 <= x / 4 <= c.heapSize then 1 else 0)
      == db.sessionFree[p][x] + (if x % 4 == p && LiveId(db.sessions, x) then 1 else 0)
  {
    var db := Run(c, evs);
    IdsConserved(c, evs);
    PipesConserved(c, evs, route);
    PartitionAt(c, db.flowFree, db.flows, p, x);
    PartitionAt(c, db.sessionFree, db.sessions, p, x);
  }

  lemma RoutedIsConsistent(c: Config, db: Db, ev: Event, route: FlowKey -> nat)
    requires db.Shaped() && PipesKept(db) && EventRouted(ev, route)
    requires TableRouted(db.flows, route) && TableRouted(db.sessions, route)
    ensures PipeConsistent(c, db, ev)
  {
  }

  lemma StepRouted(c: Config, db: Db, ev: Event, route: FlowKey -> nat)
    requires c.Valid() && db.Shaped() && ev.Valid(c) && EventRouted(ev, route)
    requires TableRouted(db.flows, route) && TableRouted(db.sessions, route)
    ensures TableRouted(Step(c, db, ev).flows, route) && TableRouted(Step(c, db, ev).sessions, route)
  {
    var db' := Step(c, db, ev);
    forall k | k in db'.flows ensures DevPortToPipe(db'.flows[k].meta.devPort) == route(k) {
      StepStores(c, db, ev, k);
    }
    forall k | k in db'.sessions ensures DevPortToPipe(db'.sessions[k].meta.devPort) == route(k) {
      StepStores(c, db, ev, k);
    }
  }

  // ---------- What adds and removals do ----------

  /** The record holds the least free id, and the tuple with the distance to its egress pipe. */
  ghost predicate StoredUnder(c: Config, free: multiset<int>, t: FiveTuple, r: Record)
    requires c.Valid() && t.meta.devPort < MAX_DEV_PORT_ID
  {
    && r.id in free && (forall x :: x in free ==> r.id <= x)
    && r.meta.ingressTs == t.meta.ingressTs && r.meta.devPort == t.meta.devPort
    && r.meta.egressOffset == c.devPortMapping[t.meta.devPort] / 128 - t.meta.devPort / 128
  }

  /** The table stores the tuple under the least free id if `stores` says so, and otherwise stays as it was. */
  ghost predicate StoresIff(c: Config, free: multiset<int>, m: map<FlowKey, Record>, m': map<FlowKey, Record>,
                            t: FiveTuple, stores: bool)
    requires c.Valid() && t.meta.devPort < MAX_DEV_PORT_ID
  {
    if stores then t.h in m' && m' == m[t.h := m'[t.h]] && StoredUnder(c, free, t, m'[t.h]) else m' == m
  }

  /**
   * A new flow with a mapped port and a free id gets a session if it has none and
   * an id is left; with a session it is stored if the ring takes its command, and
   * without one it is stored and nothing is sent.
   */
  ghost predicate Added(c: Config, db: Db, t: FiveTuple, accepted: bool, db': Db)
    requires c.Valid() && db.Shaped() && t.meta.devPort < MAX_DEV_PORT_ID
  {
    var p := t.meta.devPort / 128;
    var goes := t.h !in db.flows && c.devPortMapping[t.meta.devPort] != -1 && |db.flowFree[p]| > 0;
    var opens := goes && t.h !in db.sessions && |db.sessionFree[p]| > 0;
    var stores := goes && (accepted || (t.h !in db.sessions && !opens));
    && StoresIff(c, db.flowFree[p], db.flows, db'.flows, t, stores)
    && StoresIff(c, db.sessionFree[p], db.sessions, db'.sessions, t, opens)
    && (!stores ==> db'.flowFree == db.flowFree) && (!opens ==> db'.sessionFree == db.sessionFree)
    && db'.sent == db.sent +
         if stores && t.h in db'.sessions then
           [DpAddFlow(FiveTuple(t.h, db'.flows[t.h].meta), db'.flows[t.h].id, db'.sessions[t.h].id)]
         else []
  }

  lemma AddStoresIff(c: Config, db: Db, t: FiveTuple, accepted: bool)
    requires c.Valid() && db.Shaped() && t.meta.devPort < MAX_DEV_PORT_ID && AllConserved(c, db)
    ensures Added(c, db, t, accepted, Step(c, db, PktAddFlow(t, accepted)))
  {
    TableHasRoom(c, db.flowFree, db.flows);
    TableHasRoom(c, db.sessionFree, db.sessions);
    if Admitted(c, db, t) {
      AddAdmitted(c, db, t, accepted);
    }
  }

  lemma AddAdmitted(c: Config, db: Db, t: FiveTuple, accepted: bool)
    requires c.Valid() && db.Shaped() && t.meta.devPort < MAX_DEV_PORT_ID && Admitted(c, db, t)
    requires |db.sessions| < c.tableSize
    ensures Added(c, db, t, accepted, AddFlow(c, db, t, accepted))
  {
    PushPop(db.flowFree, Pipe(t));
    if t.h in db.sessions {
      AddWithOldSession(c, db, t, accepted);
    } else {
      AddWithNewSession(c, db, t, accepted);
    }
  }

  /** The flow and its session are gone, their ids are back in the named pipe, and what the ring takes is sent. */
  ghost predicate TakenOut(db: Db, t: FiveTuple, accepted: bool, clearAccepted: bool, db': Db)
    requires db.Shaped() && t.h in db.flows && db'.Shaped()
  {
    var id, p, cleared := db.flows[t.h].id, t.meta.devPort / 128, t.h in db.sessions;
    && db'.flows == db.flows - {t.h} && db'.sessions == db.sessions - {t.h}
    && (forall q :: 0 <= q < NUM_PIPES ==>
          && db'.flowFree[q] == db.flowFree[q] + (if q == p then multiset{id} else multiset{})
          && db'.sessionFree[q] ==
               db.sessionFree[q] + if cleared && q == p then multiset{db.sessions[t.h].id} else multiset{})
    && db'.sent == db.sent + (if accepted then [DpRemoveFlow(t, id)] else [])
         + if cleared && clearAccepted then [DpClearRegisters(t, db.sessions[t.h].id)] else []
  }

  lemma RemovalTakesOut(c: Config, db: Db, t: FiveTuple, accepted: bool, clearAccepted: bool)
    requires c.Valid() && db.Shaped() && t.meta.devPort < MAX_DEV_PORT_ID
    ensures var db' := Step(c, db, PktRemoveFlow(t, accepted, clearAccepted));
      if t.h in db.flows then TakenOut(db, t, accepted, clearAccepted, db') else db' == db
  {
    if t.h in db.flows {
      DropTakesOut(db, t, accepted, clearAccepted);
    }
  }

  lemma DropTakesOut(db: Db, t: FiveTuple, accepted: bool, clearAccepted: bool)
    requires db.Shaped() && t.meta.devPort < MAX_DEV_PORT_ID && t.h in db.flows
    ensures TakenOut(db, t, accepted, clearAccepted, DropFlow(db, t, accepted, clearAccepted))
  {
    var sent := Put(db.sent, DpRemoveFlow(t, db.flows[t.h].id), accepted);
    assert sent == db.sent + if accepted then [DpRemoveFlow(t, db.flows[t.h].id)] else [];
  }

  /** A timeout is a removal of the flow that holds the id, whose command is sent whatever the ring says. */
  lemma TimeoutIsRemoval(c: Config, db: Db, k: FlowKey, clearAccepted: bool)
    requires c.Valid() && db.Shaped() && DistinctIds(db.flows) && k in db.flows
    requires PktTimeoutFlow(db.flows[k].id, clearAccepted).Valid(c)
    ensures Step(c, db, PktTimeoutFlow(db.flows[k].id, clearAccepted)) ==
      Step(c, db, PktRemoveFlow(FiveTuple(k, db.flows[k].meta), true, clearAccepted))
  {
    assert LiveId(db.flows, db.flows[k].id) && Holder(db, db.flows[k].id).h == k;
  }

  /** The ids are exactly the slots of the arrays that sessions index, from the first session's on. */
  lemma IdsAreSlots(c: Config, evs: seq<Event>, x: int)
    requires ValidRun(c, evs)
    ensures var db := Run(c, evs);
      && (Copies(db.flowFree, x) + (if LiveId(db.flows, x) then 1 else 0) == 1 <==>
            MIN_SESSION_ID <= x < c.FeatureSize())
      && (Copies(db.sessionFree, x) + (if LiveId(db.sessions, x) then 1 else 0) == 1 <==>
            MIN_SESSION_ID <= x < c.FeatureSize())
  {
    IdsConserved(c, evs);
  }

  // ---------- Array bounds over runs ----------

  ghost predicate NoOverflow(c: Config, evs: seq<Event>)
    requires ValidRun(c, evs)
  {
    evs == [] || (NoOverflow(c, evs[..|evs| - 1]) && !Overflows(c, Run(c, evs[..|evs| - 1]), evs[|evs| - 1]))
  }

  /** In every state of the run the heaps fit their arrays. */
  ghost predicate AlwaysFits(c: Config, evs: seq<Event>)
    requires ValidRun(c, evs)
  {
    HeapsFit(c, Run(c, evs)) && (evs == [] || AlwaysFits(c, evs[..|evs| - 1]))
  }

  lemma InitFits(c: Config)
    ensures HeapsFit(c, Init(c))
  {
    forall p | 0 <= p < NUM_PIPES ensures |Init(c).flowFree[p]| <= c.heapSize {
      assert |multiset(InitialIds(c, p, c.heapSize))| == |InitialIds(c, p, c.heapSize)|;
    }
  }

  /** A run keeps the heaps within their arrays exactly when no removal meets a full heap. */
  lemma {:induction false} AlwaysFitsIff(c: Config, evs: seq<Event>)
    requires ValidRun(c, evs)
    ensures AlwaysFits(c, evs) <==> NoOverflow(c, evs)
  {
    if evs == [] {
      InitFits(c);
    } else {
      var before, ev := evs[..|evs| - 1], evs[|evs| - 1];
      AlwaysFitsIff(c, before);
      if AlwaysFits(c, before) {
        HeapsFitIff(c, Run(c, before), ev);
      }
    }
  }

  /**
   * Every handler of the run stays within the bounds of the flow database's
   * arrays.  What the data plane thread writes is the matter of `ClearSafeRun`.
   */
  ghost predicate SafeRun(c: Config, evs: seq<Event>)
    requires ValidRun(c, evs)
  {
    evs == [] || (SafeRun(c, evs[..|evs| - 1]) && Safe(c, Run(c, evs[..|evs| - 1]), evs[|evs| - 1]))
  }

  lemma {:induction false} SafePrefix(c: Config, evs: seq<Event>, i: nat)
    requires ValidRun(c, evs) && SafeRun(c, evs) && i < |evs|
    ensures SafeRun(c, evs[..i]) && Safe(c, Run(c, evs[..i]), evs[i])
  {
    var before := evs[..|evs| - 1];
    if i < |before| {
      SafePrefix(c, before, i);
      assert before[..i] == evs[..i];
    }
  }

  /** Where pipes are kept, an event that is consistent with them is safe. */
  lemma ConsistentIsSafe(c: Config, db: Db, ev: Event)
    requires c.Valid() && db.Shaped() && ev.Valid(c) && AllConserved(c, db) && PipesKept(db)
    requires PipeConsistent(c, db, ev)
    ensures Safe(c, db, ev)
  {
    match ev
    case PktAddFlow(t, _) =>
      if OpensSession(c, db, t) {
        NewRegisterInRange(c, db, t);
      }
    case PktRemoveFlow(t, _, _) =>
      if t.h in db.flows {
        OwnPipeHasRoom(c, db, t);
      }
    case PktTimeoutFlow(id, _) =>
      if LiveId(db.flows, id) {
        OwnPipeHasRoom(c, db, Holder(db, id));
      }
    case PktBloomFilter =>
  }

  lemma NewRegisterInRange(c: Config, db: Db, t: FiveTuple)
    requires c.Valid() && db.Shaped() && t.meta.devPort < MAX_DEV_PORT_ID && OpensSession(c, db, t)
    requires AllConserved(c, db) && PipesKept(db)
    ensures 0 <= NewRegister(c, db, t) < c.FeatureSize()
  {
    var p := Pipe(t);
    PurePop(db.sessionFree, p);
    ConservedPop(c, db.sessionFree, db.sessions, p, t.h, Record(t.meta, Least(db.sessionFree[p])));
  }

  lemma OwnPipeHasRoom(c: Config, db: Db, t: FiveTuple)
    requires db.Shaped() && t.meta.devPort < MAX_DEV_PORT_ID && t.h in db.flows && SamePipe(db, t)
    requires AllConserved(c, db) && PipesKept(db)
    ensures !RemovalOverflows(c, db, t)
  {
    PushFits(c, db.flowFree, db.flows, t.h);
    if t.h in db.sessions {
      PushFits(c, db.sessionFree, db.sessions, t.h);
    }
  }

  /** Runs in which five-tuples keep to one pipe never leave the bounds of a heap or of the egress index. */
  lemma {:induction false} RoutedIsSafe(c: Config, evs: seq<Event>, route: FlowKey -> nat)
    requires ValidRun(c, evs) && Routed(evs, route)
    ensures SafeRun(c, evs)
  {
    if evs != [] {
      var before, ev := evs[..|evs| - 1], evs[|evs| - 1];
      RoutedIsSafe(c, before, route);
      PipesConserved(c, before, route);
      IdsConserved(c, before);
      assert EventRouted(ev, route);
      RoutedIsConsistent(c, Run(c, before), ev, route);
      ConsistentIsSafe(c, Run(c, before), ev);
    }
  }

  // ---------- Lockstep of flow ids and session ids ----------

  ghost predicate Lockstep(db: Db) {
    db.flowFree == db.sessionFree && db.flows == db.sessions
  }

  /** The handler gets as far as the ring and the ring refuses the command. */
  ghost predicate DroppedAdd(c: Config, db: Db, ev: Event)
    requires c.Valid() && db.Shaped() && ev.Valid(c)
  {
    ev.PktAddFlow? && !ev.accepted && Admitted(c, db, ev.tuple)
  }

  /** The two id spaces stay in lockstep exactly when no add command is dropped. */
  lemma LockstepIff(c: Config, db: Db, ev: Event)
    requires c.Valid() && db.Shaped() && ev.Valid(c) && AllConserved(c, db) && Lockstep(db)
    ensures Lockstep(Step(c, db, ev)) <==> !DroppedAdd(c, db, ev)
  {
    TableHasRoom(c, db.flowFree, db.flows);
    match ev
    case PktAddFlow(t, accepted) =>
      if Admitted(c, db, t) && !accepted {
        assert t.h in AddFlow(c, db, t, accepted).sessions && t.h !in AddFlow(c, db, t, accepted).flows;
      }
    case _ =>
  }

  ghost predicate NoDroppedAdd(c: Config, evs: seq<Event>)
    requires ValidRun(c, evs)
  {
    evs == [] || (NoDroppedAdd(c, evs[..|evs| - 1]) && !DroppedAdd(c, Run(c, evs[..|evs| - 1]), evs[|evs| - 1]))
  }

  /** Without dropped adds, every flow's session id is its flow id, in every reachable state. */
  lemma {:induction false} LockstepRuns(c: Config, evs: seq<Event>)
    requires ValidRun(c, evs) && NoDroppedAdd(c, evs)
    ensures Lockstep(Run(c, evs))
  {
    if evs != [] {
      LockstepRuns(c, evs[..|evs| - 1]);
      IdsConserved(c, evs[..|evs| - 1]);
      LockstepIff(c, Run(c, evs[..|evs| - 1]), evs[|evs| - 1]);
    }
  }

  /** In lockstep, session ids have not run out while flow ids have not. */
  lemma SessionIdsSuffice(c: Config, db: Db, t: FiveTuple)
    requires c.Valid() && db.Shaped() && t.meta.devPort < MAX_DEV_PORT_ID
    requires Lockstep(db) && Admitted(c, db, t)
    ensures t.h !in db.sessions && !NoneLeft(db.sessionFree[Pipe(t)])
  {
  }

  /** The step takes out the flow and the session of `k` and nothing else. */
  ghost predicate RemovesExactly(db: Db, db': Db, k: FlowKey) {
    k in db.flows && k in db.sessions && db'.flows == db.flows - {k} && db'.sessions == db.sessions - {k}
  }

  /** Timing out a session's id removes that session and its flow exactly when the flow holds the same id. */
  lemma TimeoutRemovesOwnIff(c: Config, db: Db, k: FlowKey, clearAccepted: bool)
    requires c.Valid() && db.Shaped() && AllConserved(c, db) && k in db.sessions
    requires PktTimeoutFlow(db.sessions[k].id, clearAccepted).Valid(c)
    ensures RemovesExactly(db, Step(c, db, PktTimeoutFlow(db.sessions[k].id, clearAccepted)), k) <==>
      k in db.flows && db.flows[k].id == db.sessions[k].id
  {
    var id := db.sessions[k].id;
    if k in db.flows && db.flows[k].id == id {
      assert LiveId(db.flows, id) && Holder(db, id).h == k;
    } else if k in db.flows {
      assert k in Step(c, db, PktTimeoutFlow(id, clearAccepted)).flows;
    }
  }

  /** In lockstep, timing out a session's id removes that very flow together with its session. */
  lemma TimeoutRemovesOwnFlow(c: Config, db: Db, k: FlowKey, clearAccepted: bool)
    requires c.Valid() && db.Shaped() && AllConserved(c, db) && Lockstep(db) && k in db.sessions
    requires PktTimeoutFlow(db.sessions[k].id, clearAccepted).Valid(c)
    ensures var db' := Step(c, db, PktTimeoutFlow(db.sessions[k].id, clearAccepted));
      && RemovesExactly(db, db', k)
      && DpRemoveFlow(FiveTuple(k, db.flows[k].meta), db.sessions[k].id) in db'.sent
  {
    var id := db.sessions[k].id;
    TimeoutRemovesOwnIff(c, db, k, clearAccepted);
    assert LiveId(db.flows, id) && Holder(db, id).h == k;
    var cmd := DpRemoveFlow(FiveTuple(k, db.flows[k].meta), id);
    assert (db.sent + [cmd])[|db.sent|] == cmd;
  }

  /** What a timeout removes depends on who holds the id when it is handled. */
  lemma TimeoutRemovesIff(c: Config, db: Db, id: int, k: FlowKey, clearAccepted: bool)
    requires c.Valid() && db.Shaped() && AllConserved(c, db) && PktTimeoutFlow(id, clearAccepted).Valid(c)
    ensures RemovesExactly(db, Step(c, db, PktTimeoutFlow(id, clearAccepted)), k) <==>
      k in db.sessions && LiveId(db.flows, id) && Holder(db, id).h == k
  {
    var db' := Step(c, db, PktTimeoutFlow(id, clearAccepted));
    if LiveId(db.flows, id) {
      var h := Holder(db, id).h;
      assert h !in db'.flows;
      if h != k && k in db.flows {
        assert k in db'.flows;
      }
    } else {
      assert db' == db;
    }
  }

  /**
   * A timeout waits in the packet ring while other commands are handled: decided
   * after `evs` and handled after `more`, it removes the flow that held the id
   * then exactly when that flow still holds it.
   */
  lemma DelayedTimeoutIff(c: Config, evs: seq<Event>, more: seq<Event>, id: int, clearAccepted: bool)
    requires ValidRun(c, evs) && ValidRun(c, evs + more) && NoDroppedAdd(c, evs + more)
    requires LiveId(Run(c, evs).flows, id) && PktTimeoutFlow(id, clearAccepted).Valid(c)
    ensures var db, k := Run(c, evs + more), Holder(Run(c, evs), id).h;
      RemovesExactly(db, Step(c, db, PktTimeoutFlow(id, clearAccepted)), k) <==>
        LiveId(db.flows, id) && Holder(db, id).h == k
  {
    var db, k := Run(c, evs + more), Holder(Run(c, evs), id).h;
    LockstepRuns(c, evs + more);
    IdsConserved(c, evs + more);
    TimeoutRemovesIff(c, db, id, k, clearAccepted);
  }

  // ---------- Which totals a clear zeroes ----------

  /** The slot that a clear command zeroes, for features counted on ingress or on egress. */
  function ClearedBy(cmd: Command, onEgress: bool): int
    requires cmd.DpClearRegisters?
  {
    TotalIndex(cmd.sessionId, cmd.tuple.meta.egressOffset, onEgress)
  }

  /** The slot of a session's total. */
  function TotalOf(r: Record, onEgress: bool): int {
    TotalIndex(r.id, r.meta.egressOffset, onEgress)
  }

  /**
   * A removal clears the totals of the session it frees, in all features, exactly
   * when the removing tuple carries the offset that is stored with the session.
   */
  lemma ClearsOwnTotalsIff(db: Db, t: FiveTuple, accepted: bool)
    requires db.Shaped() && t.meta.devPort < MAX_DEV_PORT_ID && t.h in db.flows && t.h in db.sessions
    ensures var sent, r := DropFlow(db, t, accepted, true).sent, db.sessions[t.h];
      && |sent| > 0 && sent[|sent| - 1] == DpClearRegisters(t, r.id)
      && ((forall onEgress :: ClearedBy(sent[|sent| - 1], onEgress) == TotalOf(r, onEgress)) <==>
            t.meta.egressOffset == r.meta.egressOffset)
  {
    var r := db.sessions[t.h];
    var cmd := DpClearRegisters(t, r.id);
    assert ClearedBy(cmd, true) == TotalOf(r, true) <==> t.meta.egressOffset == r.meta.egressOffset;
  }

  /** In lockstep a timeout always clears the totals of the session that it frees. */
  lemma TimeoutClearsOwnTotals(c: Config, db: Db, id: int, onEgress: bool)
    requires c.Valid() && db.Shaped() && Lockstep(db) && LiveId(db.flows, id) && PktTimeoutFlow(id, true).Valid(c)
    ensures var sent, k := Step(c, db, PktTimeoutFlow(id, true)).sent, Holder(db, id).h;
      && k in db.sessions && |sent| > 0 && sent[|sent| - 1].DpClearRegisters?
      && ClearedBy(sent[|sent| - 1], onEgress) == TotalOf(db.sessions[k], onEgress)
  {
    ClearsOwnTotalsIff(db, Holder(db, id), true);
  }

  // ---------- Clears within the totals ----------

  /** The clear writes within the totals of every feature. */
  ghost predicate ClearInBounds(c: Config, cmd: Command)
    requires cmd.DpClearRegisters?
  {
    forall onEgress :: 0 <= ClearedBy(cmd, onEgress) < c.FeatureSize()
  }

  /** The offset of the removing tuple leads from the session's id to a slot of the totals. */
  ghost predicate ClearFits(c: Config, db: Db, t: FiveTuple)
    requires t.h in db.sessions
  {
    0 <= db.sessions[t.h].id + t.meta.egressOffset < c.FeatureSize()
  }

  lemma SessionIdInRange(c: Config, db: Db, k: FlowKey)
    requires db.Shaped() && AllConserved(c, db) && k in db.sessions
    ensures MIN_SESSION_ID <= db.sessions[k].id < c.FeatureSize()
  {
    assert LiveId(db.sessions, db.sessions[k].id);
    assert IsId(c, db.sessions[k].id);
  }

  /** The clear of a removal stays within the totals exactly when the offset fits. */
  lemma ClearInBoundsIff(c: Config, db: Db, t: FiveTuple)
    requires db.Shaped() && AllConserved(c, db) && t.h in db.sessions
    ensures ClearInBounds(c, DpClearRegisters(t, db.sessions[t.h].id)) <==> ClearFits(c, db, t)
  {
    SessionIdInRange(c, db, t.h);
    assert ClearedBy(DpClearRegisters(t, db.sessions[t.h].id), true) == db.sessions[t.h].id + t.meta.egressOffset;
  }

  /** The event sends no clear that leaves the totals. */
  ghost predicate ClearSafe(c: Config, db: Db, ev: Event)
    requires db.Shaped()
  {
    match ev
    case PktAddFlow(_, _) => true
    case PktRemoveFlow(t, _, clearAccepted) =>
      clearAccepted && t.h in db.flows && t.h in db.sessions ==> ClearFits(c, db, t)
    case PktTimeoutFlow(id, clearAccepted) =>
      clearAccepted && LiveId(db.flows, id) && Holder(db, id).h in db.sessions ==> ClearFits(c, db, Holder(db, id))
    case PktBloomFilter => true
  }

  /** No clear of the run leaves the totals. */
  ghost predicate ClearSafeRun(c: Config, evs: seq<Event>)
    requires ValidRun(c, evs)
  {
    evs == [] || (ClearSafeRun(c, evs[..|evs| - 1]) && ClearSafe(c, Run(c, evs[..|evs| - 1]), evs[|evs| - 1]))
  }

  lemma {:induction false} ClearSafePrefix(c: Config, evs: seq<Event>, i: nat)
    requires ValidRun(c, evs) && ClearSafeRun(c, evs) && i <= |evs|
    ensures ClearSafeRun(c, evs[..i])
  {
    if i < |evs| {
      var before := evs[..|evs| - 1];
      ClearSafePrefix(c, before, i);
      assert before[..i] == evs[..i];
    } else {
      assert evs[..i] == evs;
    }
  }

  /** An offset of zero fits in every state that runs reach. */
  lemma ZeroOffsetFits(c: Config, evs: seq<Event>, t: FiveTuple)
    requires ValidRun(c, evs) && t.h in Run(c, evs).sessions && t.meta.egressOffset == 0
    ensures ClearFits(c, Run(c, evs), t)
  {
    IdsConserved(c, evs);
    SessionIdInRange(c, Run(c, evs), t.h);
  }

  /** Every stored session feeds a register within the egress index. */
  ghost predicate RegistersKept(c: Config, m: map<FlowKey, Record>) {
    forall k :: k in m ==> 0 <= EgressRegister(m[k]) < c.FeatureSize()
  }

  lemma AddKeepsRegisters(c: Config, db: Db, t: FiveTuple, accepted: bool)
    requires c.Valid() && db.Shaped() && t.meta.devPort < MAX_DEV_PORT_ID && Admitted(c, db, t)
    requires RegistersKept(c, db.sessions) && Safe(c, db, PktAddFlow(t, accepted))
    ensures RegistersKept(c, AddFlow(c, db, t, accepted).sessions)
  {
    if t.h !in db.sessions && !NoneLeft(db.sessionFree[Pipe(t)]) {
      assert OpensSession(c, db, t);
    }
  }

  lemma {:induction false} SafeRegisters(c: Config, evs: seq<Event>)
    requires ValidRun(c, evs) && SafeRun(c, evs)
    ensures RegistersKept(c, Run(c, evs).sessions)
  {
    if evs != [] {
      var before, ev := evs[..|evs| - 1], evs[|evs| - 1];
      var db := Run(c, before);
      SafeRegisters(c, before);
      if ev.PktAddFlow? {
        if Admitted(c, db, ev.tuple) {
          AddKeepsRegisters(c, db, ev.tuple, ev.accepted);
        }
      } else {
        forall k | k in Run(c, evs).sessions ensures k in db.sessions && Run(c, evs).sessions[k] == db.sessions[k] {
          StepStores(c, db, ev, k);
        }
      }
    }
  }

  /** So does the offset that is stored with the session, in every state that safe runs reach. */
  lemma StoredOffsetFits(c: Config, evs: seq<Event>, t: FiveTuple)
    requires ValidRun(c, evs) && SafeRun(c, evs) && t.h in Run(c, evs).sessions
    requires t.meta.egressOffset == Run(c, evs).sessions[t.h].meta.egressOffset
    ensures ClearFits(c, Run(c, evs), t)
  {
    SafeRegisters(c, evs);
  }

  /** Without dropped adds, timeouts never send a clear that leaves the totals. */
  lemma TimeoutClearsFit(c: Config, evs: seq<Event>, id: int, clearAccepted: bool)
    requires ValidRun(c, evs) && SafeRun(c, evs) && NoDroppedAdd(c, evs)
    ensures ClearSafe(c, Run(c, evs), PktTimeoutFlow(id, clearAccepted))
  {
    var db := Run(c, evs);
    LockstepRuns(c, evs);
    if LiveId(db.flows, id) {
      StoredOffsetFits(c, evs, Holder(db, id));
    }
  }

  /** The offset leads from the tuple's pipe to a pipe of the switch. */
  predicate NamesPipe(t: FiveTuple) {
    0 <= Pipe(t) + t.meta.egressOffset < NUM_PIPES
  }

  ghost predicate RemovalsNamePipes(evs: seq<Event>) {
    forall i :: 0 <= i < |evs| && evs[i].PktRemoveFlow? ==> NamesPipe(evs[i].tuple)
  }

  lemma OffsetFits(c: Config, db: Db, t: FiveTuple)
    requires db.Shaped() && AllConserved(c, db) && t.h in db.sessions
    requires db.sessions[t.h].id % 4 == Pipe(t) && NamesPipe(t)
    ensures ClearFits(c, db, t)
  {
    SessionIdInRange(c, db, t.h);
  }

  /** Where five-tuples keep to one pipe, clears stay within the totals if removals name a pipe by their offset. */
  lemma {:induction false} RoutedIsClearSafe(c: Config, evs: seq<Event>, route: FlowKey -> nat)
    requires ValidRun(c, evs) && Routed(evs, route) && RemovalsNamePipes(evs)
    ensures ClearSafeRun(c, evs)
  {
    if evs != [] {
      var before, ev := evs[..|evs| - 1], evs[|evs| - 1];
      RoutedIsClearSafe(c, before, route);
      RoutedStepIsClearSafe(c, before, ev, route);
    }
  }

  lemma RoutedStepIsClearSafe(c: Config, evs: seq<Event>, ev: Event, route: FlowKey -> nat)
    requires ValidRun(c, evs) && Routed(evs, route) && EventRouted(ev, route) && ev.Valid(c)
    requires ev.PktRemoveFlow? ==> NamesPipe(ev.tuple)
    ensures ClearSafe(c, Run(c, evs), ev)
  {
    var db := Run(c, evs);
    IdsConserved(c, evs);
    PipesConserved(c, evs, route);
    match ev
    case PktRemoveFlow(t, _, _) =>
      if t.h in db.sessions {
        OffsetFits(c, db, t);
      }
    case PktTimeoutFlow(id, _) =>
      if LiveId(db.flows, id) && Holder(db, id).h in db.sessions {
        RoutedPiped(c, evs, route);
        assert UnfoldPipes(0);
        OffsetFits(c, db, Holder(db, id));
      }
    case _ =>
  }

  // ---------- Egress registers ----------

  /** Two different ingress pipes never forward to the same egress pipe. */
  ghost predicate EgressDisjoint(c: Config)
    requires c.Valid()
  {
    forall i, j | 0 <= i < MAX_DEV_PORT_ID && 0 <= j < MAX_DEV_PORT_ID && c.devPortMapping[i] != -1 &&
      c.devPortMapping[j] != -1 ::
      DevPortToPipe(i) != DevPortToPipe(j) ==> DevPortToPipe(c.devPortMapping[i]) != DevPortToPipe(c.devPortMapping[j])
  }

  /** Every stored tuple carries the distance to the egress pipe of its port. */
  ghost predicate OffsetsKept(c: Config, m: map<FlowKey, Record>)
    requires c.Valid()
  {
    forall k :: k in m ==>
      && m[k].meta.devPort < MAX_DEV_PORT_ID && c.devPortMapping[m[k].meta.devPort] != -1
      && m[k].meta.egressOffset == DevPortToPipe(c.devPortMapping[m[k].meta.devPort]) - DevPortToPipe(m[k].meta.devPort)
  }

  lemma StepKeepsOffsets(c: Config, db: Db, ev: Event)
    requires c.Valid() && db.Shaped() && ev.Valid(c) && OffsetsKept(c, db.flows) && OffsetsKept(c, db.sessions)
    ensures OffsetsKept(c, Step(c, db, ev).flows) && OffsetsKept(c, Step(c, db, ev).sessions)
  {
    var db' := Step(c, db, ev);
    forall k ensures
      && (k in db'.flows ==> StoredBefore(c, db.flows, ev, k, db'.flows[k]))
      && (k in db'.sessions ==> StoredBefore(c, db.sessions, ev, k, db'.sessions[k]))
    {
      StepStores(c, db, ev, k);
    }
    StoredKeepOffsets(c, db.flows, ev, db'.flows);
    StoredKeepOffsets(c, db.sessions, ev, db'.sessions);
  }

  lemma StoredKeepOffsets(c: Config, m: map<FlowKey, Record>, ev: Event, m': map<FlowKey, Record>)
    requires c.Valid() && ev.Valid(c) && OffsetsKept(c, m)
    requires forall k :: k in m' ==> StoredBefore(c, m, ev, k, m'[k])
    ensures OffsetsKept(c, m')
  {
  }

  ghost function EgressRegister(r: Record): int {
    r.id + r.meta.egressOffset
  }

  /** What is true of every state that safe runs reach (folded, see `Unfold`). */
  ghost predicate Reachable(c: Config, db: Db) {
    c.Valid() && db.Shaped() && forall i {:trigger Unfold(i)} :: Unfold(i) ==> AllConserved(c, db) && HeapsFit(c, db)
  }

  /** Marker for the folded predicate of a database on its pipes, see `Unfold`. */
  ghost predicate UnfoldPipes(i: int) {
    true
  }

  /** What routed runs keep in addition: ids on their own pipes, offsets as the ports say (folded, see `Unfold`). */
  ghost predicate Piped(c: Config, db: Db) {
    && c.Valid()
    && forall i {:trigger UnfoldPipes(i)} :: UnfoldPipes(i) ==>
         PipesKept(db) && OffsetsKept(c, db.flows) && OffsetsKept(c, db.sessions)
  }

  /** Two sessions never share an egress register, and every register is within the feature arrays. */
  lemma RegistersDistinct(c: Config, db: Db, k: FlowKey, k': FlowKey)
    requires Reachable(c, db) && Piped(c, db) && EgressDisjoint(c) && k in db.sessions && k' in db.sessions
    ensures MIN_SESSION_ID <= EgressRegister(db.sessions[k]) < c.FeatureSize()
    ensures k != k' ==> EgressRegister(db.sessions[k]) != EgressRegister(db.sessions[k'])
  {
    RegisterShape(c, db, k);
    RegisterShape(c, db, k');
    assert Unfold(0) && UnfoldPipes(0);
    var r, r' := db.sessions[k], db.sessions[k'];
    if k != k' && r.id / 4 == r'.id / 4 {
      assert r.id % 4 != r'.id % 4;
    }
  }

  lemma RegisterShape(c: Config, db: Db, k: FlowKey)
    requires Reachable(c, db) && Piped(c, db) && k in db.sessions
    ensures var r := db.sessions[k];
      && r.meta.devPort < MAX_DEV_PORT_ID && c.devPortMapping[r.meta.devPort] != -1
      && EgressRegister(r) % 4 == DevPortToPipe(c.devPortMapping[r.meta.devPort])
      && EgressRegister(r) / 4 == r.id / 4 && 1 <= r.id / 4 <= c.heapSize
  {
    assert Unfold(0) && UnfoldPipes(0);
    assert LiveId(db.sessions, db.sessions[k].id);
  }

  lemma StepReachable(c: Config, db: Db, ev: Event)
    requires Reachable(c, db) && ev.Valid(c) && Safe(c, db, ev)
    ensures Reachable(c, Step(c, db, ev))
  {
    assert Unfold(0);
    StepConserves(c, db, ev);
    HeapsFitIff(c, db, ev);
  }

  /** Ids are conserved and the heaps fit in every state that safe runs reach. */
  lemma {:induction false} SafeReachable(c: Config, evs: seq<Event>)
    requires ValidRun(c, evs) && SafeRun(c, evs)
    ensures Reachable(c, Run(c, evs))
  {
    if evs == [] {
      InitConserved(c);
      InitFits(c);
    } else {
      SafeReachable(c, evs[..|evs| - 1]);
      StepReachable(c, Run(c, evs[..|evs| - 1]), evs[|evs| - 1]);
    }
  }

  /** Ids keep to their pipes and offsets to their ports in every state that routed runs reach. */
  lemma {:induction false} RoutedPiped(c: Config, evs: seq<Event>, route: FlowKey -> nat)
    requires ValidRun(c, evs) && Routed(evs, route)
    ensures Piped(c, Run(c, evs))
  {
    PipesConserved(c, evs, route);
    if evs != [] {
      RoutedPiped(c, evs[..|evs| - 1], route);
      assert UnfoldPipes(0);
      StepKeepsOffsets(c, Run(c, evs[..|evs| - 1]), evs[|evs| - 1]);
    }
  }

  /** A fresh flow id is in range, unused, and not the value that says "none left". */
  lemma FlowIdReady(c: Config, db: Db, p: nat)
    requires Reachable(c, db) && p < NUM_PIPES && db.flowFree[p] != multiset{}
    ensures var id := Least(db.flowFree[p]); 0 < id < c.FeatureSize() && !LiveId(db.flows, id)
    ensures |Pop(db.flowFree, p)[p]| < c.heapSize
  {
    assert Unfold(0);
    var id := Least(db.flowFree[p]);
    assert id in db.flowFree[p] && Copies(db.flowFree, id) >= 1;
    assert IsId(c, id);
    PopFits(db.flowFree, p, c.heapSize);
  }

  /** So is a fresh session id; if ids keep to their pipes and pipes are disjoint, its egress register is unused. */
  lemma SessionIdReady(c: Config, db: Db, t: FiveTuple)
    requires Reachable(c, db) && t.meta.devPort < MAX_DEV_PORT_ID && OpensSession(c, db, t)
    ensures var id := Least(db.sessionFree[Pipe(t)]); 0 < id < c.FeatureSize() && !LiveId(db.sessions, id)
    ensures Piped(c, db) && EgressDisjoint(c) ==>
      forall k | k in db.sessions :: EgressRegister(db.sessions[k]) != NewRegister(c, db, t)
  {
    var p, r := Pipe(t), Record(Stored(c, t).meta, Least(db.sessionFree[Pipe(t)]));
    var db' := db.(sessionFree := Pop(db.sessionFree, p), sessions := db.sessions[t.h := r]);
    SessionInsert(c, db, db', t, r);
    if Piped(c, db) && EgressDisjoint(c) {
      SessionPiped(c, db, db', t, r);
      forall k | k in db.sessions ensures EgressRegister(db.sessions[k]) != EgressRegister(r) {
        RegistersDistinct(c, db', k, t.h);
      }
    }
  }

  lemma SessionInsert(c: Config, db: Db, db': Db, t: FiveTuple, r: Record)
    requires Reachable(c, db) && t.meta.devPort < MAX_DEV_PORT_ID && OpensSession(c, db, t)
    requires r == Record(Stored(c, t).meta, Least(db.sessionFree[Pipe(t)]))
    requires db' == db.(sessionFree := Pop(db.sessionFree, Pipe(t)), sessions := db.sessions[t.h := r])
    ensures Reachable(c, db')
    ensures IsId(c, r.id) && !LiveId(db.sessions, r.id)
  {
    assert Unfold(0);
    ConservedPop(c, db.sessionFree, db.sessions, Pipe(t), t.h, r);
    PopFits(db.sessionFree, Pipe(t), c.heapSize);
  }

  lemma SessionPiped(c: Config, db: Db, db': Db, t: FiveTuple, r: Record)
    requires Piped(c, db) && db.Shaped() && t.meta.devPort < MAX_DEV_PORT_ID && OpensSession(c, db, t)
    requires r == Record(Stored(c, t).meta, Least(db.sessionFree[Pipe(t)]))
    requires db' == db.(sessionFree := Pop(db.sessionFree, Pipe(t)), sessions := db.sessions[t.h := r])
    ensures Piped(c, db')
  {
    assert UnfoldPipes(0);
    PurePop(db.sessionFree, Pipe(t));
  }

  /** Both tables have a free slot, so every probe ends. */
  lemma ReachableRoom(c: Config, db: Db)
    requires Reachable(c, db)
    ensures |db.flows| < c.tableSize && |db.sessions| < c.tableSize && DistinctIds(db.flows)
  {
    assert Unfold(0);
    TableHasRoom(c, db.flowFree, db.flows);
    TableHasRoom(c, db.sessionFree, db.sessions);
  }

  /** A flow stored under a fresh id is the only holder of that id. */
  lemma FreshHolder(c: Config, db: Db, db': Db, t: FiveTuple, id: int)
    requires Reachable(c, db) && t.meta.devPort < MAX_DEV_PORT_ID && t.h !in db.flows
    requires db.flowFree[Pipe(t)] != multiset{} && id == Least(db.flowFree[Pipe(t)])
    requires db'.Shaped() && db'.flows == db.flows[t.h := Record(t.meta, id)]
    ensures DistinctIds(db'.flows) && LiveId(db'.flows, id) && Holder(db', id) == t && db'.flows - {t.h} == db.flows
  {
    assert Unfold(0);
    ConservedPop(c, db.flowFree, db.flows, Pipe(t), t.h, Record(t.meta, id));
    assert db'.flows[t.h].id == id;
    assert Holder(db', id).h == t.h;
  }
}
