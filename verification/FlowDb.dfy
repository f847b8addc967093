/** One heap of free ids per pipe. */
module IdBanks {
  import opened Structs
  import opened IdHeaps
  import opened FlowDbModel

  /** Marker for the folded predicate of a bank, see `Unfold`. */
  ghost predicate UnfoldBank(i: int) {
    true
  }

  class IdBank {
    const heaps: seq<HeapQueue>

    ghost const Repr: set<object>

    ghost predicate Separate(capacity: nat) {
      && |heaps| == NUM_PIPES
      && (forall i :: 0 <= i < NUM_PIPES ==>
            heaps[i] in Repr && heaps[i].data in Repr && heaps[i].data.Length == capacity)
      && (forall i, j :: 0 <= i < j < NUM_PIPES ==> heaps[i] != heaps[j] && heaps[i].data != heaps[j].data)
    }

    ghost predicate Holds(free: seq<multiset<int>>, capacity: nat)
      reads Repr
    {
      && Separate(capacity) && |free| == NUM_PIPES
      && forall p :: 0 <= p < NUM_PIPES ==> heaps[p].Valid() && heaps[p].Ids() == free[p]
    }

    /** The heaps hold exactly the given ids (folded, see `Unfold`). */
    ghost predicate Is(free: seq<multiset<int>>, capacity: nat)
      reads Repr
    {
      forall i {:trigger UnfoldBank(i)} :: UnfoldBank(i) ==> Holds(free, capacity)
    }

    /** Fills the heap of every pipe with the ids of that pipe. */
    constructor (c: Config)
      requires c.heapSize <= SIZE_MAX
      ensures Is(Init(c).flowFree, c.heapSize) && fresh(Repr)
    {
      var hs, r := MakeHeaps(c);
      heaps, Repr := hs, r;
      new;
      forall p | 0 <= p < NUM_PIPES ensures Init(c).flowFree[p] == multiset(InitialIds(c, p, c.heapSize)) {}
    }

    /** Takes the least id of a pipe; 0 when none is left. */
    method Take(p: nat, ghost free: seq<multiset<int>>, ghost capacity: nat) returns (id: int)
      requires Is(free, capacity) && p < NUM_PIPES == |free|
      modifies Repr
      ensures free[p] == multiset{} ==> id == 0 && Is(free, capacity)
      ensures free[p] != multiset{} ==> id == Least(free[p]) && Is(Pop(free, p), capacity)
    {
      assert UnfoldBank(0);
      id := PopAt(p);
    }

    method PopAt(p: nat) returns (id: int)
      requires p < |heaps| && heaps[p].Valid() && heaps[p] in Repr && heaps[p].data in Repr
      requires forall q :: 0 <= q < |heaps| && q != p ==>
        heaps[q].Valid() && heaps[q] != heaps[p] && heaps[q].data != heaps[p].data
      modifies Repr
      ensures heaps[p].Valid()
      ensures forall q :: 0 <= q < |heaps| && q != p ==>
        old(heaps[q].Valid()) && heaps[q].Valid() && heaps[q].Ids() == old(heaps[q].Ids())
      ensures if old(heaps[p].Ids()) == multiset{} then id == 0 && heaps[p].Ids() == multiset{}
              else id == Least(old(heaps[p].Ids())) && heaps[p].Ids() == old(heaps[p].Ids()) - multiset{id}
    {
      id := heaps[p].Pop();
    }

    method Return(p: nat, id: int, ghost free: seq<multiset<int>>, ghost capacity: nat)
      requires Is(free, capacity) && p < NUM_PIPES == |free| && |free[p]| < capacity
      modifies Repr
      ensures Is(Push(free, p, id), capacity)
    {
      assert UnfoldBank(0);
      ghost var h := heaps[p];
      assert h.Ids() == free[p] && |h.Ids()| == h.curSize;
      heaps[p].Push(id);
      forall q | 0 <= q < NUM_PIPES && q != p ensures heaps[q].Valid() && heaps[q].Ids() == free[q] {
        assert heaps[q] != h && heaps[q].data != h.data;
      }
    }
  }

  method MakeHeaps(c: Config) returns (hs: seq<HeapQueue>, ghost repr: set<object>)
    requires c.heapSize <= SIZE_MAX
    ensures |hs| == NUM_PIPES && fresh(repr)
    ensures forall i :: 0 <= i < NUM_PIPES ==> hs[i] in repr && hs[i].data in repr && Filled(hs[i], c, i)
    ensures forall i, j :: 0 <= i < j < NUM_PIPES ==> hs[i] != hs[j] && hs[i].data != hs[j].data
  {
    hs, repr := [], {};
    for pipe := 0 to NUM_PIPES
      invariant |hs| == pipe && fresh(repr)
      invariant forall i :: 0 <= i < pipe ==> hs[i] in repr && hs[i].data in repr && Filled(hs[i], c, i)
      invariant forall i, j :: 0 <= i < j < pipe ==> hs[i] != hs[j] && hs[i].data != hs[j].data
    {
      var h := MakeHeap(c, pipe);
      hs, repr := hs + [h], repr + {h, h.data};
    }
  }

  ghost predicate Filled(h: HeapQueue, c: Config, pipe: nat)
    reads h, h.data
  {
    h.data.Length == c.heapSize && h.Valid() && h.Ids() == multiset(InitialIds(c, pipe, c.heapSize))
  }

  /** A heap filled with the ids of one pipe. */
  method MakeHeap(c: Config, pipe: nat) returns (h: HeapQueue)
    requires c.heapSize <= SIZE_MAX
    ensures fresh(h) && fresh(h.data) && Filled(h, c, pipe)
  {
    h := new HeapQueue(c.heapSize);
    for index := 0 to c.heapSize
      invariant forall k :: 0 <= k < index ==> h.data[k] == (k + 1) * 4 + pipe
    {
      h.data[index] := (index + 1) * 4 + pipe;
    }
    assert h.data[..c.heapSize] == InitialIds(c, pipe, c.heapSize);
    h.Build(c.heapSize);
  }
}

/**
 * The flow database thread: heaps, hash tables and handlers, proved to move
 * exactly as the model of the flow database does.
 */
module FlowDbs {
  import opened Structs
  import opened IdHeaps
  import opened ReverseIndex
  import opened FlowTables
  import opened SessionTables
  import opened IdBanks
  import Model = FlowDbModel
  import opened FlowDbRuns

  type Db = Model.Db
  type Config = Model.Config

  class FlowDb {
    const c: Config
    const flowIds: IdBank
    const sessionIds: IdBank
    const flowTable: FlowTable
    const sessionTable: SessionTable
    /** The commands that the ring to the switch has accepted. */
    var sent: seq<Model.Command>

    ghost function Repr(): set<object> {
      {this as object} + flowIds.Repr + sessionIds.Repr + flowTable.Repr() + sessionTable.Repr()
    }

    /** No two structures share memory, and all have the configured sizes. */
    ghost predicate Shaped() {
      && c.Valid()
      && this !in flowIds.Repr && this !in sessionIds.Repr && this !in flowTable.Repr() && this !in sessionTable.Repr()
      && flowIds.Repr !! sessionIds.Repr && flowIds.Repr !! flowTable.Repr() && flowIds.Repr !! sessionTable.Repr()
      && sessionIds.Repr !! flowTable.Repr() && sessionIds.Repr !! sessionTable.Repr() &&
         flowTable.Repr() !! sessionTable.Repr()
      && flowTable.entries.Length == sessionTable.entries.Length == c.tableSize
      && flowTable.featureIndexToEntry.Length == sessionTable.featureIndexToEntry.Length == c.FeatureSize()
      && sessionTable.egressFeatureToSession.Length == c.FeatureSize()
    }

    /** The concrete state is the given model state; `exact` adds that the egress index is exact. */
    ghost predicate Holds(db: Db, exact: bool)
      reads Repr()
    {
      && Shaped()
      && flowIds.Is(db.flowFree, c.heapSize) && sessionIds.Is(db.sessionFree, c.heapSize)
      && flowTable.Is(db.flows) && sessionTable.Is(db.sessions, exact)
      && sent == db.sent
    }

    /** `Holds`, kept folded: the verifier looks inside only where `Unfold` is mentioned. */
    ghost predicate Is(db: Db, exact: bool)
      reads Repr()
    {
      forall i {:trigger Unfold(i)} :: Unfold(i) ==> Holds(db, exact)
    }

    /** Takes over the filled heaps and the empty tables. */
    constructor (c: Config, f: IdBank, s: IdBank, ft: FlowTable, st: SessionTable)
      requires c.Valid() && f.Repr !! s.Repr !! ft.Repr() !! st.Repr()
      requires f.Is(Model.Init(c).flowFree, c.heapSize) && s.Is(Model.Init(c).sessionFree, c.heapSize)
      requires ft.Is(map[]) && st.Is(map[], true)
      requires ft.entries.Length == st.entries.Length == c.tableSize
      requires ft.featureIndexToEntry.Length == st.featureIndexToEntry.Length == st.egressFeatureToSession.Length ==
        c.FeatureSize()
      ensures this.c == c && Is(Model.Init(c), true)
    {
      this.c, flowIds, sessionIds, flowTable, sessionTable, sent := c, f, s, ft, st, [];
    }

    // ---------- One structure at a time ----------

    method TakeFlowId(p: nat, ghost db: Db, ghost exact: bool) returns (id: int)
      requires Is(db, exact) && p < NUM_PIPES == |db.flowFree|
      modifies flowIds.Repr
      ensures db.flowFree[p] == multiset{} ==> id == 0 && Is(db, exact)
      ensures db.flowFree[p] != multiset{} ==>
        id == Least(db.flowFree[p]) && Is(db.(flowFree := Model.Pop(db.flowFree, p)), exact)
    {
      assert Unfold(0);
      id := flowIds.Take(p, db.flowFree, c.heapSize);
      assert sessionIds.Is(db.sessionFree, c.heapSize) && flowTable.Is(db.flows) && sessionTable.Is(db.sessions, exact);
    }

    method ReturnFlowId(p: nat, id: int, ghost db: Db, ghost exact: bool)
      requires Is(db, exact) && p < NUM_PIPES == |db.flowFree| && |db.flowFree[p]| < c.heapSize
      modifies flowIds.Repr
      ensures Is(db.(flowFree := Model.Push(db.flowFree, p, id)), exact)
    {
      assert Unfold(0);
      flowIds.Return(p, id, db.flowFree, c.heapSize);
    }

    method TakeSessionId(p: nat, ghost db: Db, ghost exact: bool) returns (id: int)
      requires Is(db, exact) && p < NUM_PIPES == |db.sessionFree|
      modifies sessionIds.Repr
      ensures db.sessionFree[p] == multiset{} ==> id == 0 && Is(db, exact)
      ensures db.sessionFree[p] != multiset{} ==>
        id == Least(db.sessionFree[p]) && Is(db.(sessionFree := Model.Pop(db.sessionFree, p)), exact)
    {
      assert Unfold(0);
      id := sessionIds.Take(p, db.sessionFree, c.heapSize);
      assert flowIds.Is(db.flowFree, c.heapSize) && flowTable.Is(db.flows) && sessionTable.Is(db.sessions, exact);
    }

    method ReturnSessionId(p: nat, id: int, ghost db: Db, ghost exact: bool)
      requires Is(db, exact) && p < NUM_PIPES == |db.sessionFree| && |db.sessionFree[p]| < c.heapSize
      modifies sessionIds.Repr
      ensures Is(db.(sessionFree := Model.Push(db.sessionFree, p, id)), exact)
    {
      assert Unfold(0);
      sessionIds.Return(p, id, db.sessionFree, c.heapSize);
    }

    method StoreFlow(t: FiveTuple, id: int, ghost db: Db, ghost exact: bool) returns (ret: nat)
      requires Is(db, exact) && 0 <= id < c.FeatureSize() && (t.h !in db.flows ==> !LiveId(db.flows, id))
      modifies flowTable.Repr()
      ensures ret == if |db.flows| == c.tableSize || t.h in db.flows then 1 else 0
      ensures Is(if ret == 0 then db.(flows := db.flows[t.h := Record(t.meta, id)]) else db, exact)
    {
      assert Unfold(0) && UnfoldFlows(0);
      flowTable.Size();
      ret := flowTable.Add(t, id);
    }

    method EraseFlow(key: FlowKey, ghost db: Db, ghost exact: bool) returns (ret: nat, id: int)
      requires Is(db, exact) && |db.flows| < c.tableSize
      modifies flowTable.Repr()
      ensures ret == if key in db.flows then 0 else 1
      ensures ret == 0 ==> id == db.flows[key].id
      ensures Is(db.(flows := db.flows - {key}), exact)
    {
      assert Unfold(0);
      ret, id := flowTable.Erase(key, db.flows);
    }

    method EraseFlowById(id: int, ghost db: Db, ghost exact: bool) returns (ret: nat, t: FiveTuple)
      requires Is(db, exact) && db.Shaped() && 0 <= id < c.FeatureSize() && Model.DistinctIds(db.flows)
      modifies flowTable.Repr()
      ensures ret == if LiveId(db.flows, id) then 0 else 1
      ensures ret == 0 ==> t == Model.Holder(db, id) && Is(db.(flows := db.flows - {t.h}), exact)
      ensures ret != 0 ==> Is(db, exact)
    {
      assert Unfold(0) && UnfoldFlows(0);
      ret, t := flowTable.RemoveByValue(id);
      assert ret == 0 ==> t.h == Model.Holder(db, id).h;
    }

    method FindSession(key: FlowKey, ghost db: Db, ghost exact: bool) returns (ret: nat, id: int)
      requires Is(db, exact) && |db.sessions| < c.tableSize
      ensures ret == if key in db.sessions then 0 else 1
      ensures ret == 0 ==> id == db.sessions[key].id
      ensures Is(db, exact)
    {
      assert Unfold(0) && UnfoldSessions(0);
      sessionTable.Size();
      ret, id := sessionTable.Get(key);
    }

    /** The egress index stays exact unless another session already feeds the register. */
    method StoreSession(t: FiveTuple, id: int, ghost db: Db, ghost exact: bool)
      requires Is(db, exact) && |db.sessions| < c.tableSize
      requires t.h !in db.sessions ==> 0 <= id < c.FeatureSize() && !LiveId(db.sessions, id)
      requires t.h !in db.sessions ==> 0 <= id + t.meta.egressOffset < c.FeatureSize()
      modifies sessionTable.Repr()
      ensures t.h in db.sessions ==> Is(db, exact)
      ensures t.h !in db.sessions ==>
        Is(db.(sessions := db.sessions[t.h := Record(t.meta, id)]),
           exact && !RegisterTaken(db.sessions, id + t.meta.egressOffset))
    {
      assert Unfold(0) && UnfoldSessions(0);
      sessionTable.Size();
      var ret := sessionTable.Add(t, id);
    }

    method EraseSession(key: FlowKey, ghost db: Db, ghost exact: bool) returns (ret: nat, id: int)
      requires Is(db, exact) && |db.sessions| < c.tableSize
      modifies sessionTable.Repr()
      ensures ret == if key in db.sessions then 0 else 1
      ensures ret == 0 ==> id == db.sessions[key].id
      ensures Is(db.(sessions := db.sessions - {key}), exact)
    {
      assert Unfold(0);
      ret, id := sessionTable.Erase(key, db.sessions, exact);
    }

    /** Appends to the log if the ring accepts the command. */
    method Send(command: Model.Command, accepted: bool, ghost db: Db, ghost exact: bool)
      requires Is(db, exact)
      modifies this
      ensures Is(db.(sent := Model.Put(db.sent, command, accepted)), exact)
    {
      assert Unfold(0);
      if accepted {
        sent := sent + [command];
      }
    }

    /** The commands accepted so far. */
    method Sent(ghost db: Db, ghost exact: bool) returns (cmds: seq<Model.Command>)
      requires Is(db, exact)
      ensures cmds == db.sent && Is(db, exact)
    {
      assert Unfold(0);
      cmds := sent;
    }

    // ---------- Handlers ----------

    /** Allocates a flow id, stores the flow, finds or allocates its session, and tells the switch. */
    method AddFlow(t: FiveTuple, accepted: bool, ghost db: Db, ghost exact: bool)
      requires Is(db, exact) && Reachable(c, db) && t.meta.devPort < MAX_DEV_PORT_ID
      requires Model.Safe(c, db, Model.PktAddFlow(t, accepted)) && (exact ==> EgressDisjoint(c) && Piped(c, db))
      modifies Repr()
      ensures Is(Model.AddFlow(c, db, t, accepted), exact)
    {
      var egressPort := c.devPortMapping[t.meta.devPort];
      if egressPort == -1 {
        return;
      }
      var p := DevPortToPipe(t.meta.devPort);
      if db.flowFree[p] != multiset{} {
        FlowIdReady(c, db, p);
      }
      var flowId := TakeFlowId(p, db, exact);
      if flowId == 0 {
        return;
      }
      var tuple := t.(meta := t.meta.(egressOffset := DevPortToPipe(egressPort) - p));
      ghost var db1 := db.(flowFree := Model.Pop(db.flowFree, p));
      var ret := StoreFlow(tuple, flowId, db1, exact);
      if ret != 0 {
        ReturnFlowId(p, flowId, db1, exact);
        Model.PushPop(db.flowFree, p);
        return;
      }
      AddSession(t, tuple, flowId, accepted, db, exact);
    }

    lemma Weaken(db: Db, exact: bool, exact': bool)
      requires Is(db, exact) && (exact' ==> exact)
      ensures Is(db, exact')
    {
      assert Unfold(0) && UnfoldSessions(0);
    }

    /** The second half of an add, once the flow is in the table. */
    method AddSession(ghost t: FiveTuple, tuple: FiveTuple, flowId: int, accepted: bool, ghost db: Db,
        ghost exact: bool)
      requires Reachable(c, db) && t.meta.devPort < MAX_DEV_PORT_ID && Model.Admitted(c, db, t)
      requires Model.Safe(c, db, Model.PktAddFlow(t, accepted)) && (exact ==> EgressDisjoint(c) && Piped(c, db))
      requires tuple == Model.Stored(c, t) && flowId == Least(db.flowFree[Model.Pipe(t)])
      requires Is(db.(flowFree := Model.Pop(db.flowFree, Model.Pipe(t)),
                      flows := db.flows[t.h := Record(tuple.meta, flowId)]), exact)
      modifies Repr()
      ensures Is(Model.AddFlow(c, db, t, accepted), exact)
    {
      var p := DevPortToPipe(tuple.meta.devPort);
      ghost var db1 := db.(flowFree := Model.Pop(db.flowFree, p), flows := db.flows[t.h := Record(tuple.meta, flowId)]);
      ReachableRoom(c, db);
      var ret, sessionId := FindSession(tuple.h, db1, exact);
      if ret == 0 {
        Model.AddWithOldSession(c, db, t, accepted);
        StoreSession(tuple, sessionId, db1, exact);
        SendAdd(tuple, flowId, sessionId, accepted, db, db1, exact);
      } else {
        NewSession(t, tuple, flowId, accepted, db, db1, exact);
      }
    }

    /** Gives the flow a session of its own. */
    method NewSession(ghost t: FiveTuple, tuple: FiveTuple, flowId: int, accepted: bool, ghost db: Db, ghost db1: Db,
        ghost exact: bool)
      requires Reachable(c, db) && t.meta.devPort < MAX_DEV_PORT_ID && Model.Admitted(c, db, t)
      requires Model.Safe(c, db, Model.PktAddFlow(t, accepted)) && (exact ==> EgressDisjoint(c) && Piped(c, db))
      requires tuple == Model.Stored(c, t) && flowId == Least(db.flowFree[Model.Pipe(t)]) && t.h !in db.sessions
      requires db1 == db.(flowFree := Model.Pop(db.flowFree, Model.Pipe(t)),
                             flows := db.flows[t.h := Record(tuple.meta, flowId)])
      requires Is(db1, exact) && |db.sessions| < c.tableSize
      modifies Repr()
      ensures Is(Model.AddFlow(c, db, t, accepted), exact)
    {
      var p := DevPortToPipe(tuple.meta.devPort);
      Model.AddWithNewSession(c, db, t, accepted);
      if db.sessionFree[p] != multiset{} {
        SessionIdReady(c, db, t);
        assert Model.OpensSession(c, db, t);
      }
      var sessionId := TakeSessionId(p, db1, exact);
      if sessionId == 0 {
        return;
      }
      ghost var db2 := db1.(sessionFree := Model.Pop(db.sessionFree, p));
      StoreSession(tuple, sessionId, db2, exact);
      ghost var db3 := db2.(sessions := db.sessions[t.h := Record(tuple.meta, sessionId)]);
      SendAdd(tuple, flowId, sessionId, accepted, db, db3, exact);
    }

    /** Enqueues the command, or rolls the flow back if the ring refuses it. */
    method SendAdd(tuple: FiveTuple, flowId: int, sessionId: int, accepted: bool, ghost db: Db, ghost db1: Db,
        ghost exact: bool)
      requires Reachable(c, db) && db1.Shaped() && Is(db1, exact) && tuple.meta.devPort < MAX_DEV_PORT_ID
      requires tuple.h !in db.flows
      requires db.flowFree[Model.Pipe(tuple)] != multiset{} && flowId == Least(db.flowFree[Model.Pipe(tuple)])
      requires db1.flowFree == Model.Pop(db.flowFree, Model.Pipe(tuple))
      requires db1.flows == db.flows[tuple.h := Record(tuple.meta, flowId)]
      modifies Repr()
      ensures Is(Model.Send(db1.(flowFree := db.flowFree, flows := db.flows),
                            tuple, flowId, sessionId, db1.flows, accepted), exact)
    {
      var command := Model.DpAddFlow(tuple, flowId, sessionId);
      Send(command, accepted, db1, exact);
      if !accepted {
        var p := DevPortToPipe(tuple.meta.devPort);
        FlowIdReady(c, db, p);
        ReturnFlowId(p, flowId, db1, exact);
        ghost var db2 := db1.(flowFree := Model.Push(db1.flowFree, p, flowId));
        FreshHolder(c, db, db2, tuple, flowId);
        var ret, _ := EraseFlowById(flowId, db2, exact);
      }
    }

    /** Frees the session of a removed flow and has its registers cleared. */
    method CleanSession(t: FiveTuple, clearAccepted: bool, ghost db: Db, ghost exact: bool)
      requires Is(db, exact) && db.Shaped() && t.meta.devPort < MAX_DEV_PORT_ID && |db.sessions| < c.tableSize
      requires t.h in db.sessions ==> |db.sessionFree[Model.Pipe(t)]| < c.heapSize
      modifies Repr()
      ensures Is(Model.CleanSession(db, t, clearAccepted), exact)
    {
      var ret, sessionId := EraseSession(t.h, db, exact);
      if ret == 0 {
        ghost var db1 := db.(sessions := db.sessions - {t.h});
        var p := DevPortToPipe(t.meta.devPort);
        ReturnSessionId(p, sessionId, db1, exact);
        Send(Model.DpClearRegisters(t, sessionId), clearAccepted,
          db1.(sessionFree := Model.Push(db.sessionFree, p, sessionId)), exact);
      } else {
        assert db.sessions - {t.h} == db.sessions;
      }
    }

    /** The second half of a removal, once the flow has left the table. */
    method FinishRemove(t: FiveTuple, flowId: int, accepted: bool, clearAccepted: bool, ghost db: Db, ghost exact: bool)
      requires Reachable(c, db) && t.meta.devPort < MAX_DEV_PORT_ID && t.h in db.flows
      requires !Model.RemovalOverflows(c, db, t)
      requires flowId == db.flows[t.h].id && Is(db.(flows := db.flows - {t.h}), exact)
      modifies Repr()
      ensures Is(Model.DropFlow(db, t, accepted, clearAccepted), exact)
    {
      var p := DevPortToPipe(t.meta.devPort);
      ghost var db1 := db.(flows := db.flows - {t.h});
      ReachableRoom(c, db);
      ReturnFlowId(p, flowId, db1, exact);
      db1 := db1.(flowFree := Model.Push(db.flowFree, p, flowId));
      Send(Model.DpRemoveFlow(t, flowId), accepted, db1, exact);
      db1 := db1.(sent := Model.Put(db.sent, Model.DpRemoveFlow(t, flowId), accepted));
      CleanSession(t, clearAccepted, db1, exact);
    }

    method RemoveByFiveTuple(t: FiveTuple, accepted: bool, clearAccepted: bool, ghost db: Db, ghost exact: bool)
      requires Is(db, exact) && Reachable(c, db) && t.meta.devPort < MAX_DEV_PORT_ID
      requires !Model.RemovalOverflows(c, db, t)
      modifies Repr()
      ensures Is(if t.h in db.flows then Model.DropFlow(db, t, accepted, clearAccepted) else db, exact)
    {
      ReachableRoom(c, db);
      var ret, flowId := EraseFlow(t.h, db, exact);
      if ret != 0 {
        assert db.flows - {t.h} == db.flows;
        return;
      }
      FinishRemove(t, flowId, accepted, clearAccepted, db, exact);
    }

    method RemoveByFlowId(flowId: int, clearAccepted: bool, ghost db: Db, ghost exact: bool)
      requires Is(db, exact) && Reachable(c, db) && 0 <= flowId < c.FeatureSize()
      requires LiveId(db.flows, flowId) ==> !Model.RemovalOverflows(c, db, Model.Holder(db, flowId))
      modifies Repr()
      ensures Is(if LiveId(db.flows, flowId) then Model.DropFlow(db, Model.Holder(db, flowId), true, clearAccepted)
        else db, exact)
    {
      ReachableRoom(c, db);
      var ret, t := EraseFlowById(flowId, db, exact);
      if ret != 0 {
        return;
      }
      FinishRemove(t, flowId, true, clearAccepted, db, exact);
    }

    /** One command of the packet ring; `exact` asks for an exact egress index before and after. */
    method Execute(cmd: Model.Event, ghost db: Db, ghost exact: bool)
      requires Is(db, exact) && Reachable(c, db) && cmd.Valid(c) && Model.Safe(c, db, cmd)
      requires exact ==> EgressDisjoint(c) && Piped(c, db)
      modifies Repr()
      ensures Is(Model.Step(c, db, cmd), exact)
    {
      match cmd
      case PktAddFlow(t, accepted) =>
        AddFlow(t, accepted, db, exact);
      case PktRemoveFlow(t, accepted, clearAccepted) =>
        RemoveByFiveTuple(t, accepted, clearAccepted, db, exact);
      case PktTimeoutFlow(flowId, clearAccepted) =>
        RemoveByFlowId(flowId, clearAccepted, db, exact);
      case PktBloomFilter =>
    }

    /**
     * The command loop: executes the commands of the packet ring one after the
     * other.  Nothing is asked of them but that they stay within the arrays; the
     * egress index is exact if five-tuples keep to one pipe and pipes are disjoint.
     */
    method Process(cmds: seq<Model.Event>, ghost exact: bool, ghost route: FlowKey -> nat)
      requires Model.ValidRun(c, cmds) && SafeRun(c, cmds) && Is(Model.Init(c), true)
      requires exact ==> EgressDisjoint(c) && Routed(cmds, route)
      modifies Repr()
      ensures Is(Model.Run(c, cmds), exact)
    {
      Weaken(Model.Init(c), true, exact);
      for i := 0 to |cmds|
        invariant Is(Model.Run(c, cmds[..i]), exact)
      {
        ghost var db := Model.Run(c, cmds[..i]);
        RunStep(c, cmds, i, exact, route);
        Execute(cmds[i], db, exact);
      }
      assert cmds[..|cmds|] == cmds;
    }

    /** The export over the whole table: every session exactly once, since every id is at least the least id. */
    method ExportSessions(ghost db: Db, ghost exact: bool) returns (rows: seq<(int, FiveTuple)>)
      requires Is(db, exact) && Reachable(c, db)
      ensures forall a, b :: 0 <= a < b < |rows| ==> rows[a].0 < rows[b].0
      ensures forall id, t :: (id, t) in rows <==> t.h in db.sessions && db.sessions[t.h] == Record(t.meta, id)
    {
      assert Unfold(0) && UnfoldSessions(0);
      ghost var m := sessionTable.Map();
      rows := sessionTable.Export();
      forall k | k in m ensures (m[k].id, FiveTuple(k, m[k].meta)) in rows {
        assert LiveId(db.sessions, db.sessions[k].id);
        assert Model.IsId(c, db.sessions[k].id);
        assert sessionTable.Map()[k].id >= MIN_SESSION_ID;
      }
      forall id, t ensures (id, t) in rows <==> t.h in db.sessions && db.sessions[t.h] == Record(t.meta, id) {
        RowIsSession(db.sessions, rows, id, t);
      }
    }
  }

  lemma RunStep(c: Config, cmds: seq<Model.Event>, i: nat, exact: bool, route: FlowKey -> nat)
    requires i < |cmds| && Model.ValidRun(c, cmds) && SafeRun(c, cmds) && (exact ==> Routed(cmds, route))
    ensures var db := Model.Run(c, cmds[..i]);
      && Reachable(c, db) && Model.Safe(c, db, cmds[i]) && (exact ==> Piped(c, db))
      && Model.Run(c, cmds[..i + 1]) == Model.Step(c, db, cmds[i])
  {
    var evs := cmds[..i];
    assert cmds[..i + 1][..i] == evs;
    SafePrefix(c, cmds, i);
    SafeReachable(c, evs);
    if exact {
      RoutedPiped(c, evs, route);
    }
  }
}
