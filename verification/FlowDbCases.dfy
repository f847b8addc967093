/** Concrete runs in which the flow database falls short of a natural claim. */
module FlowDbCases {
  import opened Structs
  import opened ReverseIndex
  import opened IdHeaps
  import opened FlowDbModel
  import opened FlowDbRuns

  // ---------- Short runs ----------

  lemma RunOne(c: Config, a: Event)
    requires ValidRun(c, [a])
    ensures Run(c, [a]) == Step(c, Init(c), a)
  {
    assert [a][..0] == [];
  }

  lemma RunNext(c: Config, evs: seq<Event>, ev: Event)
    requires ValidRun(c, evs) && ev.Valid(c)
    ensures ValidRun(c, evs + [ev]) && Run(c, evs + [ev]) == Step(c, Run(c, evs), ev)
  {
    assert (evs + [ev])[..|evs|] == evs;
  }

  /** The least id of a pipe is the first to be issued. */
  lemma FirstId(c: Config, p: nat)
    requires p < NUM_PIPES && c.heapSize > 0
    ensures var free := Init(c).flowFree; free[p] != multiset{} && Least(free[p]) == 4 + p
  {
    var ids := InitialIds(c, p, c.heapSize);
    assert ids[0] == 4 + p && ids[0] in multiset(ids);
    forall x | x in multiset(ids) ensures 4 + p <= x {
      assert x in ids;
    }
    LeastUnique(4 + p, multiset(ids));
  }

  /** The tuple can be monitored: its port leads somewhere. */
  predicate Mapped(c: Config, t: FiveTuple) {
    c.Valid() && t.meta.devPort < MAX_DEV_PORT_ID && c.devPortMapping[t.meta.devPort] != -1
  }

  /** What an add does that opens a session. */
  lemma OpeningAdd(c: Config, db: Db, t: FiveTuple, accepted: bool)
    requires Mapped(c, t) && db.Shaped() && OpensSession(c, db, t) && AllConserved(c, db)
    ensures var db', p, t' := AddFlow(c, db, t, accepted), Pipe(t), Stored(c, t);
      && db'.sessions == db.sessions[t.h := Record(t'.meta, Least(db.sessionFree[p]))]
      && db'.sessionFree == Pop(db.sessionFree, p)
      && db'.flows == (if accepted then db.flows[t.h := Record(t'.meta, Least(db.flowFree[p]))] else db.flows)
      && db'.flowFree == (if accepted then Pop(db.flowFree, p) else db.flowFree)
      && (!accepted ==> db'.sent == db.sent)
  {
    TableHasRoom(c, db.sessionFree, db.sessions);
    AddWithNewSession(c, db, t, accepted);
    PushPop(db.flowFree, Pipe(t));
  }

  /** The state after a first add. */
  lemma AfterFirstAdd(c: Config, t: FiveTuple, accepted: bool)
    requires Mapped(c, t) && c.heapSize > 0
    ensures ValidRun(c, [PktAddFlow(t, accepted)])
    ensures var db, db0, p := Run(c, [PktAddFlow(t, accepted)]), Init(c), Pipe(t);
      && AllConserved(c, db)
      && db.sessions == map[t.h := Record(Stored(c, t).meta, 4 + p)] && db.sessionFree == Pop(db0.sessionFree, p)
      && db.flows == (if accepted then db.sessions else map[])
      && db.flowFree == (if accepted then db.sessionFree else db0.flowFree)
      && (!accepted ==> db.sent == [])
  {
    var ev := PktAddFlow(t, accepted);
    InitConserved(c);
    FirstId(c, Pipe(t));
    RunOne(c, ev);
    assert OpensSession(c, Init(c), t);
    OpeningAdd(c, Init(c), t, accepted);
    StepConserves(c, Init(c), ev);
  }

  // ---------- Removals on a foreign pipe ----------

  /** The tuple of `t`, as a packet on another pipe carries it. */
  predicate ArrivesElsewhere(t: FiveTuple, t': FiveTuple) {
    t'.h == t.h && t'.meta.devPort < MAX_DEV_PORT_ID && Pipe(t') != Pipe(t)
  }

  /** A removal that arrives on another pipe than its add puts an id into a heap where it does not belong. */
  lemma ForeignRemovalBreaksPipes(c: Config, t: FiveTuple, t': FiveTuple)
    requires Mapped(c, t) && c.heapSize > 0 && ArrivesElsewhere(t, t')
    ensures var evs := [PktAddFlow(t, true)] + [PktRemoveFlow(t', true, true)];
      ValidRun(c, evs) && !PipesKept(Run(c, evs))
  {
    var add, remove := PktAddFlow(t, true), PktRemoveFlow(t', true, true);
    AfterFirstAdd(c, t, true);
    RunNext(c, [add], remove);
    InitConserved(c);
    RunOne(c, add);
    PipesKeptIff(c, Init(c), add);
    PipesKeptIff(c, Run(c, [add]), remove);
  }

  /** The same run pushes an id past the end of the other pipe's heap array. */
  lemma ForeignRemovalOverflows(c: Config, t: FiveTuple, t': FiveTuple)
    requires Mapped(c, t) && c.heapSize > 0 && ArrivesElsewhere(t, t')
    ensures var add, remove := PktAddFlow(t, true), PktRemoveFlow(t', true, true);
      && ValidRun(c, [add] + [remove]) && Overflows(c, Run(c, [add]), remove)
      && |Run(c, [add] + [remove]).flowFree[Pipe(t')]| == c.heapSize + 1
  {
    var add, remove, p := PktAddFlow(t, true), PktRemoveFlow(t', true, true), Pipe(t');
    AfterFirstAdd(c, t, true);
    RunNext(c, [add], remove);
    var db := Run(c, [add]);
    InitSizes(c);
    assert db.flowFree[p] == Init(c).flowFree[p];
    assert |db.flowFree[p]| == c.heapSize;
    assert |Push(db.flowFree, p, db.flows[t.h].id)[p]| == c.heapSize + 1;
  }

  // ---------- Dropped adds ----------

  /** A dropped add leaves its session behind and ends the lockstep. */
  lemma DroppedAddEndsLockstep(c: Config, t: FiveTuple)
    requires Mapped(c, t) && c.heapSize > 0
    ensures ValidRun(c, [PktAddFlow(t, false)]) && !Lockstep(Run(c, [PktAddFlow(t, false)]))
  {
    AfterFirstAdd(c, t, false);
    var db := Run(c, [PktAddFlow(t, false)]);
    assert t.h in db.sessions && t.h !in db.flows;
  }

  /** With one id per pipe, a dropped add leaves no session id for the next flow, which is stored all the same. */
  lemma SessionIdsRunOut(c: Config, t1: FiveTuple, t2: FiveTuple, accepted: bool)
    requires Mapped(c, t1) && Mapped(c, t2) && c.heapSize == 1 && Pipe(t1) == Pipe(t2) && t1.h != t2.h
    ensures var evs := [PktAddFlow(t1, false)] + [PktAddFlow(t2, accepted)];
      ValidRun(c, evs) && t2.h in Run(c, evs).flows && t2.h !in Run(c, evs).sessions && Run(c, evs).sent == []
  {
    var p, first, second := Pipe(t1), PktAddFlow(t1, false), PktAddFlow(t2, accepted);
    AfterFirstAdd(c, t1, false);
    RunNext(c, [first], second);
    var db := Run(c, [first]);
    FirstId(c, p);
    assert InitialIds(c, p, 1) == [4 + p];
    assert Init(c).flowFree[p] == multiset{4 + p} && NoneLeft(db.sessionFree[p]);
    assert Admitted(c, db, t2);
    AddWithNewSession(c, db, t2, accepted);
  }

  /**
   * After a dropped add the next flow takes the id that the orphaned session
   * holds; timing that session out removes the wrong flow and keeps the session.
   */
  lemma TimeoutRemovesForeignFlow(c: Config, t1: FiveTuple, t2: FiveTuple, clearAccepted: bool)
    requires Mapped(c, t1) && Mapped(c, t2) && c.heapSize > 0 && Pipe(t1) == Pipe(t2) && t1.h != t2.h
    ensures var evs := [PktAddFlow(t1, false)] + [PktAddFlow(t2, true)];
      && ValidRun(c, evs) && t1.h in Run(c, evs).sessions && t2.h in Run(c, evs).flows
      && var timeout := PktTimeoutFlow(Run(c, evs).sessions[t1.h].id, clearAccepted);
         && ValidRun(c, evs + [timeout])
         && t2.h !in Run(c, evs + [timeout]).flows && t1.h in Run(c, evs + [timeout]).sessions
  {
    var p, evs := Pipe(t1), [PktAddFlow(t1, false)] + [PktAddFlow(t2, true)];
    AddAfterDropped(c, t1, t2);
    var db := Run(c, evs);
    RunNext(c, evs, PktTimeoutFlow(4 + p, clearAccepted));
    assert db.flows[t2.h].id == 4 + p;
    assert Holder(db, 4 + p).h in db.flows;
  }

  lemma AddAfterDropped(c: Config, t1: FiveTuple, t2: FiveTuple)
    requires Mapped(c, t1) && Mapped(c, t2) && c.heapSize > 0 && Pipe(t1) == Pipe(t2) && t1.h != t2.h
    ensures var evs, p := [PktAddFlow(t1, false)] + [PktAddFlow(t2, true)], Pipe(t1);
      && ValidRun(c, evs) && Run(c, evs).flows == map[t2.h := Record(Stored(c, t2).meta, 4 + p)]
      && t1.h in Run(c, evs).sessions && Run(c, evs).sessions[t1.h].id == 4 + p
  {
    var first, second := PktAddFlow(t1, false), PktAddFlow(t2, true);
    AfterFirstAdd(c, t1, false);
    RunNext(c, [first], second);
    var db := Run(c, [first]);
    FirstId(c, Pipe(t1));
    assert Admitted(c, db, t2);
    if NoneLeft(db.sessionFree[Pipe(t1)]) {
      AddWithNewSession(c, db, t2, true);
    } else {
      OpeningAdd(c, db, t2, true);
    }
  }

  // ---------- Two pipes ----------

  lemma PopSizes(free: seq<multiset<int>>, p: nat)
    requires p < |free| && free[p] != multiset{}
    ensures forall i | 0 <= i < |free| :: |Pop(free, p)[i]| == if i == p then |free[i]| - 1 else |free[i]|
  {
    assert |free[p] - multiset{Least(free[p])}| == |free[p]| - 1;
  }

  lemma InitSizes(c: Config)
    ensures forall i | 0 <= i < NUM_PIPES :: |Init(c).flowFree[i]| == c.heapSize
  {
    forall i | 0 <= i < NUM_PIPES ensures |Init(c).flowFree[i]| == c.heapSize {
      assert |multiset(InitialIds(c, i, c.heapSize))| == |InitialIds(c, i, c.heapSize)|;
    }
  }

  /** In lockstep, with one flow stored under the first id of its pipe. */
  ghost predicate HoldsOne(c: Config, db: Db, t: FiveTuple)
    requires Mapped(c, t)
  {
    && db.Shaped() && AllConserved(c, db) && Lockstep(db)
    && db.flows == map[t.h := Record(Stored(c, t).meta, 4 + Pipe(t))]
    && (forall p | 0 <= p < NUM_PIPES && p != Pipe(t) :: db.flowFree[p] == Init(c).flowFree[p])
    && |db.flowFree[Pipe(t)]| == c.heapSize - 1
  }

  /** The same with two flows, on different pipes. */
  ghost predicate HoldsTwo(c: Config, db: Db, t1: FiveTuple, t2: FiveTuple)
    requires Mapped(c, t1) && Mapped(c, t2)
  {
    && db.Shaped() && AllConserved(c, db) && Lockstep(db)
    && db.flows == map[t1.h := Record(Stored(c, t1).meta, 4 + Pipe(t1)),
                       t2.h := Record(Stored(c, t2).meta, 4 + Pipe(t2))]
    && (forall p | 0 <= p < NUM_PIPES ::
          |db.flowFree[p]| == if p == Pipe(t1) || p == Pipe(t2) then c.heapSize - 1 else c.heapSize)
  }

  lemma FirstHolds(c: Config, t: FiveTuple)
    requires Mapped(c, t) && c.heapSize > 0
    ensures ValidRun(c, [PktAddFlow(t, true)]) && HoldsOne(c, Run(c, [PktAddFlow(t, true)]), t)
  {
    AfterFirstAdd(c, t, true);
    FirstId(c, Pipe(t));
    InitSizes(c);
    PopSizes(Init(c).flowFree, Pipe(t));
  }

  lemma AddInLockstep(c: Config, db: Db, t: FiveTuple)
    requires Mapped(c, t) && db.Shaped() && AllConserved(c, db) && Lockstep(db)
    requires db.flowFree[Pipe(t)] != multiset{} && t.h !in db.flows
    ensures var db', p := AddFlow(c, db, t, true), Pipe(t);
      && AllConserved(c, db') && Lockstep(db') && db'.flowFree == Pop(db.flowFree, p)
      && db'.flows == db.flows[t.h := Record(Stored(c, t).meta, Least(db.flowFree[p]))]
  {
    TableHasRoom(c, db.flowFree, db.flows);
    OpeningAdd(c, db, t, true);
    StepConserves(c, db, PktAddFlow(t, true));
  }

  lemma SecondHolds(c: Config, db: Db, t1: FiveTuple, t2: FiveTuple)
    requires Mapped(c, t1) && Mapped(c, t2) && c.heapSize > 0 && Pipe(t1) != Pipe(t2) && t1.h != t2.h
    requires HoldsOne(c, db, t1)
    ensures HoldsTwo(c, AddFlow(c, db, t2, true), t1, t2)
  {
    OtherPipe(c, db, t1, t2);
    AddInLockstep(c, db, t2);
    OneMore(c, db, AddFlow(c, db, t2, true), t1, t2);
  }

  lemma OtherPipe(c: Config, db: Db, t1: FiveTuple, t2: FiveTuple)
    requires Mapped(c, t1) && Mapped(c, t2) && c.heapSize > 0 && Pipe(t1) != Pipe(t2) && t1.h != t2.h
    requires HoldsOne(c, db, t1)
    ensures db.flowFree[Pipe(t2)] != multiset{} && Least(db.flowFree[Pipe(t2)]) == 4 + Pipe(t2) && t2.h !in db.flows
  {
    FirstId(c, Pipe(t2));
    assert db.flowFree[Pipe(t2)] == Init(c).flowFree[Pipe(t2)];
  }

  lemma OneMore(c: Config, db: Db, db': Db, t1: FiveTuple, t2: FiveTuple)
    requires Mapped(c, t1) && Mapped(c, t2) && c.heapSize > 0 && Pipe(t1) != Pipe(t2) && t1.h != t2.h
    requires HoldsOne(c, db, t1)
    requires db'.Shaped() && AllConserved(c, db') && Lockstep(db') && db.flowFree[Pipe(t2)] != multiset{}
    requires db'.flowFree == Pop(db.flowFree, Pipe(t2)) && Least(db.flowFree[Pipe(t2)]) == 4 + Pipe(t2)
    requires db'.flows == db.flows[t2.h := Record(Stored(c, t2).meta, 4 + Pipe(t2))]
    ensures HoldsTwo(c, db', t1, t2)
  {
    InitSizes(c);
    PopSizes(db.flowFree, Pipe(t2));
  }

  /** The state after one accepted add on each of two pipes. */
  lemma AfterTwoAdds(c: Config, t1: FiveTuple, t2: FiveTuple)
    requires Mapped(c, t1) && Mapped(c, t2) && c.heapSize > 0 && Pipe(t1) != Pipe(t2) && t1.h != t2.h
    ensures var evs := [PktAddFlow(t1, true)] + [PktAddFlow(t2, true)];
      ValidRun(c, evs) && HoldsTwo(c, Run(c, evs), t1, t2)
  {
    FirstHolds(c, t1);
    RunNext(c, [PktAddFlow(t1, true)], PktAddFlow(t2, true));
    SecondHolds(c, Run(c, [PktAddFlow(t1, true)]), t1, t2);
  }

  /** Two ingress pipes that forward to one egress pipe: their first sessions share an egress register. */
  lemma SharedEgressRegister(c: Config, t1: FiveTuple, t2: FiveTuple)
    requires Mapped(c, t1) && Mapped(c, t2) && c.heapSize > 0 && Pipe(t1) != Pipe(t2) && t1.h != t2.h
    requires DevPortToPipe(c.devPortMapping[t1.meta.devPort]) == DevPortToPipe(c.devPortMapping[t2.meta.devPort])
    ensures var evs := [PktAddFlow(t1, true)] + [PktAddFlow(t2, true)];
      && !EgressDisjoint(c) && ValidRun(c, evs) && t1.h in Run(c, evs).sessions && t2.h in Run(c, evs).sessions
      && EgressRegister(Run(c, evs).sessions[t1.h]) == EgressRegister(Run(c, evs).sessions[t2.h])
  {
    AfterTwoAdds(c, t1, t2);
  }

  /** A removal on pipe 0 of a flow of pipe 3, when the heap of pipe 0 is empty. */
  lemma RemovalOnPipeZero(c: Config, db: Db, t0: FiveTuple, t3: FiveTuple, t3': FiveTuple)
    requires Mapped(c, t0) && Mapped(c, t3) && c.heapSize == 1 && Pipe(t0) == 0 && Pipe(t3) == 3 && t0.h != t3.h
    requires ArrivesElsewhere(t3, t3') && Pipe(t3') == 0 && HoldsTwo(c, db, t0, t3)
    ensures var db' := DropFlow(db, t3', true, true);
      && HeapsFit(c, db') && AllConserved(c, db') && db'.flowFree[0] == multiset{7} && db'.sessionFree[0] == multiset{7}
      && db'.flows == db'.sessions == map[t0.h := Record(Stored(c, t0).meta, 4)]
  {
    assert db.flowFree[0] == multiset{};
    assert HeapsFit(c, db) && !RemovalOverflows(c, db, t3');
    DropFitsIff(c, db, t3', true, true);
    DropConserves(c, db, t3', true, true);
  }

  lemma NextRegisterTooLarge(c: Config, db: Db, t: FiveTuple)
    requires Mapped(c, t) && db.Shaped() && AllConserved(c, db) && c.heapSize == 1 && Pipe(t) == 0
    requires db.flowFree[0] == multiset{7} && db.sessionFree[0] == multiset{7} && t.h !in db.flows
    requires t.h !in db.sessions
    requires DevPortToPipe(c.devPortMapping[t.meta.devPort]) > 0
    ensures OpensSession(c, db, t) && NewRegister(c, db, t) >= c.FeatureSize()
  {
    LeastUnique(7, multiset{7});
    TableHasRoom(c, db.flowFree, db.flows);
  }

  /**
   * With one id per pipe, a removal that arrives on pipe 0 fits into its empty
   * heap but puts an id of pipe 3 there; the next add on pipe 0 that is forwarded
   * to another pipe then writes behind the end of the egress index.
   */
  lemma ForeignIdLeavesEgressIndex(c: Config, t0: FiveTuple, t3: FiveTuple, t3': FiveTuple, t: FiveTuple,
      accepted: bool)
    requires Mapped(c, t0) && Mapped(c, t3) && Mapped(c, t) && c.heapSize == 1
    requires Pipe(t0) == 0 && Pipe(t3) == 3 && t0.h != t3.h && t.h != t0.h
    requires ArrivesElsewhere(t3, t3') && Pipe(t3') == 0
    requires Pipe(t) == 0 && DevPortToPipe(c.devPortMapping[t.meta.devPort]) > 0
    ensures var evs := [PktAddFlow(t0, true)] + [PktAddFlow(t3, true)] + [PktRemoveFlow(t3', true, true)];
      ValidRun(c, evs) && HeapsFit(c, Run(c, evs)) && !Safe(c, Run(c, evs), PktAddFlow(t, accepted))
  {
    var two, remove := [PktAddFlow(t0, true)] + [PktAddFlow(t3, true)], PktRemoveFlow(t3', true, true);
    AfterTwoAdds(c, t0, t3);
    RunNext(c, two, remove);
    RemovalOnPipeZero(c, Run(c, two), t0, t3, t3');
    NextRegisterTooLarge(c, Run(c, two + [remove]), t);
  }

  // ---------- Clears ----------

  /** The same five-tuple on the same pipe, with another offset. */
  predicate SameOnPipe(t: FiveTuple, t': FiveTuple) {
    t'.h == t.h && t'.meta.devPort < MAX_DEV_PORT_ID && Pipe(t') == Pipe(t)
  }

  lemma RoutedPair(c: Config, t: FiveTuple, t': FiveTuple)
    requires Mapped(c, t) && SameOnPipe(t, t')
    ensures var evs := [PktAddFlow(t, true)] + [PktRemoveFlow(t', true, true)];
      ValidRun(c, evs) && Routed(evs, k => Pipe(t)) && SafeRun(c, evs)
  {
    RoutedIsSafe(c, [PktAddFlow(t, true)] + [PktRemoveFlow(t', true, true)], k => Pipe(t));
  }

  /** The last command of an add and its removal on the same pipe. */
  lemma AddAndRemove(c: Config, t: FiveTuple, t': FiveTuple)
    requires Mapped(c, t) && c.heapSize > 0 && SameOnPipe(t, t')
    ensures var evs := [PktAddFlow(t, true)] + [PktRemoveFlow(t', true, true)];
      && ValidRun(c, evs) && |Run(c, evs).sent| > 0
      && Run(c, evs).sent[|Run(c, evs).sent| - 1] == DpClearRegisters(t', 4 + Pipe(t))
  {
    var add, remove := PktAddFlow(t, true), PktRemoveFlow(t', true, true);
    AfterFirstAdd(c, t, true);
    RunNext(c, [add], remove);
    ClearsOwnTotalsIff(Run(c, [add]), t', true);
  }

  /** A removal packet whose offset was never set can have the data plane write outside the totals. */
  lemma UnsetOffsetLeavesTotals(c: Config, t: FiveTuple, t': FiveTuple)
    requires Mapped(c, t) && c.heapSize > 0 && SameOnPipe(t, t') && t'.meta.egressOffset < -7
    ensures var evs := [PktAddFlow(t, true)] + [PktRemoveFlow(t', true, true)];
      && ValidRun(c, evs) && Routed(evs, k => Pipe(t)) && SafeRun(c, evs)
      && |Run(c, evs).sent| > 0 && Run(c, evs).sent[|Run(c, evs).sent| - 1].DpClearRegisters?
      && ClearedBy(Run(c, evs).sent[|Run(c, evs).sent| - 1], true) < 0
      && !ClearInBounds(c, Run(c, evs).sent[|Run(c, evs).sent| - 1])
  {
    RoutedPair(c, t, t');
    AddAndRemove(c, t, t');
    assert ClearedBy(DpClearRegisters(t', 4 + Pipe(t)), true) < 0;
  }

  /** A removal packet with offset zero clears another slot if its flow leaves on another pipe than it came. */
  lemma ClearMissesOwnTotals(c: Config, t: FiveTuple, t': FiveTuple)
    requires Mapped(c, t) && c.heapSize > 0 && SameOnPipe(t, t') && t'.meta.egressOffset == 0
    requires DevPortToPipe(c.devPortMapping[t.meta.devPort]) != Pipe(t)
    ensures var add, remove := PktAddFlow(t, true), PktRemoveFlow(t', true, true);
      && ValidRun(c, [add]) && t.h in Run(c, [add]).sessions
      && ValidRun(c, [add] + [remove]) && |Run(c, [add] + [remove]).sent| > 0
      && var cmd := Run(c, [add] + [remove]).sent[|Run(c, [add] + [remove]).sent| - 1];
         cmd.DpClearRegisters? && ClearedBy(cmd, true) != TotalOf(Run(c, [add]).sessions[t.h], true)
  {
    AddAndRemove(c, t, t');
    AfterFirstAdd(c, t, true);
  }

  // ---------- Timeouts that wait ----------

  lemma AfterAddAndRemove(c: Config, t: FiveTuple)
    requires Mapped(c, t) && c.heapSize > 0
    ensures var evs := [PktAddFlow(t, true)] + [PktRemoveFlow(t, true, true)];
      && ValidRun(c, evs) && Run(c, evs).flows == map[] && Lockstep(Run(c, evs)) && AllConserved(c, Run(c, evs))
      && Run(c, evs).flowFree == Init(c).flowFree
  {
    var add, remove := PktAddFlow(t, true), PktRemoveFlow(t, true, true);
    AfterFirstAdd(c, t, true);
    RunNext(c, [add], remove);
    FirstId(c, Pipe(t));
    PushPop(Init(c).flowFree, Pipe(t));
    StepConserves(c, Run(c, [add]), remove);
  }

  /**
   * Nothing is dropped: a timeout decided for a flow that is then removed and
   * whose id is issued again removes the flow that has the id now.
   */
  lemma LateTimeoutRemovesNextFlow(c: Config, t1: FiveTuple, t2: FiveTuple, clearAccepted: bool)
    requires Mapped(c, t1) && Mapped(c, t2) && c.heapSize > 0 && Pipe(t1) == Pipe(t2) && t1.h != t2.h
    ensures var first := [PktAddFlow(t1, true)]; var more := [PktRemoveFlow(t1, true, true)] + [PktAddFlow(t2, true)];
      && ValidRun(c, first) && t1.h in Run(c, first).sessions && ValidRun(c, first + more)
      && t2.h in Run(c, first + more).flows
      && var timeout := PktTimeoutFlow(Run(c, first).sessions[t1.h].id, clearAccepted);
         && ValidRun(c, first + more + [timeout]) && t2.h !in Run(c, first + more + [timeout]).flows
  {
    var p, first := Pipe(t1), [PktAddFlow(t1, true)];
    var more := [PktRemoveFlow(t1, true, true)] + [PktAddFlow(t2, true)];
    FirstSession(c, t1);
    IdIssuedAgain(c, t1, t2);
    RunNext(c, first + more, PktTimeoutFlow(4 + p, clearAccepted));
    TimeoutTakes(c, Run(c, first + more), t2.h, 4 + p, clearAccepted);
  }

  lemma FirstSession(c: Config, t: FiveTuple)
    requires Mapped(c, t) && c.heapSize > 0
    ensures ValidRun(c, [PktAddFlow(t, true)]) && t.h in Run(c, [PktAddFlow(t, true)]).sessions
    ensures Run(c, [PktAddFlow(t, true)]).sessions[t.h].id == 4 + Pipe(t)
  {
    AfterFirstAdd(c, t, true);
  }

  lemma TimeoutTakes(c: Config, db: Db, k: FlowKey, id: int, clearAccepted: bool)
    requires c.Valid() && db.Shaped() && PktTimeoutFlow(id, clearAccepted).Valid(c)
    requires db.flows.Keys == {k} && db.flows[k].id == id
    ensures k !in Step(c, db, PktTimeoutFlow(id, clearAccepted)).flows
  {
    assert LiveId(db.flows, id) && Holder(db, id).h in db.flows;
  }

  lemma IdIssuedAgain(c: Config, t1: FiveTuple, t2: FiveTuple)
    requires Mapped(c, t1) && Mapped(c, t2) && c.heapSize > 0 && Pipe(t1) == Pipe(t2) && t1.h != t2.h
    ensures var evs := [PktAddFlow(t1, true)] + ([PktRemoveFlow(t1, true, true)] + [PktAddFlow(t2, true)]);
      ValidRun(c, evs) && Run(c, evs).flows == map[t2.h := Record(Stored(c, t2).meta, 4 + Pipe(t2))]
  {
    var two, add := [PktAddFlow(t1, true)] + [PktRemoveFlow(t1, true, true)], PktAddFlow(t2, true);
    AfterAddAndRemove(c, t1);
    RunNext(c, two, add);
    assert two + [add] == [PktAddFlow(t1, true)] + ([PktRemoveFlow(t1, true, true)] + [add]);
    AddToEmpty(c, Run(c, two), t2);
  }

  lemma AddToEmpty(c: Config, db: Db, t: FiveTuple)
    requires Mapped(c, t) && c.heapSize > 0 && db.Shaped() && AllConserved(c, db) && Lockstep(db)
    requires db.flows == map[] && db.flowFree == Init(c).flowFree
    ensures AddFlow(c, db, t, true).flows == map[t.h := Record(Stored(c, t).meta, 4 + Pipe(t))]
  {
    FirstId(c, Pipe(t));
    AddInLockstep(c, db, t);
  }
}
