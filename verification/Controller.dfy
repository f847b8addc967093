/**
 * The flow database and the data plane thread together: whatever commands
 * arrive, and however far the data plane lags behind, the switch ends up with
 * the entries of the flow table.
 */
module Controllers {
  import opened Structs
  import opened IdHeaps
  import opened ReverseIndex
  import opened FlowDbModel
  import opened FlowDbRuns
  import opened Dataplane
  import opened Agreement
  import FlowDbs

  // ---------- The commands on their way ----------

  /** The command writes within the handle cache, or within the totals of every feature. */
  ghost predicate InRange(c: Config, cmd: Command) {
    if cmd.DpClearRegisters? then ClearInBounds(c, cmd) else 0 <= cmd.flowId < c.FeatureSize()
  }

  ghost predicate AllInRange(c: Config, cmds: seq<Command>) {
    forall i :: 0 <= i < |cmds| ==> InRange(c, cmds[i])
  }

  /** The step adds commands at the end, and all of them are in range exactly when it sends no clear that is not. */
  ghost predicate ExtendsInRangeIff(c: Config, sent: seq<Command>, sent': seq<Command>, ok: bool) {
    |sent| <= |sent'| && sent'[..|sent|] == sent && (AllInRange(c, sent'[|sent|..]) <==> ok)
  }

  lemma AddExtends(c: Config, db: Db, t: FiveTuple, accepted: bool)
    requires c.Valid() && db.Shaped() && t.meta.devPort < MAX_DEV_PORT_ID && Admitted(c, db, t) && AllConserved(c, db)
    ensures ExtendsInRangeIff(c, db.sent, AddFlow(c, db, t, accepted).sent, true)
  {
    var p := Pipe(t);
    ConservedPop(c, db.flowFree, db.flows, p, t.h, Record(Stored(c, t).meta, Least(db.flowFree[p])));
  }

  lemma DropExtends(c: Config, db: Db, t: FiveTuple, accepted: bool, clearAccepted: bool)
    requires db.Shaped() && t.meta.devPort < MAX_DEV_PORT_ID && t.h in db.flows && AllConserved(c, db)
    ensures ExtendsInRangeIff(c, db.sent, DropFlow(db, t, accepted, clearAccepted).sent,
                              clearAccepted && t.h in db.sessions ==> ClearFits(c, db, t))
  {
    var remove, sent' := DpRemoveFlow(t, db.flows[t.h].id), DropFlow(db, t, accepted, clearAccepted).sent;
    assert LiveId(db.flows, db.flows[t.h].id);
    assert IsId(c, db.flows[t.h].id) && InRange(c, remove);
    if clearAccepted && t.h in db.sessions {
      var clear := DpClearRegisters(t, db.sessions[t.h].id);
      ClearInBoundsIff(c, db, t);
      assert sent' == Put(db.sent, remove, accepted) + [clear];
      assert sent'[|db.sent|..] == (if accepted then [remove] else []) + [clear];
      assert sent'[|db.sent|..][|sent'| - 1 - |db.sent|] == clear;
    } else {
      assert sent' == Put(db.sent, remove, accepted);
    }
  }

  lemma StepExtends(c: Config, db: Db, ev: Event)
    requires c.Valid() && db.Shaped() && ev.Valid(c) && AllConserved(c, db)
    ensures ExtendsInRangeIff(c, db.sent, Step(c, db, ev).sent, ClearSafe(c, db, ev))
  {
    match ev
    case PktAddFlow(t, accepted) =>
      if Admitted(c, db, t) {
        AddExtends(c, db, t, accepted);
      }
    case PktRemoveFlow(t, accepted, clearAccepted) =>
      if t.h in db.flows {
        DropExtends(c, db, t, accepted, clearAccepted);
      }
    case PktTimeoutFlow(id, clearAccepted) =>
      if LiveId(db.flows, id) {
        DropExtends(c, db, Holder(db, id), true, clearAccepted);
      }
    case PktBloomFilter =>
  }

  /** All commands of a run write within the handle cache and the totals exactly when no clear leaves the totals. */
  lemma {:induction false} SentInRangeIff(c: Config, evs: seq<Event>)
    requires ValidRun(c, evs)
    ensures AllInRange(c, Run(c, evs).sent) <==> ClearSafeRun(c, evs)
  {
    if evs != [] {
      var before, ev := evs[..|evs| - 1], evs[|evs| - 1];
      var db := Run(c, before);
      SentInRangeIff(c, before);
      IdsConserved(c, before);
      StepExtends(c, db, ev);
      SplitInRange(c, Run(c, evs).sent, |db.sent|);
    }
  }

  lemma SplitInRange(c: Config, sent: seq<Command>, n: nat)
    requires n <= |sent|
    ensures AllInRange(c, sent) <==> AllInRange(c, sent[..n]) && AllInRange(c, sent[n..])
  {
    assert sent == sent[..n] + sent[n..];
    if AllInRange(c, sent) {
      forall i | 0 <= i < |sent| - n ensures InRange(c, sent[n..][i]) {
        assert sent[n..][i] == sent[n + i];
      }
    }
  }

  // ---------- The two threads ----------

  /** Marker for the folded predicate of a data plane thread, see `Unfold`. */
  ghost predicate UnfoldPlane(i: int) {
    true
  }

  ghost predicate HasDone(d: DataplaneThread, sent: seq<Command>, done: nat, totals: seq<seq<nat>>)
    reads d.Repr()
  {
    && done <= |sent| && |totals| == |d.features|
    && d.Is(Apply(d.alloc, BLANK, sent[..done]), ZeroedAll(d.OnEgress(), totals, sent[..done]))
  }

  /**
   * The data plane has executed the first `done` commands of those sent,
   * starting with the given totals (folded, see `Unfold`).
   */
  ghost predicate Behind(d: DataplaneThread, sent: seq<Command>, done: nat, totals: seq<seq<nat>>)
    reads d.Repr()
  {
    done <= |sent| && forall i {:trigger UnfoldPlane(i)} :: UnfoldPlane(i) ==> HasDone(d, sent, done, totals)
  }

  /** The data plane executes the commands up to `until`. */
  method CatchUp(d: DataplaneThread, sent: seq<Command>, done: nat, until: nat, ghost c: Config,
      ghost totals: seq<seq<nat>>)
    requires Behind(d, sent, done, totals) && done <= until <= |sent|
    requires AllInRange(c, sent) && d.Separate(c.FeatureSize())
    modifies d.Repr()
    ensures Behind(d, sent, until, totals)
  {
    assert UnfoldPlane(0);
    ghost var now, start := Apply(d.alloc, BLANK, sent[..done]), ZeroedAll(d.OnEgress(), totals, sent[..done]);
    forall i | 0 <= i < until - done ensures d.Fits(sent[done..until][i]) {
      assert sent[done..until][i] == sent[done + i] && InRange(c, sent[done + i]);
    }
    d.Drain(sent[done..until], now, start);
    ApplyConcat(d.alloc, BLANK, sent[..done], sent[done..until]);
    ZeroedConcat(d.OnEgress(), totals, sent[..done], sent[done..until]);
    assert sent[..done] + sent[done..until] == sent[..until];
  }

  /** The same beside a flow database, which does not notice. */
  method CatchUpBeside(f: FlowDbs.FlowDb, ghost db: Db, ghost exact: bool,
                       d: DataplaneThread, sent: seq<Command>, done: nat, until: nat, ghost totals: seq<seq<nat>>)
    requires f.Is(db, exact) && Apart(f, d)
    requires Behind(d, sent, done, totals) && done <= until <= |sent|
    requires AllInRange(f.c, sent) && d.Separate(f.c.FeatureSize())
    modifies d.Repr()
    ensures Behind(d, sent, until, totals) && f.Is(db, exact)
  {
    CatchUp(d, sent, done, until, f.c, totals);
  }

  /** The flow database handles a command, which the data plane does not notice. */
  method ExecuteBeside(f: FlowDbs.FlowDb, ev: Event, ghost db: Db, ghost exact: bool,
                       d: DataplaneThread, done: nat, ghost totals: seq<seq<nat>>)
    requires f.Is(db, exact) && Reachable(f.c, db) && ev.Valid(f.c) && Safe(f.c, db, ev) && Apart(f, d)
    requires exact ==> EgressDisjoint(f.c) && Piped(f.c, db)
    requires Behind(d, db.sent, done, totals)
    modifies f.Repr()
    ensures f.Is(Step(f.c, db, ev), exact) && Behind(d, db.sent, done, totals)
  {
    f.Execute(ev, db, exact);
  }

  /** The two threads share no memory. */
  ghost predicate Apart(f: FlowDbs.FlowDb, d: DataplaneThread) {
    forall o :: o in d.Repr() ==> o !in f.Repr()
  }

  /** More commands do not change what has been executed. */
  lemma StillBehind(d: DataplaneThread, sent: seq<Command>, sent': seq<Command>, done: nat, totals: seq<seq<nat>>)
    requires Behind(d, sent, done, totals) && |sent| <= |sent'| && sent'[..|sent|] == sent
    ensures Behind(d, sent', done, totals)
  {
    assert UnfoldPlane(0);
    assert sent'[..done] == sent[..done];
  }

  /** Once all commands are executed, the switch is in the drained state. */
  lemma CaughtUp(d: DataplaneThread, db: Db, totals: seq<seq<nat>>)
    requires Behind(d, db.sent, |db.sent|, totals)
    ensures |totals| == |d.features| && d.Is(Drained(d.alloc, db), ZeroedAll(d.OnEgress(), totals, db.sent))
    ensures d.Cleared(totals, db.sent)
  {
    assert UnfoldPlane(0);
    assert db.sent[..|db.sent|] == db.sent;
    d.IsCleared(Drained(d.alloc, db), totals, db.sent);
  }

  /**
   * Both threads: after each command of the packet ring the data plane executes
   * as many pending commands as `pace` says, and in the end all that are left.
   * Nothing is asked of the run but that both threads stay within their arrays.
   */
  method Settle(f: FlowDbs.FlowDb, d: DataplaneThread, evs: seq<Event>, pace: seq<nat>,
                ghost exact: bool, ghost route: FlowKey -> nat, ghost totals: seq<seq<nat>>)
    requires ValidRun(f.c, evs) && SafeRun(f.c, evs) && ClearSafeRun(f.c, evs) && |pace| == |evs|
    requires f.Is(Init(f.c), true) && Behind(d, [], 0, totals) && Apart(f, d)
    requires d.Separate(f.c.FeatureSize()) && Fresh(d.alloc)
    requires exact ==> EgressDisjoint(f.c) && Routed(evs, route)
    modifies f.Repr(), d.Repr()
    ensures f.Is(Run(f.c, evs), exact) && |totals| == |d.features|
    ensures d.Is(Drained(d.alloc, Run(f.c, evs)), ZeroedAll(d.OnEgress(), totals, Run(f.c, evs).sent))
    ensures d.Cleared(totals, Run(f.c, evs).sent)
    ensures FaithfulRun(f.c, evs) ==> Agree(Run(f.c, evs), Drained(d.alloc, Run(f.c, evs)))
    ensures FaithfulRun(f.c, evs) && Routed(evs, route) ==> RegistersOwned(Run(f.c, evs), d.entries)
    ensures NoDroppedAdd(f.c, evs) ==> Lockstep(Run(f.c, evs))
    ensures AllConserved(f.c, Run(f.c, evs)) && HeapsFit(f.c, Run(f.c, evs))
  {
    var done := Work(f, d, evs, pace, exact, route, totals);
    SentInRangeIff(f.c, evs);
    var sent := f.Sent(Run(f.c, evs), exact);
    CatchUpBeside(f, Run(f.c, evs), exact, d, sent, done, |sent|, totals);
    CaughtUp(d, Run(f.c, evs), totals);
    Settled(f.c, evs, route, d.alloc);
  }

  /** The loop of `Settle`; the result is the number of commands that the data plane has executed. */
  method Work(f: FlowDbs.FlowDb, d: DataplaneThread, evs: seq<Event>, pace: seq<nat>,
              ghost exact: bool, ghost route: FlowKey -> nat, ghost totals: seq<seq<nat>>) returns (done: nat)
    requires ValidRun(f.c, evs) && SafeRun(f.c, evs) && ClearSafeRun(f.c, evs) && |pace| == |evs|
    requires f.Is(Init(f.c), true) && Behind(d, [], 0, totals) && Apart(f, d) && d.Separate(f.c.FeatureSize())
    requires exact ==> EgressDisjoint(f.c) && Routed(evs, route)
    modifies f.Repr(), d.Repr()
    ensures f.Is(Run(f.c, evs), exact) && Behind(d, Run(f.c, evs).sent, done, totals)
  {
    done := 0;
    f.Weaken(Init(f.c), true, exact);
    for i := 0 to |evs|
      invariant f.Is(Run(f.c, evs[..i]), exact) && Behind(d, Run(f.c, evs[..i]).sent, done, totals)
    {
      FlowDbs.RunStep(f.c, evs, i, exact, route);
      CommandsGrow(f.c, evs, i);
      done := Advance(f, d, evs[i], pace[i], done, Run(f.c, evs[..i]), Run(f.c, evs[..i + 1]), exact, totals);
    }
    assert evs[..|evs|] == evs;
  }

  /** What the state after a safe run satisfies. */
  lemma Settled(c: Config, evs: seq<Event>, route: FlowKey -> nat, alloc: Allocator)
    requires ValidRun(c, evs) && SafeRun(c, evs) && Fresh(alloc)
    ensures FaithfulRun(c, evs) ==> Agree(Run(c, evs), Drained(alloc, Run(c, evs)))
    ensures FaithfulRun(c, evs) && Routed(evs, route) ==>
      RegistersOwned(Run(c, evs), Drained(alloc, Run(c, evs)).entries)
    ensures NoDroppedAdd(c, evs) ==> Lockstep(Run(c, evs))
    ensures AllConserved(c, Run(c, evs)) && HeapsFit(c, Run(c, evs))
  {
    if FaithfulRun(c, evs) {
      RunAgrees(c, evs, alloc);
    }
    if FaithfulRun(c, evs) && Routed(evs, route) {
      EntriesOwnRegisters(c, evs, route, alloc);
    }
    if NoDroppedAdd(c, evs) {
      LockstepRuns(c, evs);
    }
    SafeReachable(c, evs);
    assert Unfold(0);
  }

  /** One command of the packet ring, and up to `pace` of the commands for the switch. */
  method Advance(f: FlowDbs.FlowDb, d: DataplaneThread, ev: Event, pace: nat, done: nat,
                 ghost db: Db, ghost db': Db, ghost exact: bool, ghost totals: seq<seq<nat>>) returns (done': nat)
    requires f.Is(db, exact) && Reachable(f.c, db) && ev.Valid(f.c) && Safe(f.c, db, ev) && db' == Step(f.c, db, ev)
    requires exact ==> EgressDisjoint(f.c) && Piped(f.c, db)
    requires Behind(d, db.sent, done, totals) && Apart(f, d) && d.Separate(f.c.FeatureSize())
    requires |db.sent| <= |db'.sent| && db'.sent[..|db.sent|] == db.sent && AllInRange(f.c, db'.sent)
    modifies f.Repr(), d.Repr()
    ensures f.Is(db', exact) && Behind(d, db'.sent, done', totals)
  {
    ExecuteBeside(f, ev, db, exact, d, done, totals);
    StillBehind(d, db.sent, db'.sent, done, totals);
    var sent := f.Sent(db', exact);
    done' := if done + pace <= |sent| then done + pace else |sent|;
    CatchUpBeside(f, db', exact, d, sent, done, done', totals);
  }

  lemma CommandsGrow(c: Config, evs: seq<Event>, i: nat)
    requires ValidRun(c, evs) && ClearSafeRun(c, evs) && i < |evs|
    ensures var sent, sent' := Run(c, evs[..i]).sent, Run(c, evs[..i + 1]).sent;
      |sent| <= |sent'| && sent'[..|sent|] == sent && AllInRange(c, sent')
  {
    assert evs[..i + 1][..i] == evs[..i];
    IdsConserved(c, evs[..i]);
    StepExtends(c, Run(c, evs[..i]), evs[i]);
    ClearSafePrefix(c, evs, i + 1);
    SentInRangeIff(c, evs[..i + 1]);
  }
}
