/**
 * The thread that applies commands to the switch, and its cache of entry
 * handles.  The two classification tables (IPv4 and IPv6) hand out handles
 * independently; a handle may be any number that is not in use in its table.
 */
module Dataplane {
  import opened Structs
  import opened FlowDbModel
  import opened FlowDbRuns
  import Features

  /** A classification entry: which tuple it matches, in which pipe, and the register it selects. */
  datatype Entry = Entry(key: FlowKey, pipe: nat, register: int)

  type Handle = (L3Proto, nat)

  /** `hdls` is `entry_hdls`, all zero initially; `adds` counts the insertions so far. */
  datatype Switch = Switch(entries: map<Handle, Entry>, hdls: map<int, nat>, adds: nat) {
    function HdlOf(id: int): nat {
      if id in hdls then hdls[id] else 0
    }
  }

  const BLANK: Switch := Switch(map[], map[], 0)

  /** Picks the handle for the n-th insertion, given the handles in use. */
  type Allocator = (nat, set<Handle>, L3Proto) -> nat

  ghost predicate Fresh(alloc: Allocator) {
    forall n, used, l3 :: (l3, alloc(n, used, l3)) !in used
  }

  /** Finitely many handles leave one unused. */
  lemma {:induction false} UnusedExists(used: set<Handle>, l3: L3Proto, n: nat)
    ensures exists h: nat :: h >= n && (l3, h) !in used
    decreases |used|
  {
    if (l3, n) in used {
      UnusedExists(used - {(l3, n)}, l3, n + 1);
      var h: nat :| h >= n + 1 && (l3, h) !in used - {(l3, n)};
      assert h >= n && (l3, h) !in used;
    }
  }

  ghost function Unused(used: set<Handle>, l3: L3Proto): (h: nat)
    ensures (l3, h) !in used
  {
    UnusedExists(used, l3, 0);
    var h: nat :| h >= 0 && (l3, h) !in used;
    h
  }

  /** Allocators of fresh handles exist. */
  lemma FreshExists()
    ensures exists alloc: Allocator :: Fresh(alloc)
  {
    var alloc: Allocator := (n, used, l3) => Unused(used, l3);
    assert Fresh(alloc);
  }

  function Exec(alloc: Allocator, sw: Switch, cmd: Command): Switch {
    match cmd
    case DpAddFlow(t, flowId, sessionId) =>
      var hdl := alloc(sw.adds, sw.entries.Keys, t.h.l3);
      Switch(sw.entries[(t.h.l3, hdl) := Entry(t.h, Pipe(t), IdToRegister(sessionId))], sw.hdls[flowId := hdl],
        sw.adds + 1)
    case DpRemoveFlow(t, flowId) =>
      sw.(entries := sw.entries - {(t.h.l3, sw.HdlOf(flowId))})
    case DpClearRegisters(_, _) => sw
  }

  /** The switch after a sequence of commands. */
  function Apply(alloc: Allocator, sw: Switch, cmds: seq<Command>): Switch {
    if cmds == [] then sw else Exec(alloc, Apply(alloc, sw, cmds[..|cmds| - 1]), cmds[|cmds| - 1])
  }

  lemma {:induction false} ApplyConcat(alloc: Allocator, sw: Switch, a: seq<Command>, b: seq<Command>)
    ensures Apply(alloc, Apply(alloc, sw, a), b) == Apply(alloc, sw, a + b)
  {
    if b == [] {
      assert a + b == a;
    } else {
      ApplyConcat(alloc, sw, a, b[..|b| - 1]);
      assert (a + b)[..|a + b| - 1] == a + b[..|b| - 1];
    }
  }

  // ---------- Clears ----------

  function ClearTotal(total: seq<nat>, index: int): (r: seq<nat>)
    ensures |r| == |total|
  {
    if 0 <= index < |total| then total[index := 0] else total
  }

  /** The totals of all features after a command: a clear zeroes one slot in each. */
  function Zeroed(onEgress: seq<bool>, totals: seq<seq<nat>>, cmd: Command): (r: seq<seq<nat>>)
    requires |onEgress| == |totals|
    ensures |r| == |totals|
  {
    if !cmd.DpClearRegisters? then totals
    else seq(|totals|, i requires 0 <= i < |totals| => ClearTotal(totals[i], ClearedBy(cmd, onEgress[i])))
  }

  function ZeroedAll(onEgress: seq<bool>, totals: seq<seq<nat>>, cmds: seq<Command>): (r: seq<seq<nat>>)
    requires |onEgress| == |totals|
    ensures |r| == |totals|
  {
    if cmds == [] then totals else Zeroed(onEgress, ZeroedAll(onEgress, totals, cmds[..|cmds| - 1]), cmds[|cmds| - 1])
  }

  lemma {:induction false} ZeroedConcat(onEgress: seq<bool>, totals: seq<seq<nat>>, a: seq<Command>, b: seq<Command>)
    requires |onEgress| == |totals|
    ensures ZeroedAll(onEgress, ZeroedAll(onEgress, totals, a), b) == ZeroedAll(onEgress, totals, a + b)
  {
    if b == [] {
      assert a + b == a;
    } else {
      ZeroedConcat(onEgress, totals, a, b[..|b| - 1]);
      assert (a + b)[..|a + b| - 1] == a + b[..|b| - 1];
    }
  }

  /** The command is a clear of slot `x`: the session's id, on egress moved by the offset. */
  predicate Names(cmd: Command, onEgress: bool, x: int) {
    cmd.DpClearRegisters? && if onEgress then x == cmd.sessionId + cmd.tuple.meta.egressOffset else x == cmd.sessionId
  }

  ghost predicate SomeNames(cmds: seq<Command>, onEgress: bool, x: int) {
    exists n :: 0 <= n < |cmds| && Names(cmds[n], onEgress, x)
  }

  /** A command leaves zero in the slot that it names, and every other slot as it was. */
  lemma ZeroedAt(onEgress: seq<bool>, totals: seq<seq<nat>>, cmd: Command, i: nat)
    requires |onEgress| == |totals| && i < |totals|
    ensures var r := Zeroed(onEgress, totals, cmd)[i];
      && |r| == |totals[i]|
      && forall x :: 0 <= x < |r| ==> r[x] == if Names(cmd, onEgress[i], x) then 0 else totals[i][x]
  {
  }

  lemma SomeNamesLast(cmds: seq<Command>, onEgress: bool, x: int)
    requires cmds != []
    ensures SomeNames(cmds, onEgress, x) <==>
      SomeNames(cmds[..|cmds| - 1], onEgress, x) || Names(cmds[|cmds| - 1], onEgress, x)
  {
    if SomeNames(cmds[..|cmds| - 1], onEgress, x) {
      var n :| 0 <= n < |cmds| - 1 && Names(cmds[..|cmds| - 1][n], onEgress, x);
      assert Names(cmds[n], onEgress, x);
    }
    if SomeNames(cmds, onEgress, x) && !Names(cmds[|cmds| - 1], onEgress, x) {
      var n :| 0 <= n < |cmds| && Names(cmds[n], onEgress, x);
      assert Names(cmds[..|cmds| - 1][n], onEgress, x);
    }
  }

  /** After any commands a slot is zero if some clear named it, and otherwise it has its starting value. */
  lemma {:induction false} ZeroedAllAt(onEgress: seq<bool>, totals: seq<seq<nat>>, cmds: seq<Command>, i: nat)
    requires |onEgress| == |totals| && i < |totals|
    ensures var r := ZeroedAll(onEgress, totals, cmds)[i];
      && |r| == |totals[i]|
      && forall x :: 0 <= x < |r| ==> r[x] == if SomeNames(cmds, onEgress[i], x) then 0 else totals[i][x]
  {
    if cmds != [] {
      var before := cmds[..|cmds| - 1];
      ZeroedAllAt(onEgress, totals, before, i);
      ZeroedAt(onEgress, ZeroedAll(onEgress, totals, before), cmds[|cmds| - 1], i);
      forall x | 0 <= x < |totals[i]| ensures SomeNames(cmds, onEgress[i], x) <==>
        SomeNames(before, onEgress[i], x) || Names(cmds[|cmds| - 1], onEgress[i], x) {
        SomeNamesLast(cmds, onEgress[i], x);
      }
    }
  }

  // ---------- The thread ----------

  /** The command loop over the commands taken from the ring. */
  class DataplaneThread {
    const alloc: Allocator
    const entryHdls: array<nat>
    const features: seq<Features.FeatureRegister>
    var entries: map<Handle, Entry>
    var adds: nat

    ghost function Repr(): set<object> {
      {this as object, entryHdls} + set i | 0 <= i < |features| :: features[i].values
    }

    ghost function OnEgress(): (r: seq<bool>)
      ensures |r| == |features|
    {
      seq(|features|, i requires 0 <= i < |features| => features[i].onEgress)
    }

    /** The handle cache and the totals have the same size and are different arrays. */
    ghost predicate Separate(size: nat) {
      && entryHdls.Length == size
      && (forall i :: 0 <= i < |features| ==> features[i].values.Length == size && features[i].values != entryHdls)
      && (forall i, j :: 0 <= i < j < |features| ==> features[i].values != features[j].values)
    }

    /** The thread's state is the given switch state, and the features have the given totals. */
    ghost predicate Is(sw: Switch, totals: seq<seq<nat>>)
      reads Repr()
    {
      && entries == sw.entries && adds == sw.adds
      && (forall id :: 0 <= id < entryHdls.Length ==> entryHdls[id] == sw.HdlOf(id))
      && |totals| == |features| && (forall i :: 0 <= i < |features| ==> features[i].values[..] == totals[i])
    }

    /** Every slot that some clear among the commands names is zero, every other one has its starting value. */
    ghost predicate Cleared(start: seq<seq<nat>>, cmds: seq<Command>)
      reads set i | 0 <= i < |features| :: features[i].values
    {
      && |start| == |features|
      && forall i :: 0 <= i < |features| ==>
           && features[i].values.Length == |start[i]|
           && forall x :: 0 <= x < |start[i]| ==>
                features[i].values[x] == if SomeNames(cmds, features[i].onEgress, x) then 0 else start[i][x]
    }

    lemma IsCleared(sw: Switch, start: seq<seq<nat>>, cmds: seq<Command>)
      requires |start| == |features| && Is(sw, ZeroedAll(OnEgress(), start, cmds))
      ensures Cleared(start, cmds)
    {
      forall i | 0 <= i < |features|
        ensures var r := ZeroedAll(OnEgress(), start, cmds)[i];
          && |r| == |start[i]| && features[i].values[..] == r
          && forall x :: 0 <= x < |r| ==>
               r[x] == if SomeNames(cmds, features[i].onEgress, x) then 0 else start[i][x]
      {
        ZeroedAllAt(OnEgress(), start, cmds, i);
      }
    }

    constructor (featureSize: nat, features: seq<Features.FeatureRegister>, alloc: Allocator,
        ghost totals: seq<seq<nat>>)
      requires |totals| == |features| && forall i :: 0 <= i < |features| ==> features[i].values[..] == totals[i]
      requires forall i :: 0 <= i < |features| ==> features[i].values.Length == featureSize
      requires forall i, j :: 0 <= i < j < |features| ==> features[i].values != features[j].values
      ensures this.alloc == alloc && this.features == features && Separate(featureSize) && fresh(entryHdls)
      ensures Is(BLANK, totals)
    {
      this.alloc, this.features := alloc, features;
      entryHdls := new nat[featureSize](_ => 0);
      entries := map[];
      adds := 0;
    }

    /** The command writes within the handle cache and within the totals. */
    ghost predicate Fits(cmd: Command) {
      if cmd.DpClearRegisters? then
        forall i :: 0 <= i < |features| ==> 0 <= ClearedBy(cmd, features[i].onEgress) < features[i].values.Length
      else 0 <= cmd.flowId < entryHdls.Length
    }

    method Execute(cmd: Command, ghost sw: Switch, ghost totals: seq<seq<nat>>)
      requires Is(sw, totals) && Separate(entryHdls.Length) && Fits(cmd)
      modifies Repr()
      ensures Is(Exec(alloc, sw, cmd), Zeroed(OnEgress(), totals, cmd))
      ensures forall i, x :: 0 <= i < |features| && 0 <= x < features[i].values.Length ==>
        features[i].values[x] == if Names(cmd, features[i].onEgress, x) then 0 else old(features[i].values[x])
    {
      match cmd
      case DpAddFlow(t, flowId, sessionId) =>
        var hdl := alloc(adds, entries.Keys, t.h.l3);
        entries := entries[(t.h.l3, hdl) := Entry(t.h, Pipe(t), IdToRegister(sessionId))];
        entryHdls[flowId] := hdl;
        adds := adds + 1;
      case DpRemoveFlow(t, flowId) =>
        entries := entries - {(t.h.l3, entryHdls[flowId])};
      case DpClearRegisters(t, sessionId) =>
        Features.ClearRegisters(features, sessionId, t.meta.egressOffset);
    }

    method Drain(cmds: seq<Command>, ghost sw: Switch, ghost totals: seq<seq<nat>>)
      requires Is(sw, totals) && Separate(entryHdls.Length)
      requires forall i :: 0 <= i < |cmds| ==> Fits(cmds[i])
      modifies Repr()
      ensures Is(Apply(alloc, sw, cmds), ZeroedAll(OnEgress(), totals, cmds)) && Cleared(totals, cmds)
    {
      for i := 0 to |cmds|
        invariant Is(Apply(alloc, sw, cmds[..i]), ZeroedAll(OnEgress(), totals, cmds[..i]))
      {
        Execute(cmds[i], Apply(alloc, sw, cmds[..i]), ZeroedAll(OnEgress(), totals, cmds[..i]));
        assert cmds[..i + 1][..i] == cmds[..i];
      }
      assert cmds[..|cmds|] == cmds;
      IsCleared(Apply(alloc, sw, cmds), totals, cmds);
    }
  }
}

/** End-to-end agreement between the flow table and the switch. */
module Agreement {
  import opened Structs
  import opened ReverseIndex
  import opened IdHeaps
  import opened FlowDbModel
  import opened FlowDbRuns
  import opened FlowDbCases
  import opened Dataplane

  /** The entry that the switch should hold for a stored flow: it counts in the register of the flow's session. */
  ghost function Expected(db: Db, k: FlowKey): Entry
    requires k in db.flows && k in db.sessions
  {
    Entry(k, DevPortToPipe(db.flows[k].meta.devPort), IdToRegister(db.sessions[k].id))
  }

  ghost function HandleOf(db: Db, sw: Switch, k: FlowKey): Handle
    requires k in db.flows
  {
    (k.l3, sw.HdlOf(db.flows[k].id))
  }

  /** The switch holds exactly one entry per stored flow, under the handle cached for the flow's id. */
  ghost predicate Agree(db: Db, sw: Switch) {
    && (forall k | k in db.flows ::
          k in db.sessions && HandleOf(db, sw, k) in sw.entries && sw.entries[HandleOf(db, sw, k)] == Expected(db, k))
    && (forall h | h in sw.entries :: sw.entries[h].key in db.flows && HandleOf(db, sw, sw.entries[h].key) == h)
  }

  /** Neither a removal is dropped nor is a flow admitted when no session id is left. */
  ghost predicate Faithful(c: Config, db: Db, ev: Event)
    requires c.Valid() && db.Shaped() && ev.Valid(c)
  {
    match ev
    case PktAddFlow(t, _) => Admitted(c, db, t) ==> t.h in db.sessions || !NoneLeft(db.sessionFree[Pipe(t)])
    case PktRemoveFlow(t, accepted, _) => t.h in db.flows ==> accepted
    case PktTimeoutFlow(_, _) => true
    case PktBloomFilter => true
  }

  /** An insertion must not meet its own key, a deletion must name an entry of its key. */
  ghost predicate Enabled(sw: Switch, cmd: Command) {
    match cmd
    case DpAddFlow(t, _, _) => forall h :: h in sw.entries ==> sw.entries[h].key != t.h
    case DpRemoveFlow(t, flowId) => (t.h.l3, sw.HdlOf(flowId)) in sw.entries &&
      sw.entries[(t.h.l3, sw.HdlOf(flowId))].key == t.h
    case DpClearRegisters(_, _) => true
  }

  ghost predicate AllEnabled(alloc: Allocator, sw: Switch, cmds: seq<Command>) {
    forall i :: 0 <= i < |cmds| ==> Enabled(Apply(alloc, sw, cmds[..i]), cmds[i])
  }

  ghost function Drained(alloc: Allocator, db: Db): Switch {
    Apply(alloc, BLANK, db.sent)
  }

  lemma SentOne(alloc: Allocator, sent: seq<Command>, cmd: Command)
    ensures Apply(alloc, BLANK, sent + [cmd]) == Exec(alloc, Apply(alloc, BLANK, sent), cmd)
    ensures AllEnabled(alloc, BLANK, sent) && Enabled(Apply(alloc, BLANK, sent), cmd) ==>
      AllEnabled(alloc, BLANK, sent + [cmd])
  {
    assert (sent + [cmd])[..|sent|] == sent;
    forall i | 0 <= i < |sent| ensures (sent + [cmd])[..i] == sent[..i] {}
  }

  lemma AddAgrees(c: Config, db: Db, t: FiveTuple, accepted: bool, alloc: Allocator)
    requires c.Valid() && db.Shaped() && t.meta.devPort < MAX_DEV_PORT_ID && AllConserved(c, db) && Fresh(alloc)
    requires Admitted(c, db, t) && Faithful(c, db, PktAddFlow(t, accepted)) && Agree(db, Drained(alloc, db))
    ensures var db' := AddFlow(c, db, t, accepted);
      && Agree(db', Drained(alloc, db'))
      && (AllEnabled(alloc, BLANK, db.sent) ==> AllEnabled(alloc, BLANK, db'.sent))
  {
    var db', sw := AddFlow(c, db, t, accepted), Drained(alloc, db);
    AddSends(c, db, t, accepted);
    if accepted {
      var cmd := DpAddFlow(Stored(c, t), db'.flows[t.h].id, db'.sessions[t.h].id);
      SentOne(alloc, db.sent, cmd);
      ConservedPop(c, db.flowFree, db.flows, Pipe(t), t.h, db'.flows[t.h]);
      InsertAgrees(db, db', sw, Exec(alloc, sw, cmd), alloc, cmd);
    }
  }

  /** What a faithful add stores and sends; a refused command leaves the flow table as it was. */
  lemma AddSends(c: Config, db: Db, t: FiveTuple, accepted: bool)
    requires c.Valid() && db.Shaped() && t.meta.devPort < MAX_DEV_PORT_ID && AllConserved(c, db)
    requires Admitted(c, db, t) && Faithful(c, db, PktAddFlow(t, accepted))
    ensures var db', t' := AddFlow(c, db, t, accepted), Stored(c, t);
      && t.h in db'.sessions && (forall k | k in db.sessions :: k in db'.sessions && db'.sessions[k] == db.sessions[k])
      && (accepted ==>
            && db'.flows == db.flows[t.h := Record(t'.meta, Least(db.flowFree[Pipe(t)]))]
            && db'.sent == db.sent + [DpAddFlow(t', db'.flows[t.h].id, db'.sessions[t.h].id)])
      && (!accepted ==> db'.flows == db.flows && db'.sent == db.sent && db'.flowFree == db.flowFree)
  {
    TableHasRoom(c, db.sessionFree, db.sessions);
    PushPop(db.flowFree, Pipe(t));
    if t.h in db.sessions {
    } else {
      assert !NoneLeft(db.sessionFree[Pipe(t)]);
    }
  }

  lemma InsertAgrees(db: Db, db': Db, sw: Switch, sw': Switch, alloc: Allocator, cmd: Command)
    requires cmd.DpAddFlow? && Fresh(alloc) && sw' == Exec(alloc, sw, cmd) && Agree(db, sw)
    requires cmd.tuple.h !in db.flows && !LiveId(db.flows, cmd.flowId)
    requires db'.flows == db.flows[cmd.tuple.h := Record(cmd.tuple.meta, cmd.flowId)]
    requires cmd.tuple.h in db'.sessions && db'.sessions[cmd.tuple.h].id == cmd.sessionId
    requires forall k :: k in db.sessions ==> k in db'.sessions && db'.sessions[k] == db.sessions[k]
    ensures Agree(db', sw')
  {
    var hdl := (cmd.tuple.h.l3, alloc(sw.adds, sw.entries.Keys, cmd.tuple.h.l3));
    assert hdl !in sw.entries;
    forall k | k in db.flows ensures HandleOf(db', sw', k) == HandleOf(db, sw, k) {
      assert LiveId(db.flows, db.flows[k].id);
    }
  }

  lemma DropAgreesIff(c: Config, db: Db, t: FiveTuple, accepted: bool, clearAccepted: bool, alloc: Allocator)
    requires c.Valid() && db.Shaped() && t.meta.devPort < MAX_DEV_PORT_ID && t.h in db.flows && AllConserved(c, db)
    requires Agree(db, Drained(alloc, db))
    ensures var db' := DropFlow(db, t, accepted, clearAccepted);
      && (Agree(db', Drained(alloc, db')) <==> accepted)
      && (AllEnabled(alloc, BLANK, db.sent) ==> AllEnabled(alloc, BLANK, db'.sent))
  {
    DropDrains(db, t, accepted, clearAccepted, alloc);
    var db', sw := DropFlow(db, t, accepted, clearAccepted), Drained(alloc, db);
    if accepted {
      DeleteAgrees(c, db, db', sw, Drained(alloc, db'), t);
    } else {
      assert HandleOf(db, sw, t.h) in sw.entries;
      assert sw.entries[HandleOf(db, sw, t.h)].key !in db'.flows;
    }
  }

  /** What the commands of a removal do to the switch, and that they are enabled. */
  lemma DropDrains(db: Db, t: FiveTuple, accepted: bool, clearAccepted: bool, alloc: Allocator)
    requires db.Shaped() && t.meta.devPort < MAX_DEV_PORT_ID && t.h in db.flows && Agree(db, Drained(alloc, db))
    ensures var db', sw := DropFlow(db, t, accepted, clearAccepted), Drained(alloc, db);
      && Drained(alloc, db') == (if accepted then sw.(entries := sw.entries - {HandleOf(db, sw, t.h)}) else sw)
      && (AllEnabled(alloc, BLANK, db.sent) ==> AllEnabled(alloc, BLANK, db'.sent))
  {
    var id, sid := db.flows[t.h].id, db.sessions[t.h].id;
    SentOne(alloc, db.sent, DpRemoveFlow(t, id));
    SentOne(alloc, Put(db.sent, DpRemoveFlow(t, id), accepted), DpClearRegisters(t, sid));
  }

  lemma DeleteAgrees(c: Config, db: Db, db': Db, sw: Switch, sw': Switch, t: FiveTuple)
    requires t.h in db.flows && DistinctIds(db.flows) && Agree(db, sw)
    requires sw' == sw.(entries := sw.entries - {HandleOf(db, sw, t.h)})
    requires db'.flows == db.flows - {t.h} && db'.sessions == db.sessions - {t.h}
    ensures Agree(db', sw')
  {
    forall k | k in db'.flows ensures HandleOf(db, sw, k) != HandleOf(db, sw, t.h) {
      assert sw.entries[HandleOf(db, sw, k)].key == k && sw.entries[HandleOf(db, sw, t.h)].key == t.h;
    }
  }

  /** One event keeps the agreement exactly when it is faithful; every command it sends is enabled. */
  lemma StepAgreesIff(c: Config, db: Db, ev: Event, alloc: Allocator)
    requires c.Valid() && db.Shaped() && ev.Valid(c) && AllConserved(c, db) && Fresh(alloc)
    requires Agree(db, Drained(alloc, db))
    ensures Agree(Step(c, db, ev), Drained(alloc, Step(c, db, ev))) <==> Faithful(c, db, ev)
    ensures Faithful(c, db, ev) && AllEnabled(alloc, BLANK, db.sent) ==> AllEnabled(alloc, BLANK, Step(c, db, ev).sent)
  {
    match ev
    case PktAddFlow(t, accepted) =>
      if Admitted(c, db, t) {
        if Faithful(c, db, ev) {
          AddAgrees(c, db, t, accepted, alloc);
        } else {
          assert t.h in AddFlow(c, db, t, accepted).flows && t.h !in AddFlow(c, db, t, accepted).sessions;
        }
      }
    case PktRemoveFlow(t, accepted, clearAccepted) =>
      if t.h in db.flows {
        DropAgreesIff(c, db, t, accepted, clearAccepted, alloc);
      }
    case PktTimeoutFlow(id, clearAccepted) =>
      if LiveId(db.flows, id) {
        DropAgreesIff(c, db, Holder(db, id), true, clearAccepted, alloc);
      }
    case PktBloomFilter =>
  }

  ghost predicate FaithfulRun(c: Config, evs: seq<Event>)
    requires ValidRun(c, evs)
  {
    evs == [] || (FaithfulRun(c, evs[..|evs| - 1]) && Faithful(c, Run(c, evs[..|evs| - 1]), evs[|evs| - 1]))
  }

  lemma {:induction false} RunAgrees(c: Config, evs: seq<Event>, alloc: Allocator)
    requires ValidRun(c, evs) && FaithfulRun(c, evs) && Fresh(alloc)
    ensures Agree(Run(c, evs), Drained(alloc, Run(c, evs)))
    ensures AllEnabled(alloc, BLANK, Run(c, evs).sent)
  {
    if evs != [] {
      RunAgrees(c, evs[..|evs| - 1], alloc);
      IdsConserved(c, evs[..|evs| - 1]);
      StepAgreesIff(c, Run(c, evs[..|evs| - 1]), evs[|evs| - 1], alloc);
    }
  }

  /**
   * However far the switch has got (it has executed the first `done` commands),
   * executing the pending ones makes it agree with the flow table, and no
   * command ever asks it for a duplicate or an unknown entry.
   */
  lemma EndToEnd(c: Config, evs: seq<Event>, alloc: Allocator, done: nat)
    requires ValidRun(c, evs) && FaithfulRun(c, evs) && Fresh(alloc) && done <= |Run(c, evs).sent|
    ensures var db := Run(c, evs); var now := Apply(alloc, BLANK, db.sent[..done]);
      && Agree(db, Apply(alloc, now, db.sent[done..]))
      && AllEnabled(alloc, now, db.sent[done..])
  {
    var db := Run(c, evs);
    RunAgrees(c, evs, alloc);
    ApplyConcat(alloc, BLANK, db.sent[..done], db.sent[done..]);
    assert db.sent[..done] + db.sent[done..] == db.sent;
    PendingEnabled(alloc, db.sent, done);
  }

  lemma PendingAt(alloc: Allocator, sent: seq<Command>, done: nat, i: nat)
    requires done + i < |sent| && AllEnabled(alloc, BLANK, sent)
    ensures Enabled(Apply(alloc, Apply(alloc, BLANK, sent[..done]), sent[done..done + i]), sent[done + i])
  {
    ApplyConcat(alloc, BLANK, sent[..done], sent[done..done + i]);
    assert sent[..done] + sent[done..done + i] == sent[..done + i];
  }

  lemma PendingEnabled(alloc: Allocator, sent: seq<Command>, done: nat)
    requires done <= |sent| && AllEnabled(alloc, BLANK, sent)
    ensures AllEnabled(alloc, Apply(alloc, BLANK, sent[..done]), sent[done..])
  {
    var now, pending := Apply(alloc, BLANK, sent[..done]), sent[done..];
    forall i | 0 <= i < |pending| ensures Enabled(Apply(alloc, now, pending[..i]), pending[i]) {
      PendingAt(alloc, sent, done, i);
      assert pending[..i] == sent[done..done + i];
    }
  }

  /** With one id per pipe, an add after a dropped add leaves a stored flow without an entry, whatever is executed. */
  lemma FlowWithoutEntry(c: Config, t1: FiveTuple, t2: FiveTuple, accepted: bool, alloc: Allocator)
    requires Mapped(c, t1) && Mapped(c, t2) && c.heapSize == 1 && Pipe(t1) == Pipe(t2) && t1.h != t2.h
    ensures var evs := [PktAddFlow(t1, false)] + [PktAddFlow(t2, accepted)];
      && ValidRun(c, evs) && t2.h in Run(c, evs).flows && Drained(alloc, Run(c, evs)) == BLANK
      && !Agree(Run(c, evs), Drained(alloc, Run(c, evs)))
  {
    SessionIdsRunOut(c, t1, t2, accepted);
  }

  // ---------- The registers of the entries ----------

  /**
   * Each flow has an entry in the pipe of its port, the entry's pipe and register
   * spell the id of the flow's session, and no two entries share both.
   */
  ghost predicate RegistersOwned(db: Db, entries: map<Handle, Entry>) {
    && (forall h :: h in entries ==> OwnsRegister(db, entries[h]))
    && (forall h, h' :: h in entries && h' in entries && h != h' ==> !SameRegister(entries[h], entries[h']))
    && (forall k :: k in db.flows ==> exists h :: h in entries && entries[h].key == k)
  }

  ghost predicate OwnsRegister(db: Db, e: Entry) {
    && e.key in db.flows && 128 * e.pipe <= db.flows[e.key].meta.devPort < 128 * (e.pipe + 1)
    && e.key in db.sessions && 4 * e.register + e.pipe == db.sessions[e.key].id
  }

  predicate SameRegister(e: Entry, e': Entry) {
    e.pipe == e'.pipe && e.register == e'.register
  }

  /** In agreement an entry selects the register that its session's id lies in; on its own pipe the two spell the id. */
  lemma AgreedRegister(db: Db, sw: Switch, h: Handle)
    requires Agree(db, sw) && h in sw.entries
    ensures var e := sw.entries[h];
      && e.key in db.flows && e.key in db.sessions
      && 4 * e.register <= db.sessions[e.key].id < 4 * e.register + 4
      && (db.sessions[e.key].id % 4 == DevPortToPipe(db.flows[e.key].meta.devPort) ==> OwnsRegister(db, e))
  {
  }

  lemma AgreedRegisters(db: Db, sw: Switch)
    requires Agree(db, sw) && DistinctIds(db.sessions)
    requires forall k :: k in db.flows && k in db.sessions ==>
      db.sessions[k].id % 4 == DevPortToPipe(db.flows[k].meta.devPort)
    ensures RegistersOwned(db, sw.entries)
  {
    forall h | h in sw.entries ensures OwnsRegister(db, sw.entries[h]) {
      AgreedRegister(db, sw, h);
    }
    forall h, h' | h in sw.entries && h' in sw.entries && h != h' ensures !SameRegister(sw.entries[h], sw.entries[h']) {
      AgreedDistinct(db, sw, h, h');
    }
    forall k | k in db.flows ensures exists h :: h in sw.entries && sw.entries[h].key == k {
      assert sw.entries[HandleOf(db, sw, k)].key == k;
    }
  }

  lemma AgreedDistinct(db: Db, sw: Switch, h: Handle, h': Handle)
    requires Agree(db, sw) && DistinctIds(db.sessions) && h in sw.entries && h' in sw.entries && h != h'
    requires OwnsRegister(db, sw.entries[h]) && OwnsRegister(db, sw.entries[h'])
    ensures !SameRegister(sw.entries[h], sw.entries[h'])
  {
    assert sw.entries[h].key != sw.entries[h'].key;
  }

  /** Once everything is executed, faithful runs on fixed pipes leave every session a register of its own. */
  lemma EntriesOwnRegisters(c: Config, evs: seq<Event>, route: FlowKey -> nat, alloc: Allocator)
    requires ValidRun(c, evs) && FaithfulRun(c, evs) && Routed(evs, route) && Fresh(alloc)
    ensures RegistersOwned(Run(c, evs), Drained(alloc, Run(c, evs)).entries)
  {
    var db := Run(c, evs);
    RunAgrees(c, evs, alloc);
    IdsConserved(c, evs);
    PipesConserved(c, evs, route);
    forall k | k in db.flows && k in db.sessions
      ensures db.sessions[k].id % 4 == DevPortToPipe(db.flows[k].meta.devPort)
    {
      assert DevPortToPipe(db.flows[k].meta.devPort) == route(k);
    }
    AgreedRegisters(db, Drained(alloc, db));
  }

  /** No put is refused anywhere in the run. */
  ghost predicate NothingDropped(evs: seq<Event>) {
    forall i :: 0 <= i < |evs| ==> (evs[i].PktAddFlow? || evs[i].PktRemoveFlow? ==> evs[i].accepted)
  }

  /** Runs in which no command is dropped are faithful: session ids cannot run out first. */
  lemma {:induction false} NothingDroppedIsFaithful(c: Config, evs: seq<Event>)
    requires ValidRun(c, evs) && NothingDropped(evs)
    ensures NoDroppedAdd(c, evs) && FaithfulRun(c, evs)
  {
    if evs != [] {
      var before, ev := evs[..|evs| - 1], evs[|evs| - 1];
      NothingDroppedIsFaithful(c, before);
      LockstepRuns(c, before);
      if ev.PktAddFlow? && Admitted(c, Run(c, before), ev.tuple) {
        SessionIdsSuffice(c, Run(c, before), ev.tuple);
      }
    }
  }
}
