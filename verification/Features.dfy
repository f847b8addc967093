/**
 * Feature accumulation: 64-bit totals built from 32-bit switch registers that
 * wrap around, read through two buffers that swap roles before every read.
 */
module Features {
  import opened Structs

  const U32: nat := 0x1_0000_0000
  const U64: nat := 0x1_0000_0000_0000_0000

  /** `uint32_t` subtraction. */
  function Sub32(a: nat, b: nat): (d: nat)
    ensures d < U32
  {
    (a - b) % U32
  }

  /** `uint64_t` addition. */
  function Add64(a: nat, b: nat): (s: nat)
    ensures s < U64
  {
    (a + b) % U64
  }

  /** One slot of a feature: the register value read last, and the accumulated total. */
  datatype Slot = Slot(register: nat, value: nat)

  /** The new total, from the register's value at this read and at the previous one. */
  function Accumulate(value: nat, register: nat, lastRegister: nat): nat {
    Add64(value, Sub32(register, lastRegister))
  }

  /** A read of the register followed by its processing. */
  function ReadSlot(s: Slot, register: nat): Slot {
    Slot(register, Accumulate(s.value, register, s.register))
  }

  function ClearSlot(s: Slot): Slot {
    s.(value := 0)
  }

  class FeatureRegister {
    const onEgress: bool
    const bufferA: array<nat>
    const bufferB: array<nat>
    const values: array<nat>
    var dataPlaneValues: array<nat>
    var lastDataPlaneValue: array<nat>

    /** The two roles are played by the two buffers, never by the same one. */
    ghost predicate Valid()
      reads this
    {
      && bufferA != bufferB && values != bufferA && values != bufferB
      && bufferA.Length == bufferB.Length == values.Length
      && ((dataPlaneValues == bufferA && lastDataPlaneValue == bufferB) ||
            (dataPlaneValues == bufferB && lastDataPlaneValue == bufferA))
    }

    ghost function SlotAt(i: nat): Slot
      requires Valid() && i < values.Length
      reads this, bufferA, bufferB, values
    {
      Slot(dataPlaneValues[i], values[i])
    }

    constructor (size: nat, onEgress: bool)
      ensures Valid() && fresh(bufferA) && fresh(bufferB) && fresh(values) && values.Length == size
      ensures this.onEgress == onEgress
      ensures forall i :: 0 <= i < size ==> SlotAt(i) == Slot(0, 0)
    {
      var a := new nat[size](_ => 0);
      var b := new nat[size](_ => 0);
      this.onEgress := onEgress;
      bufferA, bufferB, dataPlaneValues, lastDataPlaneValue := a, b, a, b;
      values := new nat[size](_ => 0);
    }

    /** Swaps the buffers and reads the registers into the older one. */
    method ReadFeature(registers: seq<nat>)
      requires Valid() && |registers| == values.Length
      modifies this, bufferA, bufferB
      ensures Valid() && dataPlaneValues[..] == registers && lastDataPlaneValue[..] == old(dataPlaneValues[..])
    {
      dataPlaneValues, lastDataPlaneValue := lastDataPlaneValue, dataPlaneValues;
      for i := 0 to values.Length
        invariant Valid() && dataPlaneValues == old(lastDataPlaneValue) && lastDataPlaneValue == old(dataPlaneValues)
        invariant dataPlaneValues[..i] == registers[..i] && lastDataPlaneValue[..] == old(dataPlaneValues[..])
      {
        dataPlaneValues[i] := registers[i];
      }
    }

    /** Adds the growth of every register since the previous read. */
    method ProcessFeature()
      requires Valid()
      modifies values
      ensures forall i :: 0 <= i < MIN_SESSION_ID && i < values.Length ==> values[i] == old(values[i])
      ensures forall i :: MIN_SESSION_ID <= i < values.Length ==>
        values[i] == Accumulate(old(values[i]), dataPlaneValues[i], lastDataPlaneValue[i])
    {
      var i := MIN_SESSION_ID;
      while i < values.Length
        invariant MIN_SESSION_ID <= i
        invariant forall j :: 0 <= j < values.Length && !(MIN_SESSION_ID <= j < i) ==> values[j] == old(values[j])
        invariant forall j :: MIN_SESSION_ID <= j < i && j < values.Length ==>
          values[j] == Accumulate(old(values[j]), dataPlaneValues[j], lastDataPlaneValue[j])
      {
        values[i] := Accumulate(values[i], dataPlaneValues[i], lastDataPlaneValue[i]);
        i := i + 1;
      }
    }

    /** A tick of the export thread: every session slot makes one read step. */
    method Tick(registers: seq<nat>)
      requires Valid() && |registers| == values.Length
      modifies this, bufferA, bufferB, values
      ensures Valid()
      ensures forall i :: MIN_SESSION_ID <= i < values.Length ==> SlotAt(i) == ReadSlot(old(SlotAt(i)), registers[i])
    {
      ReadFeature(registers);
      assert forall i :: 0 <= i < values.Length ==> lastDataPlaneValue[i] == old(dataPlaneValues[..])[i];
      ProcessFeature();
      assert forall i :: 0 <= i < values.Length ==> dataPlaneValues[i] == registers[i];
    }

    /** Index of a session's counter: shifted to the egress pipe for egress features. */
    function Index(sessionId: int, egressOffset: int): int {
      TotalIndex(sessionId, egressOffset, onEgress)
    }

    /** Zeroes the total of one session; the register keeps counting. */
    method Clear(sessionId: int, egressOffset: int)
      requires Valid() && 0 <= Index(sessionId, egressOffset) < values.Length
      modifies values
      ensures forall i :: 0 <= i < values.Length ==>
        && SlotAt(i).register == old(SlotAt(i)).register
        && SlotAt(i).value ==
             if i == (if onEgress then sessionId + egressOffset else sessionId) then 0 else old(SlotAt(i)).value
    {
      values[Index(sessionId, egressOffset)] := 0;
    }
  }

  /** The clear command: zeroes the total of one session in every feature, and nothing else. */
  method ClearRegisters(features: seq<FeatureRegister>, sessionId: int, egressOffset: int)
    requires forall i :: 0 <= i < |features| ==>
      0 <= (if features[i].onEgress then sessionId + egressOffset else sessionId) < features[i].values.Length
    requires forall i, j :: 0 <= i < j < |features| ==> features[i].values != features[j].values
    modifies set i | 0 <= i < |features| :: features[i].values
    ensures forall i :: 0 <= i < |features| ==>
      features[i].values[..] == old(features[i].values[..])
        [if features[i].onEgress then sessionId + egressOffset else sessionId := 0]
  {
    for n := 0 to |features|
      invariant forall i :: 0 <= i < n ==>
        features[i].values[..] == old(features[i].values[..])
          [if features[i].onEgress then sessionId + egressOffset else sessionId := 0]
      invariant forall i :: n <= i < |features| ==> features[i].values[..] == old(features[i].values[..])
    {
      features[n].values[features[n].Index(sessionId, egressOffset)] := 0;
    }
  }

  // ---------- Whole runs of one slot ----------

  /** A read that finds the true (unbounded) counter at `counter`, or a clear. */
  datatype Event = Read(counter: nat) | Clear

  function Step(s: Slot, ev: Event): Slot {
    match ev
    case Read(counter) => ReadSlot(s, counter % U32)
    case Clear => ClearSlot(s)
  }

  function Run(evs: seq<Event>): Slot {
    if evs == [] then Slot(0, 0) else Step(Run(evs[..|evs| - 1]), evs[|evs| - 1])
  }

  /** The true counter at the last read. */
  function LastRead(evs: seq<Event>): nat {
    if evs == [] then 0
    else if evs[|evs| - 1].Read? then evs[|evs| - 1].counter
    else LastRead(evs[..|evs| - 1])
  }

  /** The true counter at the last read before the most recent clear. */
  function Base(evs: seq<Event>): nat {
    if evs == [] then 0
    else if evs[|evs| - 1].Clear? then LastRead(evs)
    else Base(evs[..|evs| - 1])
  }

  /** The counter never shrinks and grows by less than 2^32 between reads. */
  ghost predicate Steady(evs: seq<Event>) {
    forall i :: 0 <= i < |evs| && evs[i].Read? ==> LastRead(evs[..i]) <= evs[i].counter < LastRead(evs[..i]) + U32
  }

  lemma {:induction false} Bounds(evs: seq<Event>)
    requires Steady(evs)
    ensures Base(evs) <= LastRead(evs)
  {
    if evs != [] {
      var before := evs[..|evs| - 1];
      SteadyPrefix(evs);
      Bounds(before);
    }
  }

  lemma SteadyPrefix(evs: seq<Event>)
    requires Steady(evs) && evs != []
    ensures Steady(evs[..|evs| - 1])
    ensures evs[|evs| - 1].Read? ==>
      LastRead(evs[..|evs| - 1]) <= evs[|evs| - 1].counter < LastRead(evs[..|evs| - 1]) + U32
  {
    var before := evs[..|evs| - 1];
    forall i | 0 <= i < |before| && before[i].Read?
      ensures LastRead(before[..i]) <= before[i].counter < LastRead(before[..i]) + U32 {
      assert before[..i] == evs[..i];
    }
  }

  /** Over any run of reads and clears the total is exactly the growth since the most recent clear. */
  lemma {:induction false} TotalsAreExact(evs: seq<Event>)
    requires Steady(evs)
    ensures Run(evs).register == LastRead(evs) % U32
    ensures Run(evs).value == (LastRead(evs) - Base(evs)) % U64
  {
    if evs != [] {
      var before, ev := evs[..|evs| - 1], evs[|evs| - 1];
      SteadyPrefix(evs);
      TotalsAreExact(before);
      Bounds(before);
      match ev
      case Read(counter) =>
        GrowthExact(LastRead(before), counter);
        AddCongruent(LastRead(before) - Base(before), counter - LastRead(before));
      case Clear =>
    }
  }

  // ---------- Whole runs of a feature ----------

  /** What happens to all slots of a feature: a read of all registers, or the clear of one session. */
  datatype RegisterEvent = ReadAll(counters: seq<nat>) | ClearOne(sessionId: int, egressOffset: int)

  ghost predicate EventSized(ev: RegisterEvent, onEgress: bool, size: nat) {
    match ev
    case ReadAll(counters) => |counters| == size
    case ClearOne(sid, offset) => 0 <= TotalIndex(sid, offset, onEgress) < size
  }

  ghost predicate Sized(evs: seq<RegisterEvent>, onEgress: bool, size: nat) {
    forall n :: 0 <= n < |evs| ==> EventSized(evs[n], onEgress, size)
  }

  /** What an event of the feature is for slot `i`. */
  function OwnEvents(ev: RegisterEvent, i: nat, onEgress: bool): seq<Event>
    requires ev.ReadAll? ==> i < |ev.counters|
  {
    match ev
    case ReadAll(counters) => [Read(counters[i])]
    case ClearOne(sid, offset) => if TotalIndex(sid, offset, onEgress) == i then [Clear] else []
  }

  /** The events of one slot. */
  ghost function SlotEvents(evs: seq<RegisterEvent>, i: nat, onEgress: bool, size: nat): seq<Event>
    requires Sized(evs, onEgress, size) && i < size
  {
    if evs == [] then []
    else SlotEvents(evs[..|evs| - 1], i, onEgress, size) + OwnEvents(evs[|evs| - 1], i, onEgress)
  }

  /** The step that an event of the feature takes slot `i` through. */
  function SlotStep(s: Slot, ev: RegisterEvent, i: nat, onEgress: bool): Slot
    requires ev.ReadAll? ==> i < |ev.counters|
  {
    match ev
    case ReadAll(counters) => Step(s, Read(counters[i]))
    case ClearOne(sid, offset) => if TotalIndex(sid, offset, onEgress) == i then Step(s, Clear) else s
  }

  lemma RunOwn(evs: seq<Event>, ev: RegisterEvent, i: nat, onEgress: bool)
    requires ev.ReadAll? ==> i < |ev.counters|
    ensures Run(evs + OwnEvents(ev, i, onEgress)) == SlotStep(Run(evs), ev, i, onEgress)
  {
    var own := OwnEvents(ev, i, onEgress);
    if own == [] {
      assert evs + own == evs;
    } else {
      assert (evs + own)[..|evs|] == evs;
    }
  }

  lemma EventsSnoc(evs: seq<RegisterEvent>, ev: RegisterEvent, i: nat, onEgress: bool, size: nat)
    requires Sized(evs, onEgress, size) && EventSized(ev, onEgress, size) && i < size
    ensures Sized(evs + [ev], onEgress, size)
    ensures Run(SlotEvents(evs + [ev], i, onEgress, size)) ==
      SlotStep(Run(SlotEvents(evs, i, onEgress, size)), ev, i, onEgress)
  {
    assert (evs + [ev])[..|evs|] == evs;
    RunOwn(SlotEvents(evs, i, onEgress, size), ev, i, onEgress);
  }

  function Wrapped(counters: seq<nat>): (r: seq<nat>)
    ensures |r| == |counters| && forall i :: 0 <= i < |r| ==> r[i] == counters[i] % U32
  {
    seq(|counters|, i requires 0 <= i < |counters| => counters[i] % U32)
  }

  /** One event, over the buffers and totals of a feature. */
  method Handle(f: FeatureRegister, ev: RegisterEvent)
    requires f.Valid() && EventSized(ev, f.onEgress, f.values.Length)
    modifies f, f.bufferA, f.bufferB, f.values
    ensures f.Valid()
    ensures forall i :: MIN_SESSION_ID <= i < f.values.Length ==>
      f.SlotAt(i) == SlotStep(old(f.SlotAt(i)), ev, i, f.onEgress)
  {
    match ev
    case ReadAll(counters) => f.Tick(Wrapped(counters));
    case ClearOne(sid, offset) => f.Clear(sid, offset);
  }

  /** Every slot has the state that its own events lead to. */
  ghost predicate Follows(f: FeatureRegister, evs: seq<RegisterEvent>)
    requires f.Valid() && Sized(evs, f.onEgress, f.values.Length)
    reads f, f.bufferA, f.bufferB, f.values
  {
    forall i :: MIN_SESSION_ID <= i < f.values.Length ==>
      f.SlotAt(i) == Run(SlotEvents(evs, i, f.onEgress, f.values.Length))
  }

  method Follow(f: FeatureRegister, ghost evs: seq<RegisterEvent>, ev: RegisterEvent)
    requires f.Valid() && Sized(evs, f.onEgress, f.values.Length) && EventSized(ev, f.onEgress, f.values.Length)
    requires Follows(f, evs)
    modifies f, f.bufferA, f.bufferB, f.values
    ensures f.Valid() && Sized(evs + [ev], f.onEgress, f.values.Length) && Follows(f, evs + [ev])
  {
    Handle(f, ev);
    forall i | MIN_SESSION_ID <= i < f.values.Length
      ensures f.SlotAt(i) == Run(SlotEvents(evs + [ev], i, f.onEgress, f.values.Length))
    {
      EventsSnoc(evs, ev, i, f.onEgress, f.values.Length);
    }
  }

  /** The total is the growth of the counter since the read before the last clear. */
  ghost predicate Exact(value: nat, own: seq<Event>) {
    value == (LastRead(own) - Base(own)) % U64
  }

  lemma FollowsExact(f: FeatureRegister, evs: seq<RegisterEvent>, i: nat)
    requires f.Valid() && Sized(evs, f.onEgress, f.values.Length) && Follows(f, evs)
    requires MIN_SESSION_ID <= i < f.values.Length && Steady(SlotEvents(evs, i, f.onEgress, f.values.Length))
    ensures Exact(f.values[i], SlotEvents(evs, i, f.onEgress, f.values.Length))
  {
    SlotExact(f.SlotAt(i), SlotEvents(evs, i, f.onEgress, f.values.Length));
  }

  lemma SlotExact(s: Slot, own: seq<Event>)
    requires s == Run(own) && Steady(own)
    ensures Exact(s.value, own)
  {
    TotalsAreExact(own);
  }

  /**
   * A whole run over a new feature: the total of every slot is the growth of its
   * counter since the read before its last clear, as far as the counter is steady.
   */
  method Replay(f: FeatureRegister, evs: seq<RegisterEvent>)
    requires f.Valid() && Sized(evs, f.onEgress, f.values.Length)
    requires forall i :: MIN_SESSION_ID <= i < f.values.Length ==> f.SlotAt(i) == Slot(0, 0)
    modifies f, f.bufferA, f.bufferB, f.values
    ensures f.Valid() && Follows(f, evs)
    ensures forall i ::
      MIN_SESSION_ID <= i < f.values.Length && Steady(SlotEvents(evs, i, f.onEgress, f.values.Length)) ==>
      Exact(f.values[i], SlotEvents(evs, i, f.onEgress, f.values.Length))
  {
    for n := 0 to |evs|
      invariant f.Valid() && Follows(f, evs[..n])
    {
      Follow(f, evs[..n], evs[n]);
      assert evs[..n + 1] == evs[..n] + [evs[n]];
    }
    assert evs[..|evs|] == evs;
    forall i | MIN_SESSION_ID <= i < f.values.Length && Steady(SlotEvents(evs, i, f.onEgress, f.values.Length))
      ensures Exact(f.values[i], SlotEvents(evs, i, f.onEgress, f.values.Length))
    {
      FollowsExact(f, evs, i);
    }
  }

  lemma GrowthExact(last: nat, counter: nat)
    requires last <= counter < last + U32
    ensures Sub32(counter % U32, last % U32) == counter - last
  {
  }

  lemma AddCongruent(a: nat, b: nat)
    ensures Add64(a % U64, b) == (a + b) % U64
  {
  }

  /** One read adds the true growth (modulo 2^64) exactly when that growth is below 2^32. */
  lemma ReadExactIff(s: Slot, last: nat, counter: nat)
    requires s.register == last % U32 && last <= counter < last + U64 && s.value < U64
    ensures ReadSlot(s, counter % U32).value == (s.value + (counter - last)) % U64 <==> counter < last + U32
  {
    var growth := counter - last;
    WrappedGrowth(last, counter);
    if growth >= U32 {
      Distinguishable(s.value + growth % U32, s.value + growth);
    }
  }

  lemma WrappedGrowth(last: nat, counter: nat)
    requires last <= counter
    ensures Sub32(counter % U32, last % U32) == (counter - last) % U32
  {
  }

  lemma Distinguishable(a: nat, b: nat)
    requires a < b < a + U64
    ensures a % U64 != b % U64
  {
    assert a == U64 * (a / U64) + a % U64 && b == U64 * (b / U64) + b % U64;
  }
}

/** Ageing: sessions whose packet counter has stopped are timed out. */
module Ageing {
  import opened Structs
  import opened Features

  const FLOW_TIMEOUT: nat := 30

  /** What one tick does to a slot's time stamp, and whether it asks for a timeout. */
  datatype Aged = Aged(lastUpdate: nat, issued: bool)

  function AgeSlot(lastUpdate: nat, now: nat, changed: bool, live: bool, accepted: bool): Aged {
    if changed || (lastUpdate == 0 && live) then Aged(now, false)
    else if lastUpdate < Sub32(now, FLOW_TIMEOUT) && live then Aged(if accepted then 0 else lastUpdate, true)
    else Aged(lastUpdate, false)
  }

  /** When exactly a timeout is asked for; a clock below the timeout wraps around. */
  lemma IssuedIff(lastUpdate: nat, now: nat, changed: bool, live: bool, accepted: bool)
    requires lastUpdate < U32 && now < U32
    ensures AgeSlot(lastUpdate, now, changed, live, accepted).issued <==>
      live && !changed && lastUpdate != 0 && lastUpdate + FLOW_TIMEOUT < now + (if now < FLOW_TIMEOUT then U32 else 0)
  {
    if now < FLOW_TIMEOUT {
      assert Sub32(now, FLOW_TIMEOUT) == U32 + now - FLOW_TIMEOUT;
    } else {
      assert Sub32(now, FLOW_TIMEOUT) == now - FLOW_TIMEOUT;
    }
  }

  /** A live session's register has not changed, and its stamp lies before the threshold of the unsigned clock. */
  predicate Due(lastUpdate: nat, now: nat, changed: bool, live: bool) {
    live && !changed && lastUpdate != 0 && lastUpdate < (now - FLOW_TIMEOUT) % U32
  }

  /** The stamp that a tick leaves: its own time after a change or for a live slot without stamp,
    none after a timeout. */
  predicate Stamps(lastUpdate: nat, now: nat, changed: bool, live: bool, timedOut: bool, lastUpdate': nat) {
    && (changed || (live && lastUpdate == 0) ==> lastUpdate' == now)
    && (timedOut ==> lastUpdate' == 0)
    && (!changed && !timedOut && (lastUpdate != 0 || !live) ==> lastUpdate' == lastUpdate)
  }

  /** What `AgeOne` and the pass promise of a slot determines its stamp and timeout: those of the runs. */
  lemma DueIff(lastUpdate: nat, now: nat, changed: bool, live: bool, accepted: bool, lastUpdate': nat)
    ensures var aged := AgeSlot(lastUpdate, now, changed, live, accepted);
      && (aged.issued <==> Due(lastUpdate, now, changed, live))
      && (Stamps(lastUpdate, now, changed, live, accepted && aged.issued, lastUpdate') <==>
            lastUpdate' == aged.lastUpdate)
  {
  }

  /** The inputs of an ageing pass, slot by slot. */
  datatype Pass = Pass(now: nat, register: seq<nat>, lastRegister: seq<nat>, egress: seq<int>, accepted: seq<bool>) {
    ghost predicate Sized(n: nat) {
      |register| == |lastRegister| == |egress| == |accepted| == n
    }

    /** Slot `i` is timed out and the command is accepted. */
    ghost predicate TimedOut(i: nat, lastUpdate: nat)
      requires Sized(|register|) && i < |register|
    {
      accepted[i] && Due(lastUpdate, now, register[i] != lastRegister[i], egress[i] != -1)
    }

    /** The pass leaves slot `i` with the right stamp. */
    ghost predicate Ages(i: nat, lastUpdate: nat, lastUpdate': nat)
      requires Sized(|register|) && i < |register|
    {
      Stamps(lastUpdate, now, register[i] != lastRegister[i], egress[i] != -1, TimedOut(i, lastUpdate), lastUpdate')
    }
  }

  /** The timeouts of the slots below `i`: each at most once, in ascending order, with the session of the slot. */
  ghost predicate Listed(p: Pass, stamps: seq<nat>, timeouts: seq<(nat, int)>, i: nat) {
    && p.Sized(|stamps|)
    && (forall a, b :: 0 <= a < b < |timeouts| ==> timeouts[a].0 < timeouts[b].0)
    && (forall x :: x in timeouts ==>
          MIN_SESSION_ID <= x.0 < |stamps| && x.0 < i && x.1 == p.egress[x.0] && p.TimedOut(x.0, stamps[x.0]))
    && (forall j :: MIN_SESSION_ID <= j < i && j < |stamps| && p.TimedOut(j, stamps[j]) ==>
          (j, p.egress[j]) in timeouts)
  }

  lemma ListGrows(p: Pass, stamps: seq<nat>, timeouts: seq<(nat, int)>, i: nat)
    requires Listed(p, stamps, timeouts, i) && MIN_SESSION_ID <= i < |stamps|
    ensures Listed(p, stamps, if p.TimedOut(i, stamps[i]) then timeouts + [(i, p.egress[i])] else timeouts, i + 1)
  {
    if p.TimedOut(i, stamps[i]) {
      ListAppend(p, stamps, timeouts, i);
    }
  }

  lemma ListAppend(p: Pass, stamps: seq<nat>, timeouts: seq<(nat, int)>, i: nat)
    requires Listed(p, stamps, timeouts, i) && MIN_SESSION_ID <= i < |stamps| && p.TimedOut(i, stamps[i])
    ensures Listed(p, stamps, timeouts + [(i, p.egress[i])], i + 1)
  {
    var more := timeouts + [(i, p.egress[i])];
    forall x ensures x in more <==> x in timeouts || x == (i, p.egress[i]) {
      assert more[|timeouts|] == (i, p.egress[i]);
    }
    forall a, b | 0 <= a < b < |more| ensures more[a].0 < more[b].0 {
      assert a < |timeouts| && more[a] == timeouts[a] && timeouts[a] in timeouts;
    }
  }

  lemma ListEnds(p: Pass, stamps: seq<nat>, timeouts: seq<(nat, int)>, i: nat)
    requires Listed(p, stamps, timeouts, i) && |stamps| <= i
    ensures Listed(p, stamps, timeouts, |stamps|)
  {
  }

  /**
   * The ageing pass over all slots of the packet counter.  `egress` is the
   * index from register to session id (-1: none), `accepted` the outcomes of
   * the puts into the packet ring; the result lists the slots timed out with
   * the session id that is sent as the flow id.
   */
  method ProcessAndAge(f: FeatureRegister, lastFlowUpdate: array<nat>, now: nat, egress: seq<int>, accepted: seq<bool>)
    returns (timeouts: seq<(nat, int)>)
    requires f.Valid() && lastFlowUpdate.Length == f.values.Length == |egress| == |accepted|
    requires lastFlowUpdate != f.values && lastFlowUpdate != f.bufferA && lastFlowUpdate != f.bufferB
    modifies f.values, lastFlowUpdate
    ensures var p := Pass(now, f.dataPlaneValues[..], f.lastDataPlaneValue[..], egress, accepted);
      forall i :: MIN_SESSION_ID <= i < |egress| ==>
        && f.values[i] == Accumulate(old(f.values[i]), f.dataPlaneValues[i], f.lastDataPlaneValue[i])
        && p.Ages(i, old(lastFlowUpdate[i]), lastFlowUpdate[i])
    ensures var p := Pass(now, f.dataPlaneValues[..], f.lastDataPlaneValue[..], egress, accepted);
      Listed(p, old(lastFlowUpdate[..]), timeouts, |egress|)
    ensures forall i :: 0 <= i < MIN_SESSION_ID && i < |egress| ==>
      f.values[i] == old(f.values[i]) && lastFlowUpdate[i] == old(lastFlowUpdate[i])
  {
    timeouts := [];
    ghost var p := Pass(now, f.dataPlaneValues[..], f.lastDataPlaneValue[..], egress, accepted);
    ghost var stamps, values := lastFlowUpdate[..], f.values[..];
    var i := MIN_SESSION_ID;
    while i < f.values.Length
      invariant MIN_SESSION_ID <= i
      invariant p == Pass(now, f.dataPlaneValues[..], f.lastDataPlaneValue[..], egress, accepted)
      invariant forall j :: 0 <= j < |egress| ==>
        f.values[j] == if MIN_SESSION_ID <= j < i then Accumulate(values[j], p.register[j], p.lastRegister[j])
          else values[j]
      invariant forall j :: 0 <= j < |egress| ==>
        if MIN_SESSION_ID <= j < i then p.Ages(j, stamps[j], lastFlowUpdate[j]) else lastFlowUpdate[j] == stamps[j]
      invariant Listed(p, stamps, timeouts, i)
    {
      ListGrows(p, stamps, timeouts, i);
      f.values[i] := Accumulate(f.values[i], f.dataPlaneValues[i], f.lastDataPlaneValue[i]);
      var timedOut := AgeOne(lastFlowUpdate, i, now, f.dataPlaneValues[i] != f.lastDataPlaneValue[i], egress[i] != -1,
        accepted[i]);
      if timedOut {
        timeouts := timeouts + [(i, egress[i])];
      }
      i := i + 1;
    }
    ListEnds(p, stamps, timeouts, i);
  }

  /** The body of the pass for one slot; the put of the timeout command ends as `accepted` says. */
  method AgeOne(lastFlowUpdate: array<nat>, i: nat, now: nat, changed: bool, live: bool, accepted: bool)
      returns (timedOut: bool)
    requires i < lastFlowUpdate.Length
    modifies lastFlowUpdate
    ensures timedOut <==> accepted && Due(old(lastFlowUpdate[i]), now, changed, live)
    ensures Stamps(old(lastFlowUpdate[i]), now, changed, live, timedOut, lastFlowUpdate[i])
    ensures forall j :: 0 <= j < lastFlowUpdate.Length && j != i ==> lastFlowUpdate[j] == old(lastFlowUpdate[j])
  {
    var timeout := Sub32(now, FLOW_TIMEOUT);
    timedOut := false;
    if changed || (lastFlowUpdate[i] == 0 && live) {
      lastFlowUpdate[i] := now;
    } else if lastFlowUpdate[i] < timeout && live {
      if accepted {
        timedOut := true;
        lastFlowUpdate[i] := 0;
      }
    }
  }

  // ---------- Whole runs of one slot ----------

  datatype Tick = Tick(now: nat, changed: bool, live: bool, accepted: bool)

  /** What tick `k` of a run does. */
  function AgeTick(ticks: seq<Tick>, k: nat): Aged
    requires k < |ticks|
  {
    var t := ticks[k];
    AgeSlot(if k == 0 then 0 else AgeTick(ticks, k - 1).lastUpdate, t.now, t.changed, t.live, t.accepted)
  }

  /** The clock is monotone, at least the timeout, and fits 32 bits. */
  ghost predicate Clocked(ticks: seq<Tick>) {
    && (forall i :: 0 <= i < |ticks| ==> FLOW_TIMEOUT <= ticks[i].now < U32)
    && (forall i, j :: 0 <= i <= j < |ticks| ==> ticks[i].now <= ticks[j].now)
  }

  /** A time stamp that is not zero is at least the time of every change so far, and never in the future. */
  lemma {:induction false} StampBounds(ticks: seq<Tick>, k: nat, j: nat)
    requires Clocked(ticks) && j <= k < |ticks|
    ensures AgeTick(ticks, k).lastUpdate <= ticks[k].now
    ensures AgeTick(ticks, k).lastUpdate == 0 || !ticks[j].changed || ticks[j].now <= AgeTick(ticks, k).lastUpdate
  {
    if j < k {
      StampBounds(ticks, k - 1, j);
    } else if k > 0 {
      StampBounds(ticks, k - 1, k - 1);
    }
  }

  /** A timeout is asked for only if the register changed at no tick of the last FLOW_TIMEOUT seconds. */
  lemma TimeoutOnlyIfIdle(ticks: seq<Tick>, k: nat, j: nat)
    requires Clocked(ticks) && j <= k < |ticks| && AgeTick(ticks, k).issued
    requires ticks[j].now >= ticks[k].now - FLOW_TIMEOUT
    ensures !ticks[j].changed
  {
    var before := if k == 0 then 0 else AgeTick(ticks, k - 1).lastUpdate;
    if k > 0 {
      StampBounds(ticks, k - 1, k - 1);
    }
    IssuedIff(before, ticks[k].now, ticks[k].changed, ticks[k].live, ticks[k].accepted);
    if j < k {
      StampBounds(ticks, k - 1, j);
    }
  }

  /** After a successful timeout the stamp is zero or not older than that timeout. */
  lemma {:induction false} StampAfterTimeout(ticks: seq<Tick>, k: nat, m: nat)
    requires Clocked(ticks) && k <= m < |ticks| && AgeTick(ticks, k).issued && ticks[k].accepted
    ensures AgeTick(ticks, m).lastUpdate == 0 || ticks[k].now <= AgeTick(ticks, m).lastUpdate
  {
    if k < m {
      StampAfterTimeout(ticks, k, m - 1);
    }
  }

  /** Two timeouts of one slot, the first of them successful, are more than FLOW_TIMEOUT seconds apart. */
  lemma TimeoutsApart(ticks: seq<Tick>, k: nat, m: nat)
    requires Clocked(ticks) && k < m < |ticks|
    requires AgeTick(ticks, k).issued && ticks[k].accepted && AgeTick(ticks, m).issued
    ensures ticks[m].now > ticks[k].now + FLOW_TIMEOUT
  {
    StampAfterTimeout(ticks, k, m - 1);
    StampBounds(ticks, m - 1, m - 1);
    IssuedIff(AgeTick(ticks, m - 1).lastUpdate, ticks[m].now, ticks[m].changed, ticks[m].live, ticks[m].accepted);
  }

  // ---------- What every tick leaves, and when a silent session is timed out ----------

  /** The stamp that every tick of a run leaves. */
  lemma TickStamps(ticks: seq<Tick>, k: nat)
    requires k < |ticks|
    ensures var t, before, after := ticks[k], StampBefore(ticks, k), AgeTick(ticks, k);
      && (t.changed ==> after.lastUpdate == t.now && !after.issued)
      && (t.live && before == 0 ==> after.lastUpdate == t.now && !after.issued)
      && (after.issued ==> after.lastUpdate == if t.accepted then 0 else before)
      && (!t.changed && !after.issued && (before != 0 || !t.live) ==> after.lastUpdate == before)
      && (after.issued <==> Due(before, t.now, t.changed, t.live))
  {
    var t := ticks[k];
    DueIff(StampBefore(ticks, k), t.now, t.changed, t.live, t.accepted, 0);
  }

  /** The slot is live from tick `j` on, its register still after tick `j`,
    and no timeout is accepted before tick `k`. */
  ghost predicate Silent(ticks: seq<Tick>, j: nat, k: nat)
    requires k < |ticks|
  {
    && (forall i :: j <= i <= k ==> ticks[i].live)
    && (forall i :: j < i <= k ==> !ticks[i].changed)
    && (forall i :: j <= i < k ==> !(AgeTick(ticks, i).issued && ticks[i].accepted))
  }

  /** Until then the slot keeps the stamp of tick `j`, which is not zero. */
  lemma {:induction false} SilentStamp(ticks: seq<Tick>, j: nat, k: nat, i: nat)
    requires Clocked(ticks) && j <= i < k < |ticks| && Silent(ticks, j, k)
    ensures 0 < AgeTick(ticks, i).lastUpdate <= ticks[j].now
  {
    TickStamps(ticks, i);
    StampBounds(ticks, i, i);
    if j < i {
      SilentStamp(ticks, j, k, i - 1);
    }
  }

  /** A silent session is timed out at every tick more than FLOW_TIMEOUT seconds later, until a timeout is accepted. */
  lemma SilentTimesOut(ticks: seq<Tick>, j: nat, k: nat)
    requires Clocked(ticks) && j < k < |ticks| && Silent(ticks, j, k)
    requires ticks[k].now > ticks[j].now + FLOW_TIMEOUT
    ensures AgeTick(ticks, k).issued
  {
    SilentStamp(ticks, j, k, k - 1);
  }

  /** A session with a fresh start that falls silent is timed out exactly when it is older than FLOW_TIMEOUT. */
  lemma TimesOutExactly(ticks: seq<Tick>, j: nat, k: nat)
    requires Clocked(ticks) && j < k < |ticks| && LiveFrom(ticks, j) && FreshStart(ticks, j) && Silent(ticks, j, k)
    ensures AgeTick(ticks, k).issued <==> ticks[k].now > ticks[j].now + FLOW_TIMEOUT
  {
    if ticks[k].now > ticks[j].now + FLOW_TIMEOUT {
      SilentTimesOut(ticks, j, k);
    }
    if AgeTick(ticks, k).issued {
      SessionGetsItsTime(ticks, j, k);
    }
  }

  /** Below the timeout the wrapped clock times out a session that has just been active. */
  lemma EarlyClockTimesOut(now: nat, lastUpdate: nat, accepted: bool)
    requires 0 < lastUpdate <= now < FLOW_TIMEOUT
    ensures AgeSlot(lastUpdate, now, false, true, accepted).issued
  {
    IssuedIff(lastUpdate, now, false, true, accepted);
  }

  // ---------- Sessions ----------

  /** The stamp that tick `k` finds. */
  function StampBefore(ticks: seq<Tick>, k: nat): nat
    requires k < |ticks|
  {
    if k == 0 then 0 else AgeTick(ticks, k - 1).lastUpdate
  }

  ghost predicate LiveFrom(ticks: seq<Tick>, j: nat) {
    forall i :: j <= i < |ticks| ==> ticks[i].live
  }

  /** At tick `j` a session begins, and its slot carries no stamp of the register's previous owner. */
  predicate FreshStart(ticks: seq<Tick>, j: nat)
    requires j < |ticks|
  {
    ticks[j].changed || StampBefore(ticks, j) == 0 || StampBefore(ticks, j) == ticks[j].now
  }

  lemma {:induction false} StampSince(ticks: seq<Tick>, j: nat, k: nat)
    requires Clocked(ticks) && j <= k < |ticks| && LiveFrom(ticks, j) && FreshStart(ticks, j)
    ensures AgeTick(ticks, k).lastUpdate == 0 || ticks[j].now <= AgeTick(ticks, k).lastUpdate
  {
    if j < k {
      StampSince(ticks, j, k - 1);
    }
  }

  /** A session with a fresh start is timed out only when it is older than FLOW_TIMEOUT. */
  lemma SessionGetsItsTime(ticks: seq<Tick>, j: nat, k: nat)
    requires Clocked(ticks) && j <= k < |ticks| && LiveFrom(ticks, j) && FreshStart(ticks, j)
    requires AgeTick(ticks, k).issued
    ensures ticks[k].now > ticks[j].now + FLOW_TIMEOUT
  {
    if j < k {
      StampSince(ticks, j, k - 1);
    }
  }

  /** Every timeout of the session that begins with the last of the ticks, however it goes on, comes that late. */
  ghost predicate Patient(ticks: seq<Tick>)
    requires |ticks| > 0
  {
    forall more :: PatientWith(ticks, more)
  }

  ghost predicate PatientWith(ticks: seq<Tick>, more: seq<Tick>)
    requires |ticks| > 0
  {
    var all, j := ticks + more, |ticks| - 1;
    Clocked(all) && LiveFrom(all, j) ==>
      forall k :: j <= k < |all| && AgeTick(all, k).issued ==> all[k].now > all[j].now + FLOW_TIMEOUT
  }

  lemma {:induction false} AgePrefix(ticks: seq<Tick>, more: seq<Tick>, k: nat)
    requires k < |ticks|
    ensures AgeTick(ticks + more, k) == AgeTick(ticks, k)
  {
    if k > 0 {
      AgePrefix(ticks, more, k - 1);
    }
  }

  /** A stale stamp: one more idle tick, or none, times the session out too early. */
  lemma StaleIsImpatient(ticks: seq<Tick>)
    requires |ticks| > 0 && Clocked(ticks) && ticks[|ticks| - 1].live && !FreshStart(ticks, |ticks| - 1)
    requires ticks[|ticks| - 1].now + FLOW_TIMEOUT < U32
    ensures !Patient(ticks)
  {
    var j := |ticks| - 1;
    var stamp, now := StampBefore(ticks, j), ticks[j].now;
    if j > 0 {
      StampBounds(ticks, j - 1, j - 1);
    }
    if stamp + FLOW_TIMEOUT < now {
      assert AgeTick(ticks, j).issued && ticks + [] == ticks;
      assert !PatientWith(ticks, []);
    } else {
      StaleLater(ticks, stamp);
    }
  }

  /** The stamp is not yet old enough at the first tick: it is one second after its own time is up. */
  lemma StaleLater(ticks: seq<Tick>, stamp: nat)
    requires |ticks| > 0 && Clocked(ticks) && ticks[|ticks| - 1].live && !ticks[|ticks| - 1].changed
    requires stamp == StampBefore(ticks, |ticks| - 1) && 0 < stamp < ticks[|ticks| - 1].now <= stamp + FLOW_TIMEOUT
    requires ticks[|ticks| - 1].now + FLOW_TIMEOUT < U32
    ensures !PatientWith(ticks, [Tick(stamp + FLOW_TIMEOUT + 1, false, true, false)])
  {
    var j, more := |ticks| - 1, [Tick(stamp + FLOW_TIMEOUT + 1, false, true, false)];
    var all := ticks + more;
    AgePrefix(ticks, more, j);
    assert AgeTick(ticks, j).lastUpdate == stamp;
    assert AgeTick(all, j + 1).issued && all[j + 1] == more[0] && all[j] == ticks[j];
  }

  /** A beginning session is sure of its time exactly when its start is fresh. */
  lemma PatientIff(ticks: seq<Tick>)
    requires |ticks| > 0 && Clocked(ticks) && ticks[|ticks| - 1].live
    requires ticks[|ticks| - 1].now + FLOW_TIMEOUT < U32
    ensures Patient(ticks) <==> FreshStart(ticks, |ticks| - 1)
  {
    var j := |ticks| - 1;
    if FreshStart(ticks, j) {
      forall more ensures PatientWith(ticks, more) {
        FreshIsPatient(ticks, more);
      }
    } else {
      StaleIsImpatient(ticks);
    }
  }

  lemma FreshIsPatient(ticks: seq<Tick>, more: seq<Tick>)
    requires |ticks| > 0 && FreshStart(ticks, |ticks| - 1)
    ensures PatientWith(ticks, more)
  {
    var all, j := ticks + more, |ticks| - 1;
    if j > 0 {
      AgePrefix(ticks, more, j - 1);
    }
    if Clocked(all) && LiveFrom(all, j) {
      forall k | j <= k < |all| && AgeTick(all, k).issued ensures all[k].now > all[j].now + FLOW_TIMEOUT {
        SessionGetsItsTime(all, j, k);
      }
    }
  }

  /** A session that takes over an idle register with an old stamp is timed out at its first tick. */
  lemma StaleStampTimesOut(accepted: bool)
    ensures var ticks := [Tick(100, true, true, accepted), Tick(150, false, false, accepted),
      Tick(151, false, true, accepted)];
      Clocked(ticks) && !FreshStart(ticks, 2) && AgeTick(ticks, 2).issued
  {
    var ticks := [Tick(100, true, true, accepted), Tick(150, false, false, accepted), Tick(151, false, true, accepted)];
    assert AgeTick(ticks, 0) == Aged(100, false);
    assert AgeTick(ticks, 1) == Aged(100, false);
  }
}

/** Ageing over the session table: what the timeouts name. */
module SessionAgeing {
  import opened Structs
  import opened Probing
  import opened ReverseIndex
  import opened SessionTables
  import opened Features
  import opened Ageing

  /** A live session has the id and feeds the register. */
  ghost predicate Feeds(m: map<FlowKey, Record>, register: int, id: int) {
    exists k :: k in m && m[k].id == id && id + m[k].meta.egressOffset == register
  }

  /** In an exact egress index a register that is not -1 names the live session that feeds it. */
  lemma FedBy(s: Slots, rev: seq<int>, eg: seq<int>, x: nat)
    requires UniqueKeys(s) && RevExact(s, rev) && EgressExact(s, rev, eg) && x < |eg| && eg[x] != -1
    ensures Feeds(Contents(s), x, eg[x])
  {
    var i := rev[eg[x]];
    SlotInContents(s, i);
    assert EgressSlot(s, i) == x && s[i].value.id == eg[x];
  }

  /** The ageing pass over the egress index of the session table: timeouts name the sessions that feed their slots. */
  method AgeSessions(f: FeatureRegister, lastFlowUpdate: array<nat>, now: nat, table: SessionTable, accepted: seq<bool>)
    returns (timeouts: seq<(nat, int)>)
    requires f.Valid() && lastFlowUpdate.Length == f.values.Length == |accepted| == table.egressFeatureToSession.Length
    requires lastFlowUpdate != f.values && lastFlowUpdate != f.bufferA && lastFlowUpdate != f.bufferB
    requires table.Valid() && table.Egress() && {f.values as object, lastFlowUpdate} !! table.Repr()
    modifies f.values, lastFlowUpdate
    ensures table.Valid() && table.Egress()
    ensures var egress := table.egressFeatureToSession[..];
      var p := Pass(now, f.dataPlaneValues[..], f.lastDataPlaneValue[..], egress, accepted);
      && Listed(p, old(lastFlowUpdate[..]), timeouts, |accepted|)
      && forall i :: MIN_SESSION_ID <= i < |accepted| ==> p.Ages(i, old(lastFlowUpdate[i]), lastFlowUpdate[i])
    ensures forall x :: x in timeouts ==> Feeds(table.Map(), x.0, x.1)
  {
    ghost var s, rev, eg := table.entries[..], table.featureIndexToEntry[..], table.egressFeatureToSession[..];
    timeouts := ProcessAndAge(f, lastFlowUpdate, now, table.egressFeatureToSession[..], accepted);
    assert table.entries[..] == s && table.egressFeatureToSession[..] == eg;
    forall x | x in timeouts ensures Feeds(Contents(s), x.0, x.1) {
      FedBy(s, rev, eg, x.0);
    }
  }
}
