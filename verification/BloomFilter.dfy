/**
 * The counting Bloom filter, as small steps of three threads: the flow database
 * thread inserts, the maintenance thread lets counters decay, the data plane
 * thread writes the switch.  A section under a lock is one step; every read
 * outside a lock is a step of its own.
 */
module BloomFilters {

  const COUNTER_LIMIT: nat := 0x10000

  /** One counter of the controller, and the register cell of the switch that mirrors it. */
  datatype Cell = Cell(pipe: nat, filter: nat, index: nat)

  datatype Command =
    | AddCells(pipe: nat, indices: seq<nat>)
    | RemoveCells(pipe: nat, indices: seq<nat>)

  /**
   * An insertion: `filter` is the loop variable, `raised` holds between the locked
   * increment and the check that follows it, `chosen` are the indices of the
   * command being prepared.  The history `hits` records which checks found one.
   */
  datatype Inserter =
    | Idle
    | Inserting(pipe: nat, targets: seq<nat>, filter: nat, raised: bool, chosen: seq<nat>, send: bool, hits: seq<bool>)

  /** Maintenance: a cell `seen` nonzero outside the lock; the history `raises` counts its increments since. */
  datatype Decay = Resting | Peeked(cell: Cell, seen: nat, raises: nat)

  datatype Writer = Waiting | Writing(pipe: nat, indices: seq<nat>, filter: nat)

  /** `held` are locks that are never released; the last two fields are histories: cells written, cells ever raised. */
  datatype State = State(
    counts: map<Cell, nat>,
    held: set<(nat, nat)>,
    inserter: Inserter,
    decay: Decay,
    queue: seq<Command>,
    writer: Writer,
    written: set<Cell>,
    touched: set<Cell>
  ) {
    function Count(c: Cell): nat {
      if c in counts then counts[c] else 0
    }
  }

  function Init(): State {
    State(map[], {}, Idle, Resting, [], Waiting, {}, {})
  }

  datatype Action =
    | Begin(pipe: nat, targets: seq<nat>)
    | Raise
    | Check
    | Finish(accepted: bool)
    | Clear(pipe: nat, indices: seq<nat>)
    | Peek(cell: Cell)
    | Lower
    | Fetch
    | Write

  function Zeros(n: nat): (z: seq<nat>)
    ensures |z| == n
  {
    seq(n, _ => 0)
  }

  // ---------- Steps ----------

  /** The locked increment of a 16-bit counter. */
  function DoRaise(s: State): State {
    match s.inserter
    case Inserting(pipe, targets, filter, raised, chosen, send, hits) =>
      if raised || filter >= |targets| || (pipe, filter) in s.held then s
      else
        var c := Cell(pipe, filter, targets[filter]);
        s.(counts := s.counts[c := (s.Count(c) + 1) % COUNTER_LIMIT],
           inserter := s.inserter.(raised := true),
           decay := if s.decay.Peeked? && s.decay.cell == c then s.decay.(raises := s.decay.raises + 1) else s.decay,
           touched := s.touched + {c})
    case Idle => s
  }

  /** The read of the counter after the lock is released. */
  function DoCheck(s: State): State {
    match s.inserter
    case Inserting(pipe, targets, filter, raised, chosen, send, hits) =>
      if !raised || filter >= |targets| || filter >= |chosen| then s
      else if s.Count(Cell(pipe, filter, targets[filter])) == 1 then
        s.(inserter := Inserting(pipe, targets, filter + 1, false, chosen[filter := targets[filter]], true,
          hits + [true]))
      else s.(inserter := Inserting(pipe, targets, filter + 1, false, chosen, send, hits + [false]))
    case Idle => s
  }

  /** The end of the insertion: the command is queued if some counter was found at one. */
  function DoFinish(s: State, accepted: bool): State {
    match s.inserter
    case Inserting(pipe, targets, filter, raised, chosen, send, hits) =>
      if raised || filter < |targets| then s
      else if send && accepted then s.(inserter := Idle, queue := s.queue + [AddCells(pipe, chosen)])
      else s.(inserter := Idle)
    case Idle => s
  }

  /** The locked decrement; a counter found at zero leaves the lock taken. */
  function DoLower(s: State): State {
    match s.decay
    case Resting => s
    case Peeked(c, _, _) =>
      if (c.pipe, c.filter) in s.held then s
      else if s.Count(c) >= 1 then s.(counts := s.counts[c := s.Count(c) - 1], decay := Resting)
      else s.(held := s.held + {(c.pipe, c.filter)}, decay := Resting)
  }

  /** The data plane takes a command; removals are taken and ignored. */
  function DoFetch(s: State): State {
    if s.writer.Writing? || s.queue == [] then s
    else
      match s.queue[0]
      case AddCells(pipe, indices) => s.(queue := s.queue[1..], writer := Writing(pipe, indices, 0))
      case RemoveCells(_, _) => s.(queue := s.queue[1..])
  }

  /** One register write of the switch, or the end of the loop. */
  function DoWrite(s: State): State {
    match s.writer
    case Waiting => s
    case Writing(pipe, indices, filter) =>
      if filter >= |indices| then s.(writer := Waiting)
      else s.(written := s.written + {Cell(pipe, filter, indices[filter])},
             writer := Writing(pipe, indices, filter + 1))
  }

  function Step(s: State, a: Action): State {
    match a
    case Begin(pipe, targets) =>
      if s.inserter.Idle? then s.(inserter := Inserting(pipe, targets, 0, false, Zeros(|targets|), false, [])) else s
    case Raise => DoRaise(s)
    case Check => DoCheck(s)
    case Finish(accepted) => DoFinish(s, accepted)
    case Clear(pipe, indices) => s.(queue := s.queue + [RemoveCells(pipe, indices)])
    case Peek(c) => if s.decay.Resting? && s.Count(c) != 0 then s.(decay := Peeked(c, s.Count(c), 0)) else s
    case Lower => DoLower(s)
    case Fetch => DoFetch(s)
    case Write => DoWrite(s)
  }

  function Run(s: State, actions: seq<Action>): State
    decreases |actions|
  {
    if actions == [] then s else Run(Step(s, actions[0]), actions[1..])
  }

  // ---------- Where a cell's write can be ----------

  predicate Sets(cmd: Command, c: Cell) {
    cmd.AddCells? && cmd.pipe == c.pipe && c.filter < |cmd.indices| && cmd.indices[c.filter] == c.index
  }

  ghost predicate Queued(queue: seq<Command>, c: Cell) {
    exists i :: 0 <= i < |queue| && Sets(queue[i], c)
  }

  predicate InWriter(w: Writer, c: Cell) {
    w.Writing? && w.pipe == c.pipe && w.filter <= c.filter < |w.indices| && w.indices[c.filter] == c.index
  }

  /** The inserter has put the cell into its command, or is about to find its counter at one. */
  predicate InInserter(s: State, c: Cell) {
    match s.inserter
    case Idle => false
    case Inserting(pipe, targets, filter, raised, chosen, send, hits) =>
      && pipe == c.pipe
      && c.filter < |chosen| == |targets|
      && (|| (c.filter < filter && send && chosen[c.filter] == c.index)
          || (c.filter == filter && raised && targets[filter] == c.index && s.Count(c) == 1))
  }

  ghost predicate OnItsWay(s: State, c: Cell) {
    c in s.written || Queued(s.queue, c) || InWriter(s.writer, c) || InInserter(s, c)
  }

  ghost predicate WellFormed(s: State) {
    match s.inserter
    case Idle => true
    case Inserting(pipe, targets, filter, raised, chosen, send, hits) =>
      filter <= |targets| == |chosen| && (raised ==> filter < |targets|)
  }

  /** Every cell with a positive counter has been written, or its write is on its way. */
  ghost predicate Inv(s: State) {
    WellFormed(s) && forall c {:trigger s.Count(c)} :: s.Count(c) > 0 ==> OnItsWay(s, c)
  }

  lemma QueueGrows(queue: seq<Command>, cmd: Command, c: Cell)
    ensures Queued(queue + [cmd], c) <==> Queued(queue, c) || Sets(cmd, c)
  {
    var q := queue + [cmd];
    if Queued(queue, c) {
      var i :| 0 <= i < |queue| && Sets(queue[i], c);
      assert Sets(q[i], c);
    }
    if Sets(cmd, c) {
      assert Sets(q[|queue|], c);
    }
  }

  lemma QueueShrinks(queue: seq<Command>, c: Cell)
    requires queue != []
    ensures Queued(queue, c) <==> Sets(queue[0], c) || Queued(queue[1..], c)
  {
    var rest := queue[1..];
    if Queued(queue, c) && !Sets(queue[0], c) {
      var i :| 0 <= i < |queue| && Sets(queue[i], c);
      assert Sets(rest[i - 1], c);
    }
    if Queued(rest, c) {
      var i :| 0 <= i < |rest| && Sets(rest[i], c);
      assert Sets(queue[i + 1], c);
    }
  }

  lemma RaiseKeeps(s: State)
    requires Inv(s)
    ensures Inv(DoRaise(s))
  {
    var t := DoRaise(s);
    forall c | t.Count(c) > 0 ensures OnItsWay(t, c) {
      assert s.Count(c) > 0 ==> OnItsWay(s, c);
    }
  }

  lemma CheckKeeps(s: State)
    requires Inv(s)
    ensures Inv(DoCheck(s))
  {
    var t := DoCheck(s);
    forall c | t.Count(c) > 0 ensures OnItsWay(t, c) {
      assert s.Count(c) > 0;
    }
  }

  lemma FinishKeeps(s: State)
    requires Inv(s)
    ensures Inv(DoFinish(s, true))
  {
    var t := DoFinish(s, true);
    forall c | t.Count(c) > 0 ensures OnItsWay(t, c) {
      assert s.Count(c) > 0;
      if s.inserter.Inserting? {
        QueueGrows(s.queue, AddCells(s.inserter.pipe, s.inserter.chosen), c);
      }
    }
  }

  lemma LowerKeeps(s: State)
    requires Inv(s)
    ensures Inv(DoLower(s))
  {
    var t := DoLower(s);
    forall c | t.Count(c) > 0 ensures OnItsWay(t, c) {
      assert s.Count(c) > 0;
    }
  }

  lemma FetchKeeps(s: State)
    requires Inv(s)
    ensures Inv(DoFetch(s))
  {
    var t := DoFetch(s);
    forall c | t.Count(c) > 0 ensures OnItsWay(t, c) {
      assert s.Count(c) > 0;
      if s.queue != [] {
        QueueShrinks(s.queue, c);
      }
    }
  }

  lemma WriteKeeps(s: State)
    requires Inv(s)
    ensures Inv(DoWrite(s))
  {
    var t := DoWrite(s);
    forall c | t.Count(c) > 0 ensures OnItsWay(t, c) {
      assert s.Count(c) > 0;
    }
  }

  /** Every step that drops no command keeps the invariant. */
  lemma StepKeeps(s: State, a: Action)
    requires Inv(s) && a != Finish(false)
    ensures Inv(Step(s, a))
  {
    match a
    case Raise => RaiseKeeps(s);
    case Check => CheckKeeps(s);
    case Finish(_) => FinishKeeps(s);
    case Lower => LowerKeeps(s);
    case Fetch => FetchKeeps(s);
    case Write => WriteKeeps(s);
    case Clear(pipe, indices) =>
      var t := Step(s, a);
      forall c | t.Count(c) > 0 ensures OnItsWay(t, c) {
        assert s.Count(c) > 0;
        QueueGrows(s.queue, RemoveCells(pipe, indices), c);
      }
    case _ =>
      var t := Step(s, a);
      forall c | t.Count(c) > 0 ensures OnItsWay(t, c) {
        assert s.Count(c) > 0;
      }
  }

  /** In every run without a dropped command, under every interleaving. */
  lemma {:induction false} RunKeeps(s: State, actions: seq<Action>)
    requires Inv(s) && Finish(false) !in actions
    ensures Inv(Run(s, actions))
    decreases |actions|
  {
    if actions != [] {
      StepKeeps(s, actions[0]);
      RunKeeps(Step(s, actions[0]), actions[1..]);
    }
  }

  /** Once nothing is under way, the switch holds every cell whose counter is positive. */
  lemma NoFalseNegatives(actions: seq<Action>, c: Cell)
    requires Finish(false) !in actions
    ensures var s := Run(Init(), actions);
      s.Count(c) > 0 && s.inserter.Idle? && s.queue == [] && s.writer.Waiting? ==> c in s.written
  {
    RunKeeps(Init(), actions);
  }

  /** Dropping a command is harmless exactly if each of its live cells is written, or being written, anyway. */
  lemma DropKeepsIff(s: State)
    requires Inv(s) && s.inserter.Inserting? && s.inserter.filter == |s.inserter.targets| && s.inserter.send
    ensures Inv(Step(s, Finish(false))) <==>
      forall f {:trigger s.inserter.chosen[f]} ::
        0 <= f < |s.inserter.chosen| && s.Count(Cell(s.inserter.pipe, f, s.inserter.chosen[f])) > 0 ==>
        var c := Cell(s.inserter.pipe, f, s.inserter.chosen[f]);
        c in s.written || Queued(s.queue, c) || InWriter(s.writer, c)
  {
    var t := Step(s, Finish(false));
    forall c ensures t.Count(c) == s.Count(c) &&
      (OnItsWay(t, c) <==> c in s.written || Queued(s.queue, c) || InWriter(s.writer, c)) {
    }
    forall c | s.Count(c) > 0 && InInserter(s, c) ensures s.inserter.chosen[c.filter] == c.index {
    }
    if Inv(t) {
      forall f | 0 <= f < |s.inserter.chosen| && s.Count(Cell(s.inserter.pipe, f, s.inserter.chosen[f])) > 0
        ensures OnItsWay(t, Cell(s.inserter.pipe, f, s.inserter.chosen[f]))
      {
        assert t.Count(Cell(s.inserter.pipe, f, s.inserter.chosen[f])) > 0;
      }
    }
  }

  lemma RunFirst(s: State, a: Action, rest: seq<Action>)
    ensures Run(s, [a] + rest) == Run(Step(s, a), rest)
  {
    assert ([a] + rest)[1..] == rest;
  }

  lemma InsertAlone(s: State, pipe: nat, index: nat, accepted: bool, t: State)
    requires s.inserter.Idle? && (pipe, 0) !in s.held && s.Count(Cell(pipe, 0, index)) == 0
    requires t == Step(Step(Step(Step(s, Begin(pipe, [index])), Raise), Check), Finish(accepted))
    ensures t.Count(Cell(pipe, 0, index)) == 1 && t.inserter.Idle? && t.writer == s.writer && t.written == s.written
    ensures t.queue == if accepted then s.queue + [AddCells(pipe, [index])] else s.queue
  {
    var s1 := Step(s, Begin(pipe, [index]));
    assert s1.inserter == Inserting(pipe, [index], 0, false, [0], false, []);
    var s2 := Step(s1, Raise);
    assert s2.Count(Cell(pipe, 0, index)) == 1 && s2.inserter.raised;
    var s3 := Step(s2, Check);
    assert [0][0 := index] == [index];
    assert s3.inserter == Inserting(pipe, [index], 1, false, [index], true, [true]);
  }

  /** A dropped command loses its cells: the counter stands at one and no write is on its way. */
  lemma DroppedCommandLosesCell(pipe: nat, index: nat)
    ensures var s := Run(Init(), [Begin(pipe, [index])] + ([Raise] + ([Check] + ([Finish(false)] + []))));
      s.Count(Cell(pipe, 0, index)) == 1 && !OnItsWay(s, Cell(pipe, 0, index))
  {
    var s := Init();
    var s1 := Step(s, Begin(pipe, [index]));
    var s2 := Step(s1, Raise);
    var s3 := Step(s2, Check);
    RunFirst(s, Begin(pipe, [index]), [Raise] + ([Check] + ([Finish(false)] + [])));
    RunFirst(s1, Raise, [Check] + ([Finish(false)] + []));
    RunFirst(s2, Check, [Finish(false)] + []);
    RunFirst(s3, Finish(false), []);
    InsertAlone(s, pipe, index, false, Step(s3, Finish(false)));
  }

  // ---------- Nothing else is written, except cell 0 ----------

  /** A cell the program may write: one that was raised, or index 0, which unset command fields name. */
  predicate Allowed(s: State, c: Cell) {
    c in s.touched || c.index == 0
  }

  ghost predicate AllowedIndices(s: State, pipe: nat, indices: seq<nat>) {
    forall f :: 0 <= f < |indices| ==> Allowed(s, Cell(pipe, f, indices[f]))
  }

  ghost predicate OnlyAllowed(s: State) {
    && WellFormed(s)
    && (forall c :: c in s.written ==> Allowed(s, c))
    && (forall i :: 0 <= i < |s.queue| && s.queue[i].AddCells? ==>
          AllowedIndices(s, s.queue[i].pipe, s.queue[i].indices))
    && (s.writer.Writing? ==> AllowedIndices(s, s.writer.pipe, s.writer.indices))
    && (s.inserter.Inserting? ==>
          && AllowedIndices(s, s.inserter.pipe, s.inserter.chosen)
          && (s.inserter.raised ==>
                Cell(s.inserter.pipe, s.inserter.filter, s.inserter.targets[s.inserter.filter]) in s.touched))
  }

  /** What stays allowed when histories and commands stay. */
  lemma AllowedStays(s: State, t: State)
    requires OnlyAllowed(s) && s.touched <= t.touched && WellFormed(t)
    requires t.written == s.written && t.queue == s.queue && t.writer == s.writer
    requires t.inserter.Inserting? ==>
      && AllowedIndices(t, t.inserter.pipe, t.inserter.chosen)
      && (t.inserter.raised ==>
            Cell(t.inserter.pipe, t.inserter.filter, t.inserter.targets[t.inserter.filter]) in t.touched)
    ensures OnlyAllowed(t)
  {
  }

  lemma InserterWritesOnlyAllowed(s: State, a: Action)
    requires OnlyAllowed(s) && (a.Begin? || a.Raise? || a.Check?)
    ensures OnlyAllowed(Step(s, a))
  {
    AllowedStays(s, Step(s, a));
  }

  lemma FinishWritesOnlyAllowed(s: State, accepted: bool)
    requires OnlyAllowed(s)
    ensures OnlyAllowed(DoFinish(s, accepted))
  {
  }

  lemma FetchWritesOnlyAllowed(s: State)
    requires OnlyAllowed(s)
    ensures OnlyAllowed(DoFetch(s))
  {
  }

  lemma WriteWritesOnlyAllowed(s: State)
    requires OnlyAllowed(s)
    ensures OnlyAllowed(DoWrite(s))
  {
  }

  lemma StepWritesOnlyAllowed(s: State, a: Action)
    requires OnlyAllowed(s)
    ensures OnlyAllowed(Step(s, a))
  {
    match a
    case Begin(_, _) => InserterWritesOnlyAllowed(s, a);
    case Raise => InserterWritesOnlyAllowed(s, a);
    case Check => InserterWritesOnlyAllowed(s, a);
    case Finish(accepted) => FinishWritesOnlyAllowed(s, accepted);
    case Fetch => FetchWritesOnlyAllowed(s);
    case Write => WriteWritesOnlyAllowed(s);
    case _ => assert Step(s, a).touched == s.touched;
  }

  lemma {:induction false} RunWritesOnlyAllowed(s: State, actions: seq<Action>)
    requires OnlyAllowed(s)
    ensures OnlyAllowed(Run(s, actions))
    decreases |actions|
  {
    if actions != [] {
      StepWritesOnlyAllowed(s, actions[0]);
      RunWritesOnlyAllowed(Step(s, actions[0]), actions[1..]);
    }
  }

  // ---------- Which commands name a cell that was never raised ----------

  /** What the prepared command holds: the target where a check found one, 0 elsewhere. */
  ghost predicate Prepared(s: State) {
    s.inserter.Inserting? ==>
      var x := s.inserter;
      && |x.hits| == x.filter <= |x.targets| == |x.chosen|
      && (forall f :: 0 <= f < |x.chosen| ==> x.chosen[f] == if f < x.filter && x.hits[f] then x.targets[f] else 0)
      && (x.send <==> true in x.hits)
      && (forall f :: 0 <= f < |x.targets| && (f < x.filter || (f == x.filter && x.raised)) ==>
            Cell(x.pipe, f, x.targets[f]) in s.touched)
  }

  lemma StepPrepared(s: State, a: Action)
    requires Prepared(s)
    ensures Prepared(Step(s, a))
  {
  }

  lemma {:induction false} RunPrepared(s: State, actions: seq<Action>)
    requires Prepared(s)
    ensures Prepared(Run(s, actions))
    decreases |actions|
  {
    if actions != [] {
      StepPrepared(s, actions[0]);
      RunPrepared(Step(s, actions[0]), actions[1..]);
    }
  }

  ghost predicate NamesUnraised(s: State, pipe: nat, indices: seq<nat>) {
    exists f :: 0 <= f < |indices| && Cell(pipe, f, indices[f]) !in s.touched
  }

  /** Some check found another count than one, and cell 0 of its filter was never raised. */
  ghost predicate MissedBesideZero(s: State, pipe: nat, hits: seq<bool>) {
    exists f :: 0 <= f < |hits| && !hits[f] && Cell(pipe, f, 0) !in s.touched
  }

  /** The command that an insertion queues names a cell that was never raised exactly in that case. */
  lemma UnraisedIff(actions: seq<Action>)
    requires var x := Run(Init(), actions).inserter; x.Inserting? && x.filter == |x.targets| && x.send && !x.raised
    ensures var s := Run(Init(), actions); var t, x := Step(s, Finish(true)), s.inserter;
      && t.queue == s.queue + [AddCells(x.pipe, x.chosen)] && t.touched == s.touched
      && (NamesUnraised(t, x.pipe, x.chosen) <==> MissedBesideZero(t, x.pipe, x.hits))
  {
    var s := Run(Init(), actions);
    RunPrepared(Init(), actions);
    var x := s.inserter;
    if NamesUnraised(s, x.pipe, x.chosen) {
      var f :| 0 <= f < |x.chosen| && Cell(x.pipe, f, x.chosen[f]) !in s.touched;
      assert !x.hits[f] && x.chosen[f] == 0;
    }
    if MissedBesideZero(s, x.pipe, x.hits) {
      var f :| 0 <= f < |x.hits| && !x.hits[f] && Cell(x.pipe, f, 0) !in s.touched;
      assert Cell(x.pipe, f, x.chosen[f]) !in s.touched;
    }
  }

  /** After a locked increment the check notes whether it finds the counter at one. */
  lemma CheckNotes(actions: seq<Action>)
    requires var x := Run(Init(), actions).inserter; x.Inserting? && x.raised && x.filter < |x.targets|
    ensures var s := Run(Init(), actions); var x, y := s.inserter, Step(s, Check).inserter;
      && y.Inserting? && y.filter == x.filter + 1 && !y.raised
      && y.hits == x.hits + [s.Count(Cell(x.pipe, x.filter, x.targets[x.filter])) == 1]
  {
    RunPrepared(Init(), actions);
  }

  /** An insertion queues a command exactly when some check found its counter at one; the command names those cells. */
  lemma SendsIff(actions: seq<Action>)
    requires var x := Run(Init(), actions).inserter; x.Inserting? && x.filter == |x.targets| && !x.raised
    ensures var s := Run(Init(), actions); var t, x := Step(s, Finish(true)), s.inserter;
      && t.inserter.Idle? && t.counts == s.counts
      && t.queue == (if true in x.hits then s.queue + [AddCells(x.pipe, x.chosen)] else s.queue)
      && |x.chosen| == |x.hits| == |x.targets|
      && forall f :: 0 <= f < |x.hits| ==> x.chosen[f] == if x.hits[f] then x.targets[f] else 0
  {
    RunPrepared(Init(), actions);
  }

  // ---------- What the counters count ----------

  /** The action is a locked increment of the cell's counter. */
  predicate Raises(s: State, a: Action, c: Cell) {
    && a.Raise? && s.inserter.Inserting? && !s.inserter.raised && s.inserter.filter < |s.inserter.targets|
    && c == Cell(s.inserter.pipe, s.inserter.filter, s.inserter.targets[s.inserter.filter])
    && (c.pipe, c.filter) !in s.held
  }

  /** The action is a locked decrement of the cell's counter. */
  predicate Lowers(s: State, a: Action, c: Cell) {
    a.Lower? && s.decay.Peeked? && s.decay.cell == c && (c.pipe, c.filter) !in s.held && s.Count(c) > 0
  }

  function RaisesIn(s: State, actions: seq<Action>, c: Cell): nat
    decreases |actions|
  {
    if actions == [] then 0
    else (if Raises(s, actions[0], c) then 1 else 0) + RaisesIn(Step(s, actions[0]), actions[1..], c)
  }

  function LowersIn(s: State, actions: seq<Action>, c: Cell): nat
    decreases |actions|
  {
    if actions == [] then 0
    else (if Lowers(s, actions[0], c) then 1 else 0) + LowersIn(Step(s, actions[0]), actions[1..], c)
  }

  /** `total` in 16 bits. */
  function Wrapped(total: int): (n: nat)
    ensures n < COUNTER_LIMIT
  {
    total % COUNTER_LIMIT
  }

  lemma StepCounts(s: State, a: Action, c: Cell)
    requires s.Count(c) < COUNTER_LIMIT
    ensures Step(s, a).Count(c) ==
      Wrapped(s.Count(c) + ((if Raises(s, a, c) then 1 else 0) - (if Lowers(s, a, c) then 1 else 0)))
  {
  }

  lemma SumWraps(n: nat, before: int, up: nat, down: nat)
    requires n == Wrapped(before)
    ensures Wrapped(n + (up - down)) == Wrapped(before + (up - down))
  {
  }

  /** Marker for the folded predicate below: the verifier looks inside only where `UnfoldTally` is mentioned. */
  ghost predicate UnfoldTally(i: int) {
    true
  }

  /** The actions lead from `s` to `t` with so many increments and decrements of the cell (folded). */
  ghost predicate Tally(s: State, actions: seq<Action>, c: Cell, t: State, up: nat, down: nat) {
    forall i {:trigger UnfoldTally(i)} :: UnfoldTally(i) ==>
      t == Run(s, actions) && up == RaisesIn(s, actions, c) && down == LowersIn(s, actions, c)
  }

  lemma TallyEnds(s: State, c: Cell, t: State, up: nat, down: nat)
    requires Tally(s, [], c, t, up, down)
    ensures t == s && up == 0 && down == 0
  {
    assert UnfoldTally(0);
  }

  lemma TallyFirst(s: State, actions: seq<Action>, c: Cell, t: State, up: nat, down: nat)
    returns (s': State, up': nat, down': nat)
    requires Tally(s, actions, c, t, up, down) && actions != [] && s.Count(c) < COUNTER_LIMIT
    ensures Tally(s', actions[1..], c, t, up', down')
    ensures s'.Count(c) == Wrapped(s.Count(c) + ((up - up') - (down - down')))
  {
    assert UnfoldTally(0);
    s' := Step(s, actions[0]);
    up', down' := RaisesIn(s', actions[1..], c), LowersIn(s', actions[1..], c);
    StepCounts(s, actions[0], c);
  }

  lemma {:induction false} RunCounts(s: State, actions: seq<Action>, c: Cell, t: State, up: nat, down: nat)
    requires s.Count(c) < COUNTER_LIMIT && Tally(s, actions, c, t, up, down)
    ensures t.Count(c) == Wrapped(s.Count(c) + (up - down))
    decreases |actions|
  {
    if actions == [] {
      TallyEnds(s, c, t, up, down);
    } else {
      var s', up', down' := TallyFirst(s, actions, c, t, up, down);
      RunCounts(s', actions[1..], c, t, up', down');
      SumWraps(s'.Count(c), s.Count(c) + ((up - up') - (down - down')), up', down');
    }
  }

  /** In every run the counter of a cell is its locked increments less its locked decrements, in 16 bits. */
  lemma CountersAreExact(actions: seq<Action>, c: Cell)
    ensures Run(Init(), actions).Count(c) ==
      (RaisesIn(Init(), actions, c) - LowersIn(Init(), actions, c)) % COUNTER_LIMIT
  {
    RunCounts(Init(), actions, c, Run(Init(), actions), RaisesIn(Init(), actions, c), LowersIn(Init(), actions, c));
  }

  /** The history of raised cells holds exactly those with a locked increment. */
  lemma {:induction false} TouchedIff(s: State, actions: seq<Action>, c: Cell)
    ensures c in Run(s, actions).touched <==> c in s.touched || RaisesIn(s, actions, c) > 0
    decreases |actions|
  {
    if actions != [] {
      TouchedStep(s, actions[0], c);
      TouchedIff(Step(s, actions[0]), actions[1..], c);
    }
  }

  lemma TouchedStep(s: State, a: Action, c: Cell)
    ensures c in Step(s, a).touched <==> c in s.touched || Raises(s, a, c)
  {
  }

  /** A decrement that finds the counter positive leaves it one less, and nothing else but the end of the look. */
  lemma LowerTakesOne(s: State)
    requires s.decay.Peeked? && (s.decay.cell.pipe, s.decay.cell.filter) !in s.held && s.Count(s.decay.cell) > 0
    ensures var t, c := Step(s, Lower), s.decay.cell;
      && t.Count(c) == s.Count(c) - 1 && (forall d :: d != c ==> t.Count(d) == s.Count(d))
      && t.decay.Resting? && t == s.(counts := t.counts, decay := Resting)
  {
  }

  /** Maintenance undisturbed takes one from a positive counter with a free lock, and leaves a zero counter alone. */
  lemma DecaysByOne(s: State, c: Cell)
    requires s.decay.Resting? && (c.pipe, c.filter) !in s.held
    ensures var t := Run(s, [Peek(c), Lower]);
      && t.Count(c) == (if s.Count(c) > 0 then s.Count(c) - 1 else 0)
      && (forall d :: d != c ==> t.Count(d) == s.Count(d)) && t == s.(counts := t.counts)
  {
    RunPair(s, Peek(c), Lower);
    if s.Count(c) > 0 {
      LowerTakesOne(Step(s, Peek(c)));
    }
  }

  lemma RunPair(s: State, a: Action, b: Action)
    ensures Run(s, [a, b]) == Step(Step(s, a), b)
  {
    assert [a, b] == [a] + [b] && [b] == [b] + [];
    RunFirst(s, a, [b]);
    RunFirst(Step(s, a), b, []);
  }

  // ---------- The data plane catches up ----------

  /** The steps of the data plane until nothing is left to do. */
  function Drain(s: State): seq<Action>
    decreases |s.queue|, s.writer.Writing?, if s.writer.Writing? then |s.writer.indices| - s.writer.filter else 0
  {
    if s.writer.Writing? then [Write] + Drain(Step(s, Write))
    else if s.queue != [] then [Fetch] + Drain(Step(s, Fetch))
    else []
  }

  lemma {:induction false} DrainEnds(s: State)
    ensures var t := Run(s, Drain(s));
      && t.queue == [] && t.writer.Waiting? && t.counts == s.counts && t.inserter == s.inserter
      && s.written <= t.written && Finish(false) !in Drain(s)
    decreases |s.queue|, s.writer.Writing?, if s.writer.Writing? then |s.writer.indices| - s.writer.filter else 0
  {
    if s.writer.Writing? {
      DrainEnds(Step(s, Write));
      RunFirst(s, Write, Drain(Step(s, Write)));
    } else if s.queue != [] {
      DrainEnds(Step(s, Fetch));
      RunFirst(s, Fetch, Drain(Step(s, Fetch)));
    }
  }

  /** Left alone between insertions, the data plane ends with every cell written whose counter is positive. */
  lemma DrainWritesAll(actions: seq<Action>, c: Cell)
    requires Finish(false) !in actions && Run(Init(), actions).inserter.Idle? && Run(Init(), actions).Count(c) > 0
    ensures var s := Run(Init(), actions); c in Run(s, Drain(s)).written
  {
    var s := Run(Init(), actions);
    RunKeeps(Init(), actions);
    DrainEnds(s);
    RunKeeps(s, Drain(s));
    assert Run(s, Drain(s)).Count(c) == s.Count(c);
  }

  // ---------- A run that writes a cell that was never raised ----------

  lemma {:induction false} RunConcat(s: State, a: seq<Action>, b: seq<Action>)
    ensures Run(s, a + b) == Run(Run(s, a), b)
    decreases |a|
  {
    if a == [] {
      assert a + b == b;
    } else {
      assert (a + b)[1..] == a[1..] + b;
      RunConcat(Step(s, a[0]), a[1..], b);
    }
  }

  /** The next filter of an insertion can be raised. */
  ghost predicate AtFilter(s: State) {
    && s.inserter.Inserting? && !s.inserter.raised
    && s.inserter.filter < |s.inserter.targets| == |s.inserter.chosen|
    && (s.inserter.pipe, s.inserter.filter) !in s.held
  }

  /** What one filter of an undisturbed insertion does. */
  ghost predicate PastFilter(s: State, t: State)
    requires AtFilter(s)
  {
    var x := s.inserter;
    var c := Cell(x.pipe, x.filter, x.targets[x.filter]);
    var n := (s.Count(c) + 1) % COUNTER_LIMIT;
    && t.counts == s.counts[c := n] && t.touched == s.touched + {c}
    && t.inserter == Inserting(x.pipe, x.targets, x.filter + 1, false,
                               if n == 1 then x.chosen[x.filter := x.targets[x.filter]] else x.chosen,
                               x.send || n == 1, x.hits + [n == 1])
    && t.held == s.held && t.queue == s.queue && t.writer == s.writer && t.written == s.written
    && t.decay == if s.decay.Peeked? && s.decay.cell == c then s.decay.(raises := s.decay.raises + 1) else s.decay
  }

  lemma RaiseAndCheck(s: State, t: State)
    requires AtFilter(s) && t == Run(s, [Raise, Check])
    ensures PastFilter(s, t)
  {
    RunPair(s, Raise, Check);
  }

  function Filters(n: nat): seq<Action> {
    if n == 0 then [] else Filters(n - 1) + [Raise, Check]
  }

  /** An insertion that nothing interrupts. */
  function Insertion(pipe: nat, targets: seq<nat>): seq<Action> {
    ([Begin(pipe, targets)] + Filters(|targets|)) + [Finish(true)]
  }

  predicate IsTarget(c: Cell, pipe: nat, targets: seq<nat>, n: nat) {
    c.pipe == pipe && c.filter < n && c.filter < |targets| && c.index == targets[c.filter]
  }

  /** What an insertion has done to counters and histories after `n` filters. */
  ghost predicate Raised(s: State, t: State, pipe: nat, targets: seq<nat>, n: nat) {
    && (forall c {:trigger t.Count(c)} :: t.Count(c) ==
          if IsTarget(c, pipe, targets, n) then (s.Count(c) + 1) % COUNTER_LIMIT else s.Count(c))
    && (forall c :: c in t.touched <==> c in s.touched || IsTarget(c, pipe, targets, n))
    && t.held == s.held && t.queue == s.queue && t.writer == s.writer && t.written == s.written
    && t.decay == if s.decay.Peeked? && IsTarget(s.decay.cell, pipe, targets, n)
         then s.decay.(raises := s.decay.raises + 1) else s.decay
  }

  /** The command that an insertion has prepared after `n` filters. */
  ghost predicate Chosen(s: State, x: Inserter, pipe: nat, targets: seq<nat>, n: nat) {
    && n <= |targets| && x.Inserting? && x.pipe == pipe && x.targets == targets
    && x.filter == n == |x.hits| && !x.raised && |x.chosen| == |targets|
    && (forall f :: 0 <= f < n ==> x.hits[f] == ((s.Count(Cell(pipe, f, targets[f])) + 1) % COUNTER_LIMIT == 1))
    && (forall f :: 0 <= f < |targets| ==> x.chosen[f] == if f < n && x.hits[f] then targets[f] else 0)
    && (x.send <==> true in x.hits)
  }

  ghost predicate Inserted(s: State, t: State, pipe: nat, targets: seq<nat>, n: nat) {
    Raised(s, t, pipe, targets, n) && Chosen(s, t.inserter, pipe, targets, n)
  }

  lemma RaisesOneMore(s: State, t: State, u: State, pipe: nat, targets: seq<nat>, n: nat)
    requires n < |targets| && Raised(s, t, pipe, targets, n) && AtFilter(t) && PastFilter(t, u)
    requires t.inserter.pipe == pipe && t.inserter.targets == targets && t.inserter.filter == n
    ensures Raised(s, u, pipe, targets, n + 1)
  {
    forall c ensures IsTarget(c, pipe, targets, n + 1) <==>
      IsTarget(c, pipe, targets, n) || c == Cell(pipe, n, targets[n]) {
    }
    forall c ensures u.Count(c) ==
      if IsTarget(c, pipe, targets, n + 1) then (s.Count(c) + 1) % COUNTER_LIMIT else s.Count(c)
    {
      assert t.Count(c) == if IsTarget(c, pipe, targets, n) then (s.Count(c) + 1) % COUNTER_LIMIT else s.Count(c);
    }
  }

  lemma ChoosesOneMore(s: State, t: State, u: State, pipe: nat, targets: seq<nat>, n: nat)
    requires n < |targets| && Chosen(s, t.inserter, pipe, targets, n) && AtFilter(t) && PastFilter(t, u)
    requires t.Count(Cell(pipe, n, targets[n])) == s.Count(Cell(pipe, n, targets[n]))
    ensures Chosen(s, u.inserter, pipe, targets, n + 1)
  {
  }

  lemma OneMoreFilter(s: State, t: State, u: State, pipe: nat, targets: seq<nat>, n: nat)
    requires n < |targets| && (pipe, n) !in s.held && Inserted(s, t, pipe, targets, n)
    requires u == Run(t, [Raise, Check])
    ensures Inserted(s, u, pipe, targets, n + 1)
  {
    RaiseAndCheck(t, u);
    assert t.Count(Cell(pipe, n, targets[n])) == s.Count(Cell(pipe, n, targets[n]));
    RaisesOneMore(s, t, u, pipe, targets, n);
    ChoosesOneMore(s, t, u, pipe, targets, n);
  }

  lemma NextFilter(s: State, s1: State, pipe: nat, targets: seq<nat>, n: nat)
    requires n < |targets| && (pipe, n) !in s.held && Inserted(s, Run(s1, Filters(n)), pipe, targets, n)
    ensures Inserted(s, Run(s1, Filters(n + 1)), pipe, targets, n + 1)
  {
    var t := Run(s1, Filters(n));
    RunConcat(s1, Filters(n), [Raise, Check]);
    OneMoreFilter(s, t, Run(t, [Raise, Check]), pipe, targets, n);
  }

  lemma {:induction false} FiltersInsert(s: State, s1: State, pipe: nat, targets: seq<nat>, n: nat)
    requires n <= |targets| && Inserted(s, s1, pipe, targets, 0)
    requires forall f :: 0 <= f < |targets| ==> (pipe, f) !in s.held
    ensures Inserted(s, Run(s1, Filters(n)), pipe, targets, n)
  {
    if n > 0 {
      FiltersInsert(s, s1, pipe, targets, n - 1);
      NextFilter(s, s1, pipe, targets, n - 1);
    }
  }

  lemma InsertionSteps(s: State, pipe: nat, targets: seq<nat>)
    ensures Run(s, Insertion(pipe, targets))
         == Step(Run(Step(s, Begin(pipe, targets)), Filters(|targets|)), Finish(true))
  {
    RunConcat(s, [Begin(pipe, targets)] + Filters(|targets|), [Finish(true)]);
    RunFirst(s, Begin(pipe, targets), Filters(|targets|));
    assert [Finish(true)] == [Finish(true)] + [];
    RunFirst(Run(Step(s, Begin(pipe, targets)), Filters(|targets|)), Finish(true), []);
  }

  /**
   * Exactly the counters of the targets are raised, and a command is queued
   * exactly when one of them was zero: it names the targets that were, and index
   * 0 for the others.
   */
  ghost predicate InsertionDone(s: State, t: State, pipe: nat, targets: seq<nat>) {
    && t.inserter.Idle? && t.held == s.held && t.writer == s.writer && t.written == s.written
    && (forall c {:trigger t.Count(c)} :: t.Count(c) ==
          if IsTarget(c, pipe, targets, |targets|) then (s.Count(c) + 1) % COUNTER_LIMIT else s.Count(c))
    && (forall c :: c in t.touched <==> c in s.touched || IsTarget(c, pipe, targets, |targets|))
    && (InBits(s) ==> t.queue == s.queue + NewCommand(s, pipe, targets))
    && t.decay == if s.decay.Peeked? && IsTarget(s.decay.cell, pipe, targets, |targets|)
         then s.decay.(raises := s.decay.raises + 1) else s.decay
  }

  ghost predicate InBits(s: State) {
    forall c {:trigger s.Count(c)} :: s.Count(c) < COUNTER_LIMIT
  }

  /** An insertion that nothing interrupts, where the locks of its filters are free. */
  lemma Inserts(s: State, pipe: nat, targets: seq<nat>)
    requires s.inserter.Idle? && forall f :: 0 <= f < |targets| ==> (pipe, f) !in s.held
    ensures InsertionDone(s, Run(s, Insertion(pipe, targets)), pipe, targets)
  {
    var s1 := Step(s, Begin(pipe, targets));
    InsertionSteps(s, pipe, targets);
    assert Inserted(s, s1, pipe, targets, 0);
    FiltersInsert(s, s1, pipe, targets, |targets|);
    FinishInserts(s, Run(s1, Filters(|targets|)), pipe, targets);
  }

  lemma FinishInserts(s: State, t: State, pipe: nat, targets: seq<nat>)
    requires Inserted(s, t, pipe, targets, |targets|)
    ensures InsertionDone(s, Step(t, Finish(true)), pipe, targets)
  {
    var u := Step(t, Finish(true));
    forall c ensures u.Count(c) == t.Count(c) {
    }
    if InBits(s) {
      CommandIs(s, t, pipe, targets);
    }
  }

  predicate WasZero(s: State, pipe: nat, targets: seq<nat>, f: nat)
    requires f < |targets|
  {
    s.Count(Cell(pipe, f, targets[f])) == 0
  }

  /** The command of an insertion, if it sends one. */
  ghost function NewCommand(s: State, pipe: nat, targets: seq<nat>): (cmds: seq<Command>) {
    if exists f :: 0 <= f < |targets| && WasZero(s, pipe, targets, f) then
      [AddCells(pipe, seq(|targets|, f requires 0 <= f < |targets| => if WasZero(s, pipe, targets, f) then targets[f]
        else 0))]
    else []
  }

  lemma CommandIs(s: State, t: State, pipe: nat, targets: seq<nat>)
    requires Inserted(s, t, pipe, targets, |targets|) && InBits(s)
    ensures NewCommand(s, pipe, targets) == if t.inserter.send then [AddCells(pipe, t.inserter.chosen)] else []
  {
    var hits := t.inserter.hits;
    forall f | 0 <= f < |targets| ensures hits[f] == WasZero(s, pipe, targets, f) {
      assert s.Count(Cell(pipe, f, targets[f])) < COUNTER_LIMIT;
    }
    if t.inserter.send {
      var f :| 0 <= f < |hits| && hits[f];
      assert WasZero(s, pipe, targets, f);
      assert NewCommand(s, pipe, targets)[0].indices == t.inserter.chosen;
    }
  }

  /** An insertion into two filters that finds the second counter at zero, and the first at zero or one. */
  lemma PairInserted(s: State, pipe: nat, a: nat, b: nat, t: State)
    requires s.inserter.Idle? && s.held == {} && t == Run(s, Insertion(pipe, [a, b]))
    requires forall c {:trigger s.Count(c)} :: s.Count(c) <= 1
    requires s.Count(Cell(pipe, 1, b)) == 0
    ensures t.inserter.Idle? && t.held == {} && t.writer == s.writer && t.written == s.written
    ensures t.touched == s.touched + {Cell(pipe, 0, a), Cell(pipe, 1, b)}
    ensures forall c :: t.Count(c) == s.Count(c) + if c in {Cell(pipe, 0, a), Cell(pipe, 1, b)} then 1 else 0
    ensures t.queue == s.queue + [AddCells(pipe, [if s.Count(Cell(pipe, 0, a)) == 0 then a else 0, b])]
  {
    Inserts(s, pipe, [a, b]);
    forall c ensures IsTarget(c, pipe, [a, b], 2) <==> c in {Cell(pipe, 0, a), Cell(pipe, 1, b)} {
    }
    assert WasZero(s, pipe, [a, b], 1);
    assert NewCommand(s, pipe, [a, b])[0].indices == [if s.Count(Cell(pipe, 0, a)) == 0 then a else 0, b];
  }

  function ExecutePair(): seq<Action> {
    [Fetch, Write] + [Write, Write]
  }

  lemma PairExecuted(s: State, pipe: nat, x: nat, y: nat, t: State)
    requires s.writer.Waiting? && s.queue != [] && s.queue[0] == AddCells(pipe, [x, y]) && t == Run(s, ExecutePair())
    ensures t == s.(queue := s.queue[1..], written := s.written + {Cell(pipe, 0, x), Cell(pipe, 1, y)})
  {
    RunConcat(s, [Fetch, Write], [Write, Write]);
    RunPair(s, Fetch, Write);
    var s2 := Run(s, [Fetch, Write]);
    RunPair(s2, Write, Write);
    assert s2.writer == Writing(pipe, [x, y], 1);
  }

  /** Two insertions that share a cell of the first filter: the second writes cell 0 of that filter, never raised. */
  lemma UnraisedCellIsWritten(pipe: nat, a: nat, b: nat, b': nat)
    requires a != 0 && b != b'
    ensures var s := Run(Init(),
      (Insertion(pipe, [a, b]) + Insertion(pipe, [a, b'])) + (ExecutePair() + ExecutePair()));
      Cell(pipe, 0, 0) in s.written && Cell(pipe, 0, 0) !in s.touched
  {
    var s1 := Run(Init(), Insertion(pipe, [a, b]));
    var s2 := Run(s1, Insertion(pipe, [a, b']));
    var s3 := Run(s2, ExecutePair());
    RunConcat(Init(), Insertion(pipe, [a, b]) + Insertion(pipe, [a, b']), ExecutePair() + ExecutePair());
    RunConcat(Init(), Insertion(pipe, [a, b]), Insertion(pipe, [a, b']));
    RunConcat(s2, ExecutePair(), ExecutePair());
    PairInserted(Init(), pipe, a, b, s1);
    PairInserted(s1, pipe, a, b', s2);
    PairExecuted(s2, pipe, a, b, s3);
    PairExecuted(s3, pipe, 0, b', Run(s3, ExecutePair()));
  }

  // ---------- Locks ----------

  /** The counters are 16 bits wide, and the peeked one is what its raises since have made of it. */
  ghost predicate Counted(s: State) {
    && InBits(s)
    && (s.decay.Peeked? ==>
          && 0 < s.decay.seen < COUNTER_LIMIT
          && s.Count(s.decay.cell) == (s.decay.seen + s.decay.raises) % COUNTER_LIMIT)
  }

  lemma NextCount(n: nat)
    ensures (n % COUNTER_LIMIT + 1) % COUNTER_LIMIT == (n + 1) % COUNTER_LIMIT
  {
  }

  lemma StepCounted(s: State, a: Action)
    requires Counted(s)
    ensures Counted(Step(s, a))
  {
    var t := Step(s, a);
    forall c ensures t.Count(c) < COUNTER_LIMIT {
      assert s.Count(c) < COUNTER_LIMIT;
    }
    if s.decay.Peeked? {
      NextCount(s.decay.seen + s.decay.raises);
    }
  }

  lemma {:induction false} RunCounted(s: State, actions: seq<Action>)
    requires Counted(s)
    ensures Counted(Run(s, actions))
    decreases |actions|
  {
    if actions != [] {
      StepCounted(s, actions[0]);
      RunCounted(Step(s, actions[0]), actions[1..]);
    }
  }

  /** The step leaves a lock taken. */
  ghost predicate Leaks(s: State, a: Action) {
    Step(s, a).held != s.held
  }

  /**
   * In every reachable state, maintenance leaves a lock taken exactly when the
   * raises since it looked have wrapped the counter around to zero.
   */
  lemma LeaksIff(actions: seq<Action>, a: Action)
    ensures var s := Run(Init(), actions);
      Leaks(s, a) <==>
        && a.Lower? && s.decay.Peeked? && (s.decay.cell.pipe, s.decay.cell.filter) !in s.held
        && (s.decay.seen + s.decay.raises) % COUNTER_LIMIT == 0
  {
    RunCounted(Init(), actions);
    var s := Run(Init(), actions);
    if s.decay.Peeked? {
      var lock := (s.decay.cell.pipe, s.decay.cell.filter);
      assert lock in s.held + {lock};
    }
  }

  /** A whole turn of raises, each insertion with one filter. */
  function Turns(pipe: nat, index: nat, n: nat): seq<Action> {
    if n == 0 then [] else Turns(pipe, index, n - 1) + Insertion(pipe, [index])
  }

  lemma OneTurn(s: State, pipe: nat, index: nat, t: State)
    requires s.inserter.Idle? && (pipe, 0) !in s.held && t == Run(s, Insertion(pipe, [index]))
    ensures var c := Cell(pipe, 0, index);
      && t.inserter.Idle? && t.held == s.held && t.Count(c) == (s.Count(c) + 1) % COUNTER_LIMIT
      && t.decay == if s.decay.Peeked? && s.decay.cell == c then s.decay.(raises := s.decay.raises + 1) else s.decay
  {
    Inserts(s, pipe, [index]);
    assert s.decay.Peeked? ==> (IsTarget(s.decay.cell, pipe, [index], 1) <==> s.decay.cell == Cell(pipe, 0, index));
    assert IsTarget(Cell(pipe, 0, index), pipe, [index], 1);
  }

  lemma {:induction false} ManyTurns(s: State, pipe: nat, index: nat, n: nat)
    requires s.inserter.Idle? && (pipe, 0) !in s.held && s.decay == Peeked(Cell(pipe, 0, index), 1, 0)
    ensures var t := Run(s, Turns(pipe, index, n));
      t.inserter.Idle? && t.held == s.held && t.decay == Peeked(Cell(pipe, 0, index), 1, n)
  {
    if n > 0 {
      var turn := Insertion(pipe, [index]);
      ManyTurns(s, pipe, index, n - 1);
      RunConcat(s, Turns(pipe, index, n - 1), turn);
      OneTurn(Run(s, Turns(pipe, index, n - 1)), pipe, index, Run(s, Turns(pipe, index, n)));
    }
  }

  lemma PeekedOnce(pipe: nat, index: nat)
    ensures var s := Run(Init(), Turns(pipe, index, 1) + [Peek(Cell(pipe, 0, index))]);
      s.inserter.Idle? && s.held == {} && s.decay == Peeked(Cell(pipe, 0, index), 1, 0)
  {
    var c, turn := Cell(pipe, 0, index), Insertion(pipe, [index]);
    var s := Run(Init(), Turns(pipe, index, 1));
    assert Turns(pipe, index, 1) == Turns(pipe, index, 0) + turn == turn;
    OneTurn(Init(), pipe, index, s);
    RunConcat(Init(), Turns(pipe, index, 1), [Peek(c)]);
    assert [Peek(c)] == [Peek(c)] + [];
    RunFirst(s, Peek(c), []);
  }

  /** A cell raised once, looked at, and raised 65535 times more: maintenance never releases the lock. */
  lemma LockIsKept(pipe: nat, index: nat)
    ensures var run := (Turns(pipe, index, 1) + [Peek(Cell(pipe, 0, index))]) + Turns(pipe, index, COUNTER_LIMIT - 1);
      Leaks(Run(Init(), run), Lower)
  {
    var start, wrap := Turns(pipe, index, 1) + [Peek(Cell(pipe, 0, index))], Turns(pipe, index, COUNTER_LIMIT - 1);
    PeekedOnce(pipe, index);
    RunConcat(Init(), start, wrap);
    ManyTurns(Run(Init(), start), pipe, index, COUNTER_LIMIT - 1);
    LeaksIff(start + wrap, Lower);
  }
}
