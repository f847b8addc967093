/**
 * The ring buffer between threads, as small steps: many producers, one
 * consumer, and the two flags that are read outside the lock.  Each step is one
 * shared-memory access (sequentially consistent); a thread that waits for the
 * lock takes steps that change nothing.
 */
module RingBuffers {
  import opened Arithmetic
  import opened Probing

  datatype Ring<T> = Ring(head: nat, tail: nat, empty: bool, full: bool, data: seq<T>)

  /** Where a producer is inside `put` or `ensure_put`, or a thread inside `length`. */
  datatype PutPc = CheckFull | Lock | Recheck | CopyIn | MoveHead | SetFull | ClearEmpty | Unlock | UnlockRejected
  datatype LengthPc = LockLength | ReadLength | UnlockLength

  datatype Thread<T> =
    | Idle
    | Putting(pc: PutPc, item: T, ensure: bool)
    | Measuring(lpc: LengthPc, result: int)

  /** Where the consumer is inside `get`; `item` is the copy it has made. */
  datatype Consumer<T> =
    | Resting
    | CheckEmpty
    | LockGet
    | CopyOut
    | MoveTail(item: T)
    | SetEmpty(item: T)
    | ClearFull(item: T)
    | UnlockGet(item: T)

  datatype Owner = Nobody | ByThread(t: nat) | ByConsumer

  /**
   * The shared state, the threads, and the histories: `puts` in the order in
   * which `head` moved past the items, `gots` likewise for `tail`, and the items
   * of the calls that have returned successfully.
   */
  datatype State<T> = State(
    ring: Ring<T>,
    owner: Owner,
    threads: map<nat, Thread<T>>,
    consumer: Consumer<T>,
    puts: seq<T>,
    gots: seq<T>,
    putReturned: seq<T>,
    getReturned: seq<T>
  ) {
    function Of(t: nat): Thread<T> {
      if t in threads then threads[t] else Idle
    }

    function With(t: nat, th: Thread<T>): State<T> {
      this.(threads := threads[t := th])
    }
  }

  function Init<T>(data: seq<T>): State<T> {
    State(Ring(0, 0, true, false, data), Nobody, map[], Resting, [], [], [], [])
  }

  /** What a scheduler may do: let a thread begin a call, or let one thread take a step. */
  datatype Event<T> =
    | BeginPut(t: nat, item: T, ensure: bool)
    | BeginLength(t: nat)
    | ThreadStep(t: nat)
    | BeginGet
    | ConsumerStep

  function PutStep<T>(s: State<T>, t: nat, pc: PutPc, item: T, ensure: bool): State<T>
    requires s.ring.head < |s.ring.data|
  {
    var r := s.ring;
    match pc
    case CheckFull =>
      if !r.full then s.With(t, Putting(Lock, item, ensure))
      else if ensure then s
      else s.With(t, Idle)
    case Lock => if s.owner.Nobody? then s.(owner := ByThread(t)).With(t, Putting(Recheck, item, ensure)) else s
    case Recheck => s.With(t, Putting(if r.full then UnlockRejected else CopyIn, item, ensure))
    case CopyIn => s.(ring := r.(data := r.data[r.head := item])).With(t, Putting(MoveHead, item, ensure))
    case MoveHead =>
      s.(ring := r.(head := Next(r.head, |r.data|)), puts := s.puts + [item]).With(t, Putting(SetFull, item, ensure))
    case SetFull => s.(ring := r.(full := r.head == r.tail)).With(t, Putting(ClearEmpty, item, ensure))
    case ClearEmpty => s.(ring := r.(empty := false)).With(t, Putting(Unlock, item, ensure))
    case Unlock => s.(owner := Nobody, putReturned := s.putReturned + [item]).With(t, Idle)
    case UnlockRejected => s.(owner := Nobody).With(t, if ensure then Putting(CheckFull, item, ensure) else Idle)
  }

  function LengthStep<T>(s: State<T>, t: nat, pc: LengthPc, result: int): State<T>
    requires |s.ring.data| > 0
  {
    var r, n := s.ring, |s.ring.data|;
    match pc
    case LockLength => if s.owner.Nobody? then s.(owner := ByThread(t)).With(t, Measuring(ReadLength, result)) else s
    case ReadLength => s.With(t, Measuring(UnlockLength, if r.full then n else (r.head + n - r.tail) % n))
    case UnlockLength => s.(owner := Nobody).With(t, Idle)
  }

  function GetStep<T>(s: State<T>): State<T>
    requires s.ring.tail < |s.ring.data|
  {
    var r := s.ring;
    match s.consumer
    case Resting => s
    case CheckEmpty => s.(consumer := if r.empty then Resting else LockGet)
    case LockGet => if s.owner.Nobody? then s.(owner := ByConsumer, consumer := CopyOut) else s
    case CopyOut => s.(consumer := MoveTail(r.data[r.tail]))
    case MoveTail(item) =>
      s.(ring := r.(tail := Next(r.tail, |r.data|)), gots := s.gots + [item], consumer := SetEmpty(item))
    case SetEmpty(item) => s.(ring := r.(empty := r.head == r.tail), consumer := ClearFull(item))
    case ClearFull(item) => s.(ring := r.(full := false), consumer := UnlockGet(item))
    case UnlockGet(item) => s.(owner := Nobody, getReturned := s.getReturned + [item], consumer := Resting)
  }

  function Step<T>(s: State<T>, ev: Event<T>): State<T>
    requires s.ring.head < |s.ring.data| && s.ring.tail < |s.ring.data|
  {
    match ev
    case BeginPut(t, item, ensure) => if s.Of(t).Idle? then s.With(t, Putting(CheckFull, item, ensure)) else s
    case BeginLength(t) => if s.Of(t).Idle? then s.With(t, Measuring(LockLength, 0)) else s
    case ThreadStep(t) =>
      (match s.Of(t)
       case Idle => s
       case Putting(pc, item, ensure) => PutStep(s, t, pc, item, ensure)
       case Measuring(pc, result) => LengthStep(s, t, pc, result))
    case BeginGet => if s.consumer.Resting? then s.(consumer := CheckEmpty) else s
    case ConsumerStep => GetStep(s)
  }

  // ---------- The invariant ----------

  /** Number of items in the buffer. */
  function Len<T>(s: State<T>): int {
    |s.puts| - |s.gots|
  }

  /** The buffer holds exactly the items put and not yet taken, in order. */
  ghost predicate Stored<T>(s: State<T>) {
    var r, n := s.ring, |s.ring.data|;
    && n > 0 && r.head < n && r.tail < n
    && 0 <= Len(s) <= n && r.head == Plus(r.tail, Len(s), n)
    && s.gots == s.puts[..|s.gots|]
    && (forall i {:trigger Plus(r.tail, i, n)} :: 0 <= i < Len(s) ==>
          r.data[Plus(r.tail, i, n)] == s.puts[|s.gots| + i])
  }

  predicate InSection<T>(th: Thread<T>) {
    match th
    case Idle => false
    case Putting(pc, _, _) => pc != CheckFull && pc != Lock
    case Measuring(pc, _) => pc != LockLength
  }

  predicate ConsumerInSection<T>(c: Consumer<T>) {
    !(c.Resting? || c.CheckEmpty? || c.LockGet?)
  }

  /** Exactly the owner of the lock is inside a locked section. */
  ghost predicate Exclusive<T>(s: State<T>) {
    && (forall t {:trigger s.Of(t)} :: InSection(s.Of(t)) <==> s.owner == ByThread(t))
    && (ConsumerInSection(s.consumer) <==> s.owner == ByConsumer)
  }

  /** What both flags say while nobody is between moving an index and updating its flags. */
  ghost predicate Accurate<T>(s: State<T>) {
    (s.ring.full <==> Len(s) == |s.ring.data|) && (s.ring.empty <==> Len(s) == 0)
  }

  /** What the flags and the returned items are while a thread owns the lock. */
  ghost predicate ThreadFacts<T>(s: State<T>, th: Thread<T>)
    requires s.ring.head < |s.ring.data|
  {
    if th.Putting? && th.pc in {SetFull, ClearEmpty, Unlock} then
      && Len(s) >= 1 && s.puts == s.putReturned + [th.item] && s.getReturned == s.gots
      && (match th.pc
          case SetFull => !s.ring.full && (s.ring.empty <==> Len(s) == 1)
          case ClearEmpty => (s.ring.full <==> Len(s) == |s.ring.data|) && (s.ring.empty <==> Len(s) == 1)
          case _ => Accurate(s))
    else
      && Accurate(s) && s.puts == s.putReturned && s.getReturned == s.gots
      && (th.Putting? && th.pc in {CopyIn, MoveHead} ==> !s.ring.full)
      && (th.Putting? && th.pc == MoveHead ==> s.ring.data[s.ring.head] == th.item)
      && (th.Putting? && th.pc == UnlockRejected ==> s.ring.full)
      && (th.Measuring? && th.lpc == UnlockLength ==> th.result == Len(s))
  }

  ghost predicate ConsumerFacts<T>(s: State<T>) {
    && s.puts == s.putReturned
    && (match s.consumer
        case CopyOut => Accurate(s) && Len(s) >= 1 && s.getReturned == s.gots
        case MoveTail(item) => Accurate(s) && Len(s) >= 1 && s.getReturned == s.gots && item == s.puts[|s.gots|]
        case SetEmpty(item) =>
          !s.ring.empty && Len(s) < |s.ring.data| && s.gots == s.getReturned + [item] &&
            (s.ring.full <==> Len(s) + 1 == |s.ring.data|)
        case ClearFull(item) =>
          (s.ring.empty <==> Len(s) == 0) && Len(s) < |s.ring.data| && s.gots == s.getReturned + [item] &&
            (s.ring.full <==> Len(s) + 1 == |s.ring.data|)
        case UnlockGet(item) => Accurate(s) && !s.ring.full && s.gots == s.getReturned + [item]
        case _ => true)
  }

  ghost predicate OwnerFacts<T>(s: State<T>)
    requires s.ring.head < |s.ring.data|
  {
    match s.owner
    case Nobody => Accurate(s) && s.puts == s.putReturned && s.getReturned == s.gots
    case ByThread(t) => ThreadFacts(s, s.Of(t))
    case ByConsumer => ConsumerFacts(s)
  }

  ghost predicate Inv<T>(s: State<T>) {
    Stored(s) && Exclusive(s) && OwnerFacts(s) && (s.consumer.LockGet? ==> Len(s) >= 1)
  }

  // ---------- Every step keeps the invariant ----------

  /** If only thread `t` moved, and it left, entered or stayed in its section as the owner says, exclusion is kept. */
  lemma ThreadExclusive<T>(s: State<T>, s': State<T>, t: nat, th: Thread<T>)
    requires Exclusive(s) && s'.threads == s.threads[t := th] && s'.consumer == s.consumer
    requires InSection(th) <==> s'.owner == ByThread(t)
    requires s'.owner == s.owner || (s.owner, s'.owner) in {(Nobody, ByThread(t)), (ByThread(t), Nobody)}
    ensures Exclusive(s')
  {
    forall u ensures InSection(s'.Of(u)) <==> s'.owner == ByThread(u) {
      if u != t {
        assert s'.Of(u) == s.Of(u);
      }
    }
  }

  lemma PutStepKeeps<T>(s: State<T>, t: nat)
    requires Inv(s) && s.Of(t).Putting?
    ensures Inv(Step(s, ThreadStep(t)))
  {
    if s.Of(t).pc in {CheckFull, Lock, Recheck} {
      PutEntryKeeps(s, t);
    } else if s.Of(t).pc in {CopyIn, MoveHead} {
      PutMoveKeeps(s, t);
    } else {
      PutExitKeeps(s, t);
    }
  }

  /** A thread that moves outside the locked sections disturbs nothing. */
  lemma OutsideKeeps<T>(s: State<T>, t: nat, th: Thread<T>)
    requires Inv(s) && !InSection(s.Of(t)) && !InSection(th)
    ensures Inv(s.With(t, th))
  {
    ThreadExclusive(s, s.With(t, th), t, th);
    assert s.owner.ByThread? ==> s.With(t, th).Of(s.owner.t) == s.Of(s.owner.t);
  }

  /** Taking the free lock finds accurate flags. */
  lemma EnterKeeps<T>(s: State<T>, t: nat, th: Thread<T>)
    requires Inv(s) && s.owner.Nobody? && !InSection(s.Of(t))
    requires (th.Putting? && th.pc == Recheck) || (th.Measuring? && th.lpc == ReadLength)
    ensures Inv(s.(owner := ByThread(t)).With(t, th))
  {
    ThreadExclusive(s, s.(owner := ByThread(t)).With(t, th), t, th);
  }

  lemma PutEntryKeeps<T>(s: State<T>, t: nat)
    requires Inv(s) && s.Of(t).Putting? && s.Of(t).pc in {CheckFull, Lock, Recheck}
    ensures Inv(Step(s, ThreadStep(t)))
  {
    var Putting(pc, item, ensure) := s.Of(t);
    match pc
    case CheckFull =>
      OutsideKeeps(s, t, Putting(Lock, item, ensure));
      OutsideKeeps(s, t, Idle);
    case Lock =>
      if s.owner.Nobody? {
        EnterKeeps(s, t, Putting(Recheck, item, ensure));
      }
    case Recheck => RecheckKeeps(s, t, item, ensure);
  }

  lemma RecheckKeeps<T>(s: State<T>, t: nat, item: T, ensure: bool)
    requires Inv(s) && s.Of(t) == Putting(Recheck, item, ensure)
    ensures Inv(s.With(t, Putting(if s.ring.full then UnlockRejected else CopyIn, item, ensure)))
  {
    var th := Putting(if s.ring.full then UnlockRejected else CopyIn, item, ensure);
    ThreadExclusive(s, s.With(t, th), t, th);
  }

  lemma PutMoveKeeps<T>(s: State<T>, t: nat)
    requires Inv(s) && s.Of(t).Putting? && s.Of(t).pc in {CopyIn, MoveHead}
    ensures Inv(Step(s, ThreadStep(t)))
  {
    if s.Of(t).pc == CopyIn {
      CopyInKeeps(s, t);
    } else {
      MoveHeadKeeps(s, t);
    }
  }

  lemma CopyInKeeps<T>(s: State<T>, t: nat)
    requires Inv(s) && s.Of(t).Putting? && s.Of(t).pc == CopyIn
    ensures Inv(Step(s, ThreadStep(t)))
  {
    var s' := Step(s, ThreadStep(t));
    ThreadExclusive(s, s', t, s'.Of(t));
    CopyInStored(s, s.Of(t).item);
  }

  lemma MoveHeadKeeps<T>(s: State<T>, t: nat)
    requires Inv(s) && s.Of(t).Putting? && s.Of(t).pc == MoveHead
    ensures Inv(Step(s, ThreadStep(t)))
  {
    var s' := Step(s, ThreadStep(t));
    ThreadExclusive(s, s', t, s'.Of(t));
    MoveHeadStored(s, s.Of(t).item);
  }

  lemma PutExitKeeps<T>(s: State<T>, t: nat)
    requires Inv(s) && s.Of(t).Putting? && s.Of(t).pc in {SetFull, ClearEmpty, Unlock, UnlockRejected}
    ensures Inv(Step(s, ThreadStep(t)))
  {
    var Putting(pc, item, ensure) := s.Of(t);
    var s' := PutStep(s, t, pc, item, ensure);
    assert s.owner == ByThread(t);
    ThreadExclusive(s, s', t, s'.Of(t));
  }

  lemma CopyInStored<T>(s: State<T>, item: T)
    requires Stored(s) && Len(s) < |s.ring.data|
    ensures Stored(s.(ring := s.ring.(data := s.ring.data[s.ring.head := item])))
  {
  }

  lemma MoveHeadStored<T>(s: State<T>, item: T)
    requires Stored(s) && Len(s) < |s.ring.data| && s.ring.data[s.ring.head] == item
    ensures Stored(s.(ring := s.ring.(head := Next(s.ring.head, |s.ring.data|)), puts := s.puts + [item]))
  {
    var s' := s.(ring := s.ring.(head := Next(s.ring.head, |s.ring.data|)), puts := s.puts + [item]);
    var r, n := s'.ring, |s.ring.data|;
    forall i | 0 <= i < Len(s') ensures r.data[Plus(r.tail, i, n)] == s'.puts[|s'.gots| + i] {
    }
  }

  lemma MoveTailStored<T>(s: State<T>, item: T)
    requires Stored(s) && Len(s) >= 1 && item == s.puts[|s.gots|]
    ensures Stored(s.(ring := s.ring.(tail := Next(s.ring.tail, |s.ring.data|)), gots := s.gots + [item]))
  {
    var s' := s.(ring := s.ring.(tail := Next(s.ring.tail, |s.ring.data|)), gots := s.gots + [item]);
    var r, n := s'.ring, |s.ring.data|;
    forall i | 0 <= i < Len(s') ensures r.data[Plus(r.tail, i, n)] == s'.puts[|s'.gots| + i] {
      assert Plus(r.tail, i, n) == Plus(s.ring.tail, i + 1, n);
    }
  }

  /** What `length` computes under the lock is the number of items. */
  lemma LengthExact<T>(s: State<T>)
    requires Stored(s) && Accurate(s)
    ensures var r, n := s.ring, |s.ring.data|; (if r.full then n else (r.head + n - r.tail) % n) == Len(s)
  {
    var r, n := s.ring, |s.ring.data|;
    if !r.full {
      if r.tail + Len(s) < n {
        SameRemainder(r.head + n - r.tail, 1, Len(s), n);
      } else {
        SameRemainder(r.head + n - r.tail, 0, Len(s), n);
      }
    }
  }

  lemma LengthStepKeeps<T>(s: State<T>, t: nat)
    requires Inv(s) && s.Of(t).Measuring?
    ensures Inv(Step(s, ThreadStep(t)))
  {
    var Measuring(pc, result) := s.Of(t);
    var s' := LengthStep(s, t, pc, result);
    match pc
    case LockLength =>
      if s.owner.Nobody? {
        EnterKeeps(s, t, Measuring(ReadLength, result));
      }
    case ReadLength =>
      LengthExact(s);
      ThreadExclusive(s, s', t, s'.Of(t));
    case UnlockLength =>
      ThreadExclusive(s, s', t, s'.Of(t));
  }

  lemma GetStepKeeps<T>(s: State<T>)
    requires Inv(s)
    ensures Inv(GetStep(s))
  {
    if s.consumer.Resting? || s.consumer.CheckEmpty? || s.consumer.LockGet? {
      GetEntryKeeps(s);
    } else if s.consumer.CopyOut? || s.consumer.MoveTail? {
      GetMoveKeeps(s);
    } else {
      GetExitKeeps(s);
    }
  }

  lemma GetEntryKeeps<T>(s: State<T>)
    requires Inv(s) && (s.consumer.Resting? || s.consumer.CheckEmpty? || s.consumer.LockGet?)
    ensures Inv(GetStep(s))
  {
    GetExclusive(s);
    assert s.owner.ByThread? ==> GetStep(s).Of(s.owner.t) == s.Of(s.owner.t);
  }

  lemma GetMoveKeeps<T>(s: State<T>)
    requires Inv(s) && (s.consumer.CopyOut? || s.consumer.MoveTail?)
    ensures Inv(GetStep(s))
  {
    GetExclusive(s);
    if s.consumer.CopyOut? {
      assert s.ring.data[Plus(s.ring.tail, 0, |s.ring.data|)] == s.puts[|s.gots|];
    } else {
      MoveTailStored(s, s.consumer.item);
    }
  }

  lemma GetExitKeeps<T>(s: State<T>)
    requires Inv(s) && (s.consumer.SetEmpty? || s.consumer.ClearFull? || s.consumer.UnlockGet?)
    ensures Inv(GetStep(s))
  {
    GetExclusive(s);
  }

  lemma GetExclusive<T>(s: State<T>)
    requires Inv(s)
    ensures Exclusive(GetStep(s))
  {
    var s' := GetStep(s);
    forall u ensures InSection(s'.Of(u)) <==> s'.owner == ByThread(u) {
      assert s'.Of(u) == s.Of(u);
    }
  }

  lemma BeginPutKeeps<T>(s: State<T>, t: nat, item: T, ensure: bool)
    requires Inv(s)
    ensures Inv(Step(s, BeginPut(t, item, ensure)))
  {
    if s.Of(t).Idle? {
      OutsideKeeps(s, t, Putting(CheckFull, item, ensure));
    }
  }

  lemma BeginLengthKeeps<T>(s: State<T>, t: nat)
    requires Inv(s)
    ensures Inv(Step(s, BeginLength(t)))
  {
    if s.Of(t).Idle? {
      OutsideKeeps(s, t, Measuring(LockLength, 0));
    }
  }

  lemma BeginGetKeeps<T>(s: State<T>)
    requires Inv(s)
    ensures Inv(Step(s, BeginGet))
  {
    var s' := Step(s, BeginGet);
    assert forall u :: s'.Of(u) == s.Of(u);
    assert Stored(s') && Exclusive(s');
  }

  lemma ThreadStepKeeps<T>(s: State<T>, t: nat)
    requires Inv(s)
    ensures Inv(Step(s, ThreadStep(t)))
  {
    if s.Of(t).Putting? {
      PutStepKeeps(s, t);
    } else if s.Of(t).Measuring? {
      LengthStepKeeps(s, t);
    }
  }

  lemma StepKeepsSize<T>(s: State<T>, ev: Event<T>)
    requires s.ring.head < |s.ring.data| && s.ring.tail < |s.ring.data|
    ensures |Step(s, ev).ring.data| == |s.ring.data|
  {
  }

  lemma StepKeeps<T>(s: State<T>, ev: Event<T>)
    requires Inv(s)
    ensures Inv(Step(s, ev)) && |Step(s, ev).ring.data| == |s.ring.data|
  {
    StepKeepsSize(s, ev);
    match ev
    case BeginPut(t, item, ensure) => BeginPutKeeps(s, t, item, ensure);
    case BeginLength(t) => BeginLengthKeeps(s, t);
    case ThreadStep(t) => ThreadStepKeeps(s, t);
    case BeginGet => BeginGetKeeps(s);
    case ConsumerStep => GetStepKeeps(s);
  }

  // ---------- Whole runs ----------

  lemma StepInBounds<T>(s: State<T>, ev: Event<T>)
    requires s.ring.head < |s.ring.data| && s.ring.tail < |s.ring.data|
    ensures var r := Step(s, ev).ring; r.head < |r.data| && r.tail < |r.data|
  {
    match ev
    case ThreadStep(t) =>
      match s.Of(t) {
        case Idle =>
        case Putting(pc, item, ensure) => PutInBounds(s, t, pc, item, ensure);
        case Measuring(_, _) =>
      }
    case _ =>
  }

  lemma PutInBounds<T>(s: State<T>, t: nat, pc: PutPc, item: T, ensure: bool)
    requires s.ring.head < |s.ring.data| && s.ring.tail < |s.ring.data|
    ensures var r := PutStep(s, t, pc, item, ensure).ring; r.head < |r.data| && r.tail < |r.data|
  {
  }

  function Run<T>(data: seq<T>, evs: seq<Event<T>>): (s: State<T>)
    requires |data| > 0
    ensures s.ring.head < |s.ring.data| && s.ring.tail < |s.ring.data|
  {
    if evs == [] then Init(data)
    else
      var s := Run(data, evs[..|evs| - 1]);
      StepInBounds(s, evs[|evs| - 1]);
      Step(s, evs[|evs| - 1])
  }

  lemma {:induction false} RunKeeps<T>(data: seq<T>, evs: seq<Event<T>>)
    requires |data| > 0
    ensures Inv(Run(data, evs)) && |Run(data, evs).ring.data| == |data|
  {
    if evs == [] {
      InitKeeps(data);
    } else {
      RunKeeps(data, evs[..|evs| - 1]);
      StepKeeps(Run(data, evs[..|evs| - 1]), evs[|evs| - 1]);
    }
  }

  lemma InitKeeps<T>(data: seq<T>)
    requires |data| > 0
    ensures Inv(Init(data))
  {
  }

  /**
   * Under every interleaving the items that `get` has returned are, in order, a
   * prefix of the items successfully put, and at most the capacity is in flight.
   */
  lemma ConsumedIsPrefix<T>(data: seq<T>, evs: seq<Event<T>>)
    requires |data| > 0
    ensures var s := Run(data, evs);
      && s.getReturned <= s.putReturned
      && |s.putReturned| - |s.getReturned| <= |data|
  {
    RunKeeps(data, evs);
    ReturnedIsPrefix(Run(data, evs));
  }

  lemma ReturnedIsPrefix<T>(s: State<T>)
    requires Inv(s)
    ensures s.getReturned <= s.putReturned && |s.putReturned| - |s.getReturned| <= |s.ring.data|
  {
    assert s.gots <= s.puts;
  }

  /** A `get` that has passed its unlocked check always finds the oldest item that was not yet taken. */
  lemma GetFindsItem<T>(data: seq<T>, evs: seq<Event<T>>)
    requires |data| > 0 && Run(data, evs).consumer.CopyOut?
    ensures var s := Run(data, evs);
      |s.getReturned| < |s.putReturned| && GetStep(s).consumer == MoveTail(s.putReturned[|s.getReturned|])
  {
    var s := Run(data, evs);
    RunKeeps(data, evs);
    assert s.ring.data[Plus(s.ring.tail, 0, |s.ring.data|)] == s.puts[|s.gots|];
  }

  /** The steps of a call before `CopyIn`, and those of a rejected call, leave buffer, flags and histories alone. */
  lemma RejectedPutChangesNothing<T>(s: State<T>, t: nat)
    requires Inv(s) && s.Of(t).Putting? && s.Of(t).pc in {CheckFull, Lock, Recheck, UnlockRejected}
    ensures var s' := Step(s, ThreadStep(t));
      s'.ring == s.ring && s'.puts == s.puts && s'.gots == s.gots && s'.putReturned == s.putReturned &&
        s'.getReturned == s.getReturned
  {
  }

  /** A put is rejected under the lock exactly when the buffer holds as many items as it has room for. */
  lemma RejectedIffFull<T>(data: seq<T>, evs: seq<Event<T>>, t: nat)
    requires |data| > 0 && Run(data, evs).Of(t).Putting? && Run(data, evs).Of(t).pc == Recheck
    ensures var s := Run(data, evs);
      Step(s, ThreadStep(t)).Of(t).pc == UnlockRejected <==> |s.putReturned| - |s.getReturned| == |data|
  {
    RunKeeps(data, evs);
  }

  /** `length` returns the number of items put and not yet taken at the moment it reads the indices. */
  lemma LengthIsExact<T>(data: seq<T>, evs: seq<Event<T>>, t: nat)
    requires |data| > 0 && Run(data, evs).Of(t).Measuring? && Run(data, evs).Of(t).lpc == ReadLength
    ensures var s := Run(data, evs);
      Step(s, ThreadStep(t)).Of(t).result == |s.putReturned| - |s.getReturned|
  {
    var s := Run(data, evs);
    var s' := LengthStep(s, t, ReadLength, s.Of(t).result);
    RunKeeps(data, evs);
    LengthStepKeeps(s, t);
    assert s'.owner == ByThread(t) && ThreadFacts(s', s'.Of(t));
  }

  // ---------- When the unlocked checks give up ----------

  /**
   * `get` reports an empty buffer only when every item of a put that has returned
   * has been taken; while nobody owns the lock, exactly then.
   */
  lemma ReportsEmptyIff<T>(data: seq<T>, evs: seq<Event<T>>)
    requires |data| > 0 && Run(data, evs).consumer.CheckEmpty?
    ensures var s := Run(data, evs); var s' := Step(s, ConsumerStep);
      && s' == s.(consumer := s'.consumer) && (s'.consumer.Resting? || s'.consumer.LockGet?)
      && (s'.consumer.Resting? ==> |s.putReturned| == |s.getReturned|)
      && (s.owner.Nobody? ==> (s'.consumer.Resting? <==> |s.putReturned| == |s.getReturned|))
  {
    var s := Run(data, evs);
    RunKeeps(data, evs);
    assert s.owner.ByThread? ==> InSection(s.Of(s.owner.t));
  }

  /**
   * `put` gives up at its unlocked check, and `ensure_put` tries again, only when
   * the items put whose `get` has not returned fill the buffer; while nobody owns
   * the lock, exactly then.
   */
  lemma RejectedAtOnceIff<T>(data: seq<T>, evs: seq<Event<T>>, t: nat)
    requires |data| > 0 && Run(data, evs).Of(t).Putting? && Run(data, evs).Of(t).pc == CheckFull
    ensures var s := Run(data, evs); var s', th := Step(s, ThreadStep(t)), s.Of(t);
      && s' == s.(threads := s'.threads) && (forall u :: u != t ==> s'.Of(u) == s.Of(u))
      && (s'.Of(t) == Putting(Lock, th.item, th.ensure) || s'.Of(t) == if th.ensure then th else Idle)
      && (s'.Of(t) != Putting(Lock, th.item, th.ensure) ==> |s.puts| - |s.getReturned| == |data|)
      && (s.owner.Nobody? ==>
            (s'.Of(t) != Putting(Lock, th.item, th.ensure) <==> |s.putReturned| - |s.getReturned| == |data|))
  {
    var s := Run(data, evs);
    RunKeeps(data, evs);
    assert s.owner.ByThread? ==> InSection(s.Of(s.owner.t));
  }

  /** A call of `ensure_put` returns only once its item is in the buffer;
    a `put` that returns otherwise left no trace. */
  lemma PutReturns<T>(data: seq<T>, evs: seq<Event<T>>, t: nat)
    requires |data| > 0 && Run(data, evs).Of(t).Putting? && Step(Run(data, evs), ThreadStep(t)).Of(t).Idle?
    ensures var s, s' := Run(data, evs), Step(Run(data, evs), ThreadStep(t));
      && (s.Of(t).ensure ==> s'.putReturned == s.putReturned + [s.Of(t).item])
      && s'.puts == s.puts && s'.ring == s.ring && s'.getReturned == s.getReturned
      && (s'.putReturned != s.putReturned ==> s'.putReturned == s.putReturned + [s.Of(t).item] == s.puts)
  {
    RunKeeps(data, evs);
    ReturnLeavesNoTrace(Run(data, evs), t);
  }

  lemma ReturnLeavesNoTrace<T>(s: State<T>, t: nat)
    requires Inv(s) && s.Of(t).Putting? && Step(s, ThreadStep(t)).Of(t).Idle?
    ensures var s' := Step(s, ThreadStep(t));
      && (s.Of(t).ensure ==> s'.putReturned == s.putReturned + [s.Of(t).item])
      && s'.puts == s.puts && s'.ring == s.ring && s'.getReturned == s.getReturned
      && (s'.putReturned != s.putReturned ==> s'.putReturned == s.putReturned + [s.Of(t).item] == s.puts)
  {
    assert InSection(s.Of(t)) <==> s.owner == ByThread(t);
  }

  // ---------- Undisturbed calls ----------

  /** The state after `n` times the same step. */
  function Steps<T>(s: State<T>, ev: Event<T>, n: nat): (s': State<T>)
    requires s.ring.head < |s.ring.data| && s.ring.tail < |s.ring.data|
    ensures s'.ring.head < |s'.ring.data| && s'.ring.tail < |s'.ring.data|
  {
    if n == 0 then s
    else
      var before := Steps(s, ev, n - 1);
      StepInBounds(before, ev);
      Step(before, ev)
  }

  function Times<T>(ev: Event<T>, n: nat): (r: seq<Event<T>>)
    ensures |r| == n && forall i :: 0 <= i < n ==> r[i] == ev
  {
    seq(n, _ => ev)
  }

  lemma TimesSnoc<T>(evs: seq<Event<T>>, ev: Event<T>, n: nat)
    ensures evs + Times(ev, n + 1) == (evs + Times(ev, n)) + [ev]
    ensures evs + Times(ev, 0) == evs
  {
  }

  lemma RunSnoc<T>(data: seq<T>, evs: seq<Event<T>>, ev: Event<T>)
    requires |data| > 0
    ensures Run(data, evs + [ev]) == Step(Run(data, evs), ev)
  {
    assert (evs + [ev])[..|evs|] == evs;
  }

  lemma {:induction false} RunSteps<T>(data: seq<T>, evs: seq<Event<T>>, ev: Event<T>, n: nat)
    requires |data| > 0
    ensures Run(data, evs + Times(ev, n)) == Steps(Run(data, evs), ev, n)
  {
    if n == 0 {
      TimesSnoc(evs, ev, 0);
    } else {
      RunSteps(data, evs, ev, n - 1);
      TimesSnoc(evs, ev, n - 1);
      RunSnoc(data, evs + Times(ev, n - 1), ev);
    }
  }

  lemma TimesAdd<T>(evs: seq<Event<T>>, ev: Event<T>, a: nat, b: nat)
    ensures (evs + Times(ev, a)) + Times(ev, b) == evs + Times(ev, a + b)
  {
  }

  /** Marker for the folded predicates below: the verifier looks inside only where `UnfoldRun` is mentioned. */
  ghost predicate UnfoldRun(i: int) {
    true
  }

  ghost predicate Bounded<T>(s: State<T>) {
    s.ring.head < |s.ring.data| && s.ring.tail < |s.ring.data|
  }

  /** The run leads to the state (folded). */
  ghost predicate Leads<T>(data: seq<T>, evs: seq<Event<T>>, s: State<T>) {
    |data| > 0 && forall i {:trigger UnfoldRun(i)} :: UnfoldRun(i) ==> s == Run(data, evs)
  }

  /** The steps lead from `s` to `t` (folded). */
  ghost predicate Moves<T>(s: State<T>, ev: Event<T>, n: nat, t: State<T>) {
    forall i {:trigger UnfoldRun(i)} :: UnfoldRun(i) ==> Bounded(s) && t == Steps(s, ev, n)
  }

  /** From the state after `a` steps of a call to the one after `b` more. */
  lemma RunOn<T>(data: seq<T>, evs: seq<Event<T>>, ev: Event<T>, a: nat, s: State<T>, b: nat, t: State<T>)
    requires Leads(data, evs + Times(ev, a), s) && Moves(s, ev, b, t)
    ensures Leads(data, evs + Times(ev, a + b), t)
  {
    assert UnfoldRun(0);
    TimesAdd(evs, ev, a, b);
    RunSteps(data, evs + Times(ev, a), ev, b);
  }

  /** A call begins. */
  lemma RunCall<T>(data: seq<T>, evs: seq<Event<T>>, begin: Event<T>, ev: Event<T>, s: State<T>)
    requires Leads(data, evs, s) && Bounded(s)
    ensures Leads(data, (evs + [begin]) + Times(ev, 0), Step(s, begin))
  {
    assert UnfoldRun(0);
    RunSnoc(data, evs, begin);
    TimesSnoc(evs + [begin], ev, 0);
  }

  /** What a reached state satisfies while nobody owns the lock. */
  lemma QuietFacts<T>(data: seq<T>, evs: seq<Event<T>>, s: State<T>)
    requires Leads(data, evs, s) && s.owner.Nobody?
    ensures Bounded(s) && s.ring.full == (|s.putReturned| - |s.getReturned| == |data|)
    ensures s.ring.empty == (|s.putReturned| == |s.getReturned|)
    ensures |s.getReturned| < |s.putReturned| ==> s.ring.data[s.ring.tail] == s.putReturned[|s.getReturned|]
    ensures var r, n := s.ring, |s.ring.data|;
      (if r.full then n else (r.head + n - r.tail) % n) == |s.putReturned| - |s.getReturned|
  {
    assert UnfoldRun(0);
    RunKeeps(data, evs);
    LengthExact(s);
    if Len(s) > 0 {
      assert s.ring.data[Plus(s.ring.tail, 0, |s.ring.data|)] == s.puts[|s.gots|];
    }
  }

  lemma GetBegins<T>(data: seq<T>, evs: seq<Event<T>>, s: State<T>)
    requires Leads(data, evs, s) && Bounded(s) && s.consumer.Resting?
    ensures Leads(data, (evs + [BeginGet]) + Times(ConsumerStep, 0), s.(consumer := CheckEmpty))
  {
    RunCall(data, evs, BeginGet, ConsumerStep, s);
  }

  lemma PutBegins<T>(data: seq<T>, evs: seq<Event<T>>, s: State<T>, t: nat, item: T, ensure: bool)
    requires Leads(data, evs, s) && Bounded(s) && s.Of(t).Idle?
    ensures Leads(data, (evs + [BeginPut(t, item, ensure)]) + Times(ThreadStep(t), 0),
                  s.With(t, Putting(CheckFull, item, ensure)))
  {
    RunCall(data, evs, BeginPut(t, item, ensure), ThreadStep(t), s);
  }

  lemma LengthBegins<T>(data: seq<T>, evs: seq<Event<T>>, s: State<T>, t: nat)
    requires Leads(data, evs, s) && Bounded(s) && s.Of(t).Idle?
    ensures Leads(data, (evs + [BeginLength(t)]) + Times(ThreadStep(t), 0), s.With(t, Measuring(LockLength, 0)))
  {
    RunCall(data, evs, BeginLength(t), ThreadStep(t), s);
  }

  /** The first two steps of a `get` that finds the lock free and the flag down. */
  lemma GetEnters<T>(s: State<T>)
    requires Bounded(s) && s.owner.Nobody? && !s.ring.empty && s.consumer.CheckEmpty?
    ensures Moves(s, ConsumerStep, 2, s.(owner := ByConsumer, consumer := CopyOut))
  {
    assert Steps(s, ConsumerStep, 0) == s;
    assert Steps(s, ConsumerStep, 1) == s.(consumer := LockGet);
  }

  /** `get` copies the item at the tail and moves the tail. */
  lemma GetTakes<T>(t: State<T>)
    requires Bounded(t) && t.consumer.CopyOut?
    ensures var item := t.ring.data[t.ring.tail];
      Moves(t, ConsumerStep, 2,
        t.(ring := t.ring.(tail := Next(t.ring.tail, |t.ring.data|)), gots := t.gots + [item],
           consumer := SetEmpty(item)))
  {
    assert Steps(t, ConsumerStep, 0) == t;
    assert Steps(t, ConsumerStep, 1) == t.(consumer := MoveTail(t.ring.data[t.ring.tail]));
  }

  /** Then it updates the flags and returns the item. */
  lemma GetReturns<T>(t: State<T>)
    requires Bounded(t) && t.consumer.SetEmpty?
    ensures Moves(t, ConsumerStep, 3,
      t.(ring := t.ring.(empty := t.ring.head == t.ring.tail, full := false), owner := Nobody, consumer := Resting,
         getReturned := t.getReturned + [t.consumer.item]))
  {
    var t1 := t.(ring := t.ring.(empty := t.ring.head == t.ring.tail), consumer := ClearFull(t.consumer.item));
    assert Steps(t, ConsumerStep, 0) == t;
    assert Steps(t, ConsumerStep, 1) == t1;
    assert Steps(t, ConsumerStep, 2) ==
      t1.(ring := t1.ring.(full := false), consumer := UnlockGet(t.consumer.item));
  }

  lemma GetToTail<T>(data: seq<T>, evs: seq<Event<T>>, s: State<T>) returns (s4: State<T>)
    requires Leads(data, evs, s)
    requires s.owner.Nobody? && s.consumer.Resting? && |s.getReturned| < |s.putReturned|
    ensures Leads(data, (evs + [BeginGet]) + Times(ConsumerStep, 4), s4) && Bounded(s4)
    ensures s4.getReturned == s.getReturned && s4.putReturned == s.putReturned && s4.threads == s.threads
    ensures s4.consumer == SetEmpty(s.putReturned[|s.getReturned|])
  {
    var call, ev: Event<T>, item := evs + [BeginGet], ConsumerStep, s.putReturned[|s.getReturned|];
    QuietFacts(data, evs, s);
    GetBegins(data, evs, s);
    GetEnters(s.(consumer := CheckEmpty));
    var s2 := s.(owner := ByConsumer, consumer := CopyOut);
    RunOn(data, call, ev, 0, s.(consumer := CheckEmpty), 2, s2);
    s4 := s2.(ring := s.ring.(tail := Next(s.ring.tail, |s.ring.data|)), gots := s.gots + [item],
      consumer := SetEmpty(item));
    GetTakes(s2);
    RunOn(data, call, ev, 2, s2, 2, s4);
  }

  lemma GetAlone<T>(data: seq<T>, evs: seq<Event<T>>, s: State<T>) returns (s': State<T>)
    requires Leads(data, evs, s)
    requires s.owner.Nobody? && s.consumer.Resting? && |s.getReturned| < |s.putReturned|
    ensures Leads(data, (evs + [BeginGet]) + Times(ConsumerStep, 7), s')
    ensures s'.getReturned == s.getReturned + [s.putReturned[|s.getReturned|]] && s'.putReturned == s.putReturned
    ensures s'.consumer.Resting? && s'.owner.Nobody? && s'.threads == s.threads
  {
    var s4 := GetToTail(data, evs, s);
    s' := s4.(ring := s4.ring.(empty := s4.ring.head == s4.ring.tail, full := false), owner := Nobody,
      consumer := Resting, getReturned := s4.getReturned + [s4.consumer.item]);
    GetReturns(s4);
    RunOn(data, evs + [BeginGet], ConsumerStep, 4, s4, 3, s');
  }

  /** A `get` that finds the lock free and an item stored returns the oldest item after seven steps of its own. */
  lemma UndisturbedGet<T>(data: seq<T>, evs: seq<Event<T>>)
    requires |data| > 0 && Run(data, evs).owner.Nobody? && Run(data, evs).consumer.Resting?
    requires |Run(data, evs).getReturned| < |Run(data, evs).putReturned|
    ensures var s, s' := Run(data, evs), Run(data, (evs + [BeginGet]) + Times(ConsumerStep, 7));
      && s'.getReturned == s.getReturned + [s.putReturned[|s.getReturned|]] && s'.putReturned == s.putReturned
      && s'.consumer.Resting? && s'.owner.Nobody? && s'.threads == s.threads
  {
    assert UnfoldRun(0);
    var s' := GetAlone(data, evs, Run(data, evs));
  }

  lemma WithTwice<T>(s: State<T>, t: nat, a: Thread<T>, b: Thread<T>)
    ensures s.With(t, a).With(t, b) == s.With(t, b)
  {
    assert s.threads[t := a][t := b] == s.threads[t := b];
  }

  /** The first three steps of a `put` that finds the lock free and room in the buffer. */
  lemma PutEnters<T>(s: State<T>, t: nat, item: T, ensure: bool)
    requires Bounded(s) && s.owner.Nobody? && !s.ring.full
    ensures Moves(s.With(t, Putting(CheckFull, item, ensure)), ThreadStep(t), 3,
                  s.(owner := ByThread(t)).With(t, Putting(CopyIn, item, ensure)))
  {
    var ev: Event<T>, o := ThreadStep(t), s.(owner := ByThread(t));
    var start, lock, recheck := Putting(CheckFull, item, ensure), Putting(Lock, item, ensure),
      Putting(Recheck, item, ensure);
    var s0 := s.With(t, start);
    WithTwice(s, t, start, lock);
    assert Steps(s0, ev, 1) == s.With(t, lock);
    WithTwice(o, t, lock, recheck);
    assert Steps(s0, ev, 2) == o.With(t, recheck);
    WithTwice(o, t, recheck, Putting(CopyIn, item, ensure));
  }

  /** `put` copies the item to the head and moves the head. */
  lemma PutStores<T>(o: State<T>, t: nat, item: T, ensure: bool)
    requires Bounded(o)
    ensures Moves(o.With(t, Putting(CopyIn, item, ensure)), ThreadStep(t), 2,
      o.(ring := o.ring.(data := o.ring.data[o.ring.head := item], head := Next(o.ring.head, |o.ring.data|)),
         puts := o.puts + [item]).With(t, Putting(SetFull, item, ensure)))
  {
    var ev: Event<T>, copy, move := ThreadStep(t), Putting(CopyIn, item, ensure), Putting(MoveHead, item, ensure);
    var o1 := o.(ring := o.ring.(data := o.ring.data[o.ring.head := item]));
    assert Steps(o.With(t, copy), ev, 0) == o.With(t, copy);
    WithTwice(o1, t, copy, move);
    assert Steps(o.With(t, copy), ev, 1) == o1.With(t, move);
    WithTwice(o1.(ring := o1.ring.(head := Next(o.ring.head, |o.ring.data|)), puts := o.puts + [item]), t, move,
              Putting(SetFull, item, ensure));
  }

  /** Then it updates the flags and returns. */
  lemma PutEnds<T>(o: State<T>, t: nat, item: T, ensure: bool)
    requires Bounded(o)
    ensures Moves(o.With(t, Putting(SetFull, item, ensure)), ThreadStep(t), 3,
      o.(ring := o.ring.(full := o.ring.head == o.ring.tail, empty := false), owner := Nobody,
         putReturned := o.putReturned + [item]).With(t, Idle))
  {
    var ev: Event<T>, next, clear, unlock := ThreadStep(t), Putting(SetFull, item, ensure),
      Putting(ClearEmpty, item, ensure), Putting(Unlock, item, ensure);
    var s, o1 := o.With(t, next), o.(ring := o.ring.(full := o.ring.head == o.ring.tail));
    var o2 := o1.(ring := o1.ring.(empty := false));
    assert Steps(s, ev, 0) == s;
    WithTwice(o1, t, next, clear);
    assert Steps(s, ev, 1) == o1.With(t, clear);
    WithTwice(o2, t, clear, unlock);
    assert Steps(s, ev, 2) == o2.With(t, unlock);
    WithTwice(o2.(owner := Nobody, putReturned := o.putReturned + [item]), t, unlock, Idle);
  }

  lemma PutToHead<T>(data: seq<T>, evs: seq<Event<T>>, s: State<T>, t: nat, item: T, ensure: bool)
      returns (o: State<T>)
    requires Leads(data, evs, s)
    requires s.owner.Nobody? && s.Of(t).Idle? && |s.putReturned| - |s.getReturned| < |data|
    ensures Leads(data, (evs + [BeginPut(t, item, ensure)]) + Times(ThreadStep(t), 5),
                  o.With(t, Putting(SetFull, item, ensure))) && Bounded(o)
    ensures o.getReturned == s.getReturned && o.putReturned == s.putReturned && o.threads == s.threads
    ensures o.consumer == s.consumer
  {
    var call, ev: Event<T> := evs + [BeginPut(t, item, ensure)], ThreadStep(t);
    var copy := Putting(CopyIn, item, ensure);
    QuietFacts(data, evs, s);
    PutBegins(data, evs, s, t, item, ensure);
    PutEnters(s, t, item, ensure);
    var o3 := s.(owner := ByThread(t));
    RunOn(data, call, ev, 0, s.With(t, Putting(CheckFull, item, ensure)), 3, o3.With(t, copy));
    PutStores(o3, t, item, ensure);
    o := o3.(ring := s.ring.(data := s.ring.data[s.ring.head := item], head := Next(s.ring.head, |s.ring.data|)),
      puts := s.puts + [item]);
    RunOn(data, call, ev, 3, o3.With(t, copy), 2, o.With(t, Putting(SetFull, item, ensure)));
  }

  lemma PutAlone<T>(data: seq<T>, evs: seq<Event<T>>, s: State<T>, t: nat, item: T, ensure: bool)
      returns (s': State<T>)
    requires Leads(data, evs, s)
    requires s.owner.Nobody? && s.Of(t).Idle? && |s.putReturned| - |s.getReturned| < |data|
    ensures Leads(data, (evs + [BeginPut(t, item, ensure)]) + Times(ThreadStep(t), 8), s')
    ensures s'.putReturned == s.putReturned + [item] && s'.getReturned == s.getReturned
    ensures s'.consumer == s.consumer && s'.owner.Nobody? && s'.threads == s.threads[t := Idle]
  {
    var o := PutToHead(data, evs, s, t, item, ensure);
    s' := o.(ring := o.ring.(full := o.ring.head == o.ring.tail, empty := false), owner := Nobody,
      putReturned := o.putReturned + [item]).With(t, Idle);
    PutEnds(o, t, item, ensure);
    RunOn(data, evs + [BeginPut(t, item, ensure)], ThreadStep(t), 5, o.With(t, Putting(SetFull, item, ensure)), 3, s');
  }

  /** A `put` that finds the lock free and room in the buffer returns after eight steps of its own, the item stored. */
  lemma UndisturbedPut<T>(data: seq<T>, evs: seq<Event<T>>, t: nat, item: T, ensure: bool)
    requires |data| > 0 && Run(data, evs).owner.Nobody? && Run(data, evs).Of(t).Idle?
    requires |Run(data, evs).putReturned| - |Run(data, evs).getReturned| < |data|
    ensures var s, s' := Run(data, evs), Run(data, (evs + [BeginPut(t, item, ensure)]) + Times(ThreadStep(t), 8));
      && s'.putReturned == s.putReturned + [item] && s'.getReturned == s.getReturned
      && s'.consumer == s.consumer && s'.owner.Nobody? && s'.threads == s.threads[t := Idle]
  {
    assert UnfoldRun(0);
    var s' := PutAlone(data, evs, Run(data, evs), t, item, ensure);
  }

  lemma LengthSteps<T>(s: State<T>, t: nat, len: int)
    requires Bounded(s) && s.owner.Nobody?
    requires var r, n := s.ring, |s.ring.data|; (if r.full then n else (r.head + n - r.tail) % n) == len
    ensures var o, ev := s.(owner := ByThread(t)), ThreadStep(t);
      && Moves(s.With(t, Measuring(LockLength, 0)), ev, 2, o.With(t, Measuring(UnlockLength, len)))
      && Moves(o.With(t, Measuring(UnlockLength, len)), ev, 1, s.With(t, Idle))
  {
    var ev: Event<T>, o := ThreadStep(t), s.(owner := ByThread(t));
    WithTwice(s, t, Measuring(LockLength, 0), Measuring(ReadLength, 0));
    assert Steps(s.With(t, Measuring(LockLength, 0)), ev, 1) == o.With(t, Measuring(ReadLength, 0));
    WithTwice(o, t, Measuring(ReadLength, 0), Measuring(UnlockLength, len));
    WithTwice(s, t, Measuring(UnlockLength, len), Idle);
  }

  lemma LengthAlone<T>(data: seq<T>, evs: seq<Event<T>>, s: State<T>, t: nat) returns (s2: State<T>, s3: State<T>)
    requires Leads(data, evs, s) && s.owner.Nobody? && s.Of(t).Idle?
    ensures Leads(data, (evs + [BeginLength(t)]) + Times(ThreadStep(t), 2), s2)
    ensures Leads(data, (evs + [BeginLength(t)]) + Times(ThreadStep(t), 3), s3)
    ensures s2.Of(t) == Measuring(UnlockLength, |s.putReturned| - |s.getReturned|) && s3 == s.With(t, Idle)
  {
    var call, ev: Event<T> := evs + [BeginLength(t)], ThreadStep(t);
    var len := |s.putReturned| - |s.getReturned|;
    QuietFacts(data, evs, s);
    LengthBegins(data, evs, s, t);
    LengthSteps(s, t, len);
    s2, s3 := s.(owner := ByThread(t)).With(t, Measuring(UnlockLength, len)), s.With(t, Idle);
    RunOn(data, call, ev, 0, s.With(t, Measuring(LockLength, 0)), 2, s2);
    RunOn(data, call, ev, 2, s2, 1, s3);
  }

  /** So does a call of `length` that finds the lock free, with the number of items. */
  lemma UndisturbedLength<T>(data: seq<T>, evs: seq<Event<T>>, t: nat)
    requires |data| > 0 && Run(data, evs).owner.Nobody? && Run(data, evs).Of(t).Idle?
    ensures var s, call := Run(data, evs), evs + [BeginLength(t)];
      && Run(data, call + Times(ThreadStep(t), 2)).Of(t) ==
           Measuring(UnlockLength, |s.putReturned| - |s.getReturned|)
      && Run(data, call + Times(ThreadStep(t), 3)) == s.With(t, Idle)
  {
    assert UnfoldRun(0);
    var s2, s3 := LengthAlone(data, evs, Run(data, evs), t);
  }
}
