/**
 * The table of sessions in per-flow mode, with two reverse indexes: session id
 * to slot, and egress register to session id.
 */
module SessionTables {
  import opened Structs
  import opened Probing
  import opened ReverseIndex

  /** Marker for the folded predicate of a session table, see `Unfold`. */
  ghost predicate UnfoldSessions(i: int) {
    true
  }

  class SessionTable {
    const hash: FlowKey -> nat
    const entries: array<Slot<FlowKey, Record>>
    const featureIndexToEntry: array<int>
    const egressFeatureToSession: array<int>
    var numEntries: nat

    ghost function Repr(): set<object> {
      {this, entries, featureIndexToEntry, egressFeatureToSession}
    }

    ghost predicate Valid()
      reads this, entries, featureIndexToEntry, egressFeatureToSession
    {
      && entries.Length > 0
      && featureIndexToEntry != egressFeatureToSession
      && Sound(entries[..], hash)
      && numEntries == Occupied(entries[..])
      && RevExact(entries[..], featureIndexToEntry[..])
      && InRange(entries[..], egressFeatureToSession.Length)
    }

    ghost function Map(): map<FlowKey, Record>
      reads this, entries
    {
      Contents(entries[..])
    }

    /** `num_entries` is the number of sessions. */
    lemma Size()
      requires Valid()
      ensures numEntries == |Map()| <= entries.Length
    {
      OccupiedIsSize(entries[..]);
    }

    /** `egressFeatureToSession[x] == v` exactly when session `v` is live and feeds register `x`. */
    ghost predicate Egress()
      requires Valid()
      reads this, entries, featureIndexToEntry, egressFeatureToSession
    {
      EgressExact(entries[..], featureIndexToEntry[..], egressFeatureToSession[..])
    }

    /** The table holds the given sessions; `exact` adds that the egress index is exact (folded, see `Unfold`). */
    ghost predicate Is(m: map<FlowKey, Record>, exact: bool)
      reads Repr()
    {
      forall i {:trigger UnfoldSessions(i)} :: UnfoldSessions(i) ==> Valid() && Map() == m && (exact ==> Egress())
    }

    constructor (size: nat, featureSize: nat, hash: FlowKey -> nat)
      requires size > 0
      ensures Valid() && Map() == map[] && Egress()
      ensures fresh(Repr())
      ensures entries.Length == size && this.hash == hash
      ensures featureIndexToEntry.Length == egressFeatureToSession.Length == featureSize
    {
      var blank := Slot(FlowKey(0, 0, 0, 0, IPv4, UDP), Record(Meta(0, 0, 0), 0), 0, false);
      this.hash := hash;
      entries := new Slot<FlowKey, Record>[size](_ => blank);
      featureIndexToEntry := new int[featureSize](_ => -1);
      egressFeatureToSession := new int[featureSize](_ => -1);
      numEntries := 0;
      new;
      NoneOccupied(entries[..]);
    }

    /** Walks from the key's home to the key or to the first free slot. */
    method FindIndex(key: FlowKey) returns (found: bool, index: nat)
      requires Valid() && (numEntries < entries.Length || key in Map())
      ensures index < entries.Length
      ensures found <==> key in Map()
      ensures found ==> entries[index].occupied && entries[index].key == key && entries[index].value == Map()[key]
      ensures !found ==> Free(entries[..], hash, key, index)
    {
      var n := entries.Length;
      var h := hash(key);
      index := HashToIndex(h, n);
      ghost var s, home, d := entries[..], index, 0;
      LookupBound(s, hash, key);
      while true
        invariant d < n && index == Plus(home, d, n)
        invariant forall j :: 0 <= j < n && Dist(home, j, n) < d ==> s[j].occupied && s[j].key != key
        decreases n - d
      {
        if !entries[index].occupied {
          MissIsAbsent(s, hash, key, index);
          return false, index;
        }
        if entries[index].hash == h {
          if entries[index].key == key {
            SlotInContents(s, index);
            return true, index;
          }
        }
        index := Next(index, n);
        d := d + 1;
      }
    }

    /**
     * Adds a session; refused (1) when the table is full or the key is already
     * stored.  The egress index stays exact unless the register is taken.
     */
    method Add(tuple: FiveTuple, value: int) returns (ret: nat)
      requires Valid()
      requires tuple.h !in Map() ==> 0 <= value < featureIndexToEntry.Length && !LiveId(Map(), value)
      requires tuple.h !in Map() ==> 0 <= value + tuple.meta.egressOffset < egressFeatureToSession.Length
      modifies this, entries, featureIndexToEntry, egressFeatureToSession
      ensures Valid()
      ensures ret == if old(numEntries) == entries.Length || tuple.h in old(Map()) then 1 else 0
      ensures Map() == if ret == 0 then old(Map())[tuple.h := Record(tuple.meta, value)] else old(Map())
      ensures old(Egress()) ==>
        (Egress() <==> ret != 0 || !RegisterTaken(old(Map()), value + tuple.meta.egressOffset))
    {
      if numEntries == entries.Length {
        return 1;
      }
      OccupiedAtMost(entries[..]);
      var found, index := FindIndex(tuple.h);
      if found {
        return 1;
      }
      Store(tuple, value, index);
      return 0;
    }

    /** Fills a free slot and enters it in both reverse indexes. */
    method Store(tuple: FiveTuple, value: int, index: nat)
      requires Valid() && Free(entries[..], hash, tuple.h, index) && tuple.h !in Map()
      requires 0 <= value < featureIndexToEntry.Length && !LiveId(Map(), value)
      requires 0 <= value + tuple.meta.egressOffset < egressFeatureToSession.Length
      modifies this, entries, featureIndexToEntry, egressFeatureToSession
      ensures Valid() && Map() == old(Map())[tuple.h := Record(tuple.meta, value)]
      ensures old(Egress()) ==> (Egress() <==> !RegisterTaken(old(Map()), value + tuple.meta.egressOffset))
    {
      var entry := Slot(tuple.h, Record(tuple.meta, value), hash(tuple.h), true);
      StoreSound(entries[..], featureIndexToEntry[..], egressFeatureToSession[..], hash, index, entry);
      WriteEntry(index, entry);
    }

    /** Fills a slot and enters its id in both reverse indexes. */
    method WriteEntry(index: nat, entry: Slot<FlowKey, Record>)
      requires index < entries.Length && featureIndexToEntry != egressFeatureToSession
      requires 0 <= entry.value.id < featureIndexToEntry.Length
      requires 0 <= entry.value.id + entry.value.meta.egressOffset < egressFeatureToSession.Length
      modifies this, entries, featureIndexToEntry, egressFeatureToSession
      ensures entries[..] == old(entries[..])[index := entry] && numEntries == old(numEntries) + 1
      ensures featureIndexToEntry[..] == old(featureIndexToEntry[..])[entry.value.id := index]
      ensures egressFeatureToSession[..]
           == old(egressFeatureToSession[..])[entry.value.id + entry.value.meta.egressOffset := entry.value.id]
    {
      entries[index] := entry;
      featureIndexToEntry[entry.value.id] := index;
      egressFeatureToSession[entry.value.id + entry.value.meta.egressOffset] := entry.value.id;
      numEntries := numEntries + 1;
    }

    method Get(key: FlowKey) returns (ret: nat, value: int)
      requires Valid() && (numEntries < entries.Length || key in Map())
      ensures ret == if key in Map() then 0 else 1
      ensures ret == 0 ==> value == Map()[key].id
    {
      var found, index := FindIndex(key);
      if found {
        return 0, entries[index].value.id;
      }
      return 1, 0;
    }

    /** Moves the entry of slot `index` into the hole and refreshes both reverse indexes. */
    method MoveEntry(index: nat, hole: nat)
      requires index < entries.Length && hole < entries.Length && index != hole
      requires 0 <= entries[index].value.id < featureIndexToEntry.Length
      requires 0 <= EgressSlot(entries[..], index) < egressFeatureToSession.Length
      requires featureIndexToEntry != egressFeatureToSession
      modifies entries, featureIndexToEntry, egressFeatureToSession
      ensures entries[..] == Shift(old(entries[..]), hole, index)
      ensures featureIndexToEntry[..] == old(featureIndexToEntry[..])[old(entries[index].value.id) := hole]
      ensures egressFeatureToSession[..]
        == old(egressFeatureToSession[..])[old(EgressSlot(entries[..], index)) := old(entries[index].value.id)]
    {
      entries[index] := entries[index].(occupied := false);
      entries[hole] := entries[index].(occupied := true);
      egressFeatureToSession[entries[index].value.id + entries[index].value.meta.egressOffset] :=
        entries[index].value.id;
      featureIndexToEntry[entries[index].value.id] := hole;
    }

    /** Scans forward from a hole, pulling displaced entries back, until no walk is broken. */
    method CloseHole(hole0: nat)
      requires Holed(entries[..], hash, hole0) && numEntries == Occupied(entries[..])
      requires RevExact(entries[..], featureIndexToEntry[..]) && InRange(entries[..], egressFeatureToSession.Length)
      requires featureIndexToEntry != egressFeatureToSession
      modifies entries, featureIndexToEntry, egressFeatureToSession
      ensures Valid() && Map() == old(Map())
      ensures old(EgressExact(entries[..], featureIndexToEntry[..], egressFeatureToSession[..])) ==> Egress()
    {
      var n := entries.Length;
      var index: nat, hole: nat := hole0, hole0;
      ghost var s, rev, eg, d := entries[..], featureIndexToEntry[..], egressFeatureToSession[..], 0;
      ghost var exact := EgressExact(s, rev, eg);
      while true
        invariant s == entries[..] && rev == featureIndexToEntry[..] && eg == egressFeatureToSession[..]
        invariant d < n && Holed(s, hash, hole) && index == Plus(hole, d, n)
        invariant Scanned(s, hole, d) && RevExact(s, rev) && InRange(s, |eg|)
        invariant Contents(s) == old(Map()) && numEntries == Occupied(s)
        invariant exact ==> EgressExact(s, rev, eg)
        decreases TotalDisplacement(s, n), n - d
      {
        index := Next(index, n);
        assert index == Plus(hole, d + 1, n) && s[index] == entries[index];
        if !entries[index].occupied {
          ScanEnds(s, hole, d + 1);
          break;
        }
        var desired := HashToIndex(entries[index].hash, n);
        if index != desired && CanMoveToEmpty(desired, hole, index, n) {
          ShiftSound(s, hash, hole, index);
          ShiftDecreases(s, hole, index);
          RevShift(s, rev, hole, index);
          EgressShift(s, rev, eg, hole, index);
          MoveEntry(index, hole);
          eg := eg[EgressSlot(s, index) := s[index].value.id];
          s, rev := Shift(s, hole, index), rev[s[index].value.id := hole];
          hole, d := index, 0;
        } else {
          ScanGrows(s, hole, d);
          d := d + 1;
        }
      }
    }

    /** Empties a slot, clears its two reverse entries and closes the hole. */
    method RemoveByIndex(index: nat)
      requires Valid() && index < entries.Length && entries[index].occupied
      modifies this, entries, featureIndexToEntry, egressFeatureToSession
      ensures Valid()
      ensures Map() == old(Map()) - {old(entries[index].key)}
      ensures old(Egress()) ==> Egress()
    {
      ghost var s, rev, eg := entries[..], featureIndexToEntry[..], egressFeatureToSession[..];
      ghost var gone := s[index].(occupied := false, hash := 0);
      EraseSound(s, hash, index, gone);
      EgressErase(s, rev, eg, index, gone);
      ClearEntry(index);
      CloseHole(index);
    }

    /** Frees a slot and takes its id out of both reverse indexes. */
    method ClearEntry(index: nat)
      requires index < entries.Length && numEntries > 0 && featureIndexToEntry != egressFeatureToSession
      requires 0 <= entries[index].value.id < featureIndexToEntry.Length
      requires 0 <= EgressSlot(entries[..], index) < egressFeatureToSession.Length
      modifies this, entries, featureIndexToEntry, egressFeatureToSession
      ensures entries[..] == old(entries[..])[index := old(entries[index]).(occupied := false, hash := 0)]
      ensures numEntries == old(numEntries) - 1
      ensures featureIndexToEntry[..] == old(featureIndexToEntry[..])[old(entries[index].value.id) := -1]
      ensures egressFeatureToSession[..] == old(egressFeatureToSession[..])[old(EgressSlot(entries[..], index)) := -1]
    {
      entries[index] := entries[index].(occupied := false);
      entries[index] := entries[index].(hash := 0);
      numEntries := numEntries - 1;
      egressFeatureToSession[entries[index].value.id + entries[index].value.meta.egressOffset] := -1;
      featureIndexToEntry[entries[index].value.id] := -1;
    }

    /** Removes a session by key (in per-flow mode no flow count is kept). */
    method Remove(key: FlowKey) returns (ret: nat, value: int)
      requires Valid() && (numEntries < entries.Length || key in Map())
      modifies this, entries, featureIndexToEntry, egressFeatureToSession
      ensures Valid()
      ensures ret == if key in old(Map()) then 0 else 1
      ensures ret == 0 ==> value == old(Map())[key].id
      ensures Map() == old(Map()) - {key}
      ensures old(Egress()) ==> Egress()
    {
      var found, index := FindIndex(key);
      if !found {
        return 1, 0;
      }
      ret, value := 0, entries[index].value.id;
      RemoveByIndex(index);
    }

    /** `Remove` for a caller that knows the table's contents. */
    method Erase(key: FlowKey, ghost m: map<FlowKey, Record>, ghost exact: bool) returns (ret: nat, value: int)
      requires Is(m, exact) && |m| < entries.Length
      modifies Repr()
      ensures ret == if key in m then 0 else 1
      ensures ret == 0 ==> value == m[key].id
      ensures Is(m - {key}, exact)
    {
      assert UnfoldSessions(0);
      Size();
      ret, value := Remove(key);
    }

    /**
     * The export scan: walks the reverse index from the least session id upwards
     * and reports each session with the tuple stored in its slot.
     */
    method Export() returns (rows: seq<(int, FiveTuple)>)
      requires Valid()
      ensures forall a, b :: 0 <= a < b < |rows| ==> rows[a].0 < rows[b].0
      ensures forall a :: 0 <= a < |rows| ==>
        rows[a].1.h in Map() && Map()[rows[a].1.h] == Record(rows[a].1.meta, rows[a].0)
      ensures forall k :: k in Map() && Map()[k].id >= MIN_SESSION_ID ==>
        (Map()[k].id, FiveTuple(k, Map()[k].meta)) in rows
    {
      rows := [];
      ghost var s, rev := entries[..], featureIndexToEntry[..];
      var i := MIN_SESSION_ID;
      while i < featureIndexToEntry.Length
        invariant MIN_SESSION_ID <= i
        invariant Exported(Map(), rows, i)
      {
        var index := featureIndexToEntry[i];
        if index == -1 {
          NoRow(s, rev, rows, i);
        } else {
          NewRow(s, rev, rows, i);
          rows := rows + [(entries[index].value.id, FiveTuple(entries[index].key, entries[index].value.meta))];
        }
        i := i + 1;
      }
      IdsEnd(s, rev, i);
    }
  }

  /** The rows reported so far: ascending, each a live session, and all sessions with ids below `i`. */
  ghost predicate Exported(m: map<FlowKey, Record>, rows: seq<(int, FiveTuple)>, i: int) {
    && (forall a, b :: 0 <= a < b < |rows| ==> rows[a].0 < rows[b].0)
    && (forall a :: 0 <= a < |rows| ==> rows[a].0 < i)
    && (forall a :: 0 <= a < |rows| ==> rows[a].1.h in m && m[rows[a].1.h] == Record(rows[a].1.meta, rows[a].0))
    && (forall k :: k in m && MIN_SESSION_ID <= m[k].id < i ==> (m[k].id, FiveTuple(k, m[k].meta)) in rows)
  }

  lemma {:induction false} NoRow(s: Slots, rev: seq<int>, rows: seq<(int, FiveTuple)>, i: nat)
    requires UniqueKeys(s) && RevExact(s, rev) && i < |rev| && rev[i] == -1 && Exported(Contents(s), rows, i)
    ensures Exported(Contents(s), rows, i + 1)
  {
    RevAnswers(s, rev, i);
  }

  lemma {:induction false} NewRow(s: Slots, rev: seq<int>, rows: seq<(int, FiveTuple)>, i: nat)
    requires UniqueKeys(s) && RevExact(s, rev) && i < |rev| && rev[i] != -1 && Exported(Contents(s), rows, i)
    ensures 0 <= rev[i] < |s|
    ensures Exported(Contents(s), rows + [(s[rev[i]].value.id, FiveTuple(s[rev[i]].key, s[rev[i]].value.meta))], i + 1)
  {
    RevAnswers(s, rev, i);
    var m, x := Contents(s), s[rev[i]];
    forall k | k in m && m[k].id == i ensures k == x.key {
      RevInjective(s, rev, k, x.key);
    }
  }

  lemma IdsEnd(s: Slots, rev: seq<int>, n: nat)
    requires UniqueKeys(s) && RevExact(s, rev) && |rev| <= n
    ensures forall k :: k in Contents(s) ==> Contents(s)[k].id < n
  {
    forall k | k in Contents(s) ensures Contents(s)[k].id < n {
      var j := SlotOf(s, k);
      assert rev[s[j].value.id] == j;
    }
  }

  /** When all ids are in the scanned range, the rows are exactly the sessions. */
  lemma RowIsSession(m: map<FlowKey, Record>, rows: seq<(int, FiveTuple)>, id: int, t: FiveTuple)
    requires forall a :: 0 <= a < |rows| ==> rows[a].1.h in m && m[rows[a].1.h] == Record(rows[a].1.meta, rows[a].0)
    requires forall k :: k in m ==> (m[k].id, FiveTuple(k, m[k].meta)) in rows
    ensures (id, t) in rows <==> t.h in m && m[t.h] == Record(t.meta, id)
  {
    if (id, t) in rows {
      var a :| 0 <= a < |rows| && rows[a] == (id, t);
      assert rows[a].0 == id && rows[a].1 == t;
    }
    if t.h in m && m[t.h] == Record(t.meta, id) {
      assert (m[t.h].id, FiveTuple(t.h, m[t.h].meta)) == (id, t);
    }
  }

  ghost predicate InRange(s: Slots, size: nat) {
    forall i :: 0 <= i < |s| && s[i].occupied ==> 0 <= EgressSlot(s, i) < size
  }

  /** Some live session already feeds register `x`. */
  ghost predicate RegisterTaken(m: map<FlowKey, Record>, x: int) {
    exists k :: k in m && m[k].id + m[k].meta.egressOffset == x
  }

  /** What storing a new entry in a free slot does to the table and its indexes. */
  lemma StoreSound(s: Slots, rev: seq<int>, eg: seq<int>, hash: FlowKey -> nat, i: nat, x: Slot<FlowKey, Record>)
    requires |s| > 0 && Sound(s, hash) && RevExact(s, rev) && InRange(s, |eg|)
    requires x.occupied && x.hash == hash(x.key) && Free(s, hash, x.key, i) && x.key !in Contents(s)
    requires 0 <= x.value.id < |rev| && !LiveId(Contents(s), x.value.id)
    requires 0 <= x.value.id + x.value.meta.egressOffset < |eg|
    ensures var t := s[i := x];
      && Sound(t, hash) && Occupied(t) == Occupied(s) + 1 && Contents(t) == Contents(s)[x.key := x.value]
      && RevExact(t, rev[x.value.id := i]) && InRange(t, |eg|)
    ensures EgressExact(s, rev, eg) ==>
      var register := x.value.id + x.value.meta.egressOffset;
      (EgressExact(s[i := x], rev[x.value.id := i], eg[register := x.value.id]) <==>
        !RegisterTaken(Contents(s), register))
  {
    RevAnswers(s, rev, x.value.id);
    InsertSound(s, hash, x.key, x.value, i);
    assert x == Slot(x.key, x.value, hash(x.key), true);
    EgressInsertIff(s, rev, eg, i, x);
  }

  lemma EgressInsertIff(s: Slots, rev: seq<int>, eg: seq<int>, i: nat, x: Slot<FlowKey, Record>)
    requires i < |s| && !s[i].occupied && x.occupied && UniqueKeys(s) && RevExact(s, rev)
    requires 0 <= x.value.id < |rev| && rev[x.value.id] == -1
    requires 0 <= x.value.id + x.value.meta.egressOffset < |eg|
    ensures RevExact(s[i := x], rev[x.value.id := i])
    ensures EgressExact(s, rev, eg) ==>
      var register := x.value.id + x.value.meta.egressOffset;
      (EgressExact(s[i := x], rev[x.value.id := i], eg[register := x.value.id]) <==>
        !RegisterTaken(Contents(s), register))
  {
    RevInsert(s, rev, i, x);
    if EgressExact(s, rev, eg) {
      var t, rev', register := s[i := x], rev[x.value.id := i], x.value.id + x.value.meta.egressOffset;
      var eg' := eg[register := x.value.id];
      if RegisterTaken(Contents(s), register) {
        var k :| k in Contents(s) && Contents(s)[k].id + Contents(s)[k].meta.egressOffset == register;
        var j := SlotOf(s, k);
        assert t[j] == s[j] && t[j].value.id != x.value.id;
        assert EgressSlot(t, j) == register;
      } else {
        EgressInsert(s, rev, eg, i, x);
      }
    }
  }

  lemma EgressInsert(s: Slots, rev: seq<int>, eg: seq<int>, i: nat, x: Slot<FlowKey, Record>)
    requires i < |s| && !s[i].occupied && x.occupied && UniqueKeys(s) && RevExact(s, rev) && EgressExact(s, rev, eg)
    requires 0 <= x.value.id < |rev| && rev[x.value.id] == -1
    requires 0 <= x.value.id + x.value.meta.egressOffset < |eg|
    requires !RegisterTaken(Contents(s), x.value.id + x.value.meta.egressOffset)
    ensures RevExact(s[i := x], rev[x.value.id := i])
    ensures EgressExact(s[i := x], rev[x.value.id := i], eg[x.value.id + x.value.meta.egressOffset := x.value.id])
  {
    RevInsert(s, rev, i, x);
    var t, register := s[i := x], x.value.id + x.value.meta.egressOffset;
    forall j | 0 <= j < |s| && s[j].occupied ensures EgressSlot(s, j) != register {
      SlotInContents(s, j);
    }
    forall j | 0 <= j < |t| && t[j].occupied ensures j != i ==> EgressSlot(t, j) == EgressSlot(s, j) {
    }
  }

  lemma EgressErase(s: Slots, rev: seq<int>, eg: seq<int>, i: nat, x: Slot<FlowKey, Record>)
    requires i < |s| && s[i].occupied && !x.occupied && RevExact(s, rev)
    requires 0 <= EgressSlot(s, i) < |eg|
    ensures RevExact(s[i := x], rev[s[i].value.id := -1])
    ensures EgressExact(s, rev, eg) ==>
      EgressExact(s[i := x], rev[s[i].value.id := -1], eg[EgressSlot(s, i) := -1])
  {
    RevErase(s, rev, i, x);
    if EgressExact(s, rev, eg) {
      var t := s[i := x];
      forall j | 0 <= j < |t| && t[j].occupied ensures EgressSlot(t, j) == EgressSlot(s, j) != EgressSlot(s, i) {
      }
    }
  }

  lemma EgressShift(s: Slots, rev: seq<int>, eg: seq<int>, e: nat, i: nat)
    requires e < |s| && i < |s| && !s[e].occupied && s[i].occupied && RevExact(s, rev) && InRange(s, |eg|)
    ensures RevExact(Shift(s, e, i), rev[s[i].value.id := e]) && InRange(Shift(s, e, i), |eg|)
    ensures EgressExact(s, rev, eg) ==>
      EgressExact(Shift(s, e, i), rev[s[i].value.id := e], eg[EgressSlot(s, i) := s[i].value.id])
  {
    RevShift(s, rev, e, i);
    var t := Shift(s, e, i);
    forall j | 0 <= j < |t| && t[j].occupied ensures EgressSlot(t, j) == EgressSlot(s, if j == e then i else j) {
    }
  }
}
