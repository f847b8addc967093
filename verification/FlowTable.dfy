/**
 * Reverse indexes of the flow and session tables: from an issued id to the
 * slot that holds it, and from an egress register to the session that feeds it.
 */
module ReverseIndex {
  import opened Structs
  import opened Probing

  type Slots = seq<Slot<FlowKey, Record>>

  /** `rev[v] == i` exactly when slot `i` is occupied and holds id `v`; all other ids map to -1. */
  ghost predicate RevExact(s: Slots, rev: seq<int>) {
    && (forall i :: 0 <= i < |s| && s[i].occupied ==> 0 <= s[i].value.id < |rev| && rev[s[i].value.id] == i)
    && (forall v :: 0 <= v < |rev| && rev[v] != -1 ==>
          0 <= rev[v] < |s| && s[rev[v]].occupied && s[rev[v]].value.id == v)
  }

  /** Register of the egress pipe that counts the session stored in slot `i`. */
  function EgressSlot(s: Slots, i: nat): int
    requires i < |s|
  {
    s[i].value.id + s[i].value.meta.egressOffset
  }

  /** `eg[x] == v` exactly when session `v` is live with `v + offset == x`; all other registers map to -1. */
  ghost predicate EgressExact(s: Slots, rev: seq<int>, eg: seq<int>)
    requires RevExact(s, rev)
  {
    && (forall i :: 0 <= i < |s| && s[i].occupied ==>
          0 <= EgressSlot(s, i) < |eg| && eg[EgressSlot(s, i)] == s[i].value.id)
    && (forall x :: 0 <= x < |eg| && eg[x] != -1 ==>
          0 <= eg[x] < |rev| && rev[eg[x]] != -1 && EgressSlot(s, rev[eg[x]]) == x)
  }

  /** An id is live: some slot holds it. */
  ghost predicate LiveId(m: map<FlowKey, Record>, v: int) {
    exists k :: k in m && m[k].id == v
  }

  /** The reverse index answers membership of an id. */
  lemma RevAnswers(s: Slots, rev: seq<int>, v: nat)
    requires UniqueKeys(s) && RevExact(s, rev) && v < |rev|
    ensures rev[v] != -1 <==> LiveId(Contents(s), v)
    ensures rev[v] != -1 ==>
      s[rev[v]].key in Contents(s) && Contents(s)[s[rev[v]].key] == s[rev[v]].value && s[rev[v]].value.id == v
  {
    if rev[v] != -1 {
      SlotInContents(s, rev[v]);
    }
    if LiveId(Contents(s), v) {
      var k :| k in Contents(s) && Contents(s)[k].id == v;
      var i := SlotOf(s, k);
    }
  }

  /** Distinct keys hold distinct ids. */
  lemma RevInjective(s: Slots, rev: seq<int>, k: FlowKey, k': FlowKey)
    requires RevExact(s, rev) && k in Contents(s) && k' in Contents(s)
    requires Contents(s)[k].id == Contents(s)[k'].id
    ensures k == k'
  {
    var i, j := SlotOf(s, k), SlotOf(s, k');
    assert rev[s[i].value.id] == i && rev[s[j].value.id] == j;
  }

  lemma RevShift(s: Slots, rev: seq<int>, e: nat, i: nat)
    requires e < |s| && i < |s| && !s[e].occupied && s[i].occupied && RevExact(s, rev)
    ensures RevExact(Shift(s, e, i), rev[s[i].value.id := e])
  {
  }

  lemma RevErase(s: Slots, rev: seq<int>, i: nat, x: Slot<FlowKey, Record>)
    requires i < |s| && s[i].occupied && !x.occupied && RevExact(s, rev)
    ensures RevExact(s[i := x], rev[s[i].value.id := -1])
  {
  }

  lemma RevInsert(s: Slots, rev: seq<int>, i: nat, x: Slot<FlowKey, Record>)
    requires i < |s| && !s[i].occupied && x.occupied && RevExact(s, rev)
    requires 0 <= x.value.id < |rev| && rev[x.value.id] == -1
    ensures RevExact(s[i := x], rev[x.value.id := i])
  {
  }
}

/** The table of monitored flows, keyed by five-tuple, with a reverse index from flow id to slot. */
module FlowTables {
  import opened Structs
  import opened Probing
  import opened ReverseIndex

  /** Marker for the folded predicate of a flow table, see `Unfold`. */
  ghost predicate UnfoldFlows(i: int) {
    true
  }

  class FlowTable {
    const hash: FlowKey -> nat
    const entries: array<Slot<FlowKey, Record>>
    const featureIndexToEntry: array<int>
    var numEntries: nat

    ghost function Repr(): set<object> {
      {this, entries, featureIndexToEntry}
    }

    ghost predicate Valid()
      reads this, entries, featureIndexToEntry
    {
      && entries.Length > 0
      && Sound(entries[..], hash)
      && numEntries == Occupied(entries[..])
      && RevExact(entries[..], featureIndexToEntry[..])
    }

    ghost function Map(): map<FlowKey, Record>
      reads this, entries
    {
      Contents(entries[..])
    }

    /** The table is well formed and holds the given flows (folded, see `Unfold`). */
    ghost predicate Is(m: map<FlowKey, Record>)
      reads Repr()
    {
      forall i {:trigger UnfoldFlows(i)} :: UnfoldFlows(i) ==> Valid() && Map() == m
    }

    /** `num_entries` is the number of flows. */
    lemma Size()
      requires Valid()
      ensures numEntries == |Map()| <= entries.Length
    {
      OccupiedIsSize(entries[..]);
    }

    constructor (size: nat, featureSize: nat, hash: FlowKey -> nat)
      requires size > 0
      ensures Valid() && Map() == map[]
      ensures fresh(Repr())
      ensures entries.Length == size && featureIndexToEntry.Length == featureSize && this.hash == hash
    {
      var blank := Slot(FlowKey(0, 0, 0, 0, IPv4, UDP), Record(Meta(0, 0, 0), 0), 0, false);
      this.hash := hash;
      entries := new Slot<FlowKey, Record>[size](_ => blank);
      featureIndexToEntry := new int[featureSize](_ => -1);
      numEntries := 0;
      new;
      NoneOccupied(entries[..]);
    }

    /** Walks from the key's home to the key or to the first free slot. */
    method FindIndex(key: FlowKey) returns (found: bool, index: nat)
      requires Valid() && (numEntries < entries.Length || key in Map())
      ensures index < entries.Length
      ensures found <==> key in Map()
      ensures found ==> entries[index].occupied && entries[index].key == key && entries[index].value == Map()[key]
      ensures !found ==> Free(entries[..], hash, key, index)
    {
      var n := entries.Length;
      var h := hash(key);
      index := HashToIndex(h, n);
      ghost var s, home, d := entries[..], index, 0;
      LookupBound(s, hash, key);
      while true
        invariant d < n && index == Plus(home, d, n)
        invariant forall j :: 0 <= j < n && Dist(home, j, n) < d ==> s[j].occupied && s[j].key != key
        decreases n - d
      {
        if !entries[index].occupied {
          MissIsAbsent(s, hash, key, index);
          return false, index;
        }
        if entries[index].hash == h {
          if entries[index].key == key {
            SlotInContents(s, index);
            return true, index;
          }
        }
        index := Next(index, n);
        d := d + 1;
      }
    }

    /** Adds a flow; refused (1) when the table is full or the key is already stored. */
    method Add(tuple: FiveTuple, value: int) returns (ret: nat)
      requires Valid()
      requires tuple.h !in Map() ==> 0 <= value < featureIndexToEntry.Length && !LiveId(Map(), value)
      modifies this, entries, featureIndexToEntry
      ensures Valid()
      ensures ret == if old(numEntries) == entries.Length || tuple.h in old(Map()) then 1 else 0
      ensures Map() == if ret == 0 then old(Map())[tuple.h := Record(tuple.meta, value)] else old(Map())
    {
      if numEntries == entries.Length {
        return 1;
      }
      OccupiedAtMost(entries[..]);
      var found, index := FindIndex(tuple.h);
      if found {
        return 1;
      }
      ghost var s, rev := entries[..], featureIndexToEntry[..];
      var entry := Slot(tuple.h, Record(tuple.meta, value), hash(tuple.h), true);
      RevAnswers(s, rev, value);
      InsertSound(s, hash, tuple.h, entry.value, index);
      RevInsert(s, rev, index, entry);
      entries[index] := entry;
      featureIndexToEntry[value] := index;
      numEntries := numEntries + 1;
      assert entries[..] == s[index := entry];
      assert featureIndexToEntry[..] == rev[value := index];
      return 0;
    }

    method Get(key: FlowKey) returns (ret: nat, value: int)
      requires Valid() && (numEntries < entries.Length || key in Map())
      ensures ret == if key in Map() then 0 else 1
      ensures ret == 0 ==> value == Map()[key].id
    {
      var found, index := FindIndex(key);
      if found {
        return 0, entries[index].value.id;
      }
      return 1, 0;
    }

    /** Moves the entry of slot `index` into the hole and redirects its id. */
    method MoveEntry(index: nat, hole: nat)
      requires index < entries.Length && hole < entries.Length && index != hole
      requires 0 <= entries[index].value.id < featureIndexToEntry.Length
      modifies entries, featureIndexToEntry
      ensures entries[..] == Shift(old(entries[..]), hole, index)
      ensures featureIndexToEntry[..] == old(featureIndexToEntry[..])[old(entries[index].value.id) := hole]
    {
      entries[index] := entries[index].(occupied := false);
      entries[hole] := entries[index].(occupied := true);
      featureIndexToEntry[entries[index].value.id] := hole;
    }

    /** Scans forward from a hole, pulling displaced entries back, until no walk is broken. */
    method CloseHole(hole0: nat)
      requires Holed(entries[..], hash, hole0) && numEntries == Occupied(entries[..])
      requires RevExact(entries[..], featureIndexToEntry[..])
      modifies entries, featureIndexToEntry
      ensures Valid() && Map() == old(Map())
    {
      var n := entries.Length;
      var index: nat, hole: nat := hole0, hole0;
      ghost var s, rev, d := entries[..], featureIndexToEntry[..], 0;
      while true
        invariant s == entries[..] && rev == featureIndexToEntry[..]
        invariant d < n && Holed(s, hash, hole) && index == Plus(hole, d, n)
        invariant Scanned(s, hole, d) && RevExact(s, rev)
        invariant Contents(s) == old(Map()) && numEntries == Occupied(s)
        decreases TotalDisplacement(s, n), n - d
      {
        index := Next(index, n);
        assert index == Plus(hole, d + 1, n) && s[index] == entries[index];
        if !entries[index].occupied {
          ScanEnds(s, hole, d + 1);
          break;
        }
        var desired := HashToIndex(entries[index].hash, n);
        if index != desired && CanMoveToEmpty(desired, hole, index, n) {
          ShiftSound(s, hash, hole, index);
          ShiftDecreases(s, hole, index);
          RevShift(s, rev, hole, index);
          MoveEntry(index, hole);
          s, rev := Shift(s, hole, index), rev[s[index].value.id := hole];
          hole, d := index, 0;
        } else {
          ScanGrows(s, hole, d);
          d := d + 1;
        }
      }
    }

    /** Empties a slot and closes the hole. */
    method RemoveByIndex(index: nat)
      requires Valid() && index < entries.Length && entries[index].occupied
      modifies this, entries, featureIndexToEntry
      ensures Valid()
      ensures Map() == old(Map()) - {old(entries[index].key)}
    {
      ghost var s, rev := entries[..], featureIndexToEntry[..];
      ghost var gone := s[index].(occupied := false, hash := 0);
      EraseSound(s, hash, index, gone);
      RevErase(s, rev, index, gone);
      entries[index] := entries[index].(occupied := false);
      entries[index] := entries[index].(hash := 0);
      numEntries := numEntries - 1;
      featureIndexToEntry[entries[index].value.id] := -1;
      assert entries[..] == s[index := gone];
      assert featureIndexToEntry[..] == rev[gone.value.id := -1];
      CloseHole(index);
    }

    method Remove(key: FlowKey) returns (ret: nat, value: int)
      requires Valid() && (numEntries < entries.Length || key in Map())
      modifies this, entries, featureIndexToEntry
      ensures Valid()
      ensures ret == if key in old(Map()) then 0 else 1
      ensures ret == 0 ==> value == old(Map())[key].id
      ensures Map() == old(Map()) - {key}
    {
      var found, index := FindIndex(key);
      if !found {
        return 1, 0;
      }
      ret, value := 0, entries[index].value.id;
      RemoveByIndex(index);
    }

    /** `Remove` for a caller that knows the table's contents. */
    method Erase(key: FlowKey, ghost m: map<FlowKey, Record>) returns (ret: nat, value: int)
      requires Is(m) && |m| < entries.Length
      modifies Repr()
      ensures ret == if key in m then 0 else 1
      ensures ret == 0 ==> value == m[key].id
      ensures Is(m - {key})
    {
      assert UnfoldFlows(0);
      Size();
      ret, value := Remove(key);
    }

    /** Removes the flow that holds an id and reports its five-tuple. */
    method RemoveByValue(value: int) returns (ret: nat, tuple: FiveTuple)
      requires Valid() && 0 <= value < featureIndexToEntry.Length
      modifies this, entries, featureIndexToEntry
      ensures Valid()
      ensures ret == if LiveId(old(Map()), value) then 0 else 1
      ensures ret == 0 ==> tuple.h in old(Map()) && old(Map())[tuple.h] == Record(tuple.meta, value)
      ensures Map() == if ret == 0 then old(Map()) - {tuple.h} else old(Map())
    {
      RevAnswers(entries[..], featureIndexToEntry[..], value);
      var index := featureIndexToEntry[value];
      tuple := FiveTuple(FlowKey(0, 0, 0, 0, IPv4, UDP), Meta(0, 0, 0));
      if index == -1 {
        return 1, tuple;
      }
      ret, tuple := 0, FiveTuple(entries[index].key, entries[index].value.meta);
      RemoveByIndex(index);
    }
  }
}
