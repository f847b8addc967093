/**
 * The table of resolved addresses.  Unlike the other two tables it may fill
 * completely, so a deletion can scan all the way round to its own hole.
 */
module DnsTables {
  import opened Probing

  /** The protocol tag and the address; the whole record is hashed and compared. */
  datatype DnsKey = DnsKey(proto: nat, address: nat)

  class DnsTable {
    const hash: DnsKey -> nat
    const entries: array<Slot<DnsKey, int>>
    var numEntries: nat

    ghost predicate Valid()
      reads this, entries
    {
      entries.Length > 0 && Sound(entries[..], hash) && numEntries == Occupied(entries[..])
    }

    ghost function Map(): map<DnsKey, int>
      reads this, entries
    {
      Contents(entries[..])
    }

    /** `num_entries` is the number of keys. */
    lemma Size()
      requires Valid()
      ensures numEntries == |Map()| <= entries.Length
    {
      OccupiedIsSize(entries[..]);
    }

    constructor (size: nat, hash: DnsKey -> nat)
      requires size > 0
      ensures Valid() && Map() == map[]
      ensures fresh(entries) && entries.Length == size && this.hash == hash
    {
      var blank := Slot(DnsKey(0, 0), 0, 0, false);
      this.hash := hash;
      entries := new Slot<DnsKey, int>[size](_ => blank);
      numEntries := 0;
      new;
      NoneOccupied(entries[..]);
    }

    /** Walks from the key's home to the key or to the first free slot. */
    method FindIndex(key: DnsKey) returns (found: bool, index: nat)
      requires Valid() && (numEntries < entries.Length || key in Map())
      ensures index < entries.Length
      ensures found <==> key in Map()
      ensures found ==> entries[index].occupied && entries[index].key == key && entries[index].value == Map()[key]
      ensures !found ==> Free(entries[..], hash, key, index)
    {
      var n := entries.Length;
      var h := hash(key);
      index := HashToIndex(h, n);
      ghost var s, home, d := entries[..], index, 0;
      LookupBound(s, hash, key);
      while true
        invariant d < n && index == Plus(home, d, n)
        invariant forall j :: 0 <= j < n && Dist(home, j, n) < d ==> s[j].occupied && s[j].key != key
        decreases n - d
      {
        if !entries[index].occupied {
          MissIsAbsent(s, hash, key, index);
          return false, index;
        }
        if entries[index].hash == h {
          if entries[index].key == key {
            SlotInContents(s, index);
            return true, index;
          }
        }
        index := Next(index, n);
        d := d + 1;
      }
    }

    /** Refused on a full table, even when the key is already stored. */
    method AddOrChange(key: DnsKey, value: int) returns (ret: nat)
      requires Valid()
      modifies this, entries
      ensures Valid()
      ensures old(numEntries) == entries.Length ==> ret == 1 && Map() == old(Map())
      ensures old(numEntries) < entries.Length ==> ret == 0 && Map() == old(Map())[key := value]
    {
      if numEntries == entries.Length {
        return 1;
      }
      OccupiedAtMost(entries[..]);
      var found, index := FindIndex(key);
      ghost var s := entries[..];
      if found {
        entries[index] := entries[index].(value := value);
        ChangeSound(s, hash, index, value);
        assert entries[..] == s[index := s[index].(value := value)];
        return 0;
      }
      entries[index] := Slot(key, value, hash(key), true);
      numEntries := numEntries + 1;
      InsertSound(s, hash, key, value, index);
      assert entries[..] == s[index := Slot(key, value, hash(key), true)];
      return 0;
    }

    method Get(key: DnsKey) returns (ret: nat, value: int)
      requires Valid() && (numEntries < entries.Length || key in Map())
      ensures ret == 0 <==> key in Map()
      ensures ret != 0 ==> ret == 1
      ensures ret == 0 ==> value == Map()[key]
    {
      var found, index := FindIndex(key);
      if found {
        return 0, entries[index].value;
      }
      return 1, 0;
    }

    /** Scans forward from a hole, pulling displaced entries back, until no walk is broken. */
    method CloseHole(hole0: nat)
      requires Holed(entries[..], hash, hole0) && numEntries == Occupied(entries[..])
      modifies entries
      ensures Valid() && Map() == old(Map())
    {
      var n := entries.Length;
      var index: nat, hole: nat := hole0, hole0;
      ghost var s, d := entries[..], 0;
      while true
        invariant s == entries[..]
        invariant d < n && Holed(s, hash, hole) && index == Plus(hole, d, n) && Scanned(s, hole, d)
        invariant Contents(s) == old(Map()) && numEntries == Occupied(s)
        decreases TotalDisplacement(s, n), n - d
      {
        index := Next(index, n);
        assert index == Plus(hole, d + 1, n) && s[index] == entries[index];
        if !entries[index].occupied {
          ScanEnds(s, hole, d + 1);
          break;
        }
        var desired := HashToIndex(entries[index].hash, n);
        if index != desired && CanMoveToEmpty(desired, hole, index, n) {
          ShiftSound(s, hash, hole, index);
          ShiftDecreases(s, hole, index);
          entries[index] := entries[index].(occupied := false);
          entries[hole] := entries[index].(occupied := true);
          s := Shift(s, hole, index);
          assert s == entries[..];
          hole, d := index, 0;
        } else {
          ScanGrows(s, hole, d);
          d := d + 1;
        }
      }
    }

    /** Removes a key from any table, a completely full one included. */
    method Remove(key: DnsKey) returns (ret: nat)
      requires Valid() && (numEntries < entries.Length || key in Map())
      modifies this, entries
      ensures Valid()
      ensures ret == if key in old(Map()) then 0 else 1
      ensures Map() == old(Map()) - {key}
    {
      var found, index := FindIndex(key);
      if !found {
        return 1;
      }
      ghost var s := entries[..];
      EraseSound(s, hash, index, s[index].(occupied := false));
      entries[index] := entries[index].(occupied := false);
      numEntries := numEntries - 1;
      assert entries[..] == s[index := s[index].(occupied := false)];
      CloseHole(index);
      return 0;
    }
  }

  /** A table that one addition has filled refuses to change the very key that it stores. */
  method FullTableRefusesChange(hash: DnsKey -> nat, key: DnsKey, value: int, other: int)
    returns (added: nat, changed: nat, found: nat, stored: int)
    ensures added == 0 && changed == 1 && found == 0 && stored == value
  {
    var table := new DnsTable(1, hash);
    added := table.AddOrChange(key, value);
    table.Size();
    assert table.Map().Keys == {key} && |table.Map().Keys| == 1;
    changed := table.AddOrChange(key, other);
    found, stored := table.Get(key);
  }
}
