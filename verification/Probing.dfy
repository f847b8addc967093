/**
 * Open addressing with linear probing and backward-shift deletion, over values.
 *
 * The flow, session and DNS tables share this layout.  A table is a sequence of
 * slots; a slot's home is the index its hash selects.  `ProbeInv(s, e)` says
 * that every slot on the cyclic walk from an entry's home to the entry is
 * occupied, except possibly slot `e` (the hole that a deletion has opened);
 * `e == |s|` means that there is no hole.
 */
module Probing {
  import opened Arithmetic

  datatype Slot<K, V> = Slot(key: K, value: V, hash: nat, occupied: bool)

  /** `uint32_t` read as `int32_t`. */
  function ToInt32(h: nat): int {
    if h % 0x1_0000_0000 < 0x8000_0000 then h % 0x1_0000_0000 else h % 0x1_0000_0000 - 0x1_0000_0000
  }

  /** The index a hash selects: the signed, then made positive, remainder. */
  function HashToIndex(h: nat, n: nat): (i: nat)
    requires n > 0
    ensures i < n
  {
    ToInt32(h) % n
  }

  /** A 32-bit pattern and an integer with that pattern have the same remainder by a power of two. */
  lemma PatternRemainder(x: int, k: nat)
    requires k <= 32
    ensures x % 0x1_0000_0000 % Pow2(k) == x % Pow2(k)
  {
    Pow2Of32();
    Pow2Add(32 - k, k);
    RemainderTwice(x, Pow2(32 - k), Pow2(k));
  }

  lemma SamePattern(h: nat)
    requires h < 0x1_0000_0000
    ensures ToInt32(h) % 0x1_0000_0000 == h
  {
  }

  /** For table sizes that are powers of two the program masks the hash instead: the index is the same. */
  lemma MaskedIndex(h: nat, k: nat)
    requires k <= 32 && h < 0x1_0000_0000
    ensures And(h, Pow2(k) - 1) == HashToIndex(h, Pow2(k))
  {
    AndMask(h, k);
    SamePattern(h);
    PatternRemainder(ToInt32(h), k);
  }

  /** Number of forward steps from `a` to `b` around a table of `n` slots. */
  function Dist(a: nat, b: nat, n: nat): (d: nat)
    requires a < n && b < n
    ensures d < n
  {
    if a <= b then b - a else b + n - a
  }

  /** The slot `d` steps after `a`. */
  function Plus(a: nat, d: nat, n: nat): (i: nat)
    requires a < n && d <= n
    ensures i < n
    ensures d < n ==> Dist(a, i, n) == d
  {
    if a + d < n then a + d else a + d - n
  }

  lemma WalkLength(a: nat, b: nat, n: nat)
    requires a < n && b < n
    ensures (a + Dist(a, b, n)) % n == b
  {
    if a > b {
      SameRemainder(b + n, 1, b, n);
    }
  }

  /** Masking the difference of two indexes, as a 32-bit pattern, gives their distance. */
  lemma MaskedDistance(a: nat, b: nat, k: nat)
    requires k <= 32 && a < Pow2(k) && b < Pow2(k)
    ensures And((b - a) % 0x1_0000_0000, Pow2(k) - 1) == Dist(a, b, Pow2(k))
  {
    AndMask((b - a) % 0x1_0000_0000, k);
    PatternRemainder(b - a, k);
    SameRemainder(b - a, if a <= b then 0 else -1, Dist(a, b, Pow2(k)), Pow2(k));
  }

  /** The slot after `i`, as the probe loops compute it. */
  function Next(i: nat, n: nat): (j: nat)
    requires i < n
    ensures j == if i + 1 == n then 0 else i + 1
  {
    (i + 1) % n
  }

  ghost predicate UniqueKeys<K, V>(s: seq<Slot<K, V>>) {
    forall i, j {:trigger s[i].key, s[j].key} ::
      0 <= i < j < |s| && s[i].occupied && s[j].occupied ==> s[i].key != s[j].key
  }

  ghost predicate Hashed<K, V>(s: seq<Slot<K, V>>, hash: K -> nat) {
    forall i {:trigger s[i].hash} :: 0 <= i < |s| && s[i].occupied ==> s[i].hash == hash(s[i].key)
  }

  /** Home index of the entry in slot `i`. */
  function Home<K, V>(s: seq<Slot<K, V>>, i: nat): (h: nat)
    requires i < |s|
    ensures h < |s|
  {
    HashToIndex(s[i].hash, |s|)
  }

  /** Slot `j` lies on the walk from the home of entry `i` to entry `i`. */
  ghost predicate OnPath<K, V>(s: seq<Slot<K, V>>, i: nat, j: nat)
    requires i < |s| && j < |s|
  {
    Dist(Home(s, i), j, |s|) <= Dist(Home(s, i), i, |s|)
  }

  ghost predicate ProbeInv<K, V>(s: seq<Slot<K, V>>, e: nat) {
    forall i, j {:trigger OnPath(s, i, j)} ::
      0 <= i < |s| && 0 <= j < |s| && s[i].occupied && j != e && OnPath(s, i, j) ==> s[j].occupied
  }

  /** A table whose every entry can be found by probing. */
  ghost predicate Sound<K, V>(s: seq<Slot<K, V>>, hash: K -> nat) {
    UniqueKeys(s) && Hashed(s, hash) && ProbeInv(s, |s|)
  }

  // ---------- The finite map that a table represents ----------

  ghost function Contents<K, V>(s: seq<Slot<K, V>>): map<K, V> {
    if s == [] then map[]
    else
      var last := s[|s| - 1];
      var rest := Contents(s[..|s| - 1]);
      if last.occupied then rest[last.key := last.value] else rest
  }

  function Occupied<K, V>(s: seq<Slot<K, V>>): nat {
    if s == [] then 0 else Occupied(s[..|s| - 1]) + (if s[|s| - 1].occupied then 1 else 0)
  }

  /** Every key of the contents is held by a slot. */
  ghost function SlotOf<K, V>(s: seq<Slot<K, V>>, k: K): (i: nat)
    requires k in Contents(s)
    ensures i < |s| && s[i].occupied && s[i].key == k && s[i].value == Contents(s)[k]
  {
    if s[|s| - 1].occupied && s[|s| - 1].key == k then |s| - 1 else SlotOf(s[..|s| - 1], k)
  }

  /** Every occupied slot contributes its entry. */
  lemma {:induction false} SlotInContents<K, V>(s: seq<Slot<K, V>>, i: nat)
    requires UniqueKeys(s) && i < |s| && s[i].occupied
    ensures s[i].key in Contents(s) && Contents(s)[s[i].key] == s[i].value
  {
    if i < |s| - 1 {
      SlotInContents(s[..|s| - 1], i);
    }
  }

  lemma {:induction false} OccupiedIsSize<K, V>(s: seq<Slot<K, V>>)
    requires UniqueKeys(s)
    ensures Occupied(s) == |Contents(s)| <= |s|
  {
    if s != [] {
      var rest := s[..|s| - 1];
      OccupiedIsSize(rest);
      var k := s[|s| - 1].key;
      if s[|s| - 1].occupied {
        forall i | 0 <= i < |rest| && rest[i].occupied ensures rest[i].key != k {
          assert rest[i] == s[i];
        }
        assert k !in Contents(rest) by {
          if k in Contents(rest) {
            var i := SlotOf(rest, k);
          }
        }
      }
    }
  }

  lemma {:induction false} NoneOccupied<K, V>(s: seq<Slot<K, V>>)
    requires forall i :: 0 <= i < |s| ==> !s[i].occupied
    ensures Contents(s) == map[] && Occupied(s) == 0
  {
    if s != [] {
      NoneOccupied(s[..|s| - 1]);
    }
  }

  lemma {:induction false} AllOccupied<K, V>(s: seq<Slot<K, V>>)
    requires forall i :: 0 <= i < |s| ==> s[i].occupied
    ensures Occupied(s) == |s|
  {
    if s != [] {
      AllOccupied(s[..|s| - 1]);
    }
  }

  lemma {:induction false} OccupiedUpdate<K, V>(s: seq<Slot<K, V>>, i: nat, x: Slot<K, V>)
    requires i < |s|
    ensures Occupied(s[i := x]) == Occupied(s) + (if x.occupied then 1 else 0) - (if s[i].occupied then 1 else 0)
  {
    var t := s[i := x];
    if i == |s| - 1 {
      assert t[..|s| - 1] == s[..|s| - 1];
    } else {
      OccupiedUpdate(s[..|s| - 1], i, x);
      assert t[..|s| - 1] == s[..|s| - 1][i := x];
    }
  }

  // ---------- Insertion ----------

  ghost predicate Free<K, V>(s: seq<Slot<K, V>>, hash: K -> nat, k: K, i: nat)
    requires |s| > 0
  {
    && i < |s| && !s[i].occupied
    && var home := HashToIndex(hash(k), |s|);
       forall j :: 0 <= j < |s| && Dist(home, j, |s|) < Dist(home, i, |s|) ==> s[j].occupied
  }

  lemma InsertSound<K, V>(s: seq<Slot<K, V>>, hash: K -> nat, k: K, v: V, i: nat)
    requires |s| > 0 && Sound(s, hash) && Free(s, hash, k, i) && k !in Contents(s)
    ensures Sound(s[i := Slot(k, v, hash(k), true)], hash)
    ensures Contents(s[i := Slot(k, v, hash(k), true)]) == Contents(s)[k := v]
    ensures Occupied(s[i := Slot(k, v, hash(k), true)]) == Occupied(s) + 1
  {
    var t := s[i := Slot(k, v, hash(k), true)];
    forall j | 0 <= j < |s| && s[j].occupied ensures s[j].key != k {
      SlotInContents(s, j);
    }
    assert UniqueKeys(t);
    forall a, b | 0 <= a < |t| && 0 <= b < |t| && t[a].occupied && OnPath(t, a, b) ensures t[b].occupied {
      if a != i && b != i {
        assert OnPath(s, a, b);
      }
    }
    OccupiedUpdate(s, i, t[i]);
    WriteContents(s, i, t[i]);
  }

  /** Writing an entry into a free slot adds exactly that entry. */
  lemma WriteContents<K, V>(s: seq<Slot<K, V>>, i: nat, x: Slot<K, V>)
    requires i < |s| && UniqueKeys(s) && UniqueKeys(s[i := x]) && !s[i].occupied && x.occupied
    ensures Contents(s[i := x]) == Contents(s)[x.key := x.value]
  {
    var t := s[i := x];
    SlotInContents(t, i);
    forall k | k in Contents(t)
      ensures k in Contents(s)[x.key := x.value] && Contents(t)[k] == Contents(s)[x.key := x.value][k] {
      var j := SlotOf(t, k);
      if j != i {
        assert s[j] == t[j];
        SlotInContents(s, j);
      }
    }
    forall k | k in Contents(s) ensures k in Contents(t) {
      var j := SlotOf(s, k);
      assert t[j] == s[j];
      SlotInContents(t, j);
    }
  }

  /** Overwriting the value of an entry changes exactly that entry. */
  lemma ChangeSound<K, V>(s: seq<Slot<K, V>>, hash: K -> nat, i: nat, v: V)
    requires Sound(s, hash) && i < |s| && s[i].occupied
    ensures Sound(s[i := s[i].(value := v)], hash)
    ensures Contents(s[i := s[i].(value := v)]) == Contents(s)[s[i].key := v]
    ensures Occupied(s[i := s[i].(value := v)]) == Occupied(s)
  {
    var t := s[i := s[i].(value := v)];
    forall a, b | 0 <= a < |t| && 0 <= b < |t| && t[a].occupied && OnPath(t, a, b) ensures t[b].occupied {
      assert OnPath(s, a, b);
    }
    OccupiedUpdate(s, i, t[i]);
    var gap := s[i := s[i].(occupied := false)];
    EraseContents(s, i, gap[i]);
    assert t == gap[i := t[i]];
    WriteContents(gap, i, t[i]);
  }

  // ---------- Lookup ----------

  /** A probe that meets a free slot before the key has shown that the key is absent. */
  lemma MissIsAbsent<K, V>(s: seq<Slot<K, V>>, hash: K -> nat, k: K, i: nat)
    requires |s| > 0 && Sound(s, hash) && Free(s, hash, k, i)
    requires var home := HashToIndex(hash(k), |s|);
      forall j :: 0 <= j < |s| && Dist(home, j, |s|) < Dist(home, i, |s|) ==> s[j].key != k
    ensures k !in Contents(s)
  {
    if k in Contents(s) {
      var j := SlotOf(s, k);
      assert OnPath(s, j, i);
    }
  }

  /** The walk from `k`'s home meets a free slot or `k` after finitely many steps. */
  ghost predicate ProbeStops<K, V>(s: seq<Slot<K, V>>, hash: K -> nat, k: K)
    requires |s| > 0
  {
    exists d: nat :: ProbeStopsAt(s, hash, k, d)
  }

  ghost predicate ProbeStopsAt<K, V>(s: seq<Slot<K, V>>, hash: K -> nat, k: K, d: nat)
    requires |s| > 0
  {
    var i := (HashToIndex(hash(k), |s|) + d) % |s|;
    !s[i].occupied || s[i].key == k
  }

  /** Lookup terminates exactly when the table is not full or the key is present. */
  lemma LookupStopsIff<K, V>(s: seq<Slot<K, V>>, hash: K -> nat, k: K)
    requires |s| > 0 && Sound(s, hash)
    ensures ProbeStops(s, hash, k) <==> Occupied(s) < |s| || k in Contents(s)
  {
    if ProbeStops(s, hash, k) {
      StopsOnlyIf(s, hash, k);
    }
    if k in Contents(s) {
      WalkReaches(s, hash, k, SlotOf(s, k));
    } else if Occupied(s) < |s| {
      if forall i :: 0 <= i < |s| ==> s[i].occupied {
        AllOccupied(s);
      }
      var i :| 0 <= i < |s| && !s[i].occupied;
      WalkReaches(s, hash, k, i);
    }
  }

  /** A full table: one slot, another key.  The walk of a missing key never ends. */
  lemma EndlessLookup<K, V>(hash: K -> nat, k: K, v: V, missing: K)
    requires k != missing
    ensures var s := [Slot(k, v, hash(k), true)]; Sound(s, hash) && !ProbeStops(s, hash, missing)
  {
    var s := [Slot(k, v, hash(k), true)];
    assert forall i :: 0 <= i < |s| ==> s[i].occupied && s[i].key != missing;
  }

  lemma StopsOnlyIf<K, V>(s: seq<Slot<K, V>>, hash: K -> nat, k: K)
    requires |s| > 0 && Sound(s, hash) && ProbeStops(s, hash, k)
    ensures Occupied(s) < |s| || k in Contents(s)
  {
    var d: nat :| ProbeStopsAt(s, hash, k, d);
    var i := (HashToIndex(hash(k), |s|) + d) % |s|;
    if s[i].occupied {
      SlotInContents(s, i);
    } else {
      OccupiedUpdate(s, i, s[i].(occupied := true));
      OccupiedAtMost(s[i := s[i].(occupied := true)]);
    }
  }

  lemma WalkReaches<K, V>(s: seq<Slot<K, V>>, hash: K -> nat, k: K, i: nat)
    requires i < |s| && (!s[i].occupied || s[i].key == k)
    ensures ProbeStops(s, hash, k)
  {
    var h := HashToIndex(hash(k), |s|);
    var d := Dist(h, i, |s|);
    WalkLength(h, i, |s|);
    assert ProbeStopsAt(s, hash, k, d);
  }

  lemma {:induction false} OccupiedAtMost<K, V>(s: seq<Slot<K, V>>)
    ensures Occupied(s) <= |s|
  {
    if s != [] {
      OccupiedAtMost(s[..|s| - 1]);
    }
  }

  /** If every slot is occupied by another key then the table is full and the key absent. */
  lemma LookupBound<K, V>(s: seq<Slot<K, V>>, hash: K -> nat, key: K)
    requires |s| > 0 && Sound(s, hash) && (Occupied(s) < |s| || key in Contents(s))
    ensures exists i :: 0 <= i < |s| && (s[i].occupied ==> s[i].key == key)
  {
    if key in Contents(s) {
      var i := SlotOf(s, key);
    } else if forall i :: 0 <= i < |s| ==> s[i].occupied {
      AllOccupied(s);
    }
  }

  // ---------- Deletion ----------

  /** Emptying a slot removes exactly its entry. */
  lemma EraseContents<K, V>(s: seq<Slot<K, V>>, i: nat, x: Slot<K, V>)
    requires i < |s| && UniqueKeys(s) && s[i].occupied && !x.occupied
    ensures UniqueKeys(s[i := x])
    ensures Contents(s[i := x]) == Contents(s) - {s[i].key}
  {
    var t := s[i := x];
    SlotInContents(s, i);
    forall k | k in Contents(t) ensures k in Contents(s) && k != s[i].key && Contents(t)[k] == Contents(s)[k] {
      var j := SlotOf(t, k);
      assert s[j] == t[j] && j != i;
      SlotInContents(s, j);
    }
    forall k | k in Contents(s) && k != s[i].key ensures k in Contents(t) {
      var j := SlotOf(s, k);
      assert t[j] == s[j];
      SlotInContents(t, j);
    }
  }

  /** Emptying slot `i` of a sound table leaves a table with hole `i`. */
  lemma EraseSound<K, V>(s: seq<Slot<K, V>>, hash: K -> nat, i: nat, x: Slot<K, V>)
    requires i < |s| && Sound(s, hash) && s[i].occupied && !x.occupied
    ensures Holed(s[i := x], hash, i)
    ensures Contents(s[i := x]) == Contents(s) - {s[i].key}
    ensures Occupied(s[i := x]) == Occupied(s) - 1
  {
    EraseContents(s, i, x);
    OccupiedUpdate(s, i, x);
    var t := s[i := x];
    forall a, b | 0 <= a < |t| && 0 <= b < |t| && t[a].occupied && b != i && OnPath(t, a, b) ensures t[b].occupied {
      assert OnPath(s, a, b);
    }
  }

  /** Entry `i` may be pulled back into hole `e`: the hole is on its walk. */
  ghost predicate CanMove<K, V>(s: seq<Slot<K, V>>, e: nat, i: nat)
    requires e < |s| && i < |s|
  {
    i != Home(s, i) && CanMoveToEmpty(Home(s, i), e, i, |s|)
  }

  predicate CanMoveToEmpty(desired: nat, empty: nat, index: nat, n: nat)
    requires desired < n && empty < n && index < n
  {
    Dist(desired, index, n) > Dist(desired, empty, n)
  }

  /** The table after entry `i` has been pulled into hole `e`. */
  function Shift<K, V>(s: seq<Slot<K, V>>, e: nat, i: nat): (t: seq<Slot<K, V>>)
    requires e < |s| && i < |s|
    ensures |t| == |s|
  {
    s[i := s[i].(occupied := false)][e := s[i].(occupied := true)]
  }

  /** A table in which slot `e` is the only break in the walks. */
  ghost predicate Holed<K, V>(s: seq<Slot<K, V>>, hash: K -> nat, e: nat) {
    e < |s| && !s[e].occupied && UniqueKeys(s) && Hashed(s, hash) && ProbeInv(s, e)
  }

  lemma ShiftSound<K, V>(s: seq<Slot<K, V>>, hash: K -> nat, e: nat, i: nat)
    requires Holed(s, hash, e) && i < |s| && s[i].occupied && CanMove(s, e, i)
    ensures Holed(Shift(s, e, i), hash, i)
    ensures Contents(Shift(s, e, i)) == Contents(s) && Occupied(Shift(s, e, i)) == Occupied(s)
  {
    ShiftContents(s, e, i);
    ShiftProbe(s, e, i);
  }

  lemma ShiftContents<K, V>(s: seq<Slot<K, V>>, e: nat, i: nat)
    requires e < |s| && i < |s| && !s[e].occupied && s[i].occupied && UniqueKeys(s)
    ensures UniqueKeys(Shift(s, e, i))
    ensures Contents(Shift(s, e, i)) == Contents(s) && Occupied(Shift(s, e, i)) == Occupied(s)
  {
    ShiftUnique(s, e, i);
    ShiftMap(s, e, i);
    OccupiedUpdate(s, i, s[i].(occupied := false));
    OccupiedUpdate(s[i := s[i].(occupied := false)], e, s[i].(occupied := true));
  }

  lemma ShiftUnique<K, V>(s: seq<Slot<K, V>>, e: nat, i: nat)
    requires e < |s| && i < |s| && !s[e].occupied && s[i].occupied && UniqueKeys(s)
    ensures UniqueKeys(Shift(s, e, i))
  {
    var t := Shift(s, e, i);
    forall a, b | 0 <= a < b < |t| && t[a].occupied && t[b].occupied ensures t[a].key != t[b].key {
      assert s[Origin(e, i, a)].key != s[Origin(e, i, b)].key;
    }
  }

  lemma ShiftMap<K, V>(s: seq<Slot<K, V>>, e: nat, i: nat)
    requires e < |s| && i < |s| && !s[e].occupied && s[i].occupied && UniqueKeys(s) && UniqueKeys(Shift(s, e, i))
    ensures Contents(Shift(s, e, i)) == Contents(s)
  {
    var t := Shift(s, e, i);
    forall k | k in Contents(t) ensures k in Contents(s) && Contents(s)[k] == Contents(t)[k] {
      SlotInContents(s, Origin(e, i, SlotOf(t, k)));
    }
    forall k | k in Contents(s) ensures k in Contents(t) {
      var j := SlotOf(s, k);
      SlotInContents(t, if j == i then e else j);
    }
  }

  /** The slot that an entry came from, after entry `i` was pulled into hole `e`. */
  function Origin(e: nat, i: nat, j: nat): nat {
    if j == e then i else j
  }

  lemma ShiftProbe<K, V>(s: seq<Slot<K, V>>, e: nat, i: nat)
    requires e < |s| && i < |s| && !s[e].occupied && s[i].occupied && CanMove(s, e, i) && ProbeInv(s, e)
    ensures ProbeInv(Shift(s, e, i), i)
  {
    var t := Shift(s, e, i);
    forall a, b | 0 <= a < |t| && 0 <= b < |t| && t[a].occupied && b != i && OnPath(t, a, b) ensures t[b].occupied {
      if a == e {
        assert OnPath(s, i, b);
      } else {
        assert OnPath(s, a, b);
      }
    }
  }

  /** The `d` slots after hole `e` hold no entry whose walk crosses the hole. */
  ghost predicate Scanned<K, V>(s: seq<Slot<K, V>>, e: nat, d: nat)
    requires e < |s|
  {
    forall j {:trigger OnPath(s, j, e)} :: 0 <= j < |s| && s[j].occupied && 0 < Dist(e, j, |s|) <= d ==>
      !OnPath(s, j, e)
  }

  /**
   * When the scan meets a free slot, no walk crosses the hole any more.  The
   * slot met may be the hole itself: then the scan has gone once around a
   * table that was completely full.
   */
  lemma ScanEnds<K, V>(s: seq<Slot<K, V>>, e: nat, d: nat)
    requires e < |s| && !s[e].occupied && 0 < d <= |s| && !s[Plus(e, d, |s|)].occupied
    requires ProbeInv(s, e) && Scanned(s, e, d - 1)
    ensures ProbeInv(s, |s|)
  {
    var stop := Plus(e, d, |s|);
    forall a, b | 0 <= a < |s| && 0 <= b < |s| && s[a].occupied && OnPath(s, a, b) ensures s[b].occupied {
      if b == e {
        assert OnPath(s, a, stop);
      }
    }
  }

  /** The slot just examined joins the scanned range. */
  lemma ScanGrows<K, V>(s: seq<Slot<K, V>>, e: nat, d: nat)
    requires e < |s| && d + 1 < |s| && Scanned(s, e, d)
    requires var i := Plus(e, d + 1, |s|); s[i].occupied && !CanMove(s, e, i)
    ensures Scanned(s, e, d + 1)
  {
    forall j | 0 <= j < |s| && s[j].occupied && 0 < Dist(e, j, |s|) <= d + 1 ensures !OnPath(s, j, e) {
      if Dist(e, j, |s|) == d + 1 {
        assert j == Plus(e, d + 1, |s|);
      }
    }
  }

  // ---------- Termination of the scan ----------

  function Displacement<K, V>(s: seq<Slot<K, V>>, i: nat): nat
    requires i < |s|
  {
    if s[i].occupied then Dist(Home(s, i), i, |s|) else 0
  }

  /** Sum of the distances of the first `m` entries from their homes. */
  function TotalDisplacement<K, V>(s: seq<Slot<K, V>>, m: nat): nat
    requires m <= |s|
  {
    if m == 0 then 0 else TotalDisplacement(s, m - 1) + Displacement(s, m - 1)
  }

  lemma {:induction false} DisplacementUpdate<K, V>(s: seq<Slot<K, V>>, i: nat, x: Slot<K, V>, m: nat)
    requires i < |s| && m <= |s|
    ensures TotalDisplacement(s[i := x], m)
      == TotalDisplacement(s, m) + (if i < m then Displacement(s[i := x], i) - Displacement(s, i) else 0)
  {
    if m > 0 {
      DisplacementUpdate(s, i, x, m - 1);
    }
  }

  /** Every move brings its entry strictly closer to its home. */
  lemma ShiftDecreases<K, V>(s: seq<Slot<K, V>>, e: nat, i: nat)
    requires e < |s| && i < |s| && !s[e].occupied && s[i].occupied && CanMove(s, e, i)
    ensures TotalDisplacement(Shift(s, e, i), |s|) < TotalDisplacement(s, |s|)
  {
    var gap := s[i := s[i].(occupied := false)];
    DisplacementUpdate(s, i, gap[i], |s|);
    DisplacementUpdate(gap, e, s[i].(occupied := true), |s|);
  }
}
