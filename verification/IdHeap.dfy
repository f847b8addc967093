/**
 * The binary min-heap of free ids.  The array has a fixed capacity; the heap
 * occupies its first `curSize` cells.
 */
module IdHeaps {

  /** `size_t` arithmetic: 64 bits, so that 0 - 1 wraps to the largest value. */
  const SIZE_MAX: nat := 0xFFFF_FFFF_FFFF_FFFF

  function Decrement(i: nat): nat {
    if i == 0 then SIZE_MAX else i - 1
  }

  function Parent(i: nat): nat
    requires i > 0
  {
    (i - 1) / 2
  }

  /** Every node whose parent is at `a` or later is at least its parent; `hole` is exempt as a parent. */
  ghost predicate OrderedFrom(s: seq<int>, a: nat, hole: int) {
    forall i {:trigger Parent(i)} :: 0 < i < |s| && Parent(i) >= a && Parent(i) != hole ==> s[Parent(i)] <= s[i]
  }

  ghost predicate Ordered(s: seq<int>) {
    OrderedFrom(s, 0, -1)
  }

  function Swap(s: seq<int>, i: nat, j: nat): (t: seq<int>)
    requires i < |s| && j < |s|
    ensures |t| == |s|
    ensures multiset(t) == multiset(s)
  {
    s[i := s[j]][j := s[i]]
  }

  /** The root of an ordered heap is a least element. */
  lemma {:induction false} RootIsLeast(s: seq<int>, i: nat)
    requires Ordered(s) && i < |s|
    ensures s[0] <= s[i]
  {
    if i > 0 {
      RootIsLeast(s, Parent(i));
    }
  }

  ghost predicate IsLeast(x: int, m: multiset<int>) {
    x in m && forall y :: y in m ==> x <= y
  }

  lemma NonEmpty(m: multiset<int>)
    ensures m == multiset{} || exists y :: y in m
  {
    if !exists y :: y in m {
      assert m == multiset{};
    }
  }

  lemma {:induction false} LeastExists(m: multiset<int>)
    requires m != multiset{}
    ensures exists x :: IsLeast(x, m)
    decreases |m|
  {
    NonEmpty(m);
    var y :| y in m;
    var rest := m - multiset{y};
    assert forall x :: x in m ==> x == y || x in rest;
    if rest == multiset{} {
      assert IsLeast(y, m);
    } else {
      LeastExists(rest);
      var z :| IsLeast(z, rest);
      assert IsLeast(if y < z then y else z, m);
    }
  }

  ghost function Least(m: multiset<int>): (x: int)
    requires m != multiset{}
    ensures IsLeast(x, m)
  {
    LeastExists(m);
    var x :| IsLeast(x, m);
    x
  }

  lemma LeastUnique(x: int, m: multiset<int>)
    requires IsLeast(x, m)
    ensures m != multiset{} && x == Least(m)
  {
  }

  lemma RootIsLeastId(s: seq<int>)
    requires Ordered(s) && s != []
    ensures multiset(s) != multiset{} && s[0] == Least(multiset(s))
  {
    assert s[0] in multiset(s);
    forall y | y in multiset(s) ensures s[0] <= y {
      var i :| 0 <= i < |s| && s[i] == y;
      RootIsLeast(s, i);
    }
    LeastUnique(s[0], multiset(s));
  }

  /** Ordered except that the node at `index` may be smaller than its parent. */
  ghost predicate OrderedBut(s: seq<int>, index: nat) {
    && (forall i {:trigger Parent(i)} :: 0 < i < |s| && i != index ==> s[Parent(i)] <= s[i])
    && (0 < index < |s| ==> forall c {:trigger Parent(c)} :: 0 < c < |s| && Parent(c) == index ==>
          s[Parent(index)] <= s[c])
  }

  class HeapQueue {
    const data: array<int>
    var curSize: nat

    ghost predicate Bounded()
      reads this
    {
      curSize <= data.Length <= SIZE_MAX
    }

    ghost predicate Valid()
      reads this, data
    {
      Bounded() && Ordered(data[..curSize])
    }

    /** The ids held. */
    ghost function Ids(): multiset<int>
      requires Bounded()
      reads this, data
    {
      multiset(data[..curSize])
    }

    constructor (capacity: nat)
      requires capacity <= SIZE_MAX
      ensures Valid() && curSize == 0 && data.Length == capacity && fresh(data)
    {
      data := new int[capacity](_ => 0);
      curSize := 0;
    }

    method SwapCells(i: nat, j: nat)
      requires Bounded() && i < curSize && j < curSize
      modifies data
      ensures data[..curSize] == Swap(old(data[..curSize]), i, j)
    {
      data[i], data[j] := data[j], data[i];
    }

    /** Sifts the node at `a` down until the subtree below it is ordered. */
    method Heapify(a: nat)
      requires Bounded() && OrderedFrom(data[..curSize], a + 1, -1)
      modifies data
      ensures OrderedFrom(data[..curSize], a, -1) && Ids() == old(Ids())
    {
      var i := a;
      ghost var s := data[..curSize];
      while true
        invariant a <= i && s == data[..curSize] && multiset(s) == old(Ids())
        invariant OrderedFrom(s, a, i)
        invariant i < |s| && i > a ==> Parent(i) >= a
        invariant i > a ==> forall c {:trigger Parent(c)} :: 0 < c < |s| && Parent(c) == i ==> s[Parent(i)] <= s[c]
        decreases curSize - i
      {
        var min := i;
        if 2 * i + 1 < curSize && data[2 * i + 1] < data[min] {
          min := 2 * i + 1;
        }
        if 2 * i + 2 < curSize && data[2 * i + 2] < data[min] {
          min := 2 * i + 2;
        }
        if min == i {
          SettledAt(s, a, i);
          break;
        }
        assert Parent(min) == i && s[min] == data[min];
        SiftDownStep(s, a, i, min);
        SwapCells(i, min);
        s := Swap(s, i, min);
        i := min;
      }
    }

    /** Orders whatever the first `size` cells hold.  The downward loop ends by unsigned wrap-around. */
    method Build(size: nat)
      requires size <= data.Length <= SIZE_MAX
      modifies this, data
      ensures Valid() && curSize == size && Ids() == multiset(old(data[..size]))
    {
      curSize := size;
      if size < 2 {
        return;
      }
      var i: nat := curSize / 2 - 1;
      assert OrderedFrom(data[..curSize], i + 1, -1);
      while i < curSize
        invariant curSize == size && Ids() == multiset(old(data[..size]))
        invariant i == SIZE_MAX ==> Ordered(data[..curSize])
        invariant i != SIZE_MAX ==> i < curSize / 2 && OrderedFrom(data[..curSize], i + 1, -1)
        decreases if i == SIZE_MAX then 0 else i + 1
      {
        Heapify(i);
        i := Decrement(i);
      }
    }

    /** Lowers the key at `index0` and sifts it up; a larger key is ignored. */
    method Decrease(index0: nat, key: int)
      requires Bounded() && index0 < curSize
      requires OrderedBut(data[..curSize], index0)
      modifies data
      ensures old(data[index0]) < key ==> data[..curSize] == old(data[..curSize])
      ensures old(data[index0]) >= key ==>
        Ordered(data[..curSize]) && Ids() == multiset(old(data[..curSize])[index0 := key])
    {
      if data[index0] < key {
        return;
      }
      data[index0] := key;
      assert data[..curSize] == old(data[..curSize])[index0 := key];
      SiftUp(index0);
    }

    /** Moves the node at `index0` up until its parent is not larger. */
    method SiftUp(index0: nat)
      requires Bounded() && index0 < curSize && OrderedBut(data[..curSize], index0)
      modifies data
      ensures Ordered(data[..curSize]) && Ids() == old(Ids())
    {
      var index: nat := index0;
      ghost var s := data[..curSize];
      while index > 0 && data[index] < data[Parent(index)]
        invariant index < curSize && s == data[..curSize] && OrderedBut(s, index)
        invariant multiset(s) == old(Ids())
      {
        var parent := Parent(index);
        assert s[index] == data[index] && s[parent] == data[parent];
        SiftUpStep(s, index);
        SwapCells(index, parent);
        s := Swap(s, index, parent);
        index := parent;
      }
    }

    method Push(item: int)
      requires Valid() && curSize < data.Length
      modifies this, data
      ensures Valid() && curSize == old(curSize) + 1 && Ids() == old(Ids()) + multiset{item}
    {
      ghost var s := data[..curSize];
      var i := curSize;
      curSize := curSize + 1;
      data[i] := item;
      assert data[..curSize] == s + [item];
      assert data[..curSize][i := item] == s + [item];
      assert OrderedBut(s + [item], i);
      Decrease(i, item);
    }

    /** Takes out a least id; 0 says that none is left. */
    method Pop() returns (result: int)
      requires Valid()
      modifies this, data
      ensures Valid()
      ensures old(Ids()) == multiset{} ==> result == 0 && Ids() == old(Ids())
      ensures old(Ids()) != multiset{} ==> result == Least(old(Ids())) && Ids() == old(Ids()) - multiset{result}
    {
      ghost var s := data[..curSize];
      if curSize == 0 {
        assert s == [];
        return 0;
      }
      result := data[0];
      RootIsLeastId(s);
      curSize := curSize - 1;
      var last := curSize;
      if last == 0 {
        assert s == [result];
        return result;
      }
      SwapRoot(last, s);
      Heapify(0);
    }

    /** Exchanges the root with the last node, which has just left the heap. */
    method SwapRoot(last: nat, ghost s: seq<int>)
      requires Bounded() && 0 < last == curSize < data.Length && s == data[..last + 1] && Ordered(s)
      modifies data
      ensures OrderedFrom(data[..curSize], 1, -1) && Ids() == multiset(s) - multiset{s[0]}
    {
      data[0], data[last] := data[last], data[0];
      LastToRoot(s, data[..last]);
    }
  }

  lemma SettledAt(s: seq<int>, a: nat, i: nat)
    requires OrderedFrom(s, a, i)
    requires 2 * i + 1 < |s| ==> s[i] <= s[2 * i + 1]
    requires 2 * i + 2 < |s| ==> s[i] <= s[2 * i + 2]
    ensures OrderedFrom(s, a, -1)
  {
    forall c | 0 < c < |s| && Parent(c) >= a ensures s[Parent(c)] <= s[c] {
      if Parent(c) == i {
        assert c == 2 * i + 1 || c == 2 * i + 2;
      }
    }
  }

  lemma SiftDownStep(s: seq<int>, a: nat, i: nat, min: nat)
    requires a <= i < min < |s| && (min == 2 * i + 1 || min == 2 * i + 2) && s[min] < s[i]
    requires 2 * i + 1 < |s| ==> s[min] <= s[2 * i + 1]
    requires 2 * i + 2 < |s| ==> s[min] <= s[2 * i + 2]
    requires OrderedFrom(s, a, i)
    requires i > a ==> Parent(i) >= a && s[Parent(i)] <= s[min]
    ensures var t := Swap(s, i, min);
      OrderedFrom(t, a, min) && forall c {:trigger Parent(c)} :: 0 < c < |t| && Parent(c) == min ==>
        t[Parent(min)] <= t[c]
  {
    var t := Swap(s, i, min);
    forall c | 0 < c < |t| && Parent(c) >= a && Parent(c) != min ensures t[Parent(c)] <= t[c] {
      if Parent(c) == i {
        assert c == 2 * i + 1 || c == 2 * i + 2;
      }
    }
    forall c | 0 < c < |t| && Parent(c) == min ensures t[Parent(min)] <= t[c] {
      assert s[Parent(c)] <= s[c];
    }
  }

  lemma SiftUpStep(s: seq<int>, index: nat)
    requires 0 < index < |s| && s[index] < s[Parent(index)] && OrderedBut(s, index)
    ensures OrderedBut(Swap(s, index, Parent(index)), Parent(index))
  {
    var p := Parent(index);
    var t := Swap(s, index, p);
    forall i | 0 < i < |t| && i != p ensures t[Parent(i)] <= t[i] {
      if i != index {
        assert s[Parent(i)] <= s[i];
      }
    }
    if p > 0 {
      forall c | 0 < c < |t| && Parent(c) == p ensures t[Parent(p)] <= t[c] {
        assert s[Parent(p)] <= s[p];
        if c != index {
          assert s[Parent(c)] <= s[c];
        }
      }
    }
  }

  /** What is left once the last node has replaced the root. */
  lemma LastToRoot(s: seq<int>, t: seq<int>)
    requires Ordered(s) && |s| > 1 && |t| == |s| - 1 && t[0] == s[|s| - 1]
    requires forall i :: 0 < i < |t| ==> t[i] == s[i]
    ensures OrderedFrom(t, 1, -1) && multiset(t) == multiset(s) - multiset{s[0]}
  {
    assert t + [s[0]] == Swap(s, 0, |s| - 1);
    assert multiset(t + [s[0]]) == multiset(t) + multiset{s[0]};
    forall i | 0 < i < |t| && Parent(i) >= 1 ensures t[Parent(i)] <= t[i] {
      assert t[i] == s[i] && t[Parent(i)] == s[Parent(i)];
    }
  }
}
