/** Generation of the prefix tables by which the switch looks up logarithms. */
module LogTables {
  import opened Arithmetic

  datatype Result<T> = Ok(value: T) | NegativeRepeat

  /**
   * A table entry: its bit string, the word to match, the number of leading bits
   * that count, and the range of values over which its result is averaged.
   */
  datatype Entry = Entry(bits: string, word: nat, prefix: nat, least: nat, greatest: nat)

  // ---------- Bit strings ----------

  function Digit(c: char): nat {
    if c == '1' then 1 else 0
  }

  /** The number that a bit string writes. */
  function BaseTwo(s: string): nat {
    if s == "" then 0 else 2 * BaseTwo(s[..|s| - 1]) + Digit(s[|s| - 1])
  }

  function Repeat(c: char, n: nat): (s: string)
    ensures |s| == n
  {
    seq(n, _ => c)
  }

  lemma LastDigit(s: string, c: char)
    ensures BaseTwo(s + [c]) == 2 * BaseTwo(s) + Digit(c)
  {
    assert (s + [c])[..|s|] == s;
  }

  lemma Doubled(x: nat, p: nat)
    ensures x * (2 * p) == 2 * (x * p)
  {
  }

  lemma {:induction false} BaseTwoConcat(a: string, b: string)
    ensures BaseTwo(a + b) == BaseTwo(a) * Pow2(|b|) + BaseTwo(b)
    decreases |b|
  {
    if b == "" {
      assert a + b == a;
    } else {
      var front, c := b[..|b| - 1], b[|b| - 1];
      assert b == front + [c] && a + b == (a + front) + [c];
      LastDigit(a + front, c);
      LastDigit(front, c);
      BaseTwoConcat(a, front);
      Doubled(BaseTwo(a), Pow2(|front|));
    }
  }

  lemma {:induction false} BaseTwoZeros(n: nat)
    ensures BaseTwo(Repeat('0', n)) == 0
  {
    if n > 0 {
      assert Repeat('0', n)[..n - 1] == Repeat('0', n - 1);
      BaseTwoZeros(n - 1);
    }
  }

  lemma {:induction false} BaseTwoOnes(n: nat)
    ensures BaseTwo(Repeat('1', n)) == Pow2(n) - 1
  {
    if n > 0 {
      assert Repeat('1', n)[..n - 1] == Repeat('1', n - 1);
      BaseTwoOnes(n - 1);
    }
  }

  predicate Binary(s: string) {
    forall i :: 0 <= i < |s| ==> s[i] == '0' || s[i] == '1'
  }

  function Prepend(c: char, list: seq<string>): (r: seq<string>)
    ensures |r| == |list| && forall i :: 0 <= i < |r| ==> r[i] == [c] + list[i]
  {
    seq(|list|, i requires 0 <= i < |list| => [c] + list[i])
  }

  /** All bit strings of length `k`, the last position changing fastest. */
  function Product(k: nat): (r: seq<string>)
    ensures |r| == Pow2(k) && forall i :: 0 <= i < |r| ==> |r[i]| == k && Binary(r[i])
  {
    if k == 0 then [""] else Prepend('0', Product(k - 1)) + Prepend('1', Product(k - 1))
  }

  lemma OneDigit(c: char)
    ensures BaseTwo([c]) == Digit(c)
  {
    assert [c][..0] == "";
  }

  lemma ProductHalves(k: nat, i: nat)
    requires k > 0 && i < Pow2(k - 1)
    ensures Product(k)[i] == "0" + Product(k - 1)[i]
    ensures Product(k)[Pow2(k - 1) + i] == "1" + Product(k - 1)[i]
  {
  }

  lemma HalvesValues(k: nat, i: nat)
    requires k > 0 && i < Pow2(k - 1)
    ensures BaseTwo(Product(k)[i]) == BaseTwo(Product(k - 1)[i])
    ensures BaseTwo(Product(k)[Pow2(k - 1) + i]) == Pow2(k - 1) + BaseTwo(Product(k - 1)[i])
  {
    ProductHalves(k, i);
    LeadingDigit('0', Product(k - 1)[i]);
    LeadingDigit('1', Product(k - 1)[i]);
  }

  /** The list writes the numbers 0, 1, 2, ... in order. */
  ghost predicate Counts(list: seq<string>) {
    forall i :: 0 <= i < |list| ==> BaseTwo(list[i]) == i
  }

  /** Entry `i` of the half list stands twice in the whole list, the second time with a leading one. */
  ghost predicate StandsTwice(list: seq<string>, half: seq<string>, i: nat)
    requires |list| == 2 * |half| && i < |half|
  {
    BaseTwo(list[i]) == BaseTwo(half[i]) && BaseTwo(list[|half| + i]) == |half| + BaseTwo(half[i])
  }

  lemma CountsOn(list: seq<string>, half: seq<string>)
    requires |list| == 2 * |half| && Counts(half)
    requires forall i :: 0 <= i < |half| ==> StandsTwice(list, half, i)
    ensures Counts(list)
  {
    forall i | 0 <= i < |list| ensures BaseTwo(list[i]) == i {
      assert StandsTwice(list, half, if i < |half| then i else i - |half|);
    }
  }

  lemma {:induction false} ProductCounts(k: nat)
    ensures Counts(Product(k))
  {
    if k > 0 {
      ProductCounts(k - 1);
      var list, half := Product(k), Product(k - 1);
      forall i | 0 <= i < |half| ensures StandsTwice(list, half, i) {
        HalvesValues(k, i);
      }
      CountsOn(list, half);
    }
  }

  lemma LeadingDigit(c: char, s: string)
    ensures BaseTwo([c] + s) == (if c == '1' then Pow2(|s|) else 0) + BaseTwo(s)
  {
    OneDigit(c);
    BaseTwoConcat([c], s);
  }

  // ---------- Entries in numbers ----------

  /** Free bits of the strings with `n` leading zeros. */
  function Free(N: nat, n: nat, m: nat): nat
    requires n < N && m >= 1
  {
    if m - 1 < N - n - 1 then m - 1 else N - n - 1
  }

  /** Bits left out of the match. */
  function Masked(N: nat, n: nat, m: nat): (k: nat)
    requires n < N && m >= 1
    ensures Free(N, n, m) + k == N - n - 1
  {
    if N - n - m > 0 then N - n - m else 0
  }

  /** The entry covers the values from `(2^free + i) * 2^masked` up to the next multiple. */
  ghost predicate Covers(e: Entry, N: nat, n: nat, m: nat, i: nat)
    requires n < N && m >= 1
  {
    var base, width := Pow2(Free(N, n, m)) + i, Pow2(Masked(N, n, m));
    && e.prefix == N - Masked(N, n, m) == |e.bits| && Binary(e.bits) && BaseTwo(e.bits) == base
    && e.word == e.least == base * width
    && e.greatest == base * width + width - 1
  }

  ghost predicate IsGroup(table: seq<Entry>, N: nat, n: nat, m: nat, count: nat)
    requires n < N && m >= 1
  {
    |table| == count && forall i :: 0 <= i < count ==> Covers(table[i], N, n, m, i)
  }

  lemma LeadingZeros(n: nat, s: string)
    ensures BaseTwo(Repeat('0', n) + s) == BaseTwo(s)
  {
    BaseTwoConcat(Repeat('0', n), s);
    BaseTwoZeros(n);
  }

  lemma LeadingOne(n: nat, s: string)
    ensures BaseTwo(Repeat('0', n) + "1" + s) == Pow2(|s|) + BaseTwo(s)
  {
    var t := ['1'] + s;
    assert Repeat('0', n) + "1" + s == Repeat('0', n) + t;
    assert BaseTwo(t) == Pow2(|s|) + BaseTwo(s) by {
      LeadingDigit('1', s);
    }
    LeadingZeros(n, t);
  }

  lemma EntryValue(n: nat, k: nat, i: nat)
    requires i < Pow2(k)
    ensures BaseTwo(Repeat('0', n) + "1" + Product(k)[i]) == Pow2(k) + i
  {
    LeadingOne(n, Product(k)[i]);
    ProductCounts(k);
  }

  lemma PaddedValue(bits: string, mask: nat)
    ensures BaseTwo(bits + Repeat('0', mask)) == BaseTwo(bits) * Pow2(mask)
    ensures BaseTwo(bits + Repeat('1', mask)) == BaseTwo(bits) * Pow2(mask) + Pow2(mask) - 1
  {
    BaseTwoConcat(bits, Repeat('0', mask));
    BaseTwoConcat(bits, Repeat('1', mask));
    BaseTwoZeros(mask);
    BaseTwoOnes(mask);
  }

  function MakeEntry(bits: string, N: nat, mask: nat): Entry
    requires mask <= N
  {
    Entry(bits, BaseTwo(bits) * Pow2(mask), N - mask, BaseTwo(bits + Repeat('0', mask)),
      BaseTwo(bits + Repeat('1', mask)))
  }

  lemma EntryCovers(N: nat, n: nat, m: nat, i: nat)
    requires n < N && m >= 1 && i < Pow2(Free(N, n, m))
    ensures Covers(MakeEntry(Repeat('0', n) + "1" + Product(Free(N, n, m))[i], N, Masked(N, n, m)), N, n, m, i)
  {
    var bits := Repeat('0', n) + "1" + Product(Free(N, n, m))[i];
    EntryValue(n, Free(N, n, m), i);
    PaddedValue(bits, Masked(N, n, m));
  }

  lemma GroupGrows(table: seq<Entry>, e: Entry, N: nat, n: nat, m: nat, i: nat)
    requires n < N && m >= 1 && IsGroup(table, N, n, m, i) && Covers(e, N, n, m, i)
    ensures IsGroup(table + [e], N, n, m, i + 1)
  {
  }

  /** The entries with `n` leading zeros. */
  method Iteration(N: int, n: int, m: int) returns (r: Result<seq<Entry>>)
    requires 0 <= n < N
    ensures r.NegativeRepeat? <==> m < 1
    ensures m >= 1 ==> IsGroup(r.value, N, n, m, Pow2(Free(N, n, m)))
  {
    var repeat := if m - 1 < N - n - 1 then m - 1 else N - n - 1;
    if repeat < 0 {
      return NegativeRepeat;
    }
    var permutations := Product(repeat);
    var table: seq<Entry> := [];
    for i := 0 to |permutations|
      invariant IsGroup(table, N, n, m, i)
    {
      var bits := Repeat('0', n) + "1" + permutations[i];
      var mask := if N - n - m > 0 then N - n - m else 0;
      var e := MakeEntry(bits, N, mask);
      EntryCovers(N, n, m, i);
      GroupGrows(table, e, N, n, m, i);
      table := table + [e];
    }
    r := Ok(table);
  }

  // ---------- Which values an entry matches ----------

  /** The switch compares the leading `prefix` bits of an N-bit value. */
  predicate Matches(e: Entry, N: nat, v: nat) {
    e.prefix <= N && v / Pow2(N - e.prefix) == e.word / Pow2(N - e.prefix)
  }

  lemma QuotientIs(v: nat, b: nat, w: nat)
    requires w > 0
    ensures v / w == b <==> b * w <= v < (b + 1) * w
  {
    var q := v / w;
    assert q * w <= v < q * w + w;
    if q < b {
      assert (q + 1) * w <= b * w;
    } else if q > b {
      assert (b + 1) * w <= q * w;
    }
  }

  /** An entry matches the range it averages over, and nothing else. */
  lemma MatchesRange(e: Entry, N: nat, n: nat, m: nat, i: nat, v: nat)
    requires n < N && m >= 1 && Covers(e, N, n, m, i)
    ensures Matches(e, N, v) <==> e.least <= v <= e.greatest
  {
    var base, width := Pow2(Free(N, n, m)) + i, Pow2(Masked(N, n, m));
    QuotientIs(v, base, width);
    QuotientIs(e.word, base, width);
    assert (base + 1) * width == base * width + width;
  }

  lemma WithinWidth(d: nat, width: nat, k: nat, i: nat)
    requires d < width
    ensures d * k <= width * k && (k > 0 ==> d * k < width * k) && k * width <= (k + i) * width
  {
  }

  /** Every value is close to the least value of its entry. */
  lemma EntryError(e: Entry, N: nat, n: nat, m: nat, i: nat, v: nat)
    requires n < N && m >= 1 && Covers(e, N, n, m, i) && Matches(e, N, v)
    ensures e.least <= v && (v - e.least) * Pow2(m - 1) < e.least
  {
    MatchesRange(e, N, n, m, i, v);
    var k, width := Free(N, n, m), Pow2(Masked(N, n, m));
    WithinWidth(v - e.least, width, Pow2(k), i);
    if k < m - 1 {
      assert width == 1 && v - e.least == 0;
    }
  }

  /** How many entries of a table match a value. */
  function Hits(table: seq<Entry>, N: nat, v: nat): nat {
    if table == [] then 0
    else Hits(table[..|table| - 1], N, v) + if Matches(table[|table| - 1], N, v) then 1 else 0
  }

  lemma {:induction false} HitsConcat(a: seq<Entry>, b: seq<Entry>, N: nat, v: nat)
    ensures Hits(a + b, N, v) == Hits(a, N, v) + Hits(b, N, v)
    decreases |b|
  {
    if b == [] {
      assert a + b == a;
    } else {
      assert (a + b)[..|a + b| - 1] == a + b[..|b| - 1];
      HitsConcat(a, b[..|b| - 1], N, v);
    }
  }

  /** The entries of a group follow each other without a gap. */
  lemma GroupRange(e: Entry, N: nat, n: nat, m: nat, i: nat)
    requires n < N && m >= 1 && Covers(e, N, n, m, i)
    ensures e.least == Pow2(N - n - 1) + i * Pow2(Masked(N, n, m))
    ensures e.greatest + 1 == Pow2(N - n - 1) + (i + 1) * Pow2(Masked(N, n, m))
    ensures e.least <= e.greatest
  {
    Pow2Add(Free(N, n, m), Masked(N, n, m));
  }

  /** The first `count` entries of a group partition a range of values. */
  lemma {:induction false} GroupHits(table: seq<Entry>, N: nat, n: nat, m: nat, count: nat, v: nat)
    requires n < N && m >= 1 && IsGroup(table, N, n, m, count)
    ensures Hits(table, N, v) == if Pow2(N - n - 1) <= v < Pow2(N - n - 1) + count * Pow2(Masked(N, n, m)) then 1 else 0
    decreases count
  {
    if count > 0 {
      var last := table[count - 1];
      GroupHits(table[..count - 1], N, n, m, count - 1, v);
      MatchesRange(last, N, n, m, count - 1, v);
      GroupRange(last, N, n, m, count - 1);
    }
  }

  lemma WholeGroupHits(table: seq<Entry>, N: nat, n: nat, m: nat, v: nat)
    requires n < N && m >= 1 && IsGroup(table, N, n, m, Pow2(Free(N, n, m)))
    ensures Hits(table, N, v) == if Pow2(N - n - 1) <= v < Pow2(N - n) then 1 else 0
  {
    GroupHits(table, N, n, m, Pow2(Free(N, n, m)), v);
    Pow2Add(Free(N, n, m), Masked(N, n, m));
  }

  // ---------- The whole table ----------

  /** The number of entries with fewer than `n` leading zeros. */
  function Entries(N: nat, n: nat, m: nat): nat
    requires n <= N && m >= 1
  {
    if n == 0 then 0 else Entries(N, n - 1, m) + Pow2(Free(N, n - 1, m))
  }

  /** The table after the groups with fewer than `n` leading zeros. */
  ghost predicate Partitions(table: seq<Entry>, N: nat, n: nat)
    requires n <= N
  {
    forall v: nat :: Hits(table, N, v) == if Pow2(N - n) <= v < Pow2(N) then 1 else 0
  }

  ghost predicate Accurate(table: seq<Entry>, N: nat, m: nat)
    requires m >= 1
  {
    forall i, v: nat :: 0 <= i < |table| && Matches(table[i], N, v) ==>
      && table[i].least <= v <= table[i].greatest
      && (v - table[i].least) * Pow2(m - 1) < table[i].least
  }

  lemma Extend(table: seq<Entry>, group: seq<Entry>, N: nat, n: nat, m: nat)
    requires n < N && m >= 1 && Partitions(table, N, n) && IsGroup(group, N, n, m, Pow2(Free(N, n, m)))
    ensures Partitions(table + group, N, n + 1)
  {
    forall v: nat ensures Hits(table + group, N, v) == if Pow2(N - n - 1) <= v < Pow2(N) then 1 else 0 {
      HitsConcat(table, group, N, v);
      WholeGroupHits(group, N, n, m, v);
      Pow2Monotone(N - n, N);
    }
  }

  lemma GroupAccurate(group: seq<Entry>, N: nat, n: nat, m: nat, count: nat)
    requires n < N && m >= 1 && IsGroup(group, N, n, m, count)
    ensures Accurate(group, N, m)
  {
    forall i, v: nat | 0 <= i < |group| && Matches(group[i], N, v)
      ensures group[i].least <= v <= group[i].greatest && (v - group[i].least) * Pow2(m - 1) < group[i].least
    {
      MatchesRange(group[i], N, n, m, i, v);
      EntryError(group[i], N, n, m, i, v);
    }
  }

  /** The generated table. */
  method ComputeSquareTable(N: int, m: int) returns (r: Result<seq<Entry>>)
    ensures r.NegativeRepeat? <==> N >= 1 && m < 1
    ensures N <= 0 ==> r == Ok([])
    ensures N >= 1 && m >= 1 ==>
      && |r.value| == (if m <= N then (N - m + 2) * Pow2(m - 1) - 1 else Pow2(N) - 1)
      && Partitions(r.value, N, N)
      && Accurate(r.value, N, m)
  {
    var table: seq<Entry> := [];
    var n := 0;
    while n < N
      invariant 0 <= n && (N >= 0 ==> n <= N) && (N < 0 ==> n == 0)
      invariant n > 0 ==> m >= 1
      invariant n == 0 ==> table == []
      invariant N >= 1 && m >= 1 ==> |table| == Entries(N, n, m) && Partitions(table, N, n) && Accurate(table, N, m)
      decreases N - n
    {
      var group := Iteration(N, n, m);
      if group.NegativeRepeat? {
        return NegativeRepeat;
      }
      Extend(table, group.value, N, n, m);
      GroupAccurate(group.value, N, n, m, Pow2(Free(N, n, m)));
      table := table + group.value;
      n := n + 1;
    }
    if N >= 1 {
      TableSize(N, m);
    }
    r := Ok(table);
  }

  /** What partitioning means: each nonzero value meets exactly one entry, zero meets none. */
  lemma EachValueOnce(table: seq<Entry>, N: nat, v: nat)
    requires Partitions(table, N, N) && v < Pow2(N)
    ensures v == 0 ==> forall i :: 0 <= i < |table| ==> !Matches(table[i], N, v)
    ensures v > 0 ==> exists i :: 0 <= i < |table| && Matches(table[i], N, v) && OnlyHit(table, N, v, i)
  {
    if v == 0 {
      NoHit(table, N, v);
    } else {
      var i := OneHit(table, N, v);
    }
  }

  lemma {:induction false} NoHit(table: seq<Entry>, N: nat, v: nat)
    requires Hits(table, N, v) == 0
    ensures forall i :: 0 <= i < |table| ==> !Matches(table[i], N, v)
  {
    if table != [] {
      NoHit(table[..|table| - 1], N, v);
    }
  }

  /** No entry but entry `i` matches. */
  ghost predicate OnlyHit(table: seq<Entry>, N: nat, v: nat, i: nat) {
    forall j :: 0 <= j < |table| && Matches(table[j], N, v) ==> j == i
  }

  lemma {:induction false} OneHit(table: seq<Entry>, N: nat, v: nat) returns (i: nat)
    requires Hits(table, N, v) == 1
    ensures i < |table| && Matches(table[i], N, v) && OnlyHit(table, N, v, i)
  {
    var front := table[..|table| - 1];
    if Matches(table[|table| - 1], N, v) {
      NoHit(front, N, v);
      i := |table| - 1;
    } else {
      i := OneHit(front, N, v);
    }
  }

  /** The size of the table, for every accuracy. */
  lemma TableSize(N: nat, m: nat)
    requires m >= 1
    ensures m <= N ==> Entries(N, N, m) == (N - m + 2) * Pow2(m - 1) - 1
    ensures m >= N ==> Entries(N, N, m) == Pow2(N) - 1
  {
    if m <= N {
      WideGroups(N, N - m + 1, m);
      NarrowGroups(N, N - m + 1, N, m);
      assert (N - m + 1) * Pow2(m - 1) + Pow2(m - 1) == (N - m + 2) * Pow2(m - 1);
    } else {
      NarrowGroups(N, 0, N, m);
    }
    if m == N {
      assert 2 * Pow2(m - 1) == Pow2(N);
    }
  }

  lemma {:induction false} WideGroups(N: nat, n: nat, m: nat)
    requires 1 <= m <= N && n <= N - m + 1
    ensures Entries(N, n, m) == n * Pow2(m - 1)
  {
    if n > 0 {
      WideGroups(N, n - 1, m);
      assert n * Pow2(m - 1) == (n - 1) * Pow2(m - 1) + Pow2(m - 1);
    }
  }

  lemma {:induction false} NarrowGroups(N: nat, from: nat, n: nat, m: nat)
    requires m >= 1 && from <= n <= N && N - from <= m
    requires from < N ==> N - from - 1 <= m - 1
    ensures Entries(N, n, m) + Pow2(N - n) == Entries(N, from, m) + Pow2(N - from)
  {
    if n > from {
      NarrowGroups(N, from, n - 1, m);
      assert Free(N, n - 1, m) == N - n;
    }
  }
}
