/**
 * The checksum functions: each loop over a lookup table computes what a shift
 * register fed bit by bit computes, which is a remainder of polynomial division.
 */
module Checksums {
  import opened ShiftRegisters
  import opened LookupTables
  import opened CrcWords
  import opened CrcTables
  import opened Polynomials
  import opened CrcDivision

  const ONES: bv32 := 0xFFFFFFFF

  // ---------- Bit-serial definitions ----------

  /** Reflected checksum: bytes low bit first, register inverted before and after. */
  function SerialReflected(p: bv32, data: seq<bv8>, crc: bv32): bv32 {
    Xor(Feed(FeedRight(p), Xor(crc, ONES), LsbFirst(data)), ONES)
  }

  /** Plain checksum: bytes high bit first. */
  function SerialPlain(p: bv32, data: seq<bv8>, crc: bv32): bv32 {
    Feed(FeedLeft(p), crc, MsbFirst(data))
  }

  /** The bytes that a call with a length argument reads. */
  function Taken(data: seq<bv8>, len: int): seq<bv8>
    requires len <= |data|
  {
    if len <= 0 then [] else data[..len]
  }

  // ---------- One byte ----------

  function NextRight(t: Sixteen<Sixteen<bv32>>, b: bv8, crc: bv32): bv32 {
    Xor(Lookup(t, Byte(Xor(b as bv32, crc))), Down8(crc))
  }

  function NextLeft(t: Sixteen<Sixteen<bv32>>, b: bv8, crc: bv32): bv32 {
    Xor(Lookup(t, Byte(Xor(b as bv32, FromTop(crc)))), Up8(crc))
  }

  lemma ByteIsByte(b: bv8)
    ensures Byte(b as bv32) == b as bv32
  {
  }

  lemma ByteTwice(x: bv32)
    ensures Byte(Byte(x)) == Byte(x)
  {
  }

  lemma TopBytes(b: bv32, crc: bv32)
    requires Byte(b) == b
    ensures Byte(Xor(b, FromTop(crc))) == Xor(b, FromTop(crc))
  {
  }

  /** Every entry of the table is its index after eight steps of the register. */
  ghost predicate RightTable(t: Sixteen<Sixteen<bv32>>, p: bv32) {
    forall x {:trigger Lookup(t, x)} :: Byte(x) == x ==> Lookup(t, x) == Steps(Right(p), x, 8)
  }

  ghost predicate LeftTable(t: Sixteen<Sixteen<bv32>>, p: bv32) {
    forall x {:trigger Lookup(t, x)} :: Byte(x) == x ==> Lookup(t, x) == Steps(Left(p), ToTop(x), 8)
  }

  lemma AllEntriesRight(t: Sixteen<Sixteen<bv32>>, p: bv32)
    requires TableRight(t, p)
    ensures RightTable(t, p)
  {
    forall x | Byte(x) == x ensures Lookup(t, x) == Steps(Right(p), x, 8) {
      EntryRight(t, p, x);
    }
  }

  lemma AllEntriesLeft(t: Sixteen<Sixteen<bv32>>, p: bv32)
    requires TableLeft(t, p)
    ensures LeftTable(t, p)
  {
    forall x | Byte(x) == x ensures Lookup(t, x) == Steps(Left(p), ToTop(x), 8) {
      EntryLeft(t, p, x);
    }
  }

  /** The four tables of the program. */
  lemma TablesAreRight()
    ensures RightTable(NORMAL, 0xEDB88320)
    ensures RightTable(CASTAGNOLI, 0x82F63B78)
    ensures RightTable(D, 0xD419CC15)
    ensures LeftTable(Q, 0x814141AB)
  {
    NormalIsRight();
    AllEntriesRight(NORMAL, 0xEDB88320);
    CastagnoliIsRight();
    AllEntriesRight(CASTAGNOLI, 0x82F63B78);
    DIsRight();
    AllEntriesRight(D, 0xD419CC15);
    QIsLeft();
    AllEntriesLeft(Q, 0x814141AB);
  }

  lemma NextRightFeeds(t: Sixteen<Sixteen<bv32>>, p: bv32, b: bv8, crc: bv32)
    requires RightTable(t, p)
    ensures NextRight(t, b, crc) == Feed(FeedRight(p), crc, LsbBits(b))
  {
    var x := b as bv32;
    ByteIsByte(b);
    ByteTwice(Xor(x, crc));
    var e := Lookup(t, Byte(Xor(x, crc)));
    ByteRight(p, crc, x);
  }

  lemma NextLeftFeeds(t: Sixteen<Sixteen<bv32>>, p: bv32, b: bv8, crc: bv32)
    requires LeftTable(t, p)
    ensures NextLeft(t, b, crc) == Feed(FeedLeft(p), crc, MsbBits(b))
  {
    var x := b as bv32;
    ByteIsByte(b);
    TopBytes(x, crc);
    var e := Lookup(t, Xor(x, FromTop(crc)));
    ByteLeft(p, crc, x);
  }

  // ---------- The loops ----------

  lemma {:induction false} LsbSnoc(p: bv32, data: seq<bv8>, i: nat, crc: bv32)
    requires i < |data|
    ensures Feed(FeedRight(p), crc, LsbFirst(data[..i + 1])) ==
      Feed(FeedRight(p), Feed(FeedRight(p), crc, LsbFirst(data[..i])), LsbBits(data[i]))
  {
    assert data[..i + 1] == data[..i] + [data[i]];
    LsbFirstConcat(data[..i], [data[i]]);
    assert LsbFirst([data[i]]) == LsbBits(data[i]) + LsbFirst([]) == LsbBits(data[i]);
    FeedConcat(FeedRight(p), crc, LsbFirst(data[..i]), LsbBits(data[i]));
  }

  lemma {:induction false} MsbSnoc(p: bv32, data: seq<bv8>, i: nat, crc: bv32)
    requires i < |data|
    ensures Feed(FeedLeft(p), crc, MsbFirst(data[..i + 1])) ==
      Feed(FeedLeft(p), Feed(FeedLeft(p), crc, MsbFirst(data[..i])), MsbBits(data[i]))
  {
    assert data[..i + 1] == data[..i] + [data[i]];
    MsbFirstConcat(data[..i], [data[i]]);
    assert MsbFirst([data[i]]) == MsbBits(data[i]) + MsbFirst([]) == MsbBits(data[i]);
    FeedConcat(FeedLeft(p), crc, MsbFirst(data[..i]), MsbBits(data[i]));
  }

  lemma RightByte(t: Sixteen<Sixteen<bv32>>, p: bv32, data: seq<bv8>, i: nat, start: bv32, crc: bv32)
    requires RightTable(t, p) && i < |data| && crc == Feed(FeedRight(p), start, LsbFirst(data[..i]))
    ensures NextRight(t, data[i], crc) == Feed(FeedRight(p), start, LsbFirst(data[..i + 1]))
  {
    NextRightFeeds(t, p, data[i], crc);
    LsbSnoc(p, data, i, start);
  }

  lemma LeftByte(t: Sixteen<Sixteen<bv32>>, p: bv32, data: seq<bv8>, i: nat, start: bv32, crc: bv32)
    requires LeftTable(t, p) && i < |data| && crc == Feed(FeedLeft(p), start, MsbFirst(data[..i]))
    ensures NextLeft(t, data[i], crc) == Feed(FeedLeft(p), start, MsbFirst(data[..i + 1]))
  {
    NextLeftFeeds(t, p, data[i], crc);
    MsbSnoc(p, data, i, start);
  }

  /** The loop shared by the three reflected functions, over the table of the generator `p`. */
  method ReflectedLoop(t: Sixteen<Sixteen<bv32>>, ghost p: bv32, data: seq<bv8>, len: int, start: bv32)
      returns (crc: bv32)
    requires len <= |data| && RightTable(t, p)
    ensures crc == SerialReflected(p, Taken(data, len), start)
  {
    crc := Xor(start, ONES);
    ghost var first := crc;
    var i, left := 0, len;
    while left > 0
      invariant 0 <= i && (len > 0 ==> 0 <= left && i + left == len) && (len <= 0 ==> i == 0 && left == len)
      invariant i <= |data| && crc == Feed(FeedRight(p), first, LsbFirst(data[..i]))
      decreases left
    {
      RightByte(t, p, data, i, first, crc);
      crc := NextRight(t, data[i], crc);
      i := i + 1;
      left := left - 1;
    }
    assert data[..i] == Taken(data, len);
    crc := Xor(crc, ONES);
  }

  method PlainLoop(t: Sixteen<Sixteen<bv32>>, ghost p: bv32, data: seq<bv8>, len: int, start: bv32) returns (crc: bv32)
    requires len <= |data| && LeftTable(t, p)
    ensures crc == SerialPlain(p, Taken(data, len), start)
  {
    crc := start;
    var i, left := 0, len;
    while left > 0
      invariant 0 <= i && (len > 0 ==> 0 <= left && i + left == len) && (len <= 0 ==> i == 0 && left == len)
      invariant i <= |data| && crc == Feed(FeedLeft(p), start, MsbFirst(data[..i]))
      decreases left
    {
      LeftByte(t, p, data, i, start, crc);
      crc := NextLeft(t, data[i], crc);
      i := i + 1;
      left := left - 1;
    }
    assert data[..i] == Taken(data, len);
  }

  method Crc32Normal(data: seq<bv8>, len: int, start: bv32) returns (crc: bv32)
    requires len <= |data|
    ensures crc == SerialReflected(0xEDB88320, Taken(data, len), start)
    ensures DividedMirror(0x04C11DB7, Taken(data, len), start, crc)
  {
    TablesAreRight();
    Generators();
    crc := ReflectedLoop(NORMAL, 0xEDB88320, data, len, start);
    ReflectedDivides(0x04C11DB7, 0xEDB88320, Taken(data, len), start);
  }

  method Crc32C(data: seq<bv8>, len: int, start: bv32) returns (crc: bv32)
    requires len <= |data|
    ensures crc == SerialReflected(0x82F63B78, Taken(data, len), start)
    ensures DividedMirror(0x1EDC6F41, Taken(data, len), start, crc)
  {
    TablesAreRight();
    Generators();
    crc := ReflectedLoop(CASTAGNOLI, 0x82F63B78, data, len, start);
    ReflectedDivides(0x1EDC6F41, 0x82F63B78, Taken(data, len), start);
  }

  method Crc32D(data: seq<bv8>, len: int, start: bv32) returns (crc: bv32)
    requires len <= |data|
    ensures crc == SerialReflected(0xD419CC15, Taken(data, len), start)
    ensures DividedMirror(0xA833982B, Taken(data, len), start, crc)
  {
    TablesAreRight();
    Generators();
    crc := ReflectedLoop(D, 0xD419CC15, data, len, start);
    ReflectedDivides(0xA833982B, 0xD419CC15, Taken(data, len), start);
  }

  method Crc32Q(data: seq<bv8>, len: int, start: bv32) returns (crc: bv32)
    requires len <= |data|
    ensures crc == SerialPlain(0x814141AB, Taken(data, len), start)
    ensures crc == Division(0x814141AB, start, MsbFirst(Taken(data, len)))
  {
    TablesAreRight();
    crc := PlainLoop(Q, 0x814141AB, data, len, start);
    PlainDivides(0x814141AB, Taken(data, len), start);
  }

  // ---------- What the checksums are ----------

  /** Checksumming a message in two pieces. */
  lemma ReflectedChains(p: bv32, a: seq<bv8>, b: seq<bv8>, crc: bv32)
    ensures SerialReflected(p, a + b, crc) == SerialReflected(p, b, SerialReflected(p, a, crc))
  {
    LsbFirstConcat(a, b);
    FeedConcat(FeedRight(p), Xor(crc, ONES), LsbFirst(a), LsbFirst(b));
    XorCancel(Feed(FeedRight(p), Xor(crc, ONES), LsbFirst(a)), ONES);
  }

  lemma PlainChains(p: bv32, a: seq<bv8>, b: seq<bv8>, crc: bv32)
    ensures SerialPlain(p, a + b, crc) == SerialPlain(p, b, SerialPlain(p, a, crc))
  {
    MsbFirstConcat(a, b);
    FeedConcat(FeedLeft(p), crc, MsbFirst(a), MsbFirst(b));
  }

  /** message * x^32 + start * x^length modulo the generator x^32 + g */
  function Division(g: bv32, start: bv32, bits: seq<bool>): bv32 {
    Xor(Remainder(g, 0, bits + Zeros(32)), Remainder(g, start, Zeros(|bits|)))
  }

  /** The plain checksum is a remainder of polynomial division. */
  lemma PlainDivides(g: bv32, data: seq<bv8>, crc: bv32)
    ensures SerialPlain(g, data, crc) == Division(g, crc, MsbFirst(data))
  {
    SerialLeftDivides(g, crc, MsbFirst(data));
  }

  /** The dividend: message * x^32 + start * x^length */
  function Dividend(start: bv32, bits: seq<bool>): Poly {
    Add(Shifted(Value(bits), 32), Shifted(Word(start), |bits|))
  }

  lemma MessageDivides(g: bv32, bits: seq<bool>)
    ensures Shifted(Value(bits), 32) ==
      Add(Times(Quotient(g, 0, bits + Zeros(32)), FullGenerator(g)), Word(Remainder(g, 0, bits + Zeros(32))))
  {
    Divides(g, 0, bits + Zeros(32));
    WordZero();
    ShiftedZero(|bits + Zeros(32)|);
    TimesTrailing(bits, 32, {0});
  }

  lemma StartDivides(g: bv32, start: bv32, n: nat)
    ensures Shifted(Word(start), n) ==
      Add(Times(Quotient(g, start, Zeros(n)), FullGenerator(g)), Word(Remainder(g, start, Zeros(n))))
  {
    Divides(g, start, Zeros(n));
    TimesZeros(n, {0});
  }

  /** `Division` is the remainder of the dividend in the sense of polynomial arithmetic: there is a quotient ... */
  lemma DivisionHasQuotient(g: bv32, start: bv32, bits: seq<bool>) returns (q: seq<bool>)
    ensures |q| == |bits| + 32
    ensures Dividend(start, bits) == Add(Times(q, FullGenerator(g)), Word(Division(g, start, bits)))
    ensures Below(Word(Division(g, start, bits)), 32)
  {
    var q1, q2 := Quotient(g, 0, bits + Zeros(32)), Quotient(g, start, Zeros(|bits|));
    var r1, r2 := Remainder(g, 0, bits + Zeros(32)), Remainder(g, start, Zeros(|bits|));
    var G := FullGenerator(g);
    q := XorBits(q1, Zeros(32) + q2);
    MessageDivides(g, bits);
    StartDivides(g, start, |bits|);
    TimesPadded(32, q2, G);
    TimesXor(q1, Zeros(32) + q2, G);
    WordXor(r1, r2);
    WordBelow(Division(g, start, bits));
    AddPairs(Times(q1, G), Word(r1), Times(q2, G), Word(r2));
  }

  /** ... and no other polynomial of degree below 32 leaves the dividend a multiple of the generator. */
  lemma DivisionIsRemainder(g: bv32, start: bv32, bits: seq<bool>, q: seq<bool>, r: Poly)
    requires Below(r, 32) && Dividend(start, bits) == Add(Times(q, FullGenerator(g)), r)
    ensures r == Word(Division(g, start, bits))
  {
    var q' := DivisionHasQuotient(g, start, bits);
    WordBelow(g);
    RemainderUnique(q, q', FullGenerator(g), 32, r, Word(Division(g, start, bits)));
  }

  /** `crc`, read in mirror image and inverted before and after, is a remainder of division by x^32 + g. */
  ghost predicate DividedMirror(g: bv32, data: seq<bv8>, start: bv32, crc: bv32) {
    Reflect(crc) == Xor(Division(g, Xor(Reflect(start), ONES), LsbFirst(data)), ONES)
  }

  lemma ReflectedDivides(g: bv32, p: bv32, data: seq<bv8>, crc: bv32)
    requires p == Reflect(g)
    ensures DividedMirror(g, data, crc, SerialReflected(p, data, crc))
  {
    var bits := LsbFirst(data);
    var start := Xor(Reflect(crc), ONES);
    ReflectOnes(crc);
    SerialMirror(g, start, bits);
    SerialLeftDivides(g, start, bits);
    ReflectOnes(Feed(FeedLeft(g), start, bits));
  }

  lemma ReflectOnes(crc: bv32)
    ensures Reflect(Xor(Reflect(crc), ONES)) == Xor(crc, ONES)
  {
    ReflectXor(Reflect(crc), ONES);
    ReflectTwice(crc);
    OnesAreOnes();
  }

  lemma OnesAreOnes()
    ensures Reflect(ONES) == ONES
  {
  }

  /** The generators as the standards write them, x^32 left out. */
  lemma Generators()
    ensures Reflect(0x04C11DB7) == 0xEDB88320 && Reflect(0x1EDC6F41) == 0x82F63B78 && Reflect(0xA833982B) == 0xD419CC15
  {
  }
}
