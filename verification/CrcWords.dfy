/** A table of 256 values, kept as sixteen rows of sixteen. */
module LookupTables {

  datatype Sixteen<T> = Sixteen(
    v0: T, v1: T, v2: T, v3: T, v4: T, v5: T, v6: T, v7: T,
    v8: T, v9: T, v10: T, v11: T, v12: T, v13: T, v14: T, v15: T
  ) {
    function At(i: nat): T
      requires i < 16
    {
      if i == 0 then v0
      else if i == 1 then v1
      else if i == 2 then v2
      else if i == 3 then v3
      else if i == 4 then v4
      else if i == 5 then v5
      else if i == 6 then v6
      else if i == 7 then v7
      else if i == 8 then v8
      else if i == 9 then v9
      else if i == 10 then v10
      else if i == 11 then v11
      else if i == 12 then v12
      else if i == 13 then v13
      else if i == 14 then v14
      else v15
    }
  }

  function Column<T>(t: Sixteen<Sixteen<T>>): Sixteen<T> {
    Sixteen(t.v0.v0, t.v1.v0, t.v2.v0, t.v3.v0, t.v4.v0, t.v5.v0, t.v6.v0, t.v7.v0, t.v8.v0, t.v9.v0, t.v10.v0,
      t.v11.v0, t.v12.v0, t.v13.v0, t.v14.v0, t.v15.v0)
  }

  lemma ColumnAt<T>(t: Sixteen<Sixteen<T>>, i: nat)
    requires i < 16
    ensures Column(t).At(i) == t.At(i).v0
  {
  }

  function Image<T>(f: T -> T, w: Sixteen<T>): Sixteen<T> {
    Sixteen(
      f(w.v0), f(w.v1), f(w.v2), f(w.v3),
      f(w.v4), f(w.v5), f(w.v6), f(w.v7),
      f(w.v8), f(w.v9), f(w.v10), f(w.v11),
      f(w.v12), f(w.v13), f(w.v14), f(w.v15))
  }

  lemma ImageAt<T>(f: T -> T, w: Sixteen<T>, i: nat)
    requires i < 16
    ensures Image(f, w).At(i) == f(w.At(i))
  {
  }

  /** A row with `first` mixed into every value. */
  function Mixed<T>(xor: (T, T) -> T, first: T, row: Sixteen<T>): Sixteen<T> {
    Sixteen(
      xor(first, row.v0), xor(first, row.v1), xor(first, row.v2), xor(first, row.v3),
      xor(first, row.v4), xor(first, row.v5), xor(first, row.v6), xor(first, row.v7),
      xor(first, row.v8), xor(first, row.v9), xor(first, row.v10), xor(first, row.v11),
      xor(first, row.v12), xor(first, row.v13), xor(first, row.v14), xor(first, row.v15))
  }

  lemma MixedAt<T>(xor: (T, T) -> T, first: T, row: Sixteen<T>, i: nat)
    requires i < 16
    ensures Mixed(xor, first, row).At(i) == xor(first, row.At(i))
  {
  }

  /** Every row is the first row with the row's own first value mixed in. */
  ghost predicate AllMixed<T>(t: Sixteen<Sixteen<T>>, xor: (T, T) -> T) {
    && t.v0 == Mixed(xor, t.v0.v0, t.v0)
    && t.v1 == Mixed(xor, t.v1.v0, t.v0)
    && t.v2 == Mixed(xor, t.v2.v0, t.v0)
    && t.v3 == Mixed(xor, t.v3.v0, t.v0)
    && t.v4 == Mixed(xor, t.v4.v0, t.v0)
    && t.v5 == Mixed(xor, t.v5.v0, t.v0)
    && t.v6 == Mixed(xor, t.v6.v0, t.v0)
    && t.v7 == Mixed(xor, t.v7.v0, t.v0)
    && t.v8 == Mixed(xor, t.v8.v0, t.v0)
    && t.v9 == Mixed(xor, t.v9.v0, t.v0)
    && t.v10 == Mixed(xor, t.v10.v0, t.v0)
    && t.v11 == Mixed(xor, t.v11.v0, t.v0)
    && t.v12 == Mixed(xor, t.v12.v0, t.v0)
    && t.v13 == Mixed(xor, t.v13.v0, t.v0)
    && t.v14 == Mixed(xor, t.v14.v0, t.v0)
    && t.v15 == Mixed(xor, t.v15.v0, t.v0)
  }

  lemma AllMixedAt<T>(t: Sixteen<Sixteen<T>>, xor: (T, T) -> T, i: nat)
    requires AllMixed(t, xor) && i < 16
    ensures t.At(i) == Mixed(xor, t.At(i).v0, t.v0)
  {
  }

  /** A table whose rows repeat its first row is known by its first row and first column. */
  lemma CellAt<T>(t: Sixteen<Sixteen<T>>, xor: (T, T) -> T, f: T -> T, rows: Sixteen<T>, columns: Sixteen<T>, i: nat,
      j: nat)
    requires AllMixed(t, xor) && Column(t) == Image(f, rows) && t.v0 == Image(f, columns) && i < 16 && j < 16
    ensures t.At(i).At(j) == xor(f(rows.At(i)), f(columns.At(j)))
  {
    AllMixedAt(t, xor, i);
    MixedAt(xor, t.At(i).v0, t.v0, j);
    ColumnAt(t, i);
    ImageAt(f, rows, i);
    ImageAt(f, columns, j);
  }
}

/** 32-bit words: the two registers of the checksum functions, and bit reversal. */
module CrcWords {
  import opened ShiftRegisters
  import opened LookupTables

  // ---------- Operations, named so that proofs can treat them as wholes ----------

  function Bit(b: bool): bv32 {
    if b then 1 else 0
  }

  function Xor(a: bv32, b: bv32): bv32 {
    a ^ b
  }

  predicate Low(y: bv32) {
    y & 1 == 1
  }

  predicate High(y: bv32) {
    y & 0x80000000 == 0x80000000
  }

  function Down(y: bv32): bv32 {
    y >> 1
  }

  function Up(y: bv32): bv32 {
    y << 1
  }

  function Down8(y: bv32): bv32 {
    y >> 8
  }

  function Up8(y: bv32): bv32 {
    y << 8
  }

  function Byte(y: bv32): bv32 {
    y & 0xFF
  }

  function Rest(y: bv32): bv32 {
    y & 0xFFFFFF00
  }

  /** A byte moved to the high end. */
  function ToTop(y: bv32): bv32 {
    y << 24
  }

  function FromTop(y: bv32): bv32 {
    y >> 24
  }

  /** One step of the reflected register (low bit first). */
  function ShiftRight(p: bv32, c: bv32): bv32 {
    if c & 1 == 1 then (c >> 1) ^ p else c >> 1
  }

  /** One step of the plain register: multiplication by x modulo the generator x^32 + p. */
  function ShiftLeft(p: bv32, c: bv32): bv32 {
    if c & 0x80000000 == 0x80000000 then (c << 1) ^ p else c << 1
  }

  function FeedBitRight(p: bv32, c: bv32, b: bool): bv32 {
    ShiftRight(p, Xor(c, Bit(b)))
  }

  function TopBit(b: bool): bv32 {
    if b then 0x80000000 else 0
  }

  function FeedBitLeft(p: bv32, c: bv32, b: bool): bv32 {
    ShiftLeft(p, Xor(c, TopBit(b)))
  }

  /** One step of long division: bring down the next bit and subtract the generator if it fits. */
  function DivideStep(p: bv32, r: bv32, b: bool): bv32 {
    Xor(ShiftLeft(p, r), Bit(b))
  }

  function Right(p: bv32): bv32 -> bv32 {
    c => ShiftRight(p, c)
  }

  function Left(p: bv32): bv32 -> bv32 {
    c => ShiftLeft(p, c)
  }

  function FeedRight(p: bv32): (bv32, bool) -> bv32 {
    (c, b) => FeedBitRight(p, c, b)
  }

  function FeedLeft(p: bv32): (bv32, bool) -> bv32 {
    (c, b) => FeedBitLeft(p, c, b)
  }

  function Divide(p: bv32): (bv32, bool) -> bv32 {
    (r, b) => DivideStep(p, r, b)
  }

  /** The remainder of a bit string (high bit first), started at `r`, divided by x^32 + p. */
  function Remainder(p: bv32, r: bv32, bits: seq<bool>): bv32 {
    Feed(Divide(p), r, bits)
  }

  // ---------- Messages as bits ----------

  function LsbBits(b: bv8): seq<bool> {
    Bits(Low, Down, b as bv32, 8)
  }

  function MsbBits(b: bv8): seq<bool> {
    Bits(High, Up, ToTop(b as bv32), 8)
  }

  function LsbFirst(data: seq<bv8>): seq<bool> {
    if data == [] then [] else LsbBits(data[0]) + LsbFirst(data[1..])
  }

  function MsbFirst(data: seq<bv8>): seq<bool> {
    if data == [] then [] else MsbBits(data[0]) + MsbFirst(data[1..])
  }

  lemma {:induction false} LsbFirstConcat(a: seq<bv8>, b: seq<bv8>)
    ensures LsbFirst(a + b) == LsbFirst(a) + LsbFirst(b)
  {
    if a == [] {
      assert a + b == b;
    } else {
      assert (a + b)[1..] == a[1..] + b;
      LsbFirstConcat(a[1..], b);
    }
  }

  lemma {:induction false} MsbFirstConcat(a: seq<bv8>, b: seq<bv8>)
    ensures MsbFirst(a + b) == MsbFirst(a) + MsbFirst(b)
  {
    if a == [] {
      assert a + b == b;
    } else {
      assert (a + b)[1..] == a[1..] + b;
      MsbFirstConcat(a[1..], b);
    }
  }

  // ---------- Facts about single operations ----------

  lemma XorZero(a: bv32)
    ensures Xor(a, 0) == a && Xor(0, a) == a && Xor(a, a) == 0
  {
  }

  lemma XorComm(a: bv32, b: bv32)
    ensures Xor(a, b) == Xor(b, a)
  {
  }

  lemma XorFlat(a: bv32, b: bv32, c: bv32, d: bv32)
    requires d == Xor(a, b)
    ensures Xor(d, c) == (a ^ b) ^ c
  {
  }

  lemma XorSwapped(a: bv32, b: bv32, c: bv32)
    ensures (a ^ b) ^ c == (a ^ c) ^ b
  {
  }

  lemma XorSwap(a: bv32, b: bv32, c: bv32)
    ensures Xor(Xor(a, b), c) == Xor(Xor(a, c), b)
  {
    XorFlat(a, b, c, Xor(a, b));
    XorFlat(a, c, b, Xor(a, c));
    XorSwapped(a, b, c);
  }

  lemma XorAssoc(a: bv32, b: bv32, c: bv32)
    ensures Xor(a, Xor(b, c)) == Xor(Xor(a, b), c)
  {
    XorComm(a, Xor(b, c));
    XorSwap(b, c, a);
    XorComm(a, b);
  }

  lemma XorCancel(a: bv32, p: bv32)
    ensures Xor(Xor(a, p), p) == a
  {
    XorZero(p);
    XorZero(a);
    XorAssoc(a, p, p);
  }

  lemma ShiftedXor(a: bv32, b: bv32)
    ensures (a ^ b) << 1 == (a << 1) ^ (b << 1) && (a ^ b) >> 1 == (a >> 1) ^ (b >> 1)
  {
  }

  lemma XorUp(a: bv32, b: bv32)
    ensures Up(Xor(a, b)) == Xor(Up(a), Up(b))
  {
    ShiftedXor(a, b);
  }

  lemma XorDown(a: bv32, b: bv32)
    ensures Down(Xor(a, b)) == Xor(Down(a), Down(b))
  {
    ShiftedXor(a, b);
  }

  lemma XorHigh(a: bv32, b: bv32)
    ensures High(Xor(a, b)) == (High(a) != High(b))
  {
  }

  lemma XorLow(a: bv32, b: bv32)
    ensures Low(Xor(a, b)) == (Low(a) != Low(b))
  {
  }

  lemma XorRegroup(a: bv32, b: bv32, p: bv32)
    ensures RegroupAt(Xor, a, b, p)
  {
    XorSwap(a, b, p);
    XorAssoc(a, b, p);
    XorAssoc(Xor(a, p), b, p);
    XorSwap(a, p, b);
    XorCancel(Xor(a, b), p);
  }

  // ---------- The steps are linear ----------

  lemma HighLaw(a: bv32, b: bv32)
    ensures XorBitAt(Xor, High, Up, a, b)
  {
    XorUp(a, b);
    XorHigh(a, b);
  }

  lemma LowLaw(a: bv32, b: bv32)
    ensures XorBitAt(Xor, Low, Down, a, b)
  {
    XorDown(a, b);
    XorLow(a, b);
  }

  lemma LeftOfHigh(p: bv32, c: bv32, u: bv32)
    requires c & 0x80000000 == 0x80000000 && u == c << 1
    ensures ShiftLeft(p, c) == Xor(u, p)
  {
  }

  lemma LeftOfLow(p: bv32, c: bv32, u: bv32)
    requires c & 0x80000000 != 0x80000000 && u == c << 1
    ensures ShiftLeft(p, c) == u
  {
  }

  lemma LeftReduced(p: bv32, c: bv32)
    ensures High(c) ==> ShiftLeft(p, c) == Xor(Up(c), p)
    ensures !High(c) ==> ShiftLeft(p, c) == Up(c)
  {
    if High(c) {
      LeftOfHigh(p, c, Up(c));
    } else {
      LeftOfLow(p, c, Up(c));
    }
  }

  lemma LeftReduces(p: bv32, c: bv32)
    ensures ReduceAt(Xor, Left(p), High, Up, p, c)
  {
    LeftReduced(p, c);
  }

  lemma RightOfOdd(p: bv32, c: bv32)
    requires Low(c)
    ensures ShiftRight(p, c) == Xor(Down(c), p)
  {
  }

  lemma RightOfEven(p: bv32, c: bv32)
    requires !Low(c)
    ensures ShiftRight(p, c) == Down(c)
  {
  }

  lemma RightReduces(p: bv32, c: bv32)
    ensures ReduceAt(Xor, Right(p), Low, Down, p, c)
  {
    if Low(c) {
      RightOfOdd(p, c);
    } else {
      RightOfEven(p, c);
    }
  }

  lemma LeftLinear(p: bv32, a: bv32, b: bv32)
    ensures LinearAt(Xor, Left(p), a, b)
  {
    HighLaw(a, b);
    XorRegroup(Up(a), Up(b), p);
    LeftReduces(p, a);
    LeftReduces(p, b);
    LeftReduces(p, Xor(a, b));
    ReduceLinear(Xor, Left(p), High, Up, p, a, b);
  }

  lemma RightLinear(p: bv32, a: bv32, b: bv32)
    ensures LinearAt(Xor, Right(p), a, b)
  {
    LowLaw(a, b);
    XorRegroup(Down(a), Down(b), p);
    RightReduces(p, a);
    RightReduces(p, b);
    RightReduces(p, Xor(a, b));
    ReduceLinear(Xor, Right(p), Low, Down, p, a, b);
  }

  /** The generator, if a bit is shifted out. */
  function Generator(p: bv32): bool -> bv32 {
    b => if b then p else 0
  }

  lemma RightOfBit(p: bv32, b: bool)
    ensures Right(p)(Bit(b)) == Generator(p)(b)
  {
    XorZero(p);
  }

  lemma FeedRightIs(p: bv32, s: bv32, b: bool)
    ensures FeedRight(p)(s, b) == Xor(Right(p)(s), Generator(p)(b))
  {
    RightLinear(p, s, Bit(b));
    RightOfBit(p, b);
  }

  lemma RightSplits(p: bv32, y: bv32)
    ensures Right(p)(y) == Xor(Generator(p)(Low(y)), Down(y))
  {
    RightReduces(p, y);
    XorComm(p, Down(y));
    XorZero(Down(y));
  }

  lemma RightAbsorbs(p: bv32, s: bv32, y: bv32)
    ensures AbsorbAt(Xor, Right(p), FeedRight(p), Low, Down, s, y)
  {
    var g := Generator(p)(Low(y));
    RightLinear(p, s, y);
    FeedRightIs(p, s, Low(y));
    RightSplits(p, y);
    XorAssoc(Right(p)(s), g, Down(y));
    LinearAbsorbs(Xor, Right(p), FeedRight(p), Low, Down, s, y, g);
  }

  lemma RightZero(p: bv32, c: bv32)
    ensures ZeroAt(Right(p), FeedRight(p), c)
  {
    XorZero(c);
    assert FeedRight(p)(c, false) == ShiftRight(p, Xor(c, 0));
  }

  // ---------- A byte, low bit first, into the reflected register ----------

  lemma Downs(y: bv32)
    ensures Down(y) == y >> 1 && Down(y >> 1) == y >> 2 && Down(y >> 2) == y >> 3 && Down(y >> 3) == y >> 4
    ensures Down(y >> 4) == y >> 5 && Down(y >> 5) == y >> 6 && Down(y >> 6) == y >> 7 && Down(y >> 7) == Down8(y)
  {
  }

  lemma DownEight(y: bv32)
    ensures Steps(Down, y, 8) == Down8(y)
  {
    EightSteps(Down, y);
    Downs(y);
  }

  lemma RestBits(x: bv32, y: bv32)
    requires y == Rest(x)
    ensures !Low(y) && !Low(y >> 1) && !Low(y >> 2) && !Low(y >> 3)
    ensures !Low(y >> 4) && !Low(y >> 5) && !Low(y >> 6) && !Low(y >> 7)
  {
  }

  lemma RestIsZeros(x: bv32)
    ensures Bits(Low, Down, Rest(x), 8) == Zeros(8)
  {
    var y := Rest(x);
    RestBits(x, y);
    Downs(y);
    ZeroBit(Low, Down, y >> 7, 0);
    ZeroBit(Low, Down, y >> 6, 1);
    ZeroBit(Low, Down, y >> 5, 2);
    ZeroBit(Low, Down, y >> 4, 3);
    ZeroBit(Low, Down, y >> 3, 4);
    ZeroBit(Low, Down, y >> 2, 5);
    ZeroBit(Low, Down, y >> 1, 6);
    ZeroBit(Low, Down, y, 7);
  }

  lemma ByteAndRest(x: bv32)
    ensures Xor(Byte(x), Rest(x)) == x && Down8(Rest(x)) == Down8(x)
  {
  }

  /** Eight steps split into a lookup on the low byte and a plain shift of the rest. */
  lemma SplitLowByte(p: bv32, x: bv32)
    ensures Steps(Right(p), x, 8) == Xor(Steps(Right(p), Byte(x), 8), Down8(x))
  {
    forall s, y ensures AbsorbAt(Xor, Right(p), FeedRight(p), Low, Down, s, y) {
      RightAbsorbs(p, s, y);
    }
    forall c ensures ZeroAt(Right(p), FeedRight(p), c) {
      RightZero(p, c);
    }
    FeedAtOnce(Xor, Right(p), FeedRight(p), Low, Down, Byte(x), Rest(x), 8);
    RestIsZeros(x);
    FeedZeros(Right(p), FeedRight(p), Byte(x), 8);
    DownEight(Rest(x));
    ByteAndRest(x);
  }

  lemma SmallByte(b: bv32, c: bv32)
    requires Byte(b) == b
    ensures Down8(b) == 0 && Down8(Xor(c, b)) == Down8(c)
  {
  }

  /** The reflected register consumes a byte by one lookup on its low byte. */
  lemma ByteRight(p: bv32, c: bv32, b: bv32)
    requires Byte(b) == b
    ensures Feed(FeedRight(p), c, Bits(Low, Down, b, 8)) == Xor(Steps(Right(p), Byte(Xor(b, c)), 8), Down8(c))
  {
    forall s, y ensures AbsorbAt(Xor, Right(p), FeedRight(p), Low, Down, s, y) {
      RightAbsorbs(p, s, y);
    }
    FeedAtOnce(Xor, Right(p), FeedRight(p), Low, Down, c, b, 8);
    DownEight(b);
    SmallByte(b, c);
    XorZero(Feed(FeedRight(p), c, Bits(Low, Down, b, 8)));
    SplitLowByte(p, Xor(c, b));
    XorComm(b, c);
  }

  // ---------- Reflection ----------

  /** Bit reversal of a word. */
  function Reflect(x: bv32): bv32 {
    var a := ((x >> 1) & 0x55555555) | ((x & 0x55555555) << 1);
    var b := ((a >> 2) & 0x33333333) | ((a & 0x33333333) << 2);
    var c := ((b >> 4) & 0x0F0F0F0F) | ((b & 0x0F0F0F0F) << 4);
    var d := ((c >> 8) & 0x00FF00FF) | ((c & 0x00FF00FF) << 8);
    (d >> 16) | (d << 16)
  }

  lemma ReflectTwice(x: bv32)
    ensures Reflect(Reflect(x)) == x
  {
  }

  lemma ReflectXor(a: bv32, b: bv32)
    ensures Reflect(Xor(a, b)) == Xor(Reflect(a), Reflect(b))
  {
  }

  lemma ReflectShifted(x: bv32)
    ensures Reflect(x << 1) == Reflect(x) >> 1
  {
  }

  lemma ReflectShifted8(x: bv32)
    ensures Reflect(x << 8) == Reflect(x) >> 8
  {
  }

  lemma ReflectUp(x: bv32)
    ensures Reflect(Up(x)) == Down(Reflect(x))
  {
    ReflectShifted(x);
  }

  lemma ReflectUp8(x: bv32)
    ensures Reflect(Up8(x)) == Down8(Reflect(x))
  {
    ReflectShifted8(x);
  }

  lemma ReflectHigh(x: bv32)
    ensures High(x) == Low(Reflect(x))
  {
  }

  lemma ReflectBit(b: bool)
    ensures Reflect(TopBit(b)) == Bit(b)
  {
  }

  lemma ReflectTop(x: bv32, y: bv32)
    requires y == x & 0xFF000000
    ensures Byte(Reflect(x)) == Reflect(y)
  {
  }

  lemma TopOfMix(b: bv32, c: bv32, t: bv32, x: bv32)
    requires t == ToTop(b) && x == Xor(t, c)
    ensures x & 0xFF000000 == ToTop(Xor(b, FromTop(c)))
  {
  }

  lemma TopIsTop(b: bv32)
    ensures ToTop(b) & 0xFF000000 == ToTop(b)
  {
  }

  lemma ReflectByte(b: bv32, c: bv32)
    ensures Byte(Reflect(ToTop(b))) == Reflect(ToTop(b))
    ensures Byte(Xor(Reflect(ToTop(b)), Reflect(c))) == Reflect(ToTop(Xor(b, FromTop(c))))
  {
    var t := ToTop(b);
    var x := Xor(t, c);
    TopIsTop(b);
    ReflectTop(t, t);
    ReflectXor(t, c);
    TopOfMix(b, c, t, x);
    ReflectTop(x, ToTop(Xor(b, FromTop(c))));
  }

  lemma StepMirror(p: bv32, c: bv32)
    ensures StepMirrorAt(Reflect, Right(Reflect(p)), Left(p), c)
  {
    RightReduces(Reflect(p), Reflect(c));
    LeftReduces(p, c);
    BitMirror(c);
    ReflectXor(Up(c), p);
    ReduceMirror(Reflect, Xor, Right(Reflect(p)), Low, Down, Left(p), High, Up, p, c);
  }

  lemma FeedIsStep(p: bv32, c: bv32, b: bool)
    ensures FeedRight(p)(c, b) == Right(p)(Xor(c, Bit(b))) && FeedLeft(p)(c, b) == Left(p)(Xor(c, TopBit(b)))
  {
  }

  lemma ReflectMixed(c: bv32, b: bool)
    ensures Reflect(Xor(c, TopBit(b))) == Xor(Reflect(c), Bit(b))
  {
    ReflectBit(b);
    ReflectXor(c, TopBit(b));
  }

  lemma FeedMirrored(p: bv32, c: bv32, b: bool)
    ensures FeedMirrorAt(Reflect, FeedRight(Reflect(p)), FeedLeft(p), c, b)
  {
    FeedIsStep(Reflect(p), Reflect(c), b);
    FeedIsStep(p, c, b);
    ReflectMixed(c, b);
    StepMirror(p, Xor(c, TopBit(b)));
    FeedMirrors(Reflect, Right(Reflect(p)), Left(p), FeedRight(Reflect(p)), FeedLeft(p),
                Xor(Reflect(c), Bit(b)), Xor(c, TopBit(b)), c, b);
  }

  lemma BitMirror(y: bv32)
    ensures BitMirrorAt(Reflect, Low, Down, High, Up, y)
  {
    ReflectUp(y);
    ReflectHigh(y);
  }

  lemma SameMirror(a: bv32, b: bv32)
    requires Reflect(a) == Reflect(b)
    ensures a == b
  {
    ReflectTwice(a);
    ReflectTwice(b);
  }

  /** The plain register is the mirror image of the reflected one with the reversed generator. */
  lemma SerialMirror(p: bv32, c: bv32, bits: seq<bool>)
    ensures Feed(FeedRight(Reflect(p)), Reflect(c), bits) == Reflect(Feed(FeedLeft(p), c, bits))
  {
    forall c', b ensures FeedMirrorAt(Reflect, FeedRight(Reflect(p)), FeedLeft(p), c', b) {
      FeedMirrored(p, c', b);
    }
    FeedMirror(Reflect, FeedRight(Reflect(p)), FeedLeft(p), c, bits);
  }

  lemma LeftSteps(p: bv32, c: bv32, n: nat)
    ensures Steps(Right(Reflect(p)), Reflect(c), n) == Reflect(Steps(Left(p), c, n))
  {
    forall c' ensures StepMirrorAt(Reflect, Right(Reflect(p)), Left(p), c') {
      StepMirror(p, c');
    }
    StepsMirror(Reflect, Right(Reflect(p)), Left(p), c, n);
  }

  lemma HighBits(y: bv32)
    ensures Bits(High, Up, y, 8) == Bits(Low, Down, Reflect(y), 8)
  {
    forall y' ensures BitMirrorAt(Reflect, Low, Down, High, Up, y') {
      BitMirror(y');
    }
    BitsMirror(Reflect, Low, Down, High, Up, y, 8);
  }

  /** The plain register consumes a byte, high bit first, by one lookup on its top byte. */
  lemma ByteLeft(p: bv32, c: bv32, b: bv32)
    requires Byte(b) == b
    ensures Feed(FeedLeft(p), c, Bits(High, Up, ToTop(b), 8)) ==
      Xor(Steps(Left(p), ToTop(Xor(b, FromTop(c))), 8), Up8(c))
  {
    var bits, top := Bits(High, Up, ToTop(b), 8), ToTop(Xor(b, FromTop(c)));
    SerialMirror(p, c, bits);
    HighBits(ToTop(b));
    ReflectByte(b, c);
    ByteRight(Reflect(p), Reflect(c), Reflect(ToTop(b)));
    LeftSteps(p, top, 8);
    ReflectUp8(c);
    ReflectXor(Steps(Left(p), top, 8), Up8(c));
    SameMirror(Feed(FeedLeft(p), c, bits), Xor(Steps(Left(p), top, 8), Up8(c)));
  }

  // ---------- Bit-serial feeding is polynomial division ----------

  lemma LeftUp(p: bv32, c: bv32, d: bv32)
    requires !High(c) && d == Up(c)
    ensures Left(p)(c) == d
  {
    LeftReduces(p, c);
  }

  lemma LeftFour(p: bv32, c: bv32, d: bv32)
    requires c & 0xF0000000 == 0 && d == c << 4
    ensures Steps(Left(p), c, 4) == d
  {
    Ups(c);
    LeftUp(p, c, c << 1);
    LeftUp(p, c << 1, c << 2);
    LeftUp(p, c << 2, c << 3);
    LeftUp(p, c << 3, d);
    FourChain(Left(p), c, c << 1, c << 2, c << 3, d);
  }

  lemma Ups(c: bv32)
    requires c & 0xF0000000 == 0
    ensures !High(c) && !High(c << 1) && !High(c << 2) && !High(c << 3)
    ensures Up(c) == c << 1 && Up(c << 1) == c << 2 && Up(c << 2) == c << 3 && Up(c << 3) == c << 4
  {
  }

  lemma TopSteps(p: bv32)
    ensures Left(p)(0x80000000) == p && Left(p)(0) == 0 && Steps(Left(p), 0x10000000, 4) == p
  {
    FourSteps(Left(p), 0x10000000);
    XorZero(p);
    assert Left(p)(0x10000000) == 0x20000000 && Left(p)(0x20000000) == 0x40000000 && Left(p)(0x40000000) == 0x80000000;
  }

  lemma {:induction false} StepsOfZero(p: bv32, n: nat)
    ensures Steps(Left(p), 0, n) == 0
  {
    TopSteps(p);
    if n > 0 {
      StepsOfZero(p, n - 1);
    }
  }

  /** x^32 leaves the remainder p. */
  lemma PowerThirtyTwo(p: bv32)
    ensures Steps(Left(p), 1, 32) == p
  {
    LeftFour(p, 1, 0x10);
    LeftFour(p, 0x10, 0x100);
    LeftFour(p, 0x100, 0x1000);
    LeftFour(p, 0x1000, 0x10000);
    LeftFour(p, 0x10000, 0x100000);
    LeftFour(p, 0x100000, 0x1000000);
    LeftFour(p, 0x1000000, 0x10000000);
    TopSteps(p);
    StepsTwice(Left(p), 1, 0x10, 0x100, 4);
    StepsTwice(Left(p), 0x100, 0x1000, 0x10000, 4);
    StepsTwice(Left(p), 0x10000, 0x100000, 0x1000000, 4);
    StepsTwice(Left(p), 0x1000000, 0x10000000, p, 4);
    StepsTwice(Left(p), 1, 0x100, 0x10000, 8);
    StepsTwice(Left(p), 0x10000, 0x1000000, p, 8);
    StepsTwice(Left(p), 1, 0x10000, p, 16);
  }

  lemma LeftOfBit(p: bv32, b: bool)
    ensures Left(p)(TopBit(b)) == Generator(p)(b)
  {
    XorZero(p);
  }

  lemma FeedLeftIs(p: bv32, c: bv32, b: bool)
    ensures FeedLeft(p)(c, b) == Xor(Left(p)(c), Generator(p)(b))
  {
    LeftLinear(p, c, TopBit(b));
    LeftOfBit(p, b);
  }

  lemma LeftDivides(p: bv32, c: bv32, b: bool)
    ensures DividesAt(Xor, Left(p), FeedLeft(p), Divide(p), Generator(p), Bit, 32, c, b)
  {
    FeedLeftIs(p, c, b);
    StepsOfZero(p, 32);
    PowerThirtyTwo(p);
  }

  /**
   * Feeding a message into a register that starts at `c` leaves the remainder of
   * message * x^32 + c * x^length divided by the generator x^32 + p.
   */
  lemma SerialLeftDivides(p: bv32, c: bv32, bits: seq<bool>)
    ensures Feed(FeedLeft(p), c, bits) == Xor(Remainder(p, 0, bits + Zeros(32)), Remainder(p, c, Zeros(|bits|)))
  {
    forall a, b ensures LinearAt(Xor, Left(p), a, b) {
      LeftLinear(p, a, b);
    }
    forall a, b, d ensures SwapAt(Xor, a, b, d) {
      XorSwap(a, b, d);
    }
    forall d, b ensures DividesAt(Xor, Left(p), FeedLeft(p), Divide(p), Generator(p), Bit, 32, d, b) {
      LeftDivides(p, d, b);
    }
    SerialIsDivision(Xor, Left(p), FeedLeft(p), Divide(p), Generator(p), Bit, 32, 0, c, bits);
    StepsOfZero(p, 32);
    XorZero(c);
    DivideZeros(p, Feed(Divide(p), 0, bits), 32);
    DivideZeros(p, c, |bits|);
    FeedConcat(Divide(p), 0, bits, Zeros(32));
  }

  lemma DivideZeros(p: bv32, r: bv32, n: nat)
    ensures Remainder(p, r, Zeros(n)) == Steps(Left(p), r, n)
  {
    forall c ensures ZeroAt(Left(p), Divide(p), c) {
      XorZero(ShiftLeft(p, c));
      assert Divide(p)(c, false) == Xor(ShiftLeft(p, c), 0);
    }
    FeedZeros(Left(p), Divide(p), r, n);
  }

  // ---------- Lookup tables ----------

  const NIBBLES: Sixteen<bv32> :=
      Sixteen(0x0, 0x1, 0x2, 0x3, 0x4, 0x5, 0x6, 0x7, 0x8, 0x9, 0xA, 0xB, 0xC, 0xD, 0xE, 0xF)

  function LowNibble(x: bv32): bv32 {
    x & 15
  }

  function HighNibble(x: bv32): bv32 {
    (x >> 4) & 15
  }

  function NibbleIndex(x: bv32): (i: nat)
    requires LowNibble(x) == x
    ensures i < 16 && NIBBLES.At(i) == x
  {
    NibbleCases(x);
    x as nat
  }

  lemma NibbleCases(x: bv32)
    requires LowNibble(x) == x
    ensures (x as nat) < 16 && NIBBLES.At(x as nat) == x
  {
    if x == 0 {
    } else if x == 1 {
    } else if x == 2 {
    } else if x == 3 {
    } else if x == 4 {
    } else if x == 5 {
    } else if x == 6 {
    } else if x == 7 {
    } else if x == 8 {
    } else if x == 9 {
    } else if x == 10 {
    } else if x == 11 {
    } else if x == 12 {
    } else if x == 13 {
    } else if x == 14 {
    } else {
      assert x == 15;
    }
  }

  lemma NibbleBounds(x: bv32)
    ensures LowNibble(LowNibble(x)) == LowNibble(x) && LowNibble(HighNibble(x)) == HighNibble(x)
  {
  }

  /** Entry number `x` of a table of 256 words kept as sixteen rows. */
  function Lookup(table: Sixteen<Sixteen<bv32>>, x: bv32): bv32 {
    NibbleBounds(x);
    table.At(NibbleIndex(HighNibble(x))).At(NibbleIndex(LowNibble(x)))
  }

  function MixedWords(first: bv32, row: Sixteen<bv32>): Sixteen<bv32> {
    Sixteen(
      first ^ row.v0, first ^ row.v1, first ^ row.v2, first ^ row.v3,
      first ^ row.v4, first ^ row.v5, first ^ row.v6, first ^ row.v7,
      first ^ row.v8, first ^ row.v9, first ^ row.v10, first ^ row.v11,
      first ^ row.v12, first ^ row.v13, first ^ row.v14, first ^ row.v15)
  }

  ghost predicate TableLinear(t: Sixteen<Sixteen<bv32>>) {
    && t.v0 == MixedWords(t.v0.v0, t.v0)
    && t.v1 == MixedWords(t.v1.v0, t.v0)
    && t.v2 == MixedWords(t.v2.v0, t.v0)
    && t.v3 == MixedWords(t.v3.v0, t.v0)
    && t.v4 == MixedWords(t.v4.v0, t.v0)
    && t.v5 == MixedWords(t.v5.v0, t.v0)
    && t.v6 == MixedWords(t.v6.v0, t.v0)
    && t.v7 == MixedWords(t.v7.v0, t.v0)
    && t.v8 == MixedWords(t.v8.v0, t.v0)
    && t.v9 == MixedWords(t.v9.v0, t.v0)
    && t.v10 == MixedWords(t.v10.v0, t.v0)
    && t.v11 == MixedWords(t.v11.v0, t.v0)
    && t.v12 == MixedWords(t.v12.v0, t.v0)
    && t.v13 == MixedWords(t.v13.v0, t.v0)
    && t.v14 == MixedWords(t.v14.v0, t.v0)
    && t.v15 == MixedWords(t.v15.v0, t.v0)
  }

  function EightRight(p: bv32, c: bv32): bv32 {
    ShiftRight(p, ShiftRight(p, ShiftRight(p, ShiftRight(p,
      ShiftRight(p, ShiftRight(p, ShiftRight(p, ShiftRight(p, c))))))))
  }

  function EightLeft(p: bv32, c: bv32): bv32 {
    ShiftLeft(p, ShiftLeft(p, ShiftLeft(p, ShiftLeft(p, ShiftLeft(p, ShiftLeft(p, ShiftLeft(p, ShiftLeft(p, c))))))))
  }

  function RightRow(p: bv32): Sixteen<bv32> {
    Sixteen(
      EightRight(p, 0x0), EightRight(p, 0x1), EightRight(p, 0x2), EightRight(p, 0x3),
      EightRight(p, 0x4), EightRight(p, 0x5), EightRight(p, 0x6), EightRight(p, 0x7),
      EightRight(p, 0x8), EightRight(p, 0x9), EightRight(p, 0xA), EightRight(p, 0xB),
      EightRight(p, 0xC), EightRight(p, 0xD), EightRight(p, 0xE), EightRight(p, 0xF))
  }

  function RightColumn(p: bv32): Sixteen<bv32> {
    Sixteen(
      EightRight(p, 0x00), EightRight(p, 0x10), EightRight(p, 0x20), EightRight(p, 0x30),
      EightRight(p, 0x40), EightRight(p, 0x50), EightRight(p, 0x60), EightRight(p, 0x70),
      EightRight(p, 0x80), EightRight(p, 0x90), EightRight(p, 0xA0), EightRight(p, 0xB0),
      EightRight(p, 0xC0), EightRight(p, 0xD0), EightRight(p, 0xE0), EightRight(p, 0xF0))
  }

  function LeftRow(p: bv32): Sixteen<bv32> {
    Sixteen(
      EightLeft(p, 0x0000000), EightLeft(p, 0x1000000), EightLeft(p, 0x2000000), EightLeft(p, 0x3000000),
      EightLeft(p, 0x4000000), EightLeft(p, 0x5000000), EightLeft(p, 0x6000000), EightLeft(p, 0x7000000),
      EightLeft(p, 0x8000000), EightLeft(p, 0x9000000), EightLeft(p, 0xA000000), EightLeft(p, 0xB000000),
      EightLeft(p, 0xC000000), EightLeft(p, 0xD000000), EightLeft(p, 0xE000000), EightLeft(p, 0xF000000))
  }

  function LeftColumn(p: bv32): Sixteen<bv32> {
    Sixteen(
      EightLeft(p, 0x00000000), EightLeft(p, 0x10000000), EightLeft(p, 0x20000000), EightLeft(p, 0x30000000),
      EightLeft(p, 0x40000000), EightLeft(p, 0x50000000), EightLeft(p, 0x60000000), EightLeft(p, 0x70000000),
      EightLeft(p, 0x80000000), EightLeft(p, 0x90000000), EightLeft(p, 0xA0000000), EightLeft(p, 0xB0000000),
      EightLeft(p, 0xC0000000), EightLeft(p, 0xD0000000), EightLeft(p, 0xE0000000), EightLeft(p, 0xF0000000))
  }

  // ---------- From rows and columns to all entries ----------

  function Rights(p: bv32): bv32 -> bv32 {
    c => EightRight(p, c)
  }

  function Lefts(p: bv32): bv32 -> bv32 {
    c => EightLeft(p, c)
  }

  const SIXTEENS: Sixteen<bv32> :=
      Sixteen(0x00, 0x10, 0x20, 0x30, 0x40, 0x50, 0x60, 0x70, 0x80, 0x90, 0xA0, 0xB0, 0xC0, 0xD0, 0xE0, 0xF0)

  const TOPS: Sixteen<bv32> := Sixteen(
    0x00000000, 0x10000000, 0x20000000, 0x30000000, 0x40000000, 0x50000000, 0x60000000, 0x70000000,
    0x80000000, 0x90000000, 0xA0000000, 0xB0000000, 0xC0000000, 0xD0000000, 0xE0000000, 0xF0000000)

  const UPPERS: Sixteen<bv32> := Sixteen(
    0x0000000, 0x1000000, 0x2000000, 0x3000000, 0x4000000, 0x5000000, 0x6000000, 0x7000000,
    0x8000000, 0x9000000, 0xA000000, 0xB000000, 0xC000000, 0xD000000, 0xE000000, 0xF000000)

  lemma MixedWordsIs(first: bv32, row: Sixteen<bv32>)
    ensures MixedWords(first, row) == Mixed(Xor, first, row)
  {
  }

  lemma TableMixes(t: Sixteen<Sixteen<bv32>>)
    requires TableLinear(t)
    ensures AllMixed(t, Xor)
  {
    MixedWordsIs(t.v0.v0, t.v0);
    MixedWordsIs(t.v1.v0, t.v0);
    MixedWordsIs(t.v2.v0, t.v0);
    MixedWordsIs(t.v3.v0, t.v0);
    MixedWordsIs(t.v4.v0, t.v0);
    MixedWordsIs(t.v5.v0, t.v0);
    MixedWordsIs(t.v6.v0, t.v0);
    MixedWordsIs(t.v7.v0, t.v0);
    MixedWordsIs(t.v8.v0, t.v0);
    MixedWordsIs(t.v9.v0, t.v0);
    MixedWordsIs(t.v10.v0, t.v0);
    MixedWordsIs(t.v11.v0, t.v0);
    MixedWordsIs(t.v12.v0, t.v0);
    MixedWordsIs(t.v13.v0, t.v0);
    MixedWordsIs(t.v14.v0, t.v0);
    MixedWordsIs(t.v15.v0, t.v0);
  }

  lemma RightRowIs(p: bv32)
    ensures RightRow(p) == Image(Rights(p), NIBBLES)
  {
  }

  lemma RightColumnIs(p: bv32)
    ensures RightColumn(p) == Image(Rights(p), SIXTEENS)
  {
  }

  lemma LeftRowIs(p: bv32)
    ensures LeftRow(p) == Image(Lefts(p), UPPERS)
  {
  }

  lemma LeftColumnIs(p: bv32)
    ensures LeftColumn(p) == Image(Lefts(p), TOPS)
  {
  }

  lemma StepsAreLinear(p: bv32, a: bv32, b: bv32, n: nat)
    ensures Steps(Right(p), Xor(a, b), n) == Xor(Steps(Right(p), a, n), Steps(Right(p), b, n))
    ensures Steps(Left(p), Xor(a, b), n) == Xor(Steps(Left(p), a, n), Steps(Left(p), b, n))
  {
    forall c, d ensures LinearAt(Xor, Right(p), c, d) {
      RightLinear(p, c, d);
    }
    StepsLinear(Xor, Right(p), a, b, n);
    forall c, d ensures LinearAt(Xor, Left(p), c, d) {
      LeftLinear(p, c, d);
    }
    StepsLinear(Xor, Left(p), a, b, n);
  }

  lemma EightIs(p: bv32, c: bv32)
    ensures EightRight(p, c) == Steps(Right(p), c, 8) && EightLeft(p, c) == Steps(Left(p), c, 8)
  {
    EightSteps(Right(p), c);
    EightSteps(Left(p), c);
  }

  lemma NibblesJoin(x: bv32)
    requires Byte(x) == x
    ensures Xor(HighNibble(x) << 4, LowNibble(x)) == x
    ensures Xor(HighNibble(x) << 28, LowNibble(x) << 24) == ToTop(x)
  {
  }

  lemma SixteenAt(i: nat)
    requires i < 16
    ensures SIXTEENS.At(i) == NIBBLES.At(i) << 4
  {
  }

  lemma TopAt(i: nat)
    requires i < 16
    ensures TOPS.At(i) == NIBBLES.At(i) << 28
  {
  }

  lemma UpperAt(i: nat)
    requires i < 16
    ensures UPPERS.At(i) == NIBBLES.At(i) << 24
  {
  }

  /** What is checked of the words of a table for the reflected register. */
  ghost predicate TableRight(t: Sixteen<Sixteen<bv32>>, p: bv32) {
    TableLinear(t) && t.v0 == RightRow(p) && Column(t) == RightColumn(p)
  }

  ghost predicate TableLeft(t: Sixteen<Sixteen<bv32>>, p: bv32) {
    TableLinear(t) && t.v0 == LeftRow(p) && Column(t) == LeftColumn(p)
  }

  lemma CellRight(t: Sixteen<Sixteen<bv32>>, p: bv32, i: nat, j: nat)
    requires TableRight(t, p) && i < 16 && j < 16
    ensures t.At(i).At(j) == Xor(EightRight(p, SIXTEENS.At(i)), EightRight(p, NIBBLES.At(j)))
  {
    TableMixes(t);
    RightRowIs(p);
    RightColumnIs(p);
    CellAt(t, Xor, Rights(p), SIXTEENS, NIBBLES, i, j);
  }

  lemma CellLeft(t: Sixteen<Sixteen<bv32>>, p: bv32, i: nat, j: nat)
    requires TableLeft(t, p) && i < 16 && j < 16
    ensures t.At(i).At(j) == Xor(EightLeft(p, TOPS.At(i)), EightLeft(p, UPPERS.At(j)))
  {
    TableMixes(t);
    LeftRowIs(p);
    LeftColumnIs(p);
    CellAt(t, Xor, Lefts(p), TOPS, UPPERS, i, j);
  }

  lemma EightJoin(p: bv32, a: bv32, b: bv32, x: bv32)
    requires Xor(a, b) == x
    ensures Xor(EightRight(p, a), EightRight(p, b)) == Steps(Right(p), x, 8)
    ensures Xor(EightLeft(p, a), EightLeft(p, b)) == Steps(Left(p), x, 8)
  {
    EightIs(p, a);
    EightIs(p, b);
    StepsAreLinear(p, a, b, 8);
  }

  /** Every entry of such a table is its index after eight steps. */
  lemma EntryRight(t: Sixteen<Sixteen<bv32>>, p: bv32, x: bv32)
    requires TableRight(t, p) && Byte(x) == x
    ensures Lookup(t, x) == Steps(Right(p), x, 8)
  {
    NibbleBounds(x);
    NibblesJoin(x);
    var i, j := NibbleIndex(HighNibble(x)), NibbleIndex(LowNibble(x));
    CellRight(t, p, i, j);
    SixteenAt(i);
    EightJoin(p, SIXTEENS.At(i), NIBBLES.At(j), x);
  }

  lemma EntryLeft(t: Sixteen<Sixteen<bv32>>, p: bv32, x: bv32)
    requires TableLeft(t, p) && Byte(x) == x
    ensures Lookup(t, x) == Steps(Left(p), ToTop(x), 8)
  {
    NibbleBounds(x);
    NibblesJoin(x);
    var i, j := NibbleIndex(HighNibble(x)), NibbleIndex(LowNibble(x));
    CellLeft(t, p, i, j);
    TopAt(i);
    UpperAt(j);
    EightJoin(p, TOPS.At(i), UPPERS.At(j), ToTop(x));
  }
}
