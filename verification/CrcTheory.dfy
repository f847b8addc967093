/**
 * Shift registers over words of any kind.  Nothing is assumed of the words but
 * the laws stated as hypotheses, so the same lemmas serve the reflected register,
 * the plain register and long division.
 */
module ShiftRegisters {

  function Steps<W>(f: W -> W, c: W, n: nat): W
    decreases n
  {
    if n == 0 then c else Steps(f, f(c), n - 1)
  }

  /** Feeds bits into a register, one at a time. */
  function Feed<W>(step: (W, bool) -> W, c: W, bits: seq<bool>): W
    decreases |bits|
  {
    if bits == [] then c else Feed(step, step(c, bits[0]), bits[1..])
  }

  /** The first `n` bits of a word, in the order in which `shift` brings them out. */
  function Bits<W>(out: W -> bool, shift: W -> W, y: W, n: nat): (bits: seq<bool>)
    ensures |bits| == n
    decreases n
  {
    if n == 0 then [] else [out(y)] + Bits(out, shift, shift(y), n - 1)
  }

  function Zeros(n: nat): (z: seq<bool>)
    ensures |z| == n
  {
    seq(n, _ => false)
  }

  lemma {:induction false} FeedConcat<W>(step: (W, bool) -> W, c: W, a: seq<bool>, b: seq<bool>)
    ensures Feed(step, c, a + b) == Feed(step, Feed(step, c, a), b)
    decreases |a|
  {
    if a == [] {
      assert a + b == b;
    } else {
      assert (a + b)[1..] == a[1..] + b;
      FeedConcat(step, step(c, a[0]), a[1..], b);
    }
  }

  lemma {:induction false} StepsAdd<W>(f: W -> W, c: W, m: nat, n: nat)
    ensures Steps(f, c, m + n) == Steps(f, Steps(f, c, m), n)
    decreases m
  {
    if m > 0 {
      StepsAdd(f, f(c), m - 1, n);
    }
  }

  lemma {:induction false} StepsCommute<W>(f: W -> W, c: W, n: nat)
    ensures Steps(f, f(c), n) == f(Steps(f, c, n))
    decreases n
  {
    if n > 0 {
      StepsCommute(f, f(c), n - 1);
    }
  }

  lemma FourSteps<W>(f: W -> W, c: W)
    ensures Steps(f, c, 4) == f(f(f(f(c))))
  {
    assert Steps(f, c, 4) == Steps(f, f(c), 3) == Steps(f, f(f(c)), 2) == Steps(f, f(f(f(c))), 1);
  }

  lemma FourChain<W>(f: W -> W, c: W, c1: W, c2: W, c3: W, c4: W)
    requires f(c) == c1 && f(c1) == c2 && f(c2) == c3 && f(c3) == c4
    ensures Steps(f, c, 4) == c4
  {
    FourSteps(f, c);
  }

  lemma EightSteps<W>(f: W -> W, c: W)
    ensures Steps(f, c, 8) == f(f(f(f(f(f(f(f(c))))))))
  {
    StepsAdd(f, c, 4, 4);
    FourSteps(f, c);
    FourSteps(f, Steps(f, c, 4));
  }

  lemma StepsTwice<W>(f: W -> W, a: W, b: W, c: W, n: nat)
    requires Steps(f, a, n) == b && Steps(f, b, n) == c
    ensures Steps(f, a, 2 * n) == c
  {
    StepsAdd(f, a, n, n);
  }

  lemma ZeroBit<W>(out: W -> bool, shift: W -> W, y: W, n: nat)
    requires !out(y) && Bits(out, shift, shift(y), n) == Zeros(n)
    ensures Bits(out, shift, y, n + 1) == Zeros(n + 1)
  {
  }

  ghost predicate XorBitAt<W>(xor: (W, W) -> W, out: W -> bool, shift: W -> W, a: W, b: W) {
    out(xor(a, b)) == (out(a) != out(b)) && shift(xor(a, b)) == xor(shift(a), shift(b))
  }

  /** Feeding a zero is a plain step. */
  ghost predicate ZeroAt<W>(f: W -> W, step: (W, bool) -> W, c: W) {
    step(c, false) == f(c)
  }

  lemma {:induction false} FeedZeros<W(!new)>(f: W -> W, step: (W, bool) -> W, c: W, n: nat)
    requires forall c' :: ZeroAt(f, step, c')
    ensures Feed(step, c, Zeros(n)) == Steps(f, c, n)
    decreases n
  {
    if n > 0 {
      assert ZeroAt(f, step, c);
      assert Zeros(n)[1..] == Zeros(n - 1);
      FeedZeros(f, step, f(c), n - 1);
    }
  }

  // ---------- Many bits at once ----------

  /** Stepping with a word mixed in: its first bit is fed, the rest moves up. */
  ghost predicate AbsorbAt<W>(xor: (W, W) -> W, f: W -> W, step: (W, bool) -> W, out: W -> bool, shift: W -> W,
                               s: W, y: W) {
    f(xor(s, y)) == xor(step(s, out(y)), shift(y))
  }

  /** Feeding bits one at a time equals mixing them all in first and stepping. */
  lemma {:induction false} FeedAtOnce<W(!new)>(
    xor: (W, W) -> W, f: W -> W, step: (W, bool) -> W, out: W -> bool, shift: W -> W, s: W, y: W, n: nat)
    requires forall s', y' :: AbsorbAt(xor, f, step, out, shift, s', y')
    ensures Steps(f, xor(s, y), n) == xor(Feed(step, s, Bits(out, shift, y, n)), Steps(shift, y, n))
    decreases n
  {
    if n > 0 {
      assert AbsorbAt(xor, f, step, out, shift, s, y);
      FeedAtOnce(xor, f, step, out, shift, step(s, out(y)), shift(y), n - 1);
      assert Bits(out, shift, y, n)[1..] == Bits(out, shift, shift(y), n - 1);
    }
  }

  // ---------- Mirror images ----------

  ghost predicate FeedMirrorAt<W>(m: W -> W, right: (W, bool) -> W, left: (W, bool) -> W, c: W, b: bool) {
    right(m(c), b) == m(left(c, b))
  }

  lemma {:induction false} FeedMirror<W(!new)>(m: W -> W, right: (W, bool) -> W, left: (W, bool) -> W, c: W,
      bits: seq<bool>)
    requires forall c', b :: FeedMirrorAt(m, right, left, c', b)
    ensures Feed(right, m(c), bits) == m(Feed(left, c, bits))
    decreases |bits|
  {
    if bits != [] {
      assert FeedMirrorAt(m, right, left, c, bits[0]);
      FeedMirror(m, right, left, left(c, bits[0]), bits[1..]);
    }
  }

  ghost predicate StepMirrorAt<W>(m: W -> W, right: W -> W, left: W -> W, c: W) {
    right(m(c)) == m(left(c))
  }

  lemma {:induction false} StepsMirror<W(!new)>(m: W -> W, right: W -> W, left: W -> W, c: W, n: nat)
    requires forall c' :: StepMirrorAt(m, right, left, c')
    ensures Steps(right, m(c), n) == m(Steps(left, c, n))
    decreases n
  {
    if n > 0 {
      assert StepMirrorAt(m, right, left, c);
      StepsMirror(m, right, left, left(c), n - 1);
    }
  }

  ghost predicate BitMirrorAt<W>(m: W -> W, low: W -> bool, down: W -> W, high: W -> bool, up: W -> W, y: W) {
    low(m(y)) == high(y) && down(m(y)) == m(up(y))
  }

  lemma {:induction false} BitsMirror<W(!new)>(m: W -> W, low: W -> bool, down: W -> W, high: W -> bool, up: W -> W,
      y: W, n: nat)
    requires forall y' :: BitMirrorAt(m, low, down, high, up, y')
    ensures Bits(high, up, y, n) == Bits(low, down, m(y), n)
    decreases n
  {
    if n > 0 {
      assert BitMirrorAt(m, low, down, high, up, y);
      BitsMirror(m, low, down, high, up, up(y), n - 1);
    }
  }

  // ---------- Division ----------

  ghost predicate LinearAt<W>(xor: (W, W) -> W, f: W -> W, a: W, b: W) {
    f(xor(a, b)) == xor(f(a), f(b))
  }

  ghost predicate SwapAt<W>(xor: (W, W) -> W, a: W, b: W, c: W) {
    xor(xor(a, b), c) == xor(xor(a, c), b)
  }

  lemma {:induction false} StepsLinear<W(!new)>(xor: (W, W) -> W, f: W -> W, a: W, b: W, n: nat)
    requires forall a', b' :: LinearAt(xor, f, a', b')
    ensures Steps(f, xor(a, b), n) == xor(Steps(f, a, n), Steps(f, b, n))
    decreases n
  {
    if n > 0 {
      assert LinearAt(xor, f, a, b);
      StepsLinear(xor, f, f(a), f(b), n - 1);
    }
  }

  /** The step `f` shifts, and adds `p` where the bit shifted out is set. */
  ghost predicate ReduceAt<W>(xor: (W, W) -> W, f: W -> W, out: W -> bool, shift: W -> W, p: W, c: W) {
    f(c) == if out(c) then xor(shift(c), p) else shift(c)
  }

  /** Two steps that reduce in mirror image of each other. */
  lemma ReduceMirror<W>(m: W -> W, xor: (W, W) -> W, right: W -> W, low: W -> bool, down: W -> W,
                        left: W -> W, high: W -> bool, up: W -> W, p: W, c: W)
    requires ReduceAt(xor, right, low, down, m(p), m(c)) && ReduceAt(xor, left, high, up, p, c)
    requires BitMirrorAt(m, low, down, high, up, c) && LinearAt(xor, m, up(c), p)
    ensures StepMirrorAt(m, right, left, c)
  {
  }

  /** Feeding a bit is a step from `x` or `y`, the register with the bit added: fed registers mirror each other too. */
  lemma FeedMirrors<W>(m: W -> W, right: W -> W, left: W -> W, feedRight: (W, bool) -> W, feedLeft: (W, bool) -> W,
                       x: W, y: W, c: W, b: bool)
    requires m(y) == x && StepMirrorAt(m, right, left, y) && feedRight(m(c), b) == right(x) && feedLeft(c, b) == left(y)
    ensures FeedMirrorAt(m, feedRight, feedLeft, c, b)
  {
  }

  /** Sums of two words and twice the same word. */
  ghost predicate RegroupAt<W>(xor: (W, W) -> W, u: W, v: W, p: W) {
    && xor(xor(u, v), p) == xor(xor(u, p), v)
    && xor(xor(u, v), p) == xor(u, xor(v, p))
    && xor(xor(u, p), xor(v, p)) == xor(u, v)
  }

  lemma ReduceLinear<W>(xor: (W, W) -> W, f: W -> W, out: W -> bool, shift: W -> W, p: W, a: W, b: W)
    requires XorBitAt(xor, out, shift, a, b) && RegroupAt(xor, shift(a), shift(b), p)
    requires ReduceAt(xor, f, out, shift, p, a) && ReduceAt(xor, f, out, shift, p, b)
    requires ReduceAt(xor, f, out, shift, p, xor(a, b))
    ensures LinearAt(xor, f, a, b)
  {
  }

  /** A linear step absorbs a word: `g` is what the step makes of the bit that is shifted out. */
  lemma LinearAbsorbs<W>(xor: (W, W) -> W, f: W -> W, step: (W, bool) -> W, out: W -> bool, shift: W -> W, s: W, y: W,
      g: W)
    requires LinearAt(xor, f, s, y) && step(s, out(y)) == xor(f(s), g) && f(y) == xor(g, shift(y))
    requires xor(f(s), xor(g, shift(y))) == xor(xor(f(s), g), shift(y))
    ensures AbsorbAt(xor, f, step, out, shift, s, y)
  {
  }

  lemma {:induction false} OutXor<W(!new)>(xor: (W, W) -> W, out: W -> bool, shift: W -> W, a: W, b: W, n: nat)
    requires forall a', b' :: XorBitAt(xor, out, shift, a', b')
    ensures out(Steps(shift, xor(a, b), n)) == (out(Steps(shift, a, n)) != out(Steps(shift, b, n)))
    decreases n
  {
    assert XorBitAt(xor, out, shift, a, b);
    if n > 0 {
      OutXor(xor, out, shift, shift(a), shift(b), n - 1);
    }
  }

  /**
   * What relates bit-serial feeding (`left`) to long division (`divide`) in a
   * register of `k` bits: a fed bit adds `top(b)`, a bit brought down adds
   * `unit(b)`, and `k` steps turn `unit(b)` into `top(b)`.
   */
  ghost predicate DividesAt<W>(xor: (W, W) -> W, f: W -> W, left: (W, bool) -> W, divide: (W, bool) -> W,
                               top: bool -> W, unit: bool -> W, k: nat, c: W, b: bool) {
    left(c, b) == xor(f(c), top(b)) && divide(c, b) == xor(f(c), unit(b)) && Steps(f, unit(b), k) == top(b)
  }

  lemma DivideBit<W(!new)>(xor: (W, W) -> W, f: W -> W, left: (W, bool) -> W, divide: (W, bool) -> W,
                           top: bool -> W, unit: bool -> W, k: nat, r: W, c: W, b: bool)
    requires forall a', b' :: LinearAt(xor, f, a', b')
    requires forall a', b', c' :: SwapAt(xor, a', b', c')
    requires forall c', b' :: DividesAt(xor, f, left, divide, top, unit, k, c', b')
    ensures left(xor(Steps(f, r, k), c), b) == xor(Steps(f, divide(r, b), k), f(c))
  {
    var z := Steps(f, r, k);
    assert DividesAt(xor, f, left, divide, top, unit, k, xor(z, c), b);
    assert DividesAt(xor, f, left, divide, top, unit, k, r, b);
    assert LinearAt(xor, f, z, c) && SwapAt(xor, f(z), f(c), top(b));
    StepsLinear(xor, f, f(r), unit(b), k);
    StepsCommute(f, r, k);
  }

  lemma {:induction false} SerialIsDivision<W(!new)>(
    xor: (W, W) -> W, f: W -> W, left: (W, bool) -> W, divide: (W, bool) -> W, top: bool -> W, unit: bool -> W, k: nat,
    r: W, c: W, bits: seq<bool>)
    requires forall a', b' :: LinearAt(xor, f, a', b')
    requires forall a', b', c' :: SwapAt(xor, a', b', c')
    requires forall c', b' :: DividesAt(xor, f, left, divide, top, unit, k, c', b')
    ensures Feed(left, xor(Steps(f, r, k), c), bits) == xor(Steps(f, Feed(divide, r, bits), k), Steps(f, c, |bits|))
    decreases |bits|
  {
    if bits != [] {
      DivideBit(xor, f, left, divide, top, unit, k, r, c, bits[0]);
      SerialIsDivision(xor, f, left, divide, top, unit, k, divide(r, bits[0]), f(c), bits[1..]);
    }
  }
}
