/** Polynomials over the field of two elements, as the sets of their exponents. */
module Polynomials {
  import opened ShiftRegisters

  type Poly = set<nat>

  function Add(a: Poly, b: Poly): Poly {
    (a - b) + (b - a)
  }

  function TimesX(a: Poly): Poly {
    set e | e in a :: e + 1
  }

  function Shifted(a: Poly, n: nat): Poly {
    if n == 0 then a else TimesX(Shifted(a, n - 1))
  }

  function Scaled(b: bool, g: Poly): Poly {
    if b then g else {}
  }

  /** The polynomial with the given coefficients, highest first, by Horner's rule. */
  function Value(bits: seq<bool>): Poly {
    Times(bits, {0})
  }

  /** The product of the polynomial with coefficients `q`, highest first, and `g`. */
  function Times(q: seq<bool>, g: Poly): Poly {
    if q == [] then {} else Add(TimesX(Times(q[..|q| - 1], g)), Scaled(q[|q| - 1], g))
  }

  lemma TimesSnoc(q: seq<bool>, b: bool, g: Poly)
    ensures Times(q + [b], g) == Add(TimesX(Times(q, g)), Scaled(b, g))
  {
    assert (q + [b])[..|q|] == q;
  }

  lemma TimesXAt(a: Poly, e: nat)
    ensures e + 1 in TimesX(a) <==> e in a
  {
    if e + 1 in TimesX(a) {
      var d :| d in a && d + 1 == e + 1;
    }
  }

  lemma TimesXAdd(a: Poly, b: Poly)
    ensures TimesX(Add(a, b)) == Add(TimesX(a), TimesX(b))
  {
    forall e ensures e in TimesX(Add(a, b)) <==> e in Add(TimesX(a), TimesX(b)) {
      if e > 0 {
        TimesXAt(a, e - 1);
        TimesXAt(b, e - 1);
        TimesXAt(Add(a, b), e - 1);
      }
    }
  }

  /** Sums may be regrouped. */
  lemma AddPairs(a: Poly, b: Poly, c: Poly, d: Poly)
    ensures Add(Add(a, b), Add(c, d)) == Add(Add(a, c), Add(b, d))
  {
  }

  lemma AddAssoc(a: Poly, b: Poly, c: Poly)
    ensures Add(Add(a, b), c) == Add(a, Add(b, c))
  {
  }

  // ---------- Sums and shifts of products ----------

  function XorBits(u: seq<bool>, v: seq<bool>): (w: seq<bool>)
    requires |u| == |v|
    ensures |w| == |u|
  {
    seq(|u|, i requires 0 <= i < |u| => u[i] != v[i])
  }

  lemma {:induction false} TimesXor(u: seq<bool>, v: seq<bool>, g: Poly)
    requires |u| == |v|
    ensures Times(XorBits(u, v), g) == Add(Times(u, g), Times(v, g))
    decreases |u|
  {
    if u != [] {
      var n := |u| - 1;
      TimesXor(u[..n], v[..n], g);
      assert XorBits(u, v)[..n] == XorBits(u[..n], v[..n]);
      TimesXAdd(Times(u[..n], g), Times(v[..n], g));
      AddPairs(TimesX(Times(u[..n], g)), Scaled(u[n], g), TimesX(Times(v[..n], g)), Scaled(v[n], g));
      assert Scaled(u[n] != v[n], g) == Add(Scaled(u[n], g), Scaled(v[n], g));
    }
  }

  lemma {:induction false} TimesZeros(n: nat, g: Poly)
    ensures Times(Zeros(n), g) == {}
  {
    if n > 0 {
      assert Zeros(n)[..n - 1] == Zeros(n - 1);
      TimesZeros(n - 1, g);
    }
  }

  /** Leading zeros do not count. */
  lemma {:induction false} TimesPadded(n: nat, q: seq<bool>, g: Poly)
    ensures Times(Zeros(n) + q, g) == Times(q, g)
    decreases |q|
  {
    if q == [] {
      assert Zeros(n) + q == Zeros(n);
      TimesZeros(n, g);
    } else {
      assert (Zeros(n) + q)[..n + |q| - 1] == Zeros(n) + q[..|q| - 1];
      TimesPadded(n, q[..|q| - 1], g);
    }
  }

  /** Trailing zeros multiply by a power of x. */
  lemma {:induction false} TimesTrailing(q: seq<bool>, n: nat, g: Poly)
    ensures Times(q + Zeros(n), g) == Shifted(Times(q, g), n)
  {
    if n == 0 {
      assert q + Zeros(n) == q;
    } else {
      var shorter := q + Zeros(n - 1);
      TimesTrailing(q, n - 1, g);
      OneZeroMore(q, n);
      TimesSnoc(shorter, false, g);
      AddNothing(TimesX(Times(shorter, g)));
    }
  }

  lemma OneZeroMore(q: seq<bool>, n: nat)
    requires n > 0
    ensures q + Zeros(n) == (q + Zeros(n - 1)) + [false]
  {
  }

  lemma AddNothing(a: Poly)
    ensures Add(a, {}) == a
  {
  }

  lemma {:induction false} ShiftedZero(n: nat)
    ensures Shifted({}, n) == {}
  {
    if n > 0 {
      ShiftedZero(n - 1);
    }
  }

  // ---------- Degrees ----------

  ghost predicate Below(a: Poly, n: nat) {
    forall e :: e in a ==> e < n
  }

  /** A product with a polynomial of degree n is zero or has a term of degree at least n. */
  lemma {:induction false} TimesDegree(q: seq<bool>, g: Poly, n: nat)
    requires n in g && Below(g, n + 1)
    ensures Times(q, g) == {} || exists e :: e in Times(q, g) && e >= n
    decreases |q|
  {
    if q != [] {
      var front := Times(q[..|q| - 1], g);
      TimesDegree(q[..|q| - 1], g, n);
      if front != {} {
        var e :| e in front && e >= n;
        TimesXAt(front, e);
        assert e + 1 in Times(q, g);
      } else if q[|q| - 1] {
        assert n in Times(q, g);
      }
    }
  }

  lemma SameLengthUnique(q: seq<bool>, q': seq<bool>, g: Poly, n: nat, a: Poly, b: Poly)
    requires n in g && Below(g, n + 1) && Below(a, n) && Below(b, n) && |q| == |q'|
    requires Add(Times(q, g), a) == Add(Times(q', g), b)
    ensures a == b
  {
    var p := XorBits(q, q');
    TimesXor(q, q', g);
    SameSum(Times(q, g), a, Times(q', g), b);
    TimesDegree(p, g, n);
    assert Add(a, b) == {};
  }

  /** Remainders by a polynomial of degree n are unique. */
  lemma RemainderUnique(q: seq<bool>, q': seq<bool>, g: Poly, n: nat, a: Poly, b: Poly)
    requires n in g && Below(g, n + 1) && Below(a, n) && Below(b, n)
    requires Add(Times(q, g), a) == Add(Times(q', g), b)
    ensures a == b
  {
    TimesPadded(|q'|, q, g);
    TimesPadded(|q|, q', g);
    SameLengthUnique(Zeros(|q'|) + q, Zeros(|q|) + q', g, n, a, b);
  }

  lemma SameSum(x: Poly, a: Poly, y: Poly, b: Poly)
    requires Add(x, a) == Add(y, b)
    ensures Add(x, y) == Add(a, b)
  {
    forall e ensures e in Add(x, y) <==> e in Add(a, b) {
      assert e in Add(x, a) <==> e in Add(y, b);
    }
  }
}

/** The division loop computes remainders in the sense of polynomial arithmetic. */
module CrcDivision {
  import opened ShiftRegisters
  import opened Polynomials
  import opened CrcWords

  /** The coefficient of x^e, for e < 32. */
  predicate Coefficient(c: bv32, e: nat)
    requires e < 32
  {
    High(Steps(Up, c, 31 - e))
  }

  /** A word as a polynomial. */
  function Word(c: bv32): Poly {
    set e: nat | e < 32 && Coefficient(c, e)
  }

  /** x^32 + p */
  function FullGenerator(p: bv32): Poly {
    Add({32}, Word(p))
  }

  // ---------- Words ----------

  lemma CoefficientXor(a: bv32, b: bv32, e: nat)
    requires e < 32
    ensures Coefficient(Xor(a, b), e) <==> Coefficient(a, e) != Coefficient(b, e)
  {
    forall u, v ensures XorBitAt(Xor, High, Up, u, v) {
      HighLaw(u, v);
    }
    OutXor(Xor, High, Up, a, b, 31 - e);
  }

  lemma WordXor(a: bv32, b: bv32)
    ensures Word(Xor(a, b)) == Add(Word(a), Word(b))
  {
    forall e: nat | e < 32 ensures Coefficient(Xor(a, b), e) <==> Coefficient(a, e) != Coefficient(b, e) {
      CoefficientXor(a, b, e);
    }
  }

  lemma UpEight(c: bv32, d: bv32)
    requires d == c << 8
    ensures Steps(Up, c, 8) == d
  {
    EightSteps(Up, c);
  }

  lemma UpAll(c: bv32)
    ensures Steps(Up, c, 32) == 0
  {
    var a, b := c << 8, c << 16;
    var d := c << 24;
    UpEight(c, a);
    UpEight(a, b);
    UpEight(b, d);
    UpEight(d, 0);
    StepsTwice(Up, c, a, b, 8);
    StepsTwice(Up, b, d, 0, 8);
    StepsTwice(Up, c, b, 0, 16);
  }

  lemma CoefficientUp(c: bv32, e: nat)
    requires e < 32
    ensures Coefficient(Up(c), e) <==> e > 0 && Coefficient(c, e - 1)
  {
    if e == 0 {
      UpAll(c);
      assert Steps(Up, Up(c), 31) == Steps(Up, c, 32);
    }
  }

  /** Multiplying a word by x moves its coefficients up; the highest leaves the word. */
  lemma WordUp(c: bv32)
    ensures TimesX(Word(c)) == Add(Scaled(High(c), {32}), Word(Up(c)))
  {
    assert Coefficient(c, 31) == High(c);
    forall e: nat ensures e in TimesX(Word(c)) <==> e in Add(Scaled(High(c), {32}), Word(Up(c))) {
      if e > 0 {
        TimesXAt(Word(c), e - 1);
      }
      if e < 32 {
        CoefficientUp(c, e);
      }
    }
  }

  /** A step of the register multiplies by x and subtracts the generator if it fits. */
  lemma WordStep(p: bv32, c: bv32)
    ensures TimesX(Word(c)) == Add(Scaled(High(c), FullGenerator(p)), Word(Left(p)(c)))
  {
    WordUp(c);
    LeftReduces(p, c);
    if High(c) {
      WordXor(Up(c), p);
      AddCancels({32}, Word(p), Word(Up(c)));
    }
  }

  lemma AddCancels(a: Poly, b: Poly, c: Poly)
    ensures Add(Add(a, b), Add(c, b)) == Add(a, c)
  {
  }

  lemma WordBelow(c: bv32)
    ensures Below(Word(c), 32) && 32 in FullGenerator(c) && Below(FullGenerator(c), 33)
  {
  }

  // ---------- The words 0 and 1 ----------

  lemma {:induction false} UpsOfZero(n: nat)
    ensures Steps(Up, 0, n) == 0
  {
    if n > 0 {
      UpsOfZero(n - 1);
    }
  }

  lemma WordZero()
    ensures Word(0) == {}
  {
    forall e: nat | e < 32 ensures !Coefficient(0, e) {
      UpsOfZero(31 - e);
    }
  }

  lemma FourUps(c: bv32, d: bv32, i: nat)
    requires c & 0xF0000000 == 0 && d == c << 4 && i < 4
    ensures !High(Steps(Up, c, i)) && Steps(Up, c, 4) == d
  {
    Ups(c);
    FourChain(Up, c, c << 1, c << 2, c << 3, d);
    assert Steps(Up, c, 1) == c << 1;
    assert Steps(Up, c, 2) == Steps(Up, c << 1, 1) == c << 2;
    assert Steps(Up, c, 3) == Steps(Up, c << 1, 2) == Steps(Up, c << 2, 1) == c << 3;
  }

  /** The word 1, moved up by 4q. */
  function Nibbled(q: nat): bv32
    requires q < 8
  {
    if q == 0 then 0x1 else if q == 1 then 0x10 else if q == 2 then 0x100 else if q == 3 then 0x1000
    else if q == 4 then 0x10000 else if q == 5 then 0x100000 else if q == 6 then 0x1000000 else 0x10000000
  }

  lemma NibbledNext(q: nat, c: bv32, d: bv32)
    requires q < 7 && c == Nibbled(q) && d == Nibbled(q + 1)
    ensures c & 0xF0000000 == 0 && d == c << 4
  {
  }

  lemma {:induction false} OneUp(q: nat)
    requires q < 8
    ensures Steps(Up, 1, 4 * q) == Nibbled(q)
  {
    if q > 0 {
      OneUp(q - 1);
      NibbledNext(q - 1, Nibbled(q - 1), Nibbled(q));
      FourUps(Nibbled(q - 1), Nibbled(q), 0);
      StepsAdd(Up, 1, 4 * (q - 1), 4);
    }
  }

  lemma LastNibble(i: nat)
    requires i < 4
    ensures High(Steps(Up, 0x10000000, i)) <==> i == 3
  {
    assert Up(0x10000000) == 0x20000000 && Up(0x20000000) == 0x40000000 && Up(0x40000000) == 0x80000000;
    assert Steps(Up, 0x10000000, 1) == 0x20000000;
    assert Steps(Up, 0x10000000, 2) == Steps(Up, 0x20000000, 1) == 0x40000000;
    assert Steps(Up, 0x10000000, 3) == Steps(Up, 0x20000000, 2) == Steps(Up, 0x40000000, 1) == 0x80000000;
  }

  lemma InnerNibble(q: nat, i: nat, c: bv32)
    requires q < 7 && i < 4 && c == Steps(Up, 1, 4 * q)
    ensures !High(Steps(Up, c, i))
  {
    OneUp(q);
    OneUp(q + 1);
    var d := Steps(Up, 1, 4 * (q + 1));
    NibbledNext(q, c, d);
    FourUps(c, d, i);
  }

  lemma OneHigh(q: nat, i: nat)
    requires q < 8 && i < 4
    ensures High(Steps(Up, 1, 4 * q + i)) <==> q == 7 && i == 3
  {
    StepsAdd(Up, 1, 4 * q, i);
    if q < 7 {
      InnerNibble(q, i, Steps(Up, 1, 4 * q));
    } else {
      OneUp(7);
      LastNibble(i);
    }
  }

  lemma OneCoefficient(e: nat)
    requires e < 32
    ensures Coefficient(1, e) <==> e == 0
  {
    var q, i := (31 - e) / 4, (31 - e) % 4;
    assert 31 - e == 4 * q + i;
    OneHigh(q, i);
  }

  lemma WordBit(b: bool)
    ensures Word(Bit(b)) == Scaled(b, {0})
  {
    if b {
      forall e: nat | e < 32 ensures Coefficient(1, e) <==> e == 0 {
        OneCoefficient(e);
      }
    } else {
      WordZero();
    }
  }

  // ---------- Division ----------

  /** The coefficients of the quotient: the bits at which the generator was subtracted. */
  function Quotient(p: bv32, r: bv32, bits: seq<bool>): (q: seq<bool>)
    ensures |q| == |bits|
  {
    if bits == [] then []
    else Quotient(p, r, bits[..|bits| - 1]) + [High(Remainder(p, r, bits[..|bits| - 1]))]
  }

  lemma RemainderSnoc(p: bv32, r: bv32, bits: seq<bool>, b: bool)
    ensures Remainder(p, r, bits + [b]) == Divide(p)(Remainder(p, r, bits), b)
  {
    FeedConcat(Divide(p), r, bits, [b]);
    assert [b][1..] == [];
  }

  lemma DivideWord(p: bv32, c: bv32, b: bool)
    ensures Word(Divide(p)(c, b)) == Add(Word(Left(p)(c)), Scaled(b, {0}))
  {
    WordXor(Left(p)(c), Bit(b));
    WordBit(b);
  }

  /** One more bit: both sides of the division identity are multiplied by x, and the bit is added. */
  lemma DivideOn(s: Poly, v: Poly, m: Poly, w: Poly, h: bool, g: Poly, w': Poly, b: bool)
    requires Add(s, v) == Add(m, w) && TimesX(w) == Add(Scaled(h, g), w')
    ensures Add(TimesX(s), Add(TimesX(v), Scaled(b, {0}))) == Add(Add(TimesX(m), Scaled(h, g)), Add(w', Scaled(b, {0})))
  {
    TimesXAdd(s, v);
    TimesXAdd(m, w);
    AddAssoc(TimesX(s), TimesX(v), Scaled(b, {0}));
    AddAssoc(TimesX(m), Scaled(h, g), w');
    AddAssoc(Add(TimesX(m), Scaled(h, g)), w', Scaled(b, {0}));
  }

  /** Dividend = quotient * generator + remainder, where the dividend is r * x^n + bits. */
  lemma {:induction false} Divides(p: bv32, r: bv32, bits: seq<bool>)
    ensures Add(Shifted(Word(r), |bits|), Value(bits))
         == Add(Times(Quotient(p, r, bits), FullGenerator(p)), Word(Remainder(p, r, bits)))
    decreases |bits|
  {
    if bits != [] {
      var front, b := bits[..|bits| - 1], bits[|bits| - 1];
      var c, q, g := Remainder(p, r, front), Quotient(p, r, front), FullGenerator(p);
      assert bits == front + [b];
      Divides(p, r, front);
      RemainderSnoc(p, r, front, b);
      DivideWord(p, c, b);
      WordStep(p, c);
      TimesSnoc(q, High(c), g);
      DivideOn(Shifted(Word(r), |front|), Value(front), Times(q, g), Word(c), High(c), g, Word(Left(p)(c)), b);
    }
  }
}
