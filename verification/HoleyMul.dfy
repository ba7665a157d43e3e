/** The carry-less 32 x 32 bit product that s_bmul32 computes with ordinary integer multiplications: every
    factor keeps one bit of each nibble, so a column of the integer product counts at most eight ones and
    never carries into the next nibble. */
module HoleyMul {
  import opened GcmField
  import opened CarrylessProduct

  /** The 64-bit machine product. */
  function Times(u: bv64, v: bv64): bv64 { u * v }
  function Plus(u: bv64, v: bv64): bv64 { u + v }
  function Sum4(a: bv64, b: bv64, c: bv64, d: bv64): bv64 { Xor(Xor(a, b), Xor(c, d)) }
  function UpNibble(u: bv64): bv64 { u << 4 }
  function DownNibble(u: bv64): bv64 { u >> 4 }
  /** The lowest bit of every nibble. */
  function Ones(u: bv64): bv64 { u & 0x1111_1111_1111_1111 }
  function Low(u: bv64): bv64 { u & 1 }
  function Bit(x: bv64, y: bv64): bv64 { if x & 1 == 1 then y else 0 }

  /** The macro s_bmul32: x and y split into four factors each, one bit of every nibble per factor; the product
      of factors i and j contributes to bit (i + j) mod 4 of the nibbles of the result. */
  function Bmul32(x: bv32, y: bv32): bv64 {
    var x0, x1, x2, x3 := (x & 0x1111_1111) as bv64, (x & 0x2222_2222) as bv64, (x & 0x4444_4444) as bv64,
      (x & 0x8888_8888) as bv64;
    var y0, y1, y2, y3 := (y & 0x1111_1111) as bv64, (y & 0x2222_2222) as bv64, (y & 0x4444_4444) as bv64,
      (y & 0x8888_8888) as bv64;
    Columns(
      Sum4(Times(x0, y0), Times(x1, y3), Times(x2, y2), Times(x3, y1)),
      Sum4(Times(x0, y1), Times(x1, y0), Times(x2, y3), Times(x3, y2)),
      Sum4(Times(x0, y2), Times(x1, y1), Times(x2, y0), Times(x3, y3)),
      Sum4(Times(x0, y3), Times(x1, y2), Times(x2, y1), Times(x3, y0)))
  }

  /** Bit i of every nibble from the i-th word. */
  function Columns(z0: bv64, z1: bv64, z2: bv64, z3: bv64): bv64 {
    (((z0 & 0x1111_1111_1111_1111) | (z1 & 0x2222_2222_2222_2222)) | (z2 & 0x4444_4444_4444_4444))
      | (z3 & 0x8888_8888_8888_8888)
  }

  // ---- laws of the machine product ----

  lemma MachineDistributes(u: bv64, v: bv64, w: bv64)
    ensures Times(u + v, w) == Times(u, w) + Times(v, w)
  {
    calc { Times(u, w) + Times(v, w); u * w + Times(v, w); u * w + v * w; (u + v) * w; Times(u + v, w); }
  }

  lemma PlusIs(u: bv64, v: bv64)
    ensures Plus(u, v) == u + v
  {}

  lemma TimesDistributes(u: bv64, v: bv64, w: bv64)
    ensures Times(Plus(u, v), w) == Plus(Times(u, w), Times(v, w))
  {
    hide *;
    MachineDistributes(u, v, w); PlusIs(u, v); PlusIs(Times(u, w), Times(v, w));
  }

  lemma TimesCommutes(u: bv64, v: bv64)
    ensures Times(u, v) == Times(v, u)
  {}

  lemma PlusSelf(u: bv64)
    ensures Plus(u, u) == Twice(u)
  {}

  lemma TimesTwice(u: bv64, w: bv64)
    ensures Times(Twice(u), w) == Twice(Times(u, w))
  {
    hide *;
    PlusSelf(u); TimesDistributes(u, u, w); PlusSelf(Times(u, w));
  }

  lemma FourTwices(u: bv64)
    ensures Twice(Twice(Twice(Twice(u)))) == UpNibble(u)
  {}

  lemma TimesUpNibble(u: bv64, w: bv64)
    ensures Times(UpNibble(u), w) == UpNibble(Times(u, w))
  {
    hide *;
    FourTwices(u); FourTwices(Times(u, w));
    TimesTwice(u, w); TimesTwice(Twice(u), w); TimesTwice(Twice(Twice(u)), w); TimesTwice(Twice(Twice(Twice(u))), w);
  }

  lemma TimesUnits(w: bv64)
    ensures Times(0, w) == 0 && Times(1, w) == w
  {}

  lemma LowBit(x: bv64)
    ensures (Low(x) == 0 && forall y :: Bit(x, y) == 0) || (Low(x) == 1 && forall y :: Bit(x, y) == y)
  {}

  lemma TimesLow(x: bv64, w: bv64)
    ensures Times(Low(x), w) == Bit(x, w)
  {
    hide *;
    TimesUnits(w); LowBit(x);
  }

  // ---- one factor with holes times another ----

  /** Bits 1 to 3 of the lowest nibble are clear. */
  ghost predicate Holed(x: bv64) { x & 14 == 0 }

  ghost predicate Holes(x: bv64, n: nat)
    decreases n
  {
    if n == 0 then x == 0 else Holed(x) && Holes(DownNibble(x), n - 1)
  }

  lemma SplitLow(x: bv64)
    requires Holed(x)
    ensures x == Plus(Low(x), UpNibble(DownNibble(x)))
  {}

  lemma TimesStep(x: bv64, y: bv64)
    requires Holed(x)
    ensures Times(x, y) == Plus(Bit(x, y), UpNibble(Times(DownNibble(x), y)))
  {
    hide *;
    SplitLow(x);
    TimesDistributes(Low(x), UpNibble(DownNibble(x)), y);
    TimesUpNibble(DownNibble(x), y);
    TimesLow(x, y);
  }

  /** The xor of the copies of y that bits 0, 4, 8, ... of x select, each shifted to its bit. */
  function Column(x: bv64, y: bv64, n: nat): bv64
    decreases n
  {
    if n == 0 then 0 else Xor(Bit(x, y), UpNibble(Column(DownNibble(x), y, n - 1)))
  }

  /** Each of the sixteen nibbles of p is at most n. */
  ghost predicate NibblesAtMost(p: bv64, n: bv64) {
    && p & 15 <= n && (p >> 4) & 15 <= n && (p >> 8) & 15 <= n && (p >> 12) & 15 <= n
    && (p >> 16) & 15 <= n && (p >> 20) & 15 <= n && (p >> 24) & 15 <= n && (p >> 28) & 15 <= n
    && (p >> 32) & 15 <= n && (p >> 36) & 15 <= n && (p >> 40) & 15 <= n && (p >> 44) & 15 <= n
    && (p >> 48) & 15 <= n && (p >> 52) & 15 <= n && (p >> 56) & 15 <= n && (p >> 60) & 15 <= n
  }

  /** n as a word, for n up to 8. */
  function Count(n: nat): bv64 {
    if n == 0 then 0 else if n == 1 then 1 else if n == 2 then 2 else if n == 3 then 3 else if n == 4 then 4
    else if n == 5 then 5 else if n == 6 then 6 else if n == 7 then 7 else 8
  }

  lemma CountStep(n: nat)
    requires 0 < n <= 8
    ensures Count(n - 1) < 8 && Count(n) == Count(n - 1) + 1
  {}

  lemma SumBounded(p: bv64, t: bv64, n: bv64)
    requires NibblesAtMost(p, n) && n < 8 && t & 0x1111_1111_1111_1111 == t
    ensures NibblesAtMost(t + p, n + 1)
  {}

  lemma SumParity(p: bv64, t: bv64, n: bv64)
    requires NibblesAtMost(p, n) && n < 8 && t & 0x1111_1111_1111_1111 == t
    ensures (t + p) & 0x1111_1111_1111_1111 == t ^ (p & 0x1111_1111_1111_1111)
  {}

  lemma OnesIs(t: bv64)
    ensures Ones(t) == t & 0x1111_1111_1111_1111
  {}

  lemma PlusBounded(p: bv64, t: bv64, n: bv64)
    requires NibblesAtMost(p, n) && n < 8 && Ones(t) == t
    ensures NibblesAtMost(Plus(t, p), n + 1)
  {
    hide *;
    PlusIs(t, p); OnesIs(t);
    SumBounded(p, t, n);
  }

  /** Adding a word with one bit per nibble to counts below 8 is an exclusive or in the lowest bits. */
  lemma PlusParity(p: bv64, t: bv64, n: bv64)
    requires NibblesAtMost(p, n) && n < 8 && Ones(t) == t
    ensures Ones(Plus(t, p)) == Xor(t, Ones(p))
  {
    hide *;
    calc {
      Ones(Plus(t, p));
      { PlusIs(t, p); OnesIs(Plus(t, p)); }
      (t + p) & 0x1111_1111_1111_1111;
      { OnesIs(t); SumParity(p, t, n); }
      t ^ (p & 0x1111_1111_1111_1111);
      { OnesIs(p); }
      t ^ Ones(p);
      { XorIs(t, Ones(p)); }
      Xor(t, Ones(p));
    }
  }

  lemma NibblesUp(p: bv64, n: bv64)
    requires NibblesAtMost(p, n)
    ensures NibblesAtMost(UpNibble(p), n) && Ones(UpNibble(p)) == UpNibble(Ones(p))
  {}

  lemma BitOnes(x: bv64, y: bv64)
    requires Ones(y) == y
    ensures Ones(Bit(x, y)) == Bit(x, y)
  {}

  lemma NoNibbles()
    ensures NibblesAtMost(0, Count(0)) && Ones(0) == 0
  {}

  /** Up to eight bits of x, one per nibble: the integer product never carries from one nibble into the next,
      and the lowest bits of its nibbles are the carry-less product. */
  lemma {:induction false} TimesColumn(x: bv64, y: bv64, n: nat)
    requires Holes(x, n) && Ones(y) == y && n <= 8
    ensures NibblesAtMost(Times(x, y), Count(n)) && Ones(Times(x, y)) == Column(x, y, n)
    decreases n
  {
    hide Times, Plus, Xor, UpNibble, DownNibble, Ones, Bit, Holed, NibblesAtMost, Count;
    if n == 0 {
      TimesUnits(y); NoNibbles();
    } else {
      var rest := Times(DownNibble(x), y);
      TimesColumn(DownNibble(x), y, n - 1);
      TimesStep(x, y);
      NibblesUp(rest, Count(n - 1));
      BitOnes(x, y);
      CountStep(n);
      PlusBounded(UpNibble(rest), Bit(x, y), Count(n - 1));
      PlusParity(UpNibble(rest), Bit(x, y), Count(n - 1));
    }
  }

  // ---- the columns are linear, and only see one bit per nibble ----

  lemma BitLinear(x: bv64, a: bv64, b: bv64)
    ensures Bit(x, Xor(a, b)) == Xor(Bit(x, a), Bit(x, b))
  {
    XorZero(0);
    hide Xor;
    if x & 1 == 1 {} else {}
  }

  lemma TwiceZero()
    ensures Twice(0) == 0
  {}

  lemma BitTwice(x: bv64, a: bv64)
    ensures Bit(x, Twice(a)) == Twice(Bit(x, a))
  {
    TwiceZero();
    hide Twice;
    if x & 1 == 1 {} else {}
  }

  lemma UpNibbleLinear(a: bv64, b: bv64)
    ensures UpNibble(Xor(a, b)) == Xor(UpNibble(a), UpNibble(b))
  {}

  lemma NibbleShiftsMix(a: bv64)
    ensures UpNibble(Twice(a)) == Twice(UpNibble(a)) && DownNibble(Half(a)) == Half(DownNibble(a))
    ensures UpNibble(0) == 0 && Twice(0) == 0
  {}

  lemma {:induction false} ColumnLinear(x: bv64, a: bv64, b: bv64, n: nat)
    ensures Column(x, Xor(a, b), n) == Xor(Column(x, a, n), Column(x, b, n))
    decreases n
  {
    hide Xor, Bit, UpNibble, DownNibble;
    if n == 0 {
      XorZero(0);
    } else {
      var p, q := Column(DownNibble(x), a, n - 1), Column(DownNibble(x), b, n - 1);
      BitLinear(x, a, b);
      ColumnLinear(DownNibble(x), a, b, n - 1);
      UpNibbleLinear(p, q);
      XorSwap(Bit(x, a), Bit(x, b), UpNibble(p), UpNibble(q));
    }
  }

  lemma {:induction false} ColumnTwice(x: bv64, y: bv64, n: nat)
    ensures Column(x, Twice(y), n) == Twice(Column(x, y, n))
    decreases n
  {
    hide Xor, Bit, UpNibble, DownNibble, Twice;
    if n == 0 {
      NibbleShiftsMix(0);
    } else {
      var p := Column(DownNibble(x), y, n - 1);
      BitTwice(x, y);
      ColumnTwice(DownNibble(x), y, n - 1);
      NibbleShiftsMix(p);
      TwiceLinear(Bit(x, y), UpNibble(p));
    }
  }

  /** The lowest bit of each of the n lowest nibbles of m is set. */
  ghost predicate NibbleOnes(m: bv64, n: nat)
    decreases n
  {
    n == 0 || (m & 1 == 1 && NibbleOnes(DownNibble(m), n - 1))
  }

  lemma MaskedBits(x: bv64, m: bv64, y: bv64)
    ensures m & 1 == 1 ==> Bit(And(x, m), y) == Bit(x, y)
    ensures Holed(m) ==> Holed(And(x, m))
    ensures DownNibble(And(x, m)) == And(DownNibble(x), DownNibble(m))
    ensures And(x, 0) == 0
  {}

  lemma {:induction false} ColumnMasked(x: bv64, m: bv64, y: bv64, n: nat)
    requires NibbleOnes(m, n)
    ensures Column(And(x, m), y, n) == Column(x, y, n)
    decreases n
  {
    hide Xor, Bit, UpNibble, DownNibble, And;
    if n > 0 {
      MaskedBits(x, m, y);
      ColumnMasked(DownNibble(x), DownNibble(m), y, n - 1);
    }
  }

  lemma {:induction false} HolesMasked(x: bv64, m: bv64, n: nat)
    requires Holes(m, n)
    ensures Holes(And(x, m), n)
    decreases n
  {
    hide Holed, DownNibble, And;
    MaskedBits(x, m, 0);
    if n > 0 {
      HolesMasked(DownNibble(x), DownNibble(m), n - 1);
    }
  }

  lemma StrandMask()
    ensures NibbleOnes(0x1111_1111, 8) && Holes(0x1111_1111, 8)
  {
    assert NibbleOnes(0, 0) && Holes(0, 0);
    assert NibbleOnes(0x1, 1) && Holes(0x1, 1) && NibbleOnes(0x11, 2) && Holes(0x11, 2);
    assert NibbleOnes(0x111, 3) && Holes(0x111, 3) && NibbleOnes(0x1111, 4) && Holes(0x1111, 4);
    assert NibbleOnes(0x1_1111, 5) && Holes(0x1_1111, 5) && NibbleOnes(0x11_1111, 6) && Holes(0x11_1111, 6);
    assert NibbleOnes(0x111_1111, 7) && Holes(0x111_1111, 7);
  }

  // ---- strands: every fourth bit of a factor ----

  function TwiceBy(w: bv64, k: nat): bv64 {
    if k == 0 then w else Twice(TwiceBy(w, k - 1))
  }

  function HalfBy(w: bv64, k: nat): bv64 {
    if k == 0 then w else Half(HalfBy(w, k - 1))
  }

  /** Bits r, r + 4, ..., r + 28 of x, moved down by r. */
  function Strand(x: bv64, r: nat): bv64 {
    And(HalfBy(x, r), 0x1111_1111)
  }

  lemma {:induction false} TwiceByLinear(a: bv64, b: bv64, k: nat)
    ensures TwiceBy(Xor(a, b), k) == Xor(TwiceBy(a, k), TwiceBy(b, k))
  {
    if k > 0 {
      hide Xor, Twice;
      TwiceByLinear(a, b, k - 1);
      TwiceLinear(TwiceBy(a, k - 1), TwiceBy(b, k - 1));
    }
  }

  lemma {:induction false} TwiceByCompose(w: bv64, a: nat, b: nat)
    ensures TwiceBy(w, a + b) == TwiceBy(TwiceBy(w, a), b)
  {
    if b > 0 { hide Twice; TwiceByCompose(w, a, b - 1); }
  }

  lemma {:induction false} TimesTwiceBy(a: bv64, b: bv64, k: nat)
    ensures Times(TwiceBy(a, k), b) == TwiceBy(Times(a, b), k)
  {
    if k > 0 {
      hide Twice, Times;
      TimesTwiceBy(a, b, k - 1);
      TimesTwice(TwiceBy(a, k - 1), b);
    }
  }

  lemma TimesShifted(a: bv64, r: nat, b: bv64, s: nat)
    ensures Times(TwiceBy(a, r), TwiceBy(b, s)) == TwiceBy(Times(a, b), r + s)
  {
    hide *;
    TimesTwiceBy(a, TwiceBy(b, s), r);
    TimesCommutes(a, TwiceBy(b, s)); TimesTwiceBy(b, a, s); TimesCommutes(a, b);
    TwiceByCompose(Times(a, b), s, r);
  }

  lemma {:induction false} ColumnTwiceBy(x: bv64, y: bv64, n: nat, k: nat)
    ensures Column(x, TwiceBy(y, k), n) == TwiceBy(Column(x, y, n), k)
  {
    if k > 0 {
      hide Twice, Column;
      ColumnTwiceBy(x, y, n, k - 1);
      ColumnTwice(x, TwiceBy(y, k - 1), n);
    }
  }

  /** The four masks of the macro. */
  function Mask(t: nat): bv64 {
    if t == 0 then 0x1111_1111_1111_1111 else if t == 1 then 0x2222_2222_2222_2222
    else if t == 2 then 0x4444_4444_4444_4444 else 0x8888_8888_8888_8888
  }

  lemma TwiceAnd(p: bv64, m: bv64)
    ensures Twice(And(p, m)) == And(Twice(p), Twice(m))
  {}

  lemma EvenMask(w: bv64)
    requires w & 1 == 0
    ensures And(w, 0x1111_1111_1111_1111) == And(w, 0x1111_1111_1111_1110)
  {}

  lemma TwiceEven(p: bv64)
    ensures Twice(p) & 1 == 0
  {}

  /** The carry out of the top column is lost, as it is in the product. */
  lemma TopMaskTwice(p: bv64)
    ensures And(Twice(p), 0x1111_1111_1111_1111) == Twice(And(p, 0x8888_8888_8888_8888))
  {
    TwiceEven(p);
    assert Twice(0x8888_8888_8888_8888) == 0x1111_1111_1111_1110;
    hide And, Twice;
    TwiceAnd(p, 0x8888_8888_8888_8888);
    EvenMask(Twice(p));
  }

  lemma MasksTwice()
    ensures Twice(Mask(0)) == Mask(1) && Twice(Mask(1)) == Mask(2) && Twice(Mask(2)) == Mask(3)
  {}

  lemma MaskTwice(p: bv64, t: nat)
    requires t < 4
    ensures And(Twice(p), Mask((t + 1) % 4)) == Twice(And(p, Mask(t)))
  {
    TopMaskTwice(p);
    hide And, Twice;
    if t < 3 { MasksTwice(); TwiceAnd(p, Mask(t)); }
  }

  lemma OnesMasked(p: bv64)
    ensures And(p, Mask(0)) == Ones(p)
  {}

  lemma NextMod4(k: nat)
    requires k > 0
    ensures 0 <= (k - 1) % 4 < 4 && ((k - 1) % 4 + 1) % 4 == k % 4
  {}

  lemma {:induction false} MaskedShift(p: bv64, k: nat)
    ensures And(TwiceBy(p, k), Mask(k % 4)) == TwiceBy(Ones(p), k)
  {
    hide And, Twice, Ones, Mask;
    if k == 0 {
      OnesMasked(p);
    } else {
      MaskedShift(p, k - 1);
      NextMod4(k);
      MaskTwice(TwiceBy(p, k - 1), (k - 1) % 4);
    }
  }

  lemma StrandOnes(x: bv64, r: nat)
    ensures Ones(Strand(x, r)) == Strand(x, r)
  {
    hide HalfBy;
  }

  /** What strand r of x and strand s of y contribute to the product. */
  function Cell(x: bv64, r: nat, y: bv64, s: nat): bv64 {
    TwiceBy(Column(Strand(x, r), Strand(y, s), 8), r + s)
  }

  lemma MaskedTimes(x: bv64, r: nat, y: bv64, s: nat, t: nat)
    requires t < 4 && (r + s == t || r + s == t + 4)
    ensures And(Times(TwiceBy(Strand(x, r), r), TwiceBy(Strand(y, s), s)), Mask(t)) == Cell(x, r, y, s)
  {
    HolesOfStrand(x, r);
    hide Times, And, Ones, Column, Strand, TwiceBy, Mask, Holes;
    var a, b := Strand(x, r), Strand(y, s);
    TimesShifted(a, r, b, s);
    MaskedShift(Times(a, b), r + s);
    StrandOnes(y, s);
    TimesColumn(a, b, 8);
  }

  lemma HolesOfStrand(x: bv64, r: nat)
    ensures Holes(Strand(x, r), 8)
  {
    StrandMask();
    hide Holes;
    HolesMasked(HalfBy(x, r), 0x1111_1111, 8);
  }

  // ---- putting the cells together ----

  lemma ShiftsUnrolled(w: bv64)
    ensures TwiceBy(w, 0) == w && TwiceBy(w, 1) == Twice(w) && TwiceBy(w, 2) == Twice(Twice(w))
      && TwiceBy(w, 3) == Twice(Twice(Twice(w)))
    ensures HalfBy(w, 0) == w && HalfBy(w, 1) == Half(w) && HalfBy(w, 2) == Half(Half(w))
      && HalfBy(w, 3) == Half(Half(Half(w)))
  {
    assert TwiceBy(w, 1) == Twice(TwiceBy(w, 0)) && HalfBy(w, 1) == Half(HalfBy(w, 0));
    assert TwiceBy(w, 2) == Twice(TwiceBy(w, 1)) && HalfBy(w, 2) == Half(HalfBy(w, 1));
    hide Twice, Half;
  }

  lemma StrandBits(x: bv32, w: bv64)
    requires w == x as bv64
    ensures (x & 0x1111_1111) as bv64 == And(w, 0x1111_1111)
    ensures (x & 0x2222_2222) as bv64 == Twice(And(Half(w), 0x1111_1111))
    ensures (x & 0x4444_4444) as bv64 == Twice(Twice(And(Half(Half(w)), 0x1111_1111)))
    ensures (x & 0x8888_8888) as bv64 == Twice(Twice(Twice(And(Half(Half(Half(w))), 0x1111_1111))))
  {}

  lemma StrandsOf(x: bv32, w: bv64)
    requires w == x as bv64
    ensures (x & 0x1111_1111) as bv64 == TwiceBy(Strand(w, 0), 0)
    ensures (x & 0x2222_2222) as bv64 == TwiceBy(Strand(w, 1), 1)
    ensures (x & 0x4444_4444) as bv64 == TwiceBy(Strand(w, 2), 2)
    ensures (x & 0x8888_8888) as bv64 == TwiceBy(Strand(w, 3), 3)
  {
    hide And, Twice, Half, TwiceBy, HalfBy;
    StrandBits(x, w);
    ShiftsUnrolled(w);
    ShiftsUnrolled(Strand(w, 0)); ShiftsUnrolled(Strand(w, 1)); ShiftsUnrolled(Strand(w, 2));
    ShiftsUnrolled(Strand(w, 3));
  }

  /** The four strands, each back in its place, are the whole factor. */
  lemma StrandsCover(x: bv32, w: bv64)
    requires w == x as bv64
    ensures Sum4(TwiceBy(Strand(w, 0), 0), TwiceBy(Strand(w, 1), 1), TwiceBy(Strand(w, 2), 2),
      TwiceBy(Strand(w, 3), 3)) == w
  {
    FactorsCover(x);
    hide Sum4, Strand, TwiceBy;
    StrandsOf(x, w);
  }

  lemma FactorsCover(x: bv32)
    ensures Sum4((x & 0x1111_1111) as bv64, (x & 0x2222_2222) as bv64, (x & 0x4444_4444) as bv64,
      (x & 0x8888_8888) as bv64) == x as bv64
  {}

  lemma AndIs(a: bv64, m: bv64)
    ensures And(a, m) == a & m
  {}

  lemma WordsMasked(a: bv64, b: bv64, m: bv64, ab: bv64, am: bv64, bm: bv64)
    requires ab == a ^ b && am == a & m && bm == b & m
    ensures ab & m == am ^ bm
  {}

  lemma AndLinear(a: bv64, b: bv64, m: bv64)
    ensures And(Xor(a, b), m) == Xor(And(a, m), And(b, m))
  {
    hide *;
    AndIs(Xor(a, b), m); AndIs(a, m); AndIs(b, m); XorIs(a, b); XorIs(And(a, m), And(b, m));
    WordsMasked(a, b, m, Xor(a, b), And(a, m), And(b, m));
  }

  lemma MaskSum4(a: bv64, b: bv64, c: bv64, d: bv64, t: nat)
    requires t < 4
    ensures And(Sum4(a, b, c, d), Mask(t)) == Sum4(And(a, Mask(t)), And(b, Mask(t)), And(c, Mask(t)), And(d, Mask(t)))
  {
    hide And, Xor, Mask;
    AndLinear(Xor(a, b), Xor(c, d), Mask(t)); AndLinear(a, b, Mask(t)); AndLinear(c, d, Mask(t));
  }

  /** The masked words share no bit. */
  lemma DisjointWords(a: bv64, b: bv64, c: bv64, d: bv64)
    ensures (((a & 0x1111_1111_1111_1111) | (b & 0x2222_2222_2222_2222)) | (c & 0x4444_4444_4444_4444))
      | (d & 0x8888_8888_8888_8888)
      == ((a & 0x1111_1111_1111_1111) ^ (b & 0x2222_2222_2222_2222))
        ^ ((c & 0x4444_4444_4444_4444) ^ (d & 0x8888_8888_8888_8888))
  {}

  lemma XorOfXors(a: bv64, b: bv64, c: bv64, d: bv64)
    ensures ((a & 0x1111_1111_1111_1111) ^ (b & 0x2222_2222_2222_2222))
      ^ ((c & 0x4444_4444_4444_4444) ^ (d & 0x8888_8888_8888_8888))
      == Sum4(And(a, Mask(0)), And(b, Mask(1)), And(c, Mask(2)), And(d, Mask(3)))
  {}

  lemma ColumnsJoin(a: bv64, b: bv64, c: bv64, d: bv64)
    ensures Columns(a, b, c, d) == Sum4(And(a, Mask(0)), And(b, Mask(1)), And(c, Mask(2)), And(d, Mask(3)))
  {
    hide And, Xor, Sum4, Mask;
    DisjointWords(a, b, c, d);
    XorOfXors(a, b, c, d);
  }

  lemma Sum4Rotate(a: bv64, b: bv64, c: bv64, d: bv64)
    ensures Sum4(b, c, d, a) == Sum4(a, b, c, d)
  {
    hide Xor;
    XorCommutes(Xor(b, c), Xor(d, a)); XorSwap(d, a, b, c); XorCommutes(d, b); XorSwap(a, c, b, d);
    XorSwap(b, d, a, c); XorCommutes(d, a); XorSwap(a, b, c, d); XorCommutes(b, d); XorCommutes(Xor(a, c), Xor(b, d));
    XorSwap(b, c, d, a); XorCommutes(c, a); 
  }

  lemma Sum4Transpose(a0: bv64, a1: bv64, a2: bv64, a3: bv64, b0: bv64, b1: bv64, b2: bv64, b3: bv64,
                      c0: bv64, c1: bv64, c2: bv64, c3: bv64, d0: bv64, d1: bv64, d2: bv64, d3: bv64)
    ensures Sum4(Sum4(a0, a1, a2, a3), Sum4(b0, b1, b2, b3), Sum4(c0, c1, c2, c3), Sum4(d0, d1, d2, d3))
         == Sum4(Sum4(a0, b0, c0, d0), Sum4(a1, b1, c1, d1), Sum4(a2, b2, c2, d2), Sum4(a3, b3, c3, d3))
  {
    hide Xor, Sum4;
    Sum4Add(a0, a1, a2, a3, b0, b1, b2, b3); Sum4Add(c0, c1, c2, c3, d0, d1, d2, d3);
    Sum4Add(Xor(a0, b0), Xor(a1, b1), Xor(a2, b2), Xor(a3, b3), Xor(c0, d0), Xor(c1, d1), Xor(c2, d2), Xor(c3, d3));
    Sum4Is(Sum4(a0, a1, a2, a3), Sum4(b0, b1, b2, b3), Sum4(c0, c1, c2, c3), Sum4(d0, d1, d2, d3));
    Sum4Is(a0, b0, c0, d0); Sum4Is(a1, b1, c1, d1); Sum4Is(a2, b2, c2, d2); Sum4Is(a3, b3, c3, d3);
  }

  lemma Sum4Is(a: bv64, b: bv64, c: bv64, d: bv64)
    ensures Sum4(a, b, c, d) == Xor(Xor(a, b), Xor(c, d))
  {}

  lemma Sum4Add(a0: bv64, a1: bv64, a2: bv64, a3: bv64, b0: bv64, b1: bv64, b2: bv64, b3: bv64)
    ensures Xor(Sum4(a0, a1, a2, a3), Sum4(b0, b1, b2, b3)) == Sum4(Xor(a0, b0), Xor(a1, b1), Xor(a2, b2), Xor(a3, b3))
  {
    hide Xor;
    XorSwap(Xor(a0, a1), Xor(a2, a3), Xor(b0, b1), Xor(b2, b3));
    XorSwap(a0, a1, b0, b1); XorSwap(a2, a3, b2, b3);
  }

  /** The carry-less product of words, lowest coefficient of x first. */
  function WordProduct(x: bv64, y: bv64, n: nat): bv64
    decreases n
  {
    if n == 0 then 0 else Xor(Bit(x, y), Twice(WordProduct(Half(x), y, n - 1)))
  }

  /** Four words interleaved, each one bit above the one before. */
  function Weave(a: bv64, b: bv64, c: bv64, d: bv64): bv64 {
    Sum4(a, Twice(b), Twice(Twice(c)), Twice(Twice(Twice(d))))
  }

  lemma WeaveLinear(a: bv64, b: bv64, c: bv64, d: bv64, a': bv64, b': bv64, c': bv64, d': bv64)
    ensures Weave(Xor(a, a'), Xor(b, b'), Xor(c, c'), Xor(d, d')) == Xor(Weave(a, b, c, d), Weave(a', b', c', d'))
  {
    hide Xor, Twice, Sum4;
    TwiceLinear(b, b');
    TwiceLinear(c, c'); TwiceLinear(Twice(c), Twice(c'));
    TwiceLinear(d, d'); TwiceLinear(Twice(d), Twice(d')); TwiceLinear(Twice(Twice(d)), Twice(Twice(d')));
    Sum4Add(a, Twice(b), Twice(Twice(c)), Twice(Twice(Twice(d))), a', Twice(b'), Twice(Twice(c')),
      Twice(Twice(Twice(d'))));
  }

  lemma WeaveUp(a: bv64, b: bv64, c: bv64, d: bv64)
    ensures Weave(UpNibble(a), UpNibble(b), UpNibble(c), UpNibble(d)) == UpNibble(Weave(a, b, c, d))
  {
    hide Xor, Twice, UpNibble;
    NibbleShiftsMix(b);
    NibbleShiftsMix(c); NibbleShiftsMix(Twice(c));
    NibbleShiftsMix(d); NibbleShiftsMix(Twice(d)); NibbleShiftsMix(Twice(Twice(d)));
    var b1, c2, d3 := Twice(b), Twice(Twice(c)), Twice(Twice(Twice(d)));
    UpNibbleLinear(Xor(a, b1), Xor(c2, d3)); UpNibbleLinear(a, b1); UpNibbleLinear(c2, d3);
  }

  lemma FourSteps(x: bv64, y: bv64, n: nat)
    ensures WordProduct(x, y, n + 4)
      == Xor(Weave(Bit(x, y), Bit(Half(x), y), Bit(Half(Half(x)), y), Bit(Half(Half(Half(x))), y)),
        UpNibble(WordProduct(DownNibble(x), y, n)))
  {
    hide Xor, Twice, Half, Bit, UpNibble, DownNibble, Sum4;
    var x1, x2, x3 := Half(x), Half(Half(x)), Half(Half(Half(x)));
    FourHalves(x);
    var p := WordProduct(DownNibble(x), y, n);
    var b0, b1, b2, b3 := Bit(x, y), Bit(x1, y), Bit(x2, y), Bit(x3, y);
    assert WordProduct(x3, y, n + 1) == Xor(b3, Twice(p));
    assert WordProduct(x2, y, n + 2) == Xor(b2, Twice(Xor(b3, Twice(p))));
    assert WordProduct(x1, y, n + 3) == Xor(b1, Twice(Xor(b2, Twice(Xor(b3, Twice(p))))));
    assert WordProduct(x, y, n + 4) == Xor(b0, Twice(Xor(b1, Twice(Xor(b2, Twice(Xor(b3, Twice(p))))))));
    HornerIsWeave(b0, b1, b2, b3, p);
  }

  lemma FourHalves(x: bv64)
    ensures Half(Half(Half(Half(x)))) == DownNibble(x)
  {}

  lemma HornerIsWeave(a: bv64, b: bv64, c: bv64, d: bv64, p: bv64)
    ensures Xor(a, Twice(Xor(b, Twice(Xor(c, Twice(Xor(d, Twice(p)))))))) == Xor(Weave(a, b, c, d), UpNibble(p))
  {
    hide Xor, Twice, UpNibble;
    var p1, p2, p3, p4 := Twice(p), Twice(Twice(p)), Twice(Twice(Twice(p))), Twice(Twice(Twice(Twice(p))));
    FourTwices(p);
    var d1, d2, d3, c1, c2, b1 := Twice(d), Twice(Twice(d)), Twice(Twice(Twice(d))), Twice(c),
      Twice(Twice(c)), Twice(b);
    TwiceLinear(d, p1); TwiceLinear(c, Xor(d1, p2)); TwiceLinear(d1, p2); TwiceLinear(b, Xor(c1, Xor(d2, p3)));
    TwiceLinear(c1, Xor(d2, p3)); TwiceLinear(d2, p3);
    XorAssociates(Xor(a, b1), Xor(c2, d3), p4); XorAssociates(c2, d3, p4); XorAssociates(a, b1, Xor(c2, Xor(d3, p4)));
  }

  lemma {:induction false} WordProductColumns(x: bv64, y: bv64, n: nat)
    ensures WordProduct(x, y, 4 * n)
      == Weave(Column(x, y, n), Column(Half(x), y, n), Column(Half(Half(x)), y, n), Column(Half(Half(Half(x))), y, n))
    decreases n
  {
    hide Xor, Twice, Half, Bit, UpNibble, DownNibble, Weave;
    var x1, x2, x3 := Half(x), Half(Half(x)), Half(Half(Half(x)));
    if n == 0 {
      WeaveZero();
    } else {
      var h := DownNibble(x);
      FourSteps(x, y, 4 * (n - 1));
      WordProductColumns(h, y, n - 1);
      NibbleShiftsMix(x); NibbleShiftsMix(x1); NibbleShiftsMix(x2);
      var c0, c1, c2, c3 := Column(h, y, n - 1), Column(Half(h), y, n - 1), Column(Half(Half(h)), y, n - 1),
        Column(Half(Half(Half(h))), y, n - 1);
      WeaveUp(c0, c1, c2, c3);
      WeaveLinear(Bit(x, y), Bit(x1, y), Bit(x2, y), Bit(x3, y), UpNibble(c0), UpNibble(c1), UpNibble(c2),
        UpNibble(c3));
    }
  }

  lemma WeaveZero()
    ensures Weave(0, 0, 0, 0) == 0
  {}

  // ---- the macro computes the carry-less product ----

  lemma ColumnSum4(x: bv64, a: bv64, b: bv64, c: bv64, d: bv64, n: nat)
    ensures Column(x, Sum4(a, b, c, d), n) == Sum4(Column(x, a, n), Column(x, b, n), Column(x, c, n), Column(x, d, n))
  {
    hide Xor, Column;
    ColumnLinear(x, Xor(a, b), Xor(c, d), n); ColumnLinear(x, a, b, n); ColumnLinear(x, c, d, n);
  }

  lemma TwiceBySum4(a: bv64, b: bv64, c: bv64, d: bv64, k: nat)
    ensures TwiceBy(Sum4(a, b, c, d), k) == Sum4(TwiceBy(a, k), TwiceBy(b, k), TwiceBy(c, k), TwiceBy(d, k))
  {
    hide Xor, TwiceBy;
    TwiceByLinear(Xor(a, b), Xor(c, d), k); TwiceByLinear(a, b, k); TwiceByLinear(c, d, k);
  }

  lemma CellIs(x: bv64, r: nat, y: bv64, s: nat)
    ensures Cell(x, r, y, s) == TwiceBy(Column(Strand(x, r), TwiceBy(Strand(y, s), s), 8), r)
  {
    hide Column, TwiceBy, Strand;
    ColumnTwiceBy(Strand(x, r), Strand(y, s), 8, s);
    TwiceByCompose(Column(Strand(x, r), Strand(y, s), 8), s, r);
  }

  /** The cells of one strand of x add up to that strand's column of the product. */
  lemma RowOfCells(x: bv64, r: nat, y32: bv32, y: bv64)
    requires r < 4 && y == y32 as bv64
    ensures Sum4(Cell(x, r, y, 0), Cell(x, r, y, 1), Cell(x, r, y, 2), Cell(x, r, y, 3))
      == TwiceBy(Column(HalfBy(x, r), y, 8), r)
  {
    hide *;
    var a := Strand(x, r);
    var t0, t1, t2, t3 := TwiceBy(Strand(y, 0), 0), TwiceBy(Strand(y, 1), 1), TwiceBy(Strand(y, 2), 2),
      TwiceBy(Strand(y, 3), 3);
    CellIs(x, r, y, 0); CellIs(x, r, y, 1); CellIs(x, r, y, 2); CellIs(x, r, y, 3);
    TwiceBySum4(Column(a, t0, 8), Column(a, t1, 8), Column(a, t2, 8), Column(a, t3, 8), r);
    ColumnSum4(a, t0, t1, t2, t3, 8);
    StrandsCover(y32, y);
    ColumnOfStrand(x, r, y);
  }

  lemma ColumnOfStrand(x: bv64, r: nat, y: bv64)
    ensures Column(Strand(x, r), y, 8) == Column(HalfBy(x, r), y, 8)
  {
    StrandMask();
    hide Column, NibbleOnes;
    ColumnMasked(HalfBy(x, r), 0x1111_1111, y, 8);
  }

  /** What the four products for one column of the result are worth once masked. */
  lemma OneColumn(w: bv64, v: bv64, s0: nat, s1: nat, s2: nat, s3: nat, t: nat)
    requires t < 4 && s0 == t && (1 + s1 == t || 1 + s1 == t + 4) && (2 + s2 == t || 2 + s2 == t + 4)
      && (3 + s3 == t || 3 + s3 == t + 4)
    ensures And(Sum4(Times(TwiceBy(Strand(w, 0), 0), TwiceBy(Strand(v, s0), s0)),
                     Times(TwiceBy(Strand(w, 1), 1), TwiceBy(Strand(v, s1), s1)),
                     Times(TwiceBy(Strand(w, 2), 2), TwiceBy(Strand(v, s2), s2)),
                     Times(TwiceBy(Strand(w, 3), 3), TwiceBy(Strand(v, s3), s3))), Mask(t))
      == Sum4(Cell(w, 0, v, s0), Cell(w, 1, v, s1), Cell(w, 2, v, s2), Cell(w, 3, v, s3))
  {
    hide *;
    MaskSum4(Times(TwiceBy(Strand(w, 0), 0), TwiceBy(Strand(v, s0), s0)),
             Times(TwiceBy(Strand(w, 1), 1), TwiceBy(Strand(v, s1), s1)),
             Times(TwiceBy(Strand(w, 2), 2), TwiceBy(Strand(v, s2), s2)),
             Times(TwiceBy(Strand(w, 3), 3), TwiceBy(Strand(v, s3), s3)), t);
    MaskedTimes(w, 0, v, s0, t); MaskedTimes(w, 1, v, s1, t); MaskedTimes(w, 2, v, s2, t); MaskedTimes(w, 3, v, s3, t);
  }

  lemma ColumnCells(x: bv32, y: bv32, w: bv64, v: bv64)
    requires w == x as bv64 && v == y as bv64
    ensures Bmul32(x, y) == Sum4(
        Sum4(Cell(w, 0, v, 0), Cell(w, 1, v, 3), Cell(w, 2, v, 2), Cell(w, 3, v, 1)),
        Sum4(Cell(w, 0, v, 1), Cell(w, 1, v, 0), Cell(w, 2, v, 3), Cell(w, 3, v, 2)),
        Sum4(Cell(w, 0, v, 2), Cell(w, 1, v, 1), Cell(w, 2, v, 0), Cell(w, 3, v, 3)),
        Sum4(Cell(w, 0, v, 3), Cell(w, 1, v, 2), Cell(w, 2, v, 1), Cell(w, 3, v, 0)))
  {
    hide Times, Sum4, And, Mask, Cell, Columns, TwiceBy, Strand;
    StrandsOf(x, w); StrandsOf(y, v);
    var x0, x1, x2, x3 := TwiceBy(Strand(w, 0), 0), TwiceBy(Strand(w, 1), 1), TwiceBy(Strand(w, 2), 2),
      TwiceBy(Strand(w, 3), 3);
    var y0, y1, y2, y3 := TwiceBy(Strand(v, 0), 0), TwiceBy(Strand(v, 1), 1), TwiceBy(Strand(v, 2), 2),
      TwiceBy(Strand(v, 3), 3);
    ColumnsJoin(Sum4(Times(x0, y0), Times(x1, y3), Times(x2, y2), Times(x3, y1)),
      Sum4(Times(x0, y1), Times(x1, y0), Times(x2, y3), Times(x3, y2)),
      Sum4(Times(x0, y2), Times(x1, y1), Times(x2, y0), Times(x3, y3)),
      Sum4(Times(x0, y3), Times(x1, y2), Times(x2, y1), Times(x3, y0)));
    OneColumn(w, v, 0, 3, 2, 1, 0); OneColumn(w, v, 1, 0, 3, 2, 1); OneColumn(w, v, 2, 1, 0, 3, 2);
    OneColumn(w, v, 3, 2, 1, 0, 3);
  }

  /** s_bmul32 returns the carry-less product of its arguments. */
  lemma Bmul32IsWordProduct(x: bv32, y: bv32, w: bv64, v: bv64)
    requires w == x as bv64 && v == y as bv64
    ensures Bmul32(x, y) == WordProduct(w, v, 32)
  {
    hide Xor, Twice, Half, Sum4, Cell, Column, TwiceBy, HalfBy, Bmul32, WordProduct;
    ColumnCells(x, y, w, v);
    Sum4Transpose(Cell(w, 0, v, 0), Cell(w, 1, v, 3), Cell(w, 2, v, 2), Cell(w, 3, v, 1),
      Cell(w, 0, v, 1), Cell(w, 1, v, 0), Cell(w, 2, v, 3), Cell(w, 3, v, 2),
      Cell(w, 0, v, 2), Cell(w, 1, v, 1), Cell(w, 2, v, 0), Cell(w, 3, v, 3),
      Cell(w, 0, v, 3), Cell(w, 1, v, 2), Cell(w, 2, v, 1), Cell(w, 3, v, 0));
    // each row is a rotation of the row of one strand of x
    Sum4Rotate(Cell(w, 1, v, 3), Cell(w, 1, v, 0), Cell(w, 1, v, 1), Cell(w, 1, v, 2));
    Sum4Rotate(Cell(w, 2, v, 2), Cell(w, 2, v, 3), Cell(w, 2, v, 0), Cell(w, 2, v, 1));
    Sum4Rotate(Cell(w, 2, v, 3), Cell(w, 2, v, 0), Cell(w, 2, v, 1), Cell(w, 2, v, 2));
    Sum4Rotate(Cell(w, 3, v, 0), Cell(w, 3, v, 1), Cell(w, 3, v, 2), Cell(w, 3, v, 3));
    RowOfCells(w, 0, y, v); RowOfCells(w, 1, y, v); RowOfCells(w, 2, y, v); RowOfCells(w, 3, y, v);
    WordProductColumns(w, v, 8);
    ShiftsUnrolled(w);
    ShiftsUnrolled(Column(HalfBy(w, 0), v, 8)); ShiftsUnrolled(Column(HalfBy(w, 1), v, 8));
    ShiftsUnrolled(Column(HalfBy(w, 2), v, 8)); ShiftsUnrolled(Column(HalfBy(w, 3), v, 8));
  }
}
