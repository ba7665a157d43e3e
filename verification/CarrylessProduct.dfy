/** Products of polynomials over GF(2) held in machine words, and how they split into products of half words. */
module CarrylessProduct {
  import opened GcmField

  /** 256 bits, most significant block first. */
  datatype Wide = Wide(hi: Block, lo: Block)

  const WZERO := Wide(ZERO, ZERO)

  function WAdd(a: Wide, b: Wide): Wide {
    Wide(Add(a.hi, b.hi), Add(a.lo, b.lo))
  }

  function WLeft(w: Wide): Wide {
    Wide(Add(Left(w.hi), Block(0, ToBottom(w.lo.hi))), Left(w.lo))
  }

  function WLeftBy(w: Wide, k: nat): Wide {
    if k == 0 then w else WLeft(WLeftBy(w, k - 1))
  }

  /** y if the lowest bit of x is set. */
  function Pick(x: Block, y: Wide): Wide {
    if x.lo & 1 == 1 then y else WZERO
  }

  /** The product of the n lowest coefficients of x with y, by shift and add without carries. */
  function Product(x: Block, y: Wide, n: nat): Wide
    decreases n
  {
    if n == 0 then WZERO else WAdd(Pick(x, y), WLeft(Product(Right(x), y, n - 1)))
  }

  // ---- laws of wide words ----

  lemma WAddLaws(a: Wide, b: Wide, c: Wide)
    ensures WAdd(a, b) == WAdd(b, a) && WAdd(WAdd(a, b), c) == WAdd(a, WAdd(b, c))
    ensures WAdd(a, WZERO) == a && WAdd(WZERO, a) == a && WAdd(a, a) == WZERO
  {
    hide Add;
    AddCommutes(a.hi, b.hi); AddCommutes(a.lo, b.lo);
    AddAssociates(a.hi, b.hi, c.hi); AddAssociates(a.lo, b.lo, c.lo);
    AddZero(a.hi); AddZero(a.lo);
  }

  lemma WAddSwap(a: Wide, b: Wide, c: Wide, d: Wide)
    ensures WAdd(WAdd(a, b), WAdd(c, d)) == WAdd(WAdd(a, c), WAdd(b, d))
  {
    hide Add;
    AddSwap(a.hi, b.hi, c.hi, d.hi); AddSwap(a.lo, b.lo, c.lo, d.lo);
  }

  lemma LeftLinear(a: Block, b: Block)
    ensures Left(Add(a, b)) == Add(Left(a), Left(b))
  {
    hide Xor, Twice, ToBottom;
    TwiceLinear(a.hi, b.hi); TwiceLinear(a.lo, b.lo); ToBottomLinear(a.lo, b.lo);
    XorSwap(Twice(a.hi), Twice(b.hi), ToBottom(a.lo), ToBottom(b.lo));
  }

  lemma CarryLinear(a: Block, b: Block)
    ensures Block(0, ToBottom(Add(a, b).hi)) == Add(Block(0, ToBottom(a.hi)), Block(0, ToBottom(b.hi)))
  {
    hide Xor, ToBottom;
    ToBottomLinear(a.hi, b.hi); XorZero(0);
  }

  lemma WLeftLinear(a: Wide, b: Wide)
    ensures WLeft(WAdd(a, b)) == WAdd(WLeft(a), WLeft(b))
  {
    hide Left, Add, ToBottom;
    LeftLinear(a.hi, b.hi); LeftLinear(a.lo, b.lo); CarryLinear(a.lo, b.lo);
    AddSwap(Left(a.hi), Left(b.hi), Block(0, ToBottom(a.lo.hi)), Block(0, ToBottom(b.lo.hi)));
  }

  lemma WLeftZero()
    ensures WLeft(WZERO) == WZERO
  {}

  lemma {:induction false} WLeftByLinear(a: Wide, b: Wide, k: nat)
    ensures WLeftBy(WAdd(a, b), k) == WAdd(WLeftBy(a, k), WLeftBy(b, k))
  {
    if k > 0 {
      hide WLeft, WAdd;
      WLeftByLinear(a, b, k - 1);
      WLeftLinear(WLeftBy(a, k - 1), WLeftBy(b, k - 1));
    }
  }

  lemma {:induction false} WLeftByCompose(w: Wide, a: nat, b: nat)
    ensures WLeftBy(w, a + b) == WLeftBy(WLeftBy(w, a), b)
  {
    if b > 0 { hide WLeft; WLeftByCompose(w, a, b - 1); }
  }

  // ---- the product is bilinear ----

  lemma PickLinear(x: Block, a: Wide, b: Wide)
    ensures Pick(x, WAdd(a, b)) == WAdd(Pick(x, a), Pick(x, b))
  {
    WAddLaws(WZERO, a, b);
    hide WAdd;
  }

  lemma LowBits(a: bv64, b: bv64)
    ensures (a & 1 == 0 || a & 1 == 1) && (b & 1 == 0 || b & 1 == 1)
    ensures Xor(a, b) & 1 == Xor(a & 1, b & 1)
    ensures Xor(0, 0) == 0 && Xor(0, 1) == 1 && Xor(1, 0) == 1 && Xor(1, 1) == 0
  {}

  lemma PickAdd(a: Block, b: Block, y: Wide)
    ensures Pick(Add(a, b), y) == WAdd(Pick(a, y), Pick(b, y))
  {
    LowBits(a.lo, b.lo);
    WAddLaws(y, y, y); WAddLaws(WZERO, y, y);
    hide Xor, WAdd;
  }

  lemma PickLeft(x: Block, y: Wide)
    ensures WLeft(Pick(x, y)) == Pick(x, WLeft(y))
  {
    WLeftZero();
    hide WLeft;
  }

  lemma {:induction false} ProductLinear(x: Block, a: Wide, b: Wide, n: nat)
    ensures Product(x, WAdd(a, b), n) == WAdd(Product(x, a, n), Product(x, b, n))
    decreases n
  {
    hide Pick, WAdd, WLeft, Right;
    if n == 0 {
      WAddLaws(WZERO, WZERO, WZERO);
    } else {
      var p, q := Product(Right(x), a, n - 1), Product(Right(x), b, n - 1);
      PickLinear(x, a, b);
      ProductLinear(Right(x), a, b, n - 1);
      WLeftLinear(p, q);
      WAddSwap(Pick(x, a), Pick(x, b), WLeft(p), WLeft(q));
    }
  }

  lemma {:induction false} ProductAdd(a: Block, b: Block, y: Wide, n: nat)
    ensures Product(Add(a, b), y, n) == WAdd(Product(a, y, n), Product(b, y, n))
    decreases n
  {
    hide Pick, WAdd, WLeft, Right, Add;
    if n == 0 {
      WAddLaws(WZERO, WZERO, WZERO);
    } else {
      var p, q := Product(Right(a), y, n - 1), Product(Right(b), y, n - 1);
      PickAdd(a, b, y);
      RightLinear(a, b);
      ProductAdd(Right(a), Right(b), y, n - 1);
      WLeftLinear(p, q);
      WAddSwap(Pick(a, y), Pick(b, y), WLeft(p), WLeft(q));
    }
  }

  lemma {:induction false} ProductLeft(x: Block, y: Wide, n: nat)
    ensures Product(x, WLeft(y), n) == WLeft(Product(x, y, n))
    decreases n
  {
    hide Pick, WAdd, WLeft, Right;
    if n == 0 {
      WLeftZero();
    } else {
      PickLeft(x, y);
      ProductLeft(Right(x), y, n - 1);
      WLeftLinear(Pick(x, y), WLeft(Product(Right(x), y, n - 1)));
    }
  }

  lemma {:induction false} ProductLeftBy(x: Block, y: Wide, n: nat, k: nat)
    ensures Product(x, WLeftBy(y, k), n) == WLeftBy(Product(x, y, n), k)
    decreases k
  {
    if k > 0 {
      hide WLeft, Product;
      ProductLeftBy(x, y, n, k - 1);
      ProductLeft(x, WLeftBy(y, k - 1), n);
    }
  }

  /** The k lowest coefficients of x, then the rest of x shifted down by k. */
  lemma {:induction false} ProductSplit(x: Block, y: Wide, k: nat, m: nat)
    ensures Product(x, y, k + m) == WAdd(Product(x, y, k), WLeftBy(Product(RightBy(x, k), y, m), k))
    decreases k
  {
    hide Pick, WAdd, WLeft, Right, RightBy;
    var rest := Product(RightBy(x, k), y, m);
    if k == 0 {
      RightByNone(x);
      WAddLaws(rest, rest, rest);
    } else {
      var low := Product(Right(x), y, k - 1);
      RightByOne(x); RightByCompose(x, 1, k - 1);
      ProductSplit(Right(x), y, k - 1, m);
      assert Product(x, y, k + m) == WAdd(Pick(x, y), WLeft(Product(Right(x), y, k - 1 + m)));
      WLeftLinear(low, WLeftBy(rest, k - 1));
      WAddLaws(Pick(x, y), WLeft(low), WLeftBy(rest, k));
    }
  }

  lemma RightByNone(x: Block)
    ensures RightBy(x, 0) == x
  {}

  // ---- products of half words ----

  /** The n lowest bits of m are set. */
  ghost predicate LowOnes(m: bv64, n: nat)
    decreases n
  {
    n == 0 || (m & 1 == 1 && LowOnes(Half(m), n - 1))
  }

  function And(a: bv64, b: bv64): bv64 { a & b }

  lemma MaskRight(a: bv64, above: bv64, m: bv64)
    ensures And(Xor(Half(a), ToTop(above)), Half(m)) == Half(And(a, m))
  {}

  lemma MaskedBit(a: bv64, b: bv64, m: bv64)
    requires And(a, m) == And(b, m) && m & 1 == 1
    ensures a & 1 == b & 1
  {}

  /** Only the n lowest coefficients of x matter. */
  lemma {:induction false} ProductLow(x: Block, x': Block, y: Wide, m: bv64, n: nat)
    requires LowOnes(m, n) && And(x.lo, m) == And(x'.lo, m)
    ensures Product(x, y, n) == Product(x', y, n)
    decreases n
  {
    if n > 0 {
      MaskedBit(x.lo, x'.lo, m);
      hide And, Half, ToTop, Xor, WAdd, WLeft;
      MaskRight(x.lo, x.hi, m); MaskRight(x'.lo, x'.hi, m);
      ProductLow(Right(x), Right(x'), y, Half(m), n - 1);
    }
  }

  lemma {:induction false} LowOnesCompose(m: bv64, c: bv64, k: nat)
    requires m & 0xFF == 0xFF && c == m >> 8 && LowOnes(c, k)
    ensures LowOnes(m, k + 8)
  {
    var m1, m2, m3, m4 := Half(m), Half(Half(m)), Half(Half(Half(m))), Half(Half(Half(Half(m))));
    var m5, m6, m7 := Half(m4), Half(Half(m4)), Half(Half(Half(m4)));
    assert Half(m7) == c && m7 & 1 == 1 && m6 & 1 == 1 && m5 & 1 == 1 && m4 & 1 == 1;
    assert m3 & 1 == 1 && m2 & 1 == 1 && m1 & 1 == 1 && m & 1 == 1;
    hide Half;
    assert LowOnes(m7, k + 1); assert LowOnes(m6, k + 2); assert LowOnes(m5, k + 3); assert LowOnes(m4, k + 4);
    assert LowOnes(m3, k + 5); assert LowOnes(m2, k + 6); assert LowOnes(m1, k + 7);
  }

  lemma HalfAndWholeMasks()
    ensures LowOnes(0xFFFF_FFFF, 32) && LowOnes(0xFFFF_FFFF_FFFF_FFFF, 64)
  {
    assert LowOnes(0, 0);
    hide LowOnes;
    LowOnesCompose(0xFF, 0, 0); LowOnesCompose(0xFFFF, 0xFF, 8);
    LowOnesCompose(0xFF_FFFF, 0xFFFF, 16); LowOnesCompose(0xFFFF_FFFF, 0xFF_FFFF, 24);
    LowOnesCompose(0xFF_FFFF_FFFF, 0xFFFF_FFFF, 32); LowOnesCompose(0xFFFF_FFFF_FFFF, 0xFF_FFFF_FFFF, 40);
    LowOnesCompose(0xFF_FFFF_FFFF_FFFF, 0xFFFF_FFFF_FFFF, 48);
    LowOnesCompose(0xFFFF_FFFF_FFFF_FFFF, 0xFF_FFFF_FFFF_FFFF, 56);
  }

  /** The product of 2k-bit polynomials from four products of k-bit polynomials. */
  lemma Schoolbook(x: Block, xh: Block, xl: Block, y: Wide, yh: Wide, yl: Wide, k: nat)
    requires RightBy(x, k) == xh && Product(x, y, k) == Product(xl, y, k)
    requires y == WAdd(WLeftBy(yh, k), yl)
    ensures var hh, ll := Product(xh, yh, k), Product(xl, yl, k);
      var mid := WAdd(Product(xl, yh, k), Product(xh, yl, k));
      Product(x, y, k + k) == WAdd(ll, WLeftBy(WAdd(mid, WLeftBy(hh, k)), k))
  {
    hide *;
    var hh, hl, lh, ll := Product(xh, yh, k), Product(xh, yl, k), Product(xl, yh, k), Product(xl, yl, k);
    calc {
      Product(x, y, k + k);
      { ProductSplit(x, y, k, k); }
      WAdd(Product(xl, y, k), WLeftBy(Product(xh, y, k), k));
      { ProductLinear(xl, WLeftBy(yh, k), yl, k); ProductLeftBy(xl, yh, k, k);
        ProductLinear(xh, WLeftBy(yh, k), yl, k); ProductLeftBy(xh, yh, k, k); }
      WAdd(WAdd(WLeftBy(lh, k), ll), WLeftBy(WAdd(WLeftBy(hh, k), hl), k));
      { WLeftByLinear(WLeftBy(hh, k), hl, k); WLeftByLinear(WAdd(lh, hl), WLeftBy(hh, k), k); WLeftByLinear(lh, hl, k);
        Regroup(WLeftBy(lh, k), ll, WLeftBy(WLeftBy(hh, k), k), WLeftBy(hl, k)); }
      WAdd(ll, WLeftBy(WAdd(WAdd(lh, hl), WLeftBy(hh, k)), k));
    }
  }

  /** Karatsuba: the two middle products from one. */
  lemma Karatsuba(x: Block, xh: Block, xl: Block, y: Wide, yh: Wide, yl: Wide, k: nat)
    requires RightBy(x, k) == xh && Product(x, y, k) == Product(xl, y, k)
    requires y == WAdd(WLeftBy(yh, k), yl)
    ensures var hh, ll := Product(xh, yh, k), Product(xl, yl, k);
      var mid := WAdd(Product(Add(xh, xl), WAdd(yh, yl), k), WAdd(hh, ll));
      Product(x, y, k + k) == WAdd(ll, WLeftBy(WAdd(mid, WLeftBy(hh, k)), k))
  {
    hide *;
    ProductAdd(xh, xl, WAdd(yh, yl), k);
    ProductLinear(xh, yh, yl, k); ProductLinear(xl, yh, yl, k);
    CrossTerms(Product(xh, yh, k), Product(xh, yl, k), Product(xl, yh, k), Product(xl, yl, k));
    Schoolbook(x, xh, xl, y, yh, yl, k);
  }

  lemma CrossTerms(hh: Wide, hl: Wide, lh: Wide, ll: Wide)
    ensures WAdd(WAdd(WAdd(hh, hl), WAdd(lh, ll)), WAdd(hh, ll)) == WAdd(lh, hl)
  {
    hide *;
    WAddSwap(hh, hl, lh, ll);
    WAddLaws(hl, ll, hh); WAddSwap(hh, hl, ll, lh); WAddLaws(lh, ll, ll);
    WAddSwap(WAdd(hh, ll), WAdd(hl, lh), hh, ll); WAddLaws(hh, ll, ll); WAddLaws(hl, lh, lh); 
    WAddLaws(WAdd(hh, ll), WAdd(hl, lh), WAdd(hh, ll));
    WAddLaws(WAdd(hl, lh), WAdd(hh, ll), WAdd(hh, ll)); WAddLaws(WAdd(hh, ll), hh, hh);
  }

  lemma Regroup(a: Wide, b: Wide, c: Wide, d: Wide)
    ensures WAdd(WAdd(a, b), WAdd(c, d)) == WAdd(b, WAdd(WAdd(a, d), c))
  {
    hide *;
    WAddLaws(a, b, WAdd(c, d)); WAddLaws(b, a, WAdd(c, d)); WAddLaws(c, d, d); WAddLaws(a, d, c);
  }
}
