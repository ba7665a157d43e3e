/** s_gfmul: the product in GF(2^128) from nine 32-bit carry-less products, two levels of Karatsuba and a
    reduction by shifts, proved equal to the bit-by-bit product of section 6.3 of NIST SP 800-38D. */
module GfMul {
  import opened GcmField
  import opened CarrylessProduct
  import opened HoleyMul
  import opened MachineWords

  function Lift(b: Block): Wide { Wide(ZERO, b) }
  function Word(w: bv64): Block { Block(0, w) }

  // ---- the word product inside the wide product ----

  /** v < 2^k for blocks: k right shifts leave nothing. */
  ghost predicate Below(v: Block, k: nat) {
    RightBy(v, k) == ZERO
  }

  lemma BelowMore(v: Block, k: nat, m: nat)
    requires Below(v, k)
    ensures Below(v, k + m)
  {
    RightByCompose(v, k, m); RightByZero(m);
  }

  lemma {:induction false} BelowAdd(a: Block, b: Block, k: nat)
    requires Below(a, k) && Below(b, k)
    ensures Below(Add(a, b), k)
  {
    RightByLinear(a, b, k); AddZero(ZERO);
  }

  lemma LeadingOfOne(x: Block)
    ensures Leading(x, Block(0, 1)) == ZERO <==> x.hi & 0x8000_0000_0000_0000 == 0
  {}

  lemma BelowTop(v: Block, k: nat)
    requires Below(v, k) && k <= 127
    ensures v.hi & 0x8000_0000_0000_0000 == 0
  {
    hide *;
    BelowMoreUnfolded(v, k);
    SplitLeading(v);
    var rest := Right(Left(v));
    RightByLinear(Leading(v, ONE), rest, 127);
    RightByOne(Left(v)); RightByCompose(Left(v), 1, 127); RightByAll(Left(v));
    LeadingRightBy(v, ONE, 127); OneReachesTheEnd();
    AddZero(Leading(v, Block(0, 1)));
    LeadingOfOne(v);
  }

  lemma BelowMoreUnfolded(v: Block, k: nat)
    requires Below(v, k) && k <= 127
    ensures RightBy(v, 127) == ZERO
  {
    BelowMore(v, k, 127 - k);
  }

  lemma ClearTop(v: Block)
    requires v.hi & 0x8000_0000_0000_0000 == 0
    ensures Right(Left(v)) == v && ToBottom(v.hi) == 0
  {
    SplitLeading(v);
    AddZero(Right(Left(v)));
    assert ToBottom(v.hi) == 0;
    hide Right, Left, Add;
  }

  lemma BelowLeft(v: Block, k: nat)
    requires Below(v, k) && k <= 127
    ensures Below(Left(v), k + 1)
  {
    BelowTop(v, k);
    hide Right, Left;
    ClearTop(v);
    RightByOne(Left(v));
    RightByCompose(Left(v), 1, k);
  }

  /** A word in the high half of a block, to bound it. */
  lemma LeftHigh(w: bv64)
    ensures Left(Block(w, 0)) == Block(Twice(w), 0)
  {}

  lemma LeftLow(w: bv64)
    requires w & 0x8000_0000_0000_0000 == 0
    ensures WLeft(Lift(Word(w))) == Lift(Word(Twice(w)))
  {}

  lemma RightLow(w: bv64)
    ensures Right(Word(w)) == Word(Half(w))
  {}

  lemma HighAdd(a: bv64, b: bv64)
    ensures Add(Block(a, 0), Block(b, 0)) == Block(Xor(a, b), 0) && Add(Word(a), Word(b)) == Word(Xor(a, b))
    ensures WAdd(Lift(Word(a)), Lift(Word(b))) == Lift(Word(Xor(a, b)))
  {
    XorZero(0);
    hide Xor;
  }

  lemma PickWord(x: bv64, y: bv64)
    ensures Pick(Word(x), Lift(Word(y))) == Lift(Word(Bit(x, y)))
  {}

  lemma {:induction false} WordProductBelow(x: bv64, y: bv64, n: nat)
    requires Below(Block(y, 0), 96) && n <= 32
    ensures Below(Block(WordProduct(x, y, n), 0), 95 + n)
    decreases n
  {
    hide Below, Half, Twice, Xor, Bit;
    if n == 0 {
      BelowZero(95);
    } else {
      var p := WordProduct(Half(x), y, n - 1);
      WordProductBelow(Half(x), y, n - 1);
      BelowLeft(Block(p, 0), 94 + n);
      LeftHigh(p);
      BitBelow(x, y, 95 + n);
      HighAdd(Bit(x, y), Twice(p));
      BelowAdd(Block(Bit(x, y), 0), Block(Twice(p), 0), 95 + n);
    }
  }

  lemma BelowZero(k: nat)
    ensures Below(ZERO, k)
  {
    RightByZero(k);
  }

  lemma BitBelow(x: bv64, y: bv64, k: nat)
    requires Below(Block(y, 0), 96) && k >= 96
    ensures Below(Block(Bit(x, y), 0), k)
  {
    BelowMore(Block(y, 0), 96, k - 96);
    BelowZero(k);
    hide Below;
  }

  /** While nothing reaches the top of the word, the word product is the wide product. */
  lemma {:induction false} WordEmbeds(x: bv64, y: bv64, n: nat)
    requires Below(Block(y, 0), 96) && n <= 32
    ensures Product(Word(x), Lift(Word(y)), n) == Lift(Word(WordProduct(x, y, n)))
    decreases n
  {
    hide Below, Half, Twice, Xor, Bit, WAdd, WLeft, Pick, Right;
    if n > 0 {
      var p := WordProduct(Half(x), y, n - 1);
      WordEmbeds(Half(x), y, n - 1);
      WordProductBelow(Half(x), y, n - 1);
      BelowTop(Block(p, 0), 94 + n);
      LeftLow(p); RightLow(x); PickWord(x, y);
      HighAdd(Bit(x, y), Twice(p));
    }
  }

  lemma BelowHalfWord(y: bv64)
    requires y >> 32 == 0
    ensures Below(Block(y, 0), 96)
  {
    RightByCompose(Block(y, 0), 64, 32); RightByWord(Block(y, 0)); RightByThirtyTwo(Word(y));
    hide RightBy;
  }

  lemma HalfWordIsBelow(y: bv32, v: bv64)
    requires v == y as bv64
    ensures v >> 32 == 0
  {}

  /** s_bmul32 inside the wide product. */
  lemma Bmul32IsProduct(x: bv32, y: bv32, w: bv64, v: bv64)
    requires w == x as bv64 && v == y as bv64
    ensures Product(Word(w), Lift(Word(v)), 32) == Lift(Word(Bmul32(x, y)))
  {
    hide *;
    HalfWordIsBelow(y, v); BelowHalfWord(v);
    WordEmbeds(w, v, 32);
    Bmul32IsWordProduct(x, y, w, v);
  }

  // ---- shifts by half words and words ----

  /** w moved up by k, with the bits of the word below entering at the bottom. */
  function Up(w: bv64, below: bv64, k: bv64): bv64
    requires k <= 64
  {
    (w << k) ^ (below >> (64 - k))
  }

  function WUp(w: Wide, k: bv64): Wide
    requires k <= 64
  {
    Wide(Block(Up(w.hi.hi, w.hi.lo, k), Up(w.hi.lo, w.lo.hi, k)), Block(Up(w.lo.hi, w.lo.lo, k), Up(w.lo.lo, 0, k)))
  }

  lemma UpTwiceByOne(w: bv64, b: bv64, c: bv64)
    ensures Up(Up(w, b, 1), Up(b, c, 1), 1) == Up(w, b, 2)
  {}
  lemma UpTwiceByTwo(w: bv64, b: bv64, c: bv64)
    ensures Up(Up(w, b, 2), Up(b, c, 2), 2) == Up(w, b, 4)
  {}
  lemma UpTwiceByFour(w: bv64, b: bv64, c: bv64)
    ensures Up(Up(w, b, 4), Up(b, c, 4), 4) == Up(w, b, 8)
  {}
  lemma UpTwiceByEight(w: bv64, b: bv64, c: bv64)
    ensures Up(Up(w, b, 8), Up(b, c, 8), 8) == Up(w, b, 16)
  {}
  lemma UpTwiceBySixteen(w: bv64, b: bv64, c: bv64)
    ensures Up(Up(w, b, 16), Up(b, c, 16), 16) == Up(w, b, 32)
  {}
  lemma UpTwiceByThirtyTwo(w: bv64, b: bv64, c: bv64)
    ensures Up(Up(w, b, 32), Up(b, c, 32), 32) == Up(w, b, 64)
  {}

  lemma UpTwice(w: bv64, b: bv64, c: bv64, k: bv64)
    requires k == 1 || k == 2 || k == 4 || k == 8 || k == 16 || k == 32
    ensures Up(Up(w, b, k), Up(b, c, k), k) == Up(w, b, 2 * k) && Up(0, 0, k) == 0
  {
    assert Up(0, 0, k) == 0;
    hide Up;
    UpTwiceByOne(w, b, c); UpTwiceByTwo(w, b, c); UpTwiceByFour(w, b, c);
    UpTwiceByEight(w, b, c); UpTwiceBySixteen(w, b, c); UpTwiceByThirtyTwo(w, b, c);
  }

  lemma WUpTwice(w: Wide, k: bv64)
    requires k == 1 || k == 2 || k == 4 || k == 8 || k == 16 || k == 32
    ensures WUp(WUp(w, k), k) == WUp(w, 2 * k)
  {
    hide Up;
    UpTwice(w.hi.hi, w.hi.lo, w.lo.hi, k); UpTwice(w.hi.lo, w.lo.hi, w.lo.lo, k);
    UpTwice(w.lo.hi, w.lo.lo, 0, k); UpTwice(w.lo.lo, 0, 0, k);
  }

  lemma UpOne(w: bv64, b: bv64)
    ensures Up(w, b, 1) == Xor(Twice(w), ToBottom(b)) && Up(w, 0, 1) == Twice(w)
  {}

  lemma WUpOne(w: Wide)
    ensures WLeft(w) == WUp(w, 1)
  {
    hide Up, Xor, Twice, ToBottom;
    UpOne(w.hi.hi, w.hi.lo); UpOne(w.hi.lo, w.lo.hi); UpOne(w.lo.hi, w.lo.lo); UpOne(w.lo.lo, 0);
    XorZero(Xor(Twice(w.hi.hi), ToBottom(w.hi.lo)));
  }

  lemma WLeftByOne(w: Wide)
    ensures WLeftBy(w, 1) == WUp(w, 1)
  {
    assert WLeftBy(w, 1) == WLeft(WLeftBy(w, 0));
    WUpOne(w);
    hide WLeft, WUp;
  }
  lemma WLeftByTwo(w: Wide)
    ensures WLeftBy(w, 2) == WUp(w, 2)
  {
    hide *;
    WLeftByCompose(w, 1, 1); WLeftByOne(w); WLeftByOne(WUp(w, 1)); WUpTwice(w, 1);
  }
  lemma WLeftByFour(w: Wide)
    ensures WLeftBy(w, 4) == WUp(w, 4)
  {
    hide *;
    WLeftByCompose(w, 2, 2); WLeftByTwo(w); WLeftByTwo(WUp(w, 2)); WUpTwice(w, 2);
  }
  lemma WLeftByEight(w: Wide)
    ensures WLeftBy(w, 8) == WUp(w, 8)
  {
    hide *;
    WLeftByCompose(w, 4, 4); WLeftByFour(w); WLeftByFour(WUp(w, 4)); WUpTwice(w, 4);
  }
  lemma WLeftBySixteen(w: Wide)
    ensures WLeftBy(w, 16) == WUp(w, 16)
  {
    hide *;
    WLeftByCompose(w, 8, 8); WLeftByEight(w); WLeftByEight(WUp(w, 8)); WUpTwice(w, 8);
  }
  lemma WLeftByThirtyTwo(w: Wide)
    ensures WLeftBy(w, 32) == WUp(w, 32)
  {
    hide *;
    WLeftByCompose(w, 16, 16); WLeftBySixteen(w); WLeftBySixteen(WUp(w, 16)); WUpTwice(w, 16);
  }
  lemma WLeftByWord(w: Wide)
    ensures WLeftBy(w, 64) == WUp(w, 64)
  {
    hide *;
    WLeftByCompose(w, 32, 32); WLeftByThirtyTwo(w); WLeftByThirtyTwo(WUp(w, 32)); WUpTwice(w, 32);
  }

  lemma UpEdges(w: bv64, b: bv64)
    ensures Up(w, b, 64) == b && Up(0, 0, 32) == 0
  {}

  // ---- 64-bit words from 32-bit halves ----

  function High(z: bv64): bv32 { (z >> 32) as bv32 }
  function Low32(z: bv64): bv32 { (z & 0xFFFF_FFFF) as bv32 }
  function Join(h: bv32, l: bv32): bv64 { ((h as bv64) << 32) | (l as bv64) }
  function Xor32(a: bv32, b: bv32): bv32 { a ^ b }
  function Wide32(a: bv32): bv64 { a as bv64 }

  lemma WholeFromHalves(z: bv64)
    ensures z == Xor(Up(Wide32(High(z)), 0, 32), Wide32(Low32(z)))
  {}

  lemma LowHalfMask(z: bv64)
    ensures And(z, 0xFFFF_FFFF) == And(Wide32(Low32(z)), 0xFFFF_FFFF)
  {}

  lemma HighHalf(z: bv64)
    ensures Wide32(High(z)) == z >> 32 && Up(0, Wide32(High(z)), 32) == 0
  {}

  lemma Wide32Linear(a: bv32, b: bv32)
    ensures Wide32(Xor32(a, b)) == Xor(Wide32(a), Wide32(b))
  {}

  lemma HalvesLinear(a: bv64, b: bv64)
    ensures High(Xor(a, b)) == Xor32(High(a), High(b)) && Low32(Xor(a, b)) == Xor32(Low32(a), Low32(b))
  {}

  /** The middle word m enters the product of half words half a word up. */
  lemma MiddleUp(a: bv64, m: bv64)
    ensures Up(Up(0, a, 32), Xor(m, Up(a, 0, 32)), 32) == Xor(a, Up(0, m, 32))
  {}

  lemma MiddleLow(a: bv64, m: bv64)
    ensures Up(Xor(m, Up(a, 0, 32)), 0, 32) == Up(m, 0, 32)
  {}

  lemma MiddleTop(a: bv64)
    ensures Up(0, Up(0, a, 32), 32) == 0
  {}

  lemma JoinIs(h: bv32, l: bv32)
    ensures Join(h, l) == Xor(Up(Wide32(h), 0, 32), Wide32(l))
  {}

  lemma HalvesMoved(m: bv64)
    ensures Wide32(High(m)) == Up(0, m, 32) && Up(Wide32(Low32(m)), 0, 32) == Up(m, 0, 32)
  {}

  lemma UpLinear(a: bv64, b: bv64)
    ensures Up(Xor(a, b), 0, 32) == Xor(Up(a, 0, 32), Up(b, 0, 32))
  {}

  lemma JoinHigh(a: bv64, m: bv64)
    ensures Join(High(a), Xor32(Low32(a), High(m))) == Xor(a, Up(0, m, 32))
  {
    hide *;
    JoinIs(High(a), Xor32(Low32(a), High(m)));
    Wide32Linear(Low32(a), High(m)); HalvesMoved(m); WholeFromHalves(a);
    XorAssociates(Up(Wide32(High(a)), 0, 32), Wide32(Low32(a)), Up(0, m, 32));
  }

  lemma JoinLow(b: bv64, m: bv64)
    ensures Join(Xor32(High(b), Low32(m)), Low32(b)) == Xor(b, Up(m, 0, 32))
  {
    hide *;
    var t, u, l := Up(Wide32(High(b)), 0, 32), Up(m, 0, 32), Wide32(Low32(b));
    JoinIs(Xor32(High(b), Low32(m)), Low32(b));
    Wide32Linear(High(b), Low32(m)); UpLinear(Wide32(High(b)), Wide32(Low32(m))); HalvesMoved(m); WholeFromHalves(b);
    XorAssociates(t, u, l); XorCommutes(u, l); XorAssociates(t, l, u);
  }

  /** One Karatsuba block of s_gfmul: the 128-bit product of two words from three 32-bit products. */
  function Karatsuba64(c: bv64, h: bv64): Block {
    var a := Bmul32(High(c), High(h));
    var b := Bmul32(Low32(c), Low32(h));
    var m := Bmul32(Xor32(High(c), Low32(c)), Xor32(High(h), Low32(h)));
    var mh, ml := Xor32(High(m), Xor32(High(a), High(b))), Xor32(Low32(m), Xor32(Low32(a), Low32(b)));
    Block(Join(High(a), Xor32(Low32(a), mh)), Join(Xor32(High(b), ml), Low32(b)))
  }

  lemma LiftUp(v: bv64)
    ensures WUp(Lift(Word(v)), 32) == Lift(Block(Up(0, v, 32), Up(v, 0, 32)))
  {
    UpEdges(0, 0);
    hide Up;
  }

  lemma LiftBlockUp(p: bv64, q: bv64)
    requires Up(0, p, 32) == 0
    ensures WUp(Lift(Block(p, q)), 32) == Lift(Block(Up(p, q, 32), Up(q, 0, 32)))
  {
    UpEdges(0, 0);
    hide Up;
  }

  lemma LiftAdd(a: Block, b: Block)
    ensures WAdd(Lift(a), Lift(b)) == Lift(Add(a, b))
  {
    AddZero(ZERO);
    hide Add;
  }

  lemma SplitFactor(h: bv64)
    ensures Lift(Word(h)) == WAdd(WLeftBy(Lift(Word(Wide32(High(h)))), 32), Lift(Word(Wide32(Low32(h)))))
  {
    var t, l := Wide32(High(h)), Wide32(Low32(h));
    HighHalf(h); WholeFromHalves(h);
    XorZero(0);
    hide Xor, Up, Wide32, High, Low32, WLeftBy;
    WLeftByThirtyTwo(Lift(Word(t))); LiftUp(t);
  }

  lemma MultiplierHalves(c: bv64, y: Wide)
    ensures RightBy(Word(c), 32) == Word(Wide32(High(c)))
    ensures Product(Word(c), y, 32) == Product(Word(Wide32(Low32(c))), y, 32)
  {
    HalfAndWholeMasks();
    HighHalf(c); LowHalfMask(c);
    RightByThirtyTwo(Word(c));
    hide RightBy, LowOnes, And, Wide32, High, Low32, Product;
    ProductLow(Word(c), Word(Wide32(Low32(c))), y, 0xFFFF_FFFF, 32);
  }

  /** The sum Karatsuba's identity gives for half words, word by word. */
  lemma CombineHalves(a: bv64, b: bv64, m: bv64)
    ensures WAdd(Lift(Word(b)), WLeftBy(WAdd(Lift(Word(m)), WLeftBy(Lift(Word(a)), 32)), 32))
      == Lift(Block(Xor(a, Up(0, m, 32)), Xor(b, Up(m, 0, 32))))
  {
    hide Xor, Up, WLeftBy, WUp, WAdd;
    var p, q := Up(0, a, 32), Xor(m, Up(a, 0, 32));
    WLeftByThirtyTwo(Lift(Word(a))); LiftUp(a);
    LiftAdd(Word(m), Block(p, Up(a, 0, 32)));
    assert Add(Word(m), Block(p, Up(a, 0, 32))) == Block(p, q) by { XorZero(p); }
    MiddleTop(a);
    WLeftByThirtyTwo(Lift(Block(p, q))); LiftBlockUp(p, q);
    MiddleUp(a, m); MiddleLow(a, m);
    LiftAdd(Word(b), Block(Up(p, q, 32), Up(q, 0, 32)));
    XorZero(Up(p, q, 32));
  }

  lemma Karatsuba64Is(c: bv64, h: bv64)
    ensures var a, b := Bmul32(High(c), High(h)), Bmul32(Low32(c), Low32(h));
      var m := Xor(Bmul32(Xor32(High(c), Low32(c)), Xor32(High(h), Low32(h))), Xor(a, b));
      Karatsuba64(c, h) == Block(Xor(a, Up(0, m, 32)), Xor(b, Up(m, 0, 32)))
  {
    hide Bmul32, Xor, Xor32, High, Low32, Join, Up;
    var a, b := Bmul32(High(c), High(h)), Bmul32(Low32(c), Low32(h));
    var mm := Bmul32(Xor32(High(c), Low32(c)), Xor32(High(h), Low32(h)));
    HalvesLinear(mm, Xor(a, b)); HalvesLinear(a, b);
    JoinHigh(a, Xor(mm, Xor(a, b))); JoinLow(b, Xor(mm, Xor(a, b)));
  }

  /** The 64-bit Karatsuba block returns the carry-less product of its words. */
  lemma Karatsuba64IsProduct(c: bv64, h: bv64)
    ensures Product(Word(c), Lift(Word(h)), 64) == Lift(Karatsuba64(c, h))
  {
    hide *;
    var ch, cl, hh, hl := High(c), Low32(c), High(h), Low32(h);
    var a, b, mm := Bmul32(ch, hh), Bmul32(cl, hl), Bmul32(Xor32(ch, cl), Xor32(hh, hl));
    SplitFactor(h);
    MultiplierHalves(c, Lift(Word(h)));
    Karatsuba(Word(c), Word(Wide32(ch)), Word(Wide32(cl)), Lift(Word(h)), Lift(Word(Wide32(hh))),
      Lift(Word(Wide32(hl))), 32);
    Bmul32Wide(ch, hh); Bmul32Wide(cl, hl); Bmul32Wide(Xor32(ch, cl), Xor32(hh, hl));
    HighAdd(Wide32(ch), Wide32(cl)); HighAdd(Wide32(hh), Wide32(hl));
    Wide32Linear(ch, cl); Wide32Linear(hh, hl);
    HighAdd(a, b); HighAdd(mm, Xor(a, b));
    CombineHalves(a, b, Xor(mm, Xor(a, b)));
    Karatsuba64Is(c, h);
  }

  lemma Bmul32Wide(x: bv32, y: bv32)
    ensures Product(Word(Wide32(x)), Lift(Word(Wide32(y))), 32) == Lift(Word(Bmul32(x, y)))
  {
    hide Product, Lift, Word, Bmul32;
    Bmul32IsProduct(x, y, Wide32(x), Wide32(y));
  }

  // ---- blocks from words ----

  /** The 256-bit product as s_gfmul assembles it from three Karatsuba blocks. */
  function Product128(y: Block, h: Block): Wide {
    var a, b, c := Karatsuba64(y.hi, h.hi), Karatsuba64(y.lo, h.lo), Karatsuba64(Xor(y.hi, y.lo), Xor(h.hi, h.lo));
    var m := Add(c, Add(a, b));
    Wide(Block(a.hi, Xor(a.lo, m.hi)), Block(Xor(b.hi, m.lo), b.lo))
  }

  lemma WUpWord(w: Wide)
    ensures WUp(w, 64) == Wide(Block(w.hi.lo, w.lo.hi), Block(w.lo.lo, 0))
  {
    hide Up;
    UpEdges(w.hi.hi, w.hi.lo); UpEdges(w.hi.lo, w.lo.hi); UpEdges(w.lo.hi, w.lo.lo); UpEdges(w.lo.lo, 0);
  }

  lemma CombineWords(a: Block, b: Block, m: Block)
    ensures WAdd(Lift(b), WLeftBy(WAdd(Lift(m), WLeftBy(Lift(a), 64)), 64))
      == Wide(Block(a.hi, Xor(a.lo, m.hi)), Block(Xor(b.hi, m.lo), b.lo))
  {
    hide Xor, WLeftBy, WUp;
    var a1 := Wide(Block(0, a.hi), Block(a.lo, 0));
    WLeftByWord(Lift(a)); WUpWord(Lift(a));
    var sum := WAdd(Lift(m), a1);
    assert sum == Wide(Block(0, a.hi), Block(Xor(m.hi, a.lo), m.lo)) by {
      XorZero(0); XorZero(a.hi); XorZero(m.lo);
    }
    WLeftByWord(sum); WUpWord(sum);
    XorZero(a.hi); XorZero(Xor(m.hi, a.lo)); XorZero(b.lo);
    XorCommutes(m.hi, a.lo);
  }

  lemma SplitBlock(h: Block)
    ensures Lift(h) == WAdd(WLeftBy(Lift(Word(h.hi)), 64), Lift(Word(h.lo)))
  {
    hide Xor, WLeftBy, WUp;
    WLeftByWord(Lift(Word(h.hi))); WUpWord(Lift(Word(h.hi)));
    XorZero(0); XorZero(h.hi); XorZero(h.lo);
  }

  lemma MultiplierWords(y: Block, w: Wide)
    ensures RightBy(y, 64) == Word(y.hi)
    ensures Product(y, w, 64) == Product(Word(y.lo), w, 64)
  {
    HalfAndWholeMasks();
    RightByWord(y);
    hide RightBy, LowOnes, And, Product;
    ProductLow(y, Word(y.lo), w, 0xFFFF_FFFF_FFFF_FFFF, 64);
  }

  /** The nine 32-bit products, recombined, are the 128 x 128 bit carry-less product. */
  lemma Product128IsProduct(y: Block, h: Block)
    ensures Product(y, Lift(h), 128) == Product128(y, h)
  {
    var a, b, c := Karatsuba64(y.hi, h.hi), Karatsuba64(y.lo, h.lo), Karatsuba64(Xor(y.hi, y.lo), Xor(h.hi, h.lo));
    hide Xor, Product, WAdd, WLeftBy, Add, Karatsuba64, Lift, Word;
    SplitBlock(h);
    MultiplierWords(y, Lift(h));
    Karatsuba(y, Word(y.hi), Word(y.lo), Lift(h), Lift(Word(h.hi)), Lift(Word(h.lo)), 64);
    Karatsuba64IsProduct(y.hi, h.hi); Karatsuba64IsProduct(y.lo, h.lo);
    Karatsuba64IsProduct(Xor(y.hi, y.lo), Xor(h.hi, h.lo));
    HighAdd(y.hi, y.lo); HighAdd(h.hi, h.lo);
    LiftAdd(a, b); LiftAdd(c, Add(a, b));
    CombineWords(a, b, Add(c, Add(a, b)));
  }

  // ---- reduction modulo x^128 + x^7 + x^2 + x + 1 ----

  /** v times 1 + x + x^2 + x^7, which is v times x^128. */
  function TimesX128(v: Block): Block {
    Add(Add(v, TimesX(v)), Add(TimesX(TimesX(v)), TimesX7(v)))
  }

  function TimesX7(v: Block): Block {
    TimesX(TimesX(TimesX(TimesX(TimesX(TimesX(TimesX(v)))))))
  }

  /** What a 256-bit product stands for in the field. */
  function Reduce(w: Wide): Block {
    Add(w.hi, TimesX128(w.lo))
  }

  lemma TimesX7Linear(a: Block, b: Block)
    ensures TimesX7(Add(a, b)) == Add(TimesX7(a), TimesX7(b))
  {
    hide TimesX, Add;
    var a1, b1 := TimesX(a), TimesX(b);
    var a2, b2 := TimesX(a1), TimesX(b1);
    var a3, b3 := TimesX(a2), TimesX(b2);
    var a4, b4 := TimesX(a3), TimesX(b3);
    var a5, b5 := TimesX(a4), TimesX(b4);
    var a6, b6 := TimesX(a5), TimesX(b5);
    TimesXLinear(a, b); TimesXLinear(a1, b1); TimesXLinear(a2, b2); TimesXLinear(a3, b3);
    TimesXLinear(a4, b4); TimesXLinear(a5, b5); TimesXLinear(a6, b6);
  }

  lemma TimesX128Linear(a: Block, b: Block)
    ensures TimesX128(Add(a, b)) == Add(TimesX128(a), TimesX128(b))
  {
    hide TimesX, TimesX7, Add;
    TimesXLinear(a, b); TimesXLinear(TimesX(a), TimesX(b)); TimesX7Linear(a, b);
    AddSwap(a, b, TimesX(a), TimesX(b));
    AddSwap(TimesX(TimesX(a)), TimesX(TimesX(b)), TimesX7(a), TimesX7(b));
    AddSwap(Add(a, TimesX(a)), Add(b, TimesX(b)), Add(TimesX(TimesX(a)), TimesX7(a)),
      Add(TimesX(TimesX(b)), TimesX7(b)));
  }

  lemma TimesX128TimesX(v: Block)
    ensures TimesX(TimesX128(v)) == TimesX128(TimesX(v))
  {
    hide TimesX, Add;
    TimesXLinear(Add(v, TimesX(v)), Add(TimesX(TimesX(v)), TimesX7(v)));
    TimesXLinear(v, TimesX(v)); TimesXLinear(TimesX(TimesX(v)), TimesX7(v));
  }

  lemma ReduceLinear(a: Wide, b: Wide)
    ensures Reduce(WAdd(a, b)) == Add(Reduce(a), Reduce(b))
  {
    hide TimesX128, Add;
    TimesX128Linear(a.lo, b.lo);
    AddSwap(a.hi, b.hi, TimesX128(a.lo), TimesX128(b.lo));
  }

  /** R = 11100001 || 0^120, the polynomial 1 + x + x^2 + x^7. */
  const R := Block(0xE100_0000_0000_0000, 0)

  lemma XSevenOfOne()
    ensures TimesX128(ONE) == R && TimesX(Block(0, 1)) == R
  {
    assert TimesX(ONE) == Block(0x4000_0000_0000_0000, 0);
    assert TimesX(Block(0x4000_0000_0000_0000, 0)) == Block(0x2000_0000_0000_0000, 0);
    assert TimesX(Block(0x2000_0000_0000_0000, 0)) == Block(0x1000_0000_0000_0000, 0);
    assert TimesX(Block(0x1000_0000_0000_0000, 0)) == Block(0x0800_0000_0000_0000, 0);
    assert TimesX(Block(0x0800_0000_0000_0000, 0)) == Block(0x0400_0000_0000_0000, 0);
    assert TimesX(Block(0x0400_0000_0000_0000, 0)) == Block(0x0200_0000_0000_0000, 0);
    assert TimesX(Block(0x0200_0000_0000_0000, 0)) == Block(0x0100_0000_0000_0000, 0);
    assert TimesX(Block(0, 1)) == R;
    hide TimesX;
  }

  lemma TimesX128Leading(x: Block)
    ensures TimesX128(Leading(x, ONE)) == Leading(x, R)
  {
    hide TimesX128, Add;
    XSevenOfOne();
    TimesX128Linear(ONE, ONE); AddZero(ONE); AddZero(TimesX128(ONE));
  }

  lemma CarryFolds(v: Block)
    ensures TimesX(Block(0, ToBottom(v.hi))) == Leading(v, R)
  {
    XSevenOfOne();
    assert TimesX(Block(0, 0)) == ZERO;
    assert ToBottom(v.hi) == 0 || ToBottom(v.hi) == 1;
    assert ToBottom(v.hi) == 0 <==> v.hi & 0x8000_0000_0000_0000 == 0;
    hide TimesX;
  }

  lemma LeftEven(v: Block)
    ensures TimesX(Left(v)) == Right(Left(v))
  {
    assert Left(v).lo & 1 == 0;
    hide Left, Right, TimesX;
    NoFold(Left(v));
  }

  /** Moving a product up by one bit divides what it stands for by x, as long as its top bit is clear. */
  lemma ReduceLeft(w: Wide)
    requires w.hi.hi & 0x8000_0000_0000_0000 == 0
    ensures TimesX(Reduce(WLeft(w))) == Reduce(w)
  {
    ClearTop(w.hi);
    hide TimesX, TimesX128, Left, Right, Add, Leading, ToBottom;
    var carry := Block(0, ToBottom(w.lo.hi));
    var hi, lo := Left(w.hi), Left(w.lo);
    var lead := Leading(w.lo, R);
    var rest := Right(lo);
    LeftEven(w.hi); LeftEven(w.lo); CarryFolds(w.lo);
    SplitLeading(w.lo);
    TimesX128Linear(Leading(w.lo, ONE), rest); TimesX128Leading(w.lo);
    calc {
      TimesX(Reduce(WLeft(w)));
      { TimesXLinear(Add(hi, carry), TimesX128(lo)); TimesXLinear(hi, carry); TimesX128TimesX(lo); }
      Add(Add(w.hi, lead), TimesX128(rest));
      { AddAssociates(w.hi, lead, TimesX128(rest)); }
      Add(w.hi, TimesX128(w.lo));
      Reduce(w);
    }
  }

  // ---- the product in the field, lowest coefficient first ----

  /** g if the lowest bit of x is set. */
  function PickBlock(x: Block, g: Block): Block {
    if x.lo & 1 == 1 then g else ZERO
  }

  function Horner(x: Block, g: Block, n: nat): Block
    decreases n
  {
    if n == 0 then ZERO else Add(PickBlock(x, g), OverX(Horner(Right(x), g, n - 1)))
  }

  lemma OverXIsInverse(v: Block)
    ensures TimesX(OverX(v)) == v
  {
    UnfoldIsLeading(v);
    hide TimesX, Left, Right, Add, Leading, Unfold;
    TimesXLinear(Left(v), Unfold(v.hi));
    LeftEven(v); SplitLeading(v);
    AddCommutes(Leading(v, ONE), Right(Left(v)));
  }

  lemma UnfoldIsLeading(v: Block)
    ensures TimesX(Unfold(v.hi)) == Leading(v, ONE)
  {
    assert TimesX(ZERO) == ZERO;
    assert TimesX(Block(0xC200_0000_0000_0000, 1)) == ONE;
    hide TimesX;
  }

  lemma OverXLinear(a: Block, b: Block)
    ensures OverX(Add(a, b)) == Add(OverX(a), OverX(b))
  {
    hide *;
    OverXIsInverse(a); OverXIsInverse(b);
    TimesXLinear(OverX(a), OverX(b));
    OverXInverts(Add(OverX(a), OverX(b)));
  }

  lemma OverXOfPick(x: Block, g: Block)
    ensures OverX(PickBlock(x, g)) == PickBlock(x, OverX(g)) && OverX(ZERO) == ZERO
  {
    assert OverX(ZERO) == ZERO;
    hide OverX;
  }

  lemma {:induction false} HornerOverX(x: Block, g: Block, n: nat)
    ensures Horner(x, OverX(g), n) == OverX(Horner(x, g, n))
    decreases n
  {
    hide OverX, Add, PickBlock, Right;
    OverXOfPick(x, g);
    if n > 0 {
      HornerOverX(Right(x), g, n - 1);
      OverXLinear(PickBlock(x, g), OverX(Horner(Right(x), g, n - 1)));
    }
  }

  lemma CarryBelow(w: bv64, k: nat)
    requires k >= 1
    ensures Below(Block(0, ToBottom(w)), k)
  {
    assert ToBottom(w) == 0 || ToBottom(w) == 1;
    RightByOne(Block(0, 1)); RightByOne(ZERO);
    assert Right(Block(0, 1)) == ZERO && Right(ZERO) == ZERO;
    hide Right;
    BelowMore(Block(0, ToBottom(w)), 1, k - 1);
  }

  /** The product of n coefficients with a 128-bit factor has degree below 127 + n. */
  lemma {:induction false} ProductBelow(x: Block, h: Block, n: nat)
    requires 1 <= n <= 128
    ensures Below(Product(x, Lift(h), n).hi, n - 1)
    decreases n
  {
    hide Below, Right, Left, Add, ToBottom;
    var p := Product(Right(x), Lift(h), n - 1);
    if n == 1 {
      assert p == WZERO;
      assert WLeft(WZERO).hi == ZERO by { WLeftZero(); }
      AddZero(ZERO);
      BelowZero(0);
    } else {
      ProductBelow(Right(x), h, n - 1);
      BelowLeft(p.hi, n - 2);
      CarryBelow(p.lo.hi, n - 1);
      BelowAdd(Left(p.hi), Block(0, ToBottom(p.lo.hi)), n - 1);
      AddZero(WLeft(p).hi);
    }
  }

  lemma ReducePick(x: Block, h: Block)
    ensures Reduce(Pick(x, Lift(h))) == PickBlock(x, TimesX128(h))
  {
    hide TimesX128, Add;
    TimesX128Linear(h, h); AddZero(h); AddZero(TimesX128(h)); AddZero(ZERO);
  }

  /** Reducing the carry-less product is Horner's rule in the field, starting from the highest power of x. */
  lemma {:induction false} ReduceProduct(x: Block, h: Block, n: nat)
    requires n <= 128
    ensures Reduce(Product(x, Lift(h), n)) == Horner(x, TimesX128(h), n)
    decreases n
  {
    hide Below, Right, Left, Add, TimesX, OverX, Reduce, TimesX128, WAdd, WLeft, Pick, PickBlock;
    if n == 0 {
      ReduceZero();
    } else {
      var p := Product(Right(x), Lift(h), n - 1);
      if n == 1 {
        TopOfZero();
      } else {
        ProductBelow(Right(x), h, n - 1);
        BelowTop(p.hi, n - 2);
      }
      ReduceProduct(Right(x), h, n - 1);
      ReduceLinear(Pick(x, Lift(h)), WLeft(p));
      ReducePick(x, h);
      ReduceLeft(p);
      OverXInverts(Reduce(WLeft(p)));
    }
  }

  lemma TopOfZero()
    ensures WZERO.hi.hi & 0x8000_0000_0000_0000 == 0
  {}

  lemma ReduceZero()
    ensures Reduce(WZERO) == ZERO
  {
    hide TimesX128, Add;
    TimesX128Linear(ZERO, ZERO); AddZero(ZERO); AddZero(TimesX128(ZERO));
  }

  lemma EvenPart(x: Block, z: Block)
    requires z == Add(x, PickBlock(x, Block(0, 1)))
    ensures x == Add(PickBlock(x, Block(0, 1)), z) && TimesX(z) == Right(x)
  {
    hide *;
    var e := PickBlock(x, Block(0, 1));
    AddCommutes(x, e); Cancel(e, x);
    LowBitCleared(x);
    NoFold(z);
    RightLinear(x, e); RightOfPick(x); AddZero(Right(x));
  }

  lemma LowBitCleared(x: Block)
    ensures Add(x, PickBlock(x, Block(0, 1))).lo & 1 == 0
  {}

  lemma RightOfPick(x: Block)
    ensures Right(PickBlock(x, Block(0, 1))) == ZERO
  {}

  lemma MulPick(h: Block, x: Block)
    ensures Mul(h, PickBlock(x, Block(0, 1))) == PickBlock(x, Mul(h, Block(0, 1)))
  {
    MulZero(h);
    hide Mul;
  }

  lemma {:induction false} MulIsHorner(x: Block, h: Block, n: nat)
    requires Below(x, n)
    ensures Mul(h, x) == Horner(x, Mul(h, Block(0, 1)), n)
    decreases n
  {
    if n == 0 {
      MulZero(h);
    } else {
      hide TimesX, OverX, Add, Mul, PickBlock, Right;
      var e := PickBlock(x, Block(0, 1));
      var z := Add(x, e);
      EvenPart(x, z);
      RightByOne(x); RightByCompose(x, 1, n - 1);
      MulIsHorner(Right(x), h, n - 1);
      MulDistributes(h, e, z); MulPick(h, x);
      MulTimesX(h, z); OverXInverts(Mul(h, z));
    }
  }

  /** x^128 h is h times the folding polynomial R, and x^127 h is one power less. */
  lemma MulTimesX128(h: Block)
    ensures TimesX128(h) == TimesX(Mul(h, Block(0, 1)))
  {
    hide TimesX, Add, Mul;
    XSevenOfOne();
    MulTimesX(h, Block(0, 1));
    MulOne(h);
    MulOfTimesX128(h, ONE);
  }

  lemma MulOfTimesX128(h: Block, v: Block)
    ensures Mul(h, TimesX128(v)) == TimesX128(Mul(h, v))
  {
    hide TimesX, Add, Mul;
    var v2, v3 := TimesX(TimesX(v)), TimesX(TimesX(TimesX(v)));
    var v4, v5, v6 := TimesX(v3), TimesX(TimesX(v3)), TimesX(TimesX(TimesX(v3)));
    MulTimesX(h, v); MulTimesX(h, TimesX(v)); MulTimesX(h, v2); MulTimesX(h, v3); MulTimesX(h, v4); MulTimesX(h, v5);
    MulTimesX(h, v6);
    MulDistributes(h, Add(v, TimesX(v)), Add(v2, TimesX7(v)));
    MulDistributes(h, v, TimesX(v)); MulDistributes(h, v2, TimesX7(v));
  }

  /** Shifting the 255-bit carry-less product into place and reducing it is the product of section 6.3. */
  lemma ReducedProductIsMul(y: Block, h: Block)
    ensures Reduce(WLeft(Product(y, Lift(h), 128))) == Mul(y, h)
  {
    hide *;
    var p := Product(y, Lift(h), 128);
    var g := Mul(h, Block(0, 1));
    ProductBelow(y, h, 128); BelowTop(p.hi, 127);
    ReduceLeft(p); OverXInverts(Reduce(WLeft(p)));
    ReduceProduct(y, h, 128);
    MulTimesX128(h); OverXInverts(g);
    HornerOverX(y, TimesX128(h), 128);
    BelowAll(y); MulIsHorner(y, h, 128);
    MulCommutes(y, h);
  }

  lemma BelowAll(y: Block)
    ensures Below(y, 128)
  {
    RightByAll(y);
  }

  // ---- the reduction as the source writes it, on words ----

  function RightK(t: bv64, k: bv64): bv64
    requires k <= 7
  {
    t >> k
  }

  /** The k lowest bits of t, at the top of the word. */
  function TopK(t: bv64, k: bv64): bv64
    requires k <= 7
  {
    t << (64 - k)
  }

  function Spread(t: bv64): bv64 { Sum4(t, RightK(t, 1), RightK(t, 2), RightK(t, 7)) }
  function Over(t: bv64): bv64 { Xor(Xor(TopK(t, 1), TopK(t, 2)), TopK(t, 7)) }

  /** v times x^k: the k bits that fall out fold back at once. */
  function TimesXBy(v: Block, k: bv64): Block
    requires k <= 7
  {
    Block(Xor(RightK(v.hi, k), Spread(TopK(v.lo, k))), Xor(RightK(v.lo, k), TopK(v.hi, k)))
  }

  lemma FoldStep(l: bv64, k: bv64)
    requires k <= 6
    ensures Xor(Half(Spread(TopK(l, k))), Fold(RightK(l, k))) == Spread(TopK(l, k + 1))
  {}

  lemma TopStep(l: bv64, k: bv64)
    requires k <= 6
    ensures Xor(Half(TopK(l, k)), ToTop(RightK(l, k))) == TopK(l, k + 1) && Half(RightK(l, k)) == RightK(l, k + 1)
  {}

  lemma NoTopFold(h: bv64, l: bv64, k: bv64)
    requires k <= 6
    ensures Fold(Xor(RightK(l, k), TopK(h, k))) == Fold(RightK(l, k)) && ToTop(Spread(TopK(l, k))) == 0
  {}

  lemma TimesXByStep(v: Block, k: bv64)
    requires k <= 6
    ensures TimesX(TimesXBy(v, k)) == TimesXBy(v, k + 1)
  {
    hide Xor, Half, Spread, TopK, RightK, Fold, ToTop;
    var h, l := v.hi, v.lo;
    NoTopFold(h, l, k); FoldStep(l, k); TopStep(l, k); TopStep(h, k);
    HalfLinear(RightK(h, k), Spread(TopK(l, k)));
    HalfLinear(RightK(l, k), TopK(h, k));
    ToTopLinear(RightK(h, k), Spread(TopK(l, k)));
    XorAssociates(RightK(h, k + 1), Half(Spread(TopK(l, k))), Fold(RightK(l, k)));
    XorAssociates(RightK(l, k + 1), Half(TopK(h, k)), ToTop(RightK(h, k)));
    XorZero(ToTop(RightK(h, k)));
  }

  lemma TimesXByNone(v: Block)
    ensures TimesXBy(v, 0) == v
  {}

  lemma TimesXBySteps(v: Block)
    ensures TimesX(v) == TimesXBy(v, 1) && TimesX(TimesX(v)) == TimesXBy(v, 2) && TimesX7(v) == TimesXBy(v, 7)
  {
    hide TimesX, TimesXBy;
    TimesXByNone(v);
    TimesXByStep(v, 0); TimesXByStep(v, 1); TimesXByStep(v, 2); TimesXByStep(v, 3);
    TimesXByStep(v, 4); TimesXByStep(v, 5); TimesXByStep(v, 6);
  }

  lemma SpreadLinear(a: bv64, b: bv64)
    ensures Spread(Xor(a, b)) == Xor(Spread(a), Spread(b))
  {
    hide Xor, RightK, Sum4;
    RightOneLinear(a, b); RightTwoLinear(a, b); RightSevenLinear(a, b);
    Sum4Add(a, RightK(a, 1), RightK(a, 2), RightK(a, 7), b, RightK(b, 1), RightK(b, 2), RightK(b, 7));
  }

  lemma RightOneLinear(a: bv64, b: bv64)
    ensures RightK(Xor(a, b), 1) == Xor(RightK(a, 1), RightK(b, 1))
  {}
  lemma RightTwoLinear(a: bv64, b: bv64)
    ensures RightK(Xor(a, b), 2) == Xor(RightK(a, 2), RightK(b, 2))
  {}
  lemma RightSevenLinear(a: bv64, b: bv64)
    ensures RightK(Xor(a, b), 7) == Xor(RightK(a, 7), RightK(b, 7))
  {}

  lemma OverLinear(a: bv64, b: bv64)
    ensures Over(Xor(a, b)) == Xor(Over(a), Over(b))
  {}

  lemma OverOver(t: bv64)
    ensures Over(Over(t)) == 0
  {}

  /** The last lines of s_gfmul, on the shifted product: fold the lowest word into the next, then both into the
      high block. */
  function ReduceWords(w: Wide): Block {
    var zlh := Xor(w.lo.hi, Over(w.lo.lo));
    Block(Xor(w.hi.hi, Spread(zlh)), Xor(w.hi.lo, Xor(Spread(w.lo.lo), Over(zlh))))
  }

  lemma FoldedBlock(v: Block)
    ensures TimesX128(v) == Block(Spread(Xor(v.hi, Over(v.lo))), Xor(Spread(v.lo), Over(Xor(v.hi, Over(v.lo)))))
  {
    hide Xor, TopK, RightK, TimesX, TimesX7, Spread, Over, TimesXBy;
    TimesXBySteps(v);
    FoldedHigh(v.hi, v.lo); FoldedLow(v.hi, v.lo);
    OverLinear(v.hi, Over(v.lo)); OverOver(v.lo); XorZero(Over(v.hi));
  }

  lemma FoldedHigh(h: bv64, l: bv64)
    ensures Xor(Xor(h, TimesXBy(Block(h, l), 1).hi), Xor(TimesXBy(Block(h, l), 2).hi, TimesXBy(Block(h, l), 7).hi))
      == Spread(Xor(h, Over(l)))
  {
    hide Xor, TopK, RightK, Spread;
    var s1, s2, s7 := Spread(TopK(l, 1)), Spread(TopK(l, 2)), Spread(TopK(l, 7));
    SpreadLinear(h, Over(l)); SpreadLinear(Xor(TopK(l, 1), TopK(l, 2)), TopK(l, 7));
    SpreadLinear(TopK(l, 1), TopK(l, 2));
    SpreadIs(h);
    Sum4Add(h, RightK(h, 1), RightK(h, 2), RightK(h, 7), 0, s1, s2, s7);
    XorZero(h); XorZero(s1);
    XorAssociates(s1, s2, s7);
  }

  lemma FoldedLow(h: bv64, l: bv64)
    ensures Xor(Xor(l, TimesXBy(Block(h, l), 1).lo), Xor(TimesXBy(Block(h, l), 2).lo, TimesXBy(Block(h, l), 7).lo))
      == Xor(Spread(l), Over(h))
  {
    hide Xor, TopK, RightK, Spread;
    var t1, t2, t7 := TopK(h, 1), TopK(h, 2), TopK(h, 7);
    SpreadIs(l);
    Sum4Add(l, RightK(l, 1), RightK(l, 2), RightK(l, 7), 0, t1, t2, t7);
    XorZero(l); XorZero(t1);
    XorAssociates(t1, t2, t7);
  }

  lemma SpreadIs(t: bv64)
    ensures Spread(t) == Sum4(t, RightK(t, 1), RightK(t, 2), RightK(t, 7))
  {}

  lemma ReduceWordsIsReduce(w: Wide)
    ensures ReduceWords(w) == Reduce(w)
  {
    hide TimesX128, Xor, Spread, Over;
    FoldedBlock(w.lo);
  }

  /** s_gfmul on blocks. */
  lemma GfMulIsMul(y: Block, h: Block)
    ensures ReduceWords(WLeft(Product128(y, h))) == Mul(y, h)
  {
    hide *;
    Product128IsProduct(y, h);
    ReduceWordsIsReduce(WLeft(Product128(y, h)));
    ReducedProductIsMul(y, h);
  }

  lemma ShiftIn(p: bv64, q: bv64)
    ensures (p << 1) | (q >> 63) == Xor(Twice(p), ToBottom(q)) && p << 1 == Twice(p)
  {}

  lemma WLeftWords(w: Wide)
    ensures WLeft(w) == Wide(Block(Xor(Twice(w.hi.hi), ToBottom(w.hi.lo)), Xor(Twice(w.hi.lo), ToBottom(w.lo.hi))),
                             Block(Xor(Twice(w.lo.hi), ToBottom(w.lo.lo)), Twice(w.lo.lo)))
  {
    hide Xor, Twice, ToBottom;
    XorZero(Xor(Twice(w.hi.hi), ToBottom(w.hi.lo)));
  }

  /** s_gfmul: multiply the machine words y0, y1 of a block, as loaded from memory, by the field element hh, hl. */
  method GfMulInPlace(hh: bv64, hl: bv64, y0: bv64, y1: bv64) returns (r0: bv64, r1: bv64)
    ensures Block(Swap(r0), Swap(r1)) == Mul(Block(Swap(y0), Swap(y1)), Block(hh, hl))
  {
    hide Swap, Mul, Karatsuba64, Xor, Spread, Over, ToBottom, Twice;
    var yl, yh := Swap(y0), Swap(y1);
    ghost var y, h := Block(yl, yh), Block(hh, hl);
    var a := Karatsuba64(yl, hh);
    var b := Karatsuba64(yh, hl);
    var c := Karatsuba64(Xor(yl, yh), Xor(hh, hl));
    c := Add(c, Add(a, b));
    var zhh, zhl, zlh, zll := a.hi, Xor(a.lo, c.hi), Xor(b.hi, c.lo), b.lo;
    ghost var w := Wide(Block(zhh, zhl), Block(zlh, zll));
    assert w == Product128(y, h);
    ShiftIn(zhh, zhl); ShiftIn(zhl, zlh); ShiftIn(zlh, zll);
    WLeftWords(w);
    zhh := (zhh << 1) | (zhl >> 63);
    zhl := (zhl << 1) | (zlh >> 63);
    zlh := (zlh << 1) | (zll >> 63);
    ShiftIn(zll, 0);
    zll := zll << 1;
    assert WLeft(w) == Wide(Block(zhh, zhl), Block(zlh, zll));
    zlh := Xor(zlh, Over(zll));
    zhh := Xor(zhh, Spread(zlh));
    zhl := Xor(zhl, Xor(Spread(zll), Over(zlh)));
    assert Block(zhh, zhl) == ReduceWords(WLeft(w));
    GfMulIsMul(y, h);
    SwapInvolutive(zhh); SwapInvolutive(zhl);
    r0, r1 := Swap(zhh), Swap(zhl);
  }
}
