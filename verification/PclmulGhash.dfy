/** GHASH with carry-less multiplication instructions: registers of four 32-bit lanes, one block at a time or
    four blocks with a single reduction. */
module PclmulGhash {
  import opened GcmField
  import opened CarrylessProduct
  import opened HoleyMul
  import opened GfMul
  import opened MachineWords
  import opened BlockCiphers
  import opened GhashSpec

  /** A 128-bit register; hi holds lanes 3 and 2, lo lanes 1 and 0. */
  type Register = Block

  function Or(a: bv64, b: bv64): bv64 { a | b }

  // ---- the instructions ----

  /** _mm_loadu_si128 of two machine words. */
  function Load(w0: bv64, w1: bv64): Register { Block(w1, w0) }

  /** _mm_shuffle_epi8 with the byte-reversing mask. */
  function SwapBytes(v: Register): Register { Block(Swap(v.lo), Swap(v.hi)) }

  /** _mm_clmulepi64_si128 of two selected words. */
  function Clmul(a: bv64, b: bv64): Register {
    Product(Word(b), Lift(Word(a)), 64).lo
  }

  function LanesUp(w: bv64, k: bv32): bv64
    requires k <= 32
  {
    Join(High(w) << k, Low32(w) << k)
  }

  function LanesDown(w: bv64, k: bv32): bv64
    requires k <= 32
  {
    Join(High(w) >> k, Low32(w) >> k)
  }

  /** _mm_slli_epi32 and _mm_srli_epi32. */
  function Slli32(v: Register, k: bv32): Register
    requires k <= 32
  {
    Block(LanesUp(v.hi, k), LanesUp(v.lo, k))
  }

  function Srli32(v: Register, k: bv32): Register
    requires k <= 32
  {
    Block(LanesDown(v.hi, k), LanesDown(v.lo, k))
  }

  /** _mm_slli_si128 by 4, 8 and 12 bytes, and _mm_srli_si128 by the same. */
  function Slli4(v: Register): Register { Block(Join(Low32(v.hi), High(v.lo)), Join(Low32(v.lo), 0)) }
  function Slli8(v: Register): Register { Block(v.lo, 0) }
  function Slli12(v: Register): Register { Block(Join(Low32(v.lo), 0), 0) }
  function Srli4(v: Register): Register { Block(Join(0, High(v.hi)), Join(Low32(v.hi), High(v.lo))) }
  function Srli8(v: Register): Register { Block(0, v.hi) }
  function Srli12(v: Register): Register { Block(0, Join(0, High(v.hi))) }

  function OrRegisters(a: Register, b: Register): Register { Block(Or(a.hi, b.hi), Or(a.lo, b.lo)) }

  // ---- the common tail of both routines ----

  /** The 256-bit product with its top bit in place, as low and high registers. */
  function ShiftOne(a: Register, b: Register): (Register, Register) {
    var c := Srli32(a, 31);
    (OrRegisters(Slli32(a, 1), Slli4(c)),
     OrRegisters(OrRegisters(Slli32(b, 1), Slli4(Srli32(b, 31))), Srli12(c)))
  }

  /** The reduction of the product in registers a (low) and b (high). */
  function FoldLanes(a: Register, b: Register): Register {
    var c := Add(Slli32(a, 31), Add(Slli32(a, 30), Slli32(a, 25)));
    var a' := Add(a, Slli12(c));
    Add(b, Add(a', Add(Add(Srli32(a', 1), Srli4(c)), Add(Srli32(a', 2), Srli32(a', 7)))))
  }

  lemma ShiftLane(w: bv64, below: bv64)
    ensures Or(LanesUp(w, 1), Join(Low32(LanesDown(w, 31)), High(LanesDown(below, 31))))
      == Xor(Twice(w), ToBottom(below))
  {}

  lemma ShiftLowestLane(w: bv64)
    ensures Or(LanesUp(w, 1), Join(Low32(LanesDown(w, 31)), 0)) == Twice(w)
  {}

  lemma EnteringBit(w: bv64, below: bv64)
    ensures Or(Twice(w), Join(0, High(LanesDown(below, 31)))) == Xor(Twice(w), ToBottom(below))
  {}

  lemma OrZero(w: bv64)
    ensures Or(w, 0) == w
  {}

  lemma ShiftOneIsWLeft(a: Register, b: Register)
    ensures ShiftOne(a, b) == (WLeft(Wide(b, a)).lo, WLeft(Wide(b, a)).hi)
  {
    hide Or, LanesUp, LanesDown, Xor, Twice, ToBottom, High, Low32, Join;
    ShiftLane(a.hi, a.lo); ShiftLowestLane(a.lo);
    ShiftLane(b.hi, b.lo); ShiftLowestLane(b.lo); EnteringBit(b.lo, a.hi);
    OrZero(Or(LanesUp(b.hi, 1), Join(Low32(LanesDown(b.hi, 31)), High(LanesDown(b.lo, 31)))));
    WLeftWords(Wide(b, a));
  }

  /** The bits that fall out of each lane, where they fold back. */
  function FoldedBits(w: bv64): bv64 {
    Xor(LanesUp(w, 31), Xor(LanesUp(w, 30), LanesUp(w, 25)))
  }

  function Into(w: bv64): bv64 { Join(0, High(FoldedBits(w))) }

  lemma FoldedLow(w: bv64)
    ensures Join(Low32(FoldedBits(w)), 0) == Over(w)
  {}

  lemma FoldedAcross(w: bv64, below: bv64)
    ensures Join(Low32(FoldedBits(w)), High(FoldedBits(below))) == Xor(Over(w), Into(below))
  {}

  lemma FoldedTopBits(w: bv64, t: bv64)
    ensures Into(Xor(w, Over(t))) == Into(w)
  {}

  /** What crosses from the upper lane of w into the lower one when w moves down by 32 - k. */
  function Crossing(w: bv64, k: bv32): bv64
    requires k <= 32
  {
    Join(0, High(LanesUp(w, k)))
  }

  lemma LanesOfShiftOne(w: bv64)
    ensures RightK(w, 1) == Xor(LanesDown(w, 1), Crossing(w, 31))
  {}
  lemma LanesOfShiftTwo(w: bv64)
    ensures RightK(w, 2) == Xor(LanesDown(w, 2), Crossing(w, 30))
  {}
  lemma LanesOfShiftSeven(w: bv64)
    ensures RightK(w, 7) == Xor(LanesDown(w, 7), Crossing(w, 25))
  {}

  lemma IntoIsCrossings(w: bv64)
    ensures Into(w) == Xor(Crossing(w, 31), Xor(Crossing(w, 30), Crossing(w, 25)))
  {}

  lemma GatherCrossings(w: bv64, d1: bv64, j1: bv64, d2: bv64, j2: bv64, d7: bv64, j7: bv64)
    ensures Sum4(w, Xor(d1, j1), Xor(d2, j2), Xor(d7, j7)) == Xor(w, Xor(Xor(d1, Xor(j1, Xor(j2, j7))), Xor(d2, d7)))
  {
    Sum4Is(w, Xor(d1, j1), Xor(d2, j2), Xor(d7, j7));
    hide *;
    XorSwap(d2, j2, d7, j7);
    XorAssociates(w, Xor(d1, j1), Xor(Xor(d2, d7), Xor(j2, j7)));
    XorCommutes(Xor(d2, d7), Xor(j2, j7));
    XorAssociates(Xor(d1, j1), Xor(j2, j7), Xor(d2, d7));
    XorAssociates(d1, j1, Xor(j2, j7));
  }

  /** A shift of the whole word is a shift of its lanes and the bits that cross between them. */
  lemma SpreadLanes(w: bv64)
    ensures Spread(w) == Xor(w, Xor(Xor(LanesDown(w, 1), Into(w)), Xor(LanesDown(w, 2), LanesDown(w, 7))))
  {
    hide *;
    LanesOfShiftOne(w); LanesOfShiftTwo(w); LanesOfShiftSeven(w); IntoIsCrossings(w); SpreadIs(w);
    GatherCrossings(w, LanesDown(w, 1), Crossing(w, 31), LanesDown(w, 2), Crossing(w, 30), LanesDown(w, 7),
      Crossing(w, 25));
  }

  lemma PullOut(a: bv64, d1: bv64, o: bv64, j: bv64, d: bv64)
    ensures Xor(a, Xor(Xor(d1, Xor(o, j)), d)) == Xor(Xor(a, Xor(Xor(d1, j), d)), o)
  {
    hide *;
    XorCommutes(o, j); XorAssociates(d1, j, o);
    XorAssociates(Xor(d1, j), o, d); XorCommutes(o, d); XorAssociates(Xor(d1, j), d, o);
    XorAssociates(a, Xor(Xor(d1, j), d), o);
  }

  lemma FoldLanesIsReduceWords(a: Register, b: Register)
    ensures FoldLanes(a, b) == ReduceWords(Wide(b, a))
  {
    hide Xor, LanesUp, LanesDown, High, Low32, Join, Over, Spread;
    var zlh := Xor(a.hi, Over(a.lo));
    FoldedLow(a.lo); FoldedTopBits(a.hi, a.lo); FoldedAcross(a.hi, a.lo);
    SpreadLanes(zlh); SpreadLanes(a.lo);
    OverLinear(a.hi, Over(a.lo)); OverOver(a.lo); XorZero(Over(a.hi)); XorZero(a.lo);
    PullOut(a.lo, LanesDown(a.lo, 1), Over(a.hi), Into(a.lo), Xor(LanesDown(a.lo, 2), LanesDown(a.lo, 7)));
  }

  /** The tail of both routines, on the 256-bit product. */
  lemma TailIsReduce(w: Wide)
    ensures var (a, b) := ShiftOne(w.lo, w.hi); FoldLanes(a, b) == Reduce(WLeft(w))
  {
    hide FoldLanes, ShiftOne, WLeft, Reduce, ReduceWords;
    ShiftOneIsWLeft(w.lo, w.hi);
    FoldLanesIsReduceWords(WLeft(w).lo, WLeft(w).hi);
    ReduceWordsIsReduce(WLeft(w));
  }

  // ---- one block: p_gmacPCLMUL128 ----

  /** Multiply the block in register y, as loaded from memory, by the key h. */
  function GmacPclmul128(h: Register, y: Register): Register {
    var d := SwapBytes(y);
    var t1, t2, t3, t4 := Clmul(h.lo, d.lo), Clmul(h.hi, d.lo), Clmul(h.lo, d.hi), Clmul(h.hi, d.hi);
    var m := Add(t2, t3);
    var (a, b) := ShiftOne(Add(t1, Slli8(m)), Add(t4, Srli8(m)));
    SwapBytes(FoldLanes(a, b))
  }

  lemma ClmulIs(a: bv64, b: bv64)
    ensures Product(Word(b), Lift(Word(a)), 64) == Lift(Clmul(a, b))
  {
    hide Product, Karatsuba64;
    Karatsuba64IsProduct(b, a);
  }

  lemma SwapBytesTwice(v: Register)
    ensures SwapBytes(SwapBytes(v)) == v
  {
    hide Swap;
    SwapInvolutive(v.hi); SwapInvolutive(v.lo);
  }

  lemma SwapBytesAdd(a: Register, b: Register)
    ensures SwapBytes(Add(a, b)) == Add(SwapBytes(a), SwapBytes(b))
  {
    hide Swap, Xor;
    SwapXor(a.hi, b.hi); SwapXor(a.lo, b.lo);
  }

  /** Low, middle and high products in place. */
  function Assemble(lo: Register, mid: Register, hi: Register): Wide {
    Wide(Add(hi, Srli8(mid)), Add(lo, Slli8(mid)))
  }

  lemma AssembleIs(lo: Register, mid: Register, hi: Register)
    ensures Assemble(lo, mid, hi) == WAdd(Lift(lo), WLeftBy(WAdd(Lift(mid), WLeftBy(Lift(hi), 64)), 64))
  {
    hide WAdd, Lift, WLeftBy, Xor;
    CombineWords(hi, lo, mid);
    XorZero(hi.hi); XorZero(lo.lo);
  }

  /** The four products of words make the product of blocks. */
  lemma SchoolbookAssembles(h: Block, d: Block)
    ensures Product(d, Lift(h), 128)
      == Assemble(Clmul(h.lo, d.lo), Add(Clmul(h.hi, d.lo), Clmul(h.lo, d.hi)), Clmul(h.hi, d.hi))
  {
    hide *;
    SplitBlock(h); MultiplierWords(d, Lift(h));
    Schoolbook(d, Word(d.hi), Word(d.lo), Lift(h), Lift(Word(h.hi)), Lift(Word(h.lo)), 64);
    ClmulIs(h.lo, d.lo); ClmulIs(h.hi, d.lo); ClmulIs(h.lo, d.hi); ClmulIs(h.hi, d.hi);
    LiftAdd(Clmul(h.hi, d.lo), Clmul(h.lo, d.hi));
    AssembleIs(Clmul(h.lo, d.lo), Add(Clmul(h.hi, d.lo), Clmul(h.lo, d.hi)), Clmul(h.hi, d.hi));
  }

  /** p_gmacPCLMUL128 is the product of section 6.3. */
  lemma GmacPclmul128IsMul(h: Register, y: Register)
    ensures GmacPclmul128(h, y) == SwapBytes(Mul(SwapBytes(y), h))
  {
    hide Clmul, ShiftOne, FoldLanes, SwapBytes, Mul, Add, Slli8, Srli8, Product, Lift, WLeft, Reduce;
    var d := SwapBytes(y);
    var w := Product(d, Lift(h), 128);
    SchoolbookAssembles(h, d);
    TailIsReduce(w);
    ReducedProductIsMul(d, h);
  }

  // ---- four blocks with one reduction ----

  function XorHalves(v: Register): bv64 { Xor(v.lo, v.hi) }

  /** The body of the 64-byte loop: y and the four loaded blocks, and the powers of h. */
  function AbsorbFour(h: Register, hh: Register, hhh: Register, hhhh: Register,
                      y: Register, b1: Register, b2: Register, b3: Register, b4: Register): Register {
    var d1, d2, d3, d4 := SwapBytes(Add(y, b1)), SwapBytes(b2), SwapBytes(b3), SwapBytes(b4);
    var a, b := LowSum(h, hh, hhh, hhhh, d1, d2, d3, d4), HighSum(h, hh, hhh, hhhh, d1, d2, d3, d4);
    var c := Add(MiddleSum(h, hh, hhh, hhhh, d1, d2, d3, d4), Add(a, b));
    var (s, t) := ShiftOne(Add(Slli8(c), a), Add(Srli8(c), b));
    SwapBytes(FoldLanes(s, t))
  }

  /** The three products Karatsuba needs, for one pair of blocks. */
  lemma KaratsubaAssembles(h: Block, d: Block)
    ensures Product(d, Lift(h), 128)
      == Assemble(Clmul(h.lo, d.lo), Add(Clmul(XorHalves(h), XorHalves(d)), Add(Clmul(h.lo, d.lo), Clmul(h.hi, d.hi))),
        Clmul(h.hi, d.hi))
  {
    hide *;
    var lo, hi, m := Clmul(h.lo, d.lo), Clmul(h.hi, d.hi), Clmul(XorHalves(h), XorHalves(d));
    SplitBlock(h); MultiplierWords(d, Lift(h));
    Karatsuba(d, Word(d.hi), Word(d.lo), Lift(h), Lift(Word(h.hi)), Lift(Word(h.lo)), 64);
    HighAdd(d.hi, d.lo); HighAdd(h.hi, h.lo);
    XorHalvesIs(h); XorHalvesIs(d);
    ClmulIs(h.lo, d.lo); ClmulIs(h.hi, d.hi); ClmulIs(XorHalves(h), XorHalves(d));
    AddCommutes(lo, hi);
    LiftAdd(hi, lo); LiftAdd(m, Add(hi, lo));
    AssembleIs(lo, Add(m, Add(hi, lo)), hi);
  }

  lemma XorHalvesIs(v: Register)
    ensures XorHalves(v) == Xor(v.hi, v.lo)
  {
    hide Xor;
    XorCommutes(v.lo, v.hi);
  }

  lemma AssembleAdd(l: Register, m: Register, h: Register, l': Register, m': Register, h': Register)
    ensures WAdd(Assemble(l, m, h), Assemble(l', m', h')) == Assemble(Add(l, l'), Add(m, m'), Add(h, h'))
  {
    hide Add, Slli8, Srli8;
    SlidesLinear(m, m');
    AddSwap(h, Srli8(m), h', Srli8(m'));
    AddSwap(l, Slli8(m), l', Slli8(m'));
  }

  lemma SlidesLinear(m: Register, m': Register)
    ensures Srli8(Add(m, m')) == Add(Srli8(m), Srli8(m')) && Slli8(Add(m, m')) == Add(Slli8(m), Slli8(m'))
  {
    hide Xor;
    XorZero(0);
  }

  /** A triple of partial sums, and how two of them add. */
  lemma MiddleAdd(k: Register, a: Register, b: Register, k': Register, a': Register, b': Register)
    ensures Add(Add(k, Add(a, b)), Add(k', Add(a', b'))) == Add(Add(k, k'), Add(Add(a, a'), Add(b, b')))
  {
    hide *;
    AddSwap(k, Add(a, b), k', Add(a', b')); AddSwap(a, b, a', b');
  }

  /** The reduction of a sum of products is the sum of the products in the field. */
  lemma ReduceSum(p: Wide, q: Wide)
    ensures Reduce(WLeft(WAdd(p, q))) == Add(Reduce(WLeft(p)), Reduce(WLeft(q)))
  {
    hide *;
    WLeftLinear(p, q); ReduceLinear(WLeft(p), WLeft(q));
  }

  /** One pass of the four-block loop is a sum of four products in the field. */
  lemma AbsorbFourIsSum(h: Register, hh: Register, hhh: Register, hhhh: Register,
                        y: Register, b1: Register, b2: Register, b3: Register, b4: Register)
    ensures AbsorbFour(h, hh, hhh, hhhh, y, b1, b2, b3, b4)
      == SwapBytes(Add(Add(Mul(SwapBytes(Add(y, b1)), hhhh), Mul(SwapBytes(b2), hhh)),
        Add(Mul(SwapBytes(b3), hh), Mul(SwapBytes(b4), h))))
  {
    hide LowSum, HighSum, MiddleSum, ShiftOne, FoldLanes, SwapBytes, Mul, Add, Slli8, Srli8, Product, Lift,
      WLeft, Reduce, WAdd;
    var d1, d2, d3, d4 := SwapBytes(Add(y, b1)), SwapBytes(b2), SwapBytes(b3), SwapBytes(b4);
    var a, b := LowSum(h, hh, hhh, hhhh, d1, d2, d3, d4), HighSum(h, hh, hhh, hhhh, d1, d2, d3, d4);
    var c := Add(MiddleSum(h, hh, hhh, hhhh, d1, d2, d3, d4), Add(a, b));
    AddCommutes(Slli8(c), a); AddCommutes(Srli8(c), b);
    var p1, p2, p3, p4 := Product(d1, Lift(hhhh), 128), Product(d2, Lift(hhh), 128), Product(d3, Lift(hh), 128),
      Product(d4, Lift(h), 128);
    FourProducts(h, hh, hhh, hhhh, d1, d2, d3, d4);
    var w := WAdd(WAdd(p1, p2), WAdd(p3, p4));
    TailIsReduce(w);
    ReduceSum(WAdd(p1, p2), WAdd(p3, p4)); ReduceSum(p1, p2); ReduceSum(p3, p4);
    ReducedProductIsMul(d1, hhhh); ReducedProductIsMul(d2, hhh); ReducedProductIsMul(d3, hh);
    ReducedProductIsMul(d4, h);
  }

  /** Four assembled products, each with its own middle, add up to one assembly with a common middle. */
  lemma FourAssembled(k1: Register, l1: Register, h1: Register, k2: Register, l2: Register, h2: Register,
                      k3: Register, l3: Register, h3: Register, k4: Register, l4: Register, h4: Register)
    ensures
      var a, b := Add(Add(l1, l2), Add(l3, l4)), Add(Add(h1, h2), Add(h3, h4));
      var c := Add(Add(Add(k1, k2), Add(k3, k4)), Add(a, b));
      WAdd(WAdd(Assemble(l1, Add(k1, Add(l1, h1)), h1), Assemble(l2, Add(k2, Add(l2, h2)), h2)),
           WAdd(Assemble(l3, Add(k3, Add(l3, h3)), h3), Assemble(l4, Add(k4, Add(l4, h4)), h4)))
        == Assemble(a, c, b)
  {
    hide *;
    var m1, m2, m3, m4 := Add(k1, Add(l1, h1)), Add(k2, Add(l2, h2)), Add(k3, Add(l3, h3)), Add(k4, Add(l4, h4));
    AssembleAdd(l1, m1, h1, l2, m2, h2); AssembleAdd(l3, m3, h3, l4, m4, h4);
    AssembleAdd(Add(l1, l2), Add(m1, m2), Add(h1, h2), Add(l3, l4), Add(m3, m4), Add(h3, h4));
    MiddleAdd(k1, l1, h1, k2, l2, h2); MiddleAdd(k3, l3, h3, k4, l4, h4);
    MiddleAdd(Add(k1, k2), Add(l1, l2), Add(h1, h2), Add(k3, k4), Add(l3, l4), Add(h3, h4));
  }

  /** The low, middle and high registers of the four-block loop. */
  function LowSum(h: Register, hh: Register, hhh: Register, hhhh: Register, d1: Register, d2: Register, d3: Register,
                  d4: Register): Register {
    Add(Add(Clmul(hhhh.lo, d1.lo), Clmul(hhh.lo, d2.lo)), Add(Clmul(hh.lo, d3.lo), Clmul(h.lo, d4.lo)))
  }

  function HighSum(h: Register, hh: Register, hhh: Register, hhhh: Register, d1: Register, d2: Register, d3: Register,
                   d4: Register): Register {
    Add(Add(Clmul(hhhh.hi, d1.hi), Clmul(hhh.hi, d2.hi)), Add(Clmul(hh.hi, d3.hi), Clmul(h.hi, d4.hi)))
  }

  function MiddleSum(h: Register, hh: Register, hhh: Register, hhhh: Register, d1: Register, d2: Register,
                     d3: Register, d4: Register): Register {
    Add(Add(Clmul(XorHalves(hhhh), XorHalves(d1)), Clmul(XorHalves(hhh), XorHalves(d2))),
        Add(Clmul(XorHalves(hh), XorHalves(d3)), Clmul(XorHalves(h), XorHalves(d4))))
  }

  lemma FourProducts(h: Register, hh: Register, hhh: Register, hhhh: Register, d1: Register, d2: Register,
                     d3: Register, d4: Register)
    ensures
      var a, b := LowSum(h, hh, hhh, hhhh, d1, d2, d3, d4), HighSum(h, hh, hhh, hhhh, d1, d2, d3, d4);
      WAdd(WAdd(Product(d1, Lift(hhhh), 128), Product(d2, Lift(hhh), 128)),
        WAdd(Product(d3, Lift(hh), 128), Product(d4, Lift(h), 128)))
        == Assemble(a, Add(MiddleSum(h, hh, hhh, hhhh, d1, d2, d3, d4), Add(a, b)), b)
  {
    hide Clmul, Add, Assemble, XorHalves, Product, Lift, WAdd;
    KaratsubaAssembles(hhhh, d1); KaratsubaAssembles(hhh, d2); KaratsubaAssembles(hh, d3); KaratsubaAssembles(h, d4);
    FourAssembled(Clmul(XorHalves(hhhh), XorHalves(d1)), Clmul(hhhh.lo, d1.lo), Clmul(hhhh.hi, d1.hi),
                  Clmul(XorHalves(hhh), XorHalves(d2)), Clmul(hhh.lo, d2.lo), Clmul(hhh.hi, d2.hi),
                  Clmul(XorHalves(hh), XorHalves(d3)), Clmul(hh.lo, d3.lo), Clmul(hh.hi, d3.hi),
                  Clmul(XorHalves(h), XorHalves(d4)), Clmul(h.lo, d4.lo), Clmul(h.hi, d4.hi));
  }

  // ---- the powers of the key and the four-block step ----

  /** What p_init_aesni keeps in h[0] to h[3]: powers of the key, each with its bytes swapped back. */
  function HashPowers(h: Register): (Register, Register, Register, Register) {
    var y := SwapBytes(h);
    var hh := GmacPclmul128(h, y);
    var hhh := GmacPclmul128(h, hh);
    var hhhh := GmacPclmul128(h, hhh);
    (h, SwapBytes(hh), SwapBytes(hhh), SwapBytes(hhhh))
  }

  lemma HashPowersAre(h: Block)
    ensures var (h1, h2, h3, h4) := HashPowers(h);
      h1 == h && h2 == Mul(h, h) && h3 == Mul(Mul(h, h), h) && h4 == Mul(Mul(Mul(h, h), h), h)
  {
    hide Mul, SwapBytes, GmacPclmul128;
    var y := SwapBytes(h);
    var hh := GmacPclmul128(h, y);
    var hhh := GmacPclmul128(h, hh);
    SwapBytesTwice(h); SwapBytesTwice(Mul(h, h)); SwapBytesTwice(Mul(Mul(h, h), h));
    SwapBytesTwice(Mul(Mul(Mul(h, h), h), h));
    GmacPclmul128IsMul(h, y); GmacPclmul128IsMul(h, hh); GmacPclmul128IsMul(h, hhh);
  }

  /** Horner's rule over four blocks. */
  lemma FourAbsorbs(h: Block, y: Block, b1: Block, b2: Block, b3: Block, b4: Block)
    ensures Absorb(h, Absorb(h, Absorb(h, Absorb(h, y, b1), b2), b3), b4)
      == Add(Add(Mul(Add(y, b1), Mul(Mul(Mul(h, h), h), h)), Mul(b2, Mul(Mul(h, h), h))),
        Add(Mul(b3, Mul(h, h)), Mul(b4, h)))
  {
    hide Mul, Add;
    var a, h2, h3 := Add(y, b1), Mul(h, h), Mul(Mul(h, h), h);
    var ah, ah2, ah3 := Mul(a, h), Mul(a, h2), Mul(a, h3);
    MulAssociates(a, h, h); MulAssociates(a, h2, h); MulAssociates(a, h3, h);
    MulAssociates(b2, h, h); MulAssociates(b2, h2, h); MulAssociates(b3, h, h);
    MulDistributesRight(ah, b2, h);
    MulDistributesRight(ah2, Mul(b2, h), h);
    MulDistributesRight(Add(ah2, Mul(b2, h)), b3, h);
    MulDistributesRight(Add(ah3, Mul(b2, h2)), Mul(b3, h), h);
    MulDistributesRight(ah3, Mul(b2, h2), h);
    MulDistributesRight(Add(Add(ah3, Mul(b2, h2)), Mul(b3, h)), b4, h);
    AddAssociates(Add(Mul(ah3, h), Mul(b2, h3)), Mul(b3, h2), Mul(b4, h));
  }

  /** One pass of the 64-byte loop is four passes of the 16-byte loop. */
  lemma AbsorbFourIsFourAbsorbs(h: Block, y: Register, b1: Register, b2: Register, b3: Register, b4: Register)
    ensures var (h1, h2, h3, h4) := HashPowers(h);
      SwapBytes(AbsorbFour(h1, h2, h3, h4, y, b1, b2, b3, b4))
        == Absorb(h, Absorb(h, Absorb(h, Absorb(h, SwapBytes(y), SwapBytes(b1)), SwapBytes(b2)), SwapBytes(b3)),
          SwapBytes(b4))
  {
    hide Mul, Add, SwapBytes, AbsorbFour, HashPowers, Absorb;
    var h2, h3, h4 := Mul(h, h), Mul(Mul(h, h), h), Mul(Mul(Mul(h, h), h), h);
    HashPowersAre(h);
    AbsorbFourIsSum(h, h2, h3, h4, y, b1, b2, b3, b4);
    SwapBytesAdd(y, b1);
    FourAbsorbs(h, SwapBytes(y), SwapBytes(b1), SwapBytes(b2), SwapBytes(b3), SwapBytes(b4));
    SwapBytesTwice(Add(Add(Mul(SwapBytes(Add(y, b1)), h4), Mul(SwapBytes(b2), h3)),
      Add(Mul(SwapBytes(b3), h2), Mul(SwapBytes(b4), h))));
  }

  /** One pass of the 16-byte loop. */
  lemma GmacPclmul128IsAbsorb(h: Block, y: Register, b: Register)
    ensures SwapBytes(GmacPclmul128(h, Add(y, b))) == Absorb(h, SwapBytes(y), SwapBytes(b))
  {
    hide Mul, Add, SwapBytes, GmacPclmul128;
    GmacPclmul128IsMul(h, Add(y, b));
    SwapBytesAdd(y, b);
    SwapBytesTwice(Mul(SwapBytes(Add(y, b)), h));
  }

  /** Sixteen bytes as _mm_loadu_si128 reads them. */
  function LoadRegister(b: seq<Byte>): Register
    requires |b| == 16
  {
    Load(LoadLittle(b[..8]), LoadLittle(b[8..]))
  }

  lemma SwappedLoad(b: seq<Byte>)
    requires |b| == 16
    ensures SwapBytes(LoadRegister(b)) == BlockOf(b)
  {
    hide Swap, LoadLittle, LoadBig;
    SwapLoads(b[..8]); SwapLoads(b[8..]);
  }
}
