/** The field GF(2^128) as section 6.3 of NIST SP 800-38D represents it: the leftmost bit of a block is
    the coefficient of x^0. The proofs above the word level hide the word operators and use only the laws
    that the first lemmas of this module give them. */
module GcmField {

  /** Sixteen bytes as the two 64-bit words the source keeps them in, most significant word first. */
  datatype Block = Block(hi: bv64, lo: bv64)

  const ZERO := Block(0, 0)

  /** The block that stands for the polynomial 1. */
  const ONE := Block(0x8000_0000_0000_0000, 0)

  function Xor(a: bv64, b: bv64): bv64 { a ^ b }

  /** Addition in the field. */
  function Add(a: Block, b: Block): Block {
    Block(Xor(a.hi, b.hi), Xor(a.lo, b.lo))
  }

  function Half(a: bv64): bv64 { a >> 1 }
  function Twice(a: bv64): bv64 { a << 1 }
  /** The lowest bit of a, moved to the top. */
  function ToTop(a: bv64): bv64 { a << 63 }
  /** The top bit of a, moved to the bottom. */
  function ToBottom(a: bv64): bv64 { a >> 63 }

  /** The block shifted right by one bit; a bit leaves each word at the bottom and enters the next at the top. */
  function Right(v: Block): Block {
    Block(Half(v.hi), Xor(Half(v.lo), ToTop(v.hi)))
  }

  function Left(v: Block): Block {
    Block(Xor(Twice(v.hi), ToBottom(v.lo)), Twice(v.lo))
  }

  /** The leading word of R = 11100001 || 0^120 if the lowest bit of a is set. */
  function Fold(a: bv64): bv64 {
    if a & 1 == 1 then 0xE100_0000_0000_0000 else 0
  }

  /** Multiplication by x: shift right, and fold the bit that falls out. */
  function TimesX(v: Block): Block {
    Block(Xor(Half(v.hi), Fold(v.lo)), Right(v).lo)
  }

  function Unfold(a: bv64): Block {
    if a & 0x8000_0000_0000_0000 == 0 then ZERO else Block(0xC200_0000_0000_0000, 1)
  }

  /** Division by x: the leading bit tells whether R was folded in. */
  function OverX(v: Block): Block {
    Add(Left(v), Unfold(v.hi))
  }

  /** v if the leading bit of x is set. */
  function Leading(x: Block, v: Block): Block {
    if x.hi & 0x8000_0000_0000_0000 == 0 then ZERO else v
  }

  /** n steps of Algorithm 1 of SP 800-38D: for each leading bit of x in turn add v if it is set,
      then multiply v by x. */
  function MulLoop(x: Block, v: Block, n: nat): Block
    decreases n
  {
    if n == 0 then ZERO else Add(Leading(x, v), MulLoop(Left(x), TimesX(v), n - 1))
  }

  /** The product x . y of section 6.3. */
  function Mul(x: Block, y: Block): Block {
    MulLoop(x, y, 128)
  }

  // ---- laws of words ----

  lemma XorCommutes(a: bv64, b: bv64)
    ensures Xor(a, b) == Xor(b, a)
  {}

  lemma XorIs(a: bv64, b: bv64)
    ensures Xor(a, b) == a ^ b
  {}

  lemma WordsAssociate(a: bv64, b: bv64, c: bv64, ab: bv64, bc: bv64)
    requires ab == a ^ b && bc == b ^ c
    ensures ab ^ c == a ^ bc
  {}

  lemma XorAssociates(a: bv64, b: bv64, c: bv64)
    ensures Xor(Xor(a, b), c) == Xor(a, Xor(b, c))
  {
    var ab, bc := Xor(a, b), Xor(b, c);
    assert ab == a ^ b && bc == b ^ c;
    hide *;
    calc {
      Xor(ab, c);
      { XorIs(ab, c); }
      ab ^ c;
      { WordsAssociate(a, b, c, ab, bc); }
      a ^ bc;
      { XorIs(a, bc); }
      Xor(a, bc);
    }
  }

  lemma XorSwap(a: bv64, b: bv64, c: bv64, d: bv64)
    ensures Xor(Xor(a, b), Xor(c, d)) == Xor(Xor(a, c), Xor(b, d))
  {
    hide *;
    XorAssociates(a, b, Xor(c, d)); XorAssociates(a, c, Xor(b, d));
    XorAssociates(b, c, d); XorAssociates(c, b, d);
    XorCommutes(b, c);
  }

  lemma HalfLinear(a: bv64, b: bv64)
    ensures Half(Xor(a, b)) == Xor(Half(a), Half(b))
  {}
  lemma TwiceLinear(a: bv64, b: bv64)
    ensures Twice(Xor(a, b)) == Xor(Twice(a), Twice(b))
  {}
  lemma ToTopLinear(a: bv64, b: bv64)
    ensures ToTop(Xor(a, b)) == Xor(ToTop(a), ToTop(b))
  {}
  lemma ToBottomLinear(a: bv64, b: bv64)
    ensures ToBottom(Xor(a, b)) == Xor(ToBottom(a), ToBottom(b))
  {}

  lemma FoldLinear(a: bv64, b: bv64)
    ensures Fold(Xor(a, b)) == Xor(Fold(a), Fold(b))
  {}
  lemma XorZero(a: bv64)
    ensures Xor(a, 0) == a && Xor(0, a) == a && Xor(a, a) == 0
  {}

  // ---- laws of addition ----

  lemma AddCommutes(a: Block, b: Block)
    ensures Add(a, b) == Add(b, a)
  {
    hide Xor;
    XorCommutes(a.hi, b.hi); XorCommutes(a.lo, b.lo);
  }

  lemma AddAssociates(a: Block, b: Block, c: Block)
    ensures Add(Add(a, b), c) == Add(a, Add(b, c))
  {
    hide Xor;
    XorAssociates(a.hi, b.hi, c.hi); XorAssociates(a.lo, b.lo, c.lo);
  }

  lemma AddZero(a: Block)
    ensures Add(a, ZERO) == a && Add(ZERO, a) == a && Add(a, a) == ZERO
  {
    hide Xor;
    XorZero(a.hi); XorZero(a.lo);
  }

  lemma AddSwap(a: Block, b: Block, c: Block, d: Block)
    ensures Add(Add(a, b), Add(c, d)) == Add(Add(a, c), Add(b, d))
  {
    hide *;
    AddAssociates(a, b, Add(c, d)); AddAssociates(a, c, Add(b, d));
    AddAssociates(b, c, d); AddAssociates(c, b, d);
    AddCommutes(b, c);
  }

  lemma Cancel(a: Block, b: Block)
    ensures Add(a, Add(a, b)) == b
  {
    hide *;
    AddAssociates(a, a, b); AddZero(a); AddZero(b);
  }

  // ---- laws of the shifts ----

  lemma TimesXLinear(a: Block, b: Block)
    ensures TimesX(Add(a, b)) == Add(TimesX(a), TimesX(b))
  {
    hide Xor, Half, ToTop, Fold;
    HalfLinear(a.hi, b.hi); HalfLinear(a.lo, b.lo); ToTopLinear(a.hi, b.hi); FoldLinear(a.lo, b.lo);
    XorSwap(Half(a.hi), Half(b.hi), Fold(a.lo), Fold(b.lo));
    XorSwap(Half(a.lo), Half(b.lo), ToTop(a.hi), ToTop(b.hi));
  }

  lemma OverXInverts(v: Block)
    ensures OverX(TimesX(v)) == v 
  {
  }

  lemma LeadingLinear(x: Block, a: Block, b: Block)
    ensures Leading(x, Add(a, b)) == Add(Leading(x, a), Leading(x, b))
  {
    AddZero(ZERO);
    hide Add;
  }

  lemma LeadingTimesX(x: Block, a: Block)
    ensures TimesX(Leading(x, a)) == Leading(x, TimesX(a))
  {}

  // ---- the loop ----

  lemma {:induction false} MulLoopLinear(x: Block, a: Block, b: Block, n: nat)
    ensures MulLoop(x, Add(a, b), n) == Add(MulLoop(x, a, n), MulLoop(x, b, n))
    decreases n
  {
    if n == 0 {
      AddZero(ZERO);
    } else {
      hide TimesX, Leading, Add, Left;
      TimesXLinear(a, b);
      LeadingLinear(x, a, b);
      MulLoopLinear(Left(x), TimesX(a), TimesX(b), n - 1);
      AddSwap(Leading(x, a), Leading(x, b), MulLoop(Left(x), TimesX(a), n - 1), MulLoop(Left(x), TimesX(b), n - 1));
    }
  }

  lemma {:induction false} MulLoopTimesX(x: Block, v: Block, n: nat)
    ensures MulLoop(x, TimesX(v), n) == TimesX(MulLoop(x, v, n))
    decreases n
  {
    if n > 0 {
      hide TimesX, Leading, Add, Left;
      LeadingTimesX(x, v);
      MulLoopTimesX(Left(x), TimesX(v), n - 1);
      TimesXLinear(Leading(x, v), MulLoop(Left(x), TimesX(v), n - 1));
    }
  }

  // ---- x . 1 == x ----

  /** k right shifts. */
  function RightBy(v: Block, k: nat): Block {
    if k == 0 then v else Right(RightBy(v, k - 1))
  }

  lemma RightLinear(a: Block, b: Block)
    ensures Right(Add(a, b)) == Add(Right(a), Right(b))
  {
    hide Xor, Half, ToTop;
    HalfLinear(a.hi, b.hi); HalfLinear(a.lo, b.lo); ToTopLinear(a.hi, b.hi);
    XorSwap(Half(a.lo), Half(b.lo), ToTop(a.hi), ToTop(b.hi));
  }

  lemma {:induction false} RightByLinear(a: Block, b: Block, k: nat)
    ensures RightBy(Add(a, b), k) == Add(RightBy(a, k), RightBy(b, k))
  {
    if k > 0 {
      hide Right, Add;
      RightByLinear(a, b, k - 1);
      RightLinear(RightBy(a, k - 1), RightBy(b, k - 1));
    }
  }

  lemma {:induction false} RightByZero(k: nat)
    ensures RightBy(ZERO, k) == ZERO
  {
    if k > 0 { RightByZero(k - 1); }
  }

  lemma {:induction false} RightByCompose(v: Block, a: nat, b: nat)
    ensures RightBy(v, a + b) == RightBy(RightBy(v, a), b)
  {
    if b > 0 {
      hide Right;
      RightByCompose(v, a, b - 1);
    }
  }

  function RightTwo(v: Block): Block { Block(v.hi >> 2, (v.lo >> 2) ^ (v.hi << 62)) }
  function RightFour(v: Block): Block { Block(v.hi >> 4, (v.lo >> 4) ^ (v.hi << 60)) }
  function RightEight(v: Block): Block { Block(v.hi >> 8, (v.lo >> 8) ^ (v.hi << 56)) }
  function RightSixteen(v: Block): Block { Block(v.hi >> 16, (v.lo >> 16) ^ (v.hi << 48)) }
  function RightThirtyTwo(v: Block): Block { Block(v.hi >> 32, (v.lo >> 32) ^ (v.hi << 32)) }
  function RightWord(v: Block): Block { Block(0, v.hi) }

  lemma TwiceRight(v: Block)
    ensures Right(Right(v)) == RightTwo(v)
  {}
  lemma TwiceRightTwo(v: Block)
    ensures RightTwo(RightTwo(v)) == RightFour(v)
  {}
  lemma TwiceRightFour(v: Block)
    ensures RightFour(RightFour(v)) == RightEight(v)
  {}
  lemma TwiceRightEight(v: Block)
    ensures RightEight(RightEight(v)) == RightSixteen(v)
  {}
  lemma TwiceRightSixteen(v: Block)
    ensures RightSixteen(RightSixteen(v)) == RightThirtyTwo(v)
  {}
  lemma TwiceRightThirtyTwo(v: Block)
    ensures RightThirtyTwo(RightThirtyTwo(v)) == RightWord(v)
  {}

  lemma RightByOne(v: Block)
    ensures RightBy(v, 1) == Right(v)
  {
    assert RightBy(v, 0) == v;
  }

  lemma RightByTwo(v: Block)
    ensures RightBy(v, 2) == RightTwo(v)
  {
    hide *;
    RightByCompose(v, 1, 1); RightByOne(v); RightByOne(Right(v)); TwiceRight(v);
  }

  lemma RightByFour(v: Block)
    ensures RightBy(v, 4) == RightFour(v)
  {
    hide *;
    RightByCompose(v, 2, 2); RightByTwo(v); RightByTwo(RightTwo(v)); TwiceRightTwo(v);
  }

  lemma RightByEight(v: Block)
    ensures RightBy(v, 8) == RightEight(v)
  {
    hide *;
    RightByCompose(v, 4, 4); RightByFour(v); RightByFour(RightFour(v)); TwiceRightFour(v);
  }

  lemma RightBySixteen(v: Block)
    ensures RightBy(v, 16) == RightSixteen(v)
  {
    hide *;
    RightByCompose(v, 8, 8); RightByEight(v); RightByEight(RightEight(v)); TwiceRightEight(v);
  }

  lemma RightByThirtyTwo(v: Block)
    ensures RightBy(v, 32) == RightThirtyTwo(v)
  {
    hide *;
    RightByCompose(v, 16, 16); RightBySixteen(v); RightBySixteen(RightSixteen(v)); TwiceRightSixteen(v);
  }

  lemma RightByWord(v: Block)
    ensures RightBy(v, 64) == RightWord(v)
  {
    hide *;
    RightByCompose(v, 32, 32); RightByThirtyTwo(v); RightByThirtyTwo(RightThirtyTwo(v)); TwiceRightThirtyTwo(v);
  }

  lemma RightByAll(v: Block)
    ensures RightBy(v, 128) == ZERO
  {
    hide RightBy;
    RightByCompose(v, 64, 64); RightByWord(v); RightByWord(RightWord(v));
  }

  ghost predicate AtMostOneBit(w: bv64) { w & (w - 1) == 0 }

  lemma AtMostOneBitHalf(w: bv64)
    requires AtMostOneBit(w)
    ensures AtMostOneBit(Half(w)) && (w & 1 == 1 ==> w == 1)
  {}

  lemma EdgeWords(w: bv64)
    ensures w & 1 == 0 ==> ToTop(w) == 0
    ensures ToTop(0) == 0 && Half(0) == 0 && Half(1) == 0 && ToTop(1) == 0x8000_0000_0000_0000
    ensures AtMostOneBit(0) && AtMostOneBit(0x8000_0000_0000_0000)
  {}

  /** At most one bit of v is set. */
  ghost predicate OneBit(v: Block) {
    (v.hi == 0 || v.lo == 0) && AtMostOneBit(v.hi) && AtMostOneBit(v.lo)
  }

  lemma OneBitRight(v: Block)
    requires OneBit(v)
    ensures OneBit(Right(v)) && (v.lo & 1 == 1 ==> Right(v) == ZERO)
  {
    hide Half, ToTop, Xor, AtMostOneBit;
    AtMostOneBitHalf(v.hi); AtMostOneBitHalf(v.lo);
    EdgeWords(v.hi);
    XorZero(Half(v.lo)); XorZero(ToTop(v.hi)); XorZero(0);
  }

  lemma {:induction false} OneBitRightBy(v: Block, k: nat)
    requires OneBit(v)
    ensures OneBit(RightBy(v, k))
  {
    if k > 0 {
      hide Right, OneBit;
      OneBitRightBy(v, k - 1);
      OneBitRight(RightBy(v, k - 1));
    }
  }

  lemma OneReachesTheEnd()
    ensures RightBy(ONE, 127) == Block(0, 1)
  {
    hide RightBy;
    var a, b, c, d, e := Block(0, 0x8000_0000_0000_0000), Block(0, 0x8000_0000), Block(0, 0x8000),
      Block(0, 0x80), Block(0, 8);
    RightByCompose(ONE, 64, 63); RightByWord(ONE);
    RightByCompose(a, 32, 31); RightByThirtyTwo(a);
    RightByCompose(b, 16, 15); RightBySixteen(b);
    RightByCompose(c, 8, 7); RightByEight(c);
    RightByCompose(d, 4, 3); RightByFour(d);
    RightByCompose(e, 2, 1); RightByTwo(e); RightByOne(Block(0, 2));
  }

  lemma NoFold(v: Block)
    requires v.lo & 1 == 0
    ensures TimesX(v) == Right(v)
  {
    hide Half, ToTop;
    XorZero(Half(v.hi));
  }

  /** Multiplying 1 by x fewer than 128 times never folds: x^k is the block with the one bit k set. */
  lemma PowerOfX(k: nat)
    requires k < 127
    ensures TimesX(RightBy(ONE, k)) == RightBy(ONE, k + 1)
  {
    var v := RightBy(ONE, k);
    if v.lo & 1 == 1 {
      OneBitRightBy(ONE, k);
      OneBitRight(v);
      RightByCompose(ONE, k + 1, 126 - k);
      RightByZero(126 - k);
      OneReachesTheEnd();
      assert false;
    }
    NoFold(v);
  }

  lemma SplitLeadingHigh(hi: bv64, lo: bv64)
    ensures hi == Xor(hi & 0x8000_0000_0000_0000, Half(Xor(Twice(hi), ToBottom(lo))))
  {}

  lemma SplitLeadingLow(hi: bv64, lo: bv64)
    ensures lo == Xor(Half(Twice(lo)), ToTop(Xor(Twice(hi), ToBottom(lo))))
  {}

  lemma SplitLeading(x: Block)
    ensures x == Add(Leading(x, ONE), Right(Left(x)))
  {
    SplitLeadingHigh(x.hi, x.lo); SplitLeadingLow(x.hi, x.lo);
    assert x.hi & 0x8000_0000_0000_0000 == 0 || x.hi & 0x8000_0000_0000_0000 == 0x8000_0000_0000_0000;
    hide Xor, Half, Twice, ToTop, ToBottom;
    XorZero(Right(Left(x)).lo);
  }

  lemma LeadingRightBy(x: Block, v: Block, k: nat)
    ensures RightBy(Leading(x, v), k) == Leading(x, RightBy(v, k))
  {
    RightByZero(k);
  }

  lemma {:induction false} MulLoopOne(x: Block, k: nat)
    requires k <= 128
    ensures MulLoop(x, RightBy(ONE, k), 128 - k) == RightBy(x, k)
    decreases 128 - k
  {
    if k == 128 {
      RightByAll(x);
    } else {
      hide TimesX, Left, Right, Leading, Add, RightBy;
      var v := RightBy(ONE, k);
      if k < 127 {
        PowerOfX(k);
      }
      MulLoopOne(Left(x), k + 1);
      calc {
        MulLoop(x, v, 128 - k);
        Add(Leading(x, v), MulLoop(Left(x), TimesX(v), 128 - k - 1));
        { if k == 127 { assert MulLoop(Left(x), TimesX(v), 0) == ZERO == MulLoop(Left(x), RightBy(ONE, k + 1), 0); } }
        Add(Leading(x, v), RightBy(Left(x), k + 1));
        { LeadingRightBy(x, ONE, k); RightByCompose(Left(x), 1, k); RightByOne(Left(x)); }
        Add(RightBy(Leading(x, ONE), k), RightBy(Right(Left(x)), k));
        { RightByLinear(Leading(x, ONE), Right(Left(x)), k); SplitLeading(x); }
        RightBy(x, k);
      }
    }
  }

  /** x . 1 == x. */
  lemma MulOne(x: Block)
    ensures Mul(x, ONE) == x
  {
    assert RightBy(ONE, 0) == ONE && RightBy(x, 0) == x;
    hide *;
    MulLoopOne(x, 0);
    MulIs(x, ONE);
  }

  lemma MulIs(x: Block, y: Block)
    ensures Mul(x, y) == MulLoop(x, y, 128)
  {}

  // ---- the field laws ----

  lemma {:induction false} MulLoopZero(x: Block, n: nat)
    ensures MulLoop(x, ZERO, n) == ZERO
    decreases n
  {
    if n > 0 { MulLoopZero(Left(x), n - 1); }
  }

  lemma MulZero(x: Block)
    ensures Mul(x, ZERO) == ZERO
  {
    MulLoopZero(x, 128);
  }

  lemma MulTimesX(c: Block, v: Block)
    ensures Mul(c, TimesX(v)) == TimesX(Mul(c, v))
  {
    MulLoopTimesX(c, v, 128);
  }

  /** x . (a + b) == x . a + x . b. */
  lemma MulDistributes(x: Block, a: Block, b: Block)
    ensures Mul(x, Add(a, b)) == Add(Mul(x, a), Mul(x, b))
  {
    MulLoopLinear(x, a, b, 128);
  }

  lemma MulLeading(c: Block, x: Block, v: Block)
    ensures Mul(c, Leading(x, v)) == Leading(x, Mul(c, v))
  {
    MulZero(c);
    hide Mul;
  }

  /** Multiplication by c passes through the loop of another product. */
  lemma {:induction false} MulOfLoop(c: Block, x: Block, v: Block, n: nat)
    ensures Mul(c, MulLoop(x, v, n)) == MulLoop(x, Mul(c, v), n)
    decreases n
  {
    hide Mul, TimesX, Left, Add, Leading;
    if n == 0 {
      MulZero(c);
    } else {
      var rest := MulLoop(Left(x), TimesX(v), n - 1);
      MulDistributes(c, Leading(x, v), rest);
      MulLeading(c, x, v);
      MulOfLoop(c, Left(x), TimesX(v), n - 1);
      MulTimesX(c, v);
    }
  }

  /** x . y == y . x. */
  lemma MulCommutes(x: Block, y: Block)
    ensures Mul(x, y) == Mul(y, x)
  {
    hide *;
    MulIs(x, ONE); MulIs(x, y);
    MulOne(x); MulOne(y);
    MulOfLoop(y, x, ONE, 128);
  }

  /** (x . y) . z == x . (y . z). */
  lemma MulAssociates(x: Block, y: Block, z: Block)
    ensures Mul(Mul(x, y), z) == Mul(x, Mul(y, z))
  {
    hide *;
    MulIs(x, y); MulIs(x, Mul(z, y));
    MulCommutes(Mul(x, y), z); MulCommutes(y, z);
    MulOfLoop(z, x, y, 128);
  }

  lemma MulDistributesRight(a: Block, b: Block, x: Block)
    ensures Mul(Add(a, b), x) == Add(Mul(a, x), Mul(b, x))
  {
    hide *;
    MulCommutes(Add(a, b), x); MulCommutes(a, x); MulCommutes(b, x);
    MulDistributes(x, a, b);
  }
}
