/** Length blocks of GMAC whose count has wrapped: exactly when they make no difference. */
module LengthBlocks {
  import opened GcmField
  import opened MachineWords
  import opened BlockCiphers
  import opened GhashSpec

  function LengthBlock(count: nat): Block { Block(ToWord(8 * count), 0) }

  lemma AddOnce(e: Block, a: Block, b: Block)
    ensures Add(e, a) == Add(e, b) <==> a == b
    ensures Add(Add(e, a), Add(e, b)) == Add(a, b)
  {
    hide *;
    Cancel(e, a); Cancel(e, b);
    AddSwap(e, a, e, b);
    AddZero(e); AddZero(Add(a, b));
  }

  lemma EqualIsZeroSum(a: Block, b: Block)
    ensures a == b <==> Add(a, b) == ZERO
  {
    hide *;
    Cancel(a, b);
    AddZero(a);
  }

  /** Exactly when the tag with another count is the tag of the standard: the key takes the two length blocks to one. */
  lemma CountingAgrees(c: BlockCipher, iv: Block, data: seq<Byte>, count: nat)
    ensures GmacTagCounting(c, iv, data, count) == GmacTag(c, iv, data)
      <==> Mul(Add(LengthBlock(count), LengthBlock(|data|)), c.HashKey()) == ZERO
  {
    hide Add, Mul, BlockCipher.HashKey, Ghash, ToWord;
    var h := c.HashKey();
    var g := Ghash(h, ZERO, Padded(data));
    var x, y := Add(g, LengthBlock(count)), Add(g, LengthBlock(|data|));
    AddOnce(c.encrypt(iv), Mul(x, h), Mul(y, h));
    EqualIsZeroSum(Mul(x, h), Mul(y, h));
    MulDistributesRight(x, y, h);
    AddOnce(g, LengthBlock(count), LengthBlock(|data|));
  }

  /** For a key with an inverse, which every key but zero has in a field: exactly when the length
      blocks are the same. */
  lemma CountingAgreesFor(c: BlockCipher, iv: Block, data: seq<Byte>, count: nat, inverse: Block)
    requires Mul(c.HashKey(), inverse) == ONE
    ensures GmacTagCounting(c, iv, data, count) == GmacTag(c, iv, data) <==> LengthBlock(count) == LengthBlock(|data|)
  {
    hide Add, Mul, BlockCipher.HashKey, GmacTagCounting, GmacTag, ToWord;
    var h, d := c.HashKey(), Add(LengthBlock(count), LengthBlock(|data|));
    CountingAgrees(c, iv, data, count);
    EqualIsZeroSum(LengthBlock(count), LengthBlock(|data|));
    MulAssociates(d, h, inverse);
    MulOne(d);
    MulZero(inverse); MulCommutes(inverse, ZERO);
    MulZero(h); MulCommutes(h, ZERO);
  }

  /** The j low bits. */
  function LowBits(j: nat): bv64 { if j == 0 then 0 else Xor(Twice(LowBits(j - 1)), 1) }

  function Cut(w: bv64, m: bv64): bv64 { w & m }

  lemma CutTwice(w: bv64, m: bv64, b: bv64)
    requires b <= 1
    ensures Cut(Xor(Twice(w), b), Xor(Twice(m), 1)) == Xor(Twice(Cut(w, m)), b)
  {}

  lemma PushInjective(v: bv64, w: bv64, b: bv64, b': bv64)
    requires v < 0x8000_0000_0000_0000 && w < 0x8000_0000_0000_0000 && b <= 1 && b' <= 1
    ensures Xor(Twice(v), b) == Xor(Twice(w), b') <==> v == w && b == b'
  {}

  lemma CutAll(w: bv64)
    ensures Cut(w, 0) == 0 && Cut(w, 0xFFFF_FFFF_FFFF_FFFF) == w
  {}

  lemma {:induction false} LowBitsNested(j: nat, i: nat)
    requires j <= i
    ensures Cut(LowBits(j), LowBits(i)) == LowBits(j)
  {
    hide Cut, Xor, Twice;
    if j == 0 {
      CutNothing(LowBits(i));
    } else {
      LowBitsNested(j - 1, i - 1);
      CutTwice(LowBits(j - 1), LowBits(i - 1), 1);
    }
  }

  lemma CutNothing(m: bv64)
    ensures Cut(0, m) == 0
  {}

  function FourUp(w: bv64): bv64 { (w << 4) | 15 }

  lemma FourMore(j: nat)
    ensures LowBits(j + 4) == FourUp(LowBits(j))
  {
    var m := LowBits(j);
    FourPushes(m);
    hide Xor, Twice, FourUp;
    assert LowBits(j + 2) == Xor(Twice(LowBits(j + 1)), 1);
    assert LowBits(j + 4) == Xor(Twice(LowBits(j + 3)), 1);
  }

  lemma FourPushes(m: bv64)
    ensures Xor(Twice(Xor(Twice(Xor(Twice(Xor(Twice(m), 1)), 1)), 1)), 1) == FourUp(m)
  {}

  lemma AllBits()
    ensures LowBits(63) == 0x7FFF_FFFF_FFFF_FFFF && LowBits(64) == 0xFFFF_FFFF_FFFF_FFFF
  {
    assert LowBits(1) == 1;
    assert LowBits(3) == 7;
    FourMore(3); FourMore(7); FourMore(11); FourMore(15); FourMore(19); FourMore(23); FourMore(27); FourMore(31);
    FourMore(35); FourMore(39); FourMore(43); FourMore(47); FourMore(51); FourMore(55); FourMore(59);
  }

  /** The last j bits of an intersection with fewer than 64 bits leave the top bit free. */
  lemma CutSmall(w: bv64, j: nat)
    requires j <= 63
    ensures Cut(w, LowBits(j)) < 0x8000_0000_0000_0000
  {
    LowBitsNested(j, 63);
    AllBits();
    hide LowBits;
    CutWithin(w, LowBits(j));
  }

  lemma CutWithin(w: bv64, m: bv64)
    requires Cut(m, 0x7FFF_FFFF_FFFF_FFFF) == m
    ensures Cut(w, m) < 0x8000_0000_0000_0000
  {}

  function Parity(n: nat): bv64 { if n % 2 == 1 then 1 else 0 }

  lemma ToWordStep(n: nat)
    ensures ToWord(n) == Xor(Twice(ToWord(n / 2)), Parity(n))
  {
    if n == 0 {
      assert Xor(Twice(0), 0) == 0;
    }
  }

  /** The last bits of a word are those of the number. */
  lemma {:induction false} LastBitsAgree(m: nat, k: nat, j: nat)
    requires j <= 64
    ensures Cut(ToWord(m), LowBits(j)) == Cut(ToWord(k), LowBits(j)) <==> m % PowerOfTwo(j) == k % PowerOfTwo(j)
    decreases j
  {
    if j == 0 {
      hide Cut, ToWord;
      CutAll(ToWord(m)); CutAll(ToWord(k));
    } else {
      assert PowerOfTwo(j) == 2 * PowerOfTwo(j - 1);
      LastBitsAgree(m / 2, k / 2, j - 1);
      LastBit(m, k, j);
      hide *;
      HalvesAgree(m, k, PowerOfTwo(j - 1));
    }
  }

  lemma LastBit(m: nat, k: nat, j: nat)
    requires 0 < j <= 64
    ensures Cut(ToWord(m), LowBits(j)) == Cut(ToWord(k), LowBits(j)) <==>
      Cut(ToWord(m / 2), LowBits(j - 1)) == Cut(ToWord(k / 2), LowBits(j - 1)) && m % 2 == k % 2
  {
    hide Cut, Xor, Twice, ToWord;
    ToWordStep(m); ToWordStep(k);
    CutTwice(ToWord(m / 2), LowBits(j - 1), Parity(m)); CutTwice(ToWord(k / 2), LowBits(j - 1), Parity(k));
    CutSmall(ToWord(m / 2), j - 1); CutSmall(ToWord(k / 2), j - 1);
    PushInjective(Cut(ToWord(m / 2), LowBits(j - 1)), Cut(ToWord(k / 2), LowBits(j - 1)), Parity(m), Parity(k));
  }

  lemma HalvesAgree(m: nat, k: nat, p: nat)
    requires p > 0
    ensures m % (2 * p) == k % (2 * p) <==> (m / 2) % p == (k / 2) % p && m % 2 == k % 2
  {
    TwiceModulo(m, p); TwiceModulo(k, p);
  }

  lemma TwiceModulo(n: nat, p: nat)
    requires p > 0
    ensures n % (2 * p) == 2 * ((n / 2) % p) + n % 2
  {
    var q, r := (n / 2) / p, (n / 2) % p;
    assert n == 2 * (p * q + r) + n % 2;
    assert n == (2 * p) * q + (2 * r + n % 2);
    Remainder(n, 2 * p, q, 2 * r + n % 2);
  }

  lemma Remainder(n: nat, p: nat, q: nat, r: nat)
    requires n == p * q + r && r < p
    ensures n % p == r
  {
    assert n == p * (n / p) + n % p;
    assert p * (n / p - q) == r - n % p;
    Multiple(p, n / p - q);
  }

  lemma Multiple(p: int, d: int)
    requires p > 0
    ensures d > 0 ==> p * d >= p
    ensures d < 0 ==> p * d <= -p
  {}

  lemma WordCount()
    ensures PowerOfTwo(64) == 0x1_0000_0000_0000_0000
  {
    assert PowerOfTwo(8) == 256;
    assert PowerOfTwo(16) == 0x1_0000;
    assert PowerOfTwo(24) == 0x100_0000;
    assert PowerOfTwo(32) == 0x1_0000_0000;
    assert PowerOfTwo(40) == 0x100_0000_0000;
    assert PowerOfTwo(48) == 0x1_0000_0000_0000;
    assert PowerOfTwo(56) == 0x100_0000_0000_0000;
  }

  lemma SameWord(m: nat, k: nat)
    ensures ToWord(m) == ToWord(k) <==> m % 0x1_0000_0000_0000_0000 == k % 0x1_0000_0000_0000_0000
  {
    hide Cut, ToWord;
    LastBitsAgree(m, k, 64);
    AllBits(); WordCount();
    hide LowBits, PowerOfTwo;
    CutAll(ToWord(m)); CutAll(ToWord(k));
  }

  lemma CountModulo(n: nat)
    ensures n % UINT == n % 0x2000_0000_0000_0000 % UINT
    ensures 8 * (n % UINT) % 0x1_0000_0000_0000_0000 == 8 * (n % UINT)
  {
    var q, r := n / 0x2000_0000_0000_0000, n % 0x2000_0000_0000_0000;
    var a, b := r / UINT, r % UINT;
    Remainder(n, UINT, 0x2000_0000 * q + a, b);
    Remainder(8 * b, 0x1_0000_0000_0000_0000, 0, 8 * b);
  }

  lemma BitsModulo(n: nat)
    ensures 8 * n % 0x1_0000_0000_0000_0000 == 8 * (n % 0x2000_0000_0000_0000)
  {
    var q, r := n / 0x2000_0000_0000_0000, n % 0x2000_0000_0000_0000;
    Remainder(8 * n, 0x1_0000_0000_0000_0000, q, 8 * r);
  }

  lemma BelowModulus(r: nat)
    ensures r % UINT == r <==> r < UINT
  {}

  /** A 32-bit count makes the same length block exactly below 2^32 bytes, up to multiples of 2^61 bytes. */
  lemma SameLengthBlock(n: nat)
    ensures LengthBlock(n % UINT) == LengthBlock(n) <==> n % 0x2000_0000_0000_0000 < UINT
  {
    hide ToWord;
    SameWord(8 * (n % UINT), 8 * n);
    CountModulo(n);
    BitsModulo(n);
    BelowModulus(n % 0x2000_0000_0000_0000);
  }

  /** The first length at which the two tags differ, whatever the data, for every key with an inverse. */
  lemma WrapsAt(c: BlockCipher, iv: Block, data: seq<Byte>, inverse: Block)
    requires |data| == UINT && Mul(c.HashKey(), inverse) == ONE
    ensures GmacTagCounting(c, iv, data, |data| % UINT) != GmacTag(c, iv, data)
  {
    hide Mul, BlockCipher.HashKey, GmacTagCounting, GmacTag, LengthBlock;
    SameLengthBlock(|data|);
    CountingAgreesFor(c, iv, data, |data| % UINT, inverse);
  }
}
