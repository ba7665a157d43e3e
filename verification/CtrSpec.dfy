/** Counter mode (section 6.5 of NIST SP 800-38A) with a 32-bit big-endian counter in the last four bytes of the
    block, and when a 64-bit counter runs through the same blocks. */
module CtrSpec {
  import opened GcmField
  import opened GfMul
  import opened MachineWords
  import opened BlockCiphers
  import opened GhashSpec

  function LowCounter(b: Block): bv32 { Low32(b.lo) }

  function WithCounter(b: Block, c: bv32): Block { Block(b.hi, Join(High(b.lo), c)) }

  function Next32(c: bv32): bv32 { c + 1 }
  function Next64(c: bv64): bv64 { c + 1 }

  function Steps(c: bv32, k: nat): bv32 {
    if k == 0 then c else Next32(Steps(c, k - 1))
  }

  /** Counter block k of a 32-bit counter. */
  function Counter32(start: Block, k: nat): Block {
    WithCounter(start, Steps(LowCounter(start), k))
  }

  lemma CounterParts(b: Block, c: bv32, w: bv64)
    ensures Join(High(w), Low32(w)) == w && High(Join(High(w), c)) == High(w) && Low32(Join(High(w), c)) == c
  {}

  lemma CounterStart(start: Block)
    ensures Counter32(start, 0) == start
  {
    hide Low32, High, Join;
    CounterParts(start, 0, start.lo);
  }

  /** The next counter block, from the last. */
  lemma CounterNext(start: Block, k: nat)
    ensures Counter32(start, k + 1) == NextBlock32(Counter32(start, k))
    ensures LowCounter(Counter32(start, k)) == Steps(LowCounter(start), k)
  {
    hide Low32, High, Join, Next32;
    CounterParts(start, Steps(LowCounter(start), k), start.lo);
  }

  // ---- both counters ----

  /** The block whose last four bytes count one more. */
  function NextBlock32(b: Block): Block { WithCounter(b, Next32(LowCounter(b))) }

  /** The block whose second word counts one more. */
  function NextBlock64(b: Block): Block { Block(b.hi, Next64(b.lo)) }

  /** The block after b, for a counter of 64 bits or of 32. */
  function Following(wide: bool, b: Block): Block { if wide then NextBlock64(b) else NextBlock32(b) }

  /** Counter block k. */
  function Counter(wide: bool, start: Block, k: nat): Block {
    if k == 0 then start else Following(wide, Counter(wide, start, k - 1))
  }

  lemma {:induction false} CounterIs32(start: Block, k: nat)
    ensures Counter(false, start, k) == Counter32(start, k)
  {
    hide Counter32, NextBlock32;
    if k == 0 {
      CounterStart(start);
    } else {
      CounterIs32(start, k - 1);
      CounterNext(start, k - 1);
    }
  }

  // ---- counter mode ----

  function Mix(a: Byte, b: Byte): Byte { a ^ b }

  /** Byte i of the key stream. */
  function KeyByte(c: BlockCipher, wide: bool, start: Block, i: nat): Byte {
    BytesOf(c.encrypt(Counter(wide, start, i / 16)))[i % 16]
  }

  /** Counter mode of the whole input; the last block may be partial. */
  function CtrCrypt(c: BlockCipher, wide: bool, start: Block, data: seq<Byte>): (r: seq<Byte>)
    ensures |r| == |data|
  {
    seq(|data|, i requires 0 <= i < |data| => Mix(data[i], KeyByte(c, wide, start, i)))
  }

  lemma MixTwice(a: Byte, b: Byte)
    ensures Mix(Mix(a, b), b) == a
  {}

  /** Decryption is encryption. */
  lemma CtrTwice(c: BlockCipher, wide: bool, start: Block, data: seq<Byte>)
    ensures CtrCrypt(c, wide, start, CtrCrypt(c, wide, start, data)) == data
  {
    hide KeyByte, Mix;
    forall i | 0 <= i < |data|
      ensures CtrCrypt(c, wide, start, CtrCrypt(c, wide, start, data))[i] == data[i]
    {
      MixTwice(data[i], KeyByte(c, wide, start, i));
    }
  }

  // ---- when they agree ----

  lemma CarryStays(w: bv64)
    ensures Next64(w) == Join(High(w), Next32(Low32(w))) <==> Low32(w) != 0xFFFF_FFFF
  {
    var h, l := High(w), Low32(w);
    CarryInHalves(h, l);
    assert w == Join(h, l);
  }

  lemma CarryInHalves(h: bv32, l: bv32)
    ensures Next64(Join(h, l)) == Join(h, Next32(l)) <==> l != 0xFFFF_FFFF
  {}

  /** One 64-bit increment is one 32-bit increment exactly when the low word is not at its end. */
  lemma SameStep(b: Block)
    ensures NextBlock64(b) == NextBlock32(b) <==> LowCounter(b) != 0xFFFF_FFFF
  {
    hide Low32, High, Join, Next32, Next64;
    CarryStays(b.lo);
  }

  /** None of the first n counter values is the last one. */
  ghost predicate Unwrapped(c: bv32, n: nat) {
    forall k: nat {:trigger Steps(c, k)} | k < n :: Steps(c, k) != 0xFFFF_FFFF
  }

  /** Both counters give the same first n + 1 blocks. */
  ghost predicate SameCounters(start: Block, n: nat) {
    forall k: nat | k <= n :: Counter(true, start, k) == Counter(false, start, k)
  }

  lemma SameCountersNext(start: Block, n: nat)
    ensures SameCounters(start, n + 1) <==>
      SameCounters(start, n) && Counter(true, start, n + 1) == Counter(false, start, n + 1)
  {
    hide Counter;
  }

  lemma UnwrappedNext(c: bv32, n: nat)
    ensures Unwrapped(c, n + 1) <==> Unwrapped(c, n) && Steps(c, n) != 0xFFFF_FFFF
  {
    hide Steps;
  }

  /** They do exactly when the 32-bit counter does not wrap among the first n. */
  lemma {:induction false} CountersAgree(start: Block, n: nat)
    ensures SameCounters(start, n) <==> Unwrapped(LowCounter(start), n)
  {
    if n == 0 {
      assert Counter(true, start, 0) == Counter(false, start, 0);
    } else {
      var b := Counter(false, start, n - 1);
      assert Counter(false, start, n) == NextBlock32(b);
      assert Counter(true, start, n) == NextBlock64(Counter(true, start, n - 1));
      assert SameCounters(start, n - 1) ==> Counter(true, start, n - 1) == b;
      hide *;
      CountersAgree(start, n - 1);
      CounterIs32(start, n - 1);
      CounterNext(start, n - 1);
      SameStep(b);
      SameCountersNext(start, n - 1);
      UnwrappedNext(LowCounter(start), n - 1);
    }
  }

  /** Then both give the same output. */
  lemma SameOutput(c: BlockCipher, start: Block, data: seq<Byte>)
    requires Unwrapped(LowCounter(start), |data| / 16)
    ensures CtrCrypt(c, true, start, data) == CtrCrypt(c, false, start, data)
  {
    hide Counter, BytesOf, Mix, Unwrapped, LowCounter;
    CountersAgree(start, |data| / 16);
    forall i | 0 <= i < |data|
      ensures KeyByte(c, true, start, i) == KeyByte(c, false, start, i)
    {
      var k: nat := i / 16;
      assert k <= |data| / 16 && Counter(true, start, k) == Counter(false, start, k);
    }
  }

  // ---- why the mask of the top bit is enough ----

  function Added(c: bv32, d: bv32): bv32 { c + d }
  function Masked(c: bv32, m: bv32): bv32 { c & m }
  function DoubleMask(m: bv32): bv32 { m << 1 }

  lemma {:induction false} StepsFromZero(c: bv32, k: nat)
    ensures Steps(c, k) == Added(c, Steps(0, k))
  {
    hide Added, Next32;
    if k == 0 {
      AddedZero(c);
    } else {
      StepsFromZero(c, k - 1);
      NextAdded(c, Steps(0, k - 1));
    }
  }

  lemma AddedZero(c: bv32)
    ensures Added(c, 0) == c
  {}

  lemma MachineAdds(c: bv32, d: bv32)
    ensures Next32(c + d) == Added(c, d + 1)
  {
    calc { Next32(c + d); (c + d) + 1; c + (d + 1); Added(c, d + 1); }
  }

  lemma NextAdded(c: bv32, d: bv32)
    ensures Next32(Added(c, d)) == Added(c, Next32(d))
  {
    hide *;
    AddedIs(c, d); NextIs(d); MachineAdds(c, d);
  }

  lemma NextIs(c: bv32)
    ensures Next32(c) == c + 1
  {}

  lemma AddedIs(c: bv32, d: bv32)
    ensures Added(c, d) == c + d
  {}

  lemma NextTwice(d: bv32)
    ensures Next32(Next32(Added(d, d))) == Added(Next32(d), Next32(d))
  {}

  lemma {:induction false} StepsDouble(k: nat)
    ensures Steps(0, 2 * k) == Added(Steps(0, k), Steps(0, k))
  {
    if k == 0 {
      AddedZero(0);
    } else {
      hide Added, Next32;
      StepsDouble(k - 1);
      NextTwice(Steps(0, k - 1));
      assert Steps(0, 2 * k) == Next32(Steps(0, 2 * k - 1)) == Next32(Next32(Steps(0, 2 * (k - 1))));
    }
  }

  lemma BinaryStep(w: bv64)
    ensures Low32(Xor(Twice(w), 0)) == Added(Low32(w), Low32(w))
    ensures Low32(Xor(Twice(w), 1)) == Next32(Added(Low32(w), Low32(w)))
  {}

  /** Counting k steps adds k in binary, modulo 2^32. */
  lemma {:induction false} StepsAreSum(c: bv32, k: nat)
    ensures Steps(c, k) == Added(c, Low32(ToWord(k)))
  {
    StepsFromZero(c, k);
    AddedZero(0);
    if k == 0 {
      assert Low32(0) == 0;
    } else {
      var m := k / 2;
      StepsAreSum(0, m);
      StepsFromZero(0, m);
      StepsDouble(m);
      BinaryStep(ToWord(m));
      hide Added, Low32, Next32, Xor, Twice;
      ZeroAdded(Low32(ToWord(m))); ZeroAdded(Low32(ToWord(k)));
      assert k == 2 * m || k == 2 * m + 1;
    }
  }

  lemma ZeroAdded(c: bv32)
    ensures Added(0, c) == c
  {}

  /** Counter block k: the number in the last four bytes of the first block, and k, added modulo 2^32. */
  lemma CounterIsSum(start: Block, k: nat)
    ensures Counter(false, start, k)
      == Block(start.hi, Join(High(start.lo), Added(Low32(start.lo), Low32(ToWord(k)))))
  {
    hide Counter, Steps, Added, Low32, High, Join, ToWord;
    CounterIs32(start, k);
    StepsAreSum(LowCounter(start), k);
  }

  /** All bits from j upwards. */
  function MaskFrom(j: nat): bv32 {
    if j == 0 then 0xFFFF_FFFF else DoubleMask(MaskFrom(j - 1))
  }

  lemma DoubledBelow(d: bv32, m: bv32)
    requires Masked(d, m) == 0
    ensures Masked(Added(d, d), DoubleMask(m)) == 0 && Masked(Next32(Added(d, d)), DoubleMask(m)) == 0
  {}

  /** Fewer than 2^j steps from zero leave the bits from j upwards clear. */
  lemma {:induction false} StepsBelow(k: nat, j: nat)
    requires k < PowerOfTwo(j)
    ensures Masked(Steps(0, k), MaskFrom(j)) == 0
    decreases j
  {
    hide Masked, Added, DoubleMask, Next32;
    if j == 0 {
      MaskedZero();
    } else {
      var m := k / 2;
      StepsBelow(m, j - 1);
      StepsDouble(m);
      DoubledBelow(Steps(0, m), MaskFrom(j - 1));
      assert k == 2 * m || k == 2 * m + 1;
    }
  }

  lemma MaskedZero()
    ensures Masked(0, 0xFFFF_FFFF) == 0
  {}

  lemma EightMasks(j: nat, m: bv32)
    requires MaskFrom(j) == m
    ensures MaskFrom(j + 8) == m << 8 && MaskFrom(j + 7) == m << 7
    ensures PowerOfTwo(j + 8) == 256 * PowerOfTwo(j) && PowerOfTwo(j + 7) == 128 * PowerOfTwo(j)
  {
    assert MaskFrom(j + 1) == m << 1;
    assert MaskFrom(j + 2) == m << 2;
    assert MaskFrom(j + 3) == m << 3;
    assert MaskFrom(j + 4) == m << 4;
    assert MaskFrom(j + 5) == m << 5;
    assert MaskFrom(j + 6) == m << 6;
    assert MaskFrom(j + 7) == m << 7;
    assert PowerOfTwo(j + 1) == 2 * PowerOfTwo(j);
    assert PowerOfTwo(j + 2) == 4 * PowerOfTwo(j);
    assert PowerOfTwo(j + 4) == 4 * PowerOfTwo(j + 2);
    assert PowerOfTwo(j + 6) == 4 * PowerOfTwo(j + 4);
    assert PowerOfTwo(j + 7) == 2 * PowerOfTwo(j + 6);
  }

  lemma MaskFromThirtyOne()
    ensures MaskFrom(31) == 0x8000_0000 && PowerOfTwo(31) == 0x8000_0000
  {
    assert MaskFrom(0) == 0xFFFF_FFFF && PowerOfTwo(0) == 1;
    hide MaskFrom, PowerOfTwo;
    EightMasks(0, 0xFFFF_FFFF); EightMasks(8, 0xFFFF_FF00); EightMasks(16, 0xFFFF_0000); EightMasks(24, 0xFF00_0000);
  }

  lemma NoCarryOut(c: bv32, d: bv32)
    requires Masked(c, 0x8000_0000) == 0 && Masked(d, 0x8000_0000) == 0
    ensures Added(c, d) != 0xFFFF_FFFF
  {}

  /** A counter that starts with its top bit clear does not wrap within 2^31 blocks. */
  lemma TopBitClearUnwrapped(c: bv32, n: nat)
    requires Masked(c, 0x8000_0000) == 0 && n <= 0x8000_0000
    ensures Unwrapped(c, n)
  {
    hide Masked, Added, MaskFrom, PowerOfTwo, Next32, Steps;
    forall k: nat | k < n
      ensures Steps(c, k) != 0xFFFF_FFFF
    {
      MaskFromThirtyOne();
      StepsBelow(k, 31);
      StepsFromZero(c, k);
      NoCarryOut(c, Steps(0, k));
    }
  }
}
