/** The streaming GMAC of AES::GMAC, in its portable form and in the form for machines with AES-NI, which takes
    64-byte groups with one reduction each. Both keep the same object invariant. */
module GmacStream {
  import opened GcmField
  import opened GfMul
  import opened MachineWords
  import opened BlockCiphers
  import opened GhashSpec
  import opened LengthBlocks
  import opened PclmulGhash

  class Gmac {
    const aes: BlockCipher
    const accelerated: bool // whether the machine has AES-NI
    const r: array<Byte>    // bytes that do not fill a block yet
    var rp: nat
    var len: nat
    var iv: seq<Byte>
    var y0: bv64            // the running hash, as machine words
    var y1: bv64

    /** Everything fed in since Init. */
    ghost var data: seq<Byte>

    ghost predicate Valid()
      reads this, r
    {
      && r.Length == 16 && |iv| == 16
      && rp < 16 && len == |data| % UINT
      && Streamed(aes.HashKey(), data, Block(Swap(y0), Swap(y1)), r[..rp])
    }

    constructor (aes: BlockCipher, accelerated: bool)
      ensures this.aes == aes && this.accelerated == accelerated && fresh(r) && r.Length == 16
    {
      this.aes, this.accelerated := aes, accelerated;
      r := new Byte[16];
      rp, len, iv, y0, y1, data := 0, 0, [], 0, 0, [];
    }

    /** Start a new message with a 96-bit IV; the counter half of the IV block is always 1. */
    method Init(iv12: seq<Byte>)
      requires |iv12| == 12 && r.Length == 16
      modifies this
      ensures Valid() && data == [] && iv == iv12 + [0, 0, 0, 1]
    {
      rp, len := 0, 0;
      iv := iv12 + [0, 0, 0, 1];
      y0, y1 := 0, 0;
      data := [];
      SwapZero();
    }

    /** Feed in a chunk, on either kind of machine. */
    method Update(input: seq<Byte>)
      requires Valid() && |input| < UINT
      modifies this, r
      ensures Valid() && data == old(data) + input && iv == old(iv)
    {
      if accelerated {
        UpdateAesNi(input);
      } else {
        UpdateSoftware(input);
      }
    }

    /** The tag of everything fed in: pad, absorb the byte count in bits, and mask. */
    method Finish() returns (tag: Block)
      requires Valid()
      modifies this, r
      ensures data == old(data) && iv == old(iv) && |iv| == 16
      ensures tag == GmacTagCounting(aes, BlockOf(iv), data, |data| % UINT)
      ensures |data| < UINT ==> tag == GmacTag(aes, BlockOf(iv), data)
      ensures tag == GmacTag(aes, BlockOf(iv), data) <==>
        Mul(Add(LengthBlock(|data| % UINT), LengthBlock(|data|)), aes.HashKey()) == ZERO
    {
      hide GmacTagCounting, GmacTag, LengthBlock, Mul, Add, BlockOf, Streamed, BlockCipher.HashKey;
      if accelerated {
        tag := FinishAesNi();
      } else {
        tag := FinishSoftware();
      }
      CountingAgrees(aes, BlockOf(iv), data, |data| % UINT);
    }

    method UpdateSoftware(input: seq<Byte>)
      requires Valid() && |input| < UINT
      modifies this, r
      ensures Valid() && data == old(data) + input && iv == old(iv)
    {
      hide Swap, Absorb, BlockOf, Streamed, BlockCipher.HashKey;
      ghost var h, before := aes.HashKey(), data;
      var hh, hl := aes.HashKey().hi, aes.HashKey().lo;
      data := data + input;
      len := (len + |input|) % UINT;
      CountWraps(|before|, |input|);
      var p := 0;
      var z0, z1 := y0, y1;
      assert before + input[..0] == before;
      if rp != 0 {
        p := Fill(before, input, Block(Swap(z0), Swap(z1)));
        if rp < 16 {
          return;
        }
        z0, z1 := AbsorbWords(hh, hl, z0, z1, r[..]);
      } else {
        assert r[..rp] == [];
      }
      p, z0, z1 := AbsorbBlocks(before, input, p, z0, z1);
      y0, y1 := z0, z1;
      TailInput(h, before, input, p, Block(Swap(z0), Swap(z1)));
      Keep(input, p);
    }

    /** Top up the partial block; rp is 16 if the input completes it. */
    method Fill(ghost before: seq<Byte>, input: seq<Byte>, ghost y: Block) returns (p: nat)
      requires r.Length == 16 && 0 < rp < 16
      requires Streamed(aes.HashKey(), before, y, r[..rp])
      modifies r, `rp
      ensures p <= |input| && rp <= 16
      ensures rp < 16 ==> Streamed(aes.HashKey(), before + input, y, r[..rp])
      ensures rp == 16 ==> Streamed(aes.HashKey(), before + input[..p], Absorb(aes.HashKey(), y, BlockOf(r[..])), [])
    {
      hide Absorb, BlockOf, Streamed, BlockCipher.HashKey;
      ghost var h := aes.HashKey();
      p := 0;
      assert before + input[..0] == before;
      while true
        invariant rp < 16 && p <= |input|
        invariant Streamed(h, before + input[..p], y, r[..rp])
        decreases |input| - p
      {
        if p == |input| {
          assert input[..p] == input;
          return;
        }
        PushInput(h, before, input, p, y, r[..rp]);
        r[rp] := input[p];
        assert r[..rp + 1] == r[..rp] + [input[p]];
        rp := rp + 1;
        p := p + 1;
        if rp == 16 {
          assert r[..] == r[..rp];
          return;
        }
      }
    }

    /** The loop over whole blocks. */
    method AbsorbBlocks(ghost before: seq<Byte>, input: seq<Byte>, start: nat, y0: bv64, y1: bv64)
      returns (p: nat, z0: bv64, z1: bv64)
      requires start <= |input|
      requires Streamed(aes.HashKey(), before + input[..start], Block(Swap(y0), Swap(y1)), [])
      ensures p <= |input| < p + 16
      ensures Streamed(aes.HashKey(), before + input[..p], Block(Swap(z0), Swap(z1)), [])
    {
      hide Swap, Absorb, BlockOf, Streamed, BlockCipher.HashKey;
      var hh, hl := aes.HashKey().hi, aes.HashKey().lo;
      p, z0, z1 := start, y0, y1;
      while |input| - p >= 16
        invariant p <= |input|
        invariant Streamed(aes.HashKey(), before + input[..p], Block(Swap(z0), Swap(z1)), [])
      {
        BlockInput(aes.HashKey(), before, input, p, Block(Swap(z0), Swap(z1)));
        z0, z1 := AbsorbWords(hh, hl, z0, z1, input[p..p + 16]);
        p := p + 16;
      }
    }

    /** p_aesNIUpdate. */
    method UpdateAesNi(input: seq<Byte>)
      requires Valid() && |input| < UINT
      modifies this, r
      ensures Valid() && data == old(data) + input && iv == old(iv)
    {
      hide Swap, SwapBytes, Absorb, BlockOf, LoadRegister, Streamed, BlockCipher.HashKey, GmacPclmul128;
      ghost var h, before := aes.HashKey(), data;
      data := data + input;
      len := (len + |input|) % UINT;
      CountWraps(|before|, |input|);
      var p := 0;
      var y := Load(y0, y1);
      SwappedWords(y0, y1);
      assert before + input[..0] == before;
      if rp != 0 {
        p := Fill(before, input, SwapBytes(y));
        if rp < 16 {
          return;
        }
        y := AbsorbRegister(aes.HashKey(), y, r[..]);
      } else {
        assert r[..rp] == [];
      }
      p, y := AbsorbGroups(before, input, p, y);
      p, y := AbsorbSingles(before, input, p, y);
      y0, y1 := y.lo, y.hi;
      SwappedWords(y0, y1);
      TailInput(h, before, input, p, SwapBytes(y));
      Keep(input, p);
    }

    /** The loop over 64-byte groups. */
    method AbsorbGroups(ghost before: seq<Byte>, input: seq<Byte>, start: nat, y: Register)
      returns (p: nat, z: Register)
      requires start <= |input|
      requires Streamed(aes.HashKey(), before + input[..start], SwapBytes(y), [])
      ensures start <= p <= |input| < p + 64
      ensures Streamed(aes.HashKey(), before + input[..p], SwapBytes(z), [])
    {
      hide SwapBytes, Absorb, BlockOf, LoadRegister, Streamed, BlockCipher.HashKey, HashPowers, AbsorbFour;
      var (h, hh, hhh, hhhh) := HashPowers(aes.HashKey());
      p, z := start, y;
      while |input| - p >= 64
        invariant start <= p <= |input|
        invariant Streamed(aes.HashKey(), before + input[..p], SwapBytes(z), [])
      {
        var b1, b2, b3, b4 := input[p..p + 16], input[p + 16..p + 32], input[p + 32..p + 48], input[p + 48..p + 64];
        var c1, c2, c3, c4 := LoadRegister(b1), LoadRegister(b2), LoadRegister(b3), LoadRegister(b4);
        GroupInput(aes.HashKey(), before, input, p, z, b1, b2, b3, b4, c1, c2, c3, c4);
        z := AbsorbFour(h, hh, hhh, hhhh, z, c1, c2, c3, c4);
        p := p + 64;
      }
    }

    /** The loop over single blocks. */
    method AbsorbSingles(ghost before: seq<Byte>, input: seq<Byte>, start: nat, y: Register)
      returns (p: nat, z: Register)
      requires start <= |input|
      requires Streamed(aes.HashKey(), before + input[..start], SwapBytes(y), [])
      ensures p <= |input| < p + 16
      ensures Streamed(aes.HashKey(), before + input[..p], SwapBytes(z), [])
    {
      hide SwapBytes, Absorb, BlockOf, LoadRegister, Streamed, BlockCipher.HashKey, GmacPclmul128;
      p, z := start, y;
      while |input| - p >= 16
        invariant p <= |input|
        invariant Streamed(aes.HashKey(), before + input[..p], SwapBytes(z), [])
      {
        BlockInput(aes.HashKey(), before, input, p, SwapBytes(z));
        z := AbsorbRegister(aes.HashKey(), z, input[p..p + 16]);
        p := p + 16;
      }
    }

    /** Keep the bytes that do not fill a block. */
    method Keep(input: seq<Byte>, p: nat)
      requires p <= |input| < p + 16 && r.Length == 16
      modifies r, `rp
      ensures rp == |input| - p && r[..rp] == input[p..]
    {
      for i := 0 to |input| - p
        invariant r[..i] == input[p..p + i]
        modifies r
      {
        r[i] := input[p + i];
      }
      rp := |input| - p;
    }

    method FinishSoftware() returns (tag: Block)
      requires Valid()
      modifies this, r
      ensures data == old(data) && iv == old(iv) && |iv| == 16
      ensures tag == GmacTagCounting(aes, BlockOf(iv), data, |data| % UINT)
      ensures |data| < UINT ==> tag == GmacTag(aes, BlockOf(iv), data)
    {
      hide Swap, Absorb, BlockOf, BlockCipher.HashKey, ToWord, Ghash, Add;
      ghost var h, tail := aes.HashKey(), r[..rp];
      StreamEnd(h, data, Block(Swap(y0), Swap(y1)), tail);
      hide Streamed;
      var hh, hl := aes.HashKey().hi, aes.HashKey().lo;
      var z0, z1 := y0, y1;
      if rp != 0 {
        while rp < 16
          invariant |tail| <= rp <= 16 && r[..rp] == tail + Zeros(rp - |tail|)
          modifies r, `rp
        {
          r[rp] := 0;
          rp := rp + 1;
        }
        assert r[..] == r[..rp];
        z0, z1 := AbsorbWords(hh, hl, z0, z1, r[..]);
      }
      z0, z1 := AbsorbLength(hh, hl, z0, z1, len);
      tag := Add(aes.encrypt(BlockOf(iv)), Block(Swap(z0), Swap(z1)));
    }

    /** p_aesNIFinish. */
    method FinishAesNi() returns (tag: Block)
      requires Valid()
      modifies this, r
      ensures data == old(data) && iv == old(iv) && |iv| == 16
      ensures tag == GmacTagCounting(aes, BlockOf(iv), data, |data| % UINT)
      ensures |data| < UINT ==> tag == GmacTag(aes, BlockOf(iv), data)
    {
      hide Swap, SwapBytes, Absorb, BlockOf, LoadRegister, BlockCipher.HashKey, ToWord, Ghash, Add, GmacPclmul128;
      ghost var h, tail := aes.HashKey(), r[..rp];
      var y := Load(y0, y1);
      SwappedWords(y0, y1);
      StreamEnd(h, data, SwapBytes(y), tail);
      hide Streamed;
      if rp != 0 {
        while rp < 16
          invariant |tail| <= rp <= 16 && r[..rp] == tail + Zeros(rp - |tail|)
          modifies r, `rp
        {
          r[rp] := 0;
          rp := rp + 1;
        }
        assert r[..] == r[..rp];
        y := AbsorbRegister(aes.HashKey(), y, r[..]);
      }
      y := AbsorbLengthRegister(aes.HashKey(), y, len);
      tag := Add(aes.encrypt(BlockOf(iv)), SwapBytes(y));
    }
  }

  lemma CountWraps(n: nat, k: nat)
    ensures (n % UINT + k) % UINT == (n + k) % UINT
  {}

  /** The tail of a stream completes to the padded data. */
  lemma StreamEnd(h: Block, data: seq<Byte>, y: Block, tail: seq<Byte>)
    requires Streamed(h, data, y, tail)
    ensures tail == [] ==> Ghash(h, ZERO, Padded(data)) == y
    ensures tail != [] ==> Ghash(h, ZERO, Padded(data)) == Absorb(h, y, BlockOf(tail + Zeros(16 - |tail|)))
  {
    hide Absorb, BlockOf;
    var whole := data[..|data| - |tail|];
    PadTail(|data|, |tail|);
    if tail == [] {
      assert Padded(data) == data == whole;
    } else {
      var last := tail + Zeros(16 - |tail|);
      assert Padded(data) == whole + last;
      GhashConcat(h, ZERO, whole, last);
      GhashOne(h, y, last);
    }
  }

  lemma PadTail(n: nat, k: nat)
    requires k < 16 && k <= n && (n - k) % 16 == 0
    ensures PadLength(n) == if k == 0 then 0 else 16 - k
  {
    assert n % 16 == k;
  }

  /** Exclusive or of sixteen bytes, as loaded from memory, into the hash, and the multiplication by the key. */
  method AbsorbWords(hh: bv64, hl: bv64, y0: bv64, y1: bv64, b: seq<Byte>) returns (z0: bv64, z1: bv64)
    requires |b| == 16
    ensures Block(Swap(z0), Swap(z1)) == Absorb(Block(hh, hl), Block(Swap(y0), Swap(y1)), BlockOf(b))
  {
    hide Swap, Xor, LoadLittle, LoadBig, Mul;
    z0 := Xor(y0, LoadLittle(b[..8]));
    z1 := Xor(y1, LoadLittle(b[8..]));
    SwapXor(y0, LoadLittle(b[..8])); SwapXor(y1, LoadLittle(b[8..]));
    SwapLoads(b[..8]); SwapLoads(b[8..]);
    z0, z1 := GfMulInPlace(hh, hl, z0, z1);
  }

  function TimesEight(w: bv64): bv64 { w << 3 }

  lemma BitCount(n: nat)
    ensures TimesEight(ToWord(n)) == ToWord(8 * n)
  {
    hide *;
    ToWordDouble(n); ToWordDouble(2 * n); ToWordDouble(4 * n);
    ThreeDoubles(ToWord(n));
  }

  lemma ThreeDoubles(w: bv64)
    ensures TimesEight(w) == Twice(Twice(Twice(w)))
  {}

  /** The length block: the byte count in bits, in network order, then zero. */
  method AbsorbLength(hh: bv64, hl: bv64, y0: bv64, y1: bv64, len: nat) returns (z0: bv64, z1: bv64)
    ensures Block(Swap(z0), Swap(z1)) == Absorb(Block(hh, hl), Block(Swap(y0), Swap(y1)), Block(ToWord(8 * len), 0))
  {
    hide Swap, Xor, Mul, TimesEight, ToWord;
    var bits := TimesEight(ToWord(len));
    BitCount(len);
    SwapXor(y0, Swap(bits)); SwapInvolutive(bits); XorZero(Swap(y1));
    z0, z1 := GfMulInPlace(hh, hl, Xor(y0, Swap(bits)), y1);
  }

  // ---- the same steps on registers ----

  lemma SwappedWords(y0: bv64, y1: bv64)
    ensures SwapBytes(Load(y0, y1)) == Block(Swap(y0), Swap(y1))
  {}

  method AbsorbRegister(h: Register, y: Register, b: seq<Byte>) returns (z: Register)
    requires |b| == 16
    ensures SwapBytes(z) == Absorb(h, SwapBytes(y), BlockOf(b))
  {
    hide *;
    SwappedLoad(b);
    GmacPclmul128IsAbsorb(h, y, LoadRegister(b));
    z := GmacPclmul128(h, Add(y, LoadRegister(b)));
  }

  method AbsorbLengthRegister(h: Register, y: Register, len: nat) returns (z: Register)
    ensures SwapBytes(z) == Absorb(h, SwapBytes(y), Block(ToWord(8 * len), 0))
  {
    hide Swap, SwapBytes, Mul, TimesEight, ToWord, Add, GmacPclmul128, Absorb;
    var bits := TimesEight(ToWord(len));
    BitCount(len);
    SwapInvolutive(bits); SwapZero();
    SwappedWords(Swap(bits), 0);
    GmacPclmul128IsAbsorb(h, y, Load(Swap(bits), 0));
    z := GmacPclmul128(h, Add(y, Load(Swap(bits), 0)));
  }

  /** The four 16-byte pieces of the 64 bytes at position p. */
  ghost predicate Pieces(input: seq<Byte>, p: nat, b1: seq<Byte>, b2: seq<Byte>, b3: seq<Byte>, b4: seq<Byte>) {
    && p + 64 <= |input|
    && b1 == input[p..p + 16] && b2 == input[p + 16..p + 32] && b3 == input[p + 32..p + 48]
    && b4 == input[p + 48..p + 64]
  }

  /** Four blocks at once continue the stream as four single blocks do. */
  lemma GroupInput(h: Block, before: seq<Byte>, input: seq<Byte>, p: nat, y: Register,
                   b1: seq<Byte>, b2: seq<Byte>, b3: seq<Byte>, b4: seq<Byte>, c1: Register, c2: Register,
                   c3: Register, c4: Register)
    requires Pieces(input, p, b1, b2, b3, b4) && Streamed(h, before + input[..p], SwapBytes(y), [])
    requires c1 == LoadRegister(b1) && c2 == LoadRegister(b2) && c3 == LoadRegister(b3) && c4 == LoadRegister(b4)
    ensures var (h1, h2, h3, h4) := HashPowers(h);
      Streamed(h, before + input[..p + 64], SwapBytes(AbsorbFour(h1, h2, h3, h4, y, c1, c2, c3, c4)), [])
  {
    hide SwapBytes, Absorb, AbsorbFour, HashPowers, LoadRegister, BlockOf, Streamed;
    SwappedLoad(b1); SwappedLoad(b2); SwappedLoad(b3); SwappedLoad(b4);
    AbsorbFourIsFourAbsorbs(h, y, c1, c2, c3, c4);
    hide *;
    var y1 := Absorb(h, SwapBytes(y), BlockOf(b1));
    var y2 := Absorb(h, y1, BlockOf(b2));
    var y3 := Absorb(h, y2, BlockOf(b3));
    BlockInput(h, before, input, p, SwapBytes(y));
    BlockInput(h, before, input, p + 16, y1);
    BlockInput(h, before, input, p + 32, y2);
    BlockInput(h, before, input, p + 48, y3);
  }
}
