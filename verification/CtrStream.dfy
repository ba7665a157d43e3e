/** The streaming counter mode of AES::CTR: the software form with its 32-bit counter, and the AES-NI form with a
    64-bit counter and four blocks at a time. A partial block waits in the output as plain input. */
module CtrStream {
  import opened GcmField
  import opened GfMul
  import opened MachineWords
  import opened BlockCiphers
  import opened GhashSpec
  import opened CtrSpec

  /** The state after data: whole blocks in out are enciphered, the rest is plain, ctr is the next counter block. */
  ghost predicate Ciphered(c: BlockCipher, wide: bool, start: Block, data: seq<Byte>, out: seq<Byte>, ctr: Block) {
    var whole := |data| - |data| % 16;
    && |data| <= |out|
    && (forall i | 0 <= i < whole :: out[i] == Mix(data[i], KeyByte(c, wide, start, i)))
    && (forall i | whole <= i < |data| :: out[i] == data[i])
    && ctr == Counter(wide, start, whole / 16)
  }

  /** A block of sixteen bytes of out, from byte at, is b mixed with the key stream ks; all else is as in was. */
  ghost predicate Mixed(was: seq<Byte>, out: seq<Byte>, at: nat, b: seq<Byte>, ks: seq<Byte>) {
    && |out| == |was| && at + 16 <= |out| && |b| == 16 && |ks| == 16
    && (forall k | 0 <= k < 16 :: out[at + k] == Mix(b[k], ks[k]))
    && (forall i | 0 <= i < |out| && !(at <= i < at + 16) :: out[i] == was[i])
  }

  ghost predicate Aligned(n: nat) { n % 16 == 0 }

  lemma NextAligned(n: nat)
    ensures Aligned(n + 16) <==> Aligned(n)
  {}

  lemma KeyBlock(c: BlockCipher, wide: bool, start: Block, n: nat, k: nat)
    requires n % 16 == 0 && k < 16
    ensures KeyByte(c, wide, start, n + k) == BytesOf(c.encrypt(Counter(wide, start, n / 16)))[k]
  {
    hide BytesOf, Counter;
    assert (n + k) / 16 == n / 16 && (n + k) % 16 == k;
  }

  lemma CipherPlain(c: BlockCipher, wide: bool, start: Block, data: seq<Byte>, out: seq<Byte>, ctr: Block, b: Byte)
    requires Ciphered(c, wide, start, data, out, ctr) && |data| % 16 < 15 && |data| < |out|
    ensures Ciphered(c, wide, start, data + [b], out[|data| := b], ctr)
  {
    hide KeyByte, Mix, Counter;
  }

  lemma CipherBlock(c: BlockCipher, wide: bool, start: Block, data: seq<Byte>, was: seq<Byte>, out: seq<Byte>,
                    ctr: Block, b: seq<Byte>)
    requires Ciphered(c, wide, start, data, was, ctr) && |data| % 16 == 0
    requires Mixed(was, out, |data|, b, BytesOf(c.encrypt(ctr)))
    ensures Ciphered(c, wide, start, data + b, out, Following(wide, ctr))
  {
    hide KeyByte, Mix, BytesOf, Following;
    var n := |data|;
    assert |data + b| % 16 == 0 && (n + 16) / 16 == n / 16 + 1;
    forall i | 0 <= i < n + 16
      ensures out[i] == Mix((data + b)[i], KeyByte(c, wide, start, i))
    {
      if i >= n {
        KeyBlock(c, wide, start, n, i - n);
        assert out[i] == out[n + (i - n)];
      }
    }
  }

  /** The state between the last byte of a block and its encryption: the last block is complete but still plain. */
  ghost predicate Waiting(c: BlockCipher, wide: bool, start: Block, data: seq<Byte>, out: seq<Byte>, ctr: Block) {
    && 16 <= |data| <= |out| && |data| % 16 == 0
    && Ciphered(c, wide, start, data[..|data| - 16], out, ctr)
    && out[|data| - 16..|data|] == data[|data| - 16..]
  }

  lemma CipherWaits(c: BlockCipher, wide: bool, start: Block, data: seq<Byte>, out: seq<Byte>, ctr: Block, b: Byte)
    requires Ciphered(c, wide, start, data, out, ctr) && |data| % 16 == 15 && |data| < |out|
    ensures Waiting(c, wide, start, data + [b], out[|data| := b], ctr)
  {
    hide Ciphered;
    var n := |data| - 15;
    var d, out' := data + [b], out[|data| := b];
    WholePart(c, wide, start, data, out, ctr, n);
    Elsewhere(c, wide, start, data[..n], out, out', ctr);
    assert |d| % 16 == 0 && d[..|d| - 16] == data[..n];
    assert out'[n..|d|] == d[n..] by {
      assert out'[n..|d|] == out[n..|data|] + [b];
    }
  }

  /** Bytes of the output past the data do not matter. */
  lemma Elsewhere(c: BlockCipher, wide: bool, start: Block, data: seq<Byte>, out: seq<Byte>,
                  out': seq<Byte>, ctr: Block)
    requires Ciphered(c, wide, start, data, out, ctr) && |data| <= |out'|
    requires forall i | 0 <= i < |data| :: out'[i] == out[i]
    ensures Ciphered(c, wide, start, data, out', ctr)
  {
    hide Counter, KeyByte, Mix;
  }

  /** The whole blocks alone. */
  lemma WholePart(c: BlockCipher, wide: bool, start: Block, data: seq<Byte>, out: seq<Byte>, ctr: Block, n: nat)
    requires Ciphered(c, wide, start, data, out, ctr) && n == |data| - |data| % 16
    ensures Ciphered(c, wide, start, data[..n], out, ctr) && out[n..|data|] == data[n..]
  {
    hide Counter, KeyByte, Mix;
    assert n % 16 == 0;
  }

  lemma CipherLast(c: BlockCipher, wide: bool, start: Block, data: seq<Byte>, was: seq<Byte>,
                   out: seq<Byte>, ctr: Block)
    requires Waiting(c, wide, start, data, was, ctr)
    requires Mixed(was, out, |data| - 16, data[|data| - 16..], BytesOf(c.encrypt(ctr)))
    ensures Ciphered(c, wide, start, data, out, Following(wide, ctr))
  {
    hide Ciphered, Mixed, BytesOf, Following;
    var n := |data| - 16;
    assert data == data[..n] + data[n..];
    CipherBlock(c, wide, start, data[..n], was, out, ctr, data[n..]);
  }

  lemma CipherTail(c: BlockCipher, wide: bool, start: Block, data: seq<Byte>, was: seq<Byte>, out: seq<Byte>,
                   ctr: Block, t: seq<Byte>)
    requires Ciphered(c, wide, start, data, was, ctr) && |data| % 16 == 0 && |t| < 16
    requires |out| == |was| && |data| + |t| <= |out| && out[|data|..|data| + |t|] == t
    requires forall i | 0 <= i < |data| :: out[i] == was[i]
    ensures Ciphered(c, wide, start, data + t, out, ctr)
  {
    hide KeyByte, Mix, Counter;
    forall i | |data| <= i < |data + t|
      ensures out[i] == (data + t)[i]
    {
      assert out[i] == out[|data|..|data| + |t|][i - |data|];
    }
  }

  class Ctr {
    const aes: BlockCipher
    const accelerated: bool
    var ctr: Block
    var out: array<Byte>
    var len: nat

    ghost var start: Block
    /** Everything fed in since Init. */
    ghost var data: seq<Byte>

    ghost predicate Valid()
      reads this, out
    {
      len == |data| <= out.Length && Ciphered(aes, accelerated, start, data, out[..], ctr)
    }

    constructor (aes: BlockCipher, accelerated: bool)
      ensures this.aes == aes && this.accelerated == accelerated && fresh(out)
    {
      this.aes, this.accelerated := aes, accelerated;
      out := new Byte[0];
      ctr, len, start, data := ZERO, 0, ZERO, [];
    }

    method Init(iv: Block, output: array<Byte>)
      modifies this
      ensures Valid() && start == iv && data == [] && out == output
    {
      ctr, out, len := iv, output, 0;
      start, data := iv, [];
    }

    /** Encrypt or decrypt a chunk, on either kind of machine. */
    method Crypt(input: seq<Byte>)
      requires Valid() && len + |input| <= out.Length && len + |input| < UINT
      modifies this, out
      ensures Valid() && data == old(data) + input && start == old(start) && out == old(out)
      ensures forall i | len <= i < out.Length :: out[i] == old(out[i])
    {
      hide Ciphered;
      if accelerated {
        CryptAesNi(input);
      } else {
        CryptSoftware(input);
      }
    }

    method CryptSoftware(input: seq<Byte>)
      requires !accelerated && Valid() && len + |input| <= out.Length
      modifies this, out
      ensures Valid() && data == old(data) + input && start == old(start) && out == old(out)
      ensures forall i | len <= i < out.Length :: out[i] == old(out[i])
    {
      hide Ciphered, Waiting, LowCounter, BytesOf;
      ghost var before := data;
      var p := 0;
      data := before + input;
      if len % 16 != 0 {
        var full;
        p, full := Fill(before, input);
        if !full {
          len := len + p;
          return;
        }
        ghost var was := out[..];
        WriteMixed(len + p - 16, out[len + p - 16..len + p], ctr);
        FinishInput(aes, accelerated, start, before, input, p, was, out[..], ctr);
        ctr := WithCounter(ctr, Next32(LowCounter(ctr)));
      } else {
        assert before + input[..0] == before;
      }
      p := CryptBlocks(before, input, p);
      CopyTail(before, input, p);
      len := len + |input|;
    }

    /** p_aesNICrypt: the same with a 64-bit counter. */
    method CryptAesNi(input: seq<Byte>)
      requires accelerated && Valid() && len + |input| <= out.Length
      modifies this, out
      ensures Valid() && data == old(data) + input && start == old(start) && out == old(out)
      ensures forall i | len <= i < out.Length :: out[i] == old(out[i])
    {
      hide Ciphered, Waiting, LowCounter, BytesOf, NextBlock64;
      ghost var before := data;
      var p := 0;
      data := before + input;
      if len % 16 != 0 {
        var full;
        p, full := Fill(before, input);
        if !full {
          len := len + p;
          return;
        }
        ghost var was := out[..];
        WriteMixed(len + p - 16, out[len + p - 16..len + p], ctr);
        FinishInput(aes, accelerated, start, before, input, p, was, out[..], ctr);
        ctr := NextBlock64(ctr);
      } else {
        assert before + input[..0] == before;
      }
      p := CryptGroups(before, input, p);
      p := CryptSingles(before, input, p);
      CopyTail(before, input, p);
      len := len + |input|;
    }

    /** Top up the partial block with plain bytes, until it is full or the input ends. */
    method Fill(ghost before: seq<Byte>, input: seq<Byte>) returns (p: nat, full: bool)
      requires len == |before| && len % 16 != 0 && len + |input| <= out.Length
      requires Ciphered(aes, accelerated, start, before, out[..], ctr)
      modifies out
      ensures p <= |input|
      ensures full ==>
        len + p >= 16 && (len + p) % 16 == 0 && Waiting(aes, accelerated, start, before + input[..p], out[..], ctr)
      ensures !full ==> p == |input| && Ciphered(aes, accelerated, start, before + input, out[..], ctr)
      ensures forall i | len + p <= i < out.Length :: out[i] == old(out[i])
    {
      hide Ciphered, Waiting;
      var total := len;
      p := 0;
      assert before + input[..0] == before;
      while true
        invariant p <= |input| && total == len + p && total % 16 != 0
        invariant Ciphered(aes, accelerated, start, before + input[..p], out[..], ctr)
        invariant forall i | total <= i < out.Length :: out[i] == old(out[i])
        decreases |input| - p
      {
        if p == |input| {
          assert input[..p] == input;
          return p, false;
        }
        ghost var was := out[..];
        assert before + input[..p + 1] == before + input[..p] + [input[p]];
        if total % 16 == 15 {
          CipherWaits(aes, accelerated, start, before + input[..p], was, ctr, input[p]);
        } else {
          CipherPlain(aes, accelerated, start, before + input[..p], was, ctr, input[p]);
        }
        out[total] := input[p];
        assert out[..] == was[total := input[p]];
        total, p := total + 1, p + 1;
        if total % 16 == 0 {
          return p, true;
        }
      }
    }

    /** Mix sixteen bytes b with the key stream block for k into the output. */
    method WriteMixed(at: nat, b: seq<Byte>, k: Block)
      requires |b| == 16 && at + 16 <= out.Length
      modifies out
      ensures Mixed(old(out[..]), out[..], at, b, BytesOf(aes.encrypt(k)))
    {
      hide BytesOf, Mix;
      var ks := BytesOf(aes.encrypt(k));
      for i := 0 to 16
        invariant forall k | 0 <= k < i :: out[at + k] == Mix(b[k], ks[k])
        invariant forall j | 0 <= j < out.Length && !(at <= j < at + i) :: out[j] == old(out[j])
      {
        out[at + i] := Mix(b[i], ks[i]);
      }
    }

    /** The loop over whole blocks, with the counter in its own word. */
    method CryptBlocks(ghost before: seq<Byte>, input: seq<Byte>, start0: nat) returns (p: nat)
      requires !accelerated && start0 <= |input| && len == |before| && len + |input| <= out.Length
        && Aligned(len + start0)
      requires Ciphered(aes, accelerated, start, before + input[..start0], out[..], ctr)
      modifies `ctr, out
      ensures p <= |input| < p + 16 && Aligned(len + p)
      ensures Ciphered(aes, accelerated, start, before + input[..p], out[..], ctr)
      ensures forall i | len + p <= i < out.Length :: out[i] == old(out[i])
    {
      hide Ciphered, BytesOf, LowCounter, WithCounter, Next32, Aligned;
      p := start0;
      var c := LowCounter(ctr);
      CounterKept(ctr, c);
      while |input| - p >= 16
        invariant p <= |input| && Aligned(len + p)
        invariant Ciphered(aes, accelerated, start, before + input[..p], out[..], WithCounter(ctr, c))
        invariant forall i | len + p <= i < out.Length :: out[i] == old(out[i])
        modifies out
      {
        ghost var was := out[..];
        WriteMixed(len + p, input[p..p + 16], WithCounter(ctr, c));
        MixedInput(aes, accelerated, start, before, input, p, was, out[..], WithCounter(ctr, c));
        CounterKept(ctr, c);
        NextAligned(len + p);
        c := Next32(c);
        p := p + 16;
      }
      ctr := WithCounter(ctr, c);
    }

    /** The loop over groups of four blocks. */
    method CryptGroups(ghost before: seq<Byte>, input: seq<Byte>, start0: nat) returns (p: nat)
      requires accelerated && start0 <= |input| && len == |before| && len + |input| <= out.Length
        && Aligned(len + start0)
      requires Ciphered(aes, accelerated, start, before + input[..start0], out[..], ctr)
      modifies `ctr, out
      ensures start0 <= p <= |input| < p + 64 && Aligned(len + p)
      ensures Ciphered(aes, accelerated, start, before + input[..p], out[..], ctr)
      ensures forall i | len + p <= i < out.Length :: out[i] == old(out[i])
    {
      hide Ciphered, BytesOf, LowCounter, Next64, Aligned;
      p := start0;
      var c1 := ctr.lo;
      while |input| - p >= 64
        invariant start0 <= p <= |input| && Aligned(len + p)
        invariant Ciphered(aes, accelerated, start, before + input[..p], out[..], Block(ctr.hi, c1))
        invariant forall i | len + p <= i < out.Length :: out[i] == old(out[i])
        modifies out
      {
        FourSteps(c1);
        NextAligned(len + p); NextAligned(len + p + 16); NextAligned(len + p + 32); NextAligned(len + p + 48);
        CryptOne(before, input, p, c1);
        CryptOne(before, input, p + 16, c1 + 1);
        CryptOne(before, input, p + 32, c1 + 2);
        CryptOne(before, input, p + 48, c1 + 3);
        c1 := c1 + 4;
        p := p + 64;
      }
      ctr := Block(ctr.hi, c1);
    }

    /** One block with the 64-bit counter c1. */
    method CryptOne(ghost before: seq<Byte>, input: seq<Byte>, p: nat, c1: bv64)
      requires accelerated && p + 16 <= |input| && len == |before| && len + |input| <= out.Length && Aligned(len + p)
      requires Ciphered(aes, accelerated, start, before + input[..p], out[..], Block(ctr.hi, c1))
      modifies out
      ensures Ciphered(aes, accelerated, start, before + input[..p + 16], out[..], Block(ctr.hi, Next64(c1)))
      ensures forall i | len + p + 16 <= i < out.Length :: out[i] == old(out[i])
    {
      hide Ciphered, BytesOf, Following, Next64;
      assert Following(true, Block(ctr.hi, c1)) == Block(ctr.hi, Next64(c1)) by { WideStep(ctr.hi, c1); }
      ghost var was := out[..];
      WriteMixed(len + p, input[p..p + 16], Block(ctr.hi, c1));
      MixedInput(aes, accelerated, start, before, input, p, was, out[..], Block(ctr.hi, c1));
    }

    /** The loop over single blocks with the 64-bit counter. */
    method CryptSingles(ghost before: seq<Byte>, input: seq<Byte>, start0: nat) returns (p: nat)
      requires accelerated && start0 <= |input| && len == |before| && len + |input| <= out.Length
        && Aligned(len + start0)
      requires Ciphered(aes, accelerated, start, before + input[..start0], out[..], ctr)
      modifies `ctr, out
      ensures p <= |input| < p + 16 && Aligned(len + p)
      ensures Ciphered(aes, accelerated, start, before + input[..p], out[..], ctr)
      ensures forall i | len + p <= i < out.Length :: out[i] == old(out[i])
    {
      hide Ciphered, BytesOf, LowCounter, Next64, Aligned;
      p := start0;
      var c1 := ctr.lo;
      while |input| - p >= 16
        invariant p <= |input| && Aligned(len + p)
        invariant Ciphered(aes, accelerated, start, before + input[..p], out[..], Block(ctr.hi, c1))
        invariant forall i | len + p <= i < out.Length :: out[i] == old(out[i])
        modifies out
      {
        CryptOne(before, input, p, c1);
        NextAligned(len + p);
        c1 := Next64(c1);
        p := p + 16;
      }
      ctr := Block(ctr.hi, c1);
    }

    /** Keep what does not fill a block, as plain bytes. */
    method CopyTail(ghost before: seq<Byte>, input: seq<Byte>, p: nat)
      requires p <= |input| < p + 16 && len == |before| && len + |input| <= out.Length && (len + p) % 16 == 0
      requires Ciphered(aes, accelerated, start, before + input[..p], out[..], ctr)
      modifies out
      ensures Ciphered(aes, accelerated, start, before + input, out[..], ctr)
      ensures forall i | len + |input| <= i < out.Length :: out[i] == old(out[i])
    {
      hide Ciphered;
      ghost var was := out[..];
      for i := 0 to |input| - p
        invariant forall j | len + p <= j < len + p + i :: out[j] == input[j - len]
        invariant forall j | 0 <= j < out.Length && !(len + p <= j < len + p + i) :: out[j] == was[j]
      {
        out[len + p + i] := input[p + i];
      }
      assert before + input[..p] + input[p..] == before + input;
      assert out[len + p..len + |input|] == input[p..];
      CipherTail(aes, accelerated, start, before + input[..p], was, out[..], ctr, input[p..]);
    }

    /** Encipher the partial block: the output is counter mode of everything fed in. */
    method Finish()
      requires Valid()
      modifies out
      ensures out[..len] == CtrCrypt(aes, accelerated, start, data)
      ensures Unwrapped(LowCounter(start), len / 16) ==> out[..len] == CtrCrypt(aes, false, start, data)
      ensures forall i | len <= i < out.Length :: out[i] == old(out[i])
    {
      hide KeyByte, Mix, Counter, BytesOf, Unwrapped, LowCounter;
      var rem := len % 16;
      if rem != 0 {
        var tmp := BytesOf(aes.encrypt(ctr));
        var j := len - rem;
        for i := 0 to rem
          invariant forall k | j <= k < j + i :: out[k] == Mix(data[k], tmp[k - j])
          invariant forall k | 0 <= k < out.Length && !(j <= k < j + i) :: out[k] == old(out[k])
        {
          out[j + i] := Mix(out[j + i], tmp[i]);
        }
        forall k | j <= k < len
          ensures out[k] == Mix(data[k], KeyByte(aes, accelerated, start, k))
        {
          KeyBlock(aes, accelerated, start, j, k - j);
        }
      }
      assert out[..len] == CtrCrypt(aes, accelerated, start, data);
      hide CtrCrypt, Ciphered;
      if Unwrapped(LowCounter(start), len / 16) {
        SameOutput(aes, start, data);
      }
    }
  }

  lemma CounterKept(b: Block, c: bv32)
    ensures WithCounter(b, LowCounter(b)) == b && Following(false, WithCounter(b, c)) == WithCounter(b, Next32(c))
  {
    hide Low32, High, Join, Next32;
    CounterParts(b, c, b.lo);
  }

  /** A block of the input, mixed into the output behind what is there. */
  lemma MixedInput(c: BlockCipher, wide: bool, start: Block, before: seq<Byte>, input: seq<Byte>, p: nat,
                   was: seq<Byte>, out: seq<Byte>, ctr: Block)
    requires p + 16 <= |input| && Aligned(|before| + p)
    requires Ciphered(c, wide, start, before + input[..p], was, ctr)
    requires Mixed(was, out, |before| + p, input[p..p + 16], BytesOf(c.encrypt(ctr)))
    ensures Ciphered(c, wide, start, before + input[..p + 16], out, Following(wide, ctr))
  {
    assert before + input[..p + 16] == before + input[..p] + input[p..p + 16];
    assert (|before| + p) % 16 == 0;
    hide *;
    CipherBlock(c, wide, start, before + input[..p], was, out, ctr, input[p..p + 16]);
  }

  /** The waiting block, mixed in place. */
  lemma FinishInput(c: BlockCipher, wide: bool, start: Block, before: seq<Byte>, input: seq<Byte>, p: nat,
                    was: seq<Byte>, out: seq<Byte>, ctr: Block)
    requires p <= |input|
    requires Waiting(c, wide, start, before + input[..p], was, ctr)
    requires Mixed(was, out, |before| + p - 16, was[|before| + p - 16..|before| + p], BytesOf(c.encrypt(ctr)))
    ensures Ciphered(c, wide, start, before + input[..p], out, Following(wide, ctr))
  {
    hide Ciphered, Mixed, BytesOf, Following;
    CipherLast(c, wide, start, before + input[..p], was, out, ctr);
  }

  lemma WideStep(hi: bv64, lo: bv64)
    ensures Following(true, Block(hi, lo)) == Block(hi, Next64(lo))
  {}

  lemma FourSteps(c: bv64)
    ensures Next64(c) == c + 1 && Next64(c + 1) == c + 2 && Next64(c + 2) == c + 3 && Next64(c + 3) == c + 4
  {}
}
