/** GHASH (section 6.4 of NIST SP 800-38D) over whole blocks. */
module GhashSpec {
  import opened GcmField
  import opened MachineWords
  import opened BlockCiphers

  /** One step: add the block, multiply by the hash key. */
  function Absorb(h: Block, y: Block, b: Block): Block {
    Mul(Add(y, b), h)
  }

  /** GHASH of a whole number of blocks, continuing from y. */
  function Ghash(h: Block, y: Block, data: seq<Byte>): Block
    requires |data| % 16 == 0
    decreases |data|
  {
    if data == [] then y else Ghash(h, Absorb(h, y, BlockOf(data[..16])), data[16..])
  }

  lemma {:induction false} GhashConcat(h: Block, y: Block, a: seq<Byte>, b: seq<Byte>)
    requires |a| % 16 == 0 && |b| % 16 == 0
    ensures Ghash(h, y, a + b) == Ghash(h, Ghash(h, y, a), b)
    decreases |a|
  {
    hide Absorb, BlockOf;
    if a == [] {
      assert a + b == b;
    } else {
      assert (a + b)[..16] == a[..16] && (a + b)[16..] == a[16..] + b;
      GhashConcat(h, Absorb(h, y, BlockOf(a[..16])), a[16..], b);
    }
  }

  lemma GhashOne(h: Block, y: Block, b: seq<Byte>)
    requires |b| == 16
    ensures Ghash(h, y, b) == Absorb(h, y, BlockOf(b))
  {
    hide Absorb, BlockOf;
    assert b[..16] == b && b[16..] == [];
  }

  function Zeros(n: nat): (z: seq<Byte>)
    ensures |z| == n
  {
    seq(n, _ => 0)
  }

  /** How many zero bytes complete the last block. */
  function PadLength(n: nat): (k: nat)
    ensures k < 16 && (n + k) % 16 == 0
  {
    (16 - n % 16) % 16
  }

  function Padded(data: seq<Byte>): (p: seq<Byte>)
    ensures |p| % 16 == 0 && data <= p
  {
    data + Zeros(PadLength(|data|))
  }

  /** The data, then the fewest zero bytes that fill the last block. */
  lemma PaddedIs(data: seq<Byte>, i: nat)
    requires i < |Padded(data)|
    ensures |data| <= |Padded(data)| < |data| + 16 && |Padded(data)| % 16 == 0
    ensures Padded(data)[i] == if i < |data| then data[i] else 0
  {}

  /** n as a 64-bit word. */
  function ToWord(n: nat): bv64 {
    if n == 0 then 0 else Xor(Twice(ToWord(n / 2)), if n % 2 == 1 then 1 else 0)
  }

  lemma ToWordDouble(n: nat)
    ensures ToWord(2 * n) == Twice(ToWord(n))
  {
    hide Xor;
    if n > 0 {
      assert (2 * n) / 2 == n && (2 * n) % 2 == 0;
      XorZero(Twice(ToWord(n)));
    }
  }

  /** GHASH of the zero-padded data and a block holding a byte count in bits, masked with the encryption of the
      IV with counter 1. */
  function GmacTagCounting(c: BlockCipher, iv: Block, data: seq<Byte>, count: nat): Block {
    Add(c.encrypt(iv), Absorb(c.HashKey(), Ghash(c.HashKey(), ZERO, Padded(data)), Block(ToWord(8 * count), 0)))
  }

  /** GMAC in one shot: the length block counts the data. */
  function GmacTag(c: BlockCipher, iv: Block, data: seq<Byte>): Block {
    GmacTagCounting(c, iv, data, |data|)
  }

  // ---- feeding GHASH a stream ----

  /** The state of a stream after data: y is GHASH of its whole blocks and tail the bytes that remain. */
  ghost predicate Streamed(h: Block, data: seq<Byte>, y: Block, tail: seq<Byte>) {
    && |tail| < 16 && |tail| <= |data| && (|data| - |tail|) % 16 == 0
    && tail == data[|data| - |tail|..]
    && y == Ghash(h, ZERO, data[..|data| - |tail|])
  }

  lemma StreamPush(h: Block, data: seq<Byte>, y: Block, tail: seq<Byte>, b: Byte)
    requires Streamed(h, data, y, tail)
    ensures |tail| < 15 ==> Streamed(h, data + [b], y, tail + [b])
    ensures |tail| == 15 ==> Streamed(h, data + [b], Absorb(h, y, BlockOf(tail + [b])), [])
  {
    hide Absorb, BlockOf;
    var whole := data[..|data| - |tail|];
    if |tail| < 15 {
      assert (data + [b])[..|data| - |tail|] == whole;
    } else {
      assert (data + [b])[..|data| + 1] == data + [b] == whole + (tail + [b]);
      GhashConcat(h, ZERO, whole, tail + [b]);
      GhashOne(h, y, tail + [b]);
    }
  }

  lemma StreamBlock(h: Block, data: seq<Byte>, y: Block, b: seq<Byte>)
    requires Streamed(h, data, y, []) && |b| == 16
    ensures Streamed(h, data + b, Absorb(h, y, BlockOf(b)), [])
  {
    hide Absorb, BlockOf;
    assert data[..|data|] == data && (data + b)[..|data + b|] == data + b;
    GhashConcat(h, ZERO, data, b);
    GhashOne(h, y, b);
  }

  lemma StreamTail(h: Block, data: seq<Byte>, y: Block, t: seq<Byte>)
    requires Streamed(h, data, y, []) && |t| < 16
    ensures Streamed(h, data + t, y, t)
  {
    hide Absorb, BlockOf;
    assert data[..|data|] == data && (data + t)[..|data|] == data;
  }

  // ---- the same, for the byte at position p of an input that continues a stream ----

  lemma PushInput(h: Block, before: seq<Byte>, input: seq<Byte>, p: nat, y: Block, tail: seq<Byte>)
    requires p < |input| && Streamed(h, before + input[..p], y, tail)
    ensures |tail| < 15 ==> Streamed(h, before + input[..p + 1], y, tail + [input[p]])
    ensures |tail| == 15 ==> Streamed(h, before + input[..p + 1], Absorb(h, y, BlockOf(tail + [input[p]])), [])
  {
    assert before + input[..p + 1] == before + input[..p] + [input[p]];
    hide *;
    StreamPush(h, before + input[..p], y, tail, input[p]);
  }

  lemma BlockInput(h: Block, before: seq<Byte>, input: seq<Byte>, p: nat, y: Block)
    requires p + 16 <= |input| && Streamed(h, before + input[..p], y, [])
    ensures Streamed(h, before + input[..p + 16], Absorb(h, y, BlockOf(input[p..p + 16])), [])
  {
    assert before + input[..p + 16] == before + input[..p] + input[p..p + 16];
    hide *;
    StreamBlock(h, before + input[..p], y, input[p..p + 16]);
  }

  lemma TailInput(h: Block, before: seq<Byte>, input: seq<Byte>, p: nat, y: Block)
    requires p <= |input| < p + 16 && Streamed(h, before + input[..p], y, [])
    ensures Streamed(h, before + input, y, input[p..])
  {
    assert before + input == before + input[..p] + input[p..];
    hide *;
    StreamTail(h, before + input[..p], y, input[p..]);
  }
}
