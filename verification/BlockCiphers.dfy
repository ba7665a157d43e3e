/** A keyed block cipher as the modes of operation see it, and blocks as byte strings. */
module BlockCiphers {
  import opened GcmField
  import opened MachineWords

  /** A keyed permutation of blocks and its inverse. */
  datatype BlockCipher = BlockCipher(encrypt: Block -> Block, decrypt: Block -> Block) {
    ghost predicate Valid() {
      && (forall b {:trigger encrypt(b)} :: decrypt(encrypt(b)) == b)
      && (forall b {:trigger decrypt(b)} :: encrypt(decrypt(b)) == b)
    }

    /** The GHASH key: the encryption of the zero block. */
    function HashKey(): Block {
      encrypt(ZERO)
    }
  }

  /** Sixteen bytes in network order. */
  function BlockOf(b: seq<Byte>): Block
    requires |b| == 16
  {
    Block(LoadBig(b[..8]), LoadBig(b[8..]))
  }

  function StoreBig(x: bv64): (b: seq<Byte>)
    ensures |b| == 8
  {
    StoreLittle(Swap(x))
  }

  function Low8(x: bv64): Byte { (x & 0xFF) as bv8 }

  function DownByte(x: bv64): bv64 { x >> 8 }

  /** Byte j of a word, counting from the least significant one. */
  function Octet(x: bv64, j: nat): Byte
    decreases j
  {
    if j == 0 then Low8(x) else Octet(DownByte(x), j - 1)
  }

  lemma LowerOctets(x: bv64)
    ensures Low8(x) == (x & 0xFF) as bv8 && Octet(x, 1) == ((x >> 8) & 0xFF) as bv8
    ensures Octet(x, 2) == ((x >> 16) & 0xFF) as bv8 && Octet(x, 3) == ((x >> 24) & 0xFF) as bv8
  {}

  lemma FourDown(x: bv64)
    ensures DownByte(DownByte(DownByte(DownByte(x)))) == x >> 32
  {}

  lemma OctetFour(x: bv64, j: nat)
    ensures Octet(x, j + 4) == Octet(DownByte(DownByte(DownByte(DownByte(x)))), j)
  {
    hide DownByte, Low8;
    var y := DownByte(DownByte(x));
    assert Octet(x, j + 4) == Octet(DownByte(x), j + 3) == Octet(y, j + 2);
    assert Octet(y, j + 2) == Octet(DownByte(y), j + 1);
  }

  lemma BigBytes(x: bv64)
    ensures StoreBig(x) == [((x >> 56) & 0xFF) as bv8, ((x >> 48) & 0xFF) as bv8, ((x >> 40) & 0xFF) as bv8,
      ((x >> 32) & 0xFF) as bv8, ((x >> 24) & 0xFF) as bv8, ((x >> 16) & 0xFF) as bv8, ((x >> 8) & 0xFF) as bv8,
      (x & 0xFF) as bv8]
  {}

  /** Network order puts the most significant byte first. */
  lemma StoreBigOctets(x: bv64)
    ensures StoreBig(x) == [Octet(x, 7), Octet(x, 6), Octet(x, 5), Octet(x, 4),
                            Octet(x, 3), Octet(x, 2), Octet(x, 1), Octet(x, 0)]
  {
    hide StoreBig, Low8, DownByte;
    BigBytes(x);
    FourDown(x);
    LowerOctets(x); LowerOctets(x >> 32);
    OctetFour(x, 0); OctetFour(x, 1); OctetFour(x, 2); OctetFour(x, 3);
  }

  lemma LowXor(a: bv64, b: bv64)
    ensures Low8(Xor(a, b)) == Low8(a) ^ Low8(b) && DownByte(Xor(a, b)) == Xor(DownByte(a), DownByte(b))
  {}

  lemma {:induction false} OctetXor(a: bv64, b: bv64, j: nat)
    ensures Octet(Xor(a, b), j) == Octet(a, j) ^ Octet(b, j)
    decreases j
  {
    hide Low8, DownByte, Xor;
    LowXor(a, b);
    if j > 0 {
      OctetXor(DownByte(a), DownByte(b), j - 1);
    }
  }

  function BytesOf(v: Block): (b: seq<Byte>)
    ensures |b| == 16
  {
    StoreBig(v.hi) + StoreBig(v.lo)
  }

  lemma WordBytes(x: bv64, b: seq<Byte>)
    requires |b| == 8
    ensures LoadBig(StoreBig(x)) == x && StoreBig(LoadBig(b)) == b
  {
    hide *;
    LoadStore(Swap(x)); SwapLoads(StoreLittle(Swap(x))); SwapInvolutive(x);
    StoreLoad(b); SwapLoads(b); SwapInvolutive(LoadLittle(b));
    StoreBigIs(x); StoreBigIs(LoadBig(b));
  }

  lemma StoreBigIs(x: bv64)
    ensures StoreBig(x) == StoreLittle(Swap(x))
  {}

  lemma BlockBytes(b: Block)
    ensures BlockOf(BytesOf(b)) == b
  {
    hide StoreBig, LoadBig;
    WordBytes(b.hi, StoreBig(b.hi)); WordBytes(b.lo, StoreBig(b.lo));
  }
}
