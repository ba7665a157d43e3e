/** Bytes and the 64-bit words a little-endian machine reads from them. */
module MachineWords {
  import opened GcmField

  type Byte = bv8

  /** The number of values of an unsigned int. */
  const UINT := 0x1_0000_0000

  function PowerOfTwo(j: nat): (r: nat)
    ensures r > 0
  {
    if j == 0 then 1 else 2 * PowerOfTwo(j - 1)
  }

  /** Utils::hton and Utils::ntoh on a little-endian machine. */
  function Swap(x: bv64): bv64 {
    (x >> 56) ^ ((x >> 40) & 0xFF00) ^ ((x >> 24) & 0xFF_0000) ^ ((x >> 8) & 0xFF00_0000)
    ^ ((x << 8) & 0xFF_0000_0000) ^ ((x << 24) & 0xFF00_0000_0000) ^ ((x << 40) & 0xFF_0000_0000_0000) ^ (x << 56)
  }

  lemma SwapInvolutive(x: bv64)
    ensures Swap(Swap(x)) == x
  {}

  lemma SwapXor(a: bv64, b: bv64)
    ensures Swap(Xor(a, b)) == Xor(Swap(a), Swap(b))
  {}

  lemma SwapZero()
    ensures Swap(0) == 0
  {}

  /** Eight bytes as loadMachineEndian reads them. */
  function LoadLittle(b: seq<Byte>): bv64
    requires |b| == 8
  {
    (b[0] as bv64) ^ ((b[1] as bv64) << 8) ^ ((b[2] as bv64) << 16) ^ ((b[3] as bv64) << 24)
    ^ ((b[4] as bv64) << 32) ^ ((b[5] as bv64) << 40) ^ ((b[6] as bv64) << 48) ^ ((b[7] as bv64) << 56)
  }

  /** Eight bytes in network order. */
  function LoadBig(b: seq<Byte>): bv64
    requires |b| == 8
  {
    ((b[0] as bv64) << 56) ^ ((b[1] as bv64) << 48) ^ ((b[2] as bv64) << 40) ^ ((b[3] as bv64) << 32)
    ^ ((b[4] as bv64) << 24) ^ ((b[5] as bv64) << 16) ^ ((b[6] as bv64) << 8) ^ (b[7] as bv64)
  }

  lemma SwapLoads(b: seq<Byte>)
    requires |b| == 8
    ensures Swap(LoadLittle(b)) == LoadBig(b)
  {}

  /** The eight bytes storeMachineEndian writes. */
  function StoreLittle(x: bv64): (b: seq<Byte>)
    ensures |b| == 8
  {
    [(x & 0xFF) as bv8, ((x >> 8) & 0xFF) as bv8, ((x >> 16) & 0xFF) as bv8, ((x >> 24) & 0xFF) as bv8,
     ((x >> 32) & 0xFF) as bv8, ((x >> 40) & 0xFF) as bv8, ((x >> 48) & 0xFF) as bv8, ((x >> 56) & 0xFF) as bv8]
  }

  lemma LoadStore(x: bv64)
    ensures LoadLittle(StoreLittle(x)) == x
  {}

  lemma StoreLoad(b: seq<Byte>)
    requires |b| == 8
    ensures StoreLittle(LoadLittle(b)) == b
  {}
}
