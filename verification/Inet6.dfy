/** IPv6 prefixes: sixteen address bytes, netmasks made of two 64-bit words, and comparisons byte by byte. */
module Inet6 {
  import opened MachineWords
  import opened BlockCiphers

  type Address = a: seq<Byte> | |a| == 16 witness seq(16, _ => 0)

  // ---- bytes and their bits ----

  function And8(a: Byte, b: Byte): Byte { a & b }

  /** 0x80 moved down j times. */
  function BitMask(j: nat): Byte {
    if j == 0 then 0x80 else if j == 1 then 0x40 else if j == 2 then 0x20 else if j == 3 then 0x10
    else if j == 4 then 8 else if j == 5 then 4 else if j == 6 then 2 else if j == 7 then 1 else 0
  }

  /** The m leading bits of a byte; all of them from 8 up, none from 0 down. */
  function ByteMask(m: int): Byte {
    if m <= 0 then 0 else if m == 1 then 0x80 else if m == 2 then 0xC0 else if m == 3 then 0xE0 else if m == 4 then 0xF0
    else if m == 5 then 0xF8 else if m == 6 then 0xFC else if m == 7 then 0xFE else 0xFF
  }

  /** 0xff moved down r times: the bits of a byte after the first r. */
  function HostMask(r: nat): Byte {
    if r == 0 then 0xFF else if r == 1 then 0x7F else if r == 2 then 0x3F else if r == 3 then 0x1F
    else if r == 4 then 0x0F else if r == 5 then 7 else if r == 6 then 3 else if r == 7 then 1 else 0
  }

  function Bit(x: Byte, j: nat): bool { And8(x, BitMask(j)) != 0 }

  function Or8(a: Byte, b: Byte): Byte { a | b }

  lemma OneMask(x: Byte, m: Byte, bit: Byte)
    ensures And8(x, Or8(m, bit)) == Or8(And8(x, m), And8(x, bit))
    ensures And8(And8(x, Or8(m, bit)), m) == And8(x, m) && And8(And8(x, Or8(m, bit)), bit) == And8(x, bit)
  {}

  lemma JoinedMasks(x: Byte, y: Byte, m: Byte, bit: Byte)
    ensures And8(x, Or8(m, bit)) == And8(y, Or8(m, bit)) <==> And8(x, m) == And8(y, m) && And8(x, bit) == And8(y, bit)
  {
    hide And8, Or8;
    OneMask(x, m, bit); OneMask(y, m, bit);
  }

  lemma OneBit(x: Byte, j: nat)
    requires j < 8
    ensures And8(x, BitMask(j)) == 0 || And8(x, BitMask(j)) == BitMask(j)
  {}

  lemma NextMask(m: nat)
    requires m < 8
    ensures ByteMask(m + 1) == Or8(ByteMask(m), BitMask(m)) && BitMask(m) != 0
  {}

  /** One more bit under the mask. */
  lemma MaskStep(x: Byte, y: Byte, m: nat)
    requires m < 8
    ensures And8(x, ByteMask(m + 1)) == And8(y, ByteMask(m + 1)) <==>
      And8(x, ByteMask(m)) == And8(y, ByteMask(m)) && Bit(x, m) == Bit(y, m)
  {
    hide And8, Or8, ByteMask, BitMask;
    NextMask(m);
    JoinedMasks(x, y, ByteMask(m), BitMask(m));
    OneBit(x, m); OneBit(y, m);
  }

  lemma MaskEnds(x: Byte, y: Byte, m: int)
    ensures m <= 0 ==> And8(x, ByteMask(m)) == And8(y, ByteMask(m))
    ensures m >= 8 ==> ByteMask(m) == ByteMask(8)
  {}

  /** Masks select bits. */
  lemma {:induction false} ByteMaskBits(x: Byte, y: Byte, m: int)
    ensures And8(x, ByteMask(m)) == And8(y, ByteMask(m)) <==> forall j | 0 <= j < 8 && j < m :: Bit(x, j) == Bit(y, j)
    decreases m
  {
    hide And8, ByteMask, Bit;
    MaskEnds(x, y, m);
    if m > 8 {
      ByteMaskBits(x, y, 8);
    } else if m > 0 {
      ByteMaskBits(x, y, m - 1);
      MaskStep(x, y, m - 1);
    }
  }

  lemma HostBits(x: Byte, m: int)
    ensures And8(x, ByteMask(m)) == x <==> forall j | 0 <= j < 8 && j >= m :: !Bit(x, j)
  {
    AllHostBits(x, m);
  }

  lemma AllHostBits(x: Byte, m: int)
    ensures And8(x, ByteMask(m)) == x <==>
      && (m <= 0 ==> !Bit(x, 0)) && (m <= 1 ==> !Bit(x, 1)) && (m <= 2 ==> !Bit(x, 2)) && (m <= 3 ==> !Bit(x, 3))
      && (m <= 4 ==> !Bit(x, 4)) && (m <= 5 ==> !Bit(x, 5)) && (m <= 6 ==> !Bit(x, 6)) && (m <= 7 ==> !Bit(x, 7))
  {}

  lemma HostMaskIs(x: Byte, r: nat)
    requires r < 8
    ensures And8(x, HostMask(r)) == 0 <==> And8(x, ByteMask(r)) == x
  {}

  lemma AndAnd8(x: Byte, m: Byte)
    ensures And8(And8(x, m), m) == And8(x, m)
  {}

  // ---- prefixes of addresses ----

  /** The first n bits agree; bit j of byte i is bit 8 i + j of the address. */
  ghost predicate SamePrefix(a: Address, b: Address, n: nat) {
    forall i, j | 0 <= i < 16 && 0 <= j < 8 && 8 * i + j < n :: Bit(a[i], j) == Bit(b[i], j)
  }

  /** All bits from n on are zero. */
  ghost predicate HostZero(a: Address, n: nat) {
    forall i, j | 0 <= i < 16 && 0 <= j < 8 && 8 * i + j >= n :: !Bit(a[i], j)
  }

  /** Both, byte by byte under the masks. */
  lemma PrefixByBytes(a: Address, b: Address, n: nat)
    ensures SamePrefix(a, b, n) <==> forall i | 0 <= i < 16 ::
      And8(a[i], ByteMask(n - 8 * i)) == And8(b[i], ByteMask(n - 8 * i))
  {
    hide Bit, ByteMask, And8;
    forall i | 0 <= i < 16
      ensures And8(a[i], ByteMask(n - 8 * i)) == And8(b[i], ByteMask(n - 8 * i)) <==>
        forall j | 0 <= j < 8 && 8 * i + j < n :: Bit(a[i], j) == Bit(b[i], j)
    {
      ByteMaskBits(a[i], b[i], n - 8 * i);
    }
  }

  lemma HostByBytes(a: Address, n: nat)
    ensures HostZero(a, n) <==> forall i | 0 <= i < 16 :: And8(a[i], ByteMask(n - 8 * i)) == a[i]
  {
    hide Bit, ByteMask, And8;
    forall i | 0 <= i < 16
      ensures And8(a[i], ByteMask(n - 8 * i)) == a[i] <==> forall j | 0 <= j < 8 && 8 * i + j >= n :: !Bit(a[i], j)
    {
      HostBits(a[i], n - 8 * i);
    }
  }

  // ---- netmask, network, containsAddress, isNetwork ----

  /** A netmask length as a machine number. */
  function Machine(n: nat): bv8
    requires n <= 128
  {
    if n == 0 then 0 else Machine(n - 1) + 1
  }

  lemma {:induction false} MachineIs(n: nat)
    requires n <= 128
    ensures Machine(n) as int == n
  {
    if n > 0 {
      MachineIs(n - 1);
    }
  }

  lemma EightLess(n: nat)
    requires n <= 64
    ensures Machine(n) <= 64 && (n >= 8 <==> Machine(n) >= 8) && (n >= 8 ==> Machine(n) - 8 == Machine(n - 8))
  {
    hide Machine;
    MachineIs(n);
    if n >= 8 {
      MachineIs(n - 8);
    }
  }

  /** All ones, moved up so that k of them are left. */
  function OnesUp(k: bv8): bv64
    requires k <= 64
  {
    0xFFFF_FFFF_FFFF_FFFF << (64 - k)
  }

  /** The two words of a netmask; only network shifts by 64 and more when there are no netmask bits. */
  function HighMask(bits: nat): bv64
    requires bits <= 128
  {
    if bits >= 64 then 0xFFFF_FFFF_FFFF_FFFF else EightLess(bits); OnesUp(Machine(bits))
  }

  function LowMask(bits: nat): bv64
    requires bits <= 128
  {
    if bits <= 64 then 0 else EightLess(bits - 64); OnesUp(Machine(bits - 64))
  }

  function Netmask(bits: nat): Address
    requires bits <= 128
  {
    if bits > 0 then StoreBig(HighMask(bits)) + StoreBig(LowMask(bits)) else StoreBig(0) + StoreBig(0)
  }

  function And64(a: bv64, b: bv64): bv64 { a & b }

  function Network(a: Address, bits: nat): Address
    requires 0 < bits <= 128
  {
    StoreBig(And64(LoadBig(a[..8]), HighMask(bits))) + StoreBig(And64(LoadBig(a[8..]), LowMask(bits)))
  }

  /** containsAddress: every byte of the address under the mask is the byte of the network. */
  method ContainsAddress(net: Address, bits: nat, a: Address) returns (r: bool)
    requires bits <= 128
    ensures r <==> SamePrefix(a, net, bits) && HostZero(net, bits)
  {
    hide And8, ByteMask, Bit, Netmask;
    var m := Netmask(bits);
    NetmaskBytes(bits);
    PrefixByBytes(a, net, bits); HostByBytes(net, bits);
    for i := 0 to 16
      invariant forall k | 0 <= k < i :: And8(a[k], m[k]) == net[k]
    {
      if And8(a[i], m[i]) != net[i] {
        UnderMask(a[i], net[i], m[i]);
        return false;
      }
    }
    forall i | 0 <= i < 16
      ensures And8(net[i], m[i]) == net[i]
    {
      AndAnd8(a[i], m[i]);
    }
    return true;
  }

  lemma UnderMask(x: Byte, y: Byte, m: Byte)
    ensures And8(x, m) == y <==> And8(x, m) == And8(y, m) && And8(y, m) == y
  {}

  method IsNetwork(a: Address, bits: nat) returns (r: bool)
    ensures r <==> 0 < bits < 128 && HostZero(a, bits)
  {
    hide And8, ByteMask, HostMask, Bit;
    if bits == 0 {
      return false;
    }
    if bits >= 128 {
      return false;
    }
    HostByBytes(a, bits);
    var p := bits / 8;
    HostMaskIs(a[p], bits % 8);
    forall i | 0 <= i < 16
      ensures i < p ==> And8(a[i], ByteMask(bits - 8 * i)) == a[i]
      ensures i > p ==> (And8(a[i], ByteMask(bits - 8 * i)) == a[i] <==> a[i] == 0)
    {
      FarMask(a[i], bits - 8 * i);
    }
    if And8(a[p], HostMask(bits % 8)) != 0 {
      assert And8(a[p], ByteMask(bits - 8 * p)) != a[p];
      return false;
    }
    p := p + 1;
    while p < 16
      invariant bits / 8 < p <= 16 && forall i | bits / 8 < i < p :: a[i] == 0
    {
      if a[p] != 0 {
        assert And8(a[p], ByteMask(bits - 8 * p)) != a[p];
        return false;
      }
      p := p + 1;
    }
    return true;
  }

  lemma FarMask(x: Byte, m: int)
    ensures m >= 8 ==> And8(x, ByteMask(m)) == x
    ensures m <= 0 ==> (And8(x, ByteMask(m)) == x <==> x == 0)
  {}

  // ---- matchingPrefixBits ----

  lemma SameByte(x: Byte, y: Byte)
    ensures x == y <==> And8(x, ByteMask(8)) == And8(y, ByteMask(8))
  {}

  /** The lengths of common prefixes are the numbers up to the first difference. */
  lemma LongestPrefix(a: Address, b: Address, i: nat, j: nat, n: nat)
    requires i < 16 && j < 8 && SamePrefix(a, b, 8 * i + j) && Bit(a[i], j) != Bit(b[i], j)
    ensures SamePrefix(a, b, n) <==> n <= 8 * i + j
  {
    hide Bit;
  }

  /** The number of leading bits a differing byte shares. */
  method MatchingByteBits(x: Byte, y: Byte) returns (c: nat)
    requires x != y
    ensures c < 8 && Bit(x, c) != Bit(y, c) && forall j | 0 <= j < c :: Bit(x, j) == Bit(y, j)
  {
    hide And8, BitMask, ByteMask;
    var bit: Byte := 0x80;
    c := 0;
    FirstBit();
    while bit != 0
      invariant c <= 8 && bit == BitMask(c) && forall j | 0 <= j < c :: Bit(x, j) == Bit(y, j)
      decreases 8 - c
    {
      NextBit(c);
      OneBit(x, c); OneBit(y, c);
      if And8(x, bit) != And8(y, bit) {
        return;
      }
      c := c + 1;
      bit := bit >> 1;
    }
    NoBit(c);
    ByteMaskBits(x, y, 8);
    SameByte(x, y);
  }

  lemma FirstBit()
    ensures BitMask(0) == 0x80
  {}

  lemma NextBit(c: nat)
    ensures BitMask(c) >> 1 == BitMask(c + 1)
    ensures BitMask(c) != 0 ==> c < 8
  {}

  lemma NoBit(c: nat)
    ensures BitMask(c) == 0 <==> c >= 8
  {}

  method MatchingPrefixBits(a: Address, b: Address) returns (c: nat)
    ensures c <= 128 && forall n: nat | n <= 128 :: SamePrefix(a, b, n) <==> n <= c
  {
    hide Bit, ByteMask, And8;
    c := 0;
    for i := 0 to 16
      invariant c == 8 * i && a[..i] == b[..i]
    {
      if a[i] == b[i] {
        c := c + 8;
      } else {
        var j := MatchingByteBits(a[i], b[i]);
        c := c + j;
        forall n: nat | n <= 128
          ensures SamePrefix(a, b, n) <==> n <= c
        {
          assert forall k | 0 <= k < i :: a[..i][k] == b[..i][k];
          LongestPrefix(a, b, i, j, n);
        }
        return;
      }
    }
    assert a == a[..16] == b[..16] == b;
  }

  /** containsAddress agrees with matchingPrefixBits where the prefix is a network, and with host bits
      set contains nothing. */
  method ContainsOrMatches(net: Address, bits: nat, a: Address) returns (network: bool, contains: bool, c: nat)
    requires bits <= 128
    ensures network ==> contains == (c >= bits)
    ensures contains <==> c >= bits && HostZero(net, bits)
    ensures network <==> 0 < bits < 128 && HostZero(net, bits)
    ensures c <= 128 && forall n: nat | n <= 128 :: SamePrefix(net, a, n) <==> n <= c
  {
    hide Bit;
    network := IsNetwork(net, bits);
    contains := ContainsAddress(net, bits, a);
    c := MatchingPrefixBits(net, a);
    assert SamePrefix(a, net, bits) <==> SamePrefix(net, a, bits);
  }

  // ---- network ----

  function Part(x: bv64, s: bv8): Byte
    requires s < 64
  {
    ((x >> s) & 0xFF) as bv8
  }

  lemma StoreBigParts(x: bv64)
    ensures var b := StoreBig(x);
      && b[0] == Part(x, 56) && b[1] == Part(x, 48) && b[2] == Part(x, 40) && b[3] == Part(x, 32)
      && b[4] == Part(x, 24) && b[5] == Part(x, 16) && b[6] == Part(x, 8) && b[7] == Part(x, 0)
  {}

  lemma PartsAnd(u: bv64, v: bv64)
    ensures var w := And64(u, v);
      && Part(w, 56) == And8(Part(u, 56), Part(v, 56)) && Part(w, 48) == And8(Part(u, 48), Part(v, 48))
      && Part(w, 40) == And8(Part(u, 40), Part(v, 40)) && Part(w, 32) == And8(Part(u, 32), Part(v, 32))
      && Part(w, 24) == And8(Part(u, 24), Part(v, 24)) && Part(w, 16) == And8(Part(u, 16), Part(v, 16))
      && Part(w, 8) == And8(Part(u, 8), Part(v, 8)) && Part(w, 0) == And8(Part(u, 0), Part(v, 0))
  {}

  lemma AndBytes(u: bv64, v: bv64, j: nat)
    requires j < 8
    ensures StoreBig(And64(u, v))[j] == And8(StoreBig(u)[j], StoreBig(v)[j])
  {
    hide *;
    StoreBigParts(u); StoreBigParts(v); StoreBigParts(And64(u, v));
    PartsAnd(u, v);
  }

  /** The network keeps of every byte what the netmask keeps. */
  lemma NetworkBytes(a: Address, bits: nat, i: nat)
    requires 0 < bits <= 128 && i < 16
    ensures Network(a, bits)[i] == And8(a[i], ByteMask(bits - 8 * i))
  {
    hide And8, And64, ByteMask, StoreBig, LoadBig, HighMask, LowMask;
    NetmaskBytes(bits);
    WordBytes(0, a[..8]); WordBytes(0, a[8..]);
    if i < 8 {
      AndBytes(LoadBig(a[..8]), HighMask(bits), i);
      assert Netmask(bits)[i] == StoreBig(HighMask(bits))[i];
    } else {
      AndBytes(LoadBig(a[8..]), LowMask(bits), i - 8);
      assert Netmask(bits)[i] == StoreBig(LowMask(bits))[i - 8];
    }
  }

  /** For 1 to 127 bits the network of an address has no host bits, is its own network, and shares its first bits. */
  lemma NetworkLaws(a: Address, bits: nat)
    requires 0 < bits <= 128
    ensures var net := Network(a, bits);
      HostZero(net, bits) && SamePrefix(net, a, bits) && Network(net, bits) == net
  {
    hide And8, ByteMask, Network, Bit;
    var net := Network(a, bits);
    forall i | 0 <= i < 16
      ensures net[i] == And8(a[i], ByteMask(bits - 8 * i))
        && And8(net[i], ByteMask(bits - 8 * i)) == net[i] == Network(net, bits)[i]
    {
      NetworkBytes(a, bits, i); NetworkBytes(net, bits, i);
      AndAnd8(a[i], ByteMask(bits - 8 * i));
    }
    PrefixByBytes(net, a, bits); HostByBytes(net, bits);
  }

  /** So isNetwork accepts the network, and the network contains the address, and only addresses that share its bits. */
  method NetworkContains(a: Address, bits: nat, b: Address) returns (network: bool, contains: bool, other: bool)
    requires 0 < bits < 128
    ensures network && contains && (other <==> SamePrefix(a, b, bits))
  {
    hide Bit, Network;
    NetworkLaws(a, bits);
    var net := Network(a, bits);
    network := IsNetwork(net, bits);
    contains := ContainsAddress(net, bits, a);
    other := ContainsAddress(net, bits, b);
    assert SamePrefix(b, net, bits) <==> SamePrefix(a, b, bits);
  }

  // ---- the bytes of a netmask ----

  lemma NetmaskBytes(bits: nat)
    requires bits <= 128
    ensures forall i | 0 <= i < 16 :: Netmask(bits)[i] == ByteMask(bits - 8 * i)
  {
    hide ByteMask, HighMask, LowMask, StoreBig;
    HighMaskBytes(bits); LowMaskBytes(bits); NoMask();
    forall i: nat | i < 16
      ensures Netmask(bits)[i] == ByteMask(bits - 8 * i)
    {
      if bits == 0 {
        FarByteMask(bits - 8 * i);
      } else if i >= 8 {
        assert Netmask(bits)[i] == StoreBig(LowMask(bits))[i - 8];
      }
    }
  }

  lemma NoMask()
    ensures Netmask(0) == seq(16, _ => 0)
  {
    hide StoreBig;
    ZeroBytes();
  }

  lemma HighMaskBytes(bits: nat)
    requires bits <= 128
    ensures forall j | 0 <= j < 8 :: StoreBig(HighMask(bits))[j] == ByteMask(bits - 8 * j)
  {
    hide ByteMask, OnesUp, Machine, StoreBig;
    if bits < 64 {
      WordMaskBytes(bits);
    } else {
      OneBytes();
      forall j | 0 <= j < 8
        ensures ByteMask(bits - 8 * j) == 0xFF
      {
        FarByteMask(bits - 8 * j);
      }
    }
  }

  lemma LowMaskBytes(bits: nat)
    requires bits <= 128
    ensures forall j | 0 <= j < 8 :: StoreBig(LowMask(bits))[j] == ByteMask(bits - 64 - 8 * j)
  {
    hide ByteMask, OnesUp, Machine, StoreBig;
    if bits > 64 {
      WordMaskBytes(bits - 64);
    } else {
      ZeroBytes();
      forall j | 0 <= j < 8
        ensures ByteMask(bits - 64 - 8 * j) == 0
      {
        FarByteMask(bits - 64 - 8 * j);
      }
    }
  }

  lemma FarByteMask(m: int)
    ensures m >= 8 ==> ByteMask(m) == 0xFF
    ensures m <= 0 ==> ByteMask(m) == 0
  {}

  lemma ZeroBytes()
    ensures StoreBig(0) == [0, 0, 0, 0, 0, 0, 0, 0]
  {}

  lemma OneBytes()
    ensures StoreBig(0xFFFF_FFFF_FFFF_FFFF) == [0xFF, 0xFF, 0xFF, 0xFF, 0xFF, 0xFF, 0xFF, 0xFF]
  {}

  /** How many of the eight bits from the s-th on are among the k leading ones. */
  function Leading(k: bv8, s: bv8): Byte
    requires k <= 64 && s < 64
  {
    if k <= s then 0 else if k - s >= 8 then 0xFF else 0xFF << (8 - (k - s))
  }

  lemma OnesUpBytes(k: bv8)
    requires k <= 64
    ensures var b := StoreBig(OnesUp(k));
      && b[0] == Leading(k, 0) && b[1] == Leading(k, 8) && b[2] == Leading(k, 16) && b[3] == Leading(k, 24)
      && b[4] == Leading(k, 32) && b[5] == Leading(k, 40) && b[6] == Leading(k, 48) && b[7] == Leading(k, 56)
  {}

  lemma LeadingStep(k: bv8, s: bv8)
    requires k <= 64 && s < 56
    ensures k >= 8 ==> Leading(k, s + 8) == Leading(k - 8, s)
    ensures k < 8 ==> Leading(k, s + 8) == 0
  {}

  lemma LeadingFirst(n: nat)
    requires n <= 64
    ensures Machine(n) <= 64 && Leading(Machine(n), 0) == ByteMask(n)
  {
    EightLess(n);
    if n < 8 {
      SmallNumbers();
    }
  }

  lemma SmallNumbers()
    ensures Machine(0) == 0 && Machine(1) == 1 && Machine(2) == 2 && Machine(3) == 3 && Machine(4) == 4
    ensures Machine(5) == 5 && Machine(6) == 6 && Machine(7) == 7
  {}

  /** Byte j of the ones. */
  function Eighth(j: nat): bv8
    requires j < 8
  {
    if j == 0 then 0 else if j == 1 then 8 else if j == 2 then 16 else if j == 3 then 24
    else if j == 4 then 32 else if j == 5 then 40 else if j == 6 then 48 else 56
  }

  lemma FirstEighth()
    ensures Eighth(0) == 0
  {}

  lemma EighthStep(j: nat)
    requires 0 < j < 8
    ensures Eighth(j - 1) < 56 && Eighth(j) == Eighth(j - 1) + 8 && Eighth(j) < 64
  {}

  lemma {:induction false} LeadingIsByteMask(n: nat, j: nat)
    requires n <= 64 && j < 8
    ensures Machine(n) <= 64 && Eighth(j) < 64 && Leading(Machine(n), Eighth(j)) == ByteMask(n - 8 * j)
  {
    hide Leading, Machine, ByteMask, Eighth;
    EightLess(n);
    FirstEighth();
    if j == 0 {
      LeadingFirst(n);
    } else {
      EighthStep(j);
      LeadingStep(Machine(n), Eighth(j - 1));
      if n >= 8 {
        LeadingIsByteMask(n - 8, j - 1);
      } else {
        FarByteMask(n - 8 * j);
      }
    }
  }

  lemma WordMaskBytes(n: nat)
    requires n <= 64
    ensures Machine(n) <= 64 && forall j | 0 <= j < 8 :: StoreBig(OnesUp(Machine(n)))[j] == ByteMask(n - 8 * j)
  {
    hide Leading, OnesUp, ByteMask, Machine, StoreBig;
    EightLess(n);
    forall j: nat | j < 8
      ensures StoreBig(OnesUp(Machine(n)))[j] == ByteMask(n - 8 * j)
    {
      LeadingIsByteMask(n, j);
      OnesUpBytes(Machine(n));
    }
  }
}
