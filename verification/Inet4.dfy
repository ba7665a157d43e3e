/** IPv4 prefixes: networks, containment and matching prefix bits on 32-bit words. */
module Inet4 {

  /** A number of netmask bits or matching bits. */
  type Bits = bv8

  function Down(x: bv32, n: Bits): bv32
    requires n <= 32
  {
    x >> (32 - n)
  }

  function Mask(n: Bits): bv32
    requires n <= 32
  {
    0xFFFF_FFFF << (32 - n)
  }

  function Host(n: Bits): bv32
    requires n <= 32
  {
    0xFFFF_FFFF >> n
  }

  function And(a: bv32, b: bv32): bv32 { a & b }

  /** Bit i of an address, counting from its leading bit. */
  function BitAt(x: bv32, i: Bits): bv32
    requires i < 32
  {
    (x << i) >> 31
  }

  /** The first n bits agree. */
  ghost predicate SamePrefix(a: bv32, b: bv32, n: Bits)
    requires n <= 32
  {
    forall i: Bits | i < n :: BitAt(a, i) == BitAt(b, i)
  }

  /** containsAddress. */
  predicate Contains(net: bv32, bits: Bits, addr: bv32)
    requires bits <= 32
  {
    bits == 0 || Down(addr, bits) == Down(net, bits)
  }

  /** network; the shift is by 32 and undefined when there are no netmask bits. */
  function Network(ip: bv32, bits: Bits): bv32
    requires 0 < bits <= 32
  {
    And(ip, Mask(bits))
  }

  predicate IsNetwork(ip: bv32, bits: Bits)
    requires bits <= 32
  {
    bits != 0 && bits < 32 && And(ip, Host(bits)) == 0
  }

  // ---- comparing shifted words is comparing leading bits ----

  function Push(d: bv32, t: bv32): bv32 { (d << 1) | t }

  lemma DownStep(x: bv32, n: Bits)
    requires 0 < n <= 32
    ensures Down(x, n) == Push(Down(x, n - 1), BitAt(x, n - 1))
  {}

  lemma DownSmall(x: bv32, n: Bits)
    requires 0 < n <= 32
    ensures Down(x, n - 1) < 0x8000_0000
  {}

  lemma BitSmall(x: bv32, i: Bits)
    requires i < 32
    ensures BitAt(x, i) <= 1
  {}

  lemma PushInjective(d: bv32, t: bv32, d': bv32, t': bv32)
    requires d < 0x8000_0000 && d' < 0x8000_0000 && t <= 1 && t' <= 1
    ensures Push(d, t) == Push(d', t') <==> d == d' && t == t'
  {}

  lemma LessStep(i: Bits, n: Bits)
    requires n > 0
    ensures i < n <==> i < n - 1 || i == n - 1
  {}

  lemma PrefixStep(a: bv32, b: bv32, n: Bits)
    requires 0 < n <= 32
    ensures SamePrefix(a, b, n) <==> SamePrefix(a, b, n - 1) && BitAt(a, n - 1) == BitAt(b, n - 1)
  {
    hide BitAt;
    forall i: Bits | i < n && SamePrefix(a, b, n - 1) && BitAt(a, n - 1) == BitAt(b, n - 1)
      ensures BitAt(a, i) == BitAt(b, i)
    {
      LessStep(i, n);
    }
  }

  lemma {:induction false} DownIsPrefix(a: bv32, b: bv32, n: Bits)
    requires n <= 32
    ensures Down(a, n) == Down(b, n) <==> SamePrefix(a, b, n)
    decreases n
  {
    hide Down, BitAt, Push;
    if n == 0 {
      DownNone(a); DownNone(b);
    } else {
      DownIsPrefix(a, b, n - 1);
      DownStep(a, n); DownStep(b, n);
      DownSmall(a, n); DownSmall(b, n); BitSmall(a, n - 1); BitSmall(b, n - 1);
      PushInjective(Down(a, n - 1), BitAt(a, n - 1), Down(b, n - 1), BitAt(b, n - 1));
      PrefixStep(a, b, n);
    }
  }

  lemma DownNone(x: bv32)
    ensures Down(x, 0) == 0
  {}

  /** A network contains exactly the addresses that share its first bits. */
  lemma ContainsIsPrefix(net: bv32, bits: Bits, addr: bv32)
    requires bits <= 32
    ensures Contains(net, bits, addr) <==> SamePrefix(addr, net, bits)
  {
    DownIsPrefix(addr, net, bits);
  }

  // ---- matchingPrefixBits ----

  function Top(x: bv32): bv32 { x >> 31 }
  function UpOne(x: bv32): bv32 { x << 1 }
  function Up(x: bv32, i: Bits): bv32
    requires i <= 32
  {
    x << i
  }

  lemma UpStep(x: bv32, i: Bits)
    requires i < 32
    ensures UpOne(Up(x, i)) == Up(x, i + 1) && Top(Up(x, i)) == BitAt(x, i)
  {}

  lemma UpNone(x: bv32)
    ensures Up(x, 0) == x
  {}

  method MatchingPrefixBits(a: bv32, b: bv32) returns (c: Bits)
    ensures c <= 32 && SamePrefix(a, b, c) && (c < 32 ==> BitAt(a, c) != BitAt(b, c))
  {
    hide Up, UpOne, Top, BitAt;
    var ip0, ip1 := a, b;
    c := 0;
    UpNone(a); UpNone(b);
    while Top(ip0) == Top(ip1)
      invariant c < 32 && ip0 == Up(a, c) && ip1 == Up(b, c) && SamePrefix(a, b, c)
      decreases 32 - c
    {
      UpStep(a, c); UpStep(b, c);
      PrefixStep(a, b, c + 1);
      ip0, ip1 := UpOne(ip0), UpOne(ip1);
      c := c + 1;
      if c == 32 {
        return;
      }
    }
    UpStep(a, c); UpStep(b, c);
  }

  lemma LongestPrefix(a: bv32, b: bv32, c: Bits, n: Bits)
    requires c <= 32 && n <= 32 && SamePrefix(a, b, c) && (c < 32 ==> BitAt(a, c) != BitAt(b, c))
    ensures n <= c <==> SamePrefix(a, b, n)
  {
    hide BitAt;
  }

  /** containsAddress agrees with matchingPrefixBits, for every netmask length. */
  method ContainsOrMatches(net: bv32, bits: Bits, addr: bv32) returns (contains: bool, c: Bits)
    requires bits <= 32
    ensures c <= 32 && SamePrefix(net, addr, c) && (c < 32 ==> BitAt(net, c) != BitAt(addr, c))
    ensures contains == Contains(net, bits, addr) && contains == (c >= bits)
  {
    hide BitAt, Contains;
    contains := Contains(net, bits, addr);
    c := MatchingPrefixBits(net, addr);
    ContainsIsPrefix(net, bits, addr);
    LongestPrefix(net, addr, c, bits);
  }

  // ---- network ----

  lemma MaskFacts(ip: bv32, n: Bits)
    requires n <= 32
    ensures Down(And(ip, Mask(n)), n) == Down(ip, n)
  {}

  lemma MaskMissesHost(n: Bits)
    requires n <= 32
    ensures And(Mask(n), Host(n)) == 0
  {}

  lemma AndAnd(a: bv32, b: bv32, c: bv32)
    ensures And(And(a, b), c) == And(a, And(b, c))
  {}

  lemma AndSame(a: bv32)
    ensures And(a, a) == a && And(a, 0) == 0
  {}

  lemma MaskAndHost(ip: bv32, n: Bits)
    requires n <= 32
    ensures And(ip, Host(n)) == 0 <==> And(ip, Mask(n)) == ip
  {}

  /** Exactly the addresses without host bits are networks, for 1 to 31 netmask bits: no bit from the netmask length
      on is set, or, which is the same, the address is its own network. */
  lemma IsNetworkMeans(ip: bv32, bits: Bits)
    requires bits <= 32
    ensures IsNetwork(ip, bits) <==> 0 < bits < 32 && forall i: Bits | bits <= i < 32 :: BitAt(ip, i) == 0
    ensures 0 < bits < 32 ==> (IsNetwork(ip, bits) <==> Network(ip, bits) == ip)
  {
    hide BitAt, Host, Mask, And;
    MaskAndHost(ip, bits);
    HostBits(ip, bits);
  }

  lemma {:induction false} HostBits(ip: bv32, n: Bits)
    requires n <= 32
    ensures And(ip, Host(n)) == 0 <==> forall i: Bits | n <= i < 32 :: BitAt(ip, i) == 0
    decreases 32 - n
  {
    hide BitAt, Host, And;
    if n == 32 {
      NoHost(ip);
    } else {
      HostBits(ip, n + 1);
      HostStep(ip, n);
      forall i: Bits | n <= i < 32 && BitAt(ip, n) == 0 && And(ip, Host(n + 1)) == 0
        ensures BitAt(ip, i) == 0
      {
        assert i == n || n + 1 <= i < 32;
      }
    }
  }

  lemma NoHost(ip: bv32)
    ensures And(ip, Host(32)) == 0
  {}

  lemma HostStep(ip: bv32, n: Bits)
    requires n < 32
    ensures And(ip, Host(n)) == 0 <==> And(ip, Host(n + 1)) == 0 && BitAt(ip, n) == 0
  {}

  /** For netmasks of 1 to 31 bits the network of an address is a network, its own network, and contains the address. */
  lemma NetworkLaws(ip: bv32, bits: Bits)
    requires 0 < bits < 32
    ensures var net := Network(ip, bits);
      IsNetwork(net, bits) && Network(net, bits) == net && Contains(net, bits, ip) && SamePrefix(net, ip, bits)
  {
    hide Down, Mask, Host, And, BitAt;
    AndAnd(ip, Mask(bits), Host(bits)); MaskMissesHost(bits); AndSame(ip);
    AndAnd(ip, Mask(bits), Mask(bits)); AndSame(Mask(bits));
    MaskFacts(ip, bits);
    DownIsPrefix(Network(ip, bits), ip, bits);
  }
}
