/** pushCredentials: the credentials of a network configuration in as many packets as it takes. */
module CredentialPush {
  import opened Buffers
  import opened Lists
  import opened CapabilityWire
  import opened MembershipWire
  import opened CertificateWire
  import opened CredentialPackets

  /** The credentials of a network configuration, with the bounds of its arrays. */
  datatype Config = Config(com: Com, caps: seq<Sendable>, tags: seq<Sendable>, coos: seq<Sendable>) {
    ghost predicate Valid() {
      && OfKind(caps, 0) && |caps| <= 128 && OfKind(tags, 1) && |tags| <= 128 && OfKind(coos, 3) && |coos| <= 4
    }

    /** Everything in it can be read back. */
    ghost predicate AllReadable() {
      && (com.Present() ==> InOrder(com.qualifiers, 0)) && forall c | c in caps :: Readable(c)
    }

    function ToSend(): seq<Com> { if com.Present() then [com] else [] }
  }

  method SerializeItem(b: Buffer, c: Sendable) returns (r: Outcome)
    requires b.Valid()
    modifies b
    ensures b.Valid()
    ensures r.Done? <==> |old(b.bytes)| + |BytesOf(c)| <= b.capacity
    ensures r.Done? ==> b.bytes == old(b.bytes) + BytesOf(c)
  {
    hide CapabilityBytes, TagBytes, CooBytes;
    if c.Cap? {
      r := CapabilityWire.Serialize(b, c.capability);
    } else if c.Tagged? {
      r := SerializeTag(b, c.tag);
    } else {
      r := SerializeCoo(b, c.coo);
    }
  }

  /** What one of its kind takes at most. */
  function MostOf(k: nat): nat { if k == 0 then 2137 else if k == 1 then 135 else 413 }

  lemma Lengths(cs: seq<Sendable>, k: nat)
    requires OfKind(cs, k)
    ensures forall c | c in cs :: |BytesOf(c)| <= MostOf(k)
  {
    forall c | c in cs
      ensures |BytesOf(c)| <= MostOf(k)
    {
      hide CapabilityBytes, TagBytes, CooBytes;
      assert Kind(c) == k;
      if c.Cap? {
        CapabilityLength(c.capability);
      } else if c.Tagged? {
        TagLength(c.tag);
      } else {
        CooLength(c.coo);
      }
    }
  }

  /**
   * The counted loop of one kind of credential: as many as leave room for one more, after a count that is filled in
   * afterwards. An object's size in memory and 16 more is more than its bytes take, so the packet never overflows.
   */
  method PushSome(b: Buffer, cs: seq<Sendable>, from: nat, sizeOf: nat, ghost most: nat) returns (to: nat)
    requires b.Valid() && b.capacity == MAX_PACKET && |b.bytes| + 2 < MAX_PACKET && from <= |cs| < 0x1_0000
    requires most < sizeOf + 16 && forall c | c in cs :: |BytesOf(c)| <= most
    modifies b
    ensures b.Valid() && from <= to <= |cs|
    ensures b.bytes == old(b.bytes) + SectionBytes(cs[from..to])
    ensures if to == from then |b.bytes| == |old(b.bytes)| + 2 else |b.bytes| + sizeOf + 16 - most < MAX_PACKET
    ensures to < |cs| ==> |b.bytes| + sizeOf + 16 >= MAX_PACKET
  {
    hide BytesOf, All, Put;
    ghost var was := b.bytes;
    var countAt := |b.bytes|;
    var added := b.AddSize(2);
    ghost var count := b.bytes[countAt..];
    to := from;
    NoneYet(cs[from..to]);
    assert b.bytes == was + count + [] && |count| == 2;
    while to < |cs| && |b.bytes| + sizeOf + 16 < MAX_PACKET
      invariant b.Valid() && from <= to <= |cs|
      invariant b.bytes == was + count + All(cs[from..to], BytesOf)
      invariant if to == from then |b.bytes| == |was| + 2 else |b.bytes| + sizeOf + 16 - most < MAX_PACKET
    {
      OneMore(cs, from, to);
      assert was + count + All(cs[from..to], BytesOf) + BytesOf(cs[to]) == was + count + All(cs[from..to + 1], BytesOf);
      var done := SerializeItem(b, cs[to]);
      to := to + 1;
    }
    added := b.SetAt(countAt, to - from, 2);
    CountSet(was, count, All(cs[from..to], BytesOf), Put(to - from, 2));
    assert |cs[from..to]| == to - from;
  }

  lemma NoneYet(none: seq<Sendable>)
    requires |none| == 0
    ensures All(none, BytesOf) == []
  {}

  lemma OneMore(cs: seq<Sendable>, from: nat, to: nat)
    requires from <= to < |cs|
    ensures All(cs[from..to + 1], BytesOf) == All(cs[from..to], BytesOf) + BytesOf(cs[to])
  {
    AllNext(cs[from..], to - from, BytesOf);
    assert cs[from..][..to - from] == cs[from..to] && cs[from..][..to - from + 1] == cs[from..to + 1];
  }

  lemma CountSet(was: Bytes, count: Bytes, all: Bytes, n: Bytes)
    requires |count| == 2
    ensures (was + count + all)[..|was|] + n + (was + count + all)[|was| + 2..] == was + (n + all)
  {}

  /** One packet: the certificate of membership if it is still to be sent, and as much of the rest as goes in. */
  method PushPacket(header: Header, cfg: Config, sendCom: bool, capPtr: nat, tagPtr: nat, cooPtr: nat)
    returns (packet: Bytes, capTo: nat, tagTo: nat, cooTo: nat)
    requires cfg.Valid() && capPtr <= |cfg.caps| && tagPtr <= |cfg.tags| && cooPtr <= |cfg.coos|
    ensures capPtr <= capTo <= |cfg.caps| && tagPtr <= tagTo <= |cfg.tags| && cooPtr <= cooTo <= |cfg.coos|
    ensures |packet| < MAX_PACKET
    ensures packet == header + LoadBytes(LoadOf(cfg, sendCom, capPtr, capTo, tagPtr, tagTo, cooPtr, cooTo))
    ensures capPtr < |cfg.caps| ==> capPtr < capTo
    ensures capPtr == |cfg.caps| && tagPtr < |cfg.tags| ==> tagPtr < tagTo
    ensures capPtr == |cfg.caps| && tagPtr == |cfg.tags| && cooPtr < |cfg.coos| ==> cooPtr < cooTo
  {
    hide BytesOf, SectionBytes, Put, ComBytes, OfKind, All;
    Lengths(cfg.caps, 0); Lengths(cfg.tags, 1); Lengths(cfg.coos, 3);
    ComLength(cfg.com);
    ghost var coms := if sendCom then [cfg.com] else [];
    AllComs(cfg.com);
    var outp := new Buffer(MAX_PACKET);
    var done := outp.Append(header);
    if sendCom {
      done := MembershipWire.Serialize(outp, cfg.com);
    }
    done := outp.Append([0]);
    assert outp.bytes == header + All(coms, ComBytes) + [0];
    capTo := PushSome(outp, cfg.caps, capPtr, SIZEOF_CAPABILITY, MostOf(0));
    tagTo := PushSome(outp, cfg.tags, tagPtr, SIZEOF_TAG, MostOf(1));
    done := outp.Append(Put(0, 2));
    cooTo := PushSome(outp, cfg.coos, cooPtr, SIZEOF_COO, MostOf(3));
    packet := outp.bytes;
    Parts(header, All(coms, ComBytes), [0], SectionBytes(cfg.caps[capPtr..capTo]),
      SectionBytes(cfg.tags[tagPtr..tagTo]), Put(0, 2), SectionBytes(cfg.coos[cooPtr..cooTo]));
  }

  function LoadOf(
    cfg: Config, sendCom: bool, capPtr: nat, capTo: nat, tagPtr: nat, tagTo: nat, cooPtr: nat, cooTo: nat): Load
    requires capPtr <= capTo <= |cfg.caps| && tagPtr <= tagTo <= |cfg.tags| && cooPtr <= cooTo <= |cfg.coos|
  {
    Load(if sendCom then [cfg.com] else [], cfg.caps[capPtr..capTo], cfg.tags[tagPtr..tagTo], cfg.coos[cooPtr..cooTo])
  }

  lemma AllComs(c: Com)
    ensures All([c], ComBytes) == ComBytes(c) && All([], ComBytes) == []
  {
    assert [c][1..] == [];
    assert ComBytes(c) + [] == ComBytes(c);
  }

  lemma Parts(s: Bytes, a: Bytes, b: Bytes, c: Bytes, d: Bytes, e: Bytes, f: Bytes)
    ensures s + a + b + c + d + e + f == s + (a + (b + (c + (d + (e + f)))))
  {
    FiveParts(s + a, b, c, d, e, f);
    ThreeParts(s, a, b, c + (d + (e + f)));
  }

  /** Part k of all loads, one after the other. */
  function Gathered(loads: seq<Load>, k: nat): seq<Sendable> {
    if loads == [] then [] else
      var l := loads[|loads| - 1];
      Gathered(loads[..|loads| - 1], k) + (if k == 0 then l.caps else if k == 1 then l.tags else l.coos)
  }

  function GatheredComs(loads: seq<Load>): seq<Com> {
    if loads == [] then [] else GatheredComs(loads[..|loads| - 1]) + loads[|loads| - 1].coms
  }

  /** The loads carry a configuration: every credential once and in order, the certificate of membership first. */
  ghost predicate Carried(loads: seq<Load>, cfg: Config) {
    && Gathered(loads, 0) == cfg.caps && Gathered(loads, 1) == cfg.tags && Gathered(loads, 3) == cfg.coos
    && GatheredComs(loads) == cfg.ToSend()
  }

  lemma GatheredOne(loads: seq<Load>, l: Load)
    ensures Gathered(loads + [l], 0) == Gathered(loads, 0) + l.caps
      && Gathered(loads + [l], 1) == Gathered(loads, 1) + l.tags
    ensures Gathered(loads + [l], 3) == Gathered(loads, 3) + l.coos
      && GatheredComs(loads + [l]) == GatheredComs(loads) + l.coms
  {
    assert (loads + [l])[..|loads|] == loads;
  }

  method PushCredentials(cfg: Config, headers: nat -> Header) returns (packets: seq<Bytes>, ghost loads: seq<Load>)
    requires cfg.Valid()
    ensures |packets| == |loads| && forall i | 0 <= i < |packets| :: packets[i] == headers(i) + LoadBytes(loads[i])
    ensures forall p | p in packets :: |p| < MAX_PACKET
    ensures Carried(loads, cfg) && forall l | l in loads :: TakenFrom(l, cfg)
  {
    hide LoadBytes, OfKind, TakenFrom, Gathered, GatheredComs, LoadOf;
    NothingGathered([]);
    var capPtr, tagPtr, cooPtr := 0, 0, 0;
    var sendCom := cfg.com.Present();
    packets, loads := [], [];
    while capPtr < |cfg.caps| || tagPtr < |cfg.tags| || cooPtr < |cfg.coos| || sendCom
      invariant capPtr <= |cfg.caps| && tagPtr <= |cfg.tags| && cooPtr <= |cfg.coos|
      invariant sendCom ==> cfg.com.Present()
      invariant |packets| == |loads| && forall i | 0 <= i < |packets| :: packets[i] == headers(i) + LoadBytes(loads[i])
      invariant forall p | p in packets :: |p| < MAX_PACKET
      invariant forall l | l in loads :: TakenFrom(l, cfg)
      invariant Gathered(loads, 0) == cfg.caps[..capPtr] && Gathered(loads, 1) == cfg.tags[..tagPtr]
      invariant Gathered(loads, 3) == cfg.coos[..cooPtr]
        && GatheredComs(loads) + (if sendCom then [cfg.com] else []) == cfg.ToSend()
      decreases |cfg.caps| - capPtr + |cfg.tags| - tagPtr + |cfg.coos| - cooPtr + if sendCom then 1 else 0
    {
      var packet, capTo, tagTo, cooTo := PushPacket(headers(|packets|), cfg, sendCom, capPtr, tagPtr, cooPtr);
      ghost var l := LoadOf(cfg, sendCom, capPtr, capTo, tagPtr, tagTo, cooPtr, cooTo);
      PartsOf(cfg, l, sendCom, capPtr, capTo, tagPtr, tagTo, cooPtr, cooTo);
      Advance(cfg, loads, l, sendCom, capPtr, capTo, tagPtr, tagTo, cooPtr, cooTo);
      packets, loads := packets + [packet], loads + [l];
      sendCom := false;
      capPtr, tagPtr, cooPtr := capTo, tagTo, cooTo;
    }
  }

  lemma NothingGathered(none: seq<Load>)
    requires none == []
    ensures Gathered(none, 0) == Gathered(none, 1) == Gathered(none, 3) == [] && GatheredComs(none) == []
  {}

  lemma Advance(
    cfg: Config, loads: seq<Load>, l: Load, sendCom: bool, capPtr: nat, capTo: nat, tagPtr: nat,
    tagTo: nat, cooPtr: nat, cooTo: nat)
    requires capPtr <= capTo <= |cfg.caps| && tagPtr <= tagTo <= |cfg.tags| && cooPtr <= cooTo <= |cfg.coos|
    requires l == LoadOf(cfg, sendCom, capPtr, capTo, tagPtr, tagTo, cooPtr, cooTo)
    requires Gathered(loads, 0) == cfg.caps[..capPtr] && Gathered(loads, 1) == cfg.tags[..tagPtr]
    requires Gathered(loads, 3) == cfg.coos[..cooPtr]
    ensures Gathered(loads + [l], 0) == cfg.caps[..capTo] && Gathered(loads + [l], 1) == cfg.tags[..tagTo]
    ensures Gathered(loads + [l], 3) == cfg.coos[..cooTo]
    ensures GatheredComs(loads + [l]) == GatheredComs(loads) + if sendCom then [cfg.com] else []
  {
    GatheredOne(loads, l);
    assert cfg.caps[..capTo] == cfg.caps[..capPtr] + cfg.caps[capPtr..capTo];
    assert cfg.tags[..tagTo] == cfg.tags[..tagPtr] + cfg.tags[tagPtr..tagTo];
    assert cfg.coos[..cooTo] == cfg.coos[..cooPtr] + cfg.coos[cooPtr..cooTo];
  }

  /** A load takes from the configuration what it holds. */
  ghost predicate TakenFrom(l: Load, cfg: Config) {
    && (forall c | c in l.caps :: c in cfg.caps) && (forall c | c in l.tags :: c in cfg.tags)
    && (forall c | c in l.coos :: c in cfg.coos) && |l.coms| <= 1
    && (forall c | c in l.coms :: c == cfg.com && c.Present())
    && |l.caps| <= |cfg.caps| && |l.tags| <= |cfg.tags| && |l.coos| <= |cfg.coos|
  }

  lemma PartsOf(
    cfg: Config, l: Load, sendCom: bool, capPtr: nat, capTo: nat, tagPtr: nat, tagTo: nat, cooPtr: nat, cooTo: nat)
    requires capPtr <= capTo <= |cfg.caps| && tagPtr <= tagTo <= |cfg.tags| && cooPtr <= cooTo <= |cfg.coos|
    requires l == LoadOf(cfg, sendCom, capPtr, capTo, tagPtr, tagTo, cooPtr, cooTo) && (sendCom ==> cfg.com.Present())
    ensures TakenFrom(l, cfg)
  {}

  // ---- reading what was pushed ----

  /** The credentials of one kind, in order. */
  function Select(cs: seq<Credential>, k: nat): seq<Credential> {
    if cs == [] then [] else (if Kind(cs[0]) == k then [cs[0]] else []) + Select(cs[1..], k)
  }

  lemma {:induction false} SelectJoined(a: seq<Credential>, b: seq<Credential>, k: nat)
    ensures Select(a + b, k) == Select(a, k) + Select(b, k)
  {
    if a == [] {
      assert a + b == b;
    } else {
      SelectJoined(a[1..], b, k);
      assert (a + b)[1..] == a[1..] + b && (a + b)[0] == a[0];
      hide Kind;
      var first := if Kind(a[0]) == k then [a[0]] else [];
      assert first + Select(a[1..], k) + Select(b, k) == first + (Select(a[1..], k) + Select(b, k));
    }
  }

  lemma {:induction false} SelectKind(cs: seq<Credential>, j: nat, k: nat)
    requires OfKind(cs, j)
    ensures Select(cs, k) == if j == k then cs else []
  {
    if cs != [] {
      SelectKind(cs[1..], j, k);
    }
  }

  lemma MapKind(cs: seq<Sendable>, k: nat)
    requires OfKind(cs, k)
    ensures OfKind(Map(cs, Wire), k)
  {
    forall c | c in Map(cs, Wire)
      ensures Kind(c) == k
    {
      var i :| 0 <= i < |cs| && c == Map(cs, Wire)[i];
      assert Kind(cs[i]) == k;
    }
  }

  lemma ComKind(coms: seq<Com>, before: Signature)
    requires |coms| <= 1
    ensures OfKind(Coms(coms, before), 4)
  {
    if coms != [] {
      assert coms[1..] == [];
      assert Coms(coms, before) == [Member(WireCom(coms[0], before))] + [];
    }
  }

  /** The parts of a load are what is found of their kinds. */
  lemma FoundKinds(l: Load, before: Signature)
    requires |l.coms| <= 1 && OfKind(l.caps, 0) && OfKind(l.tags, 1) && OfKind(l.coos, 3)
    ensures Select(Found(l, before), 0) == Map(l.caps, Wire) && Select(Found(l, before), 1) == Map(l.tags, Wire)
    ensures Select(Found(l, before), 3) == Map(l.coos, Wire) && Select(Found(l, before), 4) == Coms(l.coms, before)
    ensures forall k | k == 2 || k > 4 :: Select(Found(l, before), k) == []
  {
    hide Map, Coms, Select, OfKind;
    MapKind(l.caps, 0); MapKind(l.tags, 1); MapKind(l.coos, 3); ComKind(l.coms, before);
    forall k: nat
      ensures Select(Found(l, before), k) == (if k == 4 then Coms(l.coms, before) else [])
        + ((if k == 0 then Map(l.caps, Wire) else [])
        + ((if k == 1 then Map(l.tags, Wire) else []) + (if k == 3 then Map(l.coos, Wire) else [])))
    {
      var caps, tags, coos := Map(l.caps, Wire), Map(l.tags, Wire), Map(l.coos, Wire);
      SelectJoined(Coms(l.coms, before), caps + (tags + coos), k);
      SelectJoined(caps, tags + coos, k);
      SelectJoined(tags, coos, k);
      SelectKind(Coms(l.coms, before), 4, k); SelectKind(caps, 0, k); SelectKind(tags, 1, k); SelectKind(coos, 3, k);
    }
  }

  /** What is found in packet after packet. */
  function FoundIn(packets: seq<Bytes>, before: Signature): seq<Credential> {
    if packets == [] then [] else
      FoundIn(packets[..|packets| - 1], before) + PacketReading(packets[|packets| - 1], before).found
  }

  lemma {:induction false} MapJoined(a: seq<Sendable>, b: seq<Sendable>)
    ensures Map(a + b, Wire) == Map(a, Wire) + Map(b, Wire)
  {}

  lemma ComsJoined(a: seq<Com>, b: seq<Com>, before: Signature)
    ensures Coms(a + b, before) == Coms(a, before) + Coms(b, before)
  {
    if a == [] {
      assert a + b == b;
    } else {
      ComsJoined(a[1..], b, before);
      assert (a + b)[1..] == a[1..] + b;
    }
  }

  lemma TakenIsProper(l: Load, cfg: Config)
    requires cfg.Valid() && cfg.AllReadable() && TakenFrom(l, cfg)
    ensures Proper(l)
  {}

  function FoundOf(loads: seq<Load>, before: Signature): seq<Credential> {
    if loads == [] then [] else FoundOf(loads[..|loads| - 1], before) + Found(loads[|loads| - 1], before)
  }

  lemma {:induction false} FoundInLoads(packets: seq<Bytes>, loads: seq<Load>, cfg: Config, headers: nat -> Header,
                                        before: Signature)
    requires cfg.Valid() && cfg.AllReadable()
    requires |packets| == |loads| && forall i | 0 <= i < |packets| :: packets[i] == headers(i) + LoadBytes(loads[i])
    requires forall l | l in loads :: TakenFrom(l, cfg)
    ensures FoundIn(packets, before) == FoundOf(loads, before)
    ensures forall p | p in packets :: PacketReading(p, before).end == Whole
    decreases |packets|
  {
    hide LoadBytes, PacketReading, Found, TakenFrom, Proper;
    if packets != [] {
      var n := |packets| - 1;
      FoundInLoads(packets[..n], loads[..n], cfg, headers, before);
      TakenIsProper(loads[n], cfg);
      PacketRoundTrip(headers(n), loads[n], before);
      assert forall p | p in packets :: p in packets[..n] || p == packets[n];
    }
  }

  /** What of one kind is found in all loads. */
  lemma {:induction false} SelectFound(loads: seq<Load>, cfg: Config, before: Signature, k: nat)
    requires cfg.Valid() && cfg.AllReadable() && forall l | l in loads :: TakenFrom(l, cfg)
    ensures Select(FoundOf(loads, before), k) == if k == 0 || k == 1 || k == 3 then Map(Gathered(loads, k), Wire)
      else if k == 4 then Coms(GatheredComs(loads), before) else Select([], k)
    decreases |loads|
  {
    hide Found, TakenFrom, Proper, Map, Coms, Select, OfKind;
    if loads == [] {
      NothingFound([], before);
    } else {
      var first, l := loads[..|loads| - 1], loads[|loads| - 1];
      SelectFound(first, cfg, before, k);
      TakenIsProper(l, cfg);
      FoundKindsOf(l, before);
      SelectJoined(FoundOf(first, before), Found(l, before), k);
      GatheredOne(first, l);
      assert loads == first + [l];
      if k == 0 {
        MapJoined(Gathered(first, 0), l.caps);
      } else if k == 1 {
        MapJoined(Gathered(first, 1), l.tags);
      } else if k == 3 {
        MapJoined(Gathered(first, 3), l.coos);
      } else if k == 4 {
        ComsJoined(GatheredComs(first), l.coms, before);
      } else {
        NothingFound([], before);
      }
    }
  }

  lemma NothingFound(none: seq<Sendable>, before: Signature)
    requires none == []
    ensures forall k: nat :: Select([], k) == []
    ensures Map(none, Wire) == [] && Coms([], before) == []
  {}

  lemma FoundKindsOf(l: Load, before: Signature)
    requires Proper(l)
    ensures Select(Found(l, before), 0) == Map(l.caps, Wire) && Select(Found(l, before), 1) == Map(l.tags, Wire)
    ensures Select(Found(l, before), 3) == Map(l.coos, Wire) && Select(Found(l, before), 4) == Coms(l.coms, before)
    ensures forall k | k == 2 || k > 4 :: Select(Found(l, before), k) == []
  {
    FoundKinds(l, before);
  }

  /**
   * Pushing a configuration and reading its packets: every packet is shorter than the limit and read whole, and kind by
   * kind what is found are the credentials of the configuration, each once and in order.
   */
  method PushAndRead(cfg: Config, headers: nat -> Header, before: Signature) returns (packets: seq<Bytes>)
    requires cfg.Valid() && cfg.AllReadable()
    ensures forall p | p in packets :: |p| < MAX_PACKET && PacketReading(p, before).end == Whole
    ensures Select(FoundIn(packets, before), 0) == Map(cfg.caps, Wire)
    ensures Select(FoundIn(packets, before), 1) == Map(cfg.tags, Wire)
    ensures Select(FoundIn(packets, before), 2) == []
    ensures Select(FoundIn(packets, before), 3) == Map(cfg.coos, Wire)
    ensures Select(FoundIn(packets, before), 4) == Coms(cfg.ToSend(), before)
  {
    hide LoadBytes, PacketReading, TakenFrom, Map, Coms, Select, Wire, OfKind, FoundIn;
    ghost var loads;
    packets, loads := PushCredentials(cfg, headers);
    FoundInLoads(packets, loads, cfg, headers, before);
    forall k: nat {
      SelectFound(loads, cfg, before, k);
    }
    NothingFound([], before);
  }
}
