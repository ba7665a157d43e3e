/** Packets of credentials: what pushCredentials sends, and what the receiver of such a packet finds
    in it and hands on. */
module CredentialPackets {
  import opened Buffers
  import opened Lists
  import opened CapabilityWire
  import opened MembershipWire
  import opened CertificateWire

  /** Seven fragments. */
  const MAX_PACKET := 10024

  /** The packet header, which is not looked at here. */
  const PAYLOAD := 28

  /** Sizes of the objects in memory with 64-bit pointers; with 16 more they are what a packet reserves for one. */
  const SIZEOF_CAPABILITY := 2864
  const SIZEOF_TAG := 136
  const SIZEOF_COO := 416

  type Header = b: Bytes | |b| == PAYLOAD witness seq(PAYLOAD, _ => 0)

  datatype Credential =
    | Cap(capability: Capability)
    | Tagged(tag: Tag)
    | Revoked(revocation: Revocation)
    | Owned(coo: AnyCoo)
    | Member(com: Com)

  function Kind(c: Credential): nat {
    match c
    case Cap(_) => 0
    case Tagged(_) => 1
    case Revoked(_) => 2
    case Owned(_) => 3
    case Member(_) => 4
  }

  /** What pushCredentials sends lists of. */
  predicate Sent(c: Credential) {
    c.Cap? || c.Tagged? || (c.Owned? && c.coo.thingCount <= MAX_THINGS)
  }

  type Sendable = c: Credential | Sent(c) witness Tagged(Tag(0, 0, 0, 0, 0, 0, NoSignature()))

  function BytesOf(c: Sendable): Bytes {
    if c.Cap? then CapabilityBytes(c.capability) else if c.Tagged? then TagBytes(c.tag) else CooBytes(c.coo)
  }

  /** What of it goes over the wire. */
  function Wire(c: Sendable): (w: Credential)
    ensures Kind(w) == Kind(c)
  {
    if c.Cap? then Cap(WireCapability(c.capability)) else if c.Tagged? then c else Owned(WireCoo(c.coo))
  }

  /** Capabilities have a chain length between 1 and 7. */
  predicate Readable(c: Sendable) {
    c.Cap? ==> 1 <= c.capability.maxChain <= MAX_CUSTODY
  }

  ghost predicate OfKind(cs: seq<Credential>, k: nat) {
    forall c | c in cs :: Kind(c) == k
  }

  // ---- reading a packet ----

  function CredentialAt(d: Bytes, p: nat, k: nat): Result<(Credential, nat)>
    requires k < 4
  {
    if k == 0 then
      var c :- CapabilityAt(d, p);
      Ok((Cap(c.0), c.1))
    else if k == 1 then
      var c :- TagAt(d, p);
      Ok((Tagged(c.0), c.1))
    else if k == 2 then
      var c :- RevocationAt(d, p);
      Ok((Revoked(c.0), c.1))
    else
      var c :- CooAt(d, p);
      Ok((Owned(c.0), c.1))
  }

  /** What was found, and the position after it or the error that ended the search. */
  datatype Trace = Trace(found: seq<Credential>, end: Result<nat>)

  function After(c: Credential, t: Trace): Trace { Trace([c] + t.found, t.end) }

  /** Certificates of membership up to a zero byte. */
  function ComsTrace(d: Bytes, p: nat, before: Signature): Trace
    decreases |d| - p
  {
    if p < |d| && d[p] != 0 then
      match ComAt(d, p, before)
      case Err(e) => Trace([], Err(e))
      case Ok(c) => After(Member(c.0), ComsTrace(d, c.1, c.0.signature))
    else Trace([], Ok(p))
  }

  function ItemsTrace(d: Bytes, p: nat, n: nat, k: nat): Trace
    requires k < 4
    decreases n
  {
    if n == 0 then Trace([], Ok(p)) else
      match CredentialAt(d, p, k)
      case Err(e) => Trace([], Err(e))
      case Ok(c) => After(c.0, ItemsTrace(d, c.1, n - 1, k))
  }

  function SectionTrace(d: Bytes, p: nat, k: nat): Trace
    requires k < 4
  {
    match At16(d, p)
    case Err(e) => Trace([], Err(e))
    case Ok(n) => ItemsTrace(d, p + 2, n, k)
  }

  /** How reading a packet ends: read whole, cut off between two sections, or an error. */
  datatype End = Whole | Short | Bad(error: Error)

  datatype Reading = Reading(found: seq<Credential>, end: End)

  function Following(found: seq<Credential>, r: Reading): Reading { Reading(found + r.found, r.end) }

  /** The sections from k on; a packet may end before any of them, which counts as whole only before the first. */
  function SectionsReading(d: Bytes, p: nat, k: nat): Reading
    requires k <= 4
    decreases 4 - k
  {
    if k == 4 then Reading([], Whole)
    else if p >= |d| then Reading([], if k == 0 then Whole else Short)
    else
      var t := SectionTrace(d, p, k);
      if t.end.Err? then Reading(t.found, Bad(t.end.error))
      else Following(t.found, SectionsReading(d, t.end.value, k + 1))
  }

  function PacketReading(d: Bytes, before: Signature): Reading {
    var t := ComsTrace(d, PAYLOAD, before);
    if t.end.Err? then Reading(t.found, Bad(t.end.error))
    else Following(t.found, SectionsReading(d, t.end.value + 1, 0))
  }

  // ---- one packet ----

  /** What one packet is loaded with. */
  datatype Load = Load(coms: seq<Com>, caps: seq<Sendable>, tags: seq<Sendable>, coos: seq<Sendable>)

  function SectionBytes(cs: seq<Sendable>): Bytes {
    Put(|cs|, 2) + All(cs, BytesOf)
  }

  function LoadBytes(l: Load): Bytes {
    All(l.coms, ComBytes) + ([0] + (SectionBytes(l.caps) + (SectionBytes(l.tags) + (Put(0, 2) + SectionBytes(l.coos)))))
  }

  /** A load a reader can read. */
  ghost predicate Proper(l: Load) {
    && |l.coms| <= 1 && (forall c | c in l.coms :: InOrder(c.qualifiers, 0))
    && OfKind(l.caps, 0) && OfKind(l.tags, 1) && OfKind(l.coos, 3)
    && |l.caps| < 0x1_0000 && |l.tags| < 0x1_0000 && |l.coos| < 0x1_0000
    && forall c | c in l.caps :: Readable(c)
  }

  function Coms(coms: seq<Com>, before: Signature): seq<Credential> {
    if coms == [] then [] else [Member(WireCom(coms[0], before))] + Coms(coms[1..], before)
  }

  function Found(l: Load, before: Signature): seq<Credential> {
    Coms(l.coms, before) + (Map(l.caps, Wire) + (Map(l.tags, Wire) + Map(l.coos, Wire)))
  }

  lemma CredentialRoundTrip(d: Bytes, p: nat, c: Sendable)
    requires Holds(d, p, BytesOf(c))
    ensures CredentialAt(d, p, Kind(c)) == if Readable(c) then Ok((Wire(c), p + |BytesOf(c)|)) else Err(Overflow)
  {
    hide Holds, CapabilityBytes, CapabilityAt, TagBytes, TagAt, CooBytes, CooAt, WireCapability, WireCoo;
    if c.Cap? {
      CapabilityRoundTrip(d, p, c.capability);
    } else if c.Tagged? {
      TagRoundTrip(d, p, c.tag);
    } else {
      CooRoundTrip(d, p, c.coo);
    }
  }

  lemma {:induction false} ItemsRoundTrip(d: Bytes, p: nat, cs: seq<Sendable>, k: nat)
    requires k < 4 && Holds(d, p, All(cs, BytesOf)) && OfKind(cs, k) && forall c | c in cs :: Readable(c)
    ensures ItemsTrace(d, p, |cs|, k) == Trace(Map(cs, Wire), Ok(p + |All(cs, BytesOf)|))
    decreases |cs|
  {
    hide Holds, BytesOf, CredentialAt, Wire, Readable;
    if cs != [] {
      HoldsBoth(d, p, BytesOf(cs[0]), All(cs[1..], BytesOf));
      CredentialRoundTrip(d, p, cs[0]);
      ItemsRoundTrip(d, p + |BytesOf(cs[0])|, cs[1..], k);
    }
  }

  lemma SectionRoundTrip(d: Bytes, p: nat, cs: seq<Sendable>, k: nat, rest: Bytes)
    requires k < 4 && |cs| < 0x1_0000 && OfKind(cs, k) && forall c | c in cs :: Readable(c)
    requires Holds(d, p, SectionBytes(cs) + rest)
    ensures p < |d| && SectionTrace(d, p, k) == Trace(Map(cs, Wire), Ok(p + |SectionBytes(cs)|))
    ensures Holds(d, p + |SectionBytes(cs)|, rest)
  {
    hide Holds, BytesOf, Put, At16, All, OfKind, Readable, Wire, Map, ItemsTrace;
    HoldsBoth(d, p, SectionBytes(cs), rest);
    HoldsSome(d, p, SectionBytes(cs));
    Next16(d, p, |cs|, All(cs, BytesOf));
    ItemsRoundTrip(d, p + 2, cs, k);
  }

  lemma ComsEnd(d: Bytes, p: nat, rest: Bytes)
    requires Holds(d, p, [0] + rest)
    ensures Holds(d, p + 1, rest) && forall s: Signature :: ComsTrace(d, p, s) == Trace([], Ok(p))
  {
    NextByte(d, p, 0, rest);
  }

  lemma ComStarts(d: Bytes, p: nat, c: Com)
    requires Holds(d, p, ComBytes(c))
    ensures p < |d| && d[p] != 0
  {
    ComLength(c);
    hide ComBytes;
    assert d[p] == d[p..p + |ComBytes(c)|][0];
  }

  lemma ComsRoundTrip(d: Bytes, p: nat, coms: seq<Com>, before: Signature, rest: Bytes)
    requires |coms| <= 1 && (forall c | c in coms :: InOrder(c.qualifiers, 0))
      && Holds(d, p, All(coms, ComBytes) + ([0] + rest))
    ensures ComsTrace(d, p, before) == Trace(Coms(coms, before), Ok(p + |All(coms, ComBytes)|))
    ensures Holds(d, p + |All(coms, ComBytes)| + 1, rest)
  {
    hide Holds, ComBytes, ComAt, InOrder;
    var e := p + |All(coms, ComBytes)|;
    HoldsBoth(d, p, All(coms, ComBytes), [0] + rest);
    ComsEnd(d, e, rest);
    if coms != [] {
      var c := coms[0];
      assert coms[1..] == [];
      assert All(coms, ComBytes) == ComBytes(c) + [] == ComBytes(c);
      ComStarts(d, p, c);
      ComRoundTrip(d, p, c, before);
      assert Coms(coms, before) == [Member(WireCom(c, before))] + Coms([], before);
    }
  }

  /** A packet is read whole, and what is found in it is what it was loaded with. */
  lemma PacketRoundTrip(header: Header, l: Load, before: Signature)
    requires Proper(l)
    ensures PacketReading(header + LoadBytes(l), before) == Reading(Found(l, before), Whole)
  {
    var d := header + LoadBytes(l);
    LoadStands(header, l);
    hide Holds, OfKind, LoadBytes, SectionBytes, Put, ComsTrace, SectionTrace, Coms, Map, All, Readable, Wire;
    var coos := SectionBytes(l.coos);
    var tags := SectionBytes(l.tags) + (Put(0, 2) + coos);
    var caps := SectionBytes(l.caps) + tags;
    ComsRoundTrip(d, PAYLOAD, l.coms, before, caps);
    var p0 := PAYLOAD + |All(l.coms, ComBytes)| + 1;
    SectionRoundTrip(d, p0, l.caps, 0, tags);
    var p1 := p0 + |SectionBytes(l.caps)|;
    ReadableTags(l);
    SectionRoundTrip(d, p1, l.tags, 1, Put(0, 2) + coos);
    var p2 := p1 + |SectionBytes(l.tags)|;
    NoRevocations(d, p2, coos);
    var p3 := p2 + 2;
    assert coos + [] == coos;
    SectionRoundTrip(d, p3, l.coos, 3, []);
    ReadingOf(d, p0, Map(l.caps, Wire), p1, Map(l.tags, Wire), p2, p3, Map(l.coos, Wire), p3 + |coos|);
  }

  lemma LoadStands(header: Header, l: Load)
    ensures Holds(header + LoadBytes(l), PAYLOAD, All(l.coms, ComBytes)
      + ([0] + (SectionBytes(l.caps) + (SectionBytes(l.tags) + (Put(0, 2) + SectionBytes(l.coos))))))
  {
    hide Holds, SectionBytes, All, Put;
    HoldsWithin(header, LoadBytes(l), []);
  }

  lemma ReadableTags(l: Load)
    requires Proper(l)
    ensures (forall c | c in l.tags :: Readable(c)) && forall c | c in l.coos :: Readable(c)
  {}

  lemma NoRevocations(d: Bytes, p: nat, rest: Bytes)
    requires Holds(d, p, Put(0, 2) + rest)
    ensures p < |d| && SectionTrace(d, p, 2) == Trace([], Ok(p + 2)) && Holds(d, p + 2, rest)
  {
    hide Holds, At16, Put;
    HoldsSome(d, p, Put(0, 2) + rest);
    Next16(d, p, 0, rest);
  }

  /** Four sections one after the other. */
  lemma ReadingOf(
    d: Bytes, p0: nat, caps: seq<Credential>, p1: nat, tags: seq<Credential>, p2: nat, p3: nat, coos: seq<Credential>,
    p4: nat)
    requires p0 < |d| && p1 < |d| && p2 < |d| && p3 < |d|
    requires SectionTrace(d, p0, 0) == Trace(caps, Ok(p1)) && SectionTrace(d, p1, 1) == Trace(tags, Ok(p2))
    requires SectionTrace(d, p2, 2) == Trace([], Ok(p3)) && SectionTrace(d, p3, 3) == Trace(coos, Ok(p4))
    ensures SectionsReading(d, p0, 0) == Reading(caps + (tags + coos), Whole)
  {
    hide SectionTrace;
    assert SectionsReading(d, p4, 4) == Reading([], Whole);
    assert SectionsReading(d, p3, 3) == Reading(coos + [], Whole);
    assert coos + [] == coos && [] + coos == coos;
    assert SectionsReading(d, p2, 2) == Reading([] + coos, Whole);
    assert SectionsReading(d, p1, 1) == Reading(tags + coos, Whole);
  }
}
