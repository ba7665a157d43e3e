/** Certificates of ownership, tags and revocations on the wire: a signature and a field for
    extensions end each of them. */
module CertificateWire {
  import opened Buffers
  import opened Lists
  import opened CapabilityWire

  const MAX_THINGS := 16

  type Value16 = b: Bytes | |b| == 16 witness seq(16, _ => 0)

  datatype Thing = Thing(kind: Octet, value: Value16)

  type Things = s: seq<Thing> | |s| == MAX_THINGS witness seq(MAX_THINGS, _ => NoThing())

  function NoThing(): (t: Thing)
    ensures t.kind == 0 && forall b | b in t.value :: b == 0
  {
    Thing(0, seq(16, _ => 0))
  }

  /** As its memory holds it: sixteen slots and a count, which a reader does not bound. */
  datatype AnyCoo = Coo(
    networkId: U64, ts: U64, flags: U64, id: U32, thingCount: U16, things: Things, issuedTo: U40, signedBy: U40,
    signature: Signature)

  type Coo = c: AnyCoo | c.thingCount <= MAX_THINGS
    witness Coo(0, 0, 0, 0, 0, seq(MAX_THINGS, _ => NoThing()), 0, 0, NoSignature())

  datatype Tag = Tag(id: U32, value: U32, networkId: U64, ts: U64, issuedTo: U40, signedBy: U40, signature: Signature)

  datatype Revocation = Revocation(
    id: U32, credentialId: U32, networkId: U64, threshold: U64, flags: U64, target: U40, signedBy: U40, kind: Octet,
    signature: Signature)

  // ---- the common end ----

  function EndBytes(s: Signature): Bytes {
    [1] + (Put(SIGNATURE_LENGTH, 2) + (s + Put(0, 2)))
  }

  function EndAt(d: Bytes, p: nat): Result<(Signature, nat)> {
    var s :- SignatureAt(d, p);
    var more :- At16(d, s.2);
    if s.2 + 2 + more > |d| then Err(Overflow) else Ok((s.1, s.2 + 2 + more))
  }

  lemma EndRoundTrip(d: Bytes, p: nat, s: Signature)
    requires Holds(d, p, EndBytes(s))
    ensures EndAt(d, p) == Ok((s, p + |EndBytes(s)|))
  {
    hide At16, Put, SignatureAt;
    SignatureRoundTrip(d, p, s, Put(0, 2));
    assert Put(0, 2) + [] == Put(0, 2);
    Next16(d, p + 99, 0, []);
  }

  method SerializeEnd(b: Buffer, s: Signature) returns (r: Outcome)
    requires b.Valid()
    modifies b
    ensures b.Valid()
    ensures r.Done? <==> |old(b.bytes)| + |EndBytes(s)| <= b.capacity
    ensures r.Done? ==> b.bytes == old(b.bytes) + EndBytes(s)
    ensures old(b.bytes) <= b.bytes
  {
    hide Put;
    FourParts(b.bytes, [1], Put(SIGNATURE_LENGTH, 2), s, Put(0, 2));
    :- b.Append([1]);
    :- b.Append(Put(SIGNATURE_LENGTH, 2));
    :- b.Append(s);
    :- b.Append(Put(0, 2));
    return Done;
  }

  // ---- tags ----

  function TagBytes(t: Tag): Bytes {
    Put(t.networkId, 8) + (Put(t.ts, 8)
      + (Put(t.id, 4) + (Put(t.value, 4) + (Put(t.issuedTo, 5) + (Put(t.signedBy, 5) + EndBytes(t.signature))))))
  }

  function TagAt(d: Bytes, p: nat): Result<(Tag, nat)> {
    var networkId :- At64(d, p);
    var ts :- At64(d, p + 8);
    var id :- At32(d, p + 16);
    var value :- At32(d, p + 20);
    var issuedTo :- AddressAt(d, p + 24);
    var signedBy :- AddressAt(d, p + 29);
    var s :- EndAt(d, p + 34);
    Ok((Tag(id, value, networkId, ts, issuedTo, signedBy, s.0), s.1))
  }

  lemma TagRoundTrip(d: Bytes, p: nat, t: Tag)
    requires Holds(d, p, TagBytes(t))
    ensures TagAt(d, p) == Ok((t, p + |TagBytes(t)|))
  {
    hide Holds, Put, At32, At64, AddressAt, EndAt, EndBytes;
    var e1 := Put(t.signedBy, 5) + EndBytes(t.signature);
    var e2 := Put(t.issuedTo, 5) + e1;
    var e3 := Put(t.value, 4) + e2;
    var e4 := Put(t.id, 4) + e3;
    Next64(d, p, t.networkId, Put(t.ts, 8) + e4);
    Next64(d, p + 8, t.ts, e4);
    Next32(d, p + 16, t.id, e3);
    Next32(d, p + 20, t.value, e2);
    NextAddress(d, p + 24, t.issuedTo, e1);
    NextAddress(d, p + 29, t.signedBy, EndBytes(t.signature));
    EndRoundTrip(d, p + 34, t.signature);
  }

  lemma TagLength(t: Tag)
    ensures |TagBytes(t)| == 135
  {}

  method SerializeTag(b: Buffer, t: Tag) returns (r: Outcome)
    requires b.Valid()
    modifies b
    ensures b.Valid()
    ensures r.Done? <==> |old(b.bytes)| + |TagBytes(t)| <= b.capacity
    ensures r.Done? ==> b.bytes == old(b.bytes) + TagBytes(t)
    ensures old(b.bytes) <= b.bytes
  {
    hide Put, EndBytes;
    FiveParts(b.bytes + Put(t.networkId, 8) + Put(t.ts, 8), Put(t.id, 4), Put(t.value, 4), Put(t.issuedTo, 5),
      Put(t.signedBy, 5), EndBytes(t.signature));
    ThreeParts(b.bytes, Put(t.networkId, 8), Put(t.ts, 8),
      Put(t.id, 4) + (Put(t.value, 4) + (Put(t.issuedTo, 5) + (Put(t.signedBy, 5) + EndBytes(t.signature)))));
    :- b.Append(Put(t.networkId, 8));
    :- b.Append(Put(t.ts, 8));
    :- b.Append(Put(t.id, 4));
    :- b.Append(Put(t.value, 4));
    :- b.Append(Put(t.issuedTo, 5));
    :- b.Append(Put(t.signedBy, 5));
    :- SerializeEnd(b, t.signature);
    return Done;
  }

  // ---- certificates of ownership ----

  function ThingBytes(t: Thing): Bytes { [t.kind] + t.value }

  function ThingAt(d: Bytes, p: nat): Result<(Thing, nat)> {
    var kind :- ByteAt(d, p);
    var value :- Buffers.Field(d, p + 1, 16);
    Ok((Thing(kind, value), p + 17))
  }

  function CooHead(c: Coo): Bytes {
    Put(c.networkId, 8) + (Put(c.ts, 8) + (Put(c.flags, 8) + (Put(c.id, 4) + Put(c.thingCount, 2))))
  }

  function CooTail(c: Coo): Bytes {
    Put(c.issuedTo, 5) + (Put(c.signedBy, 5) + EndBytes(c.signature))
  }

  function CooBytes(c: Coo): Bytes {
    CooHead(c) + (All(c.things[..c.thingCount], ThingBytes) + CooTail(c))
  }

  /** The slots that are read, followed by slots as new. */
  function InSlots(things: seq<Thing>): (r: Things)
    requires |things| <= MAX_THINGS
  {
    things + seq(MAX_THINGS - |things|, _ => NoThing())
  }

  /** Things beyond the sixteenth are counted, but neither read nor skipped. */
  function ThingsAt(d: Bytes, p: nat, n: nat): (r: Result<(seq<Thing>, nat)>)
    ensures r.Ok? ==> |r.value.0| <= MAX_THINGS
  {
    ReadAllLength(d, p, if n < MAX_THINGS then n else MAX_THINGS);
    ReadAll(d, p, if n < MAX_THINGS then n else MAX_THINGS, ThingAt)
  }

  lemma {:induction false} ReadAllLength(d: Bytes, p: nat, n: nat)
    ensures ReadAll(d, p, n, ThingAt).Ok? ==> |ReadAll(d, p, n, ThingAt).value.0| == n
    decreases n
  {
    if n > 0 && ThingAt(d, p).Ok? {
      ReadAllLength(d, ThingAt(d, p).value.1, n - 1);
    }
  }

  function CooAt(d: Bytes, p: nat): Result<(AnyCoo, nat)> {
    var networkId :- At64(d, p);
    var ts :- At64(d, p + 8);
    var flags :- At64(d, p + 16);
    var id :- At32(d, p + 24);
    var thingCount :- At16(d, p + 28);
    var things :- ThingsAt(d, p + 30, thingCount);
    var issuedTo :- AddressAt(d, things.1);
    var signedBy :- AddressAt(d, things.1 + 5);
    var s :- EndAt(d, things.1 + 10);
    Ok((Coo(networkId, ts, flags, id, thingCount, InSlots(things.0), issuedTo, signedBy, s.0), s.1))
  }

  /** Slots beyond the count stay behind. */
  function WireCoo(c: Coo): AnyCoo {
    c.(things := InSlots(c.things[..c.thingCount]))
  }

  lemma ThingRoundTrip(t: Thing)
    ensures Undoes(t, ThingBytes, ThingAt, (x: Thing) => x)
  {
    forall d: Bytes, p: nat | Holds(d, p, ThingBytes(t))
      ensures ThingAt(d, p) == Ok((t, p + |ThingBytes(t)|))
    {
      NextByte(d, p, t.kind, t.value);
      assert t.value + [] == t.value;
      NextField(d, p + 1, t.value, []);
    }
  }

  lemma {:induction false} MapSame(ts: seq<Thing>)
    ensures Map(ts, (x: Thing) => x) == ts
  {}

  lemma ThingsRoundTrip(d: Bytes, p: nat, c: Coo)
    requires Holds(d, p, All(c.things[..c.thingCount], ThingBytes))
    ensures ThingsAt(d, p, c.thingCount)
      == Ok((c.things[..c.thingCount], p + |All(c.things[..c.thingCount], ThingBytes)|))
  {
    var ts := c.things[..c.thingCount];
    forall t | t in ts
      ensures Undoes(t, ThingBytes, ThingAt, (x: Thing) => x)
    {
      ThingRoundTrip(t);
    }
    ReadAllUndoes(d, p, ts, ThingBytes, ThingAt, (x: Thing) => x);
    MapSame(ts);
  }

  lemma CooHeadRoundTrip(d: Bytes, p: nat, c: Coo)
    requires Holds(d, p, CooHead(c))
    ensures At64(d, p) == Ok(c.networkId) && At64(d, p + 8) == Ok(c.ts) && At64(d, p + 16) == Ok(c.flags)
    ensures At32(d, p + 24) == Ok(c.id) && At16(d, p + 28) == Ok(c.thingCount)
  {
    hide Holds, Put, At16, At32, At64;
    Next64(d, p, c.networkId, Put(c.ts, 8) + (Put(c.flags, 8) + (Put(c.id, 4) + Put(c.thingCount, 2))));
    Next64(d, p + 8, c.ts, Put(c.flags, 8) + (Put(c.id, 4) + Put(c.thingCount, 2)));
    Next64(d, p + 16, c.flags, Put(c.id, 4) + Put(c.thingCount, 2));
    Next32(d, p + 24, c.id, Put(c.thingCount, 2));
    assert Put(c.thingCount, 2) + [] == Put(c.thingCount, 2);
    Next16(d, p + 28, c.thingCount, []);
  }

  lemma CooTailRoundTrip(d: Bytes, p: nat, c: Coo)
    requires Holds(d, p, CooTail(c))
    ensures AddressAt(d, p) == Ok(c.issuedTo) && AddressAt(d, p + 5) == Ok(c.signedBy)
    ensures EndAt(d, p + 10) == Ok((c.signature, p + |CooTail(c)|))
  {
    hide Holds, Put, AddressAt, EndAt, EndBytes;
    NextAddress(d, p, c.issuedTo, Put(c.signedBy, 5) + EndBytes(c.signature));
    NextAddress(d, p + 5, c.signedBy, EndBytes(c.signature));
    EndRoundTrip(d, p + 10, c.signature);
  }

  lemma CooHeadLength(c: Coo)
    ensures |CooHead(c)| == 30
  {}

  lemma CooRoundTrip(d: Bytes, p: nat, c: Coo)
    requires Holds(d, p, CooBytes(c))
    ensures CooAt(d, p) == Ok((WireCoo(c), p + |CooBytes(c)|))
  {
    hide Holds, CooHead, CooTail, At16, At32, At64, AddressAt, ThingsAt, EndAt, All, InSlots;
    var things := All(c.things[..c.thingCount], ThingBytes);
    CooHeadLength(c);
    HoldsBoth(d, p, CooHead(c), things + CooTail(c));
    HoldsBoth(d, p + 30, things, CooTail(c));
    CooHeadRoundTrip(d, p, c);
    ThingsRoundTrip(d, p + 30, c);
    CooTailRoundTrip(d, p + 30 + |things|, c);
  }

  lemma CooLength(c: Coo)
    ensures 30 <= |CooBytes(c)| <= 413
  {
    AllLength(c.things[..c.thingCount], ThingBytes, 17);
  }

  method SerializeThings(b: Buffer, things: seq<Thing>) returns (r: Outcome)
    requires b.Valid()
    modifies b
    ensures b.Valid()
    ensures r.Done? <==> |old(b.bytes)| + |All(things, ThingBytes)| <= b.capacity
    ensures r.Done? ==> b.bytes == old(b.bytes) + All(things, ThingBytes)
    ensures old(b.bytes) <= b.bytes
  {
    hide All;
    NoThings(things[..0], b.bytes);
    for i := 0 to |things|
      invariant b.Valid() && b.bytes == old(b.bytes) + All(things[..i], ThingBytes)
    {
      AllNext(things, i, ThingBytes);
      assert old(b.bytes) + All(things[..i], ThingBytes) + [things[i].kind] + things[i].value
        == old(b.bytes) + All(things[..i + 1], ThingBytes);
      :- b.Append([things[i].kind]);
      :- b.Append(things[i].value);
    }
    assert things[..|things|] == things;
    return Done;
  }

  lemma NoThings(none: seq<Thing>, s: Bytes)
    requires |none| == 0
    ensures s + All(none, ThingBytes) == s
  {}

  method SerializeCooHead(b: Buffer, c: Coo) returns (r: Outcome)
    requires b.Valid()
    modifies b
    ensures b.Valid()
    ensures r.Done? <==> |old(b.bytes)| + |CooHead(c)| <= b.capacity
    ensures r.Done? ==> b.bytes == old(b.bytes) + CooHead(c)
    ensures old(b.bytes) <= b.bytes
  {
    hide Put;
    FiveParts(b.bytes, Put(c.networkId, 8), Put(c.ts, 8), Put(c.flags, 8), Put(c.id, 4), Put(c.thingCount, 2));
    :- b.Append(Put(c.networkId, 8));
    :- b.Append(Put(c.ts, 8));
    :- b.Append(Put(c.flags, 8));
    :- b.Append(Put(c.id, 4));
    :- b.Append(Put(c.thingCount, 2));
    return Done;
  }

  method SerializeCoo(b: Buffer, c: Coo) returns (r: Outcome)
    requires b.Valid()
    modifies b
    ensures b.Valid()
    ensures r.Done? <==> |old(b.bytes)| + |CooBytes(c)| <= b.capacity
    ensures r.Done? ==> b.bytes == old(b.bytes) + CooBytes(c)
    ensures old(b.bytes) <= b.bytes
  {
    hide Put, All, CooHead, EndBytes;
    FiveParts(b.bytes, CooHead(c), All(c.things[..c.thingCount], ThingBytes), Put(c.issuedTo, 5), Put(c.signedBy, 5),
      EndBytes(c.signature));
    :- SerializeCooHead(b, c);
    :- SerializeThings(b, c.things[..c.thingCount]);
    :- b.Append(Put(c.issuedTo, 5));
    :- b.Append(Put(c.signedBy, 5));
    :- SerializeEnd(b, c.signature);
    return Done;
  }

  /** The loop over all things a certificate counts; only sixteen are read. */
  method DeserializeThings(d: Bytes, startAt: nat, thingCount: nat) returns (r: Result<(seq<Thing>, nat)>)
    ensures r == ThingsAt(d, startAt, thingCount)
  {
    var p: nat := startAt;
    var things: seq<Thing> := [];
    for i := 0 to thingCount
      invariant |things| == (if i < MAX_THINGS then i else MAX_THINGS)
      invariant ReadAll(d, startAt, |things|, ThingAt) == Ok((things, p))
    {
      if i < MAX_THINGS {
        ReadAllNext(d, startAt, i, ThingAt);
        if ThingAt(d, p).Err? {
          ReadAllFails(d, startAt, i + 1, if thingCount < MAX_THINGS then thingCount else MAX_THINGS, ThingAt);
        }
        var kind :- ByteAt(d, p);
        var value :- Buffers.Field(d, p + 1, 16);
        things := things + [Thing(kind, value)];
        p := p + 17;
      }
    }
    return Ok((things, p));
  }

  method DeserializeCoo(d: Bytes, startAt: nat) returns (r: Result<(AnyCoo, nat)>)
    ensures r == CooAt(d, startAt)
  {
    hide At16, At32, At64, AddressAt, ThingsAt, SignatureAt, InSlots;
    var networkId :- At64(d, startAt);
    var ts :- At64(d, startAt + 8);
    var flags :- At64(d, startAt + 16);
    var id :- At32(d, startAt + 24);
    var thingCount :- At16(d, startAt + 28);
    var things :- DeserializeThings(d, startAt + 30, thingCount);
    var p: nat := things.1;
    var issuedTo :- AddressAt(d, p);
    var signedBy :- AddressAt(d, p + 5);
    var s :- SignatureAt(d, p + 10);
    p := s.2;
    var more :- At16(d, p);
    p := p + 2 + more;
    if p > |d| {
      return Err(Overflow);
    }
    return Ok((Coo(networkId, ts, flags, id, thingCount, InSlots(things.0), issuedTo, signedBy, s.1), p));
  }

  // ---- revocations ----

  function RevocationBytes(v: Revocation): Bytes {
    Put(0, 4) + (Put(v.id, 4) + (Put(v.networkId, 8) + (Put(0, 4) + (Put(v.credentialId, 4) + (Put(v.threshold, 8)
    + (Put(v.flags, 8) + (Put(v.target, 5) + (Put(v.signedBy, 5) + ([v.kind] + EndBytes(v.signature))))))))))
  }

  function RevocationAt(d: Bytes, p: nat): Result<(Revocation, nat)> {
    var id :- At32(d, p + 4);
    var networkId :- At64(d, p + 8);
    var credentialId :- At32(d, p + 20);
    var threshold :- At64(d, p + 24);
    var flags :- At64(d, p + 32);
    var target :- AddressAt(d, p + 40);
    var signedBy :- AddressAt(d, p + 45);
    var kind :- ByteAt(d, p + 50);
    var s :- EndAt(d, p + 51);
    Ok((Revocation(id, credentialId, networkId, threshold, flags, target, signedBy, kind, s.0), s.1))
  }

  lemma RevocationRoundTrip(d: Bytes, p: nat, v: Revocation)
    requires Holds(d, p, RevocationBytes(v))
    ensures RevocationAt(d, p) == Ok((v, p + |RevocationBytes(v)|))
  {
    hide Holds, Put, At32, At64, AddressAt, ByteAt, EndAt, EndBytes;
    var e1 := [v.kind] + EndBytes(v.signature);
    var e2 := Put(v.signedBy, 5) + e1;
    var e3 := Put(v.target, 5) + e2;
    var e4 := Put(v.flags, 8) + e3;
    var e5 := Put(v.threshold, 8) + e4;
    var e6 := Put(v.credentialId, 4) + e5;
    var e7 := Put(0, 4) + e6;
    var e8 := Put(v.networkId, 8) + e7;
    Next32(d, p, 0, Put(v.id, 4) + e8);
    Next32(d, p + 4, v.id, e8);
    Next64(d, p + 8, v.networkId, e7);
    Next32(d, p + 16, 0, e6);
    Next32(d, p + 20, v.credentialId, e5);
    Next64(d, p + 24, v.threshold, e4);
    Next64(d, p + 32, v.flags, e3);
    NextAddress(d, p + 40, v.target, e2);
    NextAddress(d, p + 45, v.signedBy, e1);
    NextByte(d, p + 50, v.kind, EndBytes(v.signature));
    EndRoundTrip(d, p + 51, v.signature);
  }
}
