/** Certificates of membership on the wire: qualifiers in the order of their ids, a signer, and its signature if any. */
module MembershipWire {
  import opened Buffers
  import opened Lists
  import opened CapabilityWire

  const MAX_QUALIFIERS := 8

  datatype Qualifier = Qualifier(id: U64, value: U64, maxDelta: U64)

  type Qualifiers = s: seq<Qualifier> | |s| <= MAX_QUALIFIERS

  datatype Com = Com(signedBy: U40, qualifiers: Qualifiers, signature: Signature) {
    /** operator bool. */
    predicate Present() { |qualifiers| != 0 }
  }

  function QualifierBytes(q: Qualifier): Bytes {
    Put(q.id, 8) + (Put(q.value, 8) + Put(q.maxDelta, 8))
  }

  function SignerBytes(c: Com): Bytes {
    Put(c.signedBy, 5) + (if c.signedBy != 0 then c.signature else [])
  }

  function ComBytes(c: Com): Bytes {
    [1] + (Put(|c.qualifiers|, 2) + (All(c.qualifiers, QualifierBytes) + SignerBytes(c)))
  }

  /** n qualifiers after count others, the last of which had the id last. */
  function QualifiersAt(d: Bytes, p: nat, n: nat, last: U64, count: nat): (r: Result<(seq<Qualifier>, nat)>)
    ensures r.Ok? ==> n == 0 || |r.value.0| + count <= MAX_QUALIFIERS
    ensures r.Ok? ==> |r.value.0| == n
    decreases n
  {
    if n == 0 then Ok(([], p)) else
      var qid :- At64(d, p);
      if qid < last then Err(BadEncoding)
      else if count >= MAX_QUALIFIERS then Err(Overflow)
      else
        var value :- At64(d, p + 8);
        var maxDelta :- At64(d, p + 16);
        var others :- QualifiersAt(d, p + 24, n - 1, qid, count + 1);
        Ok(([Qualifier(qid, value, maxDelta)] + others.0, others.1))
  }

  /** The signer and its signature; an unsigned certificate keeps the signature the object had before. */
  function SignerAt(d: Bytes, p: nat, before: Signature): Result<(U40, Signature, nat)> {
    var signedBy :- AddressAt(d, p);
    if signedBy == 0 then Ok((0, before, p + 5)) else
      var s :- Buffers.Field(d, p + 5, SIGNATURE_LENGTH);
      Ok((signedBy, s, p + 5 + SIGNATURE_LENGTH))
  }

  function ComAt(d: Bytes, p: nat, before: Signature): (r: Result<(Com, nat)>)
    ensures r.Ok? ==> r.value.1 > p
  {
    var kind :- ByteAt(d, p);
    if kind != 1 then Err(InvalidType) else
      var numq :- At16(d, p + 1);
      var qs :- QualifiersAt(d, p + 3, numq, 0, 0);
      var s :- SignerAt(d, qs.1, before);
      QualifiersEnd(d, p + 3, numq, 0, 0);
      Ok((Com(s.0, qs.0, s.1), s.2))
  }

  lemma {:induction false} QualifiersEnd(d: Bytes, p: nat, n: nat, last: U64, count: nat)
    ensures var r := QualifiersAt(d, p, n, last, count); r.Ok? ==> r.value.1 == p + 24 * n
    decreases n
  {
    if n > 0 && QualifiersAt(d, p, n, last, count).Ok? {
      QualifiersEnd(d, p + 24, n - 1, At64(d, p).value, count + 1);
    }
  }

  // ---- round trip ----

  predicate InOrder(qs: seq<Qualifier>, last: U64) {
    qs == [] || (qs[0].id >= last && InOrder(qs[1..], qs[0].id))
  }

  /** Ids never go down. */
  lemma {:induction false} InOrderMeans(qs: seq<Qualifier>, last: U64)
    ensures InOrder(qs, last) <==>
      && (forall i | 0 <= i < |qs| :: qs[i].id >= last) && (forall i, j | 0 <= i < j < |qs| :: qs[i].id <= qs[j].id)
  {
    if qs != [] {
      InOrderMeans(qs[1..], qs[0].id);
      assert forall i | 1 <= i < |qs| :: qs[i] == qs[1..][i - 1];
    }
  }

  /** What a reader makes of a certificate. */
  function WireCom(c: Com, before: Signature): Com {
    if c.signedBy == 0 then c.(signature := before) else c
  }

  lemma {:induction false} QualifiersRoundTrip(d: Bytes, p: nat, qs: seq<Qualifier>, last: U64, count: nat)
    requires Holds(d, p, All(qs, QualifierBytes)) && |qs| + count <= MAX_QUALIFIERS
    ensures QualifiersAt(d, p, |qs|, last, count)
         == if InOrder(qs, last) then Ok((qs, p + |All(qs, QualifierBytes)|)) else Err(BadEncoding)
    decreases |qs|
  {
    hide Holds, At64, Put;
    if qs != [] {
      var q := qs[0];
      var rest := All(qs[1..], QualifierBytes);
      assert QualifierBytes(q) + rest == Put(q.id, 8) + (Put(q.value, 8) + (Put(q.maxDelta, 8) + rest));
      Next64(d, p, q.id, Put(q.value, 8) + (Put(q.maxDelta, 8) + rest));
      Next64(d, p + 8, q.value, Put(q.maxDelta, 8) + rest);
      Next64(d, p + 16, q.maxDelta, rest);
      QualifiersRoundTrip(d, p + 24, qs[1..], q.id, count + 1);
      assert [Qualifier(q.id, q.value, q.maxDelta)] + qs[1..] == qs;
      assert |All(qs, QualifierBytes)| == 24 + |rest|;
    }
  }

  lemma SignerRoundTrip(d: Bytes, p: nat, c: Com, before: Signature)
    requires Holds(d, p, SignerBytes(c))
    ensures SignerAt(d, p, before) == Ok((c.signedBy, WireCom(c, before).signature, p + |SignerBytes(c)|))
  {
    hide Holds, AddressAt, Buffers.Field, Put;
    NextAddress(d, p, c.signedBy, if c.signedBy != 0 then c.signature else []);
    if c.signedBy != 0 {
      assert c.signature + [] == c.signature;
      NextField(d, p + 5, c.signature, []);
    }
  }

  /** A certificate is read back exactly when its qualifiers are in the order of their ids; the reader
      refuses the others. */
  lemma ComRoundTrip(d: Bytes, p: nat, c: Com, before: Signature)
    requires Holds(d, p, ComBytes(c))
    ensures ComAt(d, p, before)
         == if InOrder(c.qualifiers, 0) then Ok((WireCom(c, before), p + |ComBytes(c)|)) else Err(BadEncoding)
  {
    hide Holds, At16, ByteAt, Put, All, SignerBytes, SignerAt, InOrder, QualifiersAt;
    var qs := All(c.qualifiers, QualifierBytes);
    NextByte(d, p, 1, Put(|c.qualifiers|, 2) + (qs + SignerBytes(c)));
    Next16(d, p + 1, |c.qualifiers|, qs + SignerBytes(c));
    HoldsBoth(d, p + 3, qs, SignerBytes(c));
    QualifiersRoundTrip(d, p + 3, c.qualifiers, 0, 0);
    SignerRoundTrip(d, p + 3 + |qs|, c, before);
  }

  lemma ComLength(c: Com)
    ensures 8 <= |ComBytes(c)| <= 296 && ComBytes(c)[0] == 1
  {
    AllLength(c.qualifiers, QualifierBytes, 24);
  }

  // ---- serialize, deserialize ----

  method SerializeQualifier(b: Buffer, q: Qualifier) returns (r: Outcome)
    requires b.Valid()
    modifies b
    ensures b.Valid()
    ensures r.Done? <==> |old(b.bytes)| + |QualifierBytes(q)| <= b.capacity
    ensures r.Done? ==> b.bytes == old(b.bytes) + QualifierBytes(q)
    ensures old(b.bytes) <= b.bytes
  {
    hide Put;
    ThreeParts(b.bytes, Put(q.id, 8), Put(q.value, 8), Put(q.maxDelta, 8));
    :- b.Append(Put(q.id, 8));
    :- b.Append(Put(q.value, 8));
    :- b.Append(Put(q.maxDelta, 8));
    return Done;
  }

  method SerializeQualifiers(b: Buffer, qs: seq<Qualifier>) returns (r: Outcome)
    requires b.Valid()
    modifies b
    ensures b.Valid()
    ensures r.Done? <==> |old(b.bytes)| + |All(qs, QualifierBytes)| <= b.capacity
    ensures r.Done? ==> b.bytes == old(b.bytes) + All(qs, QualifierBytes)
    ensures old(b.bytes) <= b.bytes
  {
    hide QualifierBytes, All;
    NoQualifiers(qs[..0], b.bytes);
    for i := 0 to |qs|
      invariant b.Valid() && b.bytes == old(b.bytes) + All(qs[..i], QualifierBytes)
    {
      AllNext(qs, i, QualifierBytes);
      assert old(b.bytes) + All(qs[..i], QualifierBytes) + QualifierBytes(qs[i])
        == old(b.bytes) + All(qs[..i + 1], QualifierBytes);
      :- SerializeQualifier(b, qs[i]);
    }
    assert qs[..|qs|] == qs;
    return Done;
  }

  lemma NoQualifiers(none: seq<Qualifier>, s: Bytes)
    requires |none| == 0
    ensures s + All(none, QualifierBytes) == s
  {}

  method Serialize(b: Buffer, c: Com) returns (r: Outcome)
    requires b.Valid()
    modifies b
    ensures b.Valid()
    ensures r.Done? <==> |old(b.bytes)| + |ComBytes(c)| <= b.capacity
    ensures r.Done? ==> b.bytes == old(b.bytes) + ComBytes(c)
    ensures old(b.bytes) <= b.bytes
  {
    hide Put, All, QualifierBytes;
    FiveParts(b.bytes, [1], Put(|c.qualifiers|, 2), All(c.qualifiers, QualifierBytes), Put(c.signedBy, 5),
      if c.signedBy != 0 then c.signature else []);
    :- b.Append([1]);
    :- b.Append(Put(|c.qualifiers|, 2));
    :- SerializeQualifiers(b, c.qualifiers);
    :- b.Append(Put(c.signedBy, 5));
    if c.signedBy != 0 {
      :- b.Append(c.signature);
    }
    return Done;
  }

  /** What is read so far, before what is still to be read. */
  function Behind(qs: seq<Qualifier>, others: Result<(seq<Qualifier>, nat)>): Result<(seq<Qualifier>, nat)> {
    if others.Err? then others else Ok((qs + others.value.0, others.value.1))
  }

  lemma BehindOne(qs: seq<Qualifier>, one: Qualifier, others: Result<(seq<Qualifier>, nat)>)
    ensures Behind(qs + [one], others) == Behind(qs, Behind([one], others))
    ensures Behind([], others) == others
  {
    if others.Ok? {
      assert qs + [one] + others.value.0 == qs + ([one] + others.value.0);
      assert [] + others.value.0 == others.value.0;
    }
  }

  method DeserializeQualifiers(d: Bytes, startAt: nat, numq: nat) returns (r: Result<(seq<Qualifier>, nat)>)
    ensures r == QualifiersAt(d, startAt, numq, 0, 0)
  {
    hide At64;
    var p: nat := startAt;
    var lastId: U64 := 0;
    var qs: seq<Qualifier> := [];
    BehindOne([], Qualifier(0, 0, 0), QualifiersAt(d, p, numq, 0, 0));
    for i := 0 to numq
      invariant |qs| == i
      invariant QualifiersAt(d, startAt, numq, 0, 0) == Behind(qs, QualifiersAt(d, p, numq - i, lastId, |qs|))
    {
      var qid :- At64(d, p);
      if qid < lastId {
        return Err(BadEncoding);
      }
      lastId := qid;
      if |qs| < MAX_QUALIFIERS {
        var value :- At64(d, p + 8);
        var maxDelta :- At64(d, p + 16);
        BehindOne(qs, Qualifier(qid, value, maxDelta), QualifiersAt(d, p + 24, numq - i - 1, qid, |qs| + 1));
        qs := qs + [Qualifier(qid, value, maxDelta)];
        p := p + 24;
      } else {
        return Err(Overflow);
      }
    }
    assert qs + [] == qs;
    return Ok((qs, p));
  }

  /** deserialize, into an object that held before. */
  method Deserialize(d: Bytes, startAt: nat, before: Com) returns (r: Result<(Com, nat)>)
    ensures r == ComAt(d, startAt, before.signature)
  {
    hide At16, ByteAt, AddressAt, Buffers.Field, QualifiersAt;
    var kind :- ByteAt(d, startAt);
    if kind != 1 {
      return Err(InvalidType);
    }
    var numq :- At16(d, startAt + 1);
    var qs :- DeserializeQualifiers(d, startAt + 3, numq);
    var signedBy :- AddressAt(d, qs.1);
    if signedBy != 0 {
      var signature :- Buffers.Field(d, qs.1 + 5, SIGNATURE_LENGTH);
      return Ok((Com(signedBy, qs.0, signature), qs.1 + 5 + SIGNATURE_LENGTH));
    }
    return Ok((Com(0, qs.0, before.signature), qs.1 + 5));
  }
}
