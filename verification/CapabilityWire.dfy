/** Capabilities on the wire: a header, the rules, and the chain of custody up to its first empty slot. */
module CapabilityWire {
  import opened Buffers
  import opened Lists
  import opened RuleWire

  const MAX_RULES := 64
  const MAX_CUSTODY := 7
  const SIGNATURE_LENGTH := 96

  type Signature = b: Bytes | |b| == SIGNATURE_LENGTH witness seq(SIGNATURE_LENGTH, _ => 0)

  datatype Slot = Slot(to: U40, from: U40, signature: Signature)

  function NoSignature(): (s: Signature)
    ensures forall b | b in s :: b == 0
  {
    seq(SIGNATURE_LENGTH, _ => 0)
  }

  /** A slot of a new capability: all zero. */
  function Empty(): (s: Slot)
    ensures s.to == 0 && s.from == 0 && forall b | b in s.signature :: b == 0
  {
    Slot(0, 0, NoSignature())
  }

  type Custody = s: seq<Slot> | |s| == MAX_CUSTODY witness seq(MAX_CUSTODY, _ => Empty())

  function Unused(): (r: Custody) {
    seq(MAX_CUSTODY, _ => Empty())
  }

  type RuleTable = s: seq<Rule> | |s| <= MAX_RULES

  /** Timestamps are signed words, kept here as the words they are sent as. */
  datatype Capability = Capability(networkId: U64, ts: U64, id: U32, rules: RuleTable, maxChain: Octet,
                                   custody: Custody)

  // ---- writing ----

  function SlotBytes(s: Slot): Bytes {
    Put(s.to, 5) + (Put(s.from, 5) + ([1] + (Put(SIGNATURE_LENGTH, 2) + s.signature)))
  }

  /** Whether slot i belongs to the chain, given that those before it do. */
  predicate Held(c: Capability, i: nat) {
    i < c.maxChain && i < MAX_CUSTODY && c.custody[i].to != 0
  }

  /** The chain from slot i on; a zero address ends it. */
  function ChainBytes(c: Capability, i: nat): Bytes
    requires i <= MAX_CUSTODY
    decreases MAX_CUSTODY - i
  {
    if Held(c, i) then SlotBytes(c.custody[i]) + ChainBytes(c, i + 1) else Put(0, 5)
  }

  function HeaderBytes(c: Capability): Bytes {
    Put(c.networkId, 8) + (Put(c.ts, 8) + (Put(c.id, 4) + Put(|c.rules|, 2)))
  }

  function CapabilityBytes(c: Capability): Bytes {
    HeaderBytes(c) + (All(c.rules, RuleBytes) + ([c.maxChain] + (ChainBytes(c, 0) + Put(0, 2))))
  }

  // ---- reading ----

  /** The bytes of a signature, or of something else that is skipped: then nothing. */
  function SignatureAt(d: Bytes, p: nat): (r: Result<(bool, Signature, nat)>)
    ensures r.Ok? ==> r.value.2 > p
  {
    var kind :- ByteAt(d, p);
    var length :- At16(d, p + 1);
    if kind == 1 then
      if length != SIGNATURE_LENGTH then Err(InvalidToken) else
        var s :- Buffers.Field(d, p + 3, SIGNATURE_LENGTH);
        Ok((true, s, p + 3 + SIGNATURE_LENGTH))
    else
      Ok((false, NoSignature(), p + 3 + length))
  }

  /** One slot after its address. */
  function SlotAt(d: Bytes, p: nat, to: U40): (r: Result<(Slot, nat)>)
    ensures r.Ok? ==> r.value.1 > p
  {
    var from :- AddressAt(d, p);
    var s :- SignatureAt(d, p + 5);
    Ok((Slot(to, from, s.1), s.2))
  }

  /** The chain from slot i on, into the slots. */
  function ChainAt(d: Bytes, p: nat, maxChain: nat, i: nat, slots: Custody): (r: Result<(Custody, nat)>)
    decreases |d| - p
  {
    var to :- AddressAt(d, p);
    if to == 0 then Ok((slots, p + 5))
    else if i >= maxChain || i >= MAX_CUSTODY then Err(Overflow)
    else
      var s :- SlotAt(d, p + 5, to);
      ChainAt(d, s.1, maxChain, i + 1, slots[i := s.0])
  }

  /** The fields after the rules. */
  function TailAt(d: Bytes, p: nat): Result<(Octet, Custody, nat)> {
    var maxChain :- ByteAt(d, p);
    if maxChain < 1 || maxChain > MAX_CUSTODY then Err(Overflow) else
      var chain :- ChainAt(d, p + 1, maxChain, 0, Unused());
      var more :- At16(d, chain.1);
      if chain.1 + 2 + more > |d| then Err(Overflow) else Ok((maxChain, chain.0, chain.1 + 2 + more))
  }

  function CapabilityAt(d: Bytes, p: nat): Result<(Capability, nat)> {
    var networkId :- At64(d, p);
    var ts :- At64(d, p + 8);
    var id :- At32(d, p + 16);
    var rc :- At16(d, p + 20);
    if rc > MAX_RULES then Err(Overflow) else
      var rules :- RulesAt(d, p + 22, rc);
      var tail :- TailAt(d, rules.1);
      Ok((Capability(networkId, ts, id, rules.0, tail.0, tail.1), tail.2))
  }

  // ---- what survives ----

  /** The slots of the chain from i on; the others are as new. */
  function WireChain(c: Capability, i: nat): (r: seq<Slot>)
    requires i <= MAX_CUSTODY
    ensures |r| == MAX_CUSTODY - i
    decreases MAX_CUSTODY - i
  {
    if Held(c, i) then [c.custody[i]] + WireChain(c, i + 1) else seq(MAX_CUSTODY - i, _ => Empty())
  }

  /** What of a capability goes over the wire. */
  function WireCapability(c: Capability): Capability {
    c.(rules := Map(c.rules, RuleWire.Wire), custody := WireChain(c, 0))
  }

  lemma SignatureRoundTrip(d: Bytes, p: nat, s: Signature, rest: Bytes)
    requires Holds(d, p, [1] + (Put(SIGNATURE_LENGTH, 2) + (s + rest)))
    ensures SignatureAt(d, p) == Ok((true, s, p + 99)) && Holds(d, p + 99, rest)
  {
    hide Holds, Put, At16, ByteAt, Buffers.Field;
    NextByte(d, p, 1, Put(SIGNATURE_LENGTH, 2) + (s + rest));
    Next16(d, p + 1, SIGNATURE_LENGTH, s + rest);
    NextField(d, p + 3, s, rest);
  }

  /** Anything but kind 1 is skipped, whatever its length, and kind 1 must have 96 bytes. */
  lemma OtherSignatures(d: Bytes, p: nat, kind: Octet, length: U16, rest: Bytes)
    requires Holds(d, p, [kind] + (Put(length, 2) + rest))
    ensures kind != 1 ==> SignatureAt(d, p) == Ok((false, NoSignature(), p + 3 + length))
    ensures kind == 1 && length != SIGNATURE_LENGTH ==> SignatureAt(d, p) == Err(InvalidToken)
  {
    hide Holds, Put, At16, ByteAt, Buffers.Field, NoSignature;
    NextByte(d, p, kind, Put(length, 2) + rest);
    Next16(d, p + 1, length, rest);
  }

  /** A chain never reaches the slots from maxChain on; where it would, only its end is accepted. */
  lemma {:induction false} ChainWithin(d: Bytes, p: nat, maxChain: nat, i: nat, slots: Custody)
    requires i <= maxChain <= MAX_CUSTODY
    ensures var r := ChainAt(d, p, maxChain, i, slots);
      && (r.Ok? ==> r.value.0[maxChain..] == slots[maxChain..])
      && (i == maxChain && AddressAt(d, p).Ok? ==>
          r == if AddressAt(d, p).value == 0 then Ok((slots, p + 5)) else Err(Overflow))
    decreases maxChain - i
  {
    hide SlotAt, AddressAt;
    var to := AddressAt(d, p);
    if to.Ok? && to.value != 0 && i < maxChain {
      var s := SlotAt(d, p + 5, to.value);
      if s.Ok? {
        ChainWithin(d, s.value.1, maxChain, i + 1, slots[i := s.value.0]);
      }
    }
  }

  lemma SlotBytesThen(s: Slot, rest: Bytes)
    ensures SlotBytes(s) + rest == Put(s.to, 5)
      + (Put(s.from, 5) + ([1] + (Put(SIGNATURE_LENGTH, 2) + (s.signature + rest))))
  {}

  lemma SlotRoundTrip(d: Bytes, p: nat, s: Slot, rest: Bytes)
    requires Holds(d, p, SlotBytes(s) + rest)
    ensures AddressAt(d, p) == Ok(s.to) && SlotAt(d, p + 5, s.to) == Ok((s, p + 109)) && Holds(d, p + 109, rest)
  {
    hide Holds, Put, SlotBytes, AddressAt, SignatureAt;
    SlotBytesThen(s, rest);
    var signed := [1] + (Put(SIGNATURE_LENGTH, 2) + (s.signature + rest));
    NextAddress(d, p, s.to, Put(s.from, 5) + signed);
    NextAddress(d, p + 5, s.from, signed);
    SignatureRoundTrip(d, p + 10, s.signature, rest);
  }

  lemma {:induction false} ChainRoundTrip(d: Bytes, p: nat, c: Capability, i: nat, slots: Custody)
    requires i <= MAX_CUSTODY && Holds(d, p, ChainBytes(c, i))
    requires slots[i..] == seq(MAX_CUSTODY - i, _ => Empty())
    ensures ChainAt(d, p, c.maxChain, i, slots) == Ok((slots[..i] + WireChain(c, i), p + |ChainBytes(c, i)|))
    decreases MAX_CUSTODY - i
  {
    hide Holds, AddressAt, SlotAt, SlotBytes, Put;
    if Held(c, i) {
      var s := c.custody[i];
      SlotRoundTrip(d, p, s, ChainBytes(c, i + 1));
      SlotLength(s);
      assert slots[i := s][i + 1..] == slots[i..][1..];
      ChainRoundTrip(d, p + 109, c, i + 1, slots[i := s]);
      assert slots[i := s][..i + 1] + WireChain(c, i + 1) == slots[..i] + ([s] + WireChain(c, i + 1));
    } else {
      assert Put(0, 5) + [] == Put(0, 5);
      NextAddress(d, p, 0, []);
      assert slots[..i] + slots[i..] == slots;
    }
  }

  lemma SlotLength(s: Slot)
    ensures |SlotBytes(s)| == 109
  {}

  lemma TailRoundTrip(d: Bytes, p: nat, c: Capability)
    requires Holds(d, p, [c.maxChain] + (ChainBytes(c, 0) + Put(0, 2))) && 1 <= c.maxChain <= MAX_CUSTODY
    ensures TailAt(d, p) == Ok((c.maxChain, WireChain(c, 0), p + 1 + |ChainBytes(c, 0)| + 2))
  {
    hide Put, At16, ByteAt, ChainAt, ChainBytes, WireChain;
    NextByte(d, p, c.maxChain, ChainBytes(c, 0) + Put(0, 2));
    HoldsBoth(d, p + 1, ChainBytes(c, 0), Put(0, 2));
    assert Unused()[0..] == Unused();
    ChainRoundTrip(d, p + 1, c, 0, Unused());
    assert Unused()[..0] + WireChain(c, 0) == WireChain(c, 0);
    assert Put(0, 2) + [] == Put(0, 2);
    Next16(d, p + 1 + |ChainBytes(c, 0)|, 0, []);
  }

  lemma BadTail(d: Bytes, p: nat, c: Capability)
    requires Holds(d, p, [c.maxChain] + (ChainBytes(c, 0) + Put(0, 2))) && !(1 <= c.maxChain <= MAX_CUSTODY)
    ensures TailAt(d, p) == Err(Overflow)
  {
    NextByte(d, p, c.maxChain, ChainBytes(c, 0) + Put(0, 2));
  }

  lemma HeaderRoundTrip(d: Bytes, p: nat, c: Capability)
    requires Holds(d, p, HeaderBytes(c))
    ensures At64(d, p) == Ok(c.networkId) && At64(d, p + 8) == Ok(c.ts) && At32(d, p + 16) == Ok(c.id)
    ensures At16(d, p + 20) == Ok(|c.rules|)
  {
    hide Holds, Put, At16, At32, At64;
    Next64(d, p, c.networkId, Put(c.ts, 8) + (Put(c.id, 4) + Put(|c.rules|, 2)));
    Next64(d, p + 8, c.ts, Put(c.id, 4) + Put(|c.rules|, 2));
    Next32(d, p + 16, c.id, Put(|c.rules|, 2));
    assert Put(|c.rules|, 2) + [] == Put(|c.rules|, 2);
    Next16(d, p + 20, |c.rules|, []);
  }

  /**
   * Reading back a capability, wherever its bytes stand and whatever follows them, restores what goes over the wire
   * and stops behind its last byte; a chain length outside 1 to 7 is refused.
   */
  lemma CapabilityRoundTrip(d: Bytes, p: nat, c: Capability)
    requires Holds(d, p, CapabilityBytes(c))
    ensures CapabilityAt(d, p)
         == if 1 <= c.maxChain <= MAX_CUSTODY then Ok((WireCapability(c), p + |CapabilityBytes(c)|)) else Err(Overflow)
  {
    hide Holds, HeaderBytes, At16, At32, At64, All, RulesAt, TailAt, ChainBytes, Put, Map, WireChain;
    var tail := [c.maxChain] + (ChainBytes(c, 0) + Put(0, 2));
    HeaderLength(c);
    HoldsBoth(d, p, HeaderBytes(c), All(c.rules, RuleBytes) + tail);
    HoldsBoth(d, p + 22, All(c.rules, RuleBytes), tail);
    HeaderRoundTrip(d, p, c);
    RulesRoundTrip(d, p + 22, c.rules);
    if 1 <= c.maxChain <= MAX_CUSTODY {
      TailRoundTrip(d, p + 22 + |All(c.rules, RuleBytes)|, c);
    } else {
      BadTail(d, p + 22 + |All(c.rules, RuleBytes)|, c);
    }
  }

  lemma HeaderLength(c: Capability)
    ensures |HeaderBytes(c)| == 22
  {}

  /** The capability comes back whole exactly when its rules do and no slot behind the chain is used. */
  lemma WholeCapability(c: Capability)
    ensures WireCapability(c) == c <==>
      && (forall i | 0 <= i < |c.rules| :: Whole(c.rules[i]))
      && (forall i | 0 <= i < MAX_CUSTODY && !InChain(c, i) :: c.custody[i] == Empty())
  {
    hide InChain, WireChain, Map, Empty;
    WholeRules(c.rules);
    WholeChain(c);
  }

  lemma WholeRules(rules: seq<Rule>)
    ensures Map(rules, RuleWire.Wire) == rules <==> forall i | 0 <= i < |rules| :: Whole(rules[i])
  {
    forall i | 0 <= i < |rules|
      ensures RuleWire.Wire(rules[i]) == rules[i] <==> Whole(rules[i])
    {
      SameRule(rules[i]);
    }
    hide RuleWire.Wire, Map;
    assert Map(rules, RuleWire.Wire) == rules <==> forall i | 0 <= i < |rules| :: RuleWire.Wire(rules[i]) == rules[i];
  }

  lemma WholeChain(c: Capability)
    ensures WireChain(c, 0) == c.custody <==> forall i | 0 <= i < MAX_CUSTODY && !InChain(c, i) ::
      c.custody[i] == Empty()
  {
    hide InChain, WireChain, Empty;
    forall k | 0 <= k < MAX_CUSTODY {
      WireChainAt(c, 0, k);
    }
    assert WireChain(c, 0) == c.custody <==> forall i | 0 <= i < MAX_CUSTODY :: WireChain(c, 0)[i - 0] == c.custody[i];
  }

  /** Slot i and all slots before it are held. */
  ghost predicate InChain(c: Capability, i: nat) {
    forall j | 0 <= j <= i :: Held(c, j)
  }

  lemma {:induction false} WireChainAt(c: Capability, i: nat, k: nat)
    requires i <= k < MAX_CUSTODY && forall j | 0 <= j < i :: Held(c, j)
    ensures WireChain(c, i)[k - i] == if InChain(c, k) then c.custody[k] else Empty()
    decreases k - i
  {
    hide Held, Empty;
    if Held(c, i) && i < k {
      WireChainAt(c, i + 1, k);
      assert WireChain(c, i)[k - i] == WireChain(c, i + 1)[k - (i + 1)];
    } else if !Held(c, i) {
      assert !InChain(c, k);
    }
  }

  // ---- sizes ----

  lemma {:induction false} ChainLength(c: Capability, i: nat)
    requires i <= MAX_CUSTODY
    ensures |ChainBytes(c, i)| <= 109 * (MAX_CUSTODY - i) + 5
    decreases MAX_CUSTODY - i
  {
    if Held(c, i) {
      SlotLength(c.custody[i]);
      ChainLength(c, i + 1);
    }
  }

  /** No capability takes more than 2137 bytes. */
  lemma CapabilityLength(c: Capability)
    ensures 30 <= |CapabilityBytes(c)| <= 2137
  {
    hide RuleBytes, ChainBytes;
    forall r | r in c.rules
      ensures |RuleBytes(r)| <= 21
    {
      LengthIsLength(r);
    }
    AllLength(c.rules, RuleBytes, 21);
    ChainLength(c, 0);
    ChainNotEmpty(c, 0);
  }

  lemma ChainNotEmpty(c: Capability, i: nat)
    requires i <= MAX_CUSTODY
    ensures |ChainBytes(c, i)| >= 5
  {}

  // ---- serialize, deserialize ----

  method SerializeSlot(b: Buffer, s: Slot) returns (r: Outcome)
    requires b.Valid()
    modifies b
    ensures b.Valid()
    ensures r.Done? <==> |old(b.bytes)| + |SlotBytes(s)| <= b.capacity
    ensures r.Done? ==> b.bytes == old(b.bytes) + SlotBytes(s)
    ensures old(b.bytes) <= b.bytes
  {
    hide Put;
    FiveParts(b.bytes, Put(s.to, 5), Put(s.from, 5), [1], Put(SIGNATURE_LENGTH, 2), s.signature);
    :- b.Append(Put(s.to, 5));
    :- b.Append(Put(s.from, 5));
    :- b.Append([1]);
    :- b.Append(Put(SIGNATURE_LENGTH, 2));
    :- b.Append(s.signature);
    return Done;
  }

  method SerializeChain(b: Buffer, c: Capability) returns (r: Outcome)
    requires b.Valid()
    modifies b
    ensures b.Valid()
    ensures r.Done? <==> |old(b.bytes)| + |ChainBytes(c, 0)| <= b.capacity
    ensures r.Done? ==> b.bytes == old(b.bytes) + ChainBytes(c, 0)
    ensures old(b.bytes) <= b.bytes
  {
    hide SlotBytes, Put;
    var i: nat := 0;
    while true
      invariant b.Valid() && i <= MAX_CUSTODY
      invariant old(b.bytes) <= b.bytes && b.bytes + ChainBytes(c, i) == old(b.bytes) + ChainBytes(c, 0)
      decreases MAX_CUSTODY - i
    {
      ghost var was := b.bytes;
      if i < c.maxChain && i < MAX_CUSTODY && c.custody[i].to != 0 {
        assert was + ChainBytes(c, i) == was + SlotBytes(c.custody[i]) + ChainBytes(c, i + 1);
        LengthsAdd(was, ChainBytes(c, i), old(b.bytes), ChainBytes(c, 0));
        :- SerializeSlot(b, c.custody[i]);
      } else {
        LengthsAdd(was, ChainBytes(c, i), old(b.bytes), ChainBytes(c, 0));
        :- b.Append(Put(0, 5));
        break;
      }
      i := i + 1;
    }
    return Done;
  }

  lemma LengthsAdd(a: Bytes, b: Bytes, c: Bytes, d: Bytes)
    requires a + b == c + d
    ensures |a| + |b| == |c| + |d|
  {}

  method SerializeHeader(b: Buffer, c: Capability) returns (r: Outcome)
    requires b.Valid()
    modifies b
    ensures b.Valid()
    ensures r.Done? <==> |old(b.bytes)| + |HeaderBytes(c)| <= b.capacity
    ensures r.Done? ==> b.bytes == old(b.bytes) + HeaderBytes(c)
    ensures old(b.bytes) <= b.bytes
  {
    hide Put;
    FourParts(b.bytes, Put(c.networkId, 8), Put(c.ts, 8), Put(c.id, 4), Put(|c.rules|, 2));
    :- b.Append(Put(c.networkId, 8));
    :- b.Append(Put(c.ts, 8));
    :- b.Append(Put(c.id, 4));
    :- b.Append(Put(|c.rules|, 2));
    return Done;
  }

  method Serialize(b: Buffer, c: Capability) returns (r: Outcome)
    requires b.Valid()
    modifies b
    ensures b.Valid()
    ensures r.Done? <==> |old(b.bytes)| + |CapabilityBytes(c)| <= b.capacity
    ensures r.Done? ==> b.bytes == old(b.bytes) + CapabilityBytes(c)
    ensures old(b.bytes) <= b.bytes
  {
    hide Put, HeaderBytes, All, ChainBytes, RuleBytes;
    FiveParts(b.bytes, HeaderBytes(c), All(c.rules, RuleBytes), [c.maxChain], ChainBytes(c, 0), Put(0, 2));
    :- SerializeHeader(b, c);
    :- SerializeRules(b, c.rules);
    :- b.Append([c.maxChain]);
    :- SerializeChain(b, c);
    :- b.Append(Put(0, 2));
    return Done;
  }

  method DeserializeChain(d: Bytes, startAt: nat, maxChain: nat) returns (r: Result<(Custody, nat)>)
    ensures r == ChainAt(d, startAt, maxChain, 0, Unused())
  {
    hide AddressAt, SlotAt;
    var custody := Unused();
    var p: nat := startAt;
    var i: nat := 0;
    while true
      invariant ChainAt(d, startAt, maxChain, 0, Unused()) == ChainAt(d, p, maxChain, i, custody)
      decreases |d| - p
    {
      var to :- AddressAt(d, p);
      if to == 0 {
        return Ok((custody, p + 5));
      }
      if i >= maxChain || i >= MAX_CUSTODY {
        return Err(Overflow);
      }
      AddressWithin(d, p);
      var s :- SlotAt(d, p + 5, to);
      custody := custody[i := s.0];
      p := s.1;
      i := i + 1;
    }
  }

  lemma AddressWithin(d: Bytes, p: nat)
    requires AddressAt(d, p).Ok?
    ensures p + 5 <= |d|
  {}

  method Deserialize(d: Bytes, startAt: nat) returns (r: Result<(Capability, nat)>)
    ensures r == CapabilityAt(d, startAt)
  {
    hide At16, At32, At64, ByteAt, RulesAt, ChainAt;
    var networkId :- At64(d, startAt);
    var ts :- At64(d, startAt + 8);
    var id :- At32(d, startAt + 16);
    var rc :- At16(d, startAt + 20);
    if rc > MAX_RULES {
      return Err(Overflow);
    }
    var rules :- DeserializeRules(d, startAt + 22, rc);
    var p: nat := rules.1;
    var maxChain :- ByteAt(d, p);
    if maxChain < 1 || maxChain > MAX_CUSTODY {
      return Err(Overflow);
    }
    var chain :- DeserializeChain(d, p + 1, maxChain);
    p := chain.1;
    var more :- At16(d, p);
    p := p + 2 + more;
    if p > |d| {
      return Err(Overflow);
    }
    return Ok((Capability(networkId, ts, id, rules.0, maxChain, chain.0), p));
  }
}
