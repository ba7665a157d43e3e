/** Virtual network rules on the wire: a type byte, the length of the field, the field. */
module RuleWire {
  import opened Buffers
  import opened Lists

  type Mac = b: Bytes | |b| == 6 witness seq(6, _ => 0)
  type Ip4 = b: Bytes | |b| == 4 witness seq(4, _ => 0)
  type Ip6 = b: Bytes | |b| == 16 witness seq(16, _ => 0)

  /** The part of a rule's union its type selects. The bucket of a priority rule does not go over the wire. */
  datatype Field =
    | Nothing
    | Bucket(qos: Octet)
    | Forward(address: U64, flags: U32, length: U16)
    | Node(zt: U64)
    | Octet(octet: Octet)
    | Short(short: U16)
    | Hardware(mac: Mac)
    | Network4(ip4: Ip4, mask4: Octet)
    | Network6(ip6: Ip6, mask6: Octet)
    | Three(a: Octet, b: Octet, c: Octet)
    | Range(from: U16, to: U16)
    | Long(long: U64)
    | Word(word: U32)
    | Pair(id: U32, value: U32)
    | Integers(start: U64, end: U32, idx: U16, format: Octet)

  /** Which part a type selects; the two top bits of the type are flags. */
  predicate Fits(t: Octet, f: Field) {
    var k := t % 64;
    if k == 2 || k == 3 || k == 4 then f.Forward? // tee, watch, redirect
    else if k == 6 then f.Bucket? // priority
    else if k == 24 || k == 25 then f.Node? // source, destination
    else if k == 26 || k == 37 then f.Short? // VLAN id, Ethernet type
    else if k == 27 || k == 28 || k == 36 then f.Octet? // VLAN PCP and DEI, IP protocol
    else if k == 29 || k == 30 then f.Hardware?
    else if k == 31 || k == 32 then f.Network4?
    else if k == 33 || k == 34 then f.Network6?
    else if k == 35 || k == 38 then f.Three? // type of service, ICMP
    else if k == 39 || k == 40 || k == 42 then f.Range? // ports, frame size
    else if k == 41 then f.Long? // characteristics
    else if k == 43 then f.Word? // random
    else if 44 <= k <= 50 then f.Pair? // tags
    else if k == 51 then f.Integers?
    else f.Nothing?
  }

  datatype AnyRule = Rule(t: Octet, f: Field)

  type Rule = r: AnyRule | Fits(r.t, r.f) witness Rule(0, Nothing)

  /** Sums of machine words. */
  function Sum64(x: U64, y: U64): U64 { (x + y) % 0x1_0000_0000_0000_0000 }

  function Difference32(x: U64, y: U64): U32 { (x - y) % 0x1_0000_0000_0000_0000 % 0x1_0000_0000 }

  lemma SumAndDifference(start: U64, end: U32)
    ensures Difference32(Sum64(start, end), start) == end
  {
    if start + end >= 0x1_0000_0000_0000_0000 {
      assert Sum64(start, end) == start + end - 0x1_0000_0000_0000_0000;
    }
  }

  /** The bytes of a field, as serializeRules appends them. */
  function FieldBytes(f: Field): Bytes {
    match f
    case Nothing => []
    case Bucket(_) => []
    case Forward(address, flags, length) => Put(address, 8) + (Put(flags, 4) + Put(length, 2))
    case Node(zt) => Put(zt % 0x100_0000_0000, 5)
    case Octet(octet) => [octet]
    case Short(short) => Put(short, 2)
    case Hardware(mac) => mac
    case Network4(ip, mask) => ip + [mask]
    case Network6(ip, mask) => ip + [mask]
    case Three(a, b, c) => [a] + ([b] + [c])
    case Range(from, to) => Put(from, 2) + Put(to, 2)
    case Long(long) => Put(long, 8)
    case Word(word) => Put(word, 4)
    case Pair(id, value) => Put(id, 4) + Put(value, 4)
    case Integers(start, end, idx, format) => Put(start, 8) + (Put(Sum64(start, end), 8) + (Put(idx, 2) + [format]))
  }

  /** The length serializeRules writes for a type. */
  function FieldLength(t: Octet): Octet {
    var k := t % 64;
    if k == 2 || k == 3 || k == 4 then 14
    else if k == 24 || k == 25 then 5
    else if k == 26 || k == 37 then 2
    else if k == 27 || k == 28 || k == 36 then 1
    else if k == 29 || k == 30 then 6
    else if k == 31 || k == 32 then 5
    else if k == 33 || k == 34 then 17
    else if k == 35 || k == 38 then 3
    else if k == 39 || k == 40 || k == 42 then 4
    else if k == 41 then 8
    else if k == 43 then 4
    else if 44 <= k <= 50 then 8
    else if k == 51 then 19
    else 0
  }

  function RuleBytes(r: Rule): Bytes {
    [r.t] + ([FieldLength(r.t)] + FieldBytes(r.f))
  }

  /** The length byte is the length of the field, so a reader that knows no type can still skip it. */
  lemma LengthIsLength(r: Rule)
    ensures |FieldBytes(r.f)| == FieldLength(r.t) && |RuleBytes(r)| == 2 + FieldLength(r.t) <= 21
  {}

  // ---- reading ----

  /** The field of a type, from the bytes at p on, in a rule that was zero; unknown types have none. */
  function FieldAt(d: Bytes, p: nat, t: Octet): (r: Result<Field>)
    ensures r.Ok? ==> Fits(t, r.value)
  {
    var k := t % 64;
    if k == 2 || k == 3 || k == 4 then
      var address :- At64(d, p);
      var flags :- At32(d, p + 8);
      var length :- At16(d, p + 12);
      Ok(Forward(address, flags, length))
    else if k == 6 then
      Ok(Bucket(0))
    else if k == 24 || k == 25 then
      var zt :- AddressAt(d, p);
      Ok(Node(zt))
    else if k == 26 || k == 37 then
      var short :- At16(d, p);
      Ok(Short(short))
    else if k == 27 || k == 28 || k == 36 then
      var octet :- ByteAt(d, p);
      Ok(Field.Octet(octet))
    else if k == 29 || k == 30 then
      var mac :- Buffers.Field(d, p, 6);
      Ok(Hardware(mac))
    else if k == 31 || k == 32 then
      var ip :- Buffers.Field(d, p, 4);
      var mask :- ByteAt(d, p + 4);
      Ok(Network4(ip, mask))
    else if k == 33 || k == 34 then
      var ip :- Buffers.Field(d, p, 16);
      var mask :- ByteAt(d, p + 16);
      Ok(Network6(ip, mask))
    else if k == 35 || k == 38 then
      var a :- ByteAt(d, p);
      var b :- ByteAt(d, p + 1);
      var c :- ByteAt(d, p + 2);
      Ok(Three(a, b, c))
    else if k == 39 || k == 40 || k == 42 then
      var from :- At16(d, p);
      var to :- At16(d, p + 2);
      Ok(Range(from, to))
    else if k == 41 then
      var long :- At64(d, p);
      Ok(Long(long))
    else if k == 43 then
      var word :- At32(d, p);
      Ok(Word(word))
    else if 44 <= k <= 50 then
      var id :- At32(d, p);
      var value :- At32(d, p + 4);
      Ok(Pair(id, value))
    else if k == 51 then
      var start :- At64(d, p);
      var end :- At64(d, p + 8);
      var idx :- At16(d, p + 16);
      var format :- ByteAt(d, p + 18);
      Ok(Integers(start, Difference32(end, start), idx, format))
    else
      Ok(Nothing)
  }

  /** One rule and the position after it, which only the length byte decides. */
  function RuleAt(d: Bytes, p: nat): (r: Result<(Rule, nat)>)
    ensures r.Ok? ==> r.value.1 >= p + 2
  {
    var t :- ByteAt(d, p);
    var length :- ByteAt(d, p + 1);
    var f :- FieldAt(d, p + 2, t);
    Ok((Rule(t, f), p + 2 + length))
  }

  /** Up to n rules, while there are bytes. */
  function RulesAt(d: Bytes, p: nat, n: nat): (r: Result<(seq<Rule>, nat)>)
    ensures r.Ok? ==> |r.value.0| <= n && r.value.1 >= p
    decreases n
  {
    if n == 0 || p >= |d| then Ok(([], p)) else
      var first :- RuleAt(d, p);
      var others :- RulesAt(d, first.1, n - 1);
      Ok(([first.0] + others.0, others.1))
  }

  // ---- what survives ----

  /** What of a rule goes over the wire: addresses have 40 bits, and no bucket is sent. */
  function Wire(r: Rule): (w: Rule)
    ensures w.t == r.t
  {
    if r.f.Node? then Rule(r.t, Node(r.f.zt % 0x100_0000_0000)) else if r.f.Bucket? then Rule(r.t, Bucket(0)) else r
  }

  lemma FieldRoundTrip(d: Bytes, p: nat, r: Rule)
    requires Holds(d, p, FieldBytes(r.f))
    ensures FieldAt(d, p, r.t) == Ok(Wire(r).f)
  {
    hide Holds, At16, At32, At64, AddressAt, ByteAt, Put, Sum64, Difference32;
    assert FieldBytes(r.f) + [] == FieldBytes(r.f);
    match r.f {
      case Nothing =>
      case Bucket(_) =>
      case Forward(address, flags, length) =>
        Next64(d, p, address, Put(flags, 4) + Put(length, 2)); Next32(d, p + 8, flags, Put(length, 2));
        assert Put(length, 2) + [] == Put(length, 2);
        Next16(d, p + 12, length, []);
      case Node(zt) => NextAddress(d, p, zt % 0x100_0000_0000, []);
      case Octet(octet) => NextByte(d, p, octet, []);
      case Short(short) => Next16(d, p, short, []);
      case Hardware(mac) => NextField(d, p, mac, []);
      case Network4(ip, mask) =>
        NextField(d, p, ip, [mask]);
        assert [mask] + [] == [mask];
        NextByte(d, p + 4, mask, []);
      case Network6(ip, mask) =>
        NextField(d, p, ip, [mask]);
        assert [mask] + [] == [mask];
        NextByte(d, p + 16, mask, []);
      case Three(a, b, c) =>
        NextByte(d, p, a, [b] + [c]); NextByte(d, p + 1, b, [c]);
        assert [c] + [] == [c];
        NextByte(d, p + 2, c, []);
      case Range(from, to) =>
        Next16(d, p, from, Put(to, 2));
        assert Put(to, 2) + [] == Put(to, 2);
        Next16(d, p + 2, to, []);
      case Long(long) => Next64(d, p, long, []);
      case Word(word) => Next32(d, p, word, []);
      case Pair(id, value) =>
        Next32(d, p, id, Put(value, 4));
        assert Put(value, 4) + [] == Put(value, 4);
        Next32(d, p + 4, value, []);
      case Integers(start, end, idx, format) =>
        SumAndDifference(start, end);
        Next64(d, p, start, Put(Sum64(start, end), 8) + (Put(idx, 2) + [format]));
        Next64(d, p + 8, Sum64(start, end), Put(idx, 2) + [format]);
        Next16(d, p + 16, idx, [format]);
        assert [format] + [] == [format];
        NextByte(d, p + 18, format, []);
    }
  }

  /** A rule of any known type comes back, and the reader stops behind its last byte. */
  lemma RuleRoundTrip(d: Bytes, p: nat, r: Rule)
    requires Holds(d, p, RuleBytes(r))
    ensures RuleAt(d, p) == Ok((Wire(r), p + |RuleBytes(r)|))
  {
    hide Holds, FieldAt, ByteAt, FieldBytes;
    LengthIsLength(r);
    NextByte(d, p, r.t, [FieldLength(r.t)] + FieldBytes(r.f));
    NextByte(d, p + 1, FieldLength(r.t), FieldBytes(r.f));
    FieldRoundTrip(d, p + 2, r);
  }

  /** Its address, if it has one, has 40 bits, and its bucket, if it has one, is the first. */
  predicate Whole(r: Rule) {
    (r.f.Node? ==> r.f.zt < 0x100_0000_0000) && (r.f.Bucket? ==> r.f.qos == 0)
  }

  /** Exactly then it is the same rule. */
  lemma SameRule(r: Rule)
    ensures Wire(r) == r <==> Whole(r)
  {}

  /** A rule of a type no one knows, or one that has no field, is skipped by its length byte, whatever follows it. */
  lemma UnknownRuleSkipped(d: Bytes, p: nat, t: Octet, field: Bytes)
    requires |field| < 256 && FieldLength(t) == 0 && Holds(d, p, [t] + ([|field|] + field))
    ensures RuleAt(d, p) == Ok((Rule(t, if t % 64 == 6 then Bucket(0) else Nothing), p + 2 + |field|))
  {
    NextByte(d, p, t, [|field|] + field);
    NextByte(d, p + 1, |field|, field);
  }

  lemma {:induction false} RulesRoundTrip(d: Bytes, p: nat, rules: seq<Rule>)
    requires Holds(d, p, All(rules, RuleBytes))
    ensures RulesAt(d, p, |rules|) == Ok((Map(rules, Wire), p + |All(rules, RuleBytes)|))
    decreases |rules|
  {
    hide RuleBytes, Wire, RuleAt;
    if rules != [] {
      HoldsBoth(d, p, RuleBytes(rules[0]), All(rules[1..], RuleBytes));
      LengthIsLength(rules[0]);
      RuleRoundTrip(d, p, rules[0]);
      RulesRoundTrip(d, p + |RuleBytes(rules[0])|, rules[1..]);
    }
  }

  // ---- serializeRules, deserializeRules ----

  method SerializeRule(b: Buffer, rule: Rule) returns (r: Outcome)
    requires b.Valid()
    modifies b
    ensures b.Valid()
    ensures r.Done? <==> |old(b.bytes)| + |RuleBytes(rule)| <= b.capacity
    ensures r.Done? ==> b.bytes == old(b.bytes) + RuleBytes(rule)
    ensures old(b.bytes) <= b.bytes
  {
    hide FieldBytes, FieldLength, Fits;
    ThreeParts(b.bytes, [rule.t], [FieldLength(rule.t)], FieldBytes(rule.f));
    :- b.Append([rule.t]);
    :- b.Append([FieldLength(rule.t)]);
    :- b.Append(FieldBytes(rule.f));
    return Done;
  }

  method SerializeRules(b: Buffer, rules: seq<Rule>) returns (r: Outcome)
    requires b.Valid()
    modifies b
    ensures b.Valid()
    ensures r.Done? <==> |old(b.bytes)| + |All(rules, RuleBytes)| <= b.capacity
    ensures r.Done? ==> b.bytes == old(b.bytes) + All(rules, RuleBytes)
    ensures old(b.bytes) <= b.bytes
  {
    hide RuleBytes, All;
    NoneYet(rules[..0], b.bytes);
    for i := 0 to |rules|
      invariant b.Valid() && b.bytes == old(b.bytes) + All(rules[..i], RuleBytes)
    {
      AllNext(rules, i, RuleBytes);
      assert old(b.bytes) + All(rules[..i], RuleBytes) + RuleBytes(rules[i])
        == old(b.bytes) + All(rules[..i + 1], RuleBytes);
      :- SerializeRule(b, rules[i]);
    }
    assert rules[..|rules|] == rules;
    return Done;
  }

  lemma NoneYet(none: seq<Rule>, s: Bytes)
    requires |none| == 0
    ensures s + All(none, RuleBytes) == s
  {}

  method DeserializeRules(d: Bytes, startAt: nat, maxRuleCount: nat) returns (r: Result<(seq<Rule>, nat)>)
    ensures r == RulesAt(d, startAt, maxRuleCount)
  {
    hide FieldAt, Fits;
    var p: nat := startAt;
    var rules: seq<Rule> := [];
    BehindNone(RulesAt(d, p, maxRuleCount));
    while |rules| < maxRuleCount && p < |d|
      invariant |rules| <= maxRuleCount
      invariant RulesAt(d, startAt, maxRuleCount) == Behind(rules, RulesAt(d, p, maxRuleCount - |rules|))
      decreases maxRuleCount - |rules|
    {
      var t := d[p];
      var fieldLen :- ByteAt(d, p + 1);
      var f :- FieldAt(d, p + 2, t);
      BehindOne(rules, Rule(t, f), RulesAt(d, p + 2 + fieldLen, maxRuleCount - |rules| - 1));
      p := p + 2 + fieldLen;
      rules := rules + [Rule(t, f)];
    }
    assert RulesAt(d, p, maxRuleCount - |rules|) == Ok(([], p));
    assert rules + [] == rules;
    return Ok((rules, p));
  }

  /** What is read so far, before what is still to be read. */
  function Behind(rules: seq<Rule>, others: Result<(seq<Rule>, nat)>): Result<(seq<Rule>, nat)> {
    if others.Err? then others else Ok((rules + others.value.0, others.value.1))
  }

  lemma BehindNone(others: Result<(seq<Rule>, nat)>)
    ensures Behind([], others) == others
  {
    if others.Ok? {
      assert [] + others.value.0 == others.value.0;
    }
  }

  lemma BehindOne(rules: seq<Rule>, one: Rule, others: Result<(seq<Rule>, nat)>)
    ensures Behind(rules + [one], others) == Behind(rules, Behind([one], others))
  {
    if others.Ok? {
      assert rules + [one] + others.value.0 == rules + ([one] + others.value.0);
    }
  }
}
