/** The handler of a packet of credentials: it reads them one by one and hands each to its network as it goes. */
module CredentialReceiver {
  import opened Buffers
  import opened Lists
  import opened CapabilityWire
  import opened MembershipWire
  import opened CertificateWire
  import opened CredentialPackets
  import opened CredentialPush

  /** What a network answers to a credential. */
  datatype Answer = Rejected | New | Redundant | Deferred

  /** The networks this node has joined, and their answers, which depend on what has been handed over before. */
  datatype Node = Node(joined: U64 -> bool, answer: (seq<Credential>, Credential) -> Answer)

  /** What a handler has done so far. */
  datatype Progress = Progress(handed: seq<Credential>, trusted: bool, deferred: bool)

  function ComNetwork(qs: seq<Qualifier>): U64 {
    if qs == [] then 0 else if qs[0].id == 1 then qs[0].value else ComNetwork(qs[1..])
  }

  /** The first qualifier with id 1 names the network; without one it is 0. */
  lemma {:induction false} ComNetworkIs(qs: seq<Qualifier>)
    ensures (forall q | q in qs :: q.id != 1) ==> ComNetwork(qs) == 0
    ensures forall i | 0 <= i < |qs| && qs[i].id == 1 && forall j | 0 <= j < i :: qs[j].id != 1 ::
      ComNetwork(qs) == qs[i].value
  {
    if qs != [] && qs[0].id != 1 {
      ComNetworkIs(qs[1..]);
    }
  }

  function NetworkOf(c: Credential): U64 {
    match c
    case Cap(capability) => capability.networkId
    case Tagged(tag) => tag.networkId
    case Revoked(revocation) => revocation.networkId
    case Owned(coo) => coo.networkId
    case Member(com) => ComNetwork(com.qualifiers)
  }

  /** Credentials are handed to their network if there is one; empty certificates of membership are not looked at. */
  predicate Handed(c: Credential, node: Node) {
    (c.Member? ==> c.com.Present()) && node.joined(NetworkOf(c))
  }

  /** Which network a credential goes to, kind by kind, and that this node must have joined it. */
  lemma HandedMeans(c: Credential, node: Node)
    ensures c.Cap? ==> (Handed(c, node) <==> node.joined(c.capability.networkId))
    ensures c.Tagged? ==> (Handed(c, node) <==> node.joined(c.tag.networkId))
    ensures c.Revoked? ==> (Handed(c, node) <==> node.joined(c.revocation.networkId))
    ensures c.Owned? ==> (Handed(c, node) <==> node.joined(c.coo.networkId))
    ensures c.Member? ==>
      (Handed(c, node) <==> c.com.qualifiers != [] && node.joined(ComNetwork(c.com.qualifiers)))
  {}

  function Step(s: Progress, c: Credential, node: Node): Progress {
    if s.deferred || !Handed(c, node) then s else
      var a := node.answer(s.handed, c);
      Progress(s.handed + [c], s.trusted || a.New? || a.Redundant?, a.Deferred?)
  }

  /** The credentials one after the other, until a network defers. */
  function Steps(s: Progress, cs: seq<Credential>, node: Node): Progress
    decreases |cs|
  {
    if cs == [] then s else Steps(Step(s, cs[0], node), cs[1..], node)
  }

  lemma {:induction false} StepsJoined(s: Progress, a: seq<Credential>, b: seq<Credential>, node: Node)
    ensures Steps(s, a + b, node) == Steps(Steps(s, a, node), b, node)
    decreases |a|
  {
    if a == [] {
      assert a + b == b;
    } else {
      StepsJoined(Step(s, a[0], node), a[1..], b, node);
      assert (a + b)[1..] == a[1..] + b;
    }
  }

  lemma {:induction false} DeferredStays(s: Progress, cs: seq<Credential>, node: Node)
    requires s.deferred
    ensures Steps(s, cs, node) == s
  {
    if cs != [] {
      DeferredStays(s, cs[1..], node);
    }
  }

  function Filter(cs: seq<Credential>, node: Node): seq<Credential> {
    if cs == [] then [] else (if Handed(cs[0], node) then [cs[0]] else []) + Filter(cs[1..], node)
  }

  /** Some credential of cs, handed over after those before it and after h, was accepted. */
  ghost predicate Accepted(h: seq<Credential>, cs: seq<Credential>, node: Node) {
    exists i :: 0 <= i < |cs| && (node.answer(h + cs[..i], cs[i]).New? || node.answer(h + cs[..i], cs[i]).Redundant?)
  }

  ghost predicate NeverDefers(node: Node) {
    forall h, c :: node.answer(h, c) != Deferred
  }

  /** No credential of cs is deferred when they are handed over one after the other after h. */
  ghost predicate Undeferred(h: seq<Credential>, cs: seq<Credential>, node: Node) {
    forall i | 0 <= i < |cs| :: node.answer(h + cs[..i], cs[i]) != Deferred
  }

  lemma AcceptedFirst(h: seq<Credential>, c: Credential, cs: seq<Credential>, node: Node)
    ensures Accepted(h, [c] + cs, node) <==>
      node.answer(h, c).New? || node.answer(h, c).Redundant? || Accepted(h + [c], cs, node)
    ensures Undeferred(h, [c] + cs, node) <==> node.answer(h, c) != Deferred && Undeferred(h + [c], cs, node)
  {
    var all := [c] + cs;
    assert h + all[..0] == h;
    forall i | 0 <= i < |cs|
      ensures h + all[..i + 1] == h + [c] + cs[..i] && all[i + 1] == cs[i]
    {
    }
    assert all[0] == c;
    assert forall i | 1 <= i < |all| :: h + all[..i] == h + [c] + cs[..i - 1] && all[i] == cs[i - 1];
  }

  /** Without deferrals every credential with a network is handed over, and one accepted credential
      is enough for trust. */
  lemma {:induction false} AllHanded(s: Progress, cs: seq<Credential>, node: Node)
    requires !s.deferred && Undeferred(s.handed, Filter(cs, node), node)
    ensures var t := Steps(s, cs, node);
      && !t.deferred && t.handed == s.handed + Filter(cs, node)
      && (t.trusted <==> s.trusted || Accepted(s.handed, Filter(cs, node), node))
    decreases |cs|
  {
    hide Handed, Accepted, Undeferred;
    if cs == [] {
      assert s.handed + [] == s.handed;
      NothingAccepted(s.handed, node);
    } else if Handed(cs[0], node) {
      AcceptedFirst(s.handed, cs[0], Filter(cs[1..], node), node);
      AllHanded(Step(s, cs[0], node), cs[1..], node);
      assert s.handed + [cs[0]] + Filter(cs[1..], node) == s.handed + ([cs[0]] + Filter(cs[1..], node));
    } else {
      assert [] + Filter(cs[1..], node) == Filter(cs[1..], node);
      AllHanded(s, cs[1..], node);
    }
  }

  lemma NothingDeferred(h: seq<Credential>, cs: seq<Credential>, node: Node)
    requires NeverDefers(node)
    ensures Undeferred(h, cs, node)
  {}

  lemma NothingAccepted(h: seq<Credential>, node: Node)
    ensures !Accepted(h, [], node)
  {}

  /** A deferral ends the handing at the deferred credential. */
  lemma {:induction false} HandedUntilDeferral(s: Progress, cs: seq<Credential>, i: nat, node: Node)
    requires i < |cs| && !s.deferred && Handed(cs[i], node)
    requires Undeferred(s.handed, Filter(cs[..i], node), node)
    requires node.answer(s.handed + Filter(cs[..i], node), cs[i]).Deferred?
    ensures Steps(s, cs, node).deferred && Steps(s, cs, node).handed == s.handed + Filter(cs[..i], node) + [cs[i]]
  {
    AllHanded(s, cs[..i], node);
    var t := Steps(s, cs[..i], node);
    StepsJoined(s, cs[..i], cs[i..], node);
    assert cs == cs[..i] + cs[i..];
    DeferredStays(Step(t, cs[i], node), cs[i..][1..], node);
  }

  datatype Current = NoNetwork | Network(id: U64)

  class Receiver {
    const node: Node
    var progress: Progress
    /** The network of the credential before, if this node has joined it. */
    var network: Current

    ghost predicate Valid()
      reads this
    {
      network.Network? ==> node.joined(network.id)
    }

    constructor (node: Node)
      ensures Valid() && this.node == node && progress == Progress([], false, false)
    {
      this.node := node;
      progress := Progress([], false, false);
      network := NoNetwork;
    }

    /** addCredential of the current network, if there is one. */
    method Add(c: Credential)
      requires Valid() && !progress.deferred
      modifies this`progress
      ensures progress == if network.Network?
        then Progress(
            old(progress).handed + [c],
            old(progress).trusted || node.answer(old(progress).handed, c).New?
              || node.answer(old(progress).handed, c).Redundant?,
            node.answer(old(progress).handed, c).Deferred?)
        else old(progress)
    {
      if network.Network? {
        match node.answer(progress.handed, c) {
          case Rejected =>
          case New => progress := progress.(trusted := true);
          case Redundant => progress := progress.(trusted := true);
          case Deferred => progress := progress.(deferred := true);
        }
        progress := progress.(handed := progress.handed + [c]);
      }
    }

    /** A certificate of membership always looks its network up. */
    method HandCom(c: Com)
      requires Valid() && !progress.deferred
      modifies this
      ensures Valid() && progress == Step(old(progress), Member(c), node)
    {
      if c.Present() {
        network := if node.joined(ComNetwork(c.qualifiers)) then Network(ComNetwork(c.qualifiers)) else NoNetwork;
        Add(Member(c));
      }
    }

    /** The others look it up when it is not the current one. */
    method Hand(c: Credential)
      requires Valid() && !progress.deferred && !c.Member?
      modifies this
      ensures Valid() && progress == Step(old(progress), c, node)
    {
      if network.NoNetwork? || network.id != NetworkOf(c) {
        network := if node.joined(NetworkOf(c)) then Network(NetworkOf(c)) else NoNetwork;
      }
      Add(c);
    }

    method ReceiveComs(d: Bytes, before: Com) returns (r: Result<nat>)
      requires Valid() && !progress.deferred
      modifies this
      ensures Valid() && progress == Steps(old(progress), ComsTrace(d, PAYLOAD, before.signature).found, node)
      ensures !progress.deferred ==> r == ComsTrace(d, PAYLOAD, before.signature).end
    {
      hide Step, ComAt;
      var p: nat := PAYLOAD;
      var com := before;
      ghost var all := ComsTrace(d, p, com.signature);
      while p < |d| && d[p] != 0
        invariant Valid() && !progress.deferred
        invariant all.end == ComsTrace(d, p, com.signature).end
        invariant Steps(old(progress), all.found, node) == Steps(progress, ComsTrace(d, p, com.signature).found, node)
        decreases |d| - p
      {
        var c :- MembershipWire.Deserialize(d, p, com);
        ghost var rest := ComsTrace(d, c.1, c.0.signature).found;
        assert ComsTrace(d, p, com.signature).found == [Member(c.0)] + rest;
        assert ([Member(c.0)] + rest)[1..] == rest;
        com := c.0;
        p := c.1;
        HandCom(com);
        if progress.deferred {
          DeferredStays(progress, rest, node);
          return Ok(p);
        }
      }
      return Ok(p);
    }

    method DeserializeOne(d: Bytes, p: nat, k: nat) returns (r: Result<(Credential, nat)>)
      requires k < 4
      ensures r == CredentialAt(d, p, k)
      ensures r.Ok? ==> !r.value.0.Member?
    {
      hide CapabilityAt, CooAt, TagAt, RevocationAt;
      if k == 0 {
        var c :- CapabilityWire.Deserialize(d, p);
        return Ok((Cap(c.0), c.1));
      } else if k == 1 {
        var c :- TagAt(d, p);
        return Ok((Tagged(c.0), c.1));
      } else if k == 2 {
        var c :- RevocationAt(d, p);
        return Ok((Revoked(c.0), c.1));
      } else {
        var c :- DeserializeCoo(d, p);
        return Ok((Owned(c.0), c.1));
      }
    }

    /** One counted loop; the four of them differ in the kind of credential only. */
    method ReceiveSection(d: Bytes, startAt: nat, k: nat) returns (r: Result<nat>)
      requires Valid() && !progress.deferred && k < 4
      modifies this
      ensures Valid() && progress == Steps(old(progress), SectionTrace(d, startAt, k).found, node)
      ensures !progress.deferred ==> r == SectionTrace(d, startAt, k).end
    {
      hide Step, CredentialAt, At16;
      var n :- At16(d, startAt);
      var p: nat := startAt + 2;
      ghost var all := ItemsTrace(d, p, n, k);
      for i := 0 to n
        invariant Valid() && !progress.deferred
        invariant all.end == ItemsTrace(d, p, n - i, k).end
        invariant Steps(old(progress), all.found, node) == Steps(progress, ItemsTrace(d, p, n - i, k).found, node)
      {
        var c :- DeserializeOne(d, p, k);
        ghost var rest := ItemsTrace(d, c.1, n - i - 1, k).found;
        assert ItemsTrace(d, p, n - i, k).found == [c.0] + rest;
        assert ([c.0] + rest)[1..] == rest;
        p := c.1;
        Hand(c.0);
        if progress.deferred {
          DeferredStays(progress, rest, node);
          return Ok(p);
        }
      }
      return Ok(p);
    }

    /**
     * The whole handler. Handing credentials over while reading is the same as reading the packet
     * first and then handing over what was found, up to a deferral; what comes before an error has been
     * handed over all the same.
     */
    method Receive(d: Bytes, before: Com) returns (end: End)
      requires Valid() && !progress.deferred
      modifies this
      ensures Valid() && progress == Steps(old(progress), PacketReading(d, before.signature).found, node)
      ensures !progress.deferred ==> end == PacketReading(d, before.signature).end
    {
      hide Steps, ComsTrace, SectionsReading;
      ghost var start := progress;
      var coms := ReceiveComs(d, before);
      ghost var t := ComsTrace(d, PAYLOAD, before.signature);
      if progress.deferred {
        ghost var rest := if t.end.Ok? then SectionsReading(d, t.end.value + 1, 0).found else [];
        StepsJoined(start, t.found, rest, node);
        DeferredStays(progress, rest, node);
        assert t.found + [] == t.found;
        return Whole;
      }
      if coms.Err? {
        return Bad(coms.error);
      }
      StepsJoined(start, t.found, SectionsReading(d, coms.value + 1, 0).found, node);
      end := ReceiveSections(d, coms.value + 1);
    }

    method ReceiveSections(d: Bytes, startAt: nat) returns (end: End)
      requires Valid() && !progress.deferred
      modifies this
      ensures Valid() && progress == Steps(old(progress), SectionsReading(d, startAt, 0).found, node)
      ensures !progress.deferred ==> end == SectionsReading(d, startAt, 0).end
    {
      hide SectionTrace, Step;
      ghost var start := progress;
      var p: nat := startAt;
      var k := 0;
      ghost var all := SectionsReading(d, startAt, 0);
      while k < 4
        invariant Valid() && !progress.deferred && k <= 4
        invariant all.end == SectionsReading(d, p, k).end
        invariant Steps(start, all.found, node) == Steps(progress, SectionsReading(d, p, k).found, node)
      {
        if p >= |d| {
          return if k == 0 then Whole else Short;
        }
        ghost var t := SectionTrace(d, p, k);
        ghost var rest := if t.end.Ok? then SectionsReading(d, t.end.value, k + 1).found else [];
        StepsJoined(progress, t.found, rest, node);
        assert t.found + [] == t.found;
        var r := ReceiveSection(d, p, k);
        if progress.deferred {
          DeferredStays(progress, rest, node);
          return Whole;
        }
        if r.Err? {
          return Bad(r.error);
        }
        p := r.value;
        k := k + 1;
      }
      return Whole;
    }
  }

  lemma {:induction false} SelectFilter(cs: seq<Credential>, node: Node, k: nat)
    ensures Select(Filter(cs, node), k) == Filter(Select(cs, k), node)
  {
    if cs != [] {
      hide Handed, Kind;
      SelectFilter(cs[1..], node, k);
      var first := if Handed(cs[0], node) then [cs[0]] else [];
      SelectJoined(first, Filter(cs[1..], node), k);
      assert first != [] ==> first[1..] == [];
      var chosen := if Kind(cs[0]) == k then [cs[0]] else [];
      FilterJoined(chosen, Select(cs[1..], k), node);
      assert chosen != [] ==> chosen[1..] == [];
    }
  }

  lemma FilterFirst(c: Credential, cs: seq<Credential>, node: Node)
    ensures Filter([c] + cs, node) == (if Handed(c, node) then [c] else []) + Filter(cs, node)
  {
    assert ([c] + cs)[1..] == cs;
  }

  lemma {:induction false} FilterJoined(a: seq<Credential>, b: seq<Credential>, node: Node)
    ensures Filter(a + b, node) == Filter(a, node) + Filter(b, node)
    decreases |a|
  {
    if a == [] {
      assert a + b == b;
    } else {
      FilterFirst(a[0], a[1..] + b, node);
      FilterFirst(a[0], a[1..], node);
      FilterJoined(a[1..], b, node);
      hide Handed, Filter;
      assert a + b == [a[0]] + (a[1..] + b) && a == [a[0]] + a[1..];
      var first := if Handed(a[0], node) then [a[0]] else [];
      assert first + Filter(a[1..], node) + Filter(b, node) == first + (Filter(a[1..], node) + Filter(b, node));
    }
  }

  method ReceiveOne(d: Bytes, peer: Receiver, before: Com) returns (ghost more: seq<Credential>)
    requires peer.Valid() && !peer.progress.deferred && NeverDefers(peer.node)
    modifies peer
    ensures peer.Valid() && !peer.progress.deferred && peer.progress.handed == old(peer.progress.handed) + more
    ensures more == Filter(PacketReading(d, before.signature).found, peer.node)
  {
    hide PacketReading, Filter, Steps, NeverDefers, Undeferred, Accepted;
    ghost var found := PacketReading(d, before.signature).found;
    more := Filter(found, peer.node);
    NothingDeferred(peer.progress.handed, more, peer.node);
    AllHanded(peer.progress, found, peer.node);
    var end := peer.Receive(d, before);
  }

  method ReceivePackets(packets: seq<Bytes>, peer: Receiver, before: Com) returns (ghost handed: seq<Credential>)
    requires peer.Valid() && !peer.progress.deferred && NeverDefers(peer.node)
    modifies peer
    ensures peer.progress.handed == old(peer.progress.handed) + handed
    ensures handed == Filter(FoundIn(packets, before.signature), peer.node)
  {
    hide PacketReading, Filter, FoundIn, NeverDefers;
    handed := [];
    NothingHanded(peer.node);
    for i := 0 to |packets|
      invariant peer.Valid() && !peer.progress.deferred
      invariant peer.progress.handed == old(peer.progress.handed) + handed
      invariant handed == Filter(FoundIn(packets[..i], before.signature), peer.node)
    {
      ghost var more;
      more := ReceiveOne(packets[i], peer, before);
      FoundNext(packets, i, before.signature);
      FilterJoined(FoundIn(packets[..i], before.signature),
        PacketReading(packets[i], before.signature).found, peer.node);
      assert old(peer.progress.handed) + handed + more == old(peer.progress.handed) + (handed + more);
      handed := handed + more;
    }
    assert packets[..|packets|] == packets;
  }

  /**
   * From one node to another: a peer that defers nothing hands to its networks exactly the credentials of the
   * configuration whose networks it has joined, kind by kind, each once and in order.
   */
  method PushToPeer(cfg: Config, headers: nat -> Header, peer: Receiver, before: Com)
    returns (ghost handed: seq<Credential>)
    requires cfg.Valid() && cfg.AllReadable() && peer.Valid() && !peer.progress.deferred
    requires NeverDefers(peer.node)
    modifies peer
    ensures peer.progress.handed == old(peer.progress.handed) + handed
    ensures Select(handed, 0) == Filter(Map(cfg.caps, Wire), peer.node)
    ensures Select(handed, 1) == Filter(Map(cfg.tags, Wire), peer.node)
    ensures Select(handed, 3) == Filter(Map(cfg.coos, Wire), peer.node)
    ensures Select(handed, 4) == Filter(Coms(cfg.ToSend(), before.signature), peer.node)
  {
    hide PacketReading, Map, Coms, Select, Wire, Filter, OfKind, FoundIn;
    var packets := PushAndRead(cfg, headers, before.signature);
    handed := ReceivePackets(packets, peer, before);
    forall k: nat {
      SelectFilter(FoundIn(packets, before.signature), peer.node, k);
    }
  }

  lemma NothingHanded(node: Node)
    ensures Filter([], node) == [] && forall s: Signature, none: seq<Bytes> | none == [] :: FoundIn(none, s) == []
  {}

  lemma FoundNext(packets: seq<Bytes>, i: nat, before: Signature)
    requires i < |packets|
    ensures FoundIn(packets[..i + 1], before) == FoundIn(packets[..i], before) + PacketReading(packets[i], before).found
  {
    hide PacketReading;
    assert packets[..i + 1][..i] == packets[..i];
  }
}
