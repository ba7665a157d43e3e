/** The credential database as the source updates it: tables that change in place, against the steps of Credentials. */
module Memberships {
  import opened Credentials
  import opened Options
  import HashTables

  /** What a peer may own. */
  type Ip6 = b: seq<int> | |b| == 16 witness seq(16, _ => 0)
  datatype Resource = Mac(mac: seq<int>) | Ip4(ip4: seq<int>) | IpSix(ip6: Ip6)

  /** Emulated neighbour discovery: whether it is on, the static addresses of the member, and the two addresses its
      identity gives it. */
  datatype Emulation = Emulation(on: bool, staticIps: seq<Resource>, sixPlane: Ip6, rfc4193: Ip6)

  /** An own address is assigned, and the resource shares its first n bytes. */
  predicate Inside(staticIps: seq<Resource>, own: Ip6, ip: Ip6, n: nat)
    requires n <= 16
  {
    IpSix(own) in staticIps && ip[..n] == own[..n]
  }

  predicate Emulated(e: Emulation, r: Resource) {
    r.IpSix? && e.on && (Inside(e.staticIps, e.sixPlane, r.ip6, 5) || Inside(e.staticIps, e.rfc4193, r.ip6, 11))
  }

  /** One of the two loops of _isV6NDPEmulated: it stops at the first static address that is the own one. */
  method IsInside(staticIps: seq<Resource>, own: Ip6, ip: Ip6, n: nat) returns (r: bool)
    requires n <= 16
    ensures r == Inside(staticIps, own, ip, n)
    ensures r <==> IpSix(own) in staticIps && forall j | 0 <= j < n :: ip[j] == own[j]
  {
    for i := 0 to |staticIps|
      invariant IpSix(own) !in staticIps[..i]
    {
      assert staticIps[..i + 1] == staticIps[..i] + [staticIps[i]];
      if staticIps[i] == IpSix(own) {
        for j := 0 to n
          invariant ip[..j] == own[..j]
        {
          if ip[j] != own[j] {
            assert ip[..n][j] != own[..n][j];
            return false;
          }
          assert ip[..j + 1] == ip[..j] + [ip[j]] && own[..j + 1] == own[..j] + [own[j]];
        }
        return true;
      }
    }
    assert staticIps[..|staticIps|] == staticIps;
    return false;
  }

  method IsV6NdpEmulated(e: Emulation, resource: Resource) returns (r: bool)
    ensures r == Emulated(e, resource)
    // the first 40 bits of the one own address or the first 88 of the other, if it is assigned
    ensures r ==> e.on && resource.IpSix?
    ensures e.on && resource.IpSix? ==> (r <==>
      || (IpSix(e.sixPlane) in e.staticIps && forall j | 0 <= j < 5 :: resource.ip6[j] == e.sixPlane[j])
      || (IpSix(e.rfc4193) in e.staticIps && forall j | 0 <= j < 11 :: resource.ip6[j] == e.rfc4193[j]))
  {
    if resource.IpSix? && e.on {
      r := IsInside(e.staticIps, e.sixPlane, resource.ip6, 5);
      if r {
        return;
      }
      r := IsInside(e.staticIps, e.rfc4193, resource.ip6, 11);
      return;
    }
    return false;
  }

  class Membership {
    const oracle: Oracle
    var com: Certificate
    var comRevocationThreshold: int
    var revocations: map<nat, int>
    var remoteTags: Table
    var remoteCaps: Table
    var remoteCoos: Table

    /** The state as a value. */
    function State(): Members
      reads this
    {
      Members(com, comRevocationThreshold, revocations, remoteTags, remoteCaps, remoteCoos)
    }

    constructor (oracle: Oracle)
      ensures State() == EMPTY && this.oracle == oracle
    {
      this.oracle := oracle;
      com, comRevocationThreshold := Certificate(0, []), 0;
      revocations, remoteTags, remoteCaps, remoteCoos := map[], map[], map[], map[];
    }

    /** _addCredImpl, on one of the three tables. */
    method AddTo(remoteCreds: Table, cred: Credential) returns (outcome: Outcome, after: Table)
      requires Remote(cred.kind) && remoteCreds == Creds(State(), cred.kind)
      ensures outcome == CredentialOutcome(oracle, State(), cred)
      ensures WithCreds(State(), cred.kind, after) == StepCredential(oracle, State(), cred)
    {
      after := remoteCreds;
      var held := cred.id in remoteCreds;
      if held {
        var rc := remoteCreds[cred.id];
        if rc.timestamp > cred.timestamp {
          return Rejected, after;
        }
        if rc == cred {
          return AcceptedRedundant, after;
        }
      }
      var key := CredentialKey(cred.kind, cred.id);
      if key in revocations && revocations[key] >= cred.timestamp {
        return Rejected, after;
      }
      match oracle.credential(cred) {
        case Invalid => outcome := Rejected;
        case Valid =>
          after := remoteCreds[cred.id := cred];
          outcome := AcceptedNew;
        case NeedsWhois => outcome := DeferredForWhois;
      }
    }

    /** addCredential for a tag, a capability or a certificate of ownership. */
    method AddCredential(cred: Credential) returns (outcome: Outcome)
      requires Remote(cred.kind)
      modifies this
      ensures State() == Step(oracle, old(State()), Event.AddCredential(cred))
      ensures outcome == CredentialOutcome(oracle, old(State()), cred)
    {
      var after;
      match cred.kind {
        case Tag => outcome, after := AddTo(remoteTags, cred); remoteTags := after;
        case Capability => outcome, after := AddTo(remoteCaps, cred); remoteCaps := after;
        case Coo => outcome, after := AddTo(remoteCoos, cred); remoteCoos := after;
      }
    }

    method AddCom(c: Certificate) returns (outcome: Outcome)
      modifies this
      ensures State() == Step(oracle, old(State()), Event.AddCom(c))
      ensures outcome == ComOutcome(oracle, old(State()), c)
      // a certificate above the threshold and not older than the one held is taken if its signature is valid
      ensures State() == old(State()).(com := com)
      ensures com == if old(comRevocationThreshold) < c.timestamp && old(com).timestamp <= c.timestamp
        && oracle.com(c) == Valid then c else old(com)
      ensures outcome == AcceptedRedundant <==>
        old(comRevocationThreshold) < c.timestamp && old(com).timestamp <= c.timestamp && c == old(com)
      ensures outcome == AcceptedNew <==>
        old(comRevocationThreshold) < c.timestamp && old(com).timestamp <= c.timestamp && c != old(com)
        && oracle.com(c) == Valid
      ensures outcome == DeferredForWhois <==>
        old(comRevocationThreshold) < c.timestamp && old(com).timestamp <= c.timestamp && c != old(com)
        && oracle.com(c) == NeedsWhois
    {
      if c.timestamp <= comRevocationThreshold {
        return Rejected;
      }
      if c.timestamp < com.timestamp {
        return Rejected;
      }
      if com == c {
        return AcceptedRedundant;
      }
      match oracle.com(c) {
        case Invalid => outcome := Rejected;
        case Valid =>
          com := c;
          outcome := AcceptedNew;
        case NeedsWhois => outcome := DeferredForWhois;
      }
    }

    method AddRevocation(r: Revocation) returns (outcome: Outcome)
      modifies this
      ensures State() == Step(oracle, old(State()), Event.AddRevocation(r))
      ensures outcome == RevocationOutcome(oracle, old(State()), r)
    {
      match oracle.revocation(r) {
        case Invalid => return Rejected;
        case NeedsWhois => return DeferredForWhois;
        case Valid =>
          match r.kind {
            case Com =>
              if r.threshold > comRevocationThreshold {
                comRevocationThreshold := r.threshold;
                return AcceptedNew;
              }
              return AcceptedRedundant;
            case Capability | Tag | Coo =>
              // operator[] makes an entry of 0 when there is none
              var key := CredentialKey(r.kind, r.id);
              if key !in revocations {
                revocations := revocations[key := 0];
              }
              if revocations[key] < r.threshold {
                revocations := revocations[key := r.threshold];
                comRevocationThreshold := r.threshold;
                return AcceptedNew;
              }
              return AcceptedRedundant;
            case _ =>
              return Rejected;
          }
      }
    }

    /** _cleanCredImpl: visit every entry in some order, and erase it if it is no longer valid. */
    method CleanTable(n: Config, creds: Table) returns (after: Table)
      ensures after == Kept(State(), n, creds)
    {
      after := creds;
      var rest := creds.Keys;
      while rest != {}
        invariant rest <= creds.Keys
        invariant after.Keys <= creds.Keys && forall id | id in after :: after[id] == creds[id]
        invariant forall id | id in creds :: id in after <==> id in rest || TimestampValid(revocations, n, creds[id])
        decreases rest
      {
        var id :| id in rest;
        rest := rest - {id};
        if !TimestampValid(revocations, n, creds[id]) {
          after := after - {id};
        }
      }
    }

    method Clean(n: Config)
      modifies this
      ensures State() == Step(oracle, old(State()), Event.Clean(n))
    {
      remoteTags := CleanTable(n, remoteTags);
      remoteCaps := CleanTable(n, remoteCaps);
      remoteCoos := CleanTable(n, remoteCoos);
    }

    method GetTag(n: Config, id: Id) returns (t: Option<Credential>)
      ensures t == Visible(State(), n, Tag, id)
    {
      if id in remoteTags && TimestampValid(revocations, n, remoteTags[id]) {
        t := Some(remoteTags[id]);
      } else {
        t := None;
      }
    }

    /** hasCertificateOfOwnershipFor: some visible certificate owns the resource, or the member emulates it. */
    method HasCertificateOfOwnershipFor(n: Config, owns: (Credential, Resource) -> bool, e: Emulation, r: Resource)
      returns (has: bool)
      ensures has <==>
        (exists id :: Visible(State(), n, Coo, id).Some? && owns(Visible(State(), n, Coo, id).value, r))
          || Emulated(e, r)
    {
      var rest := remoteCoos.Keys;
      while rest != {}
        invariant rest <= remoteCoos.Keys
        invariant forall id | id in remoteCoos && id !in rest ::
          !(TimestampValid(revocations, n, remoteCoos[id]) && owns(remoteCoos[id], r))
        decreases rest
      {
        var id :| id in rest;
        rest := rest - {id};
        if TimestampValid(revocations, n, remoteCoos[id]) && owns(remoteCoos[id], r) {
          assert Visible(State(), n, Coo, id) == Some(remoteCoos[id]);
          return true;
        }
      }
      has := IsV6NdpEmulated(e, r);
    }
  }

  // ---- the same on hash tables ----

  /** _addCredImpl on the hash tables themselves: the step of the state machine, whatever else the state holds. */
  method AddToTable(
    oracle: Oracle, remoteCreds: HashTables.Hashtable<Id, Credential>, revocations: HashTables.Hashtable<nat, int>,
    cred: Credential, ghost m: Members) returns (outcome: Outcome)
    requires remoteCreds.Valid() && revocations.Valid() && Remote(cred.kind)
    requires Creds(m, cred.kind) == remoteCreds.Contents() && m.revocations == revocations.Contents()
    modifies remoteCreds, remoteCreds.t, remoteCreds.repr
    ensures remoteCreds.Valid() && remoteCreds.Contents() == Creds(StepCredential(oracle, m, cred), cred.kind)
    ensures outcome == CredentialOutcome(oracle, m, cred)
  {
    hide HashTables.Shaped, HashTables.Linked, HashTables.Hashtable.Contents, HashTables.Hashtable.Valid;
    StepTable(oracle, m, cred);
    hide StepCredential, Creds, CredentialKey;
    var rc := remoteCreds.Get(cred.id);
    if rc.Some? {
      if rc.value.timestamp > cred.timestamp {
        return Rejected;
      }
      if rc.value == cred {
        return AcceptedRedundant;
      }
    }
    var rt := revocations.Get(CredentialKey(cred.kind, cred.id));
    if rt.Some? && rt.value >= cred.timestamp {
      return Rejected;
    }
    match oracle.credential(cred) {
      case Invalid => outcome := Rejected;
      case Valid =>
        ghost var memory := remoteCreds.Set(cred.id, cred);
        outcome := AcceptedNew;
      case NeedsWhois => outcome := DeferredForWhois;
    }
  }

  lemma StepTable(o: Oracle, m: Members, c: Credential)
    requires Remote(c.kind)
    ensures Creds(StepCredential(o, m, c), c.kind)
      == if CredentialOutcome(o, m, c) == AcceptedNew then Creds(m, c.kind)[c.id := c] else Creds(m, c.kind)
  {}

  /** _cleanCredImpl on a hash table: erasing what the iterator just returned keeps what the state machine keeps. */
  method CleanHashtable(creds: HashTables.Hashtable<Id, Credential>, revocations: map<nat, int>, n: Config,
                        ghost m: Members)
    requires creds.Valid() && m.revocations == revocations
    modifies creds`s, creds`chains, creds`nodes, creds`repr, creds.t, creds.repr`next
    ensures creds.Valid() && creds.Contents() == Kept(m, n, old(creds.Contents()))
  {
    hide HashTables.Shaped, HashTables.Linked;
    HashTables.EraseUnless(creds, (id, c) => TimestampValid(revocations, n, c));
  }

  /** The visible capabilities one by one. The table must not change while they are visited. */
  class CapabilityIterator {
    const m: Membership
    const n: Config
    /** What the cursor of the hash table has yet to reach. */
    var rest: set<Id>

    ghost predicate Valid()
      reads this, m
    {
      rest <= m.remoteCaps.Keys
    }

    constructor (m: Membership, n: Config)
      ensures Valid() && this.m == m && this.n == n && rest == m.remoteCaps.Keys
    {
      this.m, this.n, rest := m, n, m.remoteCaps.Keys;
    }

    /** The next visible capability; those passed over are not visible, and without a next one there are no more. */
    method Next() returns (c: Option<Credential>, ghost id: Id)
      requires Valid()
      modifies this
      ensures Valid() && rest <= old(rest)
      ensures c.Some? ==> id in old(rest) - rest && Visible(m.State(), n, Capability, id) == c
      ensures c.None? ==> rest == {}
      ensures forall j | j in old(rest) - rest && !(c.Some? && j == id) :: Visible(m.State(), n, Capability, j) == None
    {
      id := 0;
      while rest != {}
        invariant Valid() && rest <= old(rest)
        invariant forall j | j in old(rest) - rest :: Visible(m.State(), n, Capability, j) == None
        decreases rest
      {
        var k :| k in rest;
        rest := rest - {k};
        if TimestampValid(m.revocations, n, m.remoteCaps[k]) {
          return Some(m.remoteCaps[k]), k;
        }
      }
      return None, id;
    }
  }
}
