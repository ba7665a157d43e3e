/** The credential database of one remote member: tags, capabilities and certificates of ownership that arrive in any
    order, and the revocations that hide them. */
module Credentials {
  import opened Options

  /** Credential::Type by value: what a revocation can name. */
  datatype Kind = NullKind | Com | Capability | Tag | Coo | RevocationKind | Other(code: nat)

  /** A 32-bit credential identifier. */
  type Id = i: nat | i < 0x1_0000_0000

  /** A tag, capability or certificate of ownership; body stands for its remaining fields. */
  datatype Credential = Credential(kind: Kind, id: Id, timestamp: int, body: seq<int>)

  /** A certificate of membership; the empty one has timestamp 0. */
  datatype Certificate = Certificate(timestamp: int, body: seq<int>)

  datatype Revocation = Revocation(kind: Kind, id: Id, threshold: int, body: seq<int>)

  /** What signature verification says: 0, 1 or anything else in the source. */
  datatype Verdict = Valid | NeedsWhois | Invalid

  datatype Outcome = Rejected | AcceptedNew | AcceptedRedundant | DeferredForWhois

  /** The part of a network configuration that decides which credentials count. */
  datatype Config = Config(timestamp: int, maxDelta: int)

  type Table = map<Id, Credential>

  predicate Remote(k: Kind) { k == Capability || k == Tag || k == Coo }

  function KindNumber(k: Kind): nat {
    match k
    case NullKind => 0
    case Com => 1
    case Capability => 2
    case Tag => 3
    case Coo => 4
    case RevocationKind => 6
    case Other(code) => code
  }

  /** The 64-bit key of revocations: type above, identifier below. */
  function CredentialKey(k: Kind, id: Id): nat {
    KindNumber(k) * 0x1_0000_0000 + id
  }

  lemma KeysDistinct(k: Kind, id: Id, k': Kind, id': Id)
    requires Remote(k) && Remote(k')
    ensures CredentialKey(k, id) == CredentialKey(k', id') <==> k == k' && id == id'
  {}

  /** The upper half of a key is the type of the credential, the lower half its identifier. */
  lemma KeyParts(k: Kind, id: Id)
    requires Remote(k)
    ensures CredentialKey(k, id) % 0x1_0000_0000 == id
    ensures CredentialKey(k, id) / 0x1_0000_0000 == if k == Capability then 2 else if k == Tag then 3 else 4
  {}

  /** Membership's fields. */
  datatype Members = Members(com: Certificate, comThreshold: int, revocations: map<nat, int>, tags: Table,
                             caps: Table, coos: Table)

  function Creds(m: Members, k: Kind): Table
    requires Remote(k)
  {
    if k == Tag then m.tags else if k == Capability then m.caps else m.coos
  }

  function WithCreds(m: Members, k: Kind, t: Table): Members
    requires Remote(k)
  {
    if k == Tag then m.(tags := t) else if k == Capability then m.(caps := t) else m.(coos := t)
  }

  /** The revocation threshold of a credential, if there is one. */
  predicate Revoked(revocations: map<nat, int>, k: Kind, id: Id, timestamp: int) {
    CredentialKey(k, id) in revocations && revocations[CredentialKey(k, id)] >= timestamp
  }

  predicate InWindow(n: Config, timestamp: int) {
    (if timestamp >= n.timestamp then timestamp - n.timestamp else n.timestamp - timestamp) <= n.maxDelta
  }

  /** A window reaches maxDelta to either side. */
  lemma InWindowMeans(n: Config, timestamp: int)
    ensures InWindow(n, timestamp) <==> n.timestamp - n.maxDelta <= timestamp <= n.timestamp + n.maxDelta
  {}

  /** _isCredentialTimestampValid. */
  predicate TimestampValid(revocations: map<nat, int>, n: Config, c: Credential) {
    InWindow(n, c.timestamp) && !Revoked(revocations, c.kind, c.id, c.timestamp)
  }

  /** What a lookup by identifier returns under a configuration. */
  function Visible(m: Members, n: Config, k: Kind, id: Id): Option<Credential>
    requires Remote(k)
  {
    if id in Creds(m, k) && TimestampValid(m.revocations, n, Creds(m, k)[id]) then Some(Creds(m, k)[id]) else None
  }

  // ---- steps ----

  datatype Event = AddCredential(c: Credential) | AddRevocation(r: Revocation) | AddCom(com: Certificate)
    | Clean(n: Config)

  /** Signature verification, fixed for each item. */
  datatype Oracle = Oracle(credential: Credential -> Verdict, revocation: Revocation -> Verdict,
                           com: Certificate -> Verdict)

  function OutcomeOf(v: Verdict): Outcome {
    match v
    case Valid => AcceptedNew
    case NeedsWhois => DeferredForWhois
    case Invalid => Rejected
  }

  /** _addCredImpl: older than what is held, the same again, revoked, or up to the signature. */
  function CredentialOutcome(o: Oracle, m: Members, c: Credential): Outcome
    requires Remote(c.kind)
  {
    var t := Creds(m, c.kind);
    if c.id in t && t[c.id].timestamp > c.timestamp then Rejected
    else if c.id in t && t[c.id] == c then AcceptedRedundant
    else if Revoked(m.revocations, c.kind, c.id, c.timestamp) then Rejected
    else OutcomeOf(o.credential(c))
  }

  function StepCredential(o: Oracle, m: Members, c: Credential): Members
    requires Remote(c.kind)
  {
    if CredentialOutcome(o, m, c) == AcceptedNew then WithCreds(m, c.kind, Creds(m, c.kind)[c.id := c]) else m
  }

  /** The threshold a key has before a revocation is compared with it: operator[] makes an entry of 0. */
  function Threshold(revocations: map<nat, int>, key: nat): int {
    if key in revocations then revocations[key] else 0
  }

  function StepRevocation(o: Oracle, m: Members, r: Revocation): Members {
    if o.revocation(r) != Valid then m
    else if r.kind == Com then (if r.threshold > m.comThreshold then m.(comThreshold := r.threshold) else m)
    else if !Remote(r.kind) then m
    else
      var key := CredentialKey(r.kind, r.id);
      var before := Threshold(m.revocations, key);
      if before < r.threshold
      then m.(revocations := m.revocations[key := r.threshold], comThreshold := r.threshold)
      else m.(revocations := m.revocations[key := before])
  }

  function RevocationOutcome(o: Oracle, m: Members, r: Revocation): Outcome {
    if o.revocation(r) != Valid then OutcomeOf(o.revocation(r))
    else if r.kind == Com then (if r.threshold > m.comThreshold then AcceptedNew else AcceptedRedundant)
    else if !Remote(r.kind) then Rejected
    else if Threshold(m.revocations, CredentialKey(r.kind, r.id)) < r.threshold then AcceptedNew
    else AcceptedRedundant
  }

  function ComOutcome(o: Oracle, m: Members, c: Certificate): Outcome {
    if c.timestamp <= m.comThreshold then Rejected
    else if c.timestamp < m.com.timestamp then Rejected
    else if m.com == c then AcceptedRedundant
    else OutcomeOf(o.com(c))
  }

  function StepCom(o: Oracle, m: Members, c: Certificate): Members {
    if ComOutcome(o, m, c) == AcceptedNew then m.(com := c) else m
  }

  function Kept(m: Members, n: Config, t: Table): Table {
    map id | id in t && TimestampValid(m.revocations, n, t[id]) :: t[id]
  }

  function StepClean(m: Members, n: Config): Members {
    m.(tags := Kept(m, n, m.tags), caps := Kept(m, n, m.caps), coos := Kept(m, n, m.coos))
  }

  function Step(o: Oracle, m: Members, e: Event): Members {
    match e
    case AddCredential(c) => if Remote(c.kind) then StepCredential(o, m, c) else m
    case AddRevocation(r) => StepRevocation(o, m, r)
    case AddCom(c) => StepCom(o, m, c)
    case Clean(n) => StepClean(m, n)
  }

  const EMPTY := Members(Certificate(0, []), 0, map[], map[], map[], map[])

  /** The state after a sequence of events. */
  function Run(o: Oracle, events: seq<Event>): Members {
    if events == [] then EMPTY else Step(o, Run(o, events[..|events| - 1]), events[|events| - 1])
  }

  // ---- what a run leaves behind ----

  ghost predicate GoodCredential(o: Oracle, events: seq<Event>, k: Kind, id: Id, c: Credential) {
    AddCredential(c) in events && o.credential(c) == Valid && c.kind == k && c.id == id
  }

  ghost predicate GoodRevocation(o: Oracle, events: seq<Event>, k: Kind, id: Id, r: Revocation) {
    AddRevocation(r) in events && o.revocation(r) == Valid && r.kind == k && r.id == id
  }

  /** Some good revocation covers the timestamp. The first revocation of a credential counts as one of threshold 0
      at least, because the entry for it starts there. */
  ghost predicate RevokedBy(o: Oracle, events: seq<Event>, k: Kind, id: Id, timestamp: int) {
    exists r :: GoodRevocation(o, events, k, id, r) && (timestamp <= r.threshold || timestamp <= 0)
  }

  ghost predicate NoClean(events: seq<Event>) {
    forall e | e in events :: !e.Clean?
  }

  lemma GoodInPrefix(o: Oracle, events: seq<Event>, k: Kind, id: Id)
    requires events != []
    ensures forall c :: GoodCredential(o, events, k, id, c) <==>
      GoodCredential(o, events[..|events| - 1], k, id, c)
        || (events[|events| - 1] == AddCredential(c) && GoodCredential(o, [events[|events| - 1]], k, id, c))
    ensures forall r :: GoodRevocation(o, events, k, id, r) <==>
      GoodRevocation(o, events[..|events| - 1], k, id, r)
        || (events[|events| - 1] == AddRevocation(r) && GoodRevocation(o, [events[|events| - 1]], k, id, r))
  {
    assert events == events[..|events| - 1] + [events[|events| - 1]];
  }

  /** The stored threshold covers exactly what some good revocation covers, whatever else happened in between. */
  lemma {:induction false} RevokedIff(o: Oracle, events: seq<Event>, k: Kind, id: Id, timestamp: int)
    requires Remote(k)
    ensures Revoked(Run(o, events).revocations, k, id, timestamp) <==> RevokedBy(o, events, k, id, timestamp)
    decreases |events|
  {
    if events != [] {
      var before, e := events[..|events| - 1], events[|events| - 1];
      var m := Run(o, before);
      RevokedIff(o, before, k, id, timestamp);
      GoodInPrefix(o, events, k, id);
      hide StepCredential, StepCom, StepClean, GoodRevocation;
      if !e.AddRevocation? {
        OtherStepsKeepRevocations(o, m, e);
        NotGood(o, e, k, id);
      } else if o.revocation(e.r) == Valid && Remote(e.r.kind) {
        KeysDistinct(k, id, e.r.kind, e.r.id);
        if e.r.kind == k && e.r.id == id {
          assert GoodRevocation(o, [e], k, id, e.r)
            && GoodRevocation(o, events, k, id, e.r) by { GoodLast(o, events, k, id); }
          ThresholdSign(o, before, k, id);
        } else {
          NotGood(o, e, k, id);
        }
      } else {
        NotGood(o, e, k, id);
      }
    }
  }

  lemma GoodLast(o: Oracle, events: seq<Event>, k: Kind, id: Id)
    requires events != [] && events[|events| - 1].AddRevocation?
    requires var r := events[|events| - 1].r; o.revocation(r) == Valid && r.kind == k && r.id == id
    ensures var r := events[|events| - 1].r;
      GoodRevocation(o, [events[|events| - 1]], k, id, r) && GoodRevocation(o, events, k, id, r)
  {}

  lemma NotGood(o: Oracle, e: Event, k: Kind, id: Id)
    requires Remote(k)
    requires e.AddRevocation? ==> o.revocation(e.r) != Valid || e.r.kind != k || e.r.id != id
    ensures forall r :: !GoodRevocation(o, [e], k, id, r)
  {}

  lemma OtherStepsKeepRevocations(o: Oracle, m: Members, e: Event)
    requires !e.AddRevocation?
    ensures Step(o, m, e).revocations == m.revocations
  {}

  /** Thresholds in the table are never negative. */
  lemma {:induction false} ThresholdSign(o: Oracle, events: seq<Event>, k: Kind, id: Id)
    requires Remote(k)
    ensures var revs := Run(o, events).revocations; CredentialKey(k, id) in revs ==> revs[CredentialKey(k, id)] >= 0
    decreases |events|
  {
    if events != [] {
      var before, e := events[..|events| - 1], events[|events| - 1];
      ThresholdSign(o, before, k, id);
      if e.AddRevocation? {
        hide CredentialKey;
      } else {
        OtherStepsKeepRevocations(o, Run(o, before), e);
      }
    }
  }

  /** What is held under an identifier is a good credential of that identifier. */
  lemma {:induction false} HeldIsGood(o: Oracle, events: seq<Event>, k: Kind, id: Id)
    requires Remote(k)
    ensures var t := Creds(Run(o, events), k); id in t ==> GoodCredential(o, events, k, id, t[id])
    decreases |events|
  {
    if events != [] {
      HeldIsGood(o, events[..|events| - 1], k, id);
      GoodInPrefix(o, events, k, id);
      hide StepRevocation, StepCom;
      HeldAfter(o, Run(o, events[..|events| - 1]), events[|events| - 1], k, id);
    }
  }

  /** What a step can make of an entry. */
  lemma HeldAfter(o: Oracle, m: Members, e: Event, k: Kind, id: Id)
    requires Remote(k)
    ensures var t, t' := Creds(m, k), Creds(Step(o, m, e), k);
      || (id in t && id in t' && t'[id] == t[id])
      || (id !in t && id !in t')
      || (e.Clean? && id !in t')
      || (e.AddCredential? && e.c.kind == k && e.c.id == id && CredentialOutcome(o, m, e.c) == AcceptedNew && id in t'
         && t'[id] == e.c)
  {}

  /** Without cleaning, every good credential that no revocation covers is held, or a later one is. */
  lemma {:induction false} HeldOrRevoked(o: Oracle, events: seq<Event>, k: Kind, id: Id, c: Credential)
    requires Remote(k) && NoClean(events) && GoodCredential(o, events, k, id, c)
    ensures var t := Creds(Run(o, events), k);
      RevokedBy(o, events, k, id, c.timestamp) || (id in t && t[id].timestamp >= c.timestamp)
    decreases |events|
  {
    var before, e := events[..|events| - 1], events[|events| - 1];
    var m := Run(o, before);
    GoodInPrefix(o, events, k, id);
    RevokedIff(o, before, k, id, c.timestamp);
    hide StepRevocation, StepCom, StepClean, GoodRevocation, RevokedBy, Revoked;
    HeldAfter(o, m, e, k, id);
    if RevokedBy(o, before, k, id, c.timestamp) {
      RevokedLater(o, events, k, id, c.timestamp);
    }
    if GoodCredential(o, before, k, id, c) {
      HeldOrRevoked(o, before, k, id, c);
    }
  }

  lemma RevokedLater(o: Oracle, events: seq<Event>, k: Kind, id: Id, timestamp: int)
    requires events != [] && RevokedBy(o, events[..|events| - 1], k, id, timestamp)
    ensures RevokedBy(o, events, k, id, timestamp)
  {
    GoodInPrefix(o, events, k, id);
  }

  /** No two good credentials of one identifier share a timestamp. */
  ghost predicate Distinguished(o: Oracle, events: seq<Event>, k: Kind, id: Id) {
    forall c, c' | GoodCredential(o, events, k, id, c) && GoodCredential(o, events, k, id, c')
      && c.timestamp == c'.timestamp :: c == c'
  }

  /** The credential that should be visible, in terms of which events happened and nothing else: the newest good one,
      if no good revocation covers it and it is in the window. */
  ghost predicate ShouldSee(o: Oracle, events: seq<Event>, n: Config, k: Kind, id: Id, c: Credential) {
    && GoodCredential(o, events, k, id, c)
    && (forall c' | GoodCredential(o, events, k, id, c') :: c'.timestamp <= c.timestamp)
    && !RevokedBy(o, events, k, id, c.timestamp)
    && InWindow(n, c.timestamp)
  }

  // ---- the newest credential ----

  /** A good credential that no good revocation covers. */
  ghost predicate Unrevoked(o: Oracle, events: seq<Event>, k: Kind, id: Id, c: Credential) {
    GoodCredential(o, events, k, id, c) && !RevokedBy(o, events, k, id, c.timestamp)
  }

  ghost predicate Newest(o: Oracle, events: seq<Event>, k: Kind, id: Id, c: Credential) {
    Unrevoked(o, events, k, id, c) && forall u | Unrevoked(o, events, k, id, u) :: u.timestamp <= c.timestamp
  }

  /** Revocations cover all older credentials too, so the newest unrevoked one is the newest good one. */
  lemma NewestOfAll(o: Oracle, events: seq<Event>, k: Kind, id: Id, c: Credential, c': Credential)
    requires Newest(o, events, k, id, c) && GoodCredential(o, events, k, id, c')
    ensures c'.timestamp <= c.timestamp
  {
    RevokedOlder(o, events, k, id, c.timestamp, c'.timestamp);
  }

  lemma RevokedOlder(o: Oracle, events: seq<Event>, k: Kind, id: Id, older: int, newer: int)
    ensures older <= newer && RevokedBy(o, events, k, id, newer) ==> RevokedBy(o, events, k, id, older)
  {
    if older <= newer && RevokedBy(o, events, k, id, newer) {
      var r :| GoodRevocation(o, events, k, id, r) && (newer <= r.threshold || newer <= 0);
    }
  }

  lemma {:induction false} NewestExists(
    o: Oracle, events: seq<Event>, k: Kind, id: Id, u: Credential, seen: seq<Event>) returns (c: Credential)
    requires Unrevoked(o, events, k, id, u) && forall e | e in seen :: e in events
    ensures Unrevoked(o, events, k, id, c) && c.timestamp >= u.timestamp
    ensures forall v | Unrevoked(o, events, k, id, v) && AddCredential(v) in seen :: v.timestamp <= c.timestamp
    decreases |seen|
  {
    c := u;
    if seen != [] {
      var e := seen[0];
      c := NewestExists(o, events, k, id, u, seen[1..]);
      if e.AddCredential? && Unrevoked(o, events, k, id, e.c) && e.c.timestamp > c.timestamp {
        c := e.c;
      }
      assert forall v | AddCredential(v) in seen :: AddCredential(v) == e || AddCredential(v) in seen[1..];
    }
  }

  /** Good and revoked are matters of which events there are, and more events mean more of both. */
  lemma MoreEvents(o: Oracle, some: seq<Event>, events: seq<Event>, k: Kind, id: Id)
    requires forall e | e in some :: e in events
    ensures forall c | GoodCredential(o, some, k, id, c) :: GoodCredential(o, events, k, id, c)
    ensures forall t | RevokedBy(o, some, k, id, t) :: RevokedBy(o, events, k, id, t)
  {
    forall t | RevokedBy(o, some, k, id, t)
      ensures RevokedBy(o, events, k, id, t)
    {
      var r :| GoodRevocation(o, some, k, id, r) && (t <= r.threshold || t <= 0);
      assert GoodRevocation(o, events, k, id, r);
    }
  }

  ghost predicate Holds(m: Members, k: Kind, id: Id, c: Credential)
    requires Remote(k)
  {
    id in Creds(m, k) && Creds(m, k)[id] == c
  }

  /** One step keeps the newest credential, or takes it up. */
  lemma NewestStep(o: Oracle, events: seq<Event>, before: seq<Event>, e: Event, k: Kind, id: Id, c: Credential)
    requires Remote(k) && Distinguished(o, events, k, id) && Newest(o, events, k, id, c)
    requires e in events && forall e | e in before :: e in events
    requires e.Clean? ==> InWindow(e.n, c.timestamp)
    requires Holds(Run(o, before), k, id, c) || e == AddCredential(c)
    ensures Holds(Step(o, Run(o, before), e), k, id, c)
  {
    var m := Run(o, before);
    RevokedIff(o, before, k, id, c.timestamp);
    HeldIsGood(o, before, k, id);
    MoreEvents(o, before, events, k, id);
    hide Run, RevokedBy, GoodRevocation;
    if id in Creds(m, k) {
      NewestOfAll(o, events, k, id, c, Creds(m, k)[id]);
    }
    if e.AddCredential? && GoodCredential(o, events, k, id, e.c) {
      NewestOfAll(o, events, k, id, c, e.c);
    }
    hide StepRevocation, StepCom;
    NewestKept(o, m, e, k, id, c);
  }

  lemma NewestKept(o: Oracle, m: Members, e: Event, k: Kind, id: Id, c: Credential)
    requires Remote(k) && c.kind == k && c.id == id && o.credential(c) == Valid
    requires !Revoked(m.revocations, k, id, c.timestamp)
    requires id in Creds(m, k) ==> Creds(m, k)[id].timestamp < c.timestamp || Creds(m, k)[id] == c
    requires e.AddCredential? && e.c.kind == k && e.c.id == id && o.credential(e.c) == Valid ==>
      e.c.timestamp < c.timestamp || e.c == c
    requires e.Clean? ==> InWindow(e.n, c.timestamp)
    requires Holds(m, k, id, c) || e == AddCredential(c)
    ensures Holds(Step(o, m, e), k, id, c)
  {}

  /** Once added, the newest credential is held for as long as every clean finds it in its window. */
  lemma {:induction false} NewestHeld(
    o: Oracle, events: seq<Event>, before: seq<Event>, later: seq<Event>, k: Kind, id: Id, c: Credential)
    requires Remote(k) && Distinguished(o, events, k, id) && Newest(o, events, k, id, c)
    requires forall e | e in before + later :: e in events
    requires AddCredential(c) in later || Holds(Run(o, before), k, id, c)
    requires forall n | Clean(n) in later :: InWindow(n, c.timestamp)
    ensures Holds(Run(o, before + later), k, id, c)
    decreases |later|
  {
    hide Newest, Distinguished, Step;
    if later == [] {
      assert before + later == before;
    } else {
      var first, e := later[..|later| - 1], later[|later| - 1];
      assert later == first + [e] && (before + later)[..|before + later| - 1] == before + first;
      if AddCredential(c) in first || Holds(Run(o, before), k, id, c) {
        NewestHeld(o, events, before, first, k, id, c);
      }
      NewestStep(o, events, before + first, e, k, id, c);
    }
  }

  // ---- when the order does not matter ----

  /** Nothing unrevoked is in the window of the lookup, or every clean has the newest credential in its window. */
  ghost predicate Settled(o: Oracle, events: seq<Event>, n: Config, k: Kind, id: Id) {
    || (forall u | Unrevoked(o, events, k, id, u) :: !InWindow(n, u.timestamp))
    || (forall c, n' | Newest(o, events, k, id, c) && Clean(n') in events :: InWindow(n', c.timestamp))
  }

  /** A lookup sees exactly what it should, if things are settled; without any cleaning they are. */
  lemma VisibleIff(o: Oracle, events: seq<Event>, n: Config, k: Kind, id: Id, c: Credential)
    requires Remote(k) && Distinguished(o, events, k, id) && Settled(o, events, n, k, id)
    ensures Visible(Run(o, events), n, k, id) == Some(c) <==> ShouldSee(o, events, n, k, id, c)
  {
    var m := Run(o, events);
    HeldIsGood(o, events, k, id);
    if id in Creds(m, k) {
      RevokedIff(o, events, k, id, Creds(m, k)[id].timestamp);
    }
    if u :| Unrevoked(o, events, k, id, u) && InWindow(n, u.timestamp) {
      var newest := NewestExists(o, events, k, id, u, events);
      assert Newest(o, events, k, id, newest);
      assert [] + events == events;
      NewestHeld(o, events, [], events, k, id, newest);
      hide Run, RevokedBy;
      forall c' | GoodCredential(o, events, k, id, c')
        ensures c'.timestamp <= newest.timestamp
      {
        NewestOfAll(o, events, k, id, newest, c');
      }
    }
  }

  lemma NoCleanSettled(o: Oracle, events: seq<Event>, n: Config, k: Kind, id: Id)
    requires NoClean(events)
    ensures Settled(o, events, n, k, id)
  {}

  ghost predicate SameEvents(a: seq<Event>, b: seq<Event>) {
    forall e :: e in a <==> e in b
  }

  lemma SameGood(o: Oracle, a: seq<Event>, b: seq<Event>, k: Kind, id: Id)
    requires SameEvents(a, b)
    ensures forall c :: GoodCredential(o, a, k, id, c) <==> GoodCredential(o, b, k, id, c)
    ensures forall t :: RevokedBy(o, a, k, id, t) <==> RevokedBy(o, b, k, id, t)
    ensures forall c :: Unrevoked(o, a, k, id, c) <==> Unrevoked(o, b, k, id, c)
    ensures forall c :: Newest(o, a, k, id, c) <==> Newest(o, b, k, id, c)
  {
    MoreEvents(o, a, b, k, id); MoreEvents(o, b, a, k, id);
    hide GoodCredential, RevokedBy;
  }

  /** Convergence: any order, with any repetitions, of the same settled events gives the same lookups. */
  lemma Convergence(o: Oracle, a: seq<Event>, b: seq<Event>, n: Config, k: Kind, id: Id)
    requires Remote(k) && Distinguished(o, a, k, id) && SameEvents(a, b) && Settled(o, a, n, k, id)
    ensures Visible(Run(o, a), n, k, id) == Visible(Run(o, b), n, k, id)
  {
    SameGood(o, a, b, k, id);
    hide GoodCredential, RevokedBy, Unrevoked, Newest, Run;
    var v, w := Visible(Run(o, a), n, k, id), Visible(Run(o, b), n, k, id);
    forall c
      ensures v == Some(c) <==> w == Some(c)
    {
      VisibleIff(o, a, n, k, id, c); VisibleIff(o, b, n, k, id, c);
    }
    assert v.Some? ==> w == Some(v.value);
  }

  // ---- and when it does ----

  function Cleans(events: seq<Event>): seq<Event> {
    if events == [] then [] else (if events[0].Clean? then [events[0]] else []) + Cleans(events[1..])
  }

  function Others(events: seq<Event>): seq<Event> {
    if events == [] then [] else (if events[0].Clean? then [] else [events[0]]) + Others(events[1..])
  }

  lemma {:induction false} CleansAre(events: seq<Event>)
    ensures forall e :: e in Cleans(events) <==> e in events && e.Clean?
    ensures forall e :: e in Others(events) <==> e in events && !e.Clean?
  {
    if events != [] {
      CleansAre(events[1..]);
      assert forall e :: e in events <==> e == events[0] || e in events[1..];
    }
  }

  lemma {:induction false} Parted(events: seq<Event>)
    ensures multiset(Cleans(events)) + multiset(Others(events)) == multiset(events)
  {
    if events != [] {
      Parted(events[1..]);
      assert events == [events[0]] + events[1..];
      assert multiset(events) == multiset{events[0]} + multiset(events[1..]);
    }
  }

  /** Take one occurrence out. */
  function Without(events: seq<Event>, e: Event): seq<Event>
    requires e in events
  {
    if events[0] == e then events[1..] else [events[0]] + Without(events[1..], e)
  }

  lemma {:induction false} WithoutOne(events: seq<Event>, e: Event)
    requires e in events
    ensures multiset(Without(events, e)) + multiset{e} == multiset(events)
  {
    assert events == [events[0]] + events[1..];
    if events[0] != e {
      WithoutOne(events[1..], e);
    }
  }

  lemma SameMultiset(a: seq<Event>, b: seq<Event>)
    requires multiset(a) == multiset(b)
    ensures SameEvents(a, b)
  {
    forall e: Event
      ensures e in a <==> e in b
    {
      assert e in a <==> e in multiset(a);
      assert e in b <==> e in multiset(b);
    }
  }

  /** Cleans add nothing, and each drops what is outside its window. */
  lemma {:induction false} CleansDrop(o: Oracle, before: seq<Event>, cleans: seq<Event>, n: Config, k: Kind, id: Id)
    requires Remote(k) && forall e | e in cleans :: e.Clean?
    ensures var t, t' := Creds(Run(o, before), k), Creds(Run(o, before + cleans), k);
      id in t' ==> id in t && t'[id] == t[id] && (Clean(n) in cleans ==> InWindow(n, t'[id].timestamp))
    decreases |cleans|
  {
    if cleans == [] {
      assert before + cleans == before;
    } else {
      var first, e := cleans[..|cleans| - 1], cleans[|cleans| - 1];
      assert cleans == first + [e] && (before + cleans)[..|before + cleans| - 1] == before + first;
      CleansDrop(o, before, first, n, k, id);
      CleanStep(o, Run(o, before + first), e.n, k, id);
      hide Step;
    }
  }

  lemma CleanStep(o: Oracle, m: Members, n: Config, k: Kind, id: Id)
    requires Remote(k)
    ensures var t, t' := Creds(m, k), Creds(Step(o, m, Clean(n)), k);
      id in t' <==> id in t && TimestampValid(m.revocations, n, t[id])
    ensures var t, t' := Creds(m, k), Creds(Step(o, m, Clean(n)), k); id in t' ==> t'[id] == t[id]
  {}

  /** All cleans first: the newest credential is held in the end. */
  lemma CleansFirst(o: Oracle, events: seq<Event>, some: seq<Event>, k: Kind, id: Id, c: Credential)
    requires Remote(k) && Distinguished(o, events, k, id) && Newest(o, events, k, id, c)
    requires AddCredential(c) in some && forall e | e in some :: e in events
    ensures Holds(Run(o, Cleans(some) + Others(some)), k, id, c)
  {
    CleansAre(some);
    hide Newest, Distinguished, Run;
    NewestHeld(o, events, Cleans(some), Others(some), k, id, c);
  }

  /** An order of unsettled events that ends with the dropping clean, or with an older credential after it. */
  lemma Unsettled(o: Oracle, events: seq<Event>, n: Config, k: Kind, id: Id, u: Credential, c: Credential, n': Config)
    returns (a: seq<Event>, b: seq<Event>)
    requires Remote(k) && Distinguished(o, events, k, id)
    requires Unrevoked(o, events, k, id, u) && InWindow(n, u.timestamp)
    requires Newest(o, events, k, id, c) && Clean(n') in events && !InWindow(n', c.timestamp)
    ensures multiset(a) == multiset(events) == multiset(b)
    ensures Visible(Run(o, a), n, k, id) != Visible(Run(o, b), n, k, id)
  {
    hide Run, Newest, Distinguished, Unrevoked, Visible, Holds;
    a := Cleans(events) + Others(events);
    Parted(events);
    CleansAre(events);
    NewestIsGood(o, events, k, id, c);
    CleansFirst(o, events, events, k, id, c);
    if InWindow(n, c.timestamp) {
      b := Others(events) + Cleans(events);
      SeenFirst(o, events, a, n, k, id, c);
      DroppedLast(o, events, n, k, id, c, n');
    } else {
      b := OlderLast(o, events, n, k, id, u, c, n');
      NotSeen(Run(o, a), n, k, id, c);
    }
  }

  lemma NewestIsGood(o: Oracle, events: seq<Event>, k: Kind, id: Id, c: Credential)
    requires Newest(o, events, k, id, c)
    ensures GoodCredential(o, events, k, id, c)
  {}

  lemma NotSeen(m: Members, n: Config, k: Kind, id: Id, c: Credential)
    requires Remote(k) && Holds(m, k, id, c) && !InWindow(n, c.timestamp)
    ensures Visible(m, n, k, id) == None
  {}

  /** The cleans last: nothing is held in the end. */
  lemma DroppedLast(o: Oracle, events: seq<Event>, n: Config, k: Kind, id: Id, c: Credential, n': Config)
    requires Remote(k) && Distinguished(o, events, k, id)
    requires Newest(o, events, k, id, c) && Clean(n') in events && !InWindow(n', c.timestamp)
    ensures Visible(Run(o, Others(events) + Cleans(events)), n, k, id) == None
  {
    CleansAre(events);
    assert [] + Others(events) == Others(events);
    NewestIsGood(o, events, k, id, c);
    hide Run, Newest, Distinguished;
    NewestHeld(o, events, [], Others(events), k, id, c);
    CleansDrop(o, Others(events), Cleans(events), n', k, id);
  }

  lemma SeenFirst(o: Oracle, events: seq<Event>, a: seq<Event>, n: Config, k: Kind, id: Id, c: Credential)
    requires Remote(k) && Newest(o, events, k, id, c) && InWindow(n, c.timestamp)
    requires multiset(a) == multiset(events) && Holds(Run(o, a), k, id, c)
    ensures Visible(Run(o, a), n, k, id) == Some(c)
  {
    SameMultiset(a, events);
    SameGood(o, a, events, k, id);
    RevokedIff(o, a, k, id, c.timestamp);
    hide Run, RevokedBy;
  }

  lemma OlderLast(o: Oracle, events: seq<Event>, n: Config, k: Kind, id: Id, u: Credential, c: Credential, n': Config)
    returns (b: seq<Event>)
    requires Remote(k) && Distinguished(o, events, k, id)
    requires Unrevoked(o, events, k, id, u) && InWindow(n, u.timestamp) && !InWindow(n, c.timestamp)
    requires Newest(o, events, k, id, c) && Clean(n') in events && !InWindow(n', c.timestamp)
    ensures multiset(b) == multiset(events) && Visible(Run(o, b), n, k, id) == Some(u)
  {
    var clean, add := Clean(n'), AddCredential(u);
    var some := WithoutTwo(events, clean, add, AddCredential(c));
    Parted(some);
    var rest := Cleans(some) + Others(some);
    b := rest + [clean] + [add];
    CleansFirst(o, events, some, k, id, c);
    SameMultiset(b, events);
    SameGood(o, b, events, k, id);
    RevokedIff(o, b, k, id, u.timestamp);
    hide Newest, Distinguished, RevokedBy, GoodCredential, Cleans, Others;
    TakenAfterClean(o, rest, n, k, id, u, c, n');
  }

  lemma WithoutTwo(events: seq<Event>, x: Event, y: Event, z: Event) returns (some: seq<Event>)
    requires x in events && y in events && z in events && x != y && z != x && z != y
    ensures multiset(some) + multiset{x} + multiset{y} == multiset(events)
    ensures z in some && forall e | e in some :: e in events
  {
    WithoutOne(events, x);
    var one := Without(events, x);
    assert y in multiset(events) && z in multiset(events);
    assert y in multiset(one) && z in multiset(one);
    WithoutOne(one, y);
    some := Without(one, y);
    assert z in multiset(some);
    forall e | e in some
      ensures e in events
    {
      assert e in multiset(some) && e in multiset(events);
    }
  }

  /** A clean that drops what is held, and a credential after it. */
  lemma TakenAfterClean(o: Oracle, rest: seq<Event>, n: Config, k: Kind, id: Id, u: Credential,
                        c: Credential, n': Config)
    requires Remote(k) && Holds(Run(o, rest), k, id, c) && !InWindow(n', c.timestamp)
    requires u.kind == k && u.id == id && o.credential(u) == Valid && InWindow(n, u.timestamp)
    requires var b := rest + [Clean(n')] + [AddCredential(u)]; !Revoked(Run(o, b).revocations, k, id, u.timestamp)
    ensures var b := rest + [Clean(n')] + [AddCredential(u)]; Visible(Run(o, b), n, k, id) == Some(u)
  {
    var cleaned := rest + [Clean(n')];
    var b := cleaned + [AddCredential(u)];
    assert cleaned[..|rest|] == rest && b[..|cleaned|] == cleaned;
    var m := Run(o, cleaned);
    CleanStep(o, Run(o, rest), n', k, id);
    assert Run(o, b) == Step(o, m, AddCredential(u));
    OtherStepsKeepRevocations(o, m, AddCredential(u));
    hide Run;
    TakenWhenEmpty(o, m, u);
  }

  lemma TakenWhenEmpty(o: Oracle, m: Members, u: Credential)
    requires Remote(u.kind) && u.id !in Creds(m, u.kind) && o.credential(u) == Valid
    requires !Revoked(m.revocations, u.kind, u.id, u.timestamp)
    ensures Holds(Step(o, m, AddCredential(u)), u.kind, u.id, u)
  {}

  /**
   * Exactly when credentials converge, cleans included: every order of the same events, with repetitions or without,
   * shows the same credential if and only if nothing unrevoked is in the window, or no clean drops the newest.
   */
  lemma ConvergenceIff(o: Oracle, events: seq<Event>, n: Config, k: Kind, id: Id)
    requires Remote(k) && Distinguished(o, events, k, id)
    ensures Settled(o, events, n, k, id) <==>
      forall b | SameEvents(events, b) :: Visible(Run(o, b), n, k, id) == Visible(Run(o, events), n, k, id)
    ensures Settled(o, events, n, k, id) <==>
      forall b | multiset(b) == multiset(events) :: Visible(Run(o, b), n, k, id) == Visible(Run(o, events), n, k, id)
  {
    hide Run, Distinguished, Visible, Newest, Unrevoked;
    if Settled(o, events, n, k, id) {
      forall b | SameEvents(events, b)
        ensures Visible(Run(o, b), n, k, id) == Visible(Run(o, events), n, k, id)
      {
        Convergence(o, events, b, n, k, id);
      }
      forall b | multiset(b) == multiset(events)
        ensures SameEvents(events, b)
      {
        SameMultiset(events, b);
      }
    } else {
      var u :| Unrevoked(o, events, k, id, u) && InWindow(n, u.timestamp);
      var c, n' :| Newest(o, events, k, id, c) && Clean(n') in events && !InWindow(n', c.timestamp);
      var a, b := Unsettled(o, events, n, k, id, u, c, n');
      SameMultiset(events, a); SameMultiset(events, b);
    }
  }

  /** Cleaning in between is not harmless: after a clean between a credential outside the window and an older one
      inside it, the older one is visible; in the other order, with the clean last, it is not. */
  lemma CleaningBreaksConvergence(o: Oracle, n: Config, c: Credential, c': Credential)
    requires o.credential(c) == Valid && o.credential(c') == Valid
    requires Remote(c.kind) && c'.kind == c.kind && c'.id == c.id && c'.timestamp < c.timestamp
    requires InWindow(n, c'.timestamp) && !InWindow(n, c.timestamp)
    ensures Visible(Run(o, [AddCredential(c), Clean(n), AddCredential(c')]), n, c.kind, c.id) == Some(c')
    ensures Visible(Run(o, [AddCredential(c'), AddCredential(c), Clean(n)]), n, c.kind, c.id) == None
  {
    var add, add', clean := AddCredential(c), AddCredential(c'), Clean(n);
    RunThree(o, add, clean, add'); RunThree(o, add', add, clean);
    hide Run;
    AddedOnce(o, EMPTY, c); AddedOnce(o, EMPTY, c');
    var m, m' := Step(o, EMPTY, add), Step(o, EMPTY, add');
    CleanedAway(o, m, n, c);
    AddedOnce(o, Step(o, m, clean), c'); AddedOnce(o, m', c);
    CleanedAway(o, Step(o, m', add), n, c);
  }

  lemma AddedOnce(o: Oracle, m: Members, c: Credential)
    requires Remote(c.kind) && o.credential(c) == Valid && m.revocations == map[]
    requires c.id in Creds(m, c.kind) ==> Creds(m, c.kind)[c.id].timestamp < c.timestamp
    ensures var m' := Step(o, m, AddCredential(c));
      c.id in Creds(m', c.kind) && Creds(m', c.kind)[c.id] == c && m'.revocations == map[]
  {}

  lemma CleanedAway(o: Oracle, m: Members, n: Config, c: Credential)
    requires Remote(c.kind) && c.id in Creds(m, c.kind) && Creds(m, c.kind)[c.id] == c && !InWindow(n, c.timestamp)
    ensures c.id !in Creds(Step(o, m, Clean(n)), c.kind) && Step(o, m, Clean(n)).revocations == m.revocations
  {}

  lemma RunThree(o: Oracle, a: Event, b: Event, c: Event)
    ensures Run(o, [a, b, c]) == Step(o, Step(o, Step(o, EMPTY, a), b), c)
  {
    hide Step;
    assert [a, b, c][..2] == [a, b] && [a, b][..1] == [a] && [a][..0] == [];
    assert Run(o, []) == EMPTY;
    assert Run(o, [a]) == Step(o, EMPTY, a);
    assert Run(o, [a, b]) == Step(o, Run(o, [a]), b);
  }

  /** Revocation is permanent: after a good revocation nothing at or below its threshold is ever seen again, whatever
      is added or cleaned later. */
  lemma RevocationIsPermanent(o: Oracle, before: seq<Event>, r: Revocation, later: seq<Event>, n: Config, c: Credential)
    requires Remote(r.kind) && o.revocation(r) == Valid
    requires Visible(Run(o, before + [AddRevocation(r)] + later), n, r.kind, r.id) == Some(c)
    ensures c.timestamp > r.threshold
  {
    var events := before + [AddRevocation(r)] + later;
    assert events[|before|] == AddRevocation(r);
    assert GoodRevocation(o, events, r.kind, r.id, r);
    RevokedIff(o, events, r.kind, r.id, c.timestamp);
    HeldIsGood(o, events, r.kind, r.id);
    hide Run;
  }

  /** Cleaning under a configuration changes no lookup under that configuration. */
  lemma CleanKeepsLookups(o: Oracle, events: seq<Event>, n: Config, k: Kind, id: Id)
    requires Remote(k)
    ensures Visible(Run(o, events + [Clean(n)]), n, k, id) == Visible(Run(o, events), n, k, id)
  {
    assert (events + [Clean(n)])[..|events|] == events;
    hide TimestampValid;
  }

  // ---- the COM threshold ----

  /** The COM threshold falls in one case only: a good revocation of a tag, capability or certificate of ownership
      raises its own entry and is below the COM threshold. */
  lemma ComThresholdFalls(o: Oracle, m: Members, e: Event)
    ensures Step(o, m, e).comThreshold < m.comThreshold <==>
      && e.AddRevocation? && o.revocation(e.r) == Valid && Remote(e.r.kind)
      && Threshold(m.revocations, CredentialKey(e.r.kind, e.r.id)) < e.r.threshold < m.comThreshold
  {}

  /** A good revocation that takes part in the COM threshold. */
  ghost predicate Raises(o: Oracle, events: seq<Event>, r: Revocation) {
    AddRevocation(r) in events && o.revocation(r) == Valid && (r.kind == Com || Remote(r.kind))
  }

  /** A tag, capability or certificate of ownership is revoked below what something else is revoked at. */
  ghost predicate Crosses(o: Oracle, events: seq<Event>, r: Revocation, t: Revocation) {
    && Raises(o, events, r) && Raises(o, events, t) && Remote(t.kind)
    && 0 < t.threshold < r.threshold && (r.kind != t.kind || r.id != t.id)
  }

  ghost predicate Lowers(o: Oracle, events: seq<Event>, i: nat) {
    i < |events| && Run(o, events[..i + 1]).comThreshold < Run(o, events[..i]).comThreshold
  }

  /** The COM threshold is zero or that of some revocation. */
  lemma {:induction false} ComThresholdFrom(o: Oracle, events: seq<Event>)
    ensures var c := Run(o, events).comThreshold; c == 0 || exists r :: Raises(o, events, r) && r.threshold == c
    decreases |events|
  {
    if events != [] {
      var before, e := events[..|events| - 1], events[|events| - 1];
      ComThresholdFrom(o, before);
      ComThresholdStep(o, Run(o, before), e);
      if r :| Raises(o, before, r) && r.threshold == Run(o, before).comThreshold {
        assert Raises(o, events, r);
      }
      assert e.AddRevocation? && o.revocation(e.r) == Valid && (e.r.kind == Com || Remote(e.r.kind)) ==>
        Raises(o, events, e.r);
      hide Step;
    }
  }

  lemma ComThresholdStep(o: Oracle, m: Members, e: Event)
    ensures var c := Step(o, m, e).comThreshold;
      c == m.comThreshold || (e.AddRevocation? && o.revocation(e.r) == Valid && (e.r.kind == Com || Remote(e.r.kind))
        && c == e.r.threshold)
  {}

  /** If a step lowers the threshold, the revocation of that step crosses an earlier one. */
  lemma LoweringCrosses(o: Oracle, events: seq<Event>, i: nat)
    requires Lowers(o, events, i)
    ensures exists r, t :: Crosses(o, events, r, t)
  {
    var before := events[..i];
    assert events[..i + 1][..i] == before;
    var m := Run(o, before);
    ComThresholdFalls(o, m, events[i]);
    var t := events[i].r;
    ComThresholdFrom(o, before);
    ThresholdSign(o, before, t.kind, t.id);
    hide Run;
    var r :| Raises(o, before, r) && r.threshold == m.comThreshold;
    if r.kind == t.kind && r.id == t.id {
      assert GoodRevocation(o, before, t.kind, t.id, r);
      RevokedIff(o, before, t.kind, t.id, r.threshold);
    }
    assert Crosses(o, events, r, t);
  }

  /** The two revocations in front of all others lower the threshold in the second step. */
  lemma CrossingLowers(o: Oracle, events: seq<Event>, r: Revocation, t: Revocation) returns (b: seq<Event>)
    requires Crosses(o, events, r, t)
    ensures multiset(b) == multiset(events) && Lowers(o, b, 1)
  {
    var x, y := AddRevocation(r), AddRevocation(t);
    WithoutOne(events, x);
    var one := Without(events, x);
    assert y in multiset(events) && y in multiset(one);
    WithoutOne(one, y);
    b := [x] + [y] + Without(one, y);
    assert b[..1] == [x] && b[..2] == [x, y];
    RunTwo(o, x, y);
    hide Run;
    TwoRevocations(o, r, t);
  }

  lemma TwoRevocations(o: Oracle, r: Revocation, t: Revocation)
    requires o.revocation(r) == Valid && o.revocation(t) == Valid && (r.kind == Com || Remote(r.kind)) && Remote(t.kind)
    requires 0 < t.threshold < r.threshold && (r.kind != t.kind || r.id != t.id)
    ensures var m := Step(o, EMPTY, AddRevocation(r));
      m.comThreshold == r.threshold && m.com == EMPTY.com
      && Step(o, m, AddRevocation(t)).comThreshold == t.threshold && Step(o, m, AddRevocation(t)).com == EMPTY.com
  {
    if r.kind != Com {
      KeysDistinct(r.kind, r.id, t.kind, t.id);
    }
  }

  lemma RunTwo(o: Oracle, a: Event, b: Event)
    ensures Run(o, [a]) == Step(o, EMPTY, a) && Run(o, [a, b]) == Step(o, Step(o, EMPTY, a), b)
  {
    hide Step;
    assert [a, b][..1] == [a] && [a][..0] == [];
    assert Run(o, []) == EMPTY;
  }

  /** Exactly when no order of the same events, with repetitions or without, ever lowers the COM threshold. */
  lemma ComThresholdIff(o: Oracle, events: seq<Event>)
    ensures (forall b, i: nat | SameEvents(events, b) :: !Lowers(o, b, i)) <==> !exists r, t :: Crosses(o, events, r, t)
    ensures (forall b, i: nat | multiset(b) == multiset(events) :: !Lowers(o, b, i)) <==>
      !exists r, t :: Crosses(o, events, r, t)
  {
    hide Lowers;
    forall b, i: nat | SameEvents(events, b) && Lowers(o, b, i)
      ensures exists r, t :: Crosses(o, events, r, t)
    {
      LoweringCrosses(o, b, i);
      var r, t :| Crosses(o, b, r, t);
      assert Crosses(o, events, r, t);
    }
    forall b | multiset(b) == multiset(events)
      ensures SameEvents(events, b)
    {
      SameMultiset(events, b);
    }
    if r, t :| Crosses(o, events, r, t) {
      var b := CrossingLowers(o, events, r, t);
      SameMultiset(events, b);
    }
  }

  /** What that does: a certificate of membership that a revocation shuts out is let in again after another one. */
  lemma ComLetInAgain(o: Oracle, r: Revocation, t: Revocation, c: Certificate)
    requires o.revocation(r) == Valid && o.revocation(t) == Valid && o.com(c) == Valid
    requires r.kind == Com && Remote(t.kind) && 0 < t.threshold < c.timestamp <= r.threshold
    ensures ComOutcome(o, Run(o, [AddRevocation(r)]), c) == Rejected
    ensures Run(o, [AddRevocation(r), AddCom(c)]).com == EMPTY.com
    ensures Run(o, [AddRevocation(r), AddRevocation(t), AddCom(c)]).com == c
  {
    RunTwo(o, AddRevocation(r), AddRevocation(t)); RunTwo(o, AddRevocation(r), AddCom(c));
    RunThree(o, AddRevocation(r), AddRevocation(t), AddCom(c));
    TwoRevocations(o, r, t);
    hide Run, StepRevocation;
  }

  /** What one step makes of the certificate of membership: it takes up a verified one that the COM threshold does not
      cover and that is not older than the one held, and no other. */
  lemma ComAfter(o: Oracle, m: Members, e: Event)
    ensures Step(o, m, e).com
      == if e.AddCom? && o.com(e.com) == Valid && m.comThreshold < e.com.timestamp && m.com.timestamp <= e.com.timestamp
         then e.com else m.com
  {}

  /** In every run the certificate of membership held is the empty one, or was added and verified. */
  lemma {:induction false} ComIsGood(o: Oracle, events: seq<Event>)
    ensures var com := Run(o, events).com; com == EMPTY.com || (AddCom(com) in events && o.com(com) == Valid)
    decreases |events|
  {
    if events != [] {
      ComIsGood(o, events[..|events| - 1]);
      ComAfter(o, Run(o, events[..|events| - 1]), events[|events| - 1]);
      hide Step;
    }
  }

  /** A verified certificate that was added is held, or a newer or equally new one, or the threshold covered it then. */
  lemma {:induction false} ComHeld(o: Oracle, events: seq<Event>, i: nat)
    requires i < |events| && events[i].AddCom? && o.com(events[i].com) == Valid
    ensures events[i].com.timestamp <= Run(o, events).com.timestamp
      || events[i].com.timestamp <= Run(o, events[..i]).comThreshold
    decreases |events|
  {
    var before := events[..|events| - 1];
    ComAfter(o, Run(o, before), events[|events| - 1]);
    hide Step;
    if i < |events| - 1 {
      ComHeld(o, before, i);
      assert before[..i] == events[..i];
    }
  }

  // ---- the answers ----

  /** Credentials are answered in this order: older than the one held, the same, revoked, and then by the signature. */
  lemma CredentialAnswers(o: Oracle, m: Members, c: Credential)
    requires Remote(c.kind)
    ensures var held, out := c.id in Creds(m, c.kind), CredentialOutcome(o, m, c);
      var older := held && c.timestamp < Creds(m, c.kind)[c.id].timestamp;
      var same := held && Creds(m, c.kind)[c.id] == c;
      var revoked := Revoked(m.revocations, c.kind, c.id, c.timestamp);
      && (out == AcceptedRedundant <==> same)
      && (out == AcceptedNew <==> !older && !same && !revoked && o.credential(c) == Valid)
      && (out == DeferredForWhois <==> !older && !same && !revoked && o.credential(c) == NeedsWhois)
      && (out == AcceptedNew <==> Step(o, m, AddCredential(c)) != m)
  {}

  lemma ComAnswers(o: Oracle, m: Members, c: Certificate)
    ensures var out := ComOutcome(o, m, c);
      var passes := m.comThreshold < c.timestamp && m.com.timestamp <= c.timestamp;
      && (out == AcceptedRedundant <==> passes && c == m.com)
      && (out == AcceptedNew <==> passes && c != m.com && o.com(c) == Valid)
      && (out == DeferredForWhois <==> passes && c != m.com && o.com(c) == NeedsWhois)
      && (out == AcceptedNew <==> Step(o, m, AddCom(c)) != m)
  {}

  /** A revocation is new exactly when it raises a threshold, its own or that of certificates of membership. */
  lemma RevocationAnswers(o: Oracle, m: Members, r: Revocation)
    ensures var out, m', key := RevocationOutcome(o, m, r), Step(o, m, AddRevocation(r)), CredentialKey(r.kind, r.id);
      && (out == DeferredForWhois <==> o.revocation(r) == NeedsWhois)
      && (out == Rejected <==>
            o.revocation(r) == Invalid || (o.revocation(r) == Valid && r.kind != Com && !Remote(r.kind)))
      && (r.kind == Com ==> (out == AcceptedNew <==> m'.comThreshold > m.comThreshold))
      && (Remote(r.kind) ==> (out == AcceptedNew <==>
            Threshold(m'.revocations, key) > Threshold(m.revocations, key)))
  {}

  /** A certificate of membership is only ever replaced by one at least as new. */
  lemma {:induction false} ComNeverOlder(o: Oracle, events: seq<Event>, i: nat)
    requires i <= |events|
    ensures Run(o, events[..i]).com.timestamp <= Run(o, events).com.timestamp
    decreases |events|
  {
    if i == |events| {
      assert events[..i] == events;
    } else {
      assert events[..|events| - 1][..i] == events[..i];
      ComNeverOlder(o, events[..|events| - 1], i);
      ComAfter(o, Run(o, events[..|events| - 1]), events[|events| - 1]);
    }
  }
}
