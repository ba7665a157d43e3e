/** The bonded index map: which nominated paths a rebuild takes into a balancing bond, and under which indices. */
module Bonds {
  import opened Options
  import RoundRobin

  /** ZT_MAX_PEER_NETWORK_PATHS, also the index that stands for no path. */
  const NO_PATH := 64

  datatype Path = Path(id: nat, v4: bool, v6: bool)

  /** A link as the bond controller knows it. */
  datatype Link = Link(name: nat, primary: bool, failoverTo: Option<nat>, ipvPref: nat)

  /** A failover score is a 32-bit unsigned number. */
  type Score = x: int | 0 <= x < 0x1_0000_0000

  /** A slot of the nominated set. quality and quality255 stand for the measured relative quality as the two places that
      turn it into an integer see it. */
  datatype Nominated = Nominated(p: Option<Path>, eligible: bool, ipvPref: nat, spare: bool,
                                 onlyPathOnLink: bool, bonded: bool,
                                 quality: nat, quality255: nat, failoverScore: Score, negotiated: bool)

  /** Link look-up, by the socket of a path and by name. */
  datatype Env = Env(linkOf: Path -> Option<Link>, linkByName: nat -> Option<Link>)

  predicate Allowed(x: Nominated) {
    || x.ipvPref == 0
    || (x.p.Some? && x.p.value.v4 && (x.ipvPref == 4 || x.ipvPref == 46 || x.ipvPref == 64))
    || (x.p.Some? && x.p.value.v6 && (x.ipvPref == 6 || x.ipvPref == 46 || x.ipvPref == 64))
  }

  predicate Preferred(x: Nominated) {
    || x.onlyPathOnLink
    || (x.p.Some? && x.p.value.v4 && (x.ipvPref == 4 || x.ipvPref == 46))
    || (x.p.Some? && x.p.value.v6 && (x.ipvPref == 6 || x.ipvPref == 64))
  }

  /** The preference of a path of one address family: 0 for none, the family alone, or either family first. */
  lemma AddressPreference(x: Nominated)
    requires x.p.Some? && x.p.value.v4 != x.p.value.v6
    ensures var (mine, mineFirst) := if x.p.value.v4 then (4, 46) else (6, 64);
      && (Allowed(x) <==> x.ipvPref in {0, mine, 46, 64})
      && (Preferred(x) <==> x.onlyPathOnLink || x.ipvPref in {mine, mineFirst})
  {}

  predicate Usable(x: Nominated) { x.p.Some? && x.eligible }

  predicate OnLink(env: Env, x: Nominated, l: Link) {
    x.p.Some? && env.linkOf(x.p.value) == Some(l)
  }

  type Slots = s: seq<Nominated> | |s| == NO_PATH
    witness seq(NO_PATH, _ => Nominated(None, true, 0, false, false, false, 0, 0, 0, false))

  /** Whether the link has a path of the address type its user prefers. */
  ghost predicate HasPreferred(env: Env, s: Slots, l: Link) {
    exists i :: 0 <= i < NO_PATH && OnLink(env, s[i], l) && Usable(s[i]) && Allowed(s[i]) && !s[i].spare
      && Preferred(s[i])
  }

  /** Which slots of link l a rebuild bonds. A spare counts only when no primary path is usable; with a preference of
      one address type over the other, the less preferred type counts only when the preferred one is missing. */
  ghost predicate ChosenOn(env: Env, s: Slots, l: Link, foundUsablePrimary: bool, x: Nominated) {
    && OnLink(env, x, l) && Usable(x)
    && if x.spare then !foundUsablePrimary && Allowed(x)
       else if l.ipvPref == 0 || l.ipvPref == 4 || l.ipvPref == 6 then Allowed(x)
       else if l.ipvPref == 46 || l.ipvPref == 64 then (HasPreferred(env, s, l) ==> Allowed(x) && Preferred(x))
       else false
  }

  ghost predicate Chosen(env: Env, s: Slots, foundUsablePrimary: bool, i: nat) {
    i < NO_PATH && s[i].p.Some? && env.linkOf(s[i].p.value).Some?
    && ChosenOn(env, s, env.linkOf(s[i].p.value).value, foundUsablePrimary, s[i])
  }

  /** The cases of the choice: spares, links without a preference between address types, and links with one. */
  lemma ChosenCases(env: Env, s: Slots, found: bool, i: nat, l: Link)
    requires i < NO_PATH && OnLink(env, s[i], l)
    ensures s[i].spare && found ==> !Chosen(env, s, found, i)
    ensures s[i].spare && !found ==> (Chosen(env, s, found, i) <==> s[i].eligible && Allowed(s[i]))
    ensures !s[i].spare && l.ipvPref in {0, 4, 6} ==> (Chosen(env, s, found, i) <==> s[i].eligible && Allowed(s[i]))
    ensures !s[i].spare && l.ipvPref in {46, 64} ==>
      if exists j :: 0 <= j < NO_PATH && OnLink(env, s[j], l) && s[j].eligible && !s[j].spare && Allowed(s[j])
                     && Preferred(s[j])
      then Chosen(env, s, found, i) <==> s[i].eligible && Allowed(s[i]) && Preferred(s[i])
      else Chosen(env, s, found, i) <==> s[i].eligible
    ensures !s[i].spare && l.ipvPref !in {0, 4, 6, 46, 64} ==> !Chosen(env, s, found, i)
  {
    if j :|
      0 <= j < NO_PATH && OnLink(env, s[j], l) && s[j].eligible && !s[j].spare && Allowed(s[j]) && Preferred(s[j])
    {
      assert HasPreferred(env, s, l);
    }
  }

  function Unbonded(x: Nominated): Nominated { x.(bonded := false) }

  /** The map holds exactly the slots in chosen, each once, in its first count entries. */
  ghost predicate Mapped(map_: seq<nat>, chosen: set<nat>, count: nat) {
    && |map_| == NO_PATH && count <= NO_PATH && |chosen| == count
    && (forall a | 0 <= a < count :: map_[a] in chosen)
    && (forall a, b | 0 <= a < b < count :: map_[a] != map_[b])
    && (forall i | i in chosen :: i in map_[..count])
    && (forall a | count <= a < NO_PATH :: map_[a] == NO_PATH)
  }

  lemma SlotCount(chosen: set<nat>, n: nat)
    requires forall i | i in chosen :: i < n
    ensures |chosen| <= n
  {
    if n == 0 {
      assert chosen == {};
    } else {
      SlotCount(chosen - {n - 1}, n - 1);
    }
  }

  lemma MapOne(map_: seq<nat>, chosen: set<nat>, count: nat, i: nat)
    requires Mapped(map_, chosen, count) && i !in chosen && i < NO_PATH && forall j | j in chosen :: j < NO_PATH
    ensures count < NO_PATH && Mapped(map_[count := i], chosen + {i}, count + 1)
  {
    SlotCount(chosen + {i}, NO_PATH);
    var m := map_[count := i];
    assert m[..count + 1] == map_[..count] + [i];
  }

  /** The slots of a group that a test picks. */
  ghost function Picked(group: seq<nat>, which: Nominated -> bool, base: Slots): set<nat> {
    set i | i in group && i < NO_PATH && which(base[i])
  }

  lemma NonePicked(group: seq<nat>, which: Nominated -> bool, base: Slots)
    ensures Picked(group[..0], which, base) == {}
  {}

  lemma PickedStep(group: seq<nat>, j: nat, which: Nominated -> bool, base: Slots)
    requires j < |group| && group[j] < NO_PATH && forall a, b | 0 <= a < b < |group| :: group[a] < group[b]
    ensures Picked(group[..j + 1], which, base) == Picked(group[..j], which, base) + if which(base[group[j]])
      then {group[j]} else {}
    ensures group[j] !in Picked(group[..j], which, base)
  {
    assert group[..j + 1] == group[..j] + [group[j]];
  }

  /** The index d places after idx, going round. */
  function Ahead(idx: nat, d: nat, n: nat): (r: nat)
    requires idx < n && d < n
    ensures r < n && (r == idx + d || r == idx + d - n)
  {
    if idx + d < n then idx + d else idx + d - n
  }

  /** A packet counter of 16 bits. */
  type Count16 = x: int | 0 <= x < 0x1_0000

  class Bond {
    const paths: array<Nominated>
    const realIdxMap: array<nat>
    var numBondedPaths: nat

    var rrIdx: nat
    var rrPacketsSentOnCurrLink: Count16
    var packetsPerLink: int

    predicate Shape() {
      paths.Length == NO_PATH && realIdxMap.Length == NO_PATH
    }

    constructor (packetsPerLink: int)
      ensures Shape() && fresh(paths) && fresh(realIdxMap) && this.packetsPerLink == packetsPerLink
      ensures numBondedPaths == 0
    {
      paths := new Nominated[NO_PATH](_ => Nominated(None, true, 0, false, false, false, 0, 0, 0, false));
      realIdxMap := new nat[NO_PATH](_ => NO_PATH);
      numBondedPaths := 0;
      rrIdx, rrPacketsSentOnCurrLink := 0, 0;
      this.packetsPerLink := packetsPerLink;
    }

    // ---- rebuilding the map ----

    /** Midway through a rebuild: chosen slots are mapped and flagged, nothing else changed. */
    ghost predicate Bonding(base: Slots, chosen: set<nat>, count: nat)
      reads this, paths, realIdxMap
    {
      && Shape() && Mapped(realIdxMap[..], chosen, count)
      && (forall i | i in chosen :: i < NO_PATH)
      && forall i | 0 <= i < NO_PATH :: !base[i].bonded && paths[i] == base[i].(bonded := i in chosen)
    }

    method AddPathToBond(nominatedIdx: nat, bondedIdx: nat)
      requires Shape() && nominatedIdx < NO_PATH && bondedIdx < NO_PATH
      modifies paths, realIdxMap
      ensures realIdxMap[..] == old(realIdxMap[..])[bondedIdx := nominatedIdx]
      ensures paths[..] == old(paths[..])[nominatedIdx := old(paths[nominatedIdx]).(bonded := true)]
    {
      realIdxMap[bondedIdx] := nominatedIdx;
      paths[nominatedIdx] := paths[nominatedIdx].(bonded := true);
    }

    /** Forget the map and the flags. */
    method ClearMap() returns (ghost base: Slots)
      requires Shape()
      modifies paths, realIdxMap
      ensures Bonding(base, {}, 0) && forall i | 0 <= i < NO_PATH :: base[i] == Unbonded(old(paths[i]))
    {
      for i := 0 to NO_PATH
        invariant forall k | 0 <= k < i :: realIdxMap[k] == NO_PATH && paths[k] == Unbonded(old(paths[k]))
        invariant forall k | i <= k < NO_PATH :: paths[k] == old(paths[k])
      {
        realIdxMap[i] := NO_PATH;
        paths[i] := Unbonded(paths[i]);
      }
      base := paths[..];
    }

    /** The slots whose path is on link l, in order. */
    method LinkGroup(env: Env, l: Link) returns (group: seq<nat>)
      requires Shape()
      ensures forall a, b | 0 <= a < b < |group| :: group[a] < group[b]
      ensures forall i :: i in group <==> 0 <= i < NO_PATH && OnLink(env, paths[i], l)
    {
      group := [];
      for i := 0 to NO_PATH
        invariant forall a, b | 0 <= a < b < |group| :: group[a] < group[b]
        invariant forall k | k in group :: k < i
        invariant forall k :: k in group <==> 0 <= k < i && OnLink(env, paths[k], l)
      {
        if OnLink(env, paths[i], l) {
          assert forall a | 0 <= a < |group| :: group[a] in group;
          group := group + [i];
        }
      }
    }

    /** One of the loops over a group: bond every slot that passes the test. */
    method AddMatching(group: seq<nat>, which: Nominated -> bool, ghost base: Slots, ghost chosen: set<nat>, count: nat)
      returns (count': nat, any: bool, ghost chosen': set<nat>)
      requires Bonding(base, chosen, count)
      requires forall i | i in group :: i < NO_PATH && (which(base[i]) ==> i !in chosen)
      requires forall a, b | 0 <= a < b < |group| :: group[a] < group[b]
      requires forall x :: which(x) == which(Unbonded(x))
      modifies paths, realIdxMap
      ensures Bonding(base, chosen', count')
      ensures chosen' == chosen + Picked(group, which, base) && any == (Picked(group, which, base) != {})
    {
      hide Bonding, Mapped, Picked;
      count', any, chosen' := count, false, chosen;
      NonePicked(group, which, base);
      for j := 0 to |group|
        invariant Bonding(base, chosen', count')
        invariant chosen' == chosen + Picked(group[..j], which, base) && any == (Picked(group[..j], which, base) != {})
      {
        var idx := group[j];
        assert idx in group;
        PickedStep(group, j, which, base);
        BondingAt(base, chosen', count', idx);
        if which(paths[idx]) {
          BondOne(idx, base, chosen', count');
          count', any, chosen' := count' + 1, true, chosen' + {idx};
        }
      }
      assert group[..|group|] == group;
    }

    lemma BondingAt(base: Slots, chosen: set<nat>, count: nat, i: nat)
      requires Bonding(base, chosen, count) && i < NO_PATH
      ensures Shape() && Unbonded(paths[i]) == Unbonded(base[i])
    {
      hide Mapped;
    }

    method BondOne(idx: nat, ghost base: Slots, ghost chosen: set<nat>, count: nat)
      requires Bonding(base, chosen, count) && idx < NO_PATH && idx !in chosen
      modifies paths, realIdxMap
      ensures Bonding(base, chosen + {idx}, count + 1)
    {
      MapOne(realIdxMap[..], chosen, count, idx);
      hide Mapped;
      AddPathToBond(idx, count);
    }

    /** The group of link l in terms of the slots before the rebuild. */
    ghost predicate GroupOf(env: Env, l: Link, base: Slots, group: seq<nat>) {
      && (forall i :: i in group <==> 0 <= i < NO_PATH && OnLink(env, base[i], l))
      && (forall a, b | 0 <= a < b < |group| :: group[a] < group[b])
    }

    /** The slots of one link. */
    method AddLink(env: Env, l: Link, foundUsablePrimary: bool, ghost base: Slots, ghost chosen: set<nat>, count: nat)
      returns (count': nat, ghost chosen': set<nat>)
      requires Bonding(base, chosen, count)
      requires forall i | i in chosen :: !OnLink(env, base[i], l)
      modifies paths, realIdxMap
      ensures Bonding(base, chosen', count')
      ensures forall i | 0 <= i < NO_PATH :: i in chosen' <==>
        i in chosen || ChosenOn(env, base, l, foundUsablePrimary, base[i])
    {
      hide Mapped;
      var group := LinkGroup(env, l);
      assert GroupOf(env, l, base, group) by {
        assert forall i | 0 <= i < NO_PATH :: OnLink(env, paths[i], l) <==> OnLink(env, base[i], l);
      }
      count', chosen' := count, chosen;
      if !foundUsablePrimary {
        var any;
        count', any, chosen' := AddMatching(group, x => Usable(x) && Allowed(x) && x.spare, base, chosen', count');
      }
      count', chosen' := AddPrimaries(env, l, group, base, chosen', count');
    }

    /** Its slots that are not spares, by the address preference of the link. */
    method AddPrimaries(ghost env: Env, l: Link, group: seq<nat>, ghost base: Slots, ghost chosen: set<nat>, count: nat)
      returns (count': nat, ghost chosen': set<nat>)
      requires Bonding(base, chosen, count) && GroupOf(env, l, base, group)
      requires forall i | i in chosen && OnLink(env, base[i], l) :: base[i].spare
      modifies paths, realIdxMap
      ensures Bonding(base, chosen', count')
      ensures forall i | 0 <= i < NO_PATH :: i in chosen' <==>
        i in chosen || (!base[i].spare && ChosenOn(env, base, l, true, base[i]))
    {
      hide Mapped;
      var any;
      count', chosen' := count, chosen;
      if l.ipvPref == 0 {
        count', any, chosen' := AddMatching(group, x => Usable(x) && Allowed(x) && !x.spare, base, chosen', count');
      }
      if l.ipvPref == 4 || l.ipvPref == 6 {
        count', any, chosen' := AddMatching(group, x => Usable(x) && !x.spare && Allowed(x), base, chosen', count');
      }
      if l.ipvPref == 46 || l.ipvPref == 64 {
        count', any, chosen' :=
          AddMatching(group, x => Usable(x) && Allowed(x) && !x.spare && Preferred(x), base, chosen', count');
        PreferredFound(env, l, base, group);
        if !any {
          count', any, chosen' := AddMatching(group, x => Usable(x) && !x.spare, base, chosen', count');
        }
      }
    }

    lemma PreferredFound(env: Env, l: Link, base: Slots, group: seq<nat>)
      requires GroupOf(env, l, base, group)
      ensures HasPreferred(env, base, l) <==>
        Picked(group, x => Usable(x) && Allowed(x) && !x.spare && Preferred(x), base) != {}
    {
      var picked := Picked(group, x => Usable(x) && Allowed(x) && !x.spare && Preferred(x), base);
      if HasPreferred(env, base, l) {
        var i :| 0 <= i < NO_PATH && OnLink(env, base[i], l) && Usable(base[i]) && Allowed(base[i]) && !base[i].spare
          && Preferred(base[i]);
        assert i in picked;
      }
      if picked != {} {
        var i :| i in picked;
        assert OnLink(env, base[i], l);
      }
    }

    /** The rebuild of a balancing bond, link by link in the order of the link map. */
    method Rebuild(env: Env, order: seq<Link>, foundUsablePrimary: bool, roundRobin: bool)
      requires Shape()
      requires forall a, b | 0 <= a < b < |order| :: order[a] != order[b]
      requires forall i | 0 <= i < NO_PATH && paths[i].p.Some? && env.linkOf(paths[i].p.value).Some? ::
        env.linkOf(paths[i].p.value).value in order
      modifies this, paths, realIdxMap
      ensures packetsPerLink == old(packetsPerLink)
      // the map is injective on its first numBondedPaths entries, and the sentinel elsewhere
      ensures numBondedPaths <= NO_PATH
      ensures forall a, b | 0 <= a < b < numBondedPaths :: realIdxMap[a] != realIdxMap[b]
      ensures forall a | numBondedPaths <= a < NO_PATH :: realIdxMap[a] == NO_PATH
      // its image is the set of bonded slots, and that is the set of chosen ones
      ensures forall i | 0 <= i < NO_PATH :: i in realIdxMap[..numBondedPaths] <==> paths[i].bonded
      ensures forall i | i in realIdxMap[..numBondedPaths] :: i < NO_PATH && paths[i].p.Some? && paths[i].eligible
      ensures forall i | 0 <= i < NO_PATH :: paths[i].bonded <==> Chosen(env, old(paths[..]), foundUsablePrimary, i)
      ensures forall i | 0 <= i < NO_PATH :: Unbonded(paths[i]) == Unbonded(old(paths[i]))
      ensures roundRobin ==> rrIdx == 0 && rrPacketsSentOnCurrLink == packetsPerLink % 0x1_0000
    {
      ghost var before := paths[..];
      ghost var base := ClearMap();
      ghost var chosen := {};
      var count := 0;
      for m := 0 to |order|
        invariant Bonding(base, chosen, count)
        invariant forall i | 0 <= i < NO_PATH :: i in chosen <==>
          Chosen(env, base, foundUsablePrimary, i) && env.linkOf(base[i].p.value).value in order[..m]
        modifies paths, realIdxMap
      {
        assert order[..m + 1] == order[..m] + [order[m]];
        count, chosen := AddLink(env, order[m], foundUsablePrimary, base, chosen, count);
      }
      assert order[..|order|] == order;
      numBondedPaths := count;
      SameChoice(env, before, base, foundUsablePrimary);
      if roundRobin {
        rrPacketsSentOnCurrLink := packetsPerLink % 0x1_0000;
        rrIdx := 0;
      }
    }

    // ---- choosing a path in a round-robin bond ----

    /** The path of bonded index a can be used. */
    predicate UsableAt(a: nat)
      reads this`numBondedPaths, paths, realIdxMap
      requires Shape() && a < numBondedPaths <= NO_PATH
    {
      realIdxMap[a] < NO_PATH && Usable(paths[realIdxMap[a]])
    }

    /** The first usable index after rrIdx, going round; rrIdx itself if there is no other. */
    method SearchNext() returns (idx: nat)
      requires Shape() && 0 < numBondedPaths <= NO_PATH && rrIdx < numBondedPaths
      requires forall a | 0 <= a < numBondedPaths :: realIdxMap[a] < NO_PATH
      ensures idx < numBondedPaths
      ensures idx == rrIdx ==> forall d | 1 <= d < numBondedPaths :: !UsableAt(Ahead(rrIdx, d, numBondedPaths))
      ensures idx != rrIdx ==>
        exists d :: 1 <= d < numBondedPaths && idx == Ahead(rrIdx, d, numBondedPaths) && UsableAt(idx)
          && forall e | 1 <= e < d :: !UsableAt(Ahead(rrIdx, e, numBondedPaths))
    {
      var tempIdx: nat, searchCount := rrIdx, 0;
      idx := rrIdx;
      while searchCount < numBondedPaths - 1
        invariant searchCount <= numBondedPaths - 1 && idx == rrIdx
        invariant tempIdx == Ahead(rrIdx, searchCount, numBondedPaths)
        invariant forall d | 1 <= d <= searchCount :: !UsableAt(Ahead(rrIdx, d, numBondedPaths))
      {
        tempIdx := if tempIdx == numBondedPaths - 1 then 0 else tempIdx + 1;
        assert tempIdx == Ahead(rrIdx, searchCount + 1, numBondedPaths);
        if realIdxMap[tempIdx] != NO_PATH && Usable(paths[realIdxMap[tempIdx]]) {
          return tempIdx;
        }
        searchCount := searchCount + 1;
      }
    }

    /** The end of a stripe: on to the first usable index after the old one, if there is one. */
    method NextStripe()
      requires Shape() && 0 < numBondedPaths <= NO_PATH && rrIdx < numBondedPaths
      requires forall a | 0 <= a < numBondedPaths :: realIdxMap[a] < NO_PATH
      modifies this`rrIdx, this`rrPacketsSentOnCurrLink
      ensures rrIdx < numBondedPaths && rrPacketsSentOnCurrLink == 0
      ensures old(rrIdx) == NO_PATH - 1 ==> rrIdx == 0
      ensures old(rrIdx) < NO_PATH - 1 && rrIdx == old(rrIdx) ==>
        forall d | 1 <= d < numBondedPaths :: !UsableAt(Ahead(rrIdx, d, numBondedPaths))
      ensures old(rrIdx) < NO_PATH - 1 && rrIdx != old(rrIdx) ==>
        exists d :: 1 <= d < numBondedPaths && rrIdx == Ahead(old(rrIdx), d, numBondedPaths) && UsableAt(rrIdx)
          && forall e | 1 <= e < d :: !UsableAt(Ahead(old(rrIdx), e, numBondedPaths))
    {
      rrPacketsSentOnCurrLink := 0;
      if numBondedPaths == 1 || rrIdx >= NO_PATH - 1 {
        rrIdx := 0;
      } else {
        rrIdx := SearchNext();
      }
    }

    /** With all paths usable that is the next index. */
    lemma AllUsable(was: nat, idx: nat)
      requires Shape() && 0 < numBondedPaths <= NO_PATH && was < numBondedPaths && idx < numBondedPaths
      requires forall a | 0 <= a < numBondedPaths :: UsableAt(a)
      requires was == NO_PATH - 1 ==> idx == 0
      requires was < NO_PATH - 1 && idx == was ==>
        forall d | 1 <= d < numBondedPaths :: !UsableAt(Ahead(idx, d, numBondedPaths))
      requires was < NO_PATH - 1 && idx != was ==>
        exists d :: 1 <= d < numBondedPaths && idx == Ahead(was, d, numBondedPaths) && UsableAt(idx)
          && forall e | 1 <= e < d :: !UsableAt(Ahead(was, e, numBondedPaths))
      ensures idx == RoundRobin.NextIdx(numBondedPaths, was)
    {
      if numBondedPaths > 1 {
        assert UsableAt(Ahead(was, 1, numBondedPaths));
      }
    }

    /** getAppropriatePath for the round-robin policy; random is used only when no stripe length is set. */
    method NextRoundRobin(random: nat) returns (slot: Option<nat>)
      requires Shape() && numBondedPaths <= NO_PATH && (numBondedPaths > 0 ==> rrIdx < numBondedPaths)
      requires forall a | 0 <= a < numBondedPaths :: realIdxMap[a] < NO_PATH
      modifies this`rrIdx, this`rrPacketsSentOnCurrLink
      ensures numBondedPaths == 0 ==> slot == None && rrIdx == old(rrIdx)
      ensures numBondedPaths > 0 ==> rrIdx < numBondedPaths
      ensures numBondedPaths > 0 && packetsPerLink == 0 ==>
        rrIdx == old(rrIdx) && rrPacketsSentOnCurrLink == old(rrPacketsSentOnCurrLink)
        && slot == Some(realIdxMap[random % numBondedPaths])
      ensures numBondedPaths > 0 && packetsPerLink != 0 && old(rrPacketsSentOnCurrLink) < packetsPerLink ==>
        rrIdx == old(rrIdx) && slot == Some(realIdxMap[rrIdx])
        && rrPacketsSentOnCurrLink == if old(rrPacketsSentOnCurrLink) == 0xFFFF then 0
          else old(rrPacketsSentOnCurrLink) + 1
      // when the stripe is over: the counter starts again, on the first usable index after the old one, if there is one
      ensures numBondedPaths > 0 && packetsPerLink != 0 && old(rrPacketsSentOnCurrLink) >= packetsPerLink ==>
        && rrPacketsSentOnCurrLink == 0
        && slot == if paths[realIdxMap[rrIdx]].p.Some? then Some(realIdxMap[rrIdx]) else None
      ensures numBondedPaths > 0 && packetsPerLink != 0 && old(rrPacketsSentOnCurrLink) >= packetsPerLink ==>
        && (old(rrIdx) == NO_PATH - 1 ==> rrIdx == 0)
        && (old(rrIdx) < NO_PATH - 1 && rrIdx == old(rrIdx) ==>
            forall d | 1 <= d < numBondedPaths :: !UsableAt(Ahead(rrIdx, d, numBondedPaths)))
        && (old(rrIdx) < NO_PATH - 1 && rrIdx != old(rrIdx) ==>
            exists d :: 1 <= d < numBondedPaths && rrIdx == Ahead(old(rrIdx), d, numBondedPaths) && UsableAt(rrIdx)
              && forall e | 1 <= e < d :: !UsableAt(Ahead(old(rrIdx), e, numBondedPaths)))
      ensures
        && numBondedPaths > 0 && 0 < packetsPerLink < 0x1_0000
        && (forall a | 0 <= a < numBondedPaths :: UsableAt(a)) ==>
        var t := RoundRobin.StepTurn(numBondedPaths, packetsPerLink,
          RoundRobin.Turn(old(rrIdx), old(rrPacketsSentOnCurrLink)));
        rrIdx == t.idx && rrPacketsSentOnCurrLink == t.sent && slot == Some(realIdxMap[t.idx])
    {
      hide Ahead;
      if numBondedPaths == 0 {
        return None;
      }
      if packetsPerLink == 0 {
        return Some(realIdxMap[random % numBondedPaths]);
      }
      if rrPacketsSentOnCurrLink < packetsPerLink {
        rrPacketsSentOnCurrLink := (rrPacketsSentOnCurrLink + 1) % 0x1_0000;
        return Some(realIdxMap[rrIdx]);
      }
      NextStripe();
      slot := if paths[realIdxMap[rrIdx]].p.Some? then Some(realIdxMap[rrIdx]) else None;
      if forall a | 0 <= a < numBondedPaths :: UsableAt(a) {
        AllUsable(old(rrIdx), rrIdx);
        assert UsableAt(rrIdx);
      }
    }

    /**
     * Packets sent one after another from the state a rebuild leaves, while every bonded path stays
     * eligible: striped over the paths, unless the stripe is longer than the 16-bit counter counts;
     * then the first path takes them all.
     */
    method Stripe(total: nat) returns (slots: seq<Option<nat>>)
      requires Shape() && 0 < numBondedPaths <= NO_PATH && 0 < packetsPerLink
      requires rrIdx == 0 && rrPacketsSentOnCurrLink == packetsPerLink % 0x1_0000
      requires forall a | 0 <= a < numBondedPaths :: realIdxMap[a] < NO_PATH && Usable(paths[realIdxMap[a]])
      modifies this`rrIdx, this`rrPacketsSentOnCurrLink
      ensures |slots| == total
      ensures packetsPerLink < 0x1_0000 ==>
        forall k | 0 <= k < total :: slots[k] == Some(realIdxMap[RoundRobin.Formula(numBondedPaths, packetsPerLink, k)])
      ensures packetsPerLink >= 0x1_0000 ==> forall k | 0 <= k < total :: slots[k] == Some(realIdxMap[0])
    {
      slots := [];
      ghost var n, l := numBondedPaths, packetsPerLink;
      for k := 0 to total
        invariant rrIdx < n && |slots| == k
        invariant l < 0x1_0000 ==> RoundRobin.Turn(rrIdx, rrPacketsSentOnCurrLink) == RoundRobin.TurnAfter(n, l, k)
        invariant l < 0x1_0000 ==>
          forall q | 0 <= q < k :: RoundRobin.IndexOf(n, l, q) < n
            && slots[q] == Some(realIdxMap[RoundRobin.IndexOf(n, l, q)])
        invariant l >= 0x1_0000 ==> rrIdx == 0 && forall q | 0 <= q < k :: slots[q] == Some(realIdxMap[0])
      {
        var slot := NextRoundRobin(0);
        slots := slots + [slot];
      }
      if l < 0x1_0000 {
        forall k | 0 <= k < total
          ensures slots[k] == Some(realIdxMap[RoundRobin.Formula(n, l, k)])
        {
          RoundRobin.Schedule(n, l, k);
        }
      }
    }
  }

  /** The bonded flags of before do not influence the choice. */
  lemma SameChoice(env: Env, s: Slots, base: Slots, found: bool)
    requires forall i | 0 <= i < NO_PATH :: base[i] == Unbonded(s[i])
    ensures forall i | 0 <= i < NO_PATH :: Chosen(env, s, found, i) <==> Chosen(env, base, found, i)
  {
    forall l: Link
      ensures HasPreferred(env, s, l) <==> HasPreferred(env, base, l)
    {
      forall i | 0 <= i < NO_PATH
        ensures OnLink(env, s[i], l) <==> OnLink(env, base[i], l)
      {}
    }
  }
}
