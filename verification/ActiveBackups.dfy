/** The active-backup policy: selecting an active path, keeping the failover queue, and switching to its front. */
module ActiveBackups {
  import opened Bonds
  import opened Options

  datatype Reselection = Always | Better | OnFailure | Optimize

  /** What the user specified, and the settings of the policy. */
  datatype Settings = Settings(links: bool, primaryLink: bool, failoverInstructions: bool, reselection: Reselection)

  const HANDICAP_PREFERRED := 500
  const HANDICAP_PRIMARY := 1000
  const OPTIMIZE_INTERVAL := 15000
  const WORD := 0x1_0000_0000

  /** Conversions between int and uint32_t. */
  function ToUnsigned(x: int): Score { x % WORD }

  function ToSigned(x: Score): int {
    if x < WORD / 2 then x else x - WORD
  }

  /** They are the two's complement. */
  lemma Conversions(x: int, u: Score)
    ensures ToUnsigned(ToSigned(u)) == u && -WORD / 2 <= ToSigned(u) < WORD / 2
    ensures -WORD / 2 <= x < WORD / 2 ==> ToSigned(ToUnsigned(x)) == x
  {}

  predicate NoDuplicates(q: seq<nat>) {
    forall a, b | 0 <= a < b < |q| :: q[a] != q[b]
  }

  predicate Linked(env: Env, x: Nominated) {
    x.p.Some? && env.linkOf(x.p.value).Some?
  }

  /** A path that could be active or backup. */
  predicate Candidate(env: Env, x: Nominated) {
    Usable(x) && Allowed(x) && Linked(env, x)
  }

  predicate OnPrimary(env: Env, x: Nominated) {
    Linked(env, x) && env.linkOf(x.p.value).value.primary
  }

  /** Primary beats preferred beats neither, and quality decides between equals; when optimizing, primary counts for
      nothing. */
  function QualityScore(env: Env, settings: Settings, x: Nominated): Score {
    ToUnsigned(x.quality + if OnPrimary(env, x) && settings.reselection != Optimize then HANDICAP_PRIMARY
                           else if Preferred(x) then HANDICAP_PREFERRED else 0)
  }

  /** Below a quality of 500, which a share of the whole always is, the classes come first; quality decides within. */
  lemma QualityOrder(env: Env, settings: Settings, x: Nominated, y: Nominated)
    requires x.quality < 500 && y.quality < 500
    ensures var (a, b) := (QualityScore(env, settings, x), QualityScore(env, settings, y));
      var byLink := settings.reselection != Optimize;
      && (byLink && OnPrimary(env, x) && !OnPrimary(env, y) ==> a > b)
      && (!(byLink && (OnPrimary(env, x) || OnPrimary(env, y))) && Preferred(x) && !Preferred(y) ==> a > b)
      && (byLink && OnPrimary(env, x) && OnPrimary(env, y) ==> (a > b <==> x.quality > y.quality))
      && (!(byLink && (OnPrimary(env, x) || OnPrimary(env, y))) && (Preferred(x) <==> Preferred(y)) ==>
          (a > b <==> x.quality > y.quality))
  {}

  /** The scores themselves. */
  lemma QualityScores(env: Env, settings: Settings, x: Nominated)
    requires x.quality < 500
    ensures QualityScore(env, settings, x) - x.quality
      == if OnPrimary(env, x) && settings.reselection != Optimize then 1000 else if Preferred(x) then 500 else 0
  {}

  // ---- the user's failover instructions ----

  function Handicap(env: Env, x: Nominated): int
    requires Linked(env, x)
  {
    ToSigned(x.failoverScore) + (if Preferred(x) then HANDICAP_PREFERRED else 0) + if OnPrimary(env, x)
      then HANDICAP_PRIMARY else 0
  }

  /** A path without an inherited score gets its handicap, or its quality if it has none. */
  function OwnScore(env: Env, x: Nominated): Score
    requires Linked(env, x)
  {
    if x.failoverScore != 0 then x.failoverScore
    else ToUnsigned(if Handicap(env, x) != 0 then Handicap(env, x) else x.quality255)
  }

  function FailoverLink(env: Env, x: Nominated): Option<Link>
    requires Linked(env, x)
  {
    var name := env.linkOf(x.p.value).value.failoverTo;
    if name.Some? then env.linkByName(name.value) else None
  }

  /** The path y is on the link that x fails over to. */
  predicate Backs(env: Env, x: Nominated, y: Nominated)
    requires Linked(env, x)
  {
    FailoverLink(env, x).Some? && y.p.Some? && env.linkOf(y.p.value) == FailoverLink(env, x)
  }

  /** Ten below the handicap of the path it backs, or its own score if that is more; one less unless preferred. */
  function InheritedScore(y: Nominated, handicap: int): Score {
    var best := if y.failoverScore > ToUnsigned(handicap - 10) then ToSigned(y.failoverScore) else handicap - 10;
    ToUnsigned(if Preferred(y) then best else best - 1)
  }

  /** A path that inherited nothing: 1500, 1000 or 500 if it is primary and preferred, primary, or preferred; else its
      quality. */
  lemma OwnScores(env: Env, x: Nominated)
    requires Linked(env, x) && x.quality255 < 256
    ensures x.failoverScore == 0 ==>
      OwnScore(env, x) == if OnPrimary(env, x) then (if Preferred(x) then 1500 else 1000) else if Preferred(x) then 500
        else x.quality255
    ensures x.failoverScore == 0 ==> (Handicap(env, x) == 0 <==> !OnPrimary(env, x) && !Preferred(x))
    ensures x.failoverScore == 0 && Handicap(env, x) != 0 ==> Handicap(env, x) == OwnScore(env, x)
    ensures x.failoverScore != 0 ==> OwnScore(env, x) == x.failoverScore
    ensures 0 < x.failoverScore < WORD / 2 ==>
      Handicap(env, x) - x.failoverScore == if OnPrimary(env, x) then (if Preferred(x) then 1500 else 1000)
        else if Preferred(x) then 500 else 0
  {}

  lemma BacksMeans(env: Env, x: Nominated, y: Nominated)
    requires Linked(env, x)
    ensures Backs(env, x, y) <==> exists name: nat, l: Link {:trigger env.linkByName(name), OnLink(env, y, l)} ::
      env.linkOf(x.p.value).value.failoverTo == Some(name) && env.linkByName(name) == Some(l) && OnLink(env, y, l)
  {
    if Backs(env, x, y) {
      var name, l := env.linkOf(x.p.value).value.failoverTo.value, FailoverLink(env, x).value;
      assert env.linkByName(name) == Some(l) && OnLink(env, y, l);
    }
  }

  /** What a backup inherits, and when that is less than what the path it backs has: only if that has ten points or
      eleven to lose. Otherwise the score wraps, and the backup beats all ordinary scores. */
  lemma InheritedScores(y: Nominated, handicap: int)
    requires 0 <= handicap < WORD / 2 && y.failoverScore < WORD / 2
    ensures var less := if Preferred(y) then 0 else 1;
      && (handicap >= 10 && (handicap > 10 || y.failoverScore > 0 || Preferred(y)) ==>
          InheritedScore(y, handicap) == (if y.failoverScore > handicap - 10 then y.failoverScore else handicap - 10)
            - less)
      && (handicap < 10 ==> InheritedScore(y, handicap) == WORD + handicap - 10 - less)
    ensures y.failoverScore == 0 ==>
      (InheritedScore(y, handicap) < handicap <==> handicap >= if Preferred(y) then 10 else 11)
  {}

  /** The score of slot k once slot i has got its own and passed it on. */
  function Instructed(env: Env, s: Slots, i: nat, k: nat): Score
    requires i < NO_PATH && k < NO_PATH && Linked(env, s[i])
  {
    var y := if k == i then s[k].(failoverScore := OwnScore(env, s[i])) else s[k];
    if Backs(env, s[i], y) then InheritedScore(y, Handicap(env, s[i])) else y.failoverScore
  }

  /** Only slot i and the slots on the link it fails over to get another score; those inherit. */
  lemma InstructedMeans(env: Env, s: Slots, i: nat, k: nat)
    requires i < NO_PATH && k < NO_PATH && Linked(env, s[i])
    ensures !Backs(env, s[i], s[k]) ==>
      Instructed(env, s, i, k) == if k == i then OwnScore(env, s[i]) else s[k].failoverScore
    ensures Backs(env, s[i], s[k]) && k != i ==>
      Instructed(env, s, i, k) == InheritedScore(s[k], Handicap(env, s[i]))
    ensures Backs(env, s[i], s[i]) ==>
      Instructed(env, s, i, i) == InheritedScore(s[i].(failoverScore := OwnScore(env, s[i])), Handicap(env, s[i]))
  {}

  /** The slots with other scores. */
  function Scored(s: seq<Nominated>, score: nat -> Score): (r: seq<Nominated>)
    ensures |r| == |s| && forall k | 0 <= k < |s| :: r[k] == s[k].(failoverScore := score(k))
  {
    seq(|s|, k requires 0 <= k < |s| => s[k].(failoverScore := score(k)))
  }

  /** The scores after the first n slots have passed theirs on, starting from zero. */
  function Instructions(env: Env, s: Slots, n: nat): (r: nat -> Score)
    requires n <= NO_PATH
  {
    if n == 0 then (k: nat) => if k < NO_PATH && s[k].p.None? then s[k].failoverScore else 0
    else
      var before := Instructions(env, s, n - 1);
      var t := Scored(s, before);
      if Candidate(env, s[n - 1]) then (k: nat) => if k < NO_PATH then Instructed(env, t, n - 1, k) else 0 else before
  }

  /** The difference of two scores as an int. */
  function Gain(from: Nominated, to: Nominated): int {
    ToSigned(ToUnsigned(to.failoverScore - from.failoverScore))
  }

  /** Whether a usable active path is left for the front of the queue. */
  predicate Switches(env: Env, settings: Settings, active: Nominated, front: Nominated, waited: bool, threshold: int) {
    match settings.reselection
    case Always => Linked(env, active) && !OnPrimary(env, active) && OnPrimary(env, front)
    case Better => Linked(env, active) && !OnPrimary(env, active) && OnPrimary(env, front)
      && front.failoverScore > active.failoverScore
    case Optimize => front.negotiated || (waited && Gain(active, front) > 0 && Gain(active, front) > threshold)
    case OnFailure => false
  }

  /**
   * A usable active path on a primary link is never left except when optimizing; it is then left
   * for a negotiated path, or for one with a higher score, if scores are below 2^31.
   */
  lemma SwitchesMean(env: Env, settings: Settings, active: Nominated, front: Nominated, waited: bool, threshold: int)
    requires Switches(env, settings, active, front, waited, threshold)
    ensures OnPrimary(env, active) ==> settings.reselection == Optimize
    ensures settings.reselection != Optimize ==> OnPrimary(env, front)
    ensures settings.reselection == Better ==> front.failoverScore > active.failoverScore
    ensures
      && settings.reselection == Optimize && !front.negotiated
      && front.failoverScore < WORD / 2 && active.failoverScore < WORD / 2 ==>
      front.failoverScore > active.failoverScore + threshold && front.failoverScore > active.failoverScore
  {}

  /** When a switch must happen, policy by policy. */
  lemma SwitchesIff(env: Env, settings: Settings, active: Nominated, front: Nominated, waited: bool, threshold: int)
    ensures settings.reselection == Always ==>
      (Switches(env, settings, active, front, waited, threshold) <==>
        Linked(env, active) && !OnPrimary(env, active) && OnPrimary(env, front))
    ensures settings.reselection == Better ==>
      (Switches(env, settings, active, front, waited, threshold) <==>
        Linked(env, active) && !OnPrimary(env, active) && OnPrimary(env, front)
        && front.failoverScore > active.failoverScore)
    ensures settings.reselection == Optimize && front.failoverScore < WORD / 2 && active.failoverScore < WORD / 2 ==>
      (Switches(env, settings, active, front, waited, threshold) <==>
        front.negotiated || (waited && front.failoverScore > active.failoverScore
          && front.failoverScore - active.failoverScore > threshold))
    ensures settings.reselection == OnFailure ==> !Switches(env, settings, active, front, waited, threshold)
  {}

  /** What re-selection makes of an active path and a sorted queue. */
  ghost function Reselected(
    env: Env, settings: Settings, s: Slots, active: nat, queue: seq<nat>, waited: bool, threshold: int): (nat, seq<nat>)
    requires active < NO_PATH && forall q | q in queue :: q < NO_PATH
  {
    if queue != [] && Switches(env, settings, s[active], s[First(queue)], waited, threshold) then (queue[0], queue[1..])
    else (active, queue)
  }

  function First(queue: seq<nat>): (q: nat)
    requires queue != []
    ensures q in queue
  {
    queue[0]
  }

  function Rest(queue: seq<nat>): (r: seq<nat>)
    requires queue != []
    ensures forall q | q in r :: q in queue
  {
    queue[1..]
  }

  /** What the whole task makes of them: a failed path gives way to the front of the queue, then
      re-selection follows. */
  ghost function TaskResult(
    env: Env, settings: Settings, s: Slots, active: nat, queue: seq<nat>, waited: bool, threshold: int): (nat, seq<nat>)
    requires active < NO_PATH && forall q | q in queue :: q < NO_PATH
  {
    if queue == [] || s[active].eligible then Reselected(env, settings, s, active, queue, waited, threshold)
    else Reselected(env, settings, s, First(queue), Rest(queue), false, threshold)
  }

  /** The path of slot i is active, or some queued slot has it. */
  ghost predicate Represented(s: Slots, active: nat, queue: seq<nat>, i: nat)
    requires active < NO_PATH && i < NO_PATH
  {
    s[i].p == s[active].p || exists q :: q in queue && q < NO_PATH && s[q].p == s[i].p
  }

  /** The queued slots that are still usable. */
  function Pruned(s: Slots, queue: seq<nat>): (r: seq<nat>)
    ensures forall q :: q in r <==> q in queue && q < NO_PATH && Usable(s[q])
  {
    if queue == [] then [] else
      var q := queue[|queue| - 1];
      Pruned(s, queue[..|queue| - 1]) + if q < NO_PATH && Usable(s[q]) then [q] else []
  }

  /** The queue once the first n slots have been looked at: a candidate joins unless its path is represented. */
  ghost function Gathered(env: Env, s: Slots, active: nat, queue: seq<nat>, n: nat): seq<nat>
    requires active < NO_PATH && n <= NO_PATH
  {
    if n == 0 then queue else
      var before := Gathered(env, s, active, queue, n - 1);
      if Candidate(env, s[n - 1]) && !Represented(s, active, before, n - 1) then before + [n - 1] else before
  }

  /** Who is queued then: who was before, and candidates whose path nobody else has, neither the active slot nor a
      queued one; and every candidate's path is represented. */
  lemma {:induction false} GatheredMeans(env: Env, s: Slots, active: nat, queue: seq<nat>, n: nat)
    requires active < NO_PATH && n <= NO_PATH
    ensures var r := Gathered(env, s, active, queue, n);
      && (forall q | q in queue :: q in r)
      && (forall q | q in r && q !in queue :: q < n && Candidate(env, s[q]) && s[q].p != s[active].p)
      && (forall q, q' | q in r && q !in queue && q' in r && q' < NO_PATH && s[q'].p == s[q].p :: q' == q)
      && (forall i | 0 <= i < n && Candidate(env, s[i]) :: Represented(s, active, r, i))
  {
    hide Candidate;
    if n > 0 {
      GatheredMeans(env, s, active, queue, n - 1);
    }
  }

  /** Scores follow the user's instructions if there are any, and the measured quality of candidates otherwise. */
  ghost predicate Rescored(env: Env, settings: Settings, was: Slots, s: Slots) {
    if settings.failoverInstructions
    then forall k | 0 <= k < NO_PATH :: s[k].failoverScore == Instructions(env, was, NO_PATH)(k)
    else forall k | 0 <= k < NO_PATH && Candidate(env, was[k]) ::
      s[k].failoverScore == QualityScore(env, settings, was[k])
  }

  predicate SortedByScore(s: seq<Nominated>, q: seq<nat>) {
    forall a, b | 0 <= a < b < |q| :: q[a] < |s| && q[b] < |s| && s[q[a]].failoverScore >= s[q[b]].failoverScore
  }

  class ActiveBackup {
    const paths: array<Nominated>
    const realIdxMap: array<nat>
    var abPathIdx: nat
    var abFailoverQueue: seq<nat>
    var lastActiveBackupPathChange: int

    /** The queue holds no index twice. The slots may change in any way between calls. */
    ghost predicate Valid()
      reads this
    {
      && paths.Length == NO_PATH && realIdxMap.Length == NO_PATH && abPathIdx <= NO_PATH
      && NoDuplicates(abFailoverQueue) && forall i | i in abFailoverQueue :: i < NO_PATH
    }

    constructor ()
      ensures Valid() && fresh(paths) && fresh(realIdxMap) && abPathIdx == NO_PATH
    {
      paths := new Nominated[NO_PATH](_ => Nominated(None, true, 0, false, false, false, 0, 0, 0, false));
      realIdxMap := new nat[NO_PATH](_ => NO_PATH);
      abPathIdx, abFailoverQueue, lastActiveBackupPathChange := NO_PATH, [], 0;
    }

    /** The front of the queue becomes the active path. Packet counters are not part of the model. */
    method DequeueNext(now: int)
      requires Valid()
      modifies this
      ensures Valid()
      ensures old(abFailoverQueue) == [] ==> abPathIdx == old(abPathIdx) && abFailoverQueue == []
      ensures old(abFailoverQueue) != [] ==>
        abPathIdx == old(abFailoverQueue)[0] && abFailoverQueue == old(abFailoverQueue)[1..]
      ensures lastActiveBackupPathChange == if old(abFailoverQueue) == [] then old(lastActiveBackupPathChange) else now
    {
      if abFailoverQueue == [] {
        return;
      }
      assert forall i | i in abFailoverQueue[1..] :: i in abFailoverQueue;
      assert abFailoverQueue[0] in abFailoverQueue;
      abPathIdx := abFailoverQueue[0];
      abFailoverQueue := abFailoverQueue[1..];
      lastActiveBackupPathChange := now;
    }

    /** Forced rotation: the same switch, on request. */
    method ForciblyRotateLink(now: int)
      requires Valid()
      modifies this
      ensures Valid()
      ensures old(abFailoverQueue) == [] ==> abPathIdx == old(abPathIdx) && abFailoverQueue == []
      ensures old(abFailoverQueue) != [] ==>
        abPathIdx == old(abFailoverQueue)[0] && abFailoverQueue == old(abFailoverQueue)[1..]
      ensures lastActiveBackupPathChange == if old(abFailoverQueue) == [] then old(lastActiveBackupPathChange) else now
    {
      DequeueNext(now);
    }

    // ---- selecting an active path ----

    /** The first slot that passes a test, or NO_PATH. */
    method FirstSlot(which: Nominated -> bool) returns (r: nat)
      requires paths.Length == NO_PATH
      ensures r <= NO_PATH && (r < NO_PATH ==> which(paths[r])) && forall i | 0 <= i < r :: !which(paths[i])
    {
      r := 0;
      while r < NO_PATH
        invariant r <= NO_PATH && forall i | 0 <= i < r :: !which(paths[i])
      {
        if which(paths[r]) {
          return;
        }
        r := r + 1;
      }
    }

    /** A path on a primary link: the first preferred one, else the last other one. */
    method SelectPrimary(env: Env) returns (r: nat)
      requires paths.Length == NO_PATH
      ensures r <= NO_PATH && (r < NO_PATH ==> paths[r].eligible && OnPrimary(env, paths[r]))
      ensures r == NO_PATH ==> forall i | 0 <= i < NO_PATH :: !(paths[i].eligible && OnPrimary(env, paths[i]))
      ensures r < NO_PATH && Preferred(paths[r]) ==>
        forall i | 0 <= i < r :: !(paths[i].eligible && OnPrimary(env, paths[i]) && Preferred(paths[i]))
      ensures r < NO_PATH && !Preferred(paths[r]) ==>
        && (forall i | 0 <= i < NO_PATH :: !(paths[i].eligible && OnPrimary(env, paths[i]) && Preferred(paths[i])))
        && (forall i | r < i < NO_PATH :: !(paths[i].eligible && OnPrimary(env, paths[i])))
    {
      var nonPreferred: nat := NO_PATH;
      for i := 0 to NO_PATH
        invariant nonPreferred <= NO_PATH
        invariant nonPreferred < NO_PATH ==>
          && nonPreferred < i && paths[nonPreferred].eligible && OnPrimary(env, paths[nonPreferred])
          && !Preferred(paths[nonPreferred])
          && (forall k | nonPreferred < k < i :: !(paths[k].eligible && OnPrimary(env, paths[k])))
        invariant nonPreferred == NO_PATH ==> forall k | 0 <= k < i :: !(paths[k].eligible && OnPrimary(env, paths[k]))
        invariant forall k | 0 <= k < i :: !(paths[k].eligible && OnPrimary(env, paths[k]) && Preferred(paths[k]))
      {
        if Linked(env, paths[i]) && paths[i].eligible && env.linkOf(paths[i].p.value).value.primary {
          if !Preferred(paths[i]) {
            nonPreferred := i;
          } else {
            return i;
          }
        }
      }
      return nonPreferred;
    }

    /** Keep the active path while its slot is in use, else select one by the mode the user's settings imply. */
    method SelectActive(env: Env, settings: Settings)
      requires Valid()
      modifies this`abPathIdx
      ensures abPathIdx <= NO_PATH
      ensures abPathIdx < NO_PATH ==>
        paths[abPathIdx].p.Some? && (abPathIdx == old(abPathIdx) || paths[abPathIdx].eligible)
      ensures old(abPathIdx) < NO_PATH && paths[old(abPathIdx)].p.Some? ==> abPathIdx == old(abPathIdx)
      // nothing is selected only when there is nothing to select
      ensures abPathIdx == NO_PATH && !settings.links ==>
        forall i | 0 <= i < NO_PATH :: !(Usable(paths[i]) && Linked(env, paths[i]))
      ensures abPathIdx == NO_PATH && settings.links && settings.primaryLink ==>
        forall i | 0 <= i < NO_PATH :: !(paths[i].eligible && OnPrimary(env, paths[i]))
      ensures abPathIdx == NO_PATH && settings.links && !settings.primaryLink ==>
        forall i | 0 <= i < NO_PATH :: !Usable(paths[i])
      // what is selected: with a primary link the first preferred path on one, or the last other path on one
      ensures abPathIdx < NO_PATH && (old(abPathIdx) == NO_PATH || paths[old(abPathIdx)].p.None?) ==>
        settings.links && settings.primaryLink ==>
        && paths[abPathIdx].eligible && OnPrimary(env, paths[abPathIdx])
        && (Preferred(paths[abPathIdx]) ==> forall i | 0 <= i < abPathIdx ::
              !(paths[i].eligible && OnPrimary(env, paths[i]) && Preferred(paths[i])))
        && (!Preferred(paths[abPathIdx]) ==>
            && (forall i | 0 <= i < NO_PATH :: !(paths[i].eligible && OnPrimary(env, paths[i]) && Preferred(paths[i])))
            && (forall i | abPathIdx < i < NO_PATH :: !(paths[i].eligible && OnPrimary(env, paths[i]))))
      // without one the first usable path, on any link if the user named none
      ensures abPathIdx < NO_PATH && (old(abPathIdx) == NO_PATH || paths[old(abPathIdx)].p.None?) ==>
        settings.links && !settings.primaryLink ==>
        Usable(paths[abPathIdx]) && forall i | 0 <= i < abPathIdx :: !Usable(paths[i])
      ensures abPathIdx < NO_PATH && (old(abPathIdx) == NO_PATH || paths[old(abPathIdx)].p.None?) ==>
        !settings.links ==>
        && Usable(paths[abPathIdx]) && Linked(env, paths[abPathIdx])
        && (forall i | 0 <= i < abPathIdx :: !(Usable(paths[i]) && Linked(env, paths[i])))
    {
      if abPathIdx != NO_PATH && paths[abPathIdx].p.None? {
        abPathIdx := NO_PATH;
      }
      if abPathIdx == NO_PATH {
        if !settings.links {
          abPathIdx := FirstSlot(x => Usable(x) && Linked(env, x));
        } else if settings.primaryLink {
          abPathIdx := SelectPrimary(env);
        } else {
          abPathIdx := FirstSlot(Usable);
        }
      }
    }

    // ---- the queue ----

    /** Drop queued slots that are empty or not eligible. */
    method PruneQueue()
      requires Valid()
      modifies this`abFailoverQueue
      ensures Valid() && abFailoverQueue == Pruned(paths[..], old(abFailoverQueue))
    {
      var kept: seq<nat> := [];
      for k := 0 to |abFailoverQueue|
        invariant NoDuplicates(kept) && kept == Pruned(paths[..], abFailoverQueue[..k])
      {
        var q := abFailoverQueue[k];
        var upTo := abFailoverQueue[..k + 1];
        assert q in abFailoverQueue && upTo[..k] == abFailoverQueue[..k] && upTo[k] == q;
        if Usable(paths[q]) {
          assert q !in abFailoverQueue[..k];
          kept := kept + [q];
        }
      }
      assert abFailoverQueue[..|abFailoverQueue|] == abFailoverQueue;
      abFailoverQueue := kept;
    }

    /** The queue is sound: usable slots, no index twice. */
    ghost predicate Queued()
      reads this, paths
    {
      Valid() && abPathIdx < NO_PATH && forall q | q in abFailoverQueue :: Usable(paths[q])
    }

    /** Queue slot i unless its path is the active one or already queued, and map it to bonded index 0. */
    method Enqueue(i: nat)
      requires Queued() && i < NO_PATH && Usable(paths[i])
      modifies this`abFailoverQueue, paths, realIdxMap
      ensures Queued() && SameSlots(old(paths[..]), paths[..])
      ensures old(Represented(paths[..], abPathIdx, abFailoverQueue, i)) ==>
        abFailoverQueue == old(abFailoverQueue) && paths[..] == old(paths[..]) && realIdxMap[..] == old(realIdxMap[..])
      ensures !old(Represented(paths[..], abPathIdx, abFailoverQueue, i)) ==>
        && abFailoverQueue == old(abFailoverQueue) + [i] && realIdxMap[..] == old(realIdxMap[..])[0 := i]
        && paths[..] == old(paths[..])[i := old(paths[i]).(bonded := true)]
    {
      if paths[i].p != paths[abPathIdx].p {
        var found := false;
        for k := 0 to |abFailoverQueue|
          invariant found <==> exists q :: q in abFailoverQueue[..k] && q < NO_PATH && paths[q].p == paths[i].p
        {
          var q := abFailoverQueue[k];
          assert q in abFailoverQueue && abFailoverQueue[..k + 1] == abFailoverQueue[..k] + [q];
          if paths[q].p == paths[i].p {
            found := true;
          }
        }
        assert abFailoverQueue[..|abFailoverQueue|] == abFailoverQueue;
        if !found {
          assert i !in abFailoverQueue;
          abFailoverQueue := abFailoverQueue + [i];
          realIdxMap[0] := i;
          paths[i] := paths[i].(bonded := true);
        }
      }
    }

    method SetScore(j: nat, score: Score)
      requires Queued() && j < NO_PATH
      modifies paths
      ensures Queued() && SameSlots(old(paths[..]), paths[..])
      ensures paths[..] == old(paths[..])[j := old(paths[j]).(failoverScore := score)]
    {
      paths[j] := paths[j].(failoverScore := score);
    }

    /** The user's failover instructions: a score per path, inherited along failover links in 32-bit arithmetic. */
    method ScoreByInstructions(env: Env)
      requires Queued()
      modifies this`abFailoverQueue, paths, realIdxMap
      ensures Queued() && SameSlots(old(paths[..]), paths[..])
      ensures abFailoverQueue == Gathered(env, old(paths[..]), abPathIdx, old(abFailoverQueue), NO_PATH)
      ensures forall k | 0 <= k < NO_PATH ::
        paths[k].bonded == (old(paths[k].bonded) || (k in abFailoverQueue && k !in old(abFailoverQueue)))
      ensures forall k | 0 <= k < NO_PATH :: paths[k].failoverScore == Instructions(env, old(paths[..]), NO_PATH)(k)
    {
      ghost var was: Slots := paths[..];
      ClearScores();
      hide Candidate, Instructed, Gathered, Represented;
      for i := 0 to NO_PATH
        invariant Queued() && Gathering(env, was, paths[..], abPathIdx, old(abFailoverQueue), abFailoverQueue, i)
        invariant HaveScores(Instructions(env, was, i))
      {
        CandidateStays(env, was, paths[..], i);
        ghost var s, queue := paths[..], abFailoverQueue;
        if Candidate(env, paths[i]) {
          InstructionsStep(env, was, paths[..], i);
          ScorePath(env, i);
          ScoresAside(env, was, s, paths[..], abPathIdx, old(abFailoverQueue), queue, i);
          s := paths[..];
          Enqueue(i);
          OneJoins(env, was, s, paths[..], abPathIdx, old(abFailoverQueue), queue, abFailoverQueue, i);
        } else {
          NoneJoins(env, was, s, abPathIdx, old(abFailoverQueue), queue, i);
        }
      }
    }

    ghost predicate HaveScores(score: nat -> Score)
      requires paths.Length == NO_PATH
      reads paths
    {
      forall k | 0 <= k < NO_PATH :: paths[k].failoverScore == score(k)
    }

    method ClearScores()
      requires Queued()
      modifies paths
      ensures forall k | 0 <= k < NO_PATH :: paths[k].bonded == old(paths[k].bonded)
      ensures Queued() && SameSlots(old(paths[..]), paths[..])
      ensures forall k | 0 <= k < NO_PATH :: paths[k].failoverScore == if paths[k].p.Some? then 0
        else old(paths[k].failoverScore)
    {
      for i := 0 to NO_PATH
        invariant Queued() && SameSlots(old(paths[..]), paths[..])
        invariant forall k | 0 <= k < i :: paths[k].failoverScore == if paths[k].p.Some? then 0
          else old(paths[k].failoverScore)
        invariant forall k | 0 <= k < NO_PATH :: paths[k].bonded == old(paths[k].bonded)
        invariant forall k | i <= k < NO_PATH :: paths[k] == old(paths[k])
      {
        if paths[i].p.Some? {
          SetScore(i, 0);
        }
      }
    }

    method ScorePath(env: Env, i: nat)
      requires Queued() && i < NO_PATH && Candidate(env, paths[i])
      modifies paths
      ensures forall k | 0 <= k < NO_PATH :: paths[k].bonded == old(paths[k].bonded)
      ensures Queued() && SameSlots(old(paths[..]), paths[..])
      ensures forall k | 0 <= k < NO_PATH :: paths[k].failoverScore == Instructed(env, old(paths[..]), i, k)
    {
      hide OwnScore, Handicap, InheritedScore;
      ghost var was: Slots := paths[..];
      var link := env.linkOf(paths[i].p.value).value;
      var handicap := ScoreOwn(env, i, link);
      var failoverLink := if link.failoverTo.Some? then env.linkByName(link.failoverTo.value) else None;
      assert failoverLink == FailoverLink(env, was[i]);
      if failoverLink.Some? {
        PassOn(env, i, handicap, failoverLink.value, was);
      }
    }

    method ScoreOwn(env: Env, i: nat, link: Link) returns (handicap: int)
      requires Queued() && i < NO_PATH && paths[i].p.Some? && env.linkOf(paths[i].p.value) == Some(link)
      modifies paths
      ensures Queued() && SameSlots(old(paths[..]), paths[..])
      ensures handicap == Handicap(env, old(paths[i]))
      ensures paths[..] == old(paths[..])[i := old(paths[i]).(failoverScore := OwnScore(env, old(paths[i])))]
    {
      handicap := ToSigned(paths[i].failoverScore);
      if Preferred(paths[i]) {
        handicap := handicap + HANDICAP_PREFERRED;
      }
      if link.primary {
        handicap := handicap + HANDICAP_PRIMARY;
      }
      if paths[i].failoverScore == 0 {
        SetScore(i, ToUnsigned(if handicap != 0 then handicap else paths[i].quality255));
      }
    }

    /** Every path on the failover link inherits. */
    method PassOn(env: Env, i: nat, handicap: int, failoverLink: Link, ghost was: Slots)
      requires Queued() && i < NO_PATH && Linked(env, was[i]) && handicap == Handicap(env, was[i])
      requires FailoverLink(env, was[i]) == Some(failoverLink)
      requires paths[..] == was[i := was[i].(failoverScore := OwnScore(env, was[i]))]
      modifies paths
      ensures forall k | 0 <= k < NO_PATH :: paths[k].bonded == old(paths[k].bonded)
      ensures Queued() && SameSlots(old(paths[..]), paths[..])
      ensures forall k | 0 <= k < NO_PATH :: paths[k].failoverScore == Instructed(env, was, i, k)
    {
      hide Handicap, OwnScore, InheritedScore;
      for j := 0 to NO_PATH
        invariant Queued() && SameSlots(old(paths[..]), paths[..])
        invariant forall k | 0 <= k < j :: paths[k].failoverScore == Instructed(env, was, i, k)
        invariant forall k | 0 <= k < NO_PATH :: paths[k].bonded == old(paths[k].bonded)
        invariant forall k | j <= k < NO_PATH :: paths[k] == old(paths[k])
      {
        if paths[j].p.Some? && env.linkOf(paths[j].p.value) == Some(failoverLink) {
          var inheritedHandicap := handicap - 10;
          var newHandicap := if paths[j].failoverScore > ToUnsigned(inheritedHandicap)
            then ToSigned(paths[j].failoverScore) else inheritedHandicap;
          if !Preferred(paths[j]) {
            newHandicap := newHandicap - 1;
          }
          Inherits(paths[j], handicap);
          SetScore(j, ToUnsigned(newHandicap));
        }
      }
    }

    /** No instructions: quality, and a handicap for preferred and for primary paths. */
    method ScoreByQuality(env: Env, settings: Settings)
      requires Queued()
      modifies this`abFailoverQueue, paths, realIdxMap
      ensures Queued() && SameSlots(old(paths[..]), paths[..])
      ensures abFailoverQueue == Gathered(env, old(paths[..]), abPathIdx, old(abFailoverQueue), NO_PATH)
      ensures forall k | 0 <= k < NO_PATH ::
        paths[k].bonded == (old(paths[k].bonded) || (k in abFailoverQueue && k !in old(abFailoverQueue)))
      ensures forall i | 0 <= i < NO_PATH && Candidate(env, old(paths[i])) ::
        paths[i].failoverScore == QualityScore(env, settings, old(paths[i]))
    {
      hide Candidate, QualityScore, Gathered, Represented;
      ghost var was: Slots := paths[..];
      StartGathering(env, was, abPathIdx, abFailoverQueue);
      for i := 0 to NO_PATH
        invariant Queued() && Gathering(env, was, paths[..], abPathIdx, old(abFailoverQueue), abFailoverQueue, i)
        invariant forall k | 0 <= k < i && Candidate(env, was[k]) ::
          paths[k].failoverScore == QualityScore(env, settings, was[k])
        invariant forall k | i <= k < NO_PATH :: paths[k].failoverScore == was[k].failoverScore
      {
        CandidateStays(env, was, paths[..], i);
        QualityStays(env, settings, was, paths[..], i);
        ghost var s, queue := paths[..], abFailoverQueue;
        if Candidate(env, paths[i]) {
          ScoreOne(env, settings, i);
          ScoresAside(env, was, s, paths[..], abPathIdx, old(abFailoverQueue), queue, i);
          s := paths[..];
          Enqueue(i);
          OneJoins(env, was, s, paths[..], abPathIdx, old(abFailoverQueue), queue, abFailoverQueue, i);
        } else {
          NoneJoins(env, was, s, abPathIdx, old(abFailoverQueue), queue, i);
        }
      }
    }

    method ScoreOne(env: Env, settings: Settings, i: nat)
      requires Queued() && i < NO_PATH && Candidate(env, paths[i])
      modifies paths
      ensures forall k | 0 <= k < NO_PATH :: paths[k].bonded == old(paths[k].bonded)
      ensures Queued() && SameSlots(old(paths[..]), paths[..]) && Usable(paths[i])
      ensures paths[i].failoverScore == QualityScore(env, settings, old(paths[i]))
      ensures forall k | 0 <= k < NO_PATH && k != i :: paths[k] == old(paths[k])
    {
      var handicap := if Preferred(paths[i]) then HANDICAP_PREFERRED else 0;
      if env.linkOf(paths[i].p.value).value.primary && settings.reselection != Optimize {
        handicap := HANDICAP_PRIMARY;
      }
      SetScore(i, ToUnsigned(paths[i].quality + handicap));
    }

    /** Highest score first. */
    method SortQueue()
      requires Queued()
      modifies this`abFailoverQueue
      ensures Queued() && SortedByScore(paths[..], abFailoverQueue)
      ensures forall q :: q in abFailoverQueue <==> q in old(abFailoverQueue)
    {
      var sorted: seq<nat> := [];
      for k := 0 to |abFailoverQueue|
        invariant forall q :: q in sorted <==> q in abFailoverQueue[..k]
        invariant forall q | q in sorted :: q < NO_PATH
        invariant NoDuplicates(sorted) && SortedByScore(paths[..], sorted)
        modifies {}
      {
        var x := abFailoverQueue[k];
        assert x in abFailoverQueue && abFailoverQueue[..k + 1] == abFailoverQueue[..k] + [x];
        assert x !in abFailoverQueue[..k];
        sorted := InsertByScore(sorted, x);
      }
      assert abFailoverQueue[..|abFailoverQueue|] == abFailoverQueue;
      abFailoverQueue := sorted;
    }

    method InsertByScore(s: seq<nat>, x: nat) returns (r: seq<nat>)
      requires paths.Length == NO_PATH && x < NO_PATH && x !in s && forall q | q in s :: q < NO_PATH
      requires NoDuplicates(s) && SortedByScore(paths[..], s)
      ensures forall q :: q in r <==> q in s || q == x
      ensures forall q | q in r :: q < NO_PATH
      ensures NoDuplicates(r) && SortedByScore(paths[..], r)
    {
      var m := 0;
      assert forall a | 0 <= a < |s| :: s[a] in s;
      while m < |s| && paths[s[m]].failoverScore >= paths[x].failoverScore
        invariant m <= |s| && forall a | 0 <= a < m :: paths[s[a]].failoverScore >= paths[x].failoverScore
      {
        m := m + 1;
      }
      r := s[..m] + [x] + s[m..];
      InsertedSorted(paths[..], s, m, x);
      InsertedIn(s, m, x);
    }

    // ---- the periodic task ----

    /** Switch to the front of the sorted queue: a usable path whose score no other queued path exceeds. */
    method SwitchToFront(now: int)
      requires Queued() && abFailoverQueue != [] && SortedByScore(paths[..], abFailoverQueue)
      modifies this
      ensures Queued() && SortedByScore(paths[..], abFailoverQueue)
      ensures abPathIdx == old(abFailoverQueue)[0] && abFailoverQueue == old(abFailoverQueue)[1..]
        && Usable(paths[abPathIdx])
      ensures lastActiveBackupPathChange == now
      ensures forall q | q in old(abFailoverQueue) ::
        q < NO_PATH && paths[q].failoverScore <= paths[abPathIdx].failoverScore
    {
      ghost var queue, ps := abFailoverQueue, paths[..];
      assert queue[0] in queue && Usable(paths[queue[0]]);
      assert forall q | q in queue[1..] :: q in queue;
      FrontIsBest(ps, queue);
      DequeueNext(now);
      assert abFailoverQueue == queue[1..] && paths[..] == ps;
    }

    /** The re-selection policies, once the active path is usable. threshold is what a better path must gain. */
    method Reselect(env: Env, settings: Settings, now: int, threshold: int)
      requires Queued() && abFailoverQueue != [] && SortedByScore(paths[..], abFailoverQueue)
        && Usable(paths[abPathIdx])
      modifies this
      ensures Queued() && Usable(paths[abPathIdx]) && SortedByScore(paths[..], abFailoverQueue)
      ensures (abPathIdx, abFailoverQueue) == Reselected(
        env, settings, paths[..], old(abPathIdx), old(abFailoverQueue),
        now - old(lastActiveBackupPathChange) > OPTIMIZE_INTERVAL, threshold)
      ensures (abPathIdx == old(abPathIdx) && abFailoverQueue == old(abFailoverQueue))
        || forall q | q in old(abFailoverQueue) ::
           q < NO_PATH && paths[q].failoverScore <= paths[abPathIdx].failoverScore
    {
      var front := abFailoverQueue[0];
      assert front in abFailoverQueue;
      var abLink := env.linkOf(paths[abPathIdx].p.value);
      var frontLink := env.linkOf(paths[front].p.value);
      match settings.reselection {
        case Always =>
          if abLink.Some? && !abLink.value.primary && frontLink.Some? && frontLink.value.primary {
            SwitchToFront(now);
          }
        case Better =>
          if abLink.Some? && !abLink.value.primary && frontLink.Some? && frontLink.value.primary
             && paths[front].failoverScore > paths[abPathIdx].failoverScore {
            SwitchToFront(now);
          }
        case Optimize =>
          if paths[front].negotiated {
            SwitchToFront(now);
          } else if now - lastActiveBackupPathChange > OPTIMIZE_INTERVAL {
            var difference := Gain(paths[abPathIdx], paths[front]);
            if difference > 0 && difference > threshold {
              SwitchToFront(now);
            }
          }
        case OnFailure =>
      }
    }

    /** processActiveBackupTasks, with the path selected first and the queue built behind it. */
    method Process(env: Env, settings: Settings, now: int, threshold: int)
      returns (ghost active: nat, ghost queue: seq<nat>)
      requires Valid()
      modifies this, paths, realIdxMap
      ensures Valid() && SameSlots(old(paths[..]), paths[..])
      // what is selected, and what is queued behind it
      ensures active <= NO_PATH
        && (old(abPathIdx) < NO_PATH && old(paths[abPathIdx]).p.Some? ==> active == old(abPathIdx))
      ensures active == NO_PATH ==> abPathIdx == NO_PATH
      ensures active == NO_PATH ==> forall i | 0 <= i < NO_PATH :: var x := old(paths[i]);
        if !settings.links then !(Usable(x) && Linked(env, x))
        else if settings.primaryLink then !(x.eligible && OnPrimary(env, x)) else !Usable(x)
      ensures active < NO_PATH && (old(abPathIdx) == NO_PATH || old(paths[abPathIdx]).p.None?) ==>
        settings.links && settings.primaryLink ==>
        && old(paths[..])[active].eligible && OnPrimary(env, old(paths[..])[active])
        && (Preferred(old(paths[..])[active]) ==> forall i | 0 <= i < active ::
              !(old(paths[i]).eligible && OnPrimary(env, old(paths[i])) && Preferred(old(paths[i]))))
        && (!Preferred(old(paths[..])[active]) ==>
            && (forall i | 0 <= i < NO_PATH ::
                  !(old(paths[i]).eligible && OnPrimary(env, old(paths[i])) && Preferred(old(paths[i]))))
            && (forall i | active < i < NO_PATH :: !(old(paths[i]).eligible && OnPrimary(env, old(paths[i])))))
      ensures active < NO_PATH && (old(abPathIdx) == NO_PATH || old(paths[abPathIdx]).p.None?) ==>
        settings.links && !settings.primaryLink ==>
        Usable(old(paths[..])[active]) && forall i | 0 <= i < active :: !Usable(old(paths[i]))
      ensures active < NO_PATH && (old(abPathIdx) == NO_PATH || old(paths[abPathIdx]).p.None?) ==>
        !settings.links ==>
        && Usable(old(paths[..])[active]) && Linked(env, old(paths[..])[active])
        && (forall i | 0 <= i < active :: !(Usable(old(paths[i])) && Linked(env, old(paths[i]))))
      ensures active < NO_PATH ==>
        && NoDuplicates(queue) && SortedByScore(paths[..], queue)
        && (forall q | q in queue :: q < NO_PATH && Usable(paths[q]))
        && forall i | 0 <= i < NO_PATH && Candidate(env, paths[i]) :: Represented(paths[..], active, queue, i)
      ensures active < NO_PATH ==> forall q :: q in queue <==>
        q in Gathered(env, old(paths[..]), active, Pruned(old(paths[..]), old(abFailoverQueue)), NO_PATH)
      ensures active < NO_PATH ==> forall k | 0 <= k < NO_PATH ::
        paths[k].bonded == (old(paths[k].bonded) || (k in queue && k !in old(abFailoverQueue)))
      ensures active < NO_PATH ==> Rescored(env, settings, old(paths[..]), paths[..])
      // exactly what becomes of them
      ensures active < NO_PATH ==> (abPathIdx, abFailoverQueue) == TaskResult(
        env, settings, paths[..], active, queue,
        active == old(abPathIdx) && now - old(lastActiveBackupPathChange) > OPTIMIZE_INTERVAL, threshold)
      // it ends with a usable path, or there is no other; and what it leaves in the queue does not outscore a new path
      ensures active < NO_PATH ==>
        (paths[abPathIdx].p.Some? && paths[abPathIdx].eligible)
        || forall i | 0 <= i < NO_PATH && Candidate(env, paths[i]) :: paths[i].p == paths[abPathIdx].p
      ensures abPathIdx < NO_PATH ==> active < NO_PATH && SortedByScore(paths[..], abFailoverQueue)
      ensures active < NO_PATH && abPathIdx != active ==>
        forall q | q in abFailoverQueue :: q < NO_PATH && paths[q].failoverScore <= paths[abPathIdx].failoverScore
      ensures old(abPathIdx) < NO_PATH && settings.reselection == OnFailure && Usable(old(paths[abPathIdx])) ==>
        abPathIdx == old(abPathIdx)
    {
      hide Gathered, Pruned, TaskResult, Rescored, Represented, SortedByScore, OnPrimary, Preferred, Linked, Candidate;
      var prev := abPathIdx;
      SelectActive(env, settings);
      active, queue := abPathIdx, [];
      if abPathIdx == NO_PATH {
        return;
      }
      queue := Continue(env, settings, now, threshold, prev);
    }

    /** The task past the selection of an active path. */
    method Continue(env: Env, settings: Settings, now: int, threshold: int, prev: nat) returns (ghost queue: seq<nat>)
      requires Valid() && abPathIdx < NO_PATH && paths[abPathIdx].p.Some?
      modifies this, paths, realIdxMap
      ensures Valid() && abPathIdx < NO_PATH && SameSlots(old(paths[..]), paths[..])
      ensures SortedByScore(paths[..], abFailoverQueue)
      ensures NoDuplicates(queue) && SortedByScore(paths[..], queue)
      ensures forall q | q in queue :: q < NO_PATH && Usable(paths[q])
      ensures forall i | 0 <= i < NO_PATH && Candidate(env, paths[i]) ::
        Represented(paths[..], old(abPathIdx), queue, i)
      ensures forall q :: q in queue <==>
        q in Gathered(env, old(paths[..]), old(abPathIdx), Pruned(old(paths[..]), old(abFailoverQueue)), NO_PATH)
      ensures forall k | 0 <= k < NO_PATH ::
        paths[k].bonded == (old(paths[k].bonded) || (k in queue && k !in old(abFailoverQueue)))
      ensures Rescored(env, settings, old(paths[..]), paths[..])
      ensures (abPathIdx, abFailoverQueue) == TaskResult(env, settings, paths[..], old(abPathIdx), queue,
        old(abPathIdx) == prev && now - old(lastActiveBackupPathChange) > OPTIMIZE_INTERVAL, threshold)
      ensures (paths[abPathIdx].p.Some? && paths[abPathIdx].eligible)
        || forall i | 0 <= i < NO_PATH && Candidate(env, paths[i]) :: paths[i].p == paths[abPathIdx].p
      ensures abPathIdx != old(abPathIdx) ==>
        forall q | q in abFailoverQueue :: q < NO_PATH && paths[q].failoverScore <= paths[abPathIdx].failoverScore
      ensures settings.reselection == OnFailure && Usable(old(paths[abPathIdx])) ==> abPathIdx == old(abPathIdx)
    {
      BuildQueue(env, settings);
      hide Candidate, Rescored, Switches, Gathered, Pruned;
      queue := abFailoverQueue;
      if abFailoverQueue == [] {
        return;
      }
      FailOver(env, settings, now, threshold, prev);
    }

    /** Drop what can no longer be a backup, score and queue what can, and sort. */
    method BuildQueue(env: Env, settings: Settings)
      requires Valid() && abPathIdx < NO_PATH
      modifies this`abFailoverQueue, paths, realIdxMap
      ensures Queued() && SameSlots(old(paths[..]), paths[..]) && SortedByScore(paths[..], abFailoverQueue)
      ensures Rescored(env, settings, old(paths[..]), paths[..])
      // who is queued: the usable ones of before, and every candidate whose path nobody has
      ensures forall q :: q in abFailoverQueue <==>
        q in Gathered(env, old(paths[..]), abPathIdx, Pruned(old(paths[..]), old(abFailoverQueue)), NO_PATH)
      ensures forall k | 0 <= k < NO_PATH ::
        paths[k].bonded == (old(paths[k].bonded) || (k in abFailoverQueue && k !in old(abFailoverQueue)))
      ensures forall i | 0 <= i < NO_PATH && Candidate(env, paths[i]) ::
        Represented(paths[..], abPathIdx, abFailoverQueue, i)
    {
      hide Candidate, SortedByScore, QualityScore, Gathered, Instructions;
      ghost var was: Slots := paths[..];
      PruneQueue();
      ghost var pruned := abFailoverQueue;
      if settings.failoverInstructions {
        ScoreByInstructions(env);
      } else {
        ScoreByQuality(env, settings);
      }
      GatheredMeans(env, was, abPathIdx, pruned, NO_PATH);
      ghost var gathered := abFailoverQueue;
      SortQueue();
      AllRepresented(env, was, paths[..], abPathIdx, gathered, abFailoverQueue);
    }

    /** Leave a failed active path, or a usable one if the re-selection policy says so. */
    method FailOver(env: Env, settings: Settings, now: int, threshold: int, prev: nat)
      requires Queued() && abFailoverQueue != [] && SortedByScore(paths[..], abFailoverQueue)
        && paths[abPathIdx].p.Some?
      modifies this
      ensures Queued() && Usable(paths[abPathIdx]) && SortedByScore(paths[..], abFailoverQueue)
      ensures settings.reselection == OnFailure && Usable(paths[old(abPathIdx)]) ==> abPathIdx == old(abPathIdx)
      ensures (abPathIdx, abFailoverQueue) == TaskResult(
        env, settings, paths[..], old(abPathIdx), old(abFailoverQueue),
        old(abPathIdx) == prev && now - old(lastActiveBackupPathChange) > OPTIMIZE_INTERVAL, threshold)
      ensures abPathIdx == old(abPathIdx)
        || forall q | q in abFailoverQueue :: q < NO_PATH && paths[q].failoverScore <= paths[abPathIdx].failoverScore
    {
      hide SortedByScore, Switches;
      if !paths[abPathIdx].eligible {
        SwitchToFront(now);
      }
      if prev != abPathIdx {
        lastActiveBackupPathChange := now;
      }
      if abFailoverQueue == [] {
        return;
      }
      ghost var queue := abFailoverQueue;
      NeverOnFailure(env, settings, paths[abPathIdx], paths[First(queue)],
        now - lastActiveBackupPathChange > OPTIMIZE_INTERVAL, threshold);
      Reselect(env, settings, now, threshold);
      assert forall q | q in abFailoverQueue :: q in queue;
    }
  }

  lemma NeverOnFailure(env: Env, settings: Settings, active: Nominated, front: Nominated, waited: bool, threshold: int)
    ensures settings.reselection == OnFailure ==> !Switches(env, settings, active, front, waited, threshold)
  {}

  /** A usable active path is left exactly when the policy says so about it and the front of the queue. */
  lemma UsableLeft(env: Env, settings: Settings, s: Slots, active: nat, queue: seq<nat>, waited: bool, threshold: int)
    requires active < NO_PATH && s[active].eligible && active !in queue && forall q | q in queue :: q < NO_PATH
    ensures TaskResult(env, settings, s, active, queue, waited, threshold).0 != active <==>
      queue != [] && Switches(env, settings, s[active], s[First(queue)], waited, threshold)
  {
    if queue != [] {
      assert queue[0] in queue;
    }
  }

  /** A failed path always gives way to the front of the queue, and that at once to the next only if the policy wants
      it without waiting: when optimizing, only for a negotiated path. */
  lemma FailedLeft(env: Env, settings: Settings, s: Slots, active: nat, queue: seq<nat>, waited: bool, threshold: int)
    requires active < NO_PATH && !s[active].eligible && queue != [] && forall q | q in queue :: q < NO_PATH
    ensures var (a, rest) := TaskResult(env, settings, s, active, queue, waited, threshold);
      if |queue| > 1 && Switches(env, settings, s[First(queue)], s[First(Rest(queue))], false, threshold)
      then a == queue[1] && rest == queue[2..] else a == queue[0] && rest == queue[1..]
    ensures settings.reselection == Optimize && (forall q | q in queue :: !s[q].negotiated) ==>
      TaskResult(env, settings, s, active, queue, waited, threshold).0 == queue[0]
  {
    if |queue| > 1 {
      assert queue[1] in queue && Rest(queue)[1..] == queue[2..];
    }
  }

  lemma QualityStays(env: Env, settings: Settings, was: Slots, s: Slots, i: nat)
    requires SameSlots(was, s) && i < NO_PATH
    ensures QualityScore(env, settings, s[i]) == QualityScore(env, settings, was[i])
  {}

  lemma CandidateLinked(env: Env, x: Nominated, y: Nominated)
    requires Candidate(env, x) && y.p == x.p
    ensures Linked(env, y)
  {}

  /** Midway: the queue so far, and exactly the newly queued slots are flagged in addition. */
  ghost predicate Gathering(
    env: Env, was: Slots, s: Slots, active: nat, before: seq<nat>, queue: seq<nat>, n: nat)
    requires active < NO_PATH && n <= NO_PATH
  {
    && SameSlots(was, s) && queue == Gathered(env, was, active, before, n)
    && forall k | 0 <= k < NO_PATH :: s[k].bonded == (was[k].bonded || (k in queue && k !in before))
  }

  lemma StartGathering(env: Env, was: Slots, active: nat, queue: seq<nat>)
    requires active < NO_PATH
    ensures Gathering(env, was, was, active, queue, queue, 0)
  {}

  lemma ScoresAside(
    env: Env, was: Slots, s: Slots, s': Slots, active: nat, before: seq<nat>, queue: seq<nat>, n: nat)
    requires active < NO_PATH && n <= NO_PATH && Gathering(env, was, s, active, before, queue, n)
    requires SameSlots(s, s') && forall k | 0 <= k < NO_PATH :: s'[k].bonded == s[k].bonded
    ensures Gathering(env, was, s', active, before, queue, n)
  {
    hide Gathered;
  }

  lemma NoneJoins(env: Env, was: Slots, s: Slots, active: nat, before: seq<nat>, queue: seq<nat>, i: nat)
    requires active < NO_PATH && i < NO_PATH && Gathering(env, was, s, active, before, queue, i)
    requires !Candidate(env, was[i])
    ensures Gathering(env, was, s, active, before, queue, i + 1)
  {
    hide Candidate, Represented, SameSlots;
  }

  lemma OneJoins(env: Env, was: Slots, s: Slots, s': Slots, active: nat, before: seq<nat>,
                 queue: seq<nat>, queue': seq<nat>, i: nat)
    requires active < NO_PATH && i < NO_PATH && Gathering(env, was, s, active, before, queue, i)
    requires Candidate(env, was[i]) && Usable(was[i])
    requires Represented(s, active, queue, i) ==> queue' == queue && s' == s
    requires !Represented(s, active, queue, i) ==> queue' == queue + [i] && s' == s[i := s[i].(bonded := true)]
    ensures Gathering(env, was, s', active, before, queue', i + 1)
  {
    RepresentedStays(was, s, active, queue, i);
    GatheredMeans(env, was, active, before, i);
    assert !Represented(s, active, queue, i) ==> i !in before;
    hide Candidate, Represented;
  }

  lemma AllRepresented(env: Env, was: Slots, s: Slots, active: nat, gathered: seq<nat>, queue: seq<nat>)
    requires SameSlots(was, s) && active < NO_PATH && forall q :: q in queue <==> q in gathered
    requires forall i | 0 <= i < NO_PATH && Candidate(env, was[i]) :: Represented(was, active, gathered, i)
    ensures forall i | 0 <= i < NO_PATH && Candidate(env, s[i]) :: Represented(s, active, queue, i)
  {
    hide Candidate;
    forall i | 0 <= i < NO_PATH && Candidate(env, s[i])
      ensures Represented(s, active, queue, i)
    {
      CandidateStays(env, was, s, i);
      assert Represented(was, active, gathered, i);
    }
  }

  lemma RepresentedStays(was: Slots, s: Slots, active: nat, queue: seq<nat>, i: nat)
    requires SameSlots(was, s) && active < NO_PATH && i < NO_PATH
    ensures Represented(s, active, queue, i) <==> Represented(was, active, queue, i)
  {}

  lemma CandidateStays(env: Env, was: Slots, s: Slots, i: nat)
    requires SameSlots(was, s) && i < NO_PATH
    ensures Candidate(env, s[i]) <==> Candidate(env, was[i])
  {}

  lemma Inherits(y: Nominated, handicap: int)
    ensures InheritedScore(y, handicap) == ToUnsigned(
      (if y.failoverScore > ToUnsigned(handicap - 10) then ToSigned(y.failoverScore) else handicap - 10)
        - if Preferred(y) then 0 else 1)
  {}

  lemma BondedIgnored(env: Env, x: Nominated, b: bool, y: Nominated, c: bool, handicap: int)
    requires Linked(env, x)
    ensures var x', y' := x.(bonded := b), y.(bonded := c);
      && Linked(env, x') && OwnScore(env, x') == OwnScore(env, x) && Handicap(env, x') == Handicap(env, x)
      && InheritedScore(y', handicap) == InheritedScore(y, handicap) && Backs(env, x', y') == Backs(env, x, y)
  {}

  lemma InstructedIgnoresBonded(env: Env, s: Slots, t: Slots, i: nat, k: nat)
    requires i < NO_PATH && k < NO_PATH && Linked(env, t[i])
    requires s[k] == t[k].(bonded := s[k].bonded) && s[i] == t[i].(bonded := s[i].bonded)
    ensures Linked(env, s[i]) && Instructed(env, s, i, k) == Instructed(env, t, i, k)
  {
    hide OwnScore, Handicap, InheritedScore, Backs, Linked;
    var x := t[i];
    var y := if k == i then t[k].(failoverScore := OwnScore(env, x)) else t[k];
    BondedIgnored(env, x, s[i].bonded, y, s[k].bonded, Handicap(env, x));
  }

  /** Bonded flags do not count. */
  lemma InstructionsStep(env: Env, was: Slots, s: Slots, i: nat)
    requires SameSlots(was, s) && i < NO_PATH && Candidate(env, was[i])
    requires forall k | 0 <= k < NO_PATH :: s[k].failoverScore == Instructions(env, was, i)(k)
    ensures Linked(env, s[i]) && forall k: nat | k < NO_PATH ::
      Instructed(env, s, i, k) == Instructions(env, was, i + 1)(k)
  {
    hide Instructed, Candidate, Linked;
    var t := Scored(was, Instructions(env, was, i));
    CandidateLinked(env, was[i], t[i]);
    assert s[i] == t[i].(bonded := s[i].bonded);
    InstructedIgnoresBonded(env, s, t, i, i);
    forall k: nat | k < NO_PATH
      ensures Linked(env, s[i]) && Instructed(env, s, i, k) == Instructed(env, t, i, k)
    {
      assert s[k] == t[k].(bonded := s[k].bonded) && s[i] == t[i].(bonded := s[i].bonded);
      InstructedIgnoresBonded(env, s, t, i, k);
    }
  }

  lemma FrontIsBest(ps: seq<Nominated>, q: seq<nat>)
    requires q != [] && SortedByScore(ps, q) && forall i | i in q :: i < |ps|
    ensures forall i | i in q :: ps[i].failoverScore <= ps[q[0]].failoverScore
    ensures SortedByScore(ps, q[1..])
  {
    forall i | i in q
      ensures ps[i].failoverScore <= ps[q[0]].failoverScore
    {
      var a :| 0 <= a < |q| && q[a] == i;
    }
  }

  lemma InsertedSorted(ps: seq<Nominated>, s: seq<nat>, m: nat, x: nat)
    requires m <= |s| && x < |ps| && x !in s && forall q | q in s :: q < |ps|
    requires NoDuplicates(s) && SortedByScore(ps, s)
    requires forall a | 0 <= a < m :: s[a] < |ps| && ps[s[a]].failoverScore >= ps[x].failoverScore
    requires m < |s| ==> s[m] < |ps| && ps[s[m]].failoverScore < ps[x].failoverScore
    ensures var r := s[..m] + [x] + s[m..];
      NoDuplicates(r) && SortedByScore(ps, r)
  {
    var r := s[..m] + [x] + s[m..];
    forall a, b | 0 <= a < b < |r|
      ensures r[a] != r[b] && r[a] < |ps| && r[b] < |ps| && ps[r[a]].failoverScore >= ps[r[b]].failoverScore
    {
      InsertedPair(ps, s, m, x, a, b);
    }
  }

  lemma InsertedIn(s: seq<nat>, m: nat, x: nat)
    requires m <= |s|
    ensures forall q :: q in s[..m] + [x] + s[m..] <==> q in s || q == x
  {
    assert s == s[..m] + s[m..];
  }

  lemma InsertedPair(ps: seq<Nominated>, s: seq<nat>, m: nat, x: nat, a: nat, b: nat)
    requires m <= |s| && x < |ps| && x !in s && forall q | q in s :: q < |ps|
    requires NoDuplicates(s) && SortedByScore(ps, s)
    requires forall a | 0 <= a < m :: s[a] < |ps| && ps[s[a]].failoverScore >= ps[x].failoverScore
    requires m < |s| ==> s[m] < |ps| && ps[s[m]].failoverScore < ps[x].failoverScore
    requires a < b <= |s|
    ensures var r := s[..m] + [x] + s[m..];
      r[a] != r[b] && r[a] < |ps| && r[b] < |ps| && ps[r[a]].failoverScore >= ps[r[b]].failoverScore
  {
    var r := s[..m] + [x] + s[m..];
    var i, j := if a < m then a else a - 1, if b < m then b else b - 1;
    assert r[a] == if a == m then x else s[i];
    assert r[b] == if b == m then x else s[j];
    assert a != m ==> s[i] in s;
    assert b != m ==> s[j] in s;
    assert m < j < |s| ==> ps[s[m]].failoverScore >= ps[s[j]].failoverScore;
  }

  /** Nothing but scores and bonded flags changed. */
  ghost predicate SameSlots(was: seq<Nominated>, s: seq<Nominated>) {
    |s| == |was| && forall k | 0 <= k < |s| ::
      s[k] == was[k].(failoverScore := s[k].failoverScore, bonded := s[k].bonded)
  }
}
