/** The round-robin schedule: which bonded index each packet gets after a rebuild, and how evenly. */
module RoundRobin {

  /** The current index, and the packets sent on it since the switch to it. */
  datatype Turn = Turn(idx: nat, sent: nat)

  function NextIdx(n: nat, idx: nat): nat {
    if idx + 1 == n then 0 else idx + 1
  }

  /** One packet when every bonded path is eligible: stay while the stripe lasts, else go on to the next. */
  function StepTurn(n: nat, perLink: nat, t: Turn): Turn {
    if t.sent < perLink then Turn(t.idx, t.sent + 1) else Turn(NextIdx(n, t.idx), 0)
  }

  /** The turn after k packets, from the state that a rebuild leaves. */
  function TurnAfter(n: nat, perLink: nat, k: nat): Turn {
    if k == 0 then Turn(0, perLink) else StepTurn(n, perLink, TurnAfter(n, perLink, k - 1))
  }

  /** The schedule in closed form. */
  function Formula(n: nat, perLink: nat, k: nat): (i: nat)
    requires n > 0
    ensures i < n
  {
    (1 + k / (perLink + 1)) % n
  }

  /** The bonded index that packet k goes to, counting from 0. */
  function IndexOf(n: nat, perLink: nat, k: nat): nat { TurnAfter(n, perLink, k + 1).idx }

  // ---- quotients and remainders ----

  lemma QuotientIs(k: nat, m: nat, q: nat, r: nat)
    requires m > 0 && k == q * m + r && r < m
    ensures k / m == q && k % m == r
  {
    var q', r' := k / m, k % m;
    assert k == q' * m + r';
    assert (q' - q) * m == r - r';
    SmallMultiple(q' - q, m);
  }

  lemma SmallMultiple(d: int, m: int)
    requires m > 0 && -m < d * m < m
    ensures d == 0
  {
    if d > 0 {
      MulAtLeast(d, m);
    } else if d < 0 {
      assert (-d) * m == -(d * m);
      MulAtLeast(-d, m);
    }
  }

  lemma MulAtLeast(a: nat, m: nat)
    requires a > 0
    ensures a * m >= m
  {}

  lemma QuotientStep(k: nat, m: nat)
    requires m > 0
    ensures k % m + 1 < m ==> (k + 1) / m == k / m && (k + 1) % m == k % m + 1
    ensures k % m + 1 == m ==> (k + 1) / m == k / m + 1 && (k + 1) % m == 0
  {
    var q, r := k / m, k % m;
    assert k == q * m + r;
    if r + 1 < m {
      QuotientIs(k + 1, m, q, r + 1);
    } else {
      assert (q + 1) * m == q * m + m;
      QuotientIs(k + 1, m, q + 1, 0);
    }
  }

  lemma NextIsModulo(n: nat, b: nat)
    requires n > 0
    ensures NextIdx(n, b % n) == (b + 1) % n && b % n < n
  {
    QuotientStep(b, n);
  }

  /** Packet k goes to index (1 + k / (perLink + 1)) mod n. */
  lemma {:induction false} Schedule(n: nat, perLink: nat, k: nat)
    requires n > 0
    ensures TurnAfter(n, perLink, k + 1) == Turn((1 + k / (perLink + 1)) % n, k % (perLink + 1))
    ensures IndexOf(n, perLink, k) == Formula(n, perLink, k)
  {
    var m := perLink + 1;
    if k == 0 {
      NextIsModulo(n, 0);
      assert TurnAfter(n, perLink, 0) == Turn(0, perLink);
      QuotientIs(0, m, 0, 0);
      QuotientIs(0, n, 0, 0);
    } else {
      Schedule(n, perLink, k - 1);
      QuotientStep(k - 1, m);
      NextIsModulo(n, 1 + (k - 1) / m);
    }
  }

  // ---- fairness ----

  /** How many of the first total packets went to index i. */
  function Count(n: nat, perLink: nat, total: nat, i: nat): nat {
    if total == 0 then 0
    else Count(n, perLink, total - 1, i) + if TurnAfter(n, perLink, total).idx == i then 1 else 0
  }

  /** The place of index i in a cycle, which begins at index 1. */
  function Place(n: nat, i: nat): int {
    if i == 0 then n - 1 else i - 1
  }

  /** What index i has by turn t of a cycle, on top of the full cycles: a stripe, the packets of
      the turn, or nothing. */
  function Share(n: nat, perLink: nat, t: Turn, full: nat, i: nat): nat {
    if Place(n, i) < Place(n, t.idx) then full + perLink + 1 else if i == t.idx then full + t.sent + 1 else full
  }

  /** Within a cycle, the places before the current one have a full stripe more than those after it. */
  lemma {:induction false} Profile(n: nat, perLink: nat, total: nat) returns (full: nat)
    requires n > 0 && total > 0
    ensures var t := TurnAfter(n, perLink, total);
      && t.idx < n && t.sent <= perLink
      && forall i | 0 <= i < n :: Count(n, perLink, total, i) == Share(n, perLink, t, full, i)
  {
    if total == 1 {
      full := 0;
      assert TurnAfter(n, perLink, 0) == Turn(0, perLink);
      assert TurnAfter(n, perLink, 1) == Turn(NextIdx(n, 0), 0);
      assert forall i :: Count(n, perLink, 0, i) == 0;
    } else {
      var before := Profile(n, perLink, total - 1);
      var t := TurnAfter(n, perLink, total - 1);
      full := if t.sent == perLink && t.idx == 0 then before + perLink + 1 else before;
    }
  }

  /** After any number of packets, two paths differ by at most one stripe. */
  lemma Fair(n: nat, perLink: nat, total: nat, i: nat, j: nat)
    requires i < n && j < n
    ensures Count(n, perLink, total, i) <= Count(n, perLink, total, j) + perLink + 1
  {
    if total > 0 {
      var full := Profile(n, perLink, total);
    }
  }
}
