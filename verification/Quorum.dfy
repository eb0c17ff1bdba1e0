/** Stake arithmetic of a committee: quorum threshold, and what two quorums have in common. */
module Quorum {
  /** A committee is the stake of each authority index.  Its total must not be 0. */
  datatype Committee = Committee(stakes: seq<nat>)
  {
    predicate ValidIndex(i: nat) { i < |stakes| }

    function TotalStake(): nat { Sum(stakes) }

    /** The faulty stake that is tolerated. */
    function Faults(): nat
    {
      if TotalStake() == 0 then 0 else (TotalStake() - 1) / 3
    }

    function QuorumThreshold(): nat
    {
      TotalStake() - Faults()
    }

    ghost predicate Valid() { TotalStake() > 0 }
  }

  function Sum(stakes: seq<nat>): nat
  {
    if stakes == [] then 0 else Sum(stakes[..|stakes| - 1]) + stakes[|stakes| - 1]
  }

  /** The stake of those members of the committee that are in the set. */
  function StakeOf(stakes: seq<nat>, who: set<nat>): nat
  {
    if stakes == [] then 0
    else
      var n := |stakes| - 1;
      StakeOf(stakes[..n], who) + if n in who then stakes[n] else 0
  }

  lemma {:induction false} StakeUnion(stakes: seq<nat>, a: set<nat>, b: set<nat>)
    ensures StakeOf(stakes, a) + StakeOf(stakes, b) == StakeOf(stakes, a + b) + StakeOf(stakes, a * b)
  {
    if stakes != [] {
      StakeUnion(stakes[..|stakes| - 1], a, b);
    }
  }

  lemma {:induction false} StakeMonotone(stakes: seq<nat>, a: set<nat>, b: set<nat>)
    requires forall i :: i in a && 0 <= i < |stakes| ==> i in b
    ensures StakeOf(stakes, a) <= StakeOf(stakes, b)
  {
    if stakes != [] {
      StakeMonotone(stakes[..|stakes| - 1], a, b);
    }
  }

  lemma {:induction false} StakeAtMostTotal(stakes: seq<nat>, a: set<nat>)
    ensures StakeOf(stakes, a) <= Sum(stakes)
  {
    if stakes != [] {
      StakeAtMostTotal(stakes[..|stakes| - 1], a);
    }
  }

  lemma {:induction false} StakeAdd(stakes: seq<nat>, a: set<nat>, i: nat)
    requires i !in a
    ensures StakeOf(stakes, a + {i}) == StakeOf(stakes, a) + if i < |stakes| then stakes[i] else 0
  {
    if stakes != [] {
      StakeAdd(stakes[..|stakes| - 1], a, i);
    }
  }

  lemma {:induction false} StakeNone(stakes: seq<nat>)
    ensures StakeOf(stakes, {}) == 0
  {
    if stakes != [] { StakeNone(stakes[..|stakes| - 1]); }
  }

  lemma {:induction false} StakeOfAll(stakes: seq<nat>, all: set<nat>)
    requires forall i :: 0 <= i < |stakes| ==> i in all
    ensures StakeOf(stakes, all) == Sum(stakes)
  {
    if stakes != [] { StakeOfAll(stakes[..|stakes| - 1], all); }
  }

  /** f is the largest stake below a third of the total. */
  ghost predicate Tolerates(stakes: seq<nat>, f: nat)
  {
    3 * f < Sum(stakes) <= 3 * f + 3
  }

  /** A set reaches the threshold if and only if at most f of the stake is missing from it; so honest
      members, whose missing stake is at most f, always can. */
  lemma QuorumIff(c: Committee, f: nat, a: set<nat>)
    requires Tolerates(c.stakes, f)
    ensures c.Faults() == f
    ensures StakeOf(c.stakes, a) >= c.QuorumThreshold() <==> StakeOf(c.stakes, a) + f >= Sum(c.stakes)
  {
    assert (Sum(c.stakes) - 1) / 3 == f;
  }

  /** Any two sets from which at most f of the stake is missing share members of stake at least f + 1. */
  lemma QuorumIntersection(stakes: seq<nat>, f: nat, a: set<nat>, b: set<nat>)
    requires Tolerates(stakes, f)
    requires StakeOf(stakes, a) + f >= Sum(stakes) && StakeOf(stakes, b) + f >= Sum(stakes)
    ensures StakeOf(stakes, a * b) >= f + 1
  {
    StakeUnion(stakes, a, b);
    StakeAtMostTotal(stakes, a + b);
  }

  /** Disjoint sets cannot both be such. */
  lemma NoDisjointQuorums(stakes: seq<nat>, f: nat, a: set<nat>, b: set<nat>)
    requires Tolerates(stakes, f) && a !! b
    ensures StakeOf(stakes, a) + f < Sum(stakes) || StakeOf(stakes, b) + f < Sum(stakes)
  {
    StakeNone(stakes);
    assert a * b == {};
    if StakeOf(stakes, a) + f >= Sum(stakes) && StakeOf(stakes, b) + f >= Sum(stakes) {
      QuorumIntersection(stakes, f, a, b);
    }
  }
}
