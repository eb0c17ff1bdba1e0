/** Checkpoints made from commits, and the epoch that a node's own checkpoint manager counts. */
module Checkpoints {
  datatype Checkpoint = Checkpoint(sequence: nat, epoch: nat, commit: nat, blocks: nat, endOfEpoch: bool)

  /** `resetCount` is the block counter that the manager sets back to 0, `addedCount` the one that the
      processor increases: the program makes two. */
  datatype State = State(
    epoch: nat, total: nat, last: nat, checkpoints: map<nat, Checkpoint>, resetCount: nat, addedCount: nat)

  const INITIAL: State := State(0, 0, 0, map[], 0, 0)

  const TOTAL_NODES: nat := 4

  /** The primary or the fallback leader of the epoch may end it. */
  predicate Leads(own: nat, epoch: nat)
  {
    own == epoch % TOTAL_NODES || own == (epoch + 1) % TOTAL_NODES
  }

  /** A commit with its index and number of blocks. */
  datatype Commit = Commit(index: nat, blocks: nat)

  function MakeCheckpoint(perEpoch: nat, s: State, c: Commit): Checkpoint
  {
    var sequence := s.total + c.blocks;
    Checkpoint(sequence, s.epoch, c.index, c.blocks, sequence >= (s.epoch + 1) * perEpoch)
  }

  /** The state after a commit: a checkpoint, and one epoch further, with the manager's counter back at 0,
      if it ends the epoch and this node leads it; then the processor counts the commit's blocks. */
  function Step(perEpoch: nat, own: nat, s: State, c: Commit): State
  {
    var point := MakeCheckpoint(perEpoch, s, c);
    var t := s.(total := point.sequence, last := point.sequence,
                checkpoints := s.checkpoints[point.sequence := point], addedCount := s.addedCount + c.blocks);
    if point.endOfEpoch && Leads(own, s.epoch) then t.(epoch := s.epoch + 1, resetCount := 0) else t
  }

  function Run(perEpoch: nat, own: nat, commits: seq<Commit>): State
  {
    if commits == [] then INITIAL
    else Step(perEpoch, own, Run(perEpoch, own, commits[..|commits| - 1]), commits[|commits| - 1])
  }

  class CheckpointManager {
    const perEpoch: nat
    const own: nat
    var currentEpoch: nat
    var totalBlocks: nat
    var lastSequence: nat
    var checkpoints: map<nat, Checkpoint>
    var resetCount: nat
    var addedCount: nat

    ghost function View(): State
      reads this
    {
      State(currentEpoch, totalBlocks, lastSequence, checkpoints, resetCount, addedCount)
    }

    constructor (perEpoch: nat, own: nat)
      ensures this.perEpoch == perEpoch && this.own == own && View() == INITIAL
    {
      this.perEpoch, this.own := perEpoch, own;
      currentEpoch, totalBlocks, lastSequence, checkpoints := 0, 0, 0, map[];
      resetCount, addedCount := 0, 0;
    }

    method CreateCheckpoint(commit: nat, blocks: nat) returns (point: Checkpoint)
      modifies this`totalBlocks, this`lastSequence, this`checkpoints
      ensures point == MakeCheckpoint(perEpoch, old(View()), Commit(commit, blocks))
      ensures totalBlocks == lastSequence == point.sequence
      ensures checkpoints == old(checkpoints)[point.sequence := point]
    {
      totalBlocks := totalBlocks + blocks;
      var boundary := (currentEpoch + 1) * perEpoch;
      point := Checkpoint(totalBlocks, currentEpoch, commit, blocks, totalBlocks >= boundary);
      checkpoints := checkpoints[totalBlocks := point];
      lastSequence := totalBlocks;
    }

    /** The submission of the epoch change reports success whatever the executor answers, so a leader
        always advances. */
    method ProcessCommit(commit: nat, blocks: nat)
      modifies this
      ensures View() == Step(perEpoch, own, old(View()), Commit(commit, blocks))
    {
      var point := CreateCheckpoint(commit, blocks);
      if point.endOfEpoch {
        var primary := currentEpoch % TOTAL_NODES;
        var fallback := (currentEpoch + 1) % TOTAL_NODES;
        if own == primary || own == fallback {
          currentEpoch := currentEpoch + 1;
          resetCount := 0;
        }
      }
      addedCount := addedCount + blocks;
    }
  }

  // ----- What every run keeps -----

  function TotalBlocks(commits: seq<Commit>): nat
  {
    if commits == [] then 0 else TotalBlocks(commits[..|commits| - 1]) + commits[|commits| - 1].blocks
  }

  /** The highest epoch the node with this index can reach on its own. */
  function EpochBound(own: nat): nat
  {
    if own == 0 then 1 else if own == 1 then 2 else 0
  }

  /** Over every run: the counted epochs fit into the blocks seen, the total is the last sequence
      number, the counter that is increased is never reset and the one that is reset never increased,
      every checkpoint is stored under its own number, which is at most the last, and the leader rule
      stops the node at its bound. */
  lemma {:induction false} RunKeeps(perEpoch: nat, own: nat, commits: seq<Commit>)
    ensures var s := Run(perEpoch, own, commits);
            && s.epoch * perEpoch <= s.total == s.last == TotalBlocks(commits)
            && s.addedCount == s.total && s.resetCount == 0
            && (forall k :: k in s.checkpoints ==> s.checkpoints[k].sequence == k <= s.last)
            && s.epoch <= EpochBound(own)
            && (commits != [] ==> s.last in s.checkpoints)
  {
    if commits != [] {
      RunKeeps(perEpoch, own, commits[..|commits| - 1]);
      var s := Run(perEpoch, own, commits[..|commits| - 1]);
      var c := commits[|commits| - 1];
      assert Run(perEpoch, own, commits) == Step(perEpoch, own, s, c);
    }
  }

  /** The total once the i-th commit is counted. */
  function TotalAfter(commits: seq<Commit>, i: nat): nat
    requires i < |commits|
  {
    TotalBlocks(commits[..i + 1])
  }

  /** The i-th commit is the last that brought the total to k. */
  ghost predicate LastAt(commits: seq<Commit>, i: nat, k: nat)
  {
    && i < |commits| && TotalAfter(commits, i) == k
    && forall j :: i < j < |commits| ==> TotalAfter(commits, j) != k
  }

  lemma {:induction false} LastAtBefore(commits: seq<Commit>, i: nat, k: nat)
    requires commits != [] && i < |commits| - 1
    ensures LastAt(commits, i, k) <==> LastAt(commits[..|commits| - 1], i, k) && TotalBlocks(commits) != k
  {
    var n := |commits| - 1;
    var before := commits[..n];
    forall j: nat | j < n ensures TotalAfter(before, j) == TotalAfter(commits, j) {
      assert before[..j + 1] == commits[..j + 1];
    }
    assert commits[..n + 1] == commits;
    assert TotalAfter(commits, n) == TotalBlocks(commits);
    if LastAt(before, i, k) && TotalBlocks(commits) != k {
      forall j | i < j < |commits| ensures TotalAfter(commits, j) != k {
        if j < n { assert TotalAfter(before, j) != k; }
      }
    }
    if LastAt(commits, i, k) {
      forall j | i < j < n ensures TotalAfter(before, j) != k {
        assert TotalAfter(commits, j) != k;
      }
    }
  }

  /** The checkpoint that the i-th commit makes: under the total it reaches, with its index and blocks and
      the epoch before it, and marked exactly when the total has reached the end of that epoch. */
  ghost predicate MadeBy(perEpoch: nat, own: nat, commits: seq<Commit>, i: nat, point: Checkpoint)
    requires i < |commits|
  {
    var k, epoch := TotalAfter(commits, i), Run(perEpoch, own, commits[..i]).epoch;
    point == Checkpoint(k, epoch, commits[i].index, commits[i].blocks, k >= (epoch + 1) * perEpoch)
  }

  lemma {:induction false} NewCheckpoint(perEpoch: nat, own: nat, commits: seq<Commit>)
    requires commits != []
    ensures var n, k := |commits| - 1, TotalBlocks(commits);
            && k in Run(perEpoch, own, commits).checkpoints
            && MadeBy(perEpoch, own, commits, n, Run(perEpoch, own, commits).checkpoints[k])
  {
    var n := |commits| - 1;
    RunKeeps(perEpoch, own, commits[..n]);
    assert commits[..n + 1] == commits;
  }

  lemma {:induction false} MadeBefore(perEpoch: nat, own: nat, commits: seq<Commit>, i: nat, point: Checkpoint)
    requires i < |commits| - 1
    ensures MadeBy(perEpoch, own, commits, i, point) <==> MadeBy(perEpoch, own, commits[..|commits| - 1], i, point)
  {
    var before := commits[..|commits| - 1];
    assert before[..i] == commits[..i] && before[..i + 1] == commits[..i + 1];
  }

  /** Which checkpoints there are, and what they say: one for every total reached, made by the last commit
      that reached it. */
  lemma {:induction false} CheckpointsIff(perEpoch: nat, own: nat, commits: seq<Commit>, k: nat)
    ensures k in Run(perEpoch, own, commits).checkpoints <==> exists i :: LastAt(commits, i, k)
    ensures forall i: nat :: LastAt(commits, i, k) && k in Run(perEpoch, own, commits).checkpoints ==>
              MadeBy(perEpoch, own, commits, i, Run(perEpoch, own, commits).checkpoints[k])
  {
    if commits != [] {
      var n := |commits| - 1;
      var before, s, t := commits[..n], Run(perEpoch, own, commits[..n]), Run(perEpoch, own, commits);
      CheckpointsIff(perEpoch, own, before, k);
      RunKeeps(perEpoch, own, before);
      NewCheckpoint(perEpoch, own, commits);
      assert commits[..n + 1] == commits;
      forall i: nat | i < n ensures LastAt(commits, i, k) <==> LastAt(before, i, k) && TotalBlocks(commits) != k {
        LastAtBefore(commits, i, k);
      }
      if TotalBlocks(commits) == k {
        assert LastAt(commits, n, k);
      } else {
        assert TotalAfter(commits, n) != k;
        assert k in t.checkpoints <==> k in s.checkpoints;
        if i: nat :| LastAt(before, i, k) { assert LastAt(commits, i, k); }
        forall i: nat | LastAt(commits, i, k) && k in t.checkpoints
          ensures MadeBy(perEpoch, own, commits, i, t.checkpoints[k])
        {
          MadeBefore(perEpoch, own, commits, i, s.checkpoints[k]);
        }
      }
    }
  }

  /** A commit advances the epoch by at most one, and does so exactly when it reaches the boundary on
      a leader of the epoch. */
  lemma OneAdvancePerCommit(perEpoch: nat, own: nat, s: State, c: Commit)
    ensures var t := Step(perEpoch, own, s, c);
            && s.epoch <= t.epoch <= s.epoch + 1
            && (t.epoch == s.epoch + 1 <==> s.total + c.blocks >= (s.epoch + 1) * perEpoch && Leads(own, s.epoch))
  {
  }

  /** Node 0 leaves epoch 0 exactly when the first boundary is reached. */
  lemma {:induction false} FirstNodeEpoch(perEpoch: nat, commits: seq<Commit>)
    ensures Run(perEpoch, 0, commits).epoch == if commits != [] && TotalBlocks(commits) >= perEpoch then 1 else 0
  {
    RunKeeps(perEpoch, 0, commits);
    if commits != [] {
      var before := commits[..|commits| - 1];
      FirstNodeEpoch(perEpoch, before);
      RunKeeps(perEpoch, 0, before);
      OneAdvancePerCommit(perEpoch, 0, Run(perEpoch, 0, before), commits[|commits| - 1]);
    }
  }

  /** Node 1 leaves epoch 0 as the fallback with the first boundary, and epoch 1 as the primary with a later
      commit at or past the second. */
  lemma {:induction false} SecondNodeEpoch(perEpoch: nat, commits: seq<Commit>)
    ensures Run(perEpoch, 1, commits).epoch ==
            if commits == [] || TotalBlocks(commits) < perEpoch then 0
            else if |commits| >= 2 && TotalBlocks(commits[..|commits| - 1]) >= perEpoch &&
                    TotalBlocks(commits) >= 2 * perEpoch then 2
            else 1
  {
    if commits != [] {
      var before := commits[..|commits| - 1];
      SecondNodeEpoch(perEpoch, before);
      RunKeeps(perEpoch, 1, before);
      OneAdvancePerCommit(perEpoch, 1, Run(perEpoch, 1, before), commits[|commits| - 1]);
    }
  }

  /** Nodes from the third on lead none of the epochs they can be in. */
  lemma {:induction false} LaterNodesStay(perEpoch: nat, own: nat, commits: seq<Commit>)
    requires own >= 2
    ensures Run(perEpoch, own, commits).epoch == 0
  {
    RunKeeps(perEpoch, own, commits);
  }

  lemma {:induction false} AllStay(perEpoch: nat, own: nat, commits: seq<Commit>)
    requires commits == [] || TotalBlocks(commits) < perEpoch
    ensures Run(perEpoch, own, commits).epoch == 0
  {
    if own == 0 {
      FirstNodeEpoch(perEpoch, commits);
    } else if own == 1 {
      SecondNodeEpoch(perEpoch, commits);
    } else {
      LaterNodesStay(perEpoch, own, commits);
    }
  }

  /** Four nodes that process the same commits count the same epoch if and only if the first boundary
      has not been reached. */
  lemma {:induction false} NodesAgreeIff(perEpoch: nat, commits: seq<Commit>)
    ensures (forall i, j :: 0 <= i < TOTAL_NODES && 0 <= j < TOTAL_NODES ==>
               Run(perEpoch, i, commits).epoch == Run(perEpoch, j, commits).epoch)
            <==> commits == [] || TotalBlocks(commits) < perEpoch
  {
    if commits == [] || TotalBlocks(commits) < perEpoch {
      forall i | 0 <= i < TOTAL_NODES ensures Run(perEpoch, i, commits).epoch == 0 {
        AllStay(perEpoch, i, commits);
      }
    } else {
      FirstNodeEpoch(perEpoch, commits);
      LaterNodesStay(perEpoch, 2, commits);
    }
  }
}
