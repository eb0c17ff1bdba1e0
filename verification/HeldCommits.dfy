/** Commits that arrive and are never handled: the processor stops emptying its reorder buffer once it
    skips commits past the barrier. */
module HeldCommits {
  import opened Types
  import opened CommitProcessing
  import opened CommitOrdering
  import opened EpochBoundary
  import opened IndexUse

  /** Where a processor that takes only what it expects, and holds nothing, gets from n. */
  function Follow(n: nat, arrivals: seq<SubDag>): nat
  {
    if arrivals == [] then n
    else
      var k := Follow(n, arrivals[..|arrivals| - 1]);
      if arrivals[|arrivals| - 1].index == k then k + 1 else k
  }

  /** Past a constant barrier the expected commit is skipped, and nothing is taken from the buffer. */
  lemma StepPastBarrier(env: Env, s: State, dag: SubDag, barrier: nat)
    requires ConstantBarrier(env, barrier) && 0 < barrier < s.next && !s.failed
    ensures var t := ReceiveStep(env, s, dag);
            !t.failed && t.next == if dag.index == s.next then s.next + 1 else s.next
  {
    assert env.load(s.loads) == barrier;
  }

  lemma {:induction false} RunPastBarrier(env: Env, before: seq<SubDag>, after: seq<SubDag>, barrier: nat)
    requires ConstantBarrier(env, barrier) && 0 < barrier < RunAll(env, before).next && !RunAll(env, before).failed
    ensures var s := RunAll(env, before + after);
            !s.failed && s.next == Follow(RunAll(env, before).next, after) > barrier
  {
    if after == [] {
      assert before + after == before;
    } else {
      var n := |after| - 1;
      RunPastBarrier(env, before, after[..n], barrier);
      var all := before + after;
      assert all[..|all| - 1] == before + after[..n] && all[|all| - 1] == after[n];
      StepPastBarrier(env, RunAll(env, before + after[..n]), after[n], barrier);
    }
  }

  ghost predicate Lacks(arrivals: seq<SubDag>, c: nat)
  {
    c !in Delivered(arrivals)
  }

  /** The last of these arrivals is the one that makes the commits up to the barrier complete. */
  ghost predicate Completing(before: seq<SubDag>, barrier: nat)
  {
    && before != []
    && (forall c :: 1 <= c <= barrier ==> c in Delivered(before))
    && var init := before[..|before| - 1];
       exists c :: 1 <= c <= barrier && Lacks(init, c)
  }

  /** Until then the processor is still at or below the barrier. */
  lemma {:induction false} StillBelow(env: Env, arrivals: seq<SubDag>, c: nat)
    requires c >= 1 && Lacks(arrivals, c)
    ensures RunAll(env, arrivals).next <= c
  {
    var s := RunAll(env, arrivals);
    HandledInOrder(env, arrivals);
    RunAccounts(env, arrivals);
    assert c < s.next ==> s.log[c - 1].dag.index == c;
  }

  /** The commit that completes them is handled together with all that can follow it. */
  lemma {:induction false} NothingNextHeld(env: Env, before: seq<SubDag>, barrier: nat)
    requires ConstantBarrier(env, barrier) && Completing(before, barrier) && !RunAll(env, before).failed
    ensures var s := RunAll(env, before); s.next !in s.pending
  {
    var init, dag := before[..|before| - 1], before[|before| - 1];
    var s := RunAll(env, init);
    var c :| 1 <= c <= barrier && Lacks(init, c);
    StillBelow(env, init, c);
    RunKeeps(env, init);
    if dag.index == s.next {
      SkippedAbove(env, s, dag, barrier);
      ProcessKeeps(env, s, dag);
      DrainKeeps(env, Advance(Process(env, s, dag)));
    } else {
      RunSettled(env, before, barrier);
    }
  }

  lemma {:induction false} CaughtUp(env: Env, before: seq<SubDag>, barrier: nat, m: nat)
    requires ConstantBarrier(env, barrier) && Completing(before, barrier) && Unbroken(before, m)
    requires !RunAll(env, before).failed
    ensures RunAll(env, before).next == m + 1 > barrier
  {
    HandledWithin(env, before, m);
    HandledInOrder(env, before);
    NothingNextHeld(env, before, barrier);
    RestIsHeld(env, before, m);
    assert m < barrier ==> m + 1 in Delivered(before);
  }

  /** Which commits are lost under a constant barrier.  Let the commits up to it be complete, with the
      unbroken run 1..m by then.  From there on the processor handles a commit only when it arrives just
      as it is expected.  So of all commits delivered exactly those from Follow(m + 1, after) on stay in
      the buffer unhandled, neither handed on nor put into the retry queue. */
  lemma {:induction false} LeftBehindIff(env: Env, before: seq<SubDag>, after: seq<SubDag>, barrier: nat, m: nat)
    requires ConstantBarrier(env, barrier) && barrier > 0
    requires Completing(before, barrier) && Unbroken(before, m) && !RunAll(env, before).failed
    ensures var s := RunAll(env, before + after);
            && |s.log| == Follow(m + 1, after) - 1
            && forall c :: c >= Follow(m + 1, after) ==> (c in Delivered(before + after) <==> c in s.pending)
  {
    CaughtUp(env, before, barrier, m);
    RunPastBarrier(env, before, after, barrier);
    HandledInOrder(env, before + after);
    CommitConservation(env, before + after);
  }

  lemma {:induction false} NothingToQueue(env: Env, log: seq<Entry>)
    requires forall i :: 0 <= i < |log| ==> log[i].dag.blocks == []
    ensures QueueOf(env, log) == []
  {
    if log != [] {
      NothingToQueue(env, log[..|log| - 1]);
      assert Transactions(log[|log| - 1].dag) == [];
    }
  }

  lemma {:induction false} EmptyQueue(env: Env, n: nat)
    ensures RunAll(env, EmptyCommits(n)).queue == []
  {
    RunKeeps(env, EmptyCommits(n));
    RunAccounts(env, EmptyCommits(n));
    NothingToQueue(env, RunAll(env, EmptyCommits(n)).log);
  }

  /** It happens: commit B + 2 arrives before B + 1.  B + 1 is skipped and its transactions are queued,
      B + 2 stays in the buffer, and its transaction is in no queue. */
  lemma {:induction false} HeldCommitDropped(barrier: nat, tx: Tx)
    requires barrier > 0
    ensures var early, late := SubDag(barrier + 2, [[tx]]), SubDag(barrier + 1, []);
            var s := RunAll(AlwaysSeen(0, 0, barrier), EmptyCommits(barrier) + [early, late]);
            && !s.failed && s.next == barrier + 2 && s.pending == map[barrier + 2 := early]
            && s.queue == []
  {
    var env, first := AlwaysSeen(0, 0, barrier), EmptyCommits(barrier);
    var early, late := SubDag(barrier + 2, [[tx]]), SubDag(barrier + 1, []);
    var all := first + [early, late];
    InOrder(env, first);
    assert all[..barrier + 1] == first + [early] && (first + [early])[..barrier] == first;
    EmptyQueue(env, barrier);
    assert Transactions(late) == [];
  }
}
