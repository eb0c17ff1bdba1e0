/** The whole life of a node: its transitions give each epoch's processor its number and base, and the
    executor sees one sequence of blocks from startup on. */
module NodeLife {
  import opened Types
  import opened GlobalIndex
  import opened EpochVoting
  import opened ConsensusNodes
  import opened NodeSafety
  import CanonicalOrder
  import P = CommitProcessing
  import C = CommitOrdering
  import E = EpochBoundary
  import I = IndexUse
  import T = EndToEnd
  import L = Schedules
  import A = Arrivals

  /** One epoch of a node: the node when it starts, what happens in it, and the transition that ends
      it. */
  datatype Stage = Stage(node: Node, events: seq<Event>, p: Proposal, commit: nat, now: nat)

  function LastNode(u: Setup, g: Stage): Node
  {
    History(u, g.node, g.events)
  }

  /** No transition completed within the stage, though any number may have been attempted; the one at
      its end did, towards a later epoch. */
  ghost predicate Leads(u: Setup, g: Stage, next: Node)
  {
    var n := LastNode(u, g);
    && NoneCompletes(u, g.node, g.events) && g.p.newEpoch > n.epoch
    && Transition(u.crypto, u.hash, n, g.p, g.commit, g.now, NoFault) == (Done, next)
  }

  /** The stages follow each other; the node started with base 0 and no barrier. */
  ghost predicate Life(u: Setup, stages: seq<Stage>)
  {
    && (stages != [] ==>
          stages[0].node.base == 0 && stages[0].node.barrier == 0 && NodeInv(u, stages[0].node))
    && forall i :: 0 <= i < |stages| - 1 ==> Leads(u, stages[i], stages[i + 1].node)
  }

  lemma {:induction false} LeadsKeeps(u: Setup, g: Stage, next: Node)
    requires NodeInv(u, g.node) && SigningSound(u.crypto) && Leads(u, g, next)
    ensures NodeInv(u, next) && next.barrier == 0
  {
    var e := Transit(g.p, g.commit, g.now, NoFault);
    HistoryKeeps(u, g.node, g.events);
    HappenKeeps(u, LastNode(u, g), e);
    assert next == Happen(u, LastNode(u, g), e);
  }

  lemma {:induction false} LifeKeeps(u: Setup, stages: seq<Stage>, i: nat)
    requires Life(u, stages) && SigningSound(u.crypto) && i < |stages|
    ensures NodeInv(u, stages[i].node) && stages[i].node.barrier == 0
  {
    if i > 0 {
      LifeKeeps(u, stages, i - 1);
      assert Leads(u, stages[i - 1], stages[i - 1 + 1].node);
      LeadsKeeps(u, stages[i - 1], stages[i].node);
    }
  }

  /** The base a stage hands to the next: its own, plus the transitions of the epochs that failed
      attempts moved through without ever running them, plus its own barrier. */
  lemma {:induction false} NextBase(u: Setup, g: Stage, next: Node)
    requires NodeInv(u, g.node) && SigningSound(u.crypto) && Leads(u, g, next)
    ensures next.base == g.node.base + SumOfTransitions(Carried(u, g.node, g.events)) + TransitionCommit(g.p)
    ensures next.epoch == g.p.newEpoch > g.node.epoch
  {
    NumbersFromCarried(u, g.node, g.events);
    HistoryKeeps(u, g.node, g.events);
    EpochMoves(u, LastNode(u, g), Transit(g.p, g.commit, g.now, NoFault));
  }

  /** The processor of each epoch was started with the numbers of the node, and each proposal's commit
      index ended its epoch. */
  ghost predicate Started(stages: seq<Stage>, runs: seq<E.EpochRun>)
  {
    && |runs| == |stages|
    && forall i :: 0 <= i < |stages| ==>
         && runs[i].env.epoch == stages[i].node.epoch
         && runs[i].env.base == stages[i].node.base
         && runs[i].proposalIndex == stages[i].p.commitIndex
  }

  lemma {:induction false} SucceedsIff(u: Setup, stages: seq<Stage>, runs: seq<E.EpochRun>, i: nat)
    requires Life(u, stages) && SigningSound(u.crypto) && Started(stages, runs) && i + 1 < |stages|
    ensures E.Succeeds(runs[i], runs[i + 1]) <==> FailsEarly(u, stages[i].node, stages[i].events)
  {
    var g := stages[i];
    LifeKeeps(u, stages, i);
    assert Leads(u, g, stages[i + 1].node);
    NextBase(u, g, stages[i + 1].node);
    EpochKeptIff(u, g.node, g.events);
    E.BarrierIndex(runs[i]);
  }

  /** The epochs of a node's life are chained, each starting where the barrier of the one before it
      ended, if and only if every failed transition failed before it moved the epoch. */
  lemma {:induction false} LifeIsChainedIff(u: Setup, stages: seq<Stage>, runs: seq<E.EpochRun>)
    requires Life(u, stages) && SigningSound(u.crypto) && Started(stages, runs)
    ensures E.Chained(runs) <==>
            forall i :: 0 <= i < |stages| - 1 ==> FailsEarly(u, stages[i].node, stages[i].events)
  {
    forall i | 0 <= i < |stages| - 1
      ensures E.Succeeds(runs[i], runs[i + 1]) <==> FailsEarly(u, stages[i].node, stages[i].events)
    {
      SucceedsIff(u, stages, runs, i);
    }
    if E.Chained(runs) {
      forall i | 0 <= i < |stages| - 1 ensures FailsEarly(u, stages[i].node, stages[i].events) {
        assert E.Succeeds(runs[i], runs[i + 1]);
      }
    }
  }

  /** A failure that moves the epoch: a node that catches up by proposal p and fails on storage, then
      catches up by q, starts its next processor at the sum of both barriers, so the ten indices of
      the epoch that never ran are used by nobody. */
  lemma {:induction false} SkippedEpoch(u: Setup, n: Node, p: Proposal, q: Proposal, runs: seq<E.EpochRun>)
    requires NodeInv(u, n) && SigningSound(u.crypto) && n.base == 0 && n.barrier == 0 && n.lastHash.None?
    requires p.newEpoch == n.epoch + 3 && q.newEpoch == n.epoch + 6 && p.commitIndex == q.commitIndex == 0
    requires HashOf(u.crypto, p) != HashOf(u.crypto, q)
    ensures var events := [Transit(p, 10, 0, StorageFails)];
            var g := Stage(n, events, q, 10, 0);
            var next := Transition(u.crypto, u.hash, History(u, n, events), q, 10, 0, NoFault).1;
            var stages := [g, Stage(next, [], q, 0, 0)];
            && Life(u, stages) && next.base == 20
            && (Started(stages, runs) ==> !E.Chained(runs))
  {
    var e := Transit(p, 10, 0, StorageFails);
    var events := [e];
    assert events[..0] == [] && History(u, n, []) == n;
    assert History(u, n, events) == Happen(u, n, e);
    UsableBaseIndex(n.epoch, 10, n.base);
    assert Stores(u, n, e) && !Completes(u, n, e);
    assert NoneCompletes(u, n, events) && !FailsEarly(u, n, events);
    var g := Stage(n, events, q, 10, 0);
    var next := Transition(u.crypto, u.hash, LastNode(u, g), q, 10, 0, NoFault).1;
    assert Leads(u, g, next);
    var stages := [g, Stage(next, [], q, 0, 0)];
    assert Life(u, stages);
    if Started(stages, runs) { LifeIsChainedIff(u, stages, runs); }
  }

  // ----- Barrier values over a life -----

  /** A value that the barrier has in that stage, or that the transition at its end stores. */
  ghost predicate WrittenIn(u: Setup, stages: seq<Stage>, j: nat, v: nat)
    requires j < |stages|
  {
    var g := stages[j];
    || (j < |stages| - 1 && v == TransitionCommit(g.p))
    || exists t :: 0 <= t <= |g.events| && v == History(u, g.node, g.events[..t]).barrier
  }

  lemma {:induction false} WrittenByLast(u: Setup, stages: seq<Stage>, j: nat)
    requires j < |stages|
    ensures WrittenIn(u, stages, j, LastNode(u, stages[j]).barrier)
  {
    var g := stages[j];
    assert g.events[..|g.events|] == g.events;
  }

  ghost predicate WrittenFrom(u: Setup, stages: seq<Stage>, i: nat, v: nat)
  {
    exists j :: i <= j < |stages| && WrittenIn(u, stages, j, v)
  }

  /** The loads of the processor of stage i return 0 or what the node has written in this or any later
      stage: all epochs share one barrier, and nothing ends a processor when its epoch is over. */
  ghost predicate LoadedFrom(u: Setup, stages: seq<Stage>, i: nat, env: P.Env)
  {
    forall k :: env.load(k) == 0 || WrittenFrom(u, stages, i, env.load(k))
  }

  /** A barrier written in stage i or later, other than the one that ended stage i, decided wrongly on a
      commit of this stage. */
  ghost predicate OverruledFrom(u: Setup, stages: seq<Stage>, i: nat, barrier: nat, log: seq<P.Entry>)
  {
    exists c, v :: WrittenFrom(u, stages, i, v) && E.OverruledAt(log, barrier, c, v)
  }

  // ----- The sequence itself -----

  /** How far a stage moves the base: its own barrier, and the barriers of the epochs that failed attempts
      moved through. */
  function Span(u: Setup, g: Stage): nat
  {
    SumOfTransitions(Carried(u, g.node, g.events)) + TransitionCommit(g.p)
  }

  /** The processor of the stage handled as many commits as the base is going to move, and the values it
      loaded let through these and no others. */
  ghost predicate FillsSpan(u: Setup, g: Stage, r: E.EpochRun)
  {
    var log := P.RunAll(r.env, r.arrivals).log;
    |log| >= Span(u, g) && E.OnTime(log, Span(u, g))
  }

  lemma {:induction false} BaseMoves(u: Setup, stages: seq<Stage>, runs: seq<E.EpochRun>, i: nat)
    requires Life(u, stages) && SigningSound(u.crypto) && Started(stages, runs) && i + 1 < |runs|
    ensures runs[i + 1].env.base == runs[i].env.base + Span(u, stages[i])
  {
    LifeKeeps(u, stages, i);
    assert Leads(u, stages[i], stages[i + 1].node);
    NextBase(u, stages[i], stages[i + 1].node);
  }

  lemma {:induction false} LifeAscends(u: Setup, stages: seq<Stage>, runs: seq<E.EpochRun>)
    requires Life(u, stages) && SigningSound(u.crypto) && Started(stages, runs)
    ensures I.Ascending(runs)
  {
    forall i | 0 <= i < |runs| ensures UsableBase(runs[i].env.epoch, runs[i].env.base) {
      LifeKeeps(u, stages, i);
    }
    forall i | 0 <= i < |runs| - 1 ensures runs[i].env.base <= runs[i + 1].env.base {
      BaseMoves(u, stages, runs, i);
    }
  }

  lemma {:induction false} BasesReachedIff(u: Setup, stages: seq<Stage>, runs: seq<E.EpochRun>)
    requires Life(u, stages) && SigningSound(u.crypto) && Started(stages, runs)
    ensures (forall i :: 0 <= i < |runs| - 1 ==> runs[i].env.base <= runs[i + 1].env.base)
    ensures (forall i :: 0 <= i < |runs| - 1 ==> I.Fills(runs[i], runs[i + 1])) <==>
            forall i :: 0 <= i < |stages| - 1 ==> FillsSpan(u, stages[i], runs[i])
  {
    LifeAscends(u, stages, runs);
    if forall i :: 0 <= i < |runs| - 1 ==> I.Fills(runs[i], runs[i + 1]) {
      forall i | 0 <= i < |stages| - 1 ensures FillsSpan(u, stages[i], runs[i]) {
        assert I.Fills(runs[i], runs[i + 1]);
        BaseMoves(u, stages, runs, i);
      }
    }
    if forall i :: 0 <= i < |stages| - 1 ==> FillsSpan(u, stages[i], runs[i]) {
      forall i | 0 <= i < |runs| - 1 ensures I.Fills(runs[i], runs[i + 1]) {
        assert FillsSpan(u, stages[i], runs[i]);
        BaseMoves(u, stages, runs, i);
      }
    }
  }

  /** The blocks of a node's life, those of its last epoch included, are numbered 1, 2, 3, ..., each epoch
      starting where the ones before it have brought the sequence, if and only if every finished epoch
      handed on exactly as many commits as its base moved, those up to its own barrier and to those of the
      epochs that were skipped, and the last one handed on exactly its first m commits. */
  lemma {:induction false} LifeIsGaplessIff(u: Setup, stages: seq<Stage>, runs: seq<E.EpochRun>, m: nat)
    requires Life(u, stages) && SigningSound(u.crypto) && Started(stages, runs) && runs != []
    ensures var last := P.RunAll(runs[|runs| - 1].env, runs[|runs| - 1].arrivals).log;
            I.Seamless(runs, m) <==>
            && (forall i :: 0 <= i < |stages| - 1 ==> FillsSpan(u, stages[i], runs[i]))
            && |last| >= m && E.OnTime(last, m)
  {
    LifeAscends(u, stages, runs);
    I.SeamlessIff(runs, m);
    BasesReachedIff(u, stages, runs);
    I.HandedOnExactlyIff(runs[|runs| - 1], m);
  }

  /** What the processor of stage i must have done to fill its span: get as far as the span reaches, not
      miss it, and not be overruled by another barrier of this or a later stage. */
  ghost predicate Obeys(u: Setup, stages: seq<Stage>, i: nat, r: E.EpochRun)
    requires i < |stages|
  {
    var log, span := P.RunAll(r.env, r.arrivals).log, Span(u, stages[i]);
    |log| >= span && !E.BarrierMissed(log, span) && !OverruledFrom(u, stages, i, span, log)
  }

  lemma {:induction false} StageFillsIff(u: Setup, stages: seq<Stage>, i: nat, r: E.EpochRun)
    requires i < |stages| && LoadedFrom(u, stages, i, r.env)
    ensures FillsSpan(u, stages[i], r) <==> Obeys(u, stages, i, r)
  {
    var log, span := P.RunAll(r.env, r.arrivals).log, Span(u, stages[i]);
    E.NotOverruledIff(r.env, r.arrivals, span);
    if E.OnTime(log, span) {
      forall c: nat, v: nat ensures !E.OverruledAt(log, span, c, v) { E.OnTimeNotOverruled(log, span, c, v); }
    } else if E.Overruled(r.env, log, span) {
      var c: nat, v: nat :| E.Loaded(r.env, v) && E.OverruledAt(log, span, c, v);
      assert WrittenFrom(u, stages, i, v);
    }
  }

  /** When no failure moved the epoch and all proposals found settled or stored in the stage end it at one
      commit, its span is this barrier, and only a later stage can overrule it. */
  lemma {:induction false} OnlyLaterOverrules(u: Setup, stages: seq<Stage>, i: nat, log: seq<P.Entry>)
    requires Life(u, stages) && SigningSound(u.crypto) && i + 1 < |stages|
    requires FailsEarly(u, stages[i].node, stages[i].events)
    requires AllWrite(u, stages[i].node, stages[i].events, TransitionCommit(stages[i].p))
    ensures var barrier := TransitionCommit(stages[i].p);
            && Span(u, stages[i]) == barrier
            && (OverruledFrom(u, stages, i, barrier, log) <==> OverruledFrom(u, stages, i + 1, barrier, log))
  {
    var g, barrier := stages[i], TransitionCommit(stages[i].p);
    LifeKeeps(u, stages, i);
    assert Leads(u, g, stages[i + 1].node);
    EpochKeptIff(u, g.node, g.events);
    OneValueIff(u, g.node, g.events, barrier);
    if OverruledFrom(u, stages, i, barrier, log) {
      var c, v :| WrittenFrom(u, stages, i, v) && E.OverruledAt(log, barrier, c, v);
      assert !WrittenIn(u, stages, i, v);
      assert WrittenFrom(u, stages, i + 1, v);
    } else {
      assert forall v :: WrittenFrom(u, stages, i + 1, v) ==> WrittenFrom(u, stages, i, v);
    }
  }

  lemma {:induction false} BarrierLeft(u: Setup, n: Node, p: Proposal, q: Proposal)
    requires NodeInv(u, n) && SigningSound(u.crypto) && n.base == 0 && n.barrier == 0 && n.lastHash.None?
    requires p.newEpoch == q.newEpoch == n.epoch + 3 && p.commitIndex == 0 && q.commitIndex == 10
    requires HashOf(u.crypto, p) != HashOf(u.crypto, q)
    ensures var g := Stage(n, [Transit(p, 10, 0, NoCommittee)], q, 20, 0);
            var after := Transition(u.crypto, u.hash, LastNode(u, g), q, 20, 0, NoFault).1;
            && Leads(u, g, after) && LastNode(u, g).barrier == 10 && after.base == 20
            && FailsEarly(u, n, g.events) && Span(u, g) == 20
  {
    var e := Transit(p, 10, 0, NoCommittee);
    var events := [e];
    assert events[..0] == [] && History(u, n, []) == n;
    assert History(u, n, events) == Happen(u, n, e);
    assert Stores(u, n, e) && !Completes(u, n, e);
    assert NoneCompletes(u, n, events) && FailsEarly(u, n, events);
    var g := Stage(n, events, q, 20, 0);
    var after := Transition(u.crypto, u.hash, LastNode(u, g), q, 20, 0, NoFault).1;
    assert Leads(u, g, after);
    NextBase(u, g, after);
    EpochKeptIff(u, n, events);
  }

  /** A stage that moves the base by 20 and hands on 10 commits leaves the indices after them unused. */
  lemma {:induction false} StopsShort(u: Setup, stages: seq<Stage>, runs: seq<E.EpochRun>)
    requires Life(u, stages) && SigningSound(u.crypto) && Started(stages, runs) && |runs| == 2
    requires Span(u, stages[0]) == 20 && E.HandedOn(runs[0], 10)
    ensures forall m :: !I.Seamless(runs, m)
    ensures I.UsedByNeither(runs[0], runs[1], 11, 20)
  {
    I.HandedOnExactlyIff(runs[0], 20);
    assert !E.HandedOn(runs[0], 20) by { assert |Interval(1, 10)| == 10 && |Interval(1, 20)| == 20; }
    assert !FillsSpan(u, stages[0], runs[0]);
    forall m ensures !I.Seamless(runs, m) { LifeIsGaplessIff(u, stages, runs, m); }
    LifeAscends(u, stages, runs);
    BaseMoves(u, stages, runs, 0);
    I.LeftOut(runs[0], runs[1], 10);
  }

  /** A failure that leaves a barrier behind: p ends the epoch at commit 10 and fails for want of a
      committee, then q ends it at commit 20.  No failure moved the epoch, the epochs are chained and the
      processor loaded only what the node had written; but it stopped at commit 10, and the next epoch
      starts at index 21, so the indices 11 to 20 are used by nobody. */
  lemma {:induction false} AbandonedBarrier(u: Setup, n: Node, p: Proposal, q: Proposal, next: E.EpochRun)
    requires NodeInv(u, n) && SigningSound(u.crypto) && n.base == 0 && n.barrier == 0 && n.lastHash.None?
    requires p.newEpoch == q.newEpoch == n.epoch + 3 && p.commitIndex == 0 && q.commitIndex == 10
    requires HashOf(u.crypto, p) != HashOf(u.crypto, q)
    ensures var events := [Transit(p, 10, 0, NoCommittee)];
            var g := Stage(n, events, q, 20, 0);
            var after := Transition(u.crypto, u.hash, History(u, n, events), q, 20, 0, NoFault).1;
            var stages := [g, Stage(after, [], q, 0, 0)];
            var r := E.EpochRun(I.AlwaysSeen(n.epoch, 0, 10), E.EmptyCommits(20), 10);
            && Life(u, stages) && FailsEarly(u, n, events) && LoadedFrom(u, stages, 0, r.env)
            && |P.RunAll(r.env, r.arrivals).log| == 20 && E.HandedOn(r, 10) && after.base == 20
            && (Started(stages, [r, next]) ==>
                  E.Chained([r, next]) && (forall m :: !I.Seamless([r, next], m)) && I.UsedByNeither(r, next, 11, 20))
  {
    var events := [Transit(p, 10, 0, NoCommittee)];
    var g := Stage(n, events, q, 20, 0);
    BarrierLeft(u, n, p, q);
    var after := Transition(u.crypto, u.hash, LastNode(u, g), q, 20, 0, NoFault).1;
    var stages := [g, Stage(after, [], q, 0, 0)];
    assert Life(u, stages);
    var r := E.EpochRun(I.AlwaysSeen(n.epoch, 0, 10), E.EmptyCommits(20), 10);
    I.StopsAtBarrier(n.epoch, 0, 10, 20, 10);
    WrittenByLast(u, stages, 0);
    if Started(stages, [r, next]) {
      LifeIsChainedIff(u, stages, [r, next]);
      StopsShort(u, stages, [r, next]);
    }
  }

  lemma {:induction false} TwoBarriersWritten(u: Setup, n: Node, p: Proposal, q: Proposal)
    requires NodeInv(u, n) && SigningSound(u.crypto) && n.base == 0 && n.barrier == 0 && n.lastHash.None?
    requires p.newEpoch == n.epoch + 3 && q.newEpoch == n.epoch + 6 && p.commitIndex == 0 && q.commitIndex == 10
    ensures var after := Transition(u.crypto, u.hash, n, p, 10, 0, NoFault).1;
            var stages := [Stage(n, [], p, 10, 0), Stage(after, [Transit(q, 20, 0, NoCommittee)], q, 20, 0)];
            && Life(u, stages) && NodeInv(u, after) && after.epoch == n.epoch + 3 && after.base == 10
            && WrittenFrom(u, stages, 0, 10) && WrittenFrom(u, stages, 0, 20) && Span(u, stages[0]) == 10
  {
    var e := Transit(q, 20, 0, NoCommittee);
    var g := Stage(n, [], p, 10, 0);
    var after := Transition(u.crypto, u.hash, n, p, 10, 0, NoFault).1;
    assert LastNode(u, g) == n && Leads(u, g, after);
    NextBase(u, g, after);
    LeadsKeeps(u, g, after);
    var stages := [g, Stage(after, [e], q, 20, 0)];
    assert Life(u, stages);
    assert WrittenIn(u, stages, 0, 10);
    assert WrittenIn(u, stages, 1, 20) by {
      assert [e][..0] == [];
      assert History(u, after, [e]) == Happen(u, after, e) && Happen(u, after, e).barrier == 20;
      WrittenByLast(u, stages, 1);
    }
  }

  lemma {:induction false} IndexTwelve(r: E.EpochRun, next: E.EpochRun)
    requires UsableBase(r.env.epoch, r.env.base) && r.env.base == 0 && 12 in E.SentIndices(E.Sent(r))
    requires next.env == E.NoBarrier(next.env.epoch, 10) && next.arrivals == E.EmptyCommits(2)
    requires UsableBase(next.env.epoch, 10)
    ensures I.Shared(r, next)
  {
    E.AllHandedOn(next.env.epoch, 10, 2);
    assert E.SentIndices(E.Sent(next))[1] == 2;
    E.IndexUsedIff(r, 12);
    E.IndexUsedIff(next, 2);
    assert I.Uses(r, 12) && I.Uses(next, 12);
  }

  /** A barrier of a later epoch: the epoch is ended at commit 10 and wrote no other barrier, and its
      processor got there and did not miss it.  But the processor is still at work when the next epoch
      sets barrier 20; it lets commit 12 through, under the index of commit 2 of the next epoch. */
  lemma {:induction false} LaterBarrierSeen(u: Setup, n: Node, p: Proposal, q: Proposal)
    requires NodeInv(u, n) && SigningSound(u.crypto) && n.base == 0 && n.barrier == 0 && n.lastHash.None?
    requires p.newEpoch == n.epoch + 3 && q.newEpoch == n.epoch + 6 && p.commitIndex == 0 && q.commitIndex == 10
    ensures var after := Transition(u.crypto, u.hash, n, p, 10, 0, NoFault).1;
            var stages := [Stage(n, [], p, 10, 0), Stage(after, [Transit(q, 20, 0, NoCommittee)], q, 20, 0)];
            var r := E.EpochRun(I.SeenThen(n.epoch, 10, 20), E.EmptyCommits(12), 0);
            var next := E.EpochRun(E.NoBarrier(n.epoch + 3, 10), E.EmptyCommits(2), 10);
            var log := P.RunAll(r.env, r.arrivals).log;
            && Life(u, stages) && Started(stages, [r, next]) && FailsEarly(u, n, [])
            && AllWrite(u, n, [], 10) && LoadedFrom(u, stages, 0, r.env) && LoadedFrom(u, stages, 1, next.env)
            && |log| == 12 && !E.BarrierMissed(log, 10) && !FillsSpan(u, stages[0], r) && I.Shared(r, next)
  {
    TwoBarriersWritten(u, n, p, q);
    I.LaterBarrierTaken(n.epoch, 10, 20, 0);
    var r := E.EpochRun(I.SeenThen(n.epoch, 10, 20), E.EmptyCommits(12), 0);
    I.HandedOnExactlyIff(r, 10);
    IndexTwelve(r, E.EpochRun(E.NoBarrier(n.epoch + 3, 10), E.EmptyCommits(2), 10));
  }

  // ----- Contiguity -----

  /** Contiguity over a node's life, from what its events wrote and its processors loaded: the blocks are
      numbered 1, 2, 3, ... through all epochs if and only if the processor of every finished stage obeyed
      the barriers that ended it, and the last one handed on exactly its first m commits.  When no failure
      moved an epoch, the last one starts at the sum of the barriers before it. */
  lemma {:induction false} ContiguousInLife(u: Setup, stages: seq<Stage>, runs: seq<E.EpochRun>, m: nat)
    requires Life(u, stages) && SigningSound(u.crypto) && Started(stages, runs) && runs != []
    requires forall i :: 0 <= i < |runs| - 1 ==> LoadedFrom(u, stages, i, runs[i].env)
    ensures I.Seamless(runs, m) <==>
            (forall i :: 0 <= i < |runs| - 1 ==> Obeys(u, stages, i, runs[i])) && E.HandedOn(runs[|runs| - 1], m)
    ensures (forall i :: 0 <= i < |stages| - 1 ==> FailsEarly(u, stages[i].node, stages[i].events)) ==>
              runs[|runs| - 1].env.base == E.SumOfBarriers(runs[..|runs| - 1])
  {
    LifeIsChainedIff(u, stages, runs);
    if E.Chained(runs) { E.BaseIsSumOfBarriers(runs, |runs| - 1); }
    LifeIsGaplessIff(u, stages, runs, m);
    I.HandedOnExactlyIff(runs[|runs| - 1], m);
    forall i | 0 <= i < |runs| - 1 ensures FillsSpan(u, stages[i], runs[i]) <==> Obeys(u, stages, i, runs[i]) {
      StageFillsIff(u, stages, i, runs[i]);
    }
  }

  // ----- The executor -----

  lemma {:induction false} StageHandsOn(u: Setup, stages: seq<Stage>, epochs: seq<T.Epoch>, i: nat)
    requires Life(u, stages) && SigningSound(u.crypto) && Started(stages, T.Runs(epochs)) && i + 1 < |epochs|
    requires epochs[i].run.env.base <= epochs[i + 1].run.env.base && I.Fills(epochs[i].run, epochs[i + 1].run)
    ensures epochs[i].run.env.base < epochs[i + 1].run.env.base
    ensures E.HandedOn(epochs[i].run, epochs[i + 1].run.env.base - epochs[i].run.env.base)
  {
    BaseMoves(u, stages, T.Runs(epochs), i);
    I.HandedOnExactlyIff(epochs[i].run, epochs[i + 1].run.env.base - epochs[i].run.env.base);
  }

  lemma {:induction false} BasesUsable(u: Setup, stages: seq<Stage>, epochs: seq<T.Epoch>, i: nat)
    requires Life(u, stages) && SigningSound(u.crypto) && Started(stages, T.Runs(epochs)) && i < |epochs|
    ensures UsableBase(epochs[i].run.env.epoch, epochs[i].run.env.base) && (i == 0 ==> epochs[i].run.env.base == 0)
  {
    assert T.Runs(epochs)[i] == epochs[i].run;
    LifeKeeps(u, stages, i);
  }

  lemma {:induction false} LifeIsScheduled(u: Setup, stages: seq<Stage>, epochs: seq<T.Epoch>, m: nat)
    requires Life(u, stages) && SigningSound(u.crypto) && epochs != [] && Started(stages, T.Runs(epochs))
    requires I.Seamless(T.Runs(epochs), m)
    ensures L.Scheduled(epochs, m)
  {
    var runs := T.Runs(epochs);
    LifeAscends(u, stages, runs);
    I.SeamlessIff(runs, m);
    BasesUsable(u, stages, epochs, 0);
    forall i | 0 <= i < |epochs| - 1
      ensures epochs[i].run.env.base < epochs[i + 1].run.env.base
      ensures E.HandedOn(epochs[i].run, epochs[i + 1].run.env.base - epochs[i].run.env.base)
    {
      assert I.Fills(runs[i], runs[i + 1]);
      StageHandsOn(u, stages, epochs, i);
    }
    forall i | 0 <= i < |epochs| ensures UsableBase(epochs[i].run.env.epoch, epochs[i].run.env.base) {
      BasesUsable(u, stages, epochs, i);
    }
  }

  /** From startup on, over all epochs of a node's life, with the senders of all epochs at work in any
      interleaving and with any send failures: if the blocks are numbered without a gap, which
      `LifeIsGaplessIff` decides, the executor receives 1, 2, 3, ... in order and each once, as the commits
      the processors handed on, and no block of an epoch before all of the earlier epochs have arrived;
      unless an answer landed on the first sender between a send and its count, and then nothing but blocks
      of the first epoch, in order and without one. */
  lemma {:induction false} ExecutorSeesOneSequence(u: Setup, stages: seq<Stage>, epochs: seq<T.Epoch>, m: nat,
                                                  steps: seq<A.Step>)
    requires Life(u, stages) && SigningSound(u.crypto) && epochs != [] && Started(stages, T.Runs(epochs))
    requires I.Seamless(T.Runs(epochs), m)
    requires A.Given(epochs, steps) && A.AsksOnce(epochs, steps) && A.Truthful(steps)
    ensures !A.LandsBetween(epochs, steps) ==> A.AllInOrder(epochs, steps)
    ensures A.LandsBetween(epochs, steps) ==> exists k :: A.StuckAfter(epochs, steps, k)
  {
    LifeIsScheduled(u, stages, epochs, m);
    A.ExecutorReceives(epochs, m, steps);
  }

  // ----- The shared queue -----

  /** No transaction of a handled commit is lost: it was handed to the executor in its commit, or the
      processor put it into the queue it shares with the node, and then the next completed transition
      hands it to consensus, as the earliest queued transaction of its hash, whatever attempts failed
      before. */
  lemma {:induction false} HandledOrReplayed(u: Setup, env: P.Env, arrivals: seq<P.SubDag>, i: nat, tx: Tx,
                                            n: Node, events: seq<Event>, p: Proposal, commit: nat, now: nat)
    requires env.queueConfigured
    requires var s := P.RunAll(env, arrivals);
             && i < |s.log| && C.InBlocks(s.log[i].dag, tx)
             && forall x :: x in s.queue ==> x in n.queue
    requires NoneCompletes(u, n, events)
    requires Transition(u.crypto, u.hash, History(u, n, events), p, commit, now, NoFault).0.Done?
    ensures var t := History(u, n, events);
            var after := Transition(u.crypto, u.hash, t, p, commit, now, NoFault).1;
            || (exists d :: d in P.RunAll(env, arrivals).sent && C.InBlocks(d.dag, tx))
            || exists x :: x in after.submitted && u.hash(x) == u.hash(tx) &&
                           CanonicalOrder.Earliest(u.hash, t.queue, x)
  {
    C.SentOrQueued(env, arrivals, i, tx);
    if tx in P.RunAll(env, arrivals).queue {
      QueuedIsReplayed(u, n, tx, events, p, commit, now);
    }
  }
}
