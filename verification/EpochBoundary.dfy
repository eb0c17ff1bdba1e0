/** The last commits of an epoch and the first of the next: one global sequence across epochs. */
module EpochBoundary {
  import opened Types
  import opened GlobalIndex
  import opened CommitProcessing
  import opened CommitOrdering

  // ----- One epoch -----

  function SentIndices(sent: seq<Delivery>): seq<nat>
  {
    seq(|sent|, i requires 0 <= i < |sent| => sent[i].dag.index)
  }

  function GlobalIndices(sent: seq<Delivery>): seq<nat>
  {
    seq(|sent|, i requires 0 <= i < |sent| => sent[i].globalIndex)
  }

  /** The loads made for commit i + 1 let it through: it is above neither the last non-zero barrier any
      first check had loaded nor a non-zero barrier loaded right before sending. */
  ghost predicate Passes(log: seq<Entry>, i: nat)
    requires i < |log|
  {
    var barrier := LastLoaded(log[..i + 1]);
    (barrier == 0 || i + 1 <= barrier) && (log[i].second == 0 || i + 1 <= log[i].second)
  }

  /** The loads let through exactly the commits up to the barrier. */
  ghost predicate OnTime(log: seq<Entry>, barrier: nat)
  {
    forall i: nat :: i < |log| ==> (Passes(log, i) <==> i < barrier)
  }

  lemma {:induction false} ExecutedIff(env: Env, log: seq<Entry>, i: nat)
    requires Faithful(env, log) && i < |log|
    ensures log[i].dag.index == i + 1
    ensures log[i].outcome.Executed? <==> Passes(log, i)
    ensures log[i].outcome.Executed? ==>
              log[i].outcome.globalIndex == GlobalExecIndex(env.epoch, i + 1, env.base)
  {
    FaithfulAt(env, log, i);
    assert log[..i + 1] == log[..i] + [log[i]];
  }

  /** Every delivery of a history comes from one of its executed entries, and conversely. */
  lemma {:induction false} SentFromLog(log: seq<Entry>, d: Delivery)
    ensures d in SentOf(log) <==>
            exists i :: 0 <= i < |log| && log[i].outcome == Executed(d.globalIndex) && log[i].dag == d.dag
  {
    if log != [] {
      var n := |log| - 1;
      SentFromLog(log[..n], d);
      if d in SentOf(log) && d !in SentOf(log[..n]) {
        assert log[n].outcome == Executed(d.globalIndex) && log[n].dag == d.dag;
      }
      if i :| 0 <= i < |log| && log[i].outcome == Executed(d.globalIndex) && log[i].dag == d.dag {
        if i < n { assert log[..n][i] == log[i]; }
      }
    }
  }

  /** A commit is among those handed on if and only if it was handled and the loads let it through. */
  lemma {:induction false} HandedOnIff(env: Env, log: seq<Entry>, c: nat)
    requires Faithful(env, log)
    ensures c in SentIndices(SentOf(log)) <==> 1 <= c <= |log| && Passes(log, c - 1)
  {
    var indices := SentIndices(SentOf(log));
    if c in indices {
      var k :| 0 <= k < |indices| && indices[k] == c;
      var d := SentOf(log)[k];
      SentFromLog(log, d);
      var i :| 0 <= i < |log| && log[i].outcome == Executed(d.globalIndex) && log[i].dag == d.dag;
      ExecutedIff(env, log, i);
    }
    if 1 <= c <= |log| && Passes(log, c - 1) {
      ExecutedIff(env, log, c - 1);
      var d := Delivery(log[c - 1].outcome.globalIndex, log[c - 1].dag);
      SentFromLog(log, d);
      var k :| 0 <= k < |SentOf(log)| && SentOf(log)[k] == d;
      assert indices[k] == c;
    }
  }

  function Min(a: nat, b: nat): nat
  {
    if a <= b then a else b
  }

  lemma {:induction false} OnTimePrefix(log: seq<Entry>, barrier: nat)
    requires log != [] && OnTime(log, barrier)
    ensures OnTime(log[..|log| - 1], barrier)
  {
    var before := log[..|log| - 1];
    forall i: nat | i < |before| ensures Passes(before, i) <==> i < barrier {
      assert before[..i + 1] == log[..i + 1];
      assert Passes(log, i) <==> i < barrier;
    }
  }

  lemma {:induction false} SentWhenOnTime(env: Env, log: seq<Entry>, barrier: nat)
    requires Faithful(env, log) && OnTime(log, barrier)
    ensures |SentOf(log)| == Min(|log|, barrier)
    ensures forall i :: 0 <= i < |SentOf(log)| ==> SentOf(log)[i].dag.index == i + 1
  {
    if log != [] {
      var n := |log| - 1;
      OnTimePrefix(log, barrier);
      SentWhenOnTime(env, log[..n], barrier);
      ExecutedIff(env, log, n);
    }
  }

  /** The executor gets exactly the commits 1..min(handled, barrier), in order, if and only if the
      barrier values loaded let through exactly those: none stopped a commit up to the barrier, and
      none was missed on a commit above it. */
  lemma {:induction false} ExactlyUpToBarrierIff(env: Env, arrivals: seq<SubDag>, barrier: nat)
    ensures var s := RunAll(env, arrivals);
            SentIndices(s.sent) == Interval(1, Min(|s.log|, barrier)) <==> OnTime(s.log, barrier)
  {
    RunKeeps(env, arrivals);
    var s := RunAll(env, arrivals);
    var n := Min(|s.log|, barrier);
    if OnTime(s.log, barrier) {
      SentWhenOnTime(env, s.log, barrier);
    }
    if SentIndices(s.sent) == Interval(1, n) {
      forall i: nat | i < |s.log| ensures Passes(s.log, i) <==> i < barrier {
        HandedOnIff(env, s.log, i + 1);
        assert i < n ==> Interval(1, n)[i] == i + 1;
      }
    }
  }

  // ----- Which values decide -----

  /** A commit above the barrier was handled before any first check had seen the barrier, and the load
      right before sending it missed the barrier too. */
  ghost predicate MissedAt(log: seq<Entry>, barrier: nat, i: nat)
  {
    barrier <= i < |log| && (forall j :: 0 <= j <= i ==> log[j].first == 0) && log[i].second == 0
  }

  ghost predicate BarrierMissed(log: seq<Entry>, barrier: nat)
  {
    exists i :: MissedAt(log, barrier, i)
  }

  lemma {:induction false} LastLoadedZeroIff(log: seq<Entry>)
    ensures LastLoaded(log) == 0 <==> forall j :: 0 <= j < |log| ==> log[j].first == 0
  {
    if log != [] {
      LastLoadedZeroIff(log[..|log| - 1]);
    }
  }

  lemma {:induction false} PrefixFaithful(env: Env, log: seq<Entry>, n: nat)
    requires Faithful(env, log) && n <= |log|
    ensures Faithful(env, log[..n])
  {
    if n < |log| {
      PrefixFaithful(env, log[..|log| - 1], n);
      assert log[..|log| - 1][..n] == log[..n];
    } else {
      assert log[..n] == log;
    }
  }

  /** Some load of the run can return the value. */
  ghost predicate Loaded(env: Env, v: nat)
  {
    exists k :: env.load(k) == v
  }

  /** The value is the one remembered for commit i + 1 or the one loaded right before sending it. */
  ghost predicate Decides(log: seq<Entry>, i: nat, v: nat)
    requires i < |log|
  {
    v > 0 && (v == LastLoaded(log[..i + 1]) || v == log[i].second)
  }

  /** A value other than the barrier decides on commit i + 1, and wrongly: it stops a commit up to the
      barrier, or has a part in letting one above it through. */
  ghost predicate OverruledAt(log: seq<Entry>, barrier: nat, i: nat, v: nat)
  {
    && i < |log| && v != barrier && Decides(log, i, v)
    && if i < barrier then v <= i else v > i && Passes(log, i)
  }

  ghost predicate Overruled(env: Env, log: seq<Entry>, barrier: nat)
  {
    exists i, v :: Loaded(env, v) && OverruledAt(log, barrier, i, v)
  }

  lemma {:induction false} RememberedIsLoaded(env: Env, log: seq<Entry>)
    requires Faithful(env, log) && LastLoaded(log) > 0
    ensures Loaded(env, LastLoaded(log))
  {
    var n := |log| - 1;
    if log[n].first > 0 {
      assert log[n].first == env.load(LoadsUsed(log[..n]));
    } else {
      RememberedIsLoaded(env, log[..n]);
    }
  }

  lemma {:induction false} SecondIsLoaded(env: Env, log: seq<Entry>, i: nat)
    requires Faithful(env, log) && i < |log|
    requires LastLoaded(log[..i + 1]) == 0 || i < LastLoaded(log[..i + 1])
    ensures Loaded(env, log[i].second)
  {
    FaithfulAt(env, log, i);
    assert log[..i + 1] == log[..i] + [log[i]];
    assert log[i].second == env.load(LoadsUsed(log[..i]) + 1);
  }

  /** A commit is decided wrongly only if the barrier was missed on it or another value overruled it. */
  lemma {:induction false} WronglyDecided(env: Env, log: seq<Entry>, barrier: nat, i: nat)
    requires Faithful(env, log) && i < |log| && barrier > 0 && (Passes(log, i) <==> i >= barrier)
    ensures MissedAt(log, barrier, i) || exists v :: Loaded(env, v) && OverruledAt(log, barrier, i, v)
  {
    var kept, second := LastLoaded(log[..i + 1]), log[i].second;
    LastLoadedZeroIff(log[..i + 1]);
    if kept > 0 {
      PrefixFaithful(env, log, i + 1);
      RememberedIsLoaded(env, log[..i + 1]);
    }
    if kept == 0 || i < kept { SecondIsLoaded(env, log, i); }
    if kept > 0 && (i < barrier ==> kept <= i) {
      assert OverruledAt(log, barrier, i, kept);
    } else if second > 0 {
      assert OverruledAt(log, barrier, i, second);
    }
  }

  lemma {:induction false} OnTimeNotMissed(log: seq<Entry>, barrier: nat, i: nat)
    requires OnTime(log, barrier)
    ensures !MissedAt(log, barrier, i)
  {
    if i < |log| {
      assert Passes(log, i) <==> i < barrier;
      LastLoadedZeroIff(log[..i + 1]);
    }
  }

  lemma {:induction false} OnTimeNotOverruled(log: seq<Entry>, barrier: nat, i: nat, v: nat)
    requires OnTime(log, barrier)
    ensures !OverruledAt(log, barrier, i, v)
  {
    assert i < |log| ==> (Passes(log, i) <==> i < barrier);
  }

  /** Whatever is loaded, the loads let through exactly the commits up to the barrier if and only if none
      above it was missed and no other value overruled it. */
  lemma {:induction false} NotOverruledIff(env: Env, arrivals: seq<SubDag>, barrier: nat)
    requires barrier > 0
    ensures var log := RunAll(env, arrivals).log;
            OnTime(log, barrier) <==> !BarrierMissed(log, barrier) && !Overruled(env, log, barrier)
  {
    var log := RunAll(env, arrivals).log;
    RunKeeps(env, arrivals);
    if OnTime(log, barrier) {
      forall i: nat ensures !MissedAt(log, barrier, i) { OnTimeNotMissed(log, barrier, i); }
      forall i: nat, v: nat ensures !OverruledAt(log, barrier, i, v) { OnTimeNotOverruled(log, barrier, i, v); }
    } else {
      var i: nat :| i < |log| && !(Passes(log, i) <==> i < barrier);
      WronglyDecided(env, log, barrier, i);
    }
  }

  // ----- One barrier value -----

  /** The barrier is off or has one value during the run; it may go on and off at any time. */
  ghost predicate SingleBarrier(env: Env, barrier: nat)
  {
    barrier > 0 && forall k :: env.load(k) == 0 || env.load(k) == barrier
  }

  /** Then the loads are on time if and only if the barrier was not missed. */
  lemma {:induction false} OnTimeIff(env: Env, arrivals: seq<SubDag>, barrier: nat)
    requires SingleBarrier(env, barrier)
    ensures var log := RunAll(env, arrivals).log;
            OnTime(log, barrier) <==> !BarrierMissed(log, barrier)
  {
    NotOverruledIff(env, arrivals, barrier);
  }

  // ----- Epoch after epoch -----

  /** A finished epoch: the run of its processor and the commit index of the proposal that ended it. */
  datatype EpochRun = EpochRun(env: Env, arrivals: seq<SubDag>, proposalIndex: nat)

  /** The commit index at which the epoch ends. */
  function Barrier(r: EpochRun): (b: nat)
    ensures b >= 10
  {
    SaturatingAddU32(r.proposalIndex, 10)
  }

  function Sent(r: EpochRun): seq<Delivery>
  {
    RunAll(r.env, r.arrivals).sent
  }

  /** With a usable base the last commit of an epoch has the index base + barrier. */
  lemma BarrierIndex(r: EpochRun)
    requires UsableBase(r.env.epoch, r.env.base)
    ensures GlobalExecIndex(r.env.epoch, Barrier(r), r.env.base) == r.env.base + Barrier(r)
  {
    UsableBaseIndex(r.env.epoch, Barrier(r), r.env.base);
  }

  /** The transition hands the next epoch a larger number and the index of its last commit as base. */
  ghost predicate Succeeds(r: EpochRun, next: EpochRun)
  {
    && next.env.epoch > r.env.epoch
    && next.env.base == GlobalExecIndex(r.env.epoch, Barrier(r), r.env.base)
  }

  ghost predicate Chained(runs: seq<EpochRun>)
  {
    && (runs != [] ==> UsableBase(runs[0].env.epoch, runs[0].env.base) && runs[0].env.base == 0)
    && forall i :: 0 <= i < |runs| - 1 ==> Succeeds(runs[i], runs[i + 1])
  }

  /** The processor of the epoch handed on exactly the commits 1..n. */
  ghost predicate HandedOn(r: EpochRun, n: nat)
  {
    SentIndices(Sent(r)) == Interval(1, n)
  }

  function SumOfBarriers(runs: seq<EpochRun>): nat
  {
    if runs == [] then 0 else SumOfBarriers(runs[..|runs| - 1]) + Barrier(runs[|runs| - 1])
  }

  /** All global indices handed to the executor, epoch after epoch. */
  function AllGlobalIndices(runs: seq<EpochRun>): seq<nat>
  {
    if runs == [] then [] else AllGlobalIndices(runs[..|runs| - 1]) + GlobalIndices(Sent(runs[|runs| - 1]))
  }

  /** Each epoch's base is the sum of the barriers before it. */
  lemma {:induction false} BaseIsSumOfBarriers(runs: seq<EpochRun>, i: nat)
    requires Chained(runs) && i < |runs|
    ensures runs[i].env.base == SumOfBarriers(runs[..i])
    ensures UsableBase(runs[i].env.epoch, runs[i].env.base)
  {
    if i > 0 {
      BaseIsSumOfBarriers(runs, i - 1);
      assert Succeeds(runs[i - 1], runs[i - 1 + 1]);
      UsableBaseIndex(runs[i - 1].env.epoch, Barrier(runs[i - 1]), runs[i - 1].env.base);
      assert runs[..i][..i - 1] == runs[..i - 1];
    }
  }

  lemma {:induction false} SentAreFaithful(env: Env, log: seq<Entry>, i: nat)
    requires Faithful(env, log) && i < |SentOf(log)|
    ensures SentOf(log)[i].globalIndex == GlobalExecIndex(env.epoch, SentOf(log)[i].dag.index, env.base)
  {
    var n := |log| - 1;
    if i < |SentOf(log[..n])| { SentAreFaithful(env, log[..n], i); }
  }

  /** Whatever was handed on carries the global index of its own commit. */
  lemma DeliveryIndex(r: EpochRun, i: nat)
    requires i < |Sent(r)|
    ensures Sent(r)[i].globalIndex == GlobalExecIndex(r.env.epoch, Sent(r)[i].dag.index, r.env.base)
  {
    RunKeeps(r.env, r.arrivals);
    SentAreFaithful(r.env, RunAll(r.env, r.arrivals).log, i);
  }

  lemma EpochIndices(r: EpochRun, n: nat)
    requires UsableBase(r.env.epoch, r.env.base) && HandedOn(r, n)
    ensures GlobalIndices(Sent(r)) == Interval(r.env.base + 1, n)
  {
    forall i | 0 <= i < |Sent(r)| ensures GlobalIndices(Sent(r))[i] == r.env.base + 1 + i {
      DeliveryIndex(r, i);
      assert SentIndices(Sent(r))[i] == Interval(1, n)[i];
    }
    assert |SentIndices(Sent(r))| == n;
  }

  lemma {:induction false} ChainedPrefix(runs: seq<EpochRun>)
    requires Chained(runs) && |runs| > 1
    ensures Chained(runs[..|runs| - 1])
  {
    var before := runs[..|runs| - 1];
    forall i | 0 <= i < |before| - 1 ensures Succeeds(before[i], before[i + 1]) {
      assert Succeeds(runs[i], runs[i + 1]);
    }
  }

  lemma IntervalsJoin(lo: nat, a: nat, b: nat)
    ensures Interval(lo, a) + Interval(lo + a, b) == Interval(lo, a + b)
  {
  }

  lemma Joined(xs: seq<nat>, ys: seq<nat>, a: nat, b: nat)
    requires xs == Interval(1, a) && ys == Interval(1 + a, b)
    ensures xs + ys == Interval(1, a + b)
  {
    IntervalsJoin(1, a, b);
  }

  /** What one epoch of a chain hands on starts right after the barriers before it. */
  lemma {:induction false} EpochInChain(runs: seq<EpochRun>, i: nat, n: nat)
    requires Chained(runs) && i < |runs| && HandedOn(runs[i], n)
    ensures GlobalIndices(Sent(runs[i])) == Interval(1 + SumOfBarriers(runs[..i]), n)
  {
    BaseIsSumOfBarriers(runs, i);
    EpochIndices(runs[i], n);
  }

  lemma {:induction false} FinishedEpochs(runs: seq<EpochRun>)
    requires Chained(runs) && forall i :: 0 <= i < |runs| ==> HandedOn(runs[i], Barrier(runs[i]))
    ensures AllGlobalIndices(runs) == Interval(1, SumOfBarriers(runs))
  {
    if runs != [] {
      var n := |runs| - 1;
      if n > 0 { ChainedPrefix(runs); }
      FinishedEpochs(runs[..n]);
      EpochInChain(runs, n, Barrier(runs[n]));
      Joined(AllGlobalIndices(runs[..n]), GlobalIndices(Sent(runs[n])), SumOfBarriers(runs[..n]), Barrier(runs[n]));
    }
  }

  /** Multi-epoch contiguity.  If every finished epoch handed on exactly the commits up to its
      barrier and the last epoch some prefix 1..m, then the global indices handed out over the
      whole run are 1, 2, 3, ... with no gap and no repetition. */
  lemma {:induction false} MultiEpochContiguity(runs: seq<EpochRun>, m: nat)
    requires Chained(runs) && runs != []
    requires forall i :: 0 <= i < |runs| - 1 ==> HandedOn(runs[i], Barrier(runs[i]))
    requires HandedOn(runs[|runs| - 1], m)
    ensures AllGlobalIndices(runs) == Interval(1, SumOfBarriers(runs[..|runs| - 1]) + m)
  {
    var n := |runs| - 1;
    assert AllGlobalIndices(runs[..n]) == Interval(1, SumOfBarriers(runs[..n])) by {
      if n > 0 { ChainedPrefix(runs); }
      FinishedEpochs(runs[..n]);
    }
    EpochInChain(runs, n, m);
    Joined(AllGlobalIndices(runs[..n]), GlobalIndices(Sent(runs[n])), SumOfBarriers(runs[..n]), m);
  }

  /** The same from the barrier values loaded: every finished epoch handled its barrier commit and its
      loads were on time. */
  lemma {:induction false} ContiguousWhenOnTime(runs: seq<EpochRun>, m: nat)
    requires Chained(runs) && runs != []
    requires forall i :: 0 <= i < |runs| - 1 ==>
               var log := RunAll(runs[i].env, runs[i].arrivals).log;
               |log| >= Barrier(runs[i]) && OnTime(log, Barrier(runs[i]))
    requires HandedOn(runs[|runs| - 1], m)
    ensures AllGlobalIndices(runs) == Interval(1, SumOfBarriers(runs[..|runs| - 1]) + m)
  {
    forall i | 0 <= i < |runs| - 1 ensures HandedOn(runs[i], Barrier(runs[i])) {
      ExactlyUpToBarrierIff(runs[i].env, runs[i].arrivals, Barrier(runs[i]));
    }
    MultiEpochContiguity(runs, m);
  }

  /** An epoch uses the global index of a commit if and only if it handed the commit on. */
  lemma {:induction false} IndexUsedIff(r: EpochRun, c: nat)
    requires UsableBase(r.env.epoch, r.env.base)
    ensures r.env.base + c in GlobalIndices(Sent(r)) <==> c in SentIndices(Sent(r))
  {
    var all, indices := GlobalIndices(Sent(r)), SentIndices(Sent(r));
    forall k | 0 <= k < |all| ensures all[k] == r.env.base + indices[k] {
      DeliveryIndex(r, k);
    }
    if r.env.base + c in all {
      var k :| 0 <= k < |all| && all[k] == r.env.base + c;
      assert indices[k] == c;
    }
    if c in indices {
      var k :| 0 <= k < |indices| && indices[k] == c;
      assert all[k] == r.env.base + c;
    }
  }

  /** When the promise breaks.  The old epoch hands the executor a block under the global index that
      belongs to the first commit of the new epoch if and only if it handled the commit after the
      barrier and the barrier values loaded for that commit let it through. */
  lemma {:induction false} BoundaryCollisionIff(r: EpochRun, next: EpochRun)
    requires UsableBase(r.env.epoch, r.env.base) && Succeeds(r, next)
    ensures var log := RunAll(r.env, r.arrivals).log;
            GlobalExecIndex(next.env.epoch, 1, next.env.base) in GlobalIndices(Sent(r)) <==>
            |log| > Barrier(r) && Passes(log, Barrier(r))
  {
    RunKeeps(r.env, r.arrivals);
    BarrierIndex(r);
    assert GlobalExecIndex(next.env.epoch, 1, next.env.base) == r.env.base + (Barrier(r) + 1);
    IndexUsedIff(r, Barrier(r) + 1);
    HandedOnIff(r.env, RunAll(r.env, r.arrivals).log, Barrier(r) + 1);
  }

  /** Commits 1..n, without transactions. */
  function EmptyCommits(n: nat): (r: seq<SubDag>)
    ensures |r| == n && forall i :: 0 <= i < n ==> r[i].index == i + 1
  {
    seq(n, (i: nat) => SubDag(i + 1, []))
  }

  /** An epoch whose barrier is never seen. */
  function NoBarrier(epoch: nat, base: nat): Env
  {
    Env(epoch, base, true, k => 0, c => false)
  }

  lemma {:induction false} EmptyUnbroken(n: nat)
    ensures Unbroken(EmptyCommits(n), n)
  {
    var arrivals := EmptyCommits(n);
    forall c: nat | 1 <= c <= n ensures c in Delivered(arrivals) {
      assert arrivals[c - 1] in arrivals && arrivals[c - 1].index == c;
    }
  }

  /** Without a barrier every commit is handed on. */
  lemma {:induction false} AllHandedOn(epoch: nat, base: nat, n: nat)
    ensures SentIndices(RunAll(NoBarrier(epoch, base), EmptyCommits(n)).sent) == Interval(1, n)
  {
    EmptyUnbroken(n);
    ReorderRefinement(NoBarrier(epoch, base), EmptyCommits(n), 0, n);
  }

  /** It does break: an epoch that has handled the commit after its barrier before the barrier was set
      uses the first global index of the next epoch, whatever the proposal. */
  lemma {:induction false} BoundaryCollision(proposalIndex: nat)
    ensures var b := SaturatingAddU32(proposalIndex, 10);
            var r := EpochRun(NoBarrier(0, 0), EmptyCommits(b + 1), proposalIndex);
            var next := EpochRun(NoBarrier(1, b), [], 0);
            && Succeeds(r, next)
            && GlobalExecIndex(next.env.epoch, 1, next.env.base) in GlobalIndices(Sent(r))
  {
    var b := SaturatingAddU32(proposalIndex, 10);
    var r := EpochRun(NoBarrier(0, 0), EmptyCommits(b + 1), proposalIndex);
    AllHandedOn(0, 0, b + 1);
    assert SentIndices(Sent(r))[b] == b + 1;
    IndexUsedIff(r, b + 1);
  }
}
