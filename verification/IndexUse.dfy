/** Which global indices the epochs use: when one is used twice, and when one is left out. */
module IndexUse {
  import opened Types
  import opened GlobalIndex
  import opened CommitProcessing
  import opened CommitOrdering
  import opened EpochBoundary

  // ----- Used twice -----

  /** The epoch hands the executor a block under that global index. */
  ghost predicate Uses(r: EpochRun, g: nat)
  {
    g in GlobalIndices(Sent(r))
  }

  /** Two epochs hand the executor a block under one global index. */
  ghost predicate Shared(r: EpochRun, later: EpochRun)
  {
    exists g :: Uses(r, g) && Uses(later, g)
  }

  /** The loads of the first epoch let its commit i + 1 through, and its index is that of a commit the
      second epoch hands on. */
  ghost predicate Overruns(r: EpochRun, later: EpochRun, i: nat)
  {
    var log := RunAll(r.env, r.arrivals).log;
    && i < |log| && Passes(log, i)
    && r.env.base + i + 1 > later.env.base
    && r.env.base + i + 1 - later.env.base in SentIndices(Sent(later))
  }

  /** A used index is the base plus the number of a commit that was handed on. */
  lemma {:induction false} IndexOfCommit(r: EpochRun, g: nat)
    requires UsableBase(r.env.epoch, r.env.base) && Uses(r, g)
    ensures g > r.env.base && g - r.env.base in SentIndices(Sent(r))
  {
    var all, indices := GlobalIndices(Sent(r)), SentIndices(Sent(r));
    var k :| 0 <= k < |all| && all[k] == g;
    DeliveryIndex(r, k);
    assert indices[k] == g - r.env.base;
    RunKeeps(r.env, r.arrivals);
    HandedOnIff(r.env, RunAll(r.env, r.arrivals).log, indices[k]);
  }

  lemma {:induction false} SharedOverruns(r: EpochRun, later: EpochRun, g: nat)
    requires UsableBase(r.env.epoch, r.env.base) && UsableBase(later.env.epoch, later.env.base)
    requires Uses(r, g) && Uses(later, g)
    ensures g > r.env.base && Overruns(r, later, g - r.env.base - 1)
  {
    RunKeeps(r.env, r.arrivals);
    IndexOfCommit(r, g);
    IndexOfCommit(later, g);
    HandedOnIff(r.env, RunAll(r.env, r.arrivals).log, g - r.env.base);
  }

  lemma {:induction false} OverrunShares(r: EpochRun, later: EpochRun, i: nat)
    requires UsableBase(r.env.epoch, r.env.base) && UsableBase(later.env.epoch, later.env.base)
    requires Overruns(r, later, i)
    ensures Uses(r, r.env.base + i + 1) && Uses(later, r.env.base + i + 1)
  {
    RunKeeps(r.env, r.arrivals);
    HandedOnIff(r.env, RunAll(r.env, r.arrivals).log, i + 1);
    IndexUsedIff(r, i + 1);
    IndexUsedIff(later, r.env.base + i + 1 - later.env.base);
  }

  lemma {:induction false} SharedIff(r: EpochRun, later: EpochRun)
    requires UsableBase(r.env.epoch, r.env.base) && UsableBase(later.env.epoch, later.env.base)
    ensures Shared(r, later) <==> exists i :: Overruns(r, later, i)
  {
    if Shared(r, later) {
      var g :| Uses(r, g) && Uses(later, g);
      SharedOverruns(r, later, g);
    }
    if i: nat :| Overruns(r, later, i) {
      OverrunShares(r, later, i);
    }
  }

  /** The loads of the epoch let its commit i + 1, above its barrier, through, and the next epoch hands on
      the commit with the same index. */
  ghost predicate Collides(r: EpochRun, next: EpochRun, i: nat)
  {
    var log := RunAll(r.env, r.arrivals).log;
    Barrier(r) <= i < |log| && Passes(log, i) && i + 1 - Barrier(r) in SentIndices(Sent(next))
  }

  /** Two epochs in a row use one global index for two blocks if and only if the loads let through some
      commit above the barrier of the first whose counterpart the second hands on. */
  lemma {:induction false} SharedIndexIff(r: EpochRun, next: EpochRun)
    requires UsableBase(r.env.epoch, r.env.base) && Succeeds(r, next)
    ensures Shared(r, next) <==> exists i :: Collides(r, next, i)
  {
    BarrierIndex(r);
    SharedIff(r, next);
    forall i: nat ensures Overruns(r, next, i) <==> Collides(r, next, i) { CollidesIff(r, next, i); }
  }

  lemma {:induction false} CollidesIff(r: EpochRun, next: EpochRun, i: nat)
    requires next.env.base == r.env.base + Barrier(r)
    ensures Overruns(r, next, i) <==> Collides(r, next, i)
  {
    assert r.env.base + i + 1 - next.env.base == i + 1 - Barrier(r);
  }

  ghost predicate Distinct(xs: seq<nat>)
  {
    forall i, j :: 0 <= i < j < |xs| ==> xs[i] != xs[j]
  }

  ghost predicate Increasing(sent: seq<Delivery>, limit: nat)
  {
    && (forall i :: 0 <= i < |sent| ==> sent[i].dag.index <= limit)
    && forall i, j :: 0 <= i < j < |sent| ==> sent[i].dag.index < sent[j].dag.index
  }

  lemma IncreasingMore(sent: seq<Delivery>, limit: nat, d: Delivery)
    requires Increasing(sent, limit) && d.dag.index == limit + 1
    ensures Increasing(sent, limit + 1) && Increasing(sent + [d], limit + 1)
  {
  }

  /** Within an epoch commits are handed on in increasing order. */
  lemma {:induction false} SentIncreasing(env: Env, log: seq<Entry>)
    requires Faithful(env, log)
    ensures Increasing(SentOf(log), |log|)
  {
    if log != [] {
      var n := |log| - 1;
      SentIncreasing(env, log[..n]);
      ExecutedIff(env, log, n);
      IncreasingMore(SentOf(log[..n]), n, Delivery(0, log[n].dag));
      if log[n].outcome.Executed? {
        IncreasingMore(SentOf(log[..n]), n, Delivery(log[n].outcome.globalIndex, log[n].dag));
      }
    }
  }

  lemma {:induction false} OnceWithin(r: EpochRun)
    requires UsableBase(r.env.epoch, r.env.base)
    ensures Distinct(GlobalIndices(Sent(r)))
  {
    var all := GlobalIndices(Sent(r));
    RunKeeps(r.env, r.arrivals);
    SentIncreasing(r.env, RunAll(r.env, r.arrivals).log);
    forall i, j | 0 <= i < j < |all| ensures all[i] != all[j] {
      DeliveryIndex(r, i);
      DeliveryIndex(r, j);
      assert Sent(r)[i].dag.index < Sent(r)[j].dag.index;
    }
  }

  lemma {:induction false} DistinctJoin(xs: seq<nat>, ys: seq<nat>)
    requires Distinct(ys)
    ensures Distinct(xs + ys) <==> Distinct(xs) && !(exists g :: g in xs && g in ys)
  {
    var zs := xs + ys;
    if g :| g in xs && g in ys {
      var i :| 0 <= i < |xs| && xs[i] == g;
      var j :| 0 <= j < |ys| && ys[j] == g;
      assert zs[i] == zs[|xs| + j];
    } else if !Distinct(xs) {
      var i, j :| 0 <= i < j < |xs| && xs[i] == xs[j];
      assert zs[i] == zs[j];
    } else {
      forall i, j | 0 <= i < j < |zs| ensures zs[i] != zs[j] {
        assert j >= |xs| ==> zs[j] == ys[j - |xs|] && zs[j] in ys;
        assert i < |xs| ==> zs[i] == xs[i] && zs[i] in xs;
      }
    }
  }

  lemma {:induction false} UsedByLast(runs: seq<EpochRun>, g: nat)
    requires runs != []
    ensures var n := |runs| - 1;
            g in AllGlobalIndices(runs) <==> g in AllGlobalIndices(runs[..n]) || Uses(runs[n], g)
  {
  }

  /** One of the first k epochs uses the index. */
  ghost predicate UsedAmong(runs: seq<EpochRun>, k: nat, g: nat)
    requires k <= |runs|
  {
    exists i :: 0 <= i < k && Uses(runs[i], g)
  }

  lemma {:induction false} UsedSomewhere(runs: seq<EpochRun>, k: nat, g: nat)
    requires k <= |runs|
    ensures g in AllGlobalIndices(runs[..k]) <==> UsedAmong(runs, k, g)
  {
    if k > 0 {
      UsedSomewhere(runs, k - 1, g);
      UsedByLast(runs[..k], g);
      assert runs[..k][..k - 1] == runs[..k - 1];
    }
  }

  ghost predicate NoneShared(runs: seq<EpochRun>)
  {
    forall i, j :: 0 <= i < j < |runs| ==> !Shared(runs[i], runs[j])
  }

  lemma {:induction false} LastShares(runs: seq<EpochRun>)
    requires runs != []
    ensures var n := |runs| - 1;
            (exists g :: g in AllGlobalIndices(runs[..n]) && g in GlobalIndices(Sent(runs[n]))) <==>
            exists i :: 0 <= i < n && Shared(runs[i], runs[n])
  {
    var n := |runs| - 1;
    if g :| g in AllGlobalIndices(runs[..n]) && g in GlobalIndices(Sent(runs[n])) {
      UsedSomewhere(runs, n, g);
      var i :| 0 <= i < n && Uses(runs[i], g);
      assert Uses(runs[n], g) && Shared(runs[i], runs[n]);
    }
    if i :| 0 <= i < n && Shared(runs[i], runs[n]) {
      var g :| Uses(runs[i], g) && Uses(runs[n], g);
      UsedSomewhere(runs, n, g);
    }
  }

  /** Over any number of epochs no global index is used twice if and only if no two of them share one,
      which `SharedIff` decides from the barrier values loaded. */
  lemma {:induction false} UsedOnceIff(runs: seq<EpochRun>)
    requires forall i :: 0 <= i < |runs| ==> UsableBase(runs[i].env.epoch, runs[i].env.base)
    ensures Distinct(AllGlobalIndices(runs)) <==> NoneShared(runs)
  {
    if runs != [] {
      var n := |runs| - 1;
      UsedOnceIff(runs[..n]);
      OnceWithin(runs[n]);
      DistinctJoin(AllGlobalIndices(runs[..n]), GlobalIndices(Sent(runs[n])));
      LastShares(runs);
      NoneSharedLast(runs);
    }
  }

  lemma {:induction false} NoneSharedLast(runs: seq<EpochRun>)
    requires runs != []
    ensures var n := |runs| - 1;
            NoneShared(runs) <==> NoneShared(runs[..n]) && forall i :: 0 <= i < n ==> !Shared(runs[i], runs[n])
  {
    var n := |runs| - 1;
    forall i | 0 <= i < n ensures runs[..n][i] == runs[i] {
    }
  }

  // ----- A load before sending is not remembered -----

  lemma {:induction false} TakesNext(env: Env, s: State, dag: SubDag)
    requires !s.failed && s.pending == map[] && dag.index == s.next && !env.triggerFails(dag.index)
    ensures var t := ReceiveStep(env, s, dag);
            t.next == s.next + 1 && t.pending == map[] && !t.failed && |t.log| == |s.log| + 1
  {
    assert Process(env, s, dag).pending == map[];
  }

  /** Commits that arrive in order are all handled, whatever the loads. */
  lemma {:induction false} InOrder(env: Env, arrivals: seq<SubDag>)
    requires forall i :: 0 <= i < |arrivals| ==> arrivals[i].index == i + 1
    requires forall c :: !env.triggerFails(c)
    ensures var s := RunAll(env, arrivals);
            s.next == |arrivals| + 1 && s.pending == map[] && !s.failed && |s.log| == |arrivals|
  {
    if arrivals != [] {
      var n := |arrivals| - 1;
      InOrder(env, arrivals[..n]);
      TakesNext(env, RunAll(env, arrivals[..n]), arrivals[n]);
    }
  }

  /** Every even-numbered load returns 0. */
  ghost predicate FirstsSeeNothing(env: Env)
  {
    forall k: nat :: env.load(2 * k) == 0
  }

  /** As long as first checks load 0 they make the even-numbered loads and nothing is remembered. */
  lemma {:induction false} EvenLoads(env: Env, log: seq<Entry>, i: nat)
    requires Faithful(env, log) && i <= |log| && FirstsSeeNothing(env)
    ensures LoadsUsed(log[..i]) == 2 * i && LastLoaded(log[..i]) == 0
  {
    if i > 0 {
      EvenLoads(env, log, i - 1);
      FaithfulAt(env, log, i - 1);
      assert log[..i] == log[..i - 1] + [log[i - 1]];
      OneMore(log[..i - 1], log[i - 1]);
    }
  }

  lemma {:induction false} SecondLoaded(env: Env, before: seq<Entry>, e: Entry)
    requires Follows(env, before, e) && LastLoaded(before + [e]) == 0
    ensures e.second == env.load(LoadsUsed(before) + 1)
  {
  }

  /** Then only the load before sending decides. */
  lemma {:induction false} SecondDecides(env: Env, log: seq<Entry>, i: nat)
    requires Faithful(env, log) && i < |log| && FirstsSeeNothing(env)
    ensures Passes(log, i) <==> env.load(2 * i + 1) == 0 || i + 1 <= env.load(2 * i + 1)
  {
    EvenLoads(env, log, i);
    EvenLoads(env, log, i + 1);
    FaithfulAt(env, log, i);
    assert log[..i + 1] == log[..i] + [log[i]];
    SecondLoaded(env, log[..i], log[i]);
  }

  /** The barrier b, seen only by the load right before sending commit b + 1. */
  function SeenOnce(b: nat): Env
  {
    Env(0, 0, true, k => if k == 2 * b + 1 then b else 0, c => false)
  }

  lemma {:induction false} LoadsAreEven(b: nat)
    ensures FirstsSeeNothing(SeenOnce(b))
  {
  }

  lemma {:induction false} OnlyOneStopped(b: nat)
    requires b > 0
    ensures var log := RunAll(SeenOnce(b), EmptyCommits(b + 2)).log;
            |log| == b + 2 && !Passes(log, b) && Passes(log, b + 1)
  {
    var env := SeenOnce(b);
    var log := RunAll(env, EmptyCommits(b + 2)).log;
    InOrder(env, EmptyCommits(b + 2));
    RunKeeps(env, EmptyCommits(b + 2));
    LoadsAreEven(b);
    SecondDecides(env, log, b);
    SecondDecides(env, log, b + 1);
  }

  /** Another way in which an index is used twice: the check before sending stops commit b + 1, its load
      is not remembered, and after the barrier is reset commit b + 2 goes through, under the index of
      commit 2 of the next epoch.  The first index of the next epoch is not shared. */
  lemma {:induction false} RaceNotRemembered(proposalIndex: nat)
    ensures var b := SaturatingAddU32(proposalIndex, 10);
            var r := EpochRun(SeenOnce(b), EmptyCommits(b + 2), proposalIndex);
            var next := EpochRun(NoBarrier(1, b), EmptyCommits(2), 0);
            && Succeeds(r, next) && Shared(r, next)
            && GlobalExecIndex(next.env.epoch, 1, next.env.base) !in GlobalIndices(Sent(r))
  {
    var b := SaturatingAddU32(proposalIndex, 10);
    var r := EpochRun(SeenOnce(b), EmptyCommits(b + 2), proposalIndex);
    var next := EpochRun(NoBarrier(1, b), EmptyCommits(2), 0);
    OnlyOneStopped(b);
    BoundaryCollisionIff(r, next);
    AllHandedOn(1, b, 2);
    assert SentIndices(Sent(next))[1] == 2;
    assert Overruns(r, next, b + 1);
    SharedIff(r, next);
  }

  // ----- The barrier of a later epoch -----

  /** The barrier b is seen by all loads up to the first for commit b + 1; all loads after it see another
      one, which a later epoch has set. */
  function SeenThen(epoch: nat, b: nat, later: nat): Env
  {
    Env(epoch, 0, true, k => if k <= 2 * b then b else later, c => false)
  }

  lemma {:induction false} SeenSoFar(epoch: nat, b: nat, later: nat, log: seq<Entry>, i: nat)
    requires Faithful(SeenThen(epoch, b, later), log) && i <= |log| && i <= b
    ensures LoadsUsed(log[..i]) == 2 * i && (i > 0 ==> LastLoaded(log[..i]) == b)
  {
    if i > 0 {
      SeenSoFar(epoch, b, later, log, i - 1);
      FaithfulAt(SeenThen(epoch, b, later), log, i - 1);
      assert log[..i] == log[..i - 1] + [log[i - 1]];
      OneMore(log[..i - 1], log[i - 1]);
    }
  }

  lemma {:induction false} StoppedByOwn(epoch: nat, b: nat, later: nat, log: seq<Entry>)
    requires Faithful(SeenThen(epoch, b, later), log) && b < |log|
    ensures b > 0 ==> !Passes(log, b) && LoadsUsed(log[..b + 1]) == 2 * b + 1
  {
    SeenSoFar(epoch, b, later, log, b);
    FaithfulAt(SeenThen(epoch, b, later), log, b);
    assert log[..b + 1] == log[..b] + [log[b]];
    OneMore(log[..b], log[b]);
  }

  lemma {:induction false} LetThroughByLater(epoch: nat, b: nat, later: nat, log: seq<Entry>)
    requires Faithful(SeenThen(epoch, b, later), log) && b + 1 < |log| && 0 < b && b + 2 <= later
    ensures Passes(log, b + 1) && LastLoaded(log[..b + 2]) == later
  {
    StoppedByOwn(epoch, b, later, log);
    FaithfulAt(SeenThen(epoch, b, later), log, b + 1);
    assert log[..b + 2] == log[..b + 1] + [log[b + 1]];
    OneMore(log[..b + 1], log[b + 1]);
  }

  /** And another: the processor of an epoch is still at work when a later one sets its barrier, takes this
      for its own and lets commit b + 2 through, although it had stopped commit b + 1.  It did not miss its
      own barrier. */
  lemma {:induction false} LaterBarrierTaken(epoch: nat, b: nat, later: nat, proposalIndex: nat)
    requires 0 < b && b + 2 <= later
    ensures var r := EpochRun(SeenThen(epoch, b, later), EmptyCommits(b + 2), proposalIndex);
            var log := RunAll(r.env, r.arrivals).log;
            && |log| == b + 2 && !BarrierMissed(log, b) && OverruledAt(log, b, b + 1, later)
            && b + 1 !in SentIndices(Sent(r)) && b + 2 in SentIndices(Sent(r)) && !HandedOn(r, b)
  {
    var env := SeenThen(epoch, b, later);
    var log := RunAll(env, EmptyCommits(b + 2)).log;
    InOrder(env, EmptyCommits(b + 2));
    RunKeeps(env, EmptyCommits(b + 2));
    StoppedByOwn(epoch, b, later, log);
    LetThroughByLater(epoch, b, later, log);
    HandedOnIff(env, log, b + 1);
    HandedOnIff(env, log, b + 2);
    FaithfulAt(env, log, 0);
    assert log[0].first == b;
  }

  // ----- Left out -----

  /** An epoch hands on exactly the commits 1..n if and only if it handled them and the values loaded let
      through these and no others. */
  lemma {:induction false} HandedOnExactlyIff(r: EpochRun, n: nat)
    ensures var log := RunAll(r.env, r.arrivals).log;
            HandedOn(r, n) <==> |log| >= n && OnTime(log, n)
  {
    var log := RunAll(r.env, r.arrivals).log;
    RunKeeps(r.env, r.arrivals);
    ExactlyUpToBarrierIff(r.env, r.arrivals, n);
    if HandedOn(r, n) && n > 0 {
      assert Interval(1, n)[n - 1] == n;
      HandedOnIff(r.env, log, n);
    }
  }

  /** An epoch in which every load returns that barrier. */
  function AlwaysSeen(epoch: nat, base: nat, barrier: nat): Env
  {
    Env(epoch, base, true, k => barrier, c => false)
  }

  lemma {:induction false} StopsAtBarrier(epoch: nat, base: nat, barrier: nat, n: nat, proposalIndex: nat)
    requires 0 < barrier <= n
    ensures var r := EpochRun(AlwaysSeen(epoch, base, barrier), EmptyCommits(n), proposalIndex);
            HandedOn(r, barrier) && |RunAll(r.env, r.arrivals).log| == n
  {
    var env := AlwaysSeen(epoch, base, barrier);
    var log := RunAll(env, EmptyCommits(n)).log;
    InOrder(env, EmptyCommits(n));
    RunKeeps(env, EmptyCommits(n));
    FaithfulAt(env, log, 0);
    assert log[0].first == barrier;
    OnTimeIff(env, EmptyCommits(n), barrier);
    HandedOnExactlyIff(EpochRun(env, EmptyCommits(n), proposalIndex), barrier);
  }

  /** Neither epoch uses the indices from lo to hi. */
  ghost predicate UsedByNeither(r: EpochRun, next: EpochRun, lo: nat, hi: nat)
  {
    forall g :: lo <= g <= hi ==> !Uses(r, g) && !Uses(next, g)
  }

  /** What lies between the last index an epoch used and the base of the next is used by neither. */
  lemma {:induction false} LeftOut(r: EpochRun, next: EpochRun, n: nat)
    requires UsableBase(r.env.epoch, r.env.base) && UsableBase(next.env.epoch, next.env.base) && HandedOn(r, n)
    ensures UsedByNeither(r, next, r.env.base + n + 1, next.env.base)
  {
    EpochIndices(r, n);
    forall g | r.env.base + n + 1 <= g <= next.env.base ensures !Uses(r, g) && !Uses(next, g) {
      if Uses(next, g) { IndexOfCommit(next, g); }
    }
  }

  /** Each epoch starts exactly where those before it have brought the sequence 1, 2, 3, ... */
  ghost predicate Gapless(runs: seq<EpochRun>)
  {
    forall k :: 0 <= k < |runs| ==> AllGlobalIndices(runs[..k]) == Interval(1, runs[k].env.base)
  }

  /** The bases an epoch starts from and leaves to the next. */
  ghost predicate Ascending(runs: seq<EpochRun>)
  {
    && (runs != [] ==> runs[0].env.base == 0)
    && (forall i :: 0 <= i < |runs| ==> UsableBase(runs[i].env.epoch, runs[i].env.base))
    && forall i :: 0 <= i < |runs| - 1 ==> runs[i].env.base <= runs[i + 1].env.base
  }

  /** The epoch handled as many commits as it has indices up to the next epoch's base, and the values
      loaded let through these and no others. */
  ghost predicate Fills(r: EpochRun, next: EpochRun)
    requires r.env.base <= next.env.base
  {
    var log, n := RunAll(r.env, r.arrivals).log, next.env.base - r.env.base;
    |log| >= n && OnTime(log, n)
  }

  lemma {:induction false} IndicesIff(r: EpochRun, n: nat)
    requires UsableBase(r.env.epoch, r.env.base)
    ensures GlobalIndices(Sent(r)) == Interval(r.env.base + 1, n) <==> HandedOn(r, n)
  {
    if HandedOn(r, n) { EpochIndices(r, n); }
    var all, indices := GlobalIndices(Sent(r)), SentIndices(Sent(r));
    if all == Interval(r.env.base + 1, n) {
      forall k | 0 <= k < |indices| ensures indices[k] == 1 + k {
        DeliveryIndex(r, k);
        assert all[k] == Interval(r.env.base + 1, n)[k];
      }
      assert |all| == n;
    }
  }

  /** One more epoch, with n commits. */
  lemma {:induction false} ExtendsIff(runs: seq<EpochRun>, k: nat, n: nat)
    requires Ascending(runs) && k < |runs| && AllGlobalIndices(runs[..k]) == Interval(1, runs[k].env.base)
    ensures AllGlobalIndices(runs[..k + 1]) == Interval(1, runs[k].env.base + n) <==> HandedOn(runs[k], n)
  {
    var base, ys := runs[k].env.base, GlobalIndices(Sent(runs[k]));
    assert runs[..k + 1][..k] == runs[..k];
    assert AllGlobalIndices(runs[..k + 1]) == Interval(1, base) + ys;
    IntervalsJoin(1, base, n);
    SuffixIff(Interval(1, base), ys, Interval(1 + base, n));
    IndicesIff(runs[k], n);
  }

  lemma {:induction false} UpToIff(runs: seq<EpochRun>, k: nat)
    requires Ascending(runs) && k + 1 < |runs| && AllGlobalIndices(runs[..k]) == Interval(1, runs[k].env.base)
    ensures AllGlobalIndices(runs[..k + 1]) == Interval(1, runs[k + 1].env.base) <==> Fills(runs[k], runs[k + 1])
  {
    var n := runs[k + 1].env.base - runs[k].env.base;
    ExtendsIff(runs, k, n);
    HandedOnExactlyIff(runs[k], n);
  }

  lemma {:induction false} SuffixIff(xs: seq<nat>, ys: seq<nat>, zs: seq<nat>)
    ensures xs + ys == xs + zs <==> ys == zs
  {
    assert (xs + ys)[|xs|..] == ys && (xs + zs)[|xs|..] == zs;
  }

  /** The sequence of global indices is unbroken over any number of epochs, with no index left out and
      none used twice, if and only if every finished epoch fills the indices up to the next base. */
  lemma {:induction false} GaplessIff(runs: seq<EpochRun>)
    requires Ascending(runs)
    ensures Gapless(runs) <==> forall i :: 0 <= i < |runs| - 1 ==> Fills(runs[i], runs[i + 1])
  {
    if Gapless(runs) {
      forall i | 0 <= i < |runs| - 1 ensures Fills(runs[i], runs[i + 1]) {
        UpToIff(runs, i);
      }
    }
    if forall i :: 0 <= i < |runs| - 1 ==> Fills(runs[i], runs[i + 1]) {
      forall k | 0 <= k < |runs| ensures AllGlobalIndices(runs[..k]) == Interval(1, runs[k].env.base) {
        FilledUpTo(runs, k);
      }
    }
  }

  lemma {:induction false} FilledUpTo(runs: seq<EpochRun>, k: nat)
    requires Ascending(runs) && k < |runs| && forall i :: 0 <= i < |runs| - 1 ==> Fills(runs[i], runs[i + 1])
    ensures AllGlobalIndices(runs[..k]) == Interval(1, runs[k].env.base)
  {
    if k > 0 {
      FilledUpTo(runs, k - 1);
      assert Fills(runs[k - 1], runs[k - 1 + 1]);
      UpToIff(runs, k - 1);
    }
  }

  // ----- The whole sequence -----

  /** The indices used over all epochs are 1, 2, 3, ..., up to the m-th of the last epoch, and every epoch
      starts where the ones before it have brought them. */
  ghost predicate Seamless(runs: seq<EpochRun>, m: nat)
    requires runs != []
  {
    Gapless(runs) && AllGlobalIndices(runs) == Interval(1, runs[|runs| - 1].env.base + m)
  }

  /** That is so if and only if every finished epoch fills the indices up to the next base and the last one
      has handed on exactly its first m commits. */
  lemma {:induction false} SeamlessIff(runs: seq<EpochRun>, m: nat)
    requires Ascending(runs) && runs != []
    ensures Seamless(runs, m) <==>
            && (forall i :: 0 <= i < |runs| - 1 ==> Fills(runs[i], runs[i + 1]))
            && HandedOn(runs[|runs| - 1], m)
  {
    var n := |runs| - 1;
    GaplessIff(runs);
    assert runs[..n + 1] == runs;
    if Gapless(runs) { ExtendsIff(runs, n, m); }
  }

  lemma {:induction false} AllPrefix(runs: seq<EpochRun>, k: nat)
    requires k < |runs|
    ensures AllGlobalIndices(runs[..k]) + GlobalIndices(Sent(runs[k])) <= AllGlobalIndices(runs)
    decreases |runs| - k
  {
    assert runs[..k + 1][..k] == runs[..k];
    if k + 1 < |runs| { AllPrefix(runs, k + 1); } else { assert runs[..k + 1] == runs; }
  }

  /** The first commit of an epoch that is handed on is the first block it sends. */
  lemma {:induction false} FirstBlock(r: EpochRun)
    requires UsableBase(r.env.epoch, r.env.base) && 1 in SentIndices(Sent(r))
    ensures var all := GlobalIndices(Sent(r)); all != [] && all[0] == r.env.base + 1
  {
    var indices := SentIndices(Sent(r));
    RunKeeps(r.env, r.arrivals);
    SentIncreasing(r.env, RunAll(r.env, r.arrivals).log);
    HandedOnIff(r.env, RunAll(r.env, r.arrivals).log, indices[0]);
    var k :| 0 <= k < |indices| && indices[k] == 1;
    assert Sent(r)[k].dag.index == 1 && indices[0] == Sent(r)[0].dag.index;
    DeliveryIndex(r, 0);
  }

  lemma {:induction false} StartsThere(runs: seq<EpochRun>, k: nat, last: nat)
    requires Ascending(runs) && k < |runs| && AllGlobalIndices(runs) == Interval(1, last)
    requires 1 in SentIndices(Sent(runs[k]))
    ensures AllGlobalIndices(runs[..k]) == Interval(1, runs[k].env.base)
  {
    var before := AllGlobalIndices(runs[..k]);
    AllPrefix(runs, k);
    FirstBlock(runs[k]);
    assert AllGlobalIndices(runs)[|before|] == runs[k].env.base + 1;
    assert before == Interval(1, last)[..|before|];
  }

  /** Once every later epoch has handed on its first commit, the indices cannot be 1, 2, 3, ... in any other
      way: no epoch can make up for a gap or an overrun of another. */
  lemma {:induction false} OnlySeamless(runs: seq<EpochRun>, m: nat)
    requires Ascending(runs) && runs != []
    requires forall k :: 1 <= k < |runs| ==> 1 in SentIndices(Sent(runs[k]))
    ensures AllGlobalIndices(runs) == Interval(1, runs[|runs| - 1].env.base + m) <==> Seamless(runs, m)
  {
    var last := runs[|runs| - 1].env.base + m;
    if AllGlobalIndices(runs) == Interval(1, last) {
      forall k | 0 <= k < |runs| ensures AllGlobalIndices(runs[..k]) == Interval(1, runs[k].env.base) {
        if k > 0 { StartsThere(runs, k, last); }
      }
    }
  }
}
