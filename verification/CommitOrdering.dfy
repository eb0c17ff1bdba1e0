/** What every run of the commit processor keeps, whatever arrives and whatever other tasks write
    to the barrier. */
module CommitOrdering {
  import opened Types
  import opened GlobalIndex
  import opened CommitProcessing

  // ----- Reading a history -----

  /** The last non-zero barrier value loaded by a first check; 0 when there is none. */
  function LastLoaded(log: seq<Entry>): nat
  {
    if log == [] then 0
    else if log[|log| - 1].first > 0 then log[|log| - 1].first
    else LastLoaded(log[..|log| - 1])
  }

  /** How many loads the run has made: one for a skipped commit, two for any other. */
  function LoadsUsed(log: seq<Entry>): nat
  {
    if log == [] then 0
    else LoadsUsed(log[..|log| - 1]) + if log[|log| - 1].outcome.Skipped? then 1 else 2
  }

  /** The deliveries a history stands for. */
  function SentOf(log: seq<Entry>): seq<Delivery>
  {
    if log == [] then []
    else
      var e := log[|log| - 1];
      SentOf(log[..|log| - 1]) +
      if e.outcome.Executed? then [Delivery(e.outcome.globalIndex, e.dag)] else []
  }

  /** The requeued transactions a history stands for. */
  function QueueOf(env: Env, log: seq<Entry>): seq<Tx>
  {
    if log == [] then []
    else
      var e := log[|log| - 1];
      var q := QueueOf(env, log[..|log| - 1]);
      if e.outcome.Executed? then q else Requeue(env, q, e.dag)
  }

  /** Every transaction of every handled commit. */
  function HandledTransactions(log: seq<Entry>): seq<Tx>
  {
    if log == [] then [] else HandledTransactions(log[..|log| - 1]) + Transactions(log[|log| - 1].dag)
  }

  function SentTransactions(sent: seq<Delivery>): seq<Tx>
  {
    if sent == [] then [] else SentTransactions(sent[..|sent| - 1]) + Transactions(sent[|sent| - 1].dag)
  }

  /** The entry is what the rule of the two barrier checks gives after the history `before`. */
  ghost predicate Follows(env: Env, before: seq<Entry>, e: Entry)
  {
    var c := |before| + 1;
    var k := LoadsUsed(before);
    && e.dag.index == c
    && e.first == env.load(k)
    && e.snapshot == LastLoaded(before + [e])
    && if e.snapshot > 0 && c > e.snapshot then e.outcome == Skipped
       else
         && e.second == env.load(k + 1)
         && e.outcome == if e.second > 0 && c > e.second then Raced
                         else Executed(GlobalExecIndex(env.epoch, c, env.base))
  }

  ghost predicate Faithful(env: Env, log: seq<Entry>)
  {
    log == [] ||
    (Faithful(env, log[..|log| - 1]) && Follows(env, log[..|log| - 1], log[|log| - 1]))
  }

  ghost predicate Inv(env: Env, s: State)
  {
    && s.next >= 1
    && |s.log| == s.next - 1 + (if s.failed then 1 else 0)
    && s.commitIndex == s.next - 1
    && (forall k :: k in s.pending ==> s.pending[k].index == k)
    && Faithful(env, s.log)
    && s.snapshot == LastLoaded(s.log)
    && s.loads == LoadsUsed(s.log)
    && s.sent == SentOf(s.log)
    && s.queue == QueueOf(env, s.log)
  }

  // ----- Every step keeps the invariant -----

  lemma {:induction false} OneMore(log: seq<Entry>, e: Entry)
    ensures (log + [e])[..|log|] == log
    ensures LastLoaded(log + [e]) == if e.first > 0 then e.first else LastLoaded(log)
    ensures LoadsUsed(log + [e]) == LoadsUsed(log) + if e.outcome.Skipped? then 1 else 2
  {
    assert (log + [e])[..|log|] == log;
  }

  /** The entry of the commit processed after the history of s. */
  function Verdict(env: Env, s: State, dag: SubDag): Entry
  {
    var first, second := env.load(s.loads), env.load(s.loads + 1);
    var effective := if first > 0 then first else s.snapshot;
    if effective > 0 && s.next > effective then Entry(dag, first, effective, 0, Skipped)
    else if second > 0 && dag.index > second then Entry(dag, first, effective, second, Raced)
    else Entry(dag, first, effective, second, Executed(GlobalExecIndex(env.epoch, s.next, env.base)))
  }

  lemma {:induction false} VerdictFollows(env: Env, s: State, dag: SubDag)
    requires dag.index == s.next == |s.log| + 1
    requires s.snapshot == LastLoaded(s.log) && s.loads == LoadsUsed(s.log)
    ensures Follows(env, s.log, Verdict(env, s, dag))
  {
    OneMore(s.log, Verdict(env, s, dag));
  }

  /** One processed commit extends the history by one entry that follows the rule. */
  lemma {:induction false} ProcessFollows(env: Env, s: State, dag: SubDag)
    requires dag.index == s.next == |s.log| + 1
    requires s.snapshot == LastLoaded(s.log) && s.loads == LoadsUsed(s.log)
    ensures var t := Process(env, s, dag);
            && |t.log| == |s.log| + 1
            && t.log == s.log + [t.log[|s.log|]]
            && t.log[|s.log|].dag == dag
            && Follows(env, s.log, t.log[|s.log|])
            && t.snapshot == LastLoaded(t.log) && t.loads == LoadsUsed(t.log)
  {
    var e := Verdict(env, s, dag);
    VerdictFollows(env, s, dag);
    assert Process(env, s, dag).log == s.log + [e];
    OneMore(s.log, e);
  }

  lemma {:induction false} ProcessKeeps(env: Env, s: State, dag: SubDag)
    requires Inv(env, s) && !s.failed && dag.index == s.next
    ensures var t := Process(env, s, dag);
            && Inv(env, Advance(t)) && Inv(env, t.(failed := true)) && !t.failed
            && t.pending == s.pending && t.next == s.next
  {
    ProcessFollows(env, s, dag);
    var t := Process(env, s, dag);
    OneMore(s.log, t.log[|s.log|]);
    assert Faithful(env, t.log);
    assert t.sent == SentOf(t.log);
    assert t.queue == QueueOf(env, t.log);
  }

  lemma {:induction false} DrainKeeps(env: Env, s: State)
    requires Inv(env, s) && !s.failed
    ensures var t := Drain(env, s);
            Inv(env, t) && !t.failed && t.next >= s.next && t.next !in t.pending
    decreases |s.pending|
  {
    if s.next in s.pending {
      var u := s.(pending := s.pending - {s.next});
      ProcessKeeps(env, u, s.pending[s.next]);
      DrainKeeps(env, Advance(Process(env, u, s.pending[s.next])));
    }
  }

  lemma ReceiveKeeps(env: Env, s: State, dag: SubDag)
    requires Inv(env, s)
    ensures Inv(env, ReceiveStep(env, s, dag))
  {
    if !s.failed && dag.index == s.next {
      ProcessKeeps(env, s, dag);
      DrainKeeps(env, Advance(Process(env, s, dag)));
    }
  }

  lemma {:induction false} RunKeeps(env: Env, arrivals: seq<SubDag>)
    ensures Inv(env, RunAll(env, arrivals))
  {
    if arrivals != [] {
      RunKeeps(env, arrivals[..|arrivals| - 1]);
      ReceiveKeeps(env, RunAll(env, arrivals[..|arrivals| - 1]), arrivals[|arrivals| - 1]);
    }
  }

  lemma {:induction false} FaithfulAt(env: Env, log: seq<Entry>, i: nat)
    requires Faithful(env, log) && i < |log|
    ensures Faithful(env, log[..i]) && Follows(env, log[..i], log[i])
  {
    var n := |log| - 1;
    if i < n {
      FaithfulAt(env, log[..n], i);
      assert log[..n][..i] == log[..i];
    }
  }

  // ----- Main results -----

  /** Handled commits are exactly 1, 2, 3, ... in order, each once, under any arrivals and any
      barrier writes; only a failed trigger leaves the last one handled but not counted. */
  lemma {:induction false} HandledInOrder(env: Env, arrivals: seq<SubDag>)
    ensures var s := RunAll(env, arrivals);
            && |s.log| == s.next - 1 + (if s.failed then 1 else 0)
            && s.commitIndex == s.next - 1
            && forall i :: 0 <= i < |s.log| ==> s.log[i].dag.index == i + 1
  {
    RunKeeps(env, arrivals);
    var s := RunAll(env, arrivals);
    forall i | 0 <= i < |s.log| ensures s.log[i].dag.index == i + 1 {
      FaithfulAt(env, s.log, i);
    }
  }

  /** Barrier safety.  A commit handed on for processing is not above the last non-zero barrier any
      first check had loaded, even after the barrier went back to 0; a commit handed to the
      executor is in addition not above a non-zero barrier loaded just before sending; and these
      two conditions are exactly what decides its fate. */
  lemma {:induction false} BarrierSafety(env: Env, arrivals: seq<SubDag>, i: nat)
    requires i < |RunAll(env, arrivals).log|
    ensures var log := RunAll(env, arrivals).log;
            var barrier := LastLoaded(log[..i + 1]);
            var c := log[i].dag.index;
            && (log[i].outcome.Skipped? <==> barrier > 0 && c > barrier)
            && (log[i].outcome.Executed? <==>
                  (barrier == 0 || c <= barrier) && (log[i].second == 0 || c <= log[i].second))
  {
    RunKeeps(env, arrivals);
    var log := RunAll(env, arrivals).log;
    FaithfulAt(env, log, i);
    assert log[..i + 1] == log[..i] + [log[i]];
  }

  /** Once a first check has loaded a non-zero barrier, every later entry remembers one. */
  lemma {:induction false} BarrierRemembered(log: seq<Entry>, i: nat)
    requires i < |log| && log[i].first > 0
    ensures LastLoaded(log) > 0
    ensures exists j :: i <= j < |log| && log[j].first == LastLoaded(log) && log[j].first > 0
  {
    var n := |log| - 1;
    if log[n].first == 0 {
      BarrierRemembered(log[..n], i);
      var j :| i <= j < |log[..n]| && log[..n][j].first == LastLoaded(log[..n]) && log[..n][j].first > 0;
      assert log[j].first == LastLoaded(log);
    }
  }

  lemma {:induction false} TransactionsBalance(env: Env, log: seq<Entry>)
    requires env.queueConfigured
    ensures multiset(HandledTransactions(log)) ==
            multiset(SentTransactions(SentOf(log))) + multiset(QueueOf(env, log))
  {
    if log != [] {
      var before, e := log[..|log| - 1], log[|log| - 1];
      TransactionsBalance(env, before);
      if e.outcome.Executed? {
        assert SentOf(log)[..|SentOf(log)| - 1] == SentOf(before);
        assert SentTransactions(SentOf(log)) == SentTransactions(SentOf(before)) + Transactions(e.dag);
      } else {
        assert SentOf(log) == SentOf(before);
        assert QueueOf(env, log) == QueueOf(env, before) + Transactions(e.dag);
      }
    }
  }

  /** How often a transaction occurs in the blocks of the handled commits. */
  function HandledCount(log: seq<Entry>, tx: Tx): nat
  {
    if log == [] then 0 else HandledCount(log[..|log| - 1], tx) + CountInAll(log[|log| - 1].dag.blocks, tx)
  }

  /** And in the blocks of those handed to the execute path. */
  function SentCount(sent: seq<Delivery>, tx: Tx): nat
  {
    if sent == [] then 0 else SentCount(sent[..|sent| - 1], tx) + CountInAll(sent[|sent| - 1].dag.blocks, tx)
  }

  lemma {:induction false} HandledOccurrences(log: seq<Entry>, tx: Tx)
    ensures multiset(HandledTransactions(log))[tx] == HandledCount(log, tx)
  {
    if log != [] {
      HandledOccurrences(log[..|log| - 1], tx);
      FlattenCount(log[|log| - 1].dag.blocks, tx);
    }
  }

  lemma {:induction false} SentOccurrences(sent: seq<Delivery>, tx: Tx)
    ensures multiset(SentTransactions(sent))[tx] == SentCount(sent, tx)
  {
    if sent != [] {
      SentOccurrences(sent[..|sent| - 1], tx);
      FlattenCount(sent[|sent| - 1].dag.blocks, tx);
    }
  }

  /** Transaction conservation: with a retry queue, every transaction of every block of every handled
      commit went either to the execute path, in its commit, or to the queue, never to both and never
      nowhere, as often as it occurs. */
  lemma {:induction false} TransactionConservation(env: Env, arrivals: seq<SubDag>)
    requires env.queueConfigured
    ensures var s := RunAll(env, arrivals);
            multiset(HandledTransactions(s.log)) == multiset(SentTransactions(s.sent)) + multiset(s.queue)
    ensures var s := RunAll(env, arrivals);
            forall tx :: HandledCount(s.log, tx) == SentCount(s.sent, tx) + multiset(s.queue)[tx]
  {
    var s := RunAll(env, arrivals);
    RunKeeps(env, arrivals);
    TransactionsBalance(env, s.log);
    forall tx ensures HandledCount(s.log, tx) == SentCount(s.sent, tx) + multiset(s.queue)[tx] {
      HandledOccurrences(s.log, tx);
      SentOccurrences(s.sent, tx);
    }
  }

  /** The transaction is in one of the commit's blocks. */
  ghost predicate InBlocks(dag: SubDag, tx: Tx)
  {
    exists i :: 0 <= i < |dag.blocks| && tx in dag.blocks[i]
  }

  lemma {:induction false} HandledMember(log: seq<Entry>, i: nat, tx: Tx)
    requires i < |log| && InBlocks(log[i].dag, tx)
    ensures tx in HandledTransactions(log)
  {
    var n := |log| - 1;
    if i < n { HandledMember(log[..n], i, tx); } else { FlattenMember(log[n].dag.blocks, tx); }
  }

  lemma {:induction false} SentMember(sent: seq<Delivery>, tx: Tx)
    requires tx in SentTransactions(sent)
    ensures exists d :: d in sent && InBlocks(d.dag, tx)
  {
    var n := |sent| - 1;
    FlattenMember(sent[n].dag.blocks, tx);
    if tx in Transactions(sent[n].dag) {
      assert sent[n] in sent && InBlocks(sent[n].dag, tx);
    } else {
      SentMember(sent[..n], tx);
    }
  }

  /** No transaction of a handled commit is lost: it went with its commit to the execute path, or it is in
      the queue. */
  lemma {:induction false} SentOrQueued(env: Env, arrivals: seq<SubDag>, i: nat, tx: Tx)
    requires env.queueConfigured && i < |RunAll(env, arrivals).log|
    requires InBlocks(RunAll(env, arrivals).log[i].dag, tx)
    ensures var s := RunAll(env, arrivals);
            (exists d :: d in s.sent && InBlocks(d.dag, tx)) || tx in s.queue
  {
    var s := RunAll(env, arrivals);
    TransactionConservation(env, arrivals);
    HandledMember(s.log, i, tx);
    assert tx in multiset(HandledTransactions(s.log));
    if tx in SentTransactions(s.sent) { SentMember(s.sent, tx); }
  }

  // ----- Where handled and held commits come from -----

  /** Indices of the commits that have arrived; index 0 is never expected. */
  function Delivered(arrivals: seq<SubDag>): set<nat>
  {
    set d | d in arrivals && d.index >= 1 :: d.index
  }

  /** The commits the state accounts for are commits that arrived, and cover every index that did. */
  ghost predicate Accounts(s: State, arrivals: seq<SubDag>)
  {
    && (forall i :: 0 <= i < |s.log| ==> s.log[i].dag in arrivals)
    && (forall k :: k in s.pending ==> s.pending[k] in arrivals)
    && (!s.failed ==> forall d :: d in arrivals && d.index >= s.next ==> d.index in s.pending)
  }

  lemma {:induction false} TakenNext(env: Env, s: State, arrivals: seq<SubDag>)
    requires Accounts(s, arrivals) && s.next in s.pending && !s.failed
    ensures Accounts(Advance(Process(env, s.(pending := s.pending - {s.next}), s.pending[s.next])), arrivals)
  {
    var t := Process(env, s.(pending := s.pending - {s.next}), s.pending[s.next]);
    assert t.log == s.log + [t.log[|s.log|]];
  }

  lemma {:induction false} DrainAccounts(env: Env, s: State, arrivals: seq<SubDag>)
    requires Accounts(s, arrivals) && Inv(env, s) && !s.failed
    ensures Accounts(Drain(env, s), arrivals)
    decreases |s.pending|
  {
    if s.next in s.pending {
      var u := s.(pending := s.pending - {s.next});
      var dag := s.pending[s.next];
      ProcessKeeps(env, u, dag);
      TakenNext(env, s, arrivals);
      DrainAccounts(env, Advance(Process(env, u, dag)), arrivals);
    }
  }

  lemma {:induction false} ArrivesNow(env: Env, s: State, dag: SubDag, arrivals: seq<SubDag>)
    requires Accounts(s, arrivals) && !s.failed && dag.index == s.next
    ensures Accounts(Advance(Process(env, s, dag)), arrivals + [dag])
  {
    var t := Process(env, s, dag);
    assert t.log == s.log + [t.log[|s.log|]] && t.log[|s.log|].dag == dag;
  }

  lemma {:induction false} ReceiveAccounts(env: Env, s: State, dag: SubDag, arrivals: seq<SubDag>)
    requires Accounts(s, arrivals) && Inv(env, s)
    ensures Accounts(ReceiveStep(env, s, dag), arrivals + [dag])
  {
    var all := arrivals + [dag];
    assert dag in all && forall d :: d in all <==> d in arrivals || d == dag;
    if !s.failed && dag.index == s.next {
      ArrivesNow(env, s, dag, arrivals);
      ProcessKeeps(env, s, dag);
      DrainAccounts(env, Advance(Process(env, s, dag)), all);
    }
  }

  lemma {:induction false} RunAccounts(env: Env, arrivals: seq<SubDag>)
    ensures Accounts(RunAll(env, arrivals), arrivals)
  {
    if arrivals != [] {
      var init, dag := arrivals[..|arrivals| - 1], arrivals[|arrivals| - 1];
      RunAccounts(env, init);
      RunKeeps(env, init);
      ReceiveAccounts(env, RunAll(env, init), dag, init);
      assert arrivals == init + [dag];
    }
  }

  lemma {:induction false} DrainShrinks(env: Env, s: State)
    ensures Drain(env, s).pending.Keys <= s.pending.Keys
    decreases |s.pending|
  {
    if s.next in s.pending {
      DrainShrinks(env, Advance(Process(env, s.(pending := s.pending - {s.next}), s.pending[s.next])));
    }
  }

  lemma {:induction false} StepBuffersNoZero(env: Env, s: State, dag: SubDag)
    requires 0 !in s.pending && s.next >= 1
    ensures 0 !in ReceiveStep(env, s, dag).pending
  {
    if !s.failed && dag.index == s.next {
      assert Process(env, s, dag).pending == s.pending;
      DrainShrinks(env, Advance(Process(env, s, dag)));
    }
  }

  /** Nothing is buffered under index 0. */
  lemma {:induction false} NoIndexZero(env: Env, arrivals: seq<SubDag>)
    ensures 0 !in RunAll(env, arrivals).pending
  {
    if arrivals != [] {
      var init, dag := arrivals[..|arrivals| - 1], arrivals[|arrivals| - 1];
      NoIndexZero(env, init);
      RunKeeps(env, init);
      StepBuffersNoZero(env, RunAll(env, init), dag);
    }
  }

  /** The last arrival with that index. */
  ghost predicate LatestOf(arrivals: seq<SubDag>, dag: SubDag)
  {
    exists i :: 0 <= i < |arrivals| && arrivals[i] == dag && NoneAfter(arrivals, i, dag.index)
  }

  ghost predicate NoneAfter(arrivals: seq<SubDag>, i: nat, index: nat)
  {
    forall j :: i < j < |arrivals| ==> arrivals[j].index != index
  }

  lemma {:induction false} LatestLater(arrivals: seq<SubDag>, next: SubDag, dag: SubDag)
    requires LatestOf(arrivals, dag) && next.index != dag.index
    ensures LatestOf(arrivals + [next], dag)
  {
    var all := arrivals + [next];
    var i :| 0 <= i < |arrivals| && arrivals[i] == dag && NoneAfter(arrivals, i, dag.index);
    assert all[i] == dag;
    forall j | i < j < |all| ensures all[j].index != dag.index {
      if j < |arrivals| { assert all[j] == arrivals[j]; }
    }
    assert NoneAfter(all, i, dag.index);
  }

  lemma {:induction false} LatestNow(arrivals: seq<SubDag>, next: SubDag)
    ensures LatestOf(arrivals + [next], next)
  {
    assert (arrivals + [next])[|arrivals|] == next && NoneAfter(arrivals + [next], |arrivals|, next.index);
  }

  lemma {:induction false} DrainLeaves(env: Env, s: State, k: nat)
    requires k > Drain(env, s).next
    ensures k in Drain(env, s).pending <==> k in s.pending
    ensures k in s.pending ==> Drain(env, s).pending[k] == s.pending[k]
    ensures Drain(env, s).next >= s.next
    decreases |s.pending|
  {
    if s.next in s.pending {
      var u := s.(pending := s.pending - {s.next});
      DrainLeaves(env, Advance(Process(env, u, s.pending[s.next])), k);
    }
  }

  lemma {:induction false} InOrderLeaves(env: Env, s: State, dag: SubDag, k: nat)
    requires !s.failed && dag.index == s.next
    requires !ReceiveStep(env, s, dag).failed && k > ReceiveStep(env, s, dag).next
    ensures var t := ReceiveStep(env, s, dag);
            t.next > s.next && (k in t.pending <==> k in s.pending) && (k in t.pending ==> t.pending[k] == s.pending[k])
  {
    var t := Process(env, s, dag);
    assert t.pending == s.pending && t.next == s.next;
    if !t.log[|t.log| - 1].outcome.Skipped? { DrainLeaves(env, Advance(t), k); }
  }

  lemma {:induction false} StepLeaves(env: Env, s: State, dag: SubDag, k: nat)
    requires !ReceiveStep(env, s, dag).failed && k > ReceiveStep(env, s, dag).next
    ensures var t := ReceiveStep(env, s, dag);
            && t.next >= s.next && !s.failed
            && (k in t.pending <==> k in s.pending || dag.index == k)
            && (k in t.pending ==> t.pending[k] == if dag.index == k then dag else s.pending[k])
  {
    if !s.failed && dag.index == s.next { InOrderLeaves(env, s, dag, k); }
  }

  /** Of repeated commits the latest is held, for every commit beyond the expected one. */
  lemma {:induction false} HeldIsLatest(env: Env, arrivals: seq<SubDag>, k: nat)
    requires var s := RunAll(env, arrivals); !s.failed && k > s.next && k in s.pending
    ensures RunAll(env, arrivals).pending[k].index == k && LatestOf(arrivals, RunAll(env, arrivals).pending[k])
  {
    var init, dag := arrivals[..|arrivals| - 1], arrivals[|arrivals| - 1];
    assert arrivals == init + [dag];
    RunKeeps(env, arrivals);
    StepLeaves(env, RunAll(env, init), dag, k);
    if dag.index == k {
      LatestNow(init, dag);
    } else {
      HeldIsLatest(env, init, k);
      LatestLater(init, dag, RunAll(env, init).pending[k]);
    }
  }

  /** Commit conservation: until the run ends, the delivered commit indices are exactly the handled
      ones together with the keys of the reorder buffer. */
  lemma {:induction false} CommitConservation(env: Env, arrivals: seq<SubDag>)
    requires !RunAll(env, arrivals).failed
    ensures var s := RunAll(env, arrivals);
            forall c :: c in Delivered(arrivals) <==> (1 <= c < s.next || c in s.pending)
  {
    var s := RunAll(env, arrivals);
    RunKeeps(env, arrivals);
    RunAccounts(env, arrivals);
    HandledInOrder(env, arrivals);
    NoIndexZero(env, arrivals);
    forall c ensures c in Delivered(arrivals) <==> (1 <= c < s.next || c in s.pending) {
      if 1 <= c < s.next {
        assert s.log[c - 1].dag in arrivals && s.log[c - 1].dag.index == c;
      } else if c in s.pending {
        assert s.pending[c] in arrivals && s.pending[c].index == c;
      }
    }
  }

  // ----- A barrier that does not move -----

  ghost predicate ConstantBarrier(env: Env, barrier: nat)
  {
    forall k :: env.load(k) == barrier
  }

  /** How many of the first m commits a constant barrier lets through (0 means no barrier). */
  function Cap(m: nat, barrier: nat): nat
  {
    if barrier == 0 || m <= barrier then m else barrier
  }

  /** Only a commit skipped past the barrier may leave the next one waiting in the buffer. */
  ghost predicate Settled(s: State, barrier: nat)
  {
    s.next in s.pending ==> barrier > 0 && s.next > barrier + 1
  }

  lemma {:induction false} SnapshotZero(env: Env, log: seq<Entry>, barrier: nat)
    requires Faithful(env, log) && ConstantBarrier(env, barrier)
    ensures log != [] || barrier == 0 ==> LastLoaded(log) == barrier
  {
    if log != [] {
      assert log[|log| - 1].first == barrier;
      if barrier == 0 { SnapshotZero(env, log[..|log| - 1], barrier); }
    }
  }

  /** With a constant barrier only commits above it are skipped. */
  lemma {:induction false} SkippedAbove(env: Env, s: State, dag: SubDag, barrier: nat)
    requires ConstantBarrier(env, barrier) && Inv(env, s)
    ensures var t := Process(env, s, dag);
            t.log[|t.log| - 1].outcome.Skipped? ==> barrier > 0 && s.next > barrier
  {
    assert env.load(s.loads) == barrier;
    if barrier == 0 { SnapshotZero(env, s.log, barrier); }
  }

  lemma {:induction false} StepSettled(env: Env, s: State, dag: SubDag, barrier: nat)
    requires ConstantBarrier(env, barrier) && Inv(env, s) && !s.failed && dag.index == s.next
    ensures var t := ReceiveStep(env, s, dag); Settled(t, barrier) || t.failed
  {
    var t := Process(env, s, dag);
    SkippedAbove(env, s, dag, barrier);
    ProcessKeeps(env, s, dag);
    if t.log[|t.log| - 1].outcome.Skipped? {
      assert ReceiveStep(env, s, dag) == Advance(t);
    } else {
      DrainKeeps(env, Advance(t));
    }
  }

  lemma {:induction false} RunSettled(env: Env, arrivals: seq<SubDag>, barrier: nat)
    requires ConstantBarrier(env, barrier)
    ensures Settled(RunAll(env, arrivals), barrier) || RunAll(env, arrivals).failed
  {
    if arrivals != [] {
      var init, dag := arrivals[..|arrivals| - 1], arrivals[|arrivals| - 1];
      RunSettled(env, init, barrier);
      RunKeeps(env, init);
      var s := RunAll(env, init);
      if !s.failed && dag.index == s.next { StepSettled(env, s, dag, barrier); }
    }
  }

  lemma {:induction false} LastUnderConstantBarrier(env: Env, log: seq<Entry>, barrier: nat)
    requires Faithful(env, log) && ConstantBarrier(env, barrier) && log != []
    ensures var outcome := log[|log| - 1].outcome;
            && (outcome.Executed? <==> barrier == 0 || |log| <= barrier)
            && (outcome.Executed? ==> outcome.globalIndex == GlobalExecIndex(env.epoch, |log|, env.base))
  {
    SnapshotZero(env, log, barrier);
    var before, e := log[..|log| - 1], log[|log| - 1];
    assert log == before + [e];
    assert env.load(LoadsUsed(before) + 1) == barrier;
  }

  /** With a constant barrier the deliveries of a history are its first commits up to the cap. */
  lemma {:induction false} SentUnderConstantBarrier(env: Env, log: seq<Entry>, barrier: nat)
    requires Faithful(env, log) && ConstantBarrier(env, barrier)
    ensures |SentOf(log)| == Cap(|log|, barrier)
    ensures forall i :: 0 <= i < |SentOf(log)| ==>
              SentOf(log)[i] == Delivery(GlobalExecIndex(env.epoch, i + 1, env.base), log[i].dag)
  {
    if log != [] {
      SentUnderConstantBarrier(env, log[..|log| - 1], barrier);
      LastUnderConstantBarrier(env, log, barrier);
    }
  }

  /** A run ends early only right after a commit whose trigger failed. */
  lemma {:induction false} FailsAtTrigger(env: Env, arrivals: seq<SubDag>)
    ensures var s := RunAll(env, arrivals);
            s.failed ==> s.log != [] && env.triggerFails(s.log[|s.log| - 1].dag.index)
  {
    if arrivals != [] {
      var init, dag := arrivals[..|arrivals| - 1], arrivals[|arrivals| - 1];
      FailsAtTrigger(env, init);
      RunKeeps(env, init);
      var s := RunAll(env, init);
      if !s.failed && dag.index == s.next {
        ProcessKeeps(env, s, dag);
        DrainKeeps(env, Advance(Process(env, s, dag)));
      }
    }
  }

  /** The arrival came as expected, was not past the barrier its first check went by, and the trigger after
      it failed. */
  ghost predicate TriggerFailedAt(env: Env, arrivals: seq<SubDag>, i: nat)
    requires i < |arrivals|
  {
    var s, c := RunAll(env, arrivals[..i]), arrivals[i].index;
    var barrier := if env.load(LoadsUsed(s.log)) > 0 then env.load(LoadsUsed(s.log)) else LastLoaded(s.log);
    !s.failed && c == s.next && (barrier == 0 || c <= barrier) && env.triggerFails(c)
  }

  lemma {:induction false} TriggerEarlier(env: Env, arrivals: seq<SubDag>, i: nat)
    requires i < |arrivals| - 1
    ensures TriggerFailedAt(env, arrivals, i) <==> TriggerFailedAt(env, arrivals[..|arrivals| - 1], i)
  {
    assert arrivals[..|arrivals| - 1][..i] == arrivals[..i];
  }

  /** A run ends early if and only if that happened, and then right there. */
  lemma {:induction false} FailsIff(env: Env, arrivals: seq<SubDag>)
    ensures RunAll(env, arrivals).failed <==> exists i :: 0 <= i < |arrivals| && TriggerFailedAt(env, arrivals, i)
  {
    if arrivals != [] {
      var n := |arrivals| - 1;
      var s := RunAll(env, arrivals[..n]);
      FailsIff(env, arrivals[..n]);
      RunKeeps(env, arrivals[..n]);
      FailsNow(env, s, arrivals[n]);
      forall i | 0 <= i < n ensures TriggerFailedAt(env, arrivals, i) <==> TriggerFailedAt(env, arrivals[..n], i) {
        TriggerEarlier(env, arrivals, i);
      }
      if s.failed {
        var i :| 0 <= i < n && TriggerFailedAt(env, arrivals[..n], i);
        assert TriggerFailedAt(env, arrivals, i);
      } else {
        assert RunAll(env, arrivals).failed <==> TriggerFailedAt(env, arrivals, n);
      }
    }
  }

  lemma {:induction false} FailsNow(env: Env, s: State, dag: SubDag)
    requires Inv(env, s)
    ensures var first, c := env.load(LoadsUsed(s.log)), dag.index;
            var barrier := if first > 0 then first else LastLoaded(s.log);
            ReceiveStep(env, s, dag).failed <==>
            s.failed || (c == s.next && (barrier == 0 || c <= barrier) && env.triggerFails(c))
  {
    if !s.failed && dag.index == s.next {
      ProcessKeeps(env, s, dag);
      DrainKeeps(env, Advance(Process(env, s, dag)));
    }
  }

  /** m is the length of the unbroken run of commits 1, 2, ..., m among the arrivals. */
  ghost predicate Unbroken(arrivals: seq<SubDag>, m: nat)
  {
    && (forall c :: 1 <= c <= m ==> c in Delivered(arrivals))
    && m + 1 !in Delivered(arrivals)
  }

  /** No more commits are handled than arrived without a break. */
  lemma {:induction false} HandledWithin(env: Env, arrivals: seq<SubDag>, m: nat)
    requires Unbroken(arrivals, m)
    ensures |RunAll(env, arrivals).log| <= m
  {
    var s := RunAll(env, arrivals);
    RunAccounts(env, arrivals);
    HandledInOrder(env, arrivals);
    forall c: nat | 1 <= c <= |s.log| ensures c in Delivered(arrivals) {
      assert s.log[c - 1].dag in arrivals && s.log[c - 1].dag.index == c;
    }
  }

  /** An unfinished part of the unbroken run waits in the buffer. */
  lemma {:induction false} RestIsHeld(env: Env, arrivals: seq<SubDag>, m: nat)
    requires Unbroken(arrivals, m) && !RunAll(env, arrivals).failed
    ensures var s := RunAll(env, arrivals); s.next <= m ==> s.next in s.pending
  {
    var s := RunAll(env, arrivals);
    RunKeeps(env, arrivals);
    CommitConservation(env, arrivals);
    assert s.next in Delivered(arrivals) <==> s.next in s.pending;
  }

  /** Reorder refinement.  With no barrier, or a constant one, any arrival order with any
      duplicates hands the executor commits 1, 2, 3, ... in order and each once, under their global
      indices: the unbroken run 1..m cut at the barrier, or, when a trigger fails, the part of it up
      to that commit. */
  lemma {:induction false} ReorderRefinement(env: Env, arrivals: seq<SubDag>, barrier: nat, m: nat)
    requires ConstantBarrier(env, barrier) && Unbroken(arrivals, m)
    ensures var s := RunAll(env, arrivals);
            && (!s.failed ==> |s.sent| == Cap(m, barrier))
            && (s.failed ==> 1 <= |s.log| <= m && env.triggerFails(|s.log|) && |s.sent| == Cap(|s.log|, barrier))
            && forall i :: 0 <= i < |s.sent| ==>
                 && s.sent[i].dag in arrivals && s.sent[i].dag.index == i + 1
                 && s.sent[i].globalIndex == GlobalExecIndex(env.epoch, i + 1, env.base)
  {
    var s := RunAll(env, arrivals);
    RunKeeps(env, arrivals);
    RunAccounts(env, arrivals);
    HandledInOrder(env, arrivals);
    HandledWithin(env, arrivals, m);
    SentUnderConstantBarrier(env, s.log, barrier);
    FailsAtTrigger(env, arrivals);
    RunSettled(env, arrivals, barrier);
    if !s.failed { RestIsHeld(env, arrivals, m); }
  }

  /** Two processors that see the same commits in different orders, with different repetitions, hand
      the executor the same sequence, up to where a failed trigger ended one of them. */
  lemma {:induction false} OrderIndependence(env: Env, a: seq<SubDag>, b: seq<SubDag>, barrier: nat, m: nat)
    requires ConstantBarrier(env, barrier)
    requires forall d :: d in a <==> d in b
    requires forall d, e :: d in a && e in a && d.index == e.index ==> d == e
    requires Unbroken(a, m)
    ensures var s, t := RunAll(env, a), RunAll(env, b);
            && (s.sent <= t.sent || t.sent <= s.sent)
            && (!s.failed && !t.failed ==> s.sent == t.sent)
  {
    assert Delivered(a) == Delivered(b);
    ReorderRefinement(env, a, barrier, m);
    ReorderRefinement(env, b, barrier, m);
    var s, t := RunAll(env, a).sent, RunAll(env, b).sent;
    forall i | 0 <= i < |s| && i < |t| ensures s[i] == t[i] {
      assert s[i].dag in a && t[i].dag in a && s[i].dag.index == t[i].dag.index;
    }
  }
}
