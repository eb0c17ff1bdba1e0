/** The commit processor: a reorder buffer in front of the executor, with a transition barrier that
    other tasks write while it runs. */
module CommitProcessing {
  import opened Types
  import opened GlobalIndex

  /** A committed sub-DAG: its commit index and the transactions of each of its blocks. */
  datatype SubDag = SubDag(index: nat, blocks: seq<seq<Tx>>)

  /** What the processor cannot control.  `load(k)` is the value returned by the k-th load of the
      barrier, counting all loads of the run: an arbitrary function stands for arbitrary writes by
      other tasks between any two loads.  A processor built without a barrier behaves as one whose
      loads all return 0.  `triggerFails(c)` tells whether the epoch trigger that follows commit c
      returns an error, which ends the run. */
  datatype Env = Env(epoch: nat, base: nat, queueConfigured: bool,
                     load: nat -> nat, triggerFails: nat -> bool)

  /** Skipped: past the barrier before processing.  Raced: past the barrier right before sending.
      Executed: handed to the execute path under this global index. */
  datatype Outcome = Skipped | Raced | Executed(globalIndex: nat)

  /** One handled commit: the barrier value its first check loaded, the remembered barrier after
      that load, the value loaded right before sending, and what became of it. */
  datatype Entry = Entry(dag: SubDag, first: nat, snapshot: nat, second: nat, outcome: Outcome)

  datatype Delivery = Delivery(globalIndex: nat, dag: SubDag)

  datatype State = State(
    next: nat, pending: map<nat, SubDag>, snapshot: nat, loads: nat,
    sent: seq<Delivery>, queue: seq<Tx>, commitIndex: nat, failed: bool, log: seq<Entry>)

  const INITIAL: State := State(1, map[], 0, 0, [], [], 0, false, [])

  function Transactions(dag: SubDag): seq<Tx>
  {
    Flatten(dag.blocks)
  }

  // ----- Specification of the loop, one function per branch -----

  function Requeue(env: Env, queue: seq<Tx>, dag: SubDag): seq<Tx>
  {
    if env.queueConfigured then queue + Transactions(dag) else queue
  }

  /** Both barrier checks on the commit at position `s.next`, and its effect. */
  function Process(env: Env, s: State, dag: SubDag): State
  {
    var first := env.load(s.loads);
    var effective := if first > 0 then first else s.snapshot;
    if effective > 0 && s.next > effective then
      s.(snapshot := effective, loads := s.loads + 1, queue := Requeue(env, s.queue, dag),
         log := s.log + [Entry(dag, first, effective, 0, Skipped)])
    else
      var second := env.load(s.loads + 1);
      if second > 0 && dag.index > second then
        s.(snapshot := effective, loads := s.loads + 2, queue := Requeue(env, s.queue, dag),
           log := s.log + [Entry(dag, first, effective, second, Raced)])
      else
        var g := GlobalExecIndex(env.epoch, s.next, env.base);
        s.(snapshot := effective, loads := s.loads + 2, sent := s.sent + [Delivery(g, dag)],
           log := s.log + [Entry(dag, first, effective, second, Executed(g))])
  }

  /** The commit-index callback, then the increment. */
  function Advance(s: State): State
  {
    s.(commitIndex := s.next, next := s.next + 1)
  }

  /** Process buffered commits while the next one is there. */
  function Drain(env: Env, s: State): State
    decreases |s.pending|
  {
    if s.next in s.pending then
      var dag := s.pending[s.next];
      Drain(env, Advance(Process(env, s.(pending := s.pending - {s.next}), dag)))
    else
      s
  }

  function ReceiveStep(env: Env, s: State, dag: SubDag): State
  {
    if s.failed then s
    else if dag.index == s.next then
      var t := Process(env, s, dag);
      if t.log[|t.log| - 1].outcome.Skipped? then Advance(t)
      else if env.triggerFails(dag.index) then t.(failed := true)
      else Drain(env, Advance(t))
    else if dag.index > s.next then
      s.(pending := s.pending[dag.index := dag])
    else
      s
  }

  /** The state after the given arrivals. */
  function RunAll(env: Env, arrivals: seq<SubDag>): State
  {
    if arrivals == [] then INITIAL
    else ReceiveStep(env, RunAll(env, arrivals[..|arrivals| - 1]), arrivals[|arrivals| - 1])
  }

  /** The blocks were appended to the queue, one after the other and each as it is. */
  ghost predicate Appended(before: seq<Tx>, after: seq<Tx>, blocks: seq<seq<Tx>>)
  {
    && before <= after && |after| == |before| + LengthOfAll(blocks)
    && forall i :: 0 <= i < |blocks| ==> LiesAt(after, |before| + LengthOfAll(blocks[..i]), blocks[i])
  }

  ghost predicate LiesAt(queue: seq<Tx>, at: nat, block: seq<Tx>)
  {
    at + |block| <= |queue| && queue[at..at + |block|] == block
  }

  lemma {:induction false} LiesBehind(before: seq<Tx>, rest: seq<Tx>, at: nat, block: seq<Tx>)
    requires at + |block| <= |rest| && rest[at..at + |block|] == block
    ensures LiesAt(before + rest, |before| + at, block)
  {
    var whole, from := before + rest, |before| + at;
    forall j | 0 <= j < |block| ensures whole[from + j] == block[j] {
      assert rest[at..at + |block|][j] == rest[at + j];
    }
  }

  lemma {:induction false} RequeueAppends(env: Env, queue: seq<Tx>, dag: SubDag)
    ensures if env.queueConfigured then Appended(queue, Requeue(env, queue, dag), dag.blocks)
            else Requeue(env, queue, dag) == queue
  {
    if env.queueConfigured {
      var after := Requeue(env, queue, dag);
      FlattenLength(dag.blocks);
      forall i | 0 <= i < |dag.blocks| ensures LiesAt(after, |queue| + LengthOfAll(dag.blocks[..i]), dag.blocks[i]) {
        var at := LengthOfAll(dag.blocks[..i]);
        FlattenAt(dag.blocks, i);
        LiesBehind(queue, Transactions(dag), at, dag.blocks[i]);
      }
    }
  }

  // ----- The processor itself -----

  class CommitProcessor {
    const env: Env
    var next: nat
    var pending: map<nat, SubDag>
    var snapshot: nat
    var loads: nat
    var sent: seq<Delivery>
    var queue: seq<Tx>
    var commitIndex: nat
    var failed: bool
    ghost var log: seq<Entry>

    ghost function View(): State
      reads this
    {
      State(next, pending, snapshot, loads, sent, queue, commitIndex, failed, log)
    }

    constructor (env: Env)
      ensures this.env == env && View() == INITIAL
    {
      this.env := env;
      next, pending, snapshot, loads := 1, map[], 0, 0;
      sent, queue, commitIndex, failed, log := [], [], 0, false, [];
    }

    /** One load of the shared barrier. */
    method LoadBarrier() returns (v: nat)
      modifies this`loads
      ensures v == env.load(old(loads)) && loads == old(loads) + 1
    {
      v := env.load(loads);
      loads := loads + 1;
    }

    /** Append the transactions of a discarded commit to the retry queue, block by block. */
    method RequeueTransactions(dag: SubDag)
      modifies this`queue
      ensures queue == Requeue(env, old(queue), dag)
      ensures if env.queueConfigured then Appended(old(queue), queue, dag.blocks) else queue == old(queue)
    {
      RequeueAppends(env, queue, dag);
      var lost: seq<Tx> := [];
      for i := 0 to |dag.blocks|
        invariant lost == Flatten(dag.blocks[..i])
      {
        assert dag.blocks[..i + 1][..i] == dag.blocks[..i];
        lost := lost + dag.blocks[i];
      }
      assert dag.blocks[..|dag.blocks|] == dag.blocks;
      if lost != [] && env.queueConfigured {
        queue := queue + lost;
      }
    }

    /** Second barrier check, right before sending. */
    method ProcessCommit(dag: SubDag, globalIndex: nat) returns (ghost second: nat, ghost outcome: Outcome)
      modifies this`loads, this`queue, this`sent
      ensures second == env.load(old(loads)) && loads == old(loads) + 1
      ensures outcome == if second > 0 && dag.index > second then Raced else Executed(globalIndex)
      ensures queue == if outcome.Raced? then Requeue(env, old(queue), dag) else old(queue)
      ensures sent == if outcome.Raced? then old(sent) else old(sent) + [Delivery(globalIndex, dag)]
    {
      var now := LoadBarrier();
      second := now;
      if now > 0 && dag.index > now {
        RequeueTransactions(dag);
        outcome := Raced;
        return;
      }
      sent := sent + [Delivery(globalIndex, dag)];
      outcome := Executed(globalIndex);
    }

    /** First barrier check, then either skip the commit or process it. */
    method CheckAndProcess(dag: SubDag) returns (skipped: bool)
      modifies this
      ensures View() == Process(env, old(View()), dag)
      ensures skipped == log[|log| - 1].outcome.Skipped?
    {
      var v := LoadBarrier();
      if v > 0 { snapshot := v; }
      var effective := if v > 0 then v else snapshot;
      if effective > 0 && next > effective {
        RequeueTransactions(dag);
        log := log + [Entry(dag, v, effective, 0, Skipped)];
        return true;
      }
      var g := GlobalExecIndex(env.epoch, next, env.base);
      ghost var second, outcome := ProcessCommit(dag, g);
      log := log + [Entry(dag, v, effective, second, outcome)];
      return false;
    }

    method NotifyAndAdvance()
      modifies this`commitIndex, this`next
      ensures View() == Advance(old(View()))
    {
      commitIndex := next;
      next := next + 1;
    }

    /** Process buffered commits that are now in order. */
    method DrainPending()
      modifies this
      ensures View() == Drain(env, old(View()))
    {
      while next in pending
        invariant Drain(env, old(View())) == Drain(env, View())
        decreases |pending|
      {
        ghost var before := View();
        var held := pending[next];
        pending := pending - {next};
        var _ := CheckAndProcess(held);
        NotifyAndAdvance();
        assert Drain(env, before) == Drain(env, View());
      }
    }

    /** One message from the commit channel. */
    method Receive(dag: SubDag)
      modifies this
      ensures View() == ReceiveStep(env, old(View()), dag)
    {
      if failed { return; }
      if dag.index == next {
        var skipped := CheckAndProcess(dag);
        if skipped {
          NotifyAndAdvance();
          return;
        }
        if env.triggerFails(dag.index) {
          failed := true;
          return;
        }
        NotifyAndAdvance();
        DrainPending();
      } else if dag.index > next {
        pending := pending[dag.index := dag];
      }
    }

    /** The receive loop, until the channel closes. */
    method Run(arrivals: seq<SubDag>)
      requires View() == INITIAL
      modifies this
      ensures View() == RunAll(env, arrivals)
    {
      for i := 0 to |arrivals|
        invariant View() == RunAll(env, arrivals[..i])
      {
        assert arrivals[..i + 1][..i] == arrivals[..i];
        Receive(arrivals[i]);
      }
      assert arrivals[..|arrivals|] == arrivals;
    }
  }
}
