/** What holds over whole runs of a node: guards that agree, phases of acceptance, epochs and bases
    that only grow. */
module NodeSafety {
  import opened Types
  import opened GlobalIndex
  import opened Quorum
  import opened EpochVoting
  import opened EpochManager
  import opened ConsensusNodes
  import CanonicalOrder

  // ----- Runs -----

  /** One thing that happens to a node.  Resetting the manager is part of a transition only. */
  datatype Event =
    | CheckTx(listing: seq<Proposal>)
    | QueueTx(tx: Tx)
    | ManagerOp(op: Op)
    | Commit(index: nat)
    | Transit(p: Proposal, commit: nat, now: nat, fault: Fault)

  /** What the node is made of besides its state. */
  datatype Setup = Setup(crypto: Crypto, hash: Tx -> CanonicalOrder.Hash)

  function Happen(u: Setup, n: Node, e: Event): Node
  {
    match e
    case CheckTx(listing) => n.(barrier := Acceptance(u.crypto, n, listing).1)
    case QueueTx(tx) => n.(queue := n.queue + [tx])
    case ManagerOp(op) => if op.Reset? then n else n.(manager := Apply(u.crypto, n.manager, op))
    case Commit(index) => n.(commitIndex := index)
    case Transit(p, commit, now, fault) =>
      // Only a proposal for a later epoch is ever found ready: ReadyTargetsLaterEpoch.
      if p.newEpoch <= n.epoch then n
      else Transition(u.crypto, u.hash, n, p, commit, now, fault).1
  }

  function History(u: Setup, n: Node, events: seq<Event>): Node
  {
    if events == [] then n else Happen(u, History(u, n, events[..|events| - 1]), events[|events| - 1])
  }

  /** The manager is in order, node and manager are in the same epoch, and the base is usable. */
  ghost predicate NodeInv(u: Setup, n: Node)
  {
    Inv(u.crypto, n.manager) && n.manager.epoch == n.epoch && UsableBase(n.epoch, n.base)
  }

  lemma HappenKeeps(u: Setup, n: Node, e: Event)
    requires NodeInv(u, n) && SigningSound(u.crypto)
    ensures NodeInv(u, Happen(u, n, e))
    ensures Happen(u, n, e).epoch >= n.epoch && Happen(u, n, e).base >= n.base
  {
    match e {
      case ManagerOp(op) =>
        StepKeeps(u.crypto, n.manager, op);
      case Transit(p, commit, now, fault) =>
        StepKeeps(u.crypto, n.manager, Reset(p.newEpoch, p.timestampMs));
        UsableBaseIndex(n.epoch, TransitionCommit(p), n.base);
      case _ =>
    }
  }

  /** Over every run the invariant holds, and neither the epoch nor the base ever goes down. */
  lemma {:induction false} HistoryKeeps(u: Setup, n: Node, events: seq<Event>)
    requires NodeInv(u, n) && SigningSound(u.crypto)
    ensures var t := History(u, n, events);
            NodeInv(u, t) && t.epoch >= n.epoch && t.base >= n.base
  {
    if events != [] {
      HistoryKeeps(u, n, events[..|events| - 1]);
      HappenKeeps(u, History(u, n, events[..|events| - 1]), events[|events| - 1]);
    }
  }

  // ----- The two transition guards -----

  /** With node and manager in the same epoch, the manager finds a proposal ready exactly when the
      node's own guards would let it through at the same moment. */
  lemma GuardsAgree(u: Setup, n: Node, p: Proposal, commit: nat, now: nat)
    requires n.manager.epoch == n.epoch
    ensures ShouldTransition(u.crypto, n.manager, p, commit, now) <==> GuardsPass(u.crypto, n, p, commit, now)
  {
  }

  /** A proposal found ready still passes the guards at any later time. */
  lemma ReadyStaysReady(u: Setup, n: Node, p: Proposal, commit: nat, now: nat, later: nat)
    requires n.manager.epoch == n.epoch && now <= later
    requires ShouldTransition(u.crypto, n.manager, p, commit, now)
    ensures GuardsPass(u.crypto, n, p, commit, later)
  {
  }

  /** Whatever is pending, and so whatever is found ready, targets a later epoch. */
  lemma ReadyTargetsLaterEpoch(u: Setup, n: Node, p: Proposal)
    requires NodeInv(u, n) && p in n.manager.pending.Values
    ensures p.newEpoch > n.epoch
  {
    var h :| h in n.manager.pending && n.manager.pending[h] == p;
  }

  /** The node right after a completed transition: running in the new epoch, with the base raised by the
      old epoch's barrier, no mark, no barrier and no commit, the queue replayed in canonical order, and a
      manager that keeps its committee, starts at the proposal's time and has forgotten everything else. */
  function AfterTransition(u: Setup, n: Node, p: Proposal): Node
  {
    Node(true, p.newEpoch, n.base + TransitionCommit(p), None, 0, 0, [],
         n.submitted + CanonicalOrder.Canonical(u.hash, n.queue),
         Manager(p.newEpoch, n.manager.committee, p.timestampMs, map[], map[], {}, []))
  }

  /** In every run, a proposal that the manager finds ready can be carried out at once: unless it was
      tried before, and without faults, the transition completes, raises the epoch, raises the base
      by the old epoch's barrier, which is at least 10, replays the queue and starts everything else
      over. */
  lemma {:induction false} ReadyTransitionCompletes(u: Setup, start: Node, events: seq<Event>,
                                                   p: Proposal, commit: nat, now: nat)
    requires NodeInv(u, start) && SigningSound(u.crypto)
    requires var n := History(u, start, events);
             && p in n.manager.pending.Values
             && ShouldTransition(u.crypto, n.manager, p, commit, now)
             && n.lastHash != Some(HashOf(u.crypto, p))
    ensures var n := History(u, start, events);
            var (outcome, t) := Transition(u.crypto, u.hash, n, p, commit, now, NoFault);
            && outcome.Done? && t == Happen(u, n, Transit(p, commit, now, NoFault))
            && t == AfterTransition(u, n, p) && t.epoch > n.epoch && t.base >= n.base + 10
  {
    var n := History(u, start, events);
    HistoryKeeps(u, start, events);
    GuardsAgree(u, n, p, commit, now);
    ReadyTargetsLaterEpoch(u, n, p);
    UsableBaseIndex(n.epoch, TransitionCommit(p), n.base);
  }

  lemma {:induction false} DoneIsAfter(u: Setup, n: Node, p: Proposal, commit: nat, now: nat)
    requires UsableBase(n.epoch, n.base)
    requires Transition(u.crypto, u.hash, n, p, commit, now, NoFault).0.Done?
    ensures Transition(u.crypto, u.hash, n, p, commit, now, NoFault).1 == AfterTransition(u, n, p)
  {
    UsableBaseIndex(n.epoch, TransitionCommit(p), n.base);
  }

  /** What a failed attempt leaves behind.  A test that fails or a busy lock leaves the mark; the lack of a
      committee in addition the barrier; a failure on storage the new epoch with its base and a manager that
      has started over, not running, the barrier still set, and the queue as it was. */
  lemma FailureLeaves(u: Setup, n: Node, p: Proposal, commit: nat, now: nat, fault: Fault)
    requires UsableBase(n.epoch, n.base)
    requires Transition(u.crypto, u.hash, n, p, commit, now, fault).0.Failed?
    ensures var t, mark := Transition(u.crypto, u.hash, n, p, commit, now, fault).1, Some(HashOf(u.crypto, p));
            if !GuardsPass(u.crypto, n, p, commit, now) || fault.LockBusy? then t == n.(lastHash := mark)
            else if fault.NoCommittee? then t == n.(lastHash := mark, barrier := TransitionCommit(p))
            else
              && fault.StorageFails?
              && t == AfterTransition(u, n, p).(running := false, lastHash := mark, barrier := TransitionCommit(p),
                                                queue := n.queue, submitted := n.submitted)
  {
    UsableBaseIndex(n.epoch, TransitionCommit(p), n.base);
  }

  // ----- Phases of acceptance -----

  /** A next-epoch proposal whose commit index has been reached and from whose approving votes at most f of
      the stake is missing. */
  ghost predicate SettledBy(u: Setup, n: Node, f: nat, p: Proposal)
  {
    p.newEpoch == n.epoch + 1 && p.commitIndex <= n.commitIndex && Reached(n.manager, f, HashOf(u.crypto, p), true)
  }

  lemma SettledIff(u: Setup, n: Node, f: nat, p: Proposal)
    requires Tolerates(n.manager.committee.stakes, f)
    ensures Settled(u.crypto, n, p) <==> SettledBy(u, n, f, p)
  {
    StatusIff(u.crypto, n.manager, f, p);
  }

  /** The verdict on a transaction: it is refused exactly when the node does not run, a transition was
      marked, or a proposal more than one epoch ahead is pending; otherwise it is queued exactly when a
      barrier is set or a listed proposal is settled; and otherwise accepted.  The barrier changes only
      when it was off and a settled proposal turned it on, to that one's commit index plus 10. */
  lemma {:induction false} VerdictIff(u: Setup, n: Node, f: nat, listing: seq<Proposal>)
    requires Tolerates(n.manager.committee.stakes, f)
    ensures var (verdict, barrier) := Acceptance(u.crypto, n, listing);
            var refused := !n.running || n.lastHash.Some? || exists p :: p in listing && p.newEpoch > n.epoch + 1;
            var queued := n.barrier > 0 || exists p :: p in listing && SettledBy(u, n, f, p);
            && (verdict.Reject? <==> refused)
            && (verdict.Enqueue? <==> !refused && queued)
            && (verdict.Accept? <==> !refused && !queued)
            && (refused || !queued || n.barrier > 0 ==> barrier == n.barrier)
            && (!refused && queued && n.barrier == 0 ==>
                  exists p :: p in listing && SettledBy(u, n, f, p) && barrier == TransitionCommit(p))
  {
    forall p ensures Settled(u.crypto, n, p) <==> SettledBy(u, n, f, p) { SettledIff(u, n, f, p); }
    var first := FirstSettled(u.crypto, n, listing);
    if first.Some? { assert SettledBy(u, n, f, first.value); }
  }

  /** The event carries out a transition to its end. */
  ghost predicate Completes(u: Setup, n: Node, e: Event)
  {
    && e.Transit? && e.p.newEpoch > n.epoch
    && Transition(u.crypto, u.hash, n, e.p, e.commit, e.now, e.fault).0.Done?
  }

  /** The event is an attempted transition that gets as far as storing the barrier. */
  ghost predicate Stores(u: Setup, n: Node, e: Event)
  {
    && e.Transit? && e.p.newEpoch > n.epoch && n.lastHash != Some(HashOf(u.crypto, e.p))
    && GuardsPass(u.crypto, n, e.p, e.commit, e.now) && !e.fault.LockBusy?
  }

  /** No transition of the run completes, though any number may be attempted and fail. */
  ghost predicate NoneCompletes(u: Setup, n: Node, events: seq<Event>)
  {
    forall k :: 0 <= k < |events| ==> !Completes(u, History(u, n, events[..k]), events[k])
  }

  ghost predicate NoneStores(u: Setup, n: Node, events: seq<Event>)
  {
    forall k :: 0 <= k < |events| ==> !Stores(u, History(u, n, events[..k]), events[k])
  }

  lemma {:induction false} NonePrefix(u: Setup, n: Node, events: seq<Event>)
    requires events != []
    ensures var before := events[..|events| - 1];
            && (NoneCompletes(u, n, events) ==> NoneCompletes(u, n, before))
            && (NoneStores(u, n, events) ==> NoneStores(u, n, before))
  {
    var before := events[..|events| - 1];
    forall k | 0 <= k < |before| ensures before[..k] == events[..k] && before[k] == events[k] {
    }
  }

  /** A check that gets as far as looking for settled proposals. */
  ghost predicate Looks(n: Node, listing: seq<Proposal>)
  {
    n.running && n.lastHash.None? && n.barrier == 0 && forall p :: p in listing ==> p.newEpoch <= n.epoch + 1
  }

  /** The event writes the barrier of that proposal: a check that finds it settled, or an attempted
      transition that gets as far as the store. */
  ghost predicate WritesFor(u: Setup, n: Node, e: Event, p: Proposal)
  {
    match e
    case CheckTx(listing) => Looks(n, listing) && FirstSettled(u.crypto, n, listing) == Some(p)
    case Transit(q, _, _, _) => Stores(u, n, e) && p == q
    case _ => false
  }

  /** What an event does to the barrier: a completed transition clears it, any other event sets it for
      the proposal it writes for, or leaves it alone.  So of the failed attempts exactly those that
      reach the store touch it. */
  lemma BarrierStep(u: Setup, n: Node, e: Event)
    ensures var t := Happen(u, n, e);
            && (Completes(u, n, e) ==> t.barrier == 0)
            && (!Completes(u, n, e) ==> forall p :: WritesFor(u, n, e, p) ==> t.barrier == TransitionCommit(p))
            && (!Completes(u, n, e) && (forall p :: !WritesFor(u, n, e, p)) ==> t.barrier == n.barrier)
  {
    if e.CheckTx? && Looks(n, e.listing) && FirstSettled(u.crypto, n, e.listing).Some? {
      assert WritesFor(u, n, e, FirstSettled(u.crypto, n, e.listing).value);
    }
    if Stores(u, n, e) { assert WritesFor(u, n, e, e.p); }
  }

  /** Some event of the run wrote this barrier. */
  ghost predicate WrittenSomewhere(u: Setup, n: Node, events: seq<Event>, barrier: nat)
  {
    exists k, p :: 0 <= k < |events| && WritesFor(u, History(u, n, events[..k]), events[k], p) &&
                   barrier == TransitionCommit(p)
  }

  lemma {:induction false} WrittenLater(u: Setup, n: Node, events: seq<Event>, barrier: nat)
    requires events != [] && WrittenSomewhere(u, n, events[..|events| - 1], barrier)
    ensures WrittenSomewhere(u, n, events, barrier)
  {
    var before := events[..|events| - 1];
    var k, p :| 0 <= k < |before| && WritesFor(u, History(u, n, before[..k]), before[k], p) &&
                barrier == TransitionCommit(p);
    assert before[..k] == events[..k] && before[k] == events[k];
  }

  /** Until a transition completes a set barrier stays set, through any failed attempts; it keeps its
      value unless an attempt reaches the store; and any new value was written by a check that saw a
      settled proposal or by such an attempt, as that proposal's commit index plus 10. */
  lemma {:induction false} BarrierStays(u: Setup, n: Node, events: seq<Event>)
    requires NoneCompletes(u, n, events)
    ensures var t := History(u, n, events);
            && (n.barrier > 0 ==> t.barrier > 0)
            && (n.barrier > 0 && NoneStores(u, n, events) ==> t.barrier == n.barrier)
            && (t.barrier == n.barrier || WrittenSomewhere(u, n, events, t.barrier))
  {
    if events != [] {
      var k := |events| - 1;
      var s, t := History(u, n, events[..k]), History(u, n, events);
      NonePrefix(u, n, events);
      BarrierStays(u, n, events[..k]);
      BarrierStep(u, s, events[k]);
      assert !Completes(u, s, events[k]);
      if p :| WritesFor(u, s, events[k], p) {
        assert WrittenSomewhere(u, n, events, t.barrier);
      } else if t.barrier != n.barrier {
        WrittenLater(u, n, events, t.barrier);
      }
    }
  }

  /** A transaction is queued only in a barrier phase; once the barrier is set no check accepts a
      transaction, through any events and failed attempts, until a transition completes; and it is
      accepted exactly when no phase forbids it and no listed proposal is settled. */
  lemma {:induction false} NothingAcceptedBehindBarrier(u: Setup, n: Node, events: seq<Event>, listing: seq<Proposal>)
    requires NoneCompletes(u, n, events)
    ensures var t := History(u, n, events);
            var (verdict, barrier) := Acceptance(u.crypto, t, listing);
            && (verdict.Enqueue? ==> barrier > 0)
            && (n.barrier > 0 ==> !verdict.Accept?)
            && (verdict.Accept? <==> Looks(t, listing) && forall p :: p in listing ==> !Settled(u.crypto, t, p))
            && (verdict.Accept? ==> barrier == 0)
  {
    BarrierStays(u, n, events);
  }

  /** Every event that writes a barrier writes this one. */
  ghost predicate AllWrite(u: Setup, n: Node, events: seq<Event>, barrier: nat)
  {
    forall k, p :: 0 <= k < |events| && WritesFor(u, History(u, n, events[..k]), events[k], p) ==>
      TransitionCommit(p) == barrier
  }

  /** The barrier is off or has this value, after every prefix of the run. */
  ghost predicate OneValue(u: Setup, n: Node, events: seq<Event>, barrier: nat)
  {
    forall k :: 0 <= k <= |events| ==> var v := History(u, n, events[..k]).barrier; v == 0 || v == barrier
  }

  /** Until a transition completes, the barrier takes no other value than this one, after no prefix of
      the run, if and only if every proposal found settled and every attempt that reaches the store
      ends the epoch at this commit. */
  lemma {:induction false} OneValueIff(u: Setup, n: Node, events: seq<Event>, barrier: nat)
    requires NoneCompletes(u, n, events) && (n.barrier == 0 || n.barrier == barrier)
    ensures OneValue(u, n, events, barrier) <==> AllWrite(u, n, events, barrier)
  {
    forall k | 0 <= k < |events|
      ensures !Completes(u, History(u, n, events[..k]), events[k])
      ensures History(u, n, events[..k + 1]) == Happen(u, History(u, n, events[..k]), events[k])
    {
      assert events[..k + 1][..k] == events[..k];
    }
    if AllWrite(u, n, events, barrier) {
      OneValueKept(u, n, events, barrier);
    }
    if OneValue(u, n, events, barrier) {
      forall k, p | 0 <= k < |events| && WritesFor(u, History(u, n, events[..k]), events[k], p)
        ensures TransitionCommit(p) == barrier
      {
        BarrierStep(u, History(u, n, events[..k]), events[k]);
        assert History(u, n, events[..k + 1]).barrier == TransitionCommit(p);
      }
    }
  }

  lemma {:induction false} OneValueKept(u: Setup, n: Node, events: seq<Event>, barrier: nat)
    requires NoneCompletes(u, n, events) && (n.barrier == 0 || n.barrier == barrier)
    requires AllWrite(u, n, events, barrier)
    ensures OneValue(u, n, events, barrier)
  {
    forall k | 0 <= k <= |events|
      ensures var v := History(u, n, events[..k]).barrier; v == 0 || v == barrier
    {
      ValueAt(u, n, events, barrier, k);
    }
  }

  lemma {:induction false} ValueAt(u: Setup, n: Node, events: seq<Event>, barrier: nat, k: nat)
    requires NoneCompletes(u, n, events) && (n.barrier == 0 || n.barrier == barrier)
    requires AllWrite(u, n, events, barrier) && k <= |events|
    ensures var v := History(u, n, events[..k]).barrier; v == 0 || v == barrier
  {
    if k > 0 {
      ValueAt(u, n, events, barrier, k - 1);
      assert events[..k][..k - 1] == events[..k - 1];
      BarrierStep(u, History(u, n, events[..k - 1]), events[k - 1]);
    }
  }

  /** The pending proposals in another order. */
  ghost predicate Reordered(a: seq<Proposal>, b: seq<Proposal>)
  {
    multiset(a) == multiset(b)
  }

  lemma {:induction false} ReorderedMember(a: seq<Proposal>, b: seq<Proposal>, p: Proposal)
    requires Reordered(a, b)
    ensures p in a <==> p in b
  {
    assert p in a <==> p in multiset(a);
    assert p in b <==> p in multiset(b);
  }

  lemma {:induction false} ReorderedSettled(u: Setup, n: Node, a: seq<Proposal>, b: seq<Proposal>)
    requires Reordered(a, b)
    ensures var x, y := FirstSettled(u.crypto, n, a), FirstSettled(u.crypto, n, b);
            && (x.Some? <==> y.Some?) && (x.Some? ==> x.value in b) && (Looks(n, a) <==> Looks(n, b))
  {
    forall p ensures p in a <==> p in b { ReorderedMember(a, b, p); }
  }

  /** The order in which the map yields the pending proposals does not influence the verdict. */
  lemma {:induction false} VerdictOrderIndependent(u: Setup, n: Node, a: seq<Proposal>, b: seq<Proposal>)
    requires Reordered(a, b)
    ensures Acceptance(u.crypto, n, a).0 == Acceptance(u.crypto, n, b).0
  {
    forall p ensures p in a <==> p in b { ReorderedMember(a, b, p); }
    ReorderedSettled(u, n, a, b);
  }

  ghost predicate OneBarrier(u: Setup, n: Node, listing: seq<Proposal>)
  {
    forall p, q :: p in listing && q in listing && Settled(u.crypto, n, p) && Settled(u.crypto, n, q) ==>
      TransitionCommit(p) == TransitionCommit(q)
  }

  lemma {:induction false} OneBarrierEveryOrder(u: Setup, n: Node, a: seq<Proposal>, b: seq<Proposal>)
    requires Reordered(a, b) && (Looks(n, b) ==> OneBarrier(u, n, b))
    ensures Acceptance(u.crypto, n, a).1 == Acceptance(u.crypto, n, b).1
  {
    ReorderedSettled(u, n, a, b);
    forall p ensures p in a <==> p in b { ReorderedMember(a, b, p); }
  }

  /** The listing with its i-th proposal first. */
  function MoveFirst(listing: seq<Proposal>, i: nat): seq<Proposal>
    requires i < |listing|
  {
    [listing[i]] + listing[..i] + listing[i + 1..]
  }

  lemma {:induction false} FirstListedDecides(u: Setup, n: Node, listing: seq<Proposal>, i: nat)
    requires i < |listing| && Looks(n, listing) && Settled(u.crypto, n, listing[i])
    ensures Reordered(MoveFirst(listing, i), listing)
    ensures Acceptance(u.crypto, n, MoveFirst(listing, i)).1 == TransitionCommit(listing[i])
  {
    var moved := MoveFirst(listing, i);
    assert listing == listing[..i] + [listing[i]] + listing[i + 1..];
    assert Reordered(moved, listing);
    ReorderedSettled(u, n, moved, listing);
    assert moved[0] == listing[i] && FirstSettled(u.crypto, n, moved) == Some(listing[i]);
  }

  /** All nodes are meant to use the same barrier.  The barrier a check sets is the same for every
      order of the pending proposals if and only if all settled ones end the epoch at one commit. */
  lemma {:induction false} BarrierDeterminedIff(u: Setup, n: Node, listing: seq<Proposal>)
    ensures (forall other :: Reordered(other, listing) ==>
               Acceptance(u.crypto, n, other).1 == Acceptance(u.crypto, n, listing).1)
            <==> (Looks(n, listing) ==> OneBarrier(u, n, listing))
  {
    if Looks(n, listing) && !OneBarrier(u, n, listing) {
      var p, q :| p in listing && q in listing && Settled(u.crypto, n, p) && Settled(u.crypto, n, q) &&
                  TransitionCommit(p) != TransitionCommit(q);
      var i :| 0 <= i < |listing| && listing[i] == p;
      var j :| 0 <= j < |listing| && listing[j] == q;
      FirstListedDecides(u, n, listing, i);
      FirstListedDecides(u, n, listing, j);
    } else {
      forall other | Reordered(other, listing)
        ensures Acceptance(u.crypto, n, other).1 == Acceptance(u.crypto, n, listing).1
      {
        OneBarrierEveryOrder(u, n, other, listing);
      }
    }
  }

  // A committee of one, two proposals for the next epoch, and everything signed properly.

  const FIRST: Proposal := Proposal(1, 0, 0, 0, [], 0)
  const SECOND: Proposal := Proposal(1, 0, 1, 0, [], 0)

  const TRUSTING: Crypto := Crypto((k: Key) => if k.commitIndex == 0 then [0] else [1], p => true,
                                   (v, stake) => true, (h, approve, voter, stake) => [])

  const EMPTY: Manager := Manager(0, Committee([1]), 0, map[], map[], {}, [])

  /** Both proposals are taken in and voted for. */
  const BOTH: seq<Op> := [Process(FIRST, 0), CastVote(FIRST, 0, 0), Process(SECOND, 0), CastVote(SECOND, 0, 0)]

  lemma {:induction false} BothApproved()
    ensures var s := Run(TRUSTING, EMPTY, BOTH);
            && s.epoch == 0 && s.pending == map[[0] := FIRST, [1] := SECOND]
            && Approved(TRUSTING, s, FIRST) && Approved(TRUSTING, s, SECOND)
  {
    var own, own' := OwnVote(TRUSTING, EMPTY, FIRST, 0), OwnVote(TRUSTING, EMPTY, SECOND, 0);
    var s1 := Apply(TRUSTING, EMPTY, Process(FIRST, 0));
    var s2 := Apply(TRUSTING, s1, CastVote(FIRST, 0, 0));
    var s3 := Apply(TRUSTING, s2, Process(SECOND, 0));
    var s4 := Apply(TRUSTING, s3, CastVote(SECOND, 0, 0));
    assert s2.votes == map[[0] := map[0 := own]];
    assert s4.votes == map[[0] := map[0 := own], [1] := map[0 := own']];
    RunOfFour(TRUSTING, EMPTY, BOTH);
    assert Run(TRUSTING, EMPTY, BOTH) == s4;
    assert Side(s4.votes[[0]], true) == {0} && Side(s4.votes[[1]], true) == {0};
    OneMember();
  }

  lemma {:induction false} RunOfFour(c: Crypto, s: Manager, ops: seq<Op>)
    requires |ops| == 4
    ensures Run(c, s, ops) == Apply(c, Apply(c, Apply(c, Apply(c, s, ops[0]), ops[1]), ops[2]), ops[3])
  {
    assert ops[..3][..2] == ops[..2] && ops[..2][..1] == ops[..1] && ops[..1][..0] == [];
    assert Run(c, s, ops[..1]) == Apply(c, s, ops[0]);
    assert Run(c, s, ops[..2]) == Apply(c, Run(c, s, ops[..1]), ops[1]);
    assert Run(c, s, ops[..3]) == Apply(c, Run(c, s, ops[..2]), ops[2]);
  }

  lemma {:induction false} OneMember()
    ensures StakeOf([1], {0}) == 1 && Committee([1]).QuorumThreshold() == 1
  {
    assert StakeOf([], {0}) == 0 && Sum([]) == 0;
  }

  /** Two orders of the same pending proposals, two barriers: a node that has taken in both proposals
      sets 10 or 11, depending on the order its map yields them. */
  lemma {:induction false} TwoBarriers()
    ensures var n := Node(true, 0, 0, None, 0, 1, [], [], Run(TRUSTING, EMPTY, BOTH));
            && Lists([FIRST, SECOND], n.manager) && Lists([SECOND, FIRST], n.manager)
            && Acceptance(TRUSTING, n, [FIRST, SECOND]) == (Enqueue, 10)
            && Acceptance(TRUSTING, n, [SECOND, FIRST]) == (Enqueue, 11)
  {
    BothApproved();
    var s := Run(TRUSTING, EMPTY, BOTH);
    assert FIRST == s.pending[[0]] && SECOND == s.pending[[1]];
    var n := Node(true, 0, 0, None, 0, 1, [], [], s);
    assert Settled(TRUSTING, n, FIRST) && Settled(TRUSTING, n, SECOND);
  }

  // ----- The beginning of an epoch -----

  /** Only checks, queueing and the manager's own work. */
  ghost predicate NoCommitYet(events: seq<Event>)
  {
    forall k :: 0 <= k < |events| ==> !events[k].Commit? && !events[k].Transit?
  }

  /** A check of the run saw an approved next-epoch proposal with commit index 0. */
  ghost predicate SettledAtOnce(u: Setup, n: Node, f: nat, events: seq<Event>)
  {
    exists k, p :: 0 <= k < |events| && events[k].CheckTx? && p in events[k].listing && p.commitIndex == 0 &&
                   SettledBy(u, History(u, n, events[..k]), f, p)
  }

  /** The node as it is before the first commit of its epoch. */
  ghost predicate AtBeginning(n: Node, epoch: nat, f: nat)
  {
    && n.running && n.lastHash.None? && n.commitIndex == 0 && n.epoch == epoch
    && (n.barrier == 0 || n.barrier == 10) && Tolerates(n.manager.committee.stakes, f)
  }

  lemma {:induction false} BeginningStep(u: Setup, n: Node, epoch: nat, f: nat, e: Event)
    requires AtBeginning(n, epoch, f) && !e.Commit? && !e.Transit?
    ensures AtBeginning(Happen(u, n, e), epoch, f)
    ensures n.barrier == 0 && Happen(u, n, e).barrier > 0 ==>
              e.CheckTx? && exists p :: p in e.listing && p.commitIndex == 0 && SettledBy(u, n, f, p)
  {
    if e.CheckTx? { VerdictIff(u, n, f, e.listing); }
  }

  lemma {:induction false} BeginningKept(u: Setup, n: Node, epoch: nat, f: nat, events: seq<Event>)
    requires AtBeginning(n, epoch, f) && n.barrier == 0 && NoCommitYet(events)
    ensures AtBeginning(History(u, n, events), epoch, f)
    ensures History(u, n, events).barrier > 0 ==> SettledAtOnce(u, n, f, events)
  {
    if events != [] {
      var k := |events| - 1;
      var s := History(u, n, events[..k]);
      BeginningKept(u, n, epoch, f, events[..k]);
      BeginningStep(u, s, epoch, f, events[k]);
      if s.barrier > 0 {
        var i, p :| 0 <= i < k && events[..k][i].CheckTx? && p in events[..k][i].listing && p.commitIndex == 0 &&
                    SettledBy(u, History(u, n, events[..k][..i]), f, p);
        assert events[..k][..i] == events[..i] && events[..k][i] == events[i];
      }
    }
  }

  /** After a completed transition and before any commit of the new epoch, a transaction is accepted unless a
      proposal more than one epoch ahead is pending, or an approved one for the next epoch has commit index
      0, now or at an earlier check. */
  lemma {:induction false} NewEpochAccepts(u: Setup, n: Node, p: Proposal, commit: nat, now: nat, f: nat,
                                          events: seq<Event>, listing: seq<Proposal>)
    requires NodeInv(u, n) && Tolerates(n.manager.committee.stakes, f) && NoCommitYet(events)
    requires Transition(u.crypto, u.hash, n, p, commit, now, NoFault).0.Done?
    ensures var t := History(u, AfterTransition(u, n, p), events);
            && Transition(u.crypto, u.hash, n, p, commit, now, NoFault).1 == AfterTransition(u, n, p)
            && (Acceptance(u.crypto, t, listing).0.Accept? <==>
                  && t.barrier == 0 && (forall q :: q in listing ==> q.newEpoch <= p.newEpoch + 1)
                  && forall q :: q in listing && q.newEpoch == p.newEpoch + 1 && q.commitIndex == 0 ==>
                       !Reached(t.manager, f, HashOf(u.crypto, q), true))
            && (t.barrier > 0 ==> t.barrier == 10 && SettledAtOnce(u, AfterTransition(u, n, p), f, events))
  {
    DoneIsAfter(u, n, p, commit, now);
    BeginningKept(u, AfterTransition(u, n, p), p.newEpoch, f, events);
    VerdictIff(u, History(u, AfterTransition(u, n, p), events), f, listing);
  }

  // ----- What all nodes must agree on -----

  /** The proposals that moved the node to another epoch, in order, without signature and age. */
  function Carried(u: Setup, n: Node, events: seq<Event>): seq<Key>
  {
    if events == [] then []
    else
      var k := |events| - 1;
      var before := History(u, n, events[..k]);
      Carried(u, n, events[..k]) +
      if Happen(u, before, events[k]).epoch != before.epoch then [KeyOf(events[k].p)] else []
  }

  function SumOfTransitions(ks: seq<Key>): nat
  {
    if ks == [] then 0
    else SumOfTransitions(ks[..|ks| - 1]) + SaturatingAddU32(ks[|ks| - 1].commitIndex, BARRIER_OFFSET)
  }

  function LastEpoch(epoch: nat, ks: seq<Key>): nat
  {
    if ks == [] then epoch else ks[|ks| - 1].newEpoch
  }

  lemma EpochMoves(u: Setup, n: Node, e: Event)
    requires NodeInv(u, n)
    ensures var t := Happen(u, n, e);
            if t.epoch == n.epoch then t.base == n.base
            else e.Transit? && t.epoch == e.p.newEpoch && t.base == n.base + TransitionCommit(e.p)
  {
    if e.Transit? { UsableBaseIndex(n.epoch, TransitionCommit(e.p), n.base); }
  }

  /** An attempt that does not complete moves the epoch exactly when it fails on storage after the
      barrier was stored. */
  lemma MovesIff(u: Setup, n: Node, e: Event)
    requires !Completes(u, n, e)
    ensures Happen(u, n, e).epoch != n.epoch <==> Stores(u, n, e) && e.fault.StorageFails?
  {
  }

  /** Every failed attempt of the run failed before the epoch moved. */
  ghost predicate FailsEarly(u: Setup, n: Node, events: seq<Event>)
  {
    forall k :: 0 <= k < |events| && Stores(u, History(u, n, events[..k]), events[k]) ==>
      !events[k].fault.StorageFails?
  }

  lemma {:induction false} FailsEarlyLast(u: Setup, n: Node, events: seq<Event>)
    requires events != []
    ensures var k := |events| - 1;
            FailsEarly(u, n, events) <==>
            && FailsEarly(u, n, events[..k])
            && !(Stores(u, History(u, n, events[..k]), events[k]) && events[k].fault.StorageFails?)
  {
    var k := |events| - 1;
    forall j | 0 <= j < k ensures events[..k][..j] == events[..j] && events[..k][j] == events[j] {
    }
  }

  /** A run without a completed transition stays in its epoch, and carries out no proposal, if and only
      if every failed attempt failed early. */
  lemma {:induction false} EpochKeptIff(u: Setup, n: Node, events: seq<Event>)
    requires NodeInv(u, n) && SigningSound(u.crypto) && NoneCompletes(u, n, events)
    ensures History(u, n, events).epoch == n.epoch <==> FailsEarly(u, n, events)
    ensures Carried(u, n, events) == [] <==> FailsEarly(u, n, events)
  {
    if events != [] {
      var k := |events| - 1;
      var s := History(u, n, events[..k]);
      NonePrefix(u, n, events);
      EpochKeptIff(u, n, events[..k]);
      FailsEarlyLast(u, n, events);
      HistoryKeeps(u, n, events[..k]);
      HappenKeeps(u, s, events[k]);
      MovesIff(u, s, events[k]);
    }
  }

  /** Epoch and base are determined by the proposals carried out: not by when the node acted on them,
      at which commit, with which votes, or what failed in between. */
  lemma {:induction false} NumbersFromCarried(u: Setup, n: Node, events: seq<Event>)
    requires NodeInv(u, n) && SigningSound(u.crypto)
    ensures var t, ks := History(u, n, events), Carried(u, n, events);
            t.epoch == LastEpoch(n.epoch, ks) && t.base == n.base + SumOfTransitions(ks)
  {
    if events != [] {
      var k := |events| - 1;
      NumbersFromCarried(u, n, events[..k]);
      HistoryKeeps(u, n, events[..k]);
      EpochMoves(u, History(u, n, events[..k]), events[k]);
      var ks := Carried(u, n, events);
      assert ks != Carried(u, n, events[..k]) ==> ks[..|ks| - 1] == Carried(u, n, events[..k]);
    }
  }

  /** Fork safety of the numbers: two nodes that start alike and carry out the same proposals, however
      differently everything else goes, have the same epoch and the same base. */
  lemma {:induction false} NodesAgree(u: Setup, v: Setup, m: Node, n: Node, left: seq<Event>, right: seq<Event>)
    requires NodeInv(u, m) && SigningSound(u.crypto) && NodeInv(v, n) && SigningSound(v.crypto)
    requires m.epoch == n.epoch && m.base == n.base && Carried(u, m, left) == Carried(v, n, right)
    ensures History(u, m, left).epoch == History(v, n, right).epoch
    ensures History(u, m, left).base == History(v, n, right).base
  {
    NumbersFromCarried(u, m, left);
    NumbersFromCarried(v, n, right);
  }

  // ----- A transition that failed -----

  /** The proposal of the last attempt towards a later epoch, by its hash. */
  function LastTried(u: Setup, n: Node, events: seq<Event>, before: Hash): Hash
  {
    if events == [] then before
    else
      var k := |events| - 1;
      var e := events[k];
      if e.Transit? && e.p.newEpoch > History(u, n, events[..k]).epoch then HashOf(u.crypto, e.p)
      else LastTried(u, n, events[..k], before)
  }

  /** A proposal is marked as tried before its guards are checked, and only a completed transition
      removes the mark. */
  lemma FailureMarks(u: Setup, n: Node, p: Proposal, commit: nat, now: nat, fault: Fault)
    ensures var (outcome, t) := Transition(u.crypto, u.hash, n, p, commit, now, fault);
            && (outcome.Done? ==> t.lastHash.None?)
            && (outcome.Failed? ==> t.lastHash == Some(HashOf(u.crypto, p)))
            && (outcome.Done? <==> n.lastHash != Some(HashOf(u.crypto, p)) &&
                                   GuardsPass(u.crypto, n, p, commit, now) && fault.NoFault?)
  {
  }

  lemma MarkStep(u: Setup, n: Node, e: Event)
    requires n.lastHash.Some? && !Completes(u, n, e)
    ensures Happen(u, n, e).lastHash ==
            if e.Transit? && e.p.newEpoch > n.epoch then Some(HashOf(u.crypto, e.p)) else n.lastHash
  {
  }

  lemma {:induction false} MarkIsLastTried(u: Setup, n: Node, events: seq<Event>, h: Hash)
    requires n.lastHash == Some(h) && NoneCompletes(u, n, events)
    ensures History(u, n, events).lastHash == Some(LastTried(u, n, events, h))
  {
    if events != [] {
      var k := |events| - 1;
      NonePrefix(u, n, events);
      MarkIsLastTried(u, n, events[..k], h);
      assert !Completes(u, History(u, n, events[..k]), events[k]);
      MarkStep(u, History(u, n, events[..k]), events[k]);
    }
  }

  /** So after a failed transition every transaction is refused until a transition completes, through any
      further attempts; and an attempt on a proposal reports success without doing anything if and only
      if the last attempt was on a proposal with its hash. */
  lemma {:induction false} FailedTransitionBlocks(u: Setup, n: Node, p: Proposal, commit: nat, now: nat, fault: Fault,
                               events: seq<Event>, listing: seq<Proposal>,
                               q: Proposal, commit': nat, now': nat, fault': Fault)
    requires Transition(u.crypto, u.hash, n, p, commit, now, fault).0.Failed?
    requires NoneCompletes(u, Transition(u.crypto, u.hash, n, p, commit, now, fault).1, events)
    ensures var failed := Transition(u.crypto, u.hash, n, p, commit, now, fault).1;
            var t := History(u, failed, events);
            && Acceptance(u.crypto, t, listing).0.Reject?
            && (Transition(u.crypto, u.hash, t, q, commit', now', fault') == (AlreadyTried, t) <==>
                HashOf(u.crypto, q) == LastTried(u, failed, events, HashOf(u.crypto, p)))
  {
    var failed := Transition(u.crypto, u.hash, n, p, commit, now, fault).1;
    FailureMarks(u, n, p, commit, now, fault);
    MarkIsLastTried(u, failed, events, HashOf(u.crypto, p));
  }

  /** A retry can complete: the attempt on p fails on a busy lock, and so does one on another proposal
      after it; then p, which did nothing when retried at once, goes through. */
  lemma {:induction false} RetryAfterOther(u: Setup, n: Node, p: Proposal, q: Proposal)
    requires n.lastHash.None? && p.newEpoch > n.epoch + 2 && q.newEpoch > n.epoch
    requires HashOf(u.crypto, p) != HashOf(u.crypto, q)
    ensures var commit := TransitionCommit(p);
            var one := [Transit(p, commit, 0, LockBusy)];
            var two := one + [Transit(q, commit, 0, LockBusy)];
            && Transition(u.crypto, u.hash, History(u, n, one), p, commit, 0, NoFault) ==
               (AlreadyTried, History(u, n, one))
            && NoneCompletes(u, n, two)
            && Transition(u.crypto, u.hash, History(u, n, two), p, commit, 0, NoFault).0.Done?
  {
    var commit := TransitionCommit(p);
    var first, second := Transit(p, commit, 0, LockBusy), Transit(q, commit, 0, LockBusy);
    var two := [first, second];
    assert two[..0] == [] && two[..1] == [first] && [first][..0] == [];
    assert History(u, n, [first]) == Happen(u, n, first);
    assert History(u, n, two) == Happen(u, Happen(u, n, first), second);
  }

  // ----- The queue of a node -----

  lemma QueueStep(u: Setup, n: Node, e: Event)
    requires !Completes(u, n, e)
    ensures n.queue <= Happen(u, n, e).queue && Happen(u, n, e).submitted == n.submitted
  {
  }

  lemma {:induction false} QueueKept(u: Setup, n: Node, events: seq<Event>)
    requires NoneCompletes(u, n, events)
    ensures n.queue <= History(u, n, events).queue && History(u, n, events).submitted == n.submitted
  {
    if events != [] {
      var k := |events| - 1;
      NonePrefix(u, n, events);
      QueueKept(u, n, events[..k]);
      QueueStep(u, History(u, n, events[..k]), events[k]);
    }
  }

  /** A transaction queued at any time is handed to consensus by the next completed transition, whatever
      attempts failed before it, in the form of the earliest queued transaction with its hash. */
  lemma {:induction false} QueuedIsReplayed(u: Setup, n: Node, tx: Tx, events: seq<Event>,
                                           p: Proposal, commit: nat, now: nat)
    requires tx in n.queue && NoneCompletes(u, n, events)
    requires var t := History(u, n, events); Transition(u.crypto, u.hash, t, p, commit, now, NoFault).0.Done?
    ensures var t := History(u, n, events);
            var after := Transition(u.crypto, u.hash, t, p, commit, now, NoFault).1;
            exists x :: x in after.submitted && u.hash(x) == u.hash(tx) && CanonicalOrder.Earliest(u.hash, t.queue, x)
  {
    var t := History(u, n, events);
    QueueKept(u, n, events);
    var k := u.hash(tx);
    CanonicalOrder.WithHashMember(u.hash, k, t.queue, tx);
    var x := CanonicalOrder.WithHash(u.hash, k, t.queue)[0];
    CanonicalOrder.WithHashMember(u.hash, k, t.queue, x);
    CanonicalOrder.QueueCorrect(u.hash, t.queue);
    assert CanonicalOrder.Earliest(u.hash, t.queue, x);
  }
}
