/** The consensus node: acceptance of transactions around an epoch change, and the change itself. */
module ConsensusNodes {
  import opened Types
  import opened GlobalIndex
  import opened EpochVoting
  import opened EpochManager
  import CanonicalOrder

  datatype Verdict = Accept | Reject | Enqueue

  /** The node's own fields, the transactions it has handed to consensus, and its manager. */
  datatype Node = Node(
    running: bool, epoch: nat, base: nat, lastHash: Option<Hash>, barrier: nat, commitIndex: nat,
    queue: seq<Tx>, submitted: seq<Tx>, manager: Manager)

  // ----- Acceptance -----

  /** A next-epoch proposal that has quorum and is committed: it starts the barrier phase. */
  predicate Settled(c: Crypto, n: Node, p: Proposal)
  {
    p.newEpoch == n.epoch + 1 && Approved(c, n.manager, p) && n.commitIndex >= p.commitIndex
  }

  function FirstSettled(c: Crypto, n: Node, listing: seq<Proposal>): (r: Option<Proposal>)
    ensures r.Some? ==> r.value in listing && Settled(c, n, r.value)
    ensures r.None? ==> forall p :: p in listing ==> !Settled(c, n, p)
  {
    if listing == [] then None
    else if Settled(c, n, listing[0]) then Some(listing[0])
    else FirstSettled(c, n, listing[1..])
  }

  /** The verdict on a transaction, and the barrier it leaves behind. */
  function Acceptance(c: Crypto, n: Node, listing: seq<Proposal>): (Verdict, nat)
  {
    if !n.running then (Reject, n.barrier)
    else if exists p :: p in listing && p.newEpoch > n.epoch + 1 then (Reject, n.barrier)
    else if n.lastHash.Some? then (Reject, n.barrier)
    else if n.barrier > 0 then (Enqueue, n.barrier)
    else
      match FirstSettled(c, n, listing)
      case Some(p) => (Enqueue, TransitionCommit(p))
      case None => (Accept, n.barrier)
  }

  // ----- Transition -----

  /** What can go wrong on the way: the reconfiguration lock is held, reading from the executor is
      off or yields no usable committee, the new epoch's directory cannot be made. */
  datatype Fault = NoFault | LockBusy | NoCommittee | StorageFails

  datatype Outcome = Done | AlreadyTried | Failed

  /** The guards of `transition_to_epoch`. */
  predicate GuardsPass(c: Crypto, n: Node, p: Proposal, commit: nat, now: nat)
  {
    var barrier := commit >= TransitionCommit(p);
    var quorum := Approved(c, n.manager, p);
    var timeout := SaturatingSub(now, p.createdAt) >= TIMEOUT_SECONDS;
    var catchup := SaturatingSub(p.newEpoch, n.epoch) > MAX_EPOCH_LAG;
    (barrier || (timeout && quorum && !barrier)) && (quorum || catchup)
  }

  /** The node with the new epoch's numbers: the base is the global index of the last commit of the
      old epoch, and the manager starts over. */
  function NewEpoch(c: Crypto, n: Node, p: Proposal): Node
  {
    n.(epoch := p.newEpoch,
       base := GlobalExecIndex(n.epoch, TransitionCommit(p), n.base),
       manager := Apply(c, n.manager, Reset(p.newEpoch, p.timestampMs)),
       commitIndex := 0)
  }

  function Transition(c: Crypto, hash: Tx -> CanonicalOrder.Hash, n: Node, p: Proposal,
                      commit: nat, now: nat, fault: Fault): (Outcome, Node)
  {
    var h := HashOf(c, p);
    if n.lastHash == Some(h) then (AlreadyTried, n)
    else
      var marked := n.(lastHash := Some(h));
      if !GuardsPass(c, n, p, commit, now) || fault.LockBusy? then (Failed, marked)
      else
        var barred := marked.(barrier := TransitionCommit(p));
        if fault.NoCommittee? then (Failed, barred)
        else
          var moved := NewEpoch(c, barred, p).(running := false);
          if fault.StorageFails? then (Failed, moved)
          else
            (Done, moved.(barrier := 0, running := true, lastHash := None, queue := [],
                          submitted := n.submitted + CanonicalOrder.Canonical(hash, n.queue)))
  }

  // ----- The node itself -----

  class ConsensusNode {
    const hash: Tx -> CanonicalOrder.Hash
    const manager: EpochChangeManager
    var running: bool
    var currentEpoch: nat
    var lastGlobalExecIndex: nat
    var lastTransitionHash: Option<Hash>
    var transitionBarrier: nat
    var currentCommitIndex: nat
    var pendingTransactions: seq<Tx>
    var submitted: seq<Tx>

    ghost function View(): Node
      reads this, manager
    {
      Node(running, currentEpoch, lastGlobalExecIndex, lastTransitionHash, transitionBarrier,
           currentCommitIndex, pendingTransactions, submitted, manager.View())
    }

    /** A node at startup: in the epoch of its manager, with base 0 and no barrier. */
    constructor (hash: Tx -> CanonicalOrder.Hash, manager: EpochChangeManager)
      ensures this.hash == hash && this.manager == manager
      ensures View() == Node(true, manager.currentEpoch, 0, None, 0, 0, [], [], manager.View())
    {
      this.hash, this.manager := hash, manager;
      running, currentEpoch, lastGlobalExecIndex, lastTransitionHash := true, manager.currentEpoch, 0, None;
      transitionBarrier, currentCommitIndex, pendingTransactions, submitted := 0, 0, [], [];
    }

    /** The loop over the next-epoch proposals. */
    method FindSettled(listing: seq<Proposal>) returns (r: Option<Proposal>)
      requires Inv(manager.crypto, manager.View())
      ensures r == FirstSettled(manager.crypto, View(), listing)
    {
      for i := 0 to |listing|
        invariant FirstSettled(manager.crypto, View(), listing) == FirstSettled(manager.crypto, View(), listing[i..])
      {
        var p := listing[i];
        assert listing[i..][1..] == listing[i + 1..];
        if p.newEpoch == currentEpoch + 1 {
          var status := manager.CheckProposalQuorum(p);
          if status == Some(true) && currentCommitIndex >= p.commitIndex { return Some(p); }
        }
      }
      return None;
    }

    /** `listing` is the order in which the map of pending proposals yields its values. */
    method CheckTransactionAcceptance(listing: seq<Proposal>) returns (verdict: Verdict)
      requires Inv(manager.crypto, manager.View())
      modifies this`transitionBarrier
      ensures (verdict, transitionBarrier) == Acceptance(manager.crypto, old(View()), listing)
    {
      if !running { return Reject; }
      for i := 0 to |listing|
        invariant forall j :: 0 <= j < i ==> listing[j].newEpoch <= currentEpoch + 1
      {
        if listing[i].newEpoch > currentEpoch + 1 { return Reject; }
      }
      if lastTransitionHash.Some? { return Reject; }
      if transitionBarrier > 0 { return Enqueue; }
      var settled := FindSettled(listing);
      if settled.None? { return Accept; }
      transitionBarrier := TransitionCommit(settled.value);
      return Enqueue;
    }

    method QueueTransaction(tx: Tx)
      modifies this`pendingTransactions
      ensures pendingTransactions == old(pendingTransactions) + [tx]
    {
      pendingTransactions := pendingTransactions + [tx];
    }

    /** Replay the queue in canonical order; a failed submission is only logged, so the queue is
        empty afterwards either way. */
    method SubmitQueuedTransactions() returns (count: nat)
      modifies this`pendingTransactions, this`submitted
      ensures pendingTransactions == []
      ensures submitted == old(submitted) + CanonicalOrder.Canonical(hash, old(pendingTransactions))
      ensures count == |CanonicalOrder.Canonical(hash, old(pendingTransactions))|
    {
      if pendingTransactions == [] { return 0; }
      var transactions := CanonicalOrder.Canonical(hash, pendingTransactions);
      pendingTransactions := [];
      for i := 0 to |transactions|
        invariant pendingTransactions == [] && submitted == old(submitted) + transactions[..i]
      {
        submitted := submitted + [transactions[i]];
      }
      assert transactions[..|transactions|] == transactions;
      return |transactions|;
    }

    method TransitionGuards(p: Proposal, commit: nat, now: nat) returns (ok: bool)
      requires Inv(manager.crypto, manager.View())
      ensures ok == GuardsPass(manager.crypto, View(), p, commit, now)
    {
      var barrierReached := commit >= TransitionCommit(p);
      var status := manager.CheckProposalQuorum(p);
      var quorum := status == Some(true);
      var timeout := SaturatingSub(now, p.createdAt) >= TIMEOUT_SECONDS;
      var exception := timeout && quorum && !barrierReached;
      if !barrierReached && !exception { return false; }
      var catchup := SaturatingSub(p.newEpoch, currentEpoch) > MAX_EPOCH_LAG;
      return quorum || catchup;
    }

    /** The new epoch's numbers, while nothing runs. */
    method EnterEpoch(p: Proposal, newBase: nat)
      modifies this`running, this`currentEpoch, this`lastGlobalExecIndex, this`currentCommitIndex, manager
      ensures newBase == GlobalExecIndex(old(currentEpoch), TransitionCommit(p), old(lastGlobalExecIndex)) ==>
                View() == NewEpoch(manager.crypto, old(View()), p).(running := false)
      ensures !running && currentCommitIndex == 0 && lastGlobalExecIndex == newBase
      ensures currentEpoch == manager.currentEpoch == p.newEpoch && manager.epochStartMs == p.timestampMs
      ensures manager.pending == map[] && manager.votes == map[] && manager.seen == {} && manager.history == []
    {
      running := false;
      currentEpoch := p.newEpoch;
      lastGlobalExecIndex := newBase;
      manager.ResetForNewEpoch(p.newEpoch, p.timestampMs);
      currentCommitIndex := 0;
    }

    /** The epoch change, field by field; each return leaves what was written so far. */
    method TransitionToEpoch(p: Proposal, commit: nat, now: nat, fault: Fault) returns (outcome: Outcome)
      requires Inv(manager.crypto, manager.View())
      modifies this, manager
      ensures (outcome, View()) == Transition(manager.crypto, hash, old(View()), p, commit, now, fault)
      ensures outcome.Done? ==> running && lastTransitionHash.None? && transitionBarrier == 0 && currentCommitIndex == 0
    {
      var h := HashOf(manager.crypto, p);
      if lastTransitionHash == Some(h) { return AlreadyTried; }
      lastTransitionHash := Some(h);
      var ok := TransitionGuards(p, commit, now);
      if !ok || fault.LockBusy? { return Failed; }
      var last := TransitionCommit(p);
      transitionBarrier := last;
      var newBase := GlobalExecIndex(currentEpoch, last, lastGlobalExecIndex);
      if fault.NoCommittee? { return Failed; }
      EnterEpoch(p, newBase);
      if fault.StorageFails? { return Failed; }
      transitionBarrier := 0;
      running := true;
      var _ := SubmitQueuedTransactions();
      lastTransitionHash := None;
      return Done;
    }
  }
}
