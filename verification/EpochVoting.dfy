/** Epoch-change proposals and votes: the state of the manager and its operations. */
module EpochVoting {
  import opened Types
  import opened Quorum

  type Hash = seq<Byte>
  type Signature = seq<Byte>

  datatype Proposal = Proposal(newEpoch: nat, timestampMs: nat, commitIndex: nat, proposer: nat,
                               signature: Signature, createdAt: nat)

  datatype Vote = Vote(proposalHash: Hash, voter: nat, approve: bool, signature: Signature)

  /** The fields that identify a proposal; neither its signature nor its age is among them. */
  datatype Key = Key(newEpoch: nat, timestampMs: nat, commitIndex: nat, proposer: nat)

  /** Hashing and signatures.  `voteOk` is the check of a vote against the key of its voter, whose
      stake is part of the signed text. */
  datatype Crypto = Crypto(
    digest: Key -> Hash,
    proposalOk: Proposal -> bool,
    voteOk: (Vote, nat) -> bool,
    signVote: (Hash, bool, nat, nat) -> Signature)

  /** What an authority signs, others accept. */
  ghost predicate SigningSound(c: Crypto)
  {
    forall h, approve, voter, stake ::
      c.voteOk(Vote(h, voter, approve, c.signVote(h, approve, voter, stake)), stake)
  }

  function KeyOf(p: Proposal): Key
  {
    Key(p.newEpoch, p.timestampMs, p.commitIndex, p.proposer)
  }

  function HashOf(c: Crypto, p: Proposal): Hash
  {
    c.digest(KeyOf(p))
  }

  datatype Manager = Manager(
    epoch: nat, committee: Committee, startMs: nat,
    pending: map<Hash, Proposal>, votes: map<Hash, map<nat, Vote>>,
    seen: set<Hash>, history: seq<Proposal>)

  // ----- Validation -----

  const MAX_PAST_MS: int := 300_000
  const MAX_FUTURE_MS: int := 86_400_000

  /** The outcome of validating a proposal, and the epoch start time it leaves behind: a proposal
      older than five minutes overwrites that time before its proposer and signature are checked. */
  datatype Check = Check(ok: bool, startMs: nat)

  predicate CatchingUp(p: Proposal, nowMs: nat)
  {
    nowMs - p.timestampMs > MAX_PAST_MS
  }

  function Validate(c: Crypto, s: Manager, p: Proposal, nowMs: nat): Check
  {
    if p.newEpoch != s.epoch + 1 then Check(false, s.startMs)
    else
      var startMs := if CatchingUp(p, nowMs) then p.timestampMs else s.startMs;
      Check(nowMs - p.timestampMs >= -MAX_FUTURE_MS && s.committee.ValidIndex(p.proposer) && c.proposalOk(p),
            startMs)
  }

  predicate ValidVote(c: Crypto, s: Manager, v: Vote)
  {
    && v.proposalHash in s.pending
    && s.committee.ValidIndex(v.voter)
    && c.voteOk(v, s.committee.stakes[v.voter])
  }

  const STALE_SECONDS: nat := 600

  predicate Stale(p: Proposal, now: nat)
  {
    SaturatingSub(now, p.createdAt) > STALE_SECONDS
  }

  // ----- Operations -----

  datatype Op =
    | Propose(p: Proposal)
    | Process(p: Proposal, nowMs: nat)
    | CastVote(p: Proposal, voter: nat, nowMs: nat)
    | Intake(v: Vote)
    | Sweep(now: nat)
    | Reset(newEpoch: nat, startMs: nat)

  function VotesFor(s: Manager, h: Hash): map<nat, Vote>
  {
    if h in s.votes then s.votes[h] else map[]
  }

  function Store(c: Crypto, s: Manager, p: Proposal): Manager
  {
    var h := HashOf(c, p);
    s.(pending := s.pending[h := p], seen := s.seen + {h}, history := s.history + [p])
  }

  function StoreVote(s: Manager, v: Vote): Manager
  {
    s.(votes := s.votes[v.proposalHash := VotesFor(s, v.proposalHash)[v.voter := v]])
  }

  /** The vote of an own authority on a proposal it has validated: always approval. */
  function OwnVote(c: Crypto, s: Manager, p: Proposal, voter: nat): Vote
    requires s.committee.ValidIndex(voter)
  {
    var h := HashOf(c, p);
    Vote(h, voter, true, c.signVote(h, true, voter, s.committee.stakes[voter]))
  }

  /** The state after an operation; a refused one changes at most the epoch start time. */
  function Apply(c: Crypto, s: Manager, op: Op): Manager
  {
    match op
    case Propose(p) =>
      if p.newEpoch <= s.epoch || HashOf(c, p) in s.seen then s else Store(c, s, p)
    case Process(p, nowMs) =>
      if HashOf(c, p) in s.pending then s
      else
        var check := Validate(c, s, p, nowMs);
        var t := s.(startMs := check.startMs);
        if check.ok then Store(c, t, p) else t
    case CastVote(p, voter, nowMs) =>
      var check := Validate(c, s, p, nowMs);
      var t := s.(startMs := check.startMs);
      if check.ok && s.committee.ValidIndex(voter) then StoreVote(t, OwnVote(c, s, p, voter)) else t
    case Intake(v) =>
      if ValidVote(c, s, v) then StoreVote(s, v) else s
    case Sweep(now) =>
      var stale := set h | h in s.pending && Stale(s.pending[h], now);
      s.(pending := s.pending - stale, votes := s.votes - stale)
    case Reset(newEpoch, startMs) =>
      Manager(newEpoch, s.committee, startMs, map[], map[], {}, [])
  }

  function Run(c: Crypto, s: Manager, ops: seq<Op>): Manager
  {
    if ops == [] then s else Apply(c, Run(c, s, ops[..|ops| - 1]), ops[|ops| - 1])
  }

  // ----- Quorum -----

  /** The voters on one side. */
  function Side(votes: map<nat, Vote>, approve: bool): set<nat>
  {
    set i | i in votes && votes[i].approve == approve
  }

  function Stake(s: Manager, h: Hash, approve: bool): nat
  {
    StakeOf(s.committee.stakes, Side(VotesFor(s, h), approve))
  }

  function QuorumStatus(c: Crypto, s: Manager, p: Proposal): Option<bool>
  {
    var h := HashOf(c, p);
    if h !in s.votes then None
    else if Stake(s, h, true) >= s.committee.QuorumThreshold() then Some(true)
    else if Stake(s, h, false) >= s.committee.QuorumThreshold() then Some(false)
    else None
  }

  predicate Approved(c: Crypto, s: Manager, p: Proposal)
  {
    QuorumStatus(c, s, p) == Some(true)
  }

  // ----- When the manager finds a proposal ready -----

  const BARRIER_OFFSET: nat := 10
  const TIMEOUT_SECONDS: nat := 300
  const MAX_EPOCH_LAG: nat := 2

  /** The commit index at which the epoch ends under this proposal. */
  function TransitionCommit(p: Proposal): (r: nat)
    ensures r >= BARRIER_OFFSET
    ensures p.commitIndex + 10 <= MAX_U32 ==> r == p.commitIndex + 10
    ensures p.commitIndex + 10 >= MAX_U32 ==> r == MAX_U32
  {
    SaturatingAddU32(p.commitIndex, BARRIER_OFFSET)
  }

  /** `should_transition`, with the development bypasses off. */
  predicate ShouldTransition(c: Crypto, s: Manager, p: Proposal, commit: nat, now: nat)
  {
    var quorum := Approved(c, s, p);
    var catchup := SaturatingSub(p.newEpoch, s.epoch) > MAX_EPOCH_LAG;
    var barrier := commit >= TransitionCommit(p);
    var timeout := SaturatingSub(now, p.createdAt) >= TIMEOUT_SECONDS;
    (quorum || catchup) && (barrier || (timeout && quorum) || (catchup && barrier))
  }

  // ----- What every operation keeps -----

  /** Every pending key is its proposal's hash, every vote sits under its own hash and voter and
      verifies, pending is within seen, and pending proposals target later epochs. */
  ghost predicate Inv(c: Crypto, s: Manager)
  {
    && (forall h :: h in s.pending ==> HashOf(c, s.pending[h]) == h)
    && (forall h :: h in s.pending ==> s.pending[h].newEpoch > s.epoch)
    && (forall h :: h in s.pending ==> h in s.seen)
    && (forall h, i :: h in s.votes && i in s.votes[h] ==> WellPlaced(c, s, h, i))
  }

  ghost predicate WellPlaced(c: Crypto, s: Manager, h: Hash, i: nat)
    requires h in s.votes && i in s.votes[h]
  {
    var v := s.votes[h][i];
    && v.proposalHash == h && v.voter == i
    && s.committee.ValidIndex(i) && c.voteOk(v, s.committee.stakes[i])
  }

  lemma StoreVoteKeeps(c: Crypto, s: Manager, v: Vote)
    requires Inv(c, s) && s.committee.ValidIndex(v.voter) && c.voteOk(v, s.committee.stakes[v.voter])
    ensures Inv(c, StoreVote(s, v))
  {
    var t := StoreVote(s, v);
    forall h, i | h in t.votes && i in t.votes[h] ensures WellPlaced(c, t, h, i) {
      if h != v.proposalHash || i != v.voter {
        assert h in s.votes && i in s.votes[h] && WellPlaced(c, s, h, i);
      }
    }
  }

  lemma StepKeeps(c: Crypto, s: Manager, op: Op)
    requires Inv(c, s) && SigningSound(c)
    ensures Inv(c, Apply(c, s, op))
  {
    var t := Apply(c, s, op);
    if op.CastVote? {
      var check := Validate(c, s, op.p, op.nowMs);
      if check.ok && s.committee.ValidIndex(op.voter) {
        var u := s.(startMs := check.startMs);
        assert Inv(c, u) by { VotesKept(c, s, u); }
        StoreVoteKeeps(c, u, OwnVote(c, s, op.p, op.voter));
      } else {
        VotesKept(c, s, t);
      }
    } else if op.Intake? {
      if ValidVote(c, s, op.v) { StoreVoteKeeps(c, s, op.v); }
    } else {
      VotesKept(c, s, t);
    }
  }

  lemma VotesKept(c: Crypto, s: Manager, t: Manager)
    requires Inv(c, s) && t.committee == s.committee
    requires forall h :: h in t.votes ==> h in s.votes && t.votes[h] == s.votes[h]
    ensures forall h, i :: h in t.votes && i in t.votes[h] ==> WellPlaced(c, t, h, i)
  {
    forall h, i | h in t.votes && i in t.votes[h] ensures WellPlaced(c, t, h, i) {
      assert WellPlaced(c, s, h, i);
    }
  }

  /** The manager invariant holds after every run of its operations, from an empty manager. */
  lemma {:induction false} RunKeeps(c: Crypto, s: Manager, ops: seq<Op>)
    requires Inv(c, s) && SigningSound(c)
    ensures Inv(c, Run(c, s, ops)) && Run(c, s, ops).committee == s.committee
  {
    if ops != [] {
      RunKeeps(c, s, ops[..|ops| - 1]);
      StepKeeps(c, Run(c, s, ops[..|ops| - 1]), ops[|ops| - 1]);
    }
  }

  /** A proposal that is not taken in leaves the manager alone, if and only if it is not a next-epoch
      proposal old enough to move the epoch start time. */
  lemma RefusedUnchangedIff(c: Crypto, s: Manager, p: Proposal, nowMs: nat)
    requires HashOf(c, p) !in s.pending && !Validate(c, s, p, nowMs).ok
    ensures Apply(c, s, Process(p, nowMs)) == s <==>
            !(p.newEpoch == s.epoch + 1 && CatchingUp(p, nowMs) && p.timestampMs != s.startMs)
  {
  }

  /** It does: in every manager a next-epoch proposal from outside the committee, old enough, is refused
      and still becomes the start of the epoch. */
  lemma RefusedButMoved(c: Crypto, s: Manager)
    ensures var p := Proposal(s.epoch + 1, s.startMs + 1, 0, |s.committee.stakes|, [], 0);
            var nowMs := p.timestampMs + MAX_PAST_MS + 1;
            HashOf(c, p) !in s.pending ==>
              && !Validate(c, s, p, nowMs).ok
              && Apply(c, s, Process(p, nowMs)) == s.(startMs := s.startMs + 1)
  {
  }

  // ----- Quorum in terms of stake -----

  /** From the voters of that side at most f of the stake is missing. */
  ghost predicate Reached(s: Manager, f: nat, h: Hash, approve: bool)
  {
    StakeOf(s.committee.stakes, Side(VotesFor(s, h), approve)) + f >= Sum(s.committee.stakes)
  }

  /** A proposal is approved, or rejected, if and only if the stored votes of that side leave out at most f
      of the stake, where f is the largest stake below a third of the total. */
  lemma StatusIff(c: Crypto, s: Manager, f: nat, p: Proposal)
    requires Tolerates(s.committee.stakes, f)
    ensures QuorumStatus(c, s, p) == Some(true) <==> Reached(s, f, HashOf(c, p), true)
    ensures QuorumStatus(c, s, p) == Some(false) <==> Reached(s, f, HashOf(c, p), false)
    ensures !(Reached(s, f, HashOf(c, p), true) && Reached(s, f, HashOf(c, p), false))
  {
    var h := HashOf(c, p);
    QuorumIff(s.committee, f, Side(VotesFor(s, h), true));
    QuorumIff(s.committee, f, Side(VotesFor(s, h), false));
    OneSideOnly(s, f, h);
    StakeNone(s.committee.stakes);
    if h !in s.votes { assert Side(VotesFor(s, h), true) == {} && Side(VotesFor(s, h), false) == {}; }
  }

  /** Approval and rejection never both have quorum, for any committee and any votes. */
  lemma OneSideOnly(s: Manager, f: nat, h: Hash)
    requires Tolerates(s.committee.stakes, f)
    ensures !(Reached(s, f, h, true) && Reached(s, f, h, false))
  {
    NoDisjointQuorums(s.committee.stakes, f, Side(VotesFor(s, h), true), Side(VotesFor(s, h), false));
  }

  /** Two approved proposals, on one node or on two with the same committee, share approving voters
      of stake at least f + 1. */
  lemma ApprovedShareVoters(c: Crypto, s: Manager, t: Manager, f: nat, p: Proposal, q: Proposal)
    requires s.committee == t.committee && Tolerates(s.committee.stakes, f)
    requires Approved(c, s, p) && Approved(c, t, q)
    ensures var common := Side(VotesFor(s, HashOf(c, p)), true) * Side(VotesFor(t, HashOf(c, q)), true);
            StakeOf(s.committee.stakes, common) >= f + 1
  {
    StatusIff(c, s, f, p);
    StatusIff(c, t, f, q);
    QuorumIntersection(s.committee.stakes, f,
                       Side(VotesFor(s, HashOf(c, p)), true), Side(VotesFor(t, HashOf(c, q)), true));
  }

  /** Commit indices have 32 bits. */
  ghost predicate AtBarrier(p: Proposal, commit: nat)
  {
    commit >= p.commitIndex + 10 || (commit >= 0xFFFF_FFFF && p.commitIndex + 10 > 0xFFFF_FFFF)
  }

  /** When a proposal is ready: with approval from commit index + 10 on or 300 seconds after it was made,
      and without approval, if its epoch is more than two ahead, from commit index + 10 on. */
  lemma ReadyIff(c: Crypto, s: Manager, f: nat, p: Proposal, commit: nat, now: nat)
    requires Tolerates(s.committee.stakes, f)
    ensures ShouldTransition(c, s, p, commit, now) <==>
            || (Reached(s, f, HashOf(c, p), true) && (AtBarrier(p, commit) || now >= p.createdAt + 300))
            || (p.newEpoch > s.epoch + 2 && AtBarrier(p, commit))
  {
    StatusIff(c, s, f, p);
  }

  /** Proposals have the same key exactly when they agree in epoch, timestamp, commit index and proposer. */
  lemma SameKeyIff(p: Proposal, q: Proposal)
    ensures KeyOf(p) == KeyOf(q) <==>
            p.newEpoch == q.newEpoch && p.timestampMs == q.timestampMs &&
            p.commitIndex == q.commitIndex && p.proposer == q.proposer
  {
  }

  // ----- Where pending proposals come from -----

  /** The operation takes the proposal in: it is proposed here, for a later epoch, and was not seen before;
      or it arrives, for the next epoch, not more than a day ahead of the clock, from a member of the
      committee and properly signed, and is not pending. */
  ghost predicate TakesIn(c: Crypto, s: Manager, op: Op, p: Proposal)
  {
    match op
    case Propose(q) => p == q && p.newEpoch > s.epoch && HashOf(c, p) !in s.seen
    case Process(q, nowMs) =>
      && p == q && HashOf(c, p) !in s.pending && p.newEpoch == s.epoch + 1
      && p.timestampMs <= nowMs + 86_400_000 && p.proposer < |s.committee.stakes| && c.proposalOk(p)
    case _ => false
  }

  /** The operation drops it: a new epoch, or a sweep more than 600 seconds after it was made. */
  ghost predicate Drops(op: Op, p: Proposal)
  {
    op.Reset? || (op.Sweep? && op.now > p.createdAt + 600)
  }

  ghost predicate IsPending(c: Crypto, s: Manager, p: Proposal)
  {
    HashOf(c, p) in s.pending && s.pending[HashOf(c, p)] == p
  }

  lemma PendingStep(c: Crypto, s: Manager, op: Op, p: Proposal)
    requires Inv(c, s)
    ensures IsPending(c, Apply(c, s, op), p) <==> TakesIn(c, s, op, p) || (IsPending(c, s, p) && !Drops(op, p))
  {
  }

  /** The i-th operation took the proposal in and none after it dropped it. */
  ghost predicate TakenAt(c: Crypto, s: Manager, ops: seq<Op>, p: Proposal, i: nat)
    requires i < |ops|
  {
    TakesIn(c, Run(c, s, ops[..i]), ops[i], p) && forall j :: i < j < |ops| ==> !Drops(ops[j], p)
  }

  ghost predicate Taken(c: Crypto, s: Manager, ops: seq<Op>, p: Proposal)
  {
    exists i :: 0 <= i < |ops| && TakenAt(c, s, ops, p, i)
  }

  lemma {:induction false} TakenLast(c: Crypto, s: Manager, ops: seq<Op>, p: Proposal)
    requires ops != []
    ensures var n := |ops| - 1;
            Taken(c, s, ops, p) <==>
            TakesIn(c, Run(c, s, ops[..n]), ops[n], p) || (Taken(c, s, ops[..n], p) && !Drops(ops[n], p))
  {
    var n := |ops| - 1;
    forall i | 0 <= i < n
      ensures TakenAt(c, s, ops, p, i) <==> TakenAt(c, s, ops[..n], p, i) && !Drops(ops[n], p)
    {
      TakenEarlier(c, s, ops, p, i);
    }
    if Taken(c, s, ops, p) {
      var i :| 0 <= i < |ops| && TakenAt(c, s, ops, p, i);
      if i < n { assert TakenAt(c, s, ops[..n], p, i); }
    }
    if TakesIn(c, Run(c, s, ops[..n]), ops[n], p) { assert TakenAt(c, s, ops, p, n); }
    if Taken(c, s, ops[..n], p) && !Drops(ops[n], p) {
      var i :| 0 <= i < n && TakenAt(c, s, ops[..n], p, i);
      assert TakenAt(c, s, ops, p, i);
    }
  }

  lemma {:induction false} TakenEarlier(c: Crypto, s: Manager, ops: seq<Op>, p: Proposal, i: nat)
    requires i < |ops| - 1
    ensures TakenAt(c, s, ops, p, i) <==> TakenAt(c, s, ops[..|ops| - 1], p, i) && !Drops(ops[|ops| - 1], p)
  {
    var before := ops[..|ops| - 1];
    assert before[..i] == ops[..i] && before[i] == ops[i];
    assert forall j :: i < j < |before| ==> before[j] == ops[j];
    assert TakenAt(c, s, ops, p, i) ==> forall j :: i < j < |before| ==> !Drops(before[j], p);
  }

  /** After every run from an empty manager, a proposal is pending if and only if some operation took it in
      and none after that dropped it. */
  lemma {:induction false} PendingIff(c: Crypto, s: Manager, ops: seq<Op>, p: Proposal)
    requires Inv(c, s) && SigningSound(c) && s.pending == map[]
    ensures IsPending(c, Run(c, s, ops), p) <==> Taken(c, s, ops, p)
  {
    if ops != [] {
      var n := |ops| - 1;
      PendingIff(c, s, ops[..n], p);
      RunKeeps(c, s, ops[..n]);
      PendingStep(c, Run(c, s, ops[..n]), ops[n], p);
      TakenLast(c, s, ops, p);
    }
  }

  /** What else an operation records: whatever is taken in is remembered as seen and in the history, and only
      a new epoch forgets either; epoch and committee change with a new epoch, or never. */
  lemma RecordsStep(c: Crypto, s: Manager, op: Op)
    ensures var t := Apply(c, s, op);
            if op.Reset? then t.seen == {} && t.history == [] && t.epoch == op.newEpoch
            else
              var taken := (op.Propose? || op.Process?) && TakesIn(c, s, op, op.p);
              && t.seen == s.seen + (if taken then {HashOf(c, op.p)} else {})
              && t.history == s.history + (if taken then [op.p] else [])
              && t.epoch == s.epoch
    ensures Apply(c, s, op).committee == s.committee
  {
  }

  // ----- Where stored votes come from -----

  /** The operation stores the vote for that proposal and voter: it arrives, for a pending proposal, from a
      member of the committee and properly signed; or it is the own approval of a proposal for the next
      epoch, not more than a day ahead of the clock, from a member and properly signed. */
  ghost predicate Casts(c: Crypto, s: Manager, op: Op, h: Hash, i: nat, v: Vote)
  {
    var stakes := s.committee.stakes;
    match op
    case Intake(w) =>
      && v == w && v.proposalHash == h && v.voter == i
      && h in s.pending && i < |stakes| && c.voteOk(v, stakes[i])
    case CastVote(p, voter, nowMs) =>
      && HashOf(c, p) == h && voter == i && i < |stakes| && v == Vote(h, i, true, c.signVote(h, true, i, stakes[i]))
      && p.newEpoch == s.epoch + 1 && p.timestampMs <= nowMs + 86_400_000
      && p.proposer < |stakes| && c.proposalOk(p)
    case _ => false
  }

  /** The operation forgets the votes on the proposal: a new epoch, or a sweep that drops it. */
  ghost predicate Forgets(s: Manager, op: Op, h: Hash)
  {
    op.Reset? || (op.Sweep? && h in s.pending && op.now > s.pending[h].createdAt + 600)
  }

  ghost predicate IsStored(s: Manager, h: Hash, i: nat, v: Vote)
  {
    h in s.votes && i in s.votes[h] && s.votes[h][i] == v
  }

  /** A vote is stored after an operation if and only if the operation stored it, or it was stored and the
      operation neither stored another one in its place nor forgot it. */
  lemma VotesStep(c: Crypto, s: Manager, op: Op, h: Hash, i: nat, v: Vote)
    ensures IsStored(Apply(c, s, op), h, i, v) <==>
            || Casts(c, s, op, h, i, v)
            || (IsStored(s, h, i, v) && !Forgets(s, op, h) && !exists w :: Casts(c, s, op, h, i, w))
  {
    if op.CastVote? && op.voter < |s.committee.stakes| {
      assert Validate(c, s, op.p, op.nowMs).ok && HashOf(c, op.p) == h && op.voter == i ==>
               Casts(c, s, op, h, i, OwnVote(c, s, op.p, op.voter));
    }
    if op.Intake? {
      assert ValidVote(c, s, op.v) && op.v.proposalHash == h && op.v.voter == i ==> Casts(c, s, op, h, i, op.v);
    }
  }

  /** The epoch start time is moved by exactly those operations that validate a next-epoch proposal more
      than five minutes old, whether it is then accepted or not, and by a new epoch. */
  lemma StartTimeStep(c: Crypto, s: Manager, op: Op)
    ensures var t := Apply(c, s, op);
            match op
            case Process(p, nowMs) =>
              t.startMs == if HashOf(c, p) !in s.pending && p.newEpoch == s.epoch + 1 && nowMs > p.timestampMs + 300_000
                           then p.timestampMs else s.startMs
            case CastVote(p, _, nowMs) =>
              t.startMs == if p.newEpoch == s.epoch + 1 && nowMs > p.timestampMs + 300_000
                           then p.timestampMs else s.startMs
            case Reset(_, startMs) => t.startMs == startMs
            case _ => t.startMs == s.startMs
  {
  }
}
