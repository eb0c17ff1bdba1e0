/** The epoch change manager as an object that updates its maps in place, and the hook that feeds it
    with what arrives in blocks. */
module EpochManager {
  import opened Types
  import opened Quorum
  import opened EpochVoting

  class EpochChangeManager {
    const crypto: Crypto
    const committee: Committee
    var currentEpoch: nat
    var epochStartMs: nat
    var pending: map<Hash, Proposal>
    var votes: map<Hash, map<nat, Vote>>
    var seen: set<Hash>
    var history: seq<Proposal>

    ghost function View(): Manager
      reads this
    {
      Manager(currentEpoch, committee, epochStartMs, pending, votes, seen, history)
    }

    constructor (crypto: Crypto, epoch: nat, committee: Committee, startMs: nat)
      ensures this.crypto == crypto
      ensures View() == Manager(epoch, committee, startMs, map[], map[], {}, [])
      ensures Inv(crypto, View())
    {
      this.crypto, this.committee := crypto, committee;
      currentEpoch, epochStartMs := epoch, startMs;
      pending, votes, seen, history := map[], map[], {}, [];
    }

    method ResetForNewEpoch(newEpoch: nat, startMs: nat)
      modifies this
      ensures View() == Apply(crypto, old(View()), Reset(newEpoch, startMs))
    {
      currentEpoch, epochStartMs := newEpoch, startMs;
      pending, votes, seen, history := map[], map[], {}, [];
    }

    method Remember(h: Hash, p: Proposal)
      requires h == HashOf(crypto, p)
      modifies this`pending, this`seen, this`history
      ensures View() == Store(crypto, old(View()), p)
    {
      pending := pending[h := p];
      seen := seen + {h};
      history := history + [p];
    }

    /** Propose a change to a given later epoch; refused when the epoch is not later or the proposal
        has been seen. */
    method ProposeToTargetEpoch(p: Proposal) returns (ok: bool)
      modifies this
      ensures View() == Apply(crypto, old(View()), Propose(p))
      ensures ok <==> p.newEpoch > old(currentEpoch) && HashOf(crypto, p) !in old(seen)
    {
      if p.newEpoch <= currentEpoch { return false; }
      var h := HashOf(crypto, p);
      if h in seen { return false; }
      Remember(h, p);
      return true;
    }

    /** Propose a change to the next epoch. */
    method ProposeEpochChange(timestampMs: nat, commitIndex: nat, proposer: nat, signature: Signature, now: nat)
      returns (r: Option<Proposal>)
      modifies this
      ensures var p := Proposal(old(currentEpoch) + 1, timestampMs, commitIndex, proposer, signature, now);
              && View() == Apply(crypto, old(View()), Propose(p))
              && r == if HashOf(crypto, p) in old(seen) then None else Some(p)
    {
      var p := Proposal(currentEpoch + 1, timestampMs, commitIndex, proposer, signature, now);
      var ok := ProposeToTargetEpoch(p);
      return if ok then Some(p) else None;
    }

    method ValidateProposal(p: Proposal, nowMs: nat) returns (ok: bool)
      modifies this`epochStartMs
      ensures Check(ok, epochStartMs) == Validate(crypto, old(View()), p, nowMs)
    {
      if p.newEpoch != currentEpoch + 1 { return false; }
      var diff: int := nowMs - p.timestampMs;
      if diff > MAX_PAST_MS {
        epochStartMs := p.timestampMs;
        if nowMs - epochStartMs < -MAX_FUTURE_MS { return false; }
      } else if !(diff <= MAX_PAST_MS && diff >= -MAX_FUTURE_MS) {
        return false;
      }
      if !committee.ValidIndex(p.proposer) { return false; }
      return crypto.proposalOk(p);
    }

    method ProcessProposal(p: Proposal, nowMs: nat) returns (ok: bool)
      modifies this
      ensures View() == Apply(crypto, old(View()), Process(p, nowMs))
      ensures ok <==> HashOf(crypto, p) in pending
    {
      var h := HashOf(crypto, p);
      if h in pending { return true; }
      ok := ValidateProposal(p, nowMs);
      if !ok { return; }
      Remember(h, p);
    }

    method PutVote(v: Vote)
      modifies this`votes
      ensures View() == StoreVote(old(View()), v)
    {
      var sofar := if v.proposalHash in votes then votes[v.proposalHash] else map[];
      votes := votes[v.proposalHash := sofar[v.voter := v]];
    }

    method VoteOnProposal(p: Proposal, voter: nat, nowMs: nat) returns (r: Option<Vote>)
      requires committee.ValidIndex(voter)
      modifies this
      ensures View() == Apply(crypto, old(View()), CastVote(p, voter, nowMs))
      ensures r.Some? <==> Validate(crypto, old(View()), p, nowMs).ok
      ensures r.Some? ==> r.value.approve && r.value.voter == voter && r.value.proposalHash == HashOf(crypto, p)
    {
      var ok := ValidateProposal(p, nowMs);
      if !ok { return None; }
      var h := HashOf(crypto, p);
      var v := Vote(h, voter, true, crypto.signVote(h, true, voter, committee.stakes[voter]));
      PutVote(v);
      return Some(v);
    }

    method ProcessVote(v: Vote) returns (ok: bool)
      modifies this
      ensures View() == Apply(crypto, old(View()), Intake(v))
      ensures ok == ValidVote(crypto, old(View()), v)
    {
      if v.proposalHash !in pending { return false; }
      if !committee.ValidIndex(v.voter) { return false; }
      if !crypto.voteOk(v, committee.stakes[v.voter]) { return false; }
      PutVote(v);
      return true;
    }

    /** Sum the stake of each side over the stored votes, in whatever order the map yields them. */
    method CheckProposalQuorum(p: Proposal) returns (r: Option<bool>)
      requires Inv(crypto, View())
      ensures r == QuorumStatus(crypto, View(), p)
      ensures forall f :: Tolerates(committee.stakes, f) ==>
                && (r == Some(true) <==> Reached(View(), f, HashOf(crypto, p), true))
                && (r == Some(false) <==> Reached(View(), f, HashOf(crypto, p), false))
    {
      forall f | Tolerates(committee.stakes, f)
        ensures QuorumStatus(crypto, View(), p) == Some(true) <==> Reached(View(), f, HashOf(crypto, p), true)
        ensures QuorumStatus(crypto, View(), p) == Some(false) <==> Reached(View(), f, HashOf(crypto, p), false)
      {
        StatusIff(crypto, View(), f, p);
      }
      var h := HashOf(crypto, p);
      if h !in votes { return None; }
      var cast := votes[h];
      var approve, reject := 0, 0;
      var left, counted := cast.Keys, {};
      StakeNone(committee.stakes);
      assert counted * Side(cast, true) == {} && counted * Side(cast, false) == {};
      while left != {}
        invariant left + counted == cast.Keys && left !! counted
        invariant approve == StakeOf(committee.stakes, counted * Side(cast, true))
        invariant reject == StakeOf(committee.stakes, counted * Side(cast, false))
        decreases left
      {
        var i :| i in left;
        var v := cast[i];
        assert WellPlaced(crypto, View(), h, i);
        var stake := if committee.ValidIndex(v.voter) then committee.stakes[v.voter] else 0;
        StakeAdd(committee.stakes, counted * Side(cast, v.approve), i);
        assert (counted + {i}) * Side(cast, v.approve) == counted * Side(cast, v.approve) + {i};
        assert (counted + {i}) * Side(cast, !v.approve) == counted * Side(cast, !v.approve);
        if v.approve { approve := approve + stake; } else { reject := reject + stake; }
        left, counted := left - {i}, counted + {i};
      }
      assert counted * Side(cast, true) == Side(cast, true);
      assert counted * Side(cast, false) == Side(cast, false);
      var threshold := committee.QuorumThreshold();
      if approve >= threshold { return Some(true); }
      if reject >= threshold { return Some(false); }
      return None;
    }

    method ShouldTransitionNow(p: Proposal, commit: nat, now: nat) returns (ready: bool)
      requires Inv(crypto, View())
      ensures ready == ShouldTransition(crypto, View(), p, commit, now)
    {
      var status := CheckProposalQuorum(p);
      var quorum := status.Some? && status.value;
      var catchup := SaturatingSub(p.newEpoch, currentEpoch) > MAX_EPOCH_LAG;
      if !quorum && !catchup { return false; }
      var barrier := commit >= TransitionCommit(p);
      var timeout := SaturatingSub(now, p.createdAt) >= TIMEOUT_SECONDS;
      return barrier || (timeout && quorum) || (catchup && barrier);
    }

    /** A pending proposal that is ready, one for the next epoch if there is such; `listing` is the
        order in which the map yields its values. */
    method GetTransitionReadyProposal(listing: seq<Proposal>, commit: nat, now: nat) returns (r: Option<Proposal>)
      requires Inv(crypto, View()) && Lists(listing, View())
      ensures r.Some? ==> r.value in pending.Values && ShouldTransition(crypto, View(), r.value, commit, now)
      ensures r.None? ==> forall p :: p in pending.Values ==> !ShouldTransition(crypto, View(), p, commit, now)
      ensures r.Some? && r.value.newEpoch != currentEpoch + 1 ==>
                forall p :: p in pending.Values && p.newEpoch == currentEpoch + 1 ==>
                  !ShouldTransition(crypto, View(), p, commit, now)
    {
      for i := 0 to |listing|
        invariant forall j :: 0 <= j < i && listing[j].newEpoch == currentEpoch + 1 ==>
                    !ShouldTransition(crypto, View(), listing[j], commit, now)
      {
        if listing[i].newEpoch == currentEpoch + 1 {
          var ready := ShouldTransitionNow(listing[i], commit, now);
          if ready { return Some(listing[i]); }
        }
      }
      for i := 0 to |listing|
        invariant forall j :: 0 <= j < i ==> !ShouldTransition(crypto, View(), listing[j], commit, now)
      {
        var ready := ShouldTransitionNow(listing[i], commit, now);
        if ready { return Some(listing[i]); }
      }
      return None;
    }

    /** Drop proposals older than ten minutes together with their votes, then look for one that
        targets the epoch.  After the sweep none is old enough for the clearing of stuck epochs, which
        needs an age above one hour, so that clearing never happens. */
    method HasPendingProposalForEpoch(epoch: nat, now: nat) returns (has: bool)
      modifies this
      ensures View() == Apply(crypto, old(View()), Sweep(now))
      ensures has <==> exists h :: h in pending && pending[h].newEpoch == epoch
      ensures forall h :: h in pending ==> SaturatingSub(now, pending[h].createdAt) <= STALE_SECONDS
    {
      ghost var before := View();
      var stale := set h | h in pending && Stale(pending[h], now);
      var left := stale;
      while left != {}
        invariant left <= stale
        invariant pending == before.pending - (stale - left) && votes == before.votes - (stale - left)
        invariant View() == before.(pending := pending, votes := votes)
        decreases left
      {
        var h :| h in left;
        pending := pending - {h};
        votes := votes - {h};
        left := left - {h};
        assert stale - left == (stale - left - {h}) + {h};
      }
      has := exists h :: h in pending && pending[h].newEpoch == epoch;
    }

    /** Every vote on every pending proposal, quorum or not. */
    method PendingVotesToBroadcast() returns (out: seq<Vote>)
      requires Inv(crypto, View())
      ensures IsBroadcast(View(), out)
    {
      out := [];
      var left := pending.Keys;
      while left != {}
        invariant left <= pending.Keys
        invariant forall v :: v in out <==> StoredUnder(View(), pending.Keys - left, v)
        decreases left
      {
        var h :| h in left;
        assert HashOf(crypto, pending[h]) == h;
        var more := VotesUnder(h);
        ghost var done := pending.Keys - left;
        forall v ensures v in out + more <==> StoredUnder(View(), done + {h}, v) {
          StoredUnderOneMore(View(), done, h, v);
        }
        out := out + more;
        left := left - {h};
        assert pending.Keys - left == done + {h};
      }
    }

    method VotesUnder(h: Hash) returns (out: seq<Vote>)
      ensures forall v :: v in out <==> exists i :: StoredAt(View(), h, i, v)
    {
      out := [];
      if h !in votes { return; }
      var left := votes[h].Keys;
      while left != {}
        invariant left <= votes[h].Keys
        invariant forall v :: v in out <==> exists i :: i !in left && StoredAt(View(), h, i, v)
        decreases left
      {
        var i :| i in left;
        out := out + [votes[h][i]];
        left := left - {i};
      }
    }
  }

  /** The sequence lists the pending proposals. */
  ghost predicate Lists(listing: seq<Proposal>, s: Manager)
  {
    forall p :: p in listing <==> p in s.pending.Values
  }

  /** The vote is stored for that proposal hash and voter. */
  ghost predicate StoredAt(s: Manager, h: Hash, i: nat, v: Vote)
  {
    h in s.votes && i in s.votes[h] && s.votes[h][i] == v
  }

  ghost predicate StoredUnder(s: Manager, hashes: set<Hash>, v: Vote)
  {
    exists h, i :: h in hashes && StoredAt(s, h, i, v)
  }

  lemma StoredUnderOneMore(s: Manager, hashes: set<Hash>, h: Hash, v: Vote)
    ensures StoredUnder(s, hashes + {h}, v) <==> StoredUnder(s, hashes, v) || exists i :: StoredAt(s, h, i, v)
  {
  }

  /** The sequence holds exactly the votes stored for pending proposals, in any order. */
  ghost predicate IsBroadcast(s: Manager, out: seq<Vote>)
  {
    forall v :: v in out <==> StoredUnder(s, s.pending.Keys, v)
  }

  // ----- The hook -----

  /** Intake of the decodable votes of a block, in order. */
  function IntakeAll(c: Crypto, s: Manager, votes: seq<Vote>): Manager
  {
    if votes == [] then s
    else Apply(c, IntakeAll(c, s, votes[..|votes| - 1]), Intake(votes[|votes| - 1]))
  }

  /** Intake of a proposal for the next epoch, with an own vote unless one is stored already. */
  function IntakeProposal(c: Crypto, s: Manager, own: nat, p: Proposal, nowMs: nat): Manager
  {
    if p.newEpoch != s.epoch + 1 then s
    else
      var t := Apply(c, s, Process(p, nowMs));
      if HashOf(c, p) in t.pending && own !in VotesFor(t, HashOf(c, p)) then Apply(c, t, CastVote(p, own, nowMs))
      else t
  }

  class EpochChangeHook {
    const manager: EpochChangeManager
    const ownIndex: nat

    constructor (manager: EpochChangeManager, ownIndex: nat)
      ensures this.manager == manager && this.ownIndex == ownIndex
    {
      this.manager, this.ownIndex := manager, ownIndex;
    }

    /** The proposal of a block: intake, and an own vote unless one is stored. */
    method TakeProposal(p: Proposal, nowMs: nat)
      requires manager.committee.ValidIndex(ownIndex)
      modifies manager
      ensures manager.View() == IntakeProposal(manager.crypto, old(manager.View()), ownIndex, p, nowMs)
    {
      if p.newEpoch != manager.currentEpoch + 1 { return; }
      var h := HashOf(manager.crypto, p);
      var ok := manager.ProcessProposal(p, nowMs);
      if ok {
        var voted := h in manager.votes && ownIndex in manager.votes[h];
        if !voted {
          var _ := manager.VoteOnProposal(p, ownIndex, nowMs);
        }
      }
    }

    /** `process_block_epoch_change`: what a received block carries, undecodable parts being None. */
    method ProcessBlockEpochChange(proposal: Option<Proposal>, votes: seq<Option<Vote>>, nowMs: nat)
      requires manager.committee.ValidIndex(ownIndex)
      modifies manager
      ensures var s := old(manager.View());
              var t := if proposal.Some? then IntakeProposal(manager.crypto, s, ownIndex, proposal.value, nowMs) else s;
              manager.View() == IntakeAll(manager.crypto, t, Decoded(votes))
    {
      if proposal.Some? {
        TakeProposal(proposal.value, nowMs);
      }
      ghost var t := manager.View();
      for i := 0 to |votes|
        invariant manager.View() == IntakeAll(manager.crypto, t, Decoded(votes[..i]))
      {
        OneVoteMore(manager.crypto, t, votes, i);
        if votes[i].Some? {
          var v := votes[i].value;
          if v.proposalHash in manager.pending {
            var _ := manager.ProcessVote(v);
          }
        }
      }
      assert votes[..|votes|] == votes;
    }
  }

  function Decoded(votes: seq<Option<Vote>>): seq<Vote>
  {
    if votes == [] then []
    else
      var last := votes[|votes| - 1];
      Decoded(votes[..|votes| - 1]) + if last.Some? then [last.value] else []
  }

  /** The intake of one more vote of a block. */
  lemma {:induction false} OneVoteMore(c: Crypto, t: Manager, votes: seq<Option<Vote>>, i: nat)
    requires i < |votes|
    ensures var s := IntakeAll(c, t, Decoded(votes[..i]));
            IntakeAll(c, t, Decoded(votes[..i + 1])) ==
            if votes[i].Some? then Apply(c, s, Intake(votes[i].value)) else s
  {
    var before := Decoded(votes[..i]);
    assert votes[..i + 1][..i] == votes[..i];
    if votes[i].Some? {
      var all := before + [votes[i].value];
      assert Decoded(votes[..i + 1]) == all && all[..|all| - 1] == before;
    } else {
      assert Decoded(votes[..i + 1]) == before;
    }
  }

  /** Decoding a block's votes keeps those that decode, in order, and drops the others. */
  lemma {:induction false} DecodedJoins(a: seq<Option<Vote>>, b: seq<Option<Vote>>)
    ensures Decoded(a + b) == Decoded(a) + Decoded(b)
    ensures |a| == 1 ==> Decoded(a) == if a[0].Some? then [a[0].value] else []
  {
    if |a| == 1 { assert Decoded(a[..0]) == []; }
    if b == [] {
      assert a + b == a;
    } else {
      var n := |b| - 1;
      DecodedJoins(a, b[..n]);
      assert (a + b)[..|a + b| - 1] == a + b[..n];
    }
  }
}
