/** Votes travelling between nodes: what a tally depends on, and how quorum spreads. */
module Gossip {
  import opened Types
  import opened Quorum
  import opened EpochVoting
  import opened EpochManager

  function Lookup(s: Manager, h: Hash, i: nat): Option<Vote>
  {
    if h in s.votes && i in s.votes[h] then Some(s.votes[h][i]) else None
  }

  predicate Matches(c: Crypto, s: Manager, v: Vote, h: Hash, i: nat)
  {
    ValidVote(c, s, v) && v.proposalHash == h && v.voter == i
  }

  /** The last acceptable vote of a voter on a proposal. */
  function LastVote(c: Crypto, s: Manager, votes: seq<Vote>, h: Hash, i: nat): (r: Option<Vote>)
    ensures r.Some? ==> r.value in votes && Matches(c, s, r.value, h, i)
    ensures r.None? ==> forall v :: v in votes ==> !Matches(c, s, v, h, i)
  {
    if votes == [] then None
    else
      var v := votes[|votes| - 1];
      if Matches(c, s, v, h, i) then Some(v) else LastVote(c, s, votes[..|votes| - 1], h, i)
  }

  /** After any sequence of votes the stored vote of each voter is its last acceptable one, or the
      one stored before when there is none; nothing else has changed. */
  lemma {:induction false} LastVoteWins(c: Crypto, s: Manager, votes: seq<Vote>, h: Hash, i: nat)
    ensures var t := IntakeAll(c, s, votes);
            && t == s.(votes := t.votes)
            && Lookup(t, h, i) ==
               if LastVote(c, s, votes, h, i).Some? then LastVote(c, s, votes, h, i) else Lookup(s, h, i)
  {
    if votes != [] {
      LastVoteWins(c, s, votes[..|votes| - 1], h, i);
    }
  }

  ghost predicate SameVotes(a: seq<Vote>, b: seq<Vote>)
  {
    forall v :: v in a <==> v in b
  }

  /** No voter has two different acceptable votes on one proposal. */
  ghost predicate Consistent(c: Crypto, s: Manager, votes: seq<Vote>)
  {
    forall v, w | v in votes && w in votes && ValidVote(c, s, v) && ValidVote(c, s, w) ::
      v.proposalHash == w.proposalHash && v.voter == w.voter ==> v == w
  }

  ghost predicate SameStored(s: Manager, t: Manager)
  {
    forall h, i: nat :: Lookup(s, h, i) == Lookup(t, h, i)
  }

  /** An acceptable vote that comes once more at the end is the one stored. */
  lemma {:induction false} ReplayedLast(c: Crypto, s: Manager, votes: seq<Vote>, v: Vote)
    requires v in votes && ValidVote(c, s, v)
    ensures SameVotes(votes + [v], votes)
    ensures Lookup(IntakeAll(c, s, votes + [v]), v.proposalHash, v.voter) == Some(v)
  {
    LastVoteWins(c, s, votes + [v], v.proposalHash, v.voter);
    assert LastVote(c, s, votes + [v], v.proposalHash, v.voter) == Some(v);
  }

  /** Votes may be reordered and replayed without any effect on what is stored, if and only if no voter
      has two different acceptable votes on one proposal, be it on both sides or with two signatures on
      one side. */
  lemma {:induction false} OrderIndependentIff(c: Crypto, s: Manager, votes: seq<Vote>)
    ensures (forall other :: SameVotes(other, votes) ==> SameStored(IntakeAll(c, s, other), IntakeAll(c, s, votes)))
            <==> Consistent(c, s, votes)
  {
    if Consistent(c, s, votes) {
      forall other | SameVotes(other, votes) ensures SameStored(IntakeAll(c, s, other), IntakeAll(c, s, votes)) {
        forall h, i: nat ensures Lookup(IntakeAll(c, s, other), h, i) == Lookup(IntakeAll(c, s, votes), h, i) {
          LastVoteWins(c, s, other, h, i);
          LastVoteWins(c, s, votes, h, i);
        }
      }
    } else {
      var v, w :| v in votes && w in votes && ValidVote(c, s, v) && ValidVote(c, s, w) &&
                  v.proposalHash == w.proposalHash && v.voter == w.voter && v != w;
      ReplayedLast(c, s, votes, v);
      ReplayedLast(c, s, votes, w);
    }
  }

  lemma SideFromLookup(s: Manager, h: Hash, approve: bool)
    ensures forall i: nat :: i in Side(VotesFor(s, h), approve) <==>
              Lookup(s, h, i).Some? && Lookup(s, h, i).value.approve == approve
  {
  }

  /** The tally depends only on the stored vote of each voter. */
  lemma SameTally(c: Crypto, s: Manager, t: Manager, p: Proposal)
    requires SameStored(s, t) && s.committee == t.committee && s.committee.Valid()
    ensures QuorumStatus(c, s, p) == QuorumStatus(c, t, p)
  {
    var h := HashOf(c, p);
    StakeNone(s.committee.stakes);
    forall approve ensures Side(VotesFor(s, h), approve) == Side(VotesFor(t, h), approve) {
      SideFromLookup(s, h, approve);
      SideFromLookup(t, h, approve);
      forall i ensures i in Side(VotesFor(s, h), approve) <==> i in Side(VotesFor(t, h), approve) {
        if i in Side(VotesFor(s, h), approve) || i in Side(VotesFor(t, h), approve) {
          assert Lookup(s, h, i) == Lookup(t, h, i);
        }
      }
    }
    EmptyTally(s, h);
    EmptyTally(t, h);
  }

  /** A proposal without votes has no stake on either side. */
  lemma EmptyTally(s: Manager, h: Hash)
    ensures h !in s.votes ==> Stake(s, h, true) == 0 && Stake(s, h, false) == 0
  {
    StakeNone(s.committee.stakes);
    if h !in s.votes {
      assert Side(VotesFor(s, h), true) == {} && Side(VotesFor(s, h), false) == {};
    }
  }

  /** The vote a broadcast carries for a voter is the one the sender has stored. */
  lemma {:induction false} BroadcastVote(c: Crypto, a: Manager, b: Manager, out: seq<Vote>, h: Hash, i: nat)
    requires Inv(c, a) && a.committee == b.committee && IsBroadcast(a, out)
    requires h in a.pending && h in b.pending && Lookup(a, h, i).Some?
    ensures LastVote(c, b, out, h, i) == Lookup(a, h, i)
  {
    var v := Lookup(a, h, i).value;
    assert WellPlaced(c, a, h, i);
    assert StoredAt(a, h, i, v);
    assert v in out && Matches(c, b, v, h, i);
    var w := LastVote(c, b, out, h, i).value;
    var g, j :| g in a.pending.Keys && StoredAt(a, g, j, w);
    assert WellPlaced(c, a, g, j);
  }

  /** Gossip convergence: when A sees approve quorum for a pending proposal and B, with the same
      committee and the proposal pending, takes in A's broadcast in any order, then B sees approve
      quorum too, whatever votes B had stored before. */
  lemma {:induction false} QuorumSpreads(c: Crypto, a: Manager, b: Manager, p: Proposal, out: seq<Vote>)
    requires Inv(c, a) && a.committee == b.committee && a.committee.Valid()
    requires HashOf(c, p) in a.pending && HashOf(c, p) in b.pending
    requires Approved(c, a, p) && IsBroadcast(a, out)
    ensures Approved(c, IntakeAll(c, b, out), p)
  {
    var h, t := HashOf(c, p), IntakeAll(c, b, out);
    SideFromLookup(a, h, true);
    SideFromLookup(t, h, true);
    LastVoteWins(c, b, out, h, 0);
    forall i | i in Side(VotesFor(a, h), true) ensures i in Side(VotesFor(t, h), true) {
      BroadcastVote(c, a, b, out, h, i);
      LastVoteWins(c, b, out, h, i);
    }
    StakeMonotone(a.committee.stakes, Side(VotesFor(a, h), true), Side(VotesFor(t, h), true));
    EmptyTally(t, h);
  }

  /** The automatic vote: it is cast exactly when none was stored and the proposal validates, it is
      an approval, and a stored own vote is never replaced by it. */
  lemma AutoVoteOnce(c: Crypto, s: Manager, own: nat, p: Proposal, nowMs: nat)
    requires s.committee.ValidIndex(own) && p.newEpoch == s.epoch + 1
    ensures var h, t := HashOf(c, p), IntakeProposal(c, s, own, p, nowMs);
            && (Lookup(s, h, own).Some? ==> Lookup(t, h, own) == Lookup(s, h, own))
            && (Lookup(s, h, own).None? && Validate(c, s, p, nowMs).ok ==>
                  Lookup(t, h, own) == Some(OwnVote(c, s, p, own)))
            && (Lookup(s, h, own).None? && !Validate(c, s, p, nowMs).ok ==> Lookup(t, h, own).None?)
            && forall g, i: nat :: g != h || i != own ==> Lookup(t, g, i) == Lookup(s, g, i)
  {
  }
}
