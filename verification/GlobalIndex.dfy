/** The deterministic map from (epoch, commit) to one global execution sequence. */
module GlobalIndex {
  import opened Types

  /** `calculate_global_exec_index`: epoch 0 has a synchronisation case that later epochs lack. */
  function GlobalExecIndex(epoch: nat, commit: nat, base: nat): nat
  {
    if epoch == 0 then
      if base > commit * 10 then base + commit else commit
    else
      base + commit
  }

  /** A commit index that consensus can produce: numbering starts at 1 in every epoch. */
  predicate CommitIndex(c: nat)
  {
    1 <= c <= MAX_U32
  }

  /** Consecutive commits get consecutive global indices. */
  ghost predicate Contiguous(epoch: nat, base: nat)
  {
    forall c: nat | CommitIndex(c) && CommitIndex(c + 1) ::
      GlobalExecIndex(epoch, c + 1, base) == GlobalExecIndex(epoch, c, base) + 1
  }

  /** No two commits of the epoch share a global index. */
  ghost predicate Injective(epoch: nat, base: nat)
  {
    forall c: nat, d: nat | CommitIndex(c) && CommitIndex(d) ::
      GlobalExecIndex(epoch, c, base) == GlobalExecIndex(epoch, d, base) ==> c == d
  }

  /** The stored base lets every commit of epoch 0 take the same branch. */
  predicate OneBranch(base: nat)
  {
    base <= 10 || base > 10 * MAX_U32
  }

  /** Exactly when the index runs on without a jump: always after epoch 0, and in epoch 0 iff the
      synchronisation test gives the same answer for every commit. */
  lemma ContiguousIff(epoch: nat, base: nat)
    ensures Contiguous(epoch, base) <==> epoch > 0 || OneBranch(base)
  {
    if epoch == 0 && !OneBranch(base) {
      // The last commit on the synchronisation branch is followed by a drop of `base`.
      var c := (base - 1) / 10;
      assert CommitIndex(c) && CommitIndex(c + 1);
      assert GlobalExecIndex(epoch, c + 1, base) < GlobalExecIndex(epoch, c, base);
    }
  }

  /** Exactly when no index is handed out twice within one epoch.  Between the two thresholds the
      commits 1 and base + 1 collide. */
  lemma InjectiveIff(epoch: nat, base: nat)
    ensures Injective(epoch, base) <==> epoch > 0 || base <= 10 || base >= MAX_U32
  {
    if epoch == 0 && 10 < base < MAX_U32 {
      assert GlobalExecIndex(epoch, 1, base) == GlobalExecIndex(epoch, base + 1, base);
      assert CommitIndex(1) && CommitIndex(base + 1);
    }
  }

  /** The base a node carries is usable: every node starts with base 0, so it is 0 in epoch 0. */
  predicate UsableBase(epoch: nat, base: nat)
  {
    epoch == 0 ==> base == 0
  }

  /** With a usable base the index is the base plus the commit number, in every epoch. */
  lemma UsableBaseIndex(epoch: nat, commit: nat, base: nat)
    requires UsableBase(epoch, base)
    ensures GlobalExecIndex(epoch, commit, base) == base + commit
  {
  }
}
