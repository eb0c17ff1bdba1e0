/** What the processors of all epochs hand on, as one sequence, and where each epoch's blocks lie in it. */
module Schedules {
  import opened Types
  import opened GlobalIndex
  import opened EndToEnd
  import S = SequentialSender
  import E = EpochBoundary

  /** The first epoch starts at base 0, every finished one hands on exactly the commits between its base
      and the next, at least one, and the last one its first m. */
  ghost predicate Scheduled(epochs: seq<Epoch>, m: nat)
  {
    && epochs != [] && epochs[0].run.env.base == 0
    && (forall i :: 0 <= i < |epochs| ==> UsableBase(epochs[i].run.env.epoch, epochs[i].run.env.base))
    && (forall i :: 0 <= i < |epochs| - 1 ==>
          && epochs[i].run.env.base < epochs[i + 1].run.env.base
          && E.HandedOn(epochs[i].run, epochs[i + 1].run.env.base - epochs[i].run.env.base))
    && E.HandedOn(epochs[|epochs| - 1].run, m)
  }

  /** Blocks under consecutive indices. */
  ghost predicate Numbered(blocks: seq<S.Input>, first: nat)
  {
    forall g :: 0 <= g < |blocks| ==> blocks[g].index == first + g
  }

  lemma {:induction false} NumberedJoin(xs: seq<S.Input>, ys: seq<S.Input>)
    requires Numbered(xs, 1) && Numbered(ys, 1 + |xs|)
    ensures Numbered(xs + ys, 1)
  {
  }

  lemma {:induction false} EpochFed(epochs: seq<Epoch>, m: nat, k: nat)
    requires Scheduled(epochs, m) && k < |epochs|
    ensures var base := epochs[k].run.env.base;
            var n := if k < |epochs| - 1 then epochs[k + 1].run.env.base - base else m;
            |Feed(epochs[k])| == n && Numbered(Feed(epochs[k]), base + 1) && (k < |epochs| - 1 ==> n > 0)
  {
    var base := epochs[k].run.env.base;
    FeedConsecutive(epochs[k], if k < |epochs| - 1 then epochs[k + 1].run.env.base - base else m);
  }

  lemma {:induction false} BasesApart(epochs: seq<Epoch>, m: nat, k: nat, j: nat)
    requires Scheduled(epochs, m) && k < j < |epochs|
    ensures epochs[k].run.env.base + |Feed(epochs[k])| <= epochs[j].run.env.base
    decreases j
  {
    EpochFed(epochs, m, j - 1);
    if k < j - 1 { BasesApart(epochs, m, k, j - 1); }
  }

  lemma {:induction false} FedSnoc(epochs: seq<Epoch>, k: nat)
    requires k < |epochs|
    ensures AllFed(epochs[..k + 1]) == AllFed(epochs[..k]) + Feed(epochs[k])
  {
    assert epochs[..k + 1][..k] == epochs[..k];
  }

  lemma {:induction false} FedPrefix(epochs: seq<Epoch>, k: nat)
    requires k <= |epochs|
    ensures AllFed(epochs[..k]) <= AllFed(epochs)
    decreases |epochs| - k
  {
    if k == |epochs| {
      assert epochs[..k] == epochs;
    } else {
      FedSnoc(epochs, k);
      FedPrefix(epochs, k + 1);
    }
  }

  lemma {:induction false} FedUpTo(epochs: seq<Epoch>, m: nat, k: nat)
    requires Scheduled(epochs, m) && k < |epochs|
    ensures |AllFed(epochs[..k])| == epochs[k].run.env.base
  {
    if k == 0 {
      assert epochs[..0] == [];
    } else {
      FedUpTo(epochs, m, k - 1);
      EpochFed(epochs, m, k - 1);
      FedSnoc(epochs, k - 1);
    }
  }

  /** The block at that place of the whole sequence. */
  ghost predicate BlockAt(epochs: seq<Epoch>, g: nat, x: S.Input)
  {
    g < |AllFed(epochs)| && AllFed(epochs)[g] == x
  }

  lemma {:induction false} BlockAfter(epochs: seq<Epoch>, k: nat, i: nat)
    requires k < |epochs| && i < |Feed(epochs[k])|
    ensures BlockAt(epochs, |AllFed(epochs[..k])| + i, Feed(epochs[k])[i])
  {
    FedSnoc(epochs, k);
    FedPrefix(epochs, k + 1);
    assert AllFed(epochs[..k + 1])[|AllFed(epochs[..k])| + i] == Feed(epochs[k])[i];
  }

  /** The i-th block of an epoch is the one at base + i of the whole sequence. */
  lemma {:induction false} FedAt(epochs: seq<Epoch>, m: nat, k: nat, i: nat)
    requires Scheduled(epochs, m) && k < |epochs| && i < |Feed(epochs[k])|
    ensures BlockAt(epochs, epochs[k].run.env.base + i, Feed(epochs[k])[i])
  {
    FedUpTo(epochs, m, k);
    BlockAfter(epochs, k, i);
  }

  /** The blocks of all epochs are numbered 1, 2, 3, ... */
  lemma {:induction false} FedIndices(epochs: seq<Epoch>, m: nat, k: nat)
    requires Scheduled(epochs, m) && k <= |epochs|
    ensures Numbered(AllFed(epochs[..k]), 1)
  {
    if k > 0 {
      FedIndices(epochs, m, k - 1);
      FedUpTo(epochs, m, k - 1);
      EpochFed(epochs, m, k - 1);
      NumberedJoin(AllFed(epochs[..k - 1]), Feed(epochs[k - 1]));
      FedSnoc(epochs, k - 1);
    } else {
      assert epochs[..0] == [];
    }
  }

  lemma {:induction false} LaterBase(epochs: seq<Epoch>, m: nat, k: nat)
    requires Scheduled(epochs, m) && 0 < k < |epochs|
    ensures epochs[k].run.env.base > 0
  {
    EpochFed(epochs, m, 0);
    BasesApart(epochs, m, 0, k);
  }

  /** How many of the blocks base + 1, ..., base + n are among the first a. */
  function Among(a: nat, base: nat, n: nat): nat
  {
    if a <= base then 0 else if a >= base + n then n else a - base
  }

  /** One block more of an epoch changes no other epoch's share. */
  lemma {:induction false} OthersShare(epochs: seq<Epoch>, m: nat, k: nat, j: nat, a: nat)
    requires Scheduled(epochs, m) && k < |epochs| && j < |epochs| && j != k
    requires epochs[k].run.env.base <= a < epochs[k].run.env.base + |Feed(epochs[k])|
    ensures var base, n := epochs[j].run.env.base, |Feed(epochs[j])|;
            Among(a + 1, base, n) == Among(a, base, n)
  {
    if j < k { BasesApart(epochs, m, j, k); } else { BasesApart(epochs, m, k, j); }
  }

  lemma {:induction false} NotBeyond(epochs: seq<Epoch>, m: nat, k: nat, a: nat)
    requires Scheduled(epochs, m) && 0 < k < |epochs| && a <= |AllFed(epochs)|
    requires Among(a, epochs[k].run.env.base, |Feed(epochs[k])|) == 0
    ensures a <= epochs[k].run.env.base
  {
    EpochFed(epochs, m, k);
    if k == |epochs| - 1 {
      FedUpTo(epochs, m, k);
      FedSnoc(epochs, k);
      assert epochs[..k + 1] == epochs;
    }
  }

  lemma {:induction false} OneMore(some: seq<S.Input>, x: S.Input, all: seq<S.Input>)
    requires some <= all && |some| < |all| && all[|some|] == x
    ensures some + [x] <= all
  {
    assert all[..|some| + 1] == all[..|some|] + [all[|some|]];
  }
}
