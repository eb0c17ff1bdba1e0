/** From committed sub-DAGs to the executor: the processor of an epoch feeding its sender, epoch after
    epoch. */
module EndToEnd {
  import opened Types
  import opened GlobalIndex
  import P = CommitProcessing
  import E = EpochBoundary
  import S = SequentialSender
  import O = SenderOrdering

  /** One epoch: the run of its processor, the encoding of its blocks, and the interleaving of its
      sender, which is made for the epoch. */
  datatype Epoch = Epoch(run: E.EpochRun, encode: P.SubDag -> S.Block, labels: seq<S.Label>)

  function Sender(e: Epoch): S.State
  {
    S.Run(S.Fresh(1), e.labels)
  }

  function Feed(e: Epoch): seq<S.Input>
  {
    var sent := E.Sent(e.run);
    seq(|sent|, i requires 0 <= i < |sent| => S.Input(sent[i].globalIndex, e.encode(sent[i].dag)))
  }

  /** The sender got exactly what the processor handed on, and the executor's reports never moved its
      cursor past the first of these blocks. */
  ghost predicate Wired(e: Epoch)
  {
    Sender(e).input == Feed(e) && Sender(e).raised <= e.run.env.base
  }

  function Received(e: Epoch): seq<nat>
  {
    var log := Sender(e).log;
    seq(|log|, i requires 0 <= i < |log| => log[i].index)
  }

  lemma FeedConsecutive(e: Epoch, n: nat)
    requires UsableBase(e.run.env.epoch, e.run.env.base) && E.HandedOn(e.run, n)
    ensures |Feed(e)| == n
    ensures forall k :: 0 <= k < n ==> Feed(e)[k].index == e.run.env.base + 1 + k
  {
    E.EpochIndices(e.run, n);
    forall k | 0 <= k < |Feed(e)| ensures Feed(e)[k].index == e.run.env.base + 1 + k {
      assert E.GlobalIndices(E.Sent(e.run))[k] == Interval(e.run.env.base + 1, n)[k];
    }
    assert |E.GlobalIndices(E.Sent(e.run))| == n;
  }

  /** The blocks that reached the executor, with the indices they were sent under. */
  function Delivered(e: Epoch): seq<S.Input>
  {
    var log := Sender(e).log;
    seq(|log|, i requires 0 <= i < |log| => S.Input(log[i].index, log[i].block))
  }

  lemma FedInOrder(e: Epoch, n: nat)
    requires UsableBase(e.run.env.epoch, e.run.env.base) && E.HandedOn(e.run, n) && Sender(e).input == Feed(e)
    ensures |Sender(e).input| == n && O.ConsecutiveInput(Sender(e), e.run.env.base + 1)
  {
    FeedConsecutive(e, n);
  }

  lemma SenderIsFifo(e: Epoch, n: nat)
    requires UsableBase(e.run.env.epoch, e.run.env.base) && E.HandedOn(e.run, n) && Wired(e)
    ensures var s := Sender(e);
            && |s.input| == n && O.Fifo(s, e.run.env.base + 1)
            && (O.NotYet(s, e.run.env.base) || O.Arrived(s, e.run.env.base))
  {
    FedInOrder(e, n);
    O.FifoFromCreation(e.run.env.base, e.labels);
  }

  /** What arrives is a prefix of what was handed on, blocks and indices. */
  lemma DeliveredIsPrefix(e: Epoch)
    requires Sender(e).input == Feed(e) && O.Fifo(Sender(e), e.run.env.base + 1)
    ensures Delivered(e) <= Feed(e)
  {
    var s := Sender(e);
    forall i | 0 <= i < |s.log| ensures Delivered(e)[i] == Feed(e)[i] {
      assert S.Input(s.log[i].index, s.log[i].block) == s.input[i];
    }
  }

  lemma ReceivedInterval(e: Epoch, n: nat)
    requires UsableBase(e.run.env.epoch, e.run.env.base) && E.HandedOn(e.run, n)
    requires Delivered(e) <= Feed(e)
    ensures Received(e) == Interval(e.run.env.base + 1, |Sender(e).log|)
  {
    FeedConsecutive(e, n);
    forall i | 0 <= i < |Received(e)| ensures Received(e)[i] == e.run.env.base + 1 + i {
      assert Delivered(e)[i] == Feed(e)[i];
    }
  }

  /** Within an epoch, under any interleaving and any send failures, the executor receives a prefix
      of what the processor handed on, in order, each block under the global index of its commit;
      and it has received all of it once the sender is idle with an empty buffer. */
  lemma EpochEndToEnd(e: Epoch, n: nat)
    requires UsableBase(e.run.env.epoch, e.run.env.base)
    requires E.HandedOn(e.run, n) && Wired(e)
    ensures var s := Sender(e);
            && |s.log| <= n && Received(e) == Interval(e.run.env.base + 1, |s.log|)
            && Delivered(e) <= Feed(e)
            && (s.phase.Idle? && s.buffer == map[] ==> |s.log| == n && Delivered(e) == Feed(e))
  {
    SenderIsFifo(e, n);
    DeliveredIsPrefix(e);
    ReceivedInterval(e, n);
    var s := Sender(e);
    assert s.phase.Idle? && |s.log| < n ==> e.run.env.base + 1 + |s.log| in s.buffer;
    assert |Delivered(e)| == |Feed(e)| ==> Delivered(e) == Feed(e);
  }

  /** One flush is enough: when the reports have brought the cursor to the epoch's blocks and the flusher
      stops for want of the next block, the sender is drained. */
  lemma DrainedByFlush(e: Epoch, n: nat)
    requires UsableBase(e.run.env.epoch, e.run.env.base) && E.HandedOn(e.run, n) && Wired(e)
    requires var s := Sender(e); s.phase.Idle? && s.next !in s.buffer && s.raised == e.run.env.base
    ensures Sender(e).buffer == map[] && Delivered(e) == Feed(e)
  {
    SenderIsFifo(e, n);
    EpochEndToEnd(e, n);
  }

  function Runs(epochs: seq<Epoch>): seq<E.EpochRun>
  {
    seq(|epochs|, i requires 0 <= i < |epochs| => epochs[i].run)
  }

  /** What the processors of all epochs hand on, epoch after epoch. */
  function AllFed(epochs: seq<Epoch>): seq<S.Input>
  {
    if epochs == [] then [] else AllFed(epochs[..|epochs| - 1]) + Feed(epochs[|epochs| - 1])
  }
}
