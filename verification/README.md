# Metanode: a verified model of commits, epochs and checked arithmetic

A metanode orders transactions in consensus commits and feeds them to an external executor. This
project models the parts of it whose correctness spans many steps, and proves what they keep.

- **Commit pipeline.** The commit processor is a reorder buffer with a transition barrier that other
  tasks write while it runs. The map to one global execution index, the sequential sender with its
  flusher and its racing initialisation, and the epoch boundary that joins one epoch to the next,
  follow it (`CommitProcessor`, `CommitOrdering`, `HeldCommits`, `GlobalIndex`, `EpochBoundary`,
  `IndexUse`, `ExecutorClient`, `SenderOrdering`, `SenderReports`, `EndToEnd`, `Schedules`,
  `Arrivals`, `Framing`, `CanonicalOrder`).
- **Epoch change.** Proposals, votes, stake quorums, gossip of votes, and the node that accepts
  transactions and changes epoch (`Quorum`, `EpochVoting`, `EpochManager`, `Gossip`, `Node`,
  `NodeSafety`, `NodeLife`), and the separate epoch count of the checkpoint manager (`Checkpoint`).
- **Checked arithmetic.** The procedural macro that rewrites an expression so that every arithmetic
  operation is checked (`CheckedArithmetic`, `CheckedShape`, `CheckedOrder`, `CheckedMeaning`).

Concurrency is modelled by its observable steps. The k-th load of the barrier returns an arbitrary
value `load(k)`, which stands for any writes by other tasks between two loads. The sender is a machine
with one step per lock scope in which a step that is not enabled does nothing, so "for every sequence
of labels" means "for every interleaving". Objects that the program updates in place are classes whose
methods are proved against functions on a state; the theorems are about those functions. Time, send
results, the executor's answers, the order in which a hash map yields its entries, hashing and
signatures are parameters.

`ExecutorSeesOneSequence` joins the parts: over all epochs of a node's life, with the senders of all
epochs at work at once in any interleaving and with any send failures, the executor receives blocks
1, 2, 3, ... once each and in order, and none of an epoch before all of the earlier ones, provided that
the processors numbered the blocks without a gap and unless one answer of the executor came at a wrong
moment. `LifeIsGaplessIff` gives the exact condition for the first, including the last epoch:
every finished epoch handed on exactly as many commits as its base moved, and the last one exactly its
first m. `StageFillsIff` says what this takes in terms of the barriers the node wrote, and
`ContiguousInLife` says it for the whole life. The wrong moment is described below.

Promises that the code does not keep, with the exact condition under which it does:

- The epoch 0 formula in the documentation of `calculate_global_exec_index`
  (metanode/src/checkpoint.rs:20-30) has no synchronisation case, the code has one; `ContiguousIff`
  and `InjectiveIff` say for which bases the index still has no gap and no repetition.
- Comments promise that commits past the barrier are sent as one block
  (metanode/src/commit_processor.rs:100-102); the code requeues them and sends nothing: `BarrierSafety`.
- Transactions of commits past the barrier are not to be lost (metanode/src/commit_processor.rs:38-42).
  A commit that waits in the buffer when the one before it is skipped is never handled, as in
  `HeldCommitDropped`. `LeftBehindIff`: under a constant barrier these are exactly the delivered commits
  from the first on that did not arrive just when it was expected.
- No global index is to be used twice across an epoch change. `SharedIndexIff`: one is, exactly when the
  values loaded let through a commit above the barrier whose counterpart the next epoch hands on;
  `UsedOnceIff` says the same over all epochs. It happens, for example, when the barrier is set too late for
  the commit after it (`BoundaryCollisionIff`, `BoundaryCollision`), when only the check before sending
  sees it, since that load is not remembered (`RaceNotRemembered`), and when the old processor, which
  nobody stops, loads the barrier of a later epoch and takes it for its own (`LaterBarrierTaken`, and as
  part of a node's life `LaterBarrierSeen`). The remembered barrier is meant to exclude such races
  (metanode/src/commit_processor.rs:158-160). `NotOverruledIff`: whatever is loaded, exactly the commits
  up to the barrier are let through exactly when it was not missed and no other value overruled it.
- The flush loop must not skip a block (metanode/src/executor_client.rs:340-343).
  `InitialiseRespectedIff`: the flusher looks for the block the executor waits for exactly when its
  current turn sends nothing; otherwise `SkippedForEver`, as in `BlockTwoLost`. `NextIsSentIff`: the
  next block can still be sent, a further report allowed, exactly when the reports moved the cursor by no
  more than the base. A client is initialised once, so the condition that counts is `DeliversAllIff`:
  without a further report all blocks can be delivered exactly when the cursor was moved by the base.
- A later epoch's client starts its cursor at 1 (metanode/src/executor_client.rs:59).
  `SilentUnlessCaughtUpIff`: it can send exactly when the executor has reported the earlier epochs.
  `OneReportIff`: with its one report it can deliver everything exactly when this is of all earlier
  blocks; the first epoch's client exactly when the report is not ahead of the cursor.
- The one report that the first epoch's client asks for may arrive between the send of a block, not its
  last, and the count of it. `ExecutorReceives`: then, and only then, the next block of the first epoch is
  left out and no block of any later epoch ever arrives, since no later truthful report can be high
  enough.
- A failed transition cannot be retried at once, since the proposal is marked before the guards are
  checked. `FailedTransitionBlocks`: transactions are refused until a transition completes, and an
  attempt does nothing exactly when the last attempt was on the same proposal; `RetryAfterOther` is a
  retry that goes through.
- A transition that fails on storage has already moved epoch and base (metanode/src/node.rs:1108-1124),
  so the indices of an epoch that never ran are skipped, as in `SkippedEpoch`. `LifeIsChainedIff`: each
  epoch starts where the barrier of the one before it ended exactly when every failed transition failed
  before that.
- The sequence of indices is to have no gap. Being chained is not enough: an attempt that fails for want
  of a committee leaves its barrier behind, the processor stops there, and the indices up to the next
  proposal's barrier are used by nobody, as in `AbandonedBarrier`. `LifeIsGaplessIff`: up to commit m of
  the last epoch the indices are 1, 2, 3, ..., each epoch starting where the ones before it ended, exactly
  when every finished epoch handed on exactly as many commits as its base moved and the last one exactly
  its first m. `OnlySeamless`: once every later epoch has handed on its first commit, there is no other
  way for the indices to be 1, 2, 3, ...
- All nodes are meant to set the same barrier (metanode/src/node.rs:685). `BarrierDeterminedIff`: the
  hash map's order decides between two settled proposals that end the epoch at different commits, as in
  `TwoBarriers`.
- A refused proposal may still move the epoch start time: `RefusedUnchangedIff`, as in `RefusedButMoved`.
- The clearing of proposals stuck for over an hour (metanode/src/epoch_change.rs:1343-1372) never
  happens, because the sweep before it has removed everything older than ten minutes:
  `HasPendingProposalForEpoch`.
- Leader and fallback are meant to keep epochs advancing
  (metanode/src/checkpoint_epoch_transition.rs:73-77); `NodesAgreeIff` says when four nodes still
  count the same epoch, and `RunKeeps` bounds the epoch each can reach.
- The block counter is meant to restart with each epoch
  (metanode/src/checkpoint_epoch_transition.rs:182-184). The manager resets a counter of its own
  (metanode/src/node.rs:347), and the one the processor increases (metanode/src/node.rs:463) is always
  the total: `RunKeeps`.
- The arithmetic pass keeps the value of a negation exactly when its operand starts with an even
  number of `!` (`NegationIff`, `NegatedNot`).
- The pass evaluates the place of a compound assignment before its right side, the language after it.
  `ApartOrderIff`: when neither side uses what the other changes, this shows exactly when one side
  panics, also by an index out of bounds, and the other makes calls, as in `OutOfBounds`. Sides
  that are not apart are settled in one shape each for two of the ways in which they can depend on each
  other: a call on both sides (`TwoCallsIff`), and an index that reads what the right side assigns
  (`ReadsAssignedIff`).

## Model

| member | source | states |
|---|---|---|
| `GlobalIndex.ContiguousIff` | metanode/src/checkpoint.rs:31-58 | consecutive commits get consecutive indices if and only if the epoch is not 0 or the base puts all 32-bit commit indices on one branch |
| `GlobalIndex.InjectiveIff` | metanode/src/checkpoint.rs:31-58 | no two commits of an epoch share an index if and only if the epoch is not 0, the base is at most 10, or it is at least the largest commit index; otherwise commits 1 and base + 1 collide |
| `CommitOrdering.RunKeeps` | metanode/src/commit_processor.rs:145-431 | the invariant holds after every run, with any arrivals and any barrier writes |
| `CommitOrdering.HandledInOrder` | metanode/src/commit_processor.rs:169-421 | handled commits are exactly 1, 2, 3, ... in order and once each; only a failed trigger leaves the last one uncounted |
| `CommitOrdering.BarrierSafety` | metanode/src/commit_processor.rs:157-513 | for every handled commit of every run: skipped if and only if it is above the last non-zero barrier loaded so far, executed if and only if it is above neither that nor the barrier loaded right before sending |
| `CommitOrdering.BarrierRemembered` | metanode/src/commit_processor.rs:157-161 | after a first check has loaded a non-zero barrier, one is remembered for good, and it is a value some later-or-equal check loaded |
| `Types.FlattenCount` | metanode/src/commit_processor.rs:195-218 | collecting the transactions of a commit keeps every transaction of every block, as often as it occurs |
| `Types.FlattenAt` | metanode/src/commit_processor.rs:195-218 | and their order: block i lies behind the lengths of all blocks before it |
| `CommitOrdering.TransactionConservation` | metanode/src/commit_processor.rs:190-513 | with a retry queue, every transaction occurs in the blocks of the handled commits as often as in the blocks of those handed to the executor and in the queue together |
| `CommitOrdering.SentOrQueued` | metanode/src/commit_processor.rs:190-513 | a transaction of any block of a handled commit went to the executor with a commit or is in the queue |
| `CommitOrdering.CommitConservation` | metanode/src/commit_processor.rs:320-421 | until the run ends, delivered commit indices are exactly the handled ones and the keys of the reorder buffer |
| `CommitOrdering.ReorderRefinement` | metanode/src/commit_processor.rs:169-421 | with no barrier or a constant one, any arrival order with any duplicates hands on commits 1, 2, 3, ... once each under their global indices: the unbroken run 1..m cut at the barrier, or, when a trigger fails, its part up to that commit |
| `CommitOrdering.OrderIndependence` | metanode/src/commit_processor.rs:169-421 | two processors that see the same commits in different orders hand on the same sequence, or one a prefix of the other when a failed trigger ended it |
| `CommitOrdering.FailsAtTrigger` | metanode/src/commit_processor.rs:258-292 | a run ends early only right after a commit whose trigger failed |
| `CommitOrdering.FailsIff` | metanode/src/commit_processor.rs:258-292 | a run ends early if and only if some commit that arrived as expected, not past the barrier of its first check, had its trigger fail |
| `CommitOrdering.HeldIsLatest` | metanode/src/commit_processor.rs:407-414 | of repeated commits beyond the expected one the latest is held |
| `HeldCommits.LeftBehindIff` | metanode/src/commit_processor.rs:169-427 | under a constant barrier, once the commits up to it are complete, a commit is handled only if it arrives just when it is expected; all delivered commits from the first that did not stay in the buffer unhandled, and no others |
| `HeldCommits.HeldCommitDropped` | metanode/src/commit_processor.rs:234-246 | it happens: commit B + 2 that arrives before B + 1 stays in the buffer, and its transaction is in no queue |
| `EpochBoundary.ExecutedIff` | metanode/src/commit_processor.rs:157-513 | for any barrier values loaded, a commit is executed if and only if the values loaded for it let it through |
| `EpochBoundary.HandedOnIff` | metanode/src/commit_processor.rs:157-513 | a commit is among those handed on if and only if it was handled and the values loaded for it let it through |
| `EpochBoundary.ExactlyUpToBarrierIff` | metanode/src/commit_processor.rs:157-513 | for any barrier values loaded, the executor gets exactly the commits up to a barrier if and only if the loads let through exactly those |
| `EpochBoundary.NotOverruledIff` | metanode/src/commit_processor.rs:179-257 | for any barrier values loaded, exactly the commits up to a barrier are let through if and only if it was missed on none above it and no other value loaded stopped one up to it or had a part in letting one above it through |
| `EpochBoundary.OnTimeIff` | metanode/src/commit_processor.rs:157-513 | when the barrier takes one non-zero value, that is so if and only if no commit above it was handled and sent before the barrier was seen |
| `EpochBoundary.BaseIsSumOfBarriers` | metanode/src/node.rs:1047-1109 | the base of every epoch is the sum of the barriers of the epochs before it |
| `EpochBoundary.EpochIndices` | metanode/src/commit_processor.rs:247-256 | an epoch that handed on commits 1..n used exactly the global indices base + 1 to base + n |
| `EpochBoundary.MultiEpochContiguity` | metanode/src/node.rs:1047-1109 | if every finished epoch handed on exactly the commits up to its barrier, the global indices over all epochs are 1, 2, 3, ... without gap or repetition |
| `EpochBoundary.ContiguousWhenOnTime` | metanode/src/node.rs:1047-1109 | the same from the barrier values loaded: every finished epoch reached its barrier and its loads let through exactly the commits up to it |
| `EpochBoundary.BoundaryCollisionIff` | metanode/src/node.rs:1047-1109 | the old epoch uses the first global index of the new one if and only if it handled the commit after its barrier and the values loaded for that commit let it through |
| `EpochBoundary.BoundaryCollision` | metanode/src/node.rs:1047-1109 | it happens: for every proposal, an epoch that handled the commit after the barrier before the barrier was set |
| `IndexUse.SharedIff` | metanode/src/commit_processor.rs:157-513 | any two epochs use one global index for two blocks if and only if the values loaded by the first let through a commit whose index is that of a commit the second hands on |
| `IndexUse.SharedIndexIff` | metanode/src/commit_processor.rs:157-513 | two epochs in a row do if and only if the values loaded let through some commit above the barrier of the first and the second hands on its counterpart |
| `IndexUse.UsedOnceIff` | metanode/src/node.rs:1047-1109 | over any number of epochs no global index is used twice if and only if no two of them share one |
| `IndexUse.RaceNotRemembered` | metanode/src/commit_processor.rs:454-460 | an index is used twice in another way, for every proposal: a barrier seen only by the check before sending stops commit b + 1 and not b + 2, which gets the index of commit 2 of the next epoch, while the first index is not shared |
| `IndexUse.LaterBarrierTaken` | metanode/src/commit_processor.rs:181-184 | in another way, for every barrier b and every later one of at least b + 2: the processor stops commit b + 1, loads the later barrier and lets commit b + 2 through, without having missed b |
| `IndexUse.HandedOnExactlyIff` | metanode/src/commit_processor.rs:157-513 | an epoch hands on exactly the commits 1..n if and only if it handled them and the values loaded let through these and no others |
| `IndexUse.GaplessIff` | metanode/src/node.rs:1047-1109 | every epoch starts where the ones before it have brought the sequence 1, 2, 3, ... if and only if each finished epoch handed on exactly as many commits as lie between its base and the next |
| `IndexUse.SeamlessIff` | metanode/src/node.rs:1047-1109 | this holds and the indices over all epochs are 1, 2, 3, ... up to commit m of the last one if and only if each finished epoch fills the indices up to the next base and the last one handed on exactly its first m commits |
| `IndexUse.OnlySeamless` | metanode/src/node.rs:1047-1109 | once every later epoch has handed on its first commit, indices that are 1, 2, 3, ... up to commit m of the last epoch are so in this way only |
| `SenderOrdering.SenderAccounting` | metanode/src/executor_client.rs:333-399 | over every interleaving the cursor is start + sent + raised, up to the one block sent but not yet counted |
| `SenderOrdering.SentInOrder` | metanode/src/executor_client.rs:333-399 | over every interleaving and any send failures the sent indices strictly increase, and the gap between two of them is exactly what initialisation added between their reads of the cursor |
| `SenderOrdering.NoRaiseNoGap` | metanode/src/executor_client.rs:333-399 | without a raise the sent indices are start, start + 1, ... |
| `SenderOrdering.NeverBack` | metanode/src/executor_client.rs:202-229 | the cursor never decreases and sent blocks stay sent |
| `SenderOrdering.InitialiseRespectedIff` | metanode/src/executor_client.rs:363-391 | after a raise to v the flusher looks for block v next if and only if the turn in progress sends nothing, and for v + 1 if and only if it sends |
| `SenderOrdering.SkippedForEver` | metanode/src/executor_client.rs:363-391 | when the raise lands on a sending turn, block v is sent in no continuation |
| `SenderOrdering.BlockTwoLost` | metanode/src/executor_client.rs:363-391 | it happens with truthful reports: a report of block 1 before the cursor is bumped for it leaves block 2 in the buffer, sent in no continuation |
| `SenderOrdering.NextIsSentIff` | metanode/src/executor_client.rs:202-229 | a sender of blocks base + 1, base + 2, ... can still send the next one due, in some continuation that may hold a further report, if and only if initialisation has not moved its cursor by more than base |
| `SenderOrdering.FifoRefinement` | metanode/src/executor_client.rs:317-399 | with consecutive inputs and no raise, sent log, block in hand and buffer are together the input sequence, whatever sends fail; when idle the buffer's keys are the interval from the cursor to the last input |
| `SenderOrdering.FlushDrains` | metanode/src/executor_client.rs:361-399 | a flush without a raise that stops for want of the next block has emptied the buffer and sent every input |
| `SenderOrdering.SilentUnlessCaughtUpIff` | metanode/src/node.rs:1134-1140 | a new client whose blocks start above base can send one in some run if and only if the executor may report at least base blocks |
| `SenderOrdering.FifoFromCreation` | metanode/src/node.rs:1134-1212 | a new client whose blocks are base + 1, base + 2, ... is first-in first-out over every interleaving, whenever the reports arrive, as long as they move the cursor by no more than base |
| `SenderReports.DeliversAllIff` | metanode/src/executor_client.rs:198-229 | without a further report any number of blocks base + 1, base + 2, ... can be delivered if and only if the reports so far have moved the cursor by exactly base |
| `SenderReports.OneReportIff` | metanode/src/node.rs:1207-1212 | with one report in all: for a base above 0 if and only if it is of exactly base blocks, for base 0 if and only if it is not ahead of the cursor when it lands |
| `EndToEnd.EpochEndToEnd` | metanode/src/commit_processor.rs:247-257 | within an epoch the executor receives a prefix of what the processor handed on, blocks and indices, and all of it once the sender is idle with an empty buffer |
| `EndToEnd.DrainedByFlush` | metanode/src/executor_client.rs:361-399 | when the reports have brought the cursor to the epoch and the flusher stops for want of the next block, everything handed on has arrived |
| `Arrivals.ArriveInSequence` | metanode/src/node.rs:1104-1228 | with the senders of any number of epochs at work at once, in any interleaving and with any send failures, truthful reports and at most one per sender: what has arrived, in order of arrival, is a prefix of what the processors handed on, epoch after epoch, and each sender has sent its share of it; or, if and only if the first sender's report landed between the send and the count of a block that is not its last, what has arrived is a prefix of the first epoch's blocks without the next one, and every later sender is silent |
| `Arrivals.ExecutorReceives` | metanode/src/node.rs:1104-1228 | so the executor receives 1, 2, 3, ... in order of arrival, each once, and no block before all those of earlier epochs; in the other case it receives blocks of the first epoch only, in order and without block k + 1 |
| `Framing.RoundTrip` | metanode/src/executor_client.rs:1049-1063 | every u64 is read back from its varint, whatever follows, and takes at most ten bytes |
| `Framing.Shortest` | metanode/src/executor_client.rs:1049-1063 | any bytes that read as v are at least as many as its varint, and equal to it when as many |
| `Framing.PrefixFree` | metanode/src/executor_client.rs:1049-1063 | no varint is a prefix of another |
| `Framing.StreamRoundTrip` | metanode/src/executor_client.rs:432-444 | any sequence of length-prefixed payloads is parsed back |
| `Framing.StreamUnique` | metanode/src/executor_client.rs:432-444 | two sequences of payloads with the same byte stream are equal |
| `CanonicalOrder.SortCorrect` | metanode/src/executor_client.rs:582-585 | the sort by hash is a sorted permutation that keeps the order of equal hashes |
| `CanonicalOrder.SortUnique` | metanode/src/executor_client.rs:582-585 | sortedness and stability determine the result, so it does not depend on the algorithm |
| `CanonicalOrder.BlockCorrect` | metanode/src/executor_client.rs:536-602 | a block as sent holds exactly the valid transactions with their multiplicities, in hash order |
| `CanonicalOrder.BlockOrderIndependentIff` | metanode/src/executor_client.rs:536-602 | all orders of the transactions give the same block if and only if no two different valid ones share a hash |
| `CanonicalOrder.QueueCorrect` | metanode/src/node.rs:747-768 | the replayed queue is strictly increasing by hash and holds exactly the earliest queued transaction of each hash |
| `CanonicalOrder.QueueOrderIndependentIff` | metanode/src/node.rs:747-768 | queues with the same transactions, in any order and with any repetitions, are replayed alike if and only if no two different ones share a hash |
| `CanonicalOrder.LessIff` | metanode/src/node.rs:747-768 | hashes are compared as byte strings, the smaller byte at the first difference and proper prefixes first |
| `Quorum.QuorumIff` | metanode/meta-consensus/config/src/committee.rs:39-57 | a set of voters reaches the threshold if and only if at most f of the stake is missing from it, f being the largest stake below a third of the total |
| `Quorum.QuorumIntersection` | metanode/meta-consensus/config/src/committee.rs:39-57 | for every committee two such sets share stake at least f + 1 |
| `EpochVoting.RunKeeps` | metanode/src/epoch_change.rs:418-620 | over all runs of propose, process, vote, intake, sweep and reset: pending keys are their proposals' hashes, pending is within seen and targets later epochs, and every stored vote sits under its own hash and voter and verifies |
| `EpochVoting.StatusIff` | metanode/src/epoch_change.rs:623-703 | a proposal is approved, or rejected, if and only if at most f of the stake is missing from the stored votes of that side |
| `EpochVoting.OneSideOnly` | metanode/src/epoch_change.rs:657-700 | approval and rejection never both have quorum, for every committee and vote map |
| `EpochVoting.ApprovedShareVoters` | metanode/src/epoch_change.rs:657-700 | two approved proposals, on one node or on two with one committee, share approving voters of stake at least f + 1 |
| `EpochVoting.ReadyIff` | metanode/src/epoch_change.rs:1076-1237 | a proposal is ready if and only if it is approved and the commit index plus 10 or 300 seconds have been reached, or it is more than two epochs ahead and the commit index plus 10 has been reached |
| `EpochVoting.PendingIff` | metanode/src/epoch_change.rs:418-534 | after every run a proposal is pending if and only if some operation took it in, proposed here for a later epoch and unseen, or received for the next epoch, at most a day ahead, from a member and signed, and no new epoch and no sweep 600 seconds after it came since |
| `EpochVoting.RecordsStep` | metanode/src/epoch_change.rs:295-534 | whatever is taken in is recorded as seen and in the history, only a new epoch forgets them, and the committee never changes |
| `EpochVoting.VotesStep` | metanode/src/epoch_change.rs:568-620 | a vote is stored after an operation if and only if the operation stored it, for a pending proposal from a member and signed, or as own approval of a valid proposal, or it was stored and neither replaced nor forgotten |
| `EpochVoting.StartTimeStep` | metanode/src/epoch_change.rs:706-775 | the epoch start time is moved by exactly those operations that validate a next-epoch proposal more than five minutes old, and by a new epoch |
| `Gossip.LastVoteWins` | metanode/src/epoch_change.rs:925-959 | after any sequence of votes each voter's stored vote is its last acceptable one, and nothing else has changed |
| `Gossip.OrderIndependentIff` | metanode/src/epoch_change.rs:925-959 | votes may be reordered and replayed without effect if and only if no voter has two different acceptable votes on a proposal, on two sides or with two signatures on one |
| `Gossip.SameTally` | metanode/src/epoch_change.rs:623-703 | the quorum status depends only on the stored vote of each voter |
| `Gossip.QuorumSpreads` | metanode/src/epoch_change.rs:864-885 | a node with the same committee and the proposal pending that takes in the broadcast votes of a node that sees approval, in any order, sees approval too, whatever it had stored |
| `Gossip.AutoVoteOnce` | metanode/src/epoch_change_hook.rs:210-233 | the automatic vote is cast exactly when none is stored and the proposal validates, and touches no other vote |
| `NodeSafety.HistoryKeeps` | metanode/src/node.rs:1050-1117 | over every run node and manager are in the same epoch, the base is usable, and epoch and base never go down |
| `NodeSafety.GuardsAgree` | metanode/src/node.rs:993-1035 | with equal epochs the manager finds a proposal ready if and only if the node's own guards pass |
| `NodeSafety.ReadyStaysReady` | metanode/src/epoch_change.rs:1091-1183 | a ready proposal passes the node's guards at every later time |
| `NodeSafety.ReadyTransitionCompletes` | metanode/src/node.rs:993-1242 | in every run a ready proposal not tried before is carried out, and every field of the node is then fixed: running in the new epoch, base raised by the barrier, commit index, barrier and mark cleared, queue replayed in canonical order, a manager with the old committee, the proposal's start time and nothing else |
| `NodeSafety.FailureLeaves` | metanode/src/node.rs:977-1125 | what each kind of failed attempt leaves behind, for every field |
| `NodeSafety.VerdictIff` | metanode/src/node.rs:646-728 | refused if and only if the node does not run, a transition is marked or a proposal is more than one epoch ahead; otherwise queued if and only if a barrier is set or a next-epoch proposal with its commit index reached has all but f of the stake; the barrier set is that one's commit index plus 10 |
| `NodeSafety.NewEpochAccepts` | metanode/src/node.rs:1117-1242 | after a completed transition and before any commit of the new epoch a transaction is accepted unless a proposal is more than one epoch ahead, or an approved next-epoch one has commit index 0, now or at an earlier check |
| `NodeSafety.BarrierStays` | metanode/src/node.rs:678-720 | until a transition completes, through any failed attempts, a set barrier stays set; it keeps its value unless an attempt reaches the store; any new value is the commit index plus 10 of a proposal found settled or stored |
| `NodeSafety.BarrierStep` | metanode/src/node.rs:1035-1048 | one event: a completed transition clears the barrier, and of the failed attempts exactly those that reach the store set it |
| `NodeSafety.NothingAcceptedBehindBarrier` | metanode/src/node.rs:646-728 | a queue verdict implies a barrier; once it is set nothing is accepted, through any events and failed attempts, until a transition completes; a transaction is accepted if and only if no phase forbids it and no listed proposal is settled |
| `NodeSafety.OneValueIff` | metanode/src/node.rs:678-720 | until a transition completes the barrier takes no value but 0 and b if and only if every proposal found settled and every attempt that reaches the store ends the epoch at b |
| `NodeSafety.VerdictOrderIndependent` | metanode/src/node.rs:646-728 | the order in which pending proposals are listed does not influence the verdict |
| `NodeSafety.BarrierDeterminedIff` | metanode/src/node.rs:694-720 | the barrier a check sets is the same for every permutation of the pending proposals if and only if all settled ones end the epoch at one commit |
| `NodeSafety.TwoBarriers` | metanode/src/node.rs:694-720 | it happens: after a run of the manager with two approved next-epoch proposals the same node sets 10 or 11, depending on the order of its map |
| `NodeSafety.NumbersFromCarried` | metanode/src/node.rs:1050-1109 | epoch and base after any run are the last epoch and the sum of the barriers of the proposals carried out, whatever else happened |
| `NodeSafety.NodesAgree` | metanode/src/node.rs:1063-1069 | two nodes that start alike and carry out the same proposals have the same epoch and base, however commits, votes, clocks, queues and failures differ |
| `NodeSafety.EpochKeptIff` | metanode/src/node.rs:1104-1125 | a run without a completed transition stays in its epoch if and only if every failed attempt failed before the epoch moved |
| `NodeSafety.FailedTransitionBlocks` | metanode/src/node.rs:977-980 | after a failed transition every transaction is refused until a transition completes, through any events and attempts; an attempt on a proposal does nothing if and only if the last attempt towards a later epoch was on one with its hash |
| `NodeSafety.RetryAfterOther` | metanode/src/node.rs:977-980 | a retry that did nothing goes through after a failed attempt on another proposal |
| `NodeSafety.QueuedIsReplayed` | metanode/src/node.rs:737-785 | a transaction queued at any time is handed to consensus by the next completed transition, whatever attempts failed before it, as the earliest queued one of its hash |
| `NodeLife.NextBase` | metanode/src/node.rs:1050-1109 | a stage hands on its base plus its barrier plus the barriers of the epochs that failed attempts moved through |
| `NodeLife.LifeIsChainedIff` | metanode/src/node.rs:1050-1125 | the epochs of a life start where the barrier of the one before ended if and only if every failed transition failed before it moved the epoch |
| `NodeLife.SkippedEpoch` | metanode/src/node.rs:1104-1125 | it happens: after a transition that failed on storage and one that completed, the base is the sum of both barriers and the life is not chained |
| `NodeLife.LifeIsGaplessIff` | metanode/src/node.rs:1050-1125 | the indices of a whole life are 1, 2, 3, ... up to commit m of its last epoch, each epoch starting where the ones before it ended, if and only if every finished stage handed on exactly as many commits as its base moved and the last one exactly its first m |
| `NodeLife.StageFillsIff` | metanode/src/node.rs:1126-1228 | a processor that may load any barrier written in its stage or a later one hands on exactly as many commits as the base moves if and only if it handled them, did not miss the barrier and was overruled by none of these others |
| `NodeLife.OnlyLaterOverrules` | metanode/src/node.rs:678-1109 | when no failure moved the epoch and all proposals found settled or stored in the stage end it at one commit, only a barrier of a later stage can overrule it |
| `NodeLife.LaterBarrierSeen` | metanode/src/node.rs:1142-1228 | it happens: an epoch ended at commit 10, reached and not missed, whose processor loads the next epoch's barrier 20 and lets commit 12 through, under the index of commit 2 of the next epoch |
| `NodeLife.AbandonedBarrier` | metanode/src/node.rs:1047-1102 | a gap in a chained life: after an attempt that left barrier 10 and a transition at commit 20, the processor handed on commits 1..10 of the 20 it handled, the next epoch starts at index 21, and 11..20 are used by neither, whatever the next epoch does |
| `NodeLife.ContiguousInLife` | metanode/src/node.rs:678-1228 | from what the node wrote and the processors loaded, in this or any later stage: the indices of a life are 1, 2, 3, ... if and only if every finished stage reached its span, did not miss it and was not overruled, and the last handed on exactly its first m commits |
| `NodeLife.ExecutorSeesOneSequence` | metanode/src/node.rs:967-1242 | from startup on, over all epochs, all interleavings of all senders and all send failures, if the life's indices are without a gap: the executor receives 1, 2, 3, ... once each in order of arrival, holding the commits handed on, and no block before all those of earlier epochs, or, if and only if the first client's report landed between the send and the count of a block that is not its last, only blocks of the first epoch, in order and without one |
| `NodeLife.HandledOrReplayed` | metanode/src/commit_processor.rs:190-513 | a transaction of a handled commit was handed to the executor, or the next completed transition after it was requeued hands it to consensus, as the earliest queued one of its hash |
| `CheckedShape.NothingUnchecked` | crates/meta-proc-macros/src/lib.rs:390-533 | outside the contents of exempted macros the rewritten tree has no unchecked arithmetic, compound assignment or negation, and no exempting attribute |
| `CheckedShape.ExemptedUntouched` | crates/meta-proc-macros/src/lib.rs:295-307 | the macros exempted by the attribute are in the result in the same order with their contents untouched, whether they parse or not |
| `CheckedShape.ErrorIff` | crates/meta-proc-macros/src/lib.rs:309-340 | the pass reports a compile error if and only if the contents of some macro, neither exempted nor within an exempted one, are not a list of expressions |
| `CheckedOrder.Commute` | crates/meta-proc-macros/src/lib.rs:453-475 | two expressions of which neither uses what the other changes have the same outcomes and leave the same state in either order, for all expressions, calls, blocks, macros and nested assignments included |
| `CheckedOrder.ApartOrderIff` | crates/meta-proc-macros/src/lib.rs:453-475 | for such sides the new order of a compound assignment shows if and only if one side panics, the index also by being out of bounds, and the other makes calls |
| `CheckedOrder.AssignMeaning` | crates/meta-proc-macros/src/lib.rs:453-475 | the rewritten compound assignment means what the original means under checking when its sides are apart, the right side makes no call or the index is always in bounds, and the index makes no call or the right side cannot panic |
| `CheckedOrder.OutOfBounds` | crates/meta-proc-macros/src/lib.rs:453-475 | an index out of bounds with a call on the right: the original makes the call and panics, the rewritten one panics without it |
| `CheckedOrder.TwoCallsIff` | crates/meta-proc-macros/src/lib.rs:453-475 | with a bare call on each side the calls change places, and the traces agree if and only if both sides call the same function and the index is in bounds |
| `CheckedOrder.ReadsAssignedIff` | crates/meta-proc-macros/src/lib.rs:453-475 | with an index that reads a variable the right side assigns, the two orders agree if and only if the variable already had that value or neither value is in bounds |
| `CheckedMeaning.PairMeaning` | crates/meta-proc-macros/src/lib.rs:429-451 | the block made for a binary operation evaluates its operands once, left to right, in the outer scope, whatever variables they mention |
| `CheckedMeaning.FoldMeaning` | crates/meta-proc-macros/src/lib.rs:390-533 | whatever arithmetic does where nobody checks it, the rewritten expression has the value, the state, the calls and the panic point of the original with every operation outside exempted macros checked and their contents read as they are, for every expression whose compound assignments meet the condition of `AssignMeaning` |
| `CheckedMeaning.FoldBelow` | crates/meta-proc-macros/src/lib.rs:390-533 | against the integers or wrap-around, the rewritten expression gives the result of the original or panics after some of its calls |
| `CheckedMeaning.PassIsSound` | crates/meta-proc-macros/src/lib.rs:390-533 | the rewritten expression gives exactly the unbounded-integer result of the original, the contents of exempted macros read as they are, or panics after some of its calls, and when it does not panic the original with wrap-around does the same; the sides of each compound assignment must be apart, and either the index makes no call or the right side neither divides nor indexes |
| `CheckedMeaning.CheckedIff` | crates/meta-proc-macros/src/lib.rs:429-451 | a checked operation gives the exact result whenever it fits and None otherwise; a remainder needs that the quotient fits |
| `CheckedMeaning.DivisionTruncates` | crates/meta-proc-macros/src/lib.rs:429-451 | division rounds towards zero |
| `CheckedMeaning.WrapsAround` | crates/meta-proc-macros/src/lib.rs:429-451 | wrap-around gives the value of the type that differs from the exact one by a multiple of the number of values |
| `CheckedMeaning.NegationIff` | crates/meta-proc-macros/src/lib.rs:519-528 | a rewritten negation that does not panic has the original value if and only if its operand starts with an even number of `!` or the type's bounds are symmetric |
| `CheckedMeaning.NegatedNot` | crates/meta-proc-macros/src/lib.rs:519-528 | with 8-bit signed integers the negation of `!0` is 1 and becomes -1 |
| `Checkpoints.RunKeeps` | metanode/src/checkpoint.rs:124-197 | on every run epoch times blocks per epoch is at most total blocks, which is the last sequence number; the counter the processor increases is this total in every epoch, and the one the manager resets stays 0; checkpoints sit under their numbers; the leader rule bounds the epoch by 1 for node 0, 2 for node 1 and 0 for all others |
| `Checkpoints.CheckpointsIff` | metanode/src/checkpoint.rs:124-197 | there is a checkpoint for exactly the totals reached, made by the last commit that reached it, with its index, its blocks and the epoch before it, and marked exactly when the total has reached the end of that epoch |
| `Checkpoints.SecondNodeEpoch` | metanode/src/checkpoint_epoch_transition.rs:70-100 | node 1 leaves epoch 0 as the fallback with the first boundary, and epoch 1 as the primary with a later commit at or past the second |
| `Checkpoints.NodesAgreeIff` | metanode/src/checkpoint_epoch_transition.rs:70-100 | four nodes that process the same commits count the same epoch if and only if the first boundary has not been reached |
| `CommitProcessing.CommitProcessor.RequeueTransactions` | metanode/src/commit_processor.rs:190-231 | appends the blocks of a discarded commit one after the other, each at the offset of those before it, when there is a queue, and nothing otherwise |
| `CommitProcessing.CommitProcessor.ProcessCommit` | metanode/src/commit_processor.rs:433-513 | the barrier loaded right before sending alone decides between requeueing and handing to the executor |
| `CommitProcessing.CommitProcessor.CheckAndProcess` | metanode/src/commit_processor.rs:179-257 | both barrier checks with the remembered barrier, as one step of the state machine |
| `CommitProcessing.CommitProcessor.DrainPending` | metanode/src/commit_processor.rs:320-406 | handles buffered commits as long as the next one is there, and ends |
| `CommitProcessing.CommitProcessor.Receive` | metanode/src/commit_processor.rs:169-421 | one arrival: in order, early, or old; a skipped commit does not drain the buffer; a failed trigger ends the run before the commit is counted |
| `CommitProcessing.CommitProcessor.Run` | metanode/src/commit_processor.rs:168-431 | the receive loop over any arrivals equals the step function folded over them |
| `SequentialSender.ExecutorClient.constructor` | metanode/src/executor_client.rs:50-61 | a new client has an empty buffer and its cursor at 1 |
| `SequentialSender.ExecutorClient.InitializeFromGo` | metanode/src/executor_client.rs:202-229 | the cursor becomes the executor's last block plus one if that is higher, and stays otherwise, as with no answer or a disabled client |
| `SequentialSender.ExecutorClient.ReadCursor` | metanode/src/executor_client.rs:363-366 | first lock scope of a flush turn |
| `SequentialSender.ExecutorClient.TakeBlock` | metanode/src/executor_client.rs:368-372 | second lock scope: the block at the value read is removed, if it is there |
| `SequentialSender.ExecutorClient.PutBack` | metanode/src/executor_client.rs:379-386 | a block whose send failed returns to the buffer under its index |
| `SequentialSender.ExecutorClient.BumpCursor` | metanode/src/executor_client.rs:388-394 | last lock scope: the cursor is incremented from whatever it holds by then |
| `SequentialSender.ExecutorClient.TakeAtCursor` | metanode/src/executor_client.rs:363-372 | the block at the cursor as read is taken out of the buffer, whatever initialisation does in between |
| `SequentialSender.ExecutorClient.SendTaken` | metanode/src/executor_client.rs:374-394 | a successful send logs exactly this block and moves the cursor by one; a failed one puts the block back and leaves log and cursor, up to initialisation |
| `SequentialSender.ExecutorClient.FlushOne` | metanode/src/executor_client.rs:361-399 | a turn of the flush loop, with initialisation between any two lock scopes: exactly the block at the cursor is sent and leaves the buffer if it is there and its send succeeds, and otherwise the flush ends with buffer and log as they were |
| `SequentialSender.ExecutorClient.FlushBuffer` | metanode/src/executor_client.rs:333-419 | every flush is a run of the step machine and ends; the blocks sent are those whose sends, the first to the n-th, all succeeded, they and no others leave the buffer, and it stops at the first failure or missing block; undisturbed, they are the blocks from the cursor on without a gap; without a connection nothing changes |
| `SequentialSender.ExecutorClient.SendCommittedSubdag` | metanode/src/executor_client.rs:286-329 | the block enters the buffer under its index and such a flush follows; a client that is off or may not commit does nothing |
| `Framing.WriteUvarint` | metanode/src/executor_client.rs:1049-1063 | the loop appends the base-128 varint of the value |
| `EpochManager.EpochChangeManager.constructor` | metanode/src/epoch_change.rs:262-293 | an empty manager satisfies the invariant |
| `EpochManager.EpochChangeManager.ResetForNewEpoch` | metanode/src/epoch_change.rs:295-313 | clears the epoch's state and keeps the committee |
| `EpochManager.EpochChangeManager.ProposeToTargetEpoch` | metanode/src/epoch_change.rs:476-534 | stores the proposal unless its epoch is not later or it has been seen |
| `EpochManager.EpochChangeManager.ProposeEpochChange` | metanode/src/epoch_change.rs:418-473 | proposes the next epoch and fails exactly on a proposal seen before |
| `EpochManager.EpochChangeManager.ValidateProposal` | metanode/src/epoch_change.rs:706-775 | verdict and epoch start time left behind, in the order of the checks |
| `EpochManager.EpochChangeManager.ProcessProposal` | metanode/src/epoch_change.rs:902-921 | idempotent intake; succeeds exactly when the proposal is pending afterwards |
| `EpochManager.EpochChangeManager.VoteOnProposal` | metanode/src/epoch_change.rs:568-620 | stores an own approval exactly when the proposal validates |
| `EpochManager.EpochChangeManager.ProcessVote` | metanode/src/epoch_change.rs:925-959 | stores a vote exactly when its proposal is pending, its voter known and its signature valid, replacing that voter's earlier vote |
| `EpochManager.EpochChangeManager.CheckProposalQuorum` | metanode/src/epoch_change.rs:623-703 | summing the vote map in whatever order gives approval, or rejection, if and only if at most f of the stake is missing from the stored votes of that side |
| `EpochManager.EpochChangeManager.ShouldTransitionNow` | metanode/src/epoch_change.rs:1076-1237 | quorum or catch-up, and barrier or timeout with quorum |
| `EpochManager.EpochChangeManager.GetTransitionReadyProposal` | metanode/src/epoch_change.rs:1240-1304 | finds a ready pending proposal exactly when there is one, for the next epoch if one such is ready |
| `EpochManager.EpochChangeManager.HasPendingProposalForEpoch` | metanode/src/epoch_change.rs:1307-1377 | sweeps proposals older than ten minutes with their votes, then answers for what is left; nothing left is old enough for the clearing after it |
| `EpochManager.EpochChangeManager.PendingVotesToBroadcast` | metanode/src/epoch_change.rs:864-885 | exactly the votes stored for pending proposals, quorum or not |
| `EpochManager.EpochChangeHook.TakeProposal` | metanode/src/epoch_change_hook.rs:171-252 | intake of a next-epoch proposal, and an own vote unless one is stored |
| `EpochManager.EpochChangeHook.ProcessBlockEpochChange` | metanode/src/epoch_change_hook.rs:166-312 | proposal intake with one automatic vote, then intake of the decodable votes in order |
| `EpochManager.DecodedJoins` | metanode/src/epoch_change_hook.rs:254-312 | of the votes of a block exactly those that decode are taken in, in order |
| `ConsensusNodes.ConsensusNode.constructor` | metanode/src/node.rs:555-587 | a node starts in the epoch of its manager with base 0, no barrier and an empty queue |
| `ConsensusNodes.ConsensusNode.FindSettled` | metanode/src/node.rs:693-720 | the first listed next-epoch proposal with quorum and a committed index, or none if there is none |
| `ConsensusNodes.ConsensusNode.CheckTransactionAcceptance` | metanode/src/node.rs:646-728 | verdict and barrier left behind, for any order of the pending proposals |
| `ConsensusNodes.ConsensusNode.SubmitQueuedTransactions` | metanode/src/node.rs:737-785 | hands the queue in canonical order to consensus and empties it |
| `ConsensusNodes.ConsensusNode.TransitionGuards` | metanode/src/node.rs:993-1035 | the barrier, timeout, quorum and catch-up tests of a transition |
| `ConsensusNodes.ConsensusNode.EnterEpoch` | metanode/src/node.rs:1104-1119 | the new epoch's number and base, commit index 0 and a manager that has started over, while nothing runs |
| `ConsensusNodes.ConsensusNode.TransitionToEpoch` | metanode/src/node.rs:967-1242 | the transition field by field, with what each failure leaves behind; after a completed one the node runs with commit index 0, no barrier and no mark |
| `Checkpoints.CheckpointManager.CreateCheckpoint` | metanode/src/checkpoint.rs:124-197 | the checkpoint under the new total, marked when it reaches the epoch's boundary |
| `Checkpoints.CheckpointManager.ProcessCommit` | metanode/src/checkpoint_epoch_transition.rs:45-190 | one commit: checkpoint, an advance with the manager's counter reset when this node leads the epoch, and the processor's own counter increased |

## Left out

- CheckedMeaning.PassIsSound: excludes negations of an odd number of `!`, settled by `NegationIff`, and compound assignments of which one side uses what the other changes, since whether two calls commute cannot be read off the expression; `TwoCallsIff` and `ReadsAssignedIff` give the exact condition in the basic cases. The right side must also neither divide nor index when the index makes calls.
- CheckedMeaning.FoldMeaning: excludes the same negations, and compound assignments outside the condition of `AssignMeaning`.
- CheckedOrder.AssignMeaning: its condition is read off the expression and sufficient; `ApartOrderIff` gives the exact one in terms of panics and calls.
- SenderOrdering.NextIsSentIff: the continuation may hold a further report; `DeliversAllIff` is the condition without one.
- EndToEnd.EpochEndToEnd: assumes that the executor's reports never move the cursor of an epoch's client past the epoch's first block; `BlockTwoLost` shows a run in which one does.
- Arrivals.ArriveInSequence: assumes that the executor never reports a block that has not arrived, and that each client asks once, as the code documents and does.
- NodeLife.ExecutorSeesOneSequence: the same assumptions on the reports.
- HeldCommits.LeftBehindIff: for a barrier that does not move; for other loads `CommitConservation` says that the unhandled commits are those in the buffer.
- `transition_to_epoch` called with a proposal for an epoch that is not later; `ReadyTargetsLaterEpoch` shows that no pending proposal is one.
- Integer widths: u64 overflow of base + commit and of the cursor, and u32 overflow of the next expected commit; indices are unbounded except where a saturating or 32-bit bound is written out.
- Timestamps of 2^63 milliseconds and more, whose cast to i64 wraps.
- One flusher per client: two concurrent calls of `send_committed_subdag` on one client.
- Sockets, reconnects, timeouts and partial writes; a send succeeds or fails as a whole.
- Blake2b, Keccak, signatures, BCS and protobuf codecs: functions given from outside, with the needed hypotheses stated; the text that is hashed for a proposal is its four fields.
- The SINGLE_NODE and LOCALHOST_TESTING bypasses, taken as off.
- The triggers that follow a processed commit, apart from the checkpoint manager: one step that may end the run with an error.
- `cleanup_expired_proposals`, which nothing calls.
- Building the new committee from the executor's validators; the manager keeps its committee over a transition, as the code does.
- Failed submissions of replayed transactions, which the code only logs; they count as handed over.
- Expressions of the arithmetic pass: one integer type, no casts, dereferences, closures, statement and item macros, and no compile errors caused by types of the rewritten code.
- The DAG consensus itself, RPC, configuration, clock synchronisation, metrics, logging and the operator tools.
