/** The senders of all epochs at one executor.  Nothing stops the sender of an old epoch when the next one
    starts, so any number of them may be at work at once. */
module Arrivals {
  import opened Types
  import opened GlobalIndex
  import opened EndToEnd
  import opened Schedules
  import S = SequentialSender
  import O = SenderOrdering

  /** A step of one of the senders. */
  datatype Step = Step(who: nat, what: S.Label)

  /** The steps of one sender. */
  function Own(steps: seq<Step>, k: nat): seq<S.Label>
  {
    if steps == [] then []
    else
      var last := steps[|steps| - 1];
      Own(steps[..|steps| - 1], k) + if last.who == k then [last.what] else []
  }

  function SenderAt(steps: seq<Step>, k: nat): S.State
  {
    S.Run(S.Fresh(1), Own(steps, k))
  }

  /** What reaches the executor, in the order of arrival. */
  function Arrived(steps: seq<Step>): seq<S.Input>
  {
    if steps == [] then []
    else
      var before, last := steps[..|steps| - 1], steps[|steps| - 1];
      var s := SenderAt(before, last.who);
      Arrived(before) +
      if last.what.SendOk? && s.phase.Sending? then [S.Input(s.phase.expected, s.phase.block)] else []
  }

  /** The executor never reports more blocks than have arrived. */
  ghost predicate Truthful(steps: seq<Step>)
  {
    forall i :: 0 <= i < |steps| && steps[i].what.Initialise? ==> steps[i].what.v <= |Arrived(steps[..i])| + 1
  }

  /** How often the executor was asked for its last block. */
  function Reports(labels: seq<S.Label>): nat
  {
    if labels == [] then 0
    else Reports(labels[..|labels| - 1]) + if labels[|labels| - 1].Initialise? then 1 else 0
  }

  /** Each sender belongs to an epoch and has been given a part of what the epoch's processor hands on, in
      order. */
  ghost predicate Given(epochs: seq<Epoch>, steps: seq<Step>)
  {
    && (forall i :: 0 <= i < |steps| ==> steps[i].who < |epochs|)
    && forall k :: 0 <= k < |epochs| ==> SenderAt(steps, k).input <= Feed(epochs[k])
  }

  /** Each sender asks at most once. */
  ghost predicate AsksOnce(epochs: seq<Epoch>, steps: seq<Step>)
  {
    forall k :: 0 <= k < |epochs| ==> Reports(Own(steps, k)) <= 1
  }

  // ----- One step of many senders -----

  lemma {:induction false} SenderStep(steps: seq<Step>, k: nat)
    requires steps != []
    ensures var before, last := steps[..|steps| - 1], steps[|steps| - 1];
            SenderAt(steps, k) ==
            if last.who == k then S.Apply(SenderAt(before, k), last.what) else SenderAt(before, k)
  {
    var before, last := steps[..|steps| - 1], steps[|steps| - 1];
    if last.who == k {
      S.RunSnoc(S.Fresh(1), Own(before, k), last.what);
    } else {
      assert Own(steps, k) == Own(before, k);
    }
  }

  lemma {:induction false} GivenBefore(epochs: seq<Epoch>, steps: seq<Step>)
    requires steps != [] && Given(epochs, steps)
    ensures Given(epochs, steps[..|steps| - 1])
  {
    var before := steps[..|steps| - 1];
    forall k | 0 <= k < |epochs| ensures SenderAt(before, k).input <= Feed(epochs[k]) {
      SenderStep(steps, k);
      assert SenderAt(before, k).input <= SenderAt(steps, k).input;
    }
  }

  lemma {:induction false} OwnReports(steps: seq<Step>, k: nat)
    requires steps != []
    ensures var before, last := steps[..|steps| - 1], steps[|steps| - 1];
            Reports(Own(steps, k)) ==
            Reports(Own(before, k)) + if last.who == k && last.what.Initialise? then 1 else 0
  {
    var before, last := steps[..|steps| - 1], steps[|steps| - 1];
    if last.who == k {
      assert Own(steps, k)[..|Own(before, k)|] == Own(before, k);
    } else {
      assert Own(steps, k) == Own(before, k);
    }
  }

  lemma {:induction false} AsksBefore(epochs: seq<Epoch>, steps: seq<Step>)
    requires steps != [] && AsksOnce(epochs, steps)
    ensures AsksOnce(epochs, steps[..|steps| - 1])
  {
    var before := steps[..|steps| - 1];
    forall k | 0 <= k < |epochs| ensures Reports(Own(before, k)) <= 1 {
      OwnReports(steps, k);
    }
  }

  lemma {:induction false} UnaskedUnmoved(labels: seq<S.Label>)
    requires Reports(labels) == 0
    ensures S.Run(S.Fresh(1), labels).raised == 0
  {
    if labels != [] { UnaskedUnmoved(labels[..|labels| - 1]); }
  }

  lemma {:induction false} TruthfulBefore(steps: seq<Step>)
    requires steps != [] && Truthful(steps)
    ensures var n := |steps| - 1;
            && Truthful(steps[..n])
            && (steps[n].what.Initialise? ==> steps[n].what.v <= |Arrived(steps[..n])| + 1)
  {
    var n := |steps| - 1;
    forall i | 0 <= i < n ensures steps[..n][..i] == steps[..i] && steps[..n][i] == steps[i] {
    }
  }

  // ----- Many senders, one sequence -----

  lemma {:induction false} InputInOrder(epochs: seq<Epoch>, m: nat, k: nat, s: S.State)
    requires Scheduled(epochs, m) && k < |epochs| && s.input <= Feed(epochs[k])
    ensures O.ConsecutiveInput(s, epochs[k].run.env.base + 1)
  {
    EpochFed(epochs, m, k);
    forall i | 0 <= i < |s.input| ensures s.input[i].index == epochs[k].run.env.base + 1 + i {
      assert s.input[i] == Feed(epochs[k])[i];
    }
  }

  /** A sender's own order, and where its cursor stands. */
  lemma {:induction false} SenderFifo(epochs: seq<Epoch>, m: nat, steps: seq<Step>, k: nat)
    requires Scheduled(epochs, m) && Given(epochs, steps) && k < |epochs|
    requires SenderAt(steps, k).raised <= epochs[k].run.env.base
    ensures var s, base := SenderAt(steps, k), epochs[k].run.env.base;
            O.Fifo(s, base + 1) && (O.NotYet(s, base) || O.Arrived(s, base))
  {
    InputInOrder(epochs, m, k, SenderAt(steps, k));
    O.FifoFromCreation(epochs[k].run.env.base, Own(steps, k));
  }

  /** The first sender has sent all its blocks. */
  ghost predicate Done(e: Epoch, s: S.State)
  {
    && e.run.env.base == 0
    && |s.log| == |s.input| == |Feed(e)| && s.buffer == map[] && !s.phase.Sending?
  }

  /** The sender has sent its share of the first a blocks; unless it is done, its cursor was not moved past
      its blocks, and if it is at them, all earlier ones are among the first a. */
  ghost predicate InShare(e: Epoch, s: S.State, a: nat)
  {
    && |s.log| == Among(a, e.run.env.base, |Feed(e)|)
    && (|| Done(e, s)
        || (s.raised <= e.run.env.base && (s.raised == e.run.env.base ==> a >= e.run.env.base)))
  }

  lemma {:induction false} DoneKept(e: Epoch, s: S.State, l: S.Label)
    requires Done(e, s) && S.Apply(s, l).input <= Feed(e)
    ensures Done(e, S.Apply(s, l))
  {
  }

  /** What has arrived is the beginning of the whole sequence, and each sender has sent its share. */
  ghost predicate OneSequence(epochs: seq<Epoch>, steps: seq<Step>)
  {
    && Arrived(steps) <= AllFed(epochs)
    && forall k :: 0 <= k < |epochs| ==> InShare(epochs[k], SenderAt(steps, k), |Arrived(steps)|)
  }

  ghost predicate SoFar(epochs: seq<Epoch>, m: nat, before: seq<Step>)
  {
    Scheduled(epochs, m) && Given(epochs, before) && OneSequence(epochs, before)
  }

  lemma {:induction false} BlockInHand(e: Epoch, s: S.State, a: nat)
    requires s.phase.Sending? && s.input <= Feed(e) && InShare(e, s, a)
    requires var base := e.run.env.base; O.Fifo(s, base + 1) && (O.NotYet(s, base) || O.Arrived(s, base))
    ensures var base := e.run.env.base;
            && base <= a < base + |Feed(e)| && |s.log| == a - base
            && Feed(e)[|s.log|] == S.Input(s.phase.expected, s.phase.block)
  {
    assert s.input[|s.log|] == Feed(e)[|s.log|];
  }

  /** An arrival: the sender whose block arrives is the one the sequence has reached. */
  lemma {:induction false} InTurn(epochs: seq<Epoch>, m: nat, before: seq<Step>, k: nat)
    requires SoFar(epochs, m, before) && k < |epochs| && SenderAt(before, k).phase.Sending?
    ensures var s, a, base := SenderAt(before, k), |Arrived(before)|, epochs[k].run.env.base;
            && base <= a < base + |Feed(epochs[k])| && |s.log| == a - base
            && Feed(epochs[k])[|s.log|] == S.Input(s.phase.expected, s.phase.block)
  {
    assert InShare(epochs[k], SenderAt(before, k), |Arrived(before)|);
    SenderFifo(epochs, m, before, k);
    BlockInHand(epochs[k], SenderAt(before, k), |Arrived(before)|);
  }

  lemma {:induction false} ArrivalShare(epochs: seq<Epoch>, m: nat, before: seq<Step>, k: nat, j: nat)
    requires SoFar(epochs, m, before)
    requires k < |epochs| && j < |epochs| && SenderAt(before, k).phase.Sending?
    ensures var s := SenderAt(before, j);
            InShare(epochs[j], if j == k then S.Apply(s, S.SendOk) else s, |Arrived(before)| + 1)
  {
    var a, s := |Arrived(before)|, SenderAt(before, j);
    assert InShare(epochs[j], s, a);
    InTurn(epochs, m, before, k);
    if j != k { OthersShare(epochs, m, k, j, a); }
  }

  lemma {:induction false} ArrivalExtends(epochs: seq<Epoch>, m: nat, steps: seq<Step>)
    requires steps != [] && steps[|steps| - 1].who < |epochs| && steps[|steps| - 1].what.SendOk?
    requires SoFar(epochs, m, steps[..|steps| - 1])
    requires SenderAt(steps[..|steps| - 1], steps[|steps| - 1].who).phase.Sending?
    ensures Arrived(steps) <= AllFed(epochs) && |Arrived(steps)| == |Arrived(steps[..|steps| - 1])| + 1
  {
    var before, k := steps[..|steps| - 1], steps[|steps| - 1].who;
    var s := SenderAt(before, k);
    var x := S.Input(s.phase.expected, s.phase.block);
    assert Arrived(steps) == Arrived(before) + [x];
    InTurn(epochs, m, before, k);
    FedAt(epochs, m, k, |s.log|);
    OneMore(Arrived(before), x, AllFed(epochs));
  }

  lemma {:induction false} ArrivalKeeps(epochs: seq<Epoch>, m: nat, steps: seq<Step>)
    requires steps != [] && steps[|steps| - 1].who < |epochs| && steps[|steps| - 1].what.SendOk?
    requires SoFar(epochs, m, steps[..|steps| - 1])
    requires SenderAt(steps[..|steps| - 1], steps[|steps| - 1].who).phase.Sending?
    ensures OneSequence(epochs, steps)
  {
    var before, last := steps[..|steps| - 1], steps[|steps| - 1];
    ArrivalExtends(epochs, m, steps);
    forall j | 0 <= j < |epochs| ensures InShare(epochs[j], SenderAt(steps, j), |Arrived(steps)|) {
      SenderStep(steps, j);
      ArrivalShare(epochs, m, before, last.who, j);
    }
  }

  lemma {:induction false} AtStart(epochs: seq<Epoch>, m: nat, before: seq<Step>, k: nat)
    requires SoFar(epochs, m, before) && 0 < k < |epochs| && SenderAt(before, k).raised == 0
    ensures SenderAt(before, k).next == 1 && |Arrived(before)| <= epochs[k].run.env.base
  {
    assert InShare(epochs[k], SenderAt(before, k), |Arrived(before)|);
    LaterBase(epochs, m, k);
    assert SenderAt(before, k).log == [] && SenderAt(before, k).next == 1 by {
      SenderFifo(epochs, m, before, k);
    }
    NotBeyond(epochs, m, k, |Arrived(before)|);
  }

  lemma {:induction false} AnswerWithin(e: Epoch, s: S.State, a: nat, v: nat)
    requires InShare(e, s, a) && s.raised == 0 && s.next == 1 && v <= a + 1 <= e.run.env.base + 1
    ensures InShare(e, S.Apply(s, S.Initialise(v)), a)
  {
  }

  /** The answer lands on the first sender between the send of a block, not its last, and the count of it,
      and is of that block. */
  ghost predicate LandsAt(epochs: seq<Epoch>, steps: seq<Step>, i: nat)
    requires epochs != []
  {
    && i < |steps| && steps[i].who == 0 && steps[i].what.Initialise?
    && var s := SenderAt(steps[..i], 0);
       s.phase.Bumping? && steps[i].what.v > s.next && |s.log| < |Feed(epochs[0])|
  }

  ghost predicate LandsBetween(epochs: seq<Epoch>, steps: seq<Step>)
    requires epochs != []
  {
    exists i :: LandsAt(epochs, steps, i)
  }

  /** Where the first sender's cursor stands before the answer. */
  lemma {:induction false} FirstCursor(epochs: seq<Epoch>, m: nat, before: seq<Step>)
    requires SoFar(epochs, m, before) && SenderAt(before, 0).raised == 0 && !Done(epochs[0], SenderAt(before, 0))
    ensures var s, a := SenderAt(before, 0), |Arrived(before)|;
            && s.next == |s.log| + (if s.phase.Bumping? then 0 else 1)
            && |s.log| < |Feed(epochs[0])| && a == |s.log| && (s.phase.Bumping? ==> s.log != [])
  {
    var s, n := SenderAt(before, 0), |Feed(epochs[0])|;
    assert InShare(epochs[0], s, |Arrived(before)|);
    SenderFifo(epochs, m, before, 0);
    assert |s.log| == n ==> |s.input| == n && s.buffer == map[];
  }

  /** The answer to a sender that has not asked yet does not move it past its blocks, and brings it to
      them only when all earlier blocks have arrived. */
  lemma {:induction false} AnswerShare(epochs: seq<Epoch>, m: nat, before: seq<Step>, k: nat, v: nat)
    requires SoFar(epochs, m, before) && k < |epochs| && v <= |Arrived(before)| + 1
    requires SenderAt(before, k).raised == 0 && !Done(epochs[k], SenderAt(before, k))
    requires k == 0 ==> !(SenderAt(before, 0).phase.Bumping? && v > SenderAt(before, 0).next)
    ensures InShare(epochs[k], S.Apply(SenderAt(before, k), S.Initialise(v)), |Arrived(before)|)
  {
    var a, s := |Arrived(before)|, SenderAt(before, k);
    assert InShare(epochs[k], s, a);
    if k > 0 {
      AtStart(epochs, m, before, k);
      AnswerWithin(epochs[k], s, a, v);
    } else {
      FirstCursor(epochs, m, before);
    }
  }

  lemma {:induction false} StepShare(e: Epoch, s: S.State, l: S.Label, a: nat)
    requires InShare(e, s, a) && S.Apply(s, l).input <= Feed(e)
    requires !(l.SendOk? && s.phase.Sending?) && (l.Initialise? ==> Done(e, s))
    ensures InShare(e, S.Apply(s, l), a)
  {
    if Done(e, s) { DoneKept(e, s, l); }
  }

  lemma {:induction false} QuietShare(epochs: seq<Epoch>, m: nat, steps: seq<Step>, k: nat)
    requires steps != [] && Given(epochs, steps) && k < |epochs|
    requires SoFar(epochs, m, steps[..|steps| - 1]) && AsksOnce(epochs, steps) && Truthful(steps)
    requires !LandsAt(epochs, steps, |steps| - 1)
    requires var last := steps[|steps| - 1];
             !(last.what.SendOk? && SenderAt(steps[..|steps| - 1], last.who).phase.Sending?)
    ensures InShare(epochs[k], SenderAt(steps, k), |Arrived(steps[..|steps| - 1])|)
  {
    var before, last := steps[..|steps| - 1], steps[|steps| - 1];
    var s := SenderAt(before, k);
    assert InShare(epochs[k], s, |Arrived(before)|);
    SenderStep(steps, k);
    if last.who == k {
      if last.what.Initialise? && !Done(epochs[k], s) {
        OwnReports(steps, k);
        UnaskedUnmoved(Own(before, k));
        TruthfulBefore(steps);
        if k == 0 { FirstCursor(epochs, m, before); }
        AnswerShare(epochs, m, before, k, last.what.v);
      } else {
        StepShare(epochs[k], s, last.what, |Arrived(before)|);
      }
    }
  }

  lemma {:induction false} QuietKeeps(epochs: seq<Epoch>, m: nat, steps: seq<Step>)
    requires steps != [] && Given(epochs, steps)
    requires SoFar(epochs, m, steps[..|steps| - 1]) && AsksOnce(epochs, steps) && Truthful(steps)
    requires !LandsAt(epochs, steps, |steps| - 1)
    requires var last := steps[|steps| - 1];
             !(last.what.SendOk? && SenderAt(steps[..|steps| - 1], last.who).phase.Sending?)
    ensures OneSequence(epochs, steps)
  {
    assert Arrived(steps) == Arrived(steps[..|steps| - 1]);
    forall k | 0 <= k < |epochs| ensures InShare(epochs[k], SenderAt(steps, k), |Arrived(steps)|) {
      QuietShare(epochs, m, steps, k);
    }
  }

  lemma {:induction false} NothingYet(epochs: seq<Epoch>, m: nat)
    requires Scheduled(epochs, m)
    ensures OneSequence(epochs, [])
  {
    forall k | 0 <= k < |epochs| ensures InShare(epochs[k], SenderAt([], k), 0) {
      EpochFed(epochs, m, k);
    }
  }

  // ----- An answer between send and count -----

  /** The blocks without the one at k. */
  function Without(blocks: seq<S.Input>, k: nat): (r: seq<S.Input>)
    requires k < |blocks|
    ensures |r| == |blocks| - 1
  {
    blocks[..k] + blocks[k + 1..]
  }

  /** The first sender has sent k blocks from the cursor as it was, and all later ones from a cursor that
      was moved by one. */
  ghost predicate HoleAfter(s: S.State, k: nat)
  {
    && s.raised == 1 && 1 <= k <= |s.log|
    && (forall i :: 0 <= i < |s.log| ==> s.log[i].raisedBefore == if i < k then 0 else 1)
    && (s.phase.Looking? || s.phase.Sending? ==> s.phase.seen == 1)
  }

  /** The sender of a later epoch has not come to its blocks. */
  ghost predicate Silent(e: Epoch, s: S.State)
  {
    s.log == [] && s.raised < e.run.env.base
  }

  /** What has arrived is the beginning of the first epoch's blocks without the one at k, and no block of a
      later epoch. */
  ghost predicate OneMissing(epochs: seq<Epoch>, steps: seq<Step>, k: nat)
  {
    && epochs != [] && k < |Feed(epochs[0])| && HoleAfter(SenderAt(steps, 0), k)
    && |Arrived(steps)| == |SenderAt(steps, 0).log| && Arrived(steps) <= Without(Feed(epochs[0]), k)
    && forall j :: 1 <= j < |epochs| ==> Silent(epochs[j], SenderAt(steps, j))
  }

  lemma {:induction false} OthersSilent(epochs: seq<Epoch>, m: nat, before: seq<Step>, j: nat)
    requires SoFar(epochs, m, before) && 1 <= j < |epochs| && |Arrived(before)| < |Feed(epochs[0])|
    ensures Silent(epochs[j], SenderAt(before, j))
  {
    assert InShare(epochs[j], SenderAt(before, j), |Arrived(before)|);
    BasesApart(epochs, m, 0, j);
  }

  lemma {:induction false} PrefixWithout(some: seq<S.Input>, feed: seq<S.Input>, all: seq<S.Input>)
    requires some <= all && feed <= all && |some| < |feed|
    ensures some <= Without(feed, |some|)
  {
    forall i | 0 <= i < |some| ensures some[i] == Without(feed, |some|)[i] {
      assert some[i] == all[i] == feed[i];
    }
  }

  lemma {:induction false} FirstFeed(epochs: seq<Epoch>)
    requires epochs != []
    ensures Feed(epochs[0]) <= AllFed(epochs)
  {
    FedSnoc(epochs, 0);
    FedPrefix(epochs, 1);
    assert epochs[..0] == [];
  }

  lemma {:induction false} HoleOpens(steps: seq<Step>, k: nat)
    requires steps != [] && steps[|steps| - 1].who == 0 && steps[|steps| - 1].what == S.Initialise(k + 1)
    requires var s := SenderAt(steps[..|steps| - 1], 0);
             s.raised == 0 && s.phase.Bumping? && s.next == |s.log| == k >= 1
    ensures HoleAfter(SenderAt(steps, 0), k) && |SenderAt(steps, 0).log| == k
  {
    SenderStep(steps, 0);
    O.SenderAccounting(1, Own(steps[..|steps| - 1], 0));
  }

  lemma {:induction false} LandingOpens(epochs: seq<Epoch>, m: nat, steps: seq<Step>)
    requires steps != [] && SoFar(epochs, m, steps[..|steps| - 1])
    requires LandsAt(epochs, steps, |steps| - 1) && AsksOnce(epochs, steps) && Truthful(steps)
    ensures OneMissing(epochs, steps, |SenderAt(steps[..|steps| - 1], 0).log|)
  {
    var before, last := steps[..|steps| - 1], steps[|steps| - 1];
    var k := |SenderAt(before, 0).log|;
    OwnReports(steps, 0);
    UnaskedUnmoved(Own(before, 0));
    TruthfulBefore(steps);
    FirstCursor(epochs, m, before);
    HoleOpens(steps, k);
    FirstFeed(epochs);
    PrefixWithout(Arrived(before), Feed(epochs[0]), AllFed(epochs));
    forall j | 1 <= j < |epochs| ensures Silent(epochs[j], SenderAt(steps, j)) {
      SenderStep(steps, j);
      OthersSilent(epochs, m, before, j);
    }
  }

  /** The next block of the first sender is the one after the hole and after those sent since. */
  lemma {:induction false} NextAfterHole(s: S.State, k: nat, feed: seq<S.Input>)
    requires O.Law(1, s) && HoleAfter(s, k) && s.phase.Sending?
    requires s.input <= feed && Numbered(feed, 1) && k < |feed|
    ensures var rest := Without(feed, k);
            |s.log| < |rest| && rest[|s.log|] == S.Input(s.phase.expected, s.phase.block)
  {
    var i :| 0 <= i < |s.input| && s.input[i] == S.Input(s.phase.expected, s.phase.block);
    assert s.input[i] == feed[i] && feed[i].index == 1 + i;
  }

  lemma {:induction false} HoleStays(s: S.State, l: S.Label, k: nat)
    requires HoleAfter(s, k) && !l.Initialise?
    ensures HoleAfter(S.Apply(s, l), k)
    ensures |S.Apply(s, l).log| == |s.log| + if l.SendOk? && s.phase.Sending? then 1 else 0
  {
  }

  lemma {:induction false} NoSecondAnswer(epochs: seq<Epoch>, steps: seq<Step>)
    requires steps != [] && epochs != [] && AsksOnce(epochs, steps) && steps[|steps| - 1].who == 0
    requires SenderAt(steps[..|steps| - 1], 0).raised > 0
    ensures !steps[|steps| - 1].what.Initialise?
  {
    OwnReports(steps, 0);
    if Reports(Own(steps[..|steps| - 1], 0)) == 0 { UnaskedUnmoved(Own(steps[..|steps| - 1], 0)); }
  }

  lemma {:induction false} FirstSenderKeeps(epochs: seq<Epoch>, m: nat, steps: seq<Step>, k: nat)
    requires steps != [] && Given(epochs, steps) && AsksOnce(epochs, steps) && steps[|steps| - 1].who == 0
    requires Scheduled(epochs, m) && Given(epochs, steps[..|steps| - 1]) && OneMissing(epochs, steps[..|steps| - 1], k)
    ensures HoleAfter(SenderAt(steps, 0), k)
    ensures |Arrived(steps)| == |SenderAt(steps, 0).log| && Arrived(steps) <= Without(Feed(epochs[0]), k)
  {
    var before, l := steps[..|steps| - 1], steps[|steps| - 1].what;
    var s := SenderAt(before, 0);
    SenderStep(steps, 0);
    NoSecondAnswer(epochs, steps);
    HoleStays(s, l, k);
    if l.SendOk? && s.phase.Sending? {
      EpochFed(epochs, m, 0);
      assert O.Law(1, s) by { O.SenderAccounting(1, Own(before, 0)); }
      NextAfterHole(s, k, Feed(epochs[0]));
      OneMore(Arrived(before), S.Input(s.phase.expected, s.phase.block), Without(Feed(epochs[0]), k));
    }
  }

  /** Nor can a later sender come to its blocks: there are too few for a truthful report to be of all
      earlier ones. */
  lemma {:induction false} StaysSilent(epochs: seq<Epoch>, m: nat, before: seq<Step>, j: nat, l: S.Label)
    requires Scheduled(epochs, m) && Given(epochs, before) && 1 <= j < |epochs|
    requires Silent(epochs[j], SenderAt(before, j)) && |Arrived(before)| < |Feed(epochs[0])|
    requires l.Initialise? ==> l.v <= |Arrived(before)| + 1
    ensures Silent(epochs[j], S.Apply(SenderAt(before, j), l)) && !SenderAt(before, j).phase.Sending?
  {
    SenderFifo(epochs, m, before, j);
    BasesApart(epochs, m, 0, j);
  }

  lemma {:induction false} MissingKept(epochs: seq<Epoch>, m: nat, steps: seq<Step>, k: nat)
    requires steps != [] && Given(epochs, steps) && AsksOnce(epochs, steps) && Truthful(steps)
    requires Scheduled(epochs, m) && Given(epochs, steps[..|steps| - 1]) && OneMissing(epochs, steps[..|steps| - 1], k)
    ensures OneMissing(epochs, steps, k)
  {
    var before, last := steps[..|steps| - 1], steps[|steps| - 1];
    TruthfulBefore(steps);
    forall j | 1 <= j < |epochs| ensures Silent(epochs[j], SenderAt(steps, j)) {
      SenderStep(steps, j);
      assert Silent(epochs[j], SenderAt(before, j));
      if last.who == j { StaysSilent(epochs, m, before, j, last.what); }
    }
    if last.who == 0 {
      FirstSenderKeeps(epochs, m, steps, k);
    } else {
      StaysSilent(epochs, m, before, last.who, last.what);
      SenderStep(steps, 0);
      assert Arrived(steps) == Arrived(before);
    }
  }

  // ----- Main results -----

  lemma {:induction false} LandsBefore(epochs: seq<Epoch>, steps: seq<Step>)
    requires epochs != [] && steps != []
    ensures LandsBetween(epochs, steps) <==>
            LandsBetween(epochs, steps[..|steps| - 1]) || LandsAt(epochs, steps, |steps| - 1)
  {
    var before := steps[..|steps| - 1];
    forall i: nat | i < |before| ensures LandsAt(epochs, steps, i) <==> LandsAt(epochs, before, i) {
      assert before[..i] == steps[..i] && before[i] == steps[i];
    }
    if i: nat :| LandsAt(epochs, steps, i) { assert i < |before| ==> LandsAt(epochs, before, i); }
    if i: nat :| LandsAt(epochs, before, i) { assert LandsAt(epochs, steps, i); }
  }

  /** Over any number of epochs, with all their senders at work in any interleaving and any send
      failures, the blocks reach the executor as one sequence: in arrival order they are a prefix of
      what the processors hand on, epoch after epoch.  The one exception is an answer that reaches the
      first sender between a send and its count: then exactly one block of the first epoch is left out, and
      no block of a later epoch ever arrives. */
  lemma {:induction false} ArriveInSequence(epochs: seq<Epoch>, m: nat, steps: seq<Step>)
    requires Scheduled(epochs, m) && Given(epochs, steps) && AsksOnce(epochs, steps) && Truthful(steps)
    ensures !LandsBetween(epochs, steps) ==> OneSequence(epochs, steps)
    ensures LandsBetween(epochs, steps) ==> exists k :: OneMissing(epochs, steps, k)
  {
    if steps == [] {
      NothingYet(epochs, m);
    } else {
      var before, last := steps[..|steps| - 1], steps[|steps| - 1];
      GivenBefore(epochs, steps);
      AsksBefore(epochs, steps);
      TruthfulBefore(steps);
      ArriveInSequence(epochs, m, before);
      LandsBefore(epochs, steps);
      if LandsBetween(epochs, before) {
        var k :| OneMissing(epochs, before, k);
        MissingKept(epochs, m, steps, k);
      } else if LandsAt(epochs, steps, |steps| - 1) {
        LandingOpens(epochs, m, steps);
      } else if last.what.SendOk? && SenderAt(before, last.who).phase.Sending? {
        ArrivalKeeps(epochs, m, steps);
      } else {
        QuietKeeps(epochs, m, steps);
      }
    }
  }

  function Indices(inputs: seq<S.Input>): seq<nat>
  {
    seq(|inputs|, i requires 0 <= i < |inputs| => inputs[i].index)
  }

  lemma {:induction false} EarlierComplete(epochs: seq<Epoch>, m: nat, steps: seq<Step>, j: nat, k: nat)
    requires SoFar(epochs, m, steps) && j < k < |epochs| && SenderAt(steps, k).log != []
    ensures |SenderAt(steps, j).log| == |Feed(epochs[j])|
  {
    assert InShare(epochs[j], SenderAt(steps, j), |Arrived(steps)|);
    assert InShare(epochs[k], SenderAt(steps, k), |Arrived(steps)|);
    BasesApart(epochs, m, j, k);
  }

  /** The executor has received the blocks 1, 2, 3, ... in this order and each once, holding the commits
      handed on, and no block of an epoch before all those of earlier ones. */
  ghost predicate AllInOrder(epochs: seq<Epoch>, steps: seq<Step>)
  {
    && Arrived(steps) <= AllFed(epochs) && Indices(Arrived(steps)) == Interval(1, |Arrived(steps)|)
    && forall j, k :: 0 <= j < k < |epochs| && SenderAt(steps, k).log != [] ==>
         |SenderAt(steps, j).log| == |Feed(epochs[j])|
  }

  /** The executor has received blocks of the first epoch only, in order and each once, and will wait for
      block k + 1. */
  ghost predicate StuckAfter(epochs: seq<Epoch>, steps: seq<Step>, k: nat)
  {
    && epochs != [] && 1 <= k < |Feed(epochs[0])| && Arrived(steps) <= Without(Feed(epochs[0]), k)
    && k + 1 !in Indices(Arrived(steps))
    && forall j :: 1 <= j < |epochs| ==> SenderAt(steps, j).log == []
  }

  lemma {:induction false} PrefixNumbered(some: seq<S.Input>, all: seq<S.Input>)
    requires some <= all && Numbered(all, 1)
    ensures Indices(some) == Interval(1, |some|)
  {
    forall i | 0 <= i < |some| ensures Indices(some)[i] == 1 + i {
      assert some[i] == all[i];
    }
  }

  lemma {:induction false} SequenceInOrder(epochs: seq<Epoch>, m: nat, steps: seq<Step>)
    requires SoFar(epochs, m, steps)
    ensures AllInOrder(epochs, steps)
  {
    FedIndices(epochs, m, |epochs|);
    assert epochs[..|epochs|] == epochs;
    PrefixNumbered(Arrived(steps), AllFed(epochs));
    forall j, k | 0 <= j < k < |epochs| && SenderAt(steps, k).log != []
      ensures |SenderAt(steps, j).log| == |Feed(epochs[j])|
    {
      EarlierComplete(epochs, m, steps, j, k);
    }
  }

  lemma {:induction false} MissingNeverArrived(epochs: seq<Epoch>, m: nat, steps: seq<Step>, k: nat)
    requires Scheduled(epochs, m) && OneMissing(epochs, steps, k)
    ensures StuckAfter(epochs, steps, k)
  {
    EpochFed(epochs, m, 0);
    forall j | 1 <= j < |epochs| ensures SenderAt(steps, j).log == [] {
      assert Silent(epochs[j], SenderAt(steps, j));
    }
    forall i | 0 <= i < |Arrived(steps)| ensures Indices(Arrived(steps))[i] != k + 1 {
      assert Arrived(steps)[i] == Without(Feed(epochs[0]), k)[i];
    }
  }

  /** So the executor receives everything in order, or, exactly when an answer landed between a send and its
      count, nothing but blocks of the first epoch, in order and without one. */
  lemma {:induction false} ExecutorReceives(epochs: seq<Epoch>, m: nat, steps: seq<Step>)
    requires Scheduled(epochs, m) && Given(epochs, steps) && AsksOnce(epochs, steps) && Truthful(steps)
    ensures !LandsBetween(epochs, steps) ==> AllInOrder(epochs, steps)
    ensures LandsBetween(epochs, steps) ==> exists k :: StuckAfter(epochs, steps, k)
  {
    ArriveInSequence(epochs, m, steps);
    if LandsBetween(epochs, steps) {
      var k :| OneMissing(epochs, steps, k);
      MissingNeverArrived(epochs, m, steps, k);
    } else {
      SequenceInOrder(epochs, m, steps);
    }
  }
}
