/** What the sequential sender keeps under every interleaving of its flusher with initialisation and
    under any send failures. */
module SenderOrdering {
  import opened SequentialSender

  // ----- The accounting law -----

  /** The block was put in under that index. */
  ghost predicate WasInput(s: State, index: nat, block: Block)
  {
    exists k :: 0 <= k < |s.input| && s.input[k] == Input(index, block)
  }

  /** How far the cursor is behind: the block just sent is not counted yet. */
  function Owed(s: State): nat
  {
    if s.phase.Bumping? then 1 else 0
  }

  /** The cursor is the start, plus one per block sent, plus what initialisation added; each sent
      block carries the value this gave when the cursor was read for it; and every block anywhere
      is one that was put in under its index. */
  ghost predicate Law(start: nat, s: State)
  {
    && s.next + Owed(s) == start + |s.log| + s.raised
    && (forall i :: 0 <= i < |s.log| ==> s.log[i].index == start + i + s.log[i].raisedBefore)
    && (forall i, j :: 0 <= i <= j < |s.log| ==> s.log[i].raisedBefore <= s.log[j].raisedBefore)
    && (forall i :: 0 <= i < |s.log| ==> s.log[i].raisedBefore <= s.raised)
    && (s.phase.Looking? || s.phase.Sending? ==>
          && s.phase.expected == start + |s.log| + s.phase.seen
          && s.phase.seen <= s.raised
          && forall i :: 0 <= i < |s.log| ==> s.log[i].raisedBefore <= s.phase.seen)
    && (s.phase.Sending? ==> WasInput(s, s.phase.expected, s.phase.block))
    && (forall k :: k in s.buffer ==> WasInput(s, k, s.buffer[k]))
    && (forall i :: 0 <= i < |s.log| ==> WasInput(s, s.log[i].index, s.log[i].block))
  }

  lemma InputGrows(s: State, t: State, index: nat, block: Block)
    requires s.input <= t.input && WasInput(s, index, block)
    ensures WasInput(t, index, block)
  {
    var k :| 0 <= k < |s.input| && s.input[k] == Input(index, block);
    assert t.input[k] == s.input[k];
  }

  lemma InsertKeepsLaw(start: nat, s: State, g: nat, b: Block)
    requires Law(start, s)
    ensures Law(start, Apply(s, Insert(g, b)))
  {
    var t := Apply(s, Insert(g, b));
    if s.phase.Idle? {
      assert t.input[|s.input|] == Input(g, b);
      assert WasInput(t, g, b);
      forall k | k in t.buffer ensures WasInput(t, k, t.buffer[k]) {
        if k != g { InputGrows(s, t, k, s.buffer[k]); }
      }
      forall i | 0 <= i < |t.log| ensures WasInput(t, t.log[i].index, t.log[i].block) {
        InputGrows(s, t, s.log[i].index, s.log[i].block);
      }
    }
  }

  lemma SendKeepsLaw(start: nat, s: State)
    requires Law(start, s)
    ensures Law(start, Apply(s, SendOk))
  {
    var t := Apply(s, SendOk);
    assert forall k, b :: WasInput(s, k, b) ==> WasInput(t, k, b);
    if s.phase.Sending? {
      assert t.log[|s.log|] == Sent(s.phase.expected, s.phase.block, s.phase.seen);
    }
  }

  lemma StepKeepsLaw(start: nat, s: State, l: Label)
    requires Law(start, s)
    ensures Law(start, Apply(s, l))
  {
    if l.Insert? {
      InsertKeepsLaw(start, s, l.index, l.block);
    } else if l.SendOk? {
      SendKeepsLaw(start, s);
    } else {
      var t := Apply(s, l);
      assert t.log == s.log && forall k, b :: WasInput(s, k, b) ==> WasInput(t, k, b);
    }
  }

  lemma {:induction false} RunKeepsLaw(start: nat, s: State, labels: seq<Label>)
    requires Law(start, s)
    ensures Law(start, Run(s, labels))
  {
    if labels != [] {
      RunKeepsLaw(start, s, labels[..|labels| - 1]);
      StepKeepsLaw(start, Run(s, labels[..|labels| - 1]), labels[|labels| - 1]);
    }
  }

  /** Accounting: over every interleaving the cursor is exactly start + sent + raised, so blocks are
      never counted twice or forgotten. */
  lemma {:induction false} SenderAccounting(start: nat, labels: seq<Label>)
    ensures var s := Run(Fresh(start), labels);
            s.next + Owed(s) == start + |s.log| + s.raised
    ensures Law(start, Run(Fresh(start), labels))
  {
    RunKeepsLaw(start, Fresh(start), labels);
  }

  /** The log of successful sends is strictly increasing under every interleaving, and each hole in
      it is exactly what initialisation added between the two reads of the cursor. */
  lemma {:induction false} SentInOrder(start: nat, labels: seq<Label>, i: nat, j: nat)
    requires i < j < |Run(Fresh(start), labels).log|
    ensures var log := Run(Fresh(start), labels).log;
            && log[i].index < log[j].index
            && log[j].index - log[i].index == (j - i) + (log[j].raisedBefore - log[i].raisedBefore)
            && log[i].raisedBefore <= log[j].raisedBefore
  {
    SenderAccounting(start, labels);
  }

  /** Without a raise nothing is left out: the log is the interval that starts at `start`. */
  lemma {:induction false} NoRaiseNoGap(start: nat, labels: seq<Label>)
    requires Run(Fresh(start), labels).raised == 0
    ensures var s := Run(Fresh(start), labels);
            forall i :: 0 <= i < |s.log| ==> s.log[i].index == start + i
  {
    SenderAccounting(start, labels);
  }

  lemma {:induction false} NeverBack(s: State, labels: seq<Label>)
    ensures var t := Run(s, labels);
            t.next >= s.next && t.raised >= s.raised && s.log <= t.log && s.input <= t.input
  {
    if labels != [] {
      NeverBack(s, labels[..|labels| - 1]);
    }
  }

  // ----- Initialisation against a send in flight -----

  /** Finish the turn of the flush loop that is in progress; `ok` is the outcome of its send. */
  function FinishTurn(s: State, ok: bool): State
  {
    var t := Apply(s, Take);
    var u := Apply(t, if ok then SendOk else SendFail);
    Apply(u, Bump)
  }

  /** The turn in progress has sent, or is going to send, a block. */
  predicate SendsThisTurn(s: State, ok: bool)
  {
    match s.phase
    case Idle => false
    case Looking(e, _) => ok && e in s.buffer
    case Sending(_, _, _) => ok
    case Bumping => true
  }

  /** Initialisation means the executor waits for block v next.  The flusher will look for block v
      after its current turn if and only if that turn sends nothing. */
  lemma InitialiseRespectedIff(s: State, v: nat, ok: bool)
    requires v > s.next
    ensures var t := FinishTurn(Apply(s, Initialise(v)), ok);
            && t.phase.Idle?
            && (t.next == v <==> !SendsThisTurn(s, ok))
            && (t.next == v + 1 <==> SendsThisTurn(s, ok))
  {
  }

  /** Whatever an idle sender sends later is not below its cursor. */
  lemma {:induction false} LaterSendsAhead(s: State, labels: seq<Label>)
    requires s.phase.Idle?
    ensures var t := Run(s, labels);
            && t.next >= s.next
            && (t.phase.Looking? || t.phase.Sending? ==> t.phase.expected >= s.next)
            && |t.log| >= |s.log|
            && forall i :: |s.log| <= i < |t.log| ==> t.log[i].index >= s.next
  {
    if labels != [] {
      LaterSendsAhead(s, labels[..|labels| - 1]);
    }
  }

  /** When the raise lands on a turn that sends, block v is lost: whatever happens later, it is in
      no log of sent blocks, although the executor waits for it. */
  lemma {:induction false} SkippedForEver(start: nat, s: State, v: nat, ok: bool, labels: seq<Label>, i: nat)
    requires Law(start, s) && v > s.next && SendsThisTurn(s, ok)
    requires i < |Run(FinishTurn(Apply(s, Initialise(v)), ok), labels).log|
    ensures Run(FinishTurn(Apply(s, Initialise(v)), ok), labels).log[i].index != v
  {
    var t := FinishTurn(Apply(s, Initialise(v)), ok);
    InitialiseRespectedIff(s, v, ok);
    LaterSendsAhead(t, labels);
    NeverBack(t, labels);
    if i < |t.log| { assert Run(t, labels).log[i] == t.log[i]; }
  }

  lemma {:induction false} RunOfFive(s: State, l: seq<Label>)
    requires |l| == 5
    ensures Run(s, l) == Apply(Apply(Apply(Apply(Apply(s, l[0]), l[1]), l[2]), l[3]), l[4])
  {
    RunSnoc(s, l[..0], l[0]);
    RunSnoc(s, l[..1], l[1]);
    RunSnoc(s, l[..2], l[2]);
    RunSnoc(s, l[..3], l[3]);
    RunSnoc(s, l[..4], l[4]);
    assert l[..0] == [] && l[..1] == l[..0] + [l[0]] && l[..2] == l[..1] + [l[1]];
    assert l[..3] == l[..2] + [l[2]] && l[..4] == l[..3] + [l[3]] && l == l[..4] + [l[4]];
  }

  /** The sender with two blocks that has sent the first and not yet counted it. */
  lemma {:induction false} FirstOfTwoSent(a: Block, b: Block)
    ensures Run(Fresh(1), [Insert(1, a), Insert(2, b), Read, Take, SendOk]) ==
            State(1, map[2 := b], Bumping, [Input(1, a), Input(2, b)], [Sent(1, a, 0)], 0)
  {
    RunOfFive(Fresh(1), [Insert(1, a), Insert(2, b), Read, Take, SendOk]);
    var input := [Input(1, a), Input(2, b)];
    var s2 := Apply(Apply(Fresh(1), Insert(1, a)), Insert(2, b));
    assert s2 == State(1, map[1 := a, 2 := b], Idle, input, [], 0);
    var s4 := Apply(Apply(s2, Read), Take);
    assert s2.buffer - {1} == map[2 := b];
    assert s4 == State(1, map[2 := b], Sending(1, 0, a), input, [], 0);
  }

  /** It happens with truthful reports: the executor has processed block 1, reports it before the cursor
      is bumped for it, and block 2 stays in the buffer for ever. */
  lemma {:induction false} BlockTwoLost(a: Block, b: Block, labels: seq<Label>)
    ensures var s := Run(Fresh(1), [Insert(1, a), Insert(2, b), Read, Take, SendOk]);
            var t := Apply(Apply(s, Initialise(2)), Bump);
            && t == State(3, map[2 := b], Idle, [Input(1, a), Input(2, b)], [Sent(1, a, 0)], 1)
            && forall i :: 0 <= i < |Run(t, labels).log| ==> Run(t, labels).log[i].index != 2
  {
    FirstOfTwoSent(a, b);
    var before := [Insert(1, a), Insert(2, b), Read, Take, SendOk];
    SenderAccounting(1, before);
    var s := Run(Fresh(1), before);
    var t := FinishTurn(Apply(s, Initialise(2)), true);
    forall i | 0 <= i < |Run(t, labels).log| ensures Run(t, labels).log[i].index != 2 {
      SkippedForEver(1, s, 2, true, labels, i);
    }
  }

  /** The steps by which an idle sender is told to go to an index, gets a block for it and sends it. */
  function SendAt(index: nat, b: Block): seq<Label>
  {
    [Initialise(index), Insert(index, b), Read, Take, SendOk]
  }

  lemma {:induction false} SendAtSends(s: State, index: nat, b: Block)
    requires s.phase.Idle? && s.next <= index
    ensures var t := Run(s, SendAt(index, b));
            && |t.log| == |s.log| + 1 && t.log[|s.log|].index == index
            && t.input == s.input + [Input(index, b)]
  {
    var s1 := Apply(s, Initialise(index));
    var s2 := Apply(s1, Insert(index, b));
    var s4 := Apply(Apply(s2, Read), Take);
    assert s2.next == index && index in s2.buffer && s4.phase.Sending? && s4.phase.expected == index;
    RunOfFive(s, SendAt(index, b));
  }

  /** The block is sent in that continuation. */
  ghost predicate SentLater(s: State, more: seq<Label>, index: nat)
  {
    exists i :: |s.log| <= i < |Run(s, more).log| && Run(s, more).log[i].index == index
  }

  ghost predicate CanBeSent(s: State, index: nat)
  {
    exists more :: SentLater(s, more, index)
  }

  /** A sender whose blocks are base + 1, base + 2, ... can still send the next one due, in some
      continuation, if and only if initialisation has not moved the cursor by more than base. */
  lemma {:induction false} NextIsSentIff(base: nat, labels: seq<Label>)
    requires Run(Fresh(1), labels).phase.Idle?
    ensures var s := Run(Fresh(1), labels);
            CanBeSent(s, base + 1 + |s.log|) <==> s.raised <= base
  {
    var s := Run(Fresh(1), labels);
    var due := base + 1 + |s.log|;
    SenderAccounting(1, labels);
    if more :| SentLater(s, more, due) {
      LaterSendsAhead(s, more);
    }
    if s.raised <= base {
      SendAtSends(s, due, Block([], 0, 0));
      assert SentLater(s, SendAt(due, Block([], 0, 0)), due);
    }
  }

  // ----- First in, first out -----

  /** The blocks were put in under consecutive indices from `first`. */
  ghost predicate ConsecutiveInput(s: State, first: nat)
  {
    forall k :: 0 <= k < |s.input| ==> s.input[k].index == first + k
  }

  /** How many inputs have left the buffer: those sent, and the one in the flusher's hands. */
  function Gone(s: State): nat
  {
    |s.log| + if s.phase.Sending? then 1 else 0
  }

  /** The sent log is a prefix of the input, the next input may be in the flusher's hands, and the
      buffer holds exactly the rest, under their own indices. */
  ghost predicate Fifo(s: State, first: nat)
  {
    && Gone(s) <= |s.input|
    && (forall i :: 0 <= i < |s.log| ==> Input(s.log[i].index, s.log[i].block) == s.input[i])
    && (s.phase.Sending? ==> Input(s.phase.expected, s.phase.block) == s.input[|s.log|])
    && (forall k :: k in s.buffer <==> first + Gone(s) <= k < first + |s.input|)
    && (forall k :: k in s.buffer ==> s.buffer[k] == s.input[k - first].block)
  }

  /** Without a raise the cursor is determined by the number of blocks sent. */
  ghost predicate AtCursor(s: State, first: nat)
  {
    && s.next + Owed(s) == first + |s.log|
    && (s.phase.Bumping? ==> s.log != [])
    && (s.phase.Looking? || s.phase.Sending? ==> s.phase.expected == first + |s.log|)
  }

  lemma EarlierInput(s: State, l: Label, first: nat)
    requires ConsecutiveInput(Apply(s, l), first)
    ensures ConsecutiveInput(s, first)
  {
    forall k | 0 <= k < |s.input| ensures s.input[k].index == first + k {
      assert Apply(s, l).input[k] == s.input[k];
    }
  }

  lemma InsertKeepsFifo(first: nat, s: State, g: nat, b: Block)
    requires Fifo(s, first) && ConsecutiveInput(Apply(s, Insert(g, b)), first)
    ensures Fifo(Apply(s, Insert(g, b)), first)
  {
    if s.phase.Idle? {
      var t := Apply(s, Insert(g, b));
      assert t.input[|s.input|] == Input(g, b);
      assert g == first + |s.input|;
    }
  }

  lemma TakeKeepsFifo(first: nat, s: State)
    requires Fifo(s, first) && AtCursor(s, first) && ConsecutiveInput(s, first)
    ensures Fifo(Apply(s, Take), first)
  {
    if s.phase.Looking? && s.phase.expected in s.buffer {
      assert s.input[|s.log|].index == first + |s.log|;
    }
  }

  lemma FlusherKeepsFifo(first: nat, s: State, l: Label)
    requires Fifo(s, first) && AtCursor(s, first) && !l.Insert? && !l.Take?
    ensures Fifo(Apply(s, l), first)
  {
  }

  lemma StepKeepsFifo(first: nat, s: State, l: Label)
    requires Fifo(s, first) && AtCursor(s, first) && ConsecutiveInput(s, first)
    requires ConsecutiveInput(Apply(s, l), first) && Apply(s, l).raised == s.raised
    ensures Fifo(Apply(s, l), first) && AtCursor(Apply(s, l), first)
  {
    match l {
      case Insert(g, b) => InsertKeepsFifo(first, s, g, b);
      case Take => TakeKeepsFifo(first, s);
      case _ => FlusherKeepsFifo(first, s, l);
    }
  }

  /** Without a raise and with consecutive inputs every continuation stays first-in first-out. */
  lemma {:induction false} FifoKept(first: nat, s: State, labels: seq<Label>)
    requires Fifo(s, first) && AtCursor(s, first)
    requires var t := Run(s, labels); t.raised == s.raised && ConsecutiveInput(t, first)
    ensures Fifo(Run(s, labels), first) && AtCursor(Run(s, labels), first)
  {
    if labels != [] {
      var before, l := labels[..|labels| - 1], labels[|labels| - 1];
      var t := Run(s, before);
      NeverBack(s, before);
      EarlierInput(t, l, first);
      FifoKept(first, s, before);
      StepKeepsFifo(first, t, l);
    }
  }

  /** FIFO refinement.  With the cursor at the first index, consecutive inputs and no raise, the
      sent log followed by the block in hand and the buffer is the input sequence, whatever sends
      fail and however the steps interleave; when the flusher is idle the buffer's keys are exactly
      the interval from the cursor to the last input. */
  lemma {:induction false} FifoRefinement(first: nat, labels: seq<Label>)
    requires var s := Run(Fresh(first), labels); s.raised == 0 && ConsecutiveInput(s, first)
    ensures var s := Run(Fresh(first), labels);
            && Fifo(s, first) && AtCursor(s, first)
            && (s.phase.Idle? ==> forall k :: k in s.buffer <==> s.next <= k < first + |s.input|)
  {
    FifoKept(first, Fresh(first), labels);
  }

  /** A flush that found nothing more to send, without a raise, has drained the sender: this is what an
      undisturbed flush with successful sends ends in. */
  lemma {:induction false} FlushDrains(first: nat, s: State, steps: seq<Label>)
    requires Fifo(s, first) && AtCursor(s, first) && ConsecutiveInput(s, first)
    requires var t := Run(s, steps);
             t.input == s.input && t.raised == s.raised && t.phase.Idle? && t.next !in t.buffer
    ensures var t := Run(s, steps);
            t.buffer == map[] && |t.log| == |t.input|
  {
    FifoKept(first, s, steps);
  }

  // ----- A fresh client in a later epoch -----

  ghost predicate InputsAbove(s: State, base: nat)
  {
    forall k :: 0 <= k < |s.input| ==> s.input[k].index > base
  }

  /** Every initialisation of the run moves the cursor at most to v. */
  ghost predicate RaisesAtMost(labels: seq<Label>, v: nat)
  {
    forall i :: 0 <= i < |labels| && labels[i].Initialise? ==> labels[i].v <= v
  }

  lemma {:induction false} Silent(base: nat, labels: seq<Label>)
    requires 1 <= base && InputsAbove(Run(Fresh(1), labels), base) && RaisesAtMost(labels, base)
    ensures var s := Run(Fresh(1), labels);
            && s.log == [] && s.next <= base
            && (s.phase.Idle? || (s.phase.Looking? && s.phase.expected <= base))
            && forall k :: k in s.buffer ==> k > base
  {
    if labels != [] {
      var before, l := labels[..|labels| - 1], labels[|labels| - 1];
      var s, t := Run(Fresh(1), before), Run(Fresh(1), labels);
      forall k | 0 <= k < |s.input| ensures s.input[k].index > base {
        assert t.input[k] == s.input[k];
      }
      Silent(base, before);
      if l.Insert? && s.phase.Idle? {
        assert t.input[|s.input|].index == l.index;
      }
    }
  }

  /** A client made for a later epoch starts its cursor at 1 while its blocks start above `base`.  It
      can send a block, in some run, if and only if the executor has reported `base` processed
      blocks or more; until then it stays silent for ever. */
  lemma SilentUnlessCaughtUpIff(base: nat, v: nat)
    requires 1 <= base
    ensures (exists labels :: && RaisesAtMost(labels, v)
                              && InputsAbove(Run(Fresh(1), labels), base)
                              && Run(Fresh(1), labels).log != []) <==> v > base
  {
    if labels :| && RaisesAtMost(labels, v) && InputsAbove(Run(Fresh(1), labels), base)
                 && Run(Fresh(1), labels).log != [] {
      if v <= base { Silent(base, labels); }
    }
    if v > base {
      var labels := SendAt(v, Block([], 0, 0));
      SendAtSends(Fresh(1), v, Block([], 0, 0));
      assert RaisesAtMost(labels, v) && InputsAbove(Run(Fresh(1), labels), base) && Run(Fresh(1), labels).log != [];
    }
  }

  /** Nothing sent so far: the cursor, or the flusher's last look at it, is still below the blocks. */
  ghost predicate NotYet(s: State, base: nat)
  {
    && s.log == [] && s.next == 1 + s.raised <= base + 1
    && (s.phase.Idle? || (s.phase.Looking? && s.phase.expected <= base))
  }

  /** The cursor has reached the blocks, and exactly by a raise of base. */
  ghost predicate Arrived(s: State, base: nat)
  {
    AtCursor(s, base + 1) && s.raised == base
  }

  lemma StepBeforeArrival(base: nat, s: State, l: Label)
    requires Fifo(s, base + 1) && ConsecutiveInput(Apply(s, l), base + 1) && NotYet(s, base)
    requires Apply(s, l).raised <= base
    ensures Fifo(Apply(s, l), base + 1) && (NotYet(Apply(s, l), base) || Arrived(Apply(s, l), base))
  {
    if l.Insert? { InsertKeepsFifo(base + 1, s, l.index, l.block); }
  }

  lemma StepAfterArrival(base: nat, s: State, l: Label)
    requires Fifo(s, base + 1) && Arrived(s, base)
    requires ConsecutiveInput(s, base + 1) && ConsecutiveInput(Apply(s, l), base + 1)
    requires Apply(s, l).raised <= base
    ensures Fifo(Apply(s, l), base + 1) && Arrived(Apply(s, l), base)
  {
    StepKeepsFifo(base + 1, s, l);
  }

  /** The sender of an epoch, from its creation.  As long as initialisation moves the cursor by no more
      than base, at whatever points between lock scopes its answers arrive and whatever sends fail,
      the sent log followed by the block in hand and the buffer is the input sequence. */
  lemma {:induction false} FifoFromCreation(base: nat, labels: seq<Label>)
    requires var s := Run(Fresh(1), labels); ConsecutiveInput(s, base + 1) && s.raised <= base
    ensures var s := Run(Fresh(1), labels);
            Fifo(s, base + 1) && (NotYet(s, base) || Arrived(s, base))
  {
    if labels != [] {
      var before, l := labels[..|labels| - 1], labels[|labels| - 1];
      var s := Run(Fresh(1), before);
      assert Run(Fresh(1), labels) == Apply(s, l);
      EarlierInput(s, l, base + 1);
      FifoFromCreation(base, before);
      if NotYet(s, base) {
        StepBeforeArrival(base, s, l);
      } else {
        StepAfterArrival(base, s, l);
      }
    }
  }
}
