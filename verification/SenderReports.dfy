/** Which reports of the executor let a sender deliver everything. */
module SenderReports {
  import opened SequentialSender
  import opened SenderOrdering

  ghost predicate NoReport(labels: seq<Label>)
  {
    forall i :: 0 <= i < |labels| ==> !labels[i].Initialise?
  }

  /** In the continuation blocks base + 1, base + 2, ... keep coming, and at least n of them are sent,
      none left out. */
  ghost predicate Delivers(s: State, more: seq<Label>, base: nat, n: nat)
  {
    var t := Run(s, more);
    ConsecutiveInput(t, base + 1) && |t.log| >= n && forall i :: 0 <= i < |t.log| ==> t.log[i].index == base + 1 + i
  }

  /** Without a further report, n blocks can be delivered. */
  ghost predicate CanDeliver(s: State, base: nat, n: nat)
  {
    exists more :: NoReport(more) && Delivers(s, more, base, n)
  }

  /** Turns that start after the last report see all of the raise. */
  lemma {:induction false} LaterTurns(s: State, more: seq<Label>)
    requires NoReport(more)
    ensures var t := Run(s, more);
            && t.raised == s.raised && |t.log| >= |s.log|
            && (|t.log| > |s.log| && (t.phase.Looking? || t.phase.Sending?) ==> t.phase.seen == s.raised)
            && forall i :: |s.log| < i < |t.log| ==> t.log[i].raisedBefore == s.raised
  {
    if more != [] {
      LaterTurns(s, more[..|more| - 1]);
    }
  }

  /** So if the cursor was moved by another amount than base, not everything can be delivered. */
  lemma {:induction false} MissesSome(base: nat, labels: seq<Label>)
    requires var s := Run(Fresh(1), labels); CanDeliver(s, base, |s.log| + 2)
    ensures Run(Fresh(1), labels).raised == base
  {
    var s := Run(Fresh(1), labels);
    var more :| NoReport(more) && Delivers(s, more, base, |s.log| + 2);
    LaterTurns(s, more);
    RunJoins(Fresh(1), labels, more);
    SenderAccounting(1, labels + more);
    var t := Run(s, more);
    assert t.log[|s.log| + 1].index == base + 1 + (|s.log| + 1);
  }

  /** An idle sender at its next block. */
  ghost predicate Poised(s: State, base: nat)
  {
    s.phase.Idle? && Fifo(s, base + 1) && AtCursor(s, base + 1) && ConsecutiveInput(s, base + 1)
  }

  lemma {:induction false} FinishTurnRuns(s: State)
    ensures Run(s, [Take, SendOk, Bump]) == FinishTurn(s, true)
  {
    RunSnoc(s, [], Take);
    RunSnoc(s, [Take], SendOk);
    RunSnoc(s, [Take, SendOk], Bump);
    assert [] + [Take] == [Take] && [Take] + [SendOk] == [Take, SendOk];
    assert [Take, SendOk] + [Bump] == [Take, SendOk, Bump];
  }

  lemma {:induction false} TurnFindsNothing(s: State)
    requires s.phase.Idle? || (s.phase.Looking? && s.phase.expected !in s.buffer)
    ensures FinishTurn(s, true) == s.(phase := Idle)
  {
  }

  lemma {:induction false} IdleKeepsFifo(s: State, first: nat)
    requires Fifo(s, first) && !s.phase.Sending?
    ensures Fifo(s.(phase := Idle), first)
  {
    assert Gone(s.(phase := Idle)) == Gone(s);
  }

  lemma {:induction false} IdleAfterTurn(base: nat, s: State)
    requires Fifo(s, base + 1) && ConsecutiveInput(s, base + 1) && s.raised == base && NotYet(s, base)
    ensures Poised(FinishTurn(s, true), base)
  {
    TurnFindsNothing(s);
    IdleKeepsFifo(s, base + 1);
  }

  lemma {:induction false} TurnKeeps(s: State)
    ensures var t := FinishTurn(s, true); t.phase.Idle? && t.raised == s.raised && t.input == s.input
  {
  }

  lemma {:induction false} PoisedWhenArrived(base: nat, s: State)
    requires Fifo(s, base + 1) && ConsecutiveInput(s, base + 1) && Arrived(s, base)
    ensures Poised(FinishTurn(s, true), base)
  {
    TurnKeeps(s);
    FinishTurnRuns(s);
    FifoKept(base + 1, s, [Take, SendOk, Bump]);
  }

  lemma {:induction false} PoisedAfterTurn(base: nat, s: State)
    requires Fifo(s, base + 1) && ConsecutiveInput(s, base + 1) && s.raised == base
    requires NotYet(s, base) || Arrived(s, base)
    ensures Poised(FinishTurn(s, true), base)
  {
    if Arrived(s, base) {
      PoisedWhenArrived(base, s);
    } else {
      IdleAfterTurn(base, s);
    }
  }

  /** The steps that bring the next block if it is not there, and send it. */
  function NextTurn(s: State, b: Block): seq<Label>
  {
    (if s.next in s.buffer then [] else [Insert(s.next, b)]) + [Read, Take, SendOk, Bump]
  }

  lemma {:induction false} TurnSends(s: State)
    requires s.phase.Idle? && s.next in s.buffer
    ensures var t := Run(s, [Read, Take, SendOk, Bump]);
            t.phase.Idle? && |t.log| == |s.log| + 1 && t.input == s.input && t.raised == s.raised
  {
    var t := Apply(s, Read);
    FinishTurnRuns(t);
    RunSnoc(s, [], Read);
    assert [] + [Read] == [Read] && [Read] + [Take, SendOk, Bump] == [Read, Take, SendOk, Bump];
    RunJoins(s, [Read], [Take, SendOk, Bump]);
  }

  lemma {:induction false} NextTurnSends(base: nat, s: State, b: Block)
    requires Poised(s, base)
    ensures var t := Run(s, NextTurn(s, b)); Poised(t, base) && |t.log| == |s.log| + 1
  {
    var turn := [Read, Take, SendOk, Bump];
    if s.next in s.buffer {
      assert NextTurn(s, b) == turn;
      TurnSends(s);
      FifoKept(base + 1, s, turn);
    } else {
      var t := Apply(s, Insert(s.next, b));
      assert |s.input| == |s.log| by { assert |s.log| < |s.input| ==> base + 1 + |s.log| in s.buffer; }
      assert ConsecutiveInput(t, base + 1);
      InsertKeepsFifo(base + 1, s, s.next, b);
      TurnSends(t);
      FifoKept(base + 1, t, turn);
      RunSnoc(s, [], Insert(s.next, b));
      assert [] + [Insert(s.next, b)] == [Insert(s.next, b)];
      RunJoins(s, [Insert(s.next, b)], turn);
    }
  }

  lemma {:induction false} PoisedDelivers(base: nat, s: State, n: nat)
    requires Poised(s, base)
    ensures CanDeliver(s, base, n)
    decreases if n <= |s.log| then 0 else n - |s.log|
  {
    if n <= |s.log| {
      assert NoReport([]) && Delivers(s, [], base, n) by {
        assert forall i :: 0 <= i < |s.log| ==> Input(s.log[i].index, s.log[i].block) == s.input[i];
      }
    } else {
      var first := NextTurn(s, Block([], 0, 0));
      NextTurnSends(base, s, Block([], 0, 0));
      var t := Run(s, first);
      PoisedDelivers(base, t, n);
      var more :| NoReport(more) && Delivers(t, more, base, n);
      RunJoins(s, first, more);
      assert NoReport(first + more) && Delivers(s, first + more, base, n);
    }
  }

  lemma {:induction false} DeliversAfterTurn(base: nat, s: State, n: nat)
    requires Poised(FinishTurn(s, true), base)
    ensures CanDeliver(s, base, n)
  {
    var turn, t := [Take, SendOk, Bump], FinishTurn(s, true);
    PoisedDelivers(base, t, n);
    var more :| NoReport(more) && Delivers(t, more, base, n);
    FinishTurnRuns(s);
    RunJoins(s, turn, more);
    assert NoReport(turn + more) && Delivers(s, turn + more, base, n);
  }

  /** Everything can be delivered, without a further report, if and only if the reports have moved the
      cursor by exactly base: less leaves the sender silent, more leaves a hole. */
  lemma {:induction false} DeliversAllIff(base: nat, labels: seq<Label>)
    requires ConsecutiveInput(Run(Fresh(1), labels), base + 1)
    ensures var s := Run(Fresh(1), labels);
            (forall n :: CanDeliver(s, base, n)) <==> s.raised == base
  {
    var s := Run(Fresh(1), labels);
    if forall n :: CanDeliver(s, base, n) {
      assert CanDeliver(s, base, |s.log| + 2);
      MissesSome(base, labels);
    }
    if s.raised == base {
      FifoFromCreation(base, labels);
      PoisedAfterTurn(base, s);
      forall n ensures CanDeliver(s, base, n) {
        DeliversAfterTurn(base, s, n);
      }
    }
  }

  /** A client is initialised once.  For a later epoch everything can be delivered if and only if the one
      report is exactly of the blocks before it; for the first epoch if and only if the report is not
      ahead of the cursor when it lands. */
  lemma {:induction false} OneReportIff(base: nat, before: seq<Label>, v: nat)
    requires NoReport(before) && ConsecutiveInput(Run(Fresh(1), before), base + 1) && v >= 1
    ensures var s := Run(Fresh(1), before);
            (forall n :: CanDeliver(Apply(s, Initialise(v)), base, n)) <==>
            if base == 0 then v <= s.next else v == base + 1
  {
    var s := Run(Fresh(1), before);
    LaterTurns(Fresh(1), before);
    FifoFromCreation(base, before);
    RunSnoc(Fresh(1), before, Initialise(v));
    DeliversAllIff(base, before + [Initialise(v)]);
  }
}
