/** The sequential sender towards the executor: a buffer of blocks keyed by global index, a cursor,
    one flusher, and an initialisation that may move the cursor at any time. */
module SequentialSender {
  import opened Types

  datatype Block = Block(bytes: seq<Byte>, epoch: nat, commit: nat)

  datatype Input = Input(index: nat, block: Block)

  /** A block that reached the executor; `raisedBefore` is how far initialisation had moved the
      cursor when the flusher read it for this block. */
  datatype Sent = Sent(index: nat, block: Block, raisedBefore: nat)

  /** Where the flusher stands between two lock scopes: it has read the cursor, it has taken the
      block out of the buffer, it has sent it and must still move the cursor. */
  datatype Phase =
    | Idle
    | Looking(expected: nat, seen: nat)
    | Sending(expected: nat, seen: nat, block: Block)
    | Bumping

  datatype State = State(
    next: nat, buffer: map<nat, Block>, phase: Phase,
    input: seq<Input>, log: seq<Sent>, raised: nat)

  /** One step per lock scope.  `Initialise(v)` is `initialize_from_go` with the executor reporting
      v - 1 as its last block. */
  datatype Label =
    | Insert(index: nat, block: Block)
    | Read
    | Take
    | SendOk
    | SendFail
    | Bump
    | Initialise(v: nat)

  function Fresh(start: nat): State
  {
    State(start, map[], Idle, [], [], 0)
  }

  /** The effect of a step; a step that is not enabled leaves the state alone, so every sequence of
      labels is a run and every interleaving is some sequence of labels. */
  function Apply(s: State, l: Label): State
  {
    match l
    case Insert(g, b) =>
      if s.phase.Idle? then s.(buffer := s.buffer[g := b], input := s.input + [Input(g, b)]) else s
    case Read =>
      if s.phase.Idle? then s.(phase := Looking(s.next, s.raised)) else s
    case Take =>
      if !s.phase.Looking? then s
      else if s.phase.expected in s.buffer then
        s.(buffer := s.buffer - {s.phase.expected},
           phase := Sending(s.phase.expected, s.phase.seen, s.buffer[s.phase.expected]))
      else s.(phase := Idle)
    case SendOk =>
      if s.phase.Sending? then
        s.(log := s.log + [Sent(s.phase.expected, s.phase.block, s.phase.seen)], phase := Bumping)
      else s
    case SendFail =>
      if s.phase.Sending? then
        s.(buffer := s.buffer[s.phase.expected := s.phase.block], phase := Idle)
      else s
    case Bump =>
      if s.phase.Bumping? then s.(next := s.next + 1, phase := Idle) else s
    case Initialise(v) =>
      if v > s.next then s.(next := v, raised := s.raised + (v - s.next)) else s
  }

  function Run(s: State, labels: seq<Label>): State
  {
    if labels == [] then s
    else Apply(Run(s, labels[..|labels| - 1]), labels[|labels| - 1])
  }

  lemma {:induction false} RunSnoc(s: State, labels: seq<Label>, l: Label)
    ensures Run(s, labels + [l]) == Apply(Run(s, labels), l)
  {
    assert (labels + [l])[..|labels|] == labels;
  }

  lemma {:induction false} RunJoins(s: State, a: seq<Label>, b: seq<Label>)
    ensures Run(s, a + b) == Run(Run(s, a), b)
  {
    if b == [] {
      assert a + b == a;
    } else {
      var n := |b| - 1;
      RunJoins(s, a, b[..n]);
      RunSnoc(s, a + b[..n], b[n]);
      assert a + b == (a + b[..n]) + [b[n]];
    }
  }

  // ----- The client itself -----

  /** What happens around one flush: whether the connection is up, which sends succeed, and which
      initialisations other tasks run between its lock scopes (the executor's reported last block,
      or no answer). */
  datatype World = World(connected: bool, sends: nat -> bool, interference: nat -> Option<nat>)

  /** No other task touches the cursor while the flush runs. */
  ghost predicate Undisturbed(world: World)
  {
    forall k :: world.interference(k).None?
  }

  function Indices(sent: seq<Sent>): set<nat>
  {
    set i | 0 <= i < |sent| :: sent[i].index
  }

  /** From s to t, n blocks were sent: each was in the buffer under its index and no longer is, all others
      are as before, and the cursor moved by n and by what initialisation added. */
  ghost predicate SentFrom(s: State, t: State, n: nat)
  {
    && |t.log| == |s.log| + n && s.log <= t.log && t.input == s.input
    && t.raised >= s.raised && t.next == s.next + n + (t.raised - s.raised)
    && (forall k :: |s.log| <= k < |t.log| ==> HeldBy(s, t.log[k]))
    && t.buffer == s.buffer - Indices(t.log[|s.log|..])
  }

  ghost predicate HeldBy(s: State, b: Sent)
  {
    b.index in s.buffer && s.buffer[b.index] == b.block
  }

  /** The blocks sent are those at the cursor and after it, without a gap. */
  ghost predicate InRow(s: State, t: State)
  {
    t.raised == s.raised && forall k :: |s.log| <= k < |t.log| ==> t.log[k].index == s.next + (k - |s.log|)
  }

  lemma {:induction false} NoneSent(s: State, t: State)
    requires t.log == s.log && t.input == s.input && t.buffer == s.buffer
    requires t.raised >= s.raised && t.next == s.next + (t.raised - s.raised)
    ensures SentFrom(s, t, 0)
  {
    assert t.log[|s.log|..] == [];
  }

  lemma {:induction false} IndicesSnoc(sent: seq<Sent>, b: Sent)
    ensures Indices(sent + [b]) == Indices(sent) + {b.index}
  {
    var all := sent + [b];
    assert all[|sent|] == b;
    forall i | 0 <= i < |sent| ensures all[i] == sent[i] {
    }
  }

  /** One block more. */
  lemma {:induction false} OneMoreSent(s: State, t: State, u: State, n: nat, b: Sent)
    requires SentFrom(s, t, n) && u.log == t.log + [b] && u.input == t.input && HeldBy(t, b)
    requires u.buffer == t.buffer - {b.index} && u.raised >= t.raised && u.next == t.next + 1 + (u.raised - t.raised)
    ensures SentFrom(s, u, n + 1)
  {
    assert u.log[|s.log|..] == t.log[|s.log|..] + [b];
    IndicesSnoc(t.log[|s.log|..], b);
  }

  /** One turn: the block at the cursor is sent, if it is there and its send succeeds, and otherwise
      nothing but the cursor changes, and this only by initialisation. */
  ghost predicate Turn(s: State, t: State, ok: bool, more: bool)
  {
    && t.input == s.input && t.phase.Idle? && t.raised >= s.raised
    && (more <==> ok && s.next in s.buffer)
    && if more then
         && t.log == s.log + [Sent(s.next, s.buffer[s.next], s.raised)]
         && t.buffer == s.buffer - {s.next} && t.next == s.next + 1 + (t.raised - s.raised)
       else
         t.log == s.log && t.buffer == s.buffer && t.next == s.next + (t.raised - s.raised)
  }

  /** A flush after n sends: the first n succeeded, and it goes on until the one after them fails or the
      block at the cursor, as last read, is missing. */
  ghost predicate Flushing(s: State, t: State, world: World, n: nat, more: bool, stop: nat)
  {
    && SentFrom(s, t, n) && (forall k :: 0 <= k < n ==> world.sends(k)) && stop <= t.next
    && (!more && world.sends(n) ==> stop !in t.buffer)
    && (Undisturbed(world) ==> InRow(s, t) && (!more ==> stop == t.next))
  }

  lemma {:induction false} TurnFlushes(s: State, t: State, u: State, world: World, n: nat, more: bool, stop: nat)
    requires Flushing(s, t, world, n, true, stop) && Turn(t, u, world.sends(n), more)
    requires Undisturbed(world) ==> u.raised == t.raised
    ensures Flushing(s, u, world, if more then n + 1 else n, more, t.next)
  {
    if more {
      OneMoreSent(s, t, u, n, Sent(t.next, t.buffer[t.next], t.raised));
    } else {
      assert u.log[|s.log|..] == t.log[|s.log|..];
    }
  }

  class ExecutorClient {
    const enabled: bool
    const canCommit: bool
    var sendBuffer: map<nat, Block>
    var nextExpected: nat
    ghost var phase: Phase
    ghost var input: seq<Input>
    ghost var log: seq<Sent>
    ghost var raised: nat
    var clock: nat  // counts the points at which other tasks may run

    ghost function View(): State
      reads this
    {
      State(nextExpected, sendBuffer, phase, input, log, raised)
    }

    constructor (enabled: bool, canCommit: bool)
      ensures this.enabled == enabled && this.canCommit == canCommit
      ensures View() == Fresh(1)
    {
      this.enabled, this.canCommit := enabled, canCommit;
      sendBuffer, nextExpected, clock := map[], 1, 0;
      phase, input, log, raised := Idle, [], [], 0;
    }

    /** The cursor moves up to the executor's last block plus one, never down. */
    method InitializeFromGo(reported: Option<nat>)
      modifies this`nextExpected, this`raised
      ensures View() == if enabled && reported.Some? then Apply(old(View()), Initialise(reported.value + 1))
                        else old(View())
      ensures nextExpected == if enabled && reported.Some? && reported.value >= old(nextExpected)
                              then reported.value + 1 else old(nextExpected)
      ensures raised - old(raised) == nextExpected - old(nextExpected) >= 0
    {
      if !enabled { return; }
      if reported.Some? {
        var candidate := reported.value + 1;
        if candidate > nextExpected {
          raised := raised + (candidate - nextExpected);
          nextExpected := candidate;
        }
      }
    }

    /** A point between two lock scopes where another task may initialise the cursor. */
    method Interfere(world: World) returns (ghost steps: seq<Label>)
      modifies this`nextExpected, this`raised, this`clock
      ensures View() == Run(old(View()), steps) && clock == old(clock) + 1
      ensures var reported := world.interference(old(clock));
              nextExpected == if enabled && reported.Some? && reported.value >= old(nextExpected)
                              then reported.value + 1 else old(nextExpected)
      ensures raised - old(raised) == nextExpected - old(nextExpected) >= 0
    {
      steps := [];
      var reported := world.interference(clock);
      clock := clock + 1;
      InitializeFromGo(reported);
      if enabled && reported.Some? {
        steps := [Initialise(reported.value + 1)];
        assert steps[..0] == [];
      }
    }

    // One method per lock scope of the flusher.

    method ReadCursor() returns (expected: nat)
      requires phase.Idle?
      modifies this`phase
      ensures View() == Apply(old(View()), Read)
      ensures phase.Looking? && phase.expected == expected
    {
      expected := nextExpected;
      phase := Looking(expected, raised);
    }

    method TakeBlock(expected: nat) returns (block: Option<Block>)
      requires phase.Looking? && phase.expected == expected
      modifies this`phase, this`sendBuffer
      ensures View() == Apply(old(View()), Take)
      ensures if block.Some?
              then phase == Sending(expected, old(phase).seen, block.value) && |sendBuffer| < |old(sendBuffer)|
              else phase.Idle?
    {
      if expected !in sendBuffer {
        phase := Idle;
        return None;
      }
      block := Some(sendBuffer[expected]);
      sendBuffer := sendBuffer - {expected};
      phase := Sending(expected, phase.seen, block.value);
    }

    method PutBack(expected: nat, block: Block)
      requires phase.Sending? && phase.expected == expected && phase.block == block
      modifies this`phase, this`sendBuffer
      ensures View() == Apply(old(View()), SendFail) && phase.Idle?
    {
      sendBuffer := sendBuffer[expected := block];
      phase := Idle;
    }

    ghost method RecordSent()
      requires phase.Sending?
      modifies this`phase, this`log
      ensures View() == Apply(old(View()), SendOk) && phase.Bumping?
    {
      log := log + [Sent(phase.expected, phase.block, phase.seen)];
      phase := Bumping;
    }

    method BumpCursor()
      requires phase.Bumping?
      modifies this`phase, this`nextExpected
      ensures View() == Apply(old(View()), Bump) && phase.Idle?
    {
      nextExpected := nextExpected + 1;
      phase := Idle;
    }

    /** The first half of a turn: read the cursor, and take the block it names. */
    method TakeAtCursor(world: World) returns (expected: nat, block: Option<Block>, ghost steps: seq<Label>)
      requires phase.Idle?
      modifies this
      ensures View() == Run(old(View()), steps) && log == old(log) && input == old(input)
      ensures expected == old(nextExpected)
      ensures raised >= old(raised) && nextExpected == old(nextExpected) + (raised - old(raised))
      ensures Undisturbed(world) ==> raised == old(raised)
      ensures var e := old(nextExpected);
              if e in old(sendBuffer)
              then block == Some(old(sendBuffer)[e]) && sendBuffer == old(sendBuffer) - {e} &&
                   phase == Sending(e, old(raised), block.value)
              else block.None? && sendBuffer == old(sendBuffer) && phase.Idle?
    {
      ghost var s := View();
      expected := ReadCursor();
      RunSnoc(s, [], Read);
      ghost var other := Interfere(world);
      RunJoins(s, [Read], other);
      block := TakeBlock(expected);
      RunSnoc(s, [Read] + other, Take);
      steps := [Read] + other + [Take];
    }

    /** The second half: the send, and what its outcome leads to. */
    method SendTaken(world: World, expected: nat, block: Block, ok: bool) returns (ghost steps: seq<Label>)
      requires phase.Sending? && phase.expected == expected && phase.block == block
      modifies this
      ensures View() == Run(old(View()), steps) && input == old(input) && phase.Idle?
      ensures raised >= old(raised) && (Undisturbed(world) ==> raised == old(raised))
      ensures if ok
              then log == old(log) + [Sent(expected, block, old(phase).seen)] && sendBuffer == old(sendBuffer) &&
                   nextExpected == old(nextExpected) + 1 + (raised - old(raised))
              else log == old(log) && sendBuffer == old(sendBuffer)[expected := block] &&
                   nextExpected == old(nextExpected) + (raised - old(raised))
    {
      ghost var s := View();
      steps := Interfere(world);
      if !ok {
        PutBack(expected, block);
        RunSnoc(s, steps, SendFail);
        steps := steps + [SendFail];
        return;
      }
      RecordSent();
      RunSnoc(s, steps, SendOk);
      steps := steps + [SendOk];
      ghost var other := Interfere(world);
      RunJoins(s, steps, other);
      steps := steps + other;
      BumpCursor();
      RunSnoc(s, steps, Bump);
      steps := steps + [Bump];
    }

    /** One turn of the flush loop, with other tasks running between its lock scopes. */
    method FlushOne(world: World, ok: bool) returns (more: bool, ghost steps: seq<Label>)
      requires phase.Idle?
      modifies this
      ensures View() == Run(old(View()), steps) && Turn(old(View()), View(), ok, more)
      ensures more ==> |sendBuffer| < |old(sendBuffer)|
      ensures Undisturbed(world) ==> raised == old(raised)
    {
      ghost var s := View();
      var expected, block;
      expected, block, steps := TakeAtCursor(world);
      if block.None? { return false, steps; }
      ghost var rest := SendTaken(world, expected, block.value, ok);
      RunJoins(s, steps, rest);
      more := ok;
      steps := steps + rest;
    }

    /** Every flush, with whatever interference and send failures, is a run of the step machine, and
        it ends because each turn that goes on has taken a block out of the buffer.  The k-th send of the
        flush must succeed for its block to be sent; with the first that fails the flush ends and the
        block stays.  `stop` is the cursor as the last turn read it. */
    method FlushBuffer(world: World) returns (ghost steps: seq<Label>, ghost stop: nat)
      requires phase.Idle?
      modifies this
      ensures View() == Run(old(View()), steps) && phase.Idle?
      ensures |log| >= |old(log)| && SentFrom(old(View()), View(), |log| - |old(log)|)
      ensures !world.connected ==> View() == old(View())
      ensures forall k :: 0 <= k < |log| - |old(log)| ==> world.sends(k)
      ensures world.connected && world.sends(|log| - |old(log)|) ==> stop !in sendBuffer
      ensures stop <= nextExpected
      ensures Undisturbed(world) ==> stop == nextExpected && InRow(old(View()), View())
    {
      steps, stop := [], nextExpected;
      ghost var s := View();
      NoneSent(s, s);
      if !world.connected { return; }
      var attempt, more := 0, true;
      ghost var n := 0;
      while more
        invariant View() == Run(s, steps) && phase.Idle?
        invariant Flushing(s, View(), world, n, more, stop) && attempt == (if more then n else n + 1)
        decreases if more then |sendBuffer| + 1 else 0
      {
        ghost var turn, before := [], View();
        more, turn := FlushOne(world, world.sends(attempt));
        TurnFlushes(s, before, View(), world, n, more, stop);
        RunJoins(s, steps, turn);
        steps, stop := steps + turn, before.next;
        n := if more then n + 1 else n;
        attempt := attempt + 1;
      }
    }

    /** Buffer one block and try to send what is in order; a client that is off, or may not commit,
        ignores it. */
    method SendCommittedSubdag(globalIndex: nat, block: Block, world: World)
      returns (ghost steps: seq<Label>, ghost stop: nat)
      requires phase.Idle?
      modifies this
      ensures View() == Run(old(View()), steps) && phase.Idle?
      ensures !(enabled && canCommit) ==> View() == old(View())
      ensures enabled && canCommit ==>
                var s := old(View()).(buffer := old(sendBuffer)[globalIndex := block],
                                      input := old(input) + [Input(globalIndex, block)]);
                var n := |log| - |old(log)|;
                && n >= 0 && SentFrom(s, View(), n) && stop <= nextExpected
                && (!world.connected ==> View() == s)
                && (forall k :: 0 <= k < n ==> world.sends(k))
                && (world.connected && world.sends(n) ==> stop !in sendBuffer)
                && (Undisturbed(world) ==> stop == nextExpected && InRow(s, View()))
    {
      steps, stop := [], nextExpected;
      if !enabled || !canCommit { return; }
      sendBuffer := sendBuffer[globalIndex := block];
      input := input + [Input(globalIndex, block)];
      ghost var flush;
      flush, stop := FlushBuffer(world);
      steps := [Insert(globalIndex, block)] + flush;
      RunJoins(old(View()), [Insert(globalIndex, block)], flush);
      assert [Insert(globalIndex, block)][..0] == [];
    }
  }
}
