/** Length-prefixed frames on the socket to the executor: base-128 varints, least significant group
    first, high bit set on all bytes but the last (Protocol Buffers encoding guide, "Base 128
    Varints"). */
module Framing {
  import opened Types

  type Bytes = seq<Byte>

  /** The shortest varint of a number. */
  function Uvarint(v: nat): (r: Bytes)
    ensures |r| >= 1
  {
    if v < 128 then [v as Byte] else [(v % 128 + 128) as Byte] + Uvarint(v / 128)
  }

  /** `write_uvarint`: append the varint of a u64 to the buffer. */
  method WriteUvarint(buf: Bytes, value: nat) returns (out: Bytes)
    requires value <= MAX_U64
    ensures out == buf + Uvarint(value)
  {
    out := buf;
    var rest, done := value, false;
    while !done
      invariant !done ==> out + Uvarint(rest) == buf + Uvarint(value)
      invariant done ==> out == buf + Uvarint(value)
      decreases if done then 0 else rest + 1
    {
      var b := rest % 128;
      rest := rest / 128;
      if rest != 0 {
        b := b + 128;
      }
      out := out + [b as Byte];
      if rest == 0 {
        done := true;
      }
    }
  }

  datatype Read = Failure | Success(value: nat, rest: Bytes)

  /** The reader on the other side, at byte number i of a varint: a u64 has at most ten bytes and the
      tenth may only hold the top bit. */
  function ReadUvarint(bs: Bytes, i: nat): (r: Read)
    requires i <= 10
    ensures r.Success? ==> |r.rest| < |bs| && bs == bs[..|bs| - |r.rest|] + r.rest
    decreases 10 - i
  {
    if i == 10 || bs == [] then Failure
    else if bs[0] < 128 then
      if i == 9 && bs[0] > 1 then Failure else Success(bs[0] as nat, bs[1..])
    else
      match ReadUvarint(bs[1..], i + 1)
      case Failure => Failure
      case Success(v, rest) => Success((bs[0] as nat - 128) + 128 * v, rest)
  }

  /** How large a number still fits from byte number i on. */
  function Room(i: nat): nat
    requires i <= 9
    decreases 9 - i
  {
    if i == 9 then 2 else 128 * Room(i + 1)
  }

  lemma {:induction false} ReadGroup(b: Byte, bs: Bytes, i: nat)
    requires i < 10 && b >= 128 && ReadUvarint(bs, i + 1).Success?
    ensures var r := ReadUvarint(bs, i + 1);
            ReadUvarint([b] + bs, i) == Success(b as nat - 128 + 128 * r.value, r.rest)
  {
    assert ([b] + bs)[1..] == bs;
  }

  lemma {:induction false} Regroup(v: nat, rest: Bytes)
    requires v >= 128
    ensures Uvarint(v) + rest == [(v % 128 + 128) as Byte] + (Uvarint(v / 128) + rest)
  {
  }

  lemma {:induction false} ReadBack(v: nat, rest: Bytes, i: nat)
    requires i <= 9 && v < Room(i)
    ensures ReadUvarint(Uvarint(v) + rest, i) == Success(v, rest)
    ensures |Uvarint(v)| <= 10 - i
    decreases v
  {
    if v < 128 {
      assert (Uvarint(v) + rest)[1..] == rest;
    } else {
      ReadBack(v / 128, rest, i + 1);
      ReadGroup((v % 128 + 128) as Byte, Uvarint(v / 128) + rest, i);
      Regroup(v, rest);
    }
  }

  /** Round trip: every u64 is read back from its varint, whatever follows, in at most ten bytes. */
  lemma {:induction false} RoundTrip(v: nat, rest: Bytes)
    requires v <= MAX_U64
    ensures ReadUvarint(Uvarint(v) + rest, 0) == Success(v, rest)
    ensures |Uvarint(v)| <= 10
  {
    assert Room(6) == 0x40_0000 && Room(3) == 0x800_0000_0000 && Room(0) == MAX_U64 + 1;
    ReadBack(v, rest, 0);
  }

  lemma UvarintGroup(low: nat, v: nat)
    requires low < 128
    ensures Uvarint(low + 128 * v) == if v == 0 then [low as Byte] else [(low + 128) as Byte] + Uvarint(v)
  {
    assert (low + 128 * v) % 128 == low && (low + 128 * v) / 128 == v;
  }

  /** The bytes are at least as many as the varint of v, and it when they are as many. */
  predicate AtLeast(bs: Bytes, v: nat)
  {
    |bs| > |Uvarint(v)| || bs == Uvarint(v)
  }

  lemma {:induction false} OneGroupMore(low: nat, v: nat, bs: Bytes)
    requires low < 128 && bs != [] && AtLeast(bs, v)
    ensures AtLeast([(low + 128) as Byte] + bs, low + 128 * v)
  {
    UvarintGroup(low, v);
  }

  lemma {:induction false} ShortestStep(b: Byte, tail: Bytes, i: nat)
    requires i < 10 && b >= 128 && ReadUvarint(tail, i + 1).Success?
    requires var s := ReadUvarint(tail, i + 1);
             AtLeast(tail[..|tail| - |s.rest|], s.value)
    ensures var bs := [b] + tail;
            var r := ReadUvarint(bs, i);
            r.Success? && AtLeast(bs[..|bs| - |r.rest|], r.value)
  {
    ReadGroup(b, tail, i);
    var s := ReadUvarint(tail, i + 1);
    var used := |tail| - |s.rest|;
    OneGroupMore(b as nat - 128, s.value, tail[..used]);
    assert ([b] + tail)[..used + 1] == [b] + tail[..used];
  }

  /** No shorter form: any bytes that read as v take at least as many bytes as its varint, and only
      the varint itself takes that few. */
  lemma {:induction false} Shortest(bs: Bytes, i: nat)
    requires i <= 10 && ReadUvarint(bs, i).Success?
    ensures var r := ReadUvarint(bs, i);
            AtLeast(bs[..|bs| - |r.rest|], r.value)
    decreases 10 - i
  {
    if bs[0] < 128 {
      assert bs[..1] == [bs[0]];
    } else {
      Shortest(bs[1..], i + 1);
      ShortestStep(bs[0], bs[1..], i);
      assert bs == [bs[0]] + bs[1..];
    }
  }

  /** The code is prefix-free. */
  lemma PrefixFree(v: nat, w: nat)
    requires v <= MAX_U64 && w <= MAX_U64 && Uvarint(v) <= Uvarint(w)
    ensures v == w
  {
    var tail := Uvarint(w)[|Uvarint(v)|..];
    assert Uvarint(v) + tail == Uvarint(w) + [];
    RoundTrip(v, tail);
    RoundTrip(w, []);
  }

  // ----- Streams of frames -----

  /** `send_block_data`: the length, then the payload. */
  function Frame(payload: Bytes): Bytes
  {
    Uvarint(|payload|) + payload
  }

  function Stream(payloads: seq<Bytes>): Bytes
  {
    if payloads == [] then [] else Frame(payloads[0]) + Stream(payloads[1..])
  }

  /** What the receiver makes of a byte stream; None when it ends inside a frame. */
  function Parse(bs: Bytes): Option<seq<Bytes>>
    decreases |bs|
  {
    if bs == [] then Some([])
    else
      match ReadUvarint(bs, 0)
      case Failure => None
      case Success(n, rest) =>
        if n > |rest| then None
        else
          match Parse(rest[n..])
          case None => None
          case Some(payloads) => Some([rest[..n]] + payloads)
  }

  ghost predicate Sendable(payloads: seq<Bytes>)
  {
    forall i :: 0 <= i < |payloads| ==> |payloads[i]| <= MAX_U64
  }

  lemma {:induction false} ParseStep(bs: Bytes, n: nat, rest: Bytes)
    requires bs != [] && ReadUvarint(bs, 0) == Success(n, rest) && n <= |rest| && Parse(rest[n..]).Some?
    ensures Parse(bs) == Some([rest[..n]] + Parse(rest[n..]).value)
  {
  }

  lemma {:induction false} ReadFrame(p: Bytes, tail: Bytes)
    requires |p| <= MAX_U64
    ensures ReadUvarint(Frame(p) + tail, 0) == Success(|p|, p + tail)
  {
    assert Frame(p) + tail == Uvarint(|p|) + (p + tail);
    RoundTrip(|p|, p + tail);
  }

  /** A frame in front is one payload in front. */
  lemma {:induction false} ParseFrame(p: Bytes, tail: Bytes)
    requires |p| <= MAX_U64 && Parse(tail).Some?
    ensures Parse(Frame(p) + tail) == Some([p] + Parse(tail).value)
  {
    var rest := p + tail;
    assert rest[..|p|] == p && rest[|p|..] == tail;
    ReadFrame(p, tail);
    ParseStep(Frame(p) + tail, |p|, rest);
  }

  /** Any sequence of payloads is parsed back from its stream. */
  lemma {:induction false} StreamRoundTrip(payloads: seq<Bytes>)
    requires Sendable(payloads)
    ensures Parse(Stream(payloads)) == Some(payloads)
  {
    if payloads != [] {
      var p, tail := payloads[0], payloads[1..];
      StreamRoundTrip(tail);
      ParseFrame(p, Stream(tail));
      assert payloads == [p] + tail;
    }
  }

  /** Two different sequences of payloads never give the same stream. */
  lemma {:induction false} StreamUnique(a: seq<Bytes>, b: seq<Bytes>)
    requires Sendable(a) && Sendable(b) && Stream(a) == Stream(b)
    ensures a == b
  {
    StreamRoundTrip(a);
    StreamRoundTrip(b);
  }
}
