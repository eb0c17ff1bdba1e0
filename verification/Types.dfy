/** Values shared by the components of the node. */
module Types {

  datatype Option<+T> = None | Some(value: T)

  newtype Byte = x: int | 0 <= x < 256

  /** A transaction is the raw byte string a client submitted. */
  type Tx = seq<Byte>

  const MAX_U32: nat := 0xFFFF_FFFF
  const MAX_U64: nat := 0xFFFF_FFFF_FFFF_FFFF

  /** `u32::saturating_add`. */
  function SaturatingAddU32(a: nat, b: nat): (r: nat)
    ensures r <= MAX_U32
    ensures a + b <= MAX_U32 ==> r == a + b
    ensures a + b >= MAX_U32 ==> r == MAX_U32
    ensures b <= MAX_U32 ==> r >= b
  {
    if a + b <= MAX_U32 then a + b else MAX_U32
  }

  /** `u64::saturating_sub`. */
  function SaturatingSub(a: nat, b: nat): (r: nat)
    ensures a >= b ==> b + r == a
    ensures a <= b ==> r == 0
  {
    if a >= b then a - b else 0
  }

  /** The interval [lo, lo + n) as a sequence, in increasing order. */
  function Interval(lo: nat, n: nat): (r: seq<nat>)
    ensures |r| == n
    ensures forall i :: 0 <= i < n ==> r[i] == lo + i
  {
    seq(n, i => lo + i)
  }

  /** Concatenation of a sequence of sequences. */
  function Flatten<T>(xss: seq<seq<T>>): seq<T>
  {
    if xss == [] then [] else Flatten(xss[..|xss| - 1]) + xss[|xss| - 1]
  }

  /** The number of elements in all of the sequences. */
  function LengthOfAll<T>(xss: seq<seq<T>>): nat
  {
    if xss == [] then 0 else |xss[0]| + LengthOfAll(xss[1..])
  }

  /** How often x occurs in all of the sequences together. */
  function CountInAll<T(==)>(xss: seq<seq<T>>, x: T): nat
  {
    if xss == [] then 0 else multiset(xss[0])[x] + CountInAll(xss[1..], x)
  }

  lemma {:induction false} LengthSnoc<T>(xss: seq<seq<T>>)
    requires xss != []
    ensures LengthOfAll(xss) == LengthOfAll(xss[..|xss| - 1]) + |xss[|xss| - 1]|
  {
    if |xss| > 1 {
      LengthSnoc(xss[1..]);
      assert xss[1..][..|xss| - 2] == xss[..|xss| - 1][1..];
    } else {
      assert xss[1..] == [] && xss[..0] == [];
    }
  }

  lemma {:induction false} CountSnoc<T>(xss: seq<seq<T>>, x: T)
    requires xss != []
    ensures CountInAll(xss, x) == CountInAll(xss[..|xss| - 1], x) + multiset(xss[|xss| - 1])[x]
  {
    if |xss| > 1 {
      CountSnoc(xss[1..], x);
      assert xss[1..][..|xss| - 2] == xss[..|xss| - 1][1..];
    } else {
      assert xss[1..] == [] && xss[..0] == [];
    }
  }

  /** Concatenation keeps every element, with its multiplicity. */
  lemma {:induction false} FlattenCount<T>(xss: seq<seq<T>>, x: T)
    ensures multiset(Flatten(xss))[x] == CountInAll(xss, x)
  {
    if xss != [] {
      FlattenCount(xss[..|xss| - 1], x);
      CountSnoc(xss, x);
    }
  }

  lemma {:induction false} FlattenLength<T>(xss: seq<seq<T>>)
    ensures |Flatten(xss)| == LengthOfAll(xss)
  {
    if xss != [] {
      FlattenLength(xss[..|xss| - 1]);
      LengthSnoc(xss);
    }
  }

  /** And the order: the i-th sequence lies behind all before it. */
  lemma {:induction false} FlattenAt<T>(xss: seq<seq<T>>, i: nat)
    requires i < |xss|
    ensures var at := LengthOfAll(xss[..i]);
            at + |xss[i]| <= |Flatten(xss)| && Flatten(xss)[at..at + |xss[i]|] == xss[i]
  {
    var n := |xss| - 1;
    FlattenLength(xss[..n]);
    if i < n {
      FlattenAt(xss[..n], i);
      assert xss[..n][..i] == xss[..i];
    }
  }

  lemma {:induction false} FlattenMember<T>(xss: seq<seq<T>>, x: T)
    ensures x in Flatten(xss) <==> exists i :: 0 <= i < |xss| && x in xss[i]
  {
    if xss != [] {
      var n := |xss| - 1;
      FlattenMember(xss[..n], x);
      if i :| 0 <= i < |xss| && x in xss[i] { assert i < n ==> xss[..n][i] == xss[i]; }
    }
  }
}
