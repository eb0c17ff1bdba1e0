/** Deterministic transaction order: stable sort by hash, and one representative per hash for the
    replayed queue. */
module CanonicalOrder {
  import opened Types

  type Hash = seq<Byte>

  // ----- Byte strings in lexicographic order -----

  predicate Less(a: Hash, b: Hash)
  {
    b != [] && (a == [] || a[0] < b[0] || (a[0] == b[0] && Less(a[1..], b[1..])))
  }

  lemma {:induction false} LessTotal(a: Hash, b: Hash)
    ensures a == b || Less(a, b) || Less(b, a)
  {
    if a != [] && b != [] && a[0] == b[0] {
      LessTotal(a[1..], b[1..]);
      assert a == [a[0]] + a[1..] && b == [b[0]] + b[1..];
    }
  }

  lemma {:induction false} LessAsymmetric(a: Hash, b: Hash)
    requires Less(a, b)
    ensures !Less(b, a) && a != b
  {
    if a != [] && a[0] == b[0] { LessAsymmetric(a[1..], b[1..]); }
  }

  lemma {:induction false} LessTransitive(a: Hash, b: Hash, c: Hash)
    requires Less(a, b) && Less(b, c)
    ensures Less(a, c)
  {
    if a != [] && a[0] == b[0] == c[0] { LessTransitive(a[1..], b[1..], c[1..]); }
  }

  /** The strings agree on the first k bytes, and then a ends or has the smaller byte. */
  ghost predicate SmallerAt(a: Hash, b: Hash, k: nat)
  {
    k <= |a| && k < |b| && a[..k] == b[..k] && (k == |a| || a[k] < b[k])
  }

  /** The order is the lexicographic one, with smaller bytes and proper prefixes first. */
  lemma {:induction false} LessIff(a: Hash, b: Hash)
    ensures Less(a, b) <==> exists k :: SmallerAt(a, b, k)
  {
    if a == [] {
      if b != [] { assert SmallerAt(a, b, 0); }
    } else if b != [] {
      LessIff(a[1..], b[1..]);
      if k: nat :| SmallerAt(a[1..], b[1..], k) {
        if a[0] == b[0] {
          assert a[..k + 1] == [a[0]] + a[1..][..k] && b[..k + 1] == [b[0]] + b[1..][..k];
          assert SmallerAt(a, b, k + 1);
        }
      }
      if a[0] < b[0] { assert SmallerAt(a, b, 0); }
      if k: nat :| SmallerAt(a, b, k) {
        if k > 0 { SmallerTail(a, b, k); }
      }
    }
  }

  lemma {:induction false} SmallerTail(a: Hash, b: Hash, k: nat)
    requires k > 0 && SmallerAt(a, b, k)
    ensures a[0] == b[0] && SmallerAt(a[1..], b[1..], k - 1)
  {
    assert a[0] == a[..k][0] && b[0] == b[..k][0];
    assert a[1..][..k - 1] == a[..k][1..] && b[1..][..k - 1] == b[..k][1..];
  }

  // ----- Stable sort -----

  /** Insert x in front of the first element whose hash is not smaller. */
  function Insert(h: Tx -> Hash, x: Tx, ys: seq<Tx>): seq<Tx>
  {
    if ys == [] || !Less(h(ys[0]), h(x)) then [x] + ys else [ys[0]] + Insert(h, x, ys[1..])
  }

  /** `sort_by` on hashes: the standard library's sort is stable, which determines its result. */
  function Sort(h: Tx -> Hash, xs: seq<Tx>): seq<Tx>
  {
    if xs == [] then [] else Insert(h, xs[0], Sort(h, xs[1..]))
  }

  ghost predicate Sorted(h: Tx -> Hash, ys: seq<Tx>)
  {
    forall i, j :: 0 <= i < j < |ys| ==> !Less(h(ys[j]), h(ys[i]))
  }

  /** The elements with a given hash, in order. */
  function WithHash(h: Tx -> Hash, k: Hash, xs: seq<Tx>): seq<Tx>
  {
    if xs == [] then []
    else if h(xs[0]) == k then [xs[0]] + WithHash(h, k, xs[1..])
    else WithHash(h, k, xs[1..])
  }

  lemma {:induction false} InsertCount(h: Tx -> Hash, x: Tx, ys: seq<Tx>)
    ensures multiset(Insert(h, x, ys)) == multiset([x]) + multiset(ys)
  {
    if ys != [] && Less(h(ys[0]), h(x)) {
      InsertCount(h, x, ys[1..]);
      assert ys == [ys[0]] + ys[1..];
    }
  }

  lemma {:induction false} InsertRuns(h: Tx -> Hash, x: Tx, ys: seq<Tx>, k: Hash)
    ensures WithHash(h, k, Insert(h, x, ys)) == (if h(x) == k then [x] else []) + WithHash(h, k, ys)
  {
    if ys != [] && Less(h(ys[0]), h(x)) {
      LessAsymmetric(h(ys[0]), h(x));
      InsertRuns(h, x, ys[1..], k);
      assert Insert(h, x, ys)[1..] == Insert(h, x, ys[1..]);
    } else {
      assert Insert(h, x, ys)[1..] == ys;
    }
  }

  lemma {:induction false} InsertSorts(h: Tx -> Hash, x: Tx, ys: seq<Tx>)
    requires Sorted(h, ys)
    ensures Sorted(h, Insert(h, x, ys))
  {
    if ys != [] {
      var zs := Insert(h, x, ys);
      if Less(h(ys[0]), h(x)) {
        var tail := ys[1..];
        InsertSorts(h, x, tail);
        InsertCount(h, x, tail);
        assert zs == [ys[0]] + Insert(h, x, tail);
        LessAsymmetric(h(ys[0]), h(x));
        forall j | 0 < j < |zs| ensures !Less(h(zs[j]), h(zs[0])) {
          assert zs[j] in multiset(Insert(h, x, tail));
        }
      } else {
        forall j | 0 < j < |zs| ensures !Less(h(zs[j]), h(zs[0])) {
          NotBelow(h(ys[0]), h(ys[j - 1]), h(x));
        }
      }
    }
  }

  /** What is not below something that is not below c is not below c. */
  lemma NotBelow(a: Hash, b: Hash, c: Hash)
    requires !Less(a, c) && (a == b || !Less(b, a))
    ensures !Less(b, c)
  {
    if Less(b, c) {
      LessTotal(a, b);
      if a != b { LessTransitive(a, b, c); }
    }
  }

  /** The sort is a sorted permutation that keeps the order of equal hashes. */
  lemma {:induction false} SortCorrect(h: Tx -> Hash, xs: seq<Tx>)
    ensures Sorted(h, Sort(h, xs))
    ensures multiset(Sort(h, xs)) == multiset(xs)
    ensures forall k :: WithHash(h, k, Sort(h, xs)) == WithHash(h, k, xs)
  {
    if xs != [] {
      SortCorrect(h, xs[1..]);
      InsertSorts(h, xs[0], Sort(h, xs[1..]));
      InsertCount(h, xs[0], Sort(h, xs[1..]));
      forall k ensures WithHash(h, k, Sort(h, xs)) == WithHash(h, k, xs) {
        InsertRuns(h, xs[0], Sort(h, xs[1..]), k);
      }
      assert xs == [xs[0]] + xs[1..];
    }
  }

  lemma {:induction false} WithHashMember(h: Tx -> Hash, k: Hash, xs: seq<Tx>, x: Tx)
    ensures x in WithHash(h, k, xs) <==> x in xs && h(x) == k
  {
    if xs != [] {
      WithHashMember(h, k, xs[1..], x);
      assert xs == [xs[0]] + xs[1..];
    }
  }

  /** Any sorted sequence with the same elements per hash, in the same order, is the sort: whatever
      stable algorithm the library uses, it returns this. */
  lemma {:induction false} SortUnique(h: Tx -> Hash, ys: seq<Tx>, zs: seq<Tx>)
    requires Sorted(h, ys) && Sorted(h, zs)
    requires forall k :: WithHash(h, k, ys) == WithHash(h, k, zs)
    ensures ys == zs
  {
    assert ys != [] ==> WithHash(h, h(ys[0]), ys) == WithHash(h, h(ys[0]), zs);
    assert zs != [] ==> WithHash(h, h(zs[0]), ys) == WithHash(h, h(zs[0]), zs);
    if ys != [] && zs != [] {
      HeadIsLeast(h, ys, zs);
      HeadIsLeast(h, zs, ys);
      LessTotal(h(ys[0]), h(zs[0]));
      assert WithHash(h, h(ys[0]), ys)[0] == ys[0] && WithHash(h, h(ys[0]), zs)[0] == zs[0];
      forall k ensures WithHash(h, k, ys[1..]) == WithHash(h, k, zs[1..]) {
        var a, b := WithHash(h, k, ys), WithHash(h, k, zs);
        assert a == b;
        assert h(ys[0]) == k ==> a[1..] == WithHash(h, k, ys[1..]) && b[1..] == WithHash(h, k, zs[1..]);
      }
      SortUnique(h, ys[1..], zs[1..]);
    }
  }

  lemma {:induction false} HeadIsLeast(h: Tx -> Hash, ys: seq<Tx>, zs: seq<Tx>)
    requires Sorted(h, ys) && ys != [] && zs != []
    requires forall k :: WithHash(h, k, ys) == WithHash(h, k, zs)
    ensures !Less(h(zs[0]), h(ys[0]))
  {
    var k := h(zs[0]);
    WithHashMember(h, k, zs, zs[0]);
    WithHashMember(h, k, ys, zs[0]);
    var i :| 0 <= i < |ys| && ys[i] == zs[0];
    if i == 0 && Less(h(zs[0]), h(ys[0])) { LessAsymmetric(h(zs[0]), h(ys[0])); }
  }

  // ----- Blocks sent to the executor -----

  function Filter(valid: Tx -> bool, xs: seq<Tx>): seq<Tx>
  {
    if xs == [] then []
    else (if valid(xs[0]) then [xs[0]] else []) + Filter(valid, xs[1..])
  }

  /** The transactions of one block as sent: undecodable ones dropped, the rest sorted by hash. */
  function PrepareBlock(h: Tx -> Hash, valid: Tx -> bool, xs: seq<Tx>): seq<Tx>
  {
    Sort(h, Filter(valid, xs))
  }

  ghost predicate InjectiveOn(h: Tx -> Hash, xs: seq<Tx>)
  {
    forall a, b :: a in xs && b in xs && h(a) == h(b) ==> a == b
  }

  lemma {:induction false} FilterCount(valid: Tx -> bool, xs: seq<Tx>, x: Tx)
    ensures multiset(Filter(valid, xs))[x] == if valid(x) then multiset(xs)[x] else 0
  {
    if xs != [] {
      FilterCount(valid, xs[1..], x);
      assert xs == [xs[0]] + xs[1..];
    }
  }

  /** The block holds exactly the valid transactions, with their multiplicities, in hash order. */
  lemma {:induction false} BlockCorrect(h: Tx -> Hash, valid: Tx -> bool, xs: seq<Tx>)
    ensures Sorted(h, PrepareBlock(h, valid, xs))
    ensures forall x :: multiset(PrepareBlock(h, valid, xs))[x] == if valid(x) then multiset(xs)[x] else 0
  {
    SortCorrect(h, Filter(valid, xs));
    forall x ensures multiset(PrepareBlock(h, valid, xs))[x] == if valid(x) then multiset(xs)[x] else 0 {
      FilterCount(valid, xs, x);
    }
  }

  /** With an injective hash, equal multisets have equal elements per hash. */
  lemma {:induction false} SameHashRuns(h: Tx -> Hash, k: Hash, xs: seq<Tx>, ys: seq<Tx>)
    requires multiset(xs) == multiset(ys) && InjectiveOn(h, xs)
    ensures WithHash(h, k, xs) == WithHash(h, k, ys)
  {
    var a, b := WithHash(h, k, xs), WithHash(h, k, ys);
    forall x, y | x in a && y in b ensures x == y {
      WithHashMember(h, k, xs, x);
      WithHashMember(h, k, ys, y);
      assert y in multiset(ys);
    }
    WithHashSize(h, k, xs, ys);
    forall i | 0 <= i < |a| ensures a[i] == b[i] {
      assert a[i] in a && b[i] in b;
    }
  }

  lemma {:induction false} OneLess(xs: seq<Tx>, ys: seq<Tx>, i: nat)
    requires xs != [] && i < |ys| && ys[i] == xs[0] && multiset(xs) == multiset(ys)
    ensures multiset(xs[1..]) == multiset(ys[..i] + ys[i + 1..])
  {
    var x := xs[0];
    assert xs == [x] + xs[1..];
    assert ys == ys[..i] + [x] + ys[i + 1..];
    assert multiset(xs[1..]) == multiset(xs) - multiset([x]);
    assert multiset(ys[..i] + ys[i + 1..]) == multiset(ys) - multiset([x]);
  }

  lemma {:induction false} WithHashSize(h: Tx -> Hash, k: Hash, xs: seq<Tx>, ys: seq<Tx>)
    requires multiset(xs) == multiset(ys)
    ensures |WithHash(h, k, xs)| == |WithHash(h, k, ys)|
  {
    if xs == [] {
      assert |multiset(ys)| == |ys|;
    } else {
      var x, tail := xs[0], xs[1..];
      assert xs == [x] + tail;
      assert x in multiset(ys);
      var i :| 0 <= i < |ys| && ys[i] == x;
      var without := ys[..i] + ys[i + 1..];
      OneLess(xs, ys, i);
      WithHashSize(h, k, tail, without);
      WithHashSplit(h, k, ys, i);
    }
  }

  lemma {:induction false} WithHashSplit(h: Tx -> Hash, k: Hash, ys: seq<Tx>, i: nat)
    requires i < |ys|
    ensures |WithHash(h, k, ys)| ==
            |WithHash(h, k, ys[..i] + ys[i + 1..])| + if h(ys[i]) == k then 1 else 0
  {
    if i == 0 {
      assert ys[..0] + ys[1..] == ys[1..];
    } else {
      WithHashSplit(h, k, ys[1..], i - 1);
      var without := ys[..i] + ys[i + 1..];
      assert without[1..] == ys[1..][..i - 1] + ys[1..][i..];
    }
  }

  /** All orders of the same transactions give the same block if and only if no two different valid
      ones share a hash. */
  lemma {:induction false} BlockOrderIndependentIff(h: Tx -> Hash, valid: Tx -> bool, xs: seq<Tx>)
    ensures (forall ys :: multiset(ys) == multiset(xs) ==> PrepareBlock(h, valid, ys) == PrepareBlock(h, valid, xs))
            <==> InjectiveOn(h, Filter(valid, xs))
  {
    if InjectiveOn(h, Filter(valid, xs)) {
      forall ys | multiset(ys) == multiset(xs) ensures PrepareBlock(h, valid, ys) == PrepareBlock(h, valid, xs) {
        BlockOrderIndependent(h, valid, xs, ys);
      }
    } else {
      var ys, zs := BlockOrderMatters(h, valid, xs);
    }
  }

  lemma {:induction false} BlockOrderIndependent(h: Tx -> Hash, valid: Tx -> bool, xs: seq<Tx>, ys: seq<Tx>)
    requires multiset(ys) == multiset(xs) && InjectiveOn(h, Filter(valid, xs))
    ensures PrepareBlock(h, valid, ys) == PrepareBlock(h, valid, xs)
  {
    var a, b := Filter(valid, xs), Filter(valid, ys);
    forall x ensures multiset(a)[x] == multiset(b)[x] {
      FilterCount(valid, xs, x);
      FilterCount(valid, ys, x);
    }
    assert multiset(a) == multiset(b);
    SortCorrect(h, a);
    SortCorrect(h, b);
    forall k ensures WithHash(h, k, Sort(h, a)) == WithHash(h, k, Sort(h, b)) {
      SameHashRuns(h, k, a, b);
    }
    SortUnique(h, Sort(h, a), Sort(h, b));
  }

  /** Two different valid transactions with one hash: putting one or the other first changes the
      block. */
  lemma {:induction false} BlockOrderMatters(h: Tx -> Hash, valid: Tx -> bool, xs: seq<Tx>)
    returns (ys: seq<Tx>, zs: seq<Tx>)
    requires !InjectiveOn(h, Filter(valid, xs))
    ensures multiset(ys) == multiset(xs) == multiset(zs)
    ensures PrepareBlock(h, valid, ys) != PrepareBlock(h, valid, zs)
  {
    var f := Filter(valid, xs);
    var a, b :| a in f && b in f && h(a) == h(b) && a != b;
    FilterCount(valid, xs, a);
    FilterCount(valid, xs, b);
    assert a in multiset(f) && b in multiset(f);
    ys := MoveFirst(xs, a);
    zs := MoveFirst(xs, b);
    FrontDecides(h, valid, ys);
    FrontDecides(h, valid, zs);
  }

  lemma {:induction false} MoveFirst(xs: seq<Tx>, a: Tx) returns (ys: seq<Tx>)
    requires a in multiset(xs)
    ensures ys != [] && ys[0] == a && multiset(ys) == multiset(xs)
  {
    var i :| 0 <= i < |xs| && xs[i] == a;
    ys := [a] + xs[..i] + xs[i + 1..];
    assert xs == xs[..i] + [a] + xs[i + 1..];
  }

  lemma {:induction false} FrontDecides(h: Tx -> Hash, valid: Tx -> bool, ys: seq<Tx>)
    requires ys != [] && valid(ys[0])
    ensures var k := h(ys[0]);
            var run := WithHash(h, k, PrepareBlock(h, valid, ys));
            run != [] && run[0] == ys[0]
  {
    SortCorrect(h, Filter(valid, ys));
  }

  // ----- The replayed queue -----

  /** `dedup_by` on equal hashes: the first of each run stays. */
  function Dedup(h: Tx -> Hash, ys: seq<Tx>): seq<Tx>
    decreases |ys|
  {
    if |ys| <= 1 then ys
    else if h(ys[0]) == h(ys[1]) then Dedup(h, [ys[0]] + ys[2..])
    else [ys[0]] + Dedup(h, ys[1..])
  }

  function Canonical(h: Tx -> Hash, queue: seq<Tx>): seq<Tx>
  {
    Dedup(h, Sort(h, queue))
  }

  ghost predicate StrictlySorted(h: Tx -> Hash, ys: seq<Tx>)
  {
    forall i, j :: 0 <= i < j < |ys| ==> Less(h(ys[i]), h(ys[j]))
  }

  /** x is the first element of the queue that has its hash. */
  ghost predicate Earliest(h: Tx -> Hash, queue: seq<Tx>, x: Tx)
  {
    var run := WithHash(h, h(x), queue);
    run != [] && run[0] == x
  }

  lemma {:induction false} DedupCorrect(h: Tx -> Hash, ys: seq<Tx>)
    requires Sorted(h, ys)
    ensures StrictlySorted(h, Dedup(h, ys))
    ensures forall x :: x in Dedup(h, ys) <==> Earliest(h, ys, x)
    ensures ys != [] ==> Dedup(h, ys) != [] && Dedup(h, ys)[0] == ys[0]
    decreases |ys|
  {
    if |ys| <= 1 {
      forall x ensures x in ys <==> Earliest(h, ys, x) {
        assert |ys| == 1 ==> WithHash(h, h(x), ys[1..]) == [];
      }
    } else if h(ys[0]) == h(ys[1]) {
      var zs := [ys[0]] + ys[2..];
      assert Sorted(h, zs) by {
        forall i, j | 0 <= i < j < |zs| ensures !Less(h(zs[j]), h(zs[i])) {
          assert zs[j] == ys[j + 1] && zs[i] == ys[if i == 0 then 0 else i + 1];
        }
      }
      DedupCorrect(h, zs);
      assert zs[1..] == ys[2..] && ys[1..][1..] == ys[2..];
      forall x ensures Earliest(h, zs, x) <==> Earliest(h, ys, x) {
        var k := h(x);
        if k == h(ys[0]) {
          assert WithHash(h, k, zs)[0] == ys[0] && WithHash(h, k, ys)[0] == ys[0];
        } else {
          assert WithHash(h, k, ys) == WithHash(h, k, ys[1..]) == WithHash(h, k, ys[2..]);
        }
      }
    } else {
      DedupStep(h, ys);
    }
  }

  lemma {:induction false} DedupStep(h: Tx -> Hash, ys: seq<Tx>)
    requires Sorted(h, ys) && |ys| > 1 && h(ys[0]) != h(ys[1])
    ensures StrictlySorted(h, Dedup(h, ys))
    ensures forall x :: x in Dedup(h, ys) <==> Earliest(h, ys, x)
    decreases |ys|, 0
  {
    var tail := ys[1..];
    DedupCorrect(h, tail);
    var d := Dedup(h, ys);
    assert d == [ys[0]] + Dedup(h, tail);
    HeadStrictlyLess(h, ys);
    forall j | 0 < j < |d| ensures Less(h(d[0]), h(d[j])) {
      assert d[j] in Dedup(h, tail);
      assert Earliest(h, tail, d[j]);
      WithHashMember(h, h(d[j]), tail, d[j]);
    }
    forall x ensures x in d <==> Earliest(h, ys, x) {
      WithHashMember(h, h(x), tail, x);
      if h(x) == h(ys[0]) {
        if x in tail { LessAsymmetric(h(ys[0]), h(x)); }
        assert x !in tail;
      }
    }
  }

  lemma {:induction false} HeadStrictlyLess(h: Tx -> Hash, ys: seq<Tx>)
    requires Sorted(h, ys) && |ys| > 1 && h(ys[0]) != h(ys[1])
    ensures forall x :: x in ys[1..] ==> Less(h(ys[0]), h(x))
  {
    forall x | x in ys[1..] ensures Less(h(ys[0]), h(x)) {
      var j :| 0 <= j < |ys[1..]| && ys[1..][j] == x;
      LessTotal(h(ys[0]), h(ys[1]));
      LessTotal(h(ys[1]), h(x));
      if Less(h(ys[1]), h(x)) { LessTransitive(h(ys[0]), h(ys[1]), h(x)); }
    }
  }

  /** The replayed queue is strictly increasing by hash and holds exactly one transaction per queued
      hash, the earliest queued one. */
  lemma {:induction false} QueueCorrect(h: Tx -> Hash, queue: seq<Tx>)
    ensures StrictlySorted(h, Canonical(h, queue))
    ensures forall x :: x in Canonical(h, queue) <==> Earliest(h, queue, x)
  {
    SortCorrect(h, queue);
    DedupCorrect(h, Sort(h, queue));
    forall x ensures Earliest(h, Sort(h, queue), x) <==> Earliest(h, queue, x) {
      assert WithHash(h, h(x), Sort(h, queue)) == WithHash(h, h(x), queue);
    }
  }

  /** Strictly sorted sequences with the same elements are equal. */
  lemma {:induction false} StrictlySortedUnique(h: Tx -> Hash, ys: seq<Tx>, zs: seq<Tx>)
    requires StrictlySorted(h, ys) && StrictlySorted(h, zs)
    requires forall x :: x in ys <==> x in zs
    ensures ys == zs
  {
    assert (ys != [] ==> ys[0] in zs) && (zs != [] ==> zs[0] in ys);
    if ys != [] && zs != [] {
      StrictHead(h, ys, zs);
      forall x ensures x in ys[1..] <==> x in zs[1..] {
        StrictTail(h, ys, x);
        StrictTail(h, zs, x);
      }
      StrictlySortedUnique(h, ys[1..], zs[1..]);
      assert ys == [ys[0]] + ys[1..] && zs == [zs[0]] + zs[1..];
    }
  }

  lemma {:induction false} StrictHead(h: Tx -> Hash, ys: seq<Tx>, zs: seq<Tx>)
    requires StrictlySorted(h, ys) && StrictlySorted(h, zs) && ys != [] && zs != []
    requires forall x :: x in ys <==> x in zs
    ensures ys[0] == zs[0]
  {
    assert zs[0] in ys && ys[0] in zs;
    var i :| 0 <= i < |ys| && ys[i] == zs[0];
    var j :| 0 <= j < |zs| && zs[j] == ys[0];
    if i > 0 && j > 0 { LessAsymmetric(h(ys[0]), h(zs[0])); }
  }

  lemma {:induction false} StrictTail(h: Tx -> Hash, ys: seq<Tx>, x: Tx)
    requires StrictlySorted(h, ys) && ys != []
    ensures x in ys[1..] <==> x in ys && x != ys[0]
  {
    assert ys == [ys[0]] + ys[1..];
    if x in ys[1..] {
      var j :| 0 <= j < |ys[1..]| && ys[1..][j] == x;
      assert ys[j + 1] == x;
      LessAsymmetric(h(ys[0]), h(x));
    }
  }

  ghost predicate SameElements(a: seq<Tx>, b: seq<Tx>)
  {
    forall x :: x in a <==> x in b
  }

  /** Of two queued transactions with one hash, the one queued first is replayed and the other not. */
  lemma {:induction false} FirstQueuedStays(h: Tx -> Hash, queue: seq<Tx>, a: Tx, b: Tx)
    requires a in queue && h(a) == h(b) && a != b
    ensures SameElements([a] + queue, queue)
    ensures a in Canonical(h, [a] + queue) && b !in Canonical(h, [a] + queue)
  {
    QueueCorrect(h, [a] + queue);
    assert WithHash(h, h(a), [a] + queue)[0] == a;
  }

  /** All queues holding the same transactions, in any order and with any repetitions, are replayed
      alike if and only if no two different queued transactions share a hash. */
  lemma {:induction false} QueueOrderIndependentIff(h: Tx -> Hash, queue: seq<Tx>)
    ensures (forall q :: SameElements(q, queue) ==> Canonical(h, q) == Canonical(h, queue))
            <==> InjectiveOn(h, queue)
  {
    if InjectiveOn(h, queue) {
      forall q | SameElements(q, queue) ensures Canonical(h, q) == Canonical(h, queue) {
        CanonicalElements(h, q);
        CanonicalElements(h, queue);
        QueueCorrect(h, q);
        QueueCorrect(h, queue);
        StrictlySortedUnique(h, Canonical(h, q), Canonical(h, queue));
      }
    } else {
      var a, b :| a in queue && b in queue && h(a) == h(b) && a != b;
      FirstQueuedStays(h, queue, a, b);
      FirstQueuedStays(h, queue, b, a);
    }
  }

  /** With an injective hash nothing queued is dropped. */
  lemma {:induction false} CanonicalElements(h: Tx -> Hash, queue: seq<Tx>)
    requires InjectiveOn(h, queue)
    ensures SameElements(Canonical(h, queue), queue)
  {
    QueueCorrect(h, queue);
    forall x ensures x in Canonical(h, queue) <==> x in queue {
      var run := WithHash(h, h(x), queue);
      WithHashMember(h, h(x), queue, x);
      if run != [] { WithHashMember(h, h(x), queue, run[0]); }
    }
  }
}
