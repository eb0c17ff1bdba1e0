/** What the checked-arithmetic pass preserves, and where it does not. */
module CheckedMeaning {
  import opened Types
  import opened CheckedArithmetic
  import opened CheckedShape
  import opened CheckedOrder

  // ----- The rewritten tree computes the checked meaning -----

  lemma {:induction false} UnshadowRestores(outer: map<string, int>, a: int, b: int)
    ensures Unshadow(outer["left" := a]["right" := b], outer) == outer
  {
  }

  lemma {:induction false} PairBody(m: Machine, mode: Mode, op: ArithOp, a: int, b: int, s: State)
    requires Proper(m)
    ensures var inner := s.(vars := s.vars["left" := a]["right" := b]);
            Eval(m, mode, CheckedOp(op, Var("left"), Var("right")), inner) == Finish(CheckedResult(m, op, a, b), inner)
  {
    var inner := s.(vars := s.vars["left" := a]["right" := b]);
    assert Eval(m, mode, Var("left"), inner) == Ok(a, inner);
    assert Eval(m, mode, Var("right"), inner) == Ok(b, inner);
  }

  /** The scope of `left` and `right` ends with the block. */
  lemma {:induction false} PairScope(m: Machine, mode: Mode, l: Expr, r: Expr, body: Expr, s: State, v: Option<int>)
    requires Proper(m)
    requires var x := Eval(m, mode, l, s);
             x.Ok? &&
             var y := Eval(m, mode, r, x.s);
             y.Ok? &&
             var inner := y.s.(vars := y.s.vars["left" := x.v]["right" := y.v]);
             Eval(m, mode, body, inner) == Finish(v, inner)
    ensures Eval(m, mode, LetPair(l, r, body), s) == Finish(v, Eval(m, mode, r, Eval(m, mode, l, s).s).s)
  {
    var x := Eval(m, mode, l, s);
    var y := Eval(m, mode, r, x.s);
    UnshadowRestores(y.s.vars, x.v, y.v);
  }

  /** The block made for a binary operation evaluates its operands once, left to right, in the outer
      scope, even when they mention variables called `left` or `right`. */
  lemma {:induction false} PairMeaning(m: Machine, mode: Mode, op: ArithOp, l: Expr, r: Expr, s: State)
    requires Proper(m)
    ensures Eval(m, mode, LetPair(l, r, CheckedOp(op, Var("left"), Var("right"))), s) ==
            Eval(m, mode, CheckedOp(op, l, r), s)
  {
    var pair := LetPair(l, r, CheckedOp(op, Var("left"), Var("right")));
    var x := Eval(m, mode, l, s);
    if x.Panic? {
      assert Eval(m, mode, pair, s) == x;
    } else {
      var y := Eval(m, mode, r, x.s);
      if y.Panic? {
        assert Eval(m, mode, pair, s) == y;
      } else {
        PairOk(m, mode, op, l, r, s);
      }
    }
  }

  lemma {:induction false} PairOk(m: Machine, mode: Mode, op: ArithOp, l: Expr, r: Expr, s: State)
    requires Proper(m) && Eval(m, mode, l, s).Ok? && Eval(m, mode, r, Eval(m, mode, l, s).s).Ok?
    ensures Eval(m, mode, LetPair(l, r, CheckedOp(op, Var("left"), Var("right"))), s) ==
            Eval(m, mode, CheckedOp(op, l, r), s)
  {
    var x := Eval(m, mode, l, s);
    var y := Eval(m, mode, r, x.s);
    PairBody(m, mode, op, x.v, y.v, y.s);
    PairScope(m, mode, l, r, CheckedOp(op, Var("left"), Var("right")), s, CheckedResult(m, op, x.v, y.v));
  }

  lemma {:induction false} ParensKeep(m: Machine, mode: Mode, e: Expr, s: State)
    requires Proper(m)
    ensures Eval(m, mode, RemoveParens(e), s) == Eval(m, mode, e, s)
  {
  }

  /** Translation theorem: whatever arithmetic does where nobody checks it, the rewritten expression does
      exactly what the original does when each of its operations outside exempted macros is checked,
      including every call it makes and the point at which it panics. */
  lemma {:induction false} FoldMeaning(m: Machine, mode: Mode, e: Expr, s: State)
    requires Proper(m) && mode == m.raw && AllNodes(SourceNode, e) && Outside(KeptNode(m), e)
    ensures Eval(m, mode, Fold(e), s) == Eval(m, Checked, e, s)
    decreases e
  {
    match e {
      case Lit(_) =>
      case Var(_) =>
      case Paren(e1) => FoldMeaning(m, mode, e1, s);
      case Arith(op, l, r) => FoldArith(m, mode, op, l, r, s);
      case Other(_, l, r) =>
        FoldMeaning(m, mode, l, s);
        var x := Eval(m, Checked, l, s);
        if x.Ok? { FoldMeaning(m, mode, r, x.s); }
      case Not(e1) => FoldMeaning(m, mode, e1, s);
      case Neg(e1) =>
        FoldMeaning(m, mode, e1, s);
        WeakenOutside(KeptNode(m), PlainNode, e1);
        SameParity(e1);
        AppendMeaning(m, mode, Fold(e1), s);
      case Set(_, e1) => FoldMeaning(m, mode, e1, s);
      case OpAssign(op, place, r) => FoldAssign(m, mode, op, place, r, s);
      case If(c, t, f) => FoldIf(m, mode, c, t, f, s);
      case Block(es) => FoldAllMeaning(m, mode, es, s);
      case Call(_, args) => FoldAllMeaning(m, mode, args, s);
      case Macro(attr, _, _, args) => if attr.NoAttr? { FoldAllMeaning(m, mode, args, s); }
    }
  }

  lemma {:induction false} FoldIf(m: Machine, mode: Mode, c: Expr, t: Expr, f: Expr, s: State)
    requires Proper(m) && mode == m.raw && AllNodes(SourceNode, If(c, t, f))
    requires Outside(KeptNode(m), c) && Outside(KeptNode(m), t) && Outside(KeptNode(m), f)
    ensures Eval(m, mode, Fold(If(c, t, f)), s) == Eval(m, Checked, If(c, t, f), s)
    decreases If(c, t, f), 0
  {
    FoldMeaning(m, mode, c, s);
    var x := Eval(m, Checked, c, s);
    if x.Ok? { FoldMeaning(m, mode, t, x.s); FoldMeaning(m, mode, f, x.s); }
  }

  lemma {:induction false} SameOperands(m: Machine, mode: Mode, op: ArithOp,
                                        l: Expr, r: Expr, l': Expr, r': Expr, s: State)
    requires Proper(m)
    requires var x := Eval(m, Checked, l, s);
             && Eval(m, mode, l', s) == x
             && (x.Ok? ==> Eval(m, mode, r', x.s) == Eval(m, Checked, r, x.s))
    ensures Eval(m, mode, CheckedOp(op, l', r'), s) == Eval(m, Checked, Arith(op, l, r), s)
  {
  }

  lemma {:induction false} FoldArith(m: Machine, mode: Mode, op: ArithOp, l: Expr, r: Expr, s: State)
    requires Proper(m) && mode == m.raw && AllNodes(SourceNode, Arith(op, l, r))
    requires Outside(KeptNode(m), l) && Outside(KeptNode(m), r)
    ensures Eval(m, mode, Fold(Arith(op, l, r)), s) == Eval(m, Checked, Arith(op, l, r), s)
    decreases Arith(op, l, r), 0
  {
    var l', r' := RemoveParens(Fold(l)), RemoveParens(Fold(r));
    var x := Eval(m, Checked, l, s);
    assert Eval(m, mode, l', s) == x by {
      ParensKeep(m, mode, Fold(l), s);
      FoldMeaning(m, mode, l, s);
    }
    if x.Ok? {
      assert Eval(m, mode, r', x.s) == Eval(m, Checked, r, x.s) by {
        ParensKeep(m, mode, Fold(r), x.s);
        FoldMeaning(m, mode, r, x.s);
      }
    }
    SameOperands(m, mode, op, l, r, l', r', s);
    PairMeaning(m, mode, op, l', r', s);
  }

  /** The result of k prefix `!` on a result. */
  function Flip(m: Machine, k: nat, r: Result): Result
  {
    if r.Ok? && k % 2 == 1 then Ok(m.lo + m.hi - r.v, r.s) else r
  }

  lemma {:induction false} NotsMeaning(m: Machine, mode: Mode, e: Expr, s: State)
    requires Proper(m)
    ensures Eval(m, mode, e, s) == Flip(m, Nots(e), Eval(m, mode, Core(e), s))
  {
    if e.Not? { NotsMeaning(m, mode, e.e, s); }
  }

  lemma {:induction false} AppendShape(e: Expr)
    ensures Nots(AppendCheckedNeg(e)) == Nots(e) && Core(AppendCheckedNeg(e)) == CheckedNeg(Core(e))
  {
    if e.Not? { AppendShape(e.e); }
  }

  /** After k prefix `!` the checked negation lands behind them. */
  lemma {:induction false} AppendMeaning(m: Machine, mode: Mode, e: Expr, s: State)
    requires Proper(m)
    ensures var a := Eval(m, mode, Core(e), s);
            && Eval(m, mode, e, s) == Flip(m, Nots(e), a)
            && Eval(m, mode, AppendCheckedNeg(e), s) ==
               if a.Panic? then a else Flip(m, Nots(e), Finish(CheckedResult(m, Sub, 0, a.v), a.s))
  {
    NotsMeaning(m, mode, e, s);
    NotsMeaning(m, mode, AppendCheckedNeg(e), s);
    AppendShape(e);
  }

  /** The pass keeps the parity of the leading `!`. */
  lemma {:induction false} SameParity(e: Expr)
    requires Outside(PlainNode, e)
    ensures Nots(Fold(e)) % 2 == Nots(e) % 2
  {
    if e.Not? {
      SameParity(e.e);
    } else if e.Neg? {
      SameParity(e.e);
      AppendShape(Fold(e.e));
    }
  }

  lemma {:induction false} SameAssign(m: Machine, mode: Mode, op: ArithOp,
                                      place: Place, r: Expr, place': Place, r': Expr, s: State)
    requires Proper(m)
    requires var x := EvalPlace(m, Checked, place, s);
             && EvalPlace(m, mode, place', s) == x
             && (x.At? ==> Eval(m, mode, r', x.s) == Eval(m, Checked, r, x.s))
    ensures Eval(m, mode, CheckedOpAssign(op, place', r'), s) == Eval(m, Checked, CheckedOpAssign(op, place, r), s)
  {
  }

  lemma {:induction false} FoldAssign(m: Machine, mode: Mode, op: ArithOp, place: Place, r: Expr, s: State)
    requires Proper(m) && mode == m.raw && AllNodes(SourceNode, OpAssign(op, place, r))
    requires Outside(KeptNode(m), OpAssign(op, place, r))
    ensures Eval(m, mode, Fold(OpAssign(op, place, r)), s) == Eval(m, Checked, OpAssign(op, place, r), s)
    decreases OpAssign(op, place, r), 0
  {
    AssignMeaning(m, op, place, r, s);
    if place.PCell? { FoldMeaning(m, mode, place.index, s); }
    var x := EvalPlace(m, Checked, place, s);
    assert EvalPlace(m, mode, FoldPlace(place), s) == x;
    if x.At? {
      ParensKeep(m, mode, Fold(r), x.s);
      FoldMeaning(m, mode, r, x.s);
    }
    SameAssign(m, mode, op, place, r, FoldPlace(place), RemoveParens(Fold(r)), s);
  }

  lemma {:induction false} FoldAllMeaning(m: Machine, mode: Mode, es: Exprs, s: State)
    requires Proper(m) && mode == m.raw && AllInList(SourceNode, es) && OutsideInList(KeptNode(m), es)
    ensures EvalAll(m, mode, FoldAll(es), s) == EvalAll(m, Checked, es, s)
    decreases es
  {
    if es.Cons? {
      FoldMeaning(m, mode, es.head, s);
      var x := Eval(m, Checked, es.head, s);
      if x.Ok? { FoldAllMeaning(m, mode, es.tail, x.s); }
    }
  }

  // ----- The rewritten tree against the integers, and against wrap-around -----

  /** Two parts of an expression, one evaluated after the other. */
  lemma {:induction false} TraceGrowsPair(m: Machine, mode: Mode, whole: Expr, l: Expr, r: Expr, s: State)
    requires Proper(m) && AllNodes(SourceNode, l) && AllNodes(SourceNode, r) && l < whole && r < whole
    ensures var a := Eval(m, mode, l, s);
            && s.trace <= TraceOf(a)
            && (a.Ok? ==> s.trace <= TraceOf(a) <= TraceOf(Eval(m, mode, r, a.s)))
    decreases whole, 0
  {
    TraceGrows(m, mode, l, s);
    var a := Eval(m, mode, l, s);
    if a.Ok? { TraceGrows(m, mode, r, a.s); }
  }

  lemma {:induction false} TraceGrowsAssign(m: Machine, mode: Mode, op: ArithOp, place: Place, r: Expr, s: State)
    requires Proper(m) && AllNodes(SourceNode, OpAssign(op, place, r))
    ensures s.trace <= TraceOf(Eval(m, mode, OpAssign(op, place, r), s))
    decreases OpAssign(op, place, r), 1
  {
    if place.PCell? {
      TraceGrowsPair(m, mode, OpAssign(op, place, r), r, place.index, s);
    } else {
      TraceGrows(m, mode, r, s);
    }
  }

  lemma {:induction false} TraceGrowsIf(m: Machine, mode: Mode, c: Expr, t: Expr, f: Expr, s: State)
    requires Proper(m) && AllNodes(SourceNode, If(c, t, f))
    ensures s.trace <= TraceOf(Eval(m, mode, If(c, t, f), s))
    decreases If(c, t, f), 1
  {
    TraceGrowsPair(m, mode, If(c, t, f), c, t, s);
    TraceGrowsPair(m, mode, If(c, t, f), c, f, s);
  }

  lemma TraceOfCall(m: Machine, f: string, args: Values)
    ensures ListTrace(args) <= TraceOf(Invoke(m, f, args))
  {
  }

  lemma TraceOfLast(es: Values)
    ensures ListTrace(es) == TraceOf(LastOf(es))
  {
  }

  /** Calls are only added. */
  lemma {:induction false} TraceGrows(m: Machine, mode: Mode, e: Expr, s: State)
    requires Proper(m) && AllNodes(SourceNode, e)
    ensures s.trace <= TraceOf(Eval(m, mode, e, s))
    decreases e
  {
    match e {
      case Lit(_) =>
      case Var(_) =>
      case Paren(e1) => TraceGrows(m, mode, e1, s);
      case Arith(_, l, r) => TraceGrowsPair(m, mode, e, l, r, s);
      case Other(_, l, r) => TraceGrowsPair(m, mode, e, l, r, s);
      case Not(e1) => TraceGrows(m, mode, e1, s);
      case Neg(e1) => TraceGrows(m, mode, e1, s);
      case Set(_, e1) => TraceGrows(m, mode, e1, s);
      case OpAssign(op, place, r) => TraceGrowsAssign(m, mode, op, place, r, s);
      case If(c, t, f) => TraceGrowsIf(m, mode, c, t, f, s);
      case Block(es) => TraceGrowsAll(m, mode, es, s); TraceOfLast(EvalAll(m, mode, es, s));
      case Call(f, args) => TraceGrowsAll(m, mode, args, s); TraceOfCall(m, f, EvalAll(m, mode, args, s));
      case Macro(attr, _, f, args) =>
        var inner := Within(m, mode, attr);
        TraceGrowsAll(m, inner, args, s); TraceOfCall(m, f, EvalAll(m, inner, args, s));
    }
  }

  lemma {:induction false} TraceGrowsAll(m: Machine, mode: Mode, es: Exprs, s: State)
    requires Proper(m) && AllInList(SourceNode, es)
    ensures s.trace <= ListTrace(EvalAll(m, mode, es, s))
    decreases es
  {
    if es.Cons? {
      TraceGrows(m, mode, es.head, s);
      var a := Eval(m, mode, es.head, s);
      if a.Ok? { TraceGrowsAll(m, mode, es.tail, a.s); }
    }
  }

  /** x either is y, or is a panic after some of the calls of y. */
  ghost predicate Below(x: Result, y: Result)
  {
    if x.Ok? then y == x else x.trace <= TraceOf(y)
  }

  ghost predicate ListBelow(x: Values, y: Values)
  {
    if x.Vals? then y == x else x.trace <= ListTrace(y)
  }

  // ----- What the operators compute -----

  /** Division rounds towards zero: the remainder is smaller than the divisor and has the sign of the
      dividend. */
  lemma DivisionTruncates(a: int, b: int)
    requires b != 0
    ensures var r := a - TruncDiv(a, b) * b;
            && (if b > 0 then -b < r < b else b < r < -b)
            && (if a >= 0 then r >= 0 else r <= 0)
  {
    var c := if a >= 0 then a else -a;
    assert c == (c / b) * b + c % b;
    if a < 0 { assert TruncDiv(a, b) * b == -((c / b) * b); }
  }

  /** A checked operation gives the exact result whenever there is one and it fits, and None otherwise; a
      remainder needs in addition that the quotient fits. */
  lemma CheckedIff(m: Machine, a: int, b: int)
    ensures CheckedResult(m, Add, a, b) == if m.lo <= a + b <= m.hi then Some(a + b) else None
    ensures CheckedResult(m, Sub, a, b) == if m.lo <= a - b <= m.hi then Some(a - b) else None
    ensures CheckedResult(m, Mul, a, b) == if m.lo <= a * b <= m.hi then Some(a * b) else None
    ensures CheckedResult(m, Div, a, b).Some? <==> b != 0 && m.lo <= TruncDiv(a, b) <= m.hi
    ensures CheckedResult(m, Div, a, b).Some? ==> CheckedResult(m, Div, a, b).value == TruncDiv(a, b)
    ensures InRange(m, 0) && InRange(m, a) ==>
              (CheckedResult(m, Rem, a, b).Some? <==> b != 0 && m.lo <= TruncDiv(a, b) <= m.hi)
    ensures CheckedResult(m, Rem, a, b).Some? ==> CheckedResult(m, Rem, a, b).value == a - TruncDiv(a, b) * b
  {
    if b != 0 { RemainderFits(m, a, b); }
  }

  lemma RemainderFits(m: Machine, a: int, b: int)
    requires b != 0
    ensures InRange(m, 0) && InRange(m, a) ==> InRange(m, a - TruncDiv(a, b) * b)
  {
    var c := if a >= 0 then a else -a;
    DivisionTruncates(a, b);
    assert c == (c / b) * b + c % b && 0 <= c % b;
    assert c % b <= c by { if c < (if b > 0 then b else -b) { SmallMod(c, if b > 0 then b else -b); } }
    if a < 0 { assert TruncDiv(a, b) * b == -((c / b) * b); }
  }

  /** Wrap-around gives the value of the type that differs from the exact one by a multiple of the number
      of values. */
  lemma WrapsAround(m: Machine, op: ArithOp, a: int, b: int)
    requires Proper(m) && !op.Div? && !op.Rem?
    ensures var v, x, size := WrappedResult(m, op, a, b), Exact(op, a, b), m.hi - m.lo + 1;
            && v.Some? && InRange(m, v.value) && x.Some?
            && x.value == v.value + ((x.value - m.lo) / size) * size
  {
    var x, size := Exact(op, a, b).value, m.hi - m.lo + 1;
    Wrapped(m.lo, size, x);
    assert WrappedResult(m, op, a, b) == Some(m.lo + (x - m.lo) % size);
  }

  lemma Wrapped(lo: int, size: int, x: int)
    requires size > 0
    ensures lo <= lo + (x - lo) % size < lo + size && x == lo + (x - lo) % size + ((x - lo) / size) * size
  {
    var y := x - lo;
    assert y == (y / size) * size + y % size;
  }

  /** A checked result is the exact result, and the wrapped one. */
  lemma CheckedIsExact(m: Machine, mode: Mode, op: ArithOp, a: int, b: int)
    requires Proper(m) && CheckedResult(m, op, a, b).Some?
    ensures ArithResult(m, mode, op, a, b) == CheckedResult(m, op, a, b)
  {
    var v, size := CheckedResult(m, op, a, b).value, m.hi - m.lo + 1;
    if mode.Wrapping? && !op.Div? && !op.Rem? {
      assert 0 <= v - m.lo < size;
      SmallMod(v - m.lo, size);
    }
  }

  lemma SmallMod(x: int, n: int)
    requires 0 <= x < n
    ensures x % n == x
  {
  }

  /** An expression whose meaning the pass keeps up to earlier panics, on a machine that wraps around
      where nobody checks. */
  ghost predicate Sound(m: Machine, e: Expr)
  {
    Proper(m) && m.raw.Wrapping? && AllNodes(SourceNode, e) && Outside(SafeNode, e)
  }

  /** The rewritten expression gives what the original gives over the integers, or with wrap-around, or
      panics after some of its calls. */
  lemma {:induction false} FoldBelow(m: Machine, mode: Mode, e: Expr, s: State)
    requires Sound(m, e) && !mode.Checked?
    ensures Below(Eval(m, Wrapping, Fold(e), s), Eval(m, mode, e, s))
    decreases e
  {
    match e {
      case Lit(_) =>
      case Var(_) =>
      case Paren(e1) => FoldBelow(m, mode, e1, s);
      case Arith(op, l, r) => ArithBelow(m, mode, op, l, r, s);
      case Other(op, l, r) => OtherBelow(m, mode, op, l, r, s);
      case Not(e1) => FoldBelow(m, mode, e1, s);
      case Neg(e1) => NegBelow(m, mode, e1, s);
      case Set(_, e1) => FoldBelow(m, mode, e1, s);
      case OpAssign(op, place, r) =>
        match place {
          case PVar(x) => VarAssignBelow(m, mode, op, x, r, s);
          case PCell(i) =>
            assert AllInPlace(SourceNode, place) && OutsideInPlace(SafeNode, place);
            CellAssignBelow(m, mode, op, i, r, s);
        }
      case If(c, t, f) => IfBelow(m, mode, c, t, f, s);
      case Block(es) => AllBelow(m, mode, es, s);
      case Call(_, args) => AllBelow(m, mode, args, s);
      case Macro(attr, _, _, args) => if attr.NoAttr? { AllBelow(m, mode, args, s); }
    }
  }

  /** Two parts of an expression, one evaluated after the other. */
  lemma {:induction false} PairBelow(m: Machine, mode: Mode, whole: Expr, l: Expr, r: Expr, s: State)
    requires Sound(m, l) && Sound(m, r) && !mode.Checked? && l < whole && r < whole
    ensures var x, y := Eval(m, Wrapping, RemoveParens(Fold(l)), s), Eval(m, mode, l, s);
            && x == Eval(m, Wrapping, Fold(l), s) && Below(x, y)
            && (x.Ok? ==>
                  && Eval(m, Wrapping, RemoveParens(Fold(r)), x.s) == Eval(m, Wrapping, Fold(r), x.s)
                  && Below(Eval(m, Wrapping, Fold(r), x.s), Eval(m, mode, r, x.s)))
            && (y.Ok? ==> TraceOf(y) <= TraceOf(Eval(m, mode, r, y.s)))
    decreases whole, 0
  {
    ParensKeep(m, Wrapping, Fold(l), s);
    FoldBelow(m, mode, l, s);
    var x, y := Eval(m, Wrapping, Fold(l), s), Eval(m, mode, l, s);
    if x.Ok? {
      ParensKeep(m, Wrapping, Fold(r), x.s);
      FoldBelow(m, mode, r, x.s);
    }
    if y.Ok? {
      TraceGrows(m, mode, r, y.s);
    }
  }

  lemma {:induction false} ArithBelow(m: Machine, mode: Mode, op: ArithOp, l: Expr, r: Expr, s: State)
    requires Sound(m, Arith(op, l, r)) && !mode.Checked?
    ensures Below(Eval(m, Wrapping, Fold(Arith(op, l, r)), s), Eval(m, mode, Arith(op, l, r), s))
    decreases Arith(op, l, r), 1
  {
    var l', r' := RemoveParens(Fold(l)), RemoveParens(Fold(r));
    PairBelow(m, mode, Arith(op, l, r), l, r, s);
    PairMeaning(m, Wrapping, op, l', r', s);
    ArithContext(m, mode, op, l', r', l, r, s);
  }

  lemma {:induction false} ArithContext(m: Machine, mode: Mode, op: ArithOp,
                                        l': Expr, r': Expr, l: Expr, r: Expr, s: State)
    requires Proper(m)
    requires var x, y := Eval(m, Wrapping, l', s), Eval(m, mode, l, s);
             && Below(x, y)
             && (x.Ok? ==> Below(Eval(m, Wrapping, r', x.s), Eval(m, mode, r, x.s)))
             && (y.Ok? ==> TraceOf(y) <= TraceOf(Eval(m, mode, r, y.s)))
    ensures Below(Eval(m, Wrapping, CheckedOp(op, l', r'), s), Eval(m, mode, Arith(op, l, r), s))
  {
    var x := Eval(m, Wrapping, l', s);
    if x.Ok? {
      var y := Eval(m, Wrapping, r', x.s);
      if y.Ok? && CheckedResult(m, op, x.v, y.v).Some? { CheckedIsExact(m, mode, op, x.v, y.v); }
    }
  }

  lemma {:induction false} OtherBelow(m: Machine, mode: Mode, op: OtherOp, l: Expr, r: Expr, s: State)
    requires Sound(m, Other(op, l, r)) && !mode.Checked?
    ensures Below(Eval(m, Wrapping, Fold(Other(op, l, r)), s), Eval(m, mode, Other(op, l, r), s))
    decreases Other(op, l, r), 1
  {
    PairBelow(m, mode, Other(op, l, r), l, r, s);
  }

  lemma {:induction false} NegBelow(m: Machine, mode: Mode, e1: Expr, s: State)
    requires Sound(m, Neg(e1)) && !mode.Checked?
    ensures Below(Eval(m, Wrapping, Fold(Neg(e1)), s), Eval(m, mode, Neg(e1), s))
    decreases Neg(e1), 0
  {
    FoldBelow(m, mode, e1, s);
    WeakenOutside(SafeNode, PlainNode, e1);
    SameParity(e1);
    AppendMeaning(m, Wrapping, Fold(e1), s);
    var a := Eval(m, Wrapping, Fold(e1), s);
    if a.Ok? && CheckedResult(m, Sub, 0, a.v).Some? { CheckedIsExact(m, mode, Sub, 0, a.v); }
  }

  lemma {:induction false} IfBelow(m: Machine, mode: Mode, c: Expr, t: Expr, f: Expr, s: State)
    requires Sound(m, If(c, t, f)) && !mode.Checked?
    ensures Below(Eval(m, Wrapping, Fold(If(c, t, f)), s), Eval(m, mode, If(c, t, f), s))
    decreases If(c, t, f), 1
  {
    PairBelow(m, mode, If(c, t, f), c, t, s);
    PairBelow(m, mode, If(c, t, f), c, f, s);
  }

  lemma {:induction false} VarAssignBelow(m: Machine, mode: Mode, op: ArithOp, x: string, r: Expr, s: State)
    requires Sound(m, r) && !mode.Checked?
    ensures Below(Eval(m, Wrapping, Fold(OpAssign(op, PVar(x), r)), s), Eval(m, mode, OpAssign(op, PVar(x), r), s))
    decreases OpAssign(op, PVar(x), r), 0
  {
    FoldBelow(m, mode, r, s);
    ParensKeep(m, Wrapping, Fold(r), s);
    VarContext(m, mode, op, x, RemoveParens(Fold(r)), r, s);
  }

  lemma {:induction false} VarContext(m: Machine, mode: Mode, op: ArithOp, x: string, r': Expr, r: Expr, s: State)
    requires Proper(m) && Below(Eval(m, Wrapping, r', s), Eval(m, mode, r, s))
    ensures Below(Eval(m, Wrapping, CheckedOpAssign(op, PVar(x), r'), s), Eval(m, mode, OpAssign(op, PVar(x), r), s))
  {
    assert EvalPlace(m, Wrapping, PVar(x), s) == At(VarCell(x), s);
    var b := Eval(m, Wrapping, r', s);
    if b.Ok? {
      assert EvalPlace(m, mode, PVar(x), b.s) == At(VarCell(x), b.s);
      var was := ReadCell(b.s, VarCell(x));
      if CheckedResult(m, op, was, b.v).Some? { CheckedIsExact(m, mode, op, was, b.v); }
    }
  }

  /** The parts of two assignments, evaluated alike or with an earlier panic. */
  ghost predicate PartsBelow(m: Machine, mode: Mode, i': Expr, r': Expr, i: Expr, r: Expr, s: State)
    requires Proper(m)
  {
    var x := Eval(m, Wrapping, i', s);
    && Below(x, Eval(m, mode, i, s))
    && (x.Ok? ==> Below(Eval(m, Wrapping, r', x.s), Eval(m, mode, r, x.s)))
  }

  /** When all goes well on both sides the new order writes what the old one writes, or panics where
      the checked operation does. */
  lemma {:induction false} WriteBelow(m: Machine, mode: Mode, op: ArithOp, k: int, w: int, s: State)
    requires Proper(m)
    ensures var was := ReadCell(s, IndexCell(k));
            Below(WriteBack(s, IndexCell(k), CheckedResult(m, op, was, w)),
                  WriteBack(s, IndexCell(k), ArithResult(m, mode, op, was, w)))
  {
    var was := ReadCell(s, IndexCell(k));
    if CheckedResult(m, op, was, w).Some? { CheckedIsExact(m, mode, op, was, w); }
  }

  /** The trace of an assignment contains that of its index evaluated first, and that of its right side
      evaluated after it. */
  ghost predicate SidesWithin(m: Machine, mode: Mode, op: ArithOp, i: Expr, r: Expr, s: State)
    requires Proper(m)
  {
    var whole := TraceOf(Eval(m, mode, OpAssign(op, PCell(i), r), s));
    var a := Eval(m, mode, i, s);
    TraceOf(a) <= whole && (a.Ok? ==> TraceOf(Eval(m, mode, r, a.s)) <= whole)
  }

  lemma {:induction false} OnlyRightCalls(m: Machine, mode: Mode, op: ArithOp, i: Expr, r: Expr, s: State)
    requires Proper(m) && AllNodes(SourceNode, i) && CallFree(i)
    ensures TraceOf(Eval(m, mode, OpAssign(op, PCell(i), r), s)) == TraceOf(Eval(m, mode, r, s))
  {
    RightThenIndex(m, mode, op, i, r, s);
    var b := Eval(m, mode, r, s);
    if b.Ok? { Keeps(m, mode, i, AllCalls, b.s); }
  }

  lemma {:induction false} QuietIndex(m: Machine, mode: Mode, op: ArithOp, i: Expr, r: Expr, s: State)
    requires Proper(m) && Apart(i, r) && AllNodes(SourceNode, i) && AllNodes(SourceNode, r) && CallFree(i)
    ensures SidesWithin(m, mode, op, i, r, s)
  {
    OnlyRightCalls(m, mode, op, i, r, s);
    TraceGrows(m, mode, r, s);
    Keeps(m, mode, i, AllCalls, s);
    if Eval(m, mode, i, s).Ok? { TraceWhenFree(m, mode, r, i, s); }
  }

  lemma {:induction false} SteadyRight(m: Machine, mode: Mode, op: ArithOp, i: Expr, r: Expr, s: State)
    requires Proper(m) && Apart(i, r) && AllNodes(SourceNode, i) && AllNodes(SourceNode, r)
    requires CallFree(r) && Eval(m, mode, r, s).Ok?
    ensures SidesWithin(m, mode, op, i, r, s)
  {
    var a := Eval(m, mode, i, s);
    RightThenIndex(m, mode, op, i, r, s);
    Keeps(m, mode, r, AllCalls, s);
    TraceWhenFree(m, mode, i, r, s);
    if a.Ok? { TraceWhenFree(m, mode, r, i, s); }
  }

  lemma {:induction false} EarlierPanic(m: Machine, mode: Mode, op: ArithOp, i: Expr, r: Expr, s: State)
    requires Proper(m) && Apart(i, r) && AllNodes(SourceNode, i) && AllNodes(SourceNode, r) && !mode.Checked?
    requires AllNodes(QuietNode, i) || (AllNodes(Steady(false), r) && !m.raw.Checked?)
    ensures SidesWithin(m, mode, op, i, r, s)
  {
    if AllNodes(QuietNode, i) { Weaken(QuietNode, Leaves(AllCalls), i); }
    OneLeaves(i, r, AllCalls);
    if CallFree(i) {
      QuietIndex(m, mode, op, i, r, s);
    } else {
      SteadyOk(m, mode, r, s);
      SteadyRight(m, mode, op, i, r, s);
    }
  }

  /** What the old order writes, from the parts in the new order. */
  lemma {:induction false} OldOrderWrites(m: Machine, mode: Mode, op: ArithOp, i: Expr, r: Expr, s: State)
    requires Proper(m) && Apart(i, r) && AllNodes(SourceNode, i) && AllNodes(SourceNode, r)
    requires var x := Eval(m, mode, i, s); x.Ok? && InBounds(m, x.v) && Eval(m, mode, r, x.s).Ok?
    ensures var x := Eval(m, mode, i, s);
            var b := Eval(m, mode, r, x.s);
            Eval(m, mode, OpAssign(op, PCell(i), r), s) ==
            WriteBack(b.s, IndexCell(x.v), ArithResult(m, mode, op, ReadCell(b.s, IndexCell(x.v)), b.v))
  {
    Commute(m, mode, i, r, s);
    RightThenIndex(m, mode, op, i, r, s);
  }

  /** The index of a cell evaluated before instead of after a right side that is apart from it. */
  lemma {:induction false} IndexFirst(m: Machine, mode: Mode, op: ArithOp, i': Expr, r': Expr,
                                      i: Expr, r: Expr, s: State)
    requires Proper(m) && PartsBelow(m, mode, i', r', i, r, s) && !mode.Checked?
    requires Apart(i, r) && AllNodes(SourceNode, i) && AllNodes(SourceNode, r)
    requires AllNodes(QuietNode, i) || (AllNodes(Steady(false), r) && !m.raw.Checked?)
    ensures Below(Eval(m, Wrapping, CheckedOpAssign(op, PCell(i'), r'), s), Eval(m, mode, OpAssign(op, PCell(i), r), s))
  {
    EarlierPanic(m, mode, op, i, r, s);
    IndexThenRight(m, Wrapping, op, i', r', s);
    var x := Eval(m, Wrapping, i', s);
    if x.Ok? && InBounds(m, x.v) {
      var b' := Eval(m, Wrapping, r', x.s);
      if b'.Ok? {
        assert x == Eval(m, mode, i, s) && b' == Eval(m, mode, r, x.s);
        OldOrderWrites(m, mode, op, i, r, s);
        WriteBelow(m, mode, op, x.v, b'.v, b'.s);
      }
    }
  }

  lemma {:induction false} CellAssignBelow(m: Machine, mode: Mode, op: ArithOp, i: Expr, r: Expr, s: State)
    requires Sound(m, i) && Sound(m, r) && !mode.Checked? && PlaceMayGoFirst(PCell(i), r)
    ensures Below(Eval(m, Wrapping, CheckedOpAssign(op, PCell(Fold(i)), RemoveParens(Fold(r))), s),
                  Eval(m, mode, OpAssign(op, PCell(i), r), s))
    decreases OpAssign(op, PCell(i), r), 1
  {
    var r' := RemoveParens(Fold(r));
    assert PartsBelow(m, mode, Fold(i), r', i, r, s) by { PairBelow(m, mode, OpAssign(op, PCell(i), r), i, r, s); }
    IndexFirst(m, mode, op, Fold(i), r', i, r, s);
  }

  lemma {:induction false} AllBelow(m: Machine, mode: Mode, es: Exprs, s: State)
    requires Proper(m) && m.raw.Wrapping? && !mode.Checked?
    requires AllInList(SourceNode, es) && OutsideInList(SafeNode, es)
    ensures ListBelow(EvalAll(m, Wrapping, FoldAll(es), s), EvalAll(m, mode, es, s))
    decreases es
  {
    if es.Cons? {
      FoldBelow(m, mode, es.head, s);
      var a, a' := Eval(m, Wrapping, Fold(es.head), s), Eval(m, mode, es.head, s);
      if a'.Ok? { TraceGrowsAll(m, mode, es.tail, a'.s); }
      if a.Ok? { AllBelow(m, mode, es.tail, a.s); }
    }
  }

  // ----- Main results -----

  /** Soundness of the pass.  Run on the machine, the rewritten expression yields exactly the value,
      the state and the calls that the original has over the unbounded integers, the contents of
      exempted macros read as they are, or it panics after some of those calls; and whenever it does
      not panic, the original run with wrap-around would have done the same. */
  lemma {:induction false} PassIsSound(m: Machine, e: Expr, s: State)
    requires Sound(m, e)
    ensures Below(Eval(m, Wrapping, Fold(e), s), Eval(m, Ideal, e, s))
    ensures Below(Eval(m, Wrapping, Fold(e), s), Eval(m, Wrapping, e, s))
  {
    FoldBelow(m, Ideal, e, s);
    FoldBelow(m, Wrapping, e, s);
  }

  /** A negation of an operand that starts with `!` is rewritten to a negation behind those `!`.
      Whenever the result does not panic it has the value of the original if and only if the number of
      `!` is even or the bounds of the type are symmetric, which those of no integer type are. */
  lemma {:induction false} NegationIff(m: Machine, e: Expr, s: State)
    requires Sound(m, e) && Eval(m, Wrapping, Fold(Neg(e)), s).Ok?
    ensures var x, y := Eval(m, Wrapping, Fold(Neg(e)), s), Eval(m, Ideal, Neg(e), s);
            && y.Ok? && x.s == y.s
            && (x.v == y.v <==> Nots(e) % 2 == 0 || m.lo + m.hi == 0)
  {
    FoldBelow(m, Ideal, e, s);
    WeakenOutside(SafeNode, PlainNode, e);
    SameParity(e);
    AppendMeaning(m, Wrapping, Fold(e), s);
  }

  /** The smallest failing case: with 8-bit signed integers `-!0` is 1, and -1 after the pass. */
  lemma {:induction false} NegatedNot(m: Machine, s: State)
    requires m.lo == -128 && m.hi == 127
    ensures var e := Neg(Not(Lit(0)));
            && Eval(m, Ideal, e, s) == Ok(1, s)
            && Eval(m, Wrapping, Fold(e), s) == Ok(-1, s)
  {
    assert Fold(Neg(Not(Lit(0)))) == Not(CheckedNeg(Lit(0)));
    assert Eval(m, Wrapping, CheckedNeg(Lit(0)), s) == Ok(0, s);
    assert Eval(m, Ideal, Not(Lit(0)), s) == Ok(-1, s);
  }
}
