/** Compound assignments: the pass evaluates the place before the right side, the language after it. */
module CheckedOrder {
  import opened Types
  import opened CheckedArithmetic
  import opened CheckedShape

  function TraceOf(r: Result): seq<Event>
  {
    if r.Ok? then r.s.trace else r.trace
  }

  function ListTrace(r: Values): seq<Event>
  {
    if r.Vals? then r.s.trace else r.trace
  }

  // ----- What evaluation leaves alone, and what it depends on -----

  datatype Sight = VarSight(value: Option<int>) | CellSight(cells: map<int, int>) | CallSight(calls: seq<Event>)

  /** What a part of the state holds. */
  function See(part: Part, s: State): Sight
  {
    match part
    case OneVar(x) => VarSight(if x in s.vars then Some(s.vars[x]) else None)
    case AllCells => CellSight(s.cells)
    case AllCalls => CallSight(s.trace)
  }

  ghost predicate Kept(part: Part, s: State, y: Result)
  {
    (y.Ok? ==> See(part, y.s) == See(part, s)) && (part.AllCalls? ==> TraceOf(y) == s.trace)
  }

  /** Evaluation leaves alone what no node changes. */
  lemma {:induction false} Keeps(m: Machine, mode: Mode, e: Expr, part: Part, s: State)
    requires Proper(m) && AllNodes(SourceNode, e) && AllNodes(Leaves(part), e)
    ensures Kept(part, s, Eval(m, mode, e, s))
    decreases e
  {
    match e {
      case Lit(_) =>
      case Var(_) =>
      case Paren(e1) => Keeps(m, mode, e1, part, s);
      case Arith(_, l, r) => KeepsPair(m, mode, e, l, r, part, s);
      case Other(_, l, r) => KeepsPair(m, mode, e, l, r, part, s);
      case Not(e1) => Keeps(m, mode, e1, part, s);
      case Neg(e1) => Keeps(m, mode, e1, part, s);
      case Set(x, e1) => Keeps(m, mode, e1, part, s); KeepsSet(m, mode, x, e1, part, s);
      case OpAssign(op, place, r) => KeepsAssign(m, mode, op, place, r, part, s);
      case If(c, t, f) => KeepsPair(m, mode, e, c, t, part, s); KeepsPair(m, mode, e, c, f, part, s);
      case Block(es) => KeepsAll(m, mode, es, part, s);
      case Call(f, args) => KeepsAll(m, mode, args, part, s); KeepsCall(m, f, part, s, EvalAll(m, mode, args, s));
      case Macro(attr, _, f, args) =>
        var inner := Within(m, mode, attr);
        KeepsAll(m, inner, args, part, s); KeepsCall(m, f, part, s, EvalAll(m, inner, args, s));
    }
  }

  lemma {:induction false} KeepsSet(m: Machine, mode: Mode, x: string, e1: Expr, part: Part, s: State)
    requires Proper(m) && part != OneVar(x) && Kept(part, s, Eval(m, mode, e1, s))
    ensures Kept(part, s, Eval(m, mode, Set(x, e1), s))
  {
  }

  lemma KeepsCall(m: Machine, f: string, part: Part, s: State, args: Values)
    requires !part.AllCalls? && (args.Vals? ==> See(part, args.s) == See(part, s))
    ensures Kept(part, s, Invoke(m, f, args))
  {
  }

  lemma {:induction false} KeepsPair(m: Machine, mode: Mode, whole: Expr, l: Expr, r: Expr, part: Part, s: State)
    requires Proper(m) && l < whole && r < whole && AllNodes(SourceNode, l) && AllNodes(SourceNode, r)
    requires AllNodes(Leaves(part), l) && AllNodes(Leaves(part), r)
    ensures var a := Eval(m, mode, l, s);
            Kept(part, s, a) && (a.Ok? ==> Kept(part, s, Eval(m, mode, r, a.s)))
    decreases whole, 0
  {
    Keeps(m, mode, l, part, s);
    var a := Eval(m, mode, l, s);
    if a.Ok? { Keeps(m, mode, r, part, a.s); }
  }

  lemma {:induction false} KeepsAssign(m: Machine, mode: Mode, op: ArithOp, place: Place, r: Expr, part: Part, s: State)
    requires var e := OpAssign(op, place, r); Proper(m) && AllNodes(SourceNode, e) && AllNodes(Leaves(part), e)
    ensures Kept(part, s, Eval(m, mode, OpAssign(op, place, r), s))
    decreases OpAssign(op, place, r), 1
  {
    match place {
      case PVar(x) =>
        Keeps(m, mode, r, part, s);
      case PCell(i) =>
        KeepsPair(m, mode, OpAssign(op, place, r), r, i, part, s);
        RightThenIndex(m, mode, op, i, r, s);
    }
  }

  lemma {:induction false} KeepsAll(m: Machine, mode: Mode, es: Exprs, part: Part, s: State)
    requires Proper(m) && AllInList(SourceNode, es) && AllInList(Leaves(part), es)
    ensures var y := EvalAll(m, mode, es, s);
            (y.Vals? ==> See(part, y.s) == See(part, s)) && (part.AllCalls? ==> ListTrace(y) == s.trace)
    decreases es
  {
    if es.Cons? {
      Keeps(m, mode, es.head, part, s);
      var a := Eval(m, mode, es.head, s);
      if a.Ok? { KeepsAll(m, mode, es.tail, part, a.s); }
    }
  }

  /** The states hold the same in everything the expression leaves alone. */
  ghost predicate Alike(other: Expr, s: State, t: State)
  {
    forall part :: AllNodes(Leaves(part), other) ==> See(part, s) == See(part, t)
  }

  lemma {:induction false} AlikeAfter(m: Machine, mode: Mode, e: Expr, s: State)
    requires Proper(m) && AllNodes(SourceNode, e) && Eval(m, mode, e, s).Ok?
    ensures Alike(e, s, Eval(m, mode, e, s).s)
  {
    forall part | AllNodes(Leaves(part), e) ensures See(part, s) == See(part, Eval(m, mode, e, s).s) {
      Keeps(m, mode, e, part, s);
    }
  }

  ghost predicate CallFree(e: Expr)
  {
    AllNodes(Leaves(AllCalls), e)
  }

  /** The same value in both states, with results alike, or a panic in both. */
  ghost predicate SameOutcome(other: Expr, x: Result, y: Result)
  {
    && (x.Ok? <==> y.Ok?)
    && (x.Ok? ==> x.v == y.v && Alike(other, x.s, y.s))
    && (CallFree(other) ==> TraceOf(x) == TraceOf(y))
  }

  ghost predicate SameValues(other: Expr, x: Values, y: Values)
  {
    && (x.Vals? <==> y.Vals?)
    && (x.Vals? ==> x.vs == y.vs && Alike(other, x.s, y.s))
    && (CallFree(other) ==> ListTrace(x) == ListTrace(y))
  }

  lemma AlikeTrace(other: Expr, s: State, t: State)
    requires Alike(other, s, t)
    ensures CallFree(other) ==> s.trace == t.trace
  {
    assert CallFree(other) ==> See(AllCalls, s) == See(AllCalls, t);
  }

  lemma AlikeSet(other: Expr, x: string, v: int, s: State, t: State)
    requires Alike(other, s, t)
    ensures Alike(other, s.(vars := s.vars[x := v]), t.(vars := t.vars[x := v]))
  {
    var s', t' := s.(vars := s.vars[x := v]), t.(vars := t.vars[x := v]);
    forall part | AllNodes(Leaves(part), other) ensures See(part, s') == See(part, t') {
      assert See(part, s) == See(part, t);
    }
  }

  lemma AlikeCells(other: Expr, s: State, t: State, k: int, v: int)
    requires Alike(other, s, t) && AllNodes(Leaves(AllCells), other)
    ensures s.cells == t.cells
    ensures Alike(other, s.(cells := s.cells[k := v]), t.(cells := t.cells[k := v]))
  {
    assert See(AllCells, s) == See(AllCells, t);
    var s', t' := s.(cells := s.cells[k := v]), t.(cells := t.cells[k := v]);
    forall part | AllNodes(Leaves(part), other) ensures See(part, s') == See(part, t') {
      assert See(part, s) == See(part, t);
    }
  }

  lemma AlikeCall(other: Expr, s: State, t: State, e: Event)
    requires Alike(other, s, t) && CallFree(other)
    ensures s.trace == t.trace
    ensures Alike(other, s.(trace := s.trace + [e]), t.(trace := t.trace + [e]))
  {
    AlikeTrace(other, s, t);
    var s', t' := s.(trace := s.trace + [e]), t.(trace := t.trace + [e]);
    forall part | AllNodes(Leaves(part), other) ensures See(part, s') == See(part, t') {
      assert See(part, s) == See(part, t);
    }
  }

  lemma {:induction false} DependsRead(m: Machine, mode: Mode, x: string, other: Expr, s: State, t: State)
    requires Proper(m) && AllNodes(Leaves(OneVar(x)), other) && Alike(other, s, t)
    ensures SameOutcome(other, Eval(m, mode, Var(x), s), Eval(m, mode, Var(x), t))
  {
    AlikeTrace(other, s, t);
    assert See(OneVar(x), s) == See(OneVar(x), t);
  }

  /** An expression that uses nothing the other changes has the same outcome in states that are alike in
      what the other leaves alone. */
  lemma {:induction false} Depends(m: Machine, mode: Mode, e: Expr, other: Expr, s: State, t: State)
    requires Proper(m) && AllNodes(SourceNode, e) && AllNodes(SparedBy(other), e) && Alike(other, s, t)
    ensures SameOutcome(other, Eval(m, mode, e, s), Eval(m, mode, e, t))
    decreases e
  {
    match e {
      case Lit(_) => AlikeTrace(other, s, t);
      case Var(x) => DependsRead(m, mode, x, other, s, t);
      case Paren(e1) => Depends(m, mode, e1, other, s, t);
      case Arith(op, l, r) => DependsArith(m, mode, op, l, r, other, s, t);
      case Other(op, l, r) => DependsOther(m, mode, op, l, r, other, s, t);
      case Not(e1) => Depends(m, mode, e1, other, s, t);
      case Neg(e1) => DependsNeg(m, mode, e1, other, s, t);
      case Set(x, e1) => DependsSet(m, mode, x, e1, other, s, t);
      case OpAssign(op, place, r) => DependsAssign(m, mode, op, place, r, other, s, t);
      case If(c, a, b) => DependsIf(m, mode, c, a, b, other, s, t);
      case Block(es) => DependsAll(m, mode, es, other, s, t); LastSame(m, mode, es, other, s, t);
      case Call(f, args) => DependsAll(m, mode, args, other, s, t); InvokeSame(m, mode, f, args, other, s, t);
      case Macro(attr, _, f, args) =>
        var inner := Within(m, mode, attr);
        DependsAll(m, inner, args, other, s, t); InvokeSame(m, inner, f, args, other, s, t);
    }
  }

  lemma {:induction false} DependsPair(m: Machine, mode: Mode, whole: Expr, l: Expr, r: Expr, other: Expr,
                                      s: State, t: State)
    requires Proper(m) && l < whole && r < whole && Alike(other, s, t)
    requires AllNodes(SourceNode, l) && AllNodes(SourceNode, r)
    requires AllNodes(SparedBy(other), l) && AllNodes(SparedBy(other), r)
    ensures var x, y := Eval(m, mode, l, s), Eval(m, mode, l, t);
            && SameOutcome(other, x, y)
            && (x.Ok? ==> SameOutcome(other, Eval(m, mode, r, x.s), Eval(m, mode, r, y.s)))
    decreases whole, 0
  {
    Depends(m, mode, l, other, s, t);
    var x, y := Eval(m, mode, l, s), Eval(m, mode, l, t);
    if x.Ok? { Depends(m, mode, r, other, x.s, y.s); }
  }

  lemma FinishSame(other: Expr, v: Option<int>, s: State, t: State)
    requires Alike(other, s, t)
    ensures SameOutcome(other, Finish(v, s), Finish(v, t))
  {
    AlikeTrace(other, s, t);
  }

  lemma {:induction false} LeftThenRight(m: Machine, mode: Mode, op: ArithOp, l: Expr, r: Expr, s: State)
    requires Proper(m)
    ensures var a := Eval(m, mode, l, s);
            Eval(m, mode, Arith(op, l, r), s) ==
            if a.Panic? then a
            else
              var b := Eval(m, mode, r, a.s);
              if b.Panic? then b else Finish(ArithResult(m, mode, op, a.v, b.v), b.s)
  {
  }

  lemma {:induction false} DependsArith(m: Machine, mode: Mode, op: ArithOp, l: Expr, r: Expr, other: Expr,
                                       s: State, t: State)
    requires var e := Arith(op, l, r);
             Proper(m) && AllNodes(SourceNode, e) && AllNodes(SparedBy(other), e) && Alike(other, s, t)
    ensures SameOutcome(other, Eval(m, mode, Arith(op, l, r), s), Eval(m, mode, Arith(op, l, r), t))
    decreases Arith(op, l, r), 1
  {
    DependsPair(m, mode, Arith(op, l, r), l, r, other, s, t);
    LeftThenRight(m, mode, op, l, r, s);
    LeftThenRight(m, mode, op, l, r, t);
    var x, y := Eval(m, mode, l, s), Eval(m, mode, l, t);
    if x.Ok? {
      var x', y' := Eval(m, mode, r, x.s), Eval(m, mode, r, y.s);
      if x'.Ok? { FinishSame(other, ArithResult(m, mode, op, x.v, x'.v), x'.s, y'.s); }
    }
  }

  lemma {:induction false} DependsOther(m: Machine, mode: Mode, op: OtherOp, l: Expr, r: Expr, other: Expr,
                                       s: State, t: State)
    requires var e := Other(op, l, r);
             Proper(m) && AllNodes(SourceNode, e) && AllNodes(SparedBy(other), e) && Alike(other, s, t)
    ensures SameOutcome(other, Eval(m, mode, Other(op, l, r), s), Eval(m, mode, Other(op, l, r), t))
    decreases Other(op, l, r), 1
  {
    DependsPair(m, mode, Other(op, l, r), l, r, other, s, t);
  }

  lemma {:induction false} DependsNeg(m: Machine, mode: Mode, e1: Expr, other: Expr, s: State, t: State)
    requires Proper(m) && AllNodes(SourceNode, Neg(e1)) && AllNodes(SparedBy(other), Neg(e1)) && Alike(other, s, t)
    ensures SameOutcome(other, Eval(m, mode, Neg(e1), s), Eval(m, mode, Neg(e1), t))
    decreases Neg(e1), 0
  {
    Depends(m, mode, e1, other, s, t);
    var x, y := Eval(m, mode, e1, s), Eval(m, mode, e1, t);
    if x.Ok? { FinishSame(other, ArithResult(m, mode, Sub, 0, x.v), x.s, y.s); }
  }

  lemma {:induction false} DependsSet(m: Machine, mode: Mode, v: string, e1: Expr, other: Expr, s: State, t: State)
    requires var e := Set(v, e1);
             Proper(m) && AllNodes(SourceNode, e) && AllNodes(SparedBy(other), e) && Alike(other, s, t)
    ensures SameOutcome(other, Eval(m, mode, Set(v, e1), s), Eval(m, mode, Set(v, e1), t))
    decreases Set(v, e1), 0
  {
    Depends(m, mode, e1, other, s, t);
    var x, y := Eval(m, mode, e1, s), Eval(m, mode, e1, t);
    if x.Ok? { AlikeSet(other, v, x.v, x.s, y.s); }
  }

  lemma WriteVarSame(other: Expr, v: string, result: Option<int>, s: State, t: State)
    requires Alike(other, s, t)
    ensures SameOutcome(other, WriteBack(s, VarCell(v), result), WriteBack(t, VarCell(v), result))
  {
    AlikeTrace(other, s, t);
    if result.Some? { AlikeSet(other, v, result.value, s, t); }
  }

  lemma {:induction false} VarAssign(m: Machine, mode: Mode, op: ArithOp, v: string, r: Expr, s: State)
    requires Proper(m)
    ensures var b := Eval(m, mode, r, s);
            Eval(m, mode, OpAssign(op, PVar(v), r), s) ==
            if b.Panic? then b
            else WriteBack(b.s, VarCell(v), ArithResult(m, mode, op, ReadCell(b.s, VarCell(v)), b.v))
  {
  }

  lemma {:induction false} DependsVar(m: Machine, mode: Mode, op: ArithOp, v: string, r: Expr, other: Expr,
                                     s: State, t: State)
    requires var e := OpAssign(op, PVar(v), r);
             Proper(m) && AllNodes(SourceNode, e) && AllNodes(SparedBy(other), e) && Alike(other, s, t)
    ensures SameOutcome(other, Eval(m, mode, OpAssign(op, PVar(v), r), s), Eval(m, mode, OpAssign(op, PVar(v), r), t))
    decreases OpAssign(op, PVar(v), r), 0
  {
    Depends(m, mode, r, other, s, t);
    var x, y := Eval(m, mode, r, s), Eval(m, mode, r, t);
    VarAssign(m, mode, op, v, r, s);
    VarAssign(m, mode, op, v, r, t);
    if x.Ok? {
      assert See(OneVar(v), x.s) == See(OneVar(v), y.s);
      WriteVarSame(other, v, ArithResult(m, mode, op, ReadCell(x.s, VarCell(v)), x.v), x.s, y.s);
    }
  }

  lemma WriteCellSame(other: Expr, k: int, result: Option<int>, s: State, t: State)
    requires Alike(other, s, t) && AllNodes(Leaves(AllCells), other)
    ensures SameOutcome(other, WriteBack(s, IndexCell(k), result), WriteBack(t, IndexCell(k), result))
  {
    AlikeTrace(other, s, t);
    AlikeCells(other, s, t, k, if result.Some? then result.value else 0);
  }

  lemma {:induction false} DependsCell(m: Machine, mode: Mode, op: ArithOp, i: Expr, r: Expr, other: Expr,
                                      s: State, t: State)
    requires var e := OpAssign(op, PCell(i), r);
             Proper(m) && AllNodes(SourceNode, e) && AllNodes(SparedBy(other), e) && Alike(other, s, t)
    ensures SameOutcome(other, Eval(m, mode, OpAssign(op, PCell(i), r), s), Eval(m, mode, OpAssign(op, PCell(i), r), t))
    decreases OpAssign(op, PCell(i), r), 1
  {
    DependsPair(m, mode, OpAssign(op, PCell(i), r), r, i, other, s, t);
    RightThenIndex(m, mode, op, i, r, s);
    RightThenIndex(m, mode, op, i, r, t);
    var x, y := Eval(m, mode, r, s), Eval(m, mode, r, t);
    if x.Ok? {
      var a, b := Eval(m, mode, i, x.s), Eval(m, mode, i, y.s);
      if a.Ok? {
        AlikeTrace(other, a.s, b.s);
        assert See(AllCells, a.s) == See(AllCells, b.s);
        WriteCellSame(other, a.v, ArithResult(m, mode, op, ReadCell(a.s, IndexCell(a.v)), x.v), a.s, b.s);
      }
    }
  }

  lemma {:induction false} DependsAssign(m: Machine, mode: Mode, op: ArithOp, place: Place, r: Expr, other: Expr,
                                        s: State, t: State)
    requires var e := OpAssign(op, place, r);
             Proper(m) && AllNodes(SourceNode, e) && AllNodes(SparedBy(other), e) && Alike(other, s, t)
    ensures SameOutcome(other, Eval(m, mode, OpAssign(op, place, r), s), Eval(m, mode, OpAssign(op, place, r), t))
    decreases OpAssign(op, place, r), 2
  {
    match place {
      case PVar(x) => DependsVar(m, mode, op, x, r, other, s, t);
      case PCell(i) => DependsCell(m, mode, op, i, r, other, s, t);
    }
  }

  lemma {:induction false} DependsIf(m: Machine, mode: Mode, c: Expr, a: Expr, b: Expr, other: Expr, s: State, t: State)
    requires var e := If(c, a, b);
             Proper(m) && AllNodes(SourceNode, e) && AllNodes(SparedBy(other), e) && Alike(other, s, t)
    ensures SameOutcome(other, Eval(m, mode, If(c, a, b), s), Eval(m, mode, If(c, a, b), t))
    decreases If(c, a, b), 1
  {
    DependsPair(m, mode, If(c, a, b), c, a, other, s, t);
    DependsPair(m, mode, If(c, a, b), c, b, other, s, t);
  }

  lemma {:induction false} DependsAll(m: Machine, mode: Mode, es: Exprs, other: Expr, s: State, t: State)
    requires Proper(m) && AllInList(SourceNode, es) && AllInList(SparedBy(other), es) && Alike(other, s, t)
    ensures SameValues(other, EvalAll(m, mode, es, s), EvalAll(m, mode, es, t))
    decreases es
  {
    AlikeTrace(other, s, t);
    if es.Cons? {
      Depends(m, mode, es.head, other, s, t);
      var x, y := Eval(m, mode, es.head, s), Eval(m, mode, es.head, t);
      if x.Ok? { DependsAll(m, mode, es.tail, other, x.s, y.s); }
    }
  }

  lemma {:induction false} LastSame(m: Machine, mode: Mode, es: Exprs, other: Expr, s: State, t: State)
    requires Proper(m) && SameValues(other, EvalAll(m, mode, es, s), EvalAll(m, mode, es, t))
    ensures SameOutcome(other, LastOf(EvalAll(m, mode, es, s)), LastOf(EvalAll(m, mode, es, t)))
  {
  }

  lemma {:induction false} InvokeSame(m: Machine, mode: Mode, f: string, args: Exprs, other: Expr, s: State, t: State)
    requires Proper(m) && CallFree(other)
    requires SameValues(other, EvalAll(m, mode, args, s), EvalAll(m, mode, args, t))
    ensures SameOutcome(other, Invoke(m, f, EvalAll(m, mode, args, s)), Invoke(m, f, EvalAll(m, mode, args, t)))
  {
    var x, y := EvalAll(m, mode, args, s), EvalAll(m, mode, args, t);
    if x.Vals? { AlikeCall(other, x.s, y.s, Event(f, x.vs)); }
  }

  // ----- Expressions that are apart -----

  /** Of two expressions that are apart, one leaves any given part of the state alone. */
  lemma {:induction false} OneLeaves(a: Expr, b: Expr, part: Part)
    requires AllNodes(SparedBy(b), a)
    ensures AllNodes(Leaves(part), a) || AllNodes(Leaves(part), b)
  {
    if !AllNodes(Leaves(part), b) {
      forall n | SparedBy(b)(n) ensures Leaves(part)(n) {
      }
      Weaken(SparedBy(b), Leaves(part), a);
    }
  }

  lemma {:induction false} SameState(a: Expr, b: Expr, s: State, t: State)
    requires AllNodes(SparedBy(b), a) && Alike(a, s, t) && Alike(b, s, t)
    ensures s == t
  {
    forall part ensures See(part, s) == See(part, t) { OneLeaves(a, b, part); }
    assert s.cells == t.cells by { assert See(AllCells, s) == See(AllCells, t); }
    assert s.trace == t.trace by { assert See(AllCalls, s) == See(AllCalls, t); }
    assert s.vars == t.vars by {
      forall x ensures (x in s.vars <==> x in t.vars) && (x in s.vars ==> s.vars[x] == t.vars[x]) {
        assert See(OneVar(x), s) == See(OneVar(x), t);
      }
    }
  }

  lemma AlikeJoin(other: Expr, s: State, t: State, u: State)
    requires Alike(other, s, t) && Alike(other, s, u)
    ensures Alike(other, t, u)
  {
    forall part | AllNodes(Leaves(part), other) ensures See(part, t) == See(part, u) {
      assert See(part, s) == See(part, t) && See(part, s) == See(part, u);
    }
  }

  lemma {:induction false} AfterOther(m: Machine, mode: Mode, e: Expr, other: Expr, s: State)
    requires Proper(m) && AllNodes(SparedBy(other), e) && AllNodes(SourceNode, e) && AllNodes(SourceNode, other)
    requires Eval(m, mode, other, s).Ok?
    ensures SameOutcome(other, Eval(m, mode, e, s), Eval(m, mode, e, Eval(m, mode, other, s).s))
  {
    AlikeAfter(m, mode, other, s);
    Depends(m, mode, e, other, s, Eval(m, mode, other, s).s);
  }

  lemma {:induction false} OneIsCallFree(m: Machine, mode: Mode, a: Expr, b: Expr, s: State)
    requires Proper(m) && AllNodes(SparedBy(b), a) && AllNodes(SourceNode, a) && AllNodes(SourceNode, b)
    ensures || (CallFree(a) && TraceOf(Eval(m, mode, a, s)) == s.trace)
            || (CallFree(b) && TraceOf(Eval(m, mode, b, s)) == s.trace)
  {
    OneLeaves(a, b, AllCalls);
    if CallFree(a) { Keeps(m, mode, a, AllCalls, s); } else { Keeps(m, mode, b, AllCalls, s); }
  }

  /** Expressions that are apart have the same values in either order and leave the same state; at most
      one of them makes calls, and it makes the same in either order. */
  lemma {:induction false} Commute(m: Machine, mode: Mode, a: Expr, b: Expr, s: State)
    requires Proper(m) && Apart(a, b) && AllNodes(SourceNode, a) && AllNodes(SourceNode, b)
    ensures var x, y := Eval(m, mode, a, s), Eval(m, mode, b, s);
            && (x.Ok? ==> SameOutcome(a, y, Eval(m, mode, b, x.s)))
            && (y.Ok? ==> SameOutcome(b, x, Eval(m, mode, a, y.s)))
            && (x.Ok? && y.Ok? ==> Eval(m, mode, b, x.s).s == Eval(m, mode, a, y.s).s)
            && ((CallFree(a) && TraceOf(x) == s.trace) || (CallFree(b) && TraceOf(y) == s.trace))
  {
    var x, y := Eval(m, mode, a, s), Eval(m, mode, b, s);
    if x.Ok? { AfterOther(m, mode, b, a, s); }
    if y.Ok? { AfterOther(m, mode, a, b, s); }
    if x.Ok? && y.Ok? { SameEnd(m, mode, a, b, s); }
    OneIsCallFree(m, mode, a, b, s);
  }

  lemma {:induction false} SameEnd(m: Machine, mode: Mode, a: Expr, b: Expr, s: State)
    requires Proper(m) && Apart(a, b) && AllNodes(SourceNode, a) && AllNodes(SourceNode, b)
    requires Eval(m, mode, a, s).Ok? && Eval(m, mode, b, s).Ok?
    requires SameOutcome(a, Eval(m, mode, b, s), Eval(m, mode, b, Eval(m, mode, a, s).s))
    requires SameOutcome(b, Eval(m, mode, a, s), Eval(m, mode, a, Eval(m, mode, b, s).s))
    ensures Eval(m, mode, b, Eval(m, mode, a, s).s).s == Eval(m, mode, a, Eval(m, mode, b, s).s).s
  {
    var x, y := Eval(m, mode, a, s), Eval(m, mode, b, s);
    var u, v := Eval(m, mode, b, x.s).s, Eval(m, mode, a, y.s).s;
    AlikeAfter(m, mode, b, x.s);
    AlikeAfter(m, mode, a, y.s);
    AlikeJoin(a, y.s, u, v);
    AlikeJoin(b, x.s, v, u);
    AlikeFlip(b, v, u);
    SameState(a, b, u, v);
  }

  lemma AlikeFlip(other: Expr, s: State, t: State)
    requires Alike(other, s, t)
    ensures Alike(other, t, s)
  {
    forall part | AllNodes(Leaves(part), other) ensures See(part, t) == See(part, s) {
      assert See(part, s) == See(part, t);
    }
  }

  /** Without operations that can panic there is no panic. */
  lemma {:induction false} SteadyOk(m: Machine, mode: Mode, e: Expr, s: State)
    requires Proper(m) && AllNodes(SourceNode, e) && AllNodes(Steady(mode.Checked?), e)
    requires mode.Checked? || !m.raw.Checked?
    ensures Eval(m, mode, e, s).Ok?
    decreases e
  {
    match e {
      case Lit(_) =>
      case Var(_) =>
      case Paren(e1) => SteadyOk(m, mode, e1, s);
      case Arith(_, l, r) => SteadyOk(m, mode, l, s); SteadyOk(m, mode, r, Eval(m, mode, l, s).s);
      case Other(_, l, r) => SteadyOk(m, mode, l, s); SteadyOk(m, mode, r, Eval(m, mode, l, s).s);
      case Not(e1) => SteadyOk(m, mode, e1, s);
      case Neg(e1) => SteadyOk(m, mode, e1, s);
      case Set(_, e1) => SteadyOk(m, mode, e1, s);
      case OpAssign(_, _, r) => SteadyOk(m, mode, r, s);
      case If(c, t, f) =>
        SteadyOk(m, mode, c, s);
        SteadyOk(m, mode, t, Eval(m, mode, c, s).s);
        SteadyOk(m, mode, f, Eval(m, mode, c, s).s);
      case Block(es) => SteadyAllOk(m, mode, es, s);
      case Call(_, args) => SteadyAllOk(m, mode, args, s);
      case Macro(attr, _, _, args) =>
        var inner := Within(m, mode, attr);
        WeakenList(Steady(mode.Checked?), Steady(inner.Checked?), args);
        SteadyAllOk(m, inner, args, s);
    }
  }

  lemma {:induction false} SteadyAllOk(m: Machine, mode: Mode, es: Exprs, s: State)
    requires Proper(m) && AllInList(SourceNode, es) && AllInList(Steady(mode.Checked?), es)
    requires mode.Checked? || !m.raw.Checked?
    ensures EvalAll(m, mode, es, s).Vals?
    decreases es
  {
    if es.Cons? {
      SteadyOk(m, mode, es.head, s);
      SteadyAllOk(m, mode, es.tail, Eval(m, mode, es.head, s).s);
    }
  }

  lemma {:induction false} QuietTrace(m: Machine, mode: Mode, e: Expr, s: State)
    requires Proper(m) && AllNodes(SourceNode, e) && AllNodes(QuietNode, e)
    ensures TraceOf(Eval(m, mode, e, s)) == s.trace
  {
    Weaken(QuietNode, Leaves(AllCalls), e);
    Keeps(m, mode, e, AllCalls, s);
  }

  // ----- The two orders -----

  /** A compound assignment to a cell as written: right side, then index. */
  lemma {:induction false} RightThenIndex(m: Machine, mode: Mode, op: ArithOp, i: Expr, r: Expr, s: State)
    requires Proper(m)
    ensures var b := Eval(m, mode, r, s);
            Eval(m, mode, OpAssign(op, PCell(i), r), s) ==
            if b.Panic? then b
            else
              var a := Eval(m, mode, i, b.s);
              if a.Panic? then a
              else if !InBounds(m, a.v) then Panic(a.s.trace)
              else WriteBack(a.s, IndexCell(a.v), ArithResult(m, mode, op, ReadCell(a.s, IndexCell(a.v)), b.v))
  {
  }

  /** And as the pass leaves it: index, then right side. */
  lemma {:induction false} IndexThenRight(m: Machine, mode: Mode, op: ArithOp, i: Expr, r: Expr, s: State)
    requires Proper(m)
    ensures var a := Eval(m, mode, i, s);
            Eval(m, mode, CheckedOpAssign(op, PCell(i), r), s) ==
            if a.Panic? then a
            else if !InBounds(m, a.v) then Panic(a.s.trace)
            else
              var b := Eval(m, mode, r, a.s);
              if b.Panic? then b
              else WriteBack(b.s, IndexCell(a.v), CheckedResult(m, op, ReadCell(b.s, IndexCell(a.v)), b.v))
  {
  }

  /** The index is in bounds whenever it is evaluated. */
  ghost predicate AlwaysInside(m: Machine, i: Expr)
    requires Proper(m)
  {
    forall s :: EvalPlace(m, Checked, PCell(i), s).At?
  }

  /** The two sides of a compound assignment can be evaluated in either order: they are apart, the right
      side makes no call that an index out of bounds could come before, and it cannot panic before
      calls of the index. */
  ghost predicate EitherOrder(m: Machine, place: Place, r: Expr)
    requires Proper(m)
  {
    place.PVar? ||
    (&& Apart(place.index, r) && (AllNodes(QuietNode, r) || AlwaysInside(m, place.index))
     && (AllNodes(QuietNode, place.index) || AllNodes(Steady(true), r)))
  }

  /** A node whose meaning the pass keeps to the point of a panic. */
  ghost function KeptNode(m: Machine): Expr -> bool
    requires Proper(m)
  {
    (e: Expr) => PlainNode(e) && (e.OpAssign? ==> EitherOrder(m, e.place, e.r))
  }

  ghost predicate OrderKept(m: Machine, op: ArithOp, place: Place, r: Expr, s: State)
    requires Proper(m)
  {
    Eval(m, Checked, CheckedOpAssign(op, place, r), s) == Eval(m, Checked, OpAssign(op, place, r), s)
  }

  /** When the two sides are apart, the new order shows if and only if one side panics, by an index out
      of bounds or otherwise, and the other makes calls. */
  lemma {:induction false} ApartOrderIff(m: Machine, op: ArithOp, i: Expr, r: Expr, s: State)
    requires Proper(m) && Apart(i, r) && AllNodes(SourceNode, i) && AllNodes(SourceNode, r)
    ensures OrderKept(m, op, PCell(i), r, s) <==>
            && (EvalPlace(m, Checked, PCell(i), s).At? || TraceOf(Eval(m, Checked, r, s)) == s.trace)
            && (Eval(m, Checked, r, s).Ok? || TraceOf(Eval(m, Checked, i, s)) == s.trace)
  {
    Commute(m, Checked, i, r, s);
    RightThenIndex(m, Checked, op, i, r, s);
    IndexThenRight(m, Checked, op, i, r, s);
    var a, b := Eval(m, Checked, i, s), Eval(m, Checked, r, s);
    if a.Ok? { TraceWhenFree(m, Checked, r, i, s); }
    if b.Ok? { TraceWhenFree(m, Checked, i, r, s); }
  }

  /** After an expression without calls, or by an expression without calls, traces are what they were. */
  lemma {:induction false} TraceWhenFree(m: Machine, mode: Mode, a: Expr, b: Expr, s: State)
    requires Proper(m) && Apart(b, a) && AllNodes(SourceNode, a) && AllNodes(SourceNode, b)
    requires Eval(m, mode, b, s).Ok?
    ensures var y := Eval(m, mode, b, s);
            && (CallFree(b) ==> TraceOf(Eval(m, mode, a, y.s)) == TraceOf(Eval(m, mode, a, s)))
            && (CallFree(a) ==> TraceOf(Eval(m, mode, a, y.s)) == y.s.trace)
  {
    var y := Eval(m, mode, b, s);
    AfterOther(m, mode, a, b, s);
    if CallFree(a) { Keeps(m, mode, a, AllCalls, y.s); }
  }

  /** When its sides can be evaluated in either order, a checked compound assignment means what the
      unchecked one means under checking. */
  lemma {:induction false} AssignMeaning(m: Machine, op: ArithOp, place: Place, r: Expr, s: State)
    requires Proper(m) && EitherOrder(m, place, r) && AllNodes(SourceNode, OpAssign(op, place, r))
    ensures OrderKept(m, op, place, r, s)
  {
    if place.PCell? {
      var i := place.index;
      if AllNodes(QuietNode, r) { QuietTrace(m, Checked, r, s); }
      if AllNodes(QuietNode, i) { QuietTrace(m, Checked, i, s); } else { SteadyOk(m, Checked, r, s); }
      ApartOrderIff(m, op, i, r, s);
    }
  }

  // ----- Sides that depend on their order -----

  lemma {:induction false} BareCall(m: Machine, mode: Mode, f: string, s: State)
    requires Proper(m)
    ensures Eval(m, mode, Call(f, Nil), s) == Ok(m.call(f, [], s.trace), s.(trace := s.trace + [Event(f, [])]))
    ensures Fold(Call(f, Nil)) == Call(f, Nil)
  {
    assert EvalAll(m, mode, Nil, s) == Vals([], s);
  }

  /** An index out of bounds shows the new order: the call on the right is no longer made. */
  lemma {:induction false} OutOfBounds(m: Machine, op: ArithOp, k: int, f: string, s: State)
    requires Proper(m) && !InBounds(m, k)
    ensures var e := OpAssign(op, PCell(Lit(k)), Call(f, Nil));
            && Eval(m, Checked, e, s) == Panic(s.trace + [Event(f, [])])
            && Eval(m, Checked, Fold(e), s) == Panic(s.trace)
  {
    BareCall(m, Checked, f, s);
    RightThenIndex(m, Checked, op, Lit(k), Call(f, Nil), s);
    IndexThenRight(m, Checked, op, Lit(k), Call(f, Nil), s);
    assert FoldPlace(PCell(Lit(k))) == PCell(Lit(k));
    assert Fold(OpAssign(op, PCell(Lit(k)), Call(f, Nil))) == CheckedOpAssign(op, PCell(Lit(k)), Call(f, Nil));
  }

  /** With a call on each side the sides are not apart, and the two calls change places.  The traces
      agree if and only if both sides call the same function and the index is in bounds. */
  lemma {:induction false} TwoCallsIff(m: Machine, op: ArithOp, p: string, r: string, s: State)
    requires Proper(m)
    ensures var e := OpAssign(op, PCell(Call(p, Nil)), Call(r, Nil));
            var inside := InBounds(m, m.call(p, [], s.trace));
            && TraceOf(Eval(m, Checked, e, s)) == s.trace + [Event(r, []), Event(p, [])]
            && (inside ==> TraceOf(Eval(m, Checked, Fold(e), s)) == s.trace + [Event(p, []), Event(r, [])])
            && (TraceOf(Eval(m, Checked, e, s)) == TraceOf(Eval(m, Checked, Fold(e), s)) <==> p == r && inside)
  {
    var place, right := Call(p, Nil), Call(r, Nil);
    BareCall(m, Checked, p, s);
    BareCall(m, Checked, r, s);
    var sp, sr := s.(trace := s.trace + [Event(p, [])]), s.(trace := s.trace + [Event(r, [])]);
    BareCall(m, Checked, r, sp);
    BareCall(m, Checked, p, sr);
    RightThenIndex(m, Checked, op, place, right, s);
    IndexThenRight(m, Checked, op, place, right, s);
    assert FoldPlace(PCell(place)) == PCell(place);
    assert Fold(OpAssign(op, PCell(place), right)) == CheckedOpAssign(op, PCell(place), right);
    var old', new' := s.trace + [Event(r, []), Event(p, [])], s.trace + [Event(p, []), Event(r, [])];
    assert old'[|s.trace|] == Event(r, []) && new'[|s.trace|] == Event(p, []);
    assert sr.trace + [Event(p, [])] == old' && sp.trace + [Event(r, [])] == new';
  }

  /** With an index that reads what the right side assigns, the two orders agree if and only if the
      variable already had the assigned value, or neither value is in bounds. */
  lemma {:induction false} ReadsAssignedIff(m: Machine, x: string, k: int, s: State)
    requires Proper(m)
    requires forall c :: InRange(m, Get(s.cells, c) + 1)
    ensures var e := OpAssign(Add, PCell(Var(x)), Block(Cons(Set(x, Lit(k)), Cons(Lit(1), Nil))));
            var was := Get(s.vars, x);
            Eval(m, Checked, Fold(e), s) == Eval(m, Checked, e, s) <==>
            was == k || (!InBounds(m, was) && !InBounds(m, k))
  {
    var tail := Cons(Lit(1), Nil);
    var first, right := Set(x, Lit(k)), Block(Cons(Set(x, Lit(k)), tail));
    var was, t := Get(s.vars, x), s.(vars := s.vars[x := k]);
    assert Eval(m, Checked, right, s) == Ok(1, t) by {
      assert Eval(m, Checked, first, s) == Ok(0, t);
      assert EvalAll(m, Checked, Nil, t) == Vals([], t);
      assert EvalAll(m, Checked, tail, t) == Vals([1], t);
    }
    assert Fold(right) == right by { assert FoldAll(tail) == tail && Fold(first) == first; }
    assert FoldPlace(PCell(Var(x))) == PCell(Var(x));
    assert Fold(OpAssign(Add, PCell(Var(x)), right)) == CheckedOpAssign(Add, PCell(Var(x)), right);
    RightThenIndex(m, Checked, Add, Var(x), right, s);
    IndexThenRight(m, Checked, Add, Var(x), right, s);
    var c, d := Get(s.cells, was) + 1, Get(s.cells, k) + 1;
    assert Eval(m, Checked, Var(x), t) == Ok(k, t) && Eval(m, Checked, Var(x), s) == Ok(was, s);
    assert was != k ==> Get(s.cells[k := d], k) != Get(s.cells[was := c], k);
  }
}
