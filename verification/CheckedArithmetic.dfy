/** The checked-arithmetic pass: every + - * / % and negation is rewritten to its checked form. */
module CheckedArithmetic {
  import opened Types

  // ----- Expressions -----

  datatype ArithOp = Add | Sub | Mul | Div | Rem

  datatype OtherOp = Less | Equal | AndAlso | OrElse

  /** The expressions of the source, and in the last group those that only the pass makes:
      `{ let (left, right) = (l, r); body }`, `l.checked_op(r)` with a panic on None, `e.checked_neg()`
      likewise, the checked compound assignment, and a compile error. */
  datatype Expr =
    | Lit(n: int)
    | Var(x: string)
    | Paren(e: Expr)
    | Arith(op: ArithOp, l: Expr, r: Expr)
    | Other(oop: OtherOp, l: Expr, r: Expr)
    | Not(e: Expr)
    | Neg(e: Expr)
    | Set(x: string, e: Expr)
    | OpAssign(op: ArithOp, place: Place, r: Expr)
    | If(cond: Expr, thn: Expr, els: Expr)
    | Block(es: Exprs)
    | Call(f: string, args: Exprs)
    | Macro(attr: Attr, parses: bool, f: string, args: Exprs)
    //
    | LetPair(l: Expr, r: Expr, body: Expr)
    | CheckedOp(op: ArithOp, l: Expr, r: Expr)
    | CheckedNeg(e: Expr)
    | CheckedOpAssign(op: ArithOp, place: Place, r: Expr)
    | CompileError

  /** The attribute that exempts a macro from the pass: absent, present, or taken away by the pass.  In the
      text of the result the last is the same as the first. */
  datatype Attr = NoAttr | SkipAttr | Dropped

  /** What a compound assignment writes to: a variable, or a cell chosen by an expression. */
  datatype Place = PVar(x: string) | PCell(index: Expr)

  datatype Exprs = Nil | Cons(head: Expr, tail: Exprs)

  // ----- The pass -----

  function RemoveParens(e: Expr): Expr
  {
    if e.Paren? then e.e else e
  }

  /** The tokens of an operand followed by `.checked_neg()`, parsed again: a method call binds tighter
      than a prefix operator, so after `!x` it applies to x. */
  function AppendCheckedNeg(e: Expr): Expr
  {
    if e.Not? then Not(AppendCheckedNeg(e.e)) else CheckedNeg(e)
  }

  function Fold(e: Expr): Expr
  {
    match e
    case Lit(_) => e
    case Var(_) => e
    case Paren(e1) => Paren(Fold(e1))
    case Arith(op, l, r) =>
      LetPair(RemoveParens(Fold(l)), RemoveParens(Fold(r)), CheckedOp(op, Var("left"), Var("right")))
    case Other(op, l, r) => Other(op, Fold(l), Fold(r))
    case Not(e1) => Not(Fold(e1))
    case Neg(e1) => AppendCheckedNeg(Fold(e1))
    case Set(x, e1) => Set(x, Fold(e1))
    case OpAssign(op, place, r) => CheckedOpAssign(op, FoldPlace(place), RemoveParens(Fold(r)))
    case If(c, t, f) => If(Fold(c), Fold(t), Fold(f))
    case Block(es) => Block(FoldAll(es))
    case Call(f, args) => Call(f, FoldAll(args))
    case Macro(attr, parses, f, args) =>
      if !attr.NoAttr? then Macro(Dropped, parses, f, args)  // the attribute goes, the contents stay
      else if !parses then CompileError
      else Macro(NoAttr, true, f, FoldAll(args))
    case LetPair(l, r, body) => LetPair(Fold(l), Fold(r), Fold(body))
    case CheckedOp(op, l, r) => CheckedOp(op, Fold(l), Fold(r))
    case CheckedNeg(e1) => CheckedNeg(Fold(e1))
    case CheckedOpAssign(op, place, r) => CheckedOpAssign(op, FoldPlace(place), Fold(r))
    case CompileError => CompileError
  }

  function FoldPlace(p: Place): Place
  {
    match p
    case PVar(_) => p
    case PCell(i) => PCell(Fold(i))
  }

  function FoldAll(es: Exprs): Exprs
  {
    match es
    case Nil => Nil
    case Cons(e, tail) => Cons(Fold(e), FoldAll(tail))
  }

  // ----- Meaning -----

  /** An integer type by its bounds, how many cells there are to index, what arithmetic does where nobody
      checks it, and the values that calls return given what was called before. */
  datatype Machine = Machine(lo: int, hi: int, size: nat, raw: Mode, call: (string, seq<int>, seq<Event>) -> int)

  ghost predicate Proper(m: Machine)
  {
    m.lo <= 0 < m.hi
  }

  datatype Event = Event(f: string, args: seq<int>)

  datatype State = State(vars: map<string, int>, cells: map<int, int>, trace: seq<Event>)

  /** A value and the new state, or a panic after the calls made so far. */
  datatype Result = Ok(v: int, s: State) | Panic(trace: seq<Event>)

  /** How the arithmetic operators are read: over all integers, checked against the type, or with silent
      wrap-around. */
  datatype Mode = Ideal | Checked | Wrapping

  function Get<K>(m: map<K, int>, k: K): int
  {
    if k in m then m[k] else 0
  }

  function TruncDiv(a: int, b: int): int
    requires b != 0
  {
    if a >= 0 then a / b else -((-a) / b)
  }

  /** The exact result over the integers, rounding towards zero; None for division by zero. */
  function Exact(op: ArithOp, a: int, b: int): Option<int>
  {
    match op
    case Add => Some(a + b)
    case Sub => Some(a - b)
    case Mul => Some(a * b)
    case Div => if b == 0 then None else Some(TruncDiv(a, b))
    case Rem => if b == 0 then None else Some(a - TruncDiv(a, b) * b)
  }

  predicate InRange(m: Machine, v: int)
  {
    m.lo <= v <= m.hi
  }

  /** `checked_add` and so on; a remainder whose quotient does not fit is None as well. */
  function CheckedResult(m: Machine, op: ArithOp, a: int, b: int): Option<int>
  {
    var r := Exact(op, a, b);
    if r.None? || !InRange(m, r.value) || (op.Rem? && !InRange(m, TruncDiv(a, b))) then None else r
  }

  function WrappedResult(m: Machine, op: ArithOp, a: int, b: int): Option<int>
    requires m.lo <= m.hi
  {
    if op.Div? || op.Rem? then CheckedResult(m, op, a, b)
    else Some(m.lo + (Exact(op, a, b).value - m.lo) % (m.hi - m.lo + 1))
  }

  function ArithResult(m: Machine, mode: Mode, op: ArithOp, a: int, b: int): Option<int>
    requires m.lo <= m.hi
  {
    match mode
    case Ideal => Exact(op, a, b)
    case Checked => CheckedResult(m, op, a, b)
    case Wrapping => WrappedResult(m, op, a, b)
  }

  function Finish(r: Option<int>, s: State): Result
  {
    if r.Some? then Ok(r.value, s) else Panic(s.trace)
  }

  /** The variables after a block that bound `left` and `right`: the outer ones of those names are
      visible again. */
  function Unshadow(inner: map<string, int>, outer: map<string, int>): map<string, int>
  {
    (inner - {"left", "right"}) + (map x | x in outer && x in {"left", "right"} :: outer[x])
  }

  function WriteBack(s: State, cell: Cell, r: Option<int>): Result
  {
    if r.None? then Panic(s.trace)
    else
      match cell
      case VarCell(x) => Ok(0, s.(vars := s.vars[x := r.value]))
      case IndexCell(i) => Ok(0, s.(cells := s.cells[i := r.value]))
  }

  /** A place once its index is evaluated. */
  datatype Cell = VarCell(x: string) | IndexCell(i: int)

  function ReadCell(s: State, cell: Cell): int
  {
    match cell
    case VarCell(x) => Get(s.vars, x)
    case IndexCell(i) => Get(s.cells, i)
  }

  datatype Placed = At(cell: Cell, s: State) | PlacePanic(trace: seq<Event>)

  datatype Values = Vals(vs: seq<int>, s: State) | ValsPanic(trace: seq<Event>)

  predicate InBounds(m: Machine, i: int)
  {
    0 <= i < m.size
  }

  /** An index out of bounds panics as soon as it is evaluated. */
  function EvalPlace(m: Machine, mode: Mode, p: Place, s: State): Placed
    requires m.lo <= m.hi
    decreases p
  {
    match p
    case PVar(x) => At(VarCell(x), s)
    case PCell(i) =>
      var a := Eval(m, mode, i, s);
      if a.Panic? then PlacePanic(a.trace)
      else if InBounds(m, a.v) then At(IndexCell(a.v), a.s)
      else PlacePanic(a.s.trace)
  }

  function EvalAll(m: Machine, mode: Mode, es: Exprs, s: State): Values
    requires m.lo <= m.hi
    decreases es
  {
    match es
    case Nil => Vals([], s)
    case Cons(e, tail) =>
      var a := Eval(m, mode, e, s);
      if a.Panic? then ValsPanic(a.trace)
      else
        var rest := EvalAll(m, mode, tail, a.s);
        if rest.ValsPanic? then rest else Vals([a.v] + rest.vs, rest.s)
  }

  function Invoke(m: Machine, f: string, args: Values): Result
  {
    match args
    case ValsPanic(t) => Panic(t)
    case Vals(vs, s) => Ok(m.call(f, vs, s.trace), s.(trace := s.trace + [Event(f, vs)]))
  }

  function LastOf(values: Values): Result
  {
    match values
    case ValsPanic(t) => Panic(t)
    case Vals(vs, s) => Ok(if vs == [] then 0 else vs[|vs| - 1], s)
  }

  /** The left operand alone decides `&&` and `||` in these cases. */
  predicate Decides(op: OtherOp, a: int)
  {
    (op.AndAlso? && a == 0) || (op.OrElse? && a != 0)
  }

  function OtherResult(op: OtherOp, a: int, b: int): int
  {
    match op
    case Less => if a < b then 1 else 0
    case Equal => if a == b then 1 else 0
    case AndAlso => if a != 0 && b != 0 then 1 else 0
    case OrElse => if a != 0 || b != 0 then 1 else 0
  }

  /** The contents of an exempted macro are read as they are, however the rest is. */
  function Within(m: Machine, mode: Mode, attr: Attr): Mode
  {
    if attr.SkipAttr? then m.raw else mode
  }

  function Eval(m: Machine, mode: Mode, e: Expr, s: State): Result
    requires m.lo <= m.hi
    decreases e
  {
    match e
    case Lit(n) => Ok(n, s)
    case Var(x) => Ok(Get(s.vars, x), s)
    case Paren(e1) => Eval(m, mode, e1, s)
    case Arith(op, l, r) =>
      var a := Eval(m, mode, l, s);
      if a.Panic? then a
      else
        var b := Eval(m, mode, r, a.s);
        if b.Panic? then b else Finish(ArithResult(m, mode, op, a.v, b.v), b.s)
    case Other(op, l, r) =>
      var a := Eval(m, mode, l, s);
      if a.Panic? then a
      else if Decides(op, a.v) then Ok(OtherResult(op, a.v, a.v), a.s)
      else
        var b := Eval(m, mode, r, a.s);
        if b.Panic? then b else Ok(OtherResult(op, a.v, b.v), b.s)
    case Not(e1) =>
      var a := Eval(m, mode, e1, s);
      if a.Panic? then a else Ok(m.lo + m.hi - a.v, a.s)
    case Neg(e1) =>
      var a := Eval(m, mode, e1, s);
      if a.Panic? then a else Finish(ArithResult(m, mode, Sub, 0, a.v), a.s)
    case Set(x, e1) =>
      var a := Eval(m, mode, e1, s);
      if a.Panic? then a else Ok(0, a.s.(vars := a.s.vars[x := a.v]))
    case OpAssign(op, place, r) =>
      // On integers the right operand goes first, then the place.
      var b := Eval(m, mode, r, s);
      if b.Panic? then b
      else
        var at := EvalPlace(m, mode, place, b.s);
        if at.PlacePanic? then Panic(at.trace)
        else WriteBack(at.s, at.cell, ArithResult(m, mode, op, ReadCell(at.s, at.cell), b.v))
    case If(c, thn, els) =>
      var a := Eval(m, mode, c, s);
      if a.Panic? then a
      else if a.v != 0 then Eval(m, mode, thn, a.s) else Eval(m, mode, els, a.s)
    case Block(es) => LastOf(EvalAll(m, mode, es, s))
    case Call(f, args) => Invoke(m, f, EvalAll(m, mode, args, s))
    case Macro(attr, _, f, args) => Invoke(m, f, EvalAll(m, Within(m, mode, attr), args, s))
    case LetPair(l, r, body) =>
      var a := Eval(m, mode, l, s);
      if a.Panic? then a
      else
        var b := Eval(m, mode, r, a.s);
        if b.Panic? then b
        else
          var c := Eval(m, mode, body, b.s.(vars := b.s.vars["left" := a.v]["right" := b.v]));
          if c.Panic? then c else Ok(c.v, c.s.(vars := Unshadow(c.s.vars, b.s.vars)))
    case CheckedOp(op, l, r) =>
      var a := Eval(m, mode, l, s);
      if a.Panic? then a
      else
        var b := Eval(m, mode, r, a.s);
        if b.Panic? then b else Finish(CheckedResult(m, op, a.v, b.v), b.s)
    case CheckedNeg(e1) =>
      var a := Eval(m, mode, e1, s);
      if a.Panic? then a else Finish(CheckedResult(m, Sub, 0, a.v), a.s)
    case CheckedOpAssign(op, place, r) =>
      // `let (left, right) = (&mut place, r)`: the place goes first.
      var at := EvalPlace(m, mode, place, s);
      if at.PlacePanic? then Panic(at.trace)
      else
        var b := Eval(m, mode, r, at.s);
        if b.Panic? then b
        else WriteBack(b.s, at.cell, CheckedResult(m, op, ReadCell(b.s, at.cell), b.v))
    case CompileError => Panic(s.trace)
  }
}
