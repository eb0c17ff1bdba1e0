/** Which expressions the checked-arithmetic pass makes, and for which it keeps the meaning. */
module CheckedShape {
  import opened Types
  import opened CheckedArithmetic

  // ----- Properties of all nodes -----

  predicate AllNodes(p: Expr -> bool, e: Expr)
    decreases e
  {
    p(e) &&
    match e
    case Lit(_) => true
    case Var(_) => true
    case Paren(e1) => AllNodes(p, e1)
    case Arith(_, l, r) => AllNodes(p, l) && AllNodes(p, r)
    case Other(_, l, r) => AllNodes(p, l) && AllNodes(p, r)
    case Not(e1) => AllNodes(p, e1)
    case Neg(e1) => AllNodes(p, e1)
    case Set(_, e1) => AllNodes(p, e1)
    case OpAssign(_, place, r) => AllInPlace(p, place) && AllNodes(p, r)
    case If(c, t, f) => AllNodes(p, c) && AllNodes(p, t) && AllNodes(p, f)
    case Block(es) => AllInList(p, es)
    case Call(_, args) => AllInList(p, args)
    case Macro(_, _, _, args) => AllInList(p, args)
    case LetPair(l, r, body) => AllNodes(p, l) && AllNodes(p, r) && AllNodes(p, body)
    case CheckedOp(_, l, r) => AllNodes(p, l) && AllNodes(p, r)
    case CheckedNeg(e1) => AllNodes(p, e1)
    case CheckedOpAssign(_, place, r) => AllInPlace(p, place) && AllNodes(p, r)
    case CompileError => true
  }

  predicate AllInPlace(p: Expr -> bool, place: Place)
    decreases place
  {
    match place
    case PVar(_) => true
    case PCell(i) => AllNodes(p, i)
  }

  predicate AllInList(p: Expr -> bool, es: Exprs)
    decreases es
  {
    match es
    case Nil => true
    case Cons(e, tail) => AllNodes(p, e) && AllInList(p, tail)
  }

  /** The same for the nodes outside the contents of exempted macros. */
  predicate Outside(p: Expr -> bool, e: Expr)
    decreases e
  {
    p(e) &&
    match e
    case Lit(_) => true
    case Var(_) => true
    case Paren(e1) => Outside(p, e1)
    case Arith(_, l, r) => Outside(p, l) && Outside(p, r)
    case Other(_, l, r) => Outside(p, l) && Outside(p, r)
    case Not(e1) => Outside(p, e1)
    case Neg(e1) => Outside(p, e1)
    case Set(_, e1) => Outside(p, e1)
    case OpAssign(_, place, r) => OutsideInPlace(p, place) && Outside(p, r)
    case If(c, t, f) => Outside(p, c) && Outside(p, t) && Outside(p, f)
    case Block(es) => OutsideInList(p, es)
    case Call(_, args) => OutsideInList(p, args)
    case Macro(attr, _, _, args) => attr.NoAttr? ==> OutsideInList(p, args)
    case LetPair(l, r, body) => Outside(p, l) && Outside(p, r) && Outside(p, body)
    case CheckedOp(_, l, r) => Outside(p, l) && Outside(p, r)
    case CheckedNeg(e1) => Outside(p, e1)
    case CheckedOpAssign(_, place, r) => OutsideInPlace(p, place) && Outside(p, r)
    case CompileError => true
  }

  predicate OutsideInPlace(p: Expr -> bool, place: Place)
    decreases place
  {
    match place
    case PVar(_) => true
    case PCell(i) => Outside(p, i)
  }

  predicate OutsideInList(p: Expr -> bool, es: Exprs)
    decreases es
  {
    match es
    case Nil => true
    case Cons(e, tail) => Outside(p, e) && OutsideInList(p, tail)
  }

  /** Something a programmer writes. */
  predicate SourceNode(e: Expr)
  {
    && !e.LetPair? && !e.CheckedOp? && !e.CheckedNeg? && !e.CheckedOpAssign? && !e.CompileError?
    && (e.Macro? ==> !e.attr.Dropped?)
  }

  predicate ParsedNode(e: Expr)
  {
    e.Macro? && e.attr.NoAttr? ==> e.parses
  }

  predicate NoErrorNode(e: Expr)
  {
    !e.CompileError?
  }

  /** Not an unchecked arithmetic operation, and without the attribute. */
  predicate CheckedNode(e: Expr)
  {
    !e.Arith? && !e.Neg? && !e.OpAssign? && (e.Macro? ==> !e.attr.SkipAttr?)
  }

  predicate QuietNode(e: Expr)
  {
    !e.Call? && !e.Macro?
  }

  /** Not an operation that can panic: arithmetic when it is checked, division when it is not, and
      indexing in any case. */
  function Steady(checked: bool): Expr -> bool
  {
    (e: Expr) =>
      && (e.Neg? ==> !checked)
      && (e.Arith? ==> !checked && !e.op.Div? && !e.op.Rem?)
      && (e.OpAssign? ==> !checked && !e.op.Div? && !e.op.Rem? && e.place.PVar?)
  }

  // ----- What an expression uses and changes -----

  /** A part of the state: a variable, the cells, or the calls made so far. */
  datatype Part = OneVar(name: string) | AllCells | AllCalls

  /** The part of the state that a node uses itself. */
  function PartOf(e: Expr): Option<Part>
  {
    match e
    case Var(x) => Some(OneVar(x))
    case Set(x, _) => Some(OneVar(x))
    case OpAssign(_, PVar(x), _) => Some(OneVar(x))
    case OpAssign(_, PCell(_), _) => Some(AllCells)
    case Call(_, _) => Some(AllCalls)
    case Macro(_, _, _, _) => Some(AllCalls)
    case _ => None
  }

  /** A node that does not change the part. */
  function Leaves(part: Part): Expr -> bool
  {
    (e: Expr) => e.Var? || PartOf(e) != Some(part)
  }

  /** A node that uses nothing the other expression changes. */
  function SparedBy(other: Expr): Expr -> bool
  {
    (e: Expr) => PartOf(e).Some? ==> AllNodes(Leaves(PartOf(e).value), other)
  }

  /** Neither expression uses anything the other changes. */
  predicate Apart(a: Expr, b: Expr)
  {
    AllNodes(SparedBy(b), a) && AllNodes(SparedBy(a), b)
  }

  /** The place may be evaluated before the right side, at the price of an earlier panic. */
  predicate PlaceMayGoFirst(place: Place, r: Expr)
  {
    place.PVar? ||
    (Apart(place.index, r) && (AllNodes(QuietNode, place.index) || AllNodes(Steady(false), r)))
  }

  /** How many `!` an expression starts with, and what is behind them. */
  function Nots(e: Expr): nat
  {
    if e.Not? then 1 + Nots(e.e) else 0
  }

  function Core(e: Expr): Expr
  {
    if e.Not? then Core(e.e) else e
  }

  /** Parsed, and no negation of an odd number of `!`. */
  predicate PlainNode(e: Expr)
  {
    SourceNode(e) && ParsedNode(e) && (e.Neg? ==> Nots(e.e) % 2 == 0)
  }

  /** A node whose meaning the pass keeps up to earlier panics. */
  predicate SafeNode(e: Expr)
  {
    PlainNode(e) && (e.OpAssign? ==> PlaceMayGoFirst(e.place, e.r))
  }

  lemma {:induction false} Weaken(p: Expr -> bool, q: Expr -> bool, e: Expr)
    requires AllNodes(p, e) && forall x :: p(x) ==> q(x)
    ensures AllNodes(q, e)
    decreases e
  {
    match e {
      case Lit(_) =>
      case Var(_) =>
      case Paren(e1) => Weaken(p, q, e1);
      case Arith(_, l, r) => Weaken(p, q, l); Weaken(p, q, r);
      case Other(_, l, r) => Weaken(p, q, l); Weaken(p, q, r);
      case Not(e1) => Weaken(p, q, e1);
      case Neg(e1) => Weaken(p, q, e1);
      case Set(_, e1) => Weaken(p, q, e1);
      case OpAssign(_, place, r) => WeakenPlace(p, q, place); Weaken(p, q, r);
      case If(c, t, f) => Weaken(p, q, c); Weaken(p, q, t); Weaken(p, q, f);
      case Block(es) => WeakenList(p, q, es);
      case Call(_, args) => WeakenList(p, q, args);
      case Macro(_, _, _, args) => WeakenList(p, q, args);
      case LetPair(l, r, body) => Weaken(p, q, l); Weaken(p, q, r); Weaken(p, q, body);
      case CheckedOp(_, l, r) => Weaken(p, q, l); Weaken(p, q, r);
      case CheckedNeg(e1) => Weaken(p, q, e1);
      case CheckedOpAssign(_, place, r) => WeakenPlace(p, q, place); Weaken(p, q, r);
      case CompileError =>
    }
  }

  lemma {:induction false} WeakenPlace(p: Expr -> bool, q: Expr -> bool, place: Place)
    requires AllInPlace(p, place) && forall x :: p(x) ==> q(x)
    ensures AllInPlace(q, place)
    decreases place
  {
    if place.PCell? { Weaken(p, q, place.index); }
  }

  lemma {:induction false} WeakenList(p: Expr -> bool, q: Expr -> bool, es: Exprs)
    requires AllInList(p, es) && forall x :: p(x) ==> q(x)
    ensures AllInList(q, es)
    decreases es
  {
    if es.Cons? {
      Weaken(p, q, es.head);
      WeakenList(p, q, es.tail);
    }
  }

  lemma {:induction false} WeakenOutside(p: Expr -> bool, q: Expr -> bool, e: Expr)
    requires Outside(p, e) && forall x :: p(x) ==> q(x)
    ensures Outside(q, e)
    decreases e
  {
    match e {
      case Lit(_) =>
      case Var(_) =>
      case Paren(e1) => WeakenOutside(p, q, e1);
      case Arith(_, l, r) => WeakenOutside(p, q, l); WeakenOutside(p, q, r);
      case Other(_, l, r) => WeakenOutside(p, q, l); WeakenOutside(p, q, r);
      case Not(e1) => WeakenOutside(p, q, e1);
      case Neg(e1) => WeakenOutside(p, q, e1);
      case Set(_, e1) => WeakenOutside(p, q, e1);
      case OpAssign(_, place, r) => WeakenOutsidePlace(p, q, place); WeakenOutside(p, q, r);
      case If(c, t, f) => WeakenOutside(p, q, c); WeakenOutside(p, q, t); WeakenOutside(p, q, f);
      case Block(es) => WeakenOutsideList(p, q, es);
      case Call(_, args) => WeakenOutsideList(p, q, args);
      case Macro(attr, _, _, args) => if attr.NoAttr? { WeakenOutsideList(p, q, args); }
      case LetPair(l, r, body) => WeakenOutside(p, q, l); WeakenOutside(p, q, r); WeakenOutside(p, q, body);
      case CheckedOp(_, l, r) => WeakenOutside(p, q, l); WeakenOutside(p, q, r);
      case CheckedNeg(e1) => WeakenOutside(p, q, e1);
      case CheckedOpAssign(_, place, r) => WeakenOutsidePlace(p, q, place); WeakenOutside(p, q, r);
      case CompileError =>
    }
  }

  lemma {:induction false} WeakenOutsidePlace(p: Expr -> bool, q: Expr -> bool, place: Place)
    requires OutsideInPlace(p, place) && forall x :: p(x) ==> q(x)
    ensures OutsideInPlace(q, place)
    decreases place
  {
    if place.PCell? { WeakenOutside(p, q, place.index); }
  }

  lemma {:induction false} WeakenOutsideList(p: Expr -> bool, q: Expr -> bool, es: Exprs)
    requires OutsideInList(p, es) && forall x :: p(x) ==> q(x)
    ensures OutsideInList(q, es)
    decreases es
  {
    if es.Cons? {
      WeakenOutside(p, q, es.head);
      WeakenOutsideList(p, q, es.tail);
    }
  }

  // ----- Shape of the result -----

  lemma {:induction false} AppendChecked(e: Expr)
    requires Outside(CheckedNode, e)
    ensures Outside(CheckedNode, AppendCheckedNeg(e))
  {
    if e.Not? { AppendChecked(e.e); }
  }

  /** Outside the contents of exempted macros the result contains no unchecked + - * / %, no unchecked
      compound assignment, no unchecked negation, and no exempting attribute. */
  lemma {:induction false} NothingUnchecked(e: Expr)
    requires Outside(SourceNode, e)
    ensures Outside(CheckedNode, Fold(e))
    decreases e
  {
    match e {
      case Lit(_) =>
      case Var(_) =>
      case Paren(e1) => NothingUnchecked(e1);
      case Arith(_, l, r) => NothingUnchecked(l); NothingUnchecked(r);
      case Other(_, l, r) => NothingUnchecked(l); NothingUnchecked(r);
      case Not(e1) => NothingUnchecked(e1);
      case Neg(e1) => NothingUnchecked(e1); AppendChecked(Fold(e1));
      case Set(_, e1) => NothingUnchecked(e1);
      case OpAssign(_, place, r) =>
        NothingUnchecked(r);
        if place.PCell? { NothingUnchecked(place.index); }
      case If(c, t, f) => NothingUnchecked(c); NothingUnchecked(t); NothingUnchecked(f);
      case Block(es) => NothingUncheckedInList(es);
      case Call(_, args) => NothingUncheckedInList(args);
      case Macro(attr, _, _, args) => if attr.NoAttr? { NothingUncheckedInList(args); }
    }
  }

  lemma {:induction false} NothingUncheckedInList(es: Exprs)
    requires OutsideInList(SourceNode, es)
    ensures OutsideInList(CheckedNode, FoldAll(es))
    decreases es
  {
    if es.Cons? {
      NothingUnchecked(es.head);
      NothingUncheckedInList(es.tail);
    }
  }

  lemma {:induction false} AppendError(e: Expr)
    ensures Outside(NoErrorNode, AppendCheckedNeg(e)) <==> Outside(NoErrorNode, e)
  {
    if e.Not? { AppendError(e.e); }
  }

  lemma {:induction false} ParensError(e: Expr)
    ensures Outside(NoErrorNode, RemoveParens(e)) <==> Outside(NoErrorNode, e)
  {
  }

  lemma {:induction false} PairError(op: ArithOp, l: Expr, r: Expr)
    ensures Outside(NoErrorNode, LetPair(l, r, CheckedOp(op, Var("left"), Var("right")))) <==>
            Outside(NoErrorNode, l) && Outside(NoErrorNode, r)
  {
    assert Outside(NoErrorNode, Var("left")) && Outside(NoErrorNode, Var("right"));
    assert Outside(NoErrorNode, CheckedOp(op, Var("left"), Var("right")));
  }

  /** The pass reports a compile error exactly when the contents of some macro, neither exempted nor within
      an exempted one, are not a list of expressions. */
  lemma {:induction false} ErrorIff(e: Expr)
    requires Outside(SourceNode, e)
    ensures Outside(NoErrorNode, Fold(e)) <==> Outside(ParsedNode, e)
    decreases e
  {
    match e {
      case Lit(_) =>
      case Var(_) =>
      case Paren(e1) => ErrorIff(e1);
      case Arith(op, l, r) =>
        ErrorIff(l); ParensError(Fold(l));
        ErrorIff(r); ParensError(Fold(r));
        PairError(op, RemoveParens(Fold(l)), RemoveParens(Fold(r)));
      case Other(_, l, r) => ErrorIff(l); ErrorIff(r);
      case Not(e1) => ErrorIff(e1);
      case Neg(e1) => ErrorIff(e1); AppendError(Fold(e1));
      case Set(_, e1) => ErrorIff(e1);
      case OpAssign(_, place, r) =>
        ErrorIff(r); ParensError(Fold(r));
        if place.PCell? { ErrorIff(place.index); }
      case If(c, t, f) => ErrorIff(c); ErrorIff(t); ErrorIff(f);
      case Block(es) => ErrorIffInList(es);
      case Call(_, args) => ErrorIffInList(args);
      case Macro(attr, _, _, args) => if attr.NoAttr? { ErrorIffInList(args); }
    }
  }

  lemma {:induction false} ErrorIffInList(es: Exprs)
    requires OutsideInList(SourceNode, es)
    ensures OutsideInList(NoErrorNode, FoldAll(es)) <==> OutsideInList(ParsedNode, es)
    decreases es
  {
    if es.Cons? {
      ErrorIff(es.head);
      ErrorIffInList(es.tail);
    }
  }

  // ----- Exempted macros -----

  /** A macro as written, without its attribute. */
  datatype Text = Text(parses: bool, f: string, args: Exprs)

  /** The outermost macros with that attribute, in the order of the text; what does not parse has none. */
  function Marked(attr: Attr, e: Expr): seq<Text>
    decreases e
  {
    match e
    case Lit(_) => []
    case Var(_) => []
    case Paren(e1) => Marked(attr, e1)
    case Arith(_, l, r) => Marked(attr, l) + Marked(attr, r)
    case Other(_, l, r) => Marked(attr, l) + Marked(attr, r)
    case Not(e1) => Marked(attr, e1)
    case Neg(e1) => Marked(attr, e1)
    case Set(_, e1) => Marked(attr, e1)
    case OpAssign(_, place, r) => MarkedInPlace(attr, place) + Marked(attr, r)
    case If(c, t, f) => Marked(attr, c) + Marked(attr, t) + Marked(attr, f)
    case Block(es) => MarkedInList(attr, es)
    case Call(_, args) => MarkedInList(attr, args)
    case Macro(a, parses, f, args) =>
      if a == attr then [Text(parses, f, args)]
      else if a.NoAttr? && parses then MarkedInList(attr, args)
      else []
    case LetPair(l, r, body) => Marked(attr, l) + Marked(attr, r) + Marked(attr, body)
    case CheckedOp(_, l, r) => Marked(attr, l) + Marked(attr, r)
    case CheckedNeg(e1) => Marked(attr, e1)
    case CheckedOpAssign(_, place, r) => MarkedInPlace(attr, place) + Marked(attr, r)
    case CompileError => []
  }

  function MarkedInPlace(attr: Attr, place: Place): seq<Text>
    decreases place
  {
    match place
    case PVar(_) => []
    case PCell(i) => Marked(attr, i)
  }

  function MarkedInList(attr: Attr, es: Exprs): seq<Text>
    decreases es
  {
    match es
    case Nil => []
    case Cons(e, tail) => Marked(attr, e) + MarkedInList(attr, tail)
  }

  lemma {:induction false} AppendMarked(attr: Attr, e: Expr)
    ensures Marked(attr, AppendCheckedNeg(e)) == Marked(attr, e)
  {
    if e.Not? { AppendMarked(attr, e.e); }
  }

  lemma {:induction false} PairMarked(op: ArithOp, l: Expr, r: Expr)
    ensures Marked(Dropped, LetPair(RemoveParens(l), RemoveParens(r), CheckedOp(op, Var("left"), Var("right")))) ==
            Marked(Dropped, l) + Marked(Dropped, r)
  {
    assert Marked(Dropped, Var("left")) == [] && Marked(Dropped, Var("right")) == [];
    assert Marked(Dropped, CheckedOp(op, Var("left"), Var("right"))) == [];
  }

  /** Every exempted macro is in the result, in its place and with its contents untouched, whether they
      parse or not, and nothing else has lost an attribute. */
  lemma {:induction false} ExemptedUntouched(e: Expr)
    requires Outside(SourceNode, e)
    ensures Marked(Dropped, Fold(e)) == Marked(SkipAttr, e)
    decreases e
  {
    match e {
      case Lit(_) =>
      case Var(_) =>
      case Paren(e1) => ExemptedUntouched(e1);
      case Arith(op, l, r) => ExemptedUntouched(l); ExemptedUntouched(r); PairMarked(op, Fold(l), Fold(r));
      case Other(_, l, r) => ExemptedUntouched(l); ExemptedUntouched(r);
      case Not(e1) => ExemptedUntouched(e1);
      case Neg(e1) => ExemptedUntouched(e1); AppendMarked(Dropped, Fold(e1));
      case Set(_, e1) => ExemptedUntouched(e1);
      case OpAssign(_, place, r) =>
        ExemptedUntouched(r);
        if place.PCell? { ExemptedUntouched(place.index); }
      case If(c, t, f) => ExemptedUntouched(c); ExemptedUntouched(t); ExemptedUntouched(f);
      case Block(es) => ExemptedUntouchedInList(es);
      case Call(_, args) => ExemptedUntouchedInList(args);
      case Macro(attr, _, _, args) => if attr.NoAttr? { ExemptedUntouchedInList(args); }
    }
  }

  lemma {:induction false} ExemptedUntouchedInList(es: Exprs)
    requires OutsideInList(SourceNode, es)
    ensures MarkedInList(Dropped, FoldAll(es)) == MarkedInList(SkipAttr, es)
    decreases es
  {
    if es.Cons? {
      ExemptedUntouched(es.head);
      ExemptedUntouchedInList(es.tail);
    }
  }
}
