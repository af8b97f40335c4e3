/** Operand expressions: the trees the parser recognises, the objects the
    listener builds for them, and why binding known symbols early is harmless. */
module Expressions {
  import opened Words

  type Table = map<string, U32>

  datatype Op = Add | Sub | Mul | Div | Mod

  /** An expression as it is written in the source. */
  datatype Tree =
    | Literal(value: U32)
    | Name(id: string)
    | Paren(inner: Tree)
    | Infix(op: Op, left: Tree, right: Tree)

  /** The expression objects kept on the listener's stack. */
  datatype Expr =
    | Numeric(val: U32)
    | Symbol(symbol: string)
    | BinaryOperation(arg1: Expr, arg2: Expr, op: Op)

  /** `Trap` is a division by zero, which ends the process. */
  datatype Value = Known(v: U32) | Unknown | Trap

  function Apply(op: Op, x: Value, y: Value): Value {
    if x.Trap? || y.Trap? then Trap
    else if x.Unknown? || y.Unknown? then Unknown
    else
      match op
      case Add => Known(Wrap(x.v + y.v))
      case Sub => Known(Wrap(x.v - y.v))
      case Mul => Known(Wrap(x.v * y.v))
      case Div => if y.v == 0 then Trap else Known(Wrap(x.v / y.v))
      case Mod => if y.v == 0 then Trap else Known(Wrap(x.v % y.v))
  }

  /** The virtual `eval` of an expression object. */
  function Eval(e: Expr, t: Table): Value {
    match e
    case Numeric(v) => Known(v)
    case Symbol(s) => if s in t then Known(t[s]) else Unknown
    case BinaryOperation(a, b, op) => Apply(op, Eval(a, t), Eval(b, t))
  }

  /** What a source expression means under a symbol table. */
  function Meaning(e: Tree, t: Table): Value {
    match e
    case Literal(v) => Known(v)
    case Name(s) => if s in t then Known(t[s]) else Unknown
    case Paren(e) => Meaning(e, t)
    case Infix(op, l, r) => Apply(op, Meaning(l, t), Meaning(r, t))
  }

  /** The object that stands for a source expression when the symbols of `t` are
      already known: those are frozen to their values, the others stay symbolic. */
  function Freeze(e: Tree, t: Table): Expr {
    match e
    case Literal(v) => Numeric(v)
    case Name(s) => if s in t then Numeric(t[s]) else Symbol(s)
    case Paren(e) => Freeze(e, t)
    case Infix(op, l, r) => BinaryOperation(Freeze(l, t), Freeze(r, t), op)
  }

  function FreezeAll(es: seq<Tree>, t: Table): (r: seq<Expr>)
    ensures |r| == |es|
    ensures forall i :: 0 <= i < |es| ==> r[i] == Freeze(es[i], t)
  {
    seq(|es|, i requires 0 <= i < |es| => Freeze(es[i], t))
  }

  function Meanings(es: seq<Tree>, t: Table): (r: seq<Value>)
    ensures |r| == |es|
    ensures forall i :: 0 <= i < |es| ==> r[i] == Meaning(es[i], t)
  {
    seq(|es|, i requires 0 <= i < |es| => Meaning(es[i], t))
  }

  function EvalAll(es: seq<Expr>, t: Table): (r: seq<Value>)
    ensures |r| == |es|
    ensures forall i :: 0 <= i < |es| ==> r[i] == Eval(es[i], t)
  {
    seq(|es|, i requires 0 <= i < |es| => Eval(es[i], t))
  }

  lemma FreezeAllConcat(es: seq<Tree>, more: seq<Tree>, t: Table)
    ensures FreezeAll(es + more, t) == FreezeAll(es, t) + FreezeAll(more, t)
  {
  }

  /** `later` knows everything `t` knows, with the same values. */
  ghost predicate Extends(later: Table, t: Table) {
    forall s :: s in t ==> s in later && later[s] == t[s]
  }

  /** An object built early and evaluated late has the late meaning of its source. */
  lemma {:induction false} EarlyBindingIsSound(e: Tree, t: Table, later: Table)
    requires Extends(later, t)
    ensures Eval(Freeze(e, t), later) == Meaning(e, later)
  {
    match e
    case Literal(_) =>
    case Name(_) =>
    case Paren(e) => EarlyBindingIsSound(e, t, later);
    case Infix(_, l, r) =>
      EarlyBindingIsSound(l, t, later);
      EarlyBindingIsSound(r, t, later);
  }

  /** Once an expression has a value (or traps), later symbols cannot change that. */
  lemma {:induction false} MeaningIsStable(e: Tree, t: Table, later: Table)
    requires Extends(later, t)
    requires !Meaning(e, t).Unknown?
    ensures Meaning(e, later) == Meaning(e, t)
  {
    match e
    case Literal(_) =>
    case Name(_) =>
    case Paren(e) => MeaningIsStable(e, t, later);
    case Infix(_, l, r) =>
      if !Meaning(l, t).Unknown? { MeaningIsStable(l, t, later); }
      if !Meaning(r, t).Unknown? { MeaningIsStable(r, t, later); }
  }

  lemma FrozenListMeansTheSame(es: seq<Tree>, t: Table)
    ensures EvalAll(FreezeAll(es, t), t) == Meanings(es, t)
  {
    forall i | 0 <= i < |es|
      ensures EvalAll(FreezeAll(es, t), t)[i] == Meanings(es, t)[i]
    {
      EarlyBindingIsSound(es[i], t, t);
    }
  }

  function Names(e: Tree): set<string> {
    match e
    case Literal(_) => {}
    case Name(s) => {s}
    case Paren(e) => Names(e)
    case Infix(_, l, r) => Names(l) + Names(r)
  }

  /** Evaluation stalls exactly on a missing symbol, unless it traps first. */
  lemma {:induction false} UnknownIffMissingSymbol(e: Tree, t: Table)
    ensures Meaning(e, t).Unknown? <==> !(Names(e) <= t.Keys) && !Meaning(e, t).Trap?
  {
    match e
    case Literal(_) =>
    case Name(_) =>
    case Paren(e) => UnknownIffMissingSymbol(e, t);
    case Infix(_, l, r) =>
      UnknownIffMissingSymbol(l, t);
      UnknownIffMissingSymbol(r, t);
  }

  // The parser reports an expression as a post-order sequence of rule exits.

  datatype Event =
    | ExitLiteral(value: U32)
    | ExitSymbol(id: string)
    | ExitExpression(op: Option<Op>)

  function PostOrder(e: Tree): seq<Event> {
    match e
    case Literal(v) => [ExitLiteral(v), ExitExpression(None)]
    case Name(s) => [ExitSymbol(s), ExitExpression(None)]
    case Paren(e) => PostOrder(e) + [ExitExpression(None)]
    case Infix(op, l, r) => PostOrder(l) + PostOrder(r) + [ExitExpression(Some(op))]
  }

  function PostOrderAll(es: seq<Tree>): seq<Event> {
    if es == [] then [] else PostOrder(es[0]) + PostOrderAll(es[1..])
  }

  /** One rule exit on the expression stack; `None` would be a pop from an empty stack. */
  function React(ev: Event, stack: seq<Expr>, t: Table): Option<seq<Expr>> {
    match ev
    case ExitLiteral(v) => Some(stack + [Numeric(v)])
    case ExitSymbol(s) => Some(stack + [if s in t then Numeric(t[s]) else Symbol(s)])
    case ExitExpression(None) => Some(stack)
    case ExitExpression(Some(op)) =>
      if |stack| < 2 then None
      else Some(stack[..|stack| - 2] + [BinaryOperation(stack[|stack| - 2], stack[|stack| - 1], op)])
  }

  function Replay(evs: seq<Event>, stack: seq<Expr>, t: Table): Option<seq<Expr>> {
    if evs == [] then Some(stack)
    else
      match React(evs[0], stack, t)
      case None => None
      case Some(next) => Replay(evs[1..], next, t)
  }

  lemma {:induction false} ReplayConcat(evs: seq<Event>, more: seq<Event>, stack: seq<Expr>, t: Table)
    ensures Replay(evs + more, stack, t)
         == match Replay(evs, stack, t) case None => None case Some(s) => Replay(more, s, t)
  {
    if evs == [] {
      assert evs + more == more;
    } else {
      assert (evs + more)[1..] == evs[1..] + more;
      match React(evs[0], stack, t)
      case None =>
      case Some(next) => ReplayConcat(evs[1..], more, next, t);
    }
  }

  /** Stack discipline: an expression's events never underflow and leave one object,
      whatever was below it. */
  lemma {:induction false} ExpressionPushesOneObject(e: Tree, stack: seq<Expr>, t: Table)
    ensures Replay(PostOrder(e), stack, t) == Some(stack + [Freeze(e, t)])
  {
    match e
    case Literal(v) =>
      ReplayConcat([ExitLiteral(v)], [ExitExpression(None)], stack, t);
    case Name(s) =>
      ReplayConcat([ExitSymbol(s)], [ExitExpression(None)], stack, t);
    case Paren(inner) =>
      ExpressionPushesOneObject(inner, stack, t);
      ReplayConcat(PostOrder(inner), [ExitExpression(None)], stack, t);
    case Infix(op, l, r) =>
      var below := stack + [Freeze(l, t)];
      var full := below + [Freeze(r, t)];
      ExpressionPushesOneObject(l, stack, t);
      ExpressionPushesOneObject(r, below, t);
      ReplayConcat(PostOrder(l), PostOrder(r), stack, t);
      ReplayConcat(PostOrder(l) + PostOrder(r), [ExitExpression(Some(op))], stack, t);
      assert full[..|full| - 2] == stack;
  }

  lemma {:induction false} ListPushesItsObjects(es: seq<Tree>, stack: seq<Expr>, t: Table)
    ensures Replay(PostOrderAll(es), stack, t) == Some(stack + FreezeAll(es, t))
  {
    if es == [] {
      assert stack + FreezeAll(es, t) == stack;
    } else {
      var below := stack + [Freeze(es[0], t)];
      ExpressionPushesOneObject(es[0], stack, t);
      ListPushesItsObjects(es[1..], below, t);
      ReplayConcat(PostOrder(es[0]), PostOrderAll(es[1..]), stack, t);
      assert stack + FreezeAll(es, t) == below + FreezeAll(es[1..], t);
    }
  }
}
