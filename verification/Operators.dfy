/** Expressions made of operators, the tokens they are written with, and how tightly operators bind. */
module Operators {
  import opened Wrappers

  datatype BinOp = Or | And | Eq | NotEq | Match | Cmp | Lt | Le | Gt | Ge | BitOr | BitXor | BitAnd | Shl | Shr
                 | Add | Sub | Mul | Div | Rem | Pow

  datatype Op = Bin(op: BinOp) | Dots(inclusive: bool)

  datatype UnOp = Neg | Not

  predicate IsAssignOp(op: Option<BinOp>) { op.None? || op.value in {Add, Sub, Mul, Div, Or, And} }

  /** `=`, or one of the operators glued to it: the lexer knows no other. */
  type AssignOp = op: Option<BinOp> | IsAssignOp(op) witness None

  /** `.name`, `.name(…)`, `[…]` or `?` after a receiver. */
  datatype Form = Attr(name: string) | Invoke(name: string, args: seq<Expr>) | Index(args: seq<Expr>) | Try

  /** An expression. `Number(true, n)` is a negative literal; `Control` is an `if … end` and the
      like, which end by themselves; `Group` is a pair of parentheses, which trees do not keep. */
  datatype Expr =
    | Number(negative: bool, digits: nat)
    | Name(name: string)
    | Control(id: nat)
    | Postfix(recv: Expr, form: Form)
    | Unary(unop: UnOp, operand: Expr)
    | Infix(op: Op, lhs: Expr, rhs: Expr)
    | Assign(assign: AssignOp, target: Expr, value: Expr)
    | Group(inner: Expr)

  datatype Token =
    | TNum(n: nat) | TName(name: string) | TControl(id: nat)
    | TBang | TOp(op: Op) | TAssign(assign: AssignOp)
    | TOpen | TClose | TBracket | TUnbracket | TComma | TDot | TQuestion

  const MINUS := TOp(Bin(Sub))

  /** The parser's binding powers: how tightly an operator takes a left operand, and how far its right
      operand extends. */
  function Binding(op: Op): (p: (nat, nat))
    ensures 2 <= p.0 <= 25 && 3 <= p.1 <= 24
    ensures p.1 == p.0 + 1 || (op == Bin(Pow) && p == (25, 24))
  {
    match op
    case Dots(_) => (2, 3)
    case Bin(bin) =>
      match bin
      case Or => (4, 5)
      case And => (6, 7)
      case Eq | NotEq | Match | Cmp => (8, 9)
      case Lt | Le | Gt | Ge => (10, 11)
      case BitOr | BitXor => (12, 13)
      case BitAnd => (14, 15)
      case Shl | Shr => (16, 17)
      case Add | Sub => (18, 19)
      case Mul | Div | Rem => (20, 21)
      case Pow => (25, 24)
  }

  predicate IsAssignable(e: Expr) { e.Name? || (e.Postfix? && (e.form.Attr? || e.form.Index?)) }

  /** Written in one piece, whatever surrounds it. */
  predicate IsAtom(e: Expr) { e.Number? || e.Name? || e.Control? || e.Postfix? || e.Group? }

  function Prefix(op: UnOp): Token { if op.Neg? then MINUS else TBang }

  // ── Writing ──────────────────────────────────────────────

  /** The tokens of an expression, with its own parentheses and no other. */
  function Flat(e: Expr): (ts: seq<Token>)
    ensures ts != []
    decreases e
  {
    match e
    case Number(negative, n) => if negative then [MINUS, TNum(n)] else [TNum(n)]
    case Name(name) => [TName(name)]
    case Control(id) => [TControl(id)]
    case Postfix(recv, form) => Flat(recv) + FlatForm(form)
    case Unary(op, x) => [Prefix(op)] + Flat(x)
    case Infix(op, l, r) => Flat(l) + [TOp(op)] + Flat(r)
    case Assign(op, target, value) => Flat(target) + [TAssign(op)] + Flat(value)
    case Group(x) => [TOpen] + Flat(x) + [TClose]
  }

  function FlatForm(form: Form): (ts: seq<Token>)
    ensures ts != []
    decreases form
  {
    match form
    case Attr(name) => [TDot, TName(name)]
    case Invoke(name, args) => [TDot, TName(name), TOpen] + FlatList(args) + [TClose]
    case Index(args) => [TBracket] + FlatList(args) + [TUnbracket]
    case Try => [TQuestion]
  }

  function FlatList(args: seq<Expr>): seq<Token>
    decreases args
  {
    if args == [] then []
    else if |args| == 1 then Flat(args[0])
    else Flat(args[0]) + [TComma] + FlatList(args[1..])
  }

  /** The tree of an expression: its parentheses are dropped. */
  function Strip(e: Expr): (tree: Expr)
    ensures !tree.Group?
    ensures IsAssignable(e) ==> IsAssignable(tree)
    decreases e
  {
    match e
    case Postfix(recv, form) => Postfix(Strip(recv), StripForm(form))
    case Unary(op, x) => Unary(op, Strip(x))
    case Infix(op, l, r) => Infix(op, Strip(l), Strip(r))
    case Assign(op, target, value) => Assign(op, Strip(target), Strip(value))
    case Group(x) => Strip(x)
    case _ => e
  }

  function StripForm(form: Form): (f: Form)
    ensures f.Attr? == form.Attr? && f.Index? == form.Index?
    decreases form
  {
    match form
    case Invoke(name, args) => Invoke(name, StripList(args))
    case Index(args) => Index(StripList(args))
    case _ => form
  }

  function StripList(args: seq<Expr>): (r: seq<Expr>)
    ensures |r| == |args| && forall i :: 0 <= i < |r| ==> r[i] == Strip(args[i])
    decreases args
  {
    if args == [] then [] else [Strip(args[0])] + StripList(args[1..])
  }

  // ── Where parentheses may be left out ────────────────────

  /** How tightly the operator at the top of `e` takes its left operand. */
  function LeftPower(e: Expr): nat {
    match e
    case Infix(op, _, _) => Binding(op).0
    case Assign(_, _, _) => 0
    case _ => 255
  }

  /** An operator after `e` that takes its left operand with this power or more takes the end of `e`
      alone. `-3` before `**` is no literal. */
  function Edge(e: Expr): nat {
    match e
    case Number(negative, _) => if negative then 25 else 255
    case Unary(op, x) => if op.Neg? then 24 else Edge(x)
    case Infix(op, _, _) => Binding(op).1
    case Assign(_, _, _) => 0
    case _ => 255
  }

  /** Written starting with a number. */
  predicate LeadsWithNumber(e: Expr) {
    match e
    case Number(negative, _) => !negative
    case Postfix(recv, _) => LeadsWithNumber(recv)
    case Infix(_, l, _) => LeadsWithNumber(l)
    case Assign(_, target, _) => LeadsWithNumber(target)
    case _ => false
  }

  lemma LeadsWithItsNumber(e: Expr)
    ensures LeadsWithNumber(e) <==> Flat(e)[0].TNum?
  {}

  /** A minus sign before `e` is an operator, not that of a literal. */
  predicate TakesMinus(e: Expr) {
    !LeadsWithNumber(e) || (e.Infix? && e.op == Bin(Pow) && e.lhs.Number?)
  }

  /** Every operand that needs parentheses has them. */
  predicate Proper(e: Expr)
    decreases e
  {
    match e
    case Postfix(recv, form) => IsAtom(recv) && Proper(recv) && ProperForm(form)
    case Unary(op, x) =>
      Proper(x) && if op.Neg? then LeftPower(x) >= 24 && TakesMinus(x) else IsAtom(x) || x.Unary?
    case Infix(op, l, r) => Proper(l) && Proper(r) && Edge(l) > Binding(op).0 && LeftPower(r) >= Binding(op).1
    case Assign(_, target, value) => IsAssignable(Strip(target)) && Proper(target) && Proper(value)
    case Group(x) => Proper(x)
    case _ => true
  }

  predicate ProperForm(form: Form)
    decreases form
  {
    match form
    case Invoke(_, args) => forall i :: 0 <= i < |args| ==> Proper(args[i])
    case Index(args) => forall i :: 0 <= i < |args| ==> Proper(args[i])
    case _ => true
  }

  /** No operator inside takes less than the one at the top. */
  lemma EdgeOfRight(e: Expr)
    requires Proper(e) && e.Infix?
    ensures Edge(e.rhs) >= Edge(e) && LeftPower(e.lhs) >= LeftPower(e)
  {
    EdgeIsHigh(e.rhs);
    EdgeIsHigh(e.lhs);
  }

  lemma {:induction false} EdgeIsHigh(e: Expr)
    requires Proper(e)
    ensures !e.Infix? && !e.Assign? ==> Edge(e) >= 24
  {
    if e.Unary? {
      EdgeIsHigh(e.operand);
    }
  }
}
