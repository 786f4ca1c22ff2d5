/** The syntax tree of a function body, as type inference hands it to the compiler. Every node
    carries the identity (its address) under which the ownership plan stores its annotations. */
module Syntax {
  import opened Wrappers

  datatype Expr = Expr(id: nat, kind: Kind)

  datatype Segment = Text(text: string) | Interpolation(expr: Expr)

  datatype Operator = And | Or | Plain(symbol: string)

  datatype Kind =
    | Scalar
    | Str(segments: seq<Segment>)
    | Array(items: seq<Expr>)
    | Var(name: string)
    | Assign(target: Expr, value: Expr)
    | OpAssign(target: Expr, value: Expr)
    | Binary(op: Operator, lhs: Expr, rhs: Expr)
    | Unary(operand: Expr)
    | If(cond: Expr, yes: seq<Expr>, no: Alternative)
    | While(cond: Expr, body: seq<Expr>)
    | Return(returned: Option<Expr>)
    | Index(recv: Expr, args: seq<Expr>)
    | Call(receiver: Option<Expr>, args: seq<Expr>, block: Block)
    | Unsupported

  datatype Alternative = NoElse | Otherwise(stmts: seq<Expr>)

  datatype Block = NoBlock | Do(stmts: seq<Expr>)

  /** `isObject`: its type is that of objects. Two parameters may have the same name. */
  datatype Param = Param(name: string, isObject: bool)

  /** `hasResult`: it has a return type; otherwise it is a procedure of a standalone program. */
  datatype Function = Function(params: seq<Param>, body: seq<Expr>, hasResult: bool)

  /** A builtin of standalone programs: `puts`, `print` or `p`, or `exit`. */
  datatype Builtin = Prints | Exits

  /** What inference found: the variables holding objects, the parameters of each inlined block, by
      the call receiving it, and the calls and lone names that are builtins. */
  datatype Typed = Typed(heap: set<string>, blocks: map<nat, seq<string>>, builtins: map<nat, Builtin>) {
    predicate Exits(id: nat) { id in builtins && builtins[id].Exits? }
  }

  // ── A `return` without a value ───────────────────────────

  /** Some `return` in `e`, however deep, lacks a value. */
  predicate HasBareReturn(e: Expr)
    decreases e, 0
  {
    match e.kind
    case Scalar | Var(_) | Unsupported => false
    case Str(segments) => HasBareReturnInAny(segments)
    case Array(items) => HasBareReturns(items)
    case Assign(target, value) => HasBareReturn(target) || HasBareReturn(value)
    case OpAssign(target, value) => HasBareReturn(target) || HasBareReturn(value)
    case Binary(_, lhs, rhs) => HasBareReturn(lhs) || HasBareReturn(rhs)
    case Unary(operand) => HasBareReturn(operand)
    case If(cond, yes, no) => HasBareReturn(cond) || HasBareReturns(yes) || (no.Otherwise? && HasBareReturns(no.stmts))
    case While(cond, body) => HasBareReturn(cond) || HasBareReturns(body)
    case Return(value) => value.None? || HasBareReturn(value.value)
    case Index(recv, args) => HasBareReturn(recv) || HasBareReturns(args)
    case Call(recv, args, block) =>
      (recv.Some? && HasBareReturn(recv.value)) || HasBareReturns(args) || (block.Do? && HasBareReturns(block.stmts))
  }

  predicate HasBareReturnInAny(segments: seq<Segment>)
    decreases segments
  {
    exists i :: 0 <= i < |segments| && HasBareReturnIn(segments[i])
  }

  predicate HasBareReturnIn(segment: Segment)
    decreases segment
  {
    segment.Interpolation? && HasBareReturn(segment.expr)
  }

  predicate HasBareReturns(es: seq<Expr>)
    decreases es
  {
    exists i :: 0 <= i < |es| && HasBareReturn(es[i])
  }
}
