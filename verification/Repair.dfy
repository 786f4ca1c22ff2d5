/** What the analysis sees of a body, and a body from which it sees what runs: with a scalar for the
    value a `return` lacks, and `return` before each `exit`. */
module Repair {
  import opened Wrappers
  import opened Syntax
  import opened ControlFlow
  import opened Ownership

  // ── Control flow ─────────────────────────────────────────

  /** `c` with each `exit` a `return`, and no variable read by the name of a builtin. */
  function AsReturns(c: Code): Code {
    match c
    case Quit(status) => Code.Return(AsReturns(status))
    case Misread(_, _) => Nop
    case Nop | Rejected | Read(_, _) | Define(_, _) => c
    case Seq(a, b) => Seq(AsReturns(a), AsReturns(b))
    case Branch(id, left, yes, right, no) => Branch(id, left, AsReturns(yes), right, AsReturns(no))
    case Loop(id, cond, body) => Loop(id, AsReturns(cond), AsReturns(body))
    case Inlined(id, params, bound, body) => Inlined(id, params, bound, AsReturns(body))
    case Return(result) => Code.Return(AsReturns(result))
  }

  lemma {:induction false} AsReturnsIsWellFormed(c: Code)
    requires WellFormed(c)
    ensures WellFormed(AsReturns(c)) && Nodes(AsReturns(c)) <= Nodes(c)
  {
    match c
    case Nop | Read(_, _) | Define(_, _) | Misread(_, _) =>
    case Seq(a, b) =>
      AsReturnsIsWellFormed(a);
      AsReturnsIsWellFormed(b);
    case Branch(_, _, yes, _, no) =>
      AsReturnsIsWellFormed(yes);
      AsReturnsIsWellFormed(no);
    case Loop(_, cond, body) =>
      AsReturnsIsWellFormed(cond);
      AsReturnsIsWellFormed(body);
    case Inlined(_, _, _, body) => AsReturnsIsWellFormed(body);
    case Return(result) => AsReturnsIsWellFormed(result);
    case Quit(status) => AsReturnsIsWellFormed(status);
  }

  lemma {:induction false} SameLive(c: Code, after: Names)
    ensures Live(AsReturns(c), after) == Live(c, after)
  {
    match c
    case Nop | Rejected | Read(_, _) | Define(_, _) | Misread(_, _) =>
    case Seq(a, b) =>
      SameLive(b, after);
      SameLive(a, Live(b, after));
    case Branch(_, _, yes, _, no) =>
      SameLive(yes, after);
      SameLive(no, after);
    case Loop(_, cond, body) =>
      SameLive(body, after);
      SameLive(cond, Live(body, after) + after);
    case Inlined(_, _, _, body) => SameLive(body, after);
    case Return(result) => SameLive(result, {});
    case Quit(status) => SameLive(status, {});
  }

  /** A plan for the one fits the other: to the references, `exit` is a `return`. */
  lemma {:induction false} SamePlan(plan: Plan, c: Code, after: Names)
    requires Annotated(plan, AsReturns(c), after)
    ensures Annotated(plan, c, after)
  {
    SameLive(c, after);
    match c
    case Nop | Rejected | Read(_, _) | Define(_, _) | Misread(_, _) =>
    case Seq(a, b) =>
      SameLive(b, after);
      SamePlan(plan, b, after);
      SamePlan(plan, a, Live(b, after));
    case Branch(_, _, yes, _, no) =>
      SameLive(yes, after);
      SameLive(no, after);
      SamePlan(plan, yes, after);
      SamePlan(plan, no, after);
    case Loop(_, cond, body) =>
      var header := Live(c, after);
      assert AnnotatedRound(plan, AsReturns(c), header, after);
      SameLive(body, header);
      SamePlan(plan, body, header);
      SamePlan(plan, cond, Live(body, header) + after);
      assert AnnotatedRound(plan, c, header, after);
    case Inlined(_, _, _, body) =>
      var header := Live(c, after);
      assert AnnotatedRound(plan, AsReturns(c), header, after);
      SameLive(body, header);
      SamePlan(plan, body, header);
      assert AnnotatedRound(plan, c, header, after);
    case Return(result) => SamePlan(plan, result, {});
    case Quit(status) => SamePlan(plan, status, {});
  }

  // ── Syntax ───────────────────────────────────────────────

  /** `e` with a scalar for each value a `return` lacks, `return` before each `exit`, and a scalar for
      each other builtin alone. */
  function Repaired(e: Expr, t: Typed): (r: Expr)
    ensures r.id == e.id && (r.kind.Var? ==> e.kind.Var?) && (r.kind.Index? <==> e.kind.Index?)
    decreases e, 0
  {
    var scalar := Expr(e.id, Scalar);
    Expr(e.id,
         match e.kind
         case Scalar | Unsupported => e.kind
         case Str(segments) => Str(RepairedSegments(segments, t))
         case Array(items) => Array(RepairedAll(items, t))
         case Var(_) =>
           if e.id !in t.builtins then e.kind
           else if t.Exits(e.id) then Kind.Return(Some(scalar))
           else Scalar
         case Assign(target, value) =>
           Assign(if target.kind.Var? then target else Repaired(target, t), Repaired(value, t))
         case OpAssign(target, value) =>
           OpAssign(if target.kind.Var? then target else Repaired(target, t), Repaired(value, t))
         case Binary(op, lhs, rhs) => Binary(op, Repaired(lhs, t), Repaired(rhs, t))
         case Unary(operand) => Unary(Repaired(operand, t))
         case If(cond, yes, no) =>
           If(Repaired(cond, t), RepairedAll(yes, t),
              if no.Otherwise? then Otherwise(RepairedAll(no.stmts, t)) else NoElse)
         case While(cond, body) => While(Repaired(cond, t), RepairedAll(body, t))
         case Return(value) => Kind.Return(Some(if value.Some? then Repaired(value.value, t) else scalar))
         case Index(recv, args) => Index(Repaired(recv, t), RepairedAll(args, t))
         case Call(recv, args, block) =>
           var call := Call(if recv.Some? then Some(Repaired(recv.value, t)) else None, RepairedAll(args, t),
                            RepairedBlock(block, t));
           if t.Exits(e.id) then Kind.Return(Some(Expr(e.id, call))) else call)
  }

  function RepairedBlock(block: Block, t: Typed): (r: Block)
    ensures r.Do? <==> block.Do?
    decreases block
  {
    if block.Do? then Do(RepairedAll(block.stmts, t)) else NoBlock
  }

  function RepairedAll(es: seq<Expr>, t: Typed): (r: seq<Expr>)
    ensures |r| == |es| && forall i :: 0 <= i < |r| ==> r[i] == Repaired(es[i], t)
    decreases es
  {
    if es == [] then [] else [Repaired(es[0], t)] + RepairedAll(es[1..], t)
  }

  function RepairedSegments(segments: seq<Segment>, t: Typed): (r: seq<Segment>)
    ensures |r| == |segments| && forall i :: 0 <= i < |r| ==> r[i] == RepairedSegment(segments[i], t)
    decreases segments
  {
    if segments == [] then [] else [RepairedSegment(segments[0], t)] + RepairedSegments(segments[1..], t)
  }

  function RepairedSegment(segment: Segment, t: Typed): Segment
    decreases segment
  {
    match segment
    case Text(_) => segment
    case Interpolation(e) => Interpolation(Repaired(e, t))
  }

  /** The analysis, blind to builtins, sees what `Seen` says of what runs; and of the repaired body
      what runs, each `exit` a `return`. No `return` lacks a value any more. */
  ghost predicate Repairs(seen: Code, repaired: Code, code: Code, bare: bool) {
    seen == Seen(code) && repaired == AsReturns(code) && !bare
  }

  lemma InTurn(a: Code, b: Code, c: Code)
    ensures Seen(Seq(a, Seq(b, c))) == Seq(Seen(a), Seq(Seen(b), Seen(c)))
    ensures AsReturns(Seq(a, Seq(b, c))) == Seq(AsReturns(a), Seq(AsReturns(b), AsReturns(c)))
  {}

  lemma Decided(a: Code, id: nat, left: Edge, b: Code, right: Edge, c: Code)
    ensures Seen(Seq(a, Branch(id, left, b, right, c))) == Seq(Seen(a), Branch(id, left, Seen(b), right, Seen(c)))
    ensures AsReturns(Seq(a, Branch(id, left, b, right, c)))
         == Seq(AsReturns(a), Branch(id, left, AsReturns(b), right, AsReturns(c)))
    ensures Seen(Nop) == Nop && AsReturns(Nop) == Nop
  {}

  lemma {:induction false} RepairKeepsFlow(e: Expr, t: Typed)
    ensures Repairs(Lower(e, Blind(t)), Lower(Repaired(e, t), Blind(t)), Lower(e, t), HasBareReturn(Repaired(e, t)))
    decreases e, 1
  {
    hide LowerAll, LowerSegments, HasBareReturns, HasBareReturnInAny, RepairedAll, RepairedSegments;
    match e.kind {
      case Str(segments) => RepairKeepsSegments(segments, t);
      case Array(items) => RepairKeepsFlows(items, t);
      case Assign(_, _) | Binary(_, _, _) | Unary(_) => RepairKeepsOperands(e, t);
      case OpAssign(_, _) => RepairKeepsOpAssign(e, t);
      case If(_, _, _) => RepairKeepsIf(e, t);
      case While(cond, body) =>
        RepairKeepsFlow(cond, t);
        RepairKeepsFlows(body, t);
      case Return(value) =>
        if value.Some? {
          RepairKeepsFlow(value.value, t);
        }
      case Index(recv, args) =>
        RepairKeepsFlow(recv, t);
        RepairKeepsFlows(args, t);
      case Call(_, _, _) => RepairKeepsCall(e, t);
      case Var(_) => RepairKeepsVar(e, t);
      case Scalar | Unsupported =>
    }
  }

  lemma RepairKeepsVar(e: Expr, t: Typed)
    requires e.kind.Var?
    ensures Repairs(Lower(e, Blind(t)), Lower(Repaired(e, t), Blind(t)), Lower(e, t), HasBareReturn(Repaired(e, t)))
  {}

  lemma {:induction false} RepairKeepsOpAssign(e: Expr, t: Typed)
    requires e.kind.OpAssign?
    ensures Repairs(Lower(e, Blind(t)), Lower(Repaired(e, t), Blind(t)), Lower(e, t), HasBareReturn(Repaired(e, t)))
    decreases e, 0
  {
    hide LowerAll, HasBareReturns, RepairedAll;
    var target, value := e.kind.target, e.kind.value;
    RepairKeepsFlow(value, t);
    match target.kind
    case Var(name) => InTurn(ReadOf(target.id, name, t), Lower(value, t), DefineOf(e.id, name, t));
    case Index(recv, args) =>
      RepairKeepsTarget(target, t);
      InTurn(Lower(recv, t), LowerAll(args, t), Lower(value, t));
    case _ => RepairKeepsTarget(target, t);
  }

  lemma {:induction false} RepairKeepsOperands(e: Expr, t: Typed)
    requires e.kind.Assign? || e.kind.Binary? || e.kind.Unary?
    ensures Repairs(Lower(e, Blind(t)), Lower(Repaired(e, t), Blind(t)), Lower(e, t), HasBareReturn(Repaired(e, t)))
    decreases e, 0
  {
    match e.kind
    case Assign(target, value) =>
      RepairKeepsTarget(target, t);
      RepairKeepsFlow(value, t);
      if target.kind.Index? {
        InTurn(Lower(value, t), Lower(target.kind.recv, t), LowerAll(target.kind.args, t));
      }
    case Binary(_, lhs, rhs) =>
      RepairKeepsFlow(lhs, t);
      RepairKeepsFlow(rhs, t);
      Decided(Lower(lhs, t), e.id, Rhs, Lower(rhs, t), Skip, Nop);
    case Unary(operand) => RepairKeepsFlow(operand, t);
  }

  lemma {:induction false} RepairKeepsIf(e: Expr, t: Typed)
    requires e.kind.If?
    ensures Repairs(Lower(e, Blind(t)), Lower(Repaired(e, t), Blind(t)), Lower(e, t), HasBareReturn(Repaired(e, t)))
    decreases e, 0
  {
    var cond, yes, no := e.kind.cond, e.kind.yes, e.kind.no;
    RepairKeepsFlow(cond, t);
    RepairKeepsFlows(yes, t);
    if no.Otherwise? {
      RepairKeepsFlows(no.stmts, t);
    }
    Decided(Lower(cond, t), e.id, Then, LowerAll(yes, t), Else, if no.Otherwise? then LowerAll(no.stmts, t) else Nop);
  }

  lemma {:induction false} RepairKeepsCall(e: Expr, t: Typed)
    requires e.kind.Call?
    ensures Repairs(Lower(e, Blind(t)), Lower(Repaired(e, t), Blind(t)), Lower(e, t), HasBareReturn(Repaired(e, t)))
    decreases e, 0
  {
    hide LowerAll, LowerBlock, HasBareReturns, RepairedAll, RepairedBlock;
    var recv, args, block := e.kind.receiver, e.kind.args, e.kind.block;
    if recv.Some? {
      RepairKeepsFlow(recv.value, t);
    }
    RepairKeepsFlows(args, t);
    RepairKeepsBlock(e.id, block, t);
    InTurn(if recv.Some? then Lower(recv.value, t) else Nop, LowerAll(args, t), LowerBlock(e.id, block, t));
  }

  lemma {:induction false} RepairKeepsBlock(id: nat, block: Block, t: Typed)
    ensures Repairs(LowerBlock(id, block, Blind(t)), LowerBlock(id, RepairedBlock(block, t), Blind(t)),
                    LowerBlock(id, block, t), block.Do? && HasBareReturns(RepairedBlock(block, t).stmts))
    decreases block
  {
    if block.Do? {
      RepairKeepsFlows(block.stmts, t);
    }
  }

  lemma {:induction false} RepairKeepsTarget(target: Expr, t: Typed)
    ensures !HasBareReturn(Repaired(target, t))
    ensures target.kind.Index? ==>
      var repaired := Repaired(target, t).kind;
      && Repairs(Lower(target.kind.recv, Blind(t)), Lower(repaired.recv, Blind(t)), Lower(target.kind.recv, t), false)
      && Repairs(LowerAll(target.kind.args, Blind(t)), LowerAll(repaired.args, Blind(t)),
                 LowerAll(target.kind.args, t), false)
    decreases target, 2
  {
    RepairKeepsFlow(target, t);
    if target.kind.Index? {
      RepairKeepsFlow(target.kind.recv, t);
      RepairKeepsFlows(target.kind.args, t);
    }
  }

  lemma {:induction false} RepairKeepsFlows(es: seq<Expr>, t: Typed)
    ensures Repairs(LowerAll(es, Blind(t)), LowerAll(RepairedAll(es, t), Blind(t)), LowerAll(es, t),
                    HasBareReturns(RepairedAll(es, t)))
    decreases es
  {
    if es != [] {
      RepairKeepsFlow(es[0], t);
      RepairKeepsFlows(es[1..], t);
      var r := RepairedAll(es, t);
      assert r[1..] == RepairedAll(es[1..], t);
      assert forall i :: 0 < i < |r| ==> r[i] == RepairedAll(es[1..], t)[i - 1];
    }
  }

  lemma {:induction false} RepairKeepsSegments(segments: seq<Segment>, t: Typed)
    ensures Repairs(LowerSegments(segments, Blind(t)), LowerSegments(RepairedSegments(segments, t), Blind(t)),
                    LowerSegments(segments, t), HasBareReturnInAny(RepairedSegments(segments, t)))
    decreases segments
  {
    if segments != [] {
      RepairKeepsSegment(segments[0], t);
      RepairKeepsSegments(segments[1..], t);
      var r := RepairedSegments(segments, t);
      assert r[1..] == RepairedSegments(segments[1..], t);
      assert forall i :: 0 < i < |r| ==> r[i] == RepairedSegments(segments[1..], t)[i - 1];
    }
  }

  lemma {:induction false} RepairKeepsSegment(segment: Segment, t: Typed)
    ensures Repairs(LowerSegment(segment, Blind(t)), LowerSegment(RepairedSegment(segment, t), Blind(t)),
                    LowerSegment(segment, t), HasBareReturnIn(RepairedSegment(segment, t)))
    decreases segment
  {
    if segment.Interpolation? {
      RepairKeepsFlow(segment.expr, t);
    }
  }
}
