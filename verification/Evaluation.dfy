/** Evaluating a body, straight on its syntax tree: which variables are read and given values, in
    which order, for any decisions of its branches and loops. */
module Evaluation {
  import opened Wrappers
  import opened Syntax
  import opened ControlFlow

  /** A variable read, a variable given a value, or an edge taken with the parameters it binds. */
  datatype Event = Used(id: nat, name: string) | Given(id: nat, name: string) | Took(id: nat, edge: Edge, bound: seq<string>)

  /** What happened so far, and the decisions to come. */
  datatype Trace = Trace(done: seq<Event>, ahead: seq<bool>) {
    function Add(e: Event): Trace { Trace(done + [e], ahead) }

    function Turn(id: nat, edge: Edge, bound: seq<string>): Trace
      requires ahead != []
    {
      Trace(done + [Took(id, edge, bound)], ahead[1..])
    }
  }

  /** Evaluation goes on, has left the function, or waits for a decision. */
  datatype Outcome = On(at: Trace) | Left(at: Trace) | Pending(at: Trace) {
    predicate IsFailure() { !On? }

    function PropagateFailure(): Outcome
      requires IsFailure()
    {
      this
    }

    function Extract(): Trace
      requires !IsFailure()
    {
      at
    }
  }

  // ── Syntax ───────────────────────────────────────────────

  function Use(id: nat, name: string, t: Typed, s: Trace): Trace {
    if name in t.heap then s.Add(Used(id, name)) else s
  }

  function Give(id: nat, name: string, t: Typed, s: Trace): Trace {
    if name in t.heap then s.Add(Given(id, name)) else s
  }

  /** `e`, evaluated: only variables that hold objects are followed. */
  function Eval(e: Expr, t: Typed, s: Trace): (o: Outcome)
    ensures |o.at.ahead| <= |s.ahead|
    decreases e, |s.ahead|, 1
  {
    match e.kind
    case Scalar | Unsupported => On(s)
    case Str(segments) => EvalSegments(segments, t, s)
    case Array(items) => EvalAll(items, t, s)
    case Var(name) =>
      if e.id !in t.builtins then On(Use(e.id, name, t, s)) else if t.Exits(e.id) then Left(s) else On(s)
    case Assign(target, value) =>
      (match target.kind
       case Var(name) =>
         var s1 :- Eval(value, t, s);
         On(Give(e.id, name, t, s1))
       case Index(recv, args) =>
         var s1 :- Eval(value, t, s);
         var s2 :- Eval(recv, t, s1);
         EvalAll(args, t, s2)
       case _ => On(s))
    case OpAssign(target, value) =>
      (match target.kind
       case Var(name) =>
         var s1 :- Eval(value, t, Use(target.id, name, t, s));
         On(Give(e.id, name, t, s1))
       case Index(recv, args) =>
         var s1 :- Eval(recv, t, s);
         var s2 :- EvalAll(args, t, s1);
         Eval(value, t, s2)
       case _ => On(s))
    case Binary(op, lhs, rhs) =>
      var s1 :- Eval(lhs, t, s);
      if op.Plain? then Eval(rhs, t, s1)
      else if s1.ahead == [] then Pending(s1)
      else if s1.ahead[0] then Eval(rhs, t, s1.Turn(e.id, Rhs, []))
      else On(s1.Turn(e.id, Skip, []))
    case Unary(operand) => Eval(operand, t, s)
    case If(cond, yes, no) =>
      var s1 :- Eval(cond, t, s);
      if s1.ahead == [] then Pending(s1)
      else if s1.ahead[0] then EvalAll(yes, t, s1.Turn(e.id, Then, []))
      else if no.Otherwise? then EvalAll(no.stmts, t, s1.Turn(e.id, Else, []))
      else On(s1.Turn(e.id, Else, []))
    case While(_, _) => EvalWhile(e, t, s)
    case Return(value) =>
      if value.None? then Left(s)
      else
        var s1 :- Eval(value.value, t, s);
        Left(s1)
    case Index(recv, args) =>
      var s1 :- Eval(recv, t, s);
      EvalAll(args, t, s1)
    case Call(recv, args, block) =>
      var s1 :- if recv.Some? then Eval(recv.value, t, s) else On(s);
      var s2 :- EvalAll(args, t, s1);
      var s3 :- if block.Do? then EvalBlock(e.id, block, t, s2) else On(s2);
      if t.Exits(e.id) then Left(s3) else On(s3)
  }

  /** The condition, then as decided the body and all that again, or what comes after. */
  function EvalWhile(e: Expr, t: Typed, s: Trace): (o: Outcome)
    requires e.kind.While?
    ensures |o.at.ahead| <= |s.ahead|
    decreases e, |s.ahead|, 0
  {
    var s1 :- Eval(e.kind.cond, t, s);
    if s1.ahead == [] then Pending(s1)
    else if s1.ahead[0] then
      var s2 :- EvalAll(e.kind.body, t, s1.Turn(e.id, Body, []));
      EvalWhile(e, t, s2)
    else On(s1.Turn(e.id, Exit, []))
  }

  /** As decided, the block with its parameters bound and all that again, or what comes after. */
  function EvalBlock(id: nat, block: Block, t: Typed, s: Trace): (o: Outcome)
    requires block.Do?
    ensures |o.at.ahead| <= |s.ahead|
    decreases block, |s.ahead|, 0
  {
    if id !in t.blocks then On(s)
    else if s.ahead == [] then Pending(s)
    else if s.ahead[0] then
      var s1 :- EvalAll(block.stmts, t, s.Turn(id, Body, t.blocks[id]));
      EvalBlock(id, block, t, s1)
    else On(s.Turn(id, Exit, []))
  }

  function EvalAll(es: seq<Expr>, t: Typed, s: Trace): (o: Outcome)
    ensures |o.at.ahead| <= |s.ahead|
    decreases es, |s.ahead|, 0
  {
    if es == [] then On(s)
    else
      var s1 :- Eval(es[0], t, s);
      EvalAll(es[1..], t, s1)
  }

  function EvalSegments(segments: seq<Segment>, t: Typed, s: Trace): (o: Outcome)
    ensures |o.at.ahead| <= |s.ahead|
    decreases segments, |s.ahead|, 0
  {
    if segments == [] then On(s)
    else
      var s1 :- EvalSegment(segments[0], t, s);
      EvalSegments(segments[1..], t, s1)
  }

  function EvalSegment(segment: Segment, t: Typed, s: Trace): (o: Outcome)
    ensures |o.at.ahead| <= |s.ahead|
    decreases segment, |s.ahead|, 1
  {
    match segment
    case Text(_) => On(s)
    case Interpolation(e) => Eval(e, t, s)
  }

  // ── Control flow ─────────────────────────────────────────

  /** The same of a control flow. */
  function EvalCode(c: Code, s: Trace): (o: Outcome)
    ensures |o.at.ahead| <= |s.ahead| && s.done <= o.at.done
    decreases c, |s.ahead|
  {
    match c
    case Nop | Rejected | Misread(_, _) => On(s)
    case Read(id, name) => On(s.Add(Used(id, name)))
    case Define(id, name) => On(s.Add(Given(id, name)))
    case Seq(a, b) =>
      var s1 :- EvalCode(a, s);
      EvalCode(b, s1)
    case Branch(id, left, yes, right, no) =>
      if s.ahead == [] then Pending(s)
      else if s.ahead[0] then EvalCode(yes, s.Turn(id, left, []))
      else EvalCode(no, s.Turn(id, right, []))
    case Loop(id, cond, body) =>
      var s1 :- EvalCode(cond, s);
      if s1.ahead == [] then Pending(s1)
      else if s1.ahead[0] then
        var s2 :- EvalCode(body, s1.Turn(id, Body, []));
        EvalCode(c, s2)
      else On(s1.Turn(id, Exit, []))
    case Inlined(id, params, _, body) =>
      if s.ahead == [] then Pending(s)
      else if s.ahead[0] then
        var s1 :- EvalCode(body, s.Turn(id, Body, params));
        EvalCode(c, s1)
      else On(s.Turn(id, Exit, []))
    case Return(result) =>
      var s1 :- EvalCode(result, s);
      Left(s1)
    case Quit(status) =>
      var s1 :- EvalCode(status, s);
      Left(s1)
  }

  // ── Lowering keeps the order of evaluation ───────────────

  lemma InTurn(a: Code, b: Code, c: Code, s: Trace)
    ensures EvalCode(Seq(a, Seq(b, c)), s) ==
      (var s1 :- EvalCode(a, s); var s2 :- EvalCode(b, s1); EvalCode(c, s2))
  {}

  lemma Decided(a: Code, id: nat, left: Edge, yes: Code, right: Edge, no: Code, s: Trace)
    ensures EvalCode(Seq(a, Branch(id, left, yes, right, no)), s) ==
      (var s1 :- EvalCode(a, s);
       if s1.ahead == [] then Pending(s1)
       else if s1.ahead[0] then EvalCode(yes, s1.Turn(id, left, []))
       else EvalCode(no, s1.Turn(id, right, [])))
    ensures EvalCode(Nop, s) == On(s)
  {}

  /** What runs of an expression is what evaluating it does, in that order. */
  lemma {:induction false} LoweredAsEvaluated(e: Expr, t: Typed, s: Trace)
    ensures EvalCode(Lower(e, t), s) == Eval(e, t, s)
    decreases e, |s.ahead|, 1
  {
    match e.kind
    case Scalar | Unsupported | Var(_) =>
    case Str(segments) => LoweredSegments(segments, t, s);
    case Array(items) => LoweredAll(items, t, s);
    case Assign(_, _) => LoweredAssign(e, t, s);
    case OpAssign(_, _) => LoweredOpAssign(e, t, s);
    case Binary(_, _, _) => LoweredBinary(e, t, s);
    case Unary(operand) => LoweredAsEvaluated(operand, t, s);
    case If(_, _, _) => LoweredIf(e, t, s);
    case While(_, _) => LoweredWhile(e, t, s);
    case Return(value) =>
      if value.Some? {
        LoweredAsEvaluated(value.value, t, s);
      }
    case Index(recv, args) =>
      LoweredAsEvaluated(recv, t, s);
      if Eval(recv, t, s).On? {
        LoweredAll(args, t, Eval(recv, t, s).at);
      }
    case Call(_, _, _) => LoweredCall(e, t, s);
  }

  lemma {:induction false} LoweredAssign(e: Expr, t: Typed, s: Trace)
    requires e.kind.Assign?
    ensures EvalCode(Lower(e, t), s) == Eval(e, t, s)
    decreases e, |s.ahead|, 0
  {
    var target, value := e.kind.target, e.kind.value;
    LoweredAsEvaluated(value, t, s);
    var o := Eval(value, t, s);
    if o.On? {
      match target.kind
      case Index(recv, args) =>
        LoweredAsEvaluated(recv, t, o.at);
        if Eval(recv, t, o.at).On? {
          LoweredAll(args, t, Eval(recv, t, o.at).at);
        }
      case _ =>
    }
  }

  lemma {:induction false} LoweredOpAssign(e: Expr, t: Typed, s: Trace)
    requires e.kind.OpAssign?
    ensures EvalCode(Lower(e, t), s) == Eval(e, t, s)
    decreases e, |s.ahead|, 0
  {
    var target, value := e.kind.target, e.kind.value;
    match target.kind
    case Var(name) =>
      InTurn(ReadOf(target.id, name, t), Lower(value, t), DefineOf(e.id, name, t), s);
      LoweredAsEvaluated(value, t, Use(target.id, name, t, s));
    case Index(recv, args) =>
      LoweredAsEvaluated(recv, t, s);
      var o := Eval(recv, t, s);
      if o.On? {
        LoweredAll(args, t, o.at);
        if EvalAll(args, t, o.at).On? {
          LoweredAsEvaluated(value, t, EvalAll(args, t, o.at).at);
        }
      }
    case _ =>
  }

  lemma {:induction false} LoweredBinary(e: Expr, t: Typed, s: Trace)
    requires e.kind.Binary?
    ensures EvalCode(Lower(e, t), s) == Eval(e, t, s)
    decreases e, |s.ahead|, 0
  {
    var lhs, rhs := e.kind.lhs, e.kind.rhs;
    Decided(Lower(lhs, t), e.id, Rhs, Lower(rhs, t), Skip, Nop, s);
    LoweredAsEvaluated(lhs, t, s);
    var o := Eval(lhs, t, s);
    if o.On? {
      if e.kind.op.Plain? {
        LoweredAsEvaluated(rhs, t, o.at);
      } else if o.at.ahead != [] {
        LoweredAsEvaluated(rhs, t, o.at.Turn(e.id, Rhs, []));
      }
    }
  }

  lemma {:induction false} LoweredIf(e: Expr, t: Typed, s: Trace)
    requires e.kind.If?
    ensures EvalCode(Lower(e, t), s) == Eval(e, t, s)
    decreases e, |s.ahead|, 0
  {
    var cond, yes, no := e.kind.cond, e.kind.yes, e.kind.no;
    var other := if no.Otherwise? then LowerAll(no.stmts, t) else Nop;
    Decided(Lower(cond, t), e.id, Then, LowerAll(yes, t), Else, other, s);
    LoweredAsEvaluated(cond, t, s);
    var o := Eval(cond, t, s);
    if o.On? && o.at.ahead != [] {
      LoweredAll(yes, t, o.at.Turn(e.id, Then, []));
      if no.Otherwise? {
        LoweredAll(no.stmts, t, o.at.Turn(e.id, Else, []));
      }
    }
  }

  lemma {:induction false} LoweredWhile(e: Expr, t: Typed, s: Trace)
    requires e.kind.While?
    ensures EvalCode(Lower(e, t), s) == EvalWhile(e, t, s)
    decreases e, |s.ahead|, 0
  {
    LoweredAsEvaluated(e.kind.cond, t, s);
    var o := Eval(e.kind.cond, t, s);
    if o.On? && o.at.ahead != [] && o.at.ahead[0] {
      var inside := o.at.Turn(e.id, Body, []);
      LoweredAll(e.kind.body, t, inside);
      if EvalAll(e.kind.body, t, inside).On? {
        LoweredWhile(e, t, EvalAll(e.kind.body, t, inside).at);
      }
    }
  }

  lemma {:induction false} LoweredBlock(id: nat, block: Block, t: Typed, s: Trace)
    ensures EvalCode(LowerBlock(id, block, t), s) == if block.Do? then EvalBlock(id, block, t, s) else On(s)
    decreases block, |s.ahead|, 0
  {
    if block.Do? && id in t.blocks && s.ahead != [] && s.ahead[0] {
      var inside := s.Turn(id, Body, t.blocks[id]);
      LoweredAll(block.stmts, t, inside);
      if EvalAll(block.stmts, t, inside).On? {
        LoweredBlock(id, block, t, EvalAll(block.stmts, t, inside).at);
      }
    }
  }

  lemma {:induction false} LoweredCall(e: Expr, t: Typed, s: Trace)
    requires e.kind.Call?
    ensures EvalCode(Lower(e, t), s) == Eval(e, t, s)
    decreases e, |s.ahead|, 0
  {
    hide EvalCode, LowerAll, LowerBlock, EvalAll, EvalBlock;
    var recv, args, block := e.kind.receiver, e.kind.args, e.kind.block;
    LoweredReceiver(recv, t, s);
    var o := if recv.Some? then Eval(recv.value, t, s) else On(s);
    if o.On? {
      LoweredAll(args, t, o.at);
      if EvalAll(args, t, o.at).On? {
        LoweredBlock(e.id, block, t, EvalAll(args, t, o.at).at);
      }
    }
    var first, last := if recv.Some? then Lower(recv.value, t) else Nop, LowerBlock(e.id, block, t);
    InTurn(first, LowerAll(args, t), last, s);
    Quits(Seq(first, Seq(LowerAll(args, t), last)), s);
  }

  lemma Quits(c: Code, s: Trace)
    ensures EvalCode(Quit(c), s) == (var s1 :- EvalCode(c, s); Left(s1))
  {}

  lemma {:induction false} LoweredReceiver(recv: Option<Expr>, t: Typed, s: Trace)
    ensures EvalCode(if recv.Some? then Lower(recv.value, t) else Nop, s)
         == if recv.Some? then Eval(recv.value, t, s) else On(s)
    decreases recv, |s.ahead|, 2
  {
    if recv.Some? {
      LoweredAsEvaluated(recv.value, t, s);
    }
  }

  lemma {:induction false} LoweredAll(es: seq<Expr>, t: Typed, s: Trace)
    ensures EvalCode(LowerAll(es, t), s) == EvalAll(es, t, s)
    decreases es, |s.ahead|, 0
  {
    if es != [] {
      LoweredAsEvaluated(es[0], t, s);
      if Eval(es[0], t, s).On? {
        LoweredAll(es[1..], t, Eval(es[0], t, s).at);
      }
    }
  }

  lemma {:induction false} LoweredSegments(segments: seq<Segment>, t: Typed, s: Trace)
    ensures EvalCode(LowerSegments(segments, t), s) == EvalSegments(segments, t, s)
    decreases segments, |s.ahead|, 0
  {
    if segments != [] {
      LoweredSegment(segments[0], t, s);
      if EvalSegment(segments[0], t, s).On? {
        LoweredSegments(segments[1..], t, EvalSegment(segments[0], t, s).at);
      }
    }
  }

  lemma {:induction false} LoweredSegment(segment: Segment, t: Typed, s: Trace)
    ensures EvalCode(LowerSegment(segment, t), s) == EvalSegment(segment, t, s)
    decreases segment, |s.ahead|, 1
  {
    if segment.Interpolation? {
      LoweredAsEvaluated(segment.expr, t, s);
    }
  }
}
