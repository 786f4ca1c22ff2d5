/** The backward analysis that computes the ownership plan of a function. */
module Liveness {
  import opened Wrappers
  import opened Syntax
  import opened ControlFlow
  import opened Ownership
  import opened Assignment
  import opened Detours
  import opened LastUse
  import opened Repair

  // ── Annotations of other nodes do not matter ─────────────

  ghost predicate SameAt(p: Plan, q: Plan, id: nat) {
    && p.Moves(id) == q.Moves(id)
    && p.DeadAfter(id) == q.DeadAfter(id)
    && (forall edge :: p.Drops(id, edge) == q.Drops(id, edge))
    && p.DeadParams(id) == q.DeadParams(id)
  }

  ghost predicate SameOutside(p: Plan, q: Plan, nodes: set<nat>) {
    forall id :: id !in nodes ==> SameAt(p, q, id)
  }

  lemma {:induction false} AnnotatedFrame(p: Plan, q: Plan, c: Code, after: Names, changed: set<nat>)
    requires Annotated(p, c, after) && SameOutside(p, q, changed) && Nodes(c) !! changed
    ensures Annotated(q, c, after)
    decreases c, 1
  {
    match c
    case Nop | Rejected | Misread(_, _) =>
    case Read(id, _) => assert SameAt(p, q, id);
    case Define(id, _) => assert SameAt(p, q, id);
    case Seq(a, b) =>
      AnnotatedFrame(p, q, b, after, changed);
      AnnotatedFrame(p, q, a, Live(b, after), changed);
    case Branch(id, _, yes, _, no) =>
      assert SameAt(p, q, id);
      AnnotatedFrame(p, q, yes, after, changed);
      AnnotatedFrame(p, q, no, after, changed);
    case Loop(_, _, _) | Inlined(_, _, _, _) =>
      RoundFrame(p, q, c, Live(c, after), after, changed);
    case Return(result) =>
      AnnotatedFrame(p, q, result, {}, changed);
    case Quit(status) =>
      AnnotatedFrame(p, q, status, {}, changed);
  }

  lemma {:induction false} RoundFrame(p: Plan, q: Plan, c: Code, header: Names, after: Names, changed: set<nat>)
    requires c.Loop? || c.Inlined?
    requires AnnotatedRound(p, c, header, after) && SameOutside(p, q, changed) && Nodes(c) !! changed
    ensures AnnotatedRound(q, c, header, after)
    decreases c, 0
  {
    assert SameAt(p, q, c.id);
    AnnotatedFrame(p, q, c.body, header, changed);
    if c.Loop? {
      AnnotatedFrame(p, q, c.cond, Live(c.body, header) + after, changed);
    }
  }

  lemma {:induction false} SuffixWellFormed(es: seq<Expr>, t: Typed, i: nat)
    requires WellFormed(LowerAll(es, t)) && i <= |es|
    ensures WellFormed(LowerAll(es[i..], t))
  {
    if i > 0 {
      SuffixWellFormed(es[1..], t, i - 1);
      assert es[1..][i - 1..] == es[i..];
    } else {
      assert es[i..] == es;
    }
  }

  lemma {:induction false} SegmentsSuffixWellFormed(segments: seq<Segment>, t: Typed, i: nat)
    requires WellFormed(LowerSegments(segments, t)) && i <= |segments|
    ensures WellFormed(LowerSegments(segments[i..], t))
  {
    if i > 0 {
      SegmentsSuffixWellFormed(segments[1..], t, i - 1);
      assert segments[1..][i - 1..] == segments[i..];
    } else {
      assert segments[i..] == segments;
    }
  }

  predicate IsLoop(e: Expr, t: Typed) {
    e.kind.While? || (e.kind.Call? && e.kind.block.Do? && e.id in t.blocks)
  }

  /** The loop of a `while`, or of a call with an inlined block. */
  function LoopOf(e: Expr, t: Typed): (c: Code)
    requires IsLoop(e, t)
    ensures c.Loop? || c.Inlined?
  {
    match e.kind
    case While(cond, body) => Loop(e.id, Lower(cond, t), LowerAll(body, t))
    case Call(_, _, block) =>
      Inlined(e.id, t.blocks[e.id], Objects(t.blocks[e.id], t.heap), LowerAll(block.stmts, t))
  }

  /** What the analysis looks at: never whether a name is that of a builtin. */
  type Sight = t: Typed | t.builtins == map[] witness Typed({}, map[], map[])

  /** The analysis of one function; its annotations accumulate in `plan`. It demands a value of each
      `return`: without one, it stops (`None`), and the compiler with it. */
  class Analysis {
    const typed: Sight
    var plan: Plan

    constructor (typed: Sight)
      ensures this.typed == typed && plan == NO_PLAN
    {
      this.typed := typed;
      plan := NO_PLAN;
    }

    /** `code` was analysed, and nothing else. */
    twostate predicate Analysed(code: Code, after: Names, live: Names)
      reads this
    {
      && live == Live(code, after) && live <= typed.heap
      && Annotated(plan, code, after)
      && SameOutside(old(plan), plan, Nodes(code))
    }

    /** The analysis answers unless it meets a `return` without a value, and then `code` was
        analysed. */
    twostate predicate Answers(bare: bool, code: Code, after: Names, new live: Option<Names>)
      reads this
    {
      live.Some? == !bare && (live.Some? ==> Analysed(code, after, live.value))
    }

    /** Evaluates `es` left to right, then what `live` is read by. */
    method Sequence(es: seq<Expr>, after: Names) returns (live: Option<Names>)
      requires WellFormed(LowerAll(es, typed)) && after <= typed.heap
      modifies this
      ensures Answers(HasBareReturns(es), LowerAll(es, typed), after, live)
      decreases es, 0
    {
      var left := after;
      for i := |es| downto 0
        invariant Analysed(LowerAll(es[i..], typed), after, left)
        invariant forall j :: i <= j < |es| ==> !HasBareReturn(es[j])
      {
        ghost var beforePlan := plan;
        SuffixWellFormed(es, typed, i);
        assert es[i..][1..] == es[i + 1..];
        left :- Expr(es[i], left);
        AnnotatedFrame(beforePlan, plan, LowerAll(es[i + 1..], typed), after, Nodes(Lower(es[i], typed)));
      }
      assert es[0..] == es;
      live := Some(left);
    }

    /** The interpolations of a string, left to right. */
    method Segments(segments: seq<Segment>, after: Names) returns (live: Option<Names>)
      requires WellFormed(LowerSegments(segments, typed)) && after <= typed.heap
      modifies this
      ensures Answers(HasBareReturnInAny(segments), LowerSegments(segments, typed), after, live)
      decreases segments, 0
    {
      var left := after;
      for i := |segments| downto 0
        invariant Analysed(LowerSegments(segments[i..], typed), after, left)
        invariant forall j :: i <= j < |segments| ==> !HasBareReturnIn(segments[j])
      {
        ghost var beforePlan := plan;
        SegmentsSuffixWellFormed(segments, typed, i);
        assert segments[i..][1..] == segments[i + 1..];
        left :- Segment(segments[i], left);
        AnnotatedFrame(beforePlan, plan, LowerSegments(segments[i + 1..], typed), after,
                       Nodes(LowerSegment(segments[i], typed)));
      }
      assert segments[0..] == segments;
      live := Some(left);
    }

    method Segment(segment: Segment, after: Names) returns (live: Option<Names>)
      requires WellFormed(LowerSegment(segment, typed)) && after <= typed.heap
      modifies this
      ensures Answers(HasBareReturnIn(segment), LowerSegment(segment, typed), after, live)
      decreases segment, 1
    {
      match segment
      case Text(_) => live := Some(after);
      case Interpolation(e) => live := Expr(e, after);
    }

    method ReadVar(id: nat, name: string, after: Names) returns (live: Names)
      requires after <= typed.heap
      modifies this
      ensures Analysed(ReadOf(id, name, typed), after, live)
    {
      live := after;
      if name in typed.heap {
        plan := plan.(moves := plan.moves[id := name !in live]);
        live := live + {name};
      }
    }

    method DefineVar(id: nat, name: string, after: Names) returns (live: Names)
      requires after <= typed.heap
      modifies this
      ensures Analysed(DefineOf(id, name, typed), after, live)
    {
      live := after;
      if name in typed.heap {
        plan := plan.(deadDefs := plan.deadDefs[id := name !in live]);
        live := live - {name};
      }
    }

    /** Owning `from` where the flow splits, this edge drops without fault the variables that are
        not in `to`, and no other; nothing else is annotated. */
    method SetEdge(id: nat, edge: Edge, from: Names, to: Names)
      modifies this
      ensures Drop(plan.Drops(id, edge), from) == Some(from * to)
      ensures plan.Drops(id, edge) !! to && plan.Drops(id, edge) + from * to == from
      ensures forall other :: other != edge ==> plan.Drops(id, other) == old(plan).Drops(id, other)
      ensures SameOutside(old(plan), plan, {id}) && plan == old(plan).(edges := plan.edges)
    {
      plan := plan.(edges := plan.edges[(id, edge) := from - to]);
      assert from - (from - to) == from * to;
    }

    /** The variables live before `e`, given those live after it. */
    method Expr(e: Expr, after: Names) returns (live: Option<Names>)
      requires WellFormed(Lower(e, typed)) && after <= typed.heap
      modifies this
      ensures Answers(HasBareReturn(e), Lower(e, typed), after, live)
      decreases e, 5
    {
      live := Some(after);
      match e.kind
      case Scalar =>
      case Str(segments) => live := Segments(segments, after);
      case Array(items) => live := Sequence(items, after);
      case Var(name) =>
        var left := ReadVar(e.id, name, after);
        live := Some(left);
      case Assign(target, value) => live := Assignment(e, after);
      case OpAssign(target, value) => live := OpAssignment(e, after);
      case Binary(op, lhs, rhs) => live := Operands(e, after);
      case Unary(operand) => live := Expr(operand, after);
      case If(cond, yes, no) => live := Conditional(e, after);
      case While(_, _) => live := FixedPoint(e, after);
      case Return(value) =>
        if value.None? {
          return None;
        }
        live := Expr(value.value, {});
      case Index(recv, args) => live := Element(e, after);
      case Call(recv, args, block) => live := CallParts(e, after);
      case Unsupported => assert false;
    }

    /** An indexed element: the array, then the index. */
    method Element(e: Expr, after: Names) returns (live: Option<Names>)
      requires e.kind.Index? && WellFormed(Lower(e, typed)) && after <= typed.heap
      modifies this
      ensures Answers(HasBareReturn(e), Lower(e, typed), after, live)
      decreases e, 4
    {
      var left :- Sequence(e.kind.args, after);
      ghost var indexedPlan := plan;
      live := Expr(e.kind.recv, left);
      if live.Some? {
        AnnotatedFrame(indexedPlan, plan, LowerAll(e.kind.args, typed), after, Nodes(Lower(e.kind.recv, typed)));
      }
    }

    /** The value, then the variable; or the value, then the array, then the index. */
    method Assignment(e: Expr, after: Names) returns (live: Option<Names>)
      requires e.kind.Assign? && WellFormed(Lower(e, typed)) && after <= typed.heap
      modifies this
      ensures Answers(HasBareReturn(e), Lower(e, typed), after, live)
      decreases e, 4
    {
      var target, value := e.kind.target, e.kind.value;
      live := None;
      match target.kind
      case Var(name) =>
        var left := DefineVar(e.id, name, after);
        ghost var definedPlan := plan;
        left :- Expr(value, left);
        AnnotatedFrame(definedPlan, plan, DefineOf(e.id, name, typed), after, Nodes(Lower(value, typed)));
        live := Some(left);
      case Index(_, _) =>
        var left :- Element(target, after);
        ghost var storedPlan := plan;
        left :- Expr(value, left);
        AnnotatedFrame(storedPlan, plan, Lower(target, typed), after, Nodes(Lower(value, typed)));
        live := Some(left);
      case _ => assert false;
    }

    /** The read, the value, then the variable; or the array, the index, the value, then the store. */
    method OpAssignment(e: Expr, after: Names) returns (live: Option<Names>)
      requires e.kind.OpAssign? && WellFormed(Lower(e, typed)) && after <= typed.heap
      modifies this
      ensures Answers(HasBareReturn(e), Lower(e, typed), after, live)
      decreases e, 4
    {
      var target, value := e.kind.target, e.kind.value;
      live := None;
      match target.kind
      case Var(name) =>
        var left := DefineVar(e.id, name, after);
        ghost var definedPlan := plan;
        left :- Expr(value, left);
        AnnotatedFrame(definedPlan, plan, DefineOf(e.id, name, typed), after, Nodes(Lower(value, typed)));
        ghost var valuedPlan := plan;
        ghost var rest := Seq(Lower(value, typed), DefineOf(e.id, name, typed));
        left := ReadVar(target.id, name, left);
        AnnotatedFrame(valuedPlan, plan, rest, after, Nodes(ReadOf(target.id, name, typed)));
        live := Some(left);
      case Index(recv, args) =>
        var left :- Expr(value, after);
        ghost var valuedPlan := plan;
        left :- Sequence(args, left);
        AnnotatedFrame(valuedPlan, plan, Lower(value, typed), after, Nodes(LowerAll(args, typed)));
        ghost var indexedPlan := plan;
        left :- Expr(recv, left);
        AnnotatedFrame(indexedPlan, plan, Seq(LowerAll(args, typed), Lower(value, typed)), after,
                       Nodes(Lower(recv, typed)));
        live := Some(left);
      case _ => assert false;
    }

    /** A binary operation; the right operand of `&&` and `||` may be skipped. */
    method Operands(e: Expr, after: Names) returns (live: Option<Names>)
      requires e.kind.Binary? && WellFormed(Lower(e, typed)) && after <= typed.heap
      modifies this
      ensures Answers(HasBareReturn(e), Lower(e, typed), after, live)
      decreases e, 4
    {
      var lhs, rhs := e.kind.lhs, e.kind.rhs;
      ghost var right := Lower(rhs, typed);
      var rhsLive :- Expr(rhs, after);
      ghost var rightPlan := plan;
      if e.kind.op.Plain? {
        live := Expr(lhs, rhsLive);
        if live.Some? {
          AnnotatedFrame(rightPlan, plan, right, after, Nodes(Lower(lhs, typed)));
        }
      } else {
        var decided := rhsLive + after;
        SetEdge(e.id, Rhs, decided, rhsLive);
        SetEdge(e.id, Skip, decided, after);
        AnnotatedFrame(rightPlan, plan, right, after, {e.id});
        ghost var decisionPlan := plan;
        live := Expr(lhs, decided);
        if live.Some? {
          AnnotatedFrame(decisionPlan, plan, Branch(e.id, Rhs, right, Skip, Nop), after, Nodes(Lower(lhs, typed)));
        }
      }
    }

    /** Both arms of an `if`: without `else`, nothing is done on that side. */
    method Arms(e: Expr, after: Names) returns (live: Option<(Names, Names)>)
      requires e.kind.If? && WellFormed(Lower(e, typed)) && after <= typed.heap
      modifies this
      ensures live.Some? <==>
        !HasBareReturns(e.kind.yes) && !(e.kind.no.Otherwise? && HasBareReturns(e.kind.no.stmts))
      ensures live.Some? ==>
        && live.value == (Live(ThenOf(e), after), Live(ElseOf(e), after))
        && live.value.0 <= typed.heap && live.value.1 <= typed.heap
        && Annotated(plan, ThenOf(e), after) && Annotated(plan, ElseOf(e), after)
        && SameOutside(old(plan), plan, Nodes(ThenOf(e)) + Nodes(ElseOf(e)))
      decreases e, 3
    {
      var yes, no := e.kind.yes, e.kind.no;
      var thenLive :- Sequence(yes, after);
      ghost var firstPlan := plan;
      var elseLive := after;
      if no.Otherwise? {
        elseLive :- Sequence(no.stmts, after);
      }
      AnnotatedFrame(firstPlan, plan, ThenOf(e), after, Nodes(ElseOf(e)));
      live := Some((thenLive, elseLive));
    }

    ghost function ThenOf(e: Expr): Code
      requires e.kind.If?
    {
      LowerAll(e.kind.yes, typed)
    }

    ghost function ElseOf(e: Expr): Code
      requires e.kind.If?
    {
      if e.kind.no.Otherwise? then LowerAll(e.kind.no.stmts, typed) else Nop
    }

    method Conditional(e: Expr, after: Names) returns (live: Option<Names>)
      requires e.kind.If? && WellFormed(Lower(e, typed)) && after <= typed.heap
      modifies this
      ensures Answers(HasBareReturn(e), Lower(e, typed), after, live)
      decreases e, 4
    {
      var cond := e.kind.cond;
      ghost var yesCode, noCode := ThenOf(e), ElseOf(e);
      var arms :- Arms(e, after);
      ghost var armsPlan := plan;
      var decided := arms.0 + arms.1;
      SetEdge(e.id, Then, decided, arms.0);
      SetEdge(e.id, Else, decided, arms.1);
      AnnotatedFrame(armsPlan, plan, yesCode, after, {e.id});
      AnnotatedFrame(armsPlan, plan, noCode, after, {e.id});
      ghost var decisionPlan := plan;
      live := Expr(cond, decided);
      if live.Some? {
        AnnotatedFrame(decisionPlan, plan, Branch(e.id, Then, yesCode, Else, noCode), after,
                       Nodes(Lower(cond, typed)));
      }
    }

    /** The receiver, the arguments, then the inlined block, if any. */
    method CallParts(e: Expr, after: Names) returns (live: Option<Names>)
      requires e.kind.Call? && WellFormed(Lower(e, typed)) && after <= typed.heap
      modifies this
      ensures Answers(HasBareReturn(e), Lower(e, typed), after, live)
      decreases e, 4
    {
      var recv, args, block := e.kind.receiver, e.kind.args, e.kind.block;
      var left := after;
      ghost var blockCode := LowerBlock(e.id, block, typed);
      ghost var recvCode := if recv.Some? then Lower(recv.value, typed) else Nop;
      assert Lower(e, typed) == Seq(recvCode, Seq(LowerAll(args, typed), blockCode));
      assert WellFormed(Seq(LowerAll(args, typed), blockCode));
      if block.Do? {
        left :- FixedPoint(e, left);
      }
      ghost var loopedPlan := plan;
      left :- Sequence(args, left);
      AnnotatedFrame(loopedPlan, plan, blockCode, after, Nodes(LowerAll(args, typed)));
      assert left == Live(Seq(LowerAll(args, typed), blockCode), after);
      ghost var valuedPlan := plan;
      if recv.Some? {
        left :- Expr(recv.value, left);
        AnnotatedFrame(valuedPlan, plan, Seq(LowerAll(args, typed), blockCode), after,
                       Nodes(Lower(recv.value, typed)));
      }
      live := Some(left);
    }

    /** Some `return` in the loop of `e` lacks a value. */
    predicate HasBareReturnInLoop(e: Expr)
      requires IsLoop(e, typed)
    {
      match e.kind
      case While(cond, body) => HasBareReturn(cond) || HasBareReturns(body)
      case Call(_, _, block) => HasBareReturns(block.stmts)
    }

    /** As `Answers`, for one round of the loop of `e`. */
    twostate predicate AnswersRound(e: Expr, header: Names, after: Names, new next: Option<Names>)
      requires IsLoop(e, typed)
      reads this
    {
      && next.Some? == !HasBareReturnInLoop(e)
      && (next.Some? ==>
            && next.value == Round(LoopOf(e, typed), header, after) && next.value <= typed.heap
            && AnnotatedRound(plan, LoopOf(e, typed), header, after)
            && SameOutside(old(plan), plan, Nodes(LoopOf(e, typed))))
    }

    /** One round of a loop from the guess `header`; its annotations overwrite those of the
        previous round. */
    method NextHeader(e: Expr, header: Names, after: Names) returns (next: Option<Names>)
      requires IsLoop(e, typed) && WellFormed(LoopOf(e, typed)) && after <= typed.heap && header <= typed.heap
      modifies this
      ensures AnswersRound(e, header, after, next)
      decreases e, 2
    {
      if e.kind.While? {
        next := WhileRound(e, header, after);
      } else {
        next := BlockRound(e, header, after);
      }
    }

    method WhileRound(e: Expr, header: Names, after: Names) returns (next: Option<Names>)
      requires IsLoop(e, typed) && e.kind.While? && WellFormed(LoopOf(e, typed)) && after <= typed.heap && header <= typed.heap
      modifies this
      ensures AnswersRound(e, header, after, next)
      decreases e, 1
    {
      var cond, body := e.kind.cond, e.kind.body;
      ghost var bodyCode := LowerAll(body, typed);
      var bodyLive :- Sequence(body, header);
      ghost var loopedPlan := plan;
      var decided := bodyLive + after;
      SetEdge(e.id, Body, decided, bodyLive);
      SetEdge(e.id, Exit, decided, after);
      AnnotatedFrame(loopedPlan, plan, bodyCode, header, {e.id});
      ghost var decisionPlan := plan;
      next := Expr(cond, decided);
      if next.Some? {
        AnnotatedFrame(decisionPlan, plan, bodyCode, header, Nodes(Lower(cond, typed)));
        assert SameAt(decisionPlan, plan, e.id);
      }
    }

    /** A round of a block inlined at its call: its parameters are defined at its start. */
    method BlockRound(e: Expr, header: Names, after: Names) returns (next: Option<Names>)
      requires IsLoop(e, typed) && e.kind.Call? && WellFormed(LoopOf(e, typed)) && after <= typed.heap && header <= typed.heap
      modifies this
      ensures AnswersRound(e, header, after, next)
      decreases e, 1
    {
      var params := typed.blocks[e.id];
      var block := e.kind.block;
      ghost var bodyCode := LowerAll(block.stmts, typed);
      var bodyLive :- Sequence(block.stmts, header);
      ghost var loopedPlan := plan;
      var dead := Unread(params, typed.heap, bodyLive);
      UnreadHasNoDuplicates(params, typed.heap, bodyLive);
      plan := plan.(deadParams := plan.deadParams[e.id := dead]);
      var entry := bodyLive - Set(params);
      var decided := entry + after;
      SetEdge(e.id, Body, decided, entry);
      SetEdge(e.id, Exit, decided, after);
      AnnotatedFrame(loopedPlan, plan, bodyCode, header, {e.id});
      next := Some(decided);
    }

    /** The live set at a loop header: rounds from the guess `after` until one changes nothing. */
    method FixedPoint(e: Expr, after: Names) returns (live: Option<Names>)
      requires IsLoop(e, typed) && WellFormed(LoopOf(e, typed)) && after <= typed.heap
      modifies this
      ensures Answers(HasBareReturnInLoop(e), LoopOf(e, typed), after, live)
      decreases e, 3
    {
      ghost var code := LoopOf(e, typed);
      HeaderIsLeastFixedPoint(code, after);
      var header := after;
      while true
        invariant header <= typed.heap && (header == after || header == Live(code, after))
        invariant SameOutside(old(plan), plan, Nodes(code))
        decreases header != Live(code, after)
      {
        var next :- NextHeader(e, header, after);
        if next == header {
          return Some(header);
        }
        header := next;
      }
    }
  }

  // ── Whole functions ──────────────────────────────────────

  /** What inference promises of a function it lets through, with `skips` if it were told not to
      count on a right operand of `&&` or `||`: only supported nodes, each at its own address, control
      that goes on where something follows, variables assigned before they are read as far as it sees,
      and values returned by a function with a return type. */
  ghost predicate Accepted(def: Function, typed: Typed, skips: bool) {
    && WellFormed(LowerAll(def.body, typed))
    && Checked(def.params, typed.heap, LowerAll(def.body, typed), skips)
    && (def.hasResult ==> !HasBareReturns(def.body))
  }

  /** What the analysis holds live at the entry of `def`. */
  function SeenAtEntry(def: Function, typed: Typed): Names { Live(Seen(LowerAll(def.body, typed)), {}) }

  /** The annotations of `def`, and the parameters that die at its entry. They fit what the analysis
      sees of it, and they tell its last uses: a use moves if and only if no evaluation of the body uses
      the variable again before it is given a value, and so for assignments, edges and parameters. */
  method PlanFitting(def: Function, typed: Sight) returns (plan: Option<Plan>)
    requires WellFormed(LowerAll(def.body, typed))
    ensures plan.Some? <==> !HasBareReturns(def.body)
    ensures plan.Some? ==> PlanFor(plan.value, def.params, typed.heap, LowerAll(def.body, typed))
    ensures plan.Some? ==> Live(LowerAll(def.body, typed), {}) <= typed.heap
    ensures plan.Some? ==> TellsAll(plan.value, NamesOf(def.params), def.body, typed)
  {
    ghost var code := LowerAll(def.body, typed);
    var analysis := new Analysis(typed);
    var live :- analysis.Sequence(def.body, {});
    plan := Some(analysis.plan.(entry := Unread(NamesOf(def.params), typed.heap, live)));
    AnnotatedFrame(analysis.plan, plan.value, code, {}, {});
    FittingPlanTellsAll(plan.value, def.params, def.body, typed);
  }

  /** The plan of a function inference lets through. There is one if and only if no `return` in its
      body lacks a value. Every run under it is sound if and only if only parameters are seen live at
      the entry, and no two of one name get in the way of each other; otherwise some run faults,
      unless a builtin alone has the name of an object variable. The plan tells the last uses in the
      evaluations of the body, builtins unseen. */
  method PlanOf(def: Function, typed: Typed) returns (plan: Option<Plan>)
    requires Accepted(def, typed, false)
    ensures plan.Some? <==> !HasBareReturns(def.body)
    ensures def.hasResult ==> plan.Some?
    ensures plan.Some? ==> PlanFor(plan.value, def.params, typed.heap, Seen(LowerAll(def.body, typed)))
    ensures plan.Some? ==> TellsAll(plan.value, NamesOf(def.params), def.body, Blind(typed))
    ensures plan.Some? ==>
      (AlwaysSoundAsSeen(plan.value, def.params, LowerAll(def.body, typed)) <==>
       EntryFits(def.params, typed.heap, SeenAtEntry(def, typed)))
    ensures plan.Some? && !EntryFits(def.params, typed.heap, SeenAtEntry(def, typed))
            && NoMisread(LowerAll(def.body, typed)) ==>
      SometimesFaults(plan.value, def.params, LowerAll(def.body, typed))
  {
    ghost var code := LowerAll(def.body, typed);
    RepairKeepsFlows(def.body, typed);
    SeenIsWellFormed(code);
    plan := PlanFitting(def, Blind(typed));
    if plan.Some? {
      SoundIffOnlyParametersLive(plan.value, def.params, typed.heap, code);
    }
  }

  /** The parameters fit where the body has no `exit`, no builtin alone with the name of an object
      variable, and assigns none in a right operand of `&&` or `||`, if their names are distinct. */
  lemma DirectFits(def: Function, typed: Typed)
    requires Accepted(def, typed, false) && Direct(LowerAll(def.body, typed)) && NoDuplicates(NamesOf(def.params))
    ensures EntryFits(def.params, typed.heap, SeenAtEntry(def, typed))
  {
    DistinctNamesFit(def.params, typed.heap, SeenAtEntry(def, typed));
    var names := Set(NamesOf(def.params));
    DirectIsSeen(LowerAll(def.body, typed), Scope(names, names));
    OnlyParametersAreRead(def, typed);
  }

  /** Were a right operand of `&&` or `||` not counted on, a path that reads a variable before it is
      assigned would never be let through. */
  lemma OnlyParametersAreRead(def: Function, typed: Typed)
    requires Accepted(def, typed, true)
    ensures Live(LowerAll(def.body, typed), {}) <= Set(NamesOf(def.params))
  {
    var code, names := LowerAll(def.body, typed), Set(NamesOf(def.params));
    forall name | name in Live(code, {}) ensures name in names {
      TransferForm(code, {}, name);
      AssignedBeforeRead(code, Scope(names, names), name);
    }
  }

  /** Inference lets through exactly the functions no path of which reads a variable before it is
      given a value, were no right operand of `&&` or `||` ever skipped: given what else it checks, no
      builtin alone named as an object variable, and no parameter of a block named as a variable. */
  lemma AcceptedIffOnlyParametersAreRead(def: Function, typed: Typed)
    requires WellFormed(LowerAll(def.body, typed)) && Tidy(LowerAll(def.body, typed)) && Declared(def.params, typed.heap)
    requires Clear(LowerAll(def.body, typed), Set(NamesOf(def.params)))
    requires def.hasResult ==> !HasBareReturns(def.body)
    ensures Accepted(def, typed, true) <==> Live(LowerAll(def.body, typed), {}) <= Set(NamesOf(def.params))
    ensures Accepted(def, typed, false) <==> Live(Unskipped(LowerAll(def.body, typed)), {}) <= Set(NamesOf(def.params))
  {
    var code, names := LowerAll(def.body, typed), Set(NamesOf(def.params));
    AllSkipToNothing(def.body, typed);
    OperandsAreCountedOn(code, Scope(names, names), names);
    AssignedIsExact(code, Scope(names, names), names);
    AssignedIsExact(Unskipped(code), Scope(names, names), names);
    forall name ensures name in Live(code, {}) <==> Reads(code, name) {
      TransferForm(code, {}, name);
    }
    forall name ensures name in Live(Unskipped(code), {}) <==> Reads(Unskipped(code), name) {
      TransferForm(Unskipped(code), {}, name);
    }
  }

  /** The plan of the repaired body. There is always one, and every run of the body as it is under it
      is sound, owning at each point exactly what some continuation still reads, if and only if no path
      reads a variable that is neither assigned nor a parameter, and no two parameters of one name get
      in the way of each other. It is always so for distinct names, were inference not to count on a
      right operand of `&&` or `||`. */
  method PlanOfRepaired(def: Function, typed: Typed) returns (plan: Plan)
    requires Accepted(def, typed, false)
    ensures AlwaysSound(plan, def.params, LowerAll(def.body, typed)) <==>
      EntryFits(def.params, typed.heap, Live(LowerAll(def.body, typed), {}))
    ensures Accepted(def, typed, true) && NoDuplicates(NamesOf(def.params)) ==>
      AlwaysSound(plan, def.params, LowerAll(def.body, typed))
  {
    ghost var code := LowerAll(def.body, typed);
    var repaired := def.(body := RepairedAll(def.body, typed));
    RepairKeepsFlows(def.body, typed);
    AsReturnsIsWellFormed(code);
    var found := PlanFitting(repaired, Blind(typed));
    plan := found.value;
    SameLive(code, {});
    SamePlan(plan, code, {});
    PlanIsSound(plan, def.params, typed.heap, code);
    if Accepted(def, typed, true) && NoDuplicates(NamesOf(def.params)) {
      OnlyParametersAreRead(def, typed);
      DistinctNamesFit(def.params, typed.heap, Live(code, {}));
    }
  }
}
