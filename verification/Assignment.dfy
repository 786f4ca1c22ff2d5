/** What inference checks of the flow of a body: that control goes on where something follows, and
    that every variable is assigned before it is read. It goes through the body in the order of
    evaluation, which is that of its control flow. */
module Assignment {
  import opened Wrappers
  import opened Syntax
  import opened ControlFlow

  // ── Where control goes on ────────────────────────────────

  /** Inference holds that control never goes past `c`. */
  predicate Never(c: Code) {
    match c
    case Return(_) | Quit(_) => true
    case Seq(a, b) => Never(a) || Never(b)
    case Branch(_, _, yes, _, no) => Never(yes) && Never(no)
    case _ => false
  }

  /** Nothing follows what control never goes past, conditions and operands have a value, and blocks
      do not return. */
  predicate Tidy(c: Code) {
    match c
    case Nop | Rejected | Read(_, _) | Define(_, _) | Misread(_, _) => true
    case Seq(a, b) => Tidy(a) && Tidy(b) && (Never(a) ==> b.Nop?)
    case Branch(_, left, yes, _, no) => Tidy(yes) && Tidy(no) && (left.Rhs? ==> !Never(yes))
    case Loop(_, cond, body) => Tidy(cond) && Tidy(body) && !Never(cond)
    case Inlined(_, _, _, body) => Tidy(body) && !Never(body)
    case Return(result) => Tidy(result)
    case Quit(status) => Tidy(status)
  }

  // ── Definite assignment ──────────────────────────────────

  /** The variables certainly assigned at a point, and those met before it in the text. */
  datatype Scope = Scope(certain: Names, vars: Names)

  /** What is certain after two branches: a branch that control never goes past constrains nothing. */
  function Merge(yes: Code, no: Code, afterYes: Names, afterNo: Names): Names {
    if Never(yes) && !Never(no) then afterNo
    else if Never(no) then afterYes
    else afterYes * afterNo
  }

  /** The scope after `c`, or `None` if inference refuses it: a variable read may not be assigned, or
      the name of a builtin is that of a variable. It keeps what the right operand of `&&` and `||`
      assigns, though it may be skipped; `skips` tells it not to. */
  function Assigned(c: Code, s: Scope, skips: bool): (r: Option<Scope>)
    ensures r.Some? ==> s.vars <= r.value.vars && (s.certain <= s.vars ==> r.value.certain <= r.value.vars)
  {
    match c
    case Nop => Some(s)
    case Rejected => None
    case Read(_, name) => if name in s.certain then Some(s) else None
    case Misread(_, name) => if name in s.vars then None else Some(s)
    case Define(_, name) => Some(Scope(s.certain + {name}, s.vars + {name}))
    case Seq(a, b) =>
      var between :- Assigned(a, s, skips);
      Assigned(b, between, skips)
    case Branch(_, left, yes, _, no) =>
      var afterYes :- Assigned(yes, s, skips);
      var afterNo :- Assigned(no, Scope(s.certain, afterYes.vars), skips);
      Some(Scope(if left.Rhs? && !skips then afterYes.certain
                 else Merge(yes, no, afterYes.certain, afterNo.certain), afterNo.vars))
    case Loop(_, cond, body) =>
      var decided :- Assigned(cond, s, skips);
      var looped :- Assigned(body, decided, skips);
      Some(Scope(decided.certain, looped.vars))
    case Inlined(_, params, _, body) =>
      var looped :- Assigned(body, Scope(s.certain + Set(params), s.vars + Set(params)), skips);
      Some(Scope(s.certain - Set(params), looped.vars))
    case Return(result) => Assigned(result, s, skips)
    case Quit(status) => Assigned(status, s, skips)
  }

  /** Where skipped operands count, a variable that some path reads first is assigned before, and one
      assigned after a path that leaves it alone is too. */
  lemma {:induction false} AssignedBeforeRead(c: Code, s: Scope, name: string)
    requires Assigned(c, s, true).Some?
    ensures Reads(c, name) ==> name in s.certain
    ensures Passes(c, name) ==> !Never(c) && (name in Assigned(c, s, true).value.certain ==> name in s.certain)
  {
    match c
    case Nop | Read(_, _) | Define(_, _) | Misread(_, _) =>
    case Seq(a, b) =>
      AssignedBeforeRead(a, s, name);
      AssignedBeforeRead(b, Assigned(a, s, true).value, name);
    case Branch(_, _, yes, _, no) =>
      AssignedBeforeRead(yes, s, name);
      AssignedBeforeRead(no, Scope(s.certain, Assigned(yes, s, true).value.vars), name);
    case Loop(_, cond, body) =>
      AssignedBeforeRead(cond, s, name);
      AssignedBeforeRead(body, Assigned(cond, s, true).value, name);
    case Inlined(_, params, _, body) =>
      AssignedBeforeRead(body, Scope(s.certain + Set(params), s.vars + Set(params)), name);
    case Return(result) => AssignedBeforeRead(result, s, name);
    case Quit(status) => AssignedBeforeRead(status, s, name);
  }

  // ── Bodies in which inference and analysis agree ─────────

  /** Some variable that holds objects is assigned in `c`. */
  predicate Defines(c: Code) {
    match c
    case Nop | Rejected | Read(_, _) | Misread(_, _) => false
    case Define(_, _) => true
    case Seq(a, b) => Defines(a) || Defines(b)
    case Branch(_, _, yes, _, no) => Defines(yes) || Defines(no)
    case Loop(_, cond, body) => Defines(cond) || Defines(body)
    case Inlined(_, _, _, body) => Defines(body)
    case Return(result) => Defines(result)
    case Quit(status) => Defines(status)
  }

  /** `c` has no `exit`, no builtin alone with the name of an object variable, and assigns no such
      variable in the right operand of `&&` or `||`. */
  predicate Direct(c: Code) {
    match c
    case Nop | Rejected | Read(_, _) | Define(_, _) => true
    case Misread(_, _) | Quit(_) => false
    case Seq(a, b) => Direct(a) && Direct(b)
    case Branch(_, left, yes, _, no) => Direct(yes) && Direct(no) && (left.Rhs? ==> no.Nop? && !Defines(yes))
    case Loop(_, cond, body) => Direct(cond) && Direct(body)
    case Inlined(_, _, _, body) => Direct(body)
    case Return(result) => Direct(result)
  }

  lemma {:induction false} AssignsNothing(c: Code, s: Scope)
    requires !Defines(c) && Assigned(c, s, false).Some?
    ensures Assigned(c, s, false).value.certain <= s.certain
  {
    match c
    case Nop | Read(_, _) | Misread(_, _) =>
    case Seq(a, b) =>
      AssignsNothing(a, s);
      AssignsNothing(b, Assigned(a, s, false).value);
    case Branch(_, _, yes, _, no) =>
      AssignsNothing(yes, s);
      AssignsNothing(no, Scope(s.certain, Assigned(yes, s, false).value.vars));
    case Loop(_, cond, body) => AssignsNothing(cond, s);
    case Inlined(_, _, _, _) =>
    case Return(result) => AssignsNothing(result, s);
    case Quit(status) => AssignsNothing(status, s);
  }

  /** The analysis sees such a body as it is, and skipped operands make no difference. */
  lemma {:induction false} DirectIsSeen(c: Code, s: Scope)
    requires Direct(c) && Tidy(c) && Assigned(c, s, false).Some?
    ensures Seen(c) == c && Assigned(c, s, true) == Assigned(c, s, false)
  {
    match c
    case Nop | Read(_, _) | Define(_, _) =>
    case Seq(a, b) =>
      DirectIsSeen(a, s);
      DirectIsSeen(b, Assigned(a, s, false).value);
    case Branch(_, left, yes, _, no) =>
      DirectIsSeen(yes, s);
      DirectIsSeen(no, Scope(s.certain, Assigned(yes, s, false).value.vars));
      if left.Rhs? {
        AssignsNothing(yes, s);
        var afterYes := Assigned(yes, s, false).value.certain;
        assert afterYes * s.certain == afterYes;
      }
    case Loop(_, cond, body) =>
      DirectIsSeen(cond, s);
      DirectIsSeen(body, Assigned(cond, s, false).value);
    case Inlined(_, params, _, body) =>
      DirectIsSeen(body, Scope(s.certain + Set(params), s.vars + Set(params)));
    case Return(result) => DirectIsSeen(result, s);
  }

  // ── Builtins taken for variables ─────────────────────────

  /** The builtin `name` is alone somewhere in `c`, and is the name of an object variable. */
  predicate Misreads(c: Code, name: string) {
    match c
    case Nop | Rejected | Read(_, _) | Define(_, _) => false
    case Misread(_, n) => n == name
    case Seq(a, b) => Misreads(a, name) || Misreads(b, name)
    case Branch(_, _, yes, _, no) => Misreads(yes, name) || Misreads(no, name)
    case Loop(_, cond, body) => Misreads(cond, name) || Misreads(body, name)
    case Inlined(_, _, _, body) => Misreads(body, name)
    case Return(result) => Misreads(result, name)
    case Quit(status) => Misreads(status, name)
  }

  /** Inference meets a builtin alone before any variable of its name, so the analysis holds that
      variable live from the start. */
  lemma {:induction false} MisreadIsSeenRead(c: Code, s: Scope, name: string)
    requires Tidy(c) && Assigned(c, s, false).Some? && s.certain <= s.vars
    ensures Misreads(c, name) ==> name !in s.vars && Reads(Seen(c), name)
    ensures name !in Assigned(c, s, false).value.vars && !Never(c) ==> Passes(Seen(c), name) || Reads(Seen(c), name)
  {
    match c
    case Nop | Read(_, _) | Define(_, _) | Misread(_, _) =>
    case Seq(a, b) =>
      MisreadIsSeenRead(a, s, name);
      MisreadIsSeenRead(b, Assigned(a, s, false).value, name);
    case Branch(_, _, yes, _, no) =>
      MisreadIsSeenRead(yes, s, name);
      MisreadIsSeenRead(no, Scope(s.certain, Assigned(yes, s, false).value.vars), name);
    case Loop(_, cond, body) =>
      MisreadIsSeenRead(cond, s, name);
      MisreadIsSeenRead(body, Assigned(cond, s, false).value, name);
    case Inlined(_, params, _, body) =>
      MisreadIsSeenRead(body, Scope(s.certain + Set(params), s.vars + Set(params)), name);
    case Return(result) => MisreadIsSeenRead(result, s, name);
    case Quit(status) => MisreadIsSeenRead(status, s, name);
  }

  // ── Inference refuses no more than it must ───────────────

  /** The variables `c` gives a value, parameters of blocks included. */
  function Given(c: Code): Names {
    match c
    case Nop | Rejected | Read(_, _) | Misread(_, _) => {}
    case Define(_, name) => {name}
    case Seq(a, b) => Given(a) + Given(b)
    case Branch(_, _, yes, _, no) => Given(yes) + Given(no)
    case Loop(_, cond, body) => Given(cond) + Given(body)
    case Inlined(_, params, _, body) => Set(params) + Given(body)
    case Return(result) => Given(result)
    case Quit(status) => Given(status)
  }

  /** No builtin alone has the name of an object variable, all nodes are supported, and no parameter of
      a block is named as a variable given a value before: those of `names`, or in `c`. */
  predicate Clear(c: Code, names: Names) {
    match c
    case Nop | Read(_, _) | Define(_, _) => true
    case Rejected | Misread(_, _) => false
    case Seq(a, b) => Clear(a, names) && Clear(b, names + Given(a))
    case Branch(_, _, yes, _, no) => Clear(yes, names) && Clear(no, names + Given(yes))
    case Loop(_, cond, body) => Clear(cond, names) && Clear(body, names + Given(cond))
    case Inlined(_, params, _, body) => Set(params) !! names && Clear(body, names + Set(params))
    case Return(result) => Clear(result, names)
    case Quit(status) => Clear(status, names)
  }

  /** Where skipped operands count, control goes past `c` on some path unless inference holds that it
      never does. */
  lemma {:induction false} NeverIsExact(c: Code, name: string)
    requires Tidy(c) && name !in Given(c) && !Reads(c, name)
    ensures Never(c) <==> !Passes(c, name)
  {
    match c
    case Nop | Rejected | Read(_, _) | Define(_, _) | Misread(_, _) | Inlined(_, _, _, _) | Return(_) | Quit(_) =>
    case Seq(a, b) =>
      NeverIsExact(a, name);
      if Passes(a, name) {
        NeverIsExact(b, name);
      }
    case Branch(_, _, yes, _, no) =>
      NeverIsExact(yes, name);
      NeverIsExact(no, name);
    case Loop(_, cond, _) => NeverIsExact(cond, name);
  }

  lemma {:induction false} NeverPasses(c: Code, name: string)
    ensures Never(c) ==> !Passes(c, name)
  {
    match c
    case Seq(a, b) =>
      NeverPasses(a, name);
      NeverPasses(b, name);
    case Branch(_, _, yes, _, no) =>
      NeverPasses(yes, name);
      NeverPasses(no, name);
    case _ =>
  }

  /** Exactly the paths through `c` decide: what is read first on some path is certain before, and what
      is certain after is what every path gives a value. */
  ghost predicate IsExact(c: Code, s: Scope, names: Names) {
    && (Assigned(c, s, true).Some? <==> forall name :: Reads(c, name) ==> name in s.certain)
    && (Assigned(c, s, true).Some? ==> Assigned(c, s, true).value.vars <= names + Given(c))
    && (Assigned(c, s, true).Some? && !Never(c) ==>
          forall name :: name in Assigned(c, s, true).value.certain <==> name in s.certain || !Passes(c, name))
  }

  /** Where skipped operands count, inference refuses `c` if and only if some path reads a variable not
      certain before giving it a value. */
  lemma {:induction false} AssignedIsExact(c: Code, s: Scope, names: Names)
    requires Tidy(c) && Clear(c, names) && s.certain <= s.vars <= names
    ensures IsExact(c, s, names)
  {
    match c
    case Nop | Read(_, _) | Define(_, _) =>
    case Seq(a, b) =>
      AssignedIsExact(a, s, names);
      if Assigned(a, s, true).Some? {
        AssignedIsExact(b, Assigned(a, s, true).value, names + Given(a));
      }
    case Branch(_, _, yes, _, no) =>
      AssignedIsExact(yes, s, names);
      if Assigned(yes, s, true).Some? {
        AssignedIsExact(no, Scope(s.certain, Assigned(yes, s, true).value.vars), names + Given(yes));
      }
      forall name ensures (Never(yes) ==> !Passes(yes, name)) && (Never(no) ==> !Passes(no, name)) {
        NeverPasses(yes, name);
        NeverPasses(no, name);
      }
    case Loop(_, cond, body) =>
      AssignedIsExact(cond, s, names);
      if Assigned(cond, s, true).Some? {
        AssignedIsExact(body, Assigned(cond, s, true).value, names + Given(cond));
      }
    case Inlined(_, params, _, body) =>
      AssignedIsExact(body, Scope(s.certain + Set(params), s.vars + Set(params)), names + Set(params));
    case Return(result) => AssignedIsExact(result, s, names);
    case Quit(status) => AssignedIsExact(status, s, names);
  }

  /** `c` if no right operand of `&&` or `||` were ever skipped. */
  function Unskipped(c: Code): Code {
    match c
    case Nop | Rejected | Read(_, _) | Define(_, _) | Misread(_, _) => c
    case Seq(a, b) => Seq(Unskipped(a), Unskipped(b))
    case Branch(id, left, yes, right, no) =>
      if left.Rhs? then Seq(Unskipped(yes), Unskipped(no))
      else Branch(id, left, Unskipped(yes), right, Unskipped(no))
    case Loop(id, cond, body) => Loop(id, Unskipped(cond), Unskipped(body))
    case Inlined(id, params, bound, body) => Inlined(id, params, bound, Unskipped(body))
    case Return(result) => Code.Return(Unskipped(result))
    case Quit(status) => Quit(Unskipped(status))
  }

  /** Nothing is evaluated in place of a right operand that is skipped. */
  predicate SkipsToNothing(c: Code) {
    match c
    case Nop | Rejected | Read(_, _) | Define(_, _) | Misread(_, _) => true
    case Seq(a, b) => SkipsToNothing(a) && SkipsToNothing(b)
    case Branch(_, left, yes, _, no) => SkipsToNothing(yes) && SkipsToNothing(no) && (left.Rhs? ==> no.Nop?)
    case Loop(_, cond, body) => SkipsToNothing(cond) && SkipsToNothing(body)
    case Inlined(_, _, _, body) => SkipsToNothing(body)
    case Return(result) => SkipsToNothing(result)
    case Quit(status) => SkipsToNothing(status)
  }

  /** Inference counts on the right operands: it takes `c` for what it would be if none were skipped. */
  lemma {:induction false} OperandsAreCountedOn(c: Code, s: Scope, names: Names)
    requires Tidy(c) && SkipsToNothing(c)
    ensures Assigned(c, s, false) == Assigned(Unskipped(c), s, true)
    ensures Tidy(Unskipped(c)) && Never(Unskipped(c)) == Never(c)
    ensures Given(Unskipped(c)) == Given(c) && (Clear(c, names) ==> Clear(Unskipped(c), names))
  {
    match c
    case Nop | Rejected | Read(_, _) | Define(_, _) | Misread(_, _) =>
    case Seq(a, b) =>
      OperandsAreCountedOn(a, s, names);
      OperandsAreCountedOn(b, if Assigned(a, s, false).Some? then Assigned(a, s, false).value else s, names + Given(a));
    case Branch(_, _, yes, _, no) =>
      var between := if Assigned(yes, s, false).Some? then Scope(s.certain, Assigned(yes, s, false).value.vars) else s;
      OperandsAreCountedOn(yes, s, names);
      OperandsAreCountedOn(no, between, names + Given(yes));
    case Loop(_, cond, body) =>
      OperandsAreCountedOn(cond, s, names);
      var decided := if Assigned(cond, s, false).Some? then Assigned(cond, s, false).value else s;
      OperandsAreCountedOn(body, decided, names + Given(cond));
    case Inlined(_, params, _, body) =>
      OperandsAreCountedOn(body, Scope(s.certain + Set(params), s.vars + Set(params)), names + Set(params));
    case Return(result) => OperandsAreCountedOn(result, s, names);
    case Quit(status) => OperandsAreCountedOn(status, s, names);
  }

  lemma {:induction false} LoweredSkipsToNothing(e: Expr, t: Typed)
    ensures SkipsToNothing(Lower(e, t))
    decreases e, 1
  {
    match e.kind
    case Scalar | Unsupported | Var(_) =>
    case Str(segments) => SegmentsSkipToNothing(segments, t);
    case Array(items) => AllSkipToNothing(items, t);
    case Assign(_, _) | OpAssign(_, _) => AssignmentSkipsToNothing(e, t);
    case Binary(_, lhs, rhs) =>
      LoweredSkipsToNothing(lhs, t);
      LoweredSkipsToNothing(rhs, t);
    case Unary(operand) => LoweredSkipsToNothing(operand, t);
    case If(cond, yes, no) =>
      LoweredSkipsToNothing(cond, t);
      AllSkipToNothing(yes, t);
      if no.Otherwise? {
        AllSkipToNothing(no.stmts, t);
      }
    case While(cond, body) =>
      LoweredSkipsToNothing(cond, t);
      AllSkipToNothing(body, t);
    case Return(value) =>
      if value.Some? {
        LoweredSkipsToNothing(value.value, t);
      }
    case Index(recv, args) =>
      LoweredSkipsToNothing(recv, t);
      AllSkipToNothing(args, t);
    case Call(recv, args, block) =>
      if recv.Some? {
        LoweredSkipsToNothing(recv.value, t);
      }
      AllSkipToNothing(args, t);
      if block.Do? {
        AllSkipToNothing(block.stmts, t);
      }
      assert SkipsToNothing(LowerBlock(e.id, block, t));
      assert SkipsToNothing(Seq(LowerAll(args, t), LowerBlock(e.id, block, t)));
  }

  lemma {:induction false} AssignmentSkipsToNothing(e: Expr, t: Typed)
    requires e.kind.Assign? || e.kind.OpAssign?
    ensures SkipsToNothing(Lower(e, t))
    decreases e, 0
  {
    var target := e.kind.target;
    LoweredSkipsToNothing(e.kind.value, t);
    if target.kind.Index? {
      LoweredSkipsToNothing(target.kind.recv, t);
      AllSkipToNothing(target.kind.args, t);
    }
  }

  lemma {:induction false} AllSkipToNothing(es: seq<Expr>, t: Typed)
    ensures SkipsToNothing(LowerAll(es, t))
    decreases es, 0
  {
    if es != [] {
      LoweredSkipsToNothing(es[0], t);
      AllSkipToNothing(es[1..], t);
    }
  }

  lemma {:induction false} SegmentsSkipToNothing(segments: seq<Segment>, t: Typed)
    ensures SkipsToNothing(LowerSegments(segments, t))
    decreases segments, 0
  {
    if segments != [] {
      SegmentSkipsToNothing(segments[0], t);
      SegmentsSkipToNothing(segments[1..], t);
    }
  }

  lemma {:induction false} SegmentSkipsToNothing(segment: Segment, t: Typed)
    ensures SkipsToNothing(LowerSegment(segment, t))
    decreases segment, 1
  {
    if segment.Interpolation? {
      LoweredSkipsToNothing(segment.expr, t);
    }
  }
}
