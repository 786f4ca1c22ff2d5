/** The control flow of a body, in evaluation order: the reads and definitions of the variables
    that hold objects, and the branches and loops between them. */
module ControlFlow {
  import opened Syntax

  type Names = set<string>

  datatype Edge = Then | Else | Rhs | Skip | Body | Exit

  /** The other way out of the same branch, or loop. */
  function Opposite(edge: Edge): Edge {
    match edge case Then => Else case Else => Then case Rhs => Skip case Skip => Rhs case Body => Exit case Exit => Body
  }

  datatype Code =
    | Nop
    | Seq(first: Code, second: Code)
    | Read(id: nat, name: string)
    | Define(id: nat, name: string)
    | Branch(id: nat, left: Edge, yes: Code, right: Edge, no: Code)
    | Loop(id: nat, cond: Code, body: Code)
      // `params`: every parameter of the block; `bound`: those holding objects
    | Inlined(id: nat, params: seq<string>, bound: seq<string>, body: Code)
      // without a value, `result` is `Nop`
    | Return(result: Code)
      // `exit`: evaluates its code, then ends the program
    | Quit(status: Code)
      // the name of a builtin alone, which reads no variable, though one that holds objects has this name
    | Misread(id: nat, name: string)
      // a node inference promises not to let through
    | Rejected

  // ── Lowering ─────────────────────────────────────────────

  function Objects(names: seq<string>, heap: Names): (r: seq<string>)
    ensures forall n :: n in r <==> n in names && n in heap
  {
    if names == [] then []
    else (if names[0] in heap then [names[0]] else []) + Objects(names[1..], heap)
  }

  function ReadOf(id: nat, name: string, t: Typed): Code {
    if name in t.heap then Read(id, name) else Nop
  }

  function DefineOf(id: nat, name: string, t: Typed): Code {
    if name in t.heap then Define(id, name) else Nop
  }

  /** The order in which the translator evaluates `e`. */
  function Lower(e: Expr, t: Typed): Code
    decreases e, 1
  {
    match e.kind
    case Scalar => Nop
    case Str(segments) => LowerSegments(segments, t)
    case Array(items) => LowerAll(items, t)
    case Var(name) =>
      if e.id !in t.builtins then ReadOf(e.id, name, t)
      else
        var lone := if name in t.heap then Misread(e.id, name) else Nop;
        if t.Exits(e.id) then Quit(lone) else lone
    case Assign(target, value) => (
      match target.kind
      case Var(name) => Seq(Lower(value, t), DefineOf(e.id, name, t))
      case Index(recv, args) => Seq(Lower(value, t), Seq(Lower(recv, t), LowerAll(args, t)))
      case _ => Rejected)
    case OpAssign(target, value) => (
      match target.kind
      case Var(name) => Seq(ReadOf(target.id, name, t), Seq(Lower(value, t), DefineOf(e.id, name, t)))
      case Index(recv, args) => Seq(Lower(recv, t), Seq(LowerAll(args, t), Lower(value, t)))
      case _ => Rejected)
    case Binary(op, lhs, rhs) =>
      if op.Plain? then Seq(Lower(lhs, t), Lower(rhs, t))
      else Seq(Lower(lhs, t), Branch(e.id, Rhs, Lower(rhs, t), Skip, Nop))
    case Unary(operand) => Lower(operand, t)
    case If(cond, yes, no) =>
      Seq(Lower(cond, t),
          Branch(e.id, Then, LowerAll(yes, t), Else, if no.Otherwise? then LowerAll(no.stmts, t) else Nop))
    case While(cond, body) => Loop(e.id, Lower(cond, t), LowerAll(body, t))
    case Return(value) => Code.Return(if value.Some? then Lower(value.value, t) else Nop)
    case Index(recv, args) => Seq(Lower(recv, t), LowerAll(args, t))
    case Call(recv, args, block) =>
      var call := Seq(if recv.Some? then Lower(recv.value, t) else Nop,
                      Seq(LowerAll(args, t), LowerBlock(e.id, block, t)));
      if t.Exits(e.id) then Quit(call) else call
    case Unsupported => Rejected
  }

  function LowerBlock(id: nat, block: Block, t: Typed): Code
    decreases block, 0
  {
    if block.NoBlock? then Nop
    else if id !in t.blocks then Rejected
    else Inlined(id, t.blocks[id], Objects(t.blocks[id], t.heap), LowerAll(block.stmts, t))
  }

  function LowerAll(es: seq<Expr>, t: Typed): Code
    decreases es, 0
  {
    if es == [] then Nop else Seq(Lower(es[0], t), LowerAll(es[1..], t))
  }

  function LowerSegments(segments: seq<Segment>, t: Typed): Code
    decreases segments, 0
  {
    if segments == [] then Nop else Seq(LowerSegment(segments[0], t), LowerSegments(segments[1..], t))
  }

  function LowerSegment(segment: Segment, t: Typed): Code
    decreases segment, 1
  {
    match segment
    case Text(_) => Nop
    case Interpolation(e) => Lower(e, t)
  }

  // ── What the analysis takes it for ───────────────────────

  /** What inference found, but for builtins: all that the analysis looks at. */
  function Blind(t: Typed): Typed { t.(builtins := map[]) }

  /** `c` as the analysis sees it: control goes on after `exit`, and the name of a builtin alone
      reads the variable of that name. */
  function Seen(c: Code): Code {
    match c
    case Quit(status) => Seen(status)
    case Misread(id, name) => Read(id, name)
    case Nop | Rejected | Read(_, _) | Define(_, _) => c
    case Seq(a, b) => Seq(Seen(a), Seen(b))
    case Branch(id, left, yes, right, no) => Branch(id, left, Seen(yes), right, Seen(no))
    case Loop(id, cond, body) => Loop(id, Seen(cond), Seen(body))
    case Inlined(id, params, bound, body) => Inlined(id, params, bound, Seen(body))
    case Return(result) => Code.Return(Seen(result))
  }

  /** The nodes of `c` that carry annotations. */
  function Nodes(c: Code): set<nat> {
    match c
    case Nop | Rejected => {}
    case Read(id, _) => {id}
    case Define(id, _) => {id}
    case Seq(a, b) => Nodes(a) + Nodes(b)
    case Branch(id, _, yes, _, no) => {id} + Nodes(yes) + Nodes(no)
    case Loop(id, cond, body) => {id} + Nodes(cond) + Nodes(body)
    case Inlined(id, _, _, body) => {id} + Nodes(body)
    case Return(result) => Nodes(result)
    case Quit(status) => Nodes(status)
    case Misread(id, _) => {id}
  }

  ghost predicate NoDuplicates(names: seq<string>) {
    forall i, j :: 0 <= i < j < |names| ==> names[i] != names[j]
  }

  /** What inference promises: only supported nodes, each at its own address, and block
      parameters with distinct names. */
  ghost predicate WellFormed(c: Code) {
    match c
    case Nop | Read(_, _) | Define(_, _) | Misread(_, _) => true
    case Rejected => false
    case Seq(a, b) => WellFormed(a) && WellFormed(b) && Nodes(a) !! Nodes(b)
    case Branch(id, left, yes, right, no) =>
      && right == Opposite(left) && id !in Nodes(yes) && id !in Nodes(no)
      && WellFormed(yes) && WellFormed(no) && Nodes(yes) !! Nodes(no)
    case Loop(id, cond, body) =>
      && id !in Nodes(cond) && id !in Nodes(body)
      && WellFormed(cond) && WellFormed(body) && Nodes(cond) !! Nodes(body)
    case Inlined(id, params, bound, body) =>
      && id !in Nodes(body) && WellFormed(body)
      && NoDuplicates(bound) && forall p :: p in bound ==> p in params
    case Return(result) => WellFormed(result)
    case Quit(status) => WellFormed(status)
  }

  lemma {:induction false} SeenIsWellFormed(c: Code)
    requires WellFormed(c)
    ensures WellFormed(Seen(c)) && Nodes(Seen(c)) == Nodes(c)
  {
    match c
    case Nop | Read(_, _) | Define(_, _) | Misread(_, _) =>
    case Seq(a, b) =>
      SeenIsWellFormed(a);
      SeenIsWellFormed(b);
    case Branch(_, _, yes, _, no) =>
      SeenIsWellFormed(yes);
      SeenIsWellFormed(no);
    case Loop(_, cond, body) =>
      SeenIsWellFormed(cond);
      SeenIsWellFormed(body);
    case Inlined(_, _, _, body) => SeenIsWellFormed(body);
    case Return(result) => SeenIsWellFormed(result);
    case Quit(status) => SeenIsWellFormed(status);
  }

  // ── Liveness of a control flow ───────────────────────────

  function Set(names: seq<string>): Names { set n | n in names }

  /** The variables live before `c`, given those live after it. A loop takes one round: that its
      header is then a fixed point, and the least one, is `HeaderIsLeastFixedPoint`. */
  function Live(c: Code, after: Names): Names {
    match c
    case Nop | Rejected | Misread(_, _) => after
    case Read(_, name) => after + {name}
    case Define(_, name) => after - {name}
    case Seq(a, b) => Live(a, Live(b, after))
    case Branch(_, _, yes, _, no) => Live(yes, after) + Live(no, after)
    case Loop(_, cond, body) => Live(cond, Live(body, after) + after)
    case Inlined(_, params, _, body) => (Live(body, after) - Set(params)) + after
    case Return(result) => Live(result, {})
    case Quit(status) => Live(status, {})
  }

  /** One round of the loop `c` from the guess `header` of what is live at its header. */
  function Round(c: Code, header: Names, after: Names): Names
    requires c.Loop? || c.Inlined?
  {
    match c
    case Loop(_, cond, body) => Live(cond, Live(body, header) + after)
    case Inlined(_, params, _, body) => (Live(body, header) - Set(params)) + after
  }

  /** Some path through `c` reads `name` before redefining it. */
  predicate Reads(c: Code, name: string) {
    match c
    case Nop | Rejected | Define(_, _) | Misread(_, _) => false
    case Read(_, n) => n == name
    case Seq(a, b) => Reads(a, name) || (Passes(a, name) && Reads(b, name))
    case Branch(_, _, yes, _, no) => Reads(yes, name) || Reads(no, name)
    case Loop(_, cond, body) => Reads(cond, name) || (Passes(cond, name) && Reads(body, name))
    case Inlined(_, params, _, body) => Reads(body, name) && name !in params
    case Return(result) => Reads(result, name)
    case Quit(status) => Reads(status, name)
  }

  /** Some path through `c` reaches its end without redefining or reading `name`. */
  predicate Passes(c: Code, name: string) {
    match c
    case Nop | Rejected | Misread(_, _) => true
    case Read(_, n) => n != name
    case Define(_, n) => n != name
    case Seq(a, b) => Passes(a, name) && Passes(b, name)
    case Branch(_, _, yes, _, no) => Passes(yes, name) || Passes(no, name)
    case Loop(_, cond, _) => Passes(cond, name)
    case Inlined(_, _, _, _) => true
    case Return(_) | Quit(_) => false
  }

  /** Every transfer has the form gen ∪ (after ∩ pass), with gen and pass depending on the code
      alone. */
  lemma {:induction false} TransferForm(c: Code, after: Names, name: string)
    ensures name in Live(c, after) <==> Reads(c, name) || (name in after && Passes(c, name))
  {
    match c
    case Nop | Rejected | Read(_, _) | Define(_, _) | Misread(_, _) =>
    case Seq(a, b) =>
      TransferForm(b, after, name);
      TransferForm(a, Live(b, after), name);
    case Branch(_, _, yes, _, no) =>
      TransferForm(yes, after, name);
      TransferForm(no, after, name);
    case Loop(_, cond, body) =>
      TransferForm(body, after, name);
      TransferForm(cond, Live(body, after) + after, name);
    case Inlined(_, _, _, body) =>
      TransferForm(body, after, name);
    case Return(result) =>
      TransferForm(result, {}, name);
    case Quit(status) =>
      TransferForm(status, {}, name);
  }

  lemma RoundForm(c: Code, header: Names, after: Names, name: string)
    requires c.Loop? || c.Inlined?
    ensures name in Round(c, header, after) ==> name in Live(c, after) || (name in header && Passes(c.body, name))
    ensures name in Live(c, after) ==> name in Round(c, header, after)
    ensures name in Round(c, Live(c, after), after) ==> name in Live(c, after)
  {
    match c
    case Loop(_, cond, body) =>
      TransferForm(body, header, name);
      TransferForm(body, after, name);
      TransferForm(body, Live(c, after), name);
      TransferForm(cond, Live(body, header) + after, name);
      TransferForm(cond, Live(body, Live(c, after)) + after, name);
      TransferForm(cond, Live(body, after) + after, name);
    case Inlined(_, params, _, body) =>
      TransferForm(body, header, name);
      TransferForm(body, after, name);
      TransferForm(body, Live(c, after), name);
  }

  /** The live set computed for a loop is a fixed point of a round, and is included in every set
      a round does not grow. */
  lemma HeaderIsLeastFixedPoint(c: Code, after: Names)
    requires c.Loop? || c.Inlined?
    ensures Round(c, Live(c, after), after) == Live(c, after)
    ensures forall h: Names :: Round(c, h, after) <= h ==> Live(c, after) <= h
  {
    forall name ensures name in Round(c, Live(c, after), after) <==> name in Live(c, after) {
      RoundForm(c, Live(c, after), after, name);
    }
    forall h: Names | Round(c, h, after) <= h ensures Live(c, after) <= h {
      forall name | name in Live(c, after) ensures name in h {
        RoundForm(c, h, after, name);
      }
    }
  }

  /** From the guess `after`, the first round reaches the header and the second confirms it. */
  lemma TwoRounds(c: Code, after: Names)
    requires c.Loop? || c.Inlined?
    ensures Round(c, after, after) == Live(c, after)
    ensures Round(c, Round(c, after, after), after) == Round(c, after, after)
  {
    HeaderIsLeastFixedPoint(c, after);
  }
}
