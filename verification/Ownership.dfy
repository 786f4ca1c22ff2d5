/** Running a body under an ownership plan: which variables own a reference, step by step. */
module Ownership {
  import opened Wrappers
  import opened Syntax
  import opened ControlFlow

  /** Where references move and die, by node. */
  datatype Plan = Plan(
    moves: map<nat, bool>,
    deadDefs: map<nat, bool>,
    edges: map<(nat, Edge), Names>,
    deadParams: map<nat, seq<string>>,
    entry: seq<string>)
  {
    predicate Moves(id: nat) { id in moves && moves[id] }

    predicate DeadAfter(id: nat) { id in deadDefs && deadDefs[id] }

    function Drops(id: nat, edge: Edge): Names { if (id, edge) in edges then edges[(id, edge)] else {} }

    function DeadParams(id: nat): seq<string> { if id in deadParams then deadParams[id] else [] }
  }

  const NO_PLAN := Plan(map[], map[], map[], map[], [])

  // ── Execution ────────────────────────────────────────────

  /** What is left to run: code in sequence, the decision of a loop whose condition was just
      evaluated, the end of the body, a `return` whose value was just evaluated, or an `exit` whose
      code was, with what it skips; nothing once it has released what the function held. */
  datatype Control =
    | End
    | Run(code: Code, next: Control)
    | Decide(loop: Code, next: Control)
    | Leave
    | Quitting(skipped: Control)
    | Over
  {
    /** The function is left: at its end, by a `return`, or by an `exit`. */
    predicate Ended() { End? || Leave? || Over? }
  }

  /** `Fault`: a read without a reference, an overwritten reference, or a drop without one. */
  datatype State = Fault | At(control: Control, owned: Names)

  /** What is left after the next step; `choice` decides a branch, or whether a loop goes on. */
  function Follow(k: Control, choice: bool): Control {
    match k
    case End | Leave | Over => k
    case Quitting(_) => Over
    case Decide(loop, next) =>
      if !loop.Loop? then k
      else if choice then Run(loop.body, Run(loop, next)) else next
    case Run(code, next) => (
      match code
      case Nop | Rejected | Read(_, _) | Define(_, _) | Misread(_, _) => next
      case Seq(a, b) => Run(a, Run(b, next))
      case Branch(_, _, yes, _, no) => Run(if choice then yes else no, next)
      case Loop(_, cond, _) => Run(cond, Decide(code, next))
      case Inlined(_, _, _, body) => if choice then Run(body, Run(code, next)) else next
      case Return(result) => Run(result, Leave)
      case Quit(status) => Run(status, Quitting(next)))
  }

  /** A reference of each of `names` dies: each must own one. */
  function Drop(names: Names, owned: Names): Option<Names> {
    if names <= owned then Some(owned - names) else None
  }

  function DropEach(names: seq<string>, owned: Names): Option<Names> {
    if names == [] then Some(owned)
    else if names[0] in owned then DropEach(names[1..], owned - {names[0]})
    else None
  }

  /** Each parameter takes its argument, with its reference if it is an object: a parameter of the
      same name that owns one would lose it. */
  function Receive(params: seq<Param>, owned: Names): Option<Names> {
    if params == [] then Some(owned)
    else if params[0].name in owned then None
    else Receive(params[1..], if params[0].isObject then owned + {params[0].name} else owned)
  }

  /** Each of `names` receives a reference: none may own one yet. */
  function BindEach(names: seq<string>, owned: Names): Option<Names> {
    if names == [] then Some(owned)
    else if names[0] !in owned then BindEach(names[1..], owned + {names[0]})
    else None
  }

  /** The references after the next step under `plan`. */
  function Transfer(plan: Plan, k: Control, owned: Names, choice: bool): Option<Names> {
    match k
    case End | Leave | Over => Some(owned)
    case Quitting(_) => Some({})
    case Decide(loop, _) =>
      if !loop.Loop? then None
      else Drop(plan.Drops(loop.id, if choice then Body else Exit), owned)
    case Run(code, _) => (
      match code
      case Nop | Misread(_, _) | Seq(_, _) | Loop(_, _, _) | Return(_) | Quit(_) => Some(owned)
      case Rejected => None
      case Read(id, name) =>
        if name !in owned then None else Some(if plan.Moves(id) then owned - {name} else owned)
      case Define(id, name) =>
        if name in owned then None else Some(if plan.DeadAfter(id) then owned else owned + {name})
      case Branch(id, left, _, right, _) => Drop(plan.Drops(id, if choice then left else right), owned)
      case Inlined(id, _, bound, _) =>
        if !choice then Drop(plan.Drops(id, Exit), owned)
        else match Drop(plan.Drops(id, Body), owned)
          case None => None
          case Some(entered) =>
            match BindEach(bound, entered)
            case None => None
            case Some(all) => DropEach(plan.DeadParams(id), all))
  }

  function Step(plan: Plan, s: State, choice: bool): State {
    match s
    case Fault => Fault
    case At(k, owned) =>
      match Transfer(plan, k, owned, choice)
      case None => Fault
      case Some(after) => At(Follow(k, choice), after)
  }

  /** A run, finite prefix of any execution: one choice for each step. */
  function Execute(plan: Plan, s: State, choices: seq<bool>): State
    decreases |choices|
  {
    if choices == [] then s else Execute(plan, Step(plan, s, choices[0]), choices[1..])
  }

  /** Entering a function: its object parameters own a reference each, the unused ones die. */
  function Enter(plan: Plan, params: seq<Param>, code: Code): State {
    match Receive(params, {})
    case None => Fault
    case Some(owned) =>
      match DropEach(plan.entry, owned)
      case None => Fault
      case Some(left) => At(Run(code, End), left)
  }

  lemma {:induction false} BindsEach(names: seq<string>, owned: Names)
    ensures BindEach(names, owned).Some? <==> NoDuplicates(names) && Set(names) !! owned
    ensures BindEach(names, owned).Some? ==> BindEach(names, owned).value == owned + Set(names)
  {
    if names != [] {
      BindsEach(names[1..], owned + {names[0]});
      assert Set(names) == {names[0]} + Set(names[1..]);
      assert names[0] in Set(names);
      if NoDuplicates(names) {
        forall i | 0 <= i < |names| - 1 ensures names[1..][i] != names[0] {
          assert names[1..][i] == names[i + 1];
        }
      } else if NoDuplicates(names[1..]) {
        var i, j :| 0 <= i < j < |names| && names[i] == names[j];
        assert names[1..][j - 1] == names[j];
        assert i == 0;
      }
    }
  }

  /** What is wrong of a step: reading what owns no reference, giving a value to what owns one, and
      dropping on an edge what owns none. */
  lemma WrongSteps(plan: Plan, id: nat, name: string, next: Control, owned: Names, choice: bool)
    ensures Step(plan, At(Run(Read(id, name), next), owned), choice) == Fault <==> name !in owned
    ensures Step(plan, At(Run(Define(id, name), next), owned), choice) == Fault <==> name in owned
    ensures forall left, yes, right, no ::
      Step(plan, At(Run(Branch(id, left, yes, right, no), next), owned), choice) == Fault <==>
        !(plan.Drops(id, if choice then left else right) <= owned)
    ensures forall params, bound, body ::
      Step(plan, At(Run(Inlined(id, params, bound, body), next), owned), false) == Fault <==>
        !(plan.Drops(id, Exit) <= owned)
    ensures forall cond, body ::
      Step(plan, At(Decide(Loop(id, cond, body), next), owned), choice) == Fault <==>
        !(plan.Drops(id, if choice then Body else Exit) <= owned)
  {}

  /** Going into a block is wrong if it drops what owns no reference, binds what owns one, or drops a
      parameter it does not bind. */
  lemma WrongEntries(plan: Plan, id: nat, params: seq<string>, bound: seq<string>, body: Code, next: Control,
                     owned: Names)
    ensures var drops, dead := plan.Drops(id, Body), plan.DeadParams(id);
      Step(plan, At(Run(Inlined(id, params, bound, body), next), owned), true) != Fault <==>
        && drops <= owned && NoDuplicates(bound) && Set(bound) !! owned - drops
        && NoDuplicates(dead) && Set(dead) <= owned - drops + Set(bound)
  {
    var drops := plan.Drops(id, Body);
    BindsEach(bound, owned - drops);
    DropsEach(plan.DeadParams(id), owned - drops + Set(bound));
  }

  // ── Liveness, by what may happen next ────────────────────

  /** The next step of `k` reads `name`. */
  predicate ReadsNow(k: Control, name: string) {
    k.Run? && k.code.Read? && k.code.name == name
  }

  /** The next step of `k` gives `name` a new value. */
  predicate RedefinesNow(k: Control, choice: bool, name: string) {
    k.Run? && ((k.code.Define? && k.code.name == name) || (k.code.Inlined? && choice && name in k.code.params))
  }

  /** Along `choices`, `name` is read before it is given a new value. */
  predicate ReadFirst(k: Control, name: string, choices: seq<bool>)
    decreases |choices|
  {
    if choices == [] then false
    else if ReadsNow(k, name) then true
    else if RedefinesNow(k, choices[0], name) then false
    else ReadFirst(Follow(k, choices[0]), name, choices[1..])
  }

  /** Some continuation of `k` reads `name` before giving it a new value. */
  ghost predicate MayRead(k: Control, name: string) {
    exists choices :: ReadFirst(k, name, choices)
  }

  /** Along `choices`, `name` is neither read nor given a new value, and `k` becomes `k'`. */
  predicate Leads(k: Control, name: string, choices: seq<bool>, k': Control)
    decreases |choices|
  {
    if choices == [] then k == k'
    else !ReadsNow(k, name) && !RedefinesNow(k, choices[0], name)
         && Leads(Follow(k, choices[0]), name, choices[1..], k')
  }

  /** The variables the analysis holds live at `k`. */
  function LiveAt(k: Control): Names {
    match k
    case End | Leave | Quitting(_) | Over => {}
    case Run(code, next) => Live(code, LiveAt(next))
    case Decide(loop, next) =>
      if !loop.Loop? then {}
      else Live(loop.body, Live(loop, LiveAt(next))) + LiveAt(next)
  }

  lemma LiveAtStep(k: Control, choice: bool, name: string)
    ensures !RedefinesNow(k, choice, name) && name in LiveAt(Follow(k, choice)) ==> name in LiveAt(k)
    ensures ReadsNow(k, name) ==> name in LiveAt(k)
  {
    if k.Decide? && k.loop.Loop? {
      assert LiveAt(Run(k.loop, k.next)) == Live(k.loop, LiveAt(k.next));
    }
    if k.Run? {
      match k.code
      case Loop(_, cond, body) =>
        HeaderIsLeastFixedPoint(k.code, LiveAt(k.next));
        var after := LiveAt(k.next);
        assert LiveAt(Decide(k.code, k.next)) == Live(body, Live(k.code, after)) + after;
      case Inlined(_, params, _, body) =>
        HeaderIsLeastFixedPoint(k.code, LiveAt(k.next));
        assert choice ==> Follow(k, choice) == Run(body, Run(k.code, k.next));
      case Seq(a, b) =>
        assert LiveAt(Run(b, k.next)) == Live(b, LiveAt(k.next));
      case Return(_) =>
        assert LiveAt(Leave) == {};
      case Quit(_) =>
        assert LiveAt(Quitting(k.next)) == {};
      case _ =>
    }
  }

  lemma {:induction false} ReadFirstIsLive(k: Control, name: string, choices: seq<bool>)
    requires ReadFirst(k, name, choices)
    ensures name in LiveAt(k)
    decreases |choices|
  {
    LiveAtStep(k, choices[0], name);
    if !ReadsNow(k, name) {
      ReadFirstIsLive(Follow(k, choices[0]), name, choices[1..]);
    }
  }

  lemma {:induction false} LeadsThenReads(k: Control, name: string, c1: seq<bool>, k': Control, c2: seq<bool>)
    requires Leads(k, name, c1, k') && ReadFirst(k', name, c2)
    ensures ReadFirst(k, name, c1 + c2)
    decreases |c1|
  {
    if c1 == [] {
      assert c1 + c2 == c2;
    } else {
      LeadsThenReads(Follow(k, c1[0]), name, c1[1..], k', c2);
      assert (c1 + c2)[1..] == c1[1..] + c2;
    }
  }

  lemma {:induction false} LeadsThenLeads(k: Control, name: string, c1: seq<bool>, k': Control, c2: seq<bool>, k'': Control)
    requires Leads(k, name, c1, k') && Leads(k', name, c2, k'')
    ensures Leads(k, name, c1 + c2, k'')
    decreases |c1|
  {
    if c1 == [] {
      assert c1 + c2 == c2;
    } else {
      LeadsThenLeads(Follow(k, c1[0]), name, c1[1..], k', c2, k'');
      assert (c1 + c2)[1..] == c1[1..] + c2;
    }
  }

  lemma OneStep(k: Control, name: string, choice: bool)
    requires !ReadsNow(k, name) && !RedefinesNow(k, choice, name)
    ensures Leads(k, name, [choice], Follow(k, choice))
  {
    assert Leads(Follow(k, choice), name, [choice][1..], Follow(k, choice));
  }

  lemma StepThenReads(k: Control, name: string, choice: bool, choices: seq<bool>)
    requires !ReadsNow(k, name) && !RedefinesNow(k, choice, name)
    requires ReadFirst(Follow(k, choice), name, choices)
    ensures ReadFirst(k, name, [choice] + choices)
  {
    assert ([choice] + choices)[1..] == choices;
  }

  lemma StepThenLeads(k: Control, name: string, choice: bool, choices: seq<bool>, k': Control)
    requires !ReadsNow(k, name) && !RedefinesNow(k, choice, name)
    requires Leads(Follow(k, choice), name, choices, k')
    ensures Leads(k, name, [choice] + choices, k')
  {
    assert ([choice] + choices)[1..] == choices;
  }

  /** A path through `c` that leaves `name` alone. */
  lemma {:induction false} PassingPath(c: Code, name: string, next: Control) returns (choices: seq<bool>)
    requires Passes(c, name)
    ensures Leads(Run(c, next), name, choices, next)
  {
    var k := Run(c, next);
    match c
    case Nop | Rejected | Read(_, _) | Define(_, _) | Misread(_, _) =>
      OneStep(k, name, false);
      choices := [false];
    case Seq(a, b) =>
      var c1 := PassingPath(a, name, Run(b, next));
      var c2 := PassingPath(b, name, next);
      LeadsThenLeads(Run(a, Run(b, next)), name, c1, Run(b, next), c2, next);
      StepThenLeads(k, name, false, c1 + c2, next);
      choices := [false] + (c1 + c2);
    case Branch(_, _, yes, _, no) =>
      var choice := Passes(yes, name);
      var c1 := PassingPath(if choice then yes else no, name, next);
      StepThenLeads(k, name, choice, c1, next);
      choices := [choice] + c1;
    case Loop(_, cond, _) =>
      var c1 := PassingPath(cond, name, Decide(c, next));
      OneStep(Decide(c, next), name, false);
      LeadsThenLeads(Run(cond, Decide(c, next)), name, c1, Decide(c, next), [false], next);
      StepThenLeads(k, name, false, c1 + [false], next);
      choices := [false] + (c1 + [false]);
    case Inlined(_, _, _, _) =>
      OneStep(k, name, false);
      choices := [false];
    case Return(_) | Quit(_) =>
      assert false;
      choices := [];
  }

  /** A path into `c` that reads `name` before giving it a new value. */
  lemma {:induction false} ReadingPath(c: Code, name: string, next: Control) returns (choices: seq<bool>)
    requires Reads(c, name)
    ensures ReadFirst(Run(c, next), name, choices)
  {
    var k := Run(c, next);
    choices := [false];
    match c
    case Nop | Rejected | Define(_, _) | Misread(_, _) => assert false;
    case Read(_, _) =>
    case Seq(a, b) =>
      var c1;
      if Reads(a, name) {
        c1 := ReadingPath(a, name, Run(b, next));
      } else {
        var ca := PassingPath(a, name, Run(b, next));
        var cb := ReadingPath(b, name, next);
        LeadsThenReads(Run(a, Run(b, next)), name, ca, Run(b, next), cb);
        c1 := ca + cb;
      }
      StepThenReads(k, name, false, c1);
      choices := [false] + c1;
    case Branch(_, _, yes, _, no) =>
      var choice := Reads(yes, name);
      var c1 := ReadingPath(if choice then yes else no, name, next);
      StepThenReads(k, name, choice, c1);
      choices := [choice] + c1;
    case Loop(_, cond, body) =>
      var d := Decide(c, next);
      var c1;
      if Reads(cond, name) {
        c1 := ReadingPath(cond, name, d);
      } else {
        var cc := PassingPath(cond, name, d);
        var cb := ReadingPath(body, name, Run(c, next));
        StepThenReads(d, name, true, cb);
        LeadsThenReads(Run(cond, d), name, cc, d, [true] + cb);
        c1 := cc + ([true] + cb);
      }
      StepThenReads(k, name, false, c1);
      choices := [false] + c1;
    case Inlined(_, _, _, body) =>
      var c1 := ReadingPath(body, name, Run(c, next));
      StepThenReads(k, name, true, c1);
      choices := [true] + c1;
    case Return(result) =>
      var c1 := ReadingPath(result, name, Leave);
      StepThenReads(k, name, false, c1);
      choices := [false] + c1;
    case Quit(status) =>
      var c1 := ReadingPath(status, name, Quitting(next));
      StepThenReads(k, name, false, c1);
      choices := [false] + c1;
  }

  /** A live variable has a continuation that reads it before giving it a new value. */
  lemma {:induction false} LiveIsReadFirst(k: Control, name: string) returns (choices: seq<bool>)
    requires name in LiveAt(k)
    ensures ReadFirst(k, name, choices)
  {
    match k
    case End | Leave | Quitting(_) | Over =>
      assert false;
      choices := [];
    case Run(code, next) =>
      TransferForm(code, LiveAt(next), name);
      if Reads(code, name) {
        choices := ReadingPath(code, name, next);
      } else {
        var c1 := PassingPath(code, name, next);
        var c2 := LiveIsReadFirst(next, name);
        LeadsThenReads(k, name, c1, next, c2);
        choices := c1 + c2;
      }
    case Decide(loop, next) =>
      if name in LiveAt(next) {
        var c2 := LiveIsReadFirst(next, name);
        StepThenReads(k, name, false, c2);
        choices := [false] + c2;
      } else {
        TransferForm(loop.body, Live(loop, LiveAt(next)), name);
        var c2;
        if Reads(loop.body, name) {
          c2 := ReadingPath(loop.body, name, Run(loop, next));
        } else {
          TransferForm(loop, LiveAt(next), name);
          var c0 := PassingPath(loop.body, name, Run(loop, next));
          var c1 := ReadingPath(loop, name, next);
          LeadsThenReads(Run(loop.body, Run(loop, next)), name, c0, Run(loop, next), c1);
          c2 := c0 + c1;
        }
        StepThenReads(k, name, true, c2);
        choices := [true] + c2;
      }
  }

  /** A variable is live exactly when some continuation reads it before giving it a new value. */
  lemma LivenessIsExact(k: Control, name: string)
    ensures name in LiveAt(k) <==> MayRead(k, name)
  {
    if name in LiveAt(k) {
      var choices := LiveIsReadFirst(k, name);
    }
    if MayRead(k, name) {
      var choices :| ReadFirst(k, name, choices);
      ReadFirstIsLive(k, name, choices);
    }
  }

  // ── The plan fits the code ───────────────────────────────

  /** `plan` annotates every node of `c` as liveness demands, given what is live after it. */
  ghost predicate Annotated(plan: Plan, c: Code, after: Names)
    decreases c, 1
  {
    match c
    case Nop | Misread(_, _) => true
    case Rejected => false
    case Read(id, name) => plan.Moves(id) == (name !in after)
    case Define(id, name) => plan.DeadAfter(id) == (name !in after)
    case Seq(a, b) => Annotated(plan, a, Live(b, after)) && Annotated(plan, b, after)
    case Branch(id, left, yes, right, no) =>
      var decided := Live(yes, after) + Live(no, after);
      && right == Opposite(left)
      && plan.Drops(id, left) == decided - Live(yes, after)
      && plan.Drops(id, right) == decided - Live(no, after)
      && Annotated(plan, yes, after) && Annotated(plan, no, after)
    case Loop(_, _, _) => AnnotatedRound(plan, c, Live(c, after), after)
    case Inlined(_, _, _, _) => AnnotatedRound(plan, c, Live(c, after), after)
    case Return(result) => Annotated(plan, result, {})
    case Quit(status) => Annotated(plan, status, {})
  }

  /** The annotations one round of the loop `c` leaves, from the guess `header`. */
  ghost predicate AnnotatedRound(plan: Plan, c: Code, header: Names, after: Names)
    requires c.Loop? || c.Inlined?
    decreases c, 0
  {
    match c
    case Loop(id, cond, body) =>
      var decided := Live(body, header) + after;
      && plan.Drops(id, Body) == decided - Live(body, header)
      && plan.Drops(id, Exit) == decided - after
      && Annotated(plan, cond, decided) && Annotated(plan, body, header)
    case Inlined(id, params, bound, body) =>
      var inside := Live(body, header);
      var entry := inside - Set(params);
      && NoDuplicates(bound) && (forall p :: p in bound ==> p in params)
      && plan.Drops(id, Body) == (entry + after) - entry
      && plan.Drops(id, Exit) == (entry + after) - after
      && NoDuplicates(plan.DeadParams(id))
      && (forall p :: p in plan.DeadParams(id) <==> p in bound && p !in inside)
      && (forall p :: p in params && p in inside ==> p in bound)
      && Annotated(plan, body, header)
  }

  /** `k` is a state `plan` fits. */
  ghost predicate Fits(plan: Plan, k: Control) {
    match k
    case End | Leave | Quitting(_) | Over => true
    case Run(code, next) => Annotated(plan, code, LiveAt(next)) && Fits(plan, next)
    case Decide(loop, next) => loop.Loop? && Annotated(plan, loop, LiveAt(next)) && Fits(plan, next)
  }

  // ── Soundness ────────────────────────────────────────────

  lemma {:induction false} BindsAll(names: seq<string>, owned: Names)
    requires NoDuplicates(names) && Set(names) !! owned
    ensures BindEach(names, owned) == Some(owned + Set(names))
  {
    if names == [] {
      assert owned + Set(names) == owned;
    } else {
      assert names[0] in names;
      assert forall n :: n in names[1..] ==> n in names;
      BindsAll(names[1..], owned + {names[0]});
      assert owned + {names[0]} + Set(names[1..]) == owned + Set(names);
    }
  }

  lemma {:induction false} DropsAll(names: seq<string>, owned: Names)
    requires NoDuplicates(names) && Set(names) <= owned
    ensures DropEach(names, owned) == Some(owned - Set(names))
  {
    if names == [] {
      assert owned - Set(names) == owned;
    } else {
      assert names[0] in names;
      assert forall n :: n in names[1..] ==> n in names;
      DropsAll(names[1..], owned - {names[0]});
      assert owned - {names[0]} - Set(names[1..]) == owned - Set(names);
    }
  }

  /** Entering an inlined block binds its parameters to variables that own nothing, and leaves
      exactly what its body has live. */
  lemma EntersBlock(plan: Plan, c: Code, next: Control)
    requires c.Inlined? && Annotated(plan, c, LiveAt(next))
    ensures Transfer(plan, Run(c, next), Live(c, LiveAt(next)), true)
         == Some(Live(c.body, Live(c, LiveAt(next))))
  {
    var after := LiveAt(next);
    var header := Live(c, after);
    HeaderIsLeastFixedPoint(c, after);
    var inside := Live(c.body, header);
    var entry := inside - Set(c.params);
    assert header == entry + after;
    assert header - (header - entry) == entry;
    BindsAll(c.bound, entry);
    DropsAll(plan.DeadParams(c.id), entry + Set(c.bound));
    assert entry + Set(c.bound) - Set(plan.DeadParams(c.id)) == inside;
  }

  /** One step of a fitting plan from a state owning exactly what is live: no fault, and the
      next state owns exactly what is live there. */
  lemma StepOwnsLive(plan: Plan, k: Control, choice: bool)
    requires Fits(plan, k)
    ensures Step(plan, At(k, LiveAt(k)), choice) == At(Follow(k, choice), LiveAt(Follow(k, choice)))
    ensures Fits(plan, Follow(k, choice))
  {
    match k
    case End | Leave | Quitting(_) | Over =>
    case Decide(loop, next) =>
      var after := LiveAt(next);
      var inside := Live(loop.body, Live(loop, after));
      assert AnnotatedRound(plan, loop, Live(loop, after), after);
      assert LiveAt(Run(loop, next)) == Live(loop, after);
      assert Annotated(plan, loop.body, Live(loop, after));
      assert LiveAt(Run(loop.body, Run(loop, next))) == inside;
      assert (inside + after) - ((inside + after) - inside) == inside;
      assert (inside + after) - ((inside + after) - after) == after;
    case Run(code, next) =>
      var after := LiveAt(next);
      match code {
        case Nop | Rejected | Misread(_, _) =>
        case Read(_, name) =>
          assert name !in after ==> (after + {name}) - {name} == after;
          assert name in after ==> after + {name} == after;
        case Define(_, name) =>
          assert name in after ==> (after - {name}) + {name} == after;
        case Seq(a, b) =>
          assert LiveAt(Run(b, next)) == Live(b, after);
        case Branch(_, _, yes, _, no) =>
          var decided := Live(yes, after) + Live(no, after);
          assert decided - (decided - Live(yes, after)) == Live(yes, after);
          assert decided - (decided - Live(no, after)) == Live(no, after);
        case Loop(_, cond, body) =>
          HeaderIsLeastFixedPoint(code, after);
          assert AnnotatedRound(plan, code, Live(code, after), after);
          var decided := Live(body, Live(code, after)) + after;
          assert LiveAt(Decide(code, next)) == decided;
          assert Annotated(plan, cond, decided);
        case Inlined(_, _, _, body) =>
          var header := Live(code, after);
          HeaderIsLeastFixedPoint(code, after);
          EntersBlock(plan, code, next);
          assert AnnotatedRound(plan, code, header, after);
          assert LiveAt(Run(code, next)) == header;
          assert header - (header - after) == after;
        case Return(_) =>
          assert LiveAt(Leave) == {};
        case Quit(_) =>
          assert LiveAt(Quitting(next)) == {};
      }
  }

  /** The references are right at `s`, `k` being what may happen next: nothing faulted, the
      variables owning a reference are those with a continuation of `k` that reads them before giving
      them a new value, and once the function is left nothing is owned. */
  ghost predicate Balanced(s: State, k: Control) {
    && s.At?
    && (forall name :: name in s.owned <==> MayRead(k, name))
    && (s.control.Ended() ==> s.owned == {})
  }

  /** Along every run of a fitting plan the references are right. */
  lemma {:induction false} OwnedIsLive(plan: Plan, k: Control, choices: seq<bool>)
    requires Fits(plan, k)
    ensures var s := Execute(plan, At(k, LiveAt(k)), choices); s.At? && Balanced(s, s.control)
    decreases |choices|
  {
    if choices == [] {
      forall name ensures name in LiveAt(k) <==> MayRead(k, name) {
        LivenessIsExact(k, name);
      }
    } else {
      StepOwnsLive(plan, k, choices[0]);
      OwnedIsLive(plan, Follow(k, choices[0]), choices[1..]);
    }
  }

  // ── Entering a function ──────────────────────────────────

  function NamesOf(params: seq<Param>): (r: seq<string>)
    ensures |r| == |params| && forall i :: 0 <= i < |r| ==> r[i] == params[i].name
  {
    seq(|params|, i requires 0 <= i < |params| => params[i].name)
  }

  /** The object variables among `params` that `live` does not contain. */
  function Unread(params: seq<string>, heap: Names, live: Names): (r: seq<string>)
    ensures forall n :: n in r <==> n in params && n in heap && n !in live
  {
    if params == [] then []
    else (if params[0] in heap && params[0] !in live then [params[0]] else [])
         + Unread(params[1..], heap, live)
  }

  lemma {:induction false} UnreadHasNoDuplicates(params: seq<string>, heap: Names, live: Names)
    requires NoDuplicates(Objects(params, heap))
    ensures NoDuplicates(Unread(params, heap, live))
  {
    if params != [] {
      var rest := Objects(params[1..], heap);
      var all := Objects(params, heap);
      assert all == (if params[0] in heap then [params[0]] else []) + rest;
      var skip := |all| - |rest|;
      assert forall i :: 0 <= i < |rest| ==> rest[i] == all[i + skip];
      assert params[0] in heap ==> all[0] == params[0] && params[0] !in rest;
      UnreadHasNoDuplicates(params[1..], heap, live);
    }
  }

  /** `plan` fits a function whose body is `code`. */
  ghost predicate PlanFor(plan: Plan, params: seq<Param>, heap: Names, code: Code) {
    && Annotated(plan, code, {})
    && plan.entry == Unread(NamesOf(params), heap, Live(code, {}))
  }

  /** A variable is an object if the last parameter of its name is one. */
  ghost predicate Declared(params: seq<Param>, heap: Names) {
    params == []
    || ((params[0].name !in NamesOf(params[1..]) ==> (params[0].isObject <==> params[0].name in heap))
        && Declared(params[1..], heap))
  }

  /** No object parameter has a later one of the same name, which takes its place. */
  predicate NoneReplaced(params: seq<Param>) {
    params == []
    || ((params[0].isObject ==> params[0].name !in NamesOf(params[1..])) && NoneReplaced(params[1..]))
  }

  /** No object variable that `live` does not contain is the name of two parameters. */
  predicate UnreadOnce(params: seq<Param>, heap: Names, live: Names) {
    params == []
    || ((params[0].name in heap && params[0].name !in live ==> params[0].name !in NamesOf(params[1..]))
        && UnreadOnce(params[1..], heap, live))
  }

  function ObjectsOf(params: seq<Param>): Names { set p | p in params && p.isObject :: p.name }

  lemma {:induction false} Receives(params: seq<Param>, owned: Names)
    ensures Receive(params, owned).Some? <==>
      NoneReplaced(params) && forall p :: p in params ==> p.name !in owned
    ensures Receive(params, owned).Some? ==> Receive(params, owned).value == owned + ObjectsOf(params)
  {
    if params == [] {
      assert owned + ObjectsOf(params) == owned;
    } else {
      var p, rest := params[0], params[1..];
      var more := if p.isObject then owned + {p.name} else owned;
      Receives(rest, more);
      assert params == [p] + rest;
      assert more + ObjectsOf(rest) == owned + ObjectsOf(params);
      assert p.name in NamesOf(rest) <==> exists q :: q in rest && q.name == p.name;
    }
  }

  lemma Consed(n: string, rest: seq<string>)
    ensures NoDuplicates([n] + rest) <==> n !in rest && NoDuplicates(rest)
  {
    var all := [n] + rest;
    assert forall i :: 0 <= i < |rest| ==> rest[i] == all[i + 1];
    if n in rest {
      var i :| 0 <= i < |rest| && rest[i] == n;
      assert all[0] == all[i + 1];
      assert !NoDuplicates(all);
    }
  }

  lemma {:induction false} DropsEach(names: seq<string>, owned: Names)
    ensures DropEach(names, owned).Some? <==> NoDuplicates(names) && Set(names) <= owned
    ensures DropEach(names, owned).Some? ==> DropEach(names, owned).value == owned - Set(names)
  {
    if names == [] {
      assert owned - Set(names) == owned;
    } else {
      var n, rest := names[0], names[1..];
      assert names == [n] + rest;
      Consed(n, rest);
      DropsEach(rest, owned - {n});
      assert Set(names) == {n} + Set(rest);
      assert owned - {n} - Set(rest) == owned - Set(names);
    }
  }

  lemma {:induction false} UnreadDuplicates(params: seq<Param>, heap: Names, live: Names)
    ensures NoDuplicates(Unread(NamesOf(params), heap, live)) <==> UnreadOnce(params, heap, live)
  {
    if params != [] {
      var n, rest := params[0].name, params[1..];
      assert NamesOf(params)[1..] == NamesOf(rest);
      UnreadDuplicates(rest, heap, live);
      Consed(n, Unread(NamesOf(rest), heap, live));
      assert [] + Unread(NamesOf(rest), heap, live) == Unread(NamesOf(rest), heap, live);
    }
  }

  lemma {:induction false} ObjectParametersOwn(params: seq<Param>, heap: Names)
    requires Declared(params, heap) && NoneReplaced(params)
    ensures forall n :: n in ObjectsOf(params) <==> n in NamesOf(params) && n in heap
  {
    if params != [] {
      var p, rest := params[0], params[1..];
      assert params == [p] + rest && NamesOf(params) == [p.name] + NamesOf(rest);
      assert Declared(rest, heap);
      ObjectParametersOwn(rest, heap);
      assert ObjectsOf(params) == (if p.isObject then {p.name} else {}) + ObjectsOf(rest);
    }
  }

  /** At the entry only parameters are live, and no two of one name get in the way of each other. */
  predicate EntryFits(params: seq<Param>, heap: Names, live: Names) {
    NoneReplaced(params) && UnreadOnce(params, heap, live) && live <= Set(NamesOf(params))
  }

  /** Parameters of distinct names never get in the way of each other. */
  lemma {:induction false} DistinctNamesFit(params: seq<Param>, heap: Names, live: Names)
    requires NoDuplicates(NamesOf(params))
    ensures NoneReplaced(params) && UnreadOnce(params, heap, live)
  {
    if params != [] {
      assert NamesOf(params) == [params[0].name] + NamesOf(params[1..]);
      Consed(params[0].name, NamesOf(params[1..]));
      DistinctNamesFit(params[1..], heap, live);
    }
  }

  lemma LeftAtEntry(params: seq<Param>, heap: Names, live: Names)
    requires Declared(params, heap) && NoneReplaced(params) && live <= heap
    ensures var dead := Set(Unread(NamesOf(params), heap, live));
      dead <= ObjectsOf(params) && ObjectsOf(params) - dead == live * Set(NamesOf(params))
  {
    ObjectParametersOwn(params, heap);
  }

  /** At the entry of a function exactly the live variables own a reference if and only if the
      parameters fit them; otherwise, unless a parameter is lost, those that are parameters do. */
  lemma EntersLive(plan: Plan, params: seq<Param>, heap: Names, live: Names, code: Code)
    requires Declared(params, heap) && live <= heap && plan.entry == Unread(NamesOf(params), heap, live)
    ensures Enter(plan, params, code) == At(Run(code, End), live) <==> EntryFits(params, heap, live)
    ensures Enter(plan, params, code).At? ==>
      Enter(plan, params, code) == At(Run(code, End), live * Set(NamesOf(params)))
  {
    hide ObjectsOf, Declared, NoneReplaced, UnreadOnce, Unread, NamesOf, NoDuplicates, DropEach, Receive;
    Receives(params, {});
    if NoneReplaced(params) {
      LeftAtEntry(params, heap, live);
      DropsEach(plan.entry, {} + ObjectsOf(params));
      assert {} + ObjectsOf(params) == ObjectsOf(params);
      UnreadDuplicates(params, heap, live);
      var names := Set(NamesOf(params));
      assert live <= names <==> live * names == live;
    }
  }

  // ── Whole functions ──────────────────────────────────────

  ghost predicate SoundRun(plan: Plan, params: seq<Param>, code: Code, choices: seq<bool>) {
    var s := Execute(plan, Enter(plan, params, code), choices); s.At? && Balanced(s, s.control)
  }

  ghost predicate AlwaysSound(plan: Plan, params: seq<Param>, code: Code) {
    forall choices :: SoundRun(plan, params, code, choices)
  }

  /** Under a plan that fits it, every run of a function is sound, whatever its branches and loops
      decide, if and only if its parameters fit what is live at its entry. */
  lemma PlanIsSound(plan: Plan, params: seq<Param>, heap: Names, code: Code)
    requires Declared(params, heap) && PlanFor(plan, params, heap, code) && Live(code, {}) <= heap
    ensures AlwaysSound(plan, params, code) <==> EntryFits(params, heap, Live(code, {}))
  {
    var live := Live(code, {});
    var k := Run(code, End);
    assert LiveAt(k) == live;
    EntersLive(plan, params, heap, live, code);
    if EntryFits(params, heap, live) {
      forall choices ensures SoundRun(plan, params, code, choices) {
        OwnedIsLive(plan, k, choices);
      }
    }
    if AlwaysSound(plan, params, code) {
      assert SoundRun(plan, params, code, []);
      var entered := Enter(plan, params, code);
      assert Execute(plan, entered, []) == entered;
      forall name ensures name in live <==> name in entered.owned {
        LivenessIsExact(k, name);
      }
      assert entered.owned == live;
    }
  }
}
