/** Running a body under the plan of what the analysis sees of it: control does not go on after
    `exit`, as the analysis holds it does, and inference relies on that. */
module Detours {
  import opened Wrappers
  import opened Syntax
  import opened ControlFlow
  import opened Ownership
  import opened Assignment

  /** What is left to run, as the analysis sees it: what an `exit` skips is still to come. */
  function AsSeen(k: Control): Control {
    match k
    case End | Over => End
    case Leave => Leave
    case Run(code, next) => Run(Seen(code), AsSeen(next))
    case Decide(loop, next) => Decide(Seen(loop), AsSeen(next))
    case Quitting(skipped) => AsSeen(skipped)
  }

  /** As `SoundRun`, with the continuations the analysis sees: an object that is still read after an
      `exit` is held up to it, and released there. */
  ghost predicate SoundAsSeen(plan: Plan, params: seq<Param>, code: Code, choices: seq<bool>) {
    var s := Execute(plan, Enter(plan, params, code), choices); s.At? && Balanced(s, AsSeen(s.control))
  }

  ghost predicate AlwaysSoundAsSeen(plan: Plan, params: seq<Param>, code: Code) {
    forall choices :: SoundAsSeen(plan, params, code, choices)
  }

  /** `code` along `choices` reads, drops or overwrites without the reference it takes for granted. */
  ghost predicate Faults(plan: Plan, params: seq<Param>, code: Code, choices: seq<bool>) {
    Execute(plan, Enter(plan, params, code), choices) == Fault
  }

  ghost predicate SometimesFaults(plan: Plan, params: seq<Param>, code: Code) {
    exists choices :: Faults(plan, params, code, choices)
  }

  // ── Sound when only parameters are live at the entry ─────

  predicate NoMisread(c: Code) {
    match c
    case Nop | Rejected | Read(_, _) | Define(_, _) => true
    case Misread(_, _) => false
    case Seq(a, b) => NoMisread(a) && NoMisread(b)
    case Branch(_, _, yes, _, no) => NoMisread(yes) && NoMisread(no)
    case Loop(_, cond, body) => NoMisread(cond) && NoMisread(body)
    case Inlined(_, _, _, body) => NoMisread(body)
    case Return(result) => NoMisread(result)
    case Quit(status) => NoMisread(status)
  }

  predicate NoMisreads(k: Control) {
    match k
    case End | Leave | Over => true
    case Run(code, next) => NoMisread(code) && NoMisreads(next)
    case Decide(loop, next) => loop.Loop? && NoMisread(loop) && NoMisreads(next)
    case Quitting(skipped) => NoMisreads(skipped)
  }

  /** What runs and what the analysis sees go in step, except at an `exit`. */
  lemma SameStep(plan: Plan, k: Control, owned: Names, choice: bool)
    requires NoMisreads(k) && !k.Quitting? && !k.Over? && !(k.Run? && k.code.Quit?)
    ensures Transfer(plan, k, owned, choice) == Transfer(plan, AsSeen(k), owned, choice)
    ensures AsSeen(Follow(k, choice)) == Follow(AsSeen(k), choice)
    ensures NoMisreads(Follow(k, choice))
  {
    if k.Run? {
      match k.code
      case Seq(a, b) => assert AsSeen(Run(b, k.next)) == Run(Seen(b), AsSeen(k.next));
      case Loop(_, cond, _) => assert AsSeen(Decide(k.code, k.next)) == Decide(Seen(k.code), AsSeen(k.next));
      case Inlined(_, _, _, _) => assert AsSeen(Run(k.code, k.next)) == Run(Seen(k.code), AsSeen(k.next));
      case _ =>
    } else if k.Decide? {
      assert AsSeen(Run(k.loop, k.next)) == Run(Seen(k.loop), AsSeen(k.next));
    }
  }

  /** One step from a state owning exactly what the analysis holds live: no fault, and the next state
      does too. Reaching an `exit` and evaluating its code is no step of what the analysis sees. */
  lemma StepAsSeen(plan: Plan, k: Control, choice: bool)
    requires Fits(plan, AsSeen(k)) && NoMisreads(k)
    ensures Step(plan, At(k, LiveAt(AsSeen(k))), choice)
         == At(Follow(k, choice), LiveAt(AsSeen(Follow(k, choice))))
    ensures Fits(plan, AsSeen(Follow(k, choice))) && NoMisreads(Follow(k, choice))
  {
    if !k.Quitting? && !k.Over? && !(k.Run? && k.code.Quit?) {
      hide Transfer, Follow;
      StepOwnsLive(plan, AsSeen(k), choice);
      SameStep(plan, k, LiveAt(AsSeen(k)), choice);
    }
  }

  lemma {:induction false} OwnedIsSeenLive(plan: Plan, k: Control, choices: seq<bool>)
    requires Fits(plan, AsSeen(k)) && NoMisreads(k)
    ensures var s := Execute(plan, At(k, LiveAt(AsSeen(k))), choices); s.At? && Balanced(s, AsSeen(s.control))
    decreases |choices|
  {
    if choices == [] {
      forall name ensures name in LiveAt(AsSeen(k)) <==> MayRead(AsSeen(k), name) {
        LivenessIsExact(AsSeen(k), name);
      }
    } else {
      StepAsSeen(plan, k, choices[0]);
      OwnedIsSeenLive(plan, Follow(k, choices[0]), choices[1..]);
    }
  }

  // ── Otherwise some run faults ────────────────────────────

  lemma {:induction false} ExecuteOn(plan: Plan, s: State, c1: seq<bool>, c2: seq<bool>)
    ensures Execute(plan, s, c1 + c2) == Execute(plan, Execute(plan, s, c1), c2)
    decreases |c1|
  {
    if c1 == [] {
      assert c1 + c2 == c2;
    } else {
      ExecuteOn(plan, Step(plan, s, c1[0]), c1[1..], c2);
      assert (c1 + c2)[1..] == c1[1..] + c2;
    }
  }

  /** At `k` the analysis holds `name` live, but it owns nothing. */
  predicate Lacks(s: State, k: Control, name: string) {
    s.At? && s.control == k && name !in s.owned && name in LiveAt(AsSeen(k))
  }

  /** `choices` take `s` to `k`, where `name` is still lacking, unless they fault. */
  predicate Goes(plan: Plan, s: State, choices: seq<bool>, k: Control, name: string) {
    var left := Execute(plan, s, choices); left.Fault? || Lacks(left, k, name)
  }

  lemma FirstStep(plan: Plan, s: State, choice: bool, choices: seq<bool>, k: Control, name: string)
    requires Goes(plan, Step(plan, s, choice), choices, k, name)
    ensures Goes(plan, s, [choice] + choices, k, name)
  {
    assert ([choice] + choices)[1..] == choices;
  }

  /** Taking a side of a branch, a variable not live on it is dropped. */
  lemma TakesSide(plan: Plan, code: Code, next: Control, owned: Names, name: string, choice: bool)
    requires code.Branch? && Annotated(plan, Seen(code), LiveAt(AsSeen(next)))
    requires Lacks(At(Run(code, next), owned), Run(code, next), name)
    ensures var left := Step(plan, At(Run(code, next), owned), choice);
      left.Fault? || Lacks(left, Run(if choice then code.yes else code.no, next), name)
  {
    var after := LiveAt(AsSeen(next));
    assert name in Live(Seen(code.yes), after) + Live(Seen(code.no), after);
  }

  /** Likewise leaving a loop, or an inlined block. */
  lemma LeavesLoop(plan: Plan, k: Control, owned: Names, name: string)
    requires (k.Decide? && k.loop.Loop?) || (k.Run? && k.code.Inlined?)
    requires Fits(plan, AsSeen(k)) && Lacks(At(k, owned), k, name)
    ensures var left := Step(plan, At(k, owned), false); left.Fault? || Lacks(left, k.next, name)
  {
    var after := LiveAt(AsSeen(k.next));
    var c := if k.Decide? then Seen(k.loop) else Seen(k.code);
    HeaderIsLeastFixedPoint(c, after);
    assert AnnotatedRound(plan, c, Live(c, after), after);
  }

  /** The condition of a loop: where it is entered, and where it is decided. */
  lemma EntersLoop(plan: Plan, code: Code, next: Control, owned: Names, name: string)
    requires code.Loop? && Annotated(plan, Seen(code), LiveAt(AsSeen(next)))
    requires Lacks(At(Run(code, next), owned), Run(code, next), name)
    ensures var k := Run(code.cond, Decide(code, next));
      Step(plan, At(Run(code, next), owned), false) == At(k, owned) && Lacks(At(k, owned), k, name)
    ensures Annotated(plan, Seen(code.cond), LiveAt(AsSeen(Decide(code, next))))
  {
    var c, after := Seen(code), LiveAt(AsSeen(next));
    HeaderIsLeastFixedPoint(c, after);
    assert AsSeen(Decide(code, next)) == Decide(c, AsSeen(next));
    assert LiveAt(Decide(c, AsSeen(next))) == Live(c.body, Live(c, after)) + after;
    assert AnnotatedRound(plan, c, Live(c, after), after);
  }

  /** A way through `code` on which control goes on past it: `name` is lacking after it, or a step
      faults. */
  lemma {:induction false} WalkPast(plan: Plan, code: Code, next: Control, owned: Names, name: string)
    returns (choices: seq<bool>)
    requires Tidy(code) && NoMisread(code) && !Never(code) && Fits(plan, AsSeen(Run(code, next)))
    requires Lacks(At(Run(code, next), owned), Run(code, next), name)
    ensures Goes(plan, At(Run(code, next), owned), choices, next, name)
    decreases code
  {
    var s := At(Run(code, next), owned);
    choices := [false];
    assert Execute(plan, s, [false]) == Step(plan, s, false);
    match code
    case Nop | Rejected | Read(_, _) | Define(_, _) =>
    case Seq(a, b) =>
      var c1 := WalkBoth(plan, a, b, next, owned, name);
      FirstStep(plan, s, false, c1, next, name);
      choices := [false] + c1;
    case Branch(_, _, yes, _, no) =>
      var choice := !Never(yes);
      TakesSide(plan, code, next, owned, name, choice);
      choices := [choice];
      assert Execute(plan, s, [choice]) == Step(plan, s, choice);
      var taken := Step(plan, s, choice);
      if taken.At? {
        var c1 := WalkPast(plan, if choice then yes else no, next, taken.owned, name);
        FirstStep(plan, s, choice, c1, next, name);
        choices := [choice] + c1;
      }
    case Loop(_, cond, _) =>
      EntersLoop(plan, code, next, owned, name);
      var d := Decide(code, next);
      var c1 := WalkPast(plan, cond, d, owned, name);
      var decided := Execute(plan, At(Run(cond, d), owned), c1);
      if decided.At? {
        LeavesLoop(plan, d, decided.owned, name);
        assert Execute(plan, decided, [false]) == Step(plan, decided, false);
        ExecuteOn(plan, At(Run(cond, d), owned), c1, [false]);
        c1 := c1 + [false];
      }
      FirstStep(plan, s, false, c1, next, name);
      choices := [false] + c1;
    case Inlined(_, _, _, _) =>
      LeavesLoop(plan, Run(code, next), owned, name);
  }

  lemma {:induction false} WalkBoth(plan: Plan, a: Code, b: Code, next: Control, owned: Names, name: string)
    returns (choices: seq<bool>)
    requires Tidy(a) && NoMisread(a) && !Never(a) && Tidy(b) && NoMisread(b) && !Never(b)
    requires Fits(plan, AsSeen(Run(a, Run(b, next)))) && Lacks(At(Run(a, Run(b, next)), owned), Run(a, Run(b, next)), name)
    ensures Goes(plan, At(Run(a, Run(b, next)), owned), choices, next, name)
    decreases Seq(a, b), 0
  {
    var s := At(Run(a, Run(b, next)), owned);
    choices := WalkPast(plan, a, Run(b, next), owned, name);
    var between := Execute(plan, s, choices);
    if between.At? {
      var c2 := WalkPast(plan, b, next, between.owned, name);
      ExecuteOn(plan, s, choices, c2);
      choices := choices + c2;
    }
  }

  /** Where control never goes past `code`, and `name` is not live after it: a step faults on the way
      to its end. */
  lemma {:induction false} WalkToEnd(plan: Plan, code: Code, next: Control, owned: Names, name: string)
    returns (choices: seq<bool>)
    requires Tidy(code) && NoMisread(code) && Never(code) && Fits(plan, AsSeen(Run(code, next)))
    requires Lacks(At(Run(code, next), owned), Run(code, next), name) && name !in LiveAt(AsSeen(next))
    ensures Execute(plan, At(Run(code, next), owned), choices) == Fault
    decreases code, 0
  {
    var s := At(Run(code, next), owned);
    match code
    case Seq(a, b) =>
      var c1;
      if Never(a) {
        c1 := WalkToEnd(plan, a, Run(b, next), owned, name);
      } else {
        c1 := WalkPast(plan, a, Run(b, next), owned, name);
        var between := Execute(plan, At(Run(a, Run(b, next)), owned), c1);
        if between.At? {
          var c2 := WalkToEnd(plan, b, next, between.owned, name);
          ExecuteOn(plan, At(Run(a, Run(b, next)), owned), c1, c2);
          c1 := c1 + c2;
        }
      }
      choices := [false] + c1;
      assert choices[1..] == c1;
    case Branch(_, _, yes, _, no) =>
      TakesSide(plan, code, next, owned, name, true);
      choices := [true];
      assert Execute(plan, s, [true]) == Step(plan, s, true);
      var taken := Step(plan, s, true);
      if taken.At? {
        var c1 := WalkToEnd(plan, yes, next, taken.owned, name);
        choices := [true] + c1;
        assert choices[1..] == c1;
      }
    case Return(result) =>
      var c1 := WalkOut(plan, result, Leave, owned, name);
      choices := [false] + c1;
      assert choices[1..] == c1;
    case Quit(status) =>
      var c1 := WalkOut(plan, status, Quitting(next), owned, name);
      choices := [false] + c1;
      assert choices[1..] == c1;
  }

  lemma {:induction false} WalkOut(plan: Plan, code: Code, next: Control, owned: Names, name: string)
    returns (choices: seq<bool>)
    requires Tidy(code) && NoMisread(code) && Fits(plan, AsSeen(Run(code, next)))
    requires Lacks(At(Run(code, next), owned), Run(code, next), name) && name !in LiveAt(AsSeen(next))
    ensures Execute(plan, At(Run(code, next), owned), choices) == Fault
    decreases code, 1
  {
    if Never(code) {
      choices := WalkToEnd(plan, code, next, owned, name);
    } else {
      choices := WalkPast(plan, code, next, owned, name);
    }
  }

  // ── When a plan is sound ─────────────────────────────────

  lemma {:induction false} SomeMisread(c: Code) returns (name: string)
    requires !NoMisread(c)
    ensures Misreads(c, name)
  {
    match c
    case Misread(_, n) => name := n;
    case Seq(a, b) => name := SomeMisread(if NoMisread(a) then b else a);
    case Branch(_, _, yes, _, no) => name := SomeMisread(if NoMisread(yes) then no else yes);
    case Loop(_, cond, body) => name := SomeMisread(if NoMisread(cond) then body else cond);
    case Inlined(_, _, _, body) => name := SomeMisread(body);
    case Return(result) => name := SomeMisread(result);
    case Quit(status) => name := SomeMisread(status);
  }

  /** What inference checks of the flow of a function with these parameters. */
  ghost predicate Checked(params: seq<Param>, heap: Names, code: Code, skips: bool) {
    var names := Set(NamesOf(params));
    Declared(params, heap) && Tidy(code) && Assigned(code, Scope(names, names), skips).Some?
  }

  /** If only parameters are seen live at the entry, no builtin is taken for an object variable. */
  lemma FittingHasNoMisread(params: seq<Param>, heap: Names, code: Code)
    requires Checked(params, heap, code, false) && EntryFits(params, heap, Live(Seen(code), {}))
    ensures NoMisread(code)
  {
    if !NoMisread(code) {
      var name := SomeMisread(code);
      var names := Set(NamesOf(params));
      MisreadIsSeenRead(code, Scope(names, names), name);
      TransferForm(Seen(code), {}, name);
    }
  }

  /** A function inference lets through runs soundly under a plan that fits what the analysis sees of
      it if and only if its parameters fit what is seen live at its entry; otherwise some run faults,
      unless a builtin was taken for a variable. */
  lemma SoundIffOnlyParametersLive(plan: Plan, params: seq<Param>, heap: Names, code: Code)
    requires Checked(params, heap, code, false)
    requires PlanFor(plan, params, heap, Seen(code)) && Live(Seen(code), {}) <= heap
    ensures AlwaysSoundAsSeen(plan, params, code) <==> EntryFits(params, heap, Live(Seen(code), {}))
    ensures NoMisread(code) && !EntryFits(params, heap, Live(Seen(code), {})) ==>
      SometimesFaults(plan, params, code)
  {
    var live, k := Live(Seen(code), {}), Run(code, End);
    assert AsSeen(k) == Run(Seen(code), End) && LiveAt(AsSeen(k)) == live;
    EntersLive(plan, params, heap, live, code);
    if EntryFits(params, heap, live) {
      FittingHasNoMisread(params, heap, code);
      forall choices ensures SoundAsSeen(plan, params, code, choices) {
        OwnedIsSeenLive(plan, k, choices);
      }
    } else {
      NotSoundAtOnce(plan, params, heap, code);
      if NoMisread(code) {
        var choices := SomeFault(plan, params, heap, code);
        assert Faults(plan, params, code, choices);
      }
    }
  }

  lemma NotSoundAtOnce(plan: Plan, params: seq<Param>, heap: Names, code: Code)
    requires Declared(params, heap) && PlanFor(plan, params, heap, Seen(code)) && Live(Seen(code), {}) <= heap
    requires !EntryFits(params, heap, Live(Seen(code), {}))
    ensures !SoundAsSeen(plan, params, code, [])
  {
    var live, k := Live(Seen(code), {}), Run(code, End);
    assert AsSeen(k) == Run(Seen(code), End) && LiveAt(AsSeen(k)) == live;
    EntersLive(plan, params, heap, live, code);
    var entered := Enter(plan, params, code);
    assert Execute(plan, entered, []) == entered;
    if entered.At? {
      var name :| name in live && name !in entered.owned;
      LivenessIsExact(AsSeen(k), name);
    }
  }

  lemma SomeFault(plan: Plan, params: seq<Param>, heap: Names, code: Code) returns (choices: seq<bool>)
    requires Declared(params, heap) && PlanFor(plan, params, heap, Seen(code)) && Live(Seen(code), {}) <= heap
    requires Tidy(code) && NoMisread(code) && !EntryFits(params, heap, Live(Seen(code), {}))
    ensures Faults(plan, params, code, choices)
  {
    var live, k := Live(Seen(code), {}), Run(code, End);
    assert AsSeen(k) == Run(Seen(code), End) && LiveAt(AsSeen(k)) == live;
    EntersLive(plan, params, heap, live, code);
    var entered := Enter(plan, params, code);
    choices := [];
    if entered.At? {
      var name :| name in live && name !in Set(NamesOf(params));
      choices := WalkOut(plan, code, End, entered.owned, name);
    }
  }
}
