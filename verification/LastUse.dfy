/** What a plan says of the evaluation of a body, whatever its branches and loops decide: a read moves
    exactly when it is the last use, and so on. */
module LastUse {
  import opened Wrappers
  import opened Syntax
  import opened ControlFlow
  import opened Ownership
  import opened Evaluation

  // ── Running and evaluating ───────────────────────────────

  predicate Decides(k: Control) { k.Decide? || (k.Run? && (k.code.Branch? || k.code.Inlined?)) }

  predicate Stopped(k: Control) { k.End? || k.Leave? || k.Quitting? || k.Over? }

  /** What the next step of `k` does. */
  function EventOf(k: Control, choice: bool): seq<Event> {
    match k
    case Decide(loop, _) => if loop.Loop? then [Took(loop.id, if choice then Body else Exit, [])] else []
    case Run(code, _) =>
      (match code
       case Read(id, name) => [Used(id, name)]
       case Define(id, name) => [Given(id, name)]
       case Branch(id, left, _, right, _) => [Took(id, if choice then left else right, [])]
       case Inlined(id, params, _, _) => if choice then [Took(id, Body, params)] else [Took(id, Exit, [])]
       case _ => [])
    case _ => []
  }

  /** What is left to run, evaluated. */
  function Rest(k: Control, s: Trace): (r: Trace)
    ensures s.done <= r.done
  {
    match k
    case End | Leave | Over | Quitting(_) => s
    case Run(code, next) =>
      (match EvalCode(code, s) case On(s1) => Rest(next, s1) case Left(s1) => s1 case Pending(s1) => s1)
    case Decide(loop, next) =>
      if !loop.Loop? || s.ahead == [] then s
      else if !s.ahead[0] then Rest(next, s.Turn(loop.id, Exit, []))
      else match EvalCode(loop.body, s.Turn(loop.id, Body, []))
        case On(s1) => (match EvalCode(loop, s1) case On(s2) => Rest(next, s2) case Left(s2) => s2 case Pending(s2) => s2)
        case Left(s1) => s1
        case Pending(s1) => s1
  }

  predicate WellMade(k: Control) {
    match k
    case Run(_, next) => WellMade(next)
    case Decide(loop, next) => loop.Loop? && WellMade(next)
    case Quitting(skipped) => WellMade(skipped)
    case _ => true
  }

  function Advanced(k: Control, choice: bool, s: Trace): Trace
    requires Decides(k) ==> s.ahead != []
  {
    Trace(s.done + EventOf(k, choice), if Decides(k) then s.ahead[1..] else s.ahead)
  }

  /** A step does not change what the evaluation of what is left comes to. */
  lemma OneStep(k: Control, choice: bool, s: Trace)
    requires WellMade(k) && !Stopped(k) && (Decides(k) ==> s.ahead != [] && s.ahead[0] == choice)
    ensures WellMade(Follow(k, choice)) && Rest(k, s) == Rest(Follow(k, choice), Advanced(k, choice, s))
  {
    assert s.done + [] == s.done;
    if k.Run? {
      match k.code
      case Seq(a, b) =>
        assert EvalCode(a, s).On? ==> Rest(Run(b, k.next), EvalCode(a, s).at) == Rest(k, s);
      case Loop(_, cond, _) =>
        var d := Decide(k.code, k.next);
        assert EvalCode(cond, s).On? ==> Rest(d, EvalCode(cond, s).at) == Rest(k, s);
      case Inlined(_, _, _, body) =>
        var again := Run(k.code, k.next);
        if choice && EvalCode(body, Advanced(k, choice, s)).On? {
          assert Rest(again, EvalCode(body, Advanced(k, choice, s)).at) == Rest(k, s);
        }
      case _ =>
    } else {
      var again := Run(k.loop, k.next);
      if choice && EvalCode(k.loop.body, Advanced(k, choice, s)).On? {
        assert Rest(again, EvalCode(k.loop.body, Advanced(k, choice, s)).at) == Rest(k, s);
      }
    }
  }

  /** What is left after some steps, what they did, and the decisions they took. */
  function After(k: Control, path: seq<bool>): Control
    decreases |path|
  {
    if path == [] then k else After(Follow(k, path[0]), path[1..])
  }

  function Events(k: Control, path: seq<bool>): seq<Event>
    decreases |path|
  {
    if path == [] then [] else EventOf(k, path[0]) + Events(Follow(k, path[0]), path[1..])
  }

  function Decisions(k: Control, path: seq<bool>): seq<bool>
    decreases |path|
  {
    if path == [] then [] else (if Decides(k) then [path[0]] else []) + Decisions(Follow(k, path[0]), path[1..])
  }

  predicate Goes(k: Control, path: seq<bool>)
    decreases |path|
  {
    path == [] || (!Stopped(k) && Goes(Follow(k, path[0]), path[1..]))
  }

  /** Some steps, seen by the evaluation: it does the same things by the same decisions. */
  lemma {:induction false} Steps(k: Control, path: seq<bool>, done: seq<Event>, more: seq<bool>)
    requires WellMade(k) && Goes(k, path)
    ensures Rest(k, Trace(done, Decisions(k, path) + more)) == Rest(After(k, path), Trace(done + Events(k, path), more))
    ensures WellMade(After(k, path))
    decreases |path|
  {
    hide Follow, EventOf, Rest, WellMade;
    if path == [] {
      assert [] + more == more && done + [] == done;
    } else {
      var choice, next := path[0], Follow(k, path[0]);
      var event, later := EventOf(k, choice), Events(next, path[1..]);
      Joined(if Decides(k) then [choice] else [], Decisions(next, path[1..]), more);
      Joined(done, event, later);
      var s := Trace(done, Decisions(k, path) + more);
      Advances(k, choice, s, Decisions(next, path[1..]) + more);
      OneStep(k, choice, s);
      Steps(next, path[1..], done + event, more);
    }
  }

  lemma Joined<T>(a: seq<T>, b: seq<T>, c: seq<T>)
    ensures (a + b) + c == a + (b + c)
  {}

  lemma Advances(k: Control, choice: bool, s: Trace, more: seq<bool>)
    requires s.ahead == (if Decides(k) then [choice] else []) + more
    ensures Decides(k) ==> s.ahead != [] && s.ahead[0] == choice
    ensures Advanced(k, choice, s) == Trace(s.done + EventOf(k, choice), more)
  {}

  lemma {:induction false} StepsFit(plan: Plan, k: Control, path: seq<bool>)
    requires Fits(plan, k)
    ensures Fits(plan, After(k, path))
    decreases |path|
  {
    if path != [] {
      StepOwnsLive(plan, k, path[0]);
      StepsFit(plan, Follow(k, path[0]), path[1..]);
    }
  }

  // ── Steps towards an event ───────────────────────────────

  function Weight(c: Code): nat {
    match c
    case Seq(a, b) => 1 + Weight(a) + Weight(b)
    case Branch(_, _, yes, _, no) => 1 + Weight(yes) + Weight(no)
    case Loop(_, cond, body) => 2 + Weight(cond) + Weight(body)
    case Inlined(_, _, _, body) => 1 + Weight(body)
    case Return(result) => 1 + Weight(result)
    case Quit(status) => 1 + Weight(status)
    case _ => 1
  }

  function Size(k: Control): nat {
    match k
    case Run(code, next) => Weight(code) + Size(next)
    case Decide(_, next) => 1 + Size(next)
    case _ => 0
  }

  /** Event `i` of what is left: the steps before it, and the decision it takes. */
  lemma {:induction false} Reaches(k: Control, s: Trace, i: nat) returns (path: seq<bool>, choice: bool)
    requires WellMade(k) && |s.done| <= i < |Rest(k, s).done|
    ensures Goes(k, path) && Decisions(k, path) <= s.ahead
    ensures var k', r := After(k, path), Rest(k, s); var ahead := s.ahead[|Decisions(k, path)|..];
      && WellMade(k') && !Stopped(k') && (Decides(k') ==> ahead != [] && ahead[0] == choice)
      && s.done + Events(k, path) == r.done[..i] && EventOf(k', choice) == [r.done[i]]
      && r == Rest(k', Trace(r.done[..i], ahead))
    decreases |s.ahead|, Size(k)
  {
    SomethingLeft(k, s);
    choice := if Decides(k) then s.ahead[0] else false;
    var next, s1 := Follow(k, choice), Advanced(k, choice, s);
    OneStep(k, choice, s);
    AtMostOne(k, choice);
    StepIsSmaller(k, choice);
    hide Rest, Follow, EventOf, WellMade, Size, Decides, Stopped;
    var r := Rest(k, s);
    if |s1.done| == i + 1 {
      path := [];
      assert r.done[i] == s1.done[i] && r.done[..i] == s.done;
      assert s.done + [] == s.done && s.ahead[0..] == s.ahead;
    } else {
      var path1;
      assert |s1.done| <= i;
      path1, choice := Reaches(next, s1, i);
      path := [if Decides(k) then s.ahead[0] else false] + path1;
      assert path[1..] == path1;
      Pushed(k, path, s);
    }
  }

  lemma SomethingLeft(k: Control, s: Trace)
    requires WellMade(k) && |s.done| < |Rest(k, s).done|
    ensures !Stopped(k) && (Decides(k) ==> s.ahead != [])
  {}

  lemma AtMostOne(k: Control, choice: bool)
    ensures |EventOf(k, choice)| <= 1
  {}

  lemma StepIsSmaller(k: Control, choice: bool)
    requires WellMade(k) && !Stopped(k)
    ensures !Decides(k) ==> Size(Follow(k, choice)) < Size(k)
  {}

  lemma Pushed(k: Control, path: seq<bool>, s: Trace)
    requires path != [] && (Decides(k) ==> s.ahead != [] && s.ahead[0] == path[0])
    requires var s1 := Advanced(k, path[0], s); Decisions(Follow(k, path[0]), path[1..]) <= s1.ahead
    ensures Decisions(k, path) <= s.ahead
    ensures var s1 := Advanced(k, path[0], s);
      s.ahead[|Decisions(k, path)|..] == s1.ahead[|Decisions(Follow(k, path[0]), path[1..])|..]
    ensures s.done + Events(k, path) == Advanced(k, path[0], s).done + Events(Follow(k, path[0]), path[1..])
  {
    hide Follow, EventOf, Decides;
    var rest := Decisions(Follow(k, path[0]), path[1..]);
    var event, later := EventOf(k, path[0]), Events(Follow(k, path[0]), path[1..]);
    assert s.done + (event + later) == (s.done + event) + later;
    if Decides(k) {
      OneMore(path[0], rest, s.ahead);
    } else {
      assert [] + rest == rest;
    }
  }

  lemma OneMore<T>(x: T, rest: seq<T>, all: seq<T>)
    requires all != [] && all[0] == x && rest <= all[1..]
    ensures [x] + rest <= all && all[|[x] + rest|..] == all[1..][|rest|..]
  {
    assert all == [x] + all[1..];
  }

  // ── Live is what is used again ───────────────────────────

  predicate Gives(e: Event, name: string) { (e.Given? && e.name == name) || (e.Took? && name in e.bound) }

  /** From event `from` on, `name` is used, at `j`, before it is given a value. */
  predicate UsedFirst(events: seq<Event>, from: nat, j: nat, name: string) {
    && from <= j < |events| && events[j].Used? && events[j].name == name
    && forall m :: from <= m < j ==> !Gives(events[m], name)
  }

  lemma {:induction false} StoppedReadsNothing(k: Control, name: string, choices: seq<bool>)
    requires Stopped(k)
    ensures !ReadFirst(k, name, choices)
    decreases |choices|
  {
    if choices != [] {
      StoppedReadsNothing(Follow(k, choices[0]), name, choices[1..]);
    }
  }

  lemma {:induction false} PathTo(k: Control, name: string, choices: seq<bool>) returns (path: seq<bool>)
    requires ReadFirst(k, name, choices)
    ensures Goes(k, path) && ReadsNow(After(k, path), name) && forall e :: e in Events(k, path) ==> !Gives(e, name)
    decreases |choices|
  {
    if ReadsNow(k, name) {
      path := [];
    } else {
      if Stopped(k) {
        StoppedReadsNothing(k, name, choices);
      }
      var rest := PathTo(Follow(k, choices[0]), name, choices[1..]);
      path := [choices[0]] + rest;
      assert path[1..] == rest;
    }
  }

  lemma {:induction false} PathReads(k: Control, name: string, path: seq<bool>)
    requires Goes(k, path) && ReadsNow(After(k, path), name) && forall e :: e in Events(k, path) ==> !Gives(e, name)
    ensures ReadFirst(k, name, path + [false])
    decreases |path|
  {
    if path != [] {
      forall e | e in EventOf(k, path[0]) ensures !Gives(e, name) {
        assert e in Events(k, path);
      }
      if RedefinesNow(k, path[0], name) {
        assert Gives(EventOf(k, path[0])[0], name);
      }
      PathReads(Follow(k, path[0]), name, path[1..]);
      assert (path + [false])[1..] == path[1..] + [false];
    }
  }

  lemma EventReads(k: Control, choice: bool, e: Event)
    requires EventOf(k, choice) == [e] && e.Used?
    ensures ReadsNow(k, e.name)
  {}

  lemma NothingGivenBefore(done: seq<Event>, before: seq<Event>, all: seq<Event>, j: nat, name: string)
    requires UsedFirst(all, |done|, j, name) && done + before == all[..j]
    ensures forall e :: e in before ==> !Gives(e, name)
  {
    forall m | 0 <= m < |before| ensures !Gives(before[m], name) {
      assert before[m] == (done + before)[|done| + m] == all[|done| + m];
    }
  }

  lemma UsedIsLive(k: Control, s: Trace, j: nat, name: string)
    requires WellMade(k) && UsedFirst(Rest(k, s).done, |s.done|, j, name)
    ensures name in LiveAt(k)
  {
    hide WellMade, Rest, LiveAt, EventOf, Events, Follow, ReadsNow, Gives, Goes, Decisions, After, ReadFirst;
    var path, choice := Reaches(k, s, j);
    var events := Rest(k, s).done;
    NothingGivenBefore(s.done, Events(k, path), events, j, name);
    EventReads(After(k, path), choice, events[j]);
    PathReads(k, name, path);
    ReadFirstIsLive(k, name, path + [false]);
  }

  lemma LiveIsUsed(k: Control, done: seq<Event>, name: string) returns (ahead: seq<bool>, j: nat)
    requires WellMade(k) && name in LiveAt(k)
    ensures UsedFirst(Rest(k, Trace(done, ahead)).done, |done|, j, name)
  {
    LivenessIsExact(k, name);
    var choices :| ReadFirst(k, name, choices);
    var path := PathTo(k, name, choices);
    ahead := Decisions(k, path);
    Steps(k, path, done, []);
    assert ahead + [] == ahead;
    var reading, events := After(k, path), done + Events(k, path);
    OneStep(reading, false, Trace(events, []));
    j := |events|;
    var all := Rest(k, Trace(done, ahead)).done;
    assert events + [Used(reading.code.id, name)] <= all;
    forall m | |done| <= m < j ensures !Gives(all[m], name) {
      assert all[m] == events[m] == Events(k, path)[m - |done|];
    }
  }

  // ── What the plan tells ──────────────────────────────────

  /** What happens when `body` is evaluated by these decisions, as far as they go. */
  function EventsOf(body: seq<Expr>, t: Typed, choices: seq<bool>): seq<Event> {
    EvalAll(body, t, Trace([], choices)).at.done
  }

  /** In some evaluation `e` happens, and then `name` is used before it is given a value. */
  ghost predicate UsedAfter(body: seq<Expr>, t: Typed, e: Event, name: string) {
    exists choices, i, j :: UsedAgain(EventsOf(body, t, choices), e, i, j, name)
  }

  predicate UsedAgain(events: seq<Event>, e: Event, i: nat, j: nat, name: string) {
    i < |events| && events[i] == e && UsedLater(events, i, j, name)
  }

  predicate UsedLater(events: seq<Event>, i: nat, j: nat, name: string) { UsedFirst(events, i + 1, j, name) }

  /** Past this edge `name` is used before it is given a value, bound parameters included. */
  ghost predicate NeededPast(body: seq<Expr>, t: Typed, id: nat, edge: Edge, name: string) {
    exists bound :: name !in bound && UsedAfter(body, t, Took(id, edge, bound), name)
  }

  /** What `plan` tells at `e`: a use moves if and only if no evaluation uses the variable again before
      it is given a value, and so for values never used; an edge drops what is needed past the other
      edge only, and a bound parameter that is used is not dead. */
  ghost predicate Tells(plan: Plan, body: seq<Expr>, t: Typed, e: Event) {
    match e
    case Used(id, name) => plan.Moves(id) <==> !UsedAfter(body, t, e, name)
    case Given(id, name) => plan.DeadAfter(id) <==> !UsedAfter(body, t, e, name)
    case Took(id, edge, bound) =>
      && (forall name :: name in plan.Drops(id, edge) <==>
            !NeededPast(body, t, id, edge, name) && NeededPast(body, t, id, Opposite(edge), name))
      && (forall p :: p in bound && UsedAfter(body, t, e, p) ==> p !in plan.DeadParams(id))
  }

  /** Evaluation comes to `k` by the decisions `used`, `before` having happened. */
  ghost predicate Reached(plan: Plan, body: seq<Expr>, t: Typed, k: Control, used: seq<bool>, before: seq<Event>) {
    && Fits(plan, k) && WellMade(k) && !Stopped(k)
    && forall ahead :: EventsOf(body, t, used + ahead) == Rest(k, Trace(before, ahead)).done
  }

  /** Where an event happens; what is used after it is live after that step. */
  lemma Occurs(plan: Plan, body: seq<Expr>, t: Typed, choices: seq<bool>, i: nat)
    returns (k: Control, choice: bool, used: seq<bool>)
    requires Annotated(plan, LowerAll(body, t), {}) && i < |EventsOf(body, t, choices)|
    ensures Reached(plan, body, t, k, used, EventsOf(body, t, choices)[..i])
    ensures EventOf(k, choice) == [EventsOf(body, t, choices)[i]]
    ensures forall j, name :: UsedLater(EventsOf(body, t, choices), i, j, name) ==> name in LiveAt(Follow(k, choice))
  {
    var start, events := Run(LowerAll(body, t), End), EventsOf(body, t, choices);
    var s := Trace([], choices);
    LoweredAll(body, t, s);
    var path;
    path, choice := Reaches(start, s, i);
    k, used := After(start, path), Decisions(start, path);
    StepsFit(plan, start, path);
    assert [] + Events(start, path) == Events(start, path);
    forall ahead ensures EventsOf(body, t, used + ahead) == Rest(k, Trace(events[..i], ahead)).done {
      Steps(start, path, [], ahead);
      LoweredAll(body, t, Trace([], used + ahead));
    }
    var here := Trace(events[..i], choices[|used|..]);
    OneStep(k, choice, here);
    forall j, name | UsedLater(events, i, j, name) ensures name in LiveAt(Follow(k, choice)) {
      UsedIsLive(Follow(k, choice), Advanced(k, choice, here), j, name);
    }
  }

  /** What is live after a step is used after its event. */
  lemma LiveIsUsedAfter(plan: Plan, body: seq<Expr>, t: Typed, k: Control, choice: bool,
                        used: seq<bool>, before: seq<Event>, e: Event, name: string)
    requires Reached(plan, body, t, k, used, before) && EventOf(k, choice) == [e] && name in LiveAt(Follow(k, choice))
    ensures UsedAfter(body, t, e, name)
  {
    hide Follow, EventOf, Rest, Fits, WellMade, LiveAt, EventsOf, UsedFirst;
    var s := Trace(before, if Decides(k) then [choice] else []);
    OneStep(k, choice, s);
    var i := |before|;
    var more, j := LiveIsUsed(Follow(k, choice), before + [e], name);
    var ahead := (if Decides(k) then [choice] else []) + more;
    Advances(k, choice, Trace(before, ahead), more);
    OneStep(k, choice, Trace(before, ahead));
    var all := EventsOf(body, t, used + ahead);
    assert before + [e] <= all && all[i] == (before + [e])[i];
    assert UsedAgain(all, e, i, j, name);
  }

  /** `e` happens at a step of some evaluation. */
  ghost predicate HappensAt(plan: Plan, body: seq<Expr>, t: Typed, e: Event, k: Control, choice: bool) {
    EventOf(k, choice) == [e] && exists used, before :: Reached(plan, body, t, k, used, before)
  }

  /** What is used after an event somewhere is live after a step at which it happens. */
  lemma UsedIsLiveSomewhere(plan: Plan, body: seq<Expr>, t: Typed, e: Event, name: string)
    returns (k: Control, choice: bool)
    requires Annotated(plan, LowerAll(body, t), {}) && UsedAfter(body, t, e, name)
    ensures HappensAt(plan, body, t, e, k, choice) && name in LiveAt(Follow(k, choice))
  {
    var choices, i, j :| UsedAgain(EventsOf(body, t, choices), e, i, j, name);
    var used;
    k, choice, used := Occurs(plan, body, t, choices, i);
    assert UsedLater(EventsOf(body, t, choices), i, j, name);
  }

  lemma LiveSomewhereIsUsed(plan: Plan, body: seq<Expr>, t: Typed, e: Event, k: Control, choice: bool, name: string)
    requires HappensAt(plan, body, t, e, k, choice) && name in LiveAt(Follow(k, choice))
    ensures UsedAfter(body, t, e, name)
  {
    var used, before :| Reached(plan, body, t, k, used, before);
    LiveIsUsedAfter(plan, body, t, k, choice, used, before, e, name);
  }

  lemma TellsUses(plan: Plan, body: seq<Expr>, t: Typed, e: Event, k: Control, choice: bool)
    requires Annotated(plan, LowerAll(body, t), {}) && HappensAt(plan, body, t, e, k, choice) && !e.Took?
    ensures Tells(plan, body, t, e)
  {
    if e.name in LiveAt(Follow(k, choice)) {
      LiveSomewhereIsUsed(plan, body, t, e, k, choice, e.name);
    }
    if UsedAfter(body, t, e, e.name) {
      var k', choice' := UsedIsLiveSomewhere(plan, body, t, e, e.name);
    }
  }

  /** What is live past an edge, before it binds anything. */
  function LivePast(k: Control, choice: bool): Names {
    match k
    case Run(code, next) =>
      if code.Branch? then Live(if choice then code.yes else code.no, LiveAt(next))
      else if !code.Inlined? then {}
      else if choice then Live(code.body, Live(code, LiveAt(next))) - Set(code.params)
      else LiveAt(next)
    case Decide(loop, next) =>
      if !loop.Loop? then {} else if choice then Live(loop.body, Live(loop, LiveAt(next))) else LiveAt(next)
    case _ => {}
  }

  /** An edge drops what is live past the other one alone. */
  lemma DropsTheOther(plan: Plan, k: Control, choice: bool)
    requires Fits(plan, k) && Decides(k)
    ensures var other := EventOf(k, !choice);
      |EventOf(k, choice)| == |other| == 1 && EventOf(k, choice)[0].Took? && other[0].Took?
      && other[0].id == EventOf(k, choice)[0].id && other[0].edge == Opposite(EventOf(k, choice)[0].edge)
    ensures var e := EventOf(k, choice)[0];
      plan.Drops(e.id, e.edge) == LivePast(k, !choice) - LivePast(k, choice)
    ensures LivePast(k, choice) == LiveAt(Follow(k, choice)) - Set(EventOf(k, choice)[0].bound)
  {
    match k
    case Run(code, next) =>
      if code.Inlined? {
        HeaderIsLeastFixedPoint(code, LiveAt(next));
        assert AnnotatedRound(plan, code, Live(code, LiveAt(next)), LiveAt(next));
        assert LiveAt(Run(code, next)) == Live(code, LiveAt(next));
      }
    case Decide(loop, next) =>
      assert AnnotatedRound(plan, loop, Live(loop, LiveAt(next)), LiveAt(next));
      assert LiveAt(Run(loop, next)) == Live(loop, LiveAt(next));
  }

  lemma NeededIsLive(plan: Plan, body: seq<Expr>, t: Typed, id: nat, edge: Edge, name: string)
    returns (k: Control, choice: bool)
    requires Annotated(plan, LowerAll(body, t), {}) && NeededPast(body, t, id, edge, name)
    ensures Fits(plan, k) && Decides(k) && HappensAt(plan, body, t, EventOf(k, choice)[0], k, choice)
    ensures EventOf(k, choice)[0].Took? && EventOf(k, choice)[0].id == id && EventOf(k, choice)[0].edge == edge
    ensures name in LivePast(k, choice)
  {
    var bound :| name !in bound && UsedAfter(body, t, Took(id, edge, bound), name);
    k, choice := UsedIsLiveSomewhere(plan, body, t, Took(id, edge, bound), name);
    var used, before :| Reached(plan, body, t, k, used, before);
    DropsTheOther(plan, k, choice);
  }

  lemma LiveIsNeeded(plan: Plan, body: seq<Expr>, t: Typed, k: Control, choice: bool,
                     used: seq<bool>, before: seq<Event>, name: string)
    requires Decides(k) && Reached(plan, body, t, k, used, before) && name in LivePast(k, choice)
    ensures EventOf(k, choice) != [] && EventOf(k, choice)[0].Took?
    ensures NeededPast(body, t, EventOf(k, choice)[0].id, EventOf(k, choice)[0].edge, name)
  {
    DropsTheOther(plan, k, choice);
    LiveIsUsedAfter(plan, body, t, k, choice, used, before, EventOf(k, choice)[0], name);
  }

  lemma TellsDrops(plan: Plan, body: seq<Expr>, t: Typed, e: Event, k: Control, choice: bool, name: string)
    requires Annotated(plan, LowerAll(body, t), {}) && HappensAt(plan, body, t, e, k, choice) && e.Took?
    ensures name in plan.Drops(e.id, e.edge) <==>
      !NeededPast(body, t, e.id, e.edge, name) && NeededPast(body, t, e.id, Opposite(e.edge), name)
  {
    hide Follow, Fits, LivePast, LiveAt, UsedAfter, Reached, Annotated, NeededPast;
    var used, before :| Reached(plan, body, t, k, used, before);
    FitsWhereReached(plan, body, t, e, k, choice, used, before);
    DropsTheOther(plan, k, choice);
    if name in LivePast(k, choice) {
      LiveIsNeeded(plan, body, t, k, choice, used, before, name);
    } else if name in LivePast(k, !choice) {
      LiveIsNeeded(plan, body, t, k, !choice, used, before, name);
    }
    if NeededPast(body, t, e.id, e.edge, name) {
      var k', choice' := NeededIsLive(plan, body, t, e.id, e.edge, name);
      DropsTheOther(plan, k', choice');
    } else if NeededPast(body, t, e.id, Opposite(e.edge), name) {
      var k', choice' := NeededIsLive(plan, body, t, e.id, Opposite(e.edge), name);
      DropsTheOther(plan, k', choice');
      DropsTheOther(plan, k', !choice');
      if name in LivePast(k', !choice') {
        NeededThere(plan, body, t, k', choice', name);
      }
    }
  }

  lemma NeededThere(plan: Plan, body: seq<Expr>, t: Typed, k: Control, choice: bool, name: string)
    requires Decides(k) && EventOf(k, choice) != [] && HappensAt(plan, body, t, EventOf(k, choice)[0], k, choice)
    requires name in LivePast(k, !choice)
    ensures EventOf(k, !choice) != [] && EventOf(k, !choice)[0].Took?
    ensures NeededPast(body, t, EventOf(k, !choice)[0].id, EventOf(k, !choice)[0].edge, name)
  {
    var used, before :| Reached(plan, body, t, k, used, before);
    LiveIsNeeded(plan, body, t, k, !choice, used, before, name);
  }

  lemma FitsWhereReached(plan: Plan, body: seq<Expr>, t: Typed, e: Event, k: Control, choice: bool,
                         used: seq<bool>, before: seq<Event>)
    requires Reached(plan, body, t, k, used, before) && EventOf(k, choice) == [e] && e.Took?
    ensures Fits(plan, k) && Decides(k)
  {}

  /** A bound parameter that is used is not listed as dead. */
  lemma TellsBound(plan: Plan, body: seq<Expr>, t: Typed, e: Event, p: string)
    requires Annotated(plan, LowerAll(body, t), {}) && e.Took? && p in e.bound && UsedAfter(body, t, e, p)
    ensures p !in plan.DeadParams(e.id)
  {
    var k, choice := UsedIsLiveSomewhere(plan, body, t, e, p);
    assert k.Run? && k.code.Inlined? && choice;
    var used, before :| Reached(plan, body, t, k, used, before);
    assert AnnotatedRound(plan, k.code, Live(k.code, LiveAt(k.next)), LiveAt(k.next));
    assert LiveAt(Run(k.code, k.next)) == Live(k.code, LiveAt(k.next));
  }

  /** A plan that fits a control flow tells, at everything that happens in any evaluation of it,
      what is used again. */
  lemma FittingPlanTells(plan: Plan, body: seq<Expr>, t: Typed, choices: seq<bool>, i: nat)
    requires Annotated(plan, LowerAll(body, t), {}) && i < |EventsOf(body, t, choices)|
    ensures Tells(plan, body, t, EventsOf(body, t, choices)[i])
  {
    var e := EventsOf(body, t, choices)[i];
    var k, choice, used := Occurs(plan, body, t, choices, i);
    assert HappensAt(plan, body, t, e, k, choice);
    if e.Took? {
      forall name
        ensures name in plan.Drops(e.id, e.edge) <==>
          !NeededPast(body, t, e.id, e.edge, name) && NeededPast(body, t, e.id, Opposite(e.edge), name)
      {
        TellsDrops(plan, body, t, e, k, choice, name);
      }
      forall p | p in e.bound && UsedAfter(body, t, e, p) ensures p !in plan.DeadParams(e.id) {
        TellsBound(plan, body, t, e, p);
      }
    } else {
      TellsUses(plan, body, t, e, k, choice);
    }
  }

  /** In some evaluation `name` is used before it is given a value. */
  ghost predicate UsedAtAll(body: seq<Expr>, t: Typed, name: string) {
    exists choices, j :: UsedFirst(EventsOf(body, t, choices), 0, j, name)
  }

  /** A variable is live at the entry if and only if some evaluation uses it first. */
  lemma LiveAtEntry(body: seq<Expr>, t: Typed, name: string)
    ensures name in Live(LowerAll(body, t), {}) <==> UsedAtAll(body, t, name)
  {
    var start := Run(LowerAll(body, t), End);
    assert LiveAt(start) == Live(LowerAll(body, t), {});
    if name in LiveAt(start) {
      var choices, j := LiveIsUsed(start, [], name);
      LoweredAll(body, t, Trace([], choices));
      assert Rest(start, Trace([], choices)).done == EventsOf(body, t, choices);
      assert UsedFirst(EventsOf(body, t, choices), 0, j, name);
    }
    if choices, j :| UsedFirst(EventsOf(body, t, choices), 0, j, name) {
      LoweredAll(body, t, Trace([], choices));
      UsedIsLive(start, Trace([], choices), j, name);
    }
  }

  /** `plan` tells, at everything that happens in any evaluation of a function, what is used again;
      the object parameters it drops at the entry are those no evaluation uses. */
  ghost predicate TellsAll(plan: Plan, params: seq<string>, body: seq<Expr>, t: Typed) {
    && (forall choices, i :: 0 <= i < |EventsOf(body, t, choices)| ==>
          Tells(plan, body, t, EventsOf(body, t, choices)[i]))
    && (forall name :: name in plan.entry <==> name in params && name in t.heap && !UsedAtAll(body, t, name))
  }

  /** A plan that fits the lowered body of a function tells what its evaluation uses again. */
  lemma FittingPlanTellsAll(plan: Plan, params: seq<Param>, body: seq<Expr>, t: Typed)
    requires PlanFor(plan, params, t.heap, LowerAll(body, t))
    ensures TellsAll(plan, NamesOf(params), body, t)
  {
    hide Tells;
    forall choices, i | 0 <= i < |EventsOf(body, t, choices)|
      ensures Tells(plan, body, t, EventsOf(body, t, choices)[i])
    {
      FittingPlanTells(plan, body, t, choices, i);
    }
    forall name
      ensures name in plan.entry <==> name in NamesOf(params) && name in t.heap && !UsedAtAll(body, t, name)
    {
      LiveAtEntry(body, t, name);
    }
  }

  // ── Which of several reads moves ─────────────────────────

  /** The variable `s`, read at node `id`. */
  function S(id: nat): Expr { Expr(id, Var("s")) }

  function Uses(ids: seq<nat>): (events: seq<Event>)
    ensures |events| == |ids| && forall i :: 0 <= i < |ids| ==> events[i] == Used(ids[i], "s")
  {
    seq(|ids|, i requires 0 <= i < |ids| => Used(ids[i], "s"))
  }

  /** Evaluating `e` reads `s` at these nodes, in this order, and does nothing else. */
  ghost predicate JustReads(e: Expr, t: Typed, ids: seq<nat>) {
    forall s: Trace :: Eval(e, t, s) == On(Trace(s.done + Uses(ids), s.ahead))
  }

  /** Then the last of them moves, and no other. */
  ghost predicate LastMoves(plan: Plan, ids: seq<nat>) {
    forall i :: 0 <= i < |ids| ==> (plan.Moves(ids[i]) <==> i == |ids| - 1)
  }

  lemma EventsOfReads(e: Expr, t: Typed, ids: seq<nat>, choices: seq<bool>)
    requires JustReads(e, t, ids)
    ensures EventsOf([e], t, choices) == Uses(ids)
  {
    hide Eval;
    var s := Trace([], choices);
    assert EvalAll([e], t, s) == Eval(e, t, s);
    assert [] + Uses(ids) == Uses(ids);
  }

  /** Read number `i` of them is followed by another one, unless it is the last. */
  lemma UsedAgainUnlessLast(e: Expr, t: Typed, ids: seq<nat>, i: nat)
    requires JustReads(e, t, ids) && i < |ids| && forall i, j :: 0 <= i < j < |ids| ==> ids[i] != ids[j]
    ensures UsedAfter([e], t, Used(ids[i], "s"), "s") <==> i < |ids| - 1
  {
    hide EventsOf, JustReads;
    var e' := Used(ids[i], "s");
    if i < |ids| - 1 {
      EventsOfReads(e, t, ids, []);
      assert UsedAgain(EventsOf([e], t, []), e', i, i + 1, "s");
    }
    if UsedAfter([e], t, e', "s") {
      var choices: seq<bool>, k: nat, j: nat :| UsedAgain(EventsOf([e], t, choices), e', k, j, "s");
      EventsOfReads(e, t, ids, choices);
      assert ids[k] == ids[i];
    }
  }

  lemma LastOfThemMoves(plan: Plan, params: seq<string>, e: Expr, t: Typed, ids: seq<nat>)
    requires JustReads(e, t, ids) && TellsAll(plan, params, [e], t)
    requires forall i, j :: 0 <= i < j < |ids| ==> ids[i] != ids[j]
    ensures LastMoves(plan, ids)
  {
    EventsOfReads(e, t, ids, []);
    hide EventsOf, JustReads, UsedAfter;
    forall i | 0 <= i < |ids| ensures plan.Moves(ids[i]) <==> i == |ids| - 1 {
      assert EventsOf([e], t, [])[i] == Used(ids[i], "s");
      assert Tells(plan, [e], t, Used(ids[i], "s"));
      UsedAgainUnlessLast(e, t, ids, i);
    }
  }

  /** Of the reads of one variable in an operation, the one of the right operand moves. */
  lemma RightOperandMoves(plan: Plan, params: seq<string>, t: Typed, symbol: string)
    requires "s" in t.heap && t.builtins == map[]
    requires TellsAll(plan, params, [Expr(0, Binary(Plain(symbol), S(1), S(2)))], t)
    ensures LastMoves(plan, [1, 2])
  {
    hide TellsAll, LastMoves, EvalAll;
    var sum := Expr(0, Binary(Plain(symbol), S(1), S(2)));
    forall s: Trace ensures Eval(sum, t, s) == On(Trace(s.done + Uses([1, 2]), s.ahead)) {
      TwoReads(t, s, 1, 2);
    }
    LastOfThemMoves(plan, params, sum, t, [1, 2]);
  }

  /** Among the items of an array, that of the last. */
  lemma LastItemMoves(plan: Plan, params: seq<string>, t: Typed)
    requires "s" in t.heap && t.builtins == map[]
    requires TellsAll(plan, params, [Expr(0, Array([S(1), S(2)]))], t)
    ensures LastMoves(plan, [1, 2])
  {
    hide TellsAll, LastMoves, EvalAll;
    var items := Expr(0, Array([S(1), S(2)]));
    forall s: Trace ensures Eval(items, t, s) == On(Trace(s.done + Uses([1, 2]), s.ahead)) {
      TwoReads(t, s, 1, 2);
    }
    LastOfThemMoves(plan, params, items, t, [1, 2]);
  }

  lemma TwoReads(t: Typed, s: Trace, a: nat, b: nat)
    requires "s" in t.heap && t.builtins == map[]
    ensures Eval(S(a), t, s) == On(s.Add(Used(a, "s")))
    ensures Eval(S(b), t, s.Add(Used(a, "s"))) == On(Trace(s.done + Uses([a, b]), s.ahead))
    ensures EvalAll([S(b)], t, s.Add(Used(a, "s"))) == Eval(S(b), t, s.Add(Used(a, "s")))
    ensures EvalAll([S(a), S(b)], t, s) == On(Trace(s.done + Uses([a, b]), s.ahead))
  {
    assert s.done + [Used(a, "s")] + [Used(b, "s")] == s.done + Uses([a, b]);
    assert [S(a), S(b)][1..] == [S(b)];
  }

  /** Where an item is read, that of the index. */
  lemma IndexMoves(plan: Plan, params: seq<string>, t: Typed)
    requires "s" in t.heap && t.builtins == map[]
    requires TellsAll(plan, params, [Expr(0, Index(S(1), [S(2)]))], t)
    ensures LastMoves(plan, [1, 2])
  {
    hide TellsAll, LastMoves, EvalAll;
    var item := Expr(0, Index(S(1), [S(2)]));
    forall s: Trace ensures Eval(item, t, s) == On(Trace(s.done + Uses([1, 2]), s.ahead)) {
      TwoReads(t, s, 1, 2);
    }
    LastOfThemMoves(plan, params, item, t, [1, 2]);
  }

  /** Where a method is called, that of the argument. */
  lemma ArgumentMoves(plan: Plan, params: seq<string>, t: Typed)
    requires "s" in t.heap && t.builtins == map[]
    requires TellsAll(plan, params, [Expr(0, Call(Some(S(1)), [S(2)], NoBlock))], t)
    ensures LastMoves(plan, [1, 2])
  {
    hide TellsAll, LastMoves, EvalAll;
    var call := Expr(0, Call(Some(S(1)), [S(2)], NoBlock));
    forall s: Trace ensures Eval(call, t, s) == On(Trace(s.done + Uses([1, 2]), s.ahead)) {
      TwoReads(t, s, 1, 2);
    }
    LastOfThemMoves(plan, params, call, t, [1, 2]);
  }

  /** In `s[s] = s`, whose value comes first, that of the index moves; in `s[s] += s`, whose value comes
      last, that of the value. */
  lemma ItemAssignmentMoves(plan: Plan, params: seq<string>, t: Typed)
    requires "s" in t.heap && t.builtins == map[]
    ensures TellsAll(plan, params, [Expr(0, Assign(Expr(4, Index(S(1), [S(2)])), S(3)))], t) ==>
      LastMoves(plan, [3, 1, 2])
    ensures TellsAll(plan, params, [Expr(0, OpAssign(Expr(4, Index(S(1), [S(2)])), S(3)))], t) ==>
      LastMoves(plan, [1, 2, 3])
  {
    hide TellsAll, LastMoves, EvalAll;
    var item := Expr(4, Index(S(1), [S(2)]));
    var plain, op := Expr(0, Assign(item, S(3))), Expr(0, OpAssign(item, S(3)));
    forall s: Trace
      ensures Eval(plain, t, s) == On(Trace(s.done + Uses([3, 1, 2]), s.ahead))
      ensures Eval(op, t, s) == On(Trace(s.done + Uses([1, 2, 3]), s.ahead))
    {
      TwoReads(t, s, 1, 2);
      assert s.done + Uses([1, 2]) + [Used(3, "s")] == s.done + Uses([1, 2, 3]);
      TwoReads(t, s.Add(Used(3, "s")), 1, 2);
      assert s.done + [Used(3, "s")] + Uses([1, 2]) == s.done + Uses([3, 1, 2]);
    }
    assert JustReads(plain, t, [3, 1, 2]) && JustReads(op, t, [1, 2, 3]);
    if TellsAll(plan, params, [plain], t) {
      LastOfThemMoves(plan, params, plain, t, [3, 1, 2]);
    }
    if TellsAll(plan, params, [op], t) {
      LastOfThemMoves(plan, params, op, t, [1, 2, 3]);
    }
  }
}
