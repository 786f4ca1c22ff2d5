/** Functions inference lets through whose plan is wrong, or missing. */
module Failures {
  import opened Wrappers
  import opened Syntax
  import opened ControlFlow
  import opened Ownership
  import opened Assignment
  import opened Detours
  import opened Liveness

  const NOTHING := Typed({}, map[], map[])

  /** `return`, in a procedure. */
  const BARE_RETURN := Function([], [Expr(0, Kind.Return(None))], false)

  /** It runs soundly with nothing to count, but the analysis stops. */
  method BareReturnHasNoPlan() returns (plan: Option<Plan>)
    ensures Accepted(BARE_RETURN, NOTHING, true) && Accepted(BARE_RETURN, NOTHING, false)
    ensures AlwaysSound(NO_PLAN, [], LowerAll(BARE_RETURN.body, NOTHING))
    ensures plan == None
  {
    ghost var code := LowerAll(BARE_RETURN.body, NOTHING);
    assert code == Seq(Code.Return(Nop), Nop) && Live(code, {}) == {};
    assert HasBareReturn(BARE_RETURN.body[0]);
    PlanIsSound(NO_PLAN, [], {}, code);
    plan := PlanOf(BARE_RETURN, NOTHING);
  }

  /** `if c; exit(1) else x = "s" end; puts(x)`. */
  const EXIT := Function([Param("c", false)], [
    Expr(0, If(Expr(1, Var("c")), [Expr(2, Call(None, [Expr(3, Scalar)], NoBlock))],
               Otherwise([Expr(4, Assign(Expr(5, Var("x")), Expr(6, Str([Text("s")]))))]))),
    Expr(7, Call(None, [Expr(8, Var("x"))], NoBlock))], false)

  const EXIT_TYPED := Typed({"x"}, map[], map[2 := Exits])

  const EXIT_CODE :=
    Seq(Seq(Nop, Branch(0, Then, Seq(Quit(Seq(Nop, Seq(Seq(Nop, Nop), Nop))), Nop),
                           Else, Seq(Seq(Seq(Nop, Nop), Define(4, "x")), Nop))),
        Seq(Seq(Nop, Seq(Seq(Read(8, "x"), Nop), Nop)), Nop))

  lemma ExitFlow()
    ensures LowerAll(EXIT.body, EXIT_TYPED) == EXIT_CODE
  {}

  lemma ExitReturnsNowhere()
    ensures !HasBareReturns(EXIT.body)
  {}

  lemma ExitIsTidy()
    ensures WellFormed(EXIT_CODE) && Tidy(EXIT_CODE) && NoMisread(EXIT_CODE)
  {}

  lemma ExitIsAssigned()
    ensures Assigned(EXIT_CODE, Scope({"c"}, {"c"}), false).Some?
  {}

  lemma ExitIsAssignedForSure()
    ensures Assigned(EXIT_CODE, Scope({"c"}, {"c"}), true).Some?
  {}

  lemma ExitIsSeenToRead()
    ensures "x" in Live(Seen(EXIT_CODE), {}) && Live(EXIT_CODE, {}) == {}
  {}

  /** The analysis sees a path from `exit` to the read, and so has the other branch drop an `x` not
      assigned yet. No path that runs reads a variable before it is assigned. */
  method ExitBreaksPlan() returns (plan: Option<Plan>)
    ensures Accepted(EXIT, EXIT_TYPED, true) && Accepted(EXIT, EXIT_TYPED, false)
    ensures plan.Some? && SometimesFaults(plan.value, EXIT.params, LowerAll(EXIT.body, EXIT_TYPED))
    ensures Live(LowerAll(EXIT.body, EXIT_TYPED), {}) == {}
  {
    hide LowerAll, Assigned, Tidy, WellFormed, NoMisread, Live, Seen, HasBareReturns, SometimesFaults;
    ExitFlow();
    ExitReturnsNowhere();
    ExitIsTidy();
    ExitIsAssigned();
    ExitIsAssignedForSure();
    ExitIsSeenToRead();
    OneScalar({"x"});
    plan := PlanOf(EXIT, EXIT_TYPED);
  }

  lemma OneScalar(heap: Names)
    requires "c" !in heap
    ensures NamesOf([Param("c", false)]) == ["c"] && Set(NamesOf([Param("c", false)])) == {"c"}
    ensures Declared([Param("c", false)], heap)
  {
    assert Declared([Param("c", false)][1..], heap);
  }

  /** `c && (if c; x = ""; c else x = ""; c end); x`. */
  const OPERAND := Function([Param("c", false)], [
    Expr(0, Binary(And, Expr(1, Var("c")), Expr(2, If(Expr(3, Var("c")),
      [Expr(4, Assign(Expr(5, Var("x")), Expr(6, Str([])))), Expr(7, Var("c"))],
      Otherwise([Expr(8, Assign(Expr(9, Var("x")), Expr(10, Str([])))), Expr(11, Var("c"))]))))),
    Expr(12, Var("x"))], false)

  const OPERAND_TYPED := Typed({"x"}, map[], map[])

  const OPERAND_CODE :=
    Seq(Seq(Nop, Branch(0, Rhs,
          Seq(Nop, Branch(2, Then, Seq(Seq(Nop, Define(4, "x")), Seq(Nop, Nop)),
                             Else, Seq(Seq(Nop, Define(8, "x")), Seq(Nop, Nop)))), Skip, Nop)),
        Seq(Read(12, "x"), Nop))

  lemma OperandFlow()
    ensures LowerAll(OPERAND.body, OPERAND_TYPED) == OPERAND_CODE && !HasBareReturns(OPERAND.body)
  {}

  lemma OperandIsTidy()
    ensures WellFormed(OPERAND_CODE) && Tidy(OPERAND_CODE) && NoMisread(OPERAND_CODE)
  {}

  lemma OperandIsAssigned()
    ensures Assigned(OPERAND_CODE, Scope({"c"}, {"c"}), false).Some?
    ensures Assigned(OPERAND_CODE, Scope({"c"}, {"c"}), true).None?
  {}

  /** Past the operand, it reads a variable that owns nothing, whatever the plan. */
  lemma OperandFaults(plan: Plan)
    ensures Faults(plan, OPERAND.params, OPERAND_CODE, [false, false, false, false, false, false, false])
  {}

  /** The read may come before any assignment: no plan is sound, and one is found. Inference would
      refuse it, did it not count on the operand. */
  method OperandBreaksPlan() returns (plan: Option<Plan>)
    ensures Accepted(OPERAND, OPERAND_TYPED, false) && !Accepted(OPERAND, OPERAND_TYPED, true)
    ensures plan.Some?
    ensures forall any: Plan :: SometimesFaults(any, OPERAND.params, LowerAll(OPERAND.body, OPERAND_TYPED))
  {
    hide LowerAll, Assigned, Tidy, WellFormed, NoMisread, Live, Seen, HasBareReturns, Faults;
    OperandFlow();
    OperandIsTidy();
    OperandIsAssigned();
    OneScalar({"x"});
    forall any: Plan ensures SometimesFaults(any, OPERAND.params, OPERAND_CODE) {
      OperandFaults(any);
    }
    plan := PlanOf(OPERAND, OPERAND_TYPED);
  }

  /** `if c; p end; p = ""; p`, where the first `p` is the builtin. */
  const LONE := Function([Param("c", false)], [
    Expr(0, If(Expr(1, Var("c")), [Expr(2, Var("p"))], NoElse)),
    Expr(3, Assign(Expr(4, Var("p")), Expr(5, Str([])))), Expr(6, Var("p"))], false)

  const LONE_TYPED := Typed({"p"}, map[], map[2 := Prints])

  const LONE_CODE :=
    Seq(Seq(Nop, Branch(0, Then, Seq(Misread(2, "p"), Nop), Else, Nop)),
        Seq(Seq(Nop, Define(3, "p")), Seq(Read(6, "p"), Nop)))

  lemma LoneFlow()
    ensures LowerAll(LONE.body, LONE_TYPED) == LONE_CODE && !HasBareReturns(LONE.body)
  {}

  lemma LoneIsTidy()
    ensures WellFormed(LONE_CODE) && Tidy(LONE_CODE) && Live(LONE_CODE, {}) == {}
  {}

  lemma LoneIsAssigned()
    ensures Assigned(LONE_CODE, Scope({"c"}, {"c"}), true).Some?
    ensures Assigned(LONE_CODE, Scope({"c"}, {"c"}), false).Some?
  {}

  /** The analysis takes the builtin for a read of the variable, and so has the other side of the `if`
      drop a `p` not assigned yet. */
  method LoneBuiltinBreaksPlan() returns (plan: Option<Plan>)
    ensures Accepted(LONE, LONE_TYPED, true) && Accepted(LONE, LONE_TYPED, false)
    ensures plan.Some? && Faults(plan.value, LONE.params, LowerAll(LONE.body, LONE_TYPED), [false, false, false, false])
    ensures Live(LowerAll(LONE.body, LONE_TYPED), {}) == {}
  {
    hide LowerAll, Assigned, Tidy, WellFormed, NoMisread, Live, Seen, HasBareReturns, Faults, PlanFor;
    LoneFlow();
    LoneIsTidy();
    LoneIsAssigned();
    OneScalar({"p"});
    plan := PlanOf(LONE, LONE_TYPED);
    LoneFaults(plan.value);
  }

  lemma LoneFaults(plan: Plan)
    requires PlanFor(plan, LONE.params, {"p"}, Seen(LONE_CODE))
    ensures Faults(plan, LONE.params, LONE_CODE, [false, false, false, false])
  {
    var live := Live(Seen(LONE_CODE), {});
    assert Live(Seen(LONE_CODE.second), {}) == {};
    assert "p" in plan.Drops(0, Else);
    OneScalar({"p"});
    assert plan.entry == [];
  }

  /** Parameters `(a: String, a: String)`. */
  const NAMESAKES := Function([Param("a", true), Param("a", true)], [], false)

  /** The second takes the place of the first, whose reference is lost at once. */
  method NamesakesBreakPlan() returns (plan: Option<Plan>)
    ensures Accepted(NAMESAKES, Typed({"a"}, map[], map[]), true)
    ensures plan.Some? && Faults(plan.value, NAMESAKES.params, LowerAll(NAMESAKES.body, Typed({"a"}, map[], map[])), [])
  {
    plan := PlanOf(NAMESAKES, Typed({"a"}, map[], map[]));
  }
}
