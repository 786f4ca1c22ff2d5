/** What the parser reads from an expression whose operators lack parentheses: the same tokens,
    grouped as the binding powers want. */
module Regrouping {
  import opened Operators
  import opened PrattParser

  /** Proper, but that operands of infix operators may lack parentheses. */
  predicate Loose(e: Expr)
    decreases e
  {
    match e
    case Postfix(recv, form) => IsAtom(recv) && Loose(recv) && LooseForm(form)
    case Unary(op, x) =>
      Loose(x) && if op.Neg? then LeftPower(x) >= 24 && TakesMinus(x) else IsAtom(x) || x.Unary?
    case Infix(_, l, r) => Loose(l) && Loose(r) && !l.Assign? && !r.Assign?
    case Assign(_, target, value) => IsAssignable(target) && Loose(target) && Loose(value)
    case Group(x) => Loose(x)
    case _ => true
  }

  predicate LooseForm(form: Form)
    decreases form
  {
    match form
    case Invoke(_, args) => forall i :: 0 <= i < |args| ==> Loose(args[i])
    case Index(args) => forall i :: 0 <= i < |args| ==> Loose(args[i])
    case _ => true
  }

  // ── Joining two operands ─────────────────────────────────

  predicate Fits(l: Expr, op: Op, r: Expr) { Edge(l) > Binding(op).0 && LeftPower(r) >= Binding(op).1 }

  /** What is read from the tokens of `l`, an operator and those of `r`. */
  function Join(l: Expr, op: Op, r: Expr): Expr
    decreases r, l
  {
    if r.Infix? && LeftPower(r) < Binding(op).1 then Join(Join(l, op, r.lhs), r.op, r.rhs)
    else if Edge(l) > Binding(op).0 then Infix(op, l, r)
    else match l
      case Infix(o, a, b) => Infix(o, a, Join(b, op, r))
      case Unary(u, x) => Unary(u, Join(x, op, r))
      case Number(_, n) => Unary(Neg, Infix(op, Number(false, n), r))
      case _ => Infix(op, l, r)
  }

  /** A minus sign before these tokens is an operator. */
  predicate MinusStands(ts: seq<Token>) { ts == [] || !ts[0].TNum? || At(ts[1..], TOp(Bin(Pow))) }

  lemma StandsIffTakes(x: Expr)
    requires Proper(x) && LeftPower(x) >= 24
    ensures MinusStands(Flat(x)) <==> TakesMinus(x)
  {
    LeadsWithItsNumber(x);
    if x.Infix? {
      LeadsWithItsNumber(x.lhs);
      if x.lhs.Number? && !x.lhs.negative {
        assert Flat(x)[1] == TOp(x.op);
      } else if LeadsWithNumber(x) {
        SecondToken(x.lhs);
      }
    } else if LeadsWithNumber(x) {
      SecondToken(x);
    }
  }

  /** What starts with a number, and is more than the number, goes on with a form or an operator. */
  lemma {:induction false} SecondToken(e: Expr)
    requires Proper(e) && LeadsWithNumber(e) && LeftPower(e) >= 24
    ensures e.Number? ==> |Flat(e)| == 1
    ensures e.Postfix? ==> |Flat(e)| > 1 && Flat(e)[1] != TOp(Bin(Pow))
  {
    if e.Postfix? {
      FormStarts(e.form);
      SecondToken(e.recv);
    }
  }

  /** Infix operators outside of forms and assignments. */
  function Infixes(e: Expr): nat {
    match e
    case Unary(_, x) => Infixes(x)
    case Infix(_, l, r) => Infixes(l) + 1 + Infixes(r)
    case Group(x) => Infixes(x)
    case _ => 0
  }

  lemma StripKeepsInfixes(e: Expr)
    ensures Infixes(Strip(e)) == Infixes(e)
  {}

  /** A join is proper, and made of the same tokens. */
  ghost predicate IsJoin(l: Expr, op: Op, r: Expr, j: Expr) {
    && Proper(j) && !j.Assign?
    && Flat(j) == Flat(l) + [TOp(op)] + Flat(r)
    && Infixes(j) == Infixes(l) + 1 + Infixes(r)
    && (LeftPower(r) >= Binding(op).1 ==>
          (LeftPower(j) >= LeftPower(l) || LeftPower(j) >= Binding(op).0)
          && (Edge(l) <= Binding(op).0 && (l.Unary? || l.Number?) ==> j.Unary?))
  }

  lemma {:induction false} JoinIsProper(l: Expr, op: Op, r: Expr)
    requires Proper(l) && Proper(r) && !l.Assign? && !r.Assign?
    ensures IsJoin(l, op, r, Join(l, op, r))
    decreases r, l
  {
    if r.Infix? && LeftPower(r) < Binding(op).1 {
      JoinIsProper(l, op, r.lhs);
      JoinIsProper(Join(l, op, r.lhs), r.op, r.rhs);
      assert Flat(r) == Flat(r.lhs) + [TOp(r.op)] + Flat(r.rhs);
      Regroup(Flat(l), [TOp(op)], Flat(r.lhs), [TOp(r.op)], Flat(r.rhs));
    } else if Edge(l) <= Binding(op).0 {
      if l.Infix? {
        JoinUnderInfix(l, op, r);
      } else if l.Unary? {
        JoinUnderUnary(l, op, r);
      } else {
        JoinNumber(l, op, r);
      }
    } else {
      JoinFits(l, op, r);
    }
  }

  lemma JoinFits(l: Expr, op: Op, r: Expr)
    requires Proper(l) && Proper(r) && !l.Assign? && !r.Assign? && Fits(l, op, r)
    ensures IsJoin(l, op, r, Infix(op, l, r))
  {}

  /** `n ** r`, which may come after a minus sign. */
  lemma NumberToPower(n: nat, r: Expr)
    requires Proper(r) && !r.Assign? && LeftPower(r) >= 24
    ensures var e := Infix(Bin(Pow), Number(false, n), r);
      Proper(e) && TakesMinus(e) && LeftPower(e) == 25 && Infixes(e) == 1 + Infixes(r)
      && Flat(e) == [TNum(n)] + [TOp(Bin(Pow))] + Flat(r)
  {}

  lemma NegativeNumber(n: nat)
    ensures Flat(Number(true, n)) == [MINUS] + [TNum(n)] && Infixes(Number(true, n)) == 0
  {}

  lemma NegIsProper(x: Expr)
    requires Proper(x) && LeftPower(x) >= 24 && TakesMinus(x)
    ensures Proper(Unary(Neg, x)) && LeftPower(Unary(Neg, x)) == 255
  {}

  lemma JoinNumber(l: Expr, op: Op, r: Expr)
    requires l.Number? && l.negative && Proper(r) && !r.Assign? && 25 <= Binding(op).0 && LeftPower(r) >= Binding(op).1
    ensures IsJoin(l, op, r, Unary(Neg, Infix(op, Number(false, l.digits), r)))
  {
    hide Proper, Flat, Infixes, TakesMinus, Edge;
    assert op == Bin(Pow);
    var power := Infix(op, Number(false, l.digits), r);
    NumberToPower(l.digits, r);
    NegIsProper(power);
    PrefixKeeps(Neg, power);
    NegativeNumber(l.digits);
    Regroup([], [MINUS], [TNum(l.digits)], [TOp(op)], Flat(r));
    assert [] + [MINUS] == [MINUS];
    hide Binding, LeftPower;
  }

  lemma PrefixKeeps(op: UnOp, x: Expr)
    ensures Infixes(Unary(op, x)) == Infixes(x) && Flat(Unary(op, x)) == [Prefix(op)] + Flat(x)
  {}

  lemma Regroup<T>(a: seq<T>, b: seq<T>, c: seq<T>, d: seq<T>, e: seq<T>)
    ensures (a + b + c) + d + e == a + b + (c + d + e)
  {}

  lemma {:induction false} JoinUnderInfix(l: Expr, op: Op, r: Expr)
    requires Proper(l) && Proper(r) && l.Infix? && !r.Assign?
    requires LeftPower(r) >= Binding(op).1 && Edge(l) <= Binding(op).0
    ensures IsJoin(l, op, r, Infix(l.op, l.lhs, Join(l.rhs, op, r)))
    decreases r, l, 0
  {
    var inner := Join(l.rhs, op, r);
    JoinIsProper(l.rhs, op, r);
    assert Flat(l) == Flat(l.lhs) + [TOp(l.op)] + Flat(l.rhs);
    Regroup(Flat(l.lhs), [TOp(l.op)], Flat(l.rhs), [TOp(op)], Flat(r));
  }

  lemma StandsLonger(a: seq<Token>, b: seq<Token>)
    requires a != [] && MinusStands(a)
    ensures MinusStands(a + [TOp(Bin(Pow))] + b)
  {
    var all := a + [TOp(Bin(Pow))] + b;
    assert all[0] == a[0] && all[1] == if |a| > 1 then a[1] else TOp(Bin(Pow));
  }

  lemma {:induction false} JoinUnderUnary(l: Expr, op: Op, r: Expr)
    requires Proper(l) && Proper(r) && l.Unary? && !r.Assign?
    requires LeftPower(r) >= Binding(op).1 && Edge(l) <= Binding(op).0
    ensures IsJoin(l, op, r, Unary(l.unop, Join(l.operand, op, r)))
    decreases r, l, 0
  {
    var x := l.operand;
    JoinIsProper(x, op, r);
    var inner := Join(x, op, r);
    EdgeIsHigh(l);
    assert op == Bin(Pow);
    if l.unop.Neg? {
      StandsIffTakes(x);
      StandsLonger(Flat(x), Flat(r));
      StandsIffTakes(inner);
      NegIsProper(inner);
    } else {
      EdgeIsHigh(x);
      NotIsProper(inner);
    }
    UnaryIsJoin(l.unop, x, op, r, inner);
  }

  lemma UnaryIsJoin(unop: UnOp, x: Expr, op: Op, r: Expr, inner: Expr)
    requires IsJoin(x, op, r, inner) && Proper(Unary(unop, inner))
    ensures IsJoin(Unary(unop, x), op, r, Unary(unop, inner))
  {
    hide Proper, Edge;
    PrefixKeeps(unop, x);
    PrefixKeeps(unop, inner);
    Regroup([], [Prefix(unop)], Flat(x), [TOp(op)], Flat(r));
    assert [] + [Prefix(unop)] == [Prefix(unop)];
  }

  lemma NotIsProper(x: Expr)
    requires Proper(x) && x.Unary?
    ensures Proper(Unary(Not, x)) && LeftPower(Unary(Not, x)) == 255
  {}

  /** Two operands that do not fit are joined into another tree: its top is a prefix operator, or an
      infix operator elsewhere. */
  lemma {:induction false} JoinDiffers(l: Expr, op: Op, r: Expr)
    requires Proper(l) && Proper(r) && !l.Assign? && !r.Assign? && !Fits(l, op, r)
    ensures var j := Join(l, op, r); j.Unary? || (j.Infix? && Infixes(j.lhs) != Infixes(l))
    decreases r
  {
    if r.Infix? && LeftPower(r) < Binding(op).1 {
      JoinIsProper(l, op, r.lhs);
      if !Fits(l, op, r.lhs) {
        JoinDiffers(l, op, r.lhs);
      }
    } else {
      EdgeIsHigh(r);
    }
  }

  // ── Prefix operators ─────────────────────────────────────

  /** What is read from a prefix operator and the tokens of `x`. */
  function Prefixed(op: UnOp, x: Expr): Expr
    decreases x
  {
    if !x.Infix? || (op.Neg? && LeftPower(x) >= 24) then Unary(op, x)
    else Infix(x.op, Prefixed(op, x.lhs), x.rhs)
  }

  /** A prefixed operand is proper, and made of the same tokens. */
  ghost predicate IsPrefixed(op: UnOp, x: Expr, j: Expr) {
    && Proper(j) && !j.Assign? && Flat(j) == [Prefix(op)] + Flat(x) && Infixes(j) == Infixes(x)
    && (Edge(j) >= Edge(x) || (op.Neg? && Edge(j) == 24))
  }

  lemma {:induction false} PrefixedIsProper(op: UnOp, x: Expr)
    requires Proper(x) && !x.Assign? && (op.Neg? ==> MinusStands(Flat(x)))
    ensures IsPrefixed(op, x, Prefixed(op, x))
    decreases x
  {
    if x.Infix? && !(op.Neg? && LeftPower(x) >= 24) {
      if op.Neg? {
        StandsShorter(Flat(x.lhs), x.op, Flat(x.rhs));
        assert Flat(x) == Flat(x.lhs) + [TOp(x.op)] + Flat(x.rhs);
      }
      PrefixedIsProper(op, x.lhs);
      PrefixedUnderInfix(op, x, Prefixed(op, x.lhs));
    } else {
      PrefixKeeps(op, x);
      if op.Neg? {
        StandsIffTakes(x);
        NegIsProper(x);
      }
    }
  }

  lemma PrefixedUnderInfix(op: UnOp, x: Expr, l: Expr)
    requires x.Infix? && Proper(x) && IsPrefixed(op, x.lhs, l) && (op.Neg? ==> LeftPower(x) < 24)
    ensures IsPrefixed(op, x, Infix(x.op, l, x.rhs))
  {
    assert Flat(x) == Flat(x.lhs) + [TOp(x.op)] + Flat(x.rhs);
    Joined([Prefix(op)], Flat(x.lhs), [TOp(x.op)] + Flat(x.rhs));
  }

  lemma StandsShorter(a: seq<Token>, op: Op, b: seq<Token>)
    requires a != [] && op != Bin(Pow)
    ensures MinusStands(a + [TOp(op)] + b) ==> MinusStands(a)
  {
    var all := a + [TOp(op)] + b;
    assert all[0] == a[0] && all[1] == if |a| > 1 then a[1] else TOp(op);
  }

  // ── Whole expressions ────────────────────────────────────

  /** What is read from the tokens of `e`, with the parentheses it has. */
  function Normal(e: Expr): Expr
    decreases e
  {
    match e
    case Postfix(recv, form) => Postfix(Normal(recv), NormalForm(form))
    case Unary(op, x) => Prefixed(op, Normal(x))
    case Infix(op, l, r) => Join(Normal(l), op, Normal(r))
    case Assign(op, target, value) => Assign(op, Normal(target), Normal(value))
    case Group(x) => Group(Normal(x))
    case _ => e
  }

  function NormalForm(form: Form): (f: Form)
    ensures f.Attr? == form.Attr? && f.Index? == form.Index?
    decreases form
  {
    match form
    case Invoke(name, args) => Invoke(name, NormalList(args))
    case Index(args) => Index(NormalList(args))
    case _ => form
  }

  function NormalList(args: seq<Expr>): (r: seq<Expr>)
    ensures |r| == |args| && forall i :: 0 <= i < |r| ==> r[i] == Normal(args[i])
    decreases args
  {
    if args == [] then [] else [Normal(args[0])] + NormalList(args[1..])
  }

  lemma TakesMinusStands(x: Expr)
    requires TakesMinus(x)
    ensures MinusStands(Flat(x))
  {
    LeadsWithItsNumber(x);
    if LeadsWithNumber(x) {
      assert Flat(x) == [TNum(x.lhs.digits)] + [TOp(Bin(Pow))] + Flat(x.rhs);
    }
  }

  /** `n` is proper, and written with the tokens of `e`. */
  predicate IsNormalOf(n: Expr, e: Expr) {
    && Proper(n) && Flat(n) == Flat(e) && Infixes(n) == Infixes(e)
    && n.Assign? == e.Assign? && (IsAtom(e) ==> IsAtom(n)) && (IsAssignable(e) ==> IsAssignable(n))
  }

  lemma {:induction false} NormalIsProper(e: Expr)
    requires Loose(e)
    ensures IsNormalOf(Normal(e), e)
    decreases e
  {
    match e {
      case Postfix(recv, form) => NormalPostfix(recv, form);
      case Unary(op, x) => NormalUnary(op, x);
      case Infix(op, l, r) =>
        NormalIsProper(l);
        NormalIsProper(r);
        JoinIsProper(Normal(l), op, Normal(r));
      case Assign(_, target, value) =>
        NormalIsProper(target);
        NormalIsProper(value);
      case Group(x) => NormalIsProper(x);
      case _ =>
    }
  }

  lemma {:induction false} NormalUnary(op: UnOp, x: Expr)
    requires Loose(Unary(op, x))
    ensures IsNormalOf(Normal(Unary(op, x)), Unary(op, x))
    decreases Unary(op, x), 0
  {
    NormalIsProper(x);
    if op.Neg? {
      TakesMinusStands(x);
    }
    PrefixedIsProper(op, Normal(x));
    PrefixKeeps(op, x);
  }

  lemma {:induction false} NormalPostfix(recv: Expr, form: Form)
    requires Loose(Postfix(recv, form))
    ensures IsNormalOf(Normal(Postfix(recv, form)), Postfix(recv, form))
    decreases Postfix(recv, form), 0
  {
    NormalIsProper(recv);
    if form.Invoke? || form.Index? {
      NormalListIsProper(form.args);
    }
  }

  lemma {:induction false} NormalListIsProper(args: seq<Expr>)
    requires forall i :: 0 <= i < |args| ==> Loose(args[i])
    ensures forall i :: 0 <= i < |args| ==> Proper(NormalList(args)[i])
    ensures FlatList(NormalList(args)) == FlatList(args)
    decreases args
  {
    if args != [] {
      NormalIsProper(args[0]);
      NormalListIsProper(args[1..]);
      assert NormalList(args)[1..] == NormalList(args[1..]);
      assert forall i :: 0 < i < |args| ==> NormalList(args)[i] == NormalList(args[1..])[i - 1];
    }
  }

  lemma {:induction false} NormalOfProper(e: Expr)
    requires Proper(e)
    ensures Normal(e) == e
    decreases e
  {
    match e {
      case Postfix(recv, form) =>
        NormalOfProper(recv);
        if form.Invoke? || form.Index? {
          forall i | 0 <= i < |form.args| ensures Normal(form.args[i]) == form.args[i] {
            NormalOfProper(form.args[i]);
          }
          assert NormalList(form.args) == form.args;
        }
      case Unary(_, x) => NormalOfProper(x);
      case Infix(_, l, r) =>
        NormalOfProper(l);
        NormalOfProper(r);
      case Assign(_, target, value) =>
        NormalOfProper(target);
        NormalOfProper(value);
      case Group(x) => NormalOfProper(x);
      case _ =>
    }
  }

  /** Where parentheses are missing, another tree is read. */
  lemma {:induction false} NormalDiffers(e: Expr)
    requires Loose(e) && !Proper(e)
    ensures Strip(Normal(e)) != Strip(e)
    decreases e
  {
    match e {
      case Postfix(recv, form) => if !Proper(recv) { NormalDiffers(recv); } else { FormDiffers(form); }
      case Unary(_, x) => NormalDiffers(x);
      case Infix(op, l, r) => InfixDiffers(op, l, r);
      case Assign(_, target, value) =>
        if !Proper(target) { NormalDiffers(target); } else { NormalDiffers(value); }
      case Group(x) => NormalDiffers(x);
      case _ =>
    }
  }

  lemma {:induction false} FormDiffers(form: Form)
    requires LooseForm(form) && !ProperForm(form)
    ensures StripForm(NormalForm(form)) != StripForm(form)
    decreases form
  {
    var i :| 0 <= i < |form.args| && !Proper(form.args[i]);
    NormalDiffers(form.args[i]);
    assert StripList(form.args)[i] != StripList(NormalList(form.args))[i];
  }

  lemma {:induction false} InfixDiffers(op: Op, l: Expr, r: Expr)
    requires Loose(Infix(op, l, r)) && !Proper(Infix(op, l, r))
    ensures Strip(Normal(Infix(op, l, r))) != Strip(Infix(op, l, r))
    decreases Infix(op, l, r), 0
  {
    NormalIsProper(l);
    NormalIsProper(r);
    if !Fits(Normal(l), op, Normal(r)) {
      JoinDiffers(Normal(l), op, Normal(r));
      var j := Join(Normal(l), op, Normal(r));
      if j.Infix? {
        StripKeepsInfixes(j.lhs);
        StripKeepsInfixes(l);
      }
    } else if !Proper(l) {
      NormalDiffers(l);
    } else if !Proper(r) {
      NormalDiffers(r);
    } else {
      NormalOfProper(l);
      NormalOfProper(r);
    }
  }

  /** What is read is the regrouped expression: another tree, unless no parentheses were missing. */
  lemma ReadsNormal(e: Expr)
    requires Loose(e)
    ensures ParseExpr(Flat(e)) == Got(Strip(Normal(e)), [])
    ensures Strip(Normal(e)) == Strip(e) <==> Proper(e)
  {
    NormalIsProper(e);
    ProperReads(Normal(e));
    if Proper(e) {
      NormalOfProper(e);
    } else {
      NormalDiffers(e);
    }
  }
}
