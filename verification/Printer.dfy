/** The printer of expressions: the parentheses the parser needs and, between operators, no more. */
module Printer {
  import opened Operators
  import opened PrattParser
  import opened Reading
  import opened Regrouping

  /** A tree the parser makes: no parentheses in it, and only assignable targets. */
  predicate IsTree(e: Expr)
    decreases e
  {
    match e
    case Postfix(recv, form) => IsTree(recv) && IsTreeForm(form)
    case Unary(_, x) => IsTree(x)
    case Infix(_, l, r) => IsTree(l) && IsTree(r)
    case Assign(_, target, value) => IsAssignable(target) && IsTree(target) && IsTree(value)
    case Group(_) => false
    case _ => true
  }

  predicate IsTreeForm(form: Form)
    decreases form
  {
    match form
    case Invoke(_, args) => forall i :: 0 <= i < |args| ==> IsTree(args[i])
    case Index(args) => forall i :: 0 <= i < |args| ==> IsTree(args[i])
    case _ => true
  }

  // ── Which operands are parenthesised ─────────────────────

  /** The printer's own table of binding powers. */
  function PowersOf(op: Op): (nat, nat) {
    match op
    case Bin(bin) =>
      (match bin
       case Or => (4, 5)
       case And => (6, 7)
       case Eq | NotEq | Match | Cmp => (8, 9)
       case Lt | Le | Gt | Ge => (10, 11)
       case BitOr | BitXor => (12, 13)
       case BitAnd => (14, 15)
       case Shl | Shr => (16, 17)
       case Add | Sub => (18, 19)
       case Mul | Div | Rem => (20, 21)
       case Pow => (25, 24))
    case Dots(_) => (2, 3)
  }

  /** It agrees with the parser's on every operator. */
  lemma TablesAgree(op: Op)
    ensures PowersOf(op) == Binding(op)
  {}

  /** Binding powers of the operator at the top of `e`; atoms take nothing. */
  function Powers(e: Expr): (nat, nat) {
    match e
    case Infix(op, _, _) => PowersOf(op)
    case Unary(op, _) => if op.Neg? then (255, 24) else (255, 26)
    case Assign(_, _, _) => (0, 0)
    case _ => (255, 255)
  }

  /** `e` is written starting with a number (`3`, `3.abs`, `2 * x`). */
  predicate StartsWithNumber(e: Expr) {
    match e
    case Number(_, _) => true
    case Postfix(recv, _) => StartsWithNumber(recv)
    case Infix(_, l, _) => StartsWithNumber(l)
    case _ => false
  }

  predicate NeedsAsLeft(e: Expr, power: nat) { Powers(e).1 <= power || e.Control? }

  predicate NeedsAsRight(e: Expr, power: nat) { Powers(e).0 < power || e.Control? }

  predicate NeedsAsReceiver(e: Expr) { Powers(e) != (255, 255) }

  predicate NeedsAfter(op: UnOp, e: Expr) {
    if op.Neg? then StartsWithNumber(e) || e.Unary? || Powers(e).0 < 24
    else Powers(e) != (255, 255) && !e.Unary?
  }

  function Wrap(e: Expr, parens: bool): Expr { if parens then Group(e) else e }

  /** The expression written for a tree. */
  function Shown(e: Expr): Expr
    decreases e
  {
    match e
    case Postfix(recv, form) => Postfix(Wrap(Shown(recv), NeedsAsReceiver(recv)), ShownForm(form))
    case Unary(op, x) => Unary(op, Wrap(Shown(x), NeedsAfter(op, x)))
    case Infix(op, l, r) =>
      Infix(op, Wrap(Shown(l), NeedsAsLeft(l, PowersOf(op).0)), Wrap(Shown(r), NeedsAsRight(r, PowersOf(op).1)))
    case Assign(op, target, value) => Assign(op, Shown(target), Shown(value))
    case Group(x) => Shown(x)
    case _ => e
  }

  function ShownForm(form: Form): (f: Form)
    ensures f.Attr? == form.Attr? && f.Index? == form.Index?
    decreases form
  {
    match form
    case Invoke(name, args) => Invoke(name, ShownList(args))
    case Index(args) => Index(ShownList(args))
    case _ => form
  }

  function ShownList(args: seq<Expr>): (r: seq<Expr>)
    ensures |r| == |args| && forall i :: 0 <= i < |r| ==> r[i] == Shown(args[i])
    decreases args
  {
    if args == [] then [] else [Shown(args[0])] + ShownList(args[1..])
  }

  // ── Printing ─────────────────────────────────────────────

  class Printer {
    var out: seq<Token>

    constructor ()
      ensures out == []
    {
      out := [];
    }

    method Write(ts: seq<Token>)
      modifies this
      ensures out == old(out) + ts
    {
      out := out + ts;
    }

    method Print(e: Expr)
      requires IsTree(e)
      modifies this
      ensures out == old(out) + Flat(Shown(e))
      decreases e, 1
    {
      hide PowersOf, NeedsAsLeft, NeedsAsRight, NeedsAsReceiver, NeedsAfter, Wrap, IsTreeForm, ShownForm, FlatForm;
      match e {
        case Number(negative, n) => Write(if negative then [MINUS, TNum(n)] else [TNum(n)]);
        case Name(name) => Write([TName(name)]);
        case Control(id) => Write([TControl(id)]);
        case Postfix(recv, form) =>
          MaybeParens(recv, NeedsAsReceiver(recv));
          PrintForm(form);
        case Unary(op, x) =>
          Write([Prefix(op)]);
          MaybeParens(x, NeedsAfter(op, x));
        case Infix(op, l, r) =>
          MaybeParens(l, NeedsAsLeft(l, PowersOf(op).0));
          Write([TOp(op)]);
          MaybeParens(r, NeedsAsRight(r, PowersOf(op).1));
        case Assign(op, target, value) =>
          Print(target);
          Write([TAssign(op)]);
          Print(value);
      }
    }

    method MaybeParens(e: Expr, parens: bool)
      requires IsTree(e)
      modifies this
      ensures out == old(out) + Flat(Wrap(Shown(e), parens))
      decreases e, 2
    {
      if parens {
        Write([TOpen]);
        Print(e);
        Write([TClose]);
      } else {
        Print(e);
      }
    }

    method PrintForm(form: Form)
      requires IsTreeForm(form)
      modifies this
      ensures out == old(out) + FlatForm(ShownForm(form))
      decreases form, 1
    {
      match form {
        case Attr(name) => Write([TDot, TName(name)]);
        case Invoke(name, args) =>
          Write([TDot, TName(name), TOpen]);
          PrintList(args);
          Write([TClose]);
        case Index(args) =>
          Write([TBracket]);
          PrintList(args);
          Write([TUnbracket]);
        case Try => Write([TQuestion]);
      }
    }

    method PrintList(args: seq<Expr>)
      requires forall i :: 0 <= i < |args| ==> IsTree(args[i])
      modifies this
      ensures out == old(out) + FlatList(ShownList(args))
      decreases args, 0
    {
      ghost var before := out;
      assert args[..0] == [] && FlatList(ShownList([])) == [];
      hide FlatList, ShownList, Flat, Shown;
      for i := 0 to |args|
        invariant out == before + FlatList(ShownList(args[..i]))
      {
        ShownListAppend(args[..i], args[i]);
        assert args[..i + 1] == args[..i] + [args[i]];
        ghost var done := FlatList(ShownList(args[..i]));
        var comma := if i > 0 then [TComma] else [];
        Write(comma);
        Print(args[i]);
        Joined(before, done, comma);
        Joined(before, done + comma, Flat(Shown(args[i])));
      }
      assert args[..|args|] == args;
    }
  }

  lemma {:induction false} ShownListAppend(args: seq<Expr>, e: Expr)
    ensures FlatList(ShownList(args + [e]))
         == FlatList(ShownList(args)) + (if args == [] then [] else [TComma]) + Flat(Shown(e))
    decreases |args|
  {
    if args == [] {
      assert ShownList([e]) == [Shown(e)];
    } else {
      assert (args + [e])[1..] == args[1..] + [e];
      ShownListAppend(args[1..], e);
      var all, front := ShownList(args + [e]), ShownList(args);
      assert all == [Shown(args[0])] + ShownList(args[1..] + [e]);
      assert front == [Shown(args[0])] + ShownList(args[1..]);
      assert all[1..] == ShownList(args[1..] + [e]) && front[1..] == ShownList(args[1..]);
    }
  }

  // ── Printing and parsing ─────────────────────────────────

  /** Written before `**` without parentheses, `e` gives its end away: `!-x ** 2` is `!(-(x ** 2))`,
      and `-3 ** 2` is `-(3 ** 2)`. */
  predicate GivesWay(e: Expr) {
    match e
    case Number(negative, _) => negative
    case Unary(op, x) => op.Not? && (GivesWay(x) || (x.Unary? && x.unop.Neg?))
    case _ => false
  }

  /** No power of such an operand. */
  predicate Clean(e: Expr)
    decreases e
  {
    match e
    case Postfix(recv, form) => Clean(recv) && CleanForm(form)
    case Unary(_, x) => Clean(x)
    case Infix(op, l, r) => Clean(l) && Clean(r) && !(op == Bin(Pow) && GivesWay(l))
    case Assign(_, target, value) => Clean(target) && Clean(value)
    case _ => true
  }

  predicate CleanForm(form: Form)
    decreases form
  {
    match form
    case Invoke(_, args) => forall i :: 0 <= i < |args| ==> Clean(args[i])
    case Index(args) => forall i :: 0 <= i < |args| ==> Clean(args[i])
    case _ => true
  }

  /** What is written looks like the tree from outside, and is the tree once read. */
  predicate Looks(c: Expr, e: Expr) {
    && Strip(c) == e && LeftPower(c) == Powers(e).0
    && IsAtom(c) == (Powers(e) == (255, 255)) && c.Unary? == e.Unary? && c.Assign? == e.Assign?
    && IsAssignable(c) == IsAssignable(e)
  }

  lemma {:induction false} ShownStarts(e: Expr)
    requires IsTree(e) && !e.Assign? && LeadsWithNumber(Shown(e))
    ensures StartsWithNumber(e)
    decreases e
  {
    if e.Postfix? {
      var r := Shown(e.recv);
      assert Shown(e).recv == Wrap(r, NeedsAsReceiver(e.recv));
      assert !NeedsAsReceiver(e.recv);
      ShownStarts(e.recv);
    } else if e.Infix? {
      var l := Shown(e.lhs);
      assert Shown(e).lhs == Wrap(l, NeedsAsLeft(e.lhs, Binding(e.op).0));
      assert !NeedsAsLeft(e.lhs, Binding(e.op).0);
      ShownStarts(e.lhs);
    }
  }

  lemma {:induction false} ShownIsLoose(e: Expr)
    requires IsTree(e)
    ensures Loose(Shown(e)) && Looks(Shown(e), e)
    decreases e
  {
    match e {
      case Postfix(recv, form) => ShownPostfix(recv, form);
      case Unary(op, x) =>
        ShownIsLoose(x);
        if op.Neg? && !NeedsAfter(op, x) && LeadsWithNumber(Shown(x)) {
          ShownStarts(x);
        }
      case Infix(op, l, r) =>
        ShownIsLoose(l);
        ShownIsLoose(r);
        ShownInfix(op, l, r);
      case Assign(_, target, value) =>
        ShownIsLoose(target);
        ShownIsLoose(value);
      case _ =>
    }
  }

  lemma ShownInfix(op: Op, l: Expr, r: Expr)
    requires Loose(Shown(l)) && Looks(Shown(l), l) && Loose(Shown(r)) && Looks(Shown(r), r)
    ensures Loose(Shown(Infix(op, l, r))) && Looks(Shown(Infix(op, l, r)), Infix(op, l, r))
  {}

  lemma {:induction false} ShownPostfix(recv: Expr, form: Form)
    requires IsTree(Postfix(recv, form))
    ensures Loose(Shown(Postfix(recv, form))) && Looks(Shown(Postfix(recv, form)), Postfix(recv, form))
    decreases Postfix(recv, form), 0
  {
    ShownIsLoose(recv);
    if form.Invoke? || form.Index? {
      ShownListIsLoose(form.args);
    }
  }

  lemma {:induction false} ShownListIsLoose(args: seq<Expr>)
    requires forall i :: 0 <= i < |args| ==> IsTree(args[i])
    ensures forall i :: 0 <= i < |args| ==> Loose(ShownList(args)[i])
    ensures StripList(ShownList(args)) == args
    decreases args
  {
    forall i | 0 <= i < |args| ensures Loose(Shown(args[i])) && Strip(Shown(args[i])) == args[i] {
      ShownIsLoose(args[i]);
    }
  }

  /** How far the end of a prefix operator, or of a number, extends. */
  lemma {:induction false} EdgeOfShown(e: Expr)
    requires IsTree(e) && (e.Unary? || Powers(e) == (255, 255))
    ensures Edge(Shown(e)) >= 24
    ensures Edge(Shown(e)) <= 25 <==> GivesWay(e) || (e.Unary? && e.unop.Neg?)
  {
    if e.Unary? && e.unop.Not? && !NeedsAfter(Not, e.operand) {
      EdgeOfShown(e.operand);
    }
  }

  lemma {:induction false} ProperIffClean(e: Expr)
    requires IsTree(e)
    ensures Proper(Shown(e)) <==> Clean(e)
    decreases e
  {
    match e {
      case Postfix(recv, form) =>
        ShownIsLoose(e);
        ProperIffClean(recv);
        if form.Invoke? || form.Index? {
          forall i | 0 <= i < |form.args| ensures Proper(ShownList(form.args)[i]) <==> Clean(form.args[i]) {
            ProperIffClean(form.args[i]);
          }
        }
      case Unary(_, x) =>
        ShownIsLoose(e);
        ProperIffClean(x);
      case Infix(op, l, r) =>
        ProperIffClean(l);
        ProperIffClean(r);
        OperandsFit(op, l, r);
      case Assign(_, target, value) =>
        ShownIsLoose(e);
        ProperIffClean(target);
        ProperIffClean(value);
      case _ =>
    }
  }

  lemma OperandsFit(op: Op, l: Expr, r: Expr)
    requires IsTree(l) && IsTree(r)
    ensures Edge(Wrap(Shown(l), NeedsAsLeft(l, Binding(op).0))) > Binding(op).0 <==> !(op == Bin(Pow) && GivesWay(l))
    ensures LeftPower(Wrap(Shown(r), NeedsAsRight(r, Binding(op).1))) >= Binding(op).1
  {
    ShownIsLoose(r);
    if l.Unary? || Powers(l) == (255, 255) {
      EdgeOfShown(l);
    }
  }

  /** A tree is read back from what is printed for it exactly when no `**` in it has a left operand
      that gives way. */
  lemma ReadsBackIffClean(e: Expr)
    requires IsTree(e)
    ensures ParseExpr(Flat(Shown(e))) == Got(e, []) <==> Clean(e)
  {
    ShownIsLoose(e);
    ProperIffClean(e);
    ReadsBackIffProper(Shown(e));
  }

  lemma ShownPower(x: Expr, n: nat)
    requires IsTree(x)
    ensures var e := Infix(Bin(Pow), Unary(Not, x), Number(false, n));
      IsTree(e) && Shown(e) == Infix(Bin(Pow), Shown(Unary(Not, x)), Number(false, n))
  {
    assert Powers(Unary(Not, x)).1 == 26 && Powers(Number(false, n)).0 == 255;
  }

  lemma ReadsNegatedPower(x: string, n: nat)
    ensures ParseExpr([TBang, MINUS, TName(x), TOp(Bin(Pow)), TNum(n)])
         == Got(Unary(Not, Unary(Neg, Infix(Bin(Pow), Name(x), Number(false, n)))), [])
  {
    var power := Infix(Bin(Pow), Name(x), Number(false, n));
    assert Proper(Name(x)) && Proper(Number(false, n)) && Strip(Name(x)) == Name(x);
    assert Edge(Name(x)) == 255 && LeftPower(Number(false, n)) == 255 && Flat(Number(false, n)) == [TNum(n)];
    assert Proper(power) && Strip(power) == power;
    assert Flat(power) == [TName(x)] + [TOp(Bin(Pow))] + [TNum(n)];
    var read := Unary(Not, Unary(Neg, power));
    PrefixKeeps(Neg, power);
    PrefixKeeps(Not, Unary(Neg, power));
    assert Proper(Unary(Neg, power)) && Strip(Unary(Neg, power)) == Unary(Neg, power);
    assert Proper(read) && Strip(read) == Unary(Not, Strip(Unary(Neg, power)));
    assert Flat(read) == [TBang, MINUS, TName(x), TOp(Bin(Pow)), TNum(n)];
    ProperReads(read);
  }

  /** The square of `!-x` is printed as the text of another expression. */
  lemma PowerOfNegationChanges(x: string)
    ensures var e := Infix(Bin(Pow), Unary(Not, Unary(Neg, Name(x))), Number(false, 2));
      IsTree(e) && ParseExpr(Flat(Shown(e))) == Got(Unary(Not, Unary(Neg, Infix(Bin(Pow), Name(x), Number(false, 2)))), [])
  {
    var minus := Unary(Neg, Name(x));
    assert IsTree(minus) && Shown(minus) == minus && Flat(minus) == [MINUS] + [TName(x)];
    assert Shown(Unary(Not, minus)) == Unary(Not, minus);
    PrefixKeeps(Not, minus);
    ShownPower(minus, 2);
    var shown := Infix(Bin(Pow), Unary(Not, minus), Number(false, 2));
    assert Flat(Number(false, 2)) == [TNum(2)];
    assert Flat(shown) == Flat(Unary(Not, minus)) + [TOp(Bin(Pow))] + [TNum(2)];
    assert Flat(shown) == [TBang, MINUS, TName(x), TOp(Bin(Pow)), TNum(2)];
    ReadsNegatedPower(x, 2);
  }

  // ── No pair between operators is left out ────────────────

  /** Every operand that the printer parenthesises for its operator is parenthesised. */
  predicate HasPairs(c: Expr)
    decreases c
  {
    match c
    case Postfix(recv, form) => HasPairs(recv) && HasPairsForm(form)
    case Unary(_, x) => HasPairs(x)
    case Infix(op, l, r) =>
      && (Strip(l).Infix? && NeedsAsLeft(Strip(l), Binding(op).0) ==> l.Group?)
      && (Strip(r).Infix? && NeedsAsRight(Strip(r), Binding(op).1) ==> r.Group?)
      && HasPairs(l) && HasPairs(r)
    case Assign(_, target, value) => HasPairs(target) && HasPairs(value)
    case Group(x) => HasPairs(x)
    case _ => true
  }

  predicate HasPairsForm(form: Form)
    decreases form
  {
    match form
    case Invoke(_, args) => forall i :: 0 <= i < |args| ==> HasPairs(args[i])
    case Index(args) => forall i :: 0 <= i < |args| ==> HasPairs(args[i])
    case _ => true
  }

  lemma {:induction false} ProperHasPairs(c: Expr)
    requires Proper(c)
    ensures HasPairs(c)
    decreases c
  {
    match c {
      case Postfix(recv, form) =>
        ProperHasPairs(recv);
        if form.Invoke? || form.Index? {
          forall i | 0 <= i < |form.args| ensures HasPairs(form.args[i]) {
            ProperHasPairs(form.args[i]);
          }
        }
      case Unary(_, x) => ProperHasPairs(x);
      case Infix(_, l, r) =>
        ProperHasPairs(l);
        ProperHasPairs(r);
      case Assign(_, target, value) =>
        ProperHasPairs(target);
        ProperHasPairs(value);
      case Group(x) => ProperHasPairs(x);
      case _ =>
    }
  }

  /** The pairs the printer adds between operators are all necessary: however else a tree is
      written, with whatever parentheses, if it is read back then those pairs are there. */
  lemma PairsAreNecessary(e: Expr, c: Expr)
    requires Strip(c) == e && ParseExpr(Flat(c)) == Got(e, [])
    ensures HasPairs(c)
  {
    ReadsBackIffProper(c);
    ProperHasPairs(c);
  }
}
