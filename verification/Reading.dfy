/** How a tree may be written: the parser reads a text as a tree only if the text writes it with all
    the parentheses it needs, and nowhere else than it has them. */
module Reading {
  import opened Operators
  import opened PrattParser
  import opened Regrouping

  // ── Every text read is a well-parenthesised one ──────────

  /** The operator next, if any, takes the end of what comes before, which yields to `edge`, no more. */
  predicate Yields(rest: seq<Token>, edge: nat) { rest == [] || !rest[0].TOp? || Binding(rest[0].op).0 < edge }

  /** `c` is a well-parenthesised writing of `e`, made of the tokens of `ts` before `rest`. */
  ghost predicate Writes(c: Expr, e: Expr, ts: seq<Token>, rest: seq<Token>) {
    Proper(c) && Strip(c) == e && ts == Flat(c) + rest
  }

  /** No comma is left before the end of a list. */
  predicate Tidy(ts: seq<Token>) {
    forall i :: 0 <= i < |ts| - 1 && ts[i] == TComma ==> ts[i + 1] != TClose && ts[i + 1] != TUnbracket
  }

  lemma TidyRest(a: seq<Token>, b: seq<Token>)
    requires Tidy(a + b)
    ensures Tidy(b)
  {
    forall i | 0 <= i < |b| - 1 && b[i] == TComma ensures b[i + 1] != TClose && b[i + 1] != TUnbracket {
      assert (a + b)[|a| + i] == TComma && (a + b)[|a| + i + 1] == b[i + 1];
    }
  }

  lemma {:induction false} ExprWritten(ts: seq<Token>) returns (c: Expr)
    requires ParseExpr(ts).Got? && Tidy(ts)
    ensures Writes(c, ParseExpr(ts).value, ts, ParseExpr(ts).rest)
    decreases |ts|, 5
  {
    var lhs := ParseBinary(ts, 0);
    c := BinaryWritten(ts, 0);
    TidyRest(Flat(c), lhs.rest);
    if lhs.rest != [] && lhs.rest[0].TAssign? {
      var value := ExprWritten(lhs.rest[1..]);
      c := AssignWritten(c, lhs.rest[0].assign, value, ts, lhs.rest, ParseExpr(ts).rest);
    }
  }

  lemma AssignWritten(target: Expr, op: AssignOp, value: Expr, ts: seq<Token>, middle: seq<Token>, rest: seq<Token>)
    returns (c: Expr)
    requires Writes(target, Strip(target), ts, middle) && IsAssignable(Strip(target))
    requires middle != [] && middle[0] == TAssign(op) && Writes(value, Strip(value), middle[1..], rest)
    ensures Writes(c, Assign(op, Strip(target), Strip(value)), ts, rest)
  {
    c := Assign(op, target, value);
    assert middle == [TAssign(op)] + (Flat(value) + rest);
  }

  lemma {:induction false} BinaryWritten(ts: seq<Token>, min: nat) returns (c: Expr)
    requires ParseBinary(ts, min).Got? && min <= 255 && Tidy(ts)
    ensures var p := ParseBinary(ts, min);
      Writes(c, p.value, ts, p.rest) && !c.Assign? && LeftPower(c) >= min && Yields(p.rest, min)
    decreases |ts|, 4
  {
    var lhs := ParseUnary(ts);
    var l := UnaryWritten(ts);
    TidyRest(Flat(l), lhs.rest);
    c := OperatorsWritten(l, ts, lhs.rest, min);
  }

  lemma {:induction false} OperatorsWritten(l: Expr, all: seq<Token>, ts: seq<Token>, min: nat) returns (c: Expr)
    requires Writes(l, Strip(l), all, ts) && !l.Assign? && LeftPower(l) >= min && Yields(ts, Edge(l))
    requires ParseOperators(Strip(l), ts, min).Got? && Tidy(ts)
    ensures var p := ParseOperators(Strip(l), ts, min);
      Writes(c, p.value, all, p.rest) && !c.Assign? && LeftPower(c) >= min && Yields(p.rest, min)
    decreases |ts|, 0
  {
    if ts == [] || !ts[0].TOp? || Binding(ts[0].op).0 < min {
      c := l;
    } else {
      var op := ts[0].op;
      var rhs := ParseBinary(ts[1..], Binding(op).1);
      var r := BinaryWritten(ts[1..], Binding(op).1);
      InfixWritten(l, op, r, all, ts, rhs.rest);
      TidyRest(Flat(r), rhs.rest);
      c := OperatorsWritten(Infix(op, l, r), all, rhs.rest, min);
    }
  }

  lemma InfixWritten(l: Expr, op: Op, r: Expr, all: seq<Token>, ts: seq<Token>, rest: seq<Token>)
    requires Writes(l, Strip(l), all, ts) && Edge(l) > Binding(op).0
    requires At(ts, TOp(op)) && Writes(r, Strip(r), ts[1..], rest) && LeftPower(r) >= Binding(op).1
    ensures Writes(Infix(op, l, r), Infix(op, Strip(l), Strip(r)), all, rest)
  {
    assert ts == [TOp(op)] + (Flat(r) + rest);
    assert Flat(Infix(op, l, r)) + rest == Flat(l) + ts;
  }

  lemma {:induction false} UnaryWritten(ts: seq<Token>) returns (c: Expr)
    requires ParseUnary(ts).Got? && Tidy(ts)
    ensures var p := ParseUnary(ts);
      Writes(c, p.value, ts, p.rest) && (IsAtom(c) || c.Unary?) && Yields(p.rest, Edge(c))
    decreases |ts|, 3
  {
    hide ParsePostfix, ParsePrimary, ParseBinary, Flat, Proper, Edge, Strip;
    if At(ts, MINUS) {
      if |ts| >= 2 && ts[1].TNum? && !At(ts[2..], TOp(Bin(Pow))) {
        LiteralWritten(ts, ts[1].n);
        TidyRest(Flat(Number(true, ts[1].n)), ts[2..]);
        c := PostfixWritten(Number(true, ts[1].n), ts, ts[2..]);
      } else {
        TidyRest([ts[0]], ts[1..]);
        assert [ts[0]] + ts[1..] == ts;
        var x := BinaryWritten(ts[1..], 24);
        c := Unary(Neg, x);
        MinusWritten(x, ts, ParseUnary(ts).rest);
      }
    } else if At(ts, TBang) {
      TidyRest([ts[0]], ts[1..]);
      assert [ts[0]] + ts[1..] == ts;
      var x := UnaryWritten(ts[1..]);
      c := Unary(Not, x);
      BangWritten(x, ts, ParseUnary(ts).rest);
    } else {
      var x := PrimaryWritten(ts);
      TidyRest(Flat(x), ParsePrimary(ts).rest);
      c := PostfixWritten(x, ts, ParsePrimary(ts).rest);
    }
  }

  lemma LiteralWritten(ts: seq<Token>, n: nat)
    requires |ts| >= 2 && ts[0] == MINUS && ts[1] == TNum(n)
    ensures Writes(Number(true, n), Number(true, n), ts, ts[2..]) && Strip(Number(true, n)) == Number(true, n)
  {}

  lemma NotKeeps(x: Expr)
    requires Proper(x) && (IsAtom(x) || x.Unary?)
    ensures Proper(Unary(Not, x)) && Strip(Unary(Not, x)) == Unary(Not, Strip(x)) && Edge(Unary(Not, x)) == Edge(x)
  {}

  lemma BangWritten(x: Expr, ts: seq<Token>, rest: seq<Token>)
    requires At(ts, TBang) && Writes(x, Strip(x), ts[1..], rest)
    requires (IsAtom(x) || x.Unary?) && Yields(rest, Edge(x))
    ensures Writes(Unary(Not, x), Unary(Not, Strip(x)), ts, rest) && Yields(rest, Edge(Unary(Not, x)))
  {
    hide Flat, Proper, Strip, Edge, Binding;
    NotKeeps(x);
    PrefixKeeps(Not, x);
    assert ts == [TBang] + (Flat(x) + rest);
  }

  lemma MinusWritten(x: Expr, ts: seq<Token>, rest: seq<Token>)
    requires Proper(x) && !x.Assign? && LeftPower(x) >= 24 && Yields(rest, 24)
    requires At(ts, MINUS) && ts[1..] == Flat(x) + rest
    requires !(|ts| >= 2 && ts[1].TNum? && !At(ts[2..], TOp(Bin(Pow))))
    ensures Writes(Unary(Neg, x), Unary(Neg, Strip(x)), ts, rest) && Edge(Unary(Neg, x)) == 24
  {
    StandsIffTakes(x);
    assert ts[1] == Flat(x)[0];
    assert ts[2..] == ts[1..][1..];
    if |Flat(x)| > 1 {
      assert ts[2..][0] == Flat(x)[1];
    } else {
      assert ts[2..] == rest;
    }
    assert ts == [MINUS] + (Flat(x) + rest);
  }

  lemma {:induction false} PostfixWritten(x: Expr, all: seq<Token>, ts: seq<Token>) returns (c: Expr)
    requires Writes(x, Strip(x), all, ts) && IsAtom(x)
    requires x.Number? && x.negative ==> !At(ts, TOp(Bin(Pow)))
    requires ParsePostfix(Strip(x), ts).Got? && Tidy(ts)
    ensures var p := ParsePostfix(Strip(x), ts);
      Writes(c, p.value, all, p.rest) && IsAtom(c) && Yields(p.rest, Edge(c))
    decreases |ts|, 1
  {
    var form := ParseForm(ts);
    if form.value.None? {
      c := x;
    } else {
      var f := FormWritten(ts);
      FormAdded(x, f, all, ts, form.rest);
      TidyRest(FlatForm(f), form.rest);
      c := PostfixWritten(Postfix(x, f), all, form.rest);
    }
  }

  lemma FormAdded(x: Expr, f: Form, all: seq<Token>, ts: seq<Token>, rest: seq<Token>)
    requires Writes(x, Strip(x), all, ts) && IsAtom(x) && ProperForm(f) && ts == FlatForm(f) + rest
    ensures Writes(Postfix(x, f), Postfix(Strip(x), StripForm(f)), all, rest)
  {
    assert Flat(Postfix(x, f)) + rest == Flat(x) + ts;
  }

  lemma {:induction false} FormWritten(ts: seq<Token>) returns (f: Form)
    requires ParseForm(ts).Got? && ParseForm(ts).value.Some? && Tidy(ts)
    ensures ProperForm(f) && StripForm(f) == ParseForm(ts).value.value && ts == FlatForm(f) + ParseForm(ts).rest
    decreases |ts|, 0
  {
    hide ParseList, FlatList, Proper, StripList, FlatForm;
    var rest := ParseForm(ts).rest;
    if At(ts, TDot) {
      if At(ts[2..], TOpen) {
        TidyRest(ts[..3], ts[3..]);
        assert ts[..3] + ts[3..] == ts;
        var args := ListWritten(ts[3..], TClose);
        f := Invoke(ts[1].name, args);
        InvokeWritten(ts, args, rest);
      } else {
        f := Attr(ts[1].name);
        AttrWritten(ts);
      }
    } else if At(ts, TBracket) {
      var args := ListWritten(ts[1..], TUnbracket);
      f := Index(args);
      IndexWritten(ts, args, rest);
    } else {
      f := Try;
      assert ts == FlatForm(Try) + rest by {
        TryWritten(ts);
      }
    }
  }

  lemma InvokeWritten(ts: seq<Token>, args: seq<Expr>, rest: seq<Token>)
    requires |ts| >= 3 && ts[0] == TDot && ts[1].TName? && ts[2] == TOpen
    requires ts[3..] == FlatList(args) + ([TClose] + rest)
    ensures ts == FlatForm(Invoke(ts[1].name, args)) + rest
  {
    hide FlatList;
    assert ts == [TDot, TName(ts[1].name), TOpen] + ts[3..];
  }

  lemma IndexWritten(ts: seq<Token>, args: seq<Expr>, rest: seq<Token>)
    requires At(ts, TBracket) && ts[1..] == FlatList(args) + ([TUnbracket] + rest)
    ensures ts == FlatForm(Index(args)) + rest
  {
    hide FlatList;
    assert ts == [TBracket] + ts[1..];
  }

  lemma AttrWritten(ts: seq<Token>)
    requires |ts| >= 2 && ts[0] == TDot && ts[1].TName?
    ensures ts == FlatForm(Attr(ts[1].name)) + ts[2..]
  {}

  lemma TryWritten(ts: seq<Token>)
    requires At(ts, TQuestion)
    ensures ts == FlatForm(Try) + ts[1..]
  {}

  lemma {:induction false} PrimaryWritten(ts: seq<Token>) returns (c: Expr)
    requires ParsePrimary(ts).Got? && Tidy(ts)
    ensures var p := ParsePrimary(ts);
      Writes(c, p.value, ts, p.rest) && IsAtom(c) && !(c.Number? && c.negative)
    decreases |ts|, 2
  {
    match ts[0]
    case TNum(n) => c := Number(false, n);
    case TName(name) => c := Name(name);
    case TControl(id) => c := Control(id);
    case TOpen =>
      var x := ExprWritten(ts[1..]);
      var inside := ParseExpr(ts[1..]);
      c := Group(x);
      assert ts == [TOpen] + (Flat(x) + ([TClose] + inside.rest[1..]));
  }

  lemma {:induction false} ListWritten(ts: seq<Token>, close: Token) returns (args: seq<Expr>)
    requires ParseList(ts, close).Got? && Tidy(ts) && (close == TClose || close == TUnbracket)
    ensures var p := ParseList(ts, close);
      && (forall i :: 0 <= i < |args| ==> Proper(args[i])) && StripList(args) == p.value
      && ts == FlatList(args) + ([close] + p.rest)
    decreases |ts|, 6
  {
    hide ParseExpr, Proper, Flat;
    if At(ts, close) {
      args := [];
    } else {
      var first := ExprWritten(ts);
      var item := ParseExpr(ts);
      args := [first];
      TidyRest(Flat(first), item.rest);
      if At(item.rest, TComma) {
        assert item.rest[1..] != [] && item.rest[1..][0] == item.rest[1];
        var others := ListWritten(item.rest[1..], close);
        args := [first] + others;
        ItemsWritten(first, others, ts, item.rest, close, ParseList(ts, close).rest);
      } else {
        assert StripList(args) == [Strip(first)];
        assert item.rest == [close] + item.rest[1..];
      }
    }
  }

  lemma ItemsWritten(first: Expr, others: seq<Expr>, ts: seq<Token>, middle: seq<Token>, close: Token, rest: seq<Token>)
    requires ts == Flat(first) + middle && At(middle, TComma) && others != []
    requires middle[1..] == FlatList(others) + ([close] + rest)
    ensures ts == FlatList([first] + others) + ([close] + rest)
    ensures StripList([first] + others) == [Strip(first)] + StripList(others)
  {
    hide Flat;
    ListMore(first, others);
    hide FlatList;
    assert middle == [TComma] + (FlatList(others) + ([close] + rest));
  }

  lemma ListMore(first: Expr, others: seq<Expr>)
    requires others != []
    ensures FlatList([first] + others) == Flat(first) + [TComma] + FlatList(others)
    ensures StripList([first] + others) == [Strip(first)] + StripList(others)
  {
    assert ([first] + others)[1..] == others;
  }

  // ── A text has one writing of a tree ─────────────────────

  /** Open parentheses, less closed ones. */
  function Depth(ts: seq<Token>): int {
    if ts == [] then 0
    else Depth(ts[..|ts| - 1]) + (match ts[|ts| - 1] case TOpen => 1 case TClose => -1 case _ => 0)
  }

  lemma {:induction false} DepthAppend(a: seq<Token>, b: seq<Token>)
    ensures Depth(a + b) == Depth(a) + Depth(b)
  {
    if b == [] {
      assert a + b == a;
    } else {
      assert (a + b)[..|a + b| - 1] == a + b[..|b| - 1];
      DepthAppend(a, b[..|b| - 1]);
    }
  }

  /** Each parenthesis opened is closed, after. */
  ghost predicate Balanced(ts: seq<Token>) {
    Depth(ts) == 0 && forall k :: 0 <= k <= |ts| ==> Depth(ts[..k]) >= 0
  }

  lemma BalancedAppend(a: seq<Token>, b: seq<Token>)
    requires Balanced(a) && Balanced(b)
    ensures Balanced(a + b)
  {
    DepthAppend(a, b);
    forall k | 0 <= k <= |a + b| ensures Depth((a + b)[..k]) >= 0 {
      if k <= |a| {
        assert (a + b)[..k] == a[..k];
      } else {
        assert (a + b)[..k] == a + b[..k - |a|];
        DepthAppend(a, b[..k - |a|]);
      }
    }
  }

  /** Inside a pair of parentheses, it is not closed yet. */
  lemma InsidePair(a: seq<Token>, k: nat)
    requires Balanced(a) && 0 < k < |a| + 2
    ensures Depth(([TOpen] + a + [TClose])[..k]) >= 1
  {
    var ts := [TOpen] + a + [TClose];
    assert ts[..k] == [TOpen] + a[..k - 1];
    DepthAppend([TOpen], a[..k - 1]);
    assert Depth([TOpen]) == 1 by {
      assert [TOpen][..0] == [];
    }
  }

  lemma BalancedPair(a: seq<Token>)
    requires Balanced(a)
    ensures Balanced([TOpen] + a + [TClose])
  {
    var ts := [TOpen] + a + [TClose];
    assert Depth([TOpen]) == 1 && Depth([TClose]) == -1 by {
      assert [TOpen][..0] == [] && [TClose][..0] == [];
    }
    DepthAppend([TOpen], a);
    DepthAppend([TOpen] + a, [TClose]);
    forall k | 0 <= k <= |ts| ensures Depth(ts[..k]) >= 0 {
      if 0 < k < |a| + 2 {
        InsidePair(a, k);
      } else if k == 0 {
        assert ts[..0] == [];
      } else {
        assert ts[..k] == ts;
      }
    }
  }

  lemma BalancedOne(t: Token)
    requires t != TOpen && t != TClose
    ensures Balanced([t]) && Balanced([])
  {
    assert [t][..0] == [] && [t][..1] == [t];
  }

  lemma {:induction false} FlatIsBalanced(e: Expr)
    ensures Balanced(Flat(e))
    decreases e, 0
  {
    match e {
      case Number(negative, n) =>
        BalancedOne(MINUS);
        BalancedOne(TNum(n));
        BalancedAppend([MINUS], [TNum(n)]);
        assert [MINUS] + [TNum(n)] == [MINUS, TNum(n)];
      case Name(name) => BalancedOne(TName(name));
      case Control(id) => BalancedOne(TControl(id));
      case Postfix(recv, form) =>
        FlatIsBalanced(recv);
        FormIsBalanced(form);
        BalancedAppend(Flat(recv), FlatForm(form));
      case Unary(op, x) =>
        BalancedOne(Prefix(op));
        FlatIsBalanced(x);
        BalancedAppend([Prefix(op)], Flat(x));
      case Infix(op, l, r) =>
        FlatIsBalanced(l);
        FlatIsBalanced(r);
        BalancedBetween(Flat(l), TOp(op), Flat(r));
      case Assign(op, target, value) =>
        FlatIsBalanced(target);
        FlatIsBalanced(value);
        BalancedBetween(Flat(target), TAssign(op), Flat(value));
      case Group(x) =>
        FlatIsBalanced(x);
        BalancedPair(Flat(x));
    }
  }

  lemma BalancedBetween(a: seq<Token>, t: Token, b: seq<Token>)
    requires Balanced(a) && Balanced(b) && t != TOpen && t != TClose
    ensures Balanced(a + [t] + b)
  {
    BalancedOne(t);
    BalancedAppend(a, [t]);
    BalancedAppend(a + [t], b);
  }

  lemma {:induction false} FormIsBalanced(form: Form)
    ensures Balanced(FlatForm(form))
    decreases form
  {
    BalancedOne(TDot);
    BalancedOne(TBracket);
    BalancedOne(TUnbracket);
    BalancedOne(TQuestion);
    match form {
      case Attr(name) =>
        BalancedOne(TName(name));
        BalancedAppend([TDot], [TName(name)]);
        assert FlatForm(form) == [TDot] + [TName(name)];
      case Invoke(name, args) =>
        ListIsBalanced(args);
        InvokeIsBalanced(name, args);
      case Index(args) =>
        ListIsBalanced(args);
        BalancedAppend([TBracket], FlatList(args));
        BalancedAppend([TBracket] + FlatList(args), [TUnbracket]);
      case Try =>
    }
  }

  lemma InvokeIsBalanced(name: string, args: seq<Expr>)
    requires Balanced(FlatList(args))
    ensures Balanced(FlatForm(Invoke(name, args)))
  {
    hide Balanced, FlatList;
    BalancedOne(TDot);
    BalancedOne(TName(name));
    BalancedAppend([TDot], [TName(name)]);
    BalancedPair(FlatList(args));
    BalancedAppend([TDot] + [TName(name)], [TOpen] + FlatList(args) + [TClose]);
    assert FlatForm(Invoke(name, args)) == [TDot] + [TName(name)] + ([TOpen] + FlatList(args) + [TClose]);
  }

  lemma {:induction false} ListIsBalanced(args: seq<Expr>)
    ensures Balanced(FlatList(args))
    decreases args
  {
    BalancedOne(TComma);
    if args != [] {
      FlatIsBalanced(args[0]);
      ListIsBalanced(args[1..]);
      BalancedBetween(Flat(args[0]), TComma, FlatList(args[1..]));
    }
  }

  /** Tokens other than parentheses. */
  function Weight(ts: seq<Token>): nat {
    if ts == [] then 0 else (if ts[0] == TOpen || ts[0] == TClose then 0 else 1) + Weight(ts[1..])
  }

  lemma {:induction false} WeightAppend(a: seq<Token>, b: seq<Token>)
    ensures Weight(a + b) == Weight(a) + Weight(b)
  {
    if a == [] {
      assert a + b == b;
    } else {
      assert (a + b)[1..] == a[1..] + b;
      WeightAppend(a[1..], b);
    }
  }

  /** Writings of the same tree differ by their parentheses only. */
  lemma {:induction false} StripWeighs(e: Expr)
    ensures Weight(Flat(Strip(e))) == Weight(Flat(e))
    decreases e, 0
  {
    match e {
      case Postfix(recv, form) =>
        StripWeighs(recv);
        StripFormWeighs(form);
        WeightAppend(Flat(recv), FlatForm(form));
        WeightAppend(Flat(Strip(recv)), FlatForm(StripForm(form)));
      case Unary(op, x) =>
        StripWeighs(x);
        WeightAppend([Prefix(op)], Flat(x));
        WeightAppend([Prefix(op)], Flat(Strip(x)));
      case Infix(op, l, r) =>
        StripWeighs(l);
        StripWeighs(r);
        WeighsBetween(Flat(l), TOp(op), Flat(r));
        WeighsBetween(Flat(Strip(l)), TOp(op), Flat(Strip(r)));
      case Assign(op, target, value) =>
        StripWeighs(target);
        StripWeighs(value);
        WeighsBetween(Flat(target), TAssign(op), Flat(value));
        WeighsBetween(Flat(Strip(target)), TAssign(op), Flat(Strip(value)));
      case Group(x) =>
        StripWeighs(x);
        WeighsPair(Flat(x));
      case _ =>
    }
  }

  lemma WeighsBetween(a: seq<Token>, t: Token, b: seq<Token>)
    ensures Weight(a + [t] + b) == Weight(a) + Weight([t]) + Weight(b)
  {
    WeightAppend(a, [t]);
    WeightAppend(a + [t], b);
  }

  lemma WeighsPair(a: seq<Token>)
    ensures Weight([TOpen] + a + [TClose]) == Weight(a)
  {
    WeightAppend([TOpen], a);
    WeightAppend([TOpen] + a, [TClose]);
    assert [TOpen][1..] == [] && [TClose][1..] == [];
  }

  lemma {:induction false} StripFormWeighs(form: Form)
    ensures Weight(FlatForm(StripForm(form))) == Weight(FlatForm(form))
    decreases form
  {
    match form {
      case Invoke(name, args) =>
        StripListWeighs(args);
        var start := [TDot, TName(name), TOpen];
        WeightAppend(start, FlatList(args));
        WeightAppend(start + FlatList(args), [TClose]);
        WeightAppend(start, FlatList(StripList(args)));
        WeightAppend(start + FlatList(StripList(args)), [TClose]);
      case Index(args) =>
        StripListWeighs(args);
        WeighsBetween([TBracket] + FlatList(args), TUnbracket, []);
        WeightAppend([TBracket], FlatList(args));
        WeightAppend([TBracket] + FlatList(args), [TUnbracket]);
        WeightAppend([TBracket], FlatList(StripList(args)));
        WeightAppend([TBracket] + FlatList(StripList(args)), [TUnbracket]);
      case _ =>
    }
  }

  lemma {:induction false} StripListWeighs(args: seq<Expr>)
    ensures Weight(FlatList(StripList(args))) == Weight(FlatList(args))
    decreases args
  {
    if args != [] {
      StripWeighs(args[0]);
      StripListWeighs(args[1..]);
      assert StripList(args)[1..] == StripList(args[1..]);
      WeighsBetween(Flat(args[0]), TComma, FlatList(args[1..]));
      WeighsBetween(Flat(Strip(args[0])), TComma, FlatList(StripList(args[1..])));
    }
  }

  /** Where two parts of equal weight come before tokens that weigh, they are the same. */
  lemma SameSplit(a: seq<Token>, s: seq<Token>, b: seq<Token>, t: seq<Token>)
    requires a + s == b + t && Weight(a) == Weight(b) && s != [] && t != []
    requires s[0] != TOpen && s[0] != TClose && t[0] != TOpen && t[0] != TClose
    ensures a == b && s == t
  {
    if |a| < |b| {
      ShorterSplit(a, s, b, t);
    } else if |b| < |a| {
      ShorterSplit(b, t, a, s);
    } else {
      assert a == (a + s)[..|a|] == b && s == (a + s)[|a|..] == t;
    }
  }

  lemma ShorterSplit(a: seq<Token>, s: seq<Token>, b: seq<Token>, t: seq<Token>)
    requires a + s == b + t && |a| < |b| && s != [] && s[0] != TOpen && s[0] != TClose
    ensures Weight(a) < Weight(b)
  {
    var more := b[|a|..];
    assert b == a + more by {
      assert a == (a + s)[..|a|] == (b + t)[..|a|] == b[..|a|];
    }
    assert more[0] == (b + t)[|a|] == (a + s)[|a|] == s[0];
    WeightAppend(a, more);
  }

  /** Two writings of one tree with the same tokens are the same. */
  lemma {:induction false} OneWriting(c: Expr, d: Expr)
    requires Strip(c) == Strip(d) && Flat(c) == Flat(d)
    ensures c == d
    decreases c, 1
  {
    if c.Group? && d.Group? {
      assert Flat(c.inner) == Flat(c)[1..|Flat(c)| - 1] && Flat(d.inner) == Flat(d)[1..|Flat(d)| - 1];
      OneWriting(c.inner, d.inner);
    } else if c.Group? {
      GroupStandsOut(c, d);
    } else if d.Group? {
      GroupStandsOut(d, c);
    } else {
      OneWritingInside(c, d);
    }
  }

  /** What starts with an opening parenthesis and is no group goes on after it is closed. */
  lemma GroupStandsOut(c: Expr, d: Expr)
    requires c.Group? && !d.Group?
    ensures Flat(c) != Flat(d)
  {
    assert Flat(c)[0] == TOpen;
    if d.Postfix? || d.Infix? || d.Assign? {
      var first := match d case Postfix(recv, _) => recv case Infix(_, l, _) => l case Assign(_, target, _) => target;
      var k := |Flat(first)|;
      assert Flat(d)[..k] == Flat(first) && 0 < k < |Flat(d)|;
      FlatIsBalanced(first);
      FlatIsBalanced(c.inner);
      if Flat(c) == Flat(d) {
        InsidePair(Flat(c.inner), k);
        assert false;
      }
    } else {
      assert Flat(d)[0] != TOpen;
    }
  }

  lemma {:induction false} OneWritingInside(c: Expr, d: Expr)
    requires Strip(c) == Strip(d) && Flat(c) == Flat(d) && !c.Group? && !d.Group?
    ensures c == d
    decreases c, 0
  {
    match c {
      case Postfix(recv, form) =>
        SameWeight(recv, d.recv);
        FormStarts(form);
        FormStarts(d.form);
        SameSplit(Flat(recv), FlatForm(form), Flat(d.recv), FlatForm(d.form));
        OneWriting(recv, d.recv);
        OneForm(form, d.form);
      case Unary(op, x) =>
        assert Flat(x) == Flat(c)[1..] && Flat(d.operand) == Flat(d)[1..];
        OneWriting(x, d.operand);
      case Infix(op, l, r) =>
        SameBetween(l, TOp(op), Flat(r), d.lhs, Flat(d.rhs));
        OneWriting(l, d.lhs);
        OneWriting(r, d.rhs);
      case Assign(op, target, value) =>
        SameBetween(target, TAssign(op), Flat(value), d.target, Flat(d.value));
        OneWriting(target, d.target);
        OneWriting(value, d.value);
      case _ =>
    }
  }

  lemma SameWeight(c: Expr, d: Expr)
    requires Strip(c) == Strip(d)
    ensures Weight(Flat(c)) == Weight(Flat(d))
  {
    StripWeighs(c);
    StripWeighs(d);
  }

  lemma SameBetween(c: Expr, t: Token, after: seq<Token>, d: Expr, other: seq<Token>)
    requires Strip(c) == Strip(d) && t != TOpen && t != TClose
    requires Flat(c) + [t] + after == Flat(d) + [t] + other
    ensures Flat(c) == Flat(d) && after == other
  {
    SameWeight(c, d);
    assert Flat(c) + [t] + after == Flat(c) + ([t] + after) && Flat(d) + [t] + other == Flat(d) + ([t] + other);
    SameSplit(Flat(c), [t] + after, Flat(d), [t] + other);
    assert after == ([t] + after)[1..] && other == ([t] + other)[1..];
  }

  lemma {:induction false} OneForm(f: Form, g: Form)
    requires StripForm(f) == StripForm(g) && FlatForm(f) == FlatForm(g)
    ensures f == g
    decreases f
  {
    match f {
      case Invoke(name, args) =>
        assert FlatList(args) == FlatForm(f)[3..|FlatForm(f)| - 1];
        assert FlatList(g.args) == FlatForm(g)[3..|FlatForm(g)| - 1];
        OneList(args, g.args);
      case Index(args) =>
        assert FlatList(args) == FlatForm(f)[1..|FlatForm(f)| - 1];
        assert FlatList(g.args) == FlatForm(g)[1..|FlatForm(g)| - 1];
        OneList(args, g.args);
      case _ =>
    }
  }

  lemma {:induction false} OneList(a: seq<Expr>, b: seq<Expr>)
    requires StripList(a) == StripList(b) && FlatList(a) == FlatList(b)
    ensures a == b
    decreases a
  {
    assert |a| == |StripList(a)| == |b|;
    if a != [] {
      assert Strip(a[0]) == StripList(a)[0] == Strip(b[0]);
      assert StripList(a[1..]) == StripList(a)[1..] == StripList(b[1..]);
      if |a| > 1 {
        SameBetween(a[0], TComma, FlatList(a[1..]), b[0], FlatList(b[1..]));
        OneList(a[1..], b[1..]);
      }
      OneWriting(a[0], b[0]);
      assert a == [a[0]] + a[1..] && b == [b[0]] + b[1..];
    }
  }

  // ── Reading back ─────────────────────────────────────────

  lemma TidyAppend(a: seq<Token>, b: seq<Token>)
    requires Tidy(a) && Tidy(b)
    requires b != [] && (b[0] == TClose || b[0] == TUnbracket) && a != [] ==> a[|a| - 1] != TComma
    ensures Tidy(a + b)
  {
    var ts := a + b;
    forall i | 0 <= i < |ts| - 1 && ts[i] == TComma ensures ts[i + 1] != TClose && ts[i + 1] != TUnbracket {
      assert ts[i] == if i < |a| then a[i] else b[i - |a|];
      assert ts[i + 1] == if i + 1 < |a| then a[i + 1] else b[i + 1 - |a|];
    }
  }

  /** Between what starts and ends with no comma and no closing parenthesis. */
  ghost predicate Clear(ts: seq<Token>) {
    Tidy(ts) && (ts != [] ==> ts[|ts| - 1] != TComma && ts[0] != TClose && ts[0] != TUnbracket)
  }

  lemma ClearBetween(a: seq<Token>, t: Token, b: seq<Token>)
    requires Clear(a) && Clear(b) && a != [] && b != [] && t != TClose && t != TUnbracket
    ensures Clear(a + [t] + b)
  {
    TidyAppend(a, [t]);
    TidyAppend(a + [t], b);
  }

  lemma ClearInside(open: seq<Token>, a: seq<Token>, close: Token)
    requires Clear(open) && open != [] && Clear(a) && close != TComma
    ensures Clear(open + a + [close])
  {
    TidyAppend(open, a);
    TidyAppend(open + a, [close]);
  }

  lemma {:induction false} FlatIsClear(e: Expr)
    ensures Clear(Flat(e))
    decreases e, 0
  {
    match e {
      case Postfix(recv, form) =>
        FlatIsClear(recv);
        FormIsClear(form);
        TidyAppend(Flat(recv), FlatForm(form));
      case Unary(op, x) =>
        FlatIsClear(x);
        TidyAppend([Prefix(op)], Flat(x));
      case Infix(op, l, r) =>
        FlatIsClear(l);
        FlatIsClear(r);
        ClearBetween(Flat(l), TOp(op), Flat(r));
      case Assign(op, target, value) =>
        FlatIsClear(target);
        FlatIsClear(value);
        ClearBetween(Flat(target), TAssign(op), Flat(value));
      case Group(x) =>
        FlatIsClear(x);
        ClearInside([TOpen], Flat(x), TClose);
      case _ =>
    }
  }

  lemma {:induction false} FormIsClear(form: Form)
    ensures Clear(FlatForm(form))
    decreases form
  {
    match form {
      case Invoke(name, args) =>
        ListIsClear(args);
        ClearInside([TDot, TName(name), TOpen], FlatList(args), TClose);
      case Index(args) =>
        ListIsClear(args);
        ClearInside([TBracket], FlatList(args), TUnbracket);
      case _ =>
    }
  }

  lemma {:induction false} ListIsClear(args: seq<Expr>)
    ensures Clear(FlatList(args))
    decreases args
  {
    if args != [] {
      FlatIsClear(args[0]);
      ListIsClear(args[1..]);
      if |args| > 1 {
        assert FlatList(args[1..]) != [];
        ClearBetween(Flat(args[0]), TComma, FlatList(args[1..]));
      }
    }
  }

  /** However a tree is written, its text is read back as it exactly when every operand, receiver and
      target that needs parentheses has them. */
  lemma ReadsBackIffProper(c: Expr)
    ensures ParseExpr(Flat(c)) == Got(Strip(c), []) <==> Proper(c)
  {
    if Proper(c) {
      ProperReads(c);
    }
    if ParseExpr(Flat(c)) == Got(Strip(c), []) {
      FlatIsClear(c);
      var d := ExprWritten(Flat(c));
      assert Flat(d) + [] == Flat(d);
      OneWriting(c, d);
    }
  }

  /** What is read is never ambiguous: the writings of any two trees differ, when both have the
      parentheses they need. */
  lemma TextsAreDistinct(c: Expr, d: Expr)
    requires Proper(c) && Proper(d) && Flat(c) == Flat(d)
    ensures c == d
  {
    ProperReads(c);
    ProperReads(d);
    OneWriting(c, d);
  }
}
