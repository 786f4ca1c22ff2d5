/** The parser of operator expressions, and what it reads from well-parenthesised ones. */
module PrattParser {
  import opened Wrappers
  import opened Operators

  /** What was read, and the tokens after it. */
  datatype Parsed<+T> = Fail | Got(value: T, rest: seq<Token>)

  predicate At(ts: seq<Token>, t: Token) { ts != [] && ts[0] == t }

  /** Assignment (right-associative), then operators. */
  function ParseExpr(ts: seq<Token>): (p: Parsed<Expr>)
    ensures p.Got? ==> |p.rest| < |ts|
    decreases |ts|, 5
  {
    match ParseBinary(ts, 0)
    case Fail => Fail
    case Got(lhs, rest) =>
      if rest == [] || !rest[0].TAssign? then Got(lhs, rest)
      else if !IsAssignable(lhs) then Fail
      else match ParseExpr(rest[1..])
        case Fail => Fail
        case Got(value, rest') => Got(Assign(rest[0].assign, lhs, value), rest')
  }

  /** Operators that take their left operand with at least `min`. */
  function ParseBinary(ts: seq<Token>, min: nat): (p: Parsed<Expr>)
    ensures p.Got? ==> |p.rest| < |ts|
    decreases |ts|, 4
  {
    match ParseUnary(ts)
    case Fail => Fail
    case Got(lhs, rest) => ParseOperators(lhs, rest, min)
  }

  function ParseOperators(lhs: Expr, ts: seq<Token>, min: nat): (p: Parsed<Expr>)
    ensures p.Got? ==> |p.rest| <= |ts|
    decreases |ts|, 0
  {
    if ts == [] || !ts[0].TOp? || Binding(ts[0].op).0 < min then Got(lhs, ts)
    else match ParseBinary(ts[1..], Binding(ts[0].op).1)
      case Fail => Fail
      case Got(rhs, rest) => ParseOperators(Infix(ts[0].op, lhs, rhs), rest, min)
  }

  /** A number right after a minus sign is a negative literal, unless `**` follows. */
  function ParseUnary(ts: seq<Token>): (p: Parsed<Expr>)
    ensures p.Got? ==> |p.rest| < |ts|
    decreases |ts|, 3
  {
    if At(ts, MINUS) then
      if |ts| >= 2 && ts[1].TNum? && !At(ts[2..], TOp(Bin(Pow))) then ParsePostfix(Number(true, ts[1].n), ts[2..])
      else match ParseBinary(ts[1..], 24)
        case Fail => Fail
        case Got(x, rest) => Got(Unary(Neg, x), rest)
    else if At(ts, TBang) then
      match ParseUnary(ts[1..])
      case Fail => Fail
      case Got(x, rest) => Got(Unary(Not, x), rest)
    else
      match ParsePrimary(ts)
      case Fail => Fail
      case Got(x, rest) => ParsePostfix(x, rest)
  }

  function ParsePostfix(x: Expr, ts: seq<Token>): (p: Parsed<Expr>)
    ensures p.Got? ==> |p.rest| <= |ts|
    decreases |ts|, 1
  {
    match ParseForm(ts)
    case Fail => Fail
    case Got(None, _) => Got(x, ts)
    case Got(Some(form), rest) => ParsePostfix(Postfix(x, form), rest)
  }

  function ParseForm(ts: seq<Token>): (p: Parsed<Option<Form>>)
    ensures p.Got? ==> |p.rest| <= |ts|
    ensures p.Got? && p.value.Some? ==> |p.rest| < |ts|
    decreases |ts|, 0
  {
    if At(ts, TDot) then
      if |ts| < 2 || !ts[1].TName? then Fail
      else if At(ts[2..], TOpen) then
        match ParseList(ts[3..], TClose)
        case Fail => Fail
        case Got(args, rest) => Got(Some(Invoke(ts[1].name, args)), rest)
      else Got(Some(Attr(ts[1].name)), ts[2..])
    else if At(ts, TBracket) then
      match ParseList(ts[1..], TUnbracket)
      case Fail => Fail
      case Got(args, rest) => Got(Some(Index(args)), rest)
    else if At(ts, TQuestion) then Got(Some(Try), ts[1..])
    else Got(None, ts)
  }

  function ParsePrimary(ts: seq<Token>): (p: Parsed<Expr>)
    ensures p.Got? ==> |p.rest| < |ts|
    decreases |ts|, 2
  {
    if ts == [] then Fail
    else match ts[0]
      case TNum(n) => Got(Number(false, n), ts[1..])
      case TName(name) => Got(Name(name), ts[1..])
      case TControl(id) => Got(Control(id), ts[1..])
      case TOpen =>
        (match ParseExpr(ts[1..])
         case Fail => Fail
         case Got(x, rest) => if At(rest, TClose) then Got(x, rest[1..]) else Fail)
      case _ => Fail
  }

  /** Expressions between commas, up to `close`. */
  function ParseList(ts: seq<Token>, close: Token): (p: Parsed<seq<Expr>>)
    ensures p.Got? ==> |p.rest| < |ts|
    decreases |ts|, 6
  {
    if At(ts, close) then Got([], ts[1..])
    else match ParseExpr(ts)
      case Fail => Fail
      case Got(x, rest) =>
        if At(rest, TComma) then
          match ParseList(rest[1..], close)
          case Fail => Fail
          case Got(xs, rest') => Got([x] + xs, rest')
        else if At(rest, close) then Got([x], rest[1..]) else Fail
  }

  // ── Reading what was written ─────────────────────────────

  /** What follows does not continue an expression whose end yields to `edge`. */
  predicate Ends(rest: seq<Token>, edge: nat) {
    rest == [] ||
    match rest[0]
    case TOp(op) => Binding(op).0 < edge
    case TDot | TBracket | TQuestion | TOpen => false
    case _ => true
  }

  predicate EndsAll(rest: seq<Token>) { Ends(rest, 0) && (rest == [] || !rest[0].TAssign?) }

  lemma NoForm(x: Expr, rest: seq<Token>, edge: nat)
    requires Ends(rest, edge)
    ensures ParsePostfix(x, rest) == Got(x, rest)
  {}

  lemma NoOperator(x: Expr, rest: seq<Token>, min: nat)
    requires Ends(rest, min)
    ensures ParseOperators(x, rest, min) == Got(x, rest)
  {}

  lemma Joined<T>(a: seq<T>, b: seq<T>, c: seq<T>)
    ensures (a + b) + c == a + (b + c)
  {}

  lemma LeafReads(e: Expr, rest: seq<Token>)
    requires e.Number? || e.Name? || e.Control?
    requires e.Number? && e.negative ==> !At(rest, TOp(Bin(Pow)))
    ensures ParseUnary(Flat(e) + rest) == ParsePostfix(e, rest)
  {
    hide ParsePostfix, ParseExpr, ParseBinary;
    assert (Flat(e) + rest)[|Flat(e)|..] == rest;
  }

  lemma GroupReads(inside: seq<Token>, x: Expr, rest: seq<Token>)
    requires ParseExpr(inside) == Got(x, [TClose] + rest)
    ensures ParseUnary([TOpen] + inside) == ParsePostfix(x, rest)
  {
    hide ParsePostfix, ParseExpr, ParseBinary;
    assert ([TOpen] + inside)[1..] == inside && ([TClose] + rest)[1..] == rest;
  }

  /** Tokens of an atom are read as the atom, then come its forms. */
  lemma {:induction false} AtomReads(e: Expr, rest: seq<Token>)
    requires Proper(e) && IsAtom(e) && !At(rest, TOpen)
    requires e.Number? && e.negative ==> !At(rest, TOp(Bin(Pow)))
    ensures ParseUnary(Flat(e) + rest) == ParsePostfix(Strip(e), rest)
    decreases e, 0
  {
    hide ParseUnary, ParseExpr;
    if e.Postfix? {
      Joined(Flat(e.recv), FlatForm(e.form), rest);
      FormStarts(e.form);
      AtomReads(e.recv, FlatForm(e.form) + rest);
      FormReads(e.form, rest);
    } else if e.Group? {
      var close := [TClose] + rest;
      assert Flat(e) + rest == [TOpen] + (Flat(e.inner) + close);
      ExprReads(e.inner, close);
      GroupReads(Flat(e.inner) + close, Strip(e.inner), rest);
    } else {
      LeafReads(e, rest);
    }
  }

  lemma FormStarts(form: Form)
    ensures FlatForm(form)[0] in {TDot, TBracket, TQuestion}
  {}

  lemma InvokeReads(name: string, inner: seq<Token>, args: seq<Expr>, rest: seq<Token>)
    requires ParseList(inner, TClose) == Got(args, rest)
    ensures ParseForm([TDot, TName(name), TOpen] + inner) == Got(Some(Invoke(name, args)), rest)
  {
    hide ParseList;
    var ts := [TDot, TName(name), TOpen] + inner;
    assert ts[3..] == inner && ts[2..][0] == TOpen;
  }

  lemma IndexReads(inner: seq<Token>, args: seq<Expr>, rest: seq<Token>)
    requires ParseList(inner, TUnbracket) == Got(args, rest)
    ensures ParseForm([TBracket] + inner) == Got(Some(Index(args)), rest)
  {
    hide ParseList;
    assert ([TBracket] + inner)[1..] == inner;
  }

  lemma {:induction false} FormReads(form: Form, rest: seq<Token>)
    requires ProperForm(form) && !At(rest, TOpen)
    ensures ParseForm(FlatForm(form) + rest) == Got(Some(StripForm(form)), rest)
    decreases form
  {
    hide ParseList, FlatList, Proper, StripList;
    var ts := FlatForm(form) + rest;
    match form
    case Attr(_) => assert ts[2..] == rest;
    case Invoke(name, args) =>
      var inner := FlatList(args) + ([TClose] + rest);
      assert ts == [TDot, TName(name), TOpen] + inner;
      ListReads(args, TClose, rest);
      InvokeReads(name, inner, StripList(args), rest);
    case Index(args) =>
      var inner := FlatList(args) + ([TUnbracket] + rest);
      assert ts == [TBracket] + inner;
      ListReads(args, TUnbracket, rest);
      IndexReads(inner, StripList(args), rest);
    case Try => assert ts[1..] == rest;
  }

  lemma NoClose(e: Expr)
    ensures Flat(e)[0] != TClose && Flat(e)[0] != TUnbracket
  {}

  /** One expression of a list, then the end or a comma and the others. */
  lemma ItemReads(ts: seq<Token>, close: Token, x: Expr, rest: seq<Token>)
    requires ts != [] && ts[0] != close && close != TComma && ParseExpr(ts) == Got(x, rest)
    ensures At(rest, close) ==> ParseList(ts, close) == Got([x], rest[1..])
    ensures At(rest, TComma) && ParseList(rest[1..], close).Got? ==>
      ParseList(ts, close) == Got([x] + ParseList(rest[1..], close).value, ParseList(rest[1..], close).rest)
  {
    hide ParseExpr;
  }

  lemma {:induction false} ListReads(args: seq<Expr>, close: Token, rest: seq<Token>)
    requires close == TClose || close == TUnbracket
    requires forall i :: 0 <= i < |args| ==> Proper(args[i])
    ensures ParseList(FlatList(args) + ([close] + rest), close) == Got(StripList(args), rest)
    decreases args
  {
    hide ParseExpr, Flat, Proper, Strip;
    var end := [close] + rest;
    assert end[1..] == rest;
    if args == [] {
      assert [] + end == end;
    } else {
      hide ParseList;
      NoClose(args[0]);
      if |args| == 1 {
        ExprReads(args[0], end);
        ItemReads(Flat(args[0]) + end, close, Strip(args[0]), end);
        assert StripList(args) == [Strip(args[0])];
      } else {
        var more := [TComma] + (FlatList(args[1..]) + end);
        assert FlatList(args) + end == Flat(args[0]) + more;
        ExprReads(args[0], more);
        ItemReads(Flat(args[0]) + more, close, Strip(args[0]), more);
        assert more[1..] == FlatList(args[1..]) + end;
        ListReads(args[1..], close, rest);
      }
    }
  }

  /** What takes no operand on its left is read as a whole. */
  lemma {:induction false} UnaryReads(e: Expr, rest: seq<Token>)
    requires Proper(e) && !e.Infix? && !e.Assign? && Ends(rest, Edge(e))
    ensures ParseUnary(Flat(e) + rest) == Got(Strip(e), rest)
    decreases e, 1
  {
    if e.Unary? {
      var x := e.operand;
      var ts := Flat(e) + rest;
      assert ts[1..] == Flat(x) + rest;
      if e.unop.Not? {
        UnaryReads(x, rest);
      } else {
        MinusIsOperator(x, rest);
        EdgeIsHigh(x);
        BinaryReads(x, rest, 24);
        NoOperator(Strip(x), rest, 24);
      }
    } else {
      AtomReads(e, rest);
      NoForm(Strip(e), rest, Edge(e));
    }
  }

  /** A minus sign before such an operand is not that of a literal. */
  lemma MinusIsOperator(x: Expr, rest: seq<Token>)
    requires Proper(x) && TakesMinus(x)
    ensures var ts := Flat(x) + rest; !ts[0].TNum? || At(ts[1..], TOp(Bin(Pow)))
  {
    LeadsWithItsNumber(x);
    if LeadsWithNumber(x) {
      assert Flat(x) == [TNum(x.lhs.digits)] + [TOp(Bin(Pow))] + Flat(x.rhs);
    }
  }

  /** An operand taking its left operand with at least `min` is read, then the operators go on. */
  lemma {:induction false} BinaryReads(e: Expr, rest: seq<Token>, min: nat)
    requires Proper(e) && !e.Assign? && min <= LeftPower(e) && Ends(rest, Edge(e))
    ensures ParseBinary(Flat(e) + rest, min) == ParseOperators(Strip(e), rest, min)
    decreases e, 2
  {
    if e.Infix? {
      var l, r := e.lhs, e.rhs;
      var tail := [TOp(e.op)] + (Flat(r) + rest);
      assert Flat(e) + rest == Flat(l) + tail;
      EdgeOfRight(e);
      BinaryReads(l, tail, min);
      BinaryReads(r, rest, Binding(e.op).1);
      NoOperator(Strip(r), rest, Binding(e.op).1);
      assert tail[1..] == Flat(r) + rest;
    } else {
      UnaryReads(e, rest);
    }
  }

  /** A well-parenthesised expression is read back, without its parentheses. */
  lemma {:induction false} ExprReads(e: Expr, rest: seq<Token>)
    requires Proper(e) && EndsAll(rest)
    ensures ParseExpr(Flat(e) + rest) == Got(Strip(e), rest)
    decreases e, 3
  {
    if e.Assign? {
      var tail := [TAssign(e.assign)] + (Flat(e.value) + rest);
      assert Flat(e) + rest == Flat(e.target) + tail;
      BinaryReads(e.target, tail, 0);
      NoOperator(Strip(e.target), tail, 0);
      assert tail[1..] == Flat(e.value) + rest;
      ExprReads(e.value, rest);
    } else {
      BinaryReads(e, rest, 0);
      NoOperator(Strip(e), rest, 0);
    }
  }

  /** A whole text. */
  lemma ProperReads(e: Expr)
    requires Proper(e)
    ensures ParseExpr(Flat(e)) == Got(Strip(e), [])
  {
    assert Flat(e) + [] == Flat(e);
    ExprReads(e, []);
  }
}
