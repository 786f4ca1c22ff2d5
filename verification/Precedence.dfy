/** The order of the operators, without binding powers: which of two goes inside the other when both
    are written without parentheses, and which parentheses the printer therefore writes. */
module Precedence {
  import opened Operators
  import opened PrattParser
  import opened Printer

  /** The operators from the loosest to the tightest; those of one class go together. */
  const CLASSES: seq<seq<Op>> := [
    [Dots(true), Dots(false)],
    [Bin(Or)],
    [Bin(And)],
    [Bin(Eq), Bin(NotEq), Bin(Match), Bin(Cmp)],
    [Bin(Lt), Bin(Le), Bin(Gt), Bin(Ge)],
    [Bin(BitOr), Bin(BitXor)],
    [Bin(BitAnd)],
    [Bin(Shl), Bin(Shr)],
    [Bin(Add), Bin(Sub)],
    [Bin(Mul), Bin(Div), Bin(Rem)],
    [Bin(Pow)]
  ]

  predicate IsIn(op: Op, i: nat) { i < |CLASSES| && op in CLASSES[i] }

  /** `b` is of a tighter class than `a`. */
  ghost predicate Tighter(b: Op, a: Op) { exists i, j :: IsIn(a, i) && IsIn(b, j) && i < j }

  /** `b` is of the class of `a`, in which operators are grouped from the right: that of `**` alone. */
  ghost predicate FromRight(a: Op, b: Op) { a == Bin(Pow) && b == Bin(Pow) }

  /** Of `x a y b z`, the right part is an operand of `a`. */
  ghost predicate GoesRight(a: Op, b: Op) { Tighter(b, a) || FromRight(a, b) }

  /** Every operator is of a class, which is where its binding powers put it. */
  lemma ClassOf(op: Op) returns (i: nat)
    ensures IsIn(op, i)
  {
    i := (if op == Bin(Pow) then 10 else Binding(op).0 / 2 - 1);
    assert op in CLASSES[i] by {
      match op
      case Dots(inclusive) => assert CLASSES[0][if inclusive then 0 else 1] == op;
      case Bin(bin) =>
        match bin
        case Or => assert CLASSES[1][0] == op;
        case And => assert CLASSES[2][0] == op;
        case Eq => assert CLASSES[3][0] == op;
        case NotEq => assert CLASSES[3][1] == op;
        case Match => assert CLASSES[3][2] == op;
        case Cmp => assert CLASSES[3][3] == op;
        case Lt => assert CLASSES[4][0] == op;
        case Le => assert CLASSES[4][1] == op;
        case Gt => assert CLASSES[4][2] == op;
        case Ge => assert CLASSES[4][3] == op;
        case BitOr => assert CLASSES[5][0] == op;
        case BitXor => assert CLASSES[5][1] == op;
        case BitAnd => assert CLASSES[6][0] == op;
        case Shl => assert CLASSES[7][0] == op;
        case Shr => assert CLASSES[7][1] == op;
        case Add => assert CLASSES[8][0] == op;
        case Sub => assert CLASSES[8][1] == op;
        case Mul => assert CLASSES[9][0] == op;
        case Div => assert CLASSES[9][1] == op;
        case Rem => assert CLASSES[9][2] == op;
        case Pow => assert CLASSES[10][0] == op;
    }
  }

  lemma PowersOfClass(op: Op, i: nat)
    requires IsIn(op, i)
    ensures Binding(op).0 == if i == 10 then 25 else 2 * i + 2
    ensures i == 10 <==> op == Bin(Pow)
  {
    var k :| 0 <= k < |CLASSES[i]| && CLASSES[i][k] == op;
    assert CLASSES[i][k] == op;
  }

  lemma PowersByClass(a: Op, b: Op)
    ensures GoesRight(a, b) <==> Binding(b).0 >= Binding(a).1
  {
    var i := ClassOf(a);
    var j := ClassOf(b);
    PowersOfClass(a, i);
    PowersOfClass(b, j);
    if Tighter(b, a) {
      var m: nat, n: nat :| IsIn(a, m) && IsIn(b, n) && m < n;
      PowersOfClass(a, m);
      PowersOfClass(b, n);
    }
  }

  // ── Reading ──────────────────────────────────────────────

  /** An operand written in one piece: parentheses around any expression, for one. `-3` before `**`
      is none. */
  predicate IsOperand(x: Expr, before: Op) {
    IsAtom(x) && Proper(x) && !(x.Number? && x.negative && before == Bin(Pow))
  }

  /** Two operators: the right part is an operand of the first one if the second is of a tighter
      class, or if both are `**`; otherwise the left part is an operand of the second one. */
  lemma TwoOperators(a: Op, b: Op, x: Expr, y: Expr, z: Expr)
    requires IsOperand(x, a) && IsOperand(y, b) && IsAtom(z) && Proper(z)
    ensures ParseExpr(Flat(x) + [TOp(a)] + Flat(y) + [TOp(b)] + Flat(z)) ==
      Got(if GoesRight(a, b) then Infix(a, Strip(x), Infix(b, Strip(y), Strip(z)))
          else Infix(b, Infix(a, Strip(x), Strip(y)), Strip(z)), [])
  {
    PowersByClass(a, b);
    hide GoesRight, ParseExpr;
    if GoesRight(a, b) {
      var inner := Infix(b, y, z);
      assert Proper(inner);
      ProperReads(Infix(a, x, inner));
      Joined(Flat(x) + [TOp(a)], Flat(y) + [TOp(b)], Flat(z));
      Joined(Flat(x) + [TOp(a)], Flat(y), [TOp(b)]);
    } else {
      var inner := Infix(a, x, y);
      assert Proper(inner);
      ProperReads(Infix(b, inner, z));
    }
  }

  /** A minus sign takes a power with it, and of other operations the left operand only; it makes
      a literal of a number, unless that number is raised to a power. */
  lemma MinusAndOperator(b: Op, x: Expr, z: Expr)
    requires IsAtom(x) && Proper(x) && IsAtom(z) && Proper(z)
    requires !LeadsWithNumber(x) || x.Number?
    requires x.Number? && x.negative ==> b != Bin(Pow)
    ensures ParseExpr([MINUS] + Flat(x) + [TOp(b)] + Flat(z)) ==
      Got(if b == Bin(Pow) then Unary(Neg, Infix(b, Strip(x), Strip(z)))
          else if LeadsWithNumber(x) then Infix(b, Number(true, x.digits), Strip(z))
          else Infix(b, Unary(Neg, Strip(x)), Strip(z)), [])
  {
    hide ParseExpr;
    if b == Bin(Pow) {
      var power := Infix(b, x, z);
      assert Proper(power) && TakesMinus(power);
      ProperReads(Unary(Neg, power));
      assert Flat(Unary(Neg, power)) == [MINUS] + (Flat(x) + [TOp(b)] + Flat(z));
      Joined([MINUS], Flat(x) + [TOp(b)], Flat(z));
      Joined([MINUS], Flat(x), [TOp(b)]);
    } else {
      var left := if LeadsWithNumber(x) then Number(true, x.digits) else Unary(Neg, x);
      assert Proper(left) && Flat(left) == [MINUS] + Flat(x);
      assert Edge(left) >= 24 > Binding(b).0;
      ProperReads(Infix(b, left, z));
    }
  }

  /** `!` takes the operand next to it only. */
  lemma BangAndOperator(b: Op, x: Expr, z: Expr)
    requires IsOperand(x, b) && IsAtom(z) && Proper(z)
    ensures ParseExpr([TBang] + Flat(x) + [TOp(b)] + Flat(z)) == Got(Infix(b, Unary(Not, Strip(x)), Strip(z)), [])
  {
    var e := Infix(b, Unary(Not, x), z);
    ProperReads(e);
    assert Flat(e) == [TBang] + Flat(x) + [TOp(b)] + Flat(z);
  }

  /** A name, `x.name` or `x[…]`. */
  predicate IsTarget(e: Expr) {
    match e
    case Name(_) | Postfix(_, Attr(_)) | Postfix(_, Index(_)) => true
    case _ => false
  }

  /** An assignment takes all that follows as its value, operations and assignments; it is refused
      unless its target is one, parentheses apart. */
  lemma AssignmentTakesAll(op: AssignOp, target: Expr, value: Expr)
    requires Proper(target) && !target.Assign? && Proper(value)
    ensures ParseExpr(Flat(target) + [TAssign(op)] + Flat(value)) ==
      if IsTarget(Strip(target)) then Got(Assign(op, Strip(target), Strip(value)), []) else Fail
  {
    var tail := [TAssign(op)] + Flat(value);
    assert Flat(target) + [TAssign(op)] + Flat(value) == Flat(target) + tail && tail[1..] == Flat(value);
    BinaryReads(target, tail, 0);
    NoOperator(Strip(target), tail, 0);
    ProperReads(value);
  }

  // ── Printing ─────────────────────────────────────────────

  /** The left operand of `a` is parenthesised if its own right part would go to `a`; so are
      assignments, constructs that end by themselves, and negations before `**`. */
  ghost predicate PairOnLeft(a: Op, l: Expr) {
    match l
    case Infix(b, _, _) => GoesRight(b, a)
    case Unary(op, _) => op.Neg? && a == Bin(Pow)
    case Assign(_, _, _) | Control(_) => true
    case _ => false
  }

  /** The right operand of `a` is parenthesised if its left part would go to `a`. */
  ghost predicate PairOnRight(a: Op, r: Expr) {
    match r
    case Infix(b, _, _) => !GoesRight(a, b)
    case Assign(_, _, _) | Control(_) => true
    case _ => false
  }

  /** What the printer writes for an operation. */
  lemma OperationShown(a: Op, l: Expr, r: Expr)
    ensures Shown(Infix(a, l, r)) == Infix(a, Wrap(Shown(l), PairOnLeft(a, l)), Wrap(Shown(r), PairOnRight(a, r)))
  {
    TablesAgree(a);
    if l.Infix? {
      PowersByClass(l.op, a);
      TablesAgree(l.op);
    }
    if r.Infix? {
      PowersByClass(a, r.op);
      TablesAgree(r.op);
    }
    hide GoesRight;
  }

  /** After `-` it parenthesises operations that are no power, assignments, other prefix operators
      and what starts with a number; after `!` operations and assignments. */
  lemma PrefixShown(x: Expr)
    ensures Shown(Unary(Neg, x)) == Unary(Neg, Wrap(Shown(x),
      StartsWithNumber(x) || x.Unary? || x.Assign? || (x.Infix? && x.op != Bin(Pow))))
    ensures Shown(Unary(Not, x)) == Unary(Not, Wrap(Shown(x), x.Infix? || x.Assign?))
  {
    if x.Infix? {
      TablesAgree(x.op);
    }
  }

  /** Before `.name`, `[…]` and `?`, operations, prefix operators and assignments. */
  lemma ReceiverShown(recv: Expr, form: Form)
    ensures Shown(Postfix(recv, form)) ==
      Postfix(Wrap(Shown(recv), recv.Infix? || recv.Unary? || recv.Assign?), ShownForm(form))
  {
    if recv.Infix? {
      TablesAgree(recv.op);
    }
  }
}
