/** Printing expressions with parentheses where precedence asks for them, and reading them back the
    way chapter 15 of the Java Language Specification does. */
module Printer {
  import opened Results
  import opened JavaInts
  import opened Ir

  datatype Operator = Plus | Minus | Times | Over | Modulo | Left | Right | RightUnsigned
    | AndBits | OrBits | XorBits | Equal | NotEqual | Less | AtLeast | Greater | AtMost

  datatype Token =
    | Word(name: string)
    | Number(n: nat, ty: Ty)
    | Sign(op: Operator)
    | Bang
    | Question
    | Colon
    | Open
    | Close

  // ----- precedences: the writer's table -----------------------------------------------------

  const ASSIGN := 1
  const TERNARY := 2
  const BIT_OR := 5
  const BIT_XOR := 6
  const BIT_AND := 7
  const EQ := 8
  const REL := 9
  const SHIFT := 10
  const ADD := 11
  const MUL := 12
  const UNARY := 13
  const POSTFIX := 14

  /** The operator a binary expression is printed with. */
  function OperatorOf(e: Expr): Operator
    requires e.Bin? || e.Shifted? || e.Bit? || e.Cmp?
  {
    match e
    case Bin(op, _, _, _) => (
      match op case Add => Plus case Sub => Minus case Mul => Times case Div => Over case Rem => Modulo)
    case Shifted(op, _, _, _) => (match op case Shl => Left case Shr => Right case Ushr => RightUnsigned)
    case Bit(op, _, _, _) => (match op case And => AndBits case Or => OrBits case Xor => XorBits)
    case Cmp(c, _, _) => (
      match c
      case Eq => Equal case Ne => NotEqual case Lt => Less
      case Ge => AtLeast case Gt => Greater case Le => AtMost)
  }

  predicate IsBinary(e: Expr) { e.Bin? || e.Shifted? || e.Bit? || e.Cmp? }

  /** Increments are statements here and are printed elsewhere. */
  predicate Printable(e: Expr) {
    match e
    case Const(_, _) => true
    case Local(_, _, _) => true
    case Bin(_, a, b, _) => Printable(a) && Printable(b)
    case Shifted(_, a, b, _) => Printable(a) && Printable(b)
    case Bit(_, a, b, _) => Printable(a) && Printable(b)
    case Cmp(_, a, b) => Printable(a) && Printable(b)
    case Not(a) => Printable(a)
    case Neg(a, _) => Printable(a)
    case Ternary(c, a, b, _) => Printable(c) && Printable(a) && Printable(b)
    case Inc(_, _, _, _, _) => false
  }

  // ----- the printer ------------------------------------------------------------------------

  function Literal(v: int, ty: Ty): seq<Token> {
    if v < 0 then [Sign(Minus), Number(-v, ty)] else [Number(v, ty)]
  }

  /** `expr`: the tokens of an expression where precedence `min` is needed. */
  function ExprTokens(e: Expr, min: nat): seq<Token>
    requires Printable(e)
    decreases e, 1
  {
    var (text, p) := ExprRaw(e);
    if p < min then [Open] + text + [Close] else text
  }

  /** `expr_raw`: tokens and precedence. */
  function ExprRaw(e: Expr): (seq<Token>, nat)
    requires Printable(e)
    decreases e, 0
  {
    match e
    case Const(v, ty) => (Literal(v, ty), POSTFIX)
    case Local(_, name, _) => ([Word(name)], POSTFIX)
    case Bin(op, a, b, _) =>
      var p := if op.Mul? || op.Div? || op.Rem? then MUL else ADD;
      (ExprTokens(a, p) + [Sign(OperatorOf(e))] + ExprTokens(b, p + 1), p)
    case Shifted(_, a, b, _) =>
      (ExprTokens(a, SHIFT) + [Sign(OperatorOf(e))] + ExprTokens(b, SHIFT + 1), SHIFT)
    case Bit(op, a, b, _) =>
      var p := match op case And => BIT_AND case Or => BIT_OR case Xor => BIT_XOR;
      (ExprTokens(a, p) + [Sign(OperatorOf(e))] + ExprTokens(b, p + 1), p)
    case Cmp(c, a, b) =>
      var p := if c.Eq? || c.Ne? then EQ else REL;
      (ExprTokens(a, p) + [Sign(OperatorOf(e))] + ExprTokens(b, p + 1), p)
    case Not(a) => ([Bang] + ExprTokens(a, UNARY), UNARY)
    case Neg(a, _) => ([Sign(Minus)] + ExprTokens(a, UNARY), UNARY)
    case Ternary(c, a, b, _) =>
      (ExprTokens(c, TERNARY + 1) + [Question] + ExprTokens(a, ASSIGN) + [Colon] + ExprTokens(b, ASSIGN), TERNARY)
  }

  // ----- the grammar --------------------------------------------------------------------------

  /** A syntax tree: no types, and a sign is an operator. */
  datatype Tree =
    | Var(name: string)
    | Num(n: nat, ty: Ty)
    | Infix(op: Operator, l: Tree, r: Tree)
    | Minussed(t: Tree)
    | Negated(t: Tree)
    | Choice(c: Tree, a: Tree, b: Tree)

  /** The syntax tree an expression stands for. */
  function TreeOf(e: Expr): Tree
    requires Printable(e)
  {
    match e
    case Const(v, ty) => if v < 0 then Minussed(Num(-v, ty)) else Num(v, ty)
    case Local(_, name, _) => Var(name)
    case Bin(_, a, b, _) => Infix(OperatorOf(e), TreeOf(a), TreeOf(b))
    case Shifted(_, a, b, _) => Infix(OperatorOf(e), TreeOf(a), TreeOf(b))
    case Bit(_, a, b, _) => Infix(OperatorOf(e), TreeOf(a), TreeOf(b))
    case Cmp(_, a, b) => Infix(OperatorOf(e), TreeOf(a), TreeOf(b))
    case Not(a) => Negated(TreeOf(a))
    case Neg(a, _) => Minussed(TreeOf(a))
    case Ternary(c, a, b, _) => Choice(TreeOf(c), TreeOf(a), TreeOf(b))
  }

  /** How tight an operator binds, by sections 15.17 to 15.24 of the Java Language Specification: the
      multiplicative operators most, then the additive ones, the shifts, comparison, equality, and the
      bitwise operators one by one. */
  function Level(op: Operator): (l: nat)
    ensures 5 <= l <= 12
  {
    match op
    case Times => 12 case Over => 12 case Modulo => 12
    case Plus => 11 case Minus => 11
    case Left => 10 case Right => 10 case RightUnsigned => 10
    case Less => 9 case AtLeast => 9 case Greater => 9 case AtMost => 9
    case Equal => 8 case NotEqual => 8
    case AndBits => 7
    case XorBits => 6
    case OrBits => 5
  }

  datatype Tokens = End | More(head: Token, tail: Tokens) {
    function Size(): nat { if End? then 0 else 1 + tail.Size() }
  }

  datatype Parse = Fail | Read(tree: Tree, rest: Tokens)

  predicate Shorter(p: Parse, ts: Tokens) { p.Read? ==> p.rest.Size() < ts.Size() }

  /** An expression of precedence `l` or higher. Operators of one level group to the left,
      the conditional operator groups to the right, and prefix operators bind tightest. */
  function ParseAt(l: nat, ts: Tokens): (p: Parse)
    requires TERNARY <= l <= UNARY
    ensures Shorter(p, ts)
    decreases ts.Size(), UNARY - l, 0
  {
    if l == TERNARY then
      match ParseAt(l + 1, ts)
      case Read(c, More(Question, rest)) =>
        (match ParseAt(TERNARY, rest)
         case Read(a, More(Colon, rest')) =>
           (match ParseAt(TERNARY, rest')
            case Read(b, rest'') => Read(Choice(c, a, b), rest'')
            case Fail => Fail)
         case _ => Fail)
      case other => other
    else if l < UNARY then
      match ParseAt(l + 1, ts)
      case Read(left, rest) => ParseMore(l, left, rest)
      case Fail => Fail
    else
      match ts
      case More(Sign(Minus),
        rest) => (match ParseAt(UNARY, rest) case Read(t, rest') => Read(Minussed(t), rest') case Fail => Fail)
      case More(Bang, rest) => (match ParseAt(UNARY, rest) case Read(t, rest') => Read(Negated(t),
        rest') case Fail => Fail)
      case More(Word(name), rest) => Read(Var(name), rest)
      case More(Number(n, ty), rest) => Read(Num(n, ty), rest)
      case More(Open, rest) => (match ParseAt(TERNARY, rest) case Read(t, More(Close, rest')) => Read(t,
        rest') case _ => Fail)
      case _ => Fail
  }

  /** More operands of level `l` to the right of `left`. */
  function ParseMore(l: nat, left: Tree, ts: Tokens): (p: Parse)
    requires TERNARY < l < UNARY
    ensures p.Read? ==> p.rest.Size() <= ts.Size()
    decreases ts.Size(), UNARY - l, 1
  {
    match ts
    case More(Sign(op), rest) =>
      if Level(op) != l then Read(left, ts)
      else (match ParseAt(l + 1, rest)
            case Read(right, rest') => ParseMore(l, Infix(op, left, right), rest')
            case Fail => Fail)
    case _ => Read(left, ts)
  }

  // ----- printing is unambiguous ---------------------------------------------------------------

  function Listed(s: seq<Token>, tail: Tokens): Tokens {
    if s == [] then tail else More(s[0], Listed(s[1..], tail))
  }

  lemma {:induction false} ListedConcat(a: seq<Token>, b: seq<Token>, tail: Tokens)
    ensures Listed(a + b, tail) == Listed(a, Listed(b, tail))
  {
    if a == [] {
      assert a + b == b;
    } else {
      assert (a + b)[1..] == a[1..] + b;
      ListedConcat(a[1..], b, tail);
    }
  }

  lemma ListedOne(t: Token, tail: Tokens)
    ensures Listed([t], tail) == More(t, tail)
  {
  }

  function Prec(e: Expr): (p: nat)
    requires Printable(e)
    ensures TERNARY <= p <= POSTFIX
    ensures p == ExprRaw(e).1
  {
    if e.Const? || e.Local? then POSTFIX
    else if IsBinary(e) then Level(OperatorOf(e))
    else if e.Ternary? then TERNARY
    else UNARY
  }

  /** No operator of level `l` or higher can go on with `ts`. */
  predicate Stops(l: nat, ts: Tokens) {
    match ts
    case More(Sign(op), _) => Level(op) < l
    case More(Question, _) => l > TERNARY
    case _ => true
  }

  /** The tokens where `min` is needed, before `tail`. */
  function Printed(e: Expr, min: nat, tail: Tokens): Tokens
    requires Printable(e)
  {
    Listed(ExprTokens(e, min), tail)
  }

  lemma PrintedBinary(e: Expr, tail: Tokens)
    requires Printable(e) && IsBinary(e)
    ensures var p := Prec(e);
      Listed(ExprRaw(e).0, tail) == Printed(e.a, p, More(Sign(OperatorOf(e)), Printed(e.b, p + 1, tail)))
  {
    var p, op := Prec(e), Sign(OperatorOf(e));
    var (a, b) := (ExprTokens(e.a, p), ExprTokens(e.b, p + 1));
    assert ExprRaw(e).0 == a + [op] + b;
    ListedConcat(a + [op], b, tail);
    ListedConcat(a, [op], Listed(b, tail));
    ListedOne(op, Listed(b, tail));
  }

  lemma PrintedTernary(e: Expr, tail: Tokens)
    requires Printable(e) && e.Ternary?
    ensures Listed(ExprRaw(e).0, tail)
      == Printed(e.c, TERNARY + 1, More(Question, Printed(e.a, ASSIGN, More(Colon, Printed(e.b, ASSIGN, tail)))))
  {
    var (c, a, b) := (ExprTokens(e.c, TERNARY + 1), ExprTokens(e.a, ASSIGN), ExprTokens(e.b, ASSIGN));
    ListedConcat(c + [Question] + a + [Colon], b, tail);
    ListedConcat(c + [Question] + a, [Colon], Listed(b, tail));
    ListedOne(Colon, Listed(b, tail));
    ListedConcat(c + [Question], a, More(Colon, Listed(b, tail)));
    ListedConcat(c, [Question], Listed(a, More(Colon, Listed(b, tail))));
    ListedOne(Question, Listed(a, More(Colon, Listed(b, tail))));
  }

  lemma PrintedUnary(t: Token, s: seq<Token>, tail: Tokens)
    ensures Listed([t] + s, tail) == More(t, Listed(s, tail))
  {
    ListedConcat([t], s, tail);
    ListedOne(t, Listed(s, tail));
  }

  lemma PrintedParens(e: Expr, min: nat, tail: Tokens)
    requires Printable(e) && Prec(e) < min
    ensures Printed(e, min, tail) == More(Open, Listed(ExprRaw(e).0, More(Close, tail)))
  {
    var raw := ExprRaw(e).0;
    ListedConcat([Open] + raw, [Close], tail);
    ListedOne(Close, tail);
    ListedConcat([Open], raw, More(Close, tail));
    ListedOne(Open, Listed(raw, More(Close, tail)));
  }

  /** An expression printed for level `l` is read back at level `l`. */
  lemma {:induction false} ReadBack(e: Expr, l: nat, tail: Tokens)
    requires Printable(e) && TERNARY <= l <= UNARY && Stops(l, tail)
    ensures ParseAt(l, Printed(e, l, tail)) == Read(TreeOf(e), tail)
    decreases e, 2, 0
  {
    if Prec(e) >= l { ReadRaw(e, l, tail); } else { ReadParens(e, l, tail); }
  }

  /** Without parentheses. */
  lemma {:induction false} ReadRaw(e: Expr, l: nat, tail: Tokens)
    requires Printable(e) && TERNARY <= l <= UNARY && l <= Prec(e) && Stops(l, tail)
    ensures ParseAt(l, Listed(ExprRaw(e).0, tail)) == Read(TreeOf(e), tail)
    decreases e, 0, POSTFIX - l, 1
  {
    if l == UNARY {
      ReadUnary(e, tail);
    } else if l == TERNARY && e.Ternary? {
      ReadTernary(e, tail);
    } else if l == TERNARY {
      ReadRaw(e, l + 1, tail);
    } else {
      ReadChain(e, l, tail);
    }
  }

  /** At level `l`, up to the operators of that level that follow. */
  lemma {:induction false} ReadChain(e: Expr, l: nat, tail: Tokens)
    requires Printable(e) && TERNARY < l < UNARY && l <= Prec(e) && Stops(l + 1, tail)
    ensures ParseAt(l, Listed(ExprRaw(e).0, tail)) == ParseMore(l, TreeOf(e), tail)
    decreases e, 0, POSTFIX - l, 0
  {
    if Prec(e) > l {
      ReadRaw(e, l + 1, tail);
    } else {
      PrintedBinary(e, tail);
      ReadOperator(e, l, OperatorOf(e), Printed(e.b, l + 1, tail), Listed(ExprRaw(e).0, tail), tail);
    }
  }

  /** An operator of level `l`: its left operand, the sign and its right operand. */
  lemma {:induction false} ReadOperator(e: Expr, l: nat, op: Operator, after: Tokens, whole: Tokens, tail: Tokens)
    requires Printable(e) && IsBinary(e) && TERNARY < l < UNARY && l == Prec(e) == Level(op) && op == OperatorOf(e)
    requires Stops(l + 1, tail) && after == Printed(e.b, l + 1, tail) && whole == Printed(e.a, l, More(Sign(op), after))
    ensures ParseAt(l, whole) == ParseMore(l, Infix(op, TreeOf(e.a), TreeOf(e.b)), tail)
    decreases e, 0, 0, 0
  {
    if Prec(e.a) >= l {
      assert ExprTokens(e.a, l) == ExprRaw(e.a).0;
      ReadChain(e.a, l, More(Sign(op), after));
    } else {
      ReadParensChain(e.a, l, More(Sign(op), after));
    }
    ReadBack(e.b, l + 1, tail);
    MoreOnce(op, TreeOf(e.a), after, TreeOf(e.b), tail);
  }

  lemma MoreOnce(op: Operator, left: Tree, after: Tokens, right: Tree, tail: Tokens)
    requires ParseAt(Level(op) + 1, after) == Read(right, tail)
    ensures ParseMore(Level(op), left, More(Sign(op), after)) == ParseMore(Level(op), Infix(op, left, right), tail)
  {
  }

  lemma {:induction false} ReadTernary(e: Expr, tail: Tokens)
    requires Printable(e) && e.Ternary? && Stops(TERNARY, tail)
    ensures ParseAt(TERNARY, Listed(ExprRaw(e).0, tail)) == Read(TreeOf(e), tail)
    decreases e, 0, 0, 0
  {
    PrintedTernary(e, tail);
    var afterA := More(Colon, Printed(e.b, ASSIGN, tail));
    ReadBack(e.c, TERNARY + 1, More(Question, Printed(e.a, ASSIGN, afterA)));
    assert ExprTokens(e.a, ASSIGN) == ExprTokens(e.a, TERNARY) && ExprTokens(e.b, ASSIGN) == ExprTokens(e.b, TERNARY);
    ReadBack(e.a, TERNARY, afterA);
    ReadBack(e.b, TERNARY, tail);
  }

  lemma {:induction false} ReadUnary(e: Expr, tail: Tokens)
    requires Printable(e) && Prec(e) >= UNARY
    ensures ParseAt(UNARY, Listed(ExprRaw(e).0, tail)) == Read(TreeOf(e), tail)
    decreases e, 0, 0, 0
  {
    match e
    case Const(v, ty) =>
      if v < 0 { PrintedUnary(Sign(Minus), [Number(-v, ty)], tail); }
    case Local(_, _, _) =>
    case Not(a) =>
      PrintedUnary(Bang, ExprTokens(a, UNARY), tail);
      ReadBackUnary(a, tail);
    case Neg(a, _) =>
      PrintedUnary(Sign(Minus), ExprTokens(a, UNARY), tail);
      ReadBackUnary(a, tail);
  }

  /** At the tightest level nothing that follows can go on. */
  lemma {:induction false} ReadBackUnary(e: Expr, tail: Tokens)
    requires Printable(e)
    ensures ParseAt(UNARY, Printed(e, UNARY, tail)) == Read(TreeOf(e), tail)
    decreases e, 2, 0
  {
    if Prec(e) >= UNARY { ReadUnary(e, tail); } else { ReadParens(e, UNARY, tail); }
  }

  /** In parentheses. */
  lemma {:induction false} ReadParens(e: Expr, l: nat, tail: Tokens)
    requires Printable(e) && Prec(e) < l <= UNARY && (l < UNARY ==> Stops(l, tail))
    ensures ParseAt(l, Printed(e, l, tail)) == Read(TreeOf(e), tail)
    decreases e, 1, POSTFIX - l, 1
  {
    if l == UNARY {
      PrintedParens(e, l, tail);
      ReadRaw(e, TERNARY, More(Close, tail));
    } else {
      ReadParensChain(e, l, tail);
    }
  }

  lemma {:induction false} ReadParensChain(e: Expr, l: nat, tail: Tokens)
    requires Printable(e) && Prec(e) < l < UNARY && Stops(l + 1, tail)
    ensures ParseAt(l, Printed(e, l, tail)) == ParseMore(l, TreeOf(e), tail)
    decreases e, 1, POSTFIX - l, 0
  {
    assert ExprTokens(e, l) == ExprTokens(e, l + 1);
    ReadParens(e, l + 1, tail);
  }

  /** The printed expression parses to the tree of the expression, and to nothing else. */
  lemma PrintParse(e: Expr)
    requires Printable(e)
    ensures ParseAt(TERNARY, Listed(ExprTokens(e, ASSIGN), End)) == Read(TreeOf(e), End)
  {
    assert ExprTokens(e, ASSIGN) == ExprTokens(e, TERNARY);
    ReadBack(e, TERNARY, End);
  }

  /** Expressions printed alike have the same tree. */
  lemma Unambiguous(e: Expr, f: Expr)
    requires Printable(e) && Printable(f) && ExprTokens(e, ASSIGN) == ExprTokens(f, ASSIGN)
    ensures TreeOf(e) == TreeOf(f)
  {
    PrintParse(e);
    PrintParse(f);
  }
}
