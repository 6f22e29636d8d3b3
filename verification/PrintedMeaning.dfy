/** What printed expressions mean: the operators of the syntax tree, with the types and values chapter 15
    of the Java Language Specification gives them. */
module PrintedMeaning {
  import opened Results
  import opened JavaInts
  import opened Ir
  import opened Printer
  import Bits

  // ----- numbers ----------------------------------------------------------------------------------------

  /** The types of the variables. */
  type Types = map<string, Ty>

  function TypeIn(types: Types, name: string): Ty { if name in types then types[name] else Int }

  /** Binary numeric promotion, section 5.6. */
  function Promoted(a: Ty, b: Ty): Ty { if a == Int && b == Int then Int else Long }

  /** How many numbers a type has. */
  function Size(ty: Ty): (m: nat)
    ensures m > 0
  {
    match ty
    case Int => 0x1_0000_0000
    case Long => 0x1_0000_0000_0000_0000
  }

  /** The number of the type that is congruent to `x`. */
  function Reduced(ty: Ty, x: int): int {
    var r := x % Size(ty);
    if 2 * r < Size(ty) then r else r - Size(ty)
  }

  /** Division towards zero, section 15.17.2. */
  function Truncated(x: int, y: int): int
    requires y != 0
  {
    if x >= 0 then (if y > 0 then x / y else -(x / -y)) else (if y > 0 then -(-x / y) else -x / -y)
  }

  /** A shift looks at the low five bits of its distance, or six, section 15.19. */
  function Distance(ty: Ty, y: int): nat {
    match ty
    case Int => y % 32
    case Long => y % 64
  }

  predicate IsShift(op: Operator) { op == Left || op == Right || op == RightUnsigned }

  predicate IsComparison(op: Operator) {
    op == Equal || op == NotEqual || op == Less || op == AtLeast || op == Greater || op == AtMost
  }

  /** An operator on operands of type `ty`; no value is an ArithmeticException. Truth is 1. */
  function Computed(op: Operator, ty: Ty, x: int, y: int): Option<int> {
    match op
    case Plus => Some(Reduced(ty, x + y))
    case Minus => Some(Reduced(ty, x - y))
    case Times => Some(Reduced(ty, x * y))
    case Over => if y == 0 then None else Some(Reduced(ty, Truncated(x, y)))
    case Modulo => if y == 0 then None else Some(Reduced(ty, x - Truncated(x, y) * y))
    case Left => Some(Reduced(ty, x * Bits.Pow2(Distance(ty, y))))
    case Right => Some(x / Bits.Pow2(Distance(ty, y)))
    case RightUnsigned => Some(Reduced(ty, x % Size(ty) / Bits.Pow2(Distance(ty, y))))
    case AndBits => Some(Reduced(ty, Bits.BitAnd(x % Size(ty), y % Size(ty))))
    case OrBits => Some(Reduced(ty, Bits.BitOr(x % Size(ty), y % Size(ty))))
    case XorBits => Some(Reduced(ty, Bits.BitXor(x % Size(ty), y % Size(ty))))
    case Equal => Some(if x == y then 1 else 0)
    case NotEqual => Some(if x == y then 0 else 1)
    case Less => Some(if x < y then 1 else 0)
    case AtMost => Some(if x <= y then 1 else 0)
    case Greater => Some(if x <= y then 0 else 1)
    case AtLeast => Some(if x < y then 0 else 1)
  }

  // ----- trees ------------------------------------------------------------------------------------------

  function TreeType(t: Tree, types: Types): Ty {
    match t
    case Var(name) => TypeIn(types, name)
    case Num(_, ty) => ty
    case Infix(op, l, r) =>
      if IsComparison(op) then Int
      else if IsShift(op) then TreeType(l, types)
      else Promoted(TreeType(l, types), TreeType(r, types))
    case Minussed(u) => TreeType(u, types)
    case Negated(_) => Int
    case Choice(_, a, b) => Promoted(TreeType(a, types), TreeType(b, types))
  }

  /** The type an operator computes in. */
  function OperandType(op: Operator, l: Ty, r: Ty): Ty { if IsShift(op) then l else Promoted(l, r) }

  function TreeValue(t: Tree, types: Types, env: Env): Option<int> {
    match t
    case Var(name) => Some(Get(env, name))
    case Num(n, ty) => Some(Reduced(ty, n))
    case Infix(op, l, r) =>
      (match (TreeValue(l, types, env), TreeValue(r, types, env))
       case (Some(x), Some(y)) => Computed(op, OperandType(op, TreeType(l, types), TreeType(r, types)), x, y)
       case _ => None)
    case Minussed(u) =>
      (match TreeValue(u, types, env)
       case Some(x) => Some(Reduced(TreeType(u, types), -x))
       case None => None)
    case Negated(u) =>
      (match TreeValue(u, types, env)
       case Some(x) => Some(if x == 0 then 1 else 0)
       case None => None)
    case Choice(c, a, b) =>
      (match TreeValue(c, types, env)
       case Some(x) => if x == 0 then TreeValue(b, types, env) else TreeValue(a, types, env)
       case None => None)
  }

  // ----- expressions ------------------------------------------------------------------------------------

  /** The recorded types are those Java finds, and constants are numbers of their type. */
  predicate Typed(e: Expr, types: Types) {
    match e
    case Const(v, ty) => 0 <= 2 * v + Size(ty) < 2 * Size(ty)
    case Local(_, name, ty) => ty == TypeIn(types, name)
    case Bin(_, a, b, ty) => Typed(a, types) && Typed(b, types) && ty == Promoted(TypeOf(a), TypeOf(b))
    case Shifted(_, a, b, ty) => Typed(a, types) && Typed(b, types) && ty == TypeOf(a)
    case Bit(_, a, b, ty) => Typed(a, types) && Typed(b, types) && ty == Promoted(TypeOf(a), TypeOf(b))
    case Cmp(_, a, b) => Typed(a, types) && Typed(b, types)
    case Not(a) => Typed(a, types)
    case Neg(a, ty) => Typed(a, types) && ty == TypeOf(a)
    case Ternary(c, a, b, ty) =>
      Typed(c, types) && Typed(a, types) && Typed(b, types) && ty == Promoted(TypeOf(a), TypeOf(b))
    case Inc(_, _, _, _, _) => false
  }

  lemma ReducedIsWrap(ty: Ty, x: int)
    ensures Size(ty) == Modulus(ty) && Reduced(ty, x) == Wrap(ty, x)
  {
  }

  lemma ModOf(m: nat, v: int)
    requires 0 <= v + m && v < m
    ensures v % m == if v < 0 then v + m else v
  {
  }

  lemma InRangeStays(ty: Ty, v: int)
    requires 0 <= 2 * v + Size(ty) < 2 * Size(ty)
    ensures Reduced(ty, v) == v
  {
    ModOf(Size(ty), v);
  }

  /** The least number has no counterpart, but the sign before it gives it back. */
  lemma SignedTwice(ty: Ty, v: int)
    requires 0 <= 2 * v + Size(ty) && v < 0
    ensures Reduced(ty, -Reduced(ty, -v)) == v
  {
    var m := Size(ty);
    ModOf(m, -v);
    ModOf(m, v);
    if 2 * -v == m { ModOf(m, m + v); }
  }

  lemma TruncatedIsQuotient(x: int, y: int)
    requires y != 0
    ensures Truncated(x, y) == Quotient(x, y)
  {
  }

  lemma ArithmeticMeans(e: Expr, x: int, y: int)
    requires e.Bin?
    ensures Computed(OperatorOf(e), e.ty, x, y) == Arith(e.bop, e.ty, x, y)
  {
    match e.bop
    case Add => ReducedIsWrap(e.ty, x + y);
    case Sub => ReducedIsWrap(e.ty, x - y);
    case Mul => ReducedIsWrap(e.ty, x * y);
    case Div =>
      if y != 0 {
        TruncatedIsQuotient(x, y);
        ReducedIsWrap(e.ty, Quotient(x, y));
      }
    case Rem =>
      if y != 0 {
        TruncatedIsQuotient(x, y);
        assert Truncated(x, y) * y == y * Quotient(x, y);
        ReducedIsWrap(e.ty, x - y * Quotient(x, y));
      }
  }

  lemma ShiftMeans(e: Expr, x: int, y: int)
    requires e.Shifted?
    ensures Computed(OperatorOf(e), e.ty, x, y) == Some(Shift(e.sop, e.ty, x, y))
  {
    var n := Distance(e.ty, y);
    assert n == y % Width(e.ty);
    match e.sop
    case Shl => ReducedIsWrap(e.ty, x * Bits.Pow2(n));
    case Shr =>
    case Ushr => ReducedIsWrap(e.ty, x % Size(e.ty) / Bits.Pow2(n));
  }

  lemma BitwiseMeans(e: Expr, x: int, y: int)
    requires e.Bit?
    ensures Computed(OperatorOf(e), e.ty, x, y) == Some(Bitwise(e.iop, e.ty, x, y))
  {
    var (a, b) := (x % Size(e.ty), y % Size(e.ty));
    match e.iop
    case And => ReducedIsWrap(e.ty, Bits.BitAnd(a, b));
    case Or => ReducedIsWrap(e.ty, Bits.BitOr(a, b));
    case Xor => ReducedIsWrap(e.ty, Bits.BitXor(a, b));
  }

  lemma ComparisonMeans(e: Expr, ty: Ty, x: int, y: int)
    requires e.Cmp?
    ensures Computed(OperatorOf(e), ty, x, y) == Some(Truth(Holds(e.cond, x, y)))
  {
  }

  /** The tree has the type and the value of the expression. */
  ghost predicate SameMeaning(e: Expr, types: Types, env: Env)
    requires Printable(e)
  {
    TreeType(TreeOf(e), types) == TypeOf(e) && TreeValue(TreeOf(e), types, env) == Eval(e, env)
  }

  lemma ConstantMeans(e: Expr, types: Types, env: Env)
    requires e.Const? && Typed(e, types)
    ensures SameMeaning(e, types, env)
  {
    if e.value < 0 { SignedTwice(e.ty, e.value); } else { InRangeStays(e.ty, e.value); }
  }

  lemma InfixMeans(l: Tree, r: Tree, op: Operator, lt: Ty, rt: Ty, x: Option<int>, y: Option<int>,
                   types: Types, env: Env)
    requires TreeType(l, types) == lt && TreeType(r, types) == rt
    requires TreeValue(l, types, env) == x && TreeValue(r, types, env) == y
    ensures TreeValue(Infix(op, l, r), types, env)
      == if x.Some? && y.Some? then Computed(op, OperandType(op, lt, rt), x.value, y.value) else None
    ensures TreeType(Infix(op, l, r), types) == if IsComparison(op) then Int else OperandType(op, lt, rt)
  {
  }

  /** What a binary expression makes of its operands' values. */
  function Operated(e: Expr, x: int, y: int): Option<int>
    requires IsBinary(e)
  {
    match e
    case Bin(op, _, _, ty) => Arith(op, ty, x, y)
    case Shifted(op, _, _, ty) => Some(Shift(op, ty, x, y))
    case Bit(op, _, _, ty) => Some(Bitwise(op, ty, x, y))
    case Cmp(c, _, _) => Some(Truth(Holds(c, x, y)))
  }

  lemma OperandsFirst(e: Expr, a: Expr, b: Expr, env: Env)
    requires IsBinary(e) && a == e.a && b == e.b
    ensures Eval(e, env) == if Eval(a, env).Some? && Eval(b, env).Some?
                            then Operated(e, Eval(a, env).value, Eval(b, env).value) else None
  {
  }

  lemma OperatorMeans(e: Expr, op: Operator, lt: Ty, rt: Ty, types: Types, x: int, y: int)
    requires IsBinary(e) && op == OperatorOf(e) && Typed(e, types) && lt == TypeOf(e.a) && rt == TypeOf(e.b)
    ensures Computed(op, OperandType(op, lt, rt), x, y) == Operated(e, x, y)
    ensures TypeOf(e) == if IsComparison(op) then Int else OperandType(op, lt, rt)
  {
    match e
    case Bin(_, _, _, _) => ArithmeticMeans(e, x, y);
    case Shifted(_, _, _, _) => ShiftMeans(e, x, y);
    case Bit(_, _, _, _) => BitwiseMeans(e, x, y);
    case Cmp(_, _, _) => ComparisonMeans(e, Promoted(lt, rt), x, y);
  }

  lemma TreeOfBinary(e: Expr, a: Expr, b: Expr)
    requires Printable(e) && IsBinary(e) && a == e.a && b == e.b
    ensures Printable(a) && Printable(b) && TreeOf(e) == Infix(OperatorOf(e), TreeOf(a), TreeOf(b))
  {
  }

  /** Two operands and the operator between them. */
  lemma OperationMeans(e: Expr, op: Operator, a: Expr, b: Expr, x: Option<int>, y: Option<int>, types: Types, env: Env)
    requires Printable(e) && Typed(e, types) && IsBinary(e) && op == OperatorOf(e) && a == e.a && b == e.b
    requires Printable(a) && Printable(b) && SameMeaning(a, types, env) && SameMeaning(b, types, env)
    requires x == Eval(a, env) && y == Eval(b, env)
    ensures SameMeaning(e, types, env)
  {
    TreeOfBinary(e, a, b);
    InfixMeans(TreeOf(a), TreeOf(b), op, TypeOf(a), TypeOf(b), x, y, types, env);
    OperandsFirst(e, a, b, env);
    OperatorMeans(e, op, TypeOf(a), TypeOf(b), types, if x.Some? then x.value else 0, if y.Some? then y.value else 0);
  }

  lemma NegationMeans(e: Expr, types: Types, env: Env)
    requires Printable(e) && Typed(e, types) && e.Neg? && SameMeaning(e.a, types, env)
    ensures SameMeaning(e, types, env)
  {
    if Eval(e.a, env).Some? { ReducedIsWrap(e.ty, -Eval(e.a, env).value); }
  }

  lemma ChoiceMeans(e: Expr, types: Types, env: Env)
    requires Printable(e) && Typed(e, types) && e.Ternary?
    requires SameMeaning(e.c, types, env) && SameMeaning(e.a, types, env) && SameMeaning(e.b, types, env)
    ensures SameMeaning(e, types, env)
  {
  }

  /** The syntax tree of an expression has its type and, in every environment, its value. */
  lemma {:induction false} TreeMeans(e: Expr, types: Types, env: Env)
    requires Printable(e) && Typed(e, types)
    ensures SameMeaning(e, types, env)
  {
    match e
    case Const(_, _) => ConstantMeans(e, types, env);
    case Local(_, _, _) =>
    case Not(a) => TreeMeans(a, types, env);
    case Neg(a, _) =>
      TreeMeans(a, types, env);
      NegationMeans(e, types, env);
    case Ternary(c, a, b, _) =>
      TreeMeans(c, types, env);
      TreeMeans(a, types, env);
      TreeMeans(b, types, env);
      ChoiceMeans(e, types, env);
    case Bin(_, _, _, _) | Shifted(_, _, _, _) | Bit(_, _, _, _) | Cmp(_, _, _) =>
      TreeMeans(e.a, types, env);
      TreeMeans(e.b, types, env);
      OperationMeans(e, OperatorOf(e), e.a, e.b, Eval(e.a, env), Eval(e.b, env), types, env);
  }

  /** Whatever is read from the printed tokens has the type and the value of the expression that was
      printed, and throws where it does. */
  lemma PrintedMeans(e: Expr, types: Types, env: Env)
    requires Printable(e) && Typed(e, types)
    ensures var p := ParseAt(TERNARY, Listed(ExprTokens(e, ASSIGN), End));
      && p.Read? && p.rest == End
      && TreeType(p.tree, types) == TypeOf(e) && TreeValue(p.tree, types, env) == Eval(e, env)
  {
    PrintParse(e);
    TreeMeans(e, types, env);
  }
}
