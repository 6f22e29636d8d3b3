/** The decompiler's expressions and statements, with the meaning Java gives them: a
    variable is known by its name. */
module Ir {
  import opened Results
  import opened JavaInts

  datatype Expr =
    | Const(value: int, ty: Ty)
    | Local(index: nat, name: string, ty: Ty)
    | Bin(bop: BinOp, a: Expr, b: Expr, ty: Ty)
    | Shifted(sop: ShiftOp, a: Expr, b: Expr, ty: Ty)
    | Bit(iop: BitOp, a: Expr, b: Expr, ty: Ty)
    | Cmp(cond: Cond, a: Expr, b: Expr)
    | Not(a: Expr)
    | Neg(a: Expr, ty: Ty)
    | Ternary(c: Expr, a: Expr, b: Expr, ty: Ty)
    | Inc(index: nat, name: string, delta: int, pre: bool, ty: Ty)

  datatype Stmt =
    | LocalDef(name: string, ty: Ty, init: Expr)
    | Assign(target: Expr, value: Expr)
    | ExprStmt(expr: Expr)
    | IfGoto(test: Expr, id: nat)
    | Return(result: Option<Expr>)
    | Label(id: nat)
    | Goto(id: nat)
    | Comment(text: string)

  /** `has_side_effects` */
  predicate HasSideEffects(e: Expr) {
    match e
    case Const(_, _) => false
    case Local(_, _, _) => false
    case Bin(_, a, b, _) => HasSideEffects(a) || HasSideEffects(b)
    case Shifted(_, a, b, _) => HasSideEffects(a) || HasSideEffects(b)
    case Bit(_, a, b, _) => HasSideEffects(a) || HasSideEffects(b)
    case Cmp(_, _, _) => false
    case Not(a) => HasSideEffects(a)
    case Neg(a, _) => HasSideEffects(a)
    case Ternary(c, a, b, _) => HasSideEffects(c) || HasSideEffects(a) || HasSideEffects(b)
    case Inc(_, _, _, _, _) => true
  }

  /** `ty` */
  function TypeOf(e: Expr): Ty {
    match e
    case Const(_, ty) => ty
    case Local(_, _, ty) => ty
    case Bin(_, _, _, ty) => ty
    case Shifted(_, _, _, ty) => ty
    case Bit(_, _, _, ty) => ty
    case Cmp(_, _, _) => Int
    case Not(_) => Int
    case Neg(_, ty) => ty
    case Ternary(_, _, _, ty) => ty
    case Inc(_, _, _, _, ty) => ty
  }

  /** `is_wide`, of the type of an expression. */
  predicate IsWide(e: Expr) { TypeOf(e).Long? }

  predicate Reads(e: Expr, name: string) {
    match e
    case Const(_, _) => false
    case Local(_, n, _) => n == name
    case Bin(_, a, b, _) => Reads(a, name) || Reads(b, name)
    case Shifted(_, a, b, _) => Reads(a, name) || Reads(b, name)
    case Bit(_, a, b, _) => Reads(a, name) || Reads(b, name)
    case Cmp(_, a, b) => Reads(a, name) || Reads(b, name)
    case Not(a) => Reads(a, name)
    case Neg(a, _) => Reads(a, name)
    case Ternary(c, a, b, _) => Reads(c, name) || Reads(a, name) || Reads(b, name)
    case Inc(_, n, _, _, _) => n == name
  }

  // ----- evaluation --------------------------------------------------------------

  type Env = map<string, int>

  function Get(env: Env, name: string): int { if name in env then env[name] else 0 }

  function Truth(b: bool): int { if b then 1 else 0 }

  /** The value of an expression without side effects; `None` when evaluating it throws.
      An increment has an effect besides its value: see `ExecOne`. */
  function Eval(e: Expr, env: Env): Option<int> {
    match e
    case Const(v, _) => Some(v)
    case Local(_, n, _) => Some(Get(env, n))
    case Bin(op, a, b, ty) =>
      (match (Eval(a, env), Eval(b, env))
       case (Some(x), Some(y)) => Arith(op, ty, x, y)
       case _ => None)
    case Shifted(op, a, b, ty) =>
      (match (Eval(a, env), Eval(b, env))
       case (Some(x), Some(y)) => Some(Shift(op, ty, x, y))
       case _ => None)
    case Bit(op, a, b, ty) =>
      (match (Eval(a, env), Eval(b, env))
       case (Some(x), Some(y)) => Some(Bitwise(op, ty, x, y))
       case _ => None)
    case Cmp(c, a, b) =>
      (match (Eval(a, env), Eval(b, env))
       case (Some(x), Some(y)) => Some(Truth(Holds(c, x, y)))
       case _ => None)
    case Not(a) =>
      (match Eval(a, env)
       case Some(x) => Some(Truth(x == 0))
       case None => None)
    case Neg(a, ty) =>
      (match Eval(a, env)
       case Some(x) => Some(Wrap(ty, -x))
       case None => None)
    case Ternary(c, a, b, _) =>
      (match Eval(c, env)
       case Some(x) => if x != 0 then Eval(a, env) else Eval(b, env)
       case None => None)
    case Inc(_, _, _, _, _) => None
  }

  /** An expression keeps its value when a variable it does not read changes, or one is assigned
      the value it has. */
  lemma {:induction false} EvalUnread(e: Expr, env: Env, name: string, v: int)
    requires !Reads(e, name) || v == Get(env, name)
    ensures Eval(e, env[name := v]) == Eval(e, env)
  {
    match e
    case Const(_, _) =>
    case Local(_, _, _) =>
    case Bin(_, a, b, _) => EvalUnread(a, env, name, v); EvalUnread(b, env, name, v);
    case Shifted(_, a, b, _) => EvalUnread(a, env, name, v); EvalUnread(b, env, name, v);
    case Bit(_, a, b, _) => EvalUnread(a, env, name, v); EvalUnread(b, env, name, v);
    case Cmp(_, a, b) => EvalUnread(a, env, name, v); EvalUnread(b, env, name, v);
    case Not(a) => EvalUnread(a, env, name, v);
    case Neg(a, _) => EvalUnread(a, env, name, v);
    case Ternary(c, a, b, _) => EvalUnread(c, env, name, v); EvalUnread(a, env, name, v); EvalUnread(b, env, name, v);
    case Inc(_, _, _, _, _) =>
  }

  // ----- straight-line statements --------------------------------------------------

  datatype Outcome = Normal(env: Env) | Returned(value: Option<int>) | Threw

  function Store(name: string, v: Option<int>, env: Env): Outcome {
    if v.None? then Threw else Normal(env[name := v.value])
  }

  /** One statement; a jump is not one of these and is left to its context. */
  function ExecOne(s: Stmt, env: Env): Outcome {
    match s
    case LocalDef(n, _, init) => Store(n, Eval(init, env), env)
    case Assign(target, value) => if target.Local? then Store(target.name, Eval(value, env), env) else Normal(env)
    case ExprStmt(e) =>
      if e.Inc? then Normal(env[e.name := Wrap(e.ty, Get(env, e.name) + e.delta)])
      else if Eval(e, env).None? then Threw else Normal(env)
    case Return(result) =>
      if result.None? then Returned(None)
      else if Eval(result.value, env).None? then Threw else Returned(Eval(result.value, env))
    case IfGoto(test, _) => if Eval(test, env).None? then Threw else Normal(env)
    case Label(_) => Normal(env)
    case Goto(_) => Normal(env)
    case Comment(_) => Normal(env)
  }

  function Exec(stmts: seq<Stmt>, env: Env): Outcome {
    if stmts == [] then Normal(env)
    else
      var n := |stmts| - 1;
      match Exec(stmts[..n], env)
      case Normal(env') => ExecOne(stmts[n], env')
      case other => other
  }

  lemma ExecAppend(stmts: seq<Stmt>, s: Stmt, env: Env)
    ensures Exec(stmts + [s], env) ==
      match Exec(stmts, env)
      case Normal(env') => ExecOne(s, env')
      case other => other
  {
    assert (stmts + [s])[..|stmts|] == stmts;
  }
}
