/** Emulating the operand stack: every value becomes an expression. */
module Emulation {
  import opened Results
  import opened JavaInts
  import opened Ir
  import Jvm

  /** `slot` is the number the bytecode has for the variable; after a wide parameter it differs from
      the place in the table. `is_param` and `hoist_decl` decide between an assignment and a
      definition. */
  datatype LocalInfo = LocalInfo(slot: nat, name: string, ty: Ty, isThis: bool, isParam: bool, hoist: bool)

  datatype EmulationError = Underflow | ShapeMismatch(succ: nat)

  datatype Emu = Emu(stack: seq<Expr>, stmts: seq<Stmt>, cond: Option<Expr>)

  function LocalExpr(infos: seq<LocalInfo>, x: nat): Expr
    requires x < |infos|
  {
    Local(x, infos[x].name, infos[x].ty)
  }

  /** `store_local` */
  function StoreLocal(infos: seq<LocalInfo>, x: nat, value: Expr): Stmt
    requires x < |infos|
  {
    var info := infos[x];
    if info.isThis then Comment("cannot assign to `this` (bytecode writes slot 0)")
    else if info.isParam || info.hoist then Assign(LocalExpr(infos, x), value)
    else LocalDef(info.name, info.ty, value)
  }

  /** A dropped value is kept as a statement when evaluating it does something. */
  function Dropped(e: Expr): seq<Stmt> { if HasSideEffects(e) then [ExprStmt(e)] else [] }

  /** `pop2` and `dup2` take an expression recorded as `long` for both halves of a value. */
  predicate MeetsWide(sem: Jvm.Sem, s: seq<Expr>) {
    (sem.Pop2? || sem.Dup2?) && s != [] && IsWide(s[|s| - 1])
  }

  function Emulate(sem: Jvm.Sem, infos: seq<LocalInfo>, e: Emu): Result<Emu, EmulationError>
    requires Jvm.Fits(sem, |infos|)
  {
    var (s, n) := (e.stack, |e.stack|);
    if n < (if MeetsWide(sem, s) then 1 else Jvm.Needs(sem)) then Err(Underflow)
    else match sem
      case Nop => Ok(e)
      case Goto => Ok(e)
      case Push(v) => Ok(e.(stack := s + [Const(v, Int)]))
      case Load(x) => Ok(e.(stack := s + [LocalExpr(infos, x)]))
      case Store(x) => Ok(e.(stack := s[..n - 1], stmts := e.stmts + [StoreLocal(infos, x, s[n - 1])]))
      case Pop => Ok(e.(stack := s[..n - 1], stmts := e.stmts + Dropped(s[n - 1])))
      case Pop2 =>
        if MeetsWide(sem, s) then Ok(e.(stack := s[..n - 1], stmts := e.stmts + Dropped(s[n - 1])))
        else Ok(e.(stack := s[..n - 2], stmts := e.stmts + Dropped(s[n - 2]) + Dropped(s[n - 1])))
      case Dup => Ok(e.(stack := s + [s[n - 1]]))
      case DupX1 => Ok(e.(stack := s[..n - 2] + [s[n - 1]] + [s[n - 2]] + [s[n - 1]]))
      case DupX2 => Ok(e.(stack := s[..n - 3] + [s[n - 1]] + [s[n - 3]] + [s[n - 2]] + [s[n - 1]]))
      case Dup2 =>
        if MeetsWide(sem, s) then Ok(e.(stack := s + [s[n - 1]]))
        else Ok(e.(stack := s + [s[n - 2]] + [s[n - 1]]))
      case Dup2X1 => Ok(e.(stack := s[..n - 3] + [s[n - 2]] + [s[n - 1]] + [s[n - 3]] + [s[n - 2]] + [s[n - 1]]))
      case Dup2X2 => Ok(e.(stack := s[..n - 4] + [s[n - 2]] + [s[n - 1]] + [s[n - 4]] + [s[n - 3]] + [s[n - 2]]
        + [s[n - 1]]))
      case Swap => Ok(e.(stack := s[..n - 2] + [s[n - 1]] + [s[n - 2]]))
      case Binary(op) => Ok(e.(stack := s[..n - 2] + [Bin(op, s[n - 2], s[n - 1], Int)]))
      case Negate => Ok(e.(stack := s[..n - 1] + [Neg(s[n - 1], Int)]))
      case ShiftBy(op) => Ok(e.(stack := s[..n - 2] + [Shifted(op, s[n - 2], s[n - 1], Int)]))
      case BitsWith(op) => Ok(e.(stack := s[..n - 2] + [Bit(op, s[n - 2], s[n - 1], Int)]))
      case If(c) => Ok(e.(stack := s[..n - 1], cond := Some(Cmp(c, s[n - 1], Const(0, Int)))))
      case IfCmp(c) => Ok(e.(stack := s[..n - 2], cond := Some(Cmp(c, s[n - 2], s[n - 1]))))
      case Return(hasValue) =>
        if hasValue then Ok(e.(stack := s[..n - 1], stmts := e.stmts + [Stmt.Return(Some(s[n - 1]))]))
        else Ok(e.(stmts := e.stmts + [Stmt.Return(None)]))
  }

  predicate AllFit(code: seq<Jvm.Sem>, maxLocals: nat) {
    forall k :: 0 <= k < |code| ==> Jvm.Fits(code[k], maxLocals)
  }

  function EmulateAll(code: seq<Jvm.Sem>, infos: seq<LocalInfo>, e: Emu): Result<Emu, EmulationError>
    requires AllFit(code, |infos|)
  {
    if code == [] then Ok(e)
    else
      var n := |code| - 1;
      match EmulateAll(code[..n], infos, e)
      case Ok(before) => Emulate(code[n], infos, before)
      case Err(error) => Err(error)
  }

  lemma PrefixTwice<T>(s: seq<T>, i: nat, j: nat)
    requires j <= i <= |s|
    ensures s[..i][..j] == s[..j]
  {
  }

  lemma Rejoined<T>(s: seq<T>, n: nat)
    requires n + 1 == |s|
    ensures s[..n] + [s[n]] == s
  {
  }

  /** The outcome `r` and the new stack and statements are those of the specification. */
  ghost predicate Became(spec: Result<Emu, EmulationError>, r: Result<Option<Expr>, EmulationError>,
                         stack: seq<Expr>, stmts: seq<Stmt>, cond: Option<Expr>) {
    match spec
    case Ok(after) => r.Ok? && after == Emu(stack, stmts, if r.value.Some? then r.value else cond)
    case Err(error) => r == Err(error)
  }

  // ----- the emulator's own steps -----------------------------------------------------

  /** The stack and the statements of the block being emulated. */
  class Operands {
    var stack: seq<Expr>
    var stmts: seq<Stmt>

    constructor (entry: seq<Expr>)
      ensures stack == entry && stmts == []
    {
      stack, stmts := entry, [];
    }

    method Take() returns (r: Result<Expr, EmulationError>)
      modifies this
      ensures stmts == old(stmts)
      ensures r.Err? <==> old(stack) == []
      ensures r.Ok? ==> var n := |old(stack)| - 1; n >= 0 && r.value == old(stack)[n] && stack == old(stack)[..n]
      ensures r.Err? ==> r.error == Underflow && stack == old(stack)
    {
      if stack == [] { return Err(Underflow); }
      var e := TakeOne();
      r := Ok(e);
    }

    method TakeOne() returns (e: Expr)
      requires stack != []
      modifies this
      ensures stmts == old(stmts)
      ensures var n := |old(stack)| - 1; e == old(stack)[n] && stack == old(stack)[..n]
    {
      e := stack[|stack| - 1];
      stack := stack[..|stack| - 1];
    }

    method Put(e: Expr)
      modifies this
      ensures stack == old(stack) + [e] && stmts == old(stmts)
    {
      stack := stack + [e];
    }

    method Say(s: Stmt)
      modifies this
      ensures stmts == old(stmts) + [s] && stack == old(stack)
    {
      stmts := stmts + [s];
    }

    method SayIfEffect(e: Expr)
      modifies this
      ensures stmts == old(stmts) + Dropped(e) && stack == old(stack)
    {
      if HasSideEffects(e) { Say(ExprStmt(e)); }
    }

    method Dup() returns (r: Result<(), EmulationError>)
      modifies this
      ensures var s, n := old(stack), |old(stack)|;
        if n < 1 then r == Err(Underflow)
        else r.Ok? && stmts == old(stmts) && stack == s + [s[n - 1]]
    {
      ghost var s, n := stack, |stack|;
      if stack == [] { return Err(Underflow); }
      Put(stack[|stack| - 1]);
      r := Ok(());
    }

    method DupX1() returns (r: Result<(), EmulationError>)
      modifies this
      ensures var s, n := old(stack), |old(stack)|;
        if n < 2 then r == Err(Underflow)
        else r.Ok? && stmts == old(stmts) && stack == s[..n - 2] + [s[n - 1]] + [s[n - 2]] + [s[n - 1]]
    {
      ghost var s, n := stack, |stack|;
      var v1 :- Take();
      var v2 :- Take();
      PrefixTwice(s, n - 1, n - 2);
      Put(v1); Put(v2); Put(v1);
      r := Ok(());
    }

    method DupX2() returns (r: Result<(), EmulationError>)
      modifies this
      ensures var s, n := old(stack), |old(stack)|;
        if n < 3 then r == Err(Underflow)
        else r.Ok? && stmts == old(stmts) && stack == s[..n - 3] + [s[n - 1]] + [s[n - 3]] + [s[n - 2]] + [s[n - 1]]
    {
      ghost var s, n := stack, |stack|;
      if |stack| < 3 { return Err(Underflow); }
      var v1 := TakeOne();
      var v2 := TakeOne();
      var v3 := TakeOne();
      PrefixTwice(s, n - 1, n - 2);
      PrefixTwice(s, n - 2, n - 3);
      Put(v1); Put(v3); Put(v2); Put(v1);
      r := Ok(());
    }

    method Dup2() returns (r: Result<(), EmulationError>)
      modifies this
      ensures var s, n := old(stack), |old(stack)|;
        if n >= 1 && IsWide(s[n - 1]) then r.Ok? && stmts == old(stmts) && stack == s + [s[n - 1]]
        else if n < 2 then r == Err(Underflow)
        else r.Ok? && stmts == old(stmts) && stack == s + [s[n - 2]] + [s[n - 1]]
    {
      ghost var s, n := stack, |stack|;
      var top :- Take();
      Rejoined(s, n - 1);
      if IsWide(top) {
        Put(top); Put(top);
        return Ok(());
      }
      r := DupPair(top);
    }

    /** `top` has been taken off: the two ints go back twice. */
    method DupPair(top: Expr) returns (r: Result<(), EmulationError>)
      modifies this
      ensures var s, n := old(stack), |old(stack)|;
        if n < 1 then r == Err(Underflow)
        else r.Ok? && stmts == old(stmts) && stack == s + [top] + [s[n - 1]] + [top]
    {
      ghost var s, n := stack, |stack|;
      var below :- Take();
      Rejoined(s, n - 1);
      Put(below); Put(top); Put(below); Put(top);
      r := Ok(());
    }

    method Dup2X1() returns (r: Result<(), EmulationError>)
      modifies this
      ensures var s, n := old(stack), |old(stack)|;
        if n < 3 then r == Err(Underflow)
        else
          r.Ok? && stmts == old(stmts) &&
          stack == s[..n - 3] + [s[n - 2]] + [s[n - 1]] + [s[n - 3]] + [s[n - 2]] + [s[n - 1]]
    {
      ghost var s, n := stack, |stack|;
      if |stack| < 3 { return Err(Underflow); }
      var v1 := TakeOne();
      var v2 := TakeOne();
      var v3 := TakeOne();
      PrefixTwice(s, n - 1, n - 2);
      PrefixTwice(s, n - 2, n - 3);
      Put(v2); Put(v1); Put(v3); Put(v2); Put(v1);
      r := Ok(());
    }

    method Dup2X2() returns (r: Result<(), EmulationError>)
      modifies this
      ensures var s, n := old(stack), |old(stack)|;
        if n < 4 then r == Err(Underflow)
        else
          r.Ok? && stmts == old(stmts) &&
          stack == s[..n - 4] + [s[n - 2]] + [s[n - 1]] + [s[n - 4]] + [s[n - 3]] + [s[n - 2]] + [s[n - 1]]
    {
      ghost var s, n := stack, |stack|;
      if |stack| < 4 { return Err(Underflow); }
      var v1 := TakeOne();
      var v2 := TakeOne();
      var v3 := TakeOne();
      var v4 := TakeOne();
      PrefixTwice(s, n - 1, n - 2);
      PrefixTwice(s, n - 2, n - 3);
      PrefixTwice(s, n - 3, n - 4);
      Put(v2); Put(v1); Put(v4); Put(v3); Put(v2); Put(v1);
      r := Ok(());
    }

    method Swap() returns (r: Result<(), EmulationError>)
      modifies this
      ensures var s, n := old(stack), |old(stack)|;
        if n < 2 then r == Err(Underflow)
        else r.Ok? && stmts == old(stmts) && stack == s[..n - 2] + [s[n - 1]] + [s[n - 2]]
    {
      ghost var s, n := stack, |stack|;
      var v1 :- Take();
      var v2 :- Take();
      PrefixTwice(s, n - 1, n - 2);
      Put(v1); Put(v2);
      r := Ok(());
    }

    /** The two operands of an operator, the right one first. */
    method TakePair() returns (r: Result<(Expr, Expr), EmulationError>)
      modifies this
      ensures var s, n := old(stack), |old(stack)|;
        if n < 2 then r == Err(Underflow)
        else r == Ok((s[n - 2], s[n - 1])) && stmts == old(stmts) && stack == s[..n - 2]
    {
      ghost var s, n := stack, |stack|;
      var b :- Take();
      var a :- Take();
      PrefixTwice(s, n - 1, n - 2);
      r := Ok((a, b));
    }

    /** The effect of a dropped second operand comes first. */
    method Pop2() returns (r: Result<(), EmulationError>)
      modifies this
      ensures var s, n := old(stack), |old(stack)|;
        if n >= 1 && IsWide(s[n - 1]) then r.Ok? && stack == s[..n - 1] && stmts == old(stmts) + Dropped(s[n - 1])
        else if n < 2 then r == Err(Underflow)
        else r.Ok? && stack == s[..n - 2] && stmts == old(stmts) + Dropped(s[n - 2]) + Dropped(s[n - 1])
    {
      ghost var s, n := stack, |stack|;
      var top :- Take();
      if !IsWide(top) {
        var second :- Take();
        PrefixTwice(s, n - 1, n - 2);
        SayIfEffect(second);
      }
      SayIfEffect(top);
      r := Ok(());
    }

    /** The arms that only rearrange the stack. */
    method Rearrange(sem: Jvm.Sem, infos: seq<LocalInfo>, ghost cond: Option<Expr>)
        returns (r: Result<Option<Expr>, EmulationError>)
      requires Jvm.Shuffles(sem)
      modifies this
      ensures Became(Emulate(sem, infos, old(Emu(stack, stmts, cond))), r, stack, stmts, cond)
    {
      match sem
      case Dup => var _ :- Dup(); return Ok(None);
      case DupX1 => var _ :- DupX1(); return Ok(None);
      case DupX2 => var _ :- DupX2(); return Ok(None);
      case Dup2 => var _ :- Dup2(); return Ok(None);
      case Dup2X1 => var _ :- Dup2X1(); return Ok(None);
      case Dup2X2 => var _ :- Dup2X2(); return Ok(None);
      case Swap => var _ :- Swap(); return Ok(None);
    }

    /** The arms of the operators. */
    method Operate(sem: Jvm.Sem, infos: seq<LocalInfo>, ghost cond: Option<Expr>)
        returns (r: Result<Option<Expr>, EmulationError>)
      requires sem.Negate? || sem.Binary? || sem.ShiftBy? || sem.BitsWith?
      modifies this
      ensures Became(Emulate(sem, infos, old(Emu(stack, stmts, cond))), r, stack, stmts, cond)
    {
      if sem.Negate? {
        var a :- Take();
        Put(Neg(a, Int));
        return Ok(None);
      }
      var p :- TakePair();
      match sem
      case Binary(op) => Put(Bin(op, p.0, p.1, Int)); return Ok(None);
      case ShiftBy(op) => Put(Shifted(op, p.0, p.1, Int)); return Ok(None);
      case BitsWith(op) => Put(Bit(op, p.0, p.1, Int)); return Ok(None);
    }

    /** `emulate_insn`: the condition of a branch, if the instruction is one. */
    method EmulateInsn(sem: Jvm.Sem, infos: seq<LocalInfo>, ghost cond: Option<Expr>)
        returns (r: Result<Option<Expr>, EmulationError>)
      requires Jvm.Fits(sem, |infos|)
      modifies this
      ensures Became(Emulate(sem, infos, old(Emu(stack, stmts, cond))), r, stack, stmts, cond)
    {
      r := Ok(None);
      match sem
      case Nop => return;
      case Goto => return;
      case Push(v) => Put(Const(v, Int)); return;
      case Load(x) => Put(LocalExpr(infos, x)); return;
      case Store(x) =>
        var v :- Take();
        Say(StoreLocal(infos, x, v));
        return;
      case Pop =>
        var v :- Take();
        SayIfEffect(v);
        return;
      case Pop2 =>
        var _ :- Pop2();
        return;
      case If(c) =>
        var v :- Take();
        return Ok(Some(Cmp(c, v, Const(0, Int))));
      case IfCmp(c) =>
        var p :- TakePair();
        return Ok(Some(Cmp(c, p.0, p.1)));
      case Return(hasValue) =>
        if !hasValue { Say(Stmt.Return(None)); return; }
        var v :- Take();
        Say(Stmt.Return(Some(v)));
        return;
      case Dup | DupX1 | DupX2 | Dup2 | Dup2X1 | Dup2X2 | Swap => r := Rearrange(sem, infos, cond);
      case Negate | Binary(_) | ShiftBy(_) | BitsWith(_) => r := Operate(sem, infos, cond);
    }
  }
}
