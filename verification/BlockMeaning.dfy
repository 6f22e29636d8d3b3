/** What the emulation of a block means: running its statements and evaluating what is
    left on the emulated stack does what the virtual machine does. */
module BlockMeaning {
  import opened Results
  import opened JavaInts
  import opened Ir
  import opened Emulation
  import Jvm

  ghost predicate Unique(infos: seq<LocalInfo>) {
    forall i, j :: 0 <= i < j < |infos| ==> infos[i].name != infos[j].name
  }

  /** Each slot's variable holds the slot's value. */
  ghost predicate Agree(infos: seq<LocalInfo>, locals: seq<int>, env: Env) {
    |locals| <= |infos| && forall i :: 0 <= i < |locals| ==> Get(env, infos[i].name) == locals[i]
  }

  ghost predicate Values(es: seq<Expr>, vs: seq<int>, env: Env) {
    |es| == |vs| && forall i :: 0 <= i < |es| ==> Eval(es[i], env) == Some(vs[i])
  }

  ghost predicate Decides(cond: Option<Expr>, taken: Option<bool>, env: Env) {
    match cond
    case None => taken.None?
    case Some(c) => taken.Some? && Eval(c, env) == Some(Truth(taken.value))
  }

  /** The emulated block `e`, run from `start`, has done what the machine `m` has done. */
  ghost predicate Tracks(infos: seq<LocalInfo>, start: Env, e: Emu, m: Jvm.Machine) {
    match m
    case Running(locals, stack, taken) =>
      (match Exec(e.stmts, start)
       case Normal(env) => Agree(infos, locals, env) && Values(e.stack, stack, env) && Decides(e.cond, taken, env)
       case _ => false)
    case Finished(value) => Exec(e.stmts, start) == Returned(value)
    case Faulted => true
    case Stuck => true
  }

  /** No expression still on the stack reads the variable that is written, and the
      variable is not `this`. */
  ghost predicate NoStaleRead(sem: Jvm.Sem, infos: seq<LocalInfo>, e: Emu)
    requires Jvm.Fits(sem, |infos|)
  {
    sem.Store? ==>
      && !infos[sem.slot].isThis
      && forall i :: 0 <= i < |e.stack| - 1 ==> !Reads(e.stack[i], infos[sem.slot].name)
  }

  // ----- one instruction ------------------------------------------------------------

  lemma StoreRuns(infos: seq<LocalInfo>, start: Env, stmts: seq<Stmt>, x: nat, value: Expr, env: Env, v: int)
    requires x < |infos| && !infos[x].isThis && Exec(stmts, start) == Normal(env) && Eval(value, env) == Some(v)
    ensures Exec(stmts + [StoreLocal(infos, x, value)], start) == Normal(env[infos[x].name := v])
  {
    ExecAppend(stmts, StoreLocal(infos, x, value), start);
  }

  lemma AgreeStored(infos: seq<LocalInfo>, locals: seq<int>, env: Env, x: nat, v: int)
    requires Unique(infos) && Agree(infos, locals, env) && x < |locals|
    ensures Agree(infos, locals[x := v], env[infos[x].name := v])
  {
  }

  lemma ValuesStored(es: seq<Expr>, vs: seq<int>, env: Env, name: string, v: int)
    requires Values(es, vs, env) && es != [] && forall i :: 0 <= i < |es| - 1 ==> !Reads(es[i], name)
    ensures Values(es[..|es| - 1], vs[..|vs| - 1], env[name := v])
  {
    forall i | 0 <= i < |es| - 1
      ensures Eval(es[i], env[name := v]) == Some(vs[i])
    {
      EvalUnread(es[i], env, name, v);
    }
  }

  lemma StoreTracks(infos: seq<LocalInfo>, start: Env, e: Emu, m: Jvm.Machine, x: nat)
    requires m.Running? && x < |m.locals| && Tracks(infos, start, e, m) && Unique(infos)
    requires e.stack != [] && e.cond.None? && NoStaleRead(Jvm.Store(x), infos, e)
    ensures Tracks(infos, start, Emulate(Jvm.Store(x), infos, e).value, Jvm.Step(Jvm.Store(x), m))
  {
    var n := |e.stack| - 1;
    var env := Exec(e.stmts, start).env;
    var v := m.stack[n];
    StoreRuns(infos, start, e.stmts, x, e.stack[n], env, v);
    AgreeStored(infos, m.locals, env, x, v);
    ValuesStored(e.stack, m.stack, env, infos[x].name, v);
    assert Emulate(Jvm.Store(x), infos, e).value
      == Emu(e.stack[..n], e.stmts + [StoreLocal(infos, x, e.stack[n])], e.cond);
    assert Jvm.Step(Jvm.Store(x), m) == Jvm.Running(m.locals[x := v], m.stack[..n], m.taken);
  }

  lemma DropTracks(start: Env, stmts: seq<Stmt>, e: Expr)
    requires Exec(stmts, start).Normal? && Eval(e, Exec(stmts, start).env).Some?
    ensures Exec(stmts + Dropped(e), start) == Exec(stmts, start)
  {
    if HasSideEffects(e) {
      assert !e.Inc?;
      ExecAppend(stmts, ExprStmt(e), start);
    } else {
      assert stmts + Dropped(e) == stmts;
    }
  }

  lemma ValuesTaken(es: seq<Expr>, vs: seq<int>, env: Env, k: nat)
    requires Values(es, vs, env) && k <= |es|
    ensures Values(es[..k], vs[..k], env)
  {
  }

  lemma PopTracks(infos: seq<LocalInfo>, start: Env, e: Emu, m: Jvm.Machine)
    requires m.Running? && Tracks(infos, start, e, m) && |e.stack| >= 1
    ensures Tracks(infos, start, Emulate(Jvm.Pop, infos, e).value, Jvm.Step(Jvm.Pop, m))
  {
    var n := |e.stack|;
    var env := Exec(e.stmts, start).env;
    assert Eval(e.stack[n - 1], env) == Some(m.stack[n - 1]);
    DropTracks(start, e.stmts, e.stack[n - 1]);
    ValuesTaken(e.stack, m.stack, env, n - 1);
    assert Emulate(Jvm.Pop, infos, e).value == Emu(e.stack[..n - 1], e.stmts + Dropped(e.stack[n - 1]), e.cond);
    assert Jvm.Step(Jvm.Pop, m) == Jvm.Running(m.locals, m.stack[..n - 1], m.taken);
  }

  lemma Pop2Tracks(infos: seq<LocalInfo>, start: Env, e: Emu, m: Jvm.Machine)
    requires m.Running? && Tracks(infos, start, e, m) && |e.stack| >= 2 && !MeetsWide(Jvm.Pop2, e.stack)
    ensures Tracks(infos, start, Emulate(Jvm.Pop2, infos, e).value, Jvm.Step(Jvm.Pop2, m))
  {
    var n := |e.stack|;
    var env := Exec(e.stmts, start).env;
    assert Eval(e.stack[n - 1], env) == Some(m.stack[n - 1]) && Eval(e.stack[n - 2], env) == Some(m.stack[n - 2]);
    DropTracks(start, e.stmts, e.stack[n - 2]);
    DropTracks(start, e.stmts + Dropped(e.stack[n - 2]), e.stack[n - 1]);
    ValuesTaken(e.stack, m.stack, env, n - 2);
    assert Emulate(Jvm.Pop2, infos, e).value ==
      Emu(e.stack[..n - 2], e.stmts + Dropped(e.stack[n - 2]) + Dropped(e.stack[n - 1]), e.cond);
    assert Jvm.Step(Jvm.Pop2, m) == Jvm.Running(m.locals, m.stack[..n - 2], m.taken);
  }

  lemma ReturnedTracks(infos: seq<LocalInfo>, start: Env, stmts: seq<Stmt>, env: Env, result: Option<Expr>,
                       value: Option<int>,
                       stack: seq<Expr>, cond: Option<Expr>)
    requires Exec(stmts, start) == Normal(env) && ExecOne(Stmt.Return(result), env) == Returned(value)
    ensures Tracks(infos, start, Emu(stack, stmts + [Stmt.Return(result)], cond), Jvm.Finished(value))
  {
    ExecAppend(stmts, Stmt.Return(result), start);
  }

  lemma TopValue(infos: seq<LocalInfo>, start: Env, e: Emu, m: Jvm.Machine)
    requires m.Running? && Tracks(infos, start, e, m) && e.stack != []
    ensures |m.stack| == |e.stack| && Exec(e.stmts, start).Normal?
    ensures Eval(e.stack[|e.stack| - 1], Exec(e.stmts, start).env) == Some(m.stack[|e.stack| - 1])
  {
  }

  lemma ReturnTracks(infos: seq<LocalInfo>, start: Env, e: Emu, m: Jvm.Machine)
    requires m.Running? && Tracks(infos, start, e, m) && e.stack != []
    ensures Tracks(infos, start, Emulate(Jvm.Return(true), infos, e).value, Jvm.Step(Jvm.Return(true), m))
  {
    var n := |e.stack| - 1;
    TopValue(infos, start, e, m);
    ReturnedTracks(infos, start, e.stmts, Exec(e.stmts, start).env, Some(e.stack[n]), Some(m.stack[n]), e.stack[..n],
      e.cond);
    assert Emulate(Jvm.Return(true), infos, e).value
      == Emu(e.stack[..n], e.stmts + [Stmt.Return(Some(e.stack[n]))], e.cond);
    assert Jvm.Step(Jvm.Return(true), m) == Jvm.Finished(Some(m.stack[n]));
  }

  lemma ReturnVoidTracks(infos: seq<LocalInfo>, start: Env, e: Emu, m: Jvm.Machine)
    requires m.Running? && Tracks(infos, start, e, m)
    ensures Tracks(infos, start, Emulate(Jvm.Return(false), infos, e).value, Jvm.Step(Jvm.Return(false), m))
  {
    ReturnedTracks(infos, start, e.stmts, Exec(e.stmts, start).env, None, None, e.stack, e.cond);
    assert Emulate(Jvm.Return(false), infos, e).value == Emu(e.stack, e.stmts + [Stmt.Return(None)], e.cond);
    assert Jvm.Step(Jvm.Return(false), m) == Jvm.Finished(None);
  }

  /** An operator: the operands have the machine's values. */
  lemma BinaryTracks(infos: seq<LocalInfo>, start: Env, e: Emu, m: Jvm.Machine, op: BinOp)
    requires m.Running? && Tracks(infos, start, e, m) && |e.stack| >= 2
    ensures Tracks(infos, start, Emulate(Jvm.Binary(op), infos, e).value, Jvm.Step(Jvm.Binary(op), m))
  {
    var n := |e.stack|;
    var env := Exec(e.stmts, start).env;
    assert Eval(e.stack[n - 1], env) == Some(m.stack[n - 1]);
    assert Eval(e.stack[n - 2], env) == Some(m.stack[n - 2]);
    assert Eval(Bin(op, e.stack[n - 2], e.stack[n - 1], Int), env) == Arith(op, Int, m.stack[n - 2], m.stack[n - 1]);
  }

  lemma NegateTracks(infos: seq<LocalInfo>, start: Env, e: Emu, m: Jvm.Machine)
    requires m.Running? && Tracks(infos, start, e, m) && |e.stack| >= 1
    ensures Tracks(infos, start, Emulate(Jvm.Negate, infos, e).value, Jvm.Step(Jvm.Negate, m))
  {
    var n := |e.stack|;
    var env := Exec(e.stmts, start).env;
    assert Eval(e.stack[n - 1], env) == Some(m.stack[n - 1]);
    assert Eval(Neg(e.stack[n - 1], Int), env) == Some(Wrap(Int, -m.stack[n - 1]));
  }

  lemma ShiftTracks(infos: seq<LocalInfo>, start: Env, e: Emu, m: Jvm.Machine, op: ShiftOp)
    requires m.Running? && Tracks(infos, start, e, m) && |e.stack| >= 2
    ensures Tracks(infos, start, Emulate(Jvm.ShiftBy(op), infos, e).value, Jvm.Step(Jvm.ShiftBy(op), m))
  {
    var n := |e.stack|;
    var env := Exec(e.stmts, start).env;
    assert Eval(e.stack[n - 1], env) == Some(m.stack[n - 1]);
    assert Eval(e.stack[n - 2], env) == Some(m.stack[n - 2]);
    assert Eval(Shifted(op, e.stack[n - 2], e.stack[n - 1], Int), env)
      == Some(Shift(op, Int, m.stack[n - 2], m.stack[n - 1]));
  }

  lemma BitsTracks(infos: seq<LocalInfo>, start: Env, e: Emu, m: Jvm.Machine, op: BitOp)
    requires m.Running? && Tracks(infos, start, e, m) && |e.stack| >= 2
    ensures Tracks(infos, start, Emulate(Jvm.BitsWith(op), infos, e).value, Jvm.Step(Jvm.BitsWith(op), m))
  {
    var n := |e.stack|;
    var env := Exec(e.stmts, start).env;
    assert Eval(e.stack[n - 1], env) == Some(m.stack[n - 1]);
    assert Eval(e.stack[n - 2], env) == Some(m.stack[n - 2]);
    assert Eval(Bit(op, e.stack[n - 2], e.stack[n - 1], Int), env)
      == Some(Bitwise(op, Int, m.stack[n - 2], m.stack[n - 1]));
  }

  lemma BranchTracks(infos: seq<LocalInfo>, start: Env, e: Emu, m: Jvm.Machine, sem: Jvm.Sem)
    requires sem.If? || sem.IfCmp?
    requires m.Running? && Tracks(infos, start, e, m) && |e.stack| >= Jvm.Needs(sem)
    ensures Tracks(infos, start, Emulate(sem, infos, e).value, Jvm.Step(sem, m))
  {
    var n := |e.stack|;
    var env := Exec(e.stmts, start).env;
    assert Eval(e.stack[n - 1], env) == Some(m.stack[n - 1]);
    if sem.IfCmp? {
      assert Eval(e.stack[n - 2], env) == Some(m.stack[n - 2]);
    }
  }

  lemma PushTracks(infos: seq<LocalInfo>, start: Env, e: Emu, m: Jvm.Machine, sem: Jvm.Sem)
    requires sem.Nop? || sem.Goto? || sem.Push? || sem.Load?
    requires m.Running? && Tracks(infos, start, e, m) && Jvm.Fits(sem, |m.locals|)
    ensures Tracks(infos, start, Emulate(sem, infos, e).value, Jvm.Step(sem, m))
  {
  }

  /** Pushing the element at distance `d` from the end on both stacks. */
  lemma Pushed(es: seq<Expr>, vs: seq<int>, env: Env, onto: seq<Expr>, ontoVs: seq<int>, d: nat)
    requires Values(es, vs, env) && Values(onto, ontoVs, env) && 1 <= d <= |es|
    ensures Values(onto + [es[|es| - d]], ontoVs + [vs[|vs| - d]], env)
  {
  }

  lemma ValuesDup(es: seq<Expr>, vs: seq<int>, env: Env)
    requires Values(es, vs, env) && |es| >= 1
    ensures var n := |es|;
      Values(es + [es[n - 1]],
             vs + [vs[n - 1]], env)
  {
    var n := |es|;
    var e0, v0 := es, vs;
    Pushed(es, vs, env, e0, v0, 1);
  }

  lemma ValuesDupX1(es: seq<Expr>, vs: seq<int>, env: Env)
    requires Values(es, vs, env) && |es| >= 2
    ensures var n := |es|;
      Values(es[..n - 2] + [es[n - 1]] + [es[n - 2]] + [es[n - 1]],
             vs[..n - 2] + [vs[n - 1]] + [vs[n - 2]] + [vs[n - 1]], env)
  {
    var n := |es|;
    var e0, v0 := es[..n - 2], vs[..n - 2];
    ValuesTaken(es, vs, env, n - 2);
    Pushed(es, vs, env, e0, v0, 1);
    var e1, v1 := e0 + [es[n - 1]], v0 + [vs[n - 1]];
    Pushed(es, vs, env, e1, v1, 2);
    var e2, v2 := e1 + [es[n - 2]], v1 + [vs[n - 2]];
    Pushed(es, vs, env, e2, v2, 1);
  }

  lemma ValuesDupX2(es: seq<Expr>, vs: seq<int>, env: Env)
    requires Values(es, vs, env) && |es| >= 3
    ensures var n := |es|;
      Values(es[..n - 3] + [es[n - 1]] + [es[n - 3]] + [es[n - 2]] + [es[n - 1]],
             vs[..n - 3] + [vs[n - 1]] + [vs[n - 3]] + [vs[n - 2]] + [vs[n - 1]], env)
  {
    var n := |es|;
    var e0, v0 := es[..n - 3], vs[..n - 3];
    ValuesTaken(es, vs, env, n - 3);
    Pushed(es, vs, env, e0, v0, 1);
    var e1, v1 := e0 + [es[n - 1]], v0 + [vs[n - 1]];
    Pushed(es, vs, env, e1, v1, 3);
    var e2, v2 := e1 + [es[n - 3]], v1 + [vs[n - 3]];
    Pushed(es, vs, env, e2, v2, 2);
    var e3, v3 := e2 + [es[n - 2]], v2 + [vs[n - 2]];
    Pushed(es, vs, env, e3, v3, 1);
  }

  lemma ValuesDup2(es: seq<Expr>, vs: seq<int>, env: Env)
    requires Values(es, vs, env) && |es| >= 2
    ensures var n := |es|;
      Values(es + [es[n - 2]] + [es[n - 1]],
             vs + [vs[n - 2]] + [vs[n - 1]], env)
  {
    var n := |es|;
    var e0, v0 := es, vs;
    Pushed(es, vs, env, e0, v0, 2);
    var e1, v1 := e0 + [es[n - 2]], v0 + [vs[n - 2]];
    Pushed(es, vs, env, e1, v1, 1);
  }

  lemma ValuesDup2X1(es: seq<Expr>, vs: seq<int>, env: Env)
    requires Values(es, vs, env) && |es| >= 3
    ensures var n := |es|;
      Values(es[..n - 3] + [es[n - 2]] + [es[n - 1]] + [es[n - 3]] + [es[n - 2]] + [es[n - 1]],
             vs[..n - 3] + [vs[n - 2]] + [vs[n - 1]] + [vs[n - 3]] + [vs[n - 2]] + [vs[n - 1]], env)
  {
    var n := |es|;
    var e0, v0 := es[..n - 3], vs[..n - 3];
    ValuesTaken(es, vs, env, n - 3);
    Pushed(es, vs, env, e0, v0, 2);
    var e1, v1 := e0 + [es[n - 2]], v0 + [vs[n - 2]];
    Pushed(es, vs, env, e1, v1, 1);
    var e2, v2 := e1 + [es[n - 1]], v1 + [vs[n - 1]];
    Pushed(es, vs, env, e2, v2, 3);
    var e3, v3 := e2 + [es[n - 3]], v2 + [vs[n - 3]];
    Pushed(es, vs, env, e3, v3, 2);
    var e4, v4 := e3 + [es[n - 2]], v3 + [vs[n - 2]];
    Pushed(es, vs, env, e4, v4, 1);
  }

  lemma ValuesDup2X2(es: seq<Expr>, vs: seq<int>, env: Env)
    requires Values(es, vs, env) && |es| >= 4
    ensures var n := |es|;
      Values(es[..n - 4] + [es[n - 2]] + [es[n - 1]] + [es[n - 4]] + [es[n - 3]] + [es[n - 2]] + [es[n - 1]],
             vs[..n - 4] + [vs[n - 2]] + [vs[n - 1]] + [vs[n - 4]] + [vs[n - 3]] + [vs[n - 2]] + [vs[n - 1]], env)
  {
    var n := |es|;
    var e0, v0 := es[..n - 4], vs[..n - 4];
    ValuesTaken(es, vs, env, n - 4);
    Pushed(es, vs, env, e0, v0, 2);
    var e1, v1 := e0 + [es[n - 2]], v0 + [vs[n - 2]];
    Pushed(es, vs, env, e1, v1, 1);
    var e2, v2 := e1 + [es[n - 1]], v1 + [vs[n - 1]];
    Pushed(es, vs, env, e2, v2, 4);
    var e3, v3 := e2 + [es[n - 4]], v2 + [vs[n - 4]];
    Pushed(es, vs, env, e3, v3, 3);
    var e4, v4 := e3 + [es[n - 3]], v3 + [vs[n - 3]];
    Pushed(es, vs, env, e4, v4, 2);
    var e5, v5 := e4 + [es[n - 2]], v4 + [vs[n - 2]];
    Pushed(es, vs, env, e5, v5, 1);
  }

  lemma ValuesSwap(es: seq<Expr>, vs: seq<int>, env: Env)
    requires Values(es, vs, env) && |es| >= 2
    ensures var n := |es|;
      Values(es[..n - 2] + [es[n - 1]] + [es[n - 2]],
             vs[..n - 2] + [vs[n - 1]] + [vs[n - 2]], env)
  {
    var n := |es|;
    var e0, v0 := es[..n - 2], vs[..n - 2];
    ValuesTaken(es, vs, env, n - 2);
    Pushed(es, vs, env, e0, v0, 1);
    var e1, v1 := e0 + [es[n - 1]], v0 + [vs[n - 1]];
    Pushed(es, vs, env, e1, v1, 2);
  }

  lemma Restacked(infos: seq<LocalInfo>, start: Env, e: Emu, m: Jvm.Machine, stack: seq<Expr>, values: seq<int>)
    requires m.Running? && Tracks(infos, start, e, m) && Values(stack, values, Exec(e.stmts, start).env)
    ensures Tracks(infos, start, e.(stack := stack), m.(stack := values))
  {
  }

  ghost predicate SameButStacks(e: Emu, m: Jvm.Machine, e': Emu, m': Jvm.Machine, env: Env) {
    m.Running? && m'.Running? && e' == e.(stack := e'.stack) && m' == m.(stack := m'.stack)
      && Values(e'.stack, m'.stack, env)
  }

  lemma ShuffleOne(e: Emu, m: Jvm.Machine, env: Env, infos: seq<LocalInfo>, sem: Jvm.Sem)
    requires sem.Dup? || sem.DupX1? || sem.DupX2? || sem.Swap?
    requires m.Running? && Values(e.stack, m.stack, env) && |e.stack| >= Jvm.Needs(sem)
    ensures SameButStacks(e, m, Emulate(sem, infos, e).value, Jvm.Step(sem, m), env)
  {
    match sem
    case Dup => ValuesDup(e.stack, m.stack, env);
    case DupX1 => ValuesDupX1(e.stack, m.stack, env);
    case DupX2 => ValuesDupX2(e.stack, m.stack, env);
    case Swap => ValuesSwap(e.stack, m.stack, env);
  }

  lemma ShuffleTwo(e: Emu, m: Jvm.Machine, env: Env, infos: seq<LocalInfo>, sem: Jvm.Sem)
    requires sem.Dup2? || sem.Dup2X1? || sem.Dup2X2?
    requires m.Running? && Values(e.stack, m.stack, env) && |e.stack| >= Jvm.Needs(sem)
    requires !MeetsWide(sem, e.stack)
    ensures SameButStacks(e, m, Emulate(sem, infos, e).value, Jvm.Step(sem, m), env)
  {
    match sem
    case Dup2 => ValuesDup2(e.stack, m.stack, env);
    case Dup2X1 => ValuesDup2X1(e.stack, m.stack, env);
    case Dup2X2 => ValuesDup2X2(e.stack, m.stack, env);
  }

  lemma ShuffleTracks(infos: seq<LocalInfo>, start: Env, e: Emu, m: Jvm.Machine, sem: Jvm.Sem)
    requires Jvm.Shuffles(sem) && m.Running? && Tracks(infos, start, e, m) && |e.stack| >= Jvm.Needs(sem)
    requires !MeetsWide(sem, e.stack)
    ensures Tracks(infos, start, Emulate(sem, infos, e).value, Jvm.Step(sem, m))
  {
    var env := Exec(e.stmts, start).env;
    if sem.Dup2? || sem.Dup2X1? || sem.Dup2X2? {
      ShuffleTwo(e, m, env, infos, sem);
    } else {
      ShuffleOne(e, m, env, infos, sem);
    }
    Restacked(infos, start, e, m, Emulate(sem, infos, e).value.stack, Jvm.Step(sem, m).stack);
  }

  lemma StepTracks(infos: seq<LocalInfo>, start: Env, e: Emu, m: Jvm.Machine, sem: Jvm.Sem)
    requires m.Running? && Tracks(infos, start, e, m) && Unique(infos)
    requires Jvm.Fits(sem, |m.locals|) && e.cond.None? && NoStaleRead(sem, infos, e) && !MeetsWide(sem, e.stack)
    requires Emulate(sem, infos, e).Ok?
    ensures Tracks(infos, start, Emulate(sem, infos, e).value, Jvm.Step(sem, m))
  {
    match sem
    case Store(x) => StoreTracks(infos, start, e, m, x);
    case Pop => PopTracks(infos, start, e, m);
    case Pop2 => Pop2Tracks(infos, start, e, m);
    case Return(hasValue) =>
      if hasValue { ReturnTracks(infos, start, e, m); } else { ReturnVoidTracks(infos, start, e, m); }
    case Binary(op) => BinaryTracks(infos, start, e, m, op);
    case Negate => NegateTracks(infos, start, e, m);
    case ShiftBy(op) => ShiftTracks(infos, start, e, m, op);
    case BitsWith(op) => BitsTracks(infos, start, e, m, op);
    case If(_) => BranchTracks(infos, start, e, m, sem);
    case IfCmp(_) => BranchTracks(infos, start, e, m, sem);
    case Nop => PushTracks(infos, start, e, m, sem);
    case Goto => PushTracks(infos, start, e, m, sem);
    case Push(_) => PushTracks(infos, start, e, m, sem);
    case Load(_) => PushTracks(infos, start, e, m, sem);
    case _ => ShuffleTracks(infos, start, e, m, sem);
  }

  // ----- a block ------------------------------------------------------------------------

  /** Only the last instruction ends the block. */
  ghost predicate WellEnded(code: seq<Jvm.Sem>) {
    forall k :: 0 <= k < |code| - 1 ==> !Jvm.EndsBlock(code[k])
  }

  /** No store in the block makes a pending expression stale. */
  ghost predicate NeverStale(code: seq<Jvm.Sem>, infos: seq<LocalInfo>, e: Emu)
    requires AllFit(code, |infos|)
  {
    forall k :: 0 <= k < |code| ==> FreshAt(code, infos, e, k)
  }

  ghost predicate FreshAt(code: seq<Jvm.Sem>, infos: seq<LocalInfo>, e: Emu, k: nat)
    requires AllFit(code, |infos|) && k < |code|
  {
    var before := EmulateAll(code[..k], infos, e);
    before.Ok? ==> NoStaleRead(code[k], infos, before.value)
  }

  /** No `pop2` or `dup2` in the block meets an expression recorded as `long`. */
  ghost predicate NeverWide(code: seq<Jvm.Sem>, infos: seq<LocalInfo>, e: Emu)
    requires AllFit(code, |infos|)
  {
    forall k :: 0 <= k < |code| ==> NotWideAt(code, infos, e, k)
  }

  ghost predicate NotWideAt(code: seq<Jvm.Sem>, infos: seq<LocalInfo>, e: Emu, k: nat)
    requires AllFit(code, |infos|) && k < |code|
  {
    var before := EmulateAll(code[..k], infos, e);
    before.Ok? ==> !MeetsWide(code[k], before.value.stack)
  }

  lemma Prefix<T>(code: seq<T>, k: nat)
    requires k < |code|
    ensures code[..k + 1][..k] == code[..k]
  {
  }

  lemma EmulateUpTo(code: seq<Jvm.Sem>, infos: seq<LocalInfo>, e: Emu, k: nat)
    requires AllFit(code, |infos|) && k < |code|
    ensures EmulateAll(code[..k + 1], infos, e) ==
      match EmulateAll(code[..k], infos, e)
      case Ok(before) => Emulate(code[k], infos, before)
      case Err(error) => Err(error)
  {
    Prefix(code, k);
  }

  lemma StepsUpTo(code: seq<Jvm.Sem>, m: Jvm.Machine, k: nat)
    requires k < |code|
    ensures Jvm.Steps(code[..k + 1], m) == var before := Jvm.Steps(code[..k], m);
      if before.Running? then Jvm.Step(code[k], before) else before
  {
    Prefix(code, k);
  }

  lemma KeepsCondition(sem: Jvm.Sem, infos: seq<LocalInfo>, e: Emu)
    requires Jvm.Fits(sem, |infos|) && !Jvm.EndsBlock(sem)
    ensures var r := Emulate(sem, infos, e); r.Ok? ==> r.value.cond == e.cond
  {
  }

  lemma StillNoCondition(sem: Jvm.Sem, infos: seq<LocalInfo>, before: Result<Emu, EmulationError>,
                         after: Result<Emu, EmulationError>)
    requires Jvm.Fits(sem, |infos|) && !Jvm.EndsBlock(sem) && (before.Ok? ==> before.value.cond.None?)
    requires if before.Ok? then after == Emulate(sem, infos, before.value) else after.Err?
    ensures after.Ok? ==> after.value.cond.None?
  {
    if before.Ok? { KeepsCondition(sem, infos, before.value); }
  }

  lemma {:induction false} NoConditionYet(code: seq<Jvm.Sem>, infos: seq<LocalInfo>, e: Emu, k: nat)
    requires AllFit(code, |infos|) && k < |code| && WellEnded(code) && e.cond.None?
    ensures var r := EmulateAll(code[..k], infos, e); r.Ok? ==> r.value.cond.None?
    decreases k
  {
    if k > 0 {
      NoConditionYet(code, infos, e, k - 1);
      EmulateUpTo(code, infos, e, k - 1);
      StillNoCondition(code[k - 1], infos, EmulateAll(code[..k - 1], infos, e), EmulateAll(code[..k], infos, e));
    }
  }

  lemma StepKeepsLocals(sem: Jvm.Sem, m: Jvm.Machine)
    requires m.Running?
    ensures Jvm.Step(sem, m).Running? ==> |Jvm.Step(sem, m).locals| == |m.locals|
  {
  }

  lemma {:induction false} StepsKeepLocals(code: seq<Jvm.Sem>, m: Jvm.Machine)
    requires m.Running?
    ensures Jvm.Steps(code, m).Running? ==> |Jvm.Steps(code, m).locals| == |m.locals|
  {
    if code != [] {
      var n := |code| - 1;
      StepsKeepLocals(code[..n], m);
      var before := Jvm.Steps(code[..n], m);
      if before.Running? { StepKeepsLocals(code[n], before); }
    }
  }

  /** What holds before instruction `k` when the emulation gets past it. */
  lemma GotPast(code: seq<Jvm.Sem>, infos: seq<LocalInfo>, e: Emu, k: nat)
    requires AllFit(code, |infos|) && WellEnded(code) && NeverStale(code, infos, e) && e.cond.None?
    requires NeverWide(code, infos, e) && k < |code| && EmulateAll(code[..k + 1], infos, e).Ok?
    ensures EmulateAll(code[..k], infos, e).Ok?
    ensures var before := EmulateAll(code[..k], infos, e).value;
      && before.cond.None? && NoStaleRead(code[k], infos, before) && !MeetsWide(code[k], before.stack)
      && Emulate(code[k], infos, before).Ok?
  {
    EmulateUpTo(code, infos, e, k);
    NoConditionYet(code, infos, e, k);
    assert FreshAt(code, infos, e, k) && NotWideAt(code, infos, e, k);
  }

  lemma StillFits(code: seq<Jvm.Sem>, m: Jvm.Machine, k: nat)
    requires k < |code| && m.Running? && AllFit(code, |m.locals|)
    ensures var middle := Jvm.Steps(code[..k], m); middle.Running? ==> Jvm.Fits(code[k], |middle.locals|)
  {
    StepsKeepLocals(code[..k], m);
  }

  lemma {:induction false} PrefixTracks(code: seq<Jvm.Sem>, infos: seq<LocalInfo>, e: Emu, m: Jvm.Machine, start: Env,
                                        k: nat)
    requires k <= |code| && m.Running? && Unique(infos) && Tracks(infos, start, e, m) && e.cond.None?
    requires AllFit(code, |infos|) && AllFit(code, |m.locals|) && WellEnded(code)
    requires NeverStale(code, infos, e) && NeverWide(code, infos, e)
    requires EmulateAll(code[..k], infos, e).Ok?
    ensures Tracks(infos, start, EmulateAll(code[..k], infos, e).value, Jvm.Steps(code[..k], m))
    ensures !Jvm.Steps(code[..k], m).Stuck?
    decreases k
  {
    if k > 0 {
      GotPast(code, infos, e, k - 1);
      PrefixTracks(code, infos, e, m, start, k - 1);
      StillFits(code, m, k - 1);
      PrefixAdvances(code, infos, e, m, start, k - 1, EmulateAll(code[..k - 1], infos, e).value,
        Jvm.Steps(code[..k - 1], m));
    }
  }

  lemma PrefixAdvances(code: seq<Jvm.Sem>, infos: seq<LocalInfo>, e: Emu, m: Jvm.Machine, start: Env, k: nat,
                       before: Emu, middle: Jvm.Machine)
    requires k < |code| && AllFit(code, |infos|) && Unique(infos)
    requires EmulateAll(code[..k], infos, e) == Ok(before) && Jvm.Steps(code[..k], m) == middle
    requires Tracks(infos, start, before, middle) && !middle.Stuck?
      && (middle.Running? ==> Jvm.Fits(code[k], |middle.locals|))
    requires before.cond.None? && NoStaleRead(code[k], infos, before) && !MeetsWide(code[k], before.stack)
      && Emulate(code[k], infos, before).Ok?
    ensures EmulateAll(code[..k + 1], infos, e).Ok?
    ensures Tracks(infos, start, EmulateAll(code[..k + 1], infos, e).value, Jvm.Steps(code[..k + 1], m))
    ensures !Jvm.Steps(code[..k + 1], m).Stuck?
  {
    EmulateUpTo(code, infos, e, k);
    StepsUpTo(code, m, k);
    AdvanceTracks(infos, start, before, middle, code[k]);
  }

  lemma AdvanceTracks(infos: seq<LocalInfo>, start: Env, e: Emu, m: Jvm.Machine, sem: Jvm.Sem)
    requires Tracks(infos, start, e, m) && Unique(infos) && !m.Stuck? && Jvm.Fits(sem, |infos|)
    requires (m.Running? ==> Jvm.Fits(sem, |m.locals|)) && e.cond.None? && NoStaleRead(sem, infos, e)
    requires !MeetsWide(sem, e.stack) && Emulate(sem, infos, e).Ok?
    ensures var m' := if m.Running? then Jvm.Step(sem, m) else m;
      Tracks(infos, start, Emulate(sem, infos, e).value, m') && !m'.Stuck?
  {
    if m.Running? {
      StepTracks(infos, start, e, m, sem);
      NotStuck(infos, start, e, m, sem);
    } else if m.Finished? {
      ReturnedStays(sem, infos, e, start);
    }
  }

  lemma NotStuck(infos: seq<LocalInfo>, start: Env, e: Emu, m: Jvm.Machine, sem: Jvm.Sem)
    requires m.Running? && Tracks(infos, start, e, m) && Jvm.Fits(sem, |infos|) && Jvm.Fits(sem, |m.locals|)
    requires !MeetsWide(sem, e.stack) && Emulate(sem, infos, e).Ok?
    ensures !Jvm.Step(sem, m).Stuck?
  {
    assert |e.stack| == |m.stack|;
  }

  /** Statements after a `return` or a throw change nothing. */
  lemma ReturnedStays(sem: Jvm.Sem, infos: seq<LocalInfo>, e: Emu, start: Env)
    requires Jvm.Fits(sem, |infos|) && Emulate(sem, infos, e).Ok? && !Exec(e.stmts, start).Normal?
    ensures Exec(Emulate(sem, infos, e).value.stmts, start) == Exec(e.stmts, start)
  {
    var after := Emulate(sem, infos, e).value.stmts;
    var n := |e.stack|;
    match sem
    case Store(x) => ExecAppend(e.stmts, StoreLocal(infos, x, e.stack[n - 1]), start);
    case Pop => StoppedDrop(e.stmts, e.stack[n - 1], start);
    case Pop2 =>
      if MeetsWide(sem, e.stack) {
        StoppedDrop(e.stmts, e.stack[n - 1], start);
      } else {
        StoppedDrop(e.stmts, e.stack[n - 2], start);
        StoppedDrop(e.stmts + Dropped(e.stack[n - 2]), e.stack[n - 1], start);
      }
    case Return(hasValue) => ExecAppend(e.stmts, after[|after| - 1], start);
    case _ =>
  }

  lemma StoppedDrop(stmts: seq<Stmt>, e: Expr, start: Env)
    requires !Exec(stmts, start).Normal?
    ensures Exec(stmts + Dropped(e), start) == Exec(stmts, start)
  {
    if HasSideEffects(e) {
      ExecAppend(stmts, ExprStmt(e), start);
    } else {
      assert stmts + Dropped(e) == stmts;
    }
  }

  /** The block theorem. Whenever the emulation of a block succeeds, executing its
      statements leaves every variable with its slot's value, and the leftover stack and
      the condition evaluate to the machine's stack and branch decision; a returned value
      is the machine's, and the machine does not get stuck. */
  lemma BlockMeans(code: seq<Jvm.Sem>, infos: seq<LocalInfo>, entry: seq<Expr>, locals: seq<int>, stack: seq<int>,
                   start: Env)
    requires Unique(infos) && Agree(infos, locals, start) && Values(entry, stack, start)
    requires AllFit(code, |locals|) && WellEnded(code)
    requires NeverStale(code, infos, Emu(entry, [], None)) && NeverWide(code, infos, Emu(entry, [], None))
    requires EmulateAll(code, infos, Emu(entry, [], None)).Ok?
    ensures Tracks(infos, start, EmulateAll(code, infos, Emu(entry, [], None)).value,
      Jvm.Steps(code, Jvm.Running(locals, stack, None)))
    ensures !Jvm.Steps(code, Jvm.Running(locals, stack, None)).Stuck?
  {
    assert code[..|code|] == code;
    PrefixTracks(code, infos, Emu(entry, [], None), Jvm.Running(locals, stack, None), start, |code|);
  }

  // ----- exceptions ------------------------------------------------------------------------

  /** Evaluating it may throw. */
  predicate CanThrow(e: Expr) {
    match e
    case Const(_, _) => false
    case Local(_, _, _) => false
    case Bin(op, a, b, _) => op.Div? || op.Rem? || CanThrow(a) || CanThrow(b)
    case Shifted(_, a, b, _) => CanThrow(a) || CanThrow(b)
    case Bit(_, a, b, _) => CanThrow(a) || CanThrow(b)
    case Cmp(_, a, b) => CanThrow(a) || CanThrow(b)
    case Not(a) => CanThrow(a)
    case Neg(a, _) => CanThrow(a)
    case Ternary(c, a, b, _) => CanThrow(c) || CanThrow(a) || CanThrow(b)
    case Inc(_, _, _, _, _) => true
  }

  lemma {:induction false} CannotThrow(e: Expr, env: Env)
    requires !CanThrow(e)
    ensures Eval(e, env).Some?
  {
    match e
    case Const(_, _) =>
    case Local(_, _, _) =>
    case Bin(_, a, b, _) => CannotThrow(a, env); CannotThrow(b, env);
    case Shifted(_, a, b, _) => CannotThrow(a, env); CannotThrow(b, env);
    case Bit(_, a, b, _) => CannotThrow(a, env); CannotThrow(b, env);
    case Cmp(_, a, b) => CannotThrow(a, env); CannotThrow(b, env);
    case Not(a) => CannotThrow(a, env);
    case Neg(a, _) => CannotThrow(a, env);
    case Ternary(c, a, b, _) => CannotThrow(c, env); CannotThrow(a, env); CannotThrow(b, env);
  }

  /** The instruction forgets no expression whose evaluation may throw. */
  ghost predicate ForgetsNothing(sem: Jvm.Sem, e: Emu) {
    var n := |e.stack|;
    && (sem.Pop? && n >= 1 ==> !CanThrow(e.stack[n - 1]))
    && (sem.Pop2? && n >= 2 ==> !CanThrow(e.stack[n - 1]) && !CanThrow(e.stack[n - 2]))
    && (sem.Return? ==> forall i :: 0 <= i < (if sem.hasValue then n - 1 else n) ==> !CanThrow(e.stack[i]))
  }

  ghost predicate SomeThrows(es: seq<Expr>, env: Env) {
    exists x :: x in es && Eval(x, env).None?
  }

  /** The emulated block throws, or will as soon as what it left is evaluated. */
  ghost predicate Doomed(e: Emu, start: Env) {
    match Exec(e.stmts, start)
    case Normal(env) => SomeThrows(e.stack, env) || (e.cond.Some? && Eval(e.cond.value, env).None?)
    case Returned(_) => false
    case Threw => true
  }

  lemma FaultDooms(infos: seq<LocalInfo>, start: Env, e: Emu, m: Jvm.Machine, sem: Jvm.Sem)
    requires m.Running? && Tracks(infos, start, e, m) && Jvm.Fits(sem, |infos|)
    requires Emulate(sem, infos, e).Ok? && Jvm.Step(sem, m).Faulted?
    ensures Doomed(Emulate(sem, infos, e).value, start)
  {
    var n := |e.stack|;
    var env := Exec(e.stmts, start).env;
    assert Eval(e.stack[n - 1], env) == Some(m.stack[n - 1]);
    assert Eval(e.stack[n - 2], env) == Some(m.stack[n - 2]);
    var es := Emulate(sem, infos, e).value.stack;
    assert es[n - 2] in es && Eval(es[n - 2], env).None?;
  }

  lemma DoomStays(infos: seq<LocalInfo>, start: Env, e: Emu, sem: Jvm.Sem)
    requires Doomed(e, start) && Jvm.Fits(sem, |infos|) && Emulate(sem, infos, e).Ok? && e.cond.None?
    requires NoStaleRead(sem, infos, e) && !MeetsWide(sem, e.stack) && ForgetsNothing(sem, e)
    ensures Doomed(Emulate(sem, infos, e).value, start)
  {
    match Exec(e.stmts, start)
    case Threw => ReturnedStays(sem, infos, e, start);
    case Normal(env) =>
      var x :| x in e.stack && Eval(x, env).None?;
      if sem.Store? {
        DoomStaysStore(infos, start, e, sem.slot, env, x);
      } else if sem.Pop? {
        DoomStaysPop(infos, start, e, env, x);
      } else if sem.Pop2? {
        DoomStaysPop2(infos, start, e, env, x);
      } else if sem.Return? {
        DoomStaysReturn(infos, start, e, sem.hasValue, env, x);
      } else if sem.If? || sem.IfCmp? {
        DoomDecides(infos, start, e, sem, env, x);
      } else if sem.Binary? || sem.Negate? || sem.ShiftBy? || sem.BitsWith? {
        DoomSpreads(infos, start, e, sem, env, x);
      } else {
        StackKeeps(infos, e, sem, x);
      }
  }

  lemma Member<T>(s: seq<T>, k: nat, x: T)
    requires k <= |s| && x in s
    ensures x in s[..k] || exists i :: k <= i < |s| && s[i] == x
  {
    var i :| 0 <= i < |s| && s[i] == x;
    if i < k { assert s[..k][i] == x; }
  }

  lemma StoreThrows(infos: seq<LocalInfo>, stack: seq<Expr>, stmts: seq<Stmt>, cond: Option<Expr>, start: Env, env: Env,
                    x: nat, value: Expr)
    requires Exec(stmts, start) == Normal(env) && Eval(value, env).None? && x < |infos| && !infos[x].isThis
    ensures Doomed(Emu(stack, stmts + [StoreLocal(infos, x, value)], cond), start)
  {
    ExecAppend(stmts, StoreLocal(infos, x, value), start);
  }

  lemma NotLast(stack: seq<Expr>, it: Expr)
    requires it in stack && it != stack[|stack| - 1]
    ensures it in stack[..|stack| - 1]
  {
    var i :| 0 <= i < |stack| && stack[i] == it;
    assert stack[..|stack| - 1][i] == it;
  }

  lemma DoomStaysStore(infos: seq<LocalInfo>, start: Env, e: Emu, x: nat, env: Env, it: Expr)
    requires Exec(e.stmts, start) == Normal(env) && it in e.stack && Eval(it, env).None?
    requires x < |infos| && NoStaleRead(Jvm.Store(x), infos, e)
    ensures Doomed(Emulate(Jvm.Store(x), infos, e).value, start)
  {
    var n := |e.stack| - 1;
    var stmts := e.stmts + [StoreLocal(infos, x, e.stack[n])];
    assert Emulate(Jvm.Store(x), infos, e).value == Emu(e.stack[..n], stmts, e.cond);
    if Eval(e.stack[n], env).Some? {
      var v := Eval(e.stack[n], env).value;
      StoreRuns(infos, start, e.stmts, x, e.stack[n], env, v);
      NotLast(e.stack, it);
      EvalUnread(it, env, infos[x].name, v);
      DoomedBelow(e.stack[..n], stmts, e.cond, start, env[infos[x].name := v], it);
    } else {
      StoreThrows(infos, e.stack[..n], e.stmts, e.cond, start, env, x, e.stack[n]);
    }
  }

  lemma HarmlessDrop(stmts: seq<Stmt>, e: Expr, start: Env)
    requires Exec(stmts, start).Normal? && !CanThrow(e)
    ensures Exec(stmts + Dropped(e), start) == Exec(stmts, start)
  {
    CannotThrow(e, Exec(stmts, start).env);
    DropTracks(start, stmts, e);
  }

  /** What may throw is not among the elements from `k` on. */
  lemma StaysBelow(stack: seq<Expr>, k: nat, it: Expr, env: Env)
    requires it in stack && k <= |stack| && Eval(it, env).None? && forall i :: k <= i < |stack| ==> !CanThrow(stack[i])
    ensures it in stack[..k]
  {
    if !CanThrow(it) { CannotThrow(it, env); }
    var i :| 0 <= i < |stack| && stack[i] == it;
    assert i < k;
    assert stack[..k][i] == it;
  }

  lemma DoomedBelow(stack: seq<Expr>, stmts: seq<Stmt>, cond: Option<Expr>, start: Env, env: Env, it: Expr)
    requires Exec(stmts, start) == Normal(env) && it in stack && Eval(it, env).None?
    ensures Doomed(Emu(stack, stmts, cond), start)
  {
  }

  lemma DoomStaysPop(infos: seq<LocalInfo>, start: Env, e: Emu, env: Env, it: Expr)
    requires Exec(e.stmts, start) == Normal(env) && it in e.stack && Eval(it, env).None?
    requires ForgetsNothing(Jvm.Pop, e)
    ensures Doomed(Emulate(Jvm.Pop, infos, e).value, start)
  {
    var k := |e.stack| - 1;
    StaysBelow(e.stack, k, it, env);
    HarmlessDrop(e.stmts, e.stack[k], start);
    DoomedBelow(e.stack[..k], e.stmts + Dropped(e.stack[k]), e.cond, start, env, it);
    assert Emulate(Jvm.Pop, infos, e).value == Emu(e.stack[..k], e.stmts + Dropped(e.stack[k]), e.cond);
  }

  lemma HarmlessDrops(stmts: seq<Stmt>, a: Expr, b: Expr, start: Env)
    requires Exec(stmts, start).Normal? && !CanThrow(a) && !CanThrow(b)
    ensures Exec(stmts + Dropped(a) + Dropped(b), start) == Exec(stmts, start)
  {
    HarmlessDrop(stmts, a, start);
    HarmlessDrop(stmts + Dropped(a), b, start);
  }

  lemma EmulatePop2(infos: seq<LocalInfo>, e: Emu, k: nat)
    requires |e.stack| == k + 2 && !MeetsWide(Jvm.Pop2, e.stack)
    ensures Emulate(Jvm.Pop2, infos, e)
      == Ok(Emu(e.stack[..k], e.stmts + Dropped(e.stack[k]) + Dropped(e.stack[k + 1]), e.cond))
  {
  }

  lemma DoomStaysPop2(infos: seq<LocalInfo>, start: Env, e: Emu, env: Env, it: Expr)
    requires Exec(e.stmts, start) == Normal(env) && it in e.stack && Eval(it, env).None?
    requires ForgetsNothing(Jvm.Pop2, e) && |e.stack| >= 2 && !MeetsWide(Jvm.Pop2, e.stack)
    ensures Doomed(Emulate(Jvm.Pop2, infos, e).value, start)
  {
    var k := |e.stack| - 2;
    StaysBelow(e.stack, k, it, env);
    HarmlessDrops(e.stmts, e.stack[k], e.stack[k + 1], start);
    EmulatePop2(infos, e, k);
    var stmts := e.stmts + Dropped(e.stack[k]) + Dropped(e.stack[k + 1]);
    DoomedBelow(e.stack[..k], stmts, e.cond, start, env, it);
  }

  lemma ReturnThrows(stack: seq<Expr>, stmts: seq<Stmt>, cond: Option<Expr>, start: Env, env: Env, it: Expr)
    requires Exec(stmts, start) == Normal(env) && Eval(it, env).None?
    ensures Doomed(Emu(stack, stmts + [Stmt.Return(Some(it))], cond), start)
  {
    ExecAppend(stmts, Stmt.Return(Some(it)), start);
  }

  lemma EmulateReturn(infos: seq<LocalInfo>, e: Emu)
    requires e.stack != []
    ensures var n := |e.stack| - 1;
      Emulate(Jvm.Return(true), infos, e) == Ok(Emu(e.stack[..n], e.stmts + [Stmt.Return(Some(e.stack[n]))], e.cond))
  {
  }

  lemma OnlyReturned(stack: seq<Expr>, it: Expr, env: Env, hasValue: bool)
    requires it in stack && Eval(it, env).None?
    requires forall i :: 0 <= i < (if hasValue then |stack| - 1 else |stack|) ==> !CanThrow(stack[i])
    ensures hasValue && it == stack[|stack| - 1]
  {
    var i :| 0 <= i < |stack| && stack[i] == it;
    if !CanThrow(it) { CannotThrow(it, env); }
  }

  lemma DoomStaysReturn(infos: seq<LocalInfo>, start: Env, e: Emu, hasValue: bool, env: Env, it: Expr)
    requires Exec(e.stmts, start) == Normal(env) && it in e.stack && Eval(it, env).None?
    requires ForgetsNothing(Jvm.Return(hasValue), e)
    ensures Doomed(Emulate(Jvm.Return(hasValue), infos, e).value, start)
  {
    var n := |e.stack| - 1;
    OnlyReturned(e.stack, it, env, hasValue);
    ReturnThrows(e.stack[..n], e.stmts, e.cond, start, env, e.stack[n]);
    EmulateReturn(infos, e);
  }

  /** A pending expression becomes an operand... */
  lemma DoomSpreads(infos: seq<LocalInfo>, start: Env, e: Emu, sem: Jvm.Sem, env: Env, it: Expr)
    requires sem.Binary? || sem.Negate? || sem.ShiftBy? || sem.BitsWith?
    requires Exec(e.stmts, start) == Normal(env) && it in e.stack && Eval(it, env).None?
    requires Emulate(sem, infos, e).Ok?
    ensures Doomed(Emulate(sem, infos, e).value, start)
  {
    var after, k := Emulate(sem, infos, e).value, |e.stack| - Jvm.Needs(sem);
    Member(e.stack, k, it);
    if it in e.stack[..k] {
      assert it in after.stack;
    } else {
      var top := after.stack[k];
      assert top in after.stack;
      assert Eval(top, env).None?;
    }
  }

  lemma DoomDecides(infos: seq<LocalInfo>, start: Env, e: Emu, sem: Jvm.Sem, env: Env, it: Expr)
    requires sem.If? || sem.IfCmp?
    requires Exec(e.stmts, start) == Normal(env) && it in e.stack && Eval(it, env).None?
    requires Emulate(sem, infos, e).Ok?
    ensures Doomed(Emulate(sem, infos, e).value, start)
  {
    var k := |e.stack| - Jvm.Needs(sem);
    Member(e.stack, k, it);
  }

  /** ...or stays on the stack. */
  lemma StackKeeps(infos: seq<LocalInfo>, e: Emu, sem: Jvm.Sem, it: Expr)
    requires sem.Nop? || sem.Goto? || sem.Push? || sem.Load? || Jvm.Shuffles(sem)
    requires Jvm.Fits(sem, |infos|) && Emulate(sem, infos, e).Ok? && !MeetsWide(sem, e.stack) && it in e.stack
    ensures var after := Emulate(sem, infos, e).value; it in after.stack && after.stmts == e.stmts
  {
    Member(e.stack, |e.stack| - Jvm.Needs(sem), it);
  }

  ghost predicate ForgetsNoneAt(code: seq<Jvm.Sem>, infos: seq<LocalInfo>, e: Emu, k: nat)
    requires AllFit(code, |infos|) && k < |code|
  {
    var before := EmulateAll(code[..k], infos, e);
    before.Ok? ==> ForgetsNothing(code[k], before.value)
  }

  ghost predicate NeverForgets(code: seq<Jvm.Sem>, infos: seq<LocalInfo>, e: Emu)
    requires AllFit(code, |infos|)
  {
    forall k :: 0 <= k < |code| ==> ForgetsNoneAt(code, infos, e, k)
  }

  /** The same with the machine beside it, and with the expressions that may throw. */
  lemma BeforeOne(code: seq<Jvm.Sem>, infos: seq<LocalInfo>, e: Emu, m: Jvm.Machine, start: Env, k: nat)
    requires k < |code| && m.Running? && Unique(infos) && Tracks(infos, start, e, m) && e.cond.None?
    requires AllFit(code, |infos|) && AllFit(code, |m.locals|) && WellEnded(code)
    requires NeverStale(code, infos, e) && NeverWide(code, infos, e) && NeverForgets(code, infos, e)
    requires EmulateAll(code[..k + 1], infos, e).Ok?
    ensures EmulateAll(code[..k], infos, e).Ok?
    ensures var before := EmulateAll(code[..k], infos, e).value;
      && Tracks(infos, start, before, Jvm.Steps(code[..k], m)) && before.cond.None?
      && NoStaleRead(code[k], infos, before) && !MeetsWide(code[k], before.stack)
      && ForgetsNothing(code[k], before) && Emulate(code[k], infos, before).Ok?
  {
    GotPast(code, infos, e, k);
    PrefixTracks(code, infos, e, m, start, k);
    assert ForgetsNoneAt(code, infos, e, k);
  }

  /** Once the machine has faulted, the emulated prefix throws or will. */
  lemma {:induction false} PrefixDooms(code: seq<Jvm.Sem>, infos: seq<LocalInfo>, e: Emu, m: Jvm.Machine, start: Env,
                                       k: nat)
    requires k <= |code| && m.Running? && Unique(infos) && Tracks(infos, start, e, m) && e.cond.None?
    requires AllFit(code, |infos|) && AllFit(code, |m.locals|) && WellEnded(code)
    requires NeverStale(code, infos, e) && NeverWide(code, infos, e) && NeverForgets(code, infos, e)
    requires EmulateAll(code[..k], infos, e).Ok? && Jvm.Steps(code[..k], m).Faulted?
    ensures Doomed(EmulateAll(code[..k], infos, e).value, start)
    decreases k
  {
    if k > 0 {
      BeforeOne(code, infos, e, m, start, k - 1);
      if Jvm.Steps(code[..k - 1], m).Faulted? { PrefixDooms(code, infos, e, m, start, k - 1); }
      DoomAdvances(code, infos, e, m, start, k - 1, EmulateAll(code[..k - 1], infos, e).value,
        Jvm.Steps(code[..k - 1], m));
    }
  }

  lemma DoomAdvances(code: seq<Jvm.Sem>, infos: seq<LocalInfo>, e: Emu, m: Jvm.Machine, start: Env, k: nat,
                     before: Emu, middle: Jvm.Machine)
    requires k < |code| && AllFit(code, |infos|)
    requires EmulateAll(code[..k], infos, e) == Ok(before) && Jvm.Steps(code[..k], m) == middle
    requires Tracks(infos, start, before, middle) && before.cond.None? && (middle.Faulted? ==> Doomed(before, start))
    requires NoStaleRead(code[k], infos, before) && !MeetsWide(code[k], before.stack)
      && ForgetsNothing(code[k], before) && Emulate(code[k], infos, before).Ok?
    requires Jvm.Steps(code[..k + 1], m).Faulted?
    ensures EmulateAll(code[..k + 1], infos, e).Ok? && Doomed(EmulateAll(code[..k + 1], infos, e).value, start)
  {
    EmulateUpTo(code, infos, e, k);
    StepsUpTo(code, m, k);
    if middle.Running? {
      FaultDooms(infos, start, before, middle, code[k]);
    } else {
      DoomStays(infos, start, before, code[k]);
    }
  }

  /** An exception of the machine shows: the block throws too, at the latest when what it
      left on the stack is evaluated. */
  lemma BlockThrows(code: seq<Jvm.Sem>, infos: seq<LocalInfo>, entry: seq<Expr>, locals: seq<int>, stack: seq<int>,
                    start: Env)
    requires Unique(infos) && Agree(infos, locals, start) && Values(entry, stack, start)
    requires AllFit(code, |locals|) && WellEnded(code)
    requires NeverStale(code, infos, Emu(entry, [], None)) && NeverWide(code, infos, Emu(entry, [], None))
    requires NeverForgets(code, infos, Emu(entry, [], None)) && EmulateAll(code, infos, Emu(entry, [], None)).Ok?
    requires Jvm.Steps(code, Jvm.Running(locals, stack, None)).Faulted?
    ensures Doomed(EmulateAll(code, infos, Emu(entry, [], None)).value, start)
  {
    assert code[..|code|] == code;
    PrefixDooms(code, infos, Emu(entry, [], None), Jvm.Running(locals, stack, None), start, |code|);
  }

  // ----- why the two conditions are there -----------------------------------------------------

  /** With `es[i]` reading what is overwritten and the others not, all values below the
      top survive exactly when the new value is the one `es[i]` had. */
  lemma StaleValues(es: seq<Expr>, vs: seq<int>, env: Env, name: string, v: int, i: nat)
    requires Values(es, vs, env) && i < |es| - 1 && Eval(es[i], env[name := v]) == Some(v)
    requires forall j :: 0 <= j < |es| - 1 && j != i ==> !Reads(es[j], name)
    ensures Values(es[..|es| - 1], vs[..|vs| - 1], env[name := v]) <==> vs[i] == v
  {
    var n := |es| - 1;
    forall j | 0 <= j < n && j != i
      ensures Eval(es[j], env[name := v]) == Some(vs[j])
    {
      EvalUnread(es[j], env, name, v);
    }
    assert es[..n][i] == es[i] && vs[..n][i] == vs[i];
  }

  lemma TracksIff(infos: seq<LocalInfo>, start: Env, e: Emu, m: Jvm.Machine, env: Env)
    requires m.Running? && Exec(e.stmts, start) == Normal(env) && Agree(infos, m.locals, env)
      && Decides(e.cond, m.taken, env)
    ensures Tracks(infos, start, e, m) <==> Values(e.stack, m.stack, env)
  {
  }

  /** Storing into `x` while a load of `x` is pending: the load then reads the new value,
      so the emulation stays right exactly when that is the old one. */
  lemma StaleStore(infos: seq<LocalInfo>, start: Env, e: Emu, m: Jvm.Machine, x: nat, i: nat)
    requires m.Running? && x < |m.locals| && Tracks(infos, start, e, m) && Unique(infos) && e.cond.None?
    requires i < |e.stack| - 1 && e.stack[i] == LocalExpr(infos, x) && !infos[x].isThis
    requires forall j :: 0 <= j < |e.stack| - 1 && j != i ==> !Reads(e.stack[j], infos[x].name)
    ensures Tracks(infos, start, Emulate(Jvm.Store(x), infos, e).value, Jvm.Step(Jvm.Store(x), m)) <==>
            m.stack[i] == m.stack[|m.stack| - 1]
  {
    var n := |e.stack| - 1;
    var env := Exec(e.stmts, start).env;
    var v := m.stack[n];
    TopValue(infos, start, e, m);
    StoreRuns(infos, start, e.stmts, x, e.stack[n], env, v);
    AgreeStored(infos, m.locals, env, x, v);
    StaleValues(e.stack, m.stack, env, infos[x].name, v, i);
    var after, m' := Emu(e.stack[..n], e.stmts + [StoreLocal(infos, x, e.stack[n])], None),
      Jvm.Running(m.locals[x := v], m.stack[..n], m.taken);
    TracksIff(infos, start, after, m', env[infos[x].name := v]);
    assert Emulate(Jvm.Store(x), infos, e).value == after;
    assert Jvm.Step(Jvm.Store(x), m) == m';
  }

  lemma DroppedQuotient(infos: seq<LocalInfo>, e: Emu)
    requires |e.stack| >= 2 && !HasSideEffects(e.stack[|e.stack| - 1]) && !HasSideEffects(e.stack[|e.stack| - 2])
    ensures var divided := Emulate(Jvm.Binary(Div), infos, e).value;
      Emulate(Jvm.Pop, infos, divided) == Ok(Emu(e.stack[..|e.stack| - 2], e.stmts, e.cond))
  {
    var n := |e.stack|;
    var quotient := Bin(Div, e.stack[n - 2], e.stack[n - 1], Int);
    var divided := Emu(e.stack[..n - 2] + [quotient], e.stmts, e.cond);
    assert Emulate(Jvm.Binary(Div), infos, e) == Ok(divided);
    assert !HasSideEffects(quotient) && divided.stack[..n - 2] == e.stack[..n - 2];
    assert e.stmts + [] == e.stmts;
  }

  /** What has tracked the machine so far does not throw. */
  lemma TrackedIsSound(infos: seq<LocalInfo>, start: Env, e: Emu, m: Jvm.Machine, k: nat)
    requires m.Running? && Tracks(infos, start, e, m) && k <= |e.stack|
    ensures !Doomed(Emu(e.stack[..k], e.stmts, e.cond), start)
  {
    var env := Exec(e.stmts, start).env;
    forall it | it in e.stack[..k]
      ensures Eval(it, env).Some?
    {
      var j :| 0 <= j < k && e.stack[j] == it;
    }
  }

  lemma DivisionFaults(m: Jvm.Machine)
    requires m.Running? && |m.stack| >= 2
    ensures Jvm.Step(Jvm.Binary(Div), m).Faulted? <==> m.stack[|m.stack| - 1] == 0
  {
  }

  /** A division whose result is popped leaves no trace: the machine throws exactly when
      the divisor is zero, the emulated block never does. */
  lemma ForgottenDivision(infos: seq<LocalInfo>, start: Env, e: Emu, m: Jvm.Machine)
    requires m.Running? && Tracks(infos, start, e, m) && |e.stack| >= 2
    requires !HasSideEffects(e.stack[|e.stack| - 1]) && !HasSideEffects(e.stack[|e.stack| - 2])
    ensures var divided := Emulate(Jvm.Binary(Div), infos, e).value;
      && Emulate(Jvm.Pop, infos, divided).Ok?
      && !Doomed(Emulate(Jvm.Pop, infos, divided).value, start)
      && (Jvm.Step(Jvm.Binary(Div), m).Faulted? <==> m.stack[|m.stack| - 1] == 0)
  {
    TopValue(infos, start, e, m);
    DroppedQuotient(infos, e);
    TrackedIsSound(infos, start, e, m, |e.stack| - 2);
    DivisionFaults(m);
  }

  lemma ExecSingle(s: Stmt, env: Env)
    ensures Exec([s], env) == ExecOne(s, env)
  {
    assert [s][..0] == [];
  }

  /** Dropping a value keeps the effect of evaluating it. */
  lemma DroppedKeepsEffect(e: Expr, env: Env)
    requires ExecOne(ExprStmt(e), env).Normal?
    ensures Exec(Dropped(e), env) == ExecOne(ExprStmt(e), env)
  {
    ExecSingle(ExprStmt(e), env);
  }
}
