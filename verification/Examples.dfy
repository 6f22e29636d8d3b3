/** Small pieces of bytecode on which the emulated statements do something else than the machine. */
module Examples {
  import opened Results
  import opened JavaInts
  import opened Ir
  import opened Emulation
  import opened BlockMeaning
  import opened Widths
  import Jvm

  // ----- following a block instruction by instruction ---------------------------------------------

  /** A block and what it is entered with. */
  datatype Trial = Trial(code: seq<Jvm.Sem>, infos: seq<LocalInfo>, locals: seq<int>, entry: seq<Expr>,
    stack: seq<int>)

  ghost predicate Fit(t: Trial) { AllFit(t.code, |t.infos|) && |t.locals| == |t.infos| && |t.entry| == |t.stack| }

  /** After `k` instructions the emulator has this stack and these statements, and the machine
      these variables and this stack. */
  ghost predicate Reached(t: Trial, k: nat, es: seq<Expr>, stmts: seq<Stmt>, locals: seq<int>, vs: seq<int>) {
    && Fit(t) && k <= |t.code| && |es| == |vs| && |locals| == |t.locals|
    && EmulateAll(t.code[..k], t.infos, Emu(t.entry, [], None)) == Ok(Emu(es, stmts, None))
    && Jvm.Steps(t.code[..k], Jvm.Running(t.locals, t.stack, None)) == Jvm.Running(locals, vs, None)
  }

  lemma Begin(t: Trial, k: nat)
    requires Fit(t) && k == 0
    ensures Reached(t, k, t.entry, [], t.locals, t.stack)
  {
  }

  lemma Advance(t: Trial, k: nat, es: seq<Expr>, stmts: seq<Stmt>, locals: seq<int>, vs: seq<int>)
    requires Reached(t, k, es, stmts, locals, vs) && k < |t.code|
    ensures EmulateAll(t.code[..k + 1], t.infos, Emu(t.entry, [], None))
      == Emulate(t.code[k], t.infos, Emu(es, stmts, None))
    ensures Jvm.Steps(t.code[..k + 1], Jvm.Running(t.locals, t.stack, None))
      == Jvm.Step(t.code[k], Jvm.Running(locals, vs, None))
  {
    EmulateUpTo(t.code, t.infos, Emu(t.entry, [], None), k);
    StepsUpTo(t.code, Jvm.Running(t.locals, t.stack, None), k);
  }

  lemma Pushes(t: Trial, k: nat, es: seq<Expr>, stmts: seq<Stmt>, locals: seq<int>, vs: seq<int>, v: int)
    requires Reached(t, k, es, stmts, locals, vs) && k < |t.code| && t.code[k] == Jvm.Push(v)
    ensures Reached(t, k + 1, es + [Const(v, Int)], stmts, locals, vs + [v])
  {
    Advance(t, k, es, stmts, locals, vs);
  }

  lemma Loads(t: Trial, k: nat, es: seq<Expr>, stmts: seq<Stmt>, locals: seq<int>, vs: seq<int>, x: nat)
    requires Reached(t, k, es, stmts, locals, vs) && k < |t.code| && t.code[k] == Jvm.Load(x)
    ensures x < |t.infos| && Reached(t, k + 1, es + [LocalExpr(t.infos, x)], stmts, locals, vs + [locals[x]])
  {
    assert Jvm.Fits(t.code[k], |t.infos|);
    Advance(t, k, es, stmts, locals, vs);
  }

  lemma Taken<T>(s: seq<T>, x: T, n: nat)
    requires n == |s|
    ensures (s + [x])[..n] == s && (s + [x])[n] == x
  {
  }

  lemma Stores(t: Trial, k: nat, es: seq<Expr>, stmts: seq<Stmt>, locals: seq<int>, vs: seq<int>, x: nat, e: Expr,
               v: int)
    requires |es| == |vs| && Reached(t, k, es + [e], stmts, locals, vs + [v]) && k < |t.code|
    requires t.code[k] == Jvm.Store(x)
    ensures x < |t.infos| && Reached(t, k + 1, es, stmts + [StoreLocal(t.infos, x, e)], locals[x := v], vs)
  {
    assert Jvm.Fits(t.code[k], |t.infos|);
    Taken(es, e, |es|);
    Taken(vs, v, |vs|);
    Advance(t, k, es + [e], stmts, locals, vs + [v]);
  }

  lemma Divides(t: Trial, k: nat, es: seq<Expr>, stmts: seq<Stmt>, locals: seq<int>, vs: seq<int>, a: Expr, b: Expr,
                v: int, w: int)
    requires |es| == |vs| && Reached(t, k, es + [a] + [b], stmts, locals, vs + [v] + [w]) && k < |t.code|
    requires t.code[k] == Jvm.Binary(Div) && w == 0
    ensures EmulateAll(t.code[..k + 1], t.infos, Emu(t.entry, [], None))
      == Ok(Emu(es + [Bin(Div, a, b, Int)], stmts, None))
    ensures Jvm.Steps(t.code[..k + 1], Jvm.Running(t.locals, t.stack, None)) == Jvm.Faulted
  {
    Advance(t, k, es + [a] + [b], stmts, locals, vs + [v] + [w]);
    assert (es + [a] + [b])[..|es|] == es;
  }

  /** The block ends with returning the top of both stacks. */
  lemma ReturnsTop(t: Trial, k: nat, es: seq<Expr>, stmts: seq<Stmt>, locals: seq<int>, vs: seq<int>, e: Expr, v: int)
    requires |es| == |vs| && Reached(t, k, es + [e], stmts, locals, vs + [v]) && |t.code| == k + 1
    requires t.code[k] == Jvm.Return(true)
    ensures EmulateAll(t.code, t.infos, Emu(t.entry, [], None)) == Ok(Emu(es, stmts + [Stmt.Return(Some(e))], None))
    ensures Jvm.Steps(t.code, Jvm.Running(t.locals, t.stack, None)) == Jvm.Finished(Some(v))
  {
    Taken(es, e, |es|);
    Taken(vs, v, |vs|);
    Advance(t, k, es + [e], stmts, locals, vs + [v]);
    assert t.code[..k + 1] == t.code;
  }

  /** The block ends with a test of the top of both stacks against zero. */
  lemma TestsTop(t: Trial, k: nat, es: seq<Expr>, stmts: seq<Stmt>, locals: seq<int>, vs: seq<int>, c: Cond, e: Expr,
                 v: int)
    requires |es| == |vs| && Reached(t, k, es + [e], stmts, locals, vs + [v]) && |t.code| == k + 1
    requires t.code[k] == Jvm.If(c)
    ensures EmulateAll(t.code, t.infos, Emu(t.entry, [], None)) == Ok(Emu(es, stmts, Some(Cmp(c, e, Const(0, Int)))))
    ensures Jvm.Steps(t.code, Jvm.Running(t.locals, t.stack, None)) == Jvm.Running(locals, vs, Some(Holds(c, v, 0)))
  {
    Taken(es, e, |es|);
    Taken(vs, v, |vs|);
    Advance(t, k, es + [e], stmts, locals, vs + [v]);
    assert t.code[..k + 1] == t.code;
  }

  lemma Swaps(t: Trial, k: nat, es: seq<Expr>, stmts: seq<Stmt>, locals: seq<int>, vs: seq<int>, a: Expr, b: Expr,
              v: int, w: int)
    requires |es| == |vs| && Reached(t, k, es + [a] + [b], stmts, locals, vs + [v] + [w]) && k < |t.code|
    requires t.code[k] == Jvm.Swap
    ensures Reached(t, k + 1, es + [b] + [a], stmts, locals, vs + [w] + [v])
  {
    Advance(t, k, es + [a] + [b], stmts, locals, vs + [v] + [w]);
    assert (es + [a] + [b])[..|es|] == es && (vs + [v] + [w])[..|vs|] == vs;
  }

  lemma Goes(t: Trial, k: nat, es: seq<Expr>, stmts: seq<Stmt>, locals: seq<int>, vs: seq<int>)
    requires Reached(t, k, es, stmts, locals, vs) && k < |t.code| && t.code[k] == Jvm.Goto
    ensures Reached(t, k + 1, es, stmts, locals, vs)
  {
    Advance(t, k, es, stmts, locals, vs);
  }

  /** The block has ended without a test or a return. */
  lemma Finishes(t: Trial, k: nat, es: seq<Expr>, stmts: seq<Stmt>, locals: seq<int>, vs: seq<int>)
    requires Reached(t, k, es, stmts, locals, vs) && |t.code| == k
    ensures EmulateAll(t.code, t.infos, Emu(t.entry, [], None)) == Ok(Emu(es, stmts, None))
    ensures Jvm.Steps(t.code, Jvm.Running(t.locals, t.stack, None)) == Jvm.Running(locals, vs, None)
  {
    assert t.code[..k] == t.code;
  }

  lemma OneAndReturn(s: Stmt, e: Expr, start: Env)
    ensures Exec([] + [s] + [Stmt.Return(Some(e))], start) ==
      match ExecOne(s, start)
      case Normal(env) => ExecOne(Stmt.Return(Some(e)), env)
      case other => other
  {
    ExecAppend([], s, start);
    ExecAppend([] + [s], Stmt.Return(Some(e)), start);
  }

  // ----- a wide parameter ----------------------------------------------------------------------------

  /** The slots of `static int f(long a)`: the parameter and the slot behind it. */
  function LongParameter(): seq<LocalInfo> {
    [LocalInfo(0, "a", Long, false, true, false), LocalInfo(1, "b", Int, false, false, true)]
  }

  /** `bipush 7; istore_0; bipush 5; bipush 6; iload_0; pop2; ireturn`, which reuses the slot of the
      parameter for an int. */
  function Reusing(): seq<Jvm.Sem> {
    [Jvm.Push(7), Jvm.Store(0), Jvm.Push(5), Jvm.Push(6), Jvm.Load(0), Jvm.Pop2, Jvm.Return(true)]
  }

  lemma TakesOne(code: seq<Jvm.Sem>, infos: seq<LocalInfo>, e0: Emu, k: nat, es: seq<Expr>, stmts: seq<Stmt>, a: Expr,
                 e: Expr)
    requires AllFit(code, |infos|) && |code| == k + 2 && code[k] == Jvm.Pop2 && code[k + 1] == Jvm.Return(true)
    requires EmulateAll(code[..k], infos, e0) == Ok(Emu(es + [a] + [e], stmts, None)) && IsWide(e) && !HasSideEffects(e)
    ensures EmulateAll(code, infos, e0) == Ok(Emu(es, stmts + [Stmt.Return(Some(a))], None))
  {
    EmulateUpTo(code, infos, e0, k);
    WidePopped(infos, Emu(es + [a] + [e], stmts, None), |es| + 2);
    Taken(es + [a], e, |es| + 1);
    assert stmts + Dropped(e) == stmts;
    EmulateUpTo(code, infos, e0, k + 1);
    Taken(es, a, |es|);
    EmulateReturn(infos, Emu(es + [a], stmts, None));
    assert code[..k + 2] == code;
  }

  lemma TakesTwo(code: seq<Jvm.Sem>, m: Jvm.Machine, k: nat, locals: seq<int>, u: int, vs: seq<int>)
    requires |code| == k + 2 && code[k] == Jvm.Pop2 && code[k + 1] == Jvm.Return(true) && |vs| == 3 && vs[0] == u
    requires Jvm.Steps(code[..k], m) == Jvm.Running(locals, vs, None)
    ensures Jvm.Steps(code, m) == Jvm.Finished(Some(u))
  {
    StepsUpTo(code, m, k);
    StepsUpTo(code, m, k + 1);
    assert code[..k + 2] == code;
  }

  lemma Misread(t: Trial, k: nat)
    requires Fit(t) && t.entry == [] && |t.code| == k + 7 && |t.infos| == 2 && k == 0
    requires t.infos[0].isParam && !t.infos[0].isThis && t.infos[0].ty.Long?
    requires t.code[k] == Jvm.Push(7) && t.code[k + 1] == Jvm.Store(0) && t.code[k + 2] == Jvm.Push(5)
    requires t.code[k + 3] == Jvm.Push(6) && t.code[k + 4] == Jvm.Load(0) && t.code[k + 5] == Jvm.Pop2
    requires t.code[k + 6] == Jvm.Return(true)
    ensures Jvm.Steps(t.code, Jvm.Running(t.locals, t.stack, None)) == Jvm.Finished(Some(5))
    ensures EmulateAll(t.code, t.infos, Emu(t.entry, [], None)) == Ok(Emu([] + [Const(5, Int)],
      [] + [StoreLocal(t.infos, 0, Const(7, Int))] + [Stmt.Return(Some(Const(6, Int)))], None))
  {
    var a, seven, five, six := LocalExpr(t.infos, 0), Const(7, Int), Const(5, Int), Const(6, Int);
    var said, l := [] + [StoreLocal(t.infos, 0, seven)], t.locals[0 := 7];
    Begin(t, k);
    Pushes(t, k, [], [], t.locals, [], 7);
    Stores(t, k + 1, [], [], t.locals, [], 0, seven, 7);
    Pushes(t, k + 2, [], said, l, [], 5);
    Pushes(t, k + 3, [] + [five], said, l, [] + [5], 6);
    Loads(t, k + 4, [] + [five] + [six], said, l, [] + [5] + [6], 0);
    TakesOne(t.code, t.infos, Emu(t.entry, [], None), k + 5, [] + [five], said, six, a);
    TakesTwo(t.code, Jvm.Running(t.locals, t.stack, None), k + 5, l, 5, [] + [5] + [6] + [7]);
  }

  lemma ReusingLoads(code: seq<Jvm.Sem>, infos: seq<LocalInfo>)
    requires code == Reusing() && infos == LongParameter()
    ensures AllFit(code, |infos|) && !IntLoads(code, infos)
  {
    assert code[4].Load?;
  }

  lemma SevenThenSix(infos: seq<LocalInfo>, start: Env)
    requires |infos| == 2 && infos[0].isParam && !infos[0].isThis
    ensures Exec([] + [StoreLocal(infos, 0, Const(7, Int))] + [Stmt.Return(Some(Const(6, Int)))], start)
      == Returned(Some(6))
  {
    OneAndReturn(StoreLocal(infos, 0, Const(7, Int)), Const(6, Int), start);
  }

  /** The machine returns 5, the emitted statements return 6. */
  lemma LongParameterMisread(locals: seq<int>, start: Env)
    requires |locals| == |LongParameter()|
    ensures AllFit(Reusing(), |LongParameter()|) && !IntLoads(Reusing(), LongParameter())
    ensures Jvm.Steps(Reusing(), Jvm.Running(locals, [], None)) == Jvm.Finished(Some(5))
    ensures var out := EmulateAll(Reusing(), LongParameter(), Emu([], [], None));
      out.Ok? && Exec(out.value.stmts, start) == Returned(Some(6))
  {
    ReusingLoads(Reusing(), LongParameter());
    Misread(Trial(Reusing(), LongParameter(), locals, [], []), 0);
    SevenThenSix(LongParameter(), start);
  }

  // ----- a store under a pending load ------------------------------------------------------------------

  function IntParameter(): seq<LocalInfo> { [LocalInfo(0, "a", Int, false, true, false)] }

  /** `iload_0; bipush 5; istore_0; ireturn` */
  function StoringUnder(): seq<Jvm.Sem> { [Jvm.Load(0), Jvm.Push(5), Jvm.Store(0), Jvm.Return(true)] }

  lemma Lost(t: Trial, k: nat, start: Env)
    requires Fit(t) && t.entry == [] && |t.code| == k + 4 && |t.infos| == 1 && k == 0
    requires t.infos[0].isParam && !t.infos[0].isThis
    requires t.code[k] == Jvm.Load(0) && t.code[k + 1] == Jvm.Push(5) && t.code[k + 2] == Jvm.Store(0)
    requires t.code[k + 3] == Jvm.Return(true)
    ensures Jvm.Steps(t.code, Jvm.Running(t.locals, t.stack, None)) == Jvm.Finished(Some(t.locals[0]))
    ensures var out := EmulateAll(t.code, t.infos, Emu(t.entry, [], None));
      out.Ok? && Exec(out.value.stmts, start) == Returned(Some(5))
  {
    var a, five, v := LocalExpr(t.infos, 0), Const(5, Int), t.locals[0];
    Begin(t, k);
    Loads(t, k, [], [], t.locals, [], 0);
    Pushes(t, k + 1, [] + [a], [], t.locals, [] + [v], 5);
    Stores(t, k + 2, [] + [a], [], t.locals, [] + [v], 0, five, 5);
    ReturnsTop(t, k + 3, [], [] + [StoreLocal(t.infos, 0, five)], t.locals[0 := 5], [], a, v);
    OneAndReturn(StoreLocal(t.infos, 0, five), a, start);
  }

  /** The machine returns the argument, the emitted statements return 5. */
  lemma ArgumentLost(argument: int, start: Env)
    ensures AllFit(StoringUnder(), |IntParameter()|)
    ensures Jvm.Steps(StoringUnder(), Jvm.Running([argument], [], None)) == Jvm.Finished(Some(argument))
    ensures var out := EmulateAll(StoringUnder(), IntParameter(), Emu([], [], None));
      out.Ok? && Exec(out.value.stmts, start) == Returned(Some(5))
  {
    Lost(Trial(StoringUnder(), IntParameter(), [argument], [], []), 0, start);
  }

  // ----- a forgotten division --------------------------------------------------------------------------

  /** `bipush 1; bipush 0; idiv; pop; return` */
  function DividingByZero(): seq<Jvm.Sem> {
    [Jvm.Push(1), Jvm.Push(0), Jvm.Binary(Div), Jvm.Pop, Jvm.Return(false)]
  }

  lemma PopsAndReturns(t: Trial, k: nat, e: Expr)
    requires Fit(t) && |t.code| == k + 2 && t.code[k] == Jvm.Pop && t.code[k + 1] == Jvm.Return(false)
    requires EmulateAll(t.code[..k], t.infos, Emu(t.entry, [], None)) == Ok(Emu([] + [e], [], None))
    requires !HasSideEffects(e)
    requires Jvm.Steps(t.code[..k], Jvm.Running(t.locals, t.stack, None)) == Jvm.Faulted
    ensures EmulateAll(t.code, t.infos, Emu(t.entry, [], None)) == Ok(Emu([], [] + [Stmt.Return(None)], None))
    ensures Jvm.Steps(t.code, Jvm.Running(t.locals, t.stack, None)) == Jvm.Faulted
  {
    EmulateUpTo(t.code, t.infos, Emu(t.entry, [], None), k);
    EmulateUpTo(t.code, t.infos, Emu(t.entry, [], None), k + 1);
    StepsUpTo(t.code, Jvm.Running(t.locals, t.stack, None), k);
    StepsUpTo(t.code, Jvm.Running(t.locals, t.stack, None), k + 1);
    assert [] + Dropped(e) == [];
    assert t.code[..k + 2] == t.code;
  }

  lemma Forgotten(t: Trial, k: nat)
    requires Fit(t) && t.entry == [] && |t.code| == k + 5 && k == 0
    requires t.code[k] == Jvm.Push(1) && t.code[k + 1] == Jvm.Push(0)
    requires t.code[k + 2] == Jvm.Binary(Div) && t.code[k + 3] == Jvm.Pop && t.code[k + 4] == Jvm.Return(false)
    ensures Jvm.Steps(t.code, Jvm.Running(t.locals, t.stack, None)) == Jvm.Faulted
    ensures EmulateAll(t.code, t.infos, Emu(t.entry, [], None)) == Ok(Emu([], [] + [Stmt.Return(None)], None))
  {
    var one, zero := Const(1, Int), Const(0, Int);
    Begin(t, k);
    Pushes(t, k, [], [], t.locals, [], 1);
    Pushes(t, k + 1, [] + [one], [], t.locals, [] + [1], 0);
    Divides(t, k + 2, [], [], t.locals, [], one, zero, 1, 0);
    PopsAndReturns(t, k + 3, Bin(Div, one, zero, Int));
  }

  lemma ReturnsNothing(start: Env)
    ensures Exec([] + [Stmt.Return(None)], start) == Returned(None)
  {
    ExecAppend([], Stmt.Return(None), start);
  }

  /** The machine throws, the emitted statements return. */
  lemma DivisionLost(argument: int, start: Env)
    ensures AllFit(DividingByZero(), |IntParameter()|)
    ensures Jvm.Steps(DividingByZero(), Jvm.Running([argument], [], None)) == Jvm.Faulted
    ensures var out := EmulateAll(DividingByZero(), IntParameter(), Emu([], [], None));
      out.Ok? && Exec(out.value.stmts, start) == Returned(None)
  {
    Forgotten(Trial(DividingByZero(), IntParameter(), [argument], [], []), 0);
    ReturnsNothing(start);
  }
}
