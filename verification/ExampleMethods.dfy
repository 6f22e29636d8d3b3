/** Two small methods, from the bytecode of their blocks to what comes out wrong. */
module ExampleMethods {
  import opened Results
  import opened JavaInts
  import opened Ir
  import opened Emulation
  import opened BlockMeaning
  import opened Examples
  import opened Graph
  import opened MethodEmulation
  import opened RunMeaning
  import EmissionOrder
  import FallThrough
  import Labels
  import LinearCode
  import Jvm

  // ----- what the emulator makes of a block -----------------------------------------------------------

  lemma EntryReachable(m: Emission)
    requires Certified(m)
    ensures m.reachable[0]
  {
    ReachesSelf(m.body.g, 0);
    assert 0 in [0];
  }

  /** A block the verifier enters with an empty stack is emulated from one. */
  lemma EntersEmpty(m: Emission, b: nat)
    requires Certified(m) && b < m.body.g.Size() && m.depth[b] == 0
    ensures EntryStack(m, b) == []
  {
    var done :| JoinsOk(m.body.g, m.depth, |m.base|, m.infos, m.joins, done);
    assert DirectAt(m.body.g, m.depth, m.joins.direct, done, b) && IncomingAt(m.body.g, m.depth, m.joins.incoming, b);
  }

  /** The result of a block that leaves nothing on the stack. */
  lemma LeavesNothing(m: Emission, b: nat, out: Emu)
    requires Certified(m) && b < m.body.g.Size() && m.reachable[b] && m.depth[b] == 0 && out.stack == []
    requires EmulateAll(m.body.code[b], m.base, Emu([], [], None)) == Ok(out)
    ensures m.results[b] == BlockResult(out.stmts, out.cond, m.body.g.succs[b], [])
    ensures forall s :: s in m.body.g.succs[b] ==> s < m.body.g.Size() && m.reachable[s] && m.depth[s] == 0
  {
    EntersEmpty(m, b);
    EdgeDepths(m, b);
    assert out.stmts + [] == out.stmts;
    forall s | s in m.body.g.succs[b]
      ensures s < m.body.g.Size() && m.reachable[s] && m.depth[s] == 0
    {
      Successor(m, b, s);
      var i :| 0 <= i < |m.body.g.succs[b]| && m.body.g.succs[b][i] == s;
      assert m.depth[m.body.g.succs[b][i]] == |m.results[b].leftover|;
    }
  }

  // ----- a false edge that gets lost ------------------------------------------------------------------

  /** `iload_0; ifne 2` and `iload_0; ireturn` and `bipush 1; istore_0; goto 1` */
  function OutOfLine(): Body {
    Body(FallThrough.SampleGraph(),
      [[Jvm.Load(0), Jvm.If(Ne)], [Jvm.Load(0), Jvm.Return(true)], [Jvm.Push(1), Jvm.Store(0), Jvm.Goto]])
  }

  predicate OneInt(infos: seq<LocalInfo>) { |infos| == 1 && infos[0] == LocalInfo(0, "a", Int, false, true, false) }

  lemma TestBlock(t: Trial, k: nat, v: int)
    requires Fit(t) && OneInt(t.infos) && t.entry == [] && t.locals == [v] && k == 0
    requires |t.code| == k + 2 && t.code[k] == Jvm.Load(0) && t.code[k + 1] == Jvm.If(Ne)
    ensures EmulateAll(t.code, t.infos, Emu(t.entry, [], None))
      == Ok(Emu([], [], Some(Cmp(Ne, FallThrough.A, Const(0, Int)))))
    ensures Jvm.Steps(t.code, Jvm.Running(t.locals, t.stack, None)) == Jvm.Running([v], [], Some(v != 0))
  {
    Begin(t, k);
    Loads(t, k, [], [], t.locals, [], 0);
    TestsTop(t, k + 1, [], [], t.locals, [], Ne, FallThrough.A, v);
  }

  lemma ReturnBlock(t: Trial, k: nat, v: int)
    requires Fit(t) && OneInt(t.infos) && t.entry == [] && t.locals == [v] && k == 0
    requires |t.code| == k + 2 && t.code[k] == Jvm.Load(0) && t.code[k + 1] == Jvm.Return(true)
    ensures EmulateAll(t.code, t.infos, Emu(t.entry, [], None))
      == Ok(Emu([], [] + [Return(Some(FallThrough.A))], None))
    ensures Jvm.Steps(t.code, Jvm.Running(t.locals, t.stack, None)) == Jvm.Finished(Some(v))
  {
    Begin(t, k);
    Loads(t, k, [], [], t.locals, [], 0);
    ReturnsTop(t, k + 1, [], [], t.locals, [], FallThrough.A, v);
  }

  lemma AssignBlock(t: Trial, k: nat)
    requires Fit(t) && OneInt(t.infos) && t.entry == [] && k == 0
    requires |t.code| == k + 3 && t.code[k] == Jvm.Push(1) && t.code[k + 1] == Jvm.Store(0) && t.code[k + 2] == Jvm.Goto
    ensures EmulateAll(t.code, t.infos, Emu(t.entry, [], None))
      == Ok(Emu([], [] + [Assign(FallThrough.A, Const(1, Int))], None))
  {
    var said := [] + [StoreLocal(t.infos, 0, Const(1, Int))];
    Begin(t, k);
    Pushes(t, k, [], [], t.locals, [], 1);
    Stores(t, k + 1, [], [], t.locals, [], 0, Const(1, Int), 1);
    Goes(t, k + 2, [], said, t.locals[0 := 1], []);
    Finishes(t, k + 3, [], said, t.locals[0 := 1], []);
  }

  ghost predicate OutOfLineRun(m: Emission, code: seq<seq<Jvm.Sem>>, succs: seq<seq<nat>>) {
    && Certified(m) && OneInt(m.base) && m.body.code == code && m.body.g.succs == succs && |code| == |succs| == 3
    && |code[0]| == 2 && code[0][0] == Jvm.Load(0) && code[0][1] == Jvm.If(Ne)
    && |code[1]| == 2 && code[1][0] == Jvm.Load(0) && code[1][1] == Jvm.Return(true)
    && |code[2]| == 3 && code[2][0] == Jvm.Push(1) && code[2][1] == Jvm.Store(0) && code[2][2] == Jvm.Goto
    && |succs[0]| == 2 && succs[0][0] == 2 && succs[0][1] == 1
  }

  lemma FirstEmitted(m: Emission, code: seq<seq<Jvm.Sem>>, succs: seq<seq<nat>>)
    requires OutOfLineRun(m, code, succs)
    ensures m.results[0] == BlockResult([], Some(Cmp(Ne, FallThrough.A, Const(0, Int))), succs[0], [])
    ensures m.reachable[0] && m.reachable[1] && m.reachable[2] && m.depth[1] == 0 && m.depth[2] == 0
  {
    EntryReachable(m);
    TestBlock(Trial(code[0], m.base, [0], [], []), 0, 0);
    LeavesNothing(m, 0, Emu([], [], Some(Cmp(Ne, FallThrough.A, Const(0, Int)))));
    assert succs[0][0] in m.body.g.succs[0] && succs[0][1] in m.body.g.succs[0];
  }

  lemma OthersEmitted(m: Emission, code: seq<seq<Jvm.Sem>>, succs: seq<seq<nat>>)
    requires OutOfLineRun(m, code, succs)
    ensures m.results[1] == BlockResult([Return(Some(FallThrough.A))], None, succs[1], [])
    ensures m.results[2] == BlockResult([Assign(FallThrough.A, Const(1, Int))], None, succs[2], [])
  {
    FirstEmitted(m, code, succs);
    ReturnBlock(Trial(code[1], m.base, [0], [], []), 0, 0);
    LeavesNothing(m, 1, Emu([], [] + [Return(Some(FallThrough.A))], None));
    AssignBlock(Trial(code[2], m.base, [0], [], []), 0);
    LeavesNothing(m, 2, Emu([], [] + [Assign(FallThrough.A, Const(1, Int))], None));
    assert [] + [Return(Some(FallThrough.A))] == [Return(Some(FallThrough.A))];
    assert [] + [Assign(FallThrough.A, Const(1, Int))] == [Assign(FallThrough.A, Const(1, Int))];
  }

  /** What the emulator emits for it is the sample of `FallThrough`. */
  lemma OutOfLineEmitted(m: Emission)
    requires Certified(m) && m.body == OutOfLine() && OneInt(m.base)
    ensures m.results == FallThrough.Sample()
  {
    FirstEmitted(m, m.body.code, m.body.g.succs);
    OthersEmitted(m, m.body.code, m.body.g.succs);
  }

  lemma OutOfLineRuns(m: Emission, code: seq<seq<Jvm.Sem>>, succs: seq<seq<nat>>, start: seq<int>, k: nat)
    requires OutOfLineRun(m, code, succs) && start == [0] && k == 2
    ensures MachineRun(m.body, start, k) == Ended(Some(0))
  {
    TestBlock(Trial(code[0], m.base, start, [], []), 0, 0);
    ReturnBlock(Trial(code[1], m.base, start, [], []), 0, 0);
    assert MachineRun(m.body, start, k - 2) == At(0, start, []);
    assert MachineRun(m.body, start, k - 1) == At(1, start, []);
  }

  /** For the argument 0 the method returns 0 and its text returns 1. */
  lemma FalseEdgeLost(m: Emission, env: Env)
    requires Certified(m) && m.body == OutOfLine() && OneInt(m.base) && Get(env, "a") == 0
    ensures MachineRun(m.body, [0], 2) == Ended(Some(0))
    ensures var order := EmissionOrder.EmissionOrder(m.body.g, [], m.reachable);
      LinearCode.Ordered(order, m.results)
      && Labels.Yields(LinearCode.Printed(order, m.results), env, Labels.Gave(Some(1)))
  {
    OutOfLineEmitted(m);
    OutOfLineRuns(m, m.body.code, m.body.g.succs, [0], 2);
    FallThrough.PrintedWrong(env, m.reachable);
  }

  // ----- a spill that overwrites what is still needed ---------------------------------------------------

  /** `bipush 1; bipush 2` and `swap; iload_0; ifne 1` and `ireturn`: the second block is a join, for
      it may be repeated. */
  function Swapping(): Body {
    Body(Graph([[1], [1, 2], []], [[], [0, 1], [1]]),
      [[Jvm.Push(1), Jvm.Push(2)], [Jvm.Swap, Jvm.Load(0), Jvm.If(Ne)], [Jvm.Return(true)]])
  }

  ghost predicate SwappingRun(m: Emission, code: seq<seq<Jvm.Sem>>, g: Graph) {
    && Certified(m) && OneInt(m.base) && m.body.code == code && m.body.g == g
    && |code| == |g.succs| == |g.preds| == 3
    && |code[0]| == 2 && code[0][0] == Jvm.Push(1) && code[0][1] == Jvm.Push(2)
    && |code[1]| == 3 && code[1][0] == Jvm.Swap && code[1][1] == Jvm.Load(0) && code[1][2] == Jvm.If(Ne)
    && |code[2]| == 1 && code[2][0] == Jvm.Return(true)
    && |g.succs[0]| == 1 && g.succs[0][0] == 1
    && |g.succs[1]| == 2 && g.succs[1][0] == 1 && g.succs[1][1] == 2
    && g.succs[2] == [] && |g.preds[1]| == 2 && g.preds[2] == [1]
  }

  lemma PushBlock(t: Trial, k: nat)
    requires Fit(t) && t.entry == [] && |t.code| == k + 2 && k == 0
    requires t.code[k] == Jvm.Push(1) && t.code[k + 1] == Jvm.Push(2)
    ensures EmulateAll(t.code, t.infos, Emu(t.entry, [], None))
      == Ok(Emu([] + [Const(1, Int)] + [Const(2, Int)], [], None))
    ensures Jvm.Steps(t.code, Jvm.Running(t.locals, t.stack, None)) == Jvm.Running(t.locals, [] + [1] + [2], None)
  {
    Begin(t, k);
    Pushes(t, k, [], [], t.locals, [], 1);
    Pushes(t, k + 1, [] + [Const(1, Int)], [], t.locals, [] + [1], 2);
    Finishes(t, k + 2, [] + [Const(1, Int)] + [Const(2, Int)], [], t.locals, [] + [1] + [2]);
  }

  lemma SwapBlock(t: Trial, k: nat, x: Expr, y: Expr, v: int, w: int, u: int)
    requires Fit(t) && OneInt(t.infos) && t.entry == [] + [x] + [y] && t.stack == [] + [v] + [w] && t.locals == [u]
    requires |t.code| == k + 3 && k == 0
    requires t.code[k] == Jvm.Swap && t.code[k + 1] == Jvm.Load(0) && t.code[k + 2] == Jvm.If(Ne)
    ensures EmulateAll(t.code, t.infos, Emu(t.entry, [], None))
      == Ok(Emu([] + [y] + [x], [], Some(Cmp(Ne, FallThrough.A, Const(0, Int)))))
    ensures Jvm.Steps(t.code, Jvm.Running(t.locals, t.stack, None))
      == Jvm.Running(t.locals, [] + [w] + [v], Some(u != 0))
  {
    Begin(t, k);
    Swaps(t, k, [], [], t.locals, [], x, y, v, w);
    Loads(t, k + 1, [] + [y] + [x], [], t.locals, [] + [w] + [v], 0);
    TestsTop(t, k + 2, [] + [y] + [x], [], t.locals, [] + [w] + [v], Ne, FallThrough.A, u);
  }

  lemma TopBlock(t: Trial, k: nat, x: Expr, y: Expr, v: int, w: int)
    requires Fit(t) && t.entry == [] + [y] + [x] && t.stack == [] + [w] + [v]
    requires |t.code| == k + 1 && k == 0 && t.code[k] == Jvm.Return(true)
    ensures EmulateAll(t.code, t.infos, Emu(t.entry, [], None)) == Ok(Emu([] + [y], [] + [Return(Some(x))], None))
    ensures Jvm.Steps(t.code, Jvm.Running(t.locals, t.stack, None)) == Jvm.Finished(Some(v))
  {
    Begin(t, k);
    ReturnsTop(t, k, [] + [y], [], t.locals, [] + [w], x, v);
  }

  /** The machine pushes 1 and 2, swaps them and returns the 1. */
  lemma SwappingRuns(m: Emission, code: seq<seq<Jvm.Sem>>, g: Graph, start: seq<int>, k: nat)
    requires SwappingRun(m, code, g) && start == [0] && k == 3
    ensures MachineRun(m.body, start, k) == Ended(Some(1))
  {
    var x, y := Const(1, Int), Const(2, Int);
    PushBlock(Trial(code[0], m.base, start, [], []), 0);
    SwapBlock(Trial(code[1], m.base, start, [] + [x] + [y], [] + [1] + [2]), 0, x, y, 1, 2, 0);
    TopBlock(Trial(code[2], m.base, start, [] + [y] + [x], [] + [2] + [1]), 0, x, y, 1, 2);
    assert MachineRun(m.body, start, k - 3) == At(0, start, []);
    assert MachineRun(m.body, start, k - 2) == At(1, start, [] + [1] + [2]);
    assert MachineRun(m.body, start, k - 1) == At(2, start, [] + [2] + [1]);
  }

  /** The temporaries of the join. */
  ghost predicate JoinTemps(m: Emission, temps: seq<nat>) {
    && |m.joins.incoming| == |m.joins.direct| == 3 && m.joins.incoming[1] == Some(temps) && |temps| == 2
    && InRange(temps, |m.base|, |m.infos|) && temps[0] != temps[1] && m.joins.direct[1].None?
    && AllInRange(m.joins.incoming, 0, |m.infos|)
  }

  lemma FirstSpilled(m: Emission, code: seq<seq<Jvm.Sem>>, g: Graph) returns (temps: seq<nat>)
    requires SwappingRun(m, code, g)
    ensures JoinTemps(m, temps) && m.reachable[1]
    ensures m.results[0].cond.None? && m.results[0].targets == g.succs[0]
    ensures m.results[0].stmts == Assigns(m.infos, temps, [] + [Const(1, Int)] + [Const(2, Int)], 2)
  {
    EntryReachable(m);
    EntersEmpty(m, 0);
    EdgeDepths(m, 0);
    PushBlock(Trial(code[0], m.base, [0], [], []), 0);
    var leftover := [] + [Const(1, Int)] + [Const(2, Int)];
    assert m.results[0].leftover == leftover;
    assert g.succs[0][0] in m.body.g.succs[0];
    Successor(m, 0, 1);
    assert Served(m.body.g, m.joins, 0, leftover, m.body.g.succs[0][0]);
    temps := m.joins.incoming[1].value;
    TempsOfJoin(m, temps);
    OneSpill(m, 0, leftover, temps);
    assert [] + Assigns(m.infos, temps, leftover, 2) == Assigns(m.infos, temps, leftover, 2);
  }

  lemma TempsOfJoin(m: Emission, temps: seq<nat>)
    requires Certified(m) && m.body.g.Size() == 3 && |m.body.g.preds| == 3 && |m.body.g.preds[1]| == 2
    requires |m.joins.incoming| == 3 && m.joins.incoming[1] == Some(temps) && |temps| == 2
    ensures JoinTemps(m, temps)
  {
    var done :| JoinsOk(m.body.g, m.depth, |m.base|, m.infos, m.joins, done);
    assert DirectAt(m.body.g, m.depth, m.joins.direct, done, 1);
    TempsApart(m.joins.incoming, 1);
  }

  /** The spills of a block of which only the first edge leads to a join. */
  lemma OneSpill(m: Emission, b: nat, leftover: seq<Expr>, temps: seq<nat>)
    requires JoinTemps(m, temps) && b < m.body.g.Size() && |leftover| == 2 && !Handed(m.body.g, b, 1)
    requires m.body.g.succs[b] != [] && m.body.g.succs[b][0] == 1
    requires |m.body.g.succs[b]| == 1 || (|m.body.g.succs[b]| == 2 && Handed(m.body.g, b, m.body.g.succs[b][1]))
    ensures InRange(temps, 0, |m.infos|)
    ensures Spills(m.body.g, m.infos, m.joins.incoming, b, leftover, m.body.g.succs[b], |m.body.g.succs[b]|)
      == Assigns(m.infos, temps, leftover, 2)
  {
    var g, succs, k := m.body.g, m.body.g.succs[b], |m.body.g.succs[b]|;
    var first: nat := 1;
    assert Spills(g, m.infos, m.joins.incoming, b, leftover, succs, first - 1) == [];
    var copies := Assigns(m.infos, temps, leftover, 2);
    assert [] + copies == copies && copies + [] == copies;
    assert Spills(g, m.infos, m.joins.incoming, b, leftover, succs, first) == copies;
    if k == 2 {
      assert Spills(g, m.infos, m.joins.incoming, b, leftover, succs, k) == copies + [];
    }
  }

  lemma SecondSpilled(m: Emission, code: seq<seq<Jvm.Sem>>, g: Graph, temps: seq<nat>, x: Expr, y: Expr)
    requires SwappingRun(m, code, g) && JoinTemps(m, temps) && m.reachable[1]
    requires x == LocalExpr(m.infos, temps[0]) && y == LocalExpr(m.infos, temps[1])
    ensures m.results[1].cond == Some(Cmp(Ne, FallThrough.A, Const(0, Int))) && m.results[1].targets == g.succs[1]
    ensures m.results[1].leftover == [] + [y] + [x]
    ensures m.results[1].stmts == Assigns(m.infos, temps, [] + [y] + [x], 2)
  {
    assert EntryStack(m, 1) == [] + [x] + [y];
    SwapBlock(Trial(code[1], m.base, [0], [] + [x] + [y], [] + [1] + [2]), 0, x, y, 1, 2, 0);
    EdgeDepths(m, 1);
    OneSpill(m, 1, [] + [y] + [x], temps);
    assert [] + Assigns(m.infos, temps, [] + [y] + [x], 2) == Assigns(m.infos, temps, [] + [y] + [x], 2);
  }

  lemma ThirdReturns(m: Emission, code: seq<seq<Jvm.Sem>>, g: Graph, x: Expr, y: Expr)
    requires SwappingRun(m, code, g) && m.reachable[1] && m.results[1].leftover == [] + [y] + [x]
    ensures m.reachable[2] && m.results[2].stmts == [] + [Return(Some(x))]
  {
    EdgeDepths(m, 1);
    assert g.succs[1][1] in m.body.g.succs[1];
    Successor(m, 1, 2);
    assert Served(m.body.g, m.joins, 1, m.results[1].leftover, m.body.g.succs[1][1]);
    assert EntryStack(m, 2) == [] + [y] + [x];
    TopBlock(Trial(code[2], m.base, [0], [] + [y] + [x], [] + [2] + [1]), 0, x, y, 1, 2);
    EdgeDepths(m, 2);
    assert Spills(m.body.g, m.infos, m.joins.incoming, 2, [] + [y], m.body.g.succs[2], 0) == [];
    assert [] + [Return(Some(x))] + [] == [] + [Return(Some(x))];
  }

  /** The first block fills the temporaries. */
  lemma FirstRuns(infos: seq<LocalInfo>, temps: seq<nat>, leftover: seq<Expr>, env: Env, n: nat) returns (env': Env)
    requires Unique(infos) && InRange(temps, 1, |infos|) && InRange(temps, 0, |infos|) && n == |temps| == 2
    requires temps[0] != temps[1] && leftover == [] + [Const(1, Int)] + [Const(2, Int)]
    ensures Exec(Assigns(infos, temps, leftover, n), env) == Normal(env')
    ensures Get(env', infos[temps[0]].name) == 1 && Get(env', infos[temps[1]].name) == 2
    ensures Get(env', infos[0].name) == Get(env, infos[0].name)
  {
    env' := AssignsCopy(infos, temps, leftover, [1, 2], env, n);
    SlotKept(infos, temps, leftover, env, env', 0);
  }

  /** The second overwrites the one with the other. */
  lemma SecondRuns(infos: seq<LocalInfo>, temps: seq<nat>, x: Expr, y: Expr, env: Env, n: nat) returns (env': Env)
    requires Unique(infos) && InRange(temps, 1, |infos|) && InRange(temps, 0, |infos|) && n == |temps| == 2
    requires temps[0] != temps[1] && x == LocalExpr(infos, temps[0]) && y == LocalExpr(infos, temps[1])
    ensures Exec(Assigns(infos, temps, [] + [y] + [x], n), env) == Normal(env')
    ensures Eval(x, env') == Eval(y, env)
    ensures Get(env', infos[0].name) == Get(env, infos[0].name)
  {
    env' := TwoAssigns(infos, temps, [] + [y] + [x], n, env);
    assert infos[0].name != infos[temps[0]].name && infos[0].name != infos[temps[1]].name;
    assert infos[temps[0]].name != infos[temps[1]].name;
  }

  lemma EmittedOnce(results: seq<BlockResult>, start: Env, k: nat, b: nat, env: Env, env': Env, next: nat)
    requires EmittedRun(results, start, k) == In(b, env) && b < |results|
    requires Exec(results[b].stmts, env) == Normal(env')
    requires Choice(results[b].cond, env').Some? && NextBlock(results[b].targets, Choice(results[b].cond, env').value)
      == Some(next)
    ensures EmittedRun(results, start, k + 1) == In(next, env')
  {
  }

  lemma ReturnsLast(results: seq<BlockResult>, start: Env, k: nat, b: nat, env: Env, e: Expr, v: int)
    requires EmittedRun(results, start, k) == In(b, env) && b < |results|
    requires results[b].stmts == [] + [Return(Some(e))] && Eval(e, env) == Some(v)
    ensures EmittedRun(results, start, k + 1) == Gave(Some(v))
  {
    ExecAppend([], Return(Some(e)), env);
  }

  lemma NotTaken(env: Env)
    requires Get(env, "a") == 0
    ensures Choice(Some(Cmp(Ne, FallThrough.A, Const(0, Int))), env) == Some(Some(false))
  {
    assert Eval(FallThrough.A, env) == Some(0) && Eval(Const(0, Int), env) == Some(0);
    assert Eval(Cmp(Ne, FallThrough.A, Const(0, Int)), env) == Some(0);
  }

  /** The three results. */
  ghost predicate SwapResults(results: seq<BlockResult>, infos: seq<LocalInfo>, temps: seq<nat>) {
    && |results| == 3 && Unique(infos) && InRange(temps, 1, |infos|) && InRange(temps, 0, |infos|)
    && infos != [] && infos[0].name == "a" && |temps| == 2 && temps[0] != temps[1]
    && var (x, y) := (LocalExpr(infos, temps[0]), LocalExpr(infos, temps[1]));
    && results[0].stmts == Assigns(infos, temps, [] + [Const(1, Int)] + [Const(2, Int)], 2)
    && results[0].cond.None? && results[0].targets == [1]
    && results[1].stmts == Assigns(infos, temps, [] + [y] + [x], 2)
    && results[1].cond == Some(Cmp(Ne, FallThrough.A, Const(0, Int))) && results[1].targets == [1, 2]
    && results[2].stmts == [] + [Return(Some(x))]
  }

  lemma SwappingEmitted(m: Emission, code: seq<seq<Jvm.Sem>>, g: Graph) returns (temps: seq<nat>)
    requires SwappingRun(m, code, g)
    ensures SwapResults(m.results, m.infos, temps)
  {
    temps := FirstSpilled(m, code, g);
    var x, y := LocalExpr(m.infos, temps[0]), LocalExpr(m.infos, temps[1]);
    SecondSpilled(m, code, g, temps, x, y);
    ThirdReturns(m, code, g, x, y);
    assert m.infos[0] == m.base[0];
    assert g.succs[0] == [1] && g.succs[1] == [1, 2];
  }

  lemma SwapResultsRun(results: seq<BlockResult>, infos: seq<LocalInfo>, temps: seq<nat>, env: Env, k: nat)
    requires SwapResults(results, infos, temps) && Get(env, "a") == 0 && k == 3
    ensures EmittedRun(results, env, k) == Gave(Some(2))
  {
    var x, y := LocalExpr(infos, temps[0]), LocalExpr(infos, temps[1]);
    var env1 := FirstRuns(infos, temps, [] + [Const(1, Int)] + [Const(2, Int)], env, 2);
    assert EmittedRun(results, env, k - 3) == In(0, env);
    EmittedOnce(results, env, k - 3, 0, env, env1, 1);
    var env2 := SecondRuns(infos, temps, x, y, env1, 2);
    NotTaken(env2);
    EmittedOnce(results, env, k - 2, 1, env1, env2, 2);
    ReturnsLast(results, env, k - 1, 2, env2, x, 2);
  }

  /** For the argument 0 the method returns 1 and the emitted blocks return 2: the edge back to the join
      is spilled before the other successor reads the temporaries. */
  lemma SwapLost(m: Emission, env: Env)
    requires Certified(m) && m.body == Swapping() && OneInt(m.base) && Get(env, "a") == 0
    ensures MachineRun(m.body, [0], 3) == Ended(Some(1))
    ensures EmittedRun(m.results, env, 3) == Gave(Some(2))
  {
    SwappingRuns(m, m.body.code, m.body.g, [0], 3);
    var temps := SwappingEmitted(m, m.body.code, m.body.g);
    SwapResultsRun(m.results, m.infos, temps, env, 3);
  }
}
