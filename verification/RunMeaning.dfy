/** The emulated method does what the method does: along every path of the control flow
    graph, the emitted statements and the machine agree. */
module RunMeaning {
  import opened Results
  import opened JavaInts
  import opened Ir
  import opened Emulation
  import opened BlockMeaning
  import opened MethodEmulation
  import opened Graph
  import Jvm

  // ----- the machine and the emitted code, block by block ---------------------------------

  /** Where control goes: `taken` first, as in the successor list. */
  function NextBlock(succs: seq<nat>, taken: Option<bool>): Option<nat> {
    if succs == [] then None
    else if |succs| == 1 then Some(succs[0])
    else match taken
      case Some(t) => Some(if t then succs[0] else succs[1])
      case None => None
  }

  datatype Config =
    | At(block: nat, locals: seq<int>, stack: seq<int>)
    | Ended(value: Option<int>)
    | Crashed
    | Lost

  /** Where the machine stands after a block with the given successors. */
  function AfterBlock(succs: seq<nat>, m: Jvm.Machine): Config {
    match m
    case Running(l, s, taken) =>
      (match NextBlock(succs, taken)
       case Some(next) => At(next, l, s)
       case None => Lost)
    case Finished(value) => Ended(value)
    case Faulted => Crashed
    case Stuck => Lost
  }

  function MachineStep(body: Body, c: Config): Config {
    match c
    case At(b, locals, stack) =>
      if b >= |body.code| || b >= |body.g.succs| then Lost
      else AfterBlock(body.g.succs[b], Jvm.Steps(body.code[b], Jvm.Running(locals, stack, None)))
    case other => other
  }

  function MachineRun(body: Body, locals: seq<int>, k: nat): Config {
    if k == 0 then At(0, locals, []) else MachineStep(body, MachineRun(body, locals, k - 1))
  }

  datatype Point =
    | In(block: nat, env: Env)
    | Gave(value: Option<int>)
    | Raised
    | Nowhere

  /** Where the emitted code stands after the statements of a block. */
  function AfterStatements(r: BlockResult, o: Outcome): Point {
    match o
    case Normal(env) =>
      (match Choice(r.cond, env)
       case Some(taken) =>
         (match NextBlock(r.targets, taken)
          case Some(next) => In(next, env)
          case None => Nowhere)
       case None => Raised)
    case Returned(value) => Gave(value)
    case Threw => Raised
  }

  function EmittedStep(results: seq<BlockResult>, p: Point): Point {
    match p
    case In(b, env) => if b >= |results| then Nowhere else AfterStatements(results[b], Exec(results[b].stmts, env))
    case other => other
  }

  /** The branch decision; `None` when evaluating the condition throws. */
  function Choice(cond: Option<Expr>, env: Env): Option<Option<bool>> {
    match cond
    case None => Some(None)
    case Some(c) =>
      (match Eval(c, env)
       case Some(v) => Some(Some(v != 0))
       case None => None)
  }

  function EmittedRun(results: seq<BlockResult>, env: Env, k: nat): Point {
    if k == 0 then In(0, env) else EmittedStep(results, EmittedRun(results, env, k - 1))
  }

  // ----- the spills as a parallel copy --------------------------------------------------------

  lemma {:induction false} ExecConcat(a: seq<Stmt>, b: seq<Stmt>, env: Env)
    ensures Exec(a + b, env) ==
      match Exec(a, env)
      case Normal(env') => Exec(b, env')
      case other => other
  {
    if b == [] {
      assert a + b == a;
    } else {
      var n := |b| - 1;
      ExecConcat(a, b[..n], env);
      assert a + b == (a + b[..n]) + [b[n]];
      ExecAppend(a + b[..n], b[n], env);
    }
  }

  /** The `n`-th assignment of a spill changes something: it does not copy a temporary to itself. */
  predicate Overwrites(infos: seq<LocalInfo>, temps: seq<nat>, leftover: seq<Expr>, n: nat)
    requires n < |temps| == |leftover| && InRange(temps, 0, |infos|)
  {
    !(leftover[n].Local? && leftover[n].name == infos[temps[n]].name)
  }

  /** `e` reads nothing that the first `n` assignments change. */
  ghost predicate Untouched(infos: seq<LocalInfo>, temps: seq<nat>, leftover: seq<Expr>, n: nat, e: Expr)
    requires n <= |temps| == |leftover| && InRange(temps, 0, |infos|)
  {
    forall i :: 0 <= i < n && Overwrites(infos, temps, leftover, i) ==> !Reads(e, infos[temps[i]].name)
  }

  /** Of the first `n` values, each is assigned before something it reads is changed. */
  ghost predicate InTurn(infos: seq<LocalInfo>, temps: seq<nat>, leftover: seq<Expr>, n: nat)
    requires n <= |temps| == |leftover| && InRange(temps, 0, |infos|)
  {
    forall k :: 0 <= k < n ==> Untouched(infos, temps, leftover, k, leftover[k])
  }

  /** The first `n` temporaries hold the first `n` stack values. */
  ghost predicate Filled(infos: seq<LocalInfo>, temps: seq<nat>, stack: seq<int>, env: Env, n: nat) {
    && |temps| == |stack| && n <= |temps| && InRange(temps, 0, |infos|)
    && forall i :: 0 <= i < n ==> Get(env, infos[temps[i]].name) == stack[i]
  }

  /** What the first `n` assignments do not touch keeps its value. */
  ghost predicate Leaves(infos: seq<LocalInfo>, temps: seq<nat>, leftover: seq<Expr>, n: nat, env: Env, env': Env)
    requires n <= |temps| == |leftover| && InRange(temps, 0, |infos|)
  {
    forall e :: Untouched(infos, temps, leftover, n, e) ==> Eval(e, env') == Eval(e, env)
  }

  lemma LeavesMore(infos: seq<LocalInfo>, temps: seq<nat>, leftover: seq<Expr>, n: nat, env: Env, env1: Env, v: int)
    requires n < |temps| == |leftover| && InRange(temps, 0, |infos|) && Leaves(infos, temps, leftover, n, env, env1)
    requires Eval(leftover[n], env1) == Some(v)
    ensures Leaves(infos, temps, leftover, n + 1, env, env1[infos[temps[n]].name := v])
  {
    var name := infos[temps[n]].name;
    forall e | Untouched(infos, temps, leftover, n + 1, e)
      ensures Eval(e, env1[name := v]) == Eval(e, env)
    {
      assert Untouched(infos, temps, leftover, n, e);
      EvalUnread(e, env1, name, v);
    }
  }

  lemma FilledMore(infos: seq<LocalInfo>, temps: seq<nat>, stack: seq<int>, env: Env, n: nat)
    requires Unique(infos) && NoRepeats(temps) && n < |temps| && Filled(infos, temps, stack, env, n)
    ensures Filled(infos, temps, stack, env[infos[temps[n]].name := stack[n]], n + 1)
  {
    forall i | 0 <= i < n
      ensures infos[temps[i]].name != infos[temps[n]].name
    {
      assert temps[i] != temps[n];
    }
  }

  lemma CopyNext(infos: seq<LocalInfo>, temps: seq<nat>, leftover: seq<Expr>, stack: seq<int>, env: Env, env1: Env,
                 n: nat)
      returns (env': Env)
    requires n < |temps| == |leftover| && InRange(temps, 0, |infos|) && Unique(infos) && NoRepeats(temps)
    requires Untouched(infos, temps, leftover, n, leftover[n]) && Values(leftover, stack, env)
    requires Exec(Assigns(infos, temps, leftover, n), env) == Normal(env1)
    requires Filled(infos, temps, stack, env1, n) && Leaves(infos, temps, leftover, n, env, env1)
    ensures Exec(Assigns(infos, temps, leftover, n + 1), env) == Normal(env')
    ensures Filled(infos, temps, stack, env', n + 1) && Leaves(infos, temps, leftover, n + 1, env, env')
  {
    LeavesMore(infos, temps, leftover, n, env, env1, stack[n]);
    FilledMore(infos, temps, stack, env1, n);
    AssignNext(infos, temps, leftover, n, env);
    env' := env1[infos[temps[n]].name := stack[n]];
  }

  /** Taken in turn, the assignments are one parallel copy. */
  lemma AssignsCopy(infos: seq<LocalInfo>, temps: seq<nat>, leftover: seq<Expr>, stack: seq<int>, env: Env, n: nat)
      returns (env': Env)
    requires n <= |temps| == |leftover| && InRange(temps, 0, |infos|) && Unique(infos) && NoRepeats(temps)
    requires InTurn(infos, temps, leftover, n) && Values(leftover, stack, env)
    ensures Exec(Assigns(infos, temps, leftover, n), env) == Normal(env')
    ensures Filled(infos, temps, stack, env', n) && Leaves(infos, temps, leftover, n, env, env')
  {
    env' := env;
    for k := 0 to n
      invariant Exec(Assigns(infos, temps, leftover, k), env) == Normal(env')
      invariant Filled(infos, temps, stack, env', k) && Leaves(infos, temps, leftover, k, env, env')
    {
      env' := CopyNext(infos, temps, leftover, stack, env, env', k);
    }
  }

  lemma SlotUntouched(infos: seq<LocalInfo>, temps: seq<nat>, leftover: seq<Expr>, x: nat)
    requires |temps| == |leftover| && InRange(temps, 0, |infos|) && Unique(infos) && x < |infos| && x !in temps
    ensures Untouched(infos, temps, leftover, |temps|, LocalExpr(infos, x))
  {
    forall i | 0 <= i < |temps|
      ensures infos[temps[i]].name != infos[x].name
    {
      assert temps[i] in temps;
    }
  }

  lemma SlotKept(infos: seq<LocalInfo>, temps: seq<nat>, leftover: seq<Expr>, env: Env, env': Env, x: nat)
    requires |temps| == |leftover| && InRange(temps, 0, |infos|) && Unique(infos) && x < |infos| && x !in temps
    requires Leaves(infos, temps, leftover, |temps|, env, env')
    ensures Get(env', infos[x].name) == Get(env, infos[x].name)
  {
    SlotUntouched(infos, temps, leftover, x);
    assert Eval(LocalExpr(infos, x), env') == Eval(LocalExpr(infos, x), env);
  }

  // ----- and when they are not ----------------------------------------------------------------

  predicate Simple(e: Expr) { e.Const? || e.Local? }

  ghost predicate AllSimple(es: seq<Expr>) { forall i :: 0 <= i < |es| ==> Simple(es[i]) }

  /** The join finds in its temporaries what was on the stack. */
  ghost predicate Arrives(infos: seq<LocalInfo>, temps: seq<nat>, leftover: seq<Expr>, env: Env)
    requires |temps| == |leftover| && InRange(temps, 0, |infos|)
  {
    var after := Exec(Assigns(infos, temps, leftover, |temps|), env);
    after.Normal? && forall i :: 0 <= i < |temps| ==> ArrivesAt(infos, temps, leftover, env, after.env, i)
  }

  ghost predicate ArrivesAt(infos: seq<LocalInfo>, temps: seq<nat>, leftover: seq<Expr>, env: Env, env': Env, i: nat)
    requires i < |temps| == |leftover| && InRange(temps, 0, |infos|)
  {
    Eval(leftover[i], env) == Some(Get(env', infos[temps[i]].name))
  }

  function SimpleValues(es: seq<Expr>, env: Env): seq<int>
    requires AllSimple(es)
  {
    seq(|es|, i requires 0 <= i < |es| => Eval(es[i], env).value)
  }

  lemma LaterAssign(infos: seq<LocalInfo>, temps: seq<nat>, leftover: seq<Expr>, env: Env, k: nat, n: nat, env1: Env)
      returns (env': Env)
    requires k < n < |temps| == |leftover| && InRange(temps, 0, |infos|) && Unique(infos) && NoRepeats(temps)
    requires Simple(leftover[n]) && Exec(Assigns(infos, temps, leftover, n), env) == Normal(env1)
    ensures Exec(Assigns(infos, temps, leftover, n + 1), env) == Normal(env')
    ensures Get(env', infos[temps[k]].name) == Get(env1, infos[temps[k]].name)
  {
    AssignNext(infos, temps, leftover, n, env);
    assert infos[temps[n]].name != infos[temps[k]].name;
    env' := env1[infos[temps[n]].name := Eval(leftover[n], env1).value];
  }

  /** The assignments after the `k`-th leave its temporary alone. */
  lemma {:induction false} LaterAssigns(infos: seq<LocalInfo>, temps: seq<nat>, leftover: seq<Expr>, env: Env, k: nat,
                                        env1: Env, n: nat)
      returns (env': Env)
    requires k < n <= |temps| == |leftover| && InRange(temps, 0, |infos|) && Unique(infos) && NoRepeats(temps)
    requires AllSimple(leftover) && Exec(Assigns(infos, temps, leftover, k + 1), env) == Normal(env1)
    ensures Exec(Assigns(infos, temps, leftover, n), env) == Normal(env')
    ensures Get(env', infos[temps[k]].name) == Get(env1, infos[temps[k]].name)
    decreases n
  {
    env' := env1;
    if n > k + 1 {
      var before := LaterAssigns(infos, temps, leftover, env, k, env1, n - 1);
      env' := LaterAssign(infos, temps, leftover, env, k, n - 1, before);
    }
  }

  /** Variables with which a value of the stack differs from the temporary it is assigned to. */
  function Telling(name: string, e: Expr): Env { map[name := if e.Const? then e.value + 1 else 1] }

  /** The first value not assigned in turn arrives as another one. */
  lemma OutOfTurn(infos: seq<LocalInfo>, temps: seq<nat>, leftover: seq<Expr>, i: nat, k: nat)
    requires i < k < |temps| == |leftover| && InRange(temps, 0, |infos|) && Unique(infos) && NoRepeats(temps)
    requires AllSimple(leftover) && InTurn(infos, temps, leftover, k) && Overwrites(infos, temps, leftover, i)
    requires Reads(leftover[k], infos[temps[i]].name)
    ensures !Arrives(infos, temps, leftover, Telling(infos[temps[i]].name, leftover[i]))
  {
    var env := Telling(infos[temps[i]].name, leftover[i]);
    var stack := SimpleValues(leftover, env);
    var env1 := AssignsCopy(infos, temps, leftover, stack, env, k);
    AssignNext(infos, temps, leftover, k, env);
    assert Simple(leftover[k]) && Simple(leftover[i]);
    var env2 := Exec(Assigns(infos, temps, leftover, k + 1), env).env;
    var after := LaterAssigns(infos, temps, leftover, env, k, env2, |temps|);
    assert Get(after, infos[temps[k]].name) == stack[i];
    assert !ArrivesAt(infos, temps, leftover, env, after, k);
  }

  /** For a stack of variables and constants, being assigned in turn is not only enough but
      necessary: else some values of the variables arrive wrong. */
  lemma InTurnIff(infos: seq<LocalInfo>, temps: seq<nat>, leftover: seq<Expr>)
    requires |temps| == |leftover| && InRange(temps, 0, |infos|) && Unique(infos) && NoRepeats(temps)
    requires AllSimple(leftover)
    ensures InTurn(infos, temps, leftover, |temps|) <==> forall env :: Arrives(infos, temps, leftover, env)
  {
    if InTurn(infos, temps, leftover, |temps|) {
      forall env
        ensures Arrives(infos, temps, leftover, env)
      {
        var stack := SimpleValues(leftover, env);
        var env' := AssignsCopy(infos, temps, leftover, stack, env, |temps|);
      }
    } else {
      var k := FirstOutOfTurn(infos, temps, leftover);
      var i :| 0 <= i < k && Overwrites(infos, temps, leftover, i) && Reads(leftover[k], infos[temps[i]].name);
      OutOfTurn(infos, temps, leftover, i, k);
    }
  }

  lemma FirstOutOfTurn(infos: seq<LocalInfo>, temps: seq<nat>, leftover: seq<Expr>) returns (k: nat)
    requires |temps| == |leftover| && InRange(temps, 0, |infos|) && !InTurn(infos, temps, leftover, |temps|)
    ensures k < |temps| && InTurn(infos, temps, leftover, k) && !Untouched(infos, temps, leftover, k, leftover[k])
  {
    k := 0;
    while Untouched(infos, temps, leftover, k, leftover[k])
      invariant k < |temps| && InTurn(infos, temps, leftover, k)
      decreases |temps| - k
    {
      k := k + 1;
    }
  }

  // ----- all the spills of a block ------------------------------------------------------------

  /** From the `k`-th edge on, the stack is still needed: an edge is left, or a single successor
      evaluates it later. */
  ghost predicate Awaited(g: Graph, b: nat, k: nat)
    requires b < g.Size()
  {
    exists n :: 0 <= n < |g.succs[b]| && (n >= k || Handed(g, b, g.succs[b][n]))
  }

  /** Every edge of block `b` may be spilled where it stands. */
  ghost predicate NoClobber(g: Graph, infos: seq<LocalInfo>, j: Joins, b: nat, r: BlockResult)
    requires b < g.Size() && AllInRange(j.incoming, 0, |infos|)
  {
    forall k :: 0 <= k < |g.succs[b]| ==> EdgeSafe(g, infos, j, b, r, k)
  }

  /** The spill at the `k`-th edge assigns each value in turn, and changes nothing that the condition
      or, as long as the stack is needed, any of its values reads. */
  ghost predicate EdgeSafe(g: Graph, infos: seq<LocalInfo>, j: Joins, b: nat, r: BlockResult, k: nat)
    requires b < g.Size() && k < |g.succs[b]| && AllInRange(j.incoming, 0, |infos|)
  {
    var s := g.succs[b][k];
    s < |j.incoming| && j.incoming[s].Some? && |j.incoming[s].value| == |r.leftover| && !Handed(g, b, s) ==>
      var temps := j.incoming[s].value;
      && InTurn(infos, temps, r.leftover, |temps|)
      && (r.cond.Some? ==> Untouched(infos, temps, r.leftover, |temps|, r.cond.value))
      && (Awaited(g, b, k + 1) ==> AllUntouched(infos, temps, r.leftover))
  }

  ghost predicate AllUntouched(infos: seq<LocalInfo>, temps: seq<nat>, leftover: seq<Expr>)
    requires |temps| == |leftover| && InRange(temps, 0, |infos|)
  {
    forall i :: 0 <= i < |leftover| ==> Untouched(infos, temps, leftover, |temps|, leftover[i])
  }

  /** What holds before the spill at the `k`-th edge. */
  ghost predicate Survives(g: Graph, infos: seq<LocalInfo>, b: nat, r: BlockResult, locals: seq<int>, stack: seq<int>,
                           verdict: Option<int>, env: Env, k: nat)
    requires b < g.Size()
  {
    && Agree(infos, locals, env) && |stack| == |r.leftover|
    && (Awaited(g, b, k) ==> Values(r.leftover, stack, env))
    && (r.cond.Some? ==> Eval(r.cond.value, env) == verdict)
  }

  ghost predicate JoinFilled(g: Graph, infos: seq<LocalInfo>, j: Joins, b: nat, stack: seq<int>, env: Env, s: nat) {
    s < |j.incoming| && j.incoming[s].Some? && !Handed(g, b, s) ==>
      Filled(infos, j.incoming[s].value, stack, env, |stack|)
  }

  /** The first `before` edges of block `b` have been spilled. */
  ghost predicate EdgesFilled(g: Graph, infos: seq<LocalInfo>, j: Joins, b: nat, stack: seq<int>, env: Env,
                              before: nat) {
    b < |g.succs| && before <= |g.succs[b]| && forall k :: 0 <= k < before ==>
      JoinFilled(g, infos, j, b, stack, env, g.succs[b][k])
  }

  lemma AgreeKept(infos: seq<LocalInfo>, temps: seq<nat>, leftover: seq<Expr>, locals: seq<int>, env: Env, env': Env)
    requires |temps| == |leftover| && Unique(infos) && |locals| <= |infos| && InRange(temps, |locals|, |infos|)
    requires InRange(temps, 0, |infos|) && Leaves(infos, temps, leftover, |temps|, env, env')
    requires Agree(infos, locals, env)
    ensures Agree(infos, locals, env')
  {
    forall x | 0 <= x < |locals|
      ensures Get(env', infos[x].name) == locals[x]
    {
      SlotKept(infos, temps, leftover, env, env', x);
    }
  }

  lemma NotShared(incoming: seq<Option<seq<nat>>>, s: nat, s': nat, i: nat)
    requires s < |incoming| && incoming[s].Some? && s' != s && UsedAt(incoming, s', i) && Apart(incoming)
    ensures incoming[s'].value[i] !in incoming[s].value
  {
    forall n | 0 <= n < |incoming[s].value|
      ensures incoming[s].value[n] != incoming[s'].value[i]
    {
      assert UsedAt(incoming, s, n);
    }
  }

  /** Another join's temporaries are left alone. */
  lemma OtherKept(g: Graph, infos: seq<LocalInfo>, j: Joins, b: nat, s: nat, s': nat, leftover: seq<Expr>,
                  stack: seq<int>, env: Env, env': Env)
    requires s < |j.incoming| && j.incoming[s].Some? && |j.incoming[s].value| == |leftover| && s' != s
    requires Unique(infos) && AllInRange(j.incoming, 0, |infos|) && Apart(j.incoming)
    requires InRange(j.incoming[s].value, 0, |infos|)
      && Leaves(infos, j.incoming[s].value, leftover, |leftover|, env, env')
    requires JoinFilled(g, infos, j, b, stack, env, s')
    ensures JoinFilled(g, infos, j, b, stack, env', s')
  {
    if s' < |j.incoming| && j.incoming[s'].Some? && !Handed(g, b, s') {
      var temps, others := j.incoming[s].value, j.incoming[s'].value;
      assert InRange(others, 0, |infos|);
      forall i | 0 <= i < |stack|
        ensures Get(env', infos[others[i]].name) == stack[i]
      {
        NotShared(j.incoming, s, s', i);
        SlotKept(infos, temps, leftover, env, env', others[i]);
      }
    }
  }

  lemma EdgesKept(g: Graph, infos: seq<LocalInfo>, j: Joins, b: nat, k: nat, leftover: seq<Expr>, stack: seq<int>,
                  env: Env, env': Env)
    requires b < g.Size() && k < |g.succs[b]| && NoRepeats(g.succs[b]) && EdgesFilled(g, infos, j, b, stack, env, k)
    requires var s := g.succs[b][k]; s < |j.incoming| && j.incoming[s].Some? && |j.incoming[s].value| == |leftover|
    requires Unique(infos) && AllInRange(j.incoming, 0, |infos|) && Apart(j.incoming)
    requires InRange(j.incoming[g.succs[b][k]].value, 0, |infos|)
      && Leaves(infos, j.incoming[g.succs[b][k]].value, leftover, |leftover|, env, env')
    ensures EdgesFilled(g, infos, j, b, stack, env', k)
  {
    forall n | 0 <= n < k
      ensures JoinFilled(g, infos, j, b, stack, env', g.succs[b][n])
    {
      OtherKept(g, infos, j, b, g.succs[b][k], g.succs[b][n], leftover, stack, env, env');
    }
  }

  lemma ValuesKept(infos: seq<LocalInfo>, temps: seq<nat>, leftover: seq<Expr>, stack: seq<int>, env: Env, env': Env)
    requires |temps| == |leftover| && InRange(temps, 0, |infos|) && Leaves(infos, temps, leftover, |temps|, env, env')
    requires AllUntouched(infos, temps, leftover) && Values(leftover, stack, env)
    ensures Values(leftover, stack, env')
  {
    forall i | 0 <= i < |leftover|
      ensures Eval(leftover[i], env') == Some(stack[i])
    {
      assert Untouched(infos, temps, leftover, |temps|, leftover[i]);
    }
  }

  lemma TempsApart(incoming: seq<Option<seq<nat>>>, s: nat)
    requires s < |incoming| && incoming[s].Some? && Apart(incoming)
    ensures NoRepeats(incoming[s].value)
  {
    var temps := incoming[s].value;
    forall i, k | 0 <= i < k < |temps|
      ensures temps[i] != temps[k]
    {
      assert UsedAt(incoming, s, i) && UsedAt(incoming, s, k);
    }
  }

  /** The spill at an edge to a join. */
  lemma JoinCopies(g: Graph, infos: seq<LocalInfo>, j: Joins, b: nat, r: BlockResult, k: nat, locals: seq<int>,
                   stack: seq<int>, verdict: Option<int>, env: Env)
      returns (env': Env)
    requires b < g.Size() && k < |g.succs[b]| && NoRepeats(g.succs[b])
    requires var s := g.succs[b][k];
      s < |j.incoming| && j.incoming[s].Some? && |j.incoming[s].value| == |stack| && !Handed(g, b, s)
    requires Unique(infos) && |locals| <= |infos| && AllInRange(j.incoming, |locals|, |infos|) && Apart(j.incoming)
    requires AllInRange(j.incoming, 0, |infos|) && EdgeSafe(g, infos, j, b, r, k)
    requires Survives(g, infos, b, r, locals, stack, verdict, env, k) && EdgesFilled(g, infos, j, b, stack, env, k)
    ensures InRange(j.incoming[g.succs[b][k]].value, 0, |infos|)
    ensures Exec(Assigns(infos, j.incoming[g.succs[b][k]].value, r.leftover, |stack|), env) == Normal(env')
    ensures Survives(g, infos, b, r, locals, stack, verdict, env', k + 1)
    ensures EdgesFilled(g, infos, j, b, stack, env', k + 1)
  {
    var temps := j.incoming[g.succs[b][k]].value;
    assert InRange(temps, |locals|, |infos|) && InRange(temps, 0, |infos|);
    TempsApart(j.incoming, g.succs[b][k]);
    assert Awaited(g, b, k);
    env' := AssignsCopy(infos, temps, r.leftover, stack, env, |temps|);
    AgreeKept(infos, temps, r.leftover, locals, env, env');
    EdgesKept(g, infos, j, b, k, r.leftover, stack, env, env');
    if Awaited(g, b, k + 1) { ValuesKept(infos, temps, r.leftover, stack, env, env'); }
  }

  /** The spill to the `k`-th successor, if it is a join that gets temporaries. */
  lemma SpillCopies(g: Graph, infos: seq<LocalInfo>, j: Joins, b: nat, r: BlockResult, k: nat, locals: seq<int>,
                    stack: seq<int>, verdict: Option<int>, env: Env)
      returns (env': Env)
    requires b < g.Size() && k < |g.succs[b]| && NoRepeats(g.succs[b]) && JoinDepth(j, g.succs[b][k], |stack|)
    requires Unique(infos) && |locals| <= |infos| && AllInRange(j.incoming, |locals|, |infos|) && Apart(j.incoming)
    requires AllInRange(j.incoming, 0, |infos|) && NoClobber(g, infos, j, b, r)
    requires Survives(g, infos, b, r, locals, stack, verdict, env, k) && EdgesFilled(g, infos, j, b, stack, env, k)
    ensures Exec(SpillTo(g, infos, j.incoming, b, r.leftover, g.succs[b][k]), env) == Normal(env')
    ensures Survives(g, infos, b, r, locals, stack, verdict, env', k + 1)
    ensures EdgesFilled(g, infos, j, b, stack, env', k + 1)
  {
    env' := env;
    var s := g.succs[b][k];
    if s < |j.incoming| && !Handed(g, b, s) && j.incoming[s].Some? {
      assert EdgeSafe(g, infos, j, b, r, k);
      env' := JoinCopies(g, infos, j, b, r, k, locals, stack, verdict, env);
      assert SpillTo(g, infos, j.incoming, b, r.leftover, s)
        == Assigns(infos, j.incoming[s].value, r.leftover, |stack|);
    } else {
      assert SpillTo(g, infos, j.incoming, b, r.leftover, s) == [];
      assert JoinFilled(g, infos, j, b, stack, env', s);
    }
  }

  lemma SpillsMore(g: Graph, infos: seq<LocalInfo>, j: Joins, b: nat, leftover: seq<Expr>, succs: seq<nat>, k: nat,
                   env: Env, middle: Env)
    requires AllInRange(j.incoming, 0, |infos|) && k < |succs|
    requires Exec(Spills(g, infos, j.incoming, b, leftover, succs, k), env) == Normal(middle)
    ensures Exec(Spills(g, infos, j.incoming, b, leftover, succs, k + 1), env)
      == Exec(SpillTo(g, infos, j.incoming, b, leftover, succs[k]), middle)
  {
    ExecConcat(Spills(g, infos, j.incoming, b, leftover, succs, k),
      SpillTo(g, infos, j.incoming, b, leftover, succs[k]), env);
  }

  /** One after the other, the spills of a block are one parallel copy: every join receives
      the stack as it was, a successor that evaluates it later still can, and the condition and the
      variables survive. */
  lemma SpillsCopy(g: Graph, infos: seq<LocalInfo>, j: Joins, b: nat, r: BlockResult, locals: seq<int>, stack: seq<int>,
                   verdict: Option<int>, env: Env, k: nat)
      returns (env': Env)
    requires b < g.Size() && k <= |g.succs[b]| && NoRepeats(g.succs[b])
    requires forall i :: 0 <= i < |g.succs[b]| ==> JoinDepth(j, g.succs[b][i], |stack|)
    requires Unique(infos) && |locals| <= |infos| && AllInRange(j.incoming, |locals|, |infos|) && Apart(j.incoming)
    requires AllInRange(j.incoming, 0, |infos|) && NoClobber(g, infos, j, b, r)
    requires Agree(infos, locals, env) && Values(r.leftover, stack, env)
    requires r.cond.Some? ==> Eval(r.cond.value, env) == verdict
    ensures Exec(Spills(g, infos, j.incoming, b, r.leftover, g.succs[b], k), env) == Normal(env')
    ensures Survives(g, infos, b, r, locals, stack, verdict, env', k) && EdgesFilled(g, infos, j, b, stack, env', k)
  {
    env' := env;
    for n := 0 to k
      invariant Exec(Spills(g, infos, j.incoming, b, r.leftover, g.succs[b], n), env) == Normal(env')
      invariant Survives(g, infos, b, r, locals, stack, verdict, env', n)
      invariant EdgesFilled(g, infos, j, b, stack, env', n)
    {
      var next := SpillCopies(g, infos, j, b, r, n, locals, stack, verdict, env');
      SpillsMore(g, infos, j, b, r.leftover, g.succs[b], n, env, env');
      env' := next;
    }
  }

  ghost predicate JoinDepth(j: Joins, s: nat, depth: nat) {
    s < |j.incoming| && j.incoming[s].Some? ==> |j.incoming[s].value| == depth
  }

  lemma AssignNext(infos: seq<LocalInfo>, temps: seq<nat>, leftover: seq<Expr>, k: nat, env: Env)
    requires k < |temps| == |leftover| && InRange(temps, 0, |infos|)
      && Exec(Assigns(infos, temps, leftover, k), env).Normal?
    ensures Exec(Assigns(infos, temps, leftover, k + 1), env) ==
      ExecOne(Assign(LocalExpr(infos, temps[k]), leftover[k]), Exec(Assigns(infos, temps, leftover, k), env).env)
  {
    ExecAppend(Assigns(infos, temps, leftover, k), Assign(LocalExpr(infos, temps[k]), leftover[k]), env);
  }

  /** Two assignments; their number is a parameter so that it is no literal. */
  lemma TwoAssigns(infos: seq<LocalInfo>, temps: seq<nat>, leftover: seq<Expr>, n: nat, env: Env) returns (env': Env)
    requires n == 2 == |temps| == |leftover| && InRange(temps, 0, |infos|)
    requires leftover[0] == LocalExpr(infos, temps[1]) && leftover[1] == LocalExpr(infos, temps[0])
    ensures Exec(Assigns(infos, temps, leftover, n), env) == Normal(env')
    ensures var (t, u) := (infos[temps[0]].name, infos[temps[1]].name);
      env' == env[t := Get(env, u)][u := Get(env[t := Get(env, u)], t)]
  {
    var none: nat := n - 2;
    assert Assigns(infos, temps, leftover, none) == [];
    AssignNext(infos, temps, leftover, none, env);
    AssignNext(infos, temps, leftover, none + 1, env);
    env' := Exec(Assigns(infos, temps, leftover, n), env).env;
  }

  /** The smallest case of `InTurnIff`, value by value: a stack that swaps the two temporaries of the
      join it enters arrives right exactly when both hold the same value. */
  lemma {:induction false} SwapClobbers(infos: seq<LocalInfo>, temps: seq<nat>, leftover: seq<Expr>, stack: seq<int>,
                                        env: Env)
    requires Unique(infos) && |temps| == 2 && InRange(temps, 0, |infos|) && temps[0] != temps[1]
    requires leftover == [LocalExpr(infos, temps[1]), LocalExpr(infos, temps[0])] && Values(leftover, stack, env)
    ensures Exec(Assigns(infos, temps, leftover, |temps|), env).Normal?
    ensures Filled(infos, temps, stack, Exec(Assigns(infos, temps, leftover, |temps|), env).env, |temps|) <==>
      stack[0] == stack[1]
  {
    var env' := TwoAssigns(infos, temps, leftover, |temps|, env);
    assert stack[0] == Get(env, infos[temps[1]].name) && stack[1] == Get(env, infos[temps[0]].name);
    assert infos[temps[0]].name != infos[temps[1]].name;
    assert Get(env', infos[temps[0]].name) == stack[0] && Get(env', infos[temps[1]].name) == stack[0];
  }

  // ----- one block ----------------------------------------------------------------------------------

  /** A run of the emulator on a method: its certificate, and the conditions under which
      what it emitted means what the code means. */
  datatype Emission = Emission(body: Body, base: seq<LocalInfo>, depth: seq<nat>, reachable: seq<bool>,
    infos: seq<LocalInfo>, joins: Joins, results: seq<BlockResult>)

  ghost predicate Certified(m: Emission) {
    && ValidBody(m.body, |m.base|) && EmissionOrder.Marked(m.body.g, [0], m.reachable)
    && Consistent(m.body, m.reachable, m.depth)
    && RunDone(m.body, m.base, m.depth, m.reachable, m.infos, m.joins, m.results)
  }

  function EntryStack(m: Emission, b: nat): seq<Expr>
    requires b < |m.joins.direct| == |m.joins.incoming| && AllInRange(m.joins.incoming, 0, |m.infos|)
  {
    EntryOf(m.joins, m.infos, b)
  }

  /** Block `b` makes no pending expression stale and its spills change nothing still to be read. */
  ghost predicate CarefulAt(m: Emission, b: nat)
    requires Certified(m) && b < m.body.g.Size()
  {
    && WellEnded(m.body.code[b])
    && NeverStale(m.body.code[b], m.base, Emu(EntryStack(m, b), [], None))
    && NoClobber(m.body.g, m.infos, m.joins, b, m.results[b])
  }

  ghost predicate Careful(m: Emission)
    requires Certified(m)
  {
    forall b :: 0 <= b < m.body.g.Size() && m.reachable[b] ==> CarefulAt(m, b)
  }

  /** The emitted code is at the point `p` when the machine is at `c`. */
  ghost predicate Same(m: Emission, c: Config, p: Point)
    requires Certified(m)
  {
    match c
    case At(b, locals, stack) =>
      && p.In? && p.block == b < m.body.g.Size() && m.reachable[b]
      && |locals| == |m.base| && Agree(m.infos, locals, p.env) && Values(EntryStack(m, b), stack, p.env)
    case Ended(value) => p == Gave(value)
    case Crashed => true
    case Lost => p == Nowhere
  }

  lemma Successor(m: Emission, b: nat, s: nat)
    requires Certified(m) && b < m.body.g.Size() && m.reachable[b] && s in m.body.g.succs[b]
    ensures s < m.body.g.Size() && m.reachable[s]
  {
    var r :| r in [0] && Reaches(m.body.g, r, b);
    ReachesStep(m.body.g, r, b, s);
  }

  /** The depths at the edges out of an emulated block. */
  lemma EdgeDepths(m: Emission, b: nat)
    requires Certified(m) && b < m.body.g.Size() && m.reachable[b]
    ensures Emulated(m.body, m.base, m.infos, m.joins, b, m.results[b])
    ensures forall i :: 0 <= i < |m.body.g.succs[b]| ==>
      m.body.g.succs[b][i] < |m.depth| && m.depth[m.body.g.succs[b][i]] == |m.results[b].leftover|
    ensures forall i :: 0 <= i < |m.body.g.succs[b]| ==>
      JoinDepth(m.joins, m.body.g.succs[b][i], |m.results[b].leftover|)
  {
    assert EmulatedAt(m.body, m.base, m.infos, m.depth, m.joins, m.results, b) && ConsistentAt(m.body, m.depth, b);
    var done :| JoinsOk(m.body.g, m.depth, |m.base|, m.infos, m.joins, done);
    BlockInts(m.body, m.base, m.infos, m.joins, b);
    LeftoverDepth(m.body, m.base, m.depth, m.joins, m.infos, b, m.results[b], done);
    forall i | 0 <= i < |m.body.g.succs[b]|
      ensures m.body.g.succs[b][i] < |m.depth| && m.depth[m.body.g.succs[b][i]] == |m.results[b].leftover|
      ensures JoinDepth(m.joins, m.body.g.succs[b][i], |m.results[b].leftover|)
    {
      assert m.body.g.succs[b][i] in m.body.g.succs[b];
      assert IncomingAt(m.body.g, m.depth, m.joins.incoming, m.body.g.succs[b][i]);
    }
  }

  /** After the spills, the successor finds the machine's stack. */
  lemma EntryHolds(m: Emission, b: nat, s: nat, stack: seq<int>, env: Env)
    requires Certified(m) && b < m.body.g.Size() && m.reachable[b] && s in m.body.g.succs[b]
    requires |stack| == |m.results[b].leftover|
    requires Awaited(m.body.g, b, |m.body.g.succs[b]|) ==> Values(m.results[b].leftover, stack, env)
    requires m.results[b].leftover != [] ==> EdgesFilled(m.body.g, m.infos, m.joins, b, stack, env, |m.body.g.succs[b]|)
    ensures s < m.body.g.Size() && Values(EntryStack(m, s), stack, env)
  {
    EdgeDepths(m, b);
    var k :| 0 <= k < |m.body.g.succs[b]| && m.body.g.succs[b][k] == s;
    var done :| JoinsOk(m.body.g, m.depth, |m.base|, m.infos, m.joins, done);
    assert DirectAt(m.body.g, m.depth, m.joins.direct, done, s) && IncomingAt(m.body.g, m.depth, m.joins.incoming, s);
    if m.results[b].leftover != [] {
      assert Served(m.body.g, m.joins, b, m.results[b].leftover, m.body.g.succs[b][k]);
      assert JoinFilled(m.body.g, m.infos, m.joins, b, stack, env, m.body.g.succs[b][k]);
      StackArrives(m.body.g, m.infos, m.joins, b, k, m.results[b].leftover, stack, env, s);
    }
  }

  lemma StackArrives(g: Graph, infos: seq<LocalInfo>, j: Joins, b: nat, k: nat, leftover: seq<Expr>, stack: seq<int>,
                     env: Env, s: nat)
    requires b < g.Size() && k < |g.succs[b]| && s == g.succs[b][k] && AllInRange(j.incoming, 0, |infos|)
    requires Served(g, j, b, leftover, s) && (!Handed(g, b, s) ==> j.direct[s].None?) && |stack| == |leftover|
    requires Awaited(g, b, |g.succs[b]|) ==> Values(leftover, stack, env)
    requires JoinFilled(g, infos, j, b, stack, env, s)
    ensures Values(EntryOf(j, infos, s), stack, env)
  {
    if Handed(g, b, s) { assert Awaited(g, b, |g.succs[b]|); }
  }

  /** Running the statements of a block on from where its own code ends. */
  lemma SpillsAfter(m: Emission, b: nat, locals: seq<int>, stack: seq<int>, verdict: Option<int>, said: seq<Stmt>,
                    env: Env, env1: Env) returns (env': Env)
    requires Certified(m) && b < m.body.g.Size() && m.reachable[b] && CarefulAt(m, b) && |locals| == |m.base|
    requires Exec(said, env) == Normal(env1) && Agree(m.infos, locals, env1)
    requires Values(m.results[b].leftover, stack, env1)
    requires m.results[b].cond.Some? ==> Eval(m.results[b].cond.value, env1) == verdict
    requires var r := m.results[b];
      r.stmts == said + (if r.leftover == [] then []
        else Spills(m.body.g, m.infos, m.joins.incoming, b, r.leftover, m.body.g.succs[b], |m.body.g.succs[b]|))
    ensures Exec(m.results[b].stmts, env) == Normal(env')
    ensures Survives(m.body.g, m.infos, b, m.results[b], locals, stack, verdict, env', |m.body.g.succs[b]|)
    ensures m.results[b].leftover != [] ==> EdgesFilled(m.body.g, m.infos, m.joins, b, stack, env', |m.body.g.succs[b]|)
  {
    var r, g := m.results[b], m.body.g;
    if r.leftover == [] {
      assert said + [] == said;
      env' := env1;
    } else {
      EdgeDepths(m, b);
      var done :| JoinsOk(g, m.depth, |m.base|, m.infos, m.joins, done);
      env' := SpillsCopy(g, m.infos, m.joins, b, r, locals, stack, verdict, env1, |g.succs[b]|);
      ExecConcat(said, Spills(g, m.infos, m.joins.incoming, b, r.leftover, g.succs[b], |g.succs[b]|), env);
    }
  }

  lemma BaseAgrees(m: Emission, locals: seq<int>, env: Env)
    requires Certified(m) && |locals| == |m.base|
    ensures Unique(m.base) && (Agree(m.base, locals, env) <==> Agree(m.infos, locals, env))
  {
    assert forall i :: 0 <= i < |m.base| ==> m.base[i] == m.infos[i];
  }

  /** One block of the machine is one block of the emitted code. */
  lemma StepSame(m: Emission, c: Config, p: Point)
    requires Certified(m) && Careful(m) && Same(m, c, p) && !c.Crashed?
    ensures Same(m, MachineStep(m.body, c), EmittedStep(m.results, p))
  {
    if c.At? {
      var (b, env) := (c.block, p.env);
      var r, code, entry := m.results[b], m.body.code[b], EntryStack(m, b);
      assert CarefulAt(m, b);
      EdgeDepths(m, b);
      BaseAgrees(m, c.locals, env);
      BlockInts(m.body, m.base, m.infos, m.joins, b);
      BlockMeans(code, m.base, entry, c.locals, c.stack, env);
      var said := EmulateAll(code, m.base, Emu(entry, [], None)).value.stmts;
      StepsKeepLocals(code, Jvm.Running(c.locals, c.stack, None));
      match Jvm.Steps(code, Jvm.Running(c.locals, c.stack, None))
      case Running(locals, stack, taken) =>
        RunsOn(m, b, locals, stack, taken, said, env, Exec(said, env).env);
      case Finished(value) =>
        ExecConcat(said, if r.leftover == [] then []
          else Spills(m.body.g, m.infos, m.joins.incoming, b, r.leftover, m.body.g.succs[b], |m.body.g.succs[b]|), env);
      case Faulted =>
    }
  }

  lemma RunsOn(m: Emission, b: nat, locals: seq<int>, stack: seq<int>, taken: Option<bool>, said: seq<Stmt>, env: Env,
               env1: Env)
    requires Certified(m) && b < m.body.g.Size() && m.reachable[b] && CarefulAt(m, b) && |locals| == |m.base|
    requires EmulateAll(m.body.code[b], m.base, Emu(EntryStack(m, b), [], None)).Ok?
    requires said == EmulateAll(m.body.code[b], m.base, Emu(EntryStack(m, b), [], None)).value.stmts
    requires Exec(said, env) == Normal(env1) && Agree(m.base, locals, env1)
    requires Values(m.results[b].leftover, stack, env1) && Decides(m.results[b].cond, taken, env1)
    ensures Same(m, match NextBlock(m.body.g.succs[b], taken) case Some(next) => At(next, locals,
      stack) case None => Lost, EmittedStep(m.results, In(b, env)))
  {
    EdgeDepths(m, b);
    BaseAgrees(m, locals, env1);
    var verdict := if taken.Some? then Some(Truth(taken.value)) else None;
    var env' := SpillsAfter(m, b, locals, stack, verdict, said, env, env1);
    var next := NextBlock(m.body.g.succs[b], taken);
    assert Choice(m.results[b].cond, env') == Some(taken);
    if next.Some? {
      Successor(m, b, next.value);
      EntryHolds(m, b, next.value, stack, env');
    }
  }

  /** The method theorem. For every number of blocks executed, as long as the machine has
      thrown no exception, the emitted code is at the same block with every variable and
      every stack value right, or has returned the same value. */
  lemma {:induction false} RunsAgree(m: Emission, locals: seq<int>, env: Env, k: nat)
    requires Certified(m) && Careful(m) && |locals| == |m.base| && Agree(m.infos, locals, env)
    ensures Same(m, MachineRun(m.body, locals, k), EmittedRun(m.results, env, k))
  {
    if k == 0 {
      var done :| JoinsOk(m.body.g, m.depth, |m.base|, m.infos, m.joins, done);
      assert DirectAt(m.body.g, m.depth, m.joins.direct, done, 0) && IncomingAt(m.body.g, m.depth, m.joins.incoming, 0);
      ReachesSelf(m.body.g, 0);
      assert 0 in [0];
    } else {
      RunsAgree(m, locals, env, k - 1);
      if !MachineRun(m.body, locals, k - 1).Crashed? {
        StepSame(m, MachineRun(m.body, locals, k - 1), EmittedRun(m.results, env, k - 1));
      }
    }
  }

  // ----- exceptions ---------------------------------------------------------------------------------

  /** Block `b` forgets no expression that may throw and leaves none pending. */
  ghost predicate TidyAt(m: Emission, b: nat)
    requires Certified(m) && b < m.body.g.Size()
  {
    && NeverForgets(m.body.code[b], m.base, Emu(EntryStack(m, b), [], None))
    && forall x :: x in m.results[b].leftover ==> !CanThrow(x)
  }

  /** The values of expressions that cannot throw. */
  lemma ValuesExist(es: seq<Expr>, env: Env) returns (vs: seq<int>)
    requires forall x :: x in es ==> !CanThrow(x)
    ensures Values(es, vs, env)
  {
    forall i | 0 <= i < |es|
      ensures Eval(es[i], env).Some?
    {
      assert es[i] in es;
      CannotThrow(es[i], env);
    }
    vs := seq(|es|, i requires 0 <= i < |es| && Eval(es[i], env).Some? => Eval(es[i], env).value);
  }

  lemma CrashRaises(m: Emission, b: nat, locals: seq<int>, stack: seq<int>, env: Env)
    requires Certified(m) && Careful(m) && b < m.body.g.Size() && m.reachable[b] && TidyAt(m, b)
    requires |locals| == |m.base| && Agree(m.infos, locals, env) && Values(EntryStack(m, b), stack, env)
    requires Jvm.Steps(m.body.code[b], Jvm.Running(locals, stack, None)).Faulted?
    ensures EmittedStep(m.results, In(b, env)) == Raised
  {
    var r, code, entry := m.results[b], m.body.code[b], EntryStack(m, b);
    assert CarefulAt(m, b);
    EdgeDepths(m, b);
    BaseAgrees(m, locals, env);
    BlockInts(m.body, m.base, m.infos, m.joins, b);
    BlockThrows(code, m.base, entry, locals, stack, env);
    var out := EmulateAll(code, m.base, Emu(entry, [], None)).value;
    match Exec(out.stmts, env)
    case Threw =>
      ExecConcat(out.stmts, if r.leftover == [] then []
        else Spills(m.body.g, m.infos, m.joins.incoming, b, r.leftover, m.body.g.succs[b], |m.body.g.succs[b]|), env);
    case Normal(env1) =>
      if SomeThrows(out.stack, env1) {
        var x :| x in out.stack && Eval(x, env1).None?;
        CannotThrow(x, env1);
      }
      var vs := ValuesExist(r.leftover, env1);
      var slots := seq(|m.base|, i requires 0 <= i < |m.base| => Get(env1, m.base[i].name));
      BaseAgrees(m, slots, env1);
      var env' := SpillsAfter(m, b, slots, vs, None, out.stmts, env, env1);
  }

  /** If moreover no block forgets or leaves pending an expression that may throw, then
      the emitted code throws in the very block in which the machine does. */
  lemma {:induction false} CrashesAgree(m: Emission, locals: seq<int>, env: Env, k: nat)
    requires Certified(m) && Careful(m) && |locals| == |m.base| && Agree(m.infos, locals, env)
    requires forall b :: 0 <= b < m.body.g.Size() && m.reachable[b] ==> TidyAt(m, b)
    ensures MachineRun(m.body, locals, k).Crashed? ==> EmittedRun(m.results, env, k) == Raised
  {
    if k > 0 {
      CrashesAgree(m, locals, env, k - 1);
      RunsAgree(m, locals, env, k - 1);
      var c := MachineRun(m.body, locals, k - 1);
      if c.At? && MachineStep(m.body, c).Crashed? {
        CrashRaises(m, c.block, c.locals, c.stack, EmittedRun(m.results, env, k - 1).env);
      }
    }
  }
}
