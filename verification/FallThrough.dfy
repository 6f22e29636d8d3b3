/** What becomes of the false edge of a two-way block. The text prints a jump for the true edge
    and none for the false one, so control runs into the block printed next. */
module FallThrough {
  import opened Results
  import opened JavaInts
  import opened Ir
  import opened Graph
  import opened LinearCode
  import opened MethodEmulation
  import EmissionOrder
  import Labels
  import RunMeaning
  import Traversal

  // ----- the printing order of a graph ------------------------------------------------------

  lemma RetainAll(s: seq<nat>, reachable: seq<bool>)
    requires forall x :: x in s ==> x < |reachable| && reachable[x]
    ensures EmissionOrder.Retain(s, reachable) == s
  {
    for k := 0 to |s|
      invariant EmissionOrder.Retain(s[..k], reachable) == s[..k]
    {
      assert s[k] in s && s[..k + 1] == s[..k] + [s[k]];
      EmissionOrder.RetainAppend(s[..k], s[k], reachable);
    }
    assert s[..|s|] == s;
  }

  /** Without handlers the blocks are printed in reverse post order. */
  lemma PrintsRpo(g: Graph, reachable: seq<bool>)
    requires g.Size() > 0 && EmissionOrder.Marked(g, [0], reachable)
    ensures EmissionOrder.EmissionOrder(g, [], reachable) == Traversal.Rpo(g, 0)
  {
    var rpo := Traversal.Rpo(g, 0);
    Traversal.RpoTheorem(g, 0);
    forall x | x in rpo
      ensures x < |reachable| && reachable[x]
    {
      assert 0 in [0] && Reaches(g, 0, x);
    }
    RetainAll(rpo, reachable);
    EmissionOrder.RetainIsEmit(rpo, reachable, []);
    assert EmissionOrder.Roots([]) == [0];
    assert [0][1..] == [];
    assert EmissionOrder.AllRpos(g, [0]) == rpo;
  }

  /** In an acyclic graph a block printed right behind `b` is reached from no other
      successor of `b`. */
  lemma JoinComesLater(g: Graph, b: nat, s: nat, t: nat)
    requires g.Size() > 0 && Traversal.BackSet(g) == {} && Reaches(g, 0, b)
    requires Edge(g, b, s) && Reaches(g, s, t) && s != t
    ensures b in Traversal.Rpo(g, 0) && t in Traversal.Rpo(g, 0)
    ensures Traversal.Pos(Traversal.Rpo(g, 0), t) > Traversal.Pos(Traversal.Rpo(g, 0), b) + 1
  {
    Traversal.RpoTheorem(g, 0);
    ReachesStep(g, 0, b, s);
    Traversal.BackEdgesTheorem(g, b, s);
    var p :| PathFromTo(g, p, s, t);
    Traversal.Climbs(g, p, |p| - 1);
  }

  /** So with the two successors `s` and `t` of `b`, the true and the false one: when `s`
      leads to `t`, the false edge of `b` gets lost. */
  lemma JoinIsMissed(g: Graph, reachable: seq<bool>, i: nat, s: nat, t: nat)
    requires g.Size() > 0 && EmissionOrder.Marked(g, [0], reachable) && Traversal.BackSet(g) == {}
    requires i < |EmissionOrder.EmissionOrder(g, [], reachable)|
    requires Edge(g, EmissionOrder.EmissionOrder(g, [], reachable)[i], s) && Reaches(g, s, t) && s != t
    ensures NextOf(EmissionOrder.EmissionOrder(g, [], reachable), i) != Some(t)
  {
    PrintsRpo(g, reachable);
    Traversal.RpoTheorem(g, 0);
    var rpo := Traversal.Rpo(g, 0);
    Traversal.PosUnique(g, 0, i);
    JoinComesLater(g, rpo[i], s, t);
    if i + 1 < |rpo| { Traversal.PosUnique(g, 0, i + 1); }
  }

  // ----- running the text -------------------------------------------------------------------

  /** The false edge of a two-way block: the blocks go on at `targets[1]`, the text at
      whatever is printed next. */
  lemma FalseEdge(prog: seq<Stmt>, starts: seq<nat>, order: seq<nat>, results: seq<BlockResult>, i: nat, env: Env,
                  env': Env)
      returns (n: nat)
    requires Layout(prog, starts, order, results) && i < |order| && Exec(results[order[i]].stmts, env) == Normal(env')
    requires var r := results[order[i]];
      |r.targets| == 2 && r.targets[0] in order && r.cond.Some? && Eval(r.cond.value, env') == Some(0)
    ensures RunMeaning.EmittedStep(results, RunMeaning.In(order[i], env))
      == RunMeaning.In(results[order[i]].targets[1], env')
    ensures Labels.Run(prog, Labels.At(starts[i], env), n) == Labels.At(starts[i + 1], env')
    ensures AtBlock(starts, order, Labels.Run(prog, Labels.At(starts[i], env), n), results[order[i]].targets[1], env')
        <==> NextOf(order, i) == Some(results[order[i]].targets[1])
  {
    var r := results[order[i]];
    var m := 1 + |r.stmts|;
    BodyFollows(prog, starts, order, results, i, env);
    var more := LeaveDouble(prog, starts, order, results, i, starts[i] + m, env', 0);
    Chain(prog, Labels.At(starts[i], env), m, Labels.At(starts[i] + m, env'), more);
    n := m + more;
    FallsRight(prog, starts, order, results, i, r.targets[1], env');
  }

  // ----- a method that is printed wrong --------------------------------------------------------

  const A: Expr := Local(0, "a", Int)

  /** Block 0 branches to 2 or 1, block 2 goes to 1. */
  function SampleGraph(): Graph { Graph([[2, 1], [], [1]], [[], [0, 2], [0]]) }

  /** `if (a != 0) a = 1; return a`, with the assignment out of line. */
  function Sample(): seq<BlockResult> {
    [BlockResult([], Some(Cmp(Ne, A, Const(0, Int))), [2, 1], []),
     BlockResult([Return(Some(A))], None, [], []),
     BlockResult([Assign(A, Const(1, Int))], None, [1], [])]
  }

  lemma SampleEdges(u: nat, v: nat)
    ensures Edge(SampleGraph(), u, v) <==> (u == 0 && (v == 2 || v == 1)) || (u == 2 && v == 1)
  {
    var g := SampleGraph();
    if u == 0 { assert g.succs[0] == [2, 1]; }
    if u == 1 { assert g.succs[1] == []; }
    if u == 2 { assert g.succs[2] == [1]; }
  }

  /** Control never returns to where it came from. */
  lemma SampleClimbs(u: nat, v: nat)
    requires Edge(SampleGraph(), u, v)
    ensures !Reaches(SampleGraph(), v, u)
  {
    var g := SampleGraph();
    SampleEdges(u, v);
    var ahead: set<nat> := if v == 1 then {1} else {1, 2};
    forall a, b | a in ahead && Edge(g, a, b)
      ensures b in ahead
    {
      SampleEdges(a, b);
    }
    if Reaches(g, v, u) {
      var p :| PathFromTo(g, p, v, u);
      ClosedContains(g, ahead, p, |p| - 1);
    }
  }

  lemma SampleAcyclic()
    ensures Traversal.BackSet(SampleGraph()) == {}
  {
    var g := SampleGraph();
    forall e | e in Traversal.BackSet(g)
      ensures false
    {
      Traversal.BackEdgesTheorem(g, e.0, e.1);
      SampleClimbs(e.0, e.1);
    }
  }

  lemma SampleReaches()
    ensures forall b: nat :: Reaches(SampleGraph(), 0, b) <==> b < 3
  {
    var g := SampleGraph();
    SampleEdges(0, 1);
    SampleEdges(0, 2);
    ReachesSelf(g, 0);
    ReachesStep(g, 0, 0, 1);
    ReachesStep(g, 0, 0, 2);
    forall b: nat | Reaches(g, 0, b)
      ensures b < 3
    {
      var p :| PathFromTo(g, p, 0, b);
      assert b == p[|p| - 1];
    }
  }

  lemma {:induction false} DistinctSize(s: seq<nat>)
    requires NoRepeats(s)
    ensures |Traversal.Elements(s)| == |s|
  {
    if s != [] {
      var n := |s| - 1;
      DistinctSize(s[..n]);
      assert s == s[..n] + [s[n]];
      assert Traversal.Elements(s) == Traversal.Elements(s[..n]) + {s[n]};
    }
  }

  lemma ThreeInOrder(s: seq<nat>)
    requires s != [] && s[0] == 0 && 1 in s && 2 in s && (|s| > 1 ==> s[1] != 1)
    requires NoRepeats(s) && forall i :: 0 <= i < |s| ==> s[i] < 3
    ensures s == [0, 2, 1]
  {
    assert Traversal.Elements(s) == {0, 1, 2};
    DistinctSize(s);
  }

  /** The order is 0, 2, 1. */
  lemma SampleOrder(reachable: seq<bool>)
    requires EmissionOrder.Marked(SampleGraph(), [0], reachable)
    ensures EmissionOrder.EmissionOrder(SampleGraph(), [], reachable) == [0, 2, 1]
  {
    PrintsRpo(SampleGraph(), reachable);
    SampleLists();
    SampleLater();
    ThreeInOrder(Traversal.Rpo(SampleGraph(), 0));
  }

  lemma SampleLists()
    ensures var rpo := Traversal.Rpo(SampleGraph(), 0);
      && rpo != [] && rpo[0] == 0 && 1 in rpo && 2 in rpo
      && NoRepeats(rpo) && forall i :: 0 <= i < |rpo| ==> rpo[i] < 3
  {
    var rpo := Traversal.Rpo(SampleGraph(), 0);
    Traversal.RpoTheorem(SampleGraph(), 0);
    SampleReaches();
    assert Reaches(SampleGraph(), 0, 1) && Reaches(SampleGraph(), 0, 2);
    forall i | 0 <= i < |rpo|
      ensures rpo[i] < 3
    {
      assert rpo[i] in rpo;
    }
  }

  lemma SampleLater()
    ensures var rpo := Traversal.Rpo(SampleGraph(), 0); |rpo| > 1 ==> rpo[1] != 1
  {
    var g := SampleGraph();
    var rpo := Traversal.Rpo(g, 0);
    SampleAcyclic();
    SampleEdges(0, 2);
    SampleEdges(2, 1);
    ReachesSelf(g, 0);
    ReachesSelf(g, 2);
    ReachesStep(g, 2, 2, 1);
    JoinComesLater(g, 0, 2, 1);
    if |rpo| > 1 { Traversal.PosUnique(g, 0, 1); }
  }

  /** The text of the method. */
  function SampleText(): seq<Stmt> {
    [Label(0), IfGoto(Cmp(Ne, A, Const(0, Int)), 2), UnreachedEdge(1), Label(2), Assign(A, Const(1, Int)), Label(1),
      Return(Some(A))]
  }

  lemma SamplePrinted(order: seq<nat>, results: seq<BlockResult>)
    requires order == [0, 2, 1] && results == Sample()
    ensures Ordered(order, results) && Printed(order, results) == SampleText()
  {
    assert Text(order, results, 0) == [Label(0), IfGoto(Cmp(Ne, A, Const(0, Int)), 2), UnreachedEdge(1)] by {
      assert Unreached([2, 1], 1) == [];
      assert Unreached([2, 1], 2) == [UnreachedEdge(1)];
    }
    assert Text(order, results, 1) == [Label(2), Assign(A, Const(1, Int))];
    assert Text(order, results, 2) == [Label(1), Return(Some(A))];
    var texts := Texts(order, results, 3);
    TextsAt(order, results, 3, 0);
    TextsAt(order, results, 3, 1);
    TextsAt(order, results, 3, 2);
    assert Joined(texts, 0) == [];
    assert Joined(texts, 1) == texts[0];
    assert Joined(texts, 2) == texts[0] + texts[1];
  }

  lemma Goes(prog: seq<Stmt>, s: Labels.State, n: nat, t: Labels.State, u: Labels.State)
    requires Labels.Run(prog, s, n) == t && Labels.Step(prog, t) == u
    ensures Labels.Run(prog, s, n + 1) == u
  {
  }

  /** For the argument 0 the blocks return 0 and the text returns 1. */
  lemma PrintedWrong(env: Env, reachable: seq<bool>)
    requires Get(env, "a") == 0 && EmissionOrder.Marked(SampleGraph(), [0], reachable)
    ensures RunMeaning.EmittedRun(Sample(), env, 2) == RunMeaning.Gave(Some(0))
    ensures var order := EmissionOrder.EmissionOrder(SampleGraph(), [], reachable);
      Ordered(order, Sample()) && Labels.Yields(Printed(order, Sample()), env, Labels.Gave(Some(1)))
  {
    SampleOrder(reachable);
    SamplePrinted([0, 2, 1], Sample());
    SampleBlocks(env);
    SampleRun(env, SampleText());
  }

  lemma SampleBlocks(env: Env)
    requires Get(env, "a") == 0
    ensures RunMeaning.EmittedRun(Sample(), env, 2) == RunMeaning.Gave(Some(0))
  {
    var test := Cmp(Ne, A, Const(0, Int));
    assert Eval(A, env) == Some(0) && Eval(Const(0, Int), env) == Some(0);
    assert Eval(test, env) == Some(0);
    assert RunMeaning.Choice(Some(test), env) == Some(Some(false));
    assert RunMeaning.NextBlock([2, 1], Some(false)) == Some(1);
    assert RunMeaning.EmittedStep(Sample(), RunMeaning.In(0, env)) == RunMeaning.In(1, env);
    ExecAppend([], Return(Some(A)), env);
    assert [] + [Return(Some(A))] == [Return(Some(A))];
    assert Exec([Return(Some(A))], env) == Returned(Some(0));
    assert RunMeaning.EmittedStep(Sample(), RunMeaning.In(1, env)) == RunMeaning.Gave(Some(0));
    assert RunMeaning.EmittedRun(Sample(), env, 0) == RunMeaning.In(0, env);
    assert RunMeaning.EmittedRun(Sample(), env, 1) == RunMeaning.In(1, env);
  }

  lemma SampleRun(env: Env, prog: seq<Stmt>)
    requires Get(env, "a") == 0 && prog == SampleText()
    ensures Labels.Yields(prog, env, Labels.Gave(Some(1)))
  {
    var start, env' := Labels.At(0, env), env["a" := 1];
    assert Labels.Run(prog, start, 0) == start;
    Goes(prog, start, 0, start, Labels.At(1, env));
    assert Eval(Cmp(Ne, A, Const(0, Int)), env) == Some(0);
    Goes(prog, start, 1, Labels.At(1, env), Labels.At(2, env));
    Goes(prog, start, 2, Labels.At(2, env), Labels.At(3, env));
    Goes(prog, start, 3, Labels.At(3, env), Labels.At(4, env));
    assert Eval(Const(1, Int), env) == Some(1);
    Goes(prog, start, 4, Labels.At(4, env), Labels.At(5, env'));
    Goes(prog, start, 5, Labels.At(5, env'), Labels.At(6, env'));
    assert Eval(A, env') == Some(1);
    Goes(prog, start, 6, Labels.At(6, env'), Labels.Gave(Some(1)));
  }
}
