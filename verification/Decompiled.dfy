/** The whole way: from bytecode to printed statements, and what the passes leave of them. */
module Decompiled {
  import opened Results
  import opened Graph
  import opened EmissionOrder
  import opened MethodEmulation
  import opened RunMeaning
  import opened LinearCode
  import Pipeline
  import Cfg
  import Labels
  import Ir
  import Emulation
  import BlockMeaning
  import Completion
  import FallThrough
  import Increments
  import Traversal
  import Tails
  import Jvm

  // ----- what is emitted has no labels and no jumps of its own -----------------------------------

  lemma StraightAppend(a: seq<Ir.Stmt>, b: seq<Ir.Stmt>)
    requires Straight(a) && Straight(b)
    ensures Straight(a + b)
  {
  }

  lemma EmulateStraight(sem: Jvm.Sem, infos: seq<Emulation.LocalInfo>, e: Emulation.Emu)
    requires Jvm.Fits(sem, |infos|) && Emulation.Emulate(sem, infos, e).Ok? && Straight(e.stmts)
    ensures Straight(Emulation.Emulate(sem, infos, e).value.stmts)
  {
  }

  lemma {:induction false} CodeStraight(code: seq<Jvm.Sem>, infos: seq<Emulation.LocalInfo>, e: Emulation.Emu)
    requires Emulation.AllFit(code, |infos|) && Emulation.EmulateAll(code, infos, e).Ok? && Straight(e.stmts)
    ensures Straight(Emulation.EmulateAll(code, infos, e).value.stmts)
  {
    if code != [] {
      var n := |code| - 1;
      CodeStraight(code[..n], infos, e);
      EmulateStraight(code[n], infos, Emulation.EmulateAll(code[..n], infos, e).value);
    }
  }

  lemma {:induction false} AssignsStraight(infos: seq<Emulation.LocalInfo>, temps: seq<nat>, leftover: seq<Ir.Expr>,
                                           k: nat)
    requires k <= |temps| == |leftover| && InRange(temps, 0, |infos|)
    ensures Straight(Assigns(infos, temps, leftover, k))
  {
    if k > 0 { AssignsStraight(infos, temps, leftover, k - 1); }
  }

  lemma {:induction false} SpillsStraight(g: Graph, infos: seq<Emulation.LocalInfo>, incoming: seq<Option<seq<nat>>>,
                                          b: nat, leftover: seq<Ir.Expr>, succs: seq<nat>, k: nat)
    requires AllInRange(incoming, 0, |infos|) && k <= |succs|
    ensures Straight(Spills(g, infos, incoming, b, leftover, succs, k))
  {
    if k > 0 {
      var s := succs[k - 1];
      SpillsStraight(g, infos, incoming, b, leftover, succs, k - 1);
      if s < |incoming| && !Handed(g, b, s) && incoming[s].Some? && |incoming[s].value| == |leftover| {
        AssignsStraight(infos, incoming[s].value, leftover, |leftover|);
      }
      StraightAppend(Spills(g, infos, incoming, b, leftover, succs, k - 1),
        SpillTo(g, infos, incoming, b, leftover, s));
    }
  }

  lemma BlockStraight(m: Emission, b: nat)
    requires Certified(m) && b < m.body.g.Size() && m.reachable[b]
    ensures Straight(m.results[b].stmts)
  {
    EdgeDepths(m, b);
    var succs := m.body.g.succs[b];
    CodeStraight(m.body.code[b], m.base, Emulation.Emu(EntryStack(m, b), [], None));
    SpillsStraight(m.body.g, m.infos, m.joins.incoming, b, m.results[b].leftover, succs, |succs|);
    var said := Emulation.EmulateAll(m.body.code[b], m.base, Emulation.Emu(EntryStack(m, b), [], None)).value.stmts;
    StraightAppend(said, if m.results[b].leftover == [] then []
      else Spills(m.body.g, m.infos, m.joins.incoming, b, m.results[b].leftover, succs, |succs|));
  }

  // ----- the printing order ------------------------------------------------------------------------

  function PrintOrder(m: Emission): seq<nat> { EmissionOrder.EmissionOrder(m.body.g, [], m.reachable) }

  lemma {:induction false} EmitKeeps(s: seq<nat>, reachable: seq<bool>, out: seq<nat>)
    ensures out <= Emit(s, reachable, out)
    decreases s
  {
    if s != [] {
      EmitKeeps(s[1..], reachable, if s[0] < |reachable| && reachable[s[0]] && s[0] !in out then out + [s[0]] else out);
    }
  }

  lemma EntryFirst(g: Graph, reachable: seq<bool>)
    requires g.Size() > 0 && |reachable| == g.Size() && reachable[0]
    ensures [0] <= Emit(AllRpos(g, [0]), reachable, [])
  {
    Traversal.RpoTheorem(g, 0);
    var all := AllRpos(g, [0]);
    assert all != [] && all[0] == 0;
    EmitKeeps(all[1..], reachable, [0]);
    assert [] + [0] == [0];
  }

  lemma EntryReachable(g: Graph, reachable: seq<bool>)
    requires g.Size() > 0 && EmissionOrder.Marked(g, [0], reachable)
    ensures reachable[0]
  {
    ReachesSelf(g, 0);
    assert 0 in [0];
  }

  lemma OrderIsGood(m: Emission)
    requires Certified(m)
    ensures var order := PrintOrder(m);
      && order != [] && order[0] == 0 && NoRepeats(order)
      && forall b: nat :: b in order <==> b < |m.reachable| && m.reachable[b]
  {
    assert Roots([]) == [0] + [] == [0];
    EmissionTheorem(m.body.g, [], m.reachable);
    EntryReachable(m.body.g, m.reachable);
    EntryFirst(m.body.g, m.reachable);
  }

  lemma WellPrintedOrder(m: Emission)
    requires Certified(m)
    ensures WellPrinted(PrintOrder(m), m.results)
  {
    var order := PrintOrder(m);
    OrderIsGood(m);
    forall i | 0 <= i < |order|
      ensures order[i] < |m.results| && m.reachable[order[i]]
    {
      assert order[i] in order;
    }
    forall i | 0 <= i < |order|
      ensures Straight(m.results[order[i]].stmts)
    {
      BlockStraight(m, order[i]);
    }
  }

  // ----- bytecode to text ----------------------------------------------------------------------------

  /** The blocks go on exactly as the bytecode does. */
  lemma NeverLost(code: Pipeline.Code, cfg: Cfg.Cfg, m: Emission, locals: seq<int>, env: Ir.Env, k: nat)
    requires Pipeline.Verified(code) && Pipeline.BodyOf(code, cfg, m.body) && Certified(m) && Careful(m)
    requires |locals| == |m.base| && BlockMeaning.Agree(m.infos, locals, env)
    requires forall n: nat ::
      var p := Pipeline.PcSteps(code, Pipeline.Here(0, locals, []), n); p.Here? || p.Done?
    ensures !EmittedRun(m.results, env, k).Raised? && !EmittedRun(m.results, env, k).Nowhere?
  {
    var n := Pipeline.BlocksAreSteps(code, cfg, m.body, locals, k);
    assert Pipeline.PcSteps(code, Pipeline.Here(0, locals, []), n).Here?
      || Pipeline.PcSteps(code, Pipeline.Here(0, locals, []), n).Done?;
    RunsAgree(m, locals, env, k);
  }

  /** The printed method, labels and jumps cleaned up, returns exactly what the bytecode
      returns: for verified bytecode that neither throws nor gets stuck, emulated carefully,
      whose two-way blocks are printed before the block they fall into. */
  lemma TextReturns(code: Pipeline.Code, cfg: Cfg.Cfg, m: Emission, locals: seq<int>, env: Ir.Env, value: Option<int>)
    requires Pipeline.Verified(code) && Pipeline.BodyOf(code, cfg, m.body) && Certified(m) && Careful(m)
    requires |locals| == |m.base| && BlockMeaning.Agree(m.infos, locals, env)
    requires AllFollowable(PrintOrder(m), m.results)
    requires forall n: nat ::
      var p := Pipeline.PcSteps(code, Pipeline.Here(0, locals, []), n); p.Here? || p.Done?
    ensures Labels.Yields(Labels.Elide(Printed(PrintOrder(m), m.results), 16), env, Labels.Gave(value)) <==>
            exists n: nat :: Pipeline.PcSteps(code, Pipeline.Here(0, locals, []), n) == Pipeline.Done(value)
  {
    var order := PrintOrder(m);
    WellPrintedOrder(m);
    OrderIsGood(m);
    forall k: nat
      ensures !EmittedRun(m.results, env, k).Raised? && !EmittedRun(m.results, env, k).Nowhere?
    {
      NeverLost(code, cfg, m, locals, env, k);
    }
    PrintedReturns(order, m.results, env, value);
    Pipeline.DecompiledReturns(code, cfg, m, locals, env, value);
    TextsHeaded(order, m.results);
    LabelsUnique(Texts(order, m.results, |order|), order);
    Labels.ElideKeeps(Printed(order, m.results), 16);
  }

  // ----- methods whose branches are printed right ----------------------------------------------------

  /** No other edge leads to the second successor of a branch, and it is not the entry. */
  ghost predicate BranchesApart(g: Graph, reachable: seq<bool>) {
    forall b :: 0 <= b < |reachable| && reachable[b] ==> BranchApart(g, b)
  }

  ghost predicate BranchApart(g: Graph, b: nat) {
    b < g.Size() && |g.succs[b]| == 2 ==> g.succs[b][1] != 0 && Handed(g, b, g.succs[b][1])
  }

  lemma SecondIsTail(g: Graph, b: nat)
    requires WellFormed(g) && b < g.Size() && |g.succs[b]| == 2 && NoRepeats(g.succs[b]) && BranchApart(g, b)
    ensures Tails.Tail(g, 0, b, g.succs[b][1])
  {
    var t := g.succs[b][1];
    assert g.succs[b][..1] == [g.succs[b][0]];
    forall a | Edge(g, a, t)
      ensures a == b
    {
      assert a in g.preds[t];
    }
  }

  /** The block behind such a branch in the printing order is the one its second edge leads to. */
  lemma SecondIsNext(m: Emission, i: nat)
    requires Certified(m) && i < |PrintOrder(m)| && PrintOrder(m)[i] < m.body.g.Size()
    requires |m.body.g.succs[PrintOrder(m)[i]]| == 2 && BranchApart(m.body.g, PrintOrder(m)[i])
    ensures NextOf(PrintOrder(m), i) == Some(m.body.g.succs[PrintOrder(m)[i]][1])
  {
    var g, b := m.body.g, PrintOrder(m)[i];
    FallThrough.PrintsRpo(g, m.reachable);
    SecondIsTail(g, b);
    Tails.TailIsNext(g, 0, i, g.succs[b][1]);
  }

  lemma ReturnEnds(stmts: seq<Ir.Stmt>, s: Ir.Stmt)
    requires s.Return?
    ensures Ends(stmts + [s])
  {
  }

  /** The last instruction of a block as the emulator leaves it. */
  lemma LastEmulated(code: seq<Jvm.Sem>, infos: seq<Emulation.LocalInfo>, e: Emulation.Emu)
    requires Emulation.AllFit(code, |infos|) && code != [] && Emulation.EmulateAll(code, infos, e).Ok?
    ensures var (out, last) := (Emulation.EmulateAll(code, infos, e).value, code[|code| - 1]);
      && (last.Return? ==> Ends(out.stmts)) && (last.If? || last.IfCmp? ==> out.cond.Some?)
  {
    var n := |code| - 1;
    var before := Emulation.EmulateAll(code[..n], infos, e).value;
    if code[n].Return? {
      var out := Emulation.Emulate(code[n], infos, before).value;
      ReturnEnds(before.stmts, out.stmts[|out.stmts| - 1]);
    }
  }

  /** How the last instruction of a block leaves it. */
  lemma LastLeaves(code: Pipeline.Code, cfg: Cfg.Cfg, m: Emission, b: nat)
    requires Pipeline.Verified(code) && Pipeline.BodyOf(code, cfg, m.body) && Certified(m)
    requires b < m.body.g.Size() && m.reachable[b]
    ensures m.results[b].targets == m.body.g.succs[b] && |m.body.g.succs[b]| <= 2
    ensures m.body.g.succs[b] == [] ==> Ends(m.results[b].stmts)
    ensures |m.body.g.succs[b]| == 2 ==> m.results[b].cond.Some?
  {
    EdgeDepths(m, b);
    assert Pipeline.SliceAt(code, cfg, m.body, b);
    var slice := m.body.code[b];
    var i := cfg.blocks[b].last - 1;
    assert slice[|slice| - 1] == code.sems[i];
    LastEmulated(slice, m.base, Emulation.Emu(EntryStack(m, b), [], None));
    var flow := code.insns[i].flow;
    assert Pipeline.SameFlow(code.sems[i], flow);
    if flow.Next? {
      Pipeline.EndsGoing(code, cfg, b);
    } else if flow.Jump? {
      var s := Pipeline.EndsJumping(code, cfg, b);
    } else if flow.Cond? {
      var s := Pipeline.EndsBranching(code, cfg, b);
    } else {
      Pipeline.EndsStopping(code, cfg, b);
      var said := Emulation.EmulateAll(slice, m.base, Emulation.Emu(EntryStack(m, b), [], None)).value.stmts;
      assert said + [] == said;
    }
  }

  /** A condition on the graph alone under which every edge can be followed in the text. */
  lemma GraphFollowable(code: Pipeline.Code, cfg: Cfg.Cfg, m: Emission)
    requires Pipeline.Verified(code) && Pipeline.BodyOf(code, cfg, m.body) && Certified(m)
    requires BranchesApart(m.body.g, m.reachable)
    ensures AllFollowable(PrintOrder(m), m.results)
  {
    var order := PrintOrder(m);
    OrderIsGood(m);
    WellPrintedOrder(m);
    forall i | 0 <= i < |order|
      ensures Followable(order, m.results, i)
    {
      var b := order[i];
      assert b in order;
      LastLeaves(code, cfg, m, b);
      forall s | s in m.body.g.succs[b]
        ensures s in order
      {
        Successor(m, b, s);
      }
      if |m.body.g.succs[b]| == 2 {
        assert BranchApart(m.body.g, b);
        SecondIsNext(m, i);
      }
    }
  }

  // ----- with the passes ------------------------------------------------------------------------------

  /** The text as the passes leave it: without a trailing `return`, with folded increments, and
      without idle labels and jumps. */
  function Optimised(text: seq<Ir.Stmt>): seq<Ir.Stmt> {
    var q := Completion.Stripped(text);
    Labels.Elide(Increments.Folded(q, |q|), 16)
  }

  /** From bytecode to optimised text: for verified bytecode that neither throws nor gets stuck,
      emulated carefully, and whose branches are apart, the text completes with exactly the values
      the bytecode returns. */
  lemma OptimisedReturns(code: Pipeline.Code, cfg: Cfg.Cfg, m: Emission, locals: seq<int>, env: Ir.Env,
                         value: Option<int>)
    requires Pipeline.Verified(code) && Pipeline.BodyOf(code, cfg, m.body) && Certified(m) && Careful(m)
    requires |locals| == |m.base| && BlockMeaning.Agree(m.infos, locals, env)
    requires BranchesApart(m.body.g, m.reachable) && Ordered(PrintOrder(m), m.results)
    requires Completion.Foldable(Printed(PrintOrder(m), m.results))
    requires forall n: nat ::
      var p := Pipeline.PcSteps(code, Pipeline.Here(0, locals, []), n); p.Here? || p.Done?
    ensures Completion.Completes(Optimised(Printed(PrintOrder(m), m.results)), env, value) <==>
            exists n: nat :: Pipeline.PcSteps(code, Pipeline.Here(0, locals, []), n) == Pipeline.Done(value)
  {
    var order := PrintOrder(m);
    var text := Printed(order, m.results);
    GraphFollowable(code, cfg, m);
    WellPrintedOrder(m);
    OrderIsGood(m);
    TextsHeaded(order, m.results);
    LabelsUnique(Texts(order, m.results, |order|), order);
    TextReturns(code, cfg, m, locals, env, value);
    Labels.ElideKeeps(text, 16);
    TextStaysOn(code, cfg, m, locals, env);
    Completion.PassesComplete(text, env, value);
  }

  lemma TextStaysOn(code: Pipeline.Code, cfg: Cfg.Cfg, m: Emission, locals: seq<int>, env: Ir.Env)
    requires Pipeline.Verified(code) && Pipeline.BodyOf(code, cfg, m.body) && Certified(m) && Careful(m)
    requires |locals| == |m.base| && BlockMeaning.Agree(m.infos, locals, env)
    requires AllFollowable(PrintOrder(m), m.results)
    requires forall n: nat ::
      var p := Pipeline.PcSteps(code, Pipeline.Here(0, locals, []), n); p.Here? || p.Done?
    ensures forall env' :: !Labels.Yields(Printed(PrintOrder(m), m.results), env, Labels.FellOff(env'))
  {
    WellPrintedOrder(m);
    OrderIsGood(m);
    forall k: nat
      ensures !EmittedRun(m.results, env, k).Raised? && !EmittedRun(m.results, env, k).Nowhere?
    {
      NeverLost(code, cfg, m, locals, env, k);
    }
    forall env'
      ensures !Labels.Yields(Printed(PrintOrder(m), m.results), env, Labels.FellOff(env'))
    {
      NeverFallsOff(PrintOrder(m), m.results, env, env');
    }
  }
}
