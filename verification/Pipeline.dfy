/** From the instruction stream to the emitted statements: the code of a method, run one
    instruction at a time, and what the decompiler emitted for it, run block by block. */
module Pipeline {
  import opened Results
  import opened Graph
  import opened Cfg
  import opened CfgMeaning
  import opened MethodEmulation
  import opened RunMeaning
  import Ir
  import Emulation
  import BlockMeaning
  import Widths
  import Jvm

  /** Decoded code: for each instruction its place and flow, and what it computes. */
  datatype Code = Code(insns: seq<Insn>, sems: seq<Jvm.Sem>, codeLen: nat)

  predicate SameFlow(sem: Jvm.Sem, flow: Flow) {
    match sem
    case If(_) => flow.Cond?
    case IfCmp(_) => flow.Cond?
    case Goto => flow.Jump?
    case Return(_) => flow.Stop?
    case _ => flow.Next?
  }

  /** Code the verifier accepts: whole instructions, jumps to instructions, and no falling
      off the end. */
  ghost predicate Verified(code: Code) {
    && code.codeLen > 0 && |code.insns| == |code.sems|
    && ValidCode(code.insns, code.codeLen, [])
    && (forall i :: 0 <= i < |code.insns| ==> SameFlow(code.sems[i], code.insns[i].flow))
    && var flow := code.insns[|code.insns| - 1].flow; (flow.Jump? || flow.Stop?)
  }

  // ----- one instruction at a time ------------------------------------------------------------

  datatype Pc =
    | Here(index: nat, locals: seq<int>, stack: seq<int>)
    | Done(value: Option<int>)
    | Thrown
    | Off

  /** The instruction at an offset. */
  function IndexAt(insns: seq<Insn>, o: nat): (r: Option<nat>)
    ensures r.Some? ==> r.value < |insns| && insns[r.value].off == o
    ensures r.None? ==> forall i :: 0 <= i < |insns| ==> insns[i].off != o
  {
    if insns == [] then None
    else
      var n := |insns| - 1;
      if insns[n].off == o then Some(n) else IndexAt(insns[..n], o)
  }

  function NextIndex(code: Code, i: nat, taken: Option<bool>): Option<nat>
    requires i < |code.insns|
  {
    match code.insns[i].flow
    case Next => if i + 1 < |code.insns| then Some(i + 1) else None
    case Jump(t) => IndexAt(code.insns, t)
    case Cond(t) =>
      if taken == Some(true) then IndexAt(code.insns, t)
      else if i + 1 < |code.insns| then Some(i + 1) else None
    case _ => None
  }

  /** Where control stands after instruction `i`. */
  function AfterInsn(code: Code, i: nat, m: Jvm.Machine): Pc
    requires i < |code.insns|
  {
    match m
    case Running(l, s, taken) =>
      (match NextIndex(code, i, taken)
       case Some(j) => Here(j, l, s)
       case None => Off)
    case Finished(value) => Done(value)
    case Faulted => Thrown
    case Stuck => Off
  }

  function PcStep(code: Code, p: Pc): Pc
    requires |code.insns| == |code.sems|
  {
    match p
    case Here(i, locals, stack) =>
      if i >= |code.insns| then Off else AfterInsn(code, i, Jvm.Step(code.sems[i], Jvm.Running(locals, stack, None)))
    case other => other
  }

  /** `n` steps from `p`. */
  function PcSteps(code: Code, p: Pc, n: nat): Pc
    requires |code.insns| == |code.sems|
  {
    if n == 0 then p else PcStep(code, PcSteps(code, p, n - 1))
  }

  lemma PcStepsMore(code: Code, p: Pc, n: nat)
    requires |code.insns| == |code.sems| && n > 0
    ensures PcSteps(code, p, n) == PcStep(code, PcSteps(code, p, n - 1))
  {
  }

  lemma {:induction false} PcStepsSum(code: Code, p: Pc, m: nat, n: nat, sum: nat)
    requires |code.insns| == |code.sems| && sum == m + n
    ensures PcSteps(code, p, sum) == PcSteps(code, PcSteps(code, p, m), n)
    decreases n
  {
    if n == 0 {
      assert sum == m;
    } else {
      PcStepsSum(code, p, m, n - 1, sum - 1);
      PcStepsMore(code, p, sum);
      PcStepsMore(code, PcSteps(code, p, m), n);
    }
  }

  lemma {:induction false} PcStays(code: Code, p: Pc, n: nat)
    requires |code.insns| == |code.sems| && !p.Here?
    ensures PcSteps(code, p, n) == p
  {
    if n > 0 { PcStays(code, p, n - 1); }
  }

  // ----- the blocks of the code -----------------------------------------------------------------

  /** The body the emulator works on: each block's slice of the instructions. */
  ghost predicate BodyOf(code: Code, cfg: Cfg, body: Body) {
    && Built(code.insns, code.codeLen, [], cfg)
    && body.g == cfg.g && |body.code| == |cfg.blocks|
    && forall b :: 0 <= b < |cfg.blocks| ==> SliceAt(code, cfg, body, b)
  }

  ghost predicate SliceAt(code: Code, cfg: Cfg, body: Body, b: nat) {
    && b < |cfg.blocks| == |body.code|
    && cfg.blocks[b].first < cfg.blocks[b].last <= |code.sems|
    && body.code[b] == code.sems[cfg.blocks[b].first..cfg.blocks[b].last]
  }

  /** The same outcome, seen by the instruction and by the block. */
  ghost predicate SamePlace(cfg: Cfg, c: Config, p: Pc) {
    match c
    case At(b, locals, stack) => b < |cfg.blocks| && p == Here(cfg.blocks[b].first, locals, stack)
    case Ended(value) => p == Done(value)
    case Crashed => p == Thrown
    case Lost => p == Off
  }

  function PcOf(m: Jvm.Machine, i: nat): Pc {
    match m
    case Running(l, s, _) => Here(i, l, s)
    case Finished(value) => Done(value)
    case Faulted => Thrown
    case Stuck => Off
  }

  /** One instruction that only goes on. */
  lemma OneInside(code: Code, i: nat, m: Jvm.Machine)
    requires |code.insns| == |code.sems| && i + 1 < |code.insns| && code.insns[i].flow.Next?
      && SameFlow(code.sems[i], code.insns[i].flow)
    requires m.Running? && m.taken.None?
    ensures PcStep(code, Here(i, m.locals, m.stack)) == PcOf(Jvm.Step(code.sems[i], m), i + 1)
    ensures Jvm.Step(code.sems[i], m).Running? ==> Jvm.Step(code.sems[i], m).taken.None?
  {
  }

  /** The instructions from `first` to before `last` follow one another. */
  ghost predicate Straight(code: Code, first: nat, last: nat) {
    && |code.insns| == |code.sems| && first < last <= |code.sems|
    && forall i :: first <= i < last - 1 ==> code.insns[i].flow.Next? && SameFlow(code.sems[i], code.insns[i].flow)
  }

  lemma OneStraight(code: Code, i: nat, before: Jvm.Machine, after: Jvm.Machine)
    requires |code.insns| == |code.sems| && i + 1 < |code.insns| && code.insns[i].flow.Next?
      && SameFlow(code.sems[i], code.insns[i].flow)
    requires before.Running? ==> before.taken.None?
    requires after == if before.Running? then Jvm.Step(code.sems[i], before) else before
    ensures PcStep(code, PcOf(before, i)) == PcOf(after, i + 1)
    ensures after.Running? ==> after.taken.None?
  {
    if before.Running? { OneInside(code, i, before); }
  }

  /** Before its last instruction a block runs straight on. */
  ghost predicate Inside(code: Code, first: nat, start: Jvm.Machine, m: nat, r: Jvm.Machine)
    requires |code.insns| == |code.sems|
  {
    PcSteps(code, PcOf(start, first), m) == PcOf(r, first + m) && (r.Running? ==> r.taken.None?)
  }

  lemma InsideMore(code: Code, first: nat, start: Jvm.Machine, m: nat, before: Jvm.Machine, after: Jvm.Machine)
    requires |code.insns| == |code.sems| && first + m + 1 < |code.insns| && Inside(code, first, start, m, before)
    requires code.insns[first + m].flow.Next? && SameFlow(code.sems[first + m], code.insns[first + m].flow)
    requires after == if before.Running? then Jvm.Step(code.sems[first + m], before) else before
    ensures Inside(code, first, start, m + 1, after)
  {
    PcStepsMore(code, PcOf(start, first), m + 1);
    OneStraight(code, first + m, before, after);
    assert PcSteps(code, PcOf(start, first), m + 1) == PcOf(after, first + m + 1);
  }

  /** `sems` stands at `first`, and each of its instructions only goes on. */
  ghost predicate Along(code: Code, sems: seq<Jvm.Sem>, first: nat) {
    && |code.insns| == |code.sems| && first + |sems| < |code.sems|
    && forall i :: 0 <= i < |sems| ==> AlongAt(code, sems, first, i)
  }

  ghost predicate AlongAt(code: Code, sems: seq<Jvm.Sem>, first: nat, i: nat) {
    && i < |sems| && first + i < |code.insns| == |code.sems| && sems[i] == code.sems[first + i]
    && code.insns[first + i].flow.Next? && SameFlow(sems[i], code.insns[first + i].flow)
  }

  lemma AlongPrefix(code: Code, sems: seq<Jvm.Sem>, first: nat)
    requires Along(code, sems, first) && sems != []
    ensures Along(code, sems[..|sems| - 1], first)
  {
    var inner := sems[..|sems| - 1];
    forall i: nat | i < |inner|
      ensures AlongAt(code, inner, first, i)
    {
      assert AlongAt(code, sems, first, i);
    }
  }

  lemma {:induction false} InsideBlock(code: Code, sems: seq<Jvm.Sem>, first: nat, start: Jvm.Machine)
    requires Along(code, sems, first) && start.Running? && start.taken.None?
    ensures Inside(code, first, start, |sems|, Jvm.Steps(sems, start))
    decreases |sems|
  {
    if sems != [] {
      var n := |sems| - 1;
      AlongPrefix(code, sems, first);
      InsideBlock(code, sems[..n], first, start);
      assert AlongAt(code, sems, first, n);
      InsideMore(code, first, start, n, Jvm.Steps(sems[..n], start), Jvm.Steps(sems, start));
    }
  }

  lemma StraightAlong(code: Code, sems: seq<Jvm.Sem>, first: nat, last: nat)
    requires Straight(code, first, last) && sems == code.sems[first..last]
    ensures Along(code, sems[..|sems| - 1], first)
  {
    var inner := sems[..|sems| - 1];
    forall i: nat | i < |inner|
      ensures AlongAt(code, inner, first, i)
    {
      assert inner[i] == code.sems[first + i];
    }
  }

  lemma BlockIsStraight(code: Code, cfg: Cfg, b: nat)
    requires Verified(code) && Built(code.insns, code.codeLen, [], cfg) && b < |cfg.blocks|
    ensures Straight(code, cfg.blocks[b].first, cfg.blocks[b].last)
  {
    BlockStarts(code.insns, code.codeLen, [], cfg, b);
    forall i | cfg.blocks[b].first <= i < cfg.blocks[b].last - 1
      ensures code.insns[i].flow.Next? && SameFlow(code.sems[i], code.insns[i].flow)
    {
      GoesOn(code.insns, code.codeLen, [], cfg, b, i);
    }
  }

  lemma IndexFound(insns: seq<Insn>, i: nat)
    requires OffsetsAscend(insns) && i < |insns|
    ensures IndexAt(insns, insns[i].off) == Some(i)
  {
    var r := IndexAt(insns, insns[i].off);
    SameOffset(insns, r.value, i);
  }

  lemma BlockWith(code: Code, cfg: Cfg, i: nat, o: nat) returns (s: nat)
    requires Verified(code) && Built(code.insns, code.codeLen, [], cfg) && i < |code.insns|
      && o in Targets(code.insns[i].flow)
    ensures s < |cfg.blocks| && cfg.blocks[s].start == o && IndexAt(code.insns, o) == Some(cfg.blocks[s].first)
    ensures Find(Starts(cfg.blocks), o) == Some(s)
  {
    assert IsOffset(code.insns, o);
    var j :| 0 <= j < |code.insns| && code.insns[j].off == o;
    ContiguousOffsetsAscend(code.insns, code.codeLen);
    s := JumpTarget(code.insns, code.codeLen, [], cfg, i, j);
    IndexFound(code.insns, j);
    Found(Starts(cfg.blocks), o, s);
  }

  lemma OneSuccessor(leaders: seq<nat>, flow: Flow, end: nat, s: nat)
    requires Ascending(leaders) && s < |leaders|
    requires (flow.Next? && leaders[s] == end) || (flow.Jump? && leaders[s] == flow.target)
    ensures SuccsOf(leaders, Some(flow), end) == [s]
  {
    Found(leaders, leaders[s], s);
  }

  lemma TwoSuccessors(leaders: seq<nat>, t: nat, end: nat, s: nat, f: nat)
    requires Ascending(leaders) && s < |leaders| && f < |leaders| && leaders[s] == t && leaders[f] == end
    ensures SuccsOf(leaders, Some(Cond(t)), end) == if s == f then [s] else [s, f]
  {
    Found(leaders, t, s);
    Found(leaders, end, f);
  }

  /** Block `b` ends with an instruction that goes on... */
  lemma EndsGoing(code: Code, cfg: Cfg, b: nat)
    requires Verified(code) && Built(code.insns, code.codeLen, [], cfg) && b < |cfg.blocks|
    requires 0 < cfg.blocks[b].last <= |code.insns| && code.insns[cfg.blocks[b].last - 1].flow.Next?
    ensures b + 1 < |cfg.blocks| && cfg.blocks[b + 1].first == cfg.blocks[b].last < |code.insns|
    ensures b < |cfg.g.succs| && cfg.g.succs[b] == [b + 1]
  {
    NextInLine(code.insns, code.codeLen, [], cfg, b);
    assert HasEdges(code.insns, cfg, b);
    BlockStarts(code.insns, code.codeLen, [], cfg, b);
    OneSuccessor(Starts(cfg.blocks), Next, cfg.blocks[b].end, b + 1);
  }

  /** ...or with a jump... */
  lemma EndsJumping(code: Code, cfg: Cfg, b: nat) returns (s: nat)
    requires Verified(code) && Built(code.insns, code.codeLen, [], cfg) && b < |cfg.blocks|
    requires 0 < cfg.blocks[b].last <= |code.insns| && code.insns[cfg.blocks[b].last - 1].flow.Jump?
    ensures s < |cfg.blocks|
      && IndexAt(code.insns, code.insns[cfg.blocks[b].last - 1].flow.target) == Some(cfg.blocks[s].first)
    ensures b < |cfg.g.succs| && cfg.g.succs[b] == [s]
  {
    var flow := code.insns[cfg.blocks[b].last - 1].flow;
    s := BlockWith(code, cfg, cfg.blocks[b].last - 1, flow.target);
    assert HasEdges(code.insns, cfg, b);
    BlockStarts(code.insns, code.codeLen, [], cfg, b);
    OneSuccessor(Starts(cfg.blocks), flow, cfg.blocks[b].end, s);
  }

  /** ...or with a branch. */
  lemma EndsBranching(code: Code, cfg: Cfg, b: nat) returns (s: nat)
    requires Verified(code) && Built(code.insns, code.codeLen, [], cfg) && b < |cfg.blocks|
    requires 0 < cfg.blocks[b].last <= |code.insns| && code.insns[cfg.blocks[b].last - 1].flow.Cond?
    ensures s < |cfg.blocks|
      && IndexAt(code.insns, code.insns[cfg.blocks[b].last - 1].flow.target) == Some(cfg.blocks[s].first)
    ensures b + 1 < |cfg.blocks| && cfg.blocks[b + 1].first == cfg.blocks[b].last < |code.insns|
    ensures b < |cfg.g.succs| && cfg.g.succs[b] == if s == b + 1 then [s] else [s, b + 1]
  {
    var flow := code.insns[cfg.blocks[b].last - 1].flow;
    s := BlockWith(code, cfg, cfg.blocks[b].last - 1, flow.target);
    NextInLine(code.insns, code.codeLen, [], cfg, b);
    assert HasEdges(code.insns, cfg, b);
    BlockStarts(code.insns, code.codeLen, [], cfg, b);
    TwoSuccessors(Starts(cfg.blocks), flow.target, cfg.blocks[b].end, s, b + 1);
  }

  /** ...or leads nowhere. */
  lemma EndsStopping(code: Code, cfg: Cfg, b: nat)
    requires Verified(code) && Built(code.insns, code.codeLen, [], cfg) && b < |cfg.blocks|
    requires 0 < cfg.blocks[b].last <= |code.insns| && code.insns[cfg.blocks[b].last - 1].flow.Stop?
    ensures b < |cfg.g.succs| && cfg.g.succs[b] == []
  {
    assert HasEdges(code.insns, cfg, b);
    BlockStarts(code.insns, code.codeLen, [], cfg, b);
  }

  /** The successor list picks the block at which the next instruction stands. */
  lemma LastInstruction(code: Code, cfg: Cfg, b: nat, taken: Option<bool>)
    requires Verified(code) && Built(code.insns, code.codeLen, [], cfg) && b < |cfg.blocks|
    requires 0 < cfg.blocks[b].last <= |code.insns|
    requires var flow := code.insns[cfg.blocks[b].last - 1].flow;
      !flow.Switch? && !flow.Stop? && (flow.Cond? <==> taken.Some?)
    ensures b < |cfg.g.succs|
    ensures var next := NextBlock(cfg.g.succs[b], taken);
      && next.Some? && next.value < |cfg.blocks|
      && NextIndex(code, cfg.blocks[b].last - 1, taken) == Some(cfg.blocks[next.value].first)
  {
    var flow := code.insns[cfg.blocks[b].last - 1].flow;
    if flow.Next? {
      EndsGoing(code, cfg, b);
    } else if flow.Jump? {
      var s := EndsJumping(code, cfg, b);
    } else {
      var s := EndsBranching(code, cfg, b);
    }
  }

  lemma BranchOutcome(sem: Jvm.Sem, m: Jvm.Machine)
    requires m.Running? && m.taken.None?
    ensures Jvm.Step(sem, m).Running? ==> !sem.Return? && ((sem.If? || sem.IfCmp?) <==> Jvm.Step(sem, m).taken.Some?)
  {
  }

  /** The instruction `i`, the last one of a block with the successors `succs`, and these
      successors pick the same place to go on. */
  ghost predicate LastGoes(code: Code, cfg: Cfg, succs: seq<nat>, i: nat) {
    && i < |code.insns| == |code.sems| && SameFlow(code.sems[i], code.insns[i].flow)
    && forall taken: Option<bool> :: GoesTo(code, cfg, succs, i, taken)
  }

  ghost predicate GoesTo(code: Code, cfg: Cfg, succs: seq<nat>, i: nat, taken: Option<bool>)
    requires i < |code.insns|
  {
    var (flow, next) := (code.insns[i].flow, NextBlock(succs, taken));
    !flow.Switch? && !flow.Stop? && (flow.Cond? <==> taken.Some?) ==>
      next.Some? && next.value < |cfg.blocks| && NextIndex(code, i, taken) == Some(cfg.blocks[next.value].first)
  }

  lemma LastGoesOn(code: Code, cfg: Cfg, b: nat)
    requires Verified(code) && Built(code.insns, code.codeLen, [], cfg) && b < |cfg.blocks|
    requires 0 < cfg.blocks[b].last <= |code.insns| && b < |cfg.g.succs|
    ensures LastGoes(code, cfg, cfg.g.succs[b], cfg.blocks[b].last - 1)
  {
    var flow := code.insns[cfg.blocks[b].last - 1].flow;
    forall taken: Option<bool> | !flow.Switch? && !flow.Stop? && (flow.Cond? <==> taken.Some?)
      ensures GoesTo(code, cfg, cfg.g.succs[b], cfg.blocks[b].last - 1, taken)
    {
      LastInstruction(code, cfg, b, taken);
    }
  }

  /** From the last instruction of a block both machines go to the same place. */
  lemma EndOfBlock(code: Code, cfg: Cfg, succs: seq<nat>, i: nat, out: Jvm.Machine)
    requires LastGoes(code, cfg, succs, i)
    requires var sem := code.sems[i]; out.Running? ==> !sem.Return? && ((sem.If? || sem.IfCmp?) <==> out.taken.Some?)
    ensures SamePlace(cfg, RunMeaning.AfterBlock(succs, out), AfterInsn(code, i, out))
  {
    if out.Running? { assert GoesTo(code, cfg, succs, i, out.taken); }
  }

  lemma LastOfSlice(sems: seq<Jvm.Sem>, all: seq<Jvm.Sem>, first: nat, last: nat, start: Jvm.Machine)
    requires first < last <= |all| && sems == all[first..last]
    ensures Jvm.Steps(sems, start) == var r := Jvm.Steps(sems[..|sems| - 1], start);
      if r.Running? then Jvm.Step(all[last - 1], r) else r
  {
    var n := |sems| - 1;
    BlockMeaning.StepsUpTo(sems, start, n);
    assert sems[..n + 1] == sems && sems[n] == all[last - 1];
  }

  lemma InsideAndLast(code: Code, inner: seq<Jvm.Sem>, first: nat, end: nat, start: Jvm.Machine, before: Jvm.Machine,
                      more: nat)
    requires Along(code, inner, first) && start.Running? && start.taken.None? && before == Jvm.Steps(inner, start)
    requires end == first + |inner| && more == |inner| + 1
    ensures before.Running? ==> before.taken.None?
    ensures PcSteps(code, PcOf(start, first), more) == PcStep(code, PcOf(before, end))
  {
    InsideBlock(code, inner, first, start);
    InsideEnds(code, first, start, |inner|, before, end, more);
  }

  lemma InsideEnds(code: Code, first: nat, start: Jvm.Machine, m: nat, r: Jvm.Machine, end: nat, more: nat)
    requires |code.insns| == |code.sems| && Inside(code, first, start, m, r) && end == first + m && more == m + 1
    ensures PcSteps(code, PcOf(start, first), more) == PcStep(code, PcOf(r, end)) && (r.Running? ==> r.taken.None?)
  {
    PcStepsMore(code, PcOf(start, first), more);
    assert PcSteps(code, PcOf(start, first), more - 1) == PcOf(r, end);
  }

  lemma LastStep(code: Code, i: nat, m: Jvm.Machine)
    requires |code.insns| == |code.sems| && i < |code.insns| && (m.Running? ==> m.taken.None?)
    ensures PcStep(code, PcOf(m, i)) == if m.Running? then AfterInsn(code, i, Jvm.Step(code.sems[i], m)) else PcOf(m, i)
  {
  }

  lemma FromLast(code: Code, cfg: Cfg, succs: seq<nat>, i: nat, before: Jvm.Machine, after: Jvm.Machine)
    requires LastGoes(code, cfg, succs, i) && (before.Running? ==> before.taken.None?)
    requires after == if before.Running? then Jvm.Step(code.sems[i], before) else before
    ensures SamePlace(cfg, RunMeaning.AfterBlock(succs, after), PcStep(code, PcOf(before, i)))
  {
    LastStep(code, i, before);
    if before.Running? {
      BranchOutcome(code.sems[i], before);
      EndOfBlock(code, cfg, succs, i, after);
    }
  }

  /** One block is as many instructions as it has. */
  lemma BlockIsSteps(code: Code, cfg: Cfg, body: Body, b: nat, start: Jvm.Machine)
    requires Verified(code) && BodyOf(code, cfg, body) && b < |cfg.blocks| && start.Running? && start.taken.None?
    ensures |body.code[b]| > 0 && b < |body.g.succs|
    ensures SamePlace(cfg, RunMeaning.AfterBlock(body.g.succs[b], Jvm.Steps(body.code[b], start)),
                      PcSteps(code, PcOf(start, cfg.blocks[b].first), |body.code[b]|))
  {
    assert SliceAt(code, cfg, body, b);
    AllSized(code.insns, code.codeLen, [], cfg);
    BlockIsStraight(code, cfg, b);
    LastGoesOn(code, cfg, b);
    SliceRuns(code, cfg, body.code[b], body.g.succs[b], cfg.blocks[b].first, cfg.blocks[b].last, start);
  }

  lemma SliceRuns(code: Code, cfg: Cfg, sems: seq<Jvm.Sem>, succs: seq<nat>, first: nat, last: nat, start: Jvm.Machine)
    requires Straight(code, first, last) && sems == code.sems[first..last] && LastGoes(code, cfg, succs, last - 1)
    requires start.Running? && start.taken.None?
    ensures SamePlace(cfg, RunMeaning.AfterBlock(succs, Jvm.Steps(sems, start)),
      PcSteps(code, PcOf(start, first), |sems|))
  {
    StraightAlong(code, sems, first, last);
    LastOfSlice(sems, code.sems, first, last, start);
    SliceEnds(code, cfg, succs, sems[..|sems| - 1], first, last - 1, start, Jvm.Steps(sems, start), |sems|);
  }

  lemma SliceEnds(code: Code, cfg: Cfg, succs: seq<nat>, inner: seq<Jvm.Sem>, first: nat, end: nat,
                  start: Jvm.Machine, after: Jvm.Machine, more: nat)
    requires Along(code, inner, first) && start.Running? && start.taken.None? && LastGoes(code, cfg, succs, end)
    requires end == first + |inner| && more == |inner| + 1
    requires var before := Jvm.Steps(inner, start);
      after == if before.Running? then Jvm.Step(code.sems[end], before) else before
    ensures SamePlace(cfg, RunMeaning.AfterBlock(succs, after), PcSteps(code, PcOf(start, first), more))
  {
    var before := Jvm.Steps(inner, start);
    InsideAndLast(code, inner, first, end, start, before, more);
    FromLast(code, cfg, succs, end, before, after);
  }

  lemma OneBlockMore(code: Code, cfg: Cfg, body: Body, c: Config, p: Pc) returns (n: nat)
    requires Verified(code) && BodyOf(code, cfg, body) && SamePlace(cfg, c, p)
    ensures n >= 1 && SamePlace(cfg, MachineStep(body, c), PcSteps(code, p, n))
  {
    n := 1;
    if c.At? {
      BlockIsSteps(code, cfg, body, c.block, Jvm.Running(c.locals, c.stack, None));
      n := |body.code[c.block]|;
    }
  }

  /** After `k` blocks at least `k` instructions have run, and both machines agree. */
  lemma {:induction false} BlocksAreSteps(code: Code, cfg: Cfg, body: Body, locals: seq<int>, k: nat) returns (n: nat)
    requires Verified(code) && BodyOf(code, cfg, body)
    ensures n >= k && SamePlace(cfg, MachineRun(body, locals, k), PcSteps(code, Here(0, locals, []), n))
  {
    if k == 0 {
      AllSized(code.insns, code.codeLen, [], cfg);
      n := 0;
    } else {
      n := BlocksAreSteps(code, cfg, body, locals, k - 1);
      var more := OneBlockMore(code, cfg, body, MachineRun(body, locals, k - 1), PcSteps(code, Here(0, locals, []), n));
      PcStepsSum(code, Here(0, locals, []), n, more, n + more);
      n := n + more;
    }
  }

  // ----- the front end ----------------------------------------------------------------------------

  lemma GraphIsValid(code: Code, cfg: Cfg, body: Body, maxLocals: nat)
    requires Verified(code) && BodyOf(code, cfg, body) && forall i :: 0 <= i < |code.sems| ==>
      Jvm.Fits(code.sems[i], maxLocals)
    ensures ValidBody(body, maxLocals) && cfg.handlerBlocks == []
  {
    AllSized(code.insns, code.codeLen, [], cfg);
    forall b | 0 <= b < |body.code|
      ensures Emulation.AllFit(body.code[b], maxLocals)
      ensures NoRepeats(body.g.succs[b]) && forall s :: s in body.g.succs[b] ==> s < body.g.Size()
    {
      assert SliceAt(code, cfg, body, b) && HasEdges(code.insns, cfg, b);
    }
  }

  method Slices(code: Code, cfg: Cfg) returns (body: Body)
    requires Verified(code) && Built(code.insns, code.codeLen, [], cfg)
    ensures BodyOf(code, cfg, body)
  {
    var slices: seq<seq<Jvm.Sem>> := [];
    for b := 0 to |cfg.blocks|
      invariant |slices| == b
      invariant forall k :: 0 <= k < b ==>
        && cfg.blocks[k].first < cfg.blocks[k].last <= |code.sems|
        && slices[k] == code.sems[cfg.blocks[k].first..cfg.blocks[k].last]
    {
      BlockStarts(code.insns, code.codeLen, [], cfg, b);
      slices := slices + [code.sems[cfg.blocks[b].first..cfg.blocks[b].last]];
    }
    body := Body(cfg.g, slices);
    forall b | 0 <= b < |cfg.blocks|
      ensures SliceAt(code, cfg, body, b)
    {
    }
  }

  /** `pop2` and `dup2` do not occur, or every variable that is loaded is recorded as `int`. */
  ghost predicate IntPairs(code: Code, locals: seq<Emulation.LocalInfo>)
    requires Emulation.AllFit(code.sems, |locals|)
  {
    Widths.NoDoubles(code.sems) || Widths.IntLoads(code.sems, locals)
  }

  lemma BlocksFindInts(code: Code, cfg: Cfg, body: Body, locals: seq<Emulation.LocalInfo>)
    requires Emulation.AllFit(code.sems, |locals|) && IntPairs(code, locals) && ValidBody(body, |locals|)
    requires BodyOf(code, cfg, body)
    ensures IntTops(body, locals)
  {
    forall b | 0 <= b < |body.code|
      ensures Widths.NoDoubles(code.sems) ==> Widths.NoDoubles(body.code[b])
      ensures Widths.IntLoads(code.sems, locals) ==> Widths.IntLoads(body.code[b], locals)
    {
      assert SliceAt(code, cfg, body, b);
      var first := cfg.blocks[b].first;
      assert forall k :: 0 <= k < |body.code[b]| ==> body.code[b][k] == code.sems[first + k];
    }
  }

  /** Graph construction and emulation, one after the other: for verified code with
      consistent stack depths there is no error and the result is certified. */
  method FrontEnd(code: Code, locals: seq<Emulation.LocalInfo>, prefix: string, ghost depth: seq<nat>)
    returns (cfg: Cfg, results: array<BlockResult>, error: Option<Emulation.EmulationError>, ghost m: Emission)
    requires Verified(code) && Emulation.AllFit(code.sems, |locals|)
    ensures BodyOf(code, cfg, m.body) && m.base == locals
    ensures |m.body.code| == m.body.g.Size()
    ensures Consistent(m.body, cfg.reachable, depth) && BlockMeaning.Unique(locals) && IntPairs(code, locals) ==>
      && error.None? && Certified(m) && m.results == results[..]
      && EmitsDeclared(m.infos, m.reachable, m.results)
  {
    ContiguousOffsetsAscend(code.insns, code.codeLen);
    cfg := BuildCfg(code.insns, code.codeLen, []);
    var body := Slices(code, cfg);
    GraphIsValid(code, cfg, body, |locals|);
    if IntPairs(code, locals) { BlocksFindInts(code, cfg, body, locals); }
    var emulator := new Emulator(locals, prefix);
    ghost var joins;
    results, error, joins := emulator.Run(body, cfg.reachable, depth);
    m := Emission(body, locals, depth, cfg.reachable, emulator.locals, joins, results[..]);
  }

  // ----- the whole way ------------------------------------------------------------------------------

  /** If the bytecode returns a value, so does the emitted code... */
  lemma ReturnEmitted(code: Code, cfg: Cfg, m: Emission, locals: seq<int>, env: Ir.Env, value: Option<int>, n: nat)
    requires Verified(code) && BodyOf(code, cfg, m.body) && Certified(m) && Careful(m)
    requires |locals| == |m.base| && BlockMeaning.Agree(m.infos, locals, env)
    requires PcSteps(code, Here(0, locals, []), n) == Done(value)
    ensures EmittedRun(m.results, env, n) == Gave(value)
  {
    var n' := BlocksAreSteps(code, cfg, m.body, locals, n);
    PcStepsSum(code, Here(0, locals, []), n, n' - n, n');
    PcStays(code, Done(value), n' - n);
    assert MachineRun(m.body, locals, n) == Ended(value);
    RunsAgree(m, locals, env, n);
  }

  /** ...and the other way round, unless the bytecode throws. */
  lemma EmittedReturned(code: Code, cfg: Cfg, m: Emission, locals: seq<int>, env: Ir.Env, value: Option<int>, k: nat)
      returns (n: nat)
    requires Verified(code) && BodyOf(code, cfg, m.body) && Certified(m) && Careful(m)
    requires |locals| == |m.base| && BlockMeaning.Agree(m.infos, locals, env)
    requires EmittedRun(m.results, env, k) == Gave(value)
    ensures PcSteps(code, Here(0, locals, []), n) == Done(value) || PcSteps(code, Here(0, locals, []), n).Thrown?
  {
    n := BlocksAreSteps(code, cfg, m.body, locals, k);
    RunsAgree(m, locals, env, k);
  }

  /** For verified code that throws nothing and is emulated carefully: the bytecode
      returns `value` if and only if the emitted statements do. */
  lemma DecompiledReturns(code: Code, cfg: Cfg, m: Emission, locals: seq<int>, env: Ir.Env, value: Option<int>)
    requires Verified(code) && BodyOf(code, cfg, m.body) && Certified(m) && Careful(m)
    requires |locals| == |m.base| && BlockMeaning.Agree(m.infos, locals, env)
    requires forall n: nat :: !PcSteps(code, Here(0, locals, []), n).Thrown?
    ensures (exists n: nat :: PcSteps(code, Here(0, locals, []), n) == Done(value)) <==>
      (exists k: nat :: EmittedRun(m.results, env, k) == Gave(value))
  {
    if n: nat :| PcSteps(code, Here(0, locals, []), n) == Done(value) {
      ReturnEmitted(code, cfg, m, locals, env, value, n);
    }
    if k: nat :| EmittedRun(m.results, env, k) == Gave(value) {
      var n := EmittedReturned(code, cfg, m, locals, env, value, k);
    }
  }
}
