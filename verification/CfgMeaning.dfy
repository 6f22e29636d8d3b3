/** The control flow graph simulates the code. */
module CfgMeaning {
  import opened Results
  import opened Graph
  import opened Cfg

  /** The instructions follow one another without gaps and fill the code. */
  ghost predicate Contiguous(insns: seq<Insn>, codeLen: nat) {
    && insns != [] && insns[0].off == 0
    && (forall i :: 0 <= i < |insns| ==> Adjoins(insns, codeLen, i))
  }

  /** Instruction `i` ends where the next one, or the end of the code, begins. */
  predicate Adjoins(insns: seq<Insn>, codeLen: nat, i: nat) {
    i < |insns| ==> insns[i].len > 0 && insns[i].off + insns[i].len == OffsetAfter(insns, codeLen, i)
  }

  function OffsetAfter(insns: seq<Insn>, codeLen: nat, i: nat): nat {
    if i + 1 < |insns| then insns[i + 1].off else codeLen
  }

  lemma {:induction false} ContiguousAscends(insns: seq<Insn>, codeLen: nat, i: nat, j: nat)
    requires Contiguous(insns, codeLen) && i < j <= |insns|
    ensures insns[i].off < if j < |insns| then insns[j].off else codeLen
    decreases j
  {
    if j > i + 1 { ContiguousAscends(insns, codeLen, i, j - 1); }
    assert Adjoins(insns, codeLen, j - 1);
  }

  lemma ContiguousOffsetsAscend(insns: seq<Insn>, codeLen: nat)
    requires Contiguous(insns, codeLen)
    ensures OffsetsAscend(insns) && forall i :: 0 <= i < |insns| ==> insns[i].off < codeLen
  {
    forall i, j | 0 <= i < j < |insns|
      ensures insns[i].off < insns[j].off
    {
      ContiguousAscends(insns, codeLen, i, j);
    }
    forall i | 0 <= i < |insns|
      ensures insns[i].off < codeLen
    {
      ContiguousAscends(insns, codeLen, i, |insns|);
    }
  }

  ghost predicate IsOffset(insns: seq<Insn>, o: nat) {
    exists i :: 0 <= i < |insns| && insns[i].off == o
  }

  /** Jumps and handlers lead to instructions, and the last instruction does not run off
      the end of the code. */
  ghost predicate ValidCode(insns: seq<Insn>, codeLen: nat, handlers: seq<Handler>) {
    && Contiguous(insns, codeLen)
    && (forall i, t :: 0 <= i < |insns| && t in Targets(insns[i].flow) ==> IsOffset(insns, t))
    && (forall i :: 0 <= i < |handlers| ==> ValidHandler(insns, codeLen, handlers[i]))
  }

  ghost predicate ValidHandler(insns: seq<Insn>, codeLen: nat, h: Handler) {
    IsOffset(insns, h.pc) && IsOffset(insns, h.start) && (h.end >= codeLen || IsOffset(insns, h.end))
  }

  // ----- blocks partition the code -----------------------------------------------------------

  lemma CutUnique(insns: seq<Insn>, o: nat, c: nat, d: nat)
    requires Cut(insns, o, c) && Cut(insns, o, d)
    ensures c == d
  {
    if c < |insns| { assert insns[c].off >= o; }
    if d < |insns| { assert insns[d].off >= o; }
  }

  lemma FirstIsLeast(s: seq<nat>, o: nat)
    requires Ascending(s) && o in s
    ensures s[0] <= o
  {
    var z :| 0 <= z < |s| && s[z] == o;
    if z > 0 { assert s[0] < s[z]; }
  }

  lemma CutMonotone(insns: seq<Insn>, o: nat, c: nat, p: nat, d: nat)
    requires Cut(insns, o, c) && Cut(insns, p, d) && o <= p
    ensures c <= d
  {
    if d < |insns| { assert insns[d].off >= p; }
  }

  /** Blocks follow one another, over the bytes and over the instructions. */
  lemma BlocksPartition(insns: seq<Insn>, codeLen: nat, handlers: seq<Handler>, cfg: Cfg)
    requires Contiguous(insns, codeLen) && codeLen > 0 && Built(insns, codeLen, handlers, cfg)
    ensures var blocks, n := cfg.blocks, |cfg.blocks|;
      && n > 0 && blocks[0].start == 0 && blocks[0].first == 0
      && blocks[n - 1].end == codeLen && blocks[n - 1].last == |insns|
      && (forall b :: 0 <= b < n - 1 ==> blocks[b].end == blocks[b + 1].start && blocks[b].last == blocks[b + 1].first)
      && (forall b :: 0 <= b < n ==> blocks[b].start < blocks[b].end && blocks[b].first <= blocks[b].last <= |insns|)
  {
    var blocks, leaders := cfg.blocks, Starts(cfg.blocks);
    var n := |blocks|;
    ContiguousOffsetsAscend(insns, codeLen);
    assert IsLeader(insns, codeLen, handlers, 0) && 0 in leaders;
    FirstIsLeast(leaders, 0);
    assert BlockAt(insns, leaders, codeLen, blocks, 0) && BlockAt(insns, leaders, codeLen, blocks, n - 1);
    CutUnique(insns, 0, blocks[0].first, 0);
    CutUnique(insns, codeLen, blocks[n - 1].last, |insns|);
    forall b | 0 <= b < n - 1
      ensures blocks[b].end == blocks[b + 1].start && blocks[b].last == blocks[b + 1].first
    {
      assert BlockAt(insns, leaders, codeLen, blocks, b) && BlockAt(insns, leaders, codeLen, blocks, b + 1);
      CutUnique(insns, blocks[b].end, blocks[b].last, blocks[b + 1].first);
    }
    forall b | 0 <= b < n
      ensures blocks[b].start < blocks[b].end && blocks[b].first <= blocks[b].last <= |insns|
    {
      assert BlockAt(insns, leaders, codeLen, blocks, b);
      assert leaders[b] in leaders && IsLeader(insns, codeLen, handlers, leaders[b]);
      CutMonotone(insns, blocks[b].start, blocks[b].first, blocks[b].end, blocks[b].last);
    }
  }

  lemma LeaderIsOffset(insns: seq<Insn>, codeLen: nat, handlers: seq<Handler>, o: nat)
    requires ValidCode(insns, codeLen, handlers) && IsLeader(insns, codeLen, handlers, o)
    ensures IsOffset(insns, o)
  {
    if o != 0 {
      if i :| 0 <= i < |insns| && Pushes(insns[i], o) {
        if o !in Targets(insns[i].flow) {
          assert Adjoins(insns, codeLen, i);
        }
      } else {
        var i :| 0 <= i < |handlers| && HandlerPushes(handlers[i], codeLen, o);
        assert ValidHandler(insns, codeLen, handlers[i]);
      }
    }
  }

  lemma LeastAt(insns: seq<Insn>, c: nat, i: nat)
    requires OffsetsAscend(insns) && c <= i < |insns| && insns[c].off >= insns[i].off
    ensures c == i
  {
  }

  /** Every block holds instructions, and starts with the one at its offset. */
  lemma BlockStarts(insns: seq<Insn>, codeLen: nat, handlers: seq<Handler>, cfg: Cfg, b: nat)
    requires ValidCode(insns, codeLen, handlers) && Built(insns, codeLen, handlers, cfg) && b < |cfg.blocks|
    ensures var block := cfg.blocks[b]; block.first < block.last <= |insns| && insns[block.first].off == block.start
  {
    var leaders, block := Starts(cfg.blocks), cfg.blocks[b];
    assert leaders[b] in leaders;
    LeaderIsOffset(insns, codeLen, handlers, leaders[b]);
    var i :| 0 <= i < |insns| && insns[i].off == leaders[b];
    assert BlockAt(insns, leaders, codeLen, cfg.blocks, b);
    ContiguousOffsetsAscend(insns, codeLen);
    assert block.end > block.start by {
      if b + 1 < |leaders| { assert leaders[b] < leaders[b + 1]; }
    }
    assert block.first <= i < block.last;
    LeastAt(insns, block.first, i);
  }

  // ----- control inside a block and between blocks ---------------------------------------------

  /** Control can pass from instruction `i` to instruction `j`. */
  predicate InsnStep(insns: seq<Insn>, i: nat, j: nat) {
    && i < |insns| && j < |insns|
    && match insns[i].flow
       case Next => j == i + 1
       case Cond(t) => insns[j].off == t || j == i + 1
       case Jump(t) => insns[j].off == t
       case Stop => false
       case Switch(d, ts) => insns[j].off == d || insns[j].off in ts
  }

  lemma NoLeaderInside(leaders: seq<nat>, b: nat, o: nat)
    requires Ascending(leaders) && b < |leaders| && o in leaders && o > leaders[b]
    ensures b + 1 < |leaders| && o >= leaders[b + 1]
  {
    var c :| 0 <= c < |leaders| && leaders[c] == o;
    assert b < c;
  }

  /** Only the last instruction of a block is a jump or ends the flow. */
  lemma FlowInside(insns: seq<Insn>, codeLen: nat, handlers: seq<Handler>, cfg: Cfg, b: nat, i: nat)
    requires ValidCode(insns, codeLen, handlers) && Built(insns, codeLen, handlers, cfg) && b < |cfg.blocks|
    requires cfg.blocks[b].first <= i < cfg.blocks[b].last
    ensures i < |insns| && (i + 1 < cfg.blocks[b].last ==> insns[i].flow.Next?)
  {
    var leaders, block := Starts(cfg.blocks), cfg.blocks[b];
    assert BlockAt(insns, leaders, codeLen, cfg.blocks, b);
    if i + 1 < |insns| && !insns[i].flow.Next? {
      var o := insns[i].off + insns[i].len;
      assert Adjoins(insns, codeLen, i) && o == insns[i + 1].off;
      ContiguousOffsetsAscend(insns, codeLen);
      assert Pushes(insns[i], o) && IsLeader(insns, codeLen, handlers, o) && o in leaders;
      NoLeaderInside(leaders, b, o);
    }
  }

  /** Every leader starts exactly one block. */
  lemma Found(leaders: seq<nat>, o: nat, b: nat)
    requires Ascending(leaders) && b < |leaders| && leaders[b] == o
    ensures Find(leaders, o) == Some(b)
  {
    assert o in leaders;
    var r := Find(leaders, o);
  }

  lemma {:induction false} InAddAll(leaders: seq<nat>, succs: seq<nat>, targets: seq<nat>, k: nat, x: nat)
    requires k <= |targets|
    ensures x in AddAll(leaders, succs, targets, k) <==>
      x in succs || exists i :: 0 <= i < k && Find(leaders, targets[i]) == Some(x)
  {
    if k > 0 { InAddAll(leaders, succs, targets, k - 1, x); }
  }

  /** A branch of the last instruction to offset `o` is an edge to the block that starts
      there. */
  lemma SuccessorIff(leaders: seq<nat>, flow: Option<Flow>, end: nat, s: nat)
    requires Ascending(leaders) && s < |leaders|
    ensures s in SuccsOf(leaders, flow, end) <==>
      match flow
      case Some(Stop) => false
      case Some(Jump(t)) => leaders[s] == t
      case Some(Switch(d, ts)) => leaders[s] == d || leaders[s] in ts
      case Some(Cond(t)) => leaders[s] == t || leaders[s] == end
      case Some(Next) => leaders[s] == end
      case None => leaders[s] == end
  {
    Found(leaders, leaders[s], s);
    if flow.Some? && flow.value.Switch? {
      var (d, ts) := (flow.value.default, flow.value.targets);
      InAddAll(leaders, Add([], Find(leaders, d)), ts, |ts|, s);
      if leaders[s] in ts {
        var i :| 0 <= i < |ts| && ts[i] == leaders[s];
        assert Find(leaders, ts[i]) == Some(s);
      }
    }
  }

  /** A jump to another place leads to the start of a block. */
  lemma JumpTarget(insns: seq<Insn>, codeLen: nat, handlers: seq<Handler>, cfg: Cfg, i: nat, j: nat) returns (s: nat)
    requires ValidCode(insns, codeLen, handlers) && Built(insns, codeLen, handlers, cfg)
    requires i < |insns| && j < |insns| && Pushes(insns[i], insns[j].off)
    ensures s < |cfg.blocks| && cfg.blocks[s].first == j && cfg.blocks[s].start == insns[j].off
  {
    var leaders := Starts(cfg.blocks);
    ContiguousOffsetsAscend(insns, codeLen);
    assert IsLeader(insns, codeLen, handlers, insns[j].off) && insns[j].off in leaders;
    s :| 0 <= s < |leaders| && leaders[s] == insns[j].off;
    BlockStarts(insns, codeLen, handlers, cfg, s);
    SameOffset(insns, cfg.blocks[s].first, j);
  }

  lemma SameOffset(insns: seq<Insn>, i: nat, j: nat)
    requires OffsetsAscend(insns) && i < |insns| && j < |insns| && insns[i].off == insns[j].off
    ensures i == j
  {
  }

  /** The instruction after a block's last is the next block's first. */
  lemma NextInLine(insns: seq<Insn>, codeLen: nat, handlers: seq<Handler>, cfg: Cfg, b: nat)
    requires ValidCode(insns, codeLen, handlers) && Built(insns, codeLen, handlers, cfg) && codeLen > 0
      && b < |cfg.blocks|
    ensures cfg.blocks[b].last < |insns| ==>
      b + 1 < |cfg.blocks| && cfg.blocks[b + 1].first == cfg.blocks[b].last
      && cfg.blocks[b + 1].start == cfg.blocks[b].end
    ensures cfg.blocks[b].last == |insns| ==> cfg.blocks[b].end == codeLen
  {
    BlocksPartition(insns, codeLen, handlers, cfg);
    if b + 1 < |cfg.blocks| { BlockStarts(insns, codeLen, handlers, cfg, b + 1); }
  }

  /** Control passes from the last instruction of a block exactly to the first
      instructions of its successors. */
  lemma EdgeIffStep(insns: seq<Insn>, codeLen: nat, handlers: seq<Handler>, cfg: Cfg, b: nat, j: nat)
    requires ValidCode(insns, codeLen, handlers) && Built(insns, codeLen, handlers, cfg) && codeLen > 0
    requires b < |cfg.blocks| && cfg.blocks[b].last > 0
    ensures InsnStep(insns, cfg.blocks[b].last - 1, j) <==>
      exists s :: s in cfg.g.succs[b] && s < |cfg.blocks| && cfg.blocks[s].first == j
  {
    BlockStarts(insns, codeLen, handlers, cfg, b);
    var i := cfg.blocks[b].last - 1;
    if InsnStep(insns, i, j) { StepGivesEdge(insns, codeLen, handlers, cfg, b, j); }
    if s :| s in cfg.g.succs[b] && s < |cfg.blocks| && cfg.blocks[s].first == j {
      EdgeGivesStep(insns, codeLen, handlers, cfg, b, s);
    }
  }

  lemma EdgeGivesStep(insns: seq<Insn>, codeLen: nat, handlers: seq<Handler>, cfg: Cfg, b: nat, s: nat)
    requires ValidCode(insns, codeLen, handlers) && Built(insns, codeLen, handlers, cfg) && codeLen > 0
    requires b < |cfg.blocks| && s < |cfg.blocks| && cfg.blocks[b].last > 0 && s in cfg.g.succs[b]
    ensures InsnStep(insns, cfg.blocks[b].last - 1, cfg.blocks[s].first)
  {
    var leaders, block := Starts(cfg.blocks), cfg.blocks[b];
    BlockStarts(insns, codeLen, handlers, cfg, b);
    BlockStarts(insns, codeLen, handlers, cfg, s);
    assert HasEdges(insns, cfg, b);
    SuccessorIff(leaders, Some(insns[block.last - 1].flow), block.end, s);
    if leaders[s] == block.end { EndIsNext(insns, codeLen, handlers, cfg, b, s); }
  }

  lemma EndIsNext(insns: seq<Insn>, codeLen: nat, handlers: seq<Handler>, cfg: Cfg, b: nat, s: nat)
    requires ValidCode(insns, codeLen, handlers) && Built(insns, codeLen, handlers, cfg) && codeLen > 0
    requires b < |cfg.blocks| && s < |cfg.blocks| && cfg.blocks[s].start == cfg.blocks[b].end
    ensures cfg.blocks[s].first == cfg.blocks[b].last
  {
    var leaders := Starts(cfg.blocks);
    assert BlockAt(insns, leaders, codeLen, cfg.blocks, b) && BlockAt(insns, leaders, codeLen, cfg.blocks, s);
    CutUnique(insns, cfg.blocks[b].end, cfg.blocks[b].last, cfg.blocks[s].first);
  }

  lemma StepGivesEdge(insns: seq<Insn>, codeLen: nat, handlers: seq<Handler>, cfg: Cfg, b: nat, j: nat)
    requires ValidCode(insns, codeLen, handlers) && Built(insns, codeLen, handlers, cfg) && codeLen > 0
      && b < |cfg.blocks|
    requires 0 < cfg.blocks[b].last && InsnStep(insns, cfg.blocks[b].last - 1, j)
    ensures exists s :: s in cfg.g.succs[b] && s < |cfg.blocks| && cfg.blocks[s].first == j
  {
    var leaders, block := Starts(cfg.blocks), cfg.blocks[b];
    var i := block.last - 1;
    BlockStarts(insns, codeLen, handlers, cfg, b);
    NextInLine(insns, codeLen, handlers, cfg, b);
    assert HasEdges(insns, cfg, b);
    var s: nat;
    if j == i + 1 && (insns[i].flow.Next? || insns[i].flow.Cond?) {
      s := b + 1;
    } else {
      s := JumpTarget(insns, codeLen, handlers, cfg, i, j);
    }
    SuccessorIff(leaders, Some(insns[i].flow), block.end, s);
    assert s in cfg.g.succs[b];
  }

  // ----- runs of the code are paths of the graph ----------------------------------------------------

  ghost predicate Sized(cfg: Cfg) {
    && cfg.g.Size() == |cfg.blocks|
    && forall b :: 0 <= b < |cfg.blocks| ==> cfg.blocks[b].first < cfg.blocks[b].last
  }

  function Size(block: Block): nat { if block.first <= block.last then block.last - block.first else 0 }

  function Nth(block: Block, i: nat): nat { block.first + i }

  /** The indices of the first `m` instructions of a block. */
  function Head(block: Block, m: nat): (r: seq<nat>)
    ensures |r| == m && forall i :: 0 <= i < m ==> r[i] == block.first + i
  {
    seq(m, i requires 0 <= i => Nth(block, i))
  }

  predicate InBlocks(cfg: Cfg, p: seq<nat>) {
    forall i :: 0 <= i < |p| ==> p[i] < |cfg.blocks|
  }

  /** All instructions of all blocks of a path. */
  function Whole(cfg: Cfg, p: seq<nat>): seq<nat>
    requires InBlocks(cfg, p)
  {
    if p == [] then []
    else
      var n := |p| - 1;
      Whole(cfg, p[..n]) + Head(cfg.blocks[p[n]], Size(cfg.blocks[p[n]]))
  }

  /** The instructions of a path, up to the `m`-th of its last block. */
  function Unfold(cfg: Cfg, p: seq<nat>, m: nat): seq<nat>
    requires p != [] && InBlocks(cfg, p)
  {
    Whole(cfg, p[..|p| - 1]) + Head(cfg.blocks[p[|p| - 1]], m)
  }

  ghost predicate InsnRun(insns: seq<Insn>, r: seq<nat>) {
    && r != [] && r[0] == 0
    && (forall i :: 0 <= i < |r| ==> r[i] < |insns|)
    && (forall i :: 0 <= i < |r| - 1 ==> InsnStep(insns, r[i], r[i + 1]))
  }

  ghost predicate Follows(cfg: Cfg, r: seq<nat>, p: seq<nat>, m: nat) {
    && IsPath(cfg.g, p) && InBlocks(cfg, p) && p[0] == 0
    && 1 <= m <= Size(cfg.blocks[p[|p| - 1]])
    && r == Unfold(cfg, p, m)
  }

  lemma RunAppend(insns: seq<Insn>, r: seq<nat>, j: nat)
    requires InsnRun(insns, r) && InsnStep(insns, r[|r| - 1], j)
    ensures InsnRun(insns, r + [j])
  {
  }

  lemma RunPrefix(insns: seq<Insn>, r: seq<nat>)
    requires InsnRun(insns, r) && |r| > 1
    ensures InsnRun(insns, r[..|r| - 1])
  {
  }

  lemma UnfoldLast(cfg: Cfg, p: seq<nat>, m: nat)
    requires p != [] && InBlocks(cfg, p)
    ensures var r, block := Unfold(cfg, p, m + 1), cfg.blocks[p[|p| - 1]];
      r == Unfold(cfg, p, m) + [block.first + m] && r[|r| - 1] == block.first + m
  {
    assert Head(cfg.blocks[p[|p| - 1]], m + 1) == Head(cfg.blocks[p[|p| - 1]], m) + [cfg.blocks[p[|p| - 1]].first + m];
  }

  lemma UnfoldEdge(cfg: Cfg, p: seq<nat>, s: nat)
    requires p != [] && InBlocks(cfg, p) && s < |cfg.blocks|
    ensures InBlocks(cfg, p + [s])
    ensures Unfold(cfg, p + [s], 1) == Unfold(cfg, p, Size(cfg.blocks[p[|p| - 1]])) + [cfg.blocks[s].first]
  {
    assert (p + [s])[..|p|] == p;
    assert Head(cfg.blocks[s], 1) == [cfg.blocks[s].first];
  }

  lemma PathAppend(g: Graph, p: seq<nat>, s: nat)
    requires IsPath(g, p) && Edge(g, p[|p| - 1], s)
    ensures IsPath(g, p + [s])
  {
    forall i | 0 <= i < |p + [s]| - 1
      ensures EdgeAt(g, p + [s], i)
    {
      if i < |p| - 1 { assert EdgeAt(g, p, i); }
    }
  }

  lemma PathPrefix(g: Graph, p: seq<nat>)
    requires IsPath(g, p) && |p| > 1
    ensures IsPath(g, p[..|p| - 1]) && Edge(g, p[|p| - 2], p[|p| - 1])
  {
    assert EdgeAt(g, p, |p| - 2);
    var q := p[..|p| - 1];
    forall i | 0 <= i < |q| - 1
      ensures EdgeAt(g, q, i)
    {
      assert EdgeAt(g, p, i);
    }
  }

  /** Inside block `b`, after its `m`-th instruction, control reaches only the next. */
  ghost predicate WithinAt(insns: seq<Insn>, cfg: Cfg, b: nat, m: nat, j: nat) {
    b < |cfg.blocks| && 1 <= m < Size(cfg.blocks[b]) ==>
      (InsnStep(insns, cfg.blocks[b].first + m - 1, j) <==> j == cfg.blocks[b].first + m)
  }

  /** From the end of block `b` control reaches exactly the successors. */
  ghost predicate AcrossAt(insns: seq<Insn>, cfg: Cfg, b: nat, j: nat) {
    b < |cfg.blocks| == |cfg.g.succs| && cfg.blocks[b].last > 0 ==>
      (InsnStep(insns, cfg.blocks[b].last - 1, j) <==>
        exists s :: s in cfg.g.succs[b] && s < |cfg.blocks| && cfg.blocks[s].first == j)
  }

  ghost predicate Simulates(insns: seq<Insn>, cfg: Cfg) {
    && Sized(cfg) && |cfg.blocks| > 0 && cfg.blocks[0].first == 0 && insns != []
    && (forall b: nat, m: nat, j: nat :: WithinAt(insns, cfg, b, m, j))
    && (forall b: nat, j: nat :: AcrossAt(insns, cfg, b, j))
  }

  lemma StepWithin(insns: seq<Insn>, codeLen: nat, handlers: seq<Handler>, cfg: Cfg, b: nat, m: nat, j: nat)
    requires ValidCode(insns, codeLen, handlers) && Built(insns, codeLen, handlers, cfg) && codeLen > 0
    ensures WithinAt(insns, cfg, b, m, j)
  {
    if b < |cfg.blocks| && 1 <= m < Size(cfg.blocks[b]) {
      var i := cfg.blocks[b].first + m - 1;
      GoesOn(insns, codeLen, handlers, cfg, b, i);
      NextStep(insns, i, j);
    }
  }

  lemma GoesOn(insns: seq<Insn>, codeLen: nat, handlers: seq<Handler>, cfg: Cfg, b: nat, i: nat)
    requires ValidCode(insns, codeLen, handlers) && Built(insns, codeLen, handlers, cfg) && b < |cfg.blocks|
    requires cfg.blocks[b].first <= i && i + 1 < cfg.blocks[b].last
    ensures i + 1 < |insns| && insns[i].flow.Next?
  {
    BlockStarts(insns, codeLen, handlers, cfg, b);
    FlowInside(insns, codeLen, handlers, cfg, b, i);
  }

  lemma NextStep(insns: seq<Insn>, i: nat, j: nat)
    requires i + 1 < |insns| && insns[i].flow.Next?
    ensures InsnStep(insns, i, j) <==> j == i + 1
  {
  }

  lemma StepAcross(insns: seq<Insn>, codeLen: nat, handlers: seq<Handler>, cfg: Cfg, b: nat, j: nat)
    requires ValidCode(insns, codeLen, handlers) && Built(insns, codeLen, handlers, cfg) && codeLen > 0
    ensures AcrossAt(insns, cfg, b, j)
  {
    if b < |cfg.blocks| && cfg.blocks[b].last > 0 { EdgeIffStep(insns, codeLen, handlers, cfg, b, j); }
  }

  lemma AllSized(insns: seq<Insn>, codeLen: nat, handlers: seq<Handler>, cfg: Cfg)
    requires ValidCode(insns, codeLen, handlers) && Built(insns, codeLen, handlers, cfg) && codeLen > 0
    ensures Sized(cfg) && |cfg.blocks| > 0 && cfg.blocks[0].first == 0
  {
    BlocksPartition(insns, codeLen, handlers, cfg);
    forall b | 0 <= b < |cfg.blocks|
      ensures cfg.blocks[b].first < cfg.blocks[b].last
    {
      BlockStarts(insns, codeLen, handlers, cfg, b);
    }
  }

  lemma GraphSimulates(insns: seq<Insn>, codeLen: nat, handlers: seq<Handler>, cfg: Cfg)
    requires ValidCode(insns, codeLen, handlers) && Built(insns, codeLen, handlers, cfg) && codeLen > 0
    ensures Simulates(insns, cfg)
  {
    AllSized(insns, codeLen, handlers, cfg);
    forall b: nat, m: nat, j: nat
      ensures WithinAt(insns, cfg, b, m, j)
    {
      StepWithin(insns, codeLen, handlers, cfg, b, m, j);
    }
    forall b: nat, j: nat
      ensures AcrossAt(insns, cfg, b, j)
    {
      StepAcross(insns, codeLen, handlers, cfg, b, j);
    }
  }

  lemma {:induction false} RunToPath(insns: seq<Insn>, cfg: Cfg, r: seq<nat>) returns (p: seq<nat>, m: nat)
    requires Simulates(insns, cfg) && InsnRun(insns, r)
    ensures Follows(cfg, r, p, m)
    decreases |r|
  {
    if |r| == 1 {
      p, m := [0], 1;
      assert Head(cfg.blocks[0], 1) == [0];
      assert r == Unfold(cfg, p, m);
    } else {
      var n := |r| - 1;
      RunPrefix(insns, r);
      p, m := RunToPath(insns, cfg, r[..n]);
      assert r == r[..n] + [r[n]];
      p, m := FollowOn(insns, cfg, r[..n], r[n], p, m);
    }
  }

  lemma FollowOn(insns: seq<Insn>, cfg: Cfg, r: seq<nat>, j: nat, p: seq<nat>, m: nat) returns (p': seq<nat>, m': nat)
    requires Simulates(insns, cfg) && r != [] && InsnStep(insns, r[|r| - 1], j) && Follows(cfg, r, p, m)
    ensures Follows(cfg, r + [j], p', m')
  {
    var b := p[|p| - 1];
    UnfoldLast(cfg, p, m - 1);
    if m < Size(cfg.blocks[b]) {
      assert WithinAt(insns, cfg, b, m, j);
      UnfoldLast(cfg, p, m);
      p', m' := p, m + 1;
    } else {
      assert AcrossAt(insns, cfg, b, j);
      var s :| s in cfg.g.succs[b] && s < |cfg.blocks| && cfg.blocks[s].first == j;
      UnfoldEdge(cfg, p, s);
      PathAppend(cfg.g, p, s);
      p', m' := p + [s], 1;
    }
  }

  lemma MoreOfBlock(insns: seq<Insn>, cfg: Cfg, p: seq<nat>, m: nat)
    requires Simulates(insns, cfg) && p != [] && InBlocks(cfg, p) && 1 <= m < Size(cfg.blocks[p[|p| - 1]])
    requires InsnRun(insns, Unfold(cfg, p, m))
    ensures InsnRun(insns, Unfold(cfg, p, m + 1))
  {
    var b := p[|p| - 1];
    UnfoldLast(cfg, p, m);
    UnfoldLast(cfg, p, m - 1);
    assert WithinAt(insns, cfg, b, m, cfg.blocks[b].first + m);
    RunAppend(insns, Unfold(cfg, p, m), cfg.blocks[b].first + m);
  }

  lemma IntoBlock(insns: seq<Insn>, cfg: Cfg, q: seq<nat>, b: nat)
    requires Simulates(insns, cfg) && q != [] && InBlocks(cfg, q) && b < |cfg.blocks| && Edge(cfg.g, q[|q| - 1], b)
    requires InsnRun(insns, Unfold(cfg, q, Size(cfg.blocks[q[|q| - 1]])))
    ensures InsnRun(insns, Unfold(cfg, q + [b], 1))
  {
    var c := q[|q| - 1];
    UnfoldLast(cfg, q, Size(cfg.blocks[c]) - 1);
    assert AcrossAt(insns, cfg, c, cfg.blocks[b].first);
    UnfoldEdge(cfg, q, b);
    RunAppend(insns, Unfold(cfg, q, Size(cfg.blocks[c])), cfg.blocks[b].first);
  }

  lemma WithoutLast(cfg: Cfg, p: seq<nat>) returns (q: seq<nat>, b: nat)
    requires IsPath(cfg.g, p) && InBlocks(cfg, p) && |p| > 1
    ensures p == q + [b] && |q| < |p| && IsPath(cfg.g, q) && InBlocks(cfg, q) && q[0] == p[0]
    ensures b < |cfg.blocks| && Edge(cfg.g, q[|q| - 1], b)
  {
    q, b := p[..|p| - 1], p[|p| - 1];
    PathPrefix(cfg.g, p);
  }

  lemma {:induction false} PathToRun(insns: seq<Insn>, cfg: Cfg, p: seq<nat>, m: nat)
    requires Simulates(insns, cfg)
    requires IsPath(cfg.g, p) && InBlocks(cfg, p) && p[0] == 0 && 1 <= m <= Size(cfg.blocks[p[|p| - 1]])
    ensures InsnRun(insns, Unfold(cfg, p, m))
    decreases |p|, m
  {
    if m > 1 {
      PathToRun(insns, cfg, p, m - 1);
      MoreOfBlock(insns, cfg, p, m - 1);
    } else if |p| > 1 {
      var q, b := WithoutLast(cfg, p);
      PathToRun(insns, cfg, q, Size(cfg.blocks[q[|q| - 1]]));
      IntoBlock(insns, cfg, q, b);
    } else {
      assert Head(cfg.blocks[0], 1) == [0];
      assert Unfold(cfg, p, 1) == [0];
    }
  }

  /** The runs of the code from its first instruction are exactly the paths of the graph
      from its entry block, unfolded and cut anywhere in their last block. */
  lemma RunsArePaths(insns: seq<Insn>, codeLen: nat, handlers: seq<Handler>, cfg: Cfg, r: seq<nat>)
    requires ValidCode(insns, codeLen, handlers) && Built(insns, codeLen, handlers, cfg) && codeLen > 0
    ensures InsnRun(insns, r) <==> exists p, m :: Follows(cfg, r, p, m)
  {
    GraphSimulates(insns, codeLen, handlers, cfg);
    if InsnRun(insns, r) {
      var p, m := RunToPath(insns, cfg, r);
    }
    if p, m :| Follows(cfg, r, p, m) {
      PathToRun(insns, cfg, p, m);
    }
  }
}
