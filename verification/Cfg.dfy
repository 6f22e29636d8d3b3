/** Building the control flow graph from decoded instructions. */
module Cfg {
  import opened Results
  import opened Graph
  import opened EmissionOrder

  /** Where control goes after an instruction; branch targets are code offsets. */
  datatype Flow =
    | Next
    | Cond(target: nat)
    | Jump(target: nat)
    | Stop
    | Switch(default: nat, targets: seq<nat>)

  datatype Insn = Insn(off: nat, len: nat, flow: Flow)

  datatype Handler = Handler(start: nat, end: nat, pc: nat)

  datatype Block = Block(start: nat, end: nat, first: nat, last: nat)

  // ----- leaders -------------------------------------------------------------------------

  function Targets(flow: Flow): seq<nat> {
    match flow
    case Cond(t) => [t]
    case Jump(t) => [t]
    case Switch(d, ts) => [d] + ts
    case Next => []
    case Stop => []
  }

  /** The instruction makes `o` start a block. */
  predicate Pushes(insn: Insn, o: nat) {
    !insn.flow.Next? && (o in Targets(insn.flow) || o == insn.off + insn.len)
  }

  predicate HandlerPushes(h: Handler, codeLen: nat, o: nat) {
    o == h.pc || o == h.start || (o == h.end && h.end < codeLen)
  }

  ghost predicate IsLeader(insns: seq<Insn>, codeLen: nat, handlers: seq<Handler>, o: nat) {
    o < codeLen && (o == 0
      || (exists i :: 0 <= i < |insns| && Pushes(insns[i], o))
      || (exists i :: 0 <= i < |handlers| && HandlerPushes(handlers[i], codeLen, o)))
  }

  ghost predicate Ascending(s: seq<nat>) {
    forall i, j :: 0 <= i < j < |s| ==> s[i] < s[j]
  }

  function Insert(s: seq<nat>, o: nat): (r: seq<nat>)
    requires Ascending(s)
    ensures Ascending(r) && forall x :: x in r <==> x in s || x == o
  {
    if s == [] then [o]
    else if o < s[0] then [o] + s
    else if o == s[0] then s
    else
      var r := Insert(s[1..], o);
      assert forall x :: x in s <==> x == s[0] || x in s[1..];
      assert forall x :: x in r ==> s[0] < x;
      assert forall i :: 0 <= i < |r| ==> r[i] in r;
      [s[0]] + r
  }

  /** `sort_unstable` and `dedup`. */
  function SortedOffsets(s: seq<nat>): (r: seq<nat>)
    ensures Ascending(r) && forall x :: x in r <==> x in s
  {
    if s == [] then []
    else
      var n := |s| - 1;
      assert s == s[..n] + [s[n]];
      Insert(SortedOffsets(s[..n]), s[n])
  }

  /** `retain` */
  function Below(s: seq<nat>, codeLen: nat): (r: seq<nat>)
    ensures forall x :: x in r <==> x in s && x < codeLen
  {
    if s == [] then []
    else
      var n := |s| - 1;
      assert s == s[..n] + [s[n]];
      Below(s[..n], codeLen) + if s[n] < codeLen then [s[n]] else []
  }

  method CodeLeaders(insns: seq<Insn>) returns (leaders: seq<nat>)
    ensures forall o :: o in leaders <==> o == 0 || exists i :: 0 <= i < |insns| && Pushes(insns[i], o)
  {
    leaders := [0];
    for k := 0 to |insns|
      invariant forall o :: o in leaders <==> o == 0 || exists i :: 0 <= i < k && Pushes(insns[i], o)
    {
      var insn := insns[k];
      ghost var before := leaders;
      if insn.flow.Cond? || insn.flow.Jump? || insn.flow.Switch? {
        leaders := leaders + Targets(insn.flow) + [insn.off + insn.len];
      }
      if insn.flow.Stop? {
        leaders := leaders + [insn.off + insn.len];
      }
      assert forall o :: o in leaders <==> o in before || Pushes(insns[k], o);
    }
  }

  method Leaders(insns: seq<Insn>, codeLen: nat, handlers: seq<Handler>) returns (leaders: seq<nat>)
    ensures Ascending(leaders) && forall o :: o in leaders <==> IsLeader(insns, codeLen, handlers, o)
  {
    leaders := CodeLeaders(insns);
    ghost var inCode := leaders;
    for k := 0 to |handlers|
      invariant forall o :: o in leaders <==>
        o in inCode || exists i :: 0 <= i < k && HandlerPushes(handlers[i], codeLen, o)
    {
      ghost var before := leaders;
      leaders := leaders + [handlers[k].pc, handlers[k].start];
      if handlers[k].end < codeLen {
        leaders := leaders + [handlers[k].end];
      }
      assert forall o :: o in leaders <==> o in before || HandlerPushes(handlers[k], codeLen, o);
    }
    leaders := SortedOffsets(Below(leaders, codeLen));
  }

  // ----- blocks ---------------------------------------------------------------------------

  ghost predicate OffsetsAscend(insns: seq<Insn>) {
    forall i, j :: 0 <= i < j < |insns| ==> insns[i].off < insns[j].off
  }

  /** Exactly the instructions before index `c` are below offset `o`. */
  ghost predicate Cut(insns: seq<Insn>, o: nat, c: nat) {
    c <= |insns| && forall i :: 0 <= i < |insns| ==> (insns[i].off < o <==> i < c)
  }

  function EndOf(leaders: seq<nat>, codeLen: nat, b: nat): nat {
    if b + 1 < |leaders| then leaders[b + 1] else codeLen
  }

  ghost predicate BlockAt(insns: seq<Insn>, leaders: seq<nat>, codeLen: nat, blocks: seq<Block>, b: nat)
    requires b < |leaders| && b < |blocks|
  {
    var block := blocks[b];
    && block.start == leaders[b] && block.end == EndOf(leaders, codeLen, b)
    && Cut(insns, block.start, block.first) && Cut(insns, block.end, block.last)
  }

  method Advance(insns: seq<Insn>, from: nat, limit: nat) returns (index: nat)
    requires OffsetsAscend(insns) && from <= |insns| && forall i :: 0 <= i < from ==> insns[i].off < limit
    ensures Cut(insns, limit, index)
  {
    index := from;
    while index < |insns| && insns[index].off < limit
      invariant from <= index <= |insns|
      invariant forall i :: 0 <= i < index ==> insns[i].off < limit
    {
      index := index + 1;
    }
  }

  method SplitBlocks(insns: seq<Insn>, leaders: seq<nat>, codeLen: nat) returns (blocks: seq<Block>)
    requires OffsetsAscend(insns) && Ascending(leaders) && forall b :: 0 <= b < |leaders| ==> leaders[b] < codeLen
    ensures |blocks| == |leaders| && forall b :: 0 <= b < |leaders| ==> BlockAt(insns, leaders, codeLen, blocks, b)
  {
    blocks := [];
    var index: nat := 0;
    for b := 0 to |leaders|
      invariant |blocks| == b && forall k :: 0 <= k < b ==> BlockAt(insns, leaders, codeLen, blocks, k)
      invariant index <= |insns|
      invariant forall i :: 0 <= i < index ==> insns[i].off < if b < |leaders| then leaders[b] else codeLen
    {
      var start, end := leaders[b], EndOf(leaders, codeLen, b);
      index := Advance(insns, index, start);
      var first := index;
      index := Advance(insns, index, end);
      ghost var before := blocks;
      blocks := blocks + [Block(start, end, first, index)];
      forall k | 0 <= k < b
        ensures BlockAt(insns, leaders, codeLen, blocks, k)
      {
        assert BlockAt(insns, leaders, codeLen, before, k);
      }
    }
  }

  // ----- edges ------------------------------------------------------------------------------

  /** `find`: the block that starts at an offset. */
  function Find(leaders: seq<nat>, o: nat): (r: Option<nat>)
    ensures r.None? ==> o !in leaders
    ensures r.Some? ==> r.value < |leaders| && leaders[r.value] == o
  {
    if leaders == [] then None
    else
      var n := |leaders| - 1;
      assert leaders == leaders[..n] + [leaders[n]];
      var r := Find(leaders[..n], o);
      if r.Some? then r else if leaders[n] == o then Some(n) else None
  }

  /** A successor is added once. */
  function Add(succs: seq<nat>, found: Option<nat>): (r: seq<nat>)
    ensures forall x :: x in r <==> x in succs || found == Some(x)
  {
    if found.None? || found.value in succs then succs else succs + [found.value]
  }

  function AddAll(leaders: seq<nat>, succs: seq<nat>, targets: seq<nat>, k: nat): (r: seq<nat>)
    requires k <= |targets|
  {
    if k == 0 then succs else Add(AddAll(leaders, succs, targets, k - 1), Find(leaders, targets[k - 1]))
  }

  /** The successors of a block, from the flow of its last instruction. */
  function SuccsOf(leaders: seq<nat>, flow: Option<Flow>, end: nat): seq<nat> {
    match flow
    case Some(Stop) => []
    case Some(Jump(t)) => Add([], Find(leaders, t))
    case Some(Switch(d, ts)) => AddAll(leaders, Add([], Find(leaders, d)), ts, |ts|)
    case Some(Cond(t)) => Add(Add([], Find(leaders, t)), Find(leaders, end))
    case Some(Next) => Add([], Find(leaders, end))
    case None => Add([], Find(leaders, end))
  }

  function LastFlow(insns: seq<Insn>, block: Block): Option<Flow>
    requires block.last <= |insns|
  {
    if block.last > block.first then Some(insns[block.last - 1].flow) else None
  }

  method Successors(leaders: seq<nat>, flow: Option<Flow>, end: nat) returns (succs: seq<nat>)
    ensures succs == SuccsOf(leaders, flow, end)
  {
    succs := [];
    match flow
    case Some(Stop) =>
    case Some(Jump(t)) =>
      var tb := Find(leaders, t);
      if tb.Some? { succs := succs + [tb.value]; }
    case Some(Switch(d, ts)) =>
      var db := Find(leaders, d);
      if db.Some? { succs := succs + [db.value]; }
      for k := 0 to |ts|
        invariant succs == AddAll(leaders, Add([], db), ts, k)
      {
        var tb := Find(leaders, ts[k]);
        if tb.Some? && tb.value !in succs { succs := succs + [tb.value]; }
      }
    case Some(Cond(t)) =>
      var tb := Find(leaders, t);
      if tb.Some? { succs := succs + [tb.value]; }
      var fb := Find(leaders, end);
      if fb.Some? && fb.value !in succs { succs := succs + [fb.value]; }
    case _ =>
      var fb := Find(leaders, end);
      if fb.Some? { succs := succs + [fb.value]; }
  }

  lemma AddKeeps(leaders: seq<nat>, succs: seq<nat>, o: nat)
    requires NoRepeats(succs) && forall x :: x in succs ==> x < |leaders|
    ensures var r := Add(succs, Find(leaders, o)); NoRepeats(r) && forall x :: x in r ==> x < |leaders|
  {
    assert forall i :: 0 <= i < |succs| ==> succs[i] in succs;
  }

  lemma {:induction false} AddAllKeeps(leaders: seq<nat>, succs: seq<nat>, targets: seq<nat>, k: nat)
    requires k <= |targets| && NoRepeats(succs) && forall x :: x in succs ==> x < |leaders|
    ensures var r := AddAll(leaders, succs, targets, k); NoRepeats(r) && forall x :: x in r ==> x < |leaders|
  {
    if k > 0 {
      AddAllKeeps(leaders, succs, targets, k - 1);
      AddKeeps(leaders, AddAll(leaders, succs, targets, k - 1), targets[k - 1]);
    }
  }

  lemma SuccsKeep(leaders: seq<nat>, flow: Option<Flow>, end: nat)
    ensures var r := SuccsOf(leaders, flow, end); NoRepeats(r) && forall x :: x in r ==> x < |leaders|
  {
    AddKeeps(leaders, [], end);
    match flow
    case Some(Jump(t)) => AddKeeps(leaders, [], t);
    case Some(Switch(d, ts)) =>
      AddKeeps(leaders, [], d);
      AddAllKeeps(leaders, Add([], Find(leaders, d)), ts, |ts|);
    case Some(Cond(t)) =>
      AddKeeps(leaders, [], t);
      AddKeeps(leaders, Add([], Find(leaders, t)), end);
    case _ =>
  }

  /** The edges out of the first `n` blocks and the first `k` edges out of the next one. */
  ghost predicate HasEdge(succs: seq<seq<nat>>, n: nat, k: nat, a: nat, s: nat) {
    (a < n && a < |succs| && s in succs[a]) || (a == n < |succs| && k <= |succs[a]| && s in succs[a][..k])
  }

  /** Predecessors are the converse of successors. */
  method Predecessors(succs: seq<seq<nat>>) returns (preds: seq<seq<nat>>)
    requires forall a :: 0 <= a < |succs| ==> forall i :: 0 <= i < |succs[a]| ==> succs[a][i] < |succs|
    ensures |preds| == |succs|
    ensures forall a: nat, s: nat :: s < |succs| && a in preds[s] ==> a < |succs|
    ensures forall a: nat, s: nat :: a < |succs| && s < |succs| ==> (s in succs[a] <==> a in preds[s])
  {
    preds := seq(|succs|, _ => []);
    for n := 0 to |succs|
      invariant |preds| == |succs|
      invariant forall a: nat, s: nat :: s < |succs| ==> (a in preds[s] <==> HasEdge(succs, n, 0, a, s))
    {
      for k := 0 to |succs[n]|
        invariant |preds| == |succs|
        invariant forall a: nat, s: nat :: s < |succs| ==> (a in preds[s] <==> HasEdge(succs, n, k, a, s))
      {
        var s := succs[n][k];
        assert succs[n][..k + 1] == succs[n][..k] + [s];
        if n !in preds[s] {
          preds := preds[s := preds[s] + [n]];
        }
      }
      assert succs[n][..|succs[n]|] == succs[n];
    }
  }

  // ----- the graph --------------------------------------------------------------------------

  datatype Cfg = Cfg(blocks: seq<Block>, g: Graph, handlerBlocks: seq<nat>, reachable: seq<bool>)

  function Starts(blocks: seq<Block>): (r: seq<nat>)
    ensures |r| == |blocks| && forall i :: 0 <= i < |r| ==> r[i] == blocks[i].start
  {
    seq(|blocks|, i requires 0 <= i < |blocks| => blocks[i].start)
  }

  ghost predicate HasEdges(insns: seq<Insn>, cfg: Cfg, b: nat) {
    && b < |cfg.blocks| == |cfg.g.succs| && cfg.blocks[b].last <= |insns|
    && cfg.g.succs[b] == SuccsOf(Starts(cfg.blocks), LastFlow(insns, cfg.blocks[b]), cfg.blocks[b].end)
  }

  ghost predicate IsHandlerBlock(handlers: seq<Handler>, leaders: seq<nat>, b: nat) {
    exists i :: 0 <= i < |handlers| && Find(leaders, handlers[i].pc) == Some(b)
  }

  /** What `build_cfg` makes of non-empty code. */
  ghost predicate Built(insns: seq<Insn>, codeLen: nat, handlers: seq<Handler>, cfg: Cfg) {
    var leaders := Starts(cfg.blocks);
    && Ascending(leaders) && (forall o :: o in leaders <==> IsLeader(insns, codeLen, handlers, o))
    && (forall b :: 0 <= b < |leaders| ==> BlockAt(insns, leaders, codeLen, cfg.blocks, b))
    && WellFormed(cfg.g) && cfg.g.Size() == |cfg.blocks|
    && (forall b :: 0 <= b < |cfg.blocks| ==> HasEdges(insns, cfg, b))
    && (forall b :: 0 <= b < |cfg.blocks| ==> NoRepeats(cfg.g.succs[b]))
    && |cfg.handlerBlocks| <= |handlers|
      && (forall b :: b in cfg.handlerBlocks <==> IsHandlerBlock(handlers, leaders, b))
    && EmissionOrder.Marked(cfg.g, Roots(cfg.handlerBlocks), cfg.reachable)
  }

  method BlockEdges(insns: seq<Insn>, blocks: seq<Block>) returns (succs: seq<seq<nat>>)
    requires forall b :: 0 <= b < |blocks| ==> blocks[b].last <= |insns|
    ensures |succs| == |blocks|
    ensures forall b :: 0 <= b < |blocks| ==>
      succs[b] == SuccsOf(Starts(blocks), LastFlow(insns, blocks[b]), blocks[b].end)
  {
    succs := [];
    for b := 0 to |blocks|
      invariant |succs| == b
      invariant forall k :: 0 <= k < b ==>
        succs[k] == SuccsOf(Starts(blocks), LastFlow(insns, blocks[k]), blocks[k].end)
    {
      var succ := Successors(Starts(blocks), LastFlow(insns, blocks[b]), blocks[b].end);
      succs := succs + [succ];
    }
  }

  method HandlerBlocks(handlers: seq<Handler>, leaders: seq<nat>) returns (found: seq<nat>)
    ensures |found| <= |handlers| && forall b :: b in found <==> IsHandlerBlock(handlers, leaders, b)
  {
    found := [];
    for k := 0 to |handlers|
      invariant |found| <= k
      invariant forall b :: b in found <==> exists i :: 0 <= i < k && Find(leaders, handlers[i].pc) == Some(b)
    {
      var hb := Find(leaders, handlers[k].pc);
      if hb.Some? && hb.value !in found { found := found + [hb.value]; }
    }
  }

  /** `build_cfg` */
  method BuildCfg(insns: seq<Insn>, codeLen: nat, handlers: seq<Handler>) returns (cfg: Cfg)
    requires OffsetsAscend(insns)
    ensures codeLen == 0 ==> cfg == Cfg([], Graph([], []), [], [])
    ensures codeLen > 0 ==> Built(insns, codeLen, handlers, cfg)
  {
    if codeLen == 0 { return Cfg([], Graph([], []), [], []); }
    var leaders := Leaders(insns, codeLen, handlers);
    forall b | 0 <= b < |leaders|
      ensures leaders[b] < codeLen
    {
      assert leaders[b] in leaders;
    }
    var blocks := SplitBlocks(insns, leaders, codeLen);
    forall b | 0 <= b < |blocks|
      ensures blocks[b].last <= |insns| && blocks[b].start == leaders[b]
    {
      assert BlockAt(insns, leaders, codeLen, blocks, b);
    }
    assert Starts(blocks) == leaders;
    var succs := BlockEdges(insns, blocks);
    forall b | 0 <= b < |succs|
      ensures NoRepeats(succs[b]) && forall x :: x in succs[b] ==> x < |succs|
      ensures forall i :: 0 <= i < |succs[b]| ==> succs[b][i] < |succs|
    {
      SuccsKeep(leaders, LastFlow(insns, blocks[b]), blocks[b].end);
      assert forall i :: 0 <= i < |succs[b]| ==> succs[b][i] in succs[b];
    }
    var preds := Predecessors(succs);
    var g := Graph(succs, preds);
    var handlerBlocks := HandlerBlocks(handlers, leaders);
    forall h | h in handlerBlocks
      ensures h < g.Size()
    {
      assert IsHandlerBlock(handlers, leaders, h);
    }
    assert WellFormed(g);
    var reachable := MarkReachable(g, handlerBlocks);
    cfg := Cfg(blocks, g, handlerBlocks, reachable[..]);
    assert forall b :: 0 <= b < |cfg.blocks| ==> HasEdges(insns, cfg, b);
  }
}
