/** Emulating a whole method: blocks in emission order, with the operand stack carried
    over to a single successor or spilled into temporaries at a join. */
module MethodEmulation {
  import opened Results
  import opened JavaInts
  import opened Ir
  import opened Emulation
  import opened BlockMeaning
  import opened Declarations
  import opened Names
  import opened Widths
  import opened Graph
  import opened EmissionOrder
  import Jvm

  /** A method body: its control flow graph and the instructions of each block. */
  datatype Body = Body(g: Graph, code: seq<seq<Jvm.Sem>>)

  ghost predicate ValidBody(body: Body, maxLocals: nat) {
    && WellFormed(body.g) && body.g.Size() > 0 && |body.code| == body.g.Size()
    && (forall b :: 0 <= b < |body.code| ==> AllFit(body.code[b], maxLocals))
    && (forall b :: 0 <= b < |body.code| ==> NoRepeats(body.g.succs[b]))
    && (forall b :: 0 <= b < |body.code| ==> forall s :: s in body.g.succs[b] ==> s < body.g.Size())
  }

  datatype BlockResult = BlockResult(stmts: seq<Stmt>, cond: Option<Expr>, targets: seq<nat>, leftover: seq<Expr>)

  // ----- stack depths -------------------------------------------------------------------

  /** What the bytecode verifier guarantees: each reachable block is entered with one
      stack depth, whichever way it is reached. */
  ghost predicate Consistent(body: Body, reachable: seq<bool>, depth: seq<nat>)
    requires |body.code| == body.g.Size()
  {
    && |depth| == |reachable| == body.g.Size() && body.g.Size() > 0 && depth[0] == 0
    && forall b :: 0 <= b < body.g.Size() && reachable[b] ==> ConsistentAt(body, depth, b)
  }

  ghost predicate ConsistentAt(body: Body, depth: seq<nat>, b: nat)
    requires |body.code| == body.g.Size() == |depth| && b < |depth|
  {
    var out := Jvm.Depth(body.code[b], depth[b]);
    && out.Some?
    && forall s :: s in body.g.succs[b] && s < |depth| ==> depth[s] == out.value
  }

  lemma EmulateGrows(sem: Jvm.Sem, infos: seq<LocalInfo>, e: Emu)
    requires Jvm.Fits(sem, |infos|) && !MeetsWide(sem, e.stack)
    ensures Emulate(sem, infos, e).Ok? <==> |e.stack| >= Jvm.Needs(sem)
    ensures Emulate(sem, infos, e).Ok? ==> |Emulate(sem, infos, e).value.stack| == |e.stack| + Jvm.Grows(sem)
  {
  }

  lemma {:induction false} DepthUpTo(code: seq<Jvm.Sem>, infos: seq<LocalInfo>, e: Emu, k: nat)
    requires AllFit(code, |infos|) && NeverWide(code, infos, e) && k <= |code|
    ensures Jvm.Depth(code[..k], |e.stack|).Some? <==> EmulateAll(code[..k], infos, e).Ok?
    ensures EmulateAll(code[..k], infos, e).Ok? ==>
      |EmulateAll(code[..k], infos, e).value.stack| == Jvm.Depth(code[..k], |e.stack|).value
  {
    if k > 0 {
      DepthUpTo(code, infos, e, k - 1);
      EmulateUpTo(code, infos, e, k - 1);
      Prefix(code, k - 1);
      if EmulateAll(code[..k - 1], infos, e).Ok? {
        assert NotWideAt(code, infos, e, k - 1);
        EmulateGrows(code[k - 1], infos, EmulateAll(code[..k - 1], infos, e).value);
      }
    }
  }

  /** The emulation succeeds where the verifier sees no underflow, and leaves the stack at
      the depth the verifier computes. */
  lemma DepthDecides(code: seq<Jvm.Sem>, infos: seq<LocalInfo>, e: Emu)
    requires AllFit(code, |infos|) && NeverWide(code, infos, e)
    ensures Jvm.Depth(code, |e.stack|).Some? <==> EmulateAll(code, infos, e).Ok?
    ensures EmulateAll(code, infos, e).Ok? ==>
      |EmulateAll(code, infos, e).value.stack| == Jvm.Depth(code, |e.stack|).value
  {
    assert code[..|code|] == code;
    DepthUpTo(code, infos, e, |code|);
  }

  /** The emulation looks only at the slots of the method, not at the temporaries. */
  lemma EmulateSameBase(sem: Jvm.Sem, base: seq<LocalInfo>, infos: seq<LocalInfo>, e: Emu)
    requires Jvm.Fits(sem, |base|) && base <= infos
    ensures Emulate(sem, infos, e) == Emulate(sem, base, e)
  {
  }

  // ----- handing the stack over -------------------------------------------------------------

  /** What the successors of the blocks emulated so far will find on their stack. */
  datatype Joins = Joins(direct: seq<Option<seq<Expr>>>, incoming: seq<Option<seq<nat>>>)

  predicate InRange(temps: seq<nat>, lo: nat, hi: nat) {
    forall i :: 0 <= i < |temps| ==> lo <= temps[i] < hi
  }

  function LocalExprs(infos: seq<LocalInfo>, temps: seq<nat>): (r: seq<Expr>)
    requires InRange(temps, 0, |infos|)
    ensures |r| == |temps| && forall i :: 0 <= i < |r| ==> r[i] == LocalExpr(infos, temps[i])
  {
    seq(|temps|, i requires 0 <= i < |temps| => LocalExpr(infos, temps[i]))
  }

  predicate AllInRange(incoming: seq<Option<seq<nat>>>, lo: nat, hi: nat) {
    forall s :: 0 <= s < |incoming| && incoming[s].Some? ==> InRange(incoming[s].value, lo, hi)
  }

  /** The stack the block `s` is entered with. */
  function EntryOf(j: Joins, infos: seq<LocalInfo>, s: nat): seq<Expr>
    requires s < |j.direct| == |j.incoming| && AllInRange(j.incoming, 0, |infos|)
  {
    if j.direct[s].Some? then j.direct[s].value
    else if j.incoming[s].Some? then LocalExprs(infos, j.incoming[s].value)
    else []
  }

  /** The only way into `s` is from `b`. */
  predicate Handed(g: Graph, b: nat, s: nat) {
    s < |g.preds| && g.preds[s] == [b]
  }

  /** The first `k` assignments of stack values to temporaries. */
  function Assigns(infos: seq<LocalInfo>, temps: seq<nat>, leftover: seq<Expr>, k: nat): seq<Stmt>
    requires k <= |temps| == |leftover| && InRange(temps, 0, |infos|)
  {
    if k == 0 then []
    else Assigns(infos, temps, leftover, k - 1) + [Assign(LocalExpr(infos, temps[k - 1]), leftover[k - 1])]
  }

  /** The spill at the edge from `b` to `s`. */
  function SpillTo(g: Graph, infos: seq<LocalInfo>, incoming: seq<Option<seq<nat>>>, b: nat, leftover: seq<Expr>,
                   s: nat): seq<Stmt>
    requires AllInRange(incoming, 0, |infos|)
  {
    if s >= |incoming| || Handed(g, b, s) || incoming[s].None? || |incoming[s].value| != |leftover| then []
    else Assigns(infos, incoming[s].value, leftover, |leftover|)
  }

  /** The spills at the edges to the first `k` successors. */
  function Spills(g: Graph, infos: seq<LocalInfo>, incoming: seq<Option<seq<nat>>>, b: nat, leftover: seq<Expr>,
                  succs: seq<nat>, k: nat): seq<Stmt>
    requires AllInRange(incoming, 0, |infos|) && k <= |succs|
  {
    if k == 0 then []
    else Spills(g, infos, incoming, b, leftover, succs, k - 1) + SpillTo(g, infos, incoming, b, leftover, succs[k - 1])
  }

  /** More temporaries, more decisions: nothing decided changes. */
  ghost predicate Grown(j: Joins, infos: seq<LocalInfo>, j': Joins, infos': seq<LocalInfo>) {
    && infos <= infos' && |j.direct| == |j'.direct| && |j.incoming| == |j'.incoming|
    && (forall s :: 0 <= s < |j.direct| && j.direct[s].Some? ==> j'.direct[s] == j.direct[s])
    && (forall s :: 0 <= s < |j.incoming| && j.incoming[s].Some? ==> j'.incoming[s] == j.incoming[s])
  }

  lemma {:induction false} AssignsStay(infos: seq<LocalInfo>, infos': seq<LocalInfo>, temps: seq<nat>,
                                       leftover: seq<Expr>, k: nat)
    requires k <= |temps| == |leftover| && InRange(temps, 0, |infos|) && infos <= infos'
    ensures Assigns(infos', temps, leftover, k) == Assigns(infos, temps, leftover, k)
  {
    if k > 0 { AssignsStay(infos, infos', temps, leftover, k - 1); }
  }

  lemma {:induction false} SpillsStay(g: Graph, infos: seq<LocalInfo>, j: Joins, infos': seq<LocalInfo>, j': Joins,
                                      b: nat, leftover: seq<Expr>, succs: seq<nat>, k: nat)
    requires Grown(j, infos, j', infos') && k <= |succs| && AllInRange(j.incoming, 0, |infos|)
      && AllInRange(j'.incoming, 0, |infos'|)
    requires forall i :: 0 <= i < k ==>
      Handed(g, b, succs[i]) || (succs[i] < |j.incoming| && j.incoming[succs[i]].Some?)
    ensures Spills(g, infos', j'.incoming, b, leftover, succs, k) == Spills(g, infos, j.incoming, b, leftover, succs, k)
  {
    if k > 0 {
      SpillsStay(g, infos, j, infos', j', b, leftover, succs, k - 1);
      var s := succs[k - 1];
      if !Handed(g, b, s) && |j.incoming[s].value| == |leftover| {
        AssignsStay(infos, infos', j.incoming[s].value, leftover, |leftover|);
      }
    }
  }

  // ----- ints on the stack ----------------------------------------------------------------------

  /** The method has neither `pop2` nor `dup2`. */
  ghost predicate Single(body: Body) {
    forall b :: 0 <= b < |body.code| ==> NoDoubles(body.code[b])
  }

  /** `pop2` and `dup2` meet only ints: there are none of them, or every variable that is loaded
      is recorded as `int`. */
  ghost predicate IntTops(body: Body, base: seq<LocalInfo>)
    requires forall b :: 0 <= b < |body.code| ==> AllFit(body.code[b], |base|)
  {
    Single(body) || forall b :: 0 <= b < |body.code| ==> IntLoads(body.code[b], base)
  }

  ghost predicate NarrowTemps(infos: seq<LocalInfo>, temps: seq<nat>) {
    forall i :: 0 <= i < |temps| && temps[i] < |infos| ==> infos[temps[i]].ty.Int?
  }

  ghost predicate NarrowJoins(infos: seq<LocalInfo>, j: Joins) {
    && (forall s :: 0 <= s < |j.direct| && j.direct[s].Some? ==> AllNarrow(j.direct[s].value))
    && (forall s :: 0 <= s < |j.incoming| && j.incoming[s].Some? ==> NarrowTemps(infos, j.incoming[s].value))
  }

  /** Where it matters, the values handed over are recorded as ints. */
  ghost predicate HandsInts(body: Body, infos: seq<LocalInfo>, j: Joins) {
    Single(body) || NarrowJoins(infos, j)
  }

  lemma EntryNarrow(infos: seq<LocalInfo>, j: Joins, s: nat)
    requires s < |j.direct| == |j.incoming| && AllInRange(j.incoming, 0, |infos|) && NarrowJoins(infos, j)
    ensures AllNarrow(EntryOf(j, infos, s))
  {
    if j.direct[s].None? && j.incoming[s].Some? {
      var temps := j.incoming[s].value;
      assert NarrowTemps(infos, temps) && InRange(temps, 0, |infos|);
    }
  }

  lemma NoDoublesNoWide(code: seq<Jvm.Sem>, infos: seq<LocalInfo>, e: Emu)
    requires AllFit(code, |infos|) && NoDoubles(code)
    ensures NeverWide(code, infos, e)
  {
  }

  /** So no block meets a wide expression where it looks for two ints, and it hands on ints again. */
  lemma BlockInts(body: Body, base: seq<LocalInfo>, infos: seq<LocalInfo>, j: Joins, b: nat)
    requires ValidBody(body, |base|) && IntTops(body, base) && HandsInts(body, infos, j)
    requires b < |body.code| == |j.direct| == |j.incoming| && AllInRange(j.incoming, 0, |infos|)
    ensures NeverWide(body.code[b], base, Emu(EntryOf(j, infos, b), [], None))
    ensures var out := EmulateAll(body.code[b], base, Emu(EntryOf(j, infos, b), [], None));
      out.Ok? ==> Single(body) || AllNarrow(out.value.stack)
  {
    if Single(body) {
      NoDoublesNoWide(body.code[b], base, Emu(EntryOf(j, infos, b), [], None));
    } else {
      EntryNarrow(infos, j, b);
      NarrowBlock(body.code[b], base, Emu(EntryOf(j, infos, b), [], None));
    }
  }

  // ----- what holds between blocks ------------------------------------------------------------

  predicate UsedAt(incoming: seq<Option<seq<nat>>>, s: int, i: int) {
    0 <= s < |incoming| && incoming[s].Some? && 0 <= i < |incoming[s].value|
  }

  /** No temporary is used for two stack values. */
  ghost predicate Apart(incoming: seq<Option<seq<nat>>>) {
    forall s, i, s', i' :: UsedAt(incoming, s, i) && UsedAt(incoming, s', i')
      && incoming[s].value[i] == incoming[s'].value[i']
      ==> s == s' && i == i'
  }

  ghost predicate DirectAt(g: Graph, depth: seq<nat>, direct: seq<Option<seq<Expr>>>, done: set<nat>, s: nat)
    requires s < |direct| == |depth| && |g.preds| == |depth|
  {
    direct[s].Some? ==> |direct[s].value| == depth[s] > 0 && |g.preds[s]| == 1 && g.preds[s][0] in done
  }

  ghost predicate IncomingAt(g: Graph, depth: seq<nat>, incoming: seq<Option<seq<nat>>>, s: nat)
    requires s < |incoming| == |depth| && |g.preds| == |depth|
  {
    incoming[s].Some? ==> |incoming[s].value| == depth[s] > 0 && |g.preds[s]| != 1
  }

  ghost predicate JoinsOk(g: Graph, depth: seq<nat>, base: nat, infos: seq<LocalInfo>, j: Joins, done: set<nat>) {
    && |g.preds| == |depth| == |j.direct| == |j.incoming| == g.Size()
    && AllInRange(j.incoming, base, |infos|) && base <= |infos|
    && Apart(j.incoming)
    && (forall s :: 0 <= s < |depth| ==> DirectAt(g, depth, j.direct, done, s))
    && (forall s :: 0 <= s < |depth| ==> IncomingAt(g, depth, j.incoming, s))
  }

  /** The edge from `b` to `s` has been taken care of. */
  ghost predicate Served(g: Graph, j: Joins, b: nat, leftover: seq<Expr>, s: nat) {
    && s < |j.direct| == |j.incoming|
    && if Handed(g, b, s) then j.direct[s] == Some(leftover) else j.incoming[s].Some?
  }

  /** The result of block `b`. */
  ghost predicate Emulated(body: Body, base: seq<LocalInfo>, infos: seq<LocalInfo>, j: Joins, b: nat, r: BlockResult)
    requires b < |body.code| == body.g.Size() && AllFit(body.code[b], |base|)
    requires b < |j.direct| == |j.incoming| && AllInRange(j.incoming, 0, |infos|)
  {
    var out := EmulateAll(body.code[b], base, Emu(EntryOf(j, infos, b), [], None));
    var succs := body.g.succs[b];
    && out.Ok? && r.cond == out.value.cond && r.leftover == out.value.stack && r.targets == succs
    && r.stmts == out.value.stmts
      + (if r.leftover == [] then [] else Spills(body.g, infos, j.incoming, b, r.leftover, succs, |succs|))
    && (r.leftover != [] ==> forall k :: 0 <= k < |succs| ==> Served(body.g, j, b, r.leftover, succs[k]))
  }

  ghost predicate Decided(j: Joins, depth: seq<nat>, b: nat)
    requires b < |j.direct| == |j.incoming| == |depth|
  {
    depth[b] == 0 || j.direct[b].Some? || j.incoming[b].Some?
  }

  lemma EntryStays(g: Graph, depth: seq<nat>, base: nat, infos: seq<LocalInfo>, j: Joins, infos': seq<LocalInfo>,
                   j': Joins, done: set<nat>, done': set<nat>, b: nat)
    requires JoinsOk(g, depth, base, infos, j, done) && JoinsOk(g, depth, base, infos', j', done')
    requires Grown(j, infos, j', infos') && b < |depth| && Decided(j, depth, b)
    ensures EntryOf(j', infos', b) == EntryOf(j, infos, b) && Decided(j', depth, b)
  {
    assert DirectAt(g, depth, j.direct, done, b) && IncomingAt(g, depth, j.incoming, b);
    assert DirectAt(g, depth, j'.direct, done', b) && IncomingAt(g, depth, j'.incoming, b);
  }

  lemma EmulatedStays(body: Body, base: seq<LocalInfo>, depth: seq<nat>, infos: seq<LocalInfo>, j: Joins,
                      infos': seq<LocalInfo>, j': Joins, done: set<nat>, done': set<nat>, b: nat, r: BlockResult)
    requires ValidBody(body, |base|) && b < |depth|
    requires JoinsOk(body.g, depth, |base|, infos, j, done) && JoinsOk(body.g, depth, |base|, infos', j', done')
    requires Grown(j, infos, j', infos') && Decided(j, depth, b) && Emulated(body, base, infos, j, b, r)
    ensures Emulated(body, base, infos', j', b, r) && Decided(j', depth, b)
  {
    EntryStays(body.g, depth, |base|, infos, j, infos', j', done, done', b);
    var succs := body.g.succs[b];
    if r.leftover != [] {
      forall k | 0 <= k < |succs|
        ensures Served(body.g, j', b, r.leftover, succs[k])
        ensures Handed(body.g, b, succs[k]) || (succs[k] < |j.incoming| && j.incoming[succs[k]].Some?)
      {
        assert Served(body.g, j, b, r.leftover, succs[k]);
      }
      SpillsStay(body.g, infos, j, infos', j', b, r.leftover, succs, |succs|);
    }
  }

  // ----- one edge ---------------------------------------------------------------------------------

  /** Block `b`, after the edges to its first `k` successors. */
  ghost predicate Serving(body: Body, depth: seq<nat>, base: nat, infos: seq<LocalInfo>, j: Joins, done: set<nat>,
                          b: nat, leftover: seq<Expr>, k: nat, spilled: seq<Stmt>) {
    && WellFormed(body.g) && b < body.g.Size() && NoRepeats(body.g.succs[b]) && leftover != []
    && JoinsOk(body.g, depth, base, infos, j, done + {b}) && Unique(infos)
    && HandsInts(body, infos, j) && (Single(body) || AllNarrow(leftover))
    && k <= |body.g.succs[b]|
    && (forall i :: 0 <= i < |body.g.succs[b]| ==>
          body.g.succs[b][i] < |depth| && depth[body.g.succs[b][i]] == |leftover|)
    && (forall i :: 0 <= i < k ==> Served(body.g, j, b, leftover, body.g.succs[b][i]))
    && (forall i :: k <= i < |body.g.succs[b]| ==> Waiting(body.g, j, b, body.g.succs[b][i]))
    && spilled == Spills(body.g, infos, j.incoming, b, leftover, body.g.succs[b], k)
  }

  ghost predicate Waiting(g: Graph, j: Joins, b: nat, s: nat) {
    s < |j.direct| && (Handed(g, b, s) ==> j.direct[s].None?)
  }

  lemma ServedStays(g: Graph, j: Joins, infos: seq<LocalInfo>, j': Joins, infos': seq<LocalInfo>, b: nat,
                    leftover: seq<Expr>, s: nat)
    requires Served(g, j, b, leftover, s) && Grown(j, infos, j', infos')
    ensures Served(g, j', b, leftover, s)
  {
  }

  /** A single successor inherits the stack itself. */
  lemma ServeDirectly(body: Body, depth: seq<nat>, base: nat, infos: seq<LocalInfo>, j: Joins, done: set<nat>, b: nat,
                      leftover: seq<Expr>, k: nat, spilled: seq<Stmt>)
    requires Serving(body, depth, base, infos, j, done, b, leftover, k, spilled)
    requires k < |body.g.succs[b]| && Handed(body.g, b, body.g.succs[b][k])
    ensures body.g.succs[b][k] < |j.direct|
    ensures var j' := j.(direct := j.direct[body.g.succs[b][k] := Some(leftover)]);
      Serving(body, depth, base, infos, j', done, b, leftover, k + 1, spilled) && Grown(j, infos, j', infos)
  {
    var succs := body.g.succs[b];
    var s := succs[k];
    assert Waiting(body.g, j, b, s);
    var j' := j.(direct := j.direct[s := Some(leftover)]);
    forall x | 0 <= x < |depth|
      ensures DirectAt(body.g, depth, j'.direct, done + {b}, x)
    {
      assert DirectAt(body.g, depth, j.direct, done + {b}, x);
    }
    forall i | 0 <= i < k + 1
      ensures Served(body.g, j', b, leftover, succs[i])
    {
      if i < k { ServedStays(body.g, j, infos, j', infos, b, leftover, succs[i]); }
    }
    forall i | k + 1 <= i < |succs|
      ensures Waiting(body.g, j', b, succs[i])
    {
      assert Waiting(body.g, j, b, succs[i]);
    }
    SpillsStay(body.g, infos, j, infos, j', b, leftover, succs, k);
  }

  /** A join whose temporaries exist gets the stack assigned to them. */
  lemma ServeJoin(body: Body, depth: seq<nat>, base: nat, infos: seq<LocalInfo>, j: Joins, done: set<nat>, b: nat,
                  leftover: seq<Expr>, k: nat, spilled: seq<Stmt>)
    requires Serving(body, depth, base, infos, j, done, b, leftover, k, spilled)
    requires k < |body.g.succs[b]| && !Handed(body.g, b, body.g.succs[b][k])
    requires var s := body.g.succs[b][k]; s < |j.incoming| && j.incoming[s].Some?
    ensures var s := body.g.succs[b][k];
      && |j.incoming[s].value| == |leftover| && InRange(j.incoming[s].value, 0, |infos|)
      && Serving(body, depth, base, infos, j, done, b, leftover, k + 1,
        spilled + Assigns(infos, j.incoming[s].value, leftover, |leftover|))
  {
    var s := body.g.succs[b][k];
    assert IncomingAt(body.g, depth, j.incoming, s);
    assert Served(body.g, j, b, leftover, s);
  }

  /** Fresh temporaries for the join `s`. */
  lemma NewJoin(body: Body, depth: seq<nat>, base: nat, infos: seq<LocalInfo>, j: Joins, done: set<nat>, b: nat,
                leftover: seq<Expr>, k: nat, spilled: seq<Stmt>,
                infos': seq<LocalInfo>, temps: seq<nat>)
    requires Serving(body, depth, base, infos, j, done, b, leftover, k, spilled)
    requires k < |body.g.succs[b]| && !Handed(body.g, b, body.g.succs[b][k])
    requires var s := body.g.succs[b][k]; s < |j.incoming| && j.incoming[s].None?
    requires infos <= infos' && Unique(infos') && |temps| == |leftover| && InRange(temps, |infos|, |infos'|)
      && NoRepeats(temps)
    requires forall i :: 0 <= i < |temps| ==> infos'[temps[i]].ty == TypeOf(leftover[i])
    ensures var s := body.g.succs[b][k];
      var j' := j.(incoming := j.incoming[s := Some(temps)]);
      Serving(body, depth, base, infos', j', done, b, leftover, k, spilled) && Grown(j, infos, j', infos')
  {
    var succs := body.g.succs[b];
    var s := succs[k];
    var j' := j.(incoming := j.incoming[s := Some(temps)]);
    NotSingle(body.g, b, s);
    forall x | 0 <= x < |depth|
      ensures IncomingAt(body.g, depth, j'.incoming, x)
      ensures DirectAt(body.g, depth, j'.direct, done + {b}, x)
    {
      assert IncomingAt(body.g, depth, j.incoming, x) && DirectAt(body.g, depth, j.direct, done + {b}, x);
    }
    NewTempsApart(j.incoming, s, temps, base, |infos|, |infos'|);
    if !Single(body) { NewTempsNarrow(infos, j, infos', s, temps, leftover); }
    forall i | 0 <= i < k
      ensures Served(body.g, j', b, leftover, succs[i])
      ensures Handed(body.g, b, succs[i]) || (succs[i] < |j.incoming| && j.incoming[succs[i]].Some?)
    {
      assert Served(body.g, j, b, leftover, succs[i]);
      ServedStays(body.g, j, infos, j', infos', b, leftover, succs[i]);
    }
    forall i | k <= i < |succs|
      ensures Waiting(body.g, j', b, succs[i])
    {
      assert Waiting(body.g, j, b, succs[i]);
    }
    SpillsStay(body.g, infos, j, infos', j', b, leftover, succs, k);
  }

  lemma NotSingle(g: Graph, b: nat, s: nat)
    requires WellFormed(g) && b < g.Size() && s in g.succs[b] && !Handed(g, b, s)
    ensures s < g.Size() && |g.preds[s]| != 1
  {
    assert b in g.preds[s];
  }

  lemma NewTempsNarrow(infos: seq<LocalInfo>, j: Joins, infos': seq<LocalInfo>, s: nat, temps: seq<nat>,
                       leftover: seq<Expr>)
    requires NarrowJoins(infos, j) && AllNarrow(leftover) && infos <= infos' && AllInRange(j.incoming, 0, |infos|)
    requires s < |j.incoming| && |temps| == |leftover| && InRange(temps, |infos|, |infos'|)
    requires forall i :: 0 <= i < |temps| ==> infos'[temps[i]].ty == TypeOf(leftover[i])
    ensures NarrowJoins(infos', j.(incoming := j.incoming[s := Some(temps)]))
  {
    var incoming' := j.incoming[s := Some(temps)];
    forall x | 0 <= x < |incoming'| && incoming'[x].Some?
      ensures NarrowTemps(infos', incoming'[x].value)
    {
      if x != s {
        assert NarrowTemps(infos, j.incoming[x].value) && InRange(j.incoming[x].value, 0, |infos|);
      } else {
        assert forall i :: 0 <= i < |leftover| ==> leftover[i] in leftover;
      }
    }
  }

  lemma NewTempsApart(incoming: seq<Option<seq<nat>>>, s: nat, temps: seq<nat>, lo: nat, mid: nat, hi: nat)
    requires s < |incoming| && Apart(incoming) && AllInRange(incoming, lo, mid) && lo <= mid <= hi
    requires InRange(temps, mid, hi) && NoRepeats(temps)
    ensures Apart(incoming[s := Some(temps)]) && AllInRange(incoming[s := Some(temps)], lo, hi)
  {
    var incoming' := incoming[s := Some(temps)];
    forall x, i, y, k | UsedAt(incoming', x, i) && UsedAt(incoming', y, k)
      && incoming'[x].value[i] == incoming'[y].value[k]
      ensures x == y && i == k
    {
      if x != s { assert UsedAt(incoming, x, i) && InRange(incoming[x].value, lo, mid); }
      if y != s { assert UsedAt(incoming, y, k) && InRange(incoming[y].value, lo, mid); }
    }
    forall x | 0 <= x < |incoming'| && incoming'[x].Some?
      ensures InRange(incoming'[x].value, lo, hi)
    {
      if x != s { assert InRange(incoming[x].value, lo, mid); }
    }
  }

  // ----- the blocks emulated so far --------------------------------------------------------------

  function Done(order: seq<nat>, k: nat): (r: set<nat>)
    requires k <= |order|
    ensures forall b :: b in r <==> b in order[..k]
  {
    set b | b in order[..k]
  }

  ghost predicate EmulatedAt(body: Body, base: seq<LocalInfo>, infos: seq<LocalInfo>, depth: seq<nat>, j: Joins,
                             results: seq<BlockResult>, b: nat)
    requires |body.code| == body.g.Size() == |j.direct| == |j.incoming| == |depth| == |results|
    requires (forall b :: 0 <= b < |body.code| ==> AllFit(body.code[b], |base|)) && AllInRange(j.incoming, 0, |infos|)
  {
    b < |depth| && Emulated(body, base, infos, j, b, results[b]) && Decided(j, depth, b)
  }

  /** After the first `k` blocks of the order. */
  ghost predicate RunInv(body: Body, base: seq<LocalInfo>, depth: seq<nat>, order: seq<nat>, k: nat,
                         infos: seq<LocalInfo>, j: Joins, results: seq<BlockResult>) {
    && ValidBody(body, |base|) && |results| == body.g.Size() && k <= |order|
    && base <= infos && Unique(infos) && IntTops(body, base) && HandsInts(body, infos, j)
    && JoinsOk(body.g, depth, |base|, infos, j, Done(order, k))
    && forall i :: 0 <= i < k ==> EmulatedAt(body, base, infos, depth, j, results, order[i])
  }

  ghost predicate GoodOrder(body: Body, reachable: seq<bool>, order: seq<nat>) {
    && |reachable| == body.g.Size()
    && Sound(body.g, [0], order) && forall b: nat :: b in order <==> b < |reachable| && reachable[b]
  }

  /** When its turn comes, a block's entry stack has been decided. */
  lemma TurnDecided(body: Body, base: seq<LocalInfo>, depth: seq<nat>, reachable: seq<bool>, order: seq<nat>, k: nat,
                    infos: seq<LocalInfo>, j: Joins, results: seq<BlockResult>)
    requires RunInv(body, base, depth, order, k, infos, j, results) && k < |order|
    requires Consistent(body, reachable, depth) && GoodOrder(body, reachable, order)
    ensures order[k] < |depth| && Decided(j, depth, order[k]) && |EntryOf(j, infos, order[k])| == depth[order[k]]
  {
    var b := order[k];
    assert b in order && Grounded(body.g, [0], order, k);
    assert DirectAt(body.g, depth, j.direct, Done(order, k), b) && IncomingAt(body.g, depth, j.incoming, b);
    if b != 0 && depth[b] > 0 {
      var i :| 0 <= i < k && Edge(body.g, order[i], b);
      var p := order[i];
      assert EmulatedAt(body, base, infos, depth, j, results, p);
      assert p in order && ConsistentAt(body, depth, p);
      BlockInts(body, base, infos, j, p);
      LeftoverDepth(body, base, depth, j, infos, p, results[p], Done(order, k));
      var n :| 0 <= n < |body.g.succs[p]| && body.g.succs[p][n] == b;
      assert Served(body.g, j, p, results[p].leftover, body.g.succs[p][n]);
    }
  }

  lemma EntryDepth(g: Graph, depth: seq<nat>, base: nat, infos: seq<LocalInfo>, j: Joins, done: set<nat>, b: nat)
    requires JoinsOk(g, depth, base, infos, j, done) && b < |depth| && Decided(j, depth, b)
    ensures |EntryOf(j, infos, b)| == depth[b]
  {
    assert DirectAt(g, depth, j.direct, done, b) && IncomingAt(g, depth, j.incoming, b);
  }

  /** What an emulated block leaves is as deep as its successors expect. */
  lemma LeftoverDepth(body: Body, base: seq<LocalInfo>, depth: seq<nat>, j: Joins, infos: seq<LocalInfo>, b: nat,
                      r: BlockResult, done: set<nat>)
    requires ValidBody(body, |base|) && JoinsOk(body.g, depth, |base|, infos, j, done) && b < |depth|
      && Decided(j, depth, b)
    requires ConsistentAt(body, depth, b) && NeverWide(body.code[b], base, Emu(EntryOf(j, infos, b), [], None))
    requires var out := EmulateAll(body.code[b], base, Emu(EntryOf(j, infos, b), [], None));
      out.Ok? && r.leftover == out.value.stack
    ensures forall s :: s in body.g.succs[b] && s < |depth| ==> depth[s] == |r.leftover|
  {
    EntryDepth(body.g, depth, |base|, infos, j, done, b);
    DepthDecides(body.code[b], base, Emu(EntryOf(j, infos, b), [], None));
  }

  /** Ready to hand over the stack block `b` leaves. */
  lemma BeginServing(body: Body, base: seq<LocalInfo>, depth: seq<nat>, order: seq<nat>, k: nat, infos: seq<LocalInfo>,
                     j: Joins, results: seq<BlockResult>, leftover: seq<Expr>)
    requires RunInv(body, base, depth, order, k, infos, j, results) && k < |order| && order[k] < |depth|
      && leftover != []
    requires forall i :: 0 <= i < k ==> order[i] != order[k]
    requires forall s :: s in body.g.succs[order[k]] && s < |depth| ==> depth[s] == |leftover|
    requires Single(body) || AllNarrow(leftover)
    ensures Serving(body, depth, |base|, infos, j, Done(order, k), order[k], leftover, 0, [])
  {
    var b := order[k];
    var succs := body.g.succs[b];
    forall i | 0 <= i < |succs|
      ensures succs[i] < |depth| && depth[succs[i]] == |leftover| && Waiting(body.g, j, b, succs[i])
    {
      assert succs[i] in succs;
      assert DirectAt(body.g, depth, j.direct, Done(order, k), succs[i]);
    }
    MoreDone(body.g, depth, |base|, infos, j, Done(order, k), b);
  }

  lemma MoreDone(g: Graph, depth: seq<nat>, base: nat, infos: seq<LocalInfo>, j: Joins, done: set<nat>, b: nat)
    requires JoinsOk(g, depth, base, infos, j, done)
    ensures JoinsOk(g, depth, base, infos, j, done + {b})
  {
    forall s | 0 <= s < |depth|
      ensures DirectAt(g, depth, j.direct, done + {b}, s)
    {
      assert DirectAt(g, depth, j.direct, done, s);
    }
  }

  /** Block `order[k]` is finished. */
  lemma FinishBlock(body: Body, base: seq<LocalInfo>, depth: seq<nat>, order: seq<nat>, k: nat, infos: seq<LocalInfo>,
                    j: Joins, infos': seq<LocalInfo>, j': Joins, results: seq<BlockResult>, r: BlockResult)
    requires RunInv(body, base, depth, order, k, infos, j, results) && k < |order| && order[k] < |depth|
    requires forall i :: 0 <= i < k ==> order[i] != order[k]
    requires Grown(j, infos, j', infos') && Unique(infos')
      && JoinsOk(body.g, depth, |base|, infos', j', Done(order, k) + {order[k]})
    requires Decided(j', depth, order[k]) && Emulated(body, base, infos', j', order[k], r)
    requires HandsInts(body, infos', j')
    ensures RunInv(body, base, depth, order, k + 1, infos', j', results[order[k] := r])
  {
    var b := order[k];
    assert order[..k + 1] == order[..k] + [b];
    assert Done(order, k + 1) == Done(order, k) + {b};
    forall i | 0 <= i < k + 1
      ensures EmulatedAt(body, base, infos', depth, j', results[b := r], order[i])
    {
      if i < k {
        assert EmulatedAt(body, base, infos, depth, j, results, order[i]);
        EmulatedStays(body, base, depth, infos, j, infos', j', Done(order, k), Done(order, k) + {b}, order[i],
          results[order[i]]);
      }
    }
  }

  // ----- declarations ---------------------------------------------------------------------------

  /** Every temporary is declared at the head of the method. */
  ghost predicate TempsHoisted(infos: seq<LocalInfo>, base: nat) {
    forall t :: base <= t < |infos| ==> DefinedBefore(infos[t])
  }

  lemma MoreHoisted(infos: seq<LocalInfo>, infos': seq<LocalInfo>, base: nat)
    requires TempsHoisted(infos, base) && infos <= infos' && TempsHoisted(infos', |infos|)
    ensures TempsHoisted(infos', base)
  {
  }

  lemma {:induction false} AssignsDeclared(infos: seq<LocalInfo>, base: nat, temps: seq<nat>, leftover: seq<Expr>,
                                           k: nat)
    requires k <= |temps| == |leftover| && InRange(temps, 0, |infos|) && InRange(temps, base, |infos|)
    requires TempsHoisted(infos, base)
    ensures AllDeclared(infos, Assigns(infos, temps, leftover, k))
  {
    if k > 0 {
      AssignsDeclared(infos, base, temps, leftover, k - 1);
      var s := Assign(LocalExpr(infos, temps[k - 1]), leftover[k - 1]);
      OneDeclared(infos, s);
      DeclaredMore(infos, Assigns(infos, temps, leftover, k - 1), [s]);
    }
  }

  lemma SpillDeclared(g: Graph, infos: seq<LocalInfo>, base: nat, incoming: seq<Option<seq<nat>>>, b: nat,
                      leftover: seq<Expr>, s: nat)
    requires AllInRange(incoming, 0, |infos|) && AllInRange(incoming, base, |infos|) && TempsHoisted(infos, base)
    ensures AllDeclared(infos, SpillTo(g, infos, incoming, b, leftover, s))
  {
    if s < |incoming| && incoming[s].Some? && |incoming[s].value| == |leftover| {
      AssignsDeclared(infos, base, incoming[s].value, leftover, |leftover|);
    }
  }

  lemma {:induction false} SpillsDeclared(g: Graph, infos: seq<LocalInfo>, base: nat,
                                          incoming: seq<Option<seq<nat>>>, b: nat, leftover: seq<Expr>,
                                          succs: seq<nat>, k: nat)
    requires AllInRange(incoming, 0, |infos|) && AllInRange(incoming, base, |infos|) && k <= |succs|
    requires TempsHoisted(infos, base)
    ensures AllDeclared(infos, Spills(g, infos, incoming, b, leftover, succs, k))
  {
    if k > 0 {
      SpillsDeclared(g, infos, base, incoming, b, leftover, succs, k - 1);
      var s := succs[k - 1];
      SpillDeclared(g, infos, base, incoming, b, leftover, s);
      DeclaredMore(infos, Spills(g, infos, incoming, b, leftover, succs, k - 1),
        SpillTo(g, infos, incoming, b, leftover, s));
    }
  }

  /** What one block emits. */
  lemma BlockDeclares(body: Body, base: seq<LocalInfo>, infos: seq<LocalInfo>, j: Joins, b: nat, r: BlockResult)
    requires b < |body.code| == body.g.Size() && AllFit(body.code[b], |base|)
    requires b < |j.direct| == |j.incoming| && AllInRange(j.incoming, 0, |infos|)
    requires AllInRange(j.incoming, |base|, |infos|) && base <= infos && TempsHoisted(infos, |base|)
    requires Emulated(body, base, infos, j, b, r)
    ensures AllDeclared(infos, r.stmts)
  {
    var succs := body.g.succs[b];
    var start := Emu(EntryOf(j, infos, b), [], None);
    CodeDeclares(body.code[b], base, start);
    var emitted := EmulateAll(body.code[b], base, start).value.stmts;
    DeclaredLater(base, infos, emitted);
    if r.leftover != [] {
      SpillsDeclared(body.g, infos, |base|, j.incoming, b, r.leftover, succs, |succs|);
      DeclaredMore(infos, emitted, Spills(body.g, infos, j.incoming, b, r.leftover, succs, |succs|));
    } else {
      assert r.stmts == emitted;
    }
  }

  /** What is emitted declares in place the variables that are not declared elsewhere, and assigns the
      parameters, the hoisted variables and the temporaries; nothing stores into `this`. */
  ghost predicate EmitsDeclared(infos: seq<LocalInfo>, reachable: seq<bool>, results: seq<BlockResult>) {
    forall b :: 0 <= b < |results| && b < |reachable| && reachable[b] ==> AllDeclared(infos, results[b].stmts)
  }

  lemma RunDeclares(body: Body, base: seq<LocalInfo>, depth: seq<nat>, reachable: seq<bool>, infos: seq<LocalInfo>,
                    j: Joins, results: seq<BlockResult>)
    requires RunDone(body, base, depth, reachable, infos, j, results) && TempsHoisted(infos, |base|)
    ensures EmitsDeclared(infos, reachable, results)
  {
    forall b | 0 <= b < |results| && reachable[b]
      ensures AllDeclared(infos, results[b].stmts)
    {
      assert EmulatedAt(body, base, infos, depth, j, results, b);
      BlockDeclares(body, base, infos, j, b, results[b]);
    }
  }

  // ----- the emulator ---------------------------------------------------------------------------

  class Emulator {
    /** The slots of the method, then the temporaries. */
    var locals: seq<LocalInfo>
    const prefix: string
    var nextTemp: nat

    constructor (locals: seq<LocalInfo>, prefix: string)
      ensures this.locals == locals && this.prefix == prefix && nextTemp == 1
    {
      this.locals, this.prefix, nextTemp := locals, prefix, 1;
    }

    /** `new_temp`: a slot with a name no other slot has. */
    method NewTemp(ty: Ty) returns (index: nat)
      modifies this
      ensures index == |old(locals)| && |locals| == index + 1 && locals[..index] == old(locals)
      ensures locals[index] == LocalInfo(index, locals[index].name, ty, false, false, true)
      ensures nextTemp > old(nextTemp) && locals[index].name == Numbered(prefix, nextTemp - 1)
      ensures forall m :: old(nextTemp) <= m < nextTemp - 1 ==> Numbered(prefix, m) in NamesOf(old(locals))
      ensures Unique(old(locals)) ==> Unique(locals)
    {
      index := |locals|;
      var n := FirstFree(prefix, nextTemp, NamesOf(locals));
      nextTemp := n + 1;
      locals := locals + [LocalInfo(index, Numbered(prefix, n), ty, false, false, true)];
    }

    /** One temporary for each value on the stack. */
    method NewTemps(leftover: seq<Expr>) returns (temps: seq<nat>)
      modifies this
      ensures old(locals) <= locals && |temps| == |leftover|
      ensures InRange(temps, |old(locals)|, |locals|) && NoRepeats(temps)
      ensures forall i :: 0 <= i < |temps| ==> locals[temps[i]].ty == TypeOf(leftover[i])
      ensures Unique(old(locals)) ==> Unique(locals)
      ensures TempsHoisted(locals, |old(locals)|)
    {
      temps := [];
      for k := 0 to |leftover|
        invariant old(locals) <= locals && |temps| == k && TempsHoisted(locals, |old(locals)|)
        invariant InRange(temps, |old(locals)|, |locals|) && NoRepeats(temps)
        invariant forall i :: 0 <= i < |temps| ==> locals[temps[i]].ty == TypeOf(leftover[i])
        invariant Unique(old(locals)) ==> Unique(locals)
      {
        var t := NewTemp(TypeOf(leftover[k]));
        temps := temps + [t];
      }
    }

    method EmulateBlock(code: seq<Jvm.Sem>, ghost base: seq<LocalInfo>, entry: seq<Expr>)
        returns (r: Result<Emu, EmulationError>)
      requires base <= locals && AllFit(code, |base|)
      ensures r == EmulateAll(code, base, Emu(entry, [], None))
    {
      var ops := new Operands(entry);
      var cond: Option<Expr> := None;
      assert code[..0] == [];
      for k := 0 to |code|
        invariant EmulateAll(code[..k], base, Emu(entry, [], None)) == Ok(Emu(ops.stack, ops.stmts, cond))
      {
        EmulateUpTo(code, base, Emu(entry, [], None), k);
        EmulateSameBase(code[k], base, locals, Emu(ops.stack, ops.stmts, cond));
        var out := ops.EmulateInsn(code[k], locals, cond);
        if out.Err? {
          EmulateStops(code, base, Emu(entry, [], None), k + 1);
          return Err(out.error);
        }
        if out.value.Some? { cond := out.value; }
      }
      assert code[..|code|] == code;
      r := Ok(Emu(ops.stack, ops.stmts, cond));
    }

    /** Hands the leftover stack of block `b` to its successors. */
    method Spill(body: Body, direct: array<Option<seq<Expr>>>, incoming: array<Option<seq<nat>>>, b: nat,
                 leftover: seq<Expr>,
                 ghost ok: bool, ghost depth: seq<nat>, ghost base: nat, ghost done: set<nat>)
      returns (spilled: seq<Stmt>, error: Option<EmulationError>)
      requires WellFormed(body.g) && b < body.g.Size() == direct.Length == incoming.Length
      requires forall s :: s in body.g.succs[b] ==> s < body.g.Size()
      requires AllInRange(incoming[..], 0, |locals|)
      requires ok ==> Serving(body, depth, base, locals, Joins(direct[..], incoming[..]), done, b, leftover, 0, [])
      requires base <= |locals| && TempsHoisted(locals, base)
      modifies this, direct, incoming
      ensures AllInRange(incoming[..], 0, |locals|) && old(locals) <= locals && TempsHoisted(locals, base)
      ensures ok ==>
        error.None? &&
        Serving(body, depth, base, locals, Joins(direct[..], incoming[..]), done, b, leftover, |body.g.succs[b]|,
          spilled)
      ensures ok ==> Grown(old(Joins(direct[..], incoming[..])), old(locals), Joins(direct[..], incoming[..]), locals)
    {
      spilled, error := [], None;
      var succs := body.g.succs[b];
      for k := 0 to |succs|
        invariant AllInRange(incoming[..], 0, |locals|) && old(locals) <= locals && TempsHoisted(locals, base)
        invariant ok ==> Serving(body, depth, base, locals, Joins(direct[..], incoming[..]), done, b, leftover, k,
          spilled)
        invariant ok ==> Grown(old(Joins(direct[..], incoming[..])), old(locals), Joins(direct[..], incoming[..]),
          locals)
      {
        var s := succs[k];
        assert s in succs;
        ghost var j, infos := Joins(direct[..], incoming[..]), locals;
        var single := |body.g.preds[s]| == 1 && body.g.preds[s][0] == b;
        assert single == Handed(body.g, b, s);
        if single && direct[s].None? {
          if ok { ServeDirectly(body, depth, base, locals, j, done, b, leftover, k, spilled); }
          direct[s] := Some(leftover);
          assert direct[..] == j.direct[s := Some(leftover)];
        } else {
          if ok { assert Waiting(body.g, j, b, s); }
          if incoming[s].None? {
            var temps := NewTemps(leftover);
            MoreHoisted(infos, locals, base);
            if ok { NewJoin(body, depth, base, infos, j, done, b, leftover, k, spilled, locals, temps); }
            incoming[s] := Some(temps);
            assert incoming[..] == j.incoming[s := Some(temps)];
            RangeGrows(j.incoming, |infos|, |locals|, s, temps);
          }
          var temps := incoming[s].value;
          if ok {
            ServeJoin(body, depth, base, locals, Joins(direct[..], incoming[..]), done, b, leftover, k, spilled);
          }
          assert incoming[..][s] == incoming[s];
          if |temps| != |leftover| { return spilled, Some(ShapeMismatch(s)); }
          var copies := AssignAll(temps, leftover);
          spilled := spilled + copies;
        }
      }
    }

    /** The turn of block `order[k]`. */
    method RunBlock(body: Body, order: seq<nat>, k: nat, results: array<BlockResult>, direct: array<Option<seq<Expr>>>,
                    incoming: array<Option<seq<nat>>>,
                    ghost ok: bool, ghost base: seq<LocalInfo>, ghost depth: seq<nat>, ghost reachable: seq<bool>)
      returns (error: Option<EmulationError>)
      requires ValidBody(body, |base|) && base <= locals && k < |order| && order[k] < body.g.Size()
      requires results.Length == direct.Length == incoming.Length == body.g.Size()
        && AllInRange(incoming[..], 0, |locals|)
      requires ok ==>
        |body.code| == body.g.Size() && Consistent(body, reachable, depth) && GoodOrder(body, reachable, order)
      requires ok ==> RunInv(body, base, depth, order, k, locals, Joins(direct[..], incoming[..]), results[..])
      requires TempsHoisted(locals, |base|)
      modifies this, results, direct, incoming
      ensures AllInRange(incoming[..], 0, |locals|) && old(locals) <= locals && TempsHoisted(locals, |base|)
      ensures ok ==>
        error.None? && RunInv(body, base, depth, order, k + 1, locals, Joins(direct[..], incoming[..]), results[..])
    {
      var b := order[k];
      ghost var j, infos, was := Joins(direct[..], incoming[..]), locals, results[..];
      error := None;
      var entry := Entry(direct[b], incoming[b], incoming[..], b);
      assert entry == EntryOf(j, locals, b);
      var out := EmulateBlock(body.code[b], base, entry);
      if ok { BlockSucceeds(body, base, depth, reachable, order, k, infos, j, was); }
      if out.Err? { return Some(out.error); }
      var e := out.value;
      var spilled: seq<Stmt> := [];
      if e.stack != [] {
        if ok { BeginServing(body, base, depth, order, k, infos, j, was, e.stack); }
        spilled, error := Spill(body, direct, incoming, b, e.stack, ok, depth, |base|, Done(order, k));
      }
      results[b] := BlockResult(e.stmts + spilled, e.cond, body.g.succs[b], e.stack);
      if ok {
        BlockFinished(body, base, depth, order, k, infos, j, locals, Joins(direct[..], incoming[..]), was, e, spilled);
        assert results[..] == was[b := results[b]];
      }
    }

    /** The loop of `run`. */
    method RunBlocks(body: Body, order: seq<nat>, results: array<BlockResult>, direct: array<Option<seq<Expr>>>,
                     incoming: array<Option<seq<nat>>>,
                     ghost ok: bool, ghost base: seq<LocalInfo>, ghost depth: seq<nat>, ghost reachable: seq<bool>)
      returns (error: Option<EmulationError>)
      requires ValidBody(body, |base|) && base <= locals && forall i :: 0 <= i < |order| ==> order[i] < body.g.Size()
      requires results.Length == direct.Length == incoming.Length == body.g.Size()
        && AllInRange(incoming[..], 0, |locals|)
      requires ok ==>
        |body.code| == body.g.Size() && Consistent(body, reachable, depth) && GoodOrder(body, reachable, order)
      requires ok ==> RunInv(body, base, depth, order, 0, locals, Joins(direct[..], incoming[..]), results[..])
      requires TempsHoisted(locals, |base|)
      modifies this, results, direct, incoming
      ensures TempsHoisted(locals, |base|)
      ensures ok ==>
        error.None? && RunInv(body, base, depth, order, |order|, locals, Joins(direct[..], incoming[..]), results[..])
    {
      error := None;
      for k := 0 to |order|
        invariant AllInRange(incoming[..], 0, |locals|) && base <= locals && error.None?
        invariant TempsHoisted(locals, |base|)
        invariant ok ==> RunInv(body, base, depth, order, k, locals, Joins(direct[..], incoming[..]), results[..])
      {
        error := RunBlock(body, order, k, results, direct, incoming, ok, base, depth, reachable);
        if error.Some? { break; }
      }
    }

    /** `run`: emulates every reachable block. For code the bytecode verifier accepts there
        is no error, each block is emulated from the stack its predecessors left, and every
        way into a join assigns that stack to the temporaries of the join. */
    method Run(body: Body, reachable: seq<bool>, ghost depth: seq<nat>)
      returns (results: array<BlockResult>, error: Option<EmulationError>, ghost joins: Joins)
      requires ValidBody(body, |locals|) && EmissionOrder.Marked(body.g, Roots([]), reachable)
      modifies this
      ensures fresh(results) && results.Length == body.g.Size()
      ensures Consistent(body, reachable, depth) && Unique(old(locals)) && IntTops(body, old(locals)) ==>
        && error.None? && RunDone(body, old(locals), depth, reachable, locals, joins, results[..])
        && EmitsDeclared(locals, reachable, results[..])
    {
      var n := body.g.Size();
      ghost var base, ok := locals, Consistent(body, reachable, depth) && Unique(locals) && IntTops(body, locals);
      results := new BlockResult[n](_ => BlockResult([], None, [], []));
      var incoming := new Option<seq<nat>>[n](_ => None);
      var direct := new Option<seq<Expr>>[n](_ => None);
      var order := EmulationOrder(body.g, [], reachable);
      OrderIsGood(body, reachable, order);
      ghost var j := Joins(direct[..], incoming[..]);
      if ok { StartRun(body, base, depth, reachable, order, j, results[..]); }
      error := RunBlocks(body, order, results, direct, incoming, ok, base, depth, reachable);
      joins := Joins(direct[..], incoming[..]);
      if ok {
        EndRun(body, base, depth, reachable, order, locals, joins, results[..]);
        RunDeclares(body, base, depth, reachable, locals, joins, results[..]);
      }
    }

    method Entry(direct: Option<seq<Expr>>, incoming: Option<seq<nat>>, ghost all: seq<Option<seq<nat>>>, ghost b: nat)
        returns (stack: seq<Expr>)
      requires AllInRange(all, 0, |locals|) && b < |all| && all[b] == incoming
      ensures stack == if direct.Some? then direct.value else if incoming.Some? then LocalExprs(locals, incoming.value)
        else []
    {
      if direct.Some? { return direct.value; }
      if incoming.None? { return []; }
      stack := [];
      for k := 0 to |incoming.value|
        invariant stack == LocalExprs(locals, incoming.value)[..k]
      {
        stack := stack + [LocalExpr(locals, incoming.value[k])];
      }
    }

    method AssignAll(temps: seq<nat>, leftover: seq<Expr>) returns (copies: seq<Stmt>)
      requires |temps| == |leftover| && InRange(temps, 0, |locals|)
      ensures copies == Assigns(locals, temps, leftover, |leftover|)
    {
      copies := [];
      for k := 0 to |leftover|
        invariant copies == Assigns(locals, temps, leftover, k)
      {
        copies := copies + [Assign(LocalExpr(locals, temps[k]), leftover[k])];
      }
    }
  }

  /** The certificate of a run. */
  ghost predicate RunDone(body: Body, base: seq<LocalInfo>, depth: seq<nat>, reachable: seq<bool>,
                          infos: seq<LocalInfo>, j: Joins, results: seq<BlockResult>) {
    && ValidBody(body, |base|) && |results| == |reachable| == body.g.Size()
    && base <= infos && Unique(infos) && IntTops(body, base) && HandsInts(body, infos, j)
    && (exists done :: JoinsOk(body.g, depth, |base|, infos, j, done))
    && forall b :: 0 <= b < |reachable| && reachable[b] ==> EmulatedAt(body, base, infos, depth, j, results, b)
  }

  lemma OrderIsGood(body: Body, reachable: seq<bool>, order: seq<nat>)
    requires body.g.Size() > 0 && EmissionOrder.Marked(body.g, Roots([]), reachable) && |reachable| == body.g.Size()
    requires order == EmissionOrder.EmissionOrder(body.g, [], reachable)
    ensures GoodOrder(body, reachable, order) && forall i :: 0 <= i < |order| ==> order[i] < body.g.Size()
  {
    EmissionTheorem(body.g, [], reachable);
    assert Roots([]) == [0];
    forall i | 0 <= i < |order|
      ensures order[i] < body.g.Size()
    {
      assert order[i] in order;
    }
  }

  lemma StartRun(body: Body, base: seq<LocalInfo>, depth: seq<nat>, reachable: seq<bool>, order: seq<nat>, j: Joins,
                 results: seq<BlockResult>)
    requires ValidBody(body, |base|) && Consistent(body, reachable, depth) && Unique(base) && IntTops(body, base)
    requires |results| == |j.direct| == |j.incoming| == body.g.Size()
    requires forall s :: 0 <= s < |j.direct| ==> j.direct[s].None?
    requires forall s :: 0 <= s < |j.incoming| ==> j.incoming[s].None?
    ensures RunInv(body, base, depth, order, 0, base, j, results)
  {
  }

  lemma EndRun(body: Body, base: seq<LocalInfo>, depth: seq<nat>, reachable: seq<bool>, order: seq<nat>,
               infos: seq<LocalInfo>, j: Joins, results: seq<BlockResult>)
    requires RunInv(body, base, depth, order, |order|, infos, j, results) && GoodOrder(body, reachable, order)
    ensures RunDone(body, base, depth, reachable, infos, j, results)
  {
    forall b | 0 <= b < |reachable| && reachable[b]
      ensures EmulatedAt(body, base, infos, depth, j, results, b)
    {
      assert b in order;
      var i :| 0 <= i < |order| && order[i] == b;
      assert EmulatedAt(body, base, infos, depth, j, results, order[i]);
    }
  }

  lemma BlockSucceeds(body: Body, base: seq<LocalInfo>, depth: seq<nat>, reachable: seq<bool>, order: seq<nat>, k: nat,
                      infos: seq<LocalInfo>, j: Joins, results: seq<BlockResult>)
    requires RunInv(body, base, depth, order, k, infos, j, results) && k < |order|
    requires Consistent(body, reachable, depth) && GoodOrder(body, reachable, order)
    ensures order[k] < |depth| && Decided(j, depth, order[k]) && forall i :: 0 <= i < k ==> order[i] != order[k]
    ensures var out := EmulateAll(body.code[order[k]], base, Emu(EntryOf(j, infos, order[k]), [], None));
      && out.Ok? && (Single(body) || AllNarrow(out.value.stack))
      && forall s :: s in body.g.succs[order[k]] && s < |depth| ==> depth[s] == |out.value.stack|
  {
    TurnDecided(body, base, depth, reachable, order, k, infos, j, results);
    var b := order[k];
    assert b in order && ConsistentAt(body, depth, b);
    BlockInts(body, base, infos, j, b);
    DepthDecides(body.code[b], base, Emu(EntryOf(j, infos, b), [], None));
  }

  lemma BlockFinished(body: Body, base: seq<LocalInfo>, depth: seq<nat>, order: seq<nat>, k: nat, infos: seq<LocalInfo>,
                      j: Joins, infos': seq<LocalInfo>, j': Joins, results: seq<BlockResult>, e: Emu,
                      spilled: seq<Stmt>)
    requires RunInv(body, base, depth, order, k, infos, j, results) && k < |order| && order[k] < |depth|
      && Decided(j, depth, order[k])
    requires forall i :: 0 <= i < k ==> order[i] != order[k]
    requires EmulateAll(body.code[order[k]], base, Emu(EntryOf(j, infos, order[k]), [], None)) == Ok(e)
    requires if e.stack == [] then infos' == infos && j' == j && spilled == []
             else
               Grown(j, infos, j', infos') &&
               Serving(body, depth, |base|, infos', j', Done(order, k), order[k], e.stack, |body.g.succs[order[k]]|,
                 spilled)
    ensures RunInv(body, base, depth, order, k + 1, infos', j',
      results[order[k] := BlockResult(e.stmts + spilled, e.cond, body.g.succs[order[k]], e.stack)])
  {
    var b := order[k];
    MoreDone(body.g, depth, |base|, infos, j, Done(order, k), b);
    EntryStays(body.g, depth, |base|, infos, j, infos', j', Done(order, k), Done(order, k) + {b}, b);
    FinishBlock(body, base, depth, order, k, infos, j, infos', j', results,
      BlockResult(e.stmts + spilled, e.cond, body.g.succs[b], e.stack));
  }

  lemma RangeGrows(incoming: seq<Option<seq<nat>>>, mid: nat, hi: nat, s: nat, temps: seq<nat>)
    requires s < |incoming| && AllInRange(incoming, 0, mid) && mid <= hi && InRange(temps, mid, hi)
    ensures AllInRange(incoming[s := Some(temps)], 0, hi)
  {
    var incoming' := incoming[s := Some(temps)];
    forall x | 0 <= x < |incoming'| && incoming'[x].Some?
      ensures InRange(incoming'[x].value, 0, hi)
    {
      if x != s { assert InRange(incoming[x].value, 0, mid); }
    }
  }

  lemma {:induction false} EmulateStops(code: seq<Jvm.Sem>, base: seq<LocalInfo>, e: Emu, k: nat)
    requires AllFit(code, |base|) && k <= |code| && EmulateAll(code[..k], base, e).Err?
    ensures EmulateAll(code, base, e) == EmulateAll(code[..k], base, e)
    decreases |code| - k
  {
    if k < |code| {
      EmulateUpTo(code, base, e, k);
      EmulateStops(code, base, e, k + 1);
    } else {
      assert code[..k] == code;
    }
  }
}
