/** Printing the blocks of a method one after the other, with labels and jumps. */
module LinearCode {
  import opened Results
  import opened Ir
  import opened Labels
  import opened MethodEmulation
  import opened Names
  import Graph
  import RM = RunMeaning

  /** `ends`: nothing runs on past the last statement that is no comment. */
  predicate Ends(list: seq<Stmt>) {
    if list == [] then false
    else
      var last := list[|list| - 1];
      if last.Comment? then Ends(list[..|list| - 1]) else last.Return? || last.Goto?
  }

  function UnreachedEdge(s: nat): Stmt {
    Comment("bytecode edge to block " + Decimal(s) + " cannot be reached from the printed code")
  }

  /** Remarks on the edges from the second to the `n`-th. */
  function Unreached(targets: seq<nat>, n: nat): (r: seq<Stmt>)
    requires 1 <= n <= |targets|
    ensures |r| == n - 1
  {
    if n == 1 then [] else Unreached(targets, n - 1) + [UnreachedEdge(targets[n - 1])]
  }

  /** The statements for the edges of a block of which `next` is printed next. */
  function Exit(b: nat, r: BlockResult, next: Option<nat>): seq<Stmt> {
    if r.targets == [] then (if next.Some? && next.value != b then [Goto(next.value)] else [])
    else if |r.targets| == 1 then (if next == Some(r.targets[0]) then [] else [Goto(r.targets[0])])
    else [if r.cond.Some? then IfGoto(r.cond.value, r.targets[0]) else Goto(r.targets[0])]
         + Unreached(r.targets, |r.targets|)
  }

  /** `emit_block` */
  function BlockText(b: nat, r: BlockResult, next: Option<nat>): seq<Stmt> {
    var out := [Label(b)] + r.stmts;
    if Ends(out) then out else out + Exit(b, r, next)
  }

  predicate Ordered(order: seq<nat>, results: seq<BlockResult>) {
    forall i :: 0 <= i < |order| ==> order[i] < |results|
  }

  function NextOf(order: seq<nat>, i: nat): Option<nat> { if i + 1 < |order| then Some(order[i + 1]) else None }

  function Text(order: seq<nat>, results: seq<BlockResult>, i: nat): seq<Stmt>
    requires Ordered(order, results) && i < |order|
  {
    BlockText(order[i], results[order[i]], NextOf(order, i))
  }

  function Texts(order: seq<nat>, results: seq<BlockResult>, n: nat): (r: seq<seq<Stmt>>)
    requires Ordered(order, results) && n <= |order|
    ensures |r| == n
  {
    if n == 0 then [] else Texts(order, results, n - 1) + [Text(order, results, n - 1)]
  }

  /** The first `n` parts, one after the other. */
  function Joined(parts: seq<seq<Stmt>>, n: nat): seq<Stmt>
    requires n <= |parts|
  {
    if n == 0 then [] else Joined(parts, n - 1) + parts[n - 1]
  }

  function Printed(order: seq<nat>, results: seq<BlockResult>): seq<Stmt>
    requires Ordered(order, results)
  {
    Joined(Texts(order, results, |order|), |order|)
  }

  method EmitExit(b: nat, r: BlockResult, next: Option<nat>) returns (out: seq<Stmt>)
    ensures out == Exit(b, r, next)
  {
    if r.targets == [] {
      return if next.Some? && next.value != b then [Goto(next.value)] else [];
    }
    if |r.targets| == 1 {
      return if next == Some(r.targets[0]) then [] else [Goto(r.targets[0])];
    }
    var first := [if r.cond.Some? then IfGoto(r.cond.value, r.targets[0]) else Goto(r.targets[0])];
    out := first;
    for k := 1 to |r.targets|
      invariant out == first + Unreached(r.targets, k)
    {
      out := out + [UnreachedEdge(r.targets[k])];
    }
  }

  lemma {:induction false} TextsAt(order: seq<nat>, results: seq<BlockResult>, n: nat, i: nat)
    requires Ordered(order, results) && i < n <= |order|
    ensures Texts(order, results, n)[i] == Text(order, results, i)
  {
    if i < n - 1 { TextsAt(order, results, n - 1, i); }
  }

  /** `emit_linear`, over all blocks. */
  method EmitLinear(order: seq<nat>, results: seq<BlockResult>) returns (out: seq<Stmt>)
    requires Ordered(order, results)
    ensures out == Printed(order, results)
  {
    out := [];
    ghost var parts := Texts(order, results, |order|);
    for i := 0 to |order|
      invariant out == Joined(parts, i)
    {
      var b := order[i];
      var text := [Label(b)] + results[b].stmts;
      if !Ends(text) {
        var exits := EmitExit(b, results[b], NextOf(order, i));
        text := text + exits;
      }
      TextsAt(order, results, |order|, i);
      out := out + text;
    }
  }

  // ----- parts of a program ---------------------------------------------------------------------

  /** Statements without labels and jumps. */
  predicate Straight(list: seq<Stmt>) {
    forall k :: 0 <= k < |list| ==> !list[k].Label? && !list[k].Goto? && !list[k].IfGoto?
  }

  /** `list` stands in the program from `p` on. */
  ghost predicate StandsAt(prog: seq<Stmt>, p: nat, list: seq<Stmt>) {
    p + |list| <= |prog| && prog[p..p + |list|] == list
  }

  lemma StandsOne(prog: seq<Stmt>, p: nat, list: seq<Stmt>, k: nat)
    requires StandsAt(prog, p, list) && k < |list|
    ensures p + k < |prog| && prog[p + k] == list[k]
  {
    assert prog[p..p + |list|][k] == prog[p + k];
  }

  lemma StandsSplit(prog: seq<Stmt>, p: nat, a: seq<Stmt>, b: seq<Stmt>)
    requires StandsAt(prog, p, a + b)
    ensures StandsAt(prog, p, a) && StandsAt(prog, p + |a|, b)
  {
    assert prog[p..p + |a|] == (a + b)[..|a|] == a;
    assert prog[p + |a|..p + |a| + |b|] == (a + b)[|a|..] == b;
  }

  lemma StandsLonger(prog: seq<Stmt>, more: seq<Stmt>, p: nat, list: seq<Stmt>)
    requires StandsAt(prog, p, list)
    ensures StandsAt(prog + more, p, list)
  {
    assert (prog + more)[p..p + |list|] == prog[p..p + |list|];
  }

  lemma StandsLast(prog: seq<Stmt>, list: seq<Stmt>)
    ensures StandsAt(prog + list, |prog|, list)
  {
  }

  /** Each part stands behind the ones before it. */
  lemma {:induction false} JoinedStands(parts: seq<seq<Stmt>>, i: nat, n: nat)
    requires i < n <= |parts|
    ensures StandsAt(Joined(parts, n), |Joined(parts, i)|, parts[i])
    decreases n
  {
    var before, last := Joined(parts, n - 1), parts[n - 1];
    if i == n - 1 {
      StandsLast(before, last);
    } else {
      JoinedStands(parts, i, n - 1);
      StandsLonger(before, last, |Joined(parts, i)|, parts[i]);
    }
  }

  /** Each part begins with its label and has no other. */
  ghost predicate HeadedAt(parts: seq<seq<Stmt>>, order: seq<nat>, i: nat)
    requires |parts| == |order|
  {
    i < |order| ==>
      parts[i] != [] && parts[i][0] == Label(order[i]) && forall k :: 1 <= k < |parts[i]| ==> !parts[i][k].Label?
  }

  ghost predicate Headed(parts: seq<seq<Stmt>>, order: seq<nat>) {
    |parts| == |order| && Graph.NoRepeats(order) && forall i: nat :: HeadedAt(parts, order, i)
  }

  ghost predicate LabelOf(parts: seq<seq<Stmt>>, order: seq<nat>, s: Stmt, p: nat, i: nat)
    requires |parts| == |order|
  {
    i < |order| && p == |Joined(parts, i)| && s == Label(order[i])
  }

  /** A label stands where a part begins. */
  lemma {:induction false} LabelsOf(parts: seq<seq<Stmt>>, order: seq<nat>, n: nat, p: nat) returns (i: nat)
    requires Headed(parts, order) && n <= |parts| && p < |Joined(parts, n)| && Joined(parts, n)[p].Label?
    ensures i < n && LabelOf(parts, order, Joined(parts, n)[p], p, i)
    decreases n
  {
    var before := Joined(parts, n - 1);
    if p < |before| {
      i := LabelsOf(parts, order, n - 1, p);
    } else {
      i := n - 1;
      assert HeadedAt(parts, order, i);
      assert Joined(parts, n)[p] == parts[i][p - |before|];
    }
  }

  lemma OneLabelEach(parts: seq<seq<Stmt>>, order: seq<nat>, x: Stmt, p: nat, i: nat, q: nat, j: nat)
    requires |parts| == |order| && Graph.NoRepeats(order) && LabelOf(parts, order, x, p, i)
      && LabelOf(parts, order, x, q, j)
    requires i < |parts| && j < |parts|
    ensures p == q
  {
    assert order[i] == order[j];
    assert !(i < j) && !(j < i);
  }

  /** Labels are unique. */
  lemma LabelsUnique(parts: seq<seq<Stmt>>, order: seq<nat>)
    requires Headed(parts, order)
    ensures UniqueLabels(Joined(parts, |parts|))
  {
    var prog := Joined(parts, |parts|);
    forall p, q | 0 <= p < q < |prog| && prog[p].Label?
      ensures prog[p] != prog[q]
    {
      if prog[p] == prog[q] {
        var i := LabelsOf(parts, order, |parts|, p);
        var j := LabelsOf(parts, order, |parts|, q);
        OneLabelEach(parts, order, prog[p], p, i, q, j);
      }
    }
  }

  // ----- running a block's text ----------------------------------------------------------------------

  ghost predicate RanTo(o: Outcome, s: State, p: nat) {
    match o
    case Normal(env) => s == At(p, env)
    case Returned(value) => s == Gave(value)
    case Threw => s == Raised
  }

  /** One more statement of a straight list, executed and run. */
  lemma StraightStep(prog: seq<Stmt>, q: nat, x: Stmt, o: Outcome, s: State)
    requires q < |prog| && prog[q] == x && !x.Goto? && !x.IfGoto? && RanTo(o, s, q)
    ensures RanTo(match o case Normal(env) => ExecOne(x, env) case other => other, Labels.Step(prog, s), q + 1)
  {
  }

  lemma ExecUpTo(list: seq<Stmt>, env: Env, k: nat)
    requires k < |list|
    ensures Exec(list[..k + 1], env)
      == match Exec(list[..k], env) case Normal(env') => ExecOne(list[k], env') case other => other
  {
    assert list[..k + 1] == list[..k] + [list[k]];
    ExecAppend(list[..k], list[k], env);
  }

  lemma StraightRun(prog: seq<Stmt>, p: nat, list: seq<Stmt>, env: Env, k: nat)
    requires StandsAt(prog, p, list) && Straight(list) && k <= |list|
    ensures RanTo(Exec(list[..k], env), Run(prog, At(p, env), k), p + k)
  {
    for n := 0 to k
      invariant RanTo(Exec(list[..n], env), Run(prog, At(p, env), n), p + n)
    {
      StandsOne(prog, p, list, n);
      ExecUpTo(list, env, n);
      RunMore(prog, At(p, env), n);
      StraightStep(prog, p + n, list[n], Exec(list[..n], env), Run(prog, At(p, env), n));
    }
  }

  lemma {:induction false} RunSum(prog: seq<Stmt>, s: State, m: nat, n: nat, sum: nat)
    requires sum == m + n
    ensures Run(prog, s, sum) == Run(prog, Run(prog, s, m), n)
    decreases n
  {
    if n == 0 {
      assert sum == m;
    } else {
      RunSum(prog, s, m, n - 1, sum - 1);
      RunMore(prog, s, sum - 1);
      RunMore(prog, Run(prog, s, m), n - 1);
    }
  }

  lemma {:induction false} RunStays(prog: seq<Stmt>, s: State, n: nat)
    requires !s.At?
    ensures Run(prog, s, n) == s
  {
    if n > 0 { RunStays(prog, s, n - 1); }
  }

  lemma PassLabel(prog: seq<Stmt>, p: nat, env: Env)
    requires p < |prog| && prog[p].Label?
    ensures Run(prog, At(p, env), 1) == At(p + 1, env)
  {
    assert Run(prog, At(p, env), 0) == At(p, env);
  }

  lemma StraightAll(prog: seq<Stmt>, p: nat, list: seq<Stmt>, env: Env)
    requires StandsAt(prog, p, list) && Straight(list)
    ensures RanTo(Exec(list, env), Run(prog, At(p, env), |list|), p + |list|)
  {
    StraightRun(prog, p, list, env, |list|);
    assert list[..|list|] == list;
  }

  lemma LabelAndStatements(prog: seq<Stmt>, p: nat, stmts: seq<Stmt>, env: Env, n: nat)
    requires p < |prog| && prog[p].Label? && StandsAt(prog, p + 1, stmts) && Straight(stmts) && n == 1 + |stmts|
    ensures RanTo(Exec(stmts, env), Run(prog, At(p, env), n), p + n)
  {
    StraightAll(prog, p + 1, stmts, env);
    PassLabel(prog, p, env);
    RunSum(prog, At(p, env), 1, |stmts|, n);
  }

  // ----- leaving a block -------------------------------------------------------------------------------

  lemma {:induction false} EndsStops(list: seq<Stmt>, env: Env)
    requires Straight(list) && Ends(list)
    ensures !Exec(list, env).Normal?
  {
    var n := |list| - 1;
    if list[n].Comment? { EndsStops(list[..n], env); }
  }

  lemma EndsBehindLabel(b: nat, stmts: seq<Stmt>)
    ensures Ends([Label(b)] + stmts) == Ends(stmts)
    decreases |stmts|
  {
    if stmts != [] {
      var n := |stmts| - 1;
      assert ([Label(b)] + stmts)[..n + 1] == [Label(b)] + stmts[..n];
      EndsBehindLabel(b, stmts[..n]);
    }
  }

  // ----- the printed program as a layout ---------------------------------------------------------------

  /** Block `order[i]` stands at `starts[i]`: its label, its statements and, unless these
      end it, its exits. */
  ghost predicate PlacedAt(prog: seq<Stmt>, starts: seq<nat>, order: seq<nat>, results: seq<BlockResult>, i: nat)
    requires Ordered(order, results) && |starts| == |order| + 1
  {
    i < |order| ==>
      var (b, r, p) := (order[i], results[order[i]], starts[i]);
      && p < |prog| && prog[p] == Label(b) && LabelAt(prog, b) == Some(p) && Straight(r.stmts)
      && StandsAt(prog, p + 1, r.stmts)
      && (!Ends(r.stmts) ==>
            var exits := Exit(b, r, NextOf(order, i));
            StandsAt(prog, p + 1 + |r.stmts|, exits) && starts[i + 1] == p + 1 + |r.stmts| + |exits|)
  }

  ghost predicate Layout(prog: seq<Stmt>, starts: seq<nat>, order: seq<nat>, results: seq<BlockResult>) {
    Ordered(order, results) && |starts| == |order| + 1 && starts[0] == 0 && starts[|order|] == |prog|
      && forall i: nat :: PlacedAt(prog, starts, order, results, i)
  }

  /** The blocks have only statements of their own, and each has a different number. */
  ghost predicate WellPrinted(order: seq<nat>, results: seq<BlockResult>) {
    Ordered(order, results) && Graph.NoRepeats(order) && forall i :: 0 <= i < |order| ==>
      Straight(results[order[i]].stmts)
  }

  lemma {:induction false} UnreachedComments(targets: seq<nat>, n: nat)
    requires 1 <= n <= |targets|
    ensures forall k :: 0 <= k < n - 1 ==> Unreached(targets, n)[k] == UnreachedEdge(targets[k + 1])
  {
    if n > 1 { UnreachedComments(targets, n - 1); }
  }

  lemma ExitHasNoLabel(b: nat, r: BlockResult, next: Option<nat>)
    ensures forall k :: 0 <= k < |Exit(b, r, next)| ==> !Exit(b, r, next)[k].Label?
  {
    if |r.targets| >= 2 { UnreachedComments(r.targets, |r.targets|); }
  }

  lemma BlockHeaded(b: nat, r: BlockResult, next: Option<nat>)
    requires Straight(r.stmts)
    ensures var text := BlockText(b, r, next);
      text != [] && text[0] == Label(b) && forall k :: 1 <= k < |text| ==> !text[k].Label?
  {
    ExitHasNoLabel(b, r, next);
  }

  lemma TextsHeaded(order: seq<nat>, results: seq<BlockResult>)
    requires WellPrinted(order, results)
    ensures Headed(Texts(order, results, |order|), order)
  {
    forall i: nat
      ensures HeadedAt(Texts(order, results, |order|), order, i)
    {
      if i < |order| {
        TextsAt(order, results, |order|, i);
        BlockHeaded(order[i], results[order[i]], NextOf(order, i));
      }
    }
  }

  /** The lengths of the programs of the first blocks. */
  function Starts(parts: seq<seq<Stmt>>, n: nat): (r: seq<nat>)
    requires n <= |parts|
    ensures |r| == n + 1
  {
    if n == 0 then [0] else Starts(parts, n - 1) + [|Joined(parts, n)|]
  }

  lemma {:induction false} StartsAt(parts: seq<seq<Stmt>>, n: nat, i: nat)
    requires i <= n <= |parts|
    ensures Starts(parts, n)[i] == |Joined(parts, i)|
  {
    if i < n { StartsAt(parts, n - 1, i); }
  }

  lemma PrintedLayout(order: seq<nat>, results: seq<BlockResult>) returns (starts: seq<nat>)
    requires WellPrinted(order, results)
    ensures Layout(Printed(order, results), starts, order, results)
  {
    var parts := Texts(order, results, |order|);
    starts := Starts(parts, |order|);
    TextsHeaded(order, results);
    StartsAt(parts, |order|, 0);
    StartsAt(parts, |order|, |order|);
    forall i: nat
      ensures PlacedAt(Printed(order, results), starts, order, results, i)
    {
      if i < |order| {
        TextsAt(order, results, |order|, i);
        StartsAt(parts, |order|, i);
        StartsAt(parts, |order|, i + 1);
        JoinedStands(parts, i, |order|);
        PartLabelled(parts, order, i);
        BlockPlaced(Joined(parts, |order|), starts, order, results, i);
      }
    }
  }

  /** A part is found under its label. */
  lemma PartLabelled(parts: seq<seq<Stmt>>, order: seq<nat>, i: nat)
    requires Headed(parts, order) && i < |parts|
    ensures LabelAt(Joined(parts, |parts|), order[i]) == Some(|Joined(parts, i)|)
  {
    var prog, p := Joined(parts, |parts|), |Joined(parts, i)|;
    assert HeadedAt(parts, order, i);
    JoinedStands(parts, i, |parts|);
    StandsOne(prog, p, parts[i], 0);
    LabelsUnique(parts, order);
    UniqueAt(prog, p, order[i]);
  }

  /** A block's text taken apart. */
  lemma BlockPlaced(prog: seq<Stmt>, starts: seq<nat>, order: seq<nat>, results: seq<BlockResult>, i: nat)
    requires Ordered(order, results) && i < |order| && |starts| == |order| + 1 && Straight(results[order[i]].stmts)
    requires StandsAt(prog, starts[i], Text(order, results, i))
      && starts[i + 1] == starts[i] + |Text(order, results, i)|
    requires LabelAt(prog, order[i]) == Some(starts[i])
    ensures PlacedAt(prog, starts, order, results, i)
  {
    var (b, r, p) := (order[i], results[order[i]], starts[i]);
    var exits := if Ends([Label(b)] + r.stmts) then [] else Exit(b, r, NextOf(order, i));
    EndsBehindLabel(b, r.stmts);
    assert Text(order, results, i) == ([Label(b)] + r.stmts) + exits;
    StandsSplit(prog, p, [Label(b)] + r.stmts, exits);
    StandsSplit(prog, p, [Label(b)], r.stmts);
    StandsOne(prog, p, [Label(b)], 0);
  }

  // ----- one block after the other -----------------------------------------------------------------------

  /** The edges of the block at position `i` can be followed in the printed code: a single
      edge goes to a printed block; of two edges the one not taken goes to the block printed
      next. */
  ghost predicate Followable(order: seq<nat>, results: seq<BlockResult>, i: nat)
    requires Ordered(order, results) && i < |order|
  {
    var r := results[order[i]];
    || Ends(r.stmts)
    || (|r.targets| == 1 && r.targets[0] in order)
    || (|r.targets| == 2 && r.cond.Some? && r.targets[0] in order && NextOf(order, i) == Some(r.targets[1]))
  }

  /** The place of a block. */
  ghost predicate AtBlock(starts: seq<nat>, order: seq<nat>, s: State, b: nat, env: Env)
    requires |starts| == |order| + 1
  {
    exists i :: 0 <= i < |order| && order[i] == b && s == At(starts[i], env)
  }

  lemma JumpLands(prog: seq<Stmt>, starts: seq<nat>, order: seq<nat>, results: seq<BlockResult>, b: nat, env: Env)
    requires Layout(prog, starts, order, results) && b in order
    ensures AtBlock(starts, order, JumpTo(prog, b, env), b, env)
  {
    var i :| 0 <= i < |order| && order[i] == b;
    assert PlacedAt(prog, starts, order, results, i);
  }

  /** A block with one successor. */
  lemma LeaveSingle(prog: seq<Stmt>, starts: seq<nat>, order: seq<nat>, results: seq<BlockResult>, i: nat, p: nat,
                    env: Env) returns (n: nat)
    requires Layout(prog, starts, order, results) && i < |order| && p == starts[i] + 1 + |results[order[i]].stmts|
    requires var r := results[order[i]]; !Ends(r.stmts) && |r.targets| == 1 && r.targets[0] in order
    ensures AtBlock(starts, order, Run(prog, At(p, env), n), results[order[i]].targets[0], env)
  {
    var r := results[order[i]];
    var exits := Exit(order[i], r, NextOf(order, i));
    assert PlacedAt(prog, starts, order, results, i);
    assert Run(prog, At(p, env), 0) == At(p, env);
    if NextOf(order, i) == Some(r.targets[0]) {
      n := 0;
      assert exits == [] && order[i + 1] == r.targets[0];
    } else {
      n := 1;
      StandsOne(prog, p, exits, 0);
      JumpLands(prog, starts, order, results, r.targets[0], env);
    }
  }

  /** A test and a comment. */
  lemma TestRun(prog: seq<Stmt>, p: nat, test: Expr, id: nat, env: Env, v: int)
    requires p + 1 < |prog| && prog[p] == IfGoto(test, id) && prog[p + 1].Comment? && Eval(test, env) == Some(v)
    ensures v != 0 ==> Run(prog, At(p, env), 1) == JumpTo(prog, id, env)
    ensures v == 0 ==> Run(prog, At(p, env), 2) == At(p + 2, env)
  {
    assert Run(prog, At(p, env), 0) == At(p, env);
    if v == 0 { assert Run(prog, At(p, env), 1) == At(p + 1, env); }
  }

  /** A block with two successors: a true condition jumps, a false one runs into the block
      printed next, whichever that is. */
  lemma LeaveDouble(prog: seq<Stmt>, starts: seq<nat>, order: seq<nat>, results: seq<BlockResult>, i: nat, p: nat,
                    env: Env, v: int) returns (n: nat)
    requires Layout(prog, starts, order, results) && i < |order| && p == starts[i] + 1 + |results[order[i]].stmts|
    requires var r := results[order[i]];
      !Ends(r.stmts) && |r.targets| == 2 && r.cond.Some? && r.targets[0] in order && Eval(r.cond.value, env) == Some(v)
    ensures v != 0 ==> AtBlock(starts, order, Run(prog, At(p, env), n), results[order[i]].targets[0], env)
    ensures v == 0 ==> Run(prog, At(p, env), n) == At(starts[i + 1], env)
  {
    var r := results[order[i]];
    var exits := Exit(order[i], r, NextOf(order, i));
    assert PlacedAt(prog, starts, order, results, i);
    UnreachedComments(r.targets, 2);
    StandsOne(prog, p, exits, 0);
    StandsOne(prog, p, exits, 1);
    TestRun(prog, p, r.cond.value, r.targets[0], env, v);
    n := if v != 0 then 1 else 2;
    if v != 0 { JumpLands(prog, starts, order, results, r.targets[0], env); }
  }

  /** Running on behind a two-way block is the branch not taken exactly when that block is
      printed next. */
  lemma FallsRight(prog: seq<Stmt>, starts: seq<nat>, order: seq<nat>, results: seq<BlockResult>, i: nat, s: nat,
                   env: Env)
    requires Layout(prog, starts, order, results) && i < |order|
    ensures AtBlock(starts, order, At(starts[i + 1], env), s, env) <==> NextOf(order, i) == Some(s)
  {
    if AtBlock(starts, order, At(starts[i + 1], env), s, env) {
      var j :| 0 <= j < |order| && order[j] == s && At(starts[i + 1], env) == At(starts[j], env);
      assert PlacedAt(prog, starts, order, results, j) && PlacedAt(prog, starts, order, results, i + 1);
    }
  }

  ghost predicate AllFollowable(order: seq<nat>, results: seq<BlockResult>) {
    Ordered(order, results) && forall i :: 0 <= i < |order| ==> Followable(order, results, i)
  }

  /** The printed code stands where the blocks are; nothing is said once a block throws. */
  ghost predicate SamePoint(starts: seq<nat>, order: seq<nat>, p: RM.Point, s: State)
    requires |starts| == |order| + 1
  {
    match p
    case In(b, env) => AtBlock(starts, order, s, b, env)
    case Gave(value) => s == Gave(value)
    case Raised => true
    case Nowhere => true
  }

  /** Past the statements of a block. */
  lemma ExitFollows(prog: seq<Stmt>, starts: seq<nat>, order: seq<nat>, results: seq<BlockResult>, i: nat, p: nat,
                    env: Env) returns (n: nat)
    requires Layout(prog, starts, order, results) && AllFollowable(order, results) && i < |order|
    requires p == starts[i] + 1 + |results[order[i]].stmts| && !Ends(results[order[i]].stmts)
    ensures SamePoint(starts, order, RM.AfterStatements(results[order[i]], Normal(env)), Run(prog, At(p, env), n))
  {
    var r := results[order[i]];
    assert Followable(order, results, i);
    n := 0;
    if RM.Choice(r.cond, env).Some? {
      if |r.targets| == 1 {
        n := LeaveSingle(prog, starts, order, results, i, p, env);
      } else {
        var v := Eval(r.cond.value, env).value;
        n := LeaveDouble(prog, starts, order, results, i, p, env, v);
        if v == 0 { assert order[i + 1] == r.targets[1]; }
      }
    }
  }

  /** The statements of a placed block. */
  lemma BodyFollows(prog: seq<Stmt>, starts: seq<nat>, order: seq<nat>, results: seq<BlockResult>, i: nat, env: Env)
    requires Layout(prog, starts, order, results) && i < |order|
    ensures var stmts := results[order[i]].stmts;
      && RanTo(Exec(stmts, env), Run(prog, At(starts[i], env), 1 + |stmts|), starts[i] + 1 + |stmts|)
      && (Exec(stmts, env).Normal? ==> !Ends(stmts))
  {
    var stmts := results[order[i]].stmts;
    assert PlacedAt(prog, starts, order, results, i);
    LabelAndStatements(prog, starts[i], stmts, env, 1 + |stmts|);
    if Ends(stmts) { EndsStops(stmts, env); }
  }

  lemma Chain(prog: seq<Stmt>, s: State, m: nat, t: State, n: nat)
    requires Run(prog, s, m) == t
    ensures Run(prog, s, m + n) == Run(prog, t, n)
  {
    RunSum(prog, s, m, n, m + n);
  }

  /** One block of the blocks is one block of the printed code. */
  lemma BlockFollows(prog: seq<Stmt>, starts: seq<nat>, order: seq<nat>, results: seq<BlockResult>, i: nat, env: Env,
                     o: Outcome) returns (n: nat)
    requires Layout(prog, starts, order, results) && AllFollowable(order, results) && i < |order|
    requires o == Exec(results[order[i]].stmts, env)
    ensures n >= 1 && SamePoint(starts, order, RM.AfterStatements(results[order[i]], o),
      Run(prog, At(starts[i], env), n))
  {
    var m := 1 + |results[order[i]].stmts|;
    var p := starts[i] + m;
    BodyFollows(prog, starts, order, results, i, env);
    match o
    case Normal(env') =>
      var more := ExitFollows(prog, starts, order, results, i, p, env');
      Chain(prog, At(starts[i], env), m, At(p, env'), more);
      n := m + more;
    case Returned(_) => n := m;
    case Threw => n := m;
  }

  lemma PointFollows(prog: seq<Stmt>, starts: seq<nat>, order: seq<nat>, results: seq<BlockResult>, p: RM.Point,
                     s: State) returns (n: nat)
    requires Layout(prog, starts, order, results) && AllFollowable(order, results) && SamePoint(starts, order, p, s)
    ensures n >= 1 && SamePoint(starts, order, RM.EmittedStep(results, p), Run(prog, s, n))
  {
    n := 1;
    match p
    case In(b, env) =>
      var i :| 0 <= i < |order| && order[i] == b && s == At(starts[i], env);
      n := BlockFollows(prog, starts, order, results, i, env, Exec(results[b].stmts, env));
    case Gave(_) => RunStays(prog, s, 1);
    case _ =>
  }

  /** After `k` blocks at least `k` statements of the printed code have run, and both are at
      the same place. */
  lemma {:induction false} BlocksFollow(prog: seq<Stmt>, starts: seq<nat>, order: seq<nat>, results: seq<BlockResult>,
                                        env: Env, k: nat) returns (n: nat)
    requires Layout(prog, starts, order, results) && AllFollowable(order, results) && order != [] && order[0] == 0
    ensures n >= k && SamePoint(starts, order, RM.EmittedRun(results, env, k), Run(prog, At(0, env), n))
  {
    n := 0;
    if k > 0 {
      n := BlocksFollow(prog, starts, order, results, env, k - 1);
      var more := PointFollows(prog, starts, order, results, RM.EmittedRun(results, env, k - 1),
        Run(prog, At(0, env), n));
      RunSum(prog, At(0, env), n, more, n + more);
      n := n + more;
    }
  }

  /** If the blocks never throw nor lose their way, the printed code returns a value exactly
      when they do. */
  lemma PrintedReturns(order: seq<nat>, results: seq<BlockResult>, env: Env, value: Option<int>)
    requires WellPrinted(order, results) && AllFollowable(order, results) && order != [] && order[0] == 0
    requires forall k: nat :: !RM.EmittedRun(results, env, k).Raised? && !RM.EmittedRun(results, env, k).Nowhere?
    ensures Yields(Printed(order, results), env, Gave(value)) <==>
      exists k: nat :: RM.EmittedRun(results, env, k) == RM.Gave(value)
  {
    var prog := Printed(order, results);
    var starts := PrintedLayout(order, results);
    if Yields(prog, env, Gave(value)) {
      var n: nat :| Run(prog, At(0, env), n) == Gave(value);
      var n' := BlocksFollow(prog, starts, order, results, env, n);
      RunSum(prog, At(0, env), n, n' - n, n');
      RunStays(prog, Gave(value), n' - n);
      assert RM.EmittedRun(results, env, n) == RM.Gave(value);
    }
    if k: nat :| RM.EmittedRun(results, env, k) == RM.Gave(value) {
      ReturnIsPrinted(prog, starts, order, results, env, value, k);
    }
  }

  /** Nor does the printed code run off its end. */
  lemma NeverFallsOff(order: seq<nat>, results: seq<BlockResult>, env: Env, env': Env)
    requires WellPrinted(order, results) && AllFollowable(order, results) && order != [] && order[0] == 0
    requires forall k: nat :: !RM.EmittedRun(results, env, k).Raised? && !RM.EmittedRun(results, env, k).Nowhere?
    ensures !Yields(Printed(order, results), env, FellOff(env'))
  {
    var prog := Printed(order, results);
    var starts := PrintedLayout(order, results);
    if n: nat :| Run(prog, At(0, env), n) == FellOff(env') {
      var n' := BlocksFollow(prog, starts, order, results, env, n);
      RunSum(prog, At(0, env), n, n' - n, n');
      RunStays(prog, FellOff(env'), n' - n);
      OffIsNoPoint(starts, order, RM.EmittedRun(results, env, n), env');
    }
  }

  lemma OffIsNoPoint(starts: seq<nat>, order: seq<nat>, p: RM.Point, env: Env)
    requires |starts| == |order| + 1 && !p.Raised? && !p.Nowhere?
    ensures !SamePoint(starts, order, p, FellOff(env))
  {
  }

  lemma ReturnIsPrinted(prog: seq<Stmt>, starts: seq<nat>, order: seq<nat>, results: seq<BlockResult>, env: Env,
                        value: Option<int>, k: nat)
    requires Layout(prog, starts, order, results) && AllFollowable(order, results) && order != [] && order[0] == 0
    requires RM.EmittedRun(results, env, k) == RM.Gave(value)
    ensures Yields(prog, env, Gave(value))
  {
    var n := BlocksFollow(prog, starts, order, results, env, k);
    assert SamePoint(starts, order, RM.Gave(value), Run(prog, At(0, env), n));
    assert Run(prog, At(0, env), n) == Gave(value);
  }
}
