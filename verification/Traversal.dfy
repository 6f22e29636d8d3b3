/** `rpo_from` and `back_edges`: the two loops, and what the traversal they share
    computes. */
module Traversal {
  import opened Graph
  import opened DepthFirst

  function Reversed<T>(s: seq<T>): (r: seq<T>)
    ensures |r| == |s| && forall i :: 0 <= i < |s| ==> r[i] == s[|s| - 1 - i]
  {
    seq(|s|, i requires 0 <= i < |s| => s[|s| - 1 - i])
  }

  /** Reverse post order from `root`. */
  function Rpo(g: Graph, root: nat): seq<nat> {
    if root >= g.Size() then [] else Reversed(Run(g, Start(g, root)).order)
  }

  /** The entry block is block 0. */
  function BackSet(g: Graph): set<(nat, nat)> {
    if g.Size() == 0 then {} else Run(g, Start(g, 0)).back
  }

  /** How many turns the traversal still takes. */
  ghost function TurnsLeft(g: Graph, d: Dfs): nat
    requires Shape(g, d)
    decreases News(d.color), Work(g, d.stack)
  {
    if d.stack == [] then 0
    else
      StepDecreases(g, d);
      1 + TurnsLeft(g, Step(g, d))
  }

  /** The traversal in state `d` has `left` turns to go and ends in `final`. */
  ghost predicate Heading(g: Graph, d: Dfs, final: Dfs, left: nat) {
    Shape(g, d) && Run(g, d) == final && TurnsLeft(g, d) == left
  }

  /** The loop variables of `rpo_from` stand for the state `d`. */
  ghost predicate Stands(g: Graph, d: Dfs, stack: seq<(nat, nat)>, visited: seq<bool>, order: seq<nat>) {
    && d.stack == stack && d.order == order && |visited| == |d.color| == g.Size()
    && (forall i :: 0 <= i < |visited| ==> visited[i] == (d.color[i] != New))
    && (forall i :: 0 <= i < |stack| ==> stack[i].0 < g.Size() && visited[stack[i].0])
  }

  /** One turn of its loop. */
  lemma Turn(g: Graph, d: Dfs, final: Dfs, left: nat, stack: seq<(nat, nat)>, visited: seq<bool>, order: seq<nat>)
      returns (d': Dfs)
    requires Heading(g, d, final, left) && Stands(g, d, stack, visited, order) && stack != []
    ensures left > 0 && Heading(g, d', final, left - 1)
    ensures var (k, b, idx) := (|stack| - 1, stack[|stack| - 1].0, stack[|stack| - 1].1);
      if idx >= |g.succs[b]| then Stands(g, d', stack[..k], visited, order + [b])
      else
        var (s, more) := (g.succs[b][idx], stack[..k] + [(b, idx + 1)]);
        if s < g.Size() && !visited[s] then Stands(g, d', more + [(s, 0)], visited[s := true], order)
        else Stands(g, d', more, visited, order)
  {
    d' := Step(g, d);
    TurnStands(g, d, stack, visited, order);
    StepDecreases(g, d);
  }

  lemma TurnStands(g: Graph, d: Dfs, stack: seq<(nat, nat)>, visited: seq<bool>, order: seq<nat>)
    requires Shape(g, d) && Stands(g, d, stack, visited, order) && stack != []
    ensures var (k, b, idx, d') := (|stack| - 1, stack[|stack| - 1].0, stack[|stack| - 1].1, Step(g, d));
      if idx >= |g.succs[b]| then Stands(g, d', stack[..k], visited, order + [b])
      else
        var (s, more) := (g.succs[b][idx], stack[..k] + [(b, idx + 1)]);
        if s < g.Size() && !visited[s] then Stands(g, d', more + [(s, 0)], visited[s := true], order)
        else Stands(g, d', more, visited, order)
  {
  }

  lemma Begin(g: Graph, root: nat, visited: seq<bool>) returns (d: Dfs, left: nat)
    requires root < g.Size() == |visited| && forall i :: 0 <= i < |visited| ==> visited[i] == (i == root)
    ensures d == Start(g, root) && Stands(g, d, [(root, 0)], visited, []) && Heading(g, d, Run(g, d), left)
  {
    d := Start(g, root);
    left := TurnsLeft(g, d);
  }

  method RpoFrom(g: Graph, root: nat) returns (rpo: seq<nat>)
    ensures rpo == Rpo(g, root)
  {
    var n := g.Size();
    if root >= n { return []; }
    var visited := new bool[n](i => i == root);
    var order: seq<nat> := [];
    var stack: seq<(nat, nat)> := [(root, 0)];
    ghost var d, left := Begin(g, root, visited[..]);
    ghost var final := Run(g, d);
    while stack != []
      invariant Heading(g, d, final, left) && Stands(g, d, stack, visited[..], order)
      decreases left
    {
      d := Turn(g, d, final, left, stack, visited[..], order);
      left := left - 1;
      var k := |stack| - 1;
      var (b, idx) := stack[k];
      stack := stack[..k];
      if idx < |g.succs[b]| {
        stack := stack + [(b, idx + 1)];
        var s := g.succs[b][idx];
        if s < n && !visited[s] {
          visited[s] := true;
          stack := stack + [(s, 0)];
        }
      } else {
        order := order + [b];
      }
    }
    rpo := Reversed(order);
  }

  // ----- sorting the recorded edges ------------------------------------------------------

  predicate Less(a: (nat, nat), b: (nat, nat)) {
    a.0 < b.0 || (a.0 == b.0 && a.1 < b.1)
  }

  ghost predicate Increasing(s: seq<(nat, nat)>) {
    forall i, j :: 0 <= i < j < |s| ==> Less(s[i], s[j])
  }

  function Elements<T>(s: seq<T>): set<T> {
    set x | x in s
  }

  /** `e` put in its place, unless it is there already. */
  function InsertSorted(s: seq<(nat, nat)>, e: (nat, nat)): (r: seq<(nat, nat)>)
    requires Increasing(s)
    ensures Increasing(r) && forall x :: x in r <==> x in s || x == e
  {
    if s == [] then [e]
    else if Less(e, s[0]) then [e] + s
    else if e == s[0] then s
    else
      var r := InsertSorted(s[1..], e);
      assert forall x :: x in s <==> x == s[0] || x in s[1..];
      assert forall x :: x in r ==> Less(s[0], x);
      assert forall i :: 0 <= i < |r| ==> r[i] in r;
      [s[0]] + r
  }

  /** `sort` and `dedup`. */
  function SortDedup(s: seq<(nat, nat)>): (r: seq<(nat, nat)>)
    ensures Increasing(r) && forall x :: x in r <==> x in s
  {
    if s == [] then []
    else
      var n := |s| - 1;
      assert s == s[..n] + [s[n]];
      InsertSorted(SortDedup(s[..n]), s[n])
  }

  lemma SortKeepsElements(s: seq<(nat, nat)>)
    ensures Elements(SortDedup(s)) == Elements(s)
  {
  }

  lemma ElementsAppend<T>(s: seq<T>, x: T)
    ensures Elements(s + [x]) == Elements(s) + {x}
  {
  }

  /** The loop variables of `back_edges` stand for the state `d`. */
  ghost predicate StandsBack(g: Graph, d: Dfs, stack: seq<(nat, nat)>, state: seq<Color>, out: seq<(nat, nat)>) {
    && d.stack == stack && d.color == state && |state| == g.Size() && d.back == Elements(out)
    && (forall i :: 0 <= i < |stack| ==> stack[i].0 < g.Size())
  }

  /** One turn of its loop, which took the entry `(b, idx)` off the stack. */
  lemma BackTurn(g: Graph, d: Dfs, final: Dfs, left: nat, stack: seq<(nat, nat)>, state: seq<Color>,
                 out: seq<(nat, nat)>, below: seq<(nat, nat)>, b: nat, idx: nat)
    returns (d': Dfs)
    requires Heading(g, d, final, left) && StandsBack(g, d, stack, state, out) && stack == below + [(b, idx)]
    ensures left > 0 && Heading(g, d', final, left - 1) && b < g.Size()
    ensures idx >= |g.succs[b]| ==> StandsBack(g, d', below, state[b := Finished], out)
    ensures idx < |g.succs[b]| ==> LookedBack(g, d', below + [(b, idx + 1)], state, out, b, g.succs[b][idx])
  {
    assert stack[|stack| - 1] == (b, idx) && stack[..|stack| - 1] == below;
    StepDecreases(g, d);
    d' := Step(g, d);
    if idx < |g.succs[b]| { ElementsAppend(out, (b, g.succs[b][idx])); }
  }

  /** The loop variables after a turn of `b` that looked at `s`. */
  ghost predicate LookedBack(g: Graph, d: Dfs, stack: seq<(nat, nat)>, state: seq<Color>, out: seq<(nat, nat)>,
                             b: nat, s: nat) {
    |state| == g.Size() &&
    if s >= g.Size() then StandsBack(g, d, stack, state, out)
    else match state[s]
      case New => StandsBack(g, d, stack + [(s, 0)], state[s := OnStack], out)
      case OnStack => StandsBack(g, d, stack, state, out + [(b, s)])
      case Finished => StandsBack(g, d, stack, state, out)
  }

  lemma BeginBack(g: Graph, state: seq<Color>) returns (d: Dfs, left: nat)
    requires 0 < g.Size() == |state| && forall i :: 0 <= i < |state| ==> state[i] == if i == 0 then OnStack else New
    ensures d == Start(g, 0) && StandsBack(g, d, [(0, 0)], state, []) && Heading(g, d, Run(g, d), left)
  {
    d := Start(g, 0);
    left := TurnsLeft(g, d);
  }

  method BackEdges(g: Graph) returns (edges: seq<(nat, nat)>)
    ensures Increasing(edges) && Elements(edges) == BackSet(g)
  {
    var n := g.Size();
    if n == 0 { return []; }
    var state := new Color[n](i => if i == 0 then OnStack else New);
    var out: seq<(nat, nat)> := [];
    var stack: seq<(nat, nat)> := [(0, 0)];
    ghost var d, left := BeginBack(g, state[..]);
    ghost var final := Run(g, d);
    while stack != []
      invariant Heading(g, d, final, left) && StandsBack(g, d, stack, state[..], out)
      decreases left
    {
      var k := |stack| - 1;
      var (b, idx) := stack[k];
      ghost var colors := state[..];
      d := BackTurn(g, d, final, left, stack, colors, out, stack[..k], b, idx);
      left := left - 1;
      stack := stack[..k];
      if idx < |g.succs[b]| {
        stack := stack + [(b, idx + 1)];
        var s := g.succs[b][idx];
        if s < n {
          if state[s] == OnStack {
            out := out + [(b, s)];
          } else if state[s] == New {
            state[s] := OnStack;
            assert state[..] == colors[s := OnStack];
            stack := stack + [(s, 0)];
          }
        }
      } else {
        state[b] := Finished;
        assert state[..] == colors[b := Finished];
      }
    }
    edges := SortDedup(out);
    SortKeepsElements(out);
  }

  // ----- what the traversal computes --------------------------------------------------------

  ghost function Pos(s: seq<nat>, v: nat): (i: nat)
    requires v in s
    ensures i < |s| && s[i] == v
  {
    var i :| 0 <= i < |s| && s[i] == v;
    i
  }

  /** `w` is the finishing order of a finished traversal and `rpo` its reverse. */
  ghost predicate Final(g: Graph, root: nat, w: seq<Entry>, back: set<(nat, nat)>, rpo: seq<nat>) {
    && Ordered(g, root, w) && Backward(g, w, back)
    && (forall i :: 0 <= i < |w| ==> w[i].1 == |g.succs[w[i].0]|)
    && |rpo| == |w| && (forall i :: 0 <= i < |w| ==> rpo[i] == w[|w| - 1 - i].0)
    && (forall u, v :: (u, v) in back ==> Reaches(g, v, u))
  }

  lemma FinalState(g: Graph, root: nat) returns (w: seq<Entry>)
    requires root < g.Size()
    ensures Final(g, root, w, Run(g, Start(g, root)).back, Rpo(g, root))
  {
    var d := Run(g, Start(g, root));
    StartInv(g, root);
    RunInv(g, root, Start(g, root));
    w := Finishing(g, d);
    forall i | 0 <= i < |w|
      ensures w[i].1 == |g.succs[w[i].0]|
    {
      assert Good(g, w[i]);
    }
  }

  /** Each visited block is reached from the root: through its parent, which finishes
      later. */
  lemma {:induction false} VisitedReached(g: Graph, root: nat, w: seq<Entry>, i: nat)
    requires Ordered(g, root, w) && i < |w|
    ensures Reaches(g, root, w[i].0)
    decreases |w| - i
  {
    if i == |w| - 1 {
      assert Good(g, w[i]);
      ReachesSelf(g, root);
    } else {
      assert HasParent(g, w, i);
      var j :| i < j < |w| && Looked(g, w[j], w[i].0);
      VisitedReached(g, root, w, j);
      ReachesStep(g, root, w[j].0, w[i].0);
    }
  }

  lemma LooksAtAll(g: Graph, root: nat, w: seq<Entry>, back: set<(nat, nat)>, rpo: seq<nat>, i: nat, b: nat)
    requires Final(g, root, w, back, rpo) && i < |w|
    ensures Looked(g, w[i], b) <==> Edge(g, w[i].0, b)
  {
    assert Good(g, w[i]);
    assert g.succs[w[i].0][..w[i].1] == g.succs[w[i].0];
  }

  lemma RpoSound(g: Graph, root: nat, w: seq<Entry>, back: set<(nat, nat)>, rpo: seq<nat>, v: nat)
    requires Final(g, root, w, back, rpo) && v in rpo
    ensures Reaches(g, root, v)
  {
    var i :| 0 <= i < |rpo| && rpo[i] == v;
    VisitedReached(g, root, w, |w| - 1 - i);
  }

  lemma RpoClosed(g: Graph, root: nat, w: seq<Entry>, back: set<(nat, nat)>, rpo: seq<nat>, a: nat, b: nat)
    requires Final(g, root, w, back, rpo) && a in rpo && Edge(g, a, b)
    ensures b in rpo
  {
    var i :| 0 <= i < |rpo| && rpo[i] == a;
    LooksAtAll(g, root, w, back, rpo, |w| - 1 - i, b);
    assert In(w, b);
    var k :| 0 <= k < |w| && w[k].0 == b;
    assert rpo[|w| - 1 - k] == b;
  }

  lemma RpoComplete(g: Graph, root: nat, w: seq<Entry>, back: set<(nat, nat)>, rpo: seq<nat>, v: nat)
    requires Final(g, root, w, back, rpo) && Reaches(g, root, v)
    ensures v in rpo
  {
    var p :| PathFromTo(g, p, root, v);
    assert rpo[0] == root;
    forall a, b | a in Elements(rpo) && Edge(g, a, b)
      ensures b in Elements(rpo)
    {
      RpoClosed(g, root, w, back, rpo, a, b);
    }
    ClosedContains(g, Elements(rpo), p, |p| - 1);
  }

  lemma RpoParent(g: Graph, root: nat, w: seq<Entry>, back: set<(nat, nat)>, rpo: seq<nat>, j: nat)
    requires Final(g, root, w, back, rpo) && 0 < j < |rpo|
    ensures exists i :: 0 <= i < j && Edge(g, rpo[i], rpo[j])
  {
    var n := |w|;
    assert HasParent(g, w, n - 1 - j);
    var k :| n - 1 - j < k < n && Looked(g, w[k], w[n - 1 - j].0);
    assert Edge(g, rpo[n - 1 - k], rpo[j]);
  }

  /** `rpo_from(root)` lists each block reachable from the root exactly once, the root
      first, and every other block after one of its predecessors. */
  lemma RpoTheorem(g: Graph, root: nat)
    requires root < g.Size()
    ensures var rpo := Rpo(g, root);
      && rpo != [] && rpo[0] == root
      && (forall i, j :: 0 <= i < j < |rpo| ==> rpo[i] != rpo[j])
      && (forall v :: v in rpo <==> Reaches(g, root, v))
      && (forall j :: 0 < j < |rpo| ==> exists i :: 0 <= i < j && Edge(g, rpo[i], rpo[j]))
  {
    var w := FinalState(g, root);
    var back, rpo := Run(g, Start(g, root)).back, Rpo(g, root);
    forall v
      ensures v in rpo <==> Reaches(g, root, v)
    {
      if v in rpo { RpoSound(g, root, w, back, rpo, v); }
      if Reaches(g, root, v) { RpoComplete(g, root, w, back, rpo, v); }
    }
    forall j | 0 < j < |rpo|
      ensures exists i :: 0 <= i < j && Edge(g, rpo[i], rpo[j])
    {
      RpoParent(g, root, w, back, rpo, j);
    }
  }

  /** `back_edges()` is exactly the set of edges between reachable blocks that do not
      lead forward in reverse post order, and each closes a cycle. */
  lemma BackEdgesTheorem(g: Graph, u: nat, v: nat)
    requires g.Size() > 0
    ensures (u, v) in BackSet(g) <==>
      && Edge(g, u, v) && u in Rpo(g, 0) && v in Rpo(g, 0)
      && Pos(Rpo(g, 0), v) <= Pos(Rpo(g, 0), u)
    ensures (u, v) in BackSet(g) ==> Reaches(g, v, u)
  {
    var w := FinalState(g, 0);
    if (u, v) in BackSet(g) { RecordedIsBackward(g, w, u, v); }
    if Edge(g, u, v) && u in Rpo(g, 0) && v in Rpo(g, 0) {
      var rpo, n := Rpo(g, 0), |w|;
      var i, j := n - 1 - Pos(rpo, u), n - 1 - Pos(rpo, v);
      assert w[i].0 == u && w[j].0 == v;
      LooksAtAll(g, 0, w, BackSet(g), rpo, i, v);
      assert Told(g, w, BackSet(g), i, j);
    }
  }

  lemma RecordedIsBackward(g: Graph, w: seq<Entry>, u: nat, v: nat)
    requires g.Size() > 0 && Final(g, 0, w, BackSet(g), Rpo(g, 0)) && (u, v) in BackSet(g)
    ensures Edge(g, u, v) && u in Rpo(g, 0) && v in Rpo(g, 0) && Pos(Rpo(g, 0), v) <= Pos(Rpo(g, 0), u)
  {
    var rpo, n := Rpo(g, 0), |w|;
    assert Seen(g, w, (u, v));
    var i :| 0 <= i < n && w[i].0 == u && Looked(g, w[i], v);
    assert In(w, v);
    var j :| 0 <= j < n && w[j].0 == v;
    assert Told(g, w, BackSet(g), i, j);
    assert rpo[n - 1 - i] == u && rpo[n - 1 - j] == v;
    PosUnique(g, 0, n - 1 - i);
    PosUnique(g, 0, n - 1 - j);
  }

  lemma PosUnique(g: Graph, root: nat, i: nat)
    requires root < g.Size() && i < |Rpo(g, root)|
    ensures Pos(Rpo(g, root), Rpo(g, root)[i]) == i
  {
    RpoTheorem(g, root);
  }

  /** Every cycle that the entry reaches contains a back edge. */
  lemma CycleHasBackEdge(g: Graph, p: seq<nat>)
    requires g.Size() > 0 && IsPath(g, p) && |p| > 1 && p[0] == p[|p| - 1] && Reaches(g, 0, p[0])
    ensures exists i :: 0 <= i < |p| - 1 && (p[i], p[i + 1]) in BackSet(g)
  {
    var rpo := Rpo(g, 0);
    RpoTheorem(g, 0);
    if forall i :: 0 <= i < |p| - 1 ==> (p[i], p[i + 1]) !in BackSet(g) {
      Climbs(g, p, |p| - 1);
    }
  }

  /** Without back edges positions only grow along a path. */
  lemma {:induction false} Climbs(g: Graph, p: seq<nat>, k: nat)
    requires g.Size() > 0 && IsPath(g, p) && k < |p| && Reaches(g, 0, p[0])
    requires forall i {:trigger p[i]} :: 0 <= i < k ==> (p[i], p[i + 1]) !in BackSet(g)
    ensures p[0] in Rpo(g, 0) && p[k] in Rpo(g, 0)
    ensures Pos(Rpo(g, 0), p[k]) >= Pos(Rpo(g, 0), p[0]) + k
  {
    RpoTheorem(g, 0);
    if k > 0 {
      Climbs(g, p, k - 1);
      assert EdgeAt(g, p, k - 1);
      ReachesStep(g, 0, p[k - 1], p[k]);
      assert p[k - 1 + 1] == p[k];
      BackEdgesTheorem(g, p[k - 1], p[k]);
    }
  }
}
