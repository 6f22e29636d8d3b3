/** Worklist searches over the graph: natural loops, reachability between two blocks,
    and the blocks reachable from the entry and the handlers. */
module Loops {
  import opened Graph
  import opened Traversal

  /** Some path from `x` to `b` avoids `h`. */
  ghost predicate Avoids(g: Graph, h: nat, x: nat, b: nat) {
    exists p :: PathFromTo(g, p, x, b) && h !in p
  }

  lemma AvoidsBackward(g: Graph, h: nat, y: nat, x: nat, b: nat)
    requires Edge(g, y, x) && y != h && Avoids(g, h, x, b)
    ensures Avoids(g, h, y, b)
  {
    var p :| PathFromTo(g, p, x, b) && h !in p;
    var q := [y] + p;
    forall i | 0 <= i < |q| - 1
      ensures EdgeAt(g, q, i)
    {
      if i > 0 { assert EdgeAt(g, p, i - 1); }
    }
    assert PathFromTo(g, q, y, b);
  }

  function Unset(marks: seq<bool>): (s: set<nat>)
    ensures forall i :: i in s <==> 0 <= i < |marks| && !marks[i]
  {
    set i | 0 <= i < |marks| && !marks[i]
  }

  /** The marked blocks, ascending. */
  function Marked(marks: seq<bool>, n: nat): (r: seq<nat>)
    requires n <= |marks|
    ensures forall x: nat :: x in r <==> x < n && marks[x]
    ensures forall i, j :: 0 <= i < j < |r| ==> r[i] < r[j]
  {
    if n == 0 then []
    else
      var r := Marked(marks, n - 1);
      assert forall i :: 0 <= i < |r| ==> r[i] in r;
      if marks[n - 1] then r + [n - 1] else r
  }

  /** Of the predecessors of `x`, those not yet in the loop are on the stack. */
  predicate Covered(g: Graph, marks: seq<bool>, stack: seq<nat>, x: nat)
    requires |g.preds| == |marks| == g.Size() && x < g.Size()
  {
    forall p :: p in g.preds[x] ==> (p < |marks| && marks[p]) || p in stack
  }

  ghost predicate LoopInv(g: Graph, h: nat, b: nat, marks: seq<bool>, stack: seq<nat>) {
    && WellFormed(g) && |marks| == g.Size() && h < g.Size() && marks[h]
    && (forall x :: 0 <= x < |marks| && marks[x] && x != h ==> Avoids(g, h, x, b) && Covered(g, marks, stack, x))
    && (forall x :: x in stack ==> x >= g.Size() || x == h || Avoids(g, h, x, b))
    && (b < g.Size() ==> marks[b] || b in stack)
  }

  /** The predecessors the loop pushes. */
  function Unvisited(preds: seq<nat>, marks: seq<bool>, k: nat): (r: seq<nat>)
    requires k <= |preds| && forall i :: 0 <= i < |preds| ==> preds[i] < |marks|
    ensures forall x :: x in r <==> exists i :: 0 <= i < k && preds[i] == x && !marks[x]
  {
    if k == 0 then []
    else
      var r := Unvisited(preds, marks, k - 1);
      if marks[preds[k - 1]] then r else r + [preds[k - 1]]
  }

  lemma Skip(g: Graph, h: nat, b: nat, marks: seq<bool>, stack: seq<nat>)
    requires LoopInv(g, h, b, marks, stack) && stack != []
    requires var x := stack[|stack| - 1]; x >= |marks| || marks[x]
    ensures LoopInv(g, h, b, marks, stack[..|stack| - 1])
  {
    var k := |stack| - 1;
    forall x | 0 <= x < |marks| && marks[x] && x != h
      ensures Covered(g, marks, stack[..k], x)
    {
      assert Covered(g, marks, stack, x);
      forall p | p in g.preds[x]
        ensures marks[p] || p in stack[..k]
      {
        if !marks[p] {
          var i :| 0 <= i < |stack| && stack[i] == p;
          assert stack[..k][i] == p;
        }
      }
    }
    if b < g.Size() && !marks[b] {
      var i :| 0 <= i < |stack| && stack[i] == b;
      assert stack[..k][i] == b;
    }
  }

  lemma Mark(g: Graph, h: nat, b: nat, marks: seq<bool>, stack: seq<nat>, x: nat)
    requires LoopInv(g, h, b, marks, stack) && stack != [] && x == stack[|stack| - 1] < |marks| && !marks[x]
    ensures var marks' := marks[x := true];
      && (forall i :: 0 <= i < |g.preds[x]| ==> g.preds[x][i] < |marks'|)
      && LoopInv(g, h, b, marks', stack[..|stack| - 1] + Unvisited(g.preds[x], marks', |g.preds[x]|))
  {
    var k, marks' := |stack| - 1, marks[x := true];
    assert forall i :: 0 <= i < |g.preds[x]| ==> g.preds[x][i] in g.preds[x];
    var more := Unvisited(g.preds[x], marks', |g.preds[x]|);
    var stack' := stack[..k] + more;
    forall y | y in stack && y != x
      ensures y in stack'
    {
      var i :| 0 <= i < |stack| && stack[i] == y;
      assert stack[..k][i] == y;
    }
    forall y | 0 <= y < |marks'| && marks'[y] && y != h
      ensures Avoids(g, h, y, b) && Covered(g, marks', stack', y)
    {
      if y == x {
        forall p | p in g.preds[x]
          ensures marks'[p] || p in stack'
        {
          if !marks'[p] { assert p in more; }
        }
      } else {
        assert Covered(g, marks, stack, y);
      }
    }
    forall y | y in stack'
      ensures y >= g.Size() || y == h || Avoids(g, h, y, b)
    {
      if y in more {
        assert Edge(g, y, x);
        AvoidsBackward(g, h, y, x, b);
      }
    }
  }

  /** When the stack is empty the marks are exact. */
  lemma LoopExact(g: Graph, h: nat, b: nat, marks: seq<bool>, x: nat)
    requires LoopInv(g, h, b, marks, []) && x < g.Size()
    ensures marks[x] <==> x == h || Avoids(g, h, x, b)
  {
    if Avoids(g, h, x, b) {
      var p :| PathFromTo(g, p, x, b) && h !in p;
      Backtrack(g, h, b, marks, p, 0);
    }
  }

  lemma {:induction false} Backtrack(g: Graph, h: nat, b: nat, marks: seq<bool>, p: seq<nat>, i: nat)
    requires LoopInv(g, h, b, marks, []) && IsPath(g, p) && p[|p| - 1] == b && h !in p && i < |p|
    ensures marks[p[i]]
    decreases |p| - i
  {
    if i < |p| - 1 {
      Backtrack(g, h, b, marks, p, i + 1);
      assert EdgeAt(g, p, i);
      assert p[i + 1] in p;
      assert Covered(g, marks, [], p[i + 1]);
      assert p[i] in g.preds[p[i + 1]];
    }
  }

  /** The inner loop of `loop_body`. */
  method PushUnvisited(preds: seq<nat>, inLoop: array<bool>, base: seq<nat>) returns (stack: seq<nat>)
    requires forall i :: 0 <= i < |preds| ==> preds[i] < inLoop.Length
    ensures stack == base + Unvisited(preds, inLoop[..], |preds|)
  {
    stack := base;
    for k := 0 to |preds|
      invariant stack == base + Unvisited(preds, inLoop[..], k)
    {
      if !inLoop[preds[k]] {
        stack := stack + [preds[k]];
      }
    }
  }

  /** `loop_body`: exactly the header and the blocks with a path to the source of the
      back edge that avoids the header. */
  method LoopBody(g: Graph, header: nat, backFrom: nat) returns (body: seq<nat>)
    requires WellFormed(g) && header < g.Size()
    ensures forall x: nat :: x in body <==> x < g.Size() && (x == header || Avoids(g, header, x, backFrom))
    ensures forall i, j :: 0 <= i < j < |body| ==> body[i] < body[j]
  {
    var inLoop := new bool[g.Size()](i => i == header);
    var stack := [backFrom];
    BeginLoop(g, header, backFrom, inLoop[..]);
    while stack != []
      invariant LoopInv(g, header, backFrom, inLoop[..], stack)
      decreases Unset(inLoop[..]), |stack|
    {
      ghost var marks, before := inLoop[..], stack;
      var b := stack[|stack| - 1];
      stack := stack[..|stack| - 1];
      if b >= inLoop.Length || inLoop[b] {
        Skip(g, header, backFrom, marks, before);
      } else {
        Mark(g, header, backFrom, marks, before, b);
        assert b in Unset(marks);
        inLoop[b] := true;
        assert inLoop[..] == marks[b := true];
        stack := PushUnvisited(g.preds[b], inLoop, stack);
      }
    }
    forall x | 0 <= x < g.Size()
      ensures inLoop[x] <==> x == header || Avoids(g, header, x, backFrom)
    {
      LoopExact(g, header, backFrom, inLoop[..], x);
    }
    body := Marked(inLoop[..], inLoop.Length);
  }

  lemma BeginLoop(g: Graph, h: nat, b: nat, marks: seq<bool>)
    requires WellFormed(g) && h < g.Size() == |marks| && forall i :: 0 <= i < |marks| ==> marks[i] == (i == h)
    ensures LoopInv(g, h, b, marks, [b])
  {
    if b < g.Size() && b != h { assert PathFromTo(g, [b], b, b); }
  }

  /** When the header dominates the source of the back edge, it dominates every block
      of the loop. */
  lemma HeaderDominates(g: Graph, entry: nat, h: nat, b: nat, x: nat, p: seq<nat>)
    requires forall q :: PathFromTo(g, q, entry, b) ==> h in q
    requires x == h || Avoids(g, h, x, b)
    requires PathFromTo(g, p, entry, x)
    ensures h in p
  {
    if x != h {
      var q :| PathFromTo(g, q, x, b) && h !in q;
      Join(g, p, q);
      var r := p + q[1..];
      assert PathFromTo(g, r, entry, b);
      assert forall y :: y in q[1..] ==> y in q;
    } else {
      assert p[|p| - 1] == h;
    }
  }

  // ----- reachability ------------------------------------------------------------------------

  /** Every successor of `x` is seen or waiting. */
  predicate Expanded(g: Graph, seen: seq<bool>, stack: seq<nat>, x: nat)
    requires x < g.Size()
  {
    forall y :: y in g.succs[x] && y < |seen| ==> seen[y] || y in stack
  }

  ghost predicate SearchInv(g: Graph, from: nat, to: nat, seen: seq<bool>, stack: seq<nat>) {
    && |seen| == g.Size() && from < g.Size()
    && (forall x :: x in stack ==> x < g.Size() && Reaches(g, from, x))
    && (seen[from] || from in stack)
    && (forall x :: 0 <= x < |seen| && seen[x] ==> x != to && Expanded(g, seen, stack, x))
  }

  /** The successors the search pushes. */
  function Unseen(succs: seq<nat>, seen: seq<bool>, k: nat): (r: seq<nat>)
    requires k <= |succs|
    ensures forall x: nat :: x in r <==> x < |seen| && !seen[x] && x in succs[..k]
  {
    if k == 0 then []
    else
      assert succs[..k] == succs[..k - 1] + [succs[k - 1]];
      var r := Unseen(succs, seen, k - 1);
      if succs[k - 1] < |seen| && !seen[succs[k - 1]] then r + [succs[k - 1]] else r
  }

  lemma PopMember(stack: seq<nat>, x: nat)
    requires stack != [] && x in stack && x != stack[|stack| - 1]
    ensures x in stack[..|stack| - 1]
  {
    var i :| 0 <= i < |stack| && stack[i] == x;
    assert stack[..|stack| - 1][i] == x;
  }

  lemma SearchSkip(g: Graph, from: nat, to: nat, seen: seq<bool>, stack: seq<nat>)
    requires SearchInv(g, from, to, seen, stack) && stack != []
    requires stack[|stack| - 1] < |seen| && seen[stack[|stack| - 1]]
    ensures SearchInv(g, from, to, seen, stack[..|stack| - 1])
  {
    forall x | x in stack && x != stack[|stack| - 1]
      ensures x in stack[..|stack| - 1]
    {
      PopMember(stack, x);
    }
    forall x | 0 <= x < |seen| && seen[x]
      ensures Expanded(g, seen, stack[..|stack| - 1], x)
    {
      assert Expanded(g, seen, stack, x);
    }
  }

  lemma SearchVisit(g: Graph, from: nat, to: nat, seen: seq<bool>, stack: seq<nat>, b: nat)
    requires SearchInv(g, from, to, seen, stack) && stack != []
    requires b == stack[|stack| - 1] < |seen| && !seen[b] && b != to
    ensures var seen' := seen[b := true];
      SearchInv(g, from, to, seen', stack[..|stack| - 1] + Unseen(g.succs[b], seen', |g.succs[b]|))
  {
    var seen' := seen[b := true];
    var more := Unseen(g.succs[b], seen', |g.succs[b]|);
    var stack' := stack[..|stack| - 1] + more;
    assert g.succs[b][..|g.succs[b]|] == g.succs[b];
    assert b in stack;
    forall x | x in stack && x != b
      ensures x in stack'
    {
      PopMember(stack, x);
    }
    forall x | 0 <= x < |seen'| && seen'[x]
      ensures x != to && Expanded(g, seen', stack', x)
    {
      if x != b { assert Expanded(g, seen, stack, x); }
    }
    forall x | x in stack'
      ensures x < g.Size() && Reaches(g, from, x)
    {
      if x in more {
        assert Edge(g, b, x);
        ReachesStep(g, from, b, x);
      } else {
        Beneath(stack, x);
      }
    }
  }

  lemma Beneath(stack: seq<nat>, x: nat)
    requires stack != [] && x in stack[..|stack| - 1]
    ensures x in stack
  {
  }

  lemma SearchDone(g: Graph, from: nat, to: nat, seen: seq<bool>)
    requires SearchInv(g, from, to, seen, [])
    ensures !Reaches(g, from, to)
  {
    if Reaches(g, from, to) {
      var p :| PathFromTo(g, p, from, to);
      var visited := set x: nat | x < |seen| && seen[x];
      forall a, b | a in visited && Edge(g, a, b)
        ensures b in visited
      {
        assert Expanded(g, seen, [], a);
      }
      ClosedContains(g, visited, p, |p| - 1);
    }
  }

  /** `reaches`: the answer is exact, and false for a block that does not exist. */
  method IsReachable(g: Graph, from: nat, to: nat) returns (r: bool)
    ensures r <==> from < g.Size() && to < g.Size() && Reaches(g, from, to)
  {
    if from >= g.Size() || to >= g.Size() { return false; }
    var seen := new bool[g.Size()](_ => false);
    var stack := [from];
    ReachesSelf(g, from);
    while stack != []
      invariant SearchInv(g, from, to, seen[..], stack)
      decreases Unset(seen[..]), |stack|
    {
      ghost var marks, before := seen[..], stack;
      var b := stack[|stack| - 1];
      stack := stack[..|stack| - 1];
      assert b in before;
      if b == to { return true; }
      if seen[b] {
        SearchSkip(g, from, to, marks, before);
      } else {
        SearchVisit(g, from, to, marks, before, b);
        assert b in Unset(marks);
        seen[b] := true;
        assert seen[..] == marks[b := true];
        stack := PushUnseen(g.succs[b], seen, stack);
      }
    }
    SearchDone(g, from, to, seen[..]);
    r := false;
  }

  method PushUnseen(succs: seq<nat>, seen: array<bool>, base: seq<nat>) returns (stack: seq<nat>)
    ensures stack == base + Unseen(succs, seen[..], |succs|)
  {
    stack := base;
    for k := 0 to |succs|
      invariant stack == base + Unseen(succs, seen[..], k)
    {
      if succs[k] < seen.Length && !seen[succs[k]] {
        stack := stack + [succs[k]];
      }
    }
  }
}
