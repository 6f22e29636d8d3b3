/** When the block printed behind a two-way block is the one its false edge leads to: always if
    nothing else leads there. */
module Tails {
  import opened Graph
  import opened DepthFirst
  import Traversal

  /** `t` is the last successor of `b`, and no other edge leads to it. */
  ghost predicate Tail(g: Graph, root: nat, b: nat, t: nat) {
    && b < g.Size() && g.succs[b] != [] && t == g.succs[b][|g.succs[b]| - 1] && t < g.Size() && t != root
    && t !in g.succs[b][..|g.succs[b]| - 1]
    && forall a :: Edge(g, a, t) ==> a == b
  }

  /** A finished block stands right behind its tail. */
  ghost predicate FinishedBehind(g: Graph, root: nat, order: seq<nat>, p: nat) {
    p < |order| ==> forall t :: Tail(g, root, order[p], t) ==> p > 0 && order[p - 1] == t
  }

  /** A block on the stack with all its successors looked at was left for its tail, which is above
      it or just finished. */
  ghost predicate LeftFor(g: Graph, root: nat, d: Dfs, i: nat) {
    i < |d.stack| && d.stack[i].0 < g.Size() && d.stack[i].1 == |g.succs[d.stack[i].0]| ==>
      forall t :: Tail(g, root, d.stack[i].0, t) ==>
        if i + 1 < |d.stack| then d.stack[i + 1].0 == t else d.order != [] && d.order[|d.order| - 1] == t
  }

  ghost predicate Snug(g: Graph, root: nat, d: Dfs) {
    (forall p: nat :: FinishedBehind(g, root, d.order, p)) && (forall i: nat :: LeftFor(g, root, d, i))
  }

  /** A visited block that is not the root was looked at from a visited block. */
  lemma LookedFrom(g: Graph, root: nat, d: Dfs, s: nat) returns (j: nat)
    requires Inv(g, root, d) && s < g.Size() && d.color[s] != New && s != root
    ensures j < |Finishing(g, d)| && Looked(g, Finishing(g, d)[j], s)
  {
    var w := Finishing(g, d);
    assert Colored(g, d, s);
    var i :| 0 <= i < |w| && w[i].0 == s;
    assert HasParent(g, w, i);
    j :| i < j < |w| && Looked(g, w[j], w[i].0);
  }

  lemma NobodyLooked(g: Graph, root: nat, d: Dfs, b: nat, t: nat, j: nat)
    requires Inv(g, root, d) && MoreToLook(g, d) && Tail(g, root, b, t) && j < |Finishing(g, d)|
    requires d.stack[|d.stack| - 1] == (b, |g.succs[b]| - 1)
    ensures !Looked(g, Finishing(g, d)[j], t)
  {
    FinishingAdvance(g, d);
    LookedIsEdge(g, Finishing(g, d)[j], t);
    if Finishing(g, d)[j].0 == b { assert j == |d.order|; }
  }

  lemma LookedIsEdge(g: Graph, e: Entry, s: nat)
    ensures Looked(g, e, s) ==> Edge(g, e.0, s)
  {
  }

  /** So a tail is not visited before its block gets to it. */
  lemma TailIsNew(g: Graph, root: nat, d: Dfs, b: nat, t: nat)
    requires Inv(g, root, d) && MoreToLook(g, d) && Tail(g, root, b, t)
    requires d.stack[|d.stack| - 1] == (b, |g.succs[b]| - 1)
    ensures d.color[t] == New
  {
    if d.color[t] != New {
      var j := LookedFrom(g, root, d, t);
      NobodyLooked(g, root, d, b, t, j);
    }
  }

  lemma SnugAdvance(g: Graph, root: nat, d: Dfs, s: nat)
    requires Inv(g, root, d) && Snug(g, root, d) && MoreToLook(g, d)
    requires var (b, idx) := d.stack[|d.stack| - 1]; s == g.succs[b][idx]
    requires s < g.Size() ==> d.color[s] != New
    ensures Snug(g, root, Step(g, d))
  {
    var d', k := Step(g, d), |d.stack| - 1;
    var (b, idx) := d.stack[k];
    AdvanceStep(g, d, s);
    forall i: nat
      ensures LeftFor(g, root, d', i)
    {
      assert LeftFor(g, root, d, i);
      if i == k && idx + 1 == |g.succs[b]| {
        forall t | Tail(g, root, b, t)
          ensures false
        {
          TailIsNew(g, root, d, b, t);
        }
      }
    }
    assert forall p: nat :: FinishedBehind(g, root, d.order, p) ==> FinishedBehind(g, root, d'.order, p);
  }

  lemma SnugPush(g: Graph, root: nat, d: Dfs, s: nat)
    requires Inv(g, root, d) && Snug(g, root, d) && MoreToLook(g, d)
    requires var (b, idx) := d.stack[|d.stack| - 1]; s == g.succs[b][idx]
    requires s < g.Size() && d.color[s] == New
    ensures Snug(g, root, Step(g, d))
  {
    var d', k := Step(g, d), |d.stack| - 1;
    assert d'.stack == Advanced(d) + [(s, 0)] && d'.order == d.order;
    forall i: nat
      ensures LeftFor(g, root, d', i)
    {
      assert LeftFor(g, root, d, i);
    }
    assert forall p: nat :: FinishedBehind(g, root, d.order, p) ==> FinishedBehind(g, root, d'.order, p);
  }

  lemma SnugPop(g: Graph, root: nat, d: Dfs)
    requires Inv(g, root, d) && Snug(g, root, d) && d.stack != [] && !MoreToLook(g, d)
    ensures Snug(g, root, Step(g, d))
  {
    var d', k := Step(g, d), |d.stack| - 1;
    var b := d.stack[k].0;
    assert d'.stack == d.stack[..k] && d'.order == d.order + [b];
    forall i: nat
      ensures LeftFor(g, root, d', i)
    {
      assert LeftFor(g, root, d, i);
    }
    forall p: nat
      ensures FinishedBehind(g, root, d'.order, p)
    {
      assert FinishedBehind(g, root, d.order, p);
      if p == |d.order| { assert LeftFor(g, root, d, k); }
    }
  }

  lemma {:induction false} SnugRun(g: Graph, root: nat, d: Dfs)
    requires Inv(g, root, d) && Snug(g, root, d)
    ensures Snug(g, root, Run(g, d))
    decreases News(d.color), Work(g, d.stack)
  {
    if d.stack != [] {
      if MoreToLook(g, d) {
        var (b, idx) := d.stack[|d.stack| - 1];
        var s := g.succs[b][idx];
        if s < g.Size() && d.color[s] == New { SnugPush(g, root, d, s); } else { SnugAdvance(g, root, d, s); }
      } else {
        SnugPop(g, root, d);
      }
      StepInv(g, root, d);
      StepDecreases(g, d);
      SnugRun(g, root, Step(g, d));
    }
  }

  /** In reverse post order a block is directly followed by its tail. */
  lemma TailIsNext(g: Graph, root: nat, i: nat, t: nat)
    requires root < g.Size() && i < |Traversal.Rpo(g, root)| && Tail(g, root, Traversal.Rpo(g, root)[i], t)
    ensures i + 1 < |Traversal.Rpo(g, root)| && Traversal.Rpo(g, root)[i + 1] == t
  {
    StartInv(g, root);
    SnugRun(g, root, Start(g, root));
    var order := Run(g, Start(g, root)).order;
    assert FinishedBehind(g, root, order, |order| - 1 - i);
  }
}
