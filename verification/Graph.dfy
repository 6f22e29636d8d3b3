/** The control flow graph as its analyses see it: blocks are numbered, and each has a
    list of successors and of predecessors. */
module Graph {

  datatype Graph = Graph(succs: seq<seq<nat>>, preds: seq<seq<nat>>) {
    function Size(): nat { |succs| }
  }

  predicate Edge(g: Graph, a: nat, b: nat) {
    a < g.Size() && b < g.Size() && b in g.succs[a]
  }

  /** Every successor and predecessor is a block, and the two lists are converse. */
  ghost predicate WellFormed(g: Graph) {
    && |g.preds| == |g.succs|
    && (forall a, b :: 0 <= a < g.Size() && b in g.succs[a] ==> b < g.Size())
    && (forall a, b :: 0 <= b < g.Size() && a in g.preds[b] ==> a < g.Size())
    && (forall a, b :: 0 <= a < g.Size() && 0 <= b < g.Size() ==> (b in g.succs[a] <==> a in g.preds[b]))
  }

  predicate NoRepeats(s: seq<nat>) {
    forall i, j :: 0 <= i < j < |s| ==> s[i] != s[j]
  }

  // ----- paths ---------------------------------------------------------------------

  predicate EdgeAt(g: Graph, p: seq<nat>, i: nat) {
    i + 1 < |p| && Edge(g, p[i], p[i + 1])
  }

  ghost predicate IsPath(g: Graph, p: seq<nat>) {
    && p != []
    && (forall i :: 0 <= i < |p| ==> p[i] < g.Size())
    && (forall i :: 0 <= i < |p| - 1 ==> EdgeAt(g, p, i))
  }

  ghost predicate PathFromTo(g: Graph, p: seq<nat>, a: nat, b: nat) {
    IsPath(g, p) && p[0] == a && p[|p| - 1] == b
  }

  ghost predicate Reaches(g: Graph, a: nat, b: nat) {
    exists p :: PathFromTo(g, p, a, b)
  }

  lemma ReachesSelf(g: Graph, a: nat)
    requires a < g.Size()
    ensures Reaches(g, a, a)
  {
    assert PathFromTo(g, [a], a, a);
  }

  lemma ReachesStep(g: Graph, a: nat, b: nat, c: nat)
    requires Reaches(g, a, b) && Edge(g, b, c)
    ensures Reaches(g, a, c)
  {
    var p :| PathFromTo(g, p, a, b);
    var q := p + [c];
    forall i | 0 <= i < |q| - 1
      ensures EdgeAt(g, q, i)
    {
      assert i < |p| - 1 ==> EdgeAt(g, p, i);
    }
    assert PathFromTo(g, q, a, c);
  }

  lemma Join(g: Graph, p: seq<nat>, q: seq<nat>)
    requires IsPath(g, p) && IsPath(g, q) && p[|p| - 1] == q[0]
    ensures IsPath(g, p + q[1..]) && (p + q[1..])[|p + q[1..]| - 1] == q[|q| - 1]
  {
    var r := p + q[1..];
    forall i | 0 <= i < |r| - 1
      ensures EdgeAt(g, r, i)
    {
      if i + 1 < |p| {
        assert EdgeAt(g, p, i);
      } else {
        var k := i - (|p| - 1);
        assert r[i] == q[k] && r[i + 1] == q[k + 1];
        assert EdgeAt(g, q, k);
      }
    }
  }

  /** A set of blocks that contains `a` and is closed under edges contains whatever `a`
      reaches. */
  lemma {:induction false} ClosedContains(g: Graph, s: set<nat>, p: seq<nat>, k: nat)
    requires IsPath(g, p) && k < |p| && p[0] in s
    requires forall a, b :: a in s && Edge(g, a, b) ==> b in s
    ensures p[k] in s
  {
    if k > 0 {
      ClosedContains(g, s, p, k - 1);
      assert EdgeAt(g, p, k - 1);
    }
  }
}

/** The depth-first traversal shared by `rpo_from` and `back_edges`. */
module DepthFirst {
  import opened Graph

  datatype Color = New | OnStack | Finished

  /** `stack`: blocks being visited with the index of the next successor to look at;
      `order`: blocks in the order they were finished; `back`: the edges that led to a
      block on the stack. */
  datatype Dfs = Dfs(stack: seq<(nat, nat)>, color: seq<Color>, order: seq<nat>, back: set<(nat, nat)>)

  predicate Shape(g: Graph, d: Dfs) {
    && |d.color| == g.Size()
    && forall i :: 0 <= i < |d.stack| ==> d.stack[i].0 < g.Size() && d.stack[i].1 <= |g.succs[d.stack[i].0]|
  }

  function Start(g: Graph, root: nat): Dfs
    requires root < g.Size()
  {
    Dfs([(root, 0)], seq(g.Size(), i => if i == root then OnStack else New), [], {})
  }

  /** One turn of the loop. */
  function Step(g: Graph, d: Dfs): (d': Dfs)
    requires Shape(g, d) && d.stack != []
    ensures Shape(g, d')
  {
    var k := |d.stack| - 1;
    var (b, idx) := d.stack[k];
    if idx < |g.succs[b]| then
      var s := g.succs[b][idx];
      var stack := d.stack[..k] + [(b, idx + 1)];
      if s >= g.Size() then d.(stack := stack)
      else match d.color[s]
        case New => d.(stack := stack + [(s, 0)], color := d.color[s := OnStack])
        case OnStack => d.(stack := stack, back := d.back + {(b, s)})
        case Finished => d.(stack := stack)
    else
      d.(stack := d.stack[..k], color := d.color[b := Finished], order := d.order + [b])
  }

  function News(color: seq<Color>): (s: set<nat>)
    ensures forall i :: i in s <==> 0 <= i < |color| && color[i] == New
  {
    set i | 0 <= i < |color| && color[i] == New
  }

  /** What is left to do for the blocks on the stack. */
  function Work(g: Graph, stack: seq<(nat, nat)>): nat
    requires forall i :: 0 <= i < |stack| ==> stack[i].0 < g.Size() && stack[i].1 <= |g.succs[stack[i].0]|
  {
    if stack == [] then 0
    else
      assert stack[|stack| - 1].0 < g.Size();
      var (b, idx) := stack[|stack| - 1];
      Work(g, stack[..|stack| - 1]) + 1 + |g.succs[b]| - idx
  }

  lemma StepDecreases(g: Graph, d: Dfs)
    requires Shape(g, d) && d.stack != []
    ensures var d' := Step(g, d);
      News(d'.color) < News(d.color) || (News(d'.color) == News(d.color) && Work(g, d'.stack) < Work(g, d.stack))
  {
    var k := |d.stack| - 1;
    var (b, idx) := d.stack[k];
    var d' := Step(g, d);
    if idx < |g.succs[b]| {
      var s := g.succs[b][idx];
      var stack := d.stack[..k] + [(b, idx + 1)];
      assert stack[..k] == d.stack[..k];
      if s < g.Size() && d.color[s] == New {
        assert s in News(d.color) && s !in News(d'.color);
      }
    } else {
      assert News(d'.color) <= News(d.color);
    }
  }

  /** The whole traversal. */
  function Run(g: Graph, d: Dfs): (r: Dfs)
    requires Shape(g, d)
    ensures Shape(g, r) && r.stack == []
    decreases News(d.color), Work(g, d.stack)
  {
    if d.stack == [] then d
    else
      StepDecreases(g, d);
      Run(g, Step(g, d))
  }

  // ----- the finishing order ------------------------------------------------------------

  /** A block with how many of its successors have been looked at. */
  type Entry = (nat, nat)

  predicate Good(g: Graph, e: Entry) {
    e.0 < g.Size() && e.1 <= |g.succs[e.0]|
  }

  /** The edge from the entry's block to `s` has been looked at. */
  predicate Looked(g: Graph, e: Entry, s: nat) {
    Good(g, e) && s < g.Size() && s in g.succs[e.0][..e.1]
  }

  /** Every visited block in the order it finishes: the finished ones, then the stack
      from its top down. */
  function Finishing(g: Graph, d: Dfs): (w: seq<Entry>)
    ensures |w| == |d.order| + |d.stack|
  {
    seq(|d.order|, i requires 0 <= i < |d.order| =>
      (d.order[i], if d.order[i] < g.Size() then |g.succs[d.order[i]]| else 0))
    + seq(|d.stack|, i requires 0 <= i < |d.stack| => d.stack[|d.stack| - 1 - i])
  }

  predicate In(w: seq<Entry>, v: nat) {
    exists i :: 0 <= i < |w| && w[i].0 == v
  }

  /** The block at `i` was discovered from one that finishes later. */
  ghost predicate HasParent(g: Graph, w: seq<Entry>, i: nat) {
    i < |w| && exists j :: i < j < |w| && Looked(g, w[j], w[i].0)
  }

  ghost predicate Distinct(w: seq<Entry>) {
    forall i, j :: 0 <= i < j < |w| ==> w[i].0 != w[j].0
  }

  ghost predicate Ordered(g: Graph, root: nat, w: seq<Entry>) {
    && w != [] && w[|w| - 1].0 == root
    && (forall i :: 0 <= i < |w| ==> Good(g, w[i]))
    && Distinct(w)
    && (forall i, s :: 0 <= i < |w| && Looked(g, w[i], s) ==> In(w, s))
    && (forall i :: 0 <= i < |w| - 1 ==> HasParent(g, w, i))
  }

  /** The edge between the blocks at `i` and `j`, if looked at, is in `back` exactly
      when it leads to a block finishing no earlier. */
  ghost predicate Told(g: Graph, w: seq<Entry>, back: set<(nat, nat)>, i: nat, j: nat)
    requires i < |w| && j < |w|
  {
    Looked(g, w[i], w[j].0) ==> ((w[i].0, w[j].0) in back <==> i <= j)
  }

  ghost predicate Seen(g: Graph, w: seq<Entry>, e: (nat, nat)) {
    exists i :: 0 <= i < |w| && w[i].0 == e.0 && Looked(g, w[i], e.1)
  }

  ghost predicate Backward(g: Graph, w: seq<Entry>, back: set<(nat, nat)>) {
    && (forall i, j :: 0 <= i < |w| && 0 <= j < |w| ==> Told(g, w, back, i, j))
    && (forall e :: e in back ==> Seen(g, w, e))
  }

  lemma LookedNext(g: Graph, b: nat, idx: nat, s: nat)
    requires b < g.Size() && idx < |g.succs[b]|
    ensures Looked(g, (b, idx + 1), s) <==> Looked(g, (b, idx), s) || (s < g.Size() && s == g.succs[b][idx])
  {
    assert g.succs[b][..idx + 1] == g.succs[b][..idx] + [g.succs[b][idx]];
  }

  /** Looking at one more successor of the block at `k` that needs no visit. */
  lemma OrderedAdvance(g: Graph, root: nat, w: seq<Entry>, k: nat)
    requires Ordered(g, root, w) && k < |w| && w[k].1 < |g.succs[w[k].0]|
    requires var s := g.succs[w[k].0][w[k].1]; s < g.Size() ==> In(w, s)
    ensures Ordered(g, root, w[k := (w[k].0, w[k].1 + 1)])
  {
    var (b, idx) := w[k];
    var w' := w[k := (b, idx + 1)];
    forall s: nat
      ensures Looked(g, w'[k], s) <==> Looked(g, w[k], s) || (s < g.Size() && s == g.succs[b][idx])
    {
      LookedNext(g, b, idx, s);
    }
    forall v | In(w, v)
      ensures In(w', v)
    {
      var i :| 0 <= i < |w| && w[i].0 == v;
      assert w'[i].0 == v;
    }
    forall i | 0 <= i < |w'| - 1
      ensures HasParent(g, w', i)
    {
      assert HasParent(g, w, i);
      var j :| i < j < |w| && Looked(g, w[j], w[i].0);
      assert Looked(g, w'[j], w'[i].0);
    }
  }

  lemma SeenStays(g: Graph, w: seq<Entry>, k: nat, e: (nat, nat))
    requires k < |w| && Good(g, w[k]) && w[k].1 < |g.succs[w[k].0]| && Seen(g, w, e)
    ensures Seen(g, w[k := (w[k].0, w[k].1 + 1)], e)
  {
    var i :| 0 <= i < |w| && w[i].0 == e.0 && Looked(g, w[i], e.1);
    LookedMore(g, w, k, i, e.1);
    assert w[k := (w[k].0, w[k].1 + 1)][i].0 == e.0;
  }

  /** The edge looked at leads to no block finishing earlier: it is recorded. */
  lemma BackwardRecords(g: Graph, w: seq<Entry>, back: set<(nat, nat)>, k: nat, s: nat)
    requires Backward(g, w, back) && Distinct(w) && k < |w| && Good(g, w[k]) && w[k].1 < |g.succs[w[k].0]|
    requires s == g.succs[w[k].0][w[k].1] < g.Size() && forall i :: 0 <= i < k ==> w[i].0 != s
    ensures Backward(g, w[k := (w[k].0, w[k].1 + 1)], back + {(w[k].0, s)})
  {
    var b := w[k].0;
    var w', back' := w[k := (b, w[k].1 + 1)], back + {(b, s)};
    forall i, j | 0 <= i < |w'| && 0 <= j < |w'|
      ensures Told(g, w', back', i, j)
    {
      assert Told(g, w, back, i, j);
      LookedMore(g, w, k, i, w[j].0);
    }
    forall e | e in back'
      ensures Seen(g, w', e)
    {
      if e in back {
        SeenStays(g, w, k, e);
      } else {
        LookedMore(g, w, k, k, s);
        assert w'[k].0 == e.0;
      }
    }
  }

  /** The edge looked at leads to a block finishing earlier, or out of the graph. */
  lemma BackwardPasses(g: Graph, w: seq<Entry>, back: set<(nat, nat)>, k: nat, s: nat)
    requires Backward(g, w, back) && Distinct(w) && k < |w| && Good(g, w[k]) && w[k].1 < |g.succs[w[k].0]|
    requires s == g.succs[w[k].0][w[k].1] && ((forall i :: k <= i < |w| ==> w[i].0 != s) || s >= g.Size())
    ensures Backward(g, w[k := (w[k].0, w[k].1 + 1)], back)
  {
    var b := w[k].0;
    var w' := w[k := (b, w[k].1 + 1)];
    forall i, j | 0 <= i < |w'| && 0 <= j < |w'|
      ensures Told(g, w', back, i, j)
    {
      assert Told(g, w, back, i, j);
      LookedMore(g, w, k, i, w[j].0);
    }
    forall e | e in back
      ensures Seen(g, w', e)
    {
      SeenStays(g, w, k, e);
    }
  }

  lemma LookedMore(g: Graph, w: seq<Entry>, k: nat, i: nat, x: nat)
    requires k < |w| && Good(g, w[k]) && w[k].1 < |g.succs[w[k].0]| && i < |w|
    ensures var w' := w[k := (w[k].0, w[k].1 + 1)];
      Looked(g, w'[i], x) <==> Looked(g, w[i], x) || (i == k && x < g.Size() && x == g.succs[w[k].0][w[k].1])
  {
    LookedNext(g, w[k].0, w[k].1, x);
  }

  /** A newly discovered block `s` finishes right before the block at `k` it was
      discovered from. */
  function Insert(w: seq<Entry>, k: nat, s: nat): (w': seq<Entry>)
    requires k <= |w|
    ensures |w'| == |w| + 1 && w'[k] == (s, 0)
    ensures forall i :: 0 <= i < k ==> w'[i] == w[i]
    ensures forall i :: k <= i < |w| ==> w'[i + 1] == w[i]
  {
    w[..k] + [(s, 0)] + w[k..]
  }

  lemma InsertedFrom(w: seq<Entry>, k: nat, s: nat, i: nat)
    requires k <= |w| && i <= |w| && i != k
    ensures Insert(w, k, s)[i] == w[if i < k then i else i - 1]
  {
  }

  lemma InInsert(w: seq<Entry>, k: nat, s: nat, v: nat)
    requires k <= |w|
    ensures In(Insert(w, k, s), v) <==> In(w, v) || v == s
  {
    var w' := Insert(w, k, s);
    if In(w, v) {
      var i :| 0 <= i < |w| && w[i].0 == v;
      assert w'[if i < k then i else i + 1].0 == v;
    }
    if v == s { assert w'[k].0 == s; }
    if In(w', v) && v != s {
      var i :| 0 <= i < |w'| && w'[i].0 == v;
      InsertedFrom(w, k, s, i);
    }
  }

  /** Every block but the root has a parent, except perhaps the one not yet discovered. */
  lemma ParentStays(g: Graph, w: seq<Entry>, k: nat, s: nat, i: nat)
    requires k < |w| && i <= |w| && i != k
    requires HasParent(g, w, if i < k then i else i - 1)
    ensures HasParent(g, Insert(w, k, s), i)
  {
    var w', i0 := Insert(w, k, s), if i < k then i else i - 1;
    InsertedFrom(w, k, s, i);
    var j :| i0 < j < |w| && Looked(g, w[j], w[i0].0);
    var j' := if j < k then j else j + 1;
    InsertedFrom(w, k, s, j');
    assert i < j' < |w'| && Looked(g, w'[j'], w'[i].0);
  }

  /** Position `i` of the list with `s` inserted before `k`, whose own successor has been
      looked at. */
  lemma LookedInserted(g: Graph, root: nat, w: seq<Entry>, k: nat, s: nat, i: nat, x: nat)
    requires Ordered(g, root, w) && k < |w| && w[k].1 < |g.succs[w[k].0]| && i <= |w|
    requires s == g.succs[w[k].0][w[k].1] < g.Size()
    requires Looked(g, Insert(w, k, s)[k + 1 := (w[k].0, w[k].1 + 1)][i], x)
    ensures In(Insert(w, k, s)[k + 1 := (w[k].0, w[k].1 + 1)], x)
  {
    var v := Insert(w, k, s);
    var w' := v[k + 1 := (w[k].0, w[k].1 + 1)];
    if i != k {
      InsertedFrom(w, k, s, i);
      if i == k + 1 { LookedNext(g, w[k].0, w[k].1, x); }
      InInsert(w, k, s, x);
      InUpdated(v, k + 1, w[k].1 + 1, x);
    }
  }

  lemma ParentInserted(g: Graph, root: nat, w: seq<Entry>, k: nat, s: nat, i: nat)
    requires Ordered(g, root, w) && k < |w| && w[k].1 < |g.succs[w[k].0]| && i < |w|
    requires s == g.succs[w[k].0][w[k].1] < g.Size()
    ensures HasParent(g, Insert(w, k, s)[k + 1 := (w[k].0, w[k].1 + 1)], i)
  {
    var v := Insert(w, k, s);
    var w' := v[k + 1 := (w[k].0, w[k].1 + 1)];
    if i == k {
      LookedNext(g, w[k].0, w[k].1, s);
      assert Looked(g, w'[k + 1], w'[k].0);
    } else {
      assert HasParent(g, w, if i < k then i else i - 1);
      ParentStays(g, w, k, s, i);
      var j :| i < j < |v| && Looked(g, v[j], v[i].0);
      if j == k + 1 { LookedNext(g, w[k].0, w[k].1, v[i].0); }
      assert Looked(g, w'[j], w'[i].0);
    }
  }

  /** Discovering `s` from the block at `k`: first the block is inserted, then the edge
      counts as looked at. */
  lemma OrderedInsert(g: Graph, root: nat, w: seq<Entry>, k: nat, s: nat)
    requires Ordered(g, root, w) && k < |w| && w[k].1 < |g.succs[w[k].0]|
    requires s == g.succs[w[k].0][w[k].1] < g.Size() && !In(w, s)
    ensures Ordered(g, root, Insert(w, k, s)[k + 1 := (w[k].0, w[k].1 + 1)])
  {
    var w' := Insert(w, k, s)[k + 1 := (w[k].0, w[k].1 + 1)];
    forall i | 0 <= i < |w'|
      ensures Good(g, w'[i])
    {
      if i != k { InsertedFrom(w, k, s, i); }
    }
    forall i, j | 0 <= i < j < |w'|
      ensures w'[i].0 != w'[j].0
    {
      if i != k { InsertedFrom(w, k, s, i); }
      if j != k { InsertedFrom(w, k, s, j); }
    }
    forall i, x: nat | 0 <= i < |w'| && Looked(g, w'[i], x)
      ensures In(w', x)
    {
      LookedInserted(g, root, w, k, s, i, x);
    }
    forall i | 0 <= i < |w'| - 1
      ensures HasParent(g, w', i)
    {
      ParentInserted(g, root, w, k, s, i);
    }
  }

  lemma BackwardInsert(g: Graph, w: seq<Entry>, back: set<(nat, nat)>, k: nat, s: nat)
    requires Backward(g, w, back) && Distinct(w) && k < |w| && Good(g, w[k]) && w[k].1 < |g.succs[w[k].0]|
    requires s == g.succs[w[k].0][w[k].1] < g.Size() && !In(w, s)
    requires forall i, x :: 0 <= i < |w| && Looked(g, w[i], x) ==> In(w, x)
    ensures Backward(g, Insert(w, k, s)[k + 1 := (w[k].0, w[k].1 + 1)], back)
  {
    var v, b := Insert(w, k, s), w[k].0;
    var w' := v[k + 1 := (b, w[k].1 + 1)];
    forall i, j | 0 <= i < |w'| && 0 <= j < |w'|
      ensures Told(g, w', back, i, j)
    {
      if i != k {
        var i0 := if i < k then i else i - 1;
        InsertedFrom(w, k, s, i);
        if i == k + 1 { LookedNext(g, b, w[k].1, w'[j].0); }
        if j != k {
          InsertedFrom(w, k, s, j);
          assert Told(g, w, back, i0, if j < k then j else j - 1);
        } else if (w'[i].0, s) in back {
          NotSeenNew(g, w, back, w'[i].0, s);
        }
      }
    }
    forall e | e in back
      ensures Seen(g, w', e)
    {
      assert Seen(g, w, e);
      var i :| 0 <= i < |w| && w[i].0 == e.0 && Looked(g, w[i], e.1);
      var i' := if i < k then i else i + 1;
      InsertedFrom(w, k, s, i');
      if i == k { LookedNext(g, b, w[k].1, e.1); }
      assert w'[i'].0 == e.0 && Looked(g, w'[i'], e.1);
    }
  }

  lemma NotSeenNew(g: Graph, w: seq<Entry>, back: set<(nat, nat)>, u: nat, s: nat)
    requires Backward(g, w, back) && forall i, x :: 0 <= i < |w| && Looked(g, w[i], x) ==> In(w, x)
    requires !In(w, s)
    ensures (u, s) !in back
  {
  }

  // ----- what every state of the traversal keeps -----------------------------------------------

  ghost predicate OnPath(g: Graph, d: Dfs, i: nat) {
    i + 1 < |d.stack| && Edge(g, d.stack[i].0, d.stack[i + 1].0)
  }

  ghost predicate Colored(g: Graph, d: Dfs, v: nat)
    requires Shape(g, d) && v < g.Size()
  {
    && (d.color[v] == New <==> !In(Finishing(g, d), v))
    && (d.color[v] == OnStack <==> In(d.stack, v))
    && (d.color[v] == Finished <==> v in d.order)
  }

  ghost predicate Inv(g: Graph, root: nat, d: Dfs) {
    && Shape(g, d)
    && Ordered(g, root, Finishing(g, d)) && Backward(g, Finishing(g, d), d.back)
    && (forall v :: 0 <= v < g.Size() ==> Colored(g, d, v))
    && (forall i :: 0 <= i < |d.stack| - 1 ==> OnPath(g, d, i))
    && (forall u, s :: (u, s) in d.back ==> Reaches(g, s, u))
  }

  /** The stack is a path, so each block on it reaches those above. */
  lemma {:induction false} StackReaches(g: Graph, d: Dfs, i: nat, j: nat)
    requires Shape(g, d) && (forall i :: 0 <= i < |d.stack| - 1 ==> OnPath(g, d, i))
    requires i <= j < |d.stack|
    ensures Reaches(g, d.stack[i].0, d.stack[j].0)
    decreases j
  {
    if i == j {
      ReachesSelf(g, d.stack[i].0);
    } else {
      StackReaches(g, d, i, j - 1);
      assert OnPath(g, d, j - 1);
      ReachesStep(g, d.stack[i].0, d.stack[j - 1].0, d.stack[j].0);
    }
  }

  lemma StartInv(g: Graph, root: nat)
    requires root < g.Size()
    ensures Inv(g, root, Start(g, root))
  {
    var d := Start(g, root);
    var w := Finishing(g, d);
    assert w == [(root, 0)];
    assert w[0].0 == root && d.stack[0].0 == root;
    forall v | 0 <= v < g.Size()
      ensures Colored(g, d, v)
    {
    }
    forall i, j | 0 <= i < |w| && 0 <= j < |w|
      ensures Told(g, w, d.back, i, j)
    {
    }
  }

  /** The stack after the top block's next successor has been picked. */
  function Advanced(d: Dfs): (stack: seq<(nat, nat)>)
    requires d.stack != []
    ensures |stack| == |d.stack|
  {
    var k := |d.stack| - 1;
    d.stack[..k] + [(d.stack[k].0, d.stack[k].1 + 1)]
  }

  predicate MoreToLook(g: Graph, d: Dfs)
    requires Shape(g, d)
  {
    d.stack != [] && d.stack[|d.stack| - 1].1 < |g.succs[d.stack[|d.stack| - 1].0]|
  }

  lemma FinishingAdvance(g: Graph, d: Dfs)
    requires Shape(g, d) && MoreToLook(g, d)
    ensures var (w, n) := (Finishing(g, d), |d.order|);
      w[n] == d.stack[|d.stack| - 1] && Finishing(g, d.(stack := Advanced(d))) == w[n := (w[n].0, w[n].1 + 1)]
  {
  }

  lemma FinishingAt(g: Graph, d: Dfs, i: nat, j: int)
    requires i < |d.order| + |d.stack| && j == |d.stack| - 1 - (i - |d.order|)
    ensures i >= |d.order| ==> Finishing(g, d)[i] == d.stack[j]
    ensures i < |d.order| ==>
      Finishing(g, d)[i] == (d.order[i], if d.order[i] < g.Size() then |g.succs[d.order[i]]| else 0)
  {
  }

  lemma InsertedAt(w: seq<Entry>, k: nat, s: nat, e: Entry, i: nat)
    requires k < |w| && i <= |w|
    ensures Insert(w, k, s)[k + 1 := e][i]
      == if i < k then w[i] else if i == k then (s, 0) else if i == k + 1 then e else w[i - 1]
  {
    if i != k { InsertedFrom(w, k, s, i); }
  }

  lemma FinishingPushAt(g: Graph, d: Dfs, d': Dfs, s: nat, w: seq<Entry>, e: Entry, i: nat)
    requires Shape(g, d) && MoreToLook(g, d) && i <= |d.order| + |d.stack|
    requires d' == d.(stack := Advanced(d) + [(s, 0)]) && w == Finishing(g, d)
      && e == (w[|d.order|].0, w[|d.order|].1 + 1)
    ensures Finishing(g, d')[i] == Insert(w, |d.order|, s)[|d.order| + 1 := e][i]
  {
    var n, k := |d.order|, |d.stack| - 1;
    InsertedAt(w, n, s, e, i);
    FinishingAt(g, d', i, k + 1 - (i - n));
    FinishingAt(g, d, n, k);
    if i < n {
      FinishingAt(g, d, i, k - (i - n));
    } else if i > n {
      FinishingAt(g, d, i - 1, k - (i - 1 - n));
    }
  }

  lemma FinishingPushed(g: Graph, d: Dfs, d': Dfs, s: nat, w: seq<Entry>, e: Entry)
    requires Shape(g, d) && MoreToLook(g, d)
    requires d' == d.(stack := Advanced(d) + [(s, 0)]) && w == Finishing(g, d)
      && e == (w[|d.order|].0, w[|d.order|].1 + 1)
    ensures Finishing(g, d') == Insert(w, |d.order|, s)[|d.order| + 1 := e]
  {
    forall i | 0 <= i <= |w|
      ensures Finishing(g, d')[i] == Insert(w, |d.order|, s)[|d.order| + 1 := e][i]
    {
      FinishingPushAt(g, d, d', s, w, e, i);
    }
  }

  lemma FinishingPush(g: Graph, d: Dfs, s: nat)
    requires Shape(g, d) && MoreToLook(g, d)
    ensures var (w, n) := (Finishing(g, d), |d.order|);
      && w[n] == d.stack[|d.stack| - 1]
      && Finishing(g, d.(stack := Advanced(d) + [(s, 0)])) == Insert(w, n, s)[n + 1 := (w[n].0, w[n].1 + 1)]
  {
    var w, n, d' := Finishing(g, d), |d.order|, d.(stack := Advanced(d) + [(s, 0)]);
    FinishingPushed(g, d, d', s, w, (w[n].0, w[n].1 + 1));
    FinishingAt(g, d, n, |d.stack| - 1);
  }

  lemma FinishingPop(g: Graph, d: Dfs)
    requires Shape(g, d) && d.stack != [] && !MoreToLook(g, d)
    ensures var k := |d.stack| - 1;
      Finishing(g, d.(stack := d.stack[..k], order := d.order + [d.stack[k].0])) == Finishing(g, d)
  {
    assert Good(g, d.stack[|d.stack| - 1]);
  }

  lemma InAdvanced(d: Dfs, v: nat)
    requires d.stack != []
    ensures In(Advanced(d), v) <==> In(d.stack, v)
  {
    if In(d.stack, v) {
      var i :| 0 <= i < |d.stack| && d.stack[i].0 == v;
      assert Advanced(d)[i].0 == v;
    }
    if In(Advanced(d), v) {
      var i :| 0 <= i < |d.stack| && Advanced(d)[i].0 == v;
      assert d.stack[i].0 == v;
    }
  }

  lemma InUpdated(w: seq<Entry>, k: nat, c: nat, v: nat)
    requires k < |w|
    ensures In(w[k := (w[k].0, c)], v) <==> In(w, v)
  {
    var w' := w[k := (w[k].0, c)];
    if In(w, v) {
      var i :| 0 <= i < |w| && w[i].0 == v;
      assert w'[i].0 == v;
    }
    if In(w', v) {
      var i :| 0 <= i < |w'| && w'[i].0 == v;
      assert w[i].0 == v;
    }
  }

  /** Where a visited block stands: on the stack or among the finished ones. */
  lemma InFinishing(g: Graph, d: Dfs, v: nat)
    ensures In(Finishing(g, d), v) <==> v in d.order || In(d.stack, v)
  {
    var w := Finishing(g, d);
    if v in d.order {
      var i :| 0 <= i < |d.order| && d.order[i] == v;
      assert w[i].0 == v;
    }
    if In(d.stack, v) {
      var i :| 0 <= i < |d.stack| && d.stack[i].0 == v;
      assert w[|d.order| + |d.stack| - 1 - i].0 == v;
    }
    if In(w, v) {
      var i :| 0 <= i < |w| && w[i].0 == v;
      if i < |d.order| {
        assert v == d.order[i];
      } else {
        assert d.stack[|d.stack| - 1 - (i - |d.order|)].0 == v;
      }
    }
  }

  /** A turn that only advances keeps the colors right... */
  lemma AdvanceColored(g: Graph, d: Dfs, d': Dfs, v: nat)
    requires Shape(g, d) && MoreToLook(g, d) && Shape(g, d') && v < g.Size() && Colored(g, d, v)
    requires d'.stack == Advanced(d) && d'.color == d.color && d'.order == d.order
    ensures Colored(g, d', v)
  {
    InAdvanced(d, v);
    InFinishing(g, d, v);
    InFinishing(g, d', v);
  }

  /** ...and the stack a path. */
  lemma AdvancePath(g: Graph, d: Dfs, d': Dfs, i: nat)
    requires d.stack != [] && d'.stack == Advanced(d) && i < |d.stack| - 1 && OnPath(g, d, i)
    ensures OnPath(g, d', i)
  {
  }

  lemma AdvanceStays(g: Graph, d: Dfs, d': Dfs)
    requires Shape(g, d) && MoreToLook(g, d) && Shape(g, d')
    requires d'.stack == Advanced(d) && d'.color == d.color && d'.order == d.order
    requires forall v :: 0 <= v < g.Size() ==> Colored(g, d, v)
    requires forall i :: 0 <= i < |d.stack| - 1 ==> OnPath(g, d, i)
    ensures forall v :: 0 <= v < g.Size() ==> Colored(g, d', v)
    ensures forall i :: 0 <= i < |d'.stack| - 1 ==> OnPath(g, d', i)
  {
    forall v | 0 <= v < g.Size()
      ensures Colored(g, d', v)
    {
      AdvanceColored(g, d, d', v);
    }
    forall i | 0 <= i < |d'.stack| - 1
      ensures OnPath(g, d', i)
    {
      AdvancePath(g, d, d', i);
    }
  }

  lemma AdvanceStep(g: Graph, d: Dfs, s: nat)
    requires Shape(g, d) && MoreToLook(g, d)
    requires var (b, idx) := d.stack[|d.stack| - 1]; s == g.succs[b][idx]
    requires s < g.Size() ==> d.color[s] != New
    ensures var d' := Step(g, d);
      && d'.stack == Advanced(d) && d'.color == d.color && d'.order == d.order
      && d'.back == if s < g.Size() && d.color[s] == OnStack then d.back + {(d.stack[|d.stack| - 1].0, s)} else d.back
  {
  }

  /** The turn that looks at a successor already visited, or outside the graph. */
  lemma AdvanceInv(g: Graph, root: nat, d: Dfs, s: nat)
    requires Inv(g, root, d) && MoreToLook(g, d)
    requires var (b, idx) := d.stack[|d.stack| - 1]; s == g.succs[b][idx]
    requires s < g.Size() ==> d.color[s] != New
    ensures Inv(g, root, Step(g, d))
  {
    var w, n, d' := Finishing(g, d), |d.order|, Step(g, d);
    AdvanceStep(g, d, s);
    FinishingAdvance(g, d);
    assert Finishing(g, d') == w[n := (w[n].0, w[n].1 + 1)];
    if s < g.Size() { assert Colored(g, d, s); }
    OrderedAdvance(g, root, w, n);
    AdvanceStays(g, d, d');
    BackAdvance(g, root, d, s);
  }

  /** A block on the stack does not finish before the top one... */
  lemma NotBeforeTop(g: Graph, d: Dfs, s: nat, j: nat)
    requires Shape(g, d) && Distinct(Finishing(g, d)) && In(d.stack, s) && j < |d.order|
    ensures Finishing(g, d)[j].0 != s
  {
    var i :| 0 <= i < |d.stack| && d.stack[i].0 == s;
    assert Finishing(g, d)[|d.order| + |d.stack| - 1 - i].0 == s;
  }

  /** ...and one off the stack not after it. */
  lemma NotAfterTop(g: Graph, d: Dfs, s: nat, j: nat)
    requires Shape(g, d) && !In(d.stack, s) && |d.order| <= j < |d.order| + |d.stack|
    ensures Finishing(g, d)[j].0 != s
  {
    assert Finishing(g, d)[j] == d.stack[|d.stack| - 1 - (j - |d.order|)];
  }

  lemma TopReached(g: Graph, root: nat, d: Dfs, s: nat)
    requires Inv(g, root, d) && In(d.stack, s)
    ensures Reaches(g, s, d.stack[|d.stack| - 1].0)
  {
    var i :| 0 <= i < |d.stack| && d.stack[i].0 == s;
    StackReaches(g, d, i, |d.stack| - 1);
  }

  /** The recorded edges after such a turn. */
  lemma BackAdvance(g: Graph, root: nat, d: Dfs, s: nat)
    requires Inv(g, root, d) && MoreToLook(g, d)
    requires var (b, idx) := d.stack[|d.stack| - 1]; s == g.succs[b][idx]
    requires s < g.Size() ==> d.color[s] != New
    ensures var (w, n, d') := (Finishing(g, d), |d.order|, Step(g, d));
      && Backward(g, w[n := (w[n].0, w[n].1 + 1)], d'.back)
      && forall u, t :: (u, t) in d'.back ==> Reaches(g, t, u)
  {
    var w, n := Finishing(g, d), |d.order|;
    AdvanceStep(g, d, s);
    FinishingAdvance(g, d);
    if s < g.Size() { assert Colored(g, d, s); }
    if s < g.Size() && d.color[s] == OnStack {
      TopReached(g, root, d, s);
      forall j | 0 <= j < n
        ensures w[j].0 != s
      {
        NotBeforeTop(g, d, s, j);
      }
      BackwardRecords(g, w, d.back, n, s);
    } else {
      if s < g.Size() {
        forall j | n <= j < |w|
          ensures w[j].0 != s
        {
          NotAfterTop(g, d, s, j);
        }
      }
      BackwardPasses(g, w, d.back, n, s);
    }
  }

  /** The turn that discovers a new block. */
  lemma PushInv(g: Graph, root: nat, d: Dfs, s: nat)
    requires Inv(g, root, d) && MoreToLook(g, d)
    requires var (b, idx) := d.stack[|d.stack| - 1]; s == g.succs[b][idx]
    requires s < g.Size() && d.color[s] == New
    ensures Inv(g, root, Step(g, d))
  {
    var w, n, d' := Finishing(g, d), |d.order|, Step(g, d);
    FinishingPush(g, d, s);
    assert d'.stack == Advanced(d) + [(s, 0)];
    var w' := Insert(w, n, s)[n + 1 := (w[n].0, w[n].1 + 1)];
    assert Finishing(g, d') == w';
    assert Colored(g, d, s);
    OrderedInsert(g, root, w, n, s);
    BackwardInsert(g, w, d.back, n, s);
    forall v | 0 <= v < g.Size()
      ensures Colored(g, d', v)
    {
      PushColored(g, d, s, v);
      InFinishing(g, d', v);
    }
    forall i | 0 <= i < |d'.stack| - 1
      ensures OnPath(g, d', i)
    {
      if i < |d.stack| - 1 { assert OnPath(g, d, i); }
    }
  }

  lemma PushColored(g: Graph, d: Dfs, s: nat, v: nat)
    requires Shape(g, d) && MoreToLook(g, d) && s < g.Size() && v < g.Size() && d.color[s] == New
    requires Colored(g, d, s) && Colored(g, d, v)
    ensures var (stack, color) := (Advanced(d) + [(s, 0)], d.color[s := OnStack]);
      && (color[v] == OnStack <==> In(stack, v))
      && (color[v] == Finished <==> v in d.order)
      && (color[v] == New <==> !In(stack, v) && v !in d.order)
  {
    var stack := Advanced(d) + [(s, 0)];
    InFinishing(g, d, v);
    InFinishing(g, d, s);
    InAdvanced(d, v);
    if In(Advanced(d), v) {
      var i :| 0 <= i < |d.stack| && Advanced(d)[i].0 == v;
      assert stack[i].0 == v;
    }
    if v == s { assert stack[|d.stack|].0 == v; }
    if In(stack, v) && v != s {
      var i :| 0 <= i < |stack| && stack[i].0 == v;
      assert Advanced(d)[i].0 == v;
    }
  }

  /** The turn that finishes a block. */
  lemma PopInv(g: Graph, root: nat, d: Dfs)
    requires Inv(g, root, d) && d.stack != [] && !MoreToLook(g, d)
    ensures Inv(g, root, Step(g, d))
  {
    var d', k := Step(g, d), |d.stack| - 1;
    var b := d.stack[k].0;
    assert Good(g, d.stack[k]);
    FinishingPop(g, d);
    assert Finishing(g, d') == Finishing(g, d);
    forall v | 0 <= v < g.Size()
      ensures Colored(g, d', v)
    {
      assert Colored(g, d, v);
      InFinishing(g, d', v);
      InPopped(g, d, v);
    }
    forall i | 0 <= i < |d'.stack| - 1
      ensures OnPath(g, d', i)
    {
      assert OnPath(g, d, i);
    }
  }

  lemma InPopped(g: Graph, d: Dfs, v: nat)
    requires Shape(g, d) && d.stack != [] && Distinct(Finishing(g, d))
    ensures var k := |d.stack| - 1;
      In(d.stack[..k], v) <==> In(d.stack, v) && v != d.stack[k].0
  {
    var k, w, n := |d.stack| - 1, Finishing(g, d), |d.order|;
    if In(d.stack, v) && v != d.stack[k].0 {
      var i :| 0 <= i < |d.stack| && d.stack[i].0 == v;
      assert d.stack[..k][i].0 == v;
    }
    if In(d.stack[..k], v) {
      var i :| 0 <= i < k && d.stack[..k][i].0 == v;
      assert d.stack[i].0 == v;
      assert w[n + k - i].0 == v && w[n].0 == d.stack[k].0;
    }
  }

  lemma StepInv(g: Graph, root: nat, d: Dfs)
    requires Inv(g, root, d) && d.stack != []
    ensures Inv(g, root, Step(g, d))
  {
    if MoreToLook(g, d) {
      var (b, idx) := d.stack[|d.stack| - 1];
      var s := g.succs[b][idx];
      if s < g.Size() && d.color[s] == New { PushInv(g, root, d, s); } else { AdvanceInv(g, root, d, s); }
    } else {
      PopInv(g, root, d);
    }
  }

  lemma {:induction false} RunInv(g: Graph, root: nat, d: Dfs)
    requires Inv(g, root, d)
    ensures Inv(g, root, Run(g, d))
    decreases News(d.color), Work(g, d.stack)
  {
    if d.stack != [] {
      StepInv(g, root, d);
      StepDecreases(g, d);
      RunInv(g, root, Step(g, d));
    }
  }
}
