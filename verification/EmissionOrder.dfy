/** Which blocks are emulated and printed, and in what order. */
module EmissionOrder {
  import opened Graph
  import opened Traversal
  import opened Loops

  /** The traversals start at the entry block, then at each handler block. */
  function Roots(handlers: seq<nat>): seq<nat> { [0] + handlers }

  ghost predicate RootReaches(g: Graph, roots: seq<nat>, b: nat) {
    exists r :: r in roots && Reaches(g, r, b)
  }

  // ----- marking reachable blocks (the last step of `build_cfg`) ---------------------------

  predicate ClosedAt(g: Graph, marks: seq<bool>, x: nat)
    requires x < g.Size()
  {
    forall y :: y in g.succs[x] && y < |marks| ==> marks[y]
  }

  ghost predicate MarkInv(g: Graph, roots: seq<nat>, marks: seq<bool>, stack: seq<nat>) {
    && WellFormed(g) && |marks| == g.Size()
    && (forall x :: x in stack ==> x < |marks| && marks[x])
    && (forall x :: 0 <= x < |marks| && marks[x] ==> RootReaches(g, roots, x))
    && (forall x :: 0 <= x < |marks| && marks[x] && x !in stack ==> ClosedAt(g, marks, x))
  }

  /** The marks and the stack after looking at the first `k` successors. */
  function MarkNew(succs: seq<nat>, marks: seq<bool>, stack: seq<nat>, k: nat): (r: (seq<bool>, seq<nat>))
    requires k <= |succs| && forall i :: 0 <= i < |succs| ==> succs[i] < |marks|
    ensures |r.0| == |marks|
    ensures forall x :: 0 <= x < |marks| ==> (r.0[x] <==> marks[x] || x in succs[..k])
    ensures forall x: nat :: x in r.1 <==> x in stack || (x < |marks| && !marks[x] && x in succs[..k])
  {
    if k == 0 then (marks, stack)
    else
      assert succs[..k] == succs[..k - 1] + [succs[k - 1]];
      var (m, s) := MarkNew(succs, marks, stack, k - 1);
      if m[succs[k - 1]] then (m, s) else (m[succs[k - 1] := true], s + [succs[k - 1]])
  }

  lemma MarkStep(g: Graph, roots: seq<nat>, marks: seq<bool>, stack: seq<nat>, b: nat)
    requires MarkInv(g, roots, marks, stack) && stack != [] && b == stack[|stack| - 1]
    ensures b < g.Size() && forall i :: 0 <= i < |g.succs[b]| ==> g.succs[b][i] < |marks|
    ensures var (m, s) := MarkNew(g.succs[b], marks, stack[..|stack| - 1], |g.succs[b]|); MarkInv(g, roots, m, s)
  {
    assert b in stack;
    assert forall i :: 0 <= i < |g.succs[b]| ==> g.succs[b][i] in g.succs[b];
    assert g.succs[b][..|g.succs[b]|] == g.succs[b];
    var (m, s) := MarkNew(g.succs[b], marks, stack[..|stack| - 1], |g.succs[b]|);
    forall x | x in s
      ensures x < |m| && m[x]
    {
      if x in stack[..|stack| - 1] { Beneath(stack, x); }
    }
    forall x | 0 <= x < |m| && m[x]
      ensures RootReaches(g, roots, x)
    {
      if !marks[x] {
        var r :| r in roots && Reaches(g, r, b);
        ReachesStep(g, r, b, x);
      }
    }
    forall x | 0 <= x < |m| && m[x] && x !in s
      ensures ClosedAt(g, m, x)
    {
      if x != b {
        if x in stack { PopMember(stack, x); }
        assert ClosedAt(g, marks, x);
      }
    }
  }

  lemma MarkDone(g: Graph, roots: seq<nat>, marks: seq<bool>, b: nat)
    requires |marks| == g.Size() && b < g.Size() && RootReaches(g, roots, b)
    requires forall x :: 0 <= x < |marks| && marks[x] ==> ClosedAt(g, marks, x)
    requires forall r :: r in roots && r < |marks| ==> marks[r]
    ensures marks[b]
  {
    var r :| r in roots && Reaches(g, r, b);
    var p :| PathFromTo(g, p, r, b);
    var marked := set x: nat | x < |marks| && marks[x];
    forall a, c | a in marked && Edge(g, a, c)
      ensures c in marked
    {
      assert ClosedAt(g, marks, a);
    }
    assert p[0] < g.Size();
    ClosedContains(g, marked, p, |p| - 1);
  }

  method PushNew(succs: seq<nat>, reachable: array<bool>, base: seq<nat>) returns (stack: seq<nat>)
    requires forall i :: 0 <= i < |succs| ==> succs[i] < reachable.Length
    modifies reachable
    ensures (reachable[..], stack) == MarkNew(succs, old(reachable[..]), base, |succs|)
  {
    stack := base;
    for k := 0 to |succs|
      invariant (reachable[..], stack) == MarkNew(succs, old(reachable[..]), base, k)
    {
      var s := succs[k];
      if !reachable[s] {
        reachable[s] := true;
        stack := stack + [s];
      }
    }
  }

  /** Marks the handler blocks, then the entry block. */
  method SeedRoots(g: Graph, handlers: seq<nat>, reachable: array<bool>) returns (stack: seq<nat>)
    requires WellFormed(g) && reachable.Length == g.Size() && forall h :: h in handlers ==> h < g.Size()
    requires forall i :: 0 <= i < reachable.Length ==> !reachable[i]
    modifies reachable
    ensures MarkInv(g, Roots(handlers), reachable[..], stack)
    ensures forall r :: r in Roots(handlers) && r < g.Size() ==> reachable[r]
  {
    ghost var roots := Roots(handlers);
    stack := [];
    for k := 0 to |handlers|
      invariant MarkInv(g, roots, reachable[..], stack)
      invariant forall i :: 0 <= i < k ==> handlers[i] in handlers && reachable[handlers[i]]
      invariant forall x :: 0 <= x < g.Size() ==> (reachable[x] <==> x in stack)
    {
      var hb := handlers[k];
      assert hb in roots && hb in handlers;
      ReachesSelf(g, hb);
      if !reachable[hb] {
        reachable[hb] := true;
        stack := stack + [hb];
      }
    }
    if g.Size() > 0 {
      ReachesSelf(g, 0);
      assert 0 in roots;
      if !reachable[0] {
        reachable[0] := true;
        stack := stack + [0];
      }
    }
  }

  /** Reachability from the entry and from each handler entry: exactly the closure. */
  method MarkReachable(g: Graph, handlers: seq<nat>) returns (reachable: array<bool>)
    requires WellFormed(g) && forall h :: h in handlers ==> h < g.Size()
    ensures fresh(reachable) && reachable.Length == g.Size()
    ensures forall b :: 0 <= b < g.Size() ==> (reachable[b] <==> RootReaches(g, Roots(handlers), b))
  {
    var n := g.Size();
    reachable := new bool[n](_ => false);
    ghost var roots := Roots(handlers);
    var stack := SeedRoots(g, handlers, reachable);
    while stack != []
      invariant MarkInv(g, roots, reachable[..], stack)
      invariant forall r :: r in roots && r < n ==> reachable[r]
      decreases Unset(reachable[..]), |stack|
    {
      ghost var marks, before := reachable[..], stack;
      var b := stack[|stack| - 1];
      stack := stack[..|stack| - 1];
      MarkStep(g, roots, marks, before, b);
      stack := PushNew(g.succs[b], reachable, stack);
      assert Unset(reachable[..]) <= Unset(marks);
      if Unset(reachable[..]) == Unset(marks) { NothingNew(g.succs[b], marks, before[..|before| - 1], |g.succs[b]|); }
    }
    forall b | 0 <= b < n
      ensures reachable[b] <==> RootReaches(g, roots, b)
    {
      if RootReaches(g, roots, b) { MarkDone(g, roots, reachable[..], b); }
    }
  }

  lemma {:induction false} NothingNew(succs: seq<nat>, marks: seq<bool>, stack: seq<nat>, k: nat)
    requires k <= |succs| && forall i :: 0 <= i < |succs| ==> succs[i] < |marks|
    requires forall i :: 0 <= i < k ==> marks[succs[i]]
    ensures MarkNew(succs, marks, stack, k) == (marks, stack)
  {
    if k > 0 { NothingNew(succs, marks, stack, k - 1); }
  }

  // ----- the emission order --------------------------------------------------------------------

  /** The traversals from the roots, one after the other. */
  function AllRpos(g: Graph, roots: seq<nat>): seq<nat> {
    if roots == [] then [] else Rpo(g, roots[0]) + AllRpos(g, roots[1..])
  }

  /** The first occurrences of reachable blocks, after those in `out`. */
  function Emit(s: seq<nat>, reachable: seq<bool>, out: seq<nat>): seq<nat>
    decreases s
  {
    if s == [] then out
    else if s[0] < |reachable| && reachable[s[0]] && s[0] !in out then Emit(s[1..], reachable, out + [s[0]])
    else Emit(s[1..], reachable, out)
  }

  function EmissionOrder(g: Graph, handlers: seq<nat>, reachable: seq<bool>): seq<nat> {
    Emit(AllRpos(g, Roots(handlers)), reachable, [])
  }

  lemma {:induction false} EmitConcat(a: seq<nat>, b: seq<nat>, reachable: seq<bool>, out: seq<nat>)
    ensures Emit(a + b, reachable, out) == Emit(b, reachable, Emit(a, reachable, out))
    decreases a
  {
    if a == [] {
      assert a + b == b;
    } else {
      assert (a + b)[1..] == a[1..] + b;
      EmitConcat(a[1..], b, reachable,
        if a[0] < |reachable| && reachable[a[0]] && a[0] !in out then out + [a[0]] else out);
    }
  }

  lemma EmitOne(x: nat, reachable: seq<bool>, out: seq<nat>)
    ensures Emit([x], reachable, out) == if x < |reachable| && reachable[x] && x !in out then out + [x] else out
  {
  }

  lemma EmitUpTo(s: seq<nat>, k: nat, reachable: seq<bool>, out: seq<nat>)
    requires k < |s|
    ensures Emit(s[..k + 1], reachable, out) == Emit([s[k]], reachable, Emit(s[..k], reachable, out))
  {
    assert s[..k + 1] == s[..k] + [s[k]];
    EmitConcat(s[..k], [s[k]], reachable, out);
  }

  /** `seen` knows which reachable blocks are in `out`. */
  ghost predicate Noted(seen: seq<bool>, reachable: seq<bool>, out: seq<nat>) {
    |seen| == |reachable| && forall x :: 0 <= x < |seen| && reachable[x] ==> (seen[x] <==> x in out)
  }

  lemma NotedNext(seen: seq<bool>, reachable: seq<bool>, out: seq<nat>, b: nat)
    requires Noted(seen, reachable, out) && b < |seen| && !seen[b]
    ensures Noted(seen[b := true], reachable, if reachable[b] then out + [b] else out)
  {
  }

  /** The first `k` elements emitted, one more is emitted. */
  lemma EmitNext(s: seq<nat>, k: nat, reachable: seq<bool>, before: seq<nat>, seen: seq<bool>, out: seq<nat>)
    requires k < |s| && out == Emit(s[..k], reachable, before) && Noted(seen, reachable, out)
    ensures Emit(s[..k + 1], reachable, before)
      == if s[k] < |seen| && !seen[s[k]] && reachable[s[k]] then out + [s[k]] else out
  {
    EmitUpTo(s, k, reachable, before);
    EmitOne(s[k], reachable, out);
  }

  /** Emitting the blocks of the first remaining root. */
  lemma EmitRoot(g: Graph, roots: seq<nat>, r: nat, reachable: seq<bool>, out: seq<nat>)
    requires r < |roots|
    ensures Emit(AllRpos(g, roots[r..]), reachable, out)
      == Emit(AllRpos(g, roots[r + 1..]), reachable, Emit(Rpo(g, roots[r]), reachable, out))
  {
    assert roots[r..][1..] == roots[r + 1..];
    EmitConcat(Rpo(g, roots[r]), AllRpos(g, roots[r + 1..]), reachable, out);
  }

  /** The loop over the blocks of one traversal. */
  method EmitBlocks(rpo: seq<nat>, reachable: seq<bool>, seen: array<bool>, before: seq<nat>) returns (out: seq<nat>)
    requires Noted(seen[..], reachable, before)
    modifies seen
    ensures out == Emit(rpo, reachable, before) && Noted(seen[..], reachable, out)
  {
    out := before;
    for k := 0 to |rpo|
      invariant out == Emit(rpo[..k], reachable, before)
      invariant Noted(seen[..], reachable, out)
    {
      EmitNext(rpo, k, reachable, before, seen[..], out);
      var b := rpo[k];
      if b < seen.Length && !seen[b] {
        NotedNext(seen[..], reachable, out, b);
        ghost var marks := seen[..];
        seen[b] := true;
        assert seen[..] == marks[b := true];
        if reachable[b] { out := out + [b]; }
      }
    }
    assert rpo[..|rpo|] == rpo;
  }

  /** `emulation_order` */
  method EmulationOrder(g: Graph, handlers: seq<nat>, reachable: seq<bool>) returns (out: seq<nat>)
    requires |reachable| == g.Size()
    ensures out == EmissionOrder(g, handlers, reachable)
  {
    var seen := new bool[g.Size()](_ => false);
    out := [];
    var roots := Roots(handlers);
    assert roots[0..] == roots;
    for r := 0 to |roots|
      invariant Emit(AllRpos(g, roots[r..]), reachable, out) == EmissionOrder(g, handlers, reachable)
      invariant Noted(seen[..], reachable, out)
    {
      EmitRoot(g, roots, r, reachable, out);
      var rpo := RpoFrom(g, roots[r]);
      out := EmitBlocks(rpo, reachable, seen, out);
    }
    assert roots[|roots|..] == [];
  }

  /** `retain`: the reachable blocks of a list. */
  function Retain(s: seq<nat>, reachable: seq<bool>): (r: seq<nat>)
    ensures forall x :: x in r <==> x in s && x < |reachable| && reachable[x]
  {
    if s == [] then []
    else
      var n := |s| - 1;
      assert s == s[..n] + [s[n]];
      Retain(s[..n], reachable) + if s[n] < |reachable| && reachable[s[n]] then [s[n]] else []
  }

  lemma RetainAppend(s: seq<nat>, x: nat, reachable: seq<bool>)
    ensures Retain(s + [x], reachable) == Retain(s, reachable) + if x < |reachable| && reachable[x] then [x] else []
  {
    assert (s + [x])[..|s|] == s;
  }

  /** Retaining from a list without repetitions is emitting it. */
  lemma RetainIsEmit(s: seq<nat>, reachable: seq<bool>, none: seq<nat>)
    requires none == [] && forall i, j :: 0 <= i < j < |s| ==> s[i] != s[j]
    ensures Retain(s, reachable) == Emit(s, reachable, none)
  {
    for k := 0 to |s|
      invariant Retain(s[..k], reachable) == Emit(s[..k], reachable, none)
    {
      NotEarlier(s, k);
      RetainEmitNext(s, k, reachable, none, Retain(s[..k], reachable));
    }
    assert s[..|s|] == s;
  }

  lemma RetainEmitNext(s: seq<nat>, k: nat, reachable: seq<bool>, before: seq<nat>, out: seq<nat>)
    requires k < |s| && s[k] !in s[..k] && Retain(s[..k], reachable) == out == Emit(s[..k], reachable, before)
    ensures Retain(s[..k + 1], reachable) == Emit(s[..k + 1], reachable, before)
  {
    EmitFresh(s, k, reachable, before, out);
    RetainAppend(s[..k], s[k], reachable);
    assert s[..k + 1] == s[..k] + [s[k]];
  }

  lemma EmitFresh(s: seq<nat>, k: nat, reachable: seq<bool>, before: seq<nat>, out: seq<nat>)
    requires k < |s| && out == Emit(s[..k], reachable, before) && s[k] !in out
    ensures Emit(s[..k + 1], reachable, before) == out + if s[k] < |reachable| && reachable[s[k]] then [s[k]] else []
  {
    EmitUpTo(s, k, reachable, before);
    EmitOne(s[k], reachable, out);
  }

  lemma NotEarlier(s: seq<nat>, k: nat)
    requires k < |s| && forall i, j :: 0 <= i < j < |s| ==> s[i] != s[j]
    ensures s[k] !in s[..k]
  {
  }

  /** `init_order` */
  method InitOrder(g: Graph, handlers: seq<nat>, reachable: seq<bool>) returns (order: seq<nat>)
    requires |reachable| == g.Size()
    ensures order == EmissionOrder(g, handlers, reachable)
  {
    var first := RpoFrom(g, 0);
    var rpo := Retain(first, reachable);
    FirstRetained(g, handlers, reachable, first);
    for h := 0 to |handlers|
      invariant Emit(AllRpos(g, handlers[h..]), reachable, Retain(rpo, reachable))
        == EmissionOrder(g, handlers, reachable)
    {
      EmitRoot(g, handlers, h, reachable, Retain(rpo, reachable));
      var more := RpoFrom(g, handlers[h]);
      ghost var before := Retain(rpo, reachable);
      for k := 0 to |more|
        invariant Retain(rpo, reachable) == Emit(more[..k], reachable, before)
      {
        EmitUpTo(more, k, reachable, before);
        EmitOne(more[k], reachable, Retain(rpo, reachable));
        RetainAppend(rpo, more[k], reachable);
        if more[k] !in rpo {
          rpo := rpo + [more[k]];
        }
      }
      assert more[..|more|] == more;
    }
    assert handlers[|handlers|..] == [];
    order := Retain(rpo, reachable);
  }

  lemma {:induction false} RetainTwice(s: seq<nat>, reachable: seq<bool>)
    ensures Retain(Retain(s, reachable), reachable) == Retain(s, reachable)
  {
    if s != [] {
      var n := |s| - 1;
      var init := Retain(s[..n], reachable);
      RetainTwice(s[..n], reachable);
      if s[n] < |reachable| && reachable[s[n]] {
        RetainAppend(init, s[n], reachable);
      } else {
        assert Retain(s, reachable) == init + [] == init;
      }
    }
  }

  lemma FirstRetained(g: Graph, handlers: seq<nat>, reachable: seq<bool>, first: seq<nat>)
    requires first == Rpo(g, 0)
    ensures Retain(Retain(first, reachable), reachable) == Emit(first, reachable, [])
    ensures Emit(AllRpos(g, handlers), reachable, Emit(first, reachable, [])) == EmissionOrder(g, handlers, reachable)
  {
    if g.Size() > 0 { RpoTheorem(g, 0); }
    RetainIsEmit(first, reachable, []);
    assert first[..|first|] == first;
    RetainTwice(first, reachable);
    assert Roots(handlers)[1..] == handlers;
    EmitConcat(first, AllRpos(g, handlers), reachable, []);
  }

  // ----- what the order is -------------------------------------------------------------------------

  /** The block at `j` is a root or has a predecessor before it. */
  ghost predicate Grounded(g: Graph, roots: seq<nat>, order: seq<nat>, j: nat)
    requires j < |order|
  {
    order[j] in roots || exists i :: 0 <= i < j && Edge(g, order[i], order[j])
  }

  ghost predicate Sound(g: Graph, roots: seq<nat>, order: seq<nat>) {
    && (forall i, j :: 0 <= i < j < |order| ==> order[i] != order[j])
    && (forall j :: 0 <= j < |order| ==> Grounded(g, roots, order, j))
  }

  ghost predicate Marked(g: Graph, roots: seq<nat>, reachable: seq<bool>) {
    |reachable| == g.Size() && forall b :: 0 <= b < g.Size() ==> (reachable[b] <==> RootReaches(g, roots, b))
  }

  lemma {:induction false} EmitElements(s: seq<nat>, reachable: seq<bool>, out: seq<nat>, x: nat)
    ensures x in Emit(s, reachable, out) <==> x in out || (x in s && x < |reachable| && reachable[x])
    decreases s
  {
    if s != [] {
      EmitElements(s[1..], reachable,
        if s[0] < |reachable| && reachable[s[0]] && s[0] !in out then out + [s[0]] else out, x);
      assert x in s <==> x == s[0] || x in s[1..];
    }
  }

  lemma SoundAppend(g: Graph, roots: seq<nat>, order: seq<nat>, x: nat)
    requires Sound(g, roots, order) && x !in order
    requires x in roots || exists y :: y in order && Edge(g, y, x)
    ensures Sound(g, roots, order + [x])
  {
    var longer := order + [x];
    forall j | 0 <= j < |longer|
      ensures Grounded(g, roots, longer, j)
    {
      if j < |order| {
        assert Grounded(g, roots, order, j);
        if order[j] !in roots {
          var i :| 0 <= i < j && Edge(g, order[i], order[j]);
          assert Edge(g, longer[i], longer[j]);
        }
      } else if x !in roots {
        var y :| y in order && Edge(g, y, x);
        var i :| 0 <= i < |order| && order[i] == y;
        assert Edge(g, longer[i], longer[j]);
      }
    }
  }

  /** The block at `k` of a traversal from a root is grounded in what was emitted before. */
  lemma NextGrounded(g: Graph, roots: seq<nat>, root: nat, reachable: seq<bool>, out: seq<nat>, k: nat)
    requires root in roots && root < g.Size() && k < |Rpo(g, root)| && Marked(g, roots, reachable)
    ensures var x := Rpo(g, root)[k];
      x in roots || exists y :: y in Emit(Rpo(g, root)[..k], reachable, out) && Edge(g, y, x)
  {
    var rpo := Rpo(g, root);
    RpoTheorem(g, root);
    if k > 0 {
      var i :| 0 <= i < k && Edge(g, rpo[i], rpo[k]);
      assert rpo[i] in rpo && rpo[i] in rpo[..k];
      assert RootReaches(g, roots, rpo[i]);
      EmitElements(rpo[..k], reachable, out, rpo[i]);
    }
  }

  /** Emitting the first `k` blocks of one traversal. */
  lemma {:induction false} EmitOneTraversal(g: Graph, roots: seq<nat>, root: nat, reachable: seq<bool>, out: seq<nat>,
                                            k: nat)
    requires root in roots && root < g.Size() && k <= |Rpo(g, root)|
    requires Marked(g, roots, reachable) && Sound(g, roots, out)
    ensures Sound(g, roots, Emit(Rpo(g, root)[..k], reachable, out))
    decreases k
  {
    var rpo := Rpo(g, root);
    if k == 0 {
      assert rpo[..0] == [];
    } else {
      var before := Emit(rpo[..k - 1], reachable, out);
      EmitOneTraversal(g, roots, root, reachable, out, k - 1);
      EmitUpTo(rpo, k - 1, reachable, out);
      EmitOne(rpo[k - 1], reachable, before);
      NextGrounded(g, roots, root, reachable, out, k - 1);
      if rpo[k - 1] !in before {
        SoundAppend(g, roots, before, rpo[k - 1]);
      }
    }
  }

  lemma {:induction false} EmitAllTraversals(g: Graph, roots: seq<nat>, r: nat, reachable: seq<bool>, out: seq<nat>)
    requires r <= |roots| && Marked(g, roots, reachable) && Sound(g, roots, out)
    ensures Sound(g, roots, Emit(AllRpos(g, roots[r..]), reachable, out))
    decreases |roots| - r
  {
    if r == |roots| {
      assert roots[r..] == [];
    } else {
      assert roots[r..][1..] == roots[r + 1..] && roots[r] in roots;
      var rpo := Rpo(g, roots[r]);
      EmitConcat(rpo, AllRpos(g, roots[r + 1..]), reachable, out);
      if roots[r] < g.Size() {
        EmitOneTraversal(g, roots, roots[r], reachable, out, |rpo|);
        assert rpo[..|rpo|] == rpo;
      }
      EmitAllTraversals(g, roots, r + 1, reachable, Emit(rpo, reachable, out));
    }
  }

  lemma RpoElements(g: Graph, root: nat, x: nat)
    requires root < g.Size()
    ensures x in Rpo(g, root) <==> Reaches(g, root, x)
  {
    RpoTheorem(g, root);
  }

  lemma {:induction false} InSomeTraversal(g: Graph, roots: seq<nat>, r: nat, x: nat)
    requires r <= |roots| && forall i :: 0 <= i < |roots| ==> roots[i] < g.Size()
    ensures x in AllRpos(g, roots[r..]) <==> exists i :: r <= i < |roots| && Reaches(g, roots[i], x)
    decreases |roots| - r
  {
    if r < |roots| {
      assert roots[r..][1..] == roots[r + 1..];
      InSomeTraversal(g, roots, r + 1, x);
      RpoElements(g, roots[r], x);
    }
  }

  lemma OrderElements(g: Graph, roots: seq<nat>, reachable: seq<bool>, x: nat)
    requires (forall i :: 0 <= i < |roots| ==> roots[i] < g.Size()) && Marked(g, roots, reachable)
    ensures x in Emit(AllRpos(g, roots), reachable, []) <==> x < g.Size() && reachable[x]
  {
    EmitElements(AllRpos(g, roots), reachable, [], x);
    InSomeTraversal(g, roots, 0, x);
    assert roots[0..] == roots;
    if x < g.Size() && reachable[x] {
      var r :| r in roots && Reaches(g, r, x);
    }
  }

  /** With the marks left by `MarkReachable`, the emission order lists exactly the marked
      blocks, each once, and each after one of its predecessors unless it is a root. */
  lemma EmissionTheorem(g: Graph, handlers: seq<nat>, reachable: seq<bool>)
    requires g.Size() > 0 && forall h :: h in handlers ==> h < g.Size()
    requires Marked(g, Roots(handlers), reachable)
    ensures Sound(g, Roots(handlers), EmissionOrder(g, handlers, reachable))
    ensures forall b: nat :: b in EmissionOrder(g, handlers, reachable) <==> b < |reachable| && reachable[b]
  {
    var roots := Roots(handlers);
    assert roots[0..] == roots;
    assert forall i :: 0 <= i < |handlers| ==> handlers[i] in handlers;
    assert forall i :: 0 < i < |roots| ==> roots[i] == handlers[i - 1];
    EmitAllTraversals(g, roots, 0, reachable, []);
    forall b: nat
      ensures b in EmissionOrder(g, handlers, reachable) <==> b < |reachable| && reachable[b]
    {
      OrderElements(g, roots, reachable, b);
    }
  }
}
