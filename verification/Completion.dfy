/** The first two passes on a whole printed method: a trailing `return` goes, and increments are
    folded. A method may end by returning nothing or by running off its end. */
module Completion {
  import opened Results
  import opened Ir
  import opened Labels
  import opened Increments

  /** The program returns `value`; running off its end is returning nothing. */
  ghost predicate Completes(p: seq<Stmt>, env: Env, value: Option<int>) {
    Yields(p, env, Gave(value)) || (value.None? && exists env' :: Yields(p, env, FellOff(env')))
  }

  lemma EquivalentCompletes(p: seq<Stmt>, q: seq<Stmt>, env: Env, value: Option<int>)
    requires Equivalent(p, q)
    ensures Completes(p, env, value) <==> Completes(q, env, value)
  {
  }

  // ----- the trailing return ----------------------------------------------------------------------

  /** `is_decoration` */
  predicate Decoration(s: Stmt) { s.Comment? || s.Label? }

  /** The number of statements up to the last one that does something. */
  function RealLength(p: seq<Stmt>): (n: nat)
    ensures n <= |p| && (forall k :: n <= k < |p| ==> Decoration(p[k])) && (n > 0 ==> !Decoration(p[n - 1]))
  {
    if p == [] then 0 else if Decoration(p[|p| - 1]) then RealLength(p[..|p| - 1]) else |p|
  }

  function Stripped(p: seq<Stmt>): seq<Stmt> {
    var n := RealLength(p);
    if n > 0 && p[n - 1] == Return(None) then RemoveAt(p, n - 1) else p
  }

  lemma RealLengthIs(p: seq<Stmt>, n: nat)
    requires n <= |p| && (forall k :: n <= k < |p| ==> Decoration(p[k])) && (n > 0 ==> !Decoration(p[n - 1]))
    ensures RealLength(p) == n
  {
  }

  /** `strip_trailing_return`, on a flat list. */
  method StripTrailingReturn(p: seq<Stmt>) returns (list: seq<Stmt>, removed: nat)
    ensures list == Stripped(p) && removed == |p| - |list|
  {
    var n: nat := |p|;
    while n > 0 && Decoration(p[n - 1])
      invariant n <= |p| && forall k :: n <= k < |p| ==> Decoration(p[k])
    {
      n := n - 1;
    }
    RealLengthIs(p, n);
    if n > 0 && p[n - 1] == Return(None) { return RemoveAt(p, n - 1), 1; }
    return p, 0;
  }

  /** At the end of a program of whose statements those from `i` on do nothing, except perhaps return. */
  predicate Over(i: nat, s: State) { s == Gave(None) || s.FellOff? || (s.At? && s.pc >= i) }

  /** Both programs are at the same place, or both at their ends. */
  predicate Abreast(i: nat, s: State, t: State) { (s == t && (s.At? ==> s.pc < i)) || (Over(i, s) && Over(i, t)) }

  predicate TrailingReturn(p: seq<Stmt>, i: nat) {
    i < |p| && p[i] == Return(None) && forall k :: i < k < |p| ==> Decoration(p[k])
  }

  lemma OverStays(p: seq<Stmt>, i: nat, s: State)
    requires TrailingReturn(p, i) && Over(i, s)
    ensures Over(i, Step(p, s))
  {
  }

  lemma OverStaysShort(p: seq<Stmt>, i: nat, s: State)
    requires TrailingReturn(p, i) && Over(i, s)
    ensures Over(i, Step(RemoveAt(p, i), s))
  {
    var q := RemoveAt(p, i);
    if s.At? && s.pc < |q| { assert Decoration(q[s.pc]); }
  }

  lemma AbreastStep(p: seq<Stmt>, i: nat, s: State, t: State)
    requires UniqueLabels(p) && TrailingReturn(p, i) && Abreast(i, s, t)
    ensures Abreast(i, Step(p, s), Step(RemoveAt(p, i), t))
  {
    var q := RemoveAt(p, i);
    if Over(i, s) && Over(i, t) {
      OverStays(p, i, s);
      OverStaysShort(p, i, t);
    } else if s.At? {
      assert q[s.pc] == p[s.pc];
      if p[s.pc].Goto? || p[s.pc].IfGoto? { LabelMoves(p, i, p[s.pc].id); }
    }
  }

  lemma {:induction false} RunAbreast(p: seq<Stmt>, i: nat, env: Env, n: nat)
    requires UniqueLabels(p) && TrailingReturn(p, i)
    ensures Abreast(i, Run(p, At(0, env), n), Run(RemoveAt(p, i), At(0, env), n))
  {
    if n > 0 {
      RunAbreast(p, i, env, n - 1);
      AbreastStep(p, i, Run(p, At(0, env), n - 1), Run(RemoveAt(p, i), At(0, env), n - 1));
    }
  }

  /** Nothing is left to do but to end. */
  ghost predicate Idling(p: seq<Stmt>, i: nat) {
    forall k :: i <= k < |p| ==> Decoration(p[k]) || p[k] == Return(None)
  }

  lemma {:induction false} OverCompletes(p: seq<Stmt>, i: nat, env: Env, n: nat)
    requires Idling(p, i) && Over(i, Run(p, At(0, env), n))
    ensures Completes(p, env, None)
    decreases |p| - (if Run(p, At(0, env), n).At? then Run(p, At(0, env), n).pc else |p|)
  {
    var s := Run(p, At(0, env), n);
    if s.At? && s.pc < |p| {
      RunMore(p, At(0, env), n);
      OverCompletes(p, i, env, n + 1);
    } else if s.At? {
      RunMore(p, At(0, env), n);
      assert Run(p, At(0, env), n + 1) == FellOff(s.env);
      assert Yields(p, env, FellOff(s.env));
    } else if s.FellOff? {
      assert Yields(p, env, s);
    } else {
      assert Yields(p, env, Gave(None));
    }
  }

  lemma StripIdling(p: seq<Stmt>, i: nat)
    requires TrailingReturn(p, i)
    ensures Idling(p, i) && Idling(RemoveAt(p, i), i)
  {
  }

  /** How a program completes, as a state it runs into. */
  lemma CompletesAt(p: seq<Stmt>, env: Env, value: Option<int>) returns (n: nat)
    requires Completes(p, env, value)
    ensures Run(p, At(0, env), n) == Gave(value) || (value.None? && Run(p, At(0, env), n).FellOff?)
  {
    if Yields(p, env, Gave(value)) {
      n :| Run(p, At(0, env), n) == Gave(value);
    } else {
      var env' :| Yields(p, env, FellOff(env'));
      n :| Run(p, At(0, env), n) == FellOff(env');
    }
  }

  lemma GaveCompletes(p: seq<Stmt>, env: Env, value: Option<int>, n: nat)
    requires Run(p, At(0, env), n) == Gave(value)
    ensures Completes(p, env, value)
  {
  }

  lemma RemovalCompletes(p: seq<Stmt>, i: nat, env: Env, value: Option<int>)
    requires UniqueLabels(p) && TrailingReturn(p, i)
    ensures Completes(RemoveAt(p, i), env, value) <==> Completes(p, env, value)
  {
    var q := RemoveAt(p, i);
    StripIdling(p, i);
    if Completes(p, env, value) {
      var n := CompletesAt(p, env, value);
      RunAbreast(p, i, env, n);
      if Over(i, Run(q, At(0, env), n)) { OverCompletes(q, i, env, n); } else { GaveCompletes(q, env, value, n); }
    }
    if Completes(q, env, value) {
      var n := CompletesAt(q, env, value);
      RunAbreast(p, i, env, n);
      if Over(i, Run(p, At(0, env), n)) { OverCompletes(p, i, env, n); } else { GaveCompletes(p, env, value, n); }
    }
  }

  /** Without its trailing `return` a program completes as before. */
  lemma StripCompletes(p: seq<Stmt>, env: Env, value: Option<int>)
    requires UniqueLabels(p)
    ensures UniqueLabels(Stripped(p)) && (Completes(Stripped(p), env, value) <==> Completes(p, env, value))
  {
    var n := RealLength(p);
    if n > 0 && p[n - 1] == Return(None) {
      RemovalKeepsUnique(p, n - 1);
      RemovalCompletes(p, n - 1, env, value);
    }
  }

  // ----- increments -----------------------------------------------------------------------------------

  /** Every constant that is folded is an `int`, and every folded assignment well typed. */
  ghost predicate Foldable(p: seq<Stmt>) {
    forall i :: 0 <= i < |p| && FoldCandidate(p[i]).Some? ==> WellTyped(p[i]) && FitsInt(p[i])
  }

  /** The statement at each place is the same, or does the same. */
  ghost predicate SameSteps(p: seq<Stmt>, q: seq<Stmt>) {
    |p| == |q| && forall i :: 0 <= i < |p| ==> SameStep(p, q, i)
  }

  ghost predicate SameStep(p: seq<Stmt>, q: seq<Stmt>, i: nat) {
    i < |p| == |q| && (p[i] == q[i] || (p[i].Assign? && q[i].ExprStmt? && SameEffect(p[i], q[i])))
  }

  lemma FoldedSameSteps(p: seq<Stmt>)
    requires Foldable(p)
    ensures SameSteps(p, Folded(p, |p|))
  {
    forall i | 0 <= i < |p|
      ensures SameStep(p, Folded(p, |p|), i)
    {
      FoldedAt(p, |p|, i);
      if FoldCandidate(p[i]).Some? { FoldFits(p[i]); }
    }
  }

  lemma {:induction false} SameLabels(p: seq<Stmt>, q: seq<Stmt>, id: nat)
    requires SameSteps(p, q)
    ensures LabelAt(p, id) == LabelAt(q, id)
  {
    if p != [] {
      var n := |p| - 1;
      assert SameStep(p, q, n);
      forall i | 0 <= i < n
        ensures SameStep(p[..n], q[..n], i)
      {
        assert SameStep(p, q, i);
      }
      SameLabels(p[..n], q[..n], id);
    }
  }

  lemma {:induction false} SameRuns(p: seq<Stmt>, q: seq<Stmt>, s: State, n: nat)
    requires SameSteps(p, q)
    ensures Run(p, s, n) == Run(q, s, n)
  {
    if n > 0 {
      SameRuns(p, q, s, n - 1);
      var t := Run(p, s, n - 1);
      if t.At? && t.pc < |p| {
        assert SameStep(p, q, t.pc);
        if p[t.pc].Goto? || p[t.pc].IfGoto? { SameLabels(p, q, p[t.pc].id); }
      }
    }
  }

  /** With folded increments a program runs exactly as before, jumps included. */
  lemma FoldRuns(p: seq<Stmt>)
    requires UniqueLabels(p) && Foldable(p)
    ensures UniqueLabels(Folded(p, |p|)) && Equivalent(p, Folded(p, |p|))
  {
    var q := Folded(p, |p|);
    FoldedSameSteps(p);
    forall i, j | 0 <= i < j < |q| && q[i].Label?
      ensures q[i] != q[j]
    {
      assert SameStep(p, q, i) && SameStep(p, q, j);
    }
    forall env, s
      ensures Yields(p, env, s) <==> Yields(q, env, s)
    {
      forall n: nat
        ensures Run(p, At(0, env), n) == Run(q, At(0, env), n)
      {
        SameRuns(p, q, At(0, env), n);
      }
    }
  }

  lemma StripFoldable(p: seq<Stmt>)
    requires Foldable(p)
    ensures Foldable(Stripped(p))
  {
  }

  /** Stripped, folded and freed of idle labels and jumps, a program completes as before. */
  lemma PassesComplete(p: seq<Stmt>, env: Env, value: Option<int>)
    requires UniqueLabels(p) && Foldable(p)
    ensures var q := Stripped(p);
      Completes(Elide(Folded(q, |q|), 16), env, value) <==> Completes(p, env, value)
  {
    var q := Stripped(p);
    StripCompletes(p, env, value);
    StripFoldable(p);
    FoldRuns(q);
    EquivalentCompletes(q, Folded(q, |q|), env, value);
    ElideKeeps(Folded(q, |q|), 16);
    EquivalentCompletes(Folded(q, |q|), Elide(Folded(q, |q|), 16), env, value);
  }
}
