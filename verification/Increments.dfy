/** Rewriting `x = x + k` into `x += k`. */
module Increments {
  import opened Results
  import opened JavaInts
  import opened Ir

  /** `as_int_const`: a long constant is cut to its low 32 bits. */
  function AsIntConst(e: Expr): Option<int> {
    if !e.Const? then None else Some(if e.ty.Int? then e.value else Wrap(Int, e.value))
  }

  /** `fold_candidate` */
  function FoldCandidate(s: Stmt): Option<Stmt> {
    if s.Assign? && s.target.Local? && s.value.Bin? && s.value.bop.Add? && s.value.a.Local?
      && s.value.a.index == s.target.index then
      match AsIntConst(s.value.b)
      case Some(delta) => Some(ExprStmt(Inc(s.target.index, s.target.name, delta, false, s.target.ty)))
      case None => None
    else None
  }

  function Folded(list: seq<Stmt>, k: nat): (r: seq<Stmt>)
    requires k <= |list|
    ensures |r| == |list| && forall i :: k <= i < |list| ==> r[i] == list[i]
  {
    if k == 0 then list
    else
      match FoldCandidate(list[k - 1])
      case Some(s) => Folded(list, k - 1)[k - 1 := s]
      case None => Folded(list, k - 1)
  }

  /** Where two lists differ, before place `k`. */
  function Differences(p: seq<Stmt>, q: seq<Stmt>, k: nat): (r: set<int>)
    requires k <= |p| == |q|
    ensures forall i :: i in r <==> 0 <= i < k && p[i] != q[i]
  {
    set i | 0 <= i < k && p[i] != q[i]
  }

  lemma OneMore(list: seq<Stmt>, k: nat)
    requires k < |list|
    ensures |Differences(list, Folded(list, k + 1), k + 1)|
      == |Differences(list, Folded(list, k), k)| + if FoldCandidate(list[k]).Some? then 1 else 0
  {
    var before, after := Differences(list, Folded(list, k), k), Differences(list, Folded(list, k + 1), k + 1);
    assert after == if FoldCandidate(list[k]).Some? then before + {k} else before;
  }

  /** `fold_list`, on a flat list: the count says how many places have changed. */
  method FoldList(list: seq<Stmt>) returns (r: seq<Stmt>, folded: nat)
    ensures r == Folded(list, |list|) && folded == |Differences(list, r, |list|)|
  {
    r, folded := list, 0;
    for i := 0 to |list|
      invariant r == Folded(list, i) && folded == |Differences(list, r, i)|
    {
      OneMore(list, i);
      var repl := FoldCandidate(r[i]);
      if repl.Some? {
        r := r[i := repl.value];
        folded := folded + 1;
      }
    }
  }

  /** Every assignment to a variable of itself plus a constant is folded. */
  lemma FoldsEvery(index: nat, name: string, ty: Ty, other: string, ty': Ty, v: int, constTy: Ty, sumTy: Ty)
    ensures FoldCandidate(Assign(Local(index, name, ty), Bin(Add, Local(index, other, ty'), Const(v, constTy), sumTy)))
      .Some?
  {
  }

  /** A slot has one name, and an operation has the type of its operands. */
  predicate WellTyped(s: Stmt) {
    s.Assign? && s.target.Local? && s.value.Bin? && s.value.a.Local? && s.value.b.Const?
      && s.value.a.index == s.target.index ==>
      && s.value.a.name == s.target.name
      && s.value.ty == s.target.ty == s.value.b.ty
      && s.value.b.value == Wrap(s.value.ty, s.value.b.value)
  }

  /** The constant added is an `int`. */
  predicate FitsInt(s: Stmt) {
    s.Assign? && s.value.Bin? && s.value.b.Const? ==> Wrap(Int, s.value.b.value) == s.value.b.value
  }

  lemma WrapRange(ty: Ty, x: int)
    requires -(Modulus(ty) / 2) <= x < Modulus(ty) / 2
    ensures Wrap(ty, x) == x
  {
  }

  lemma WrapInt(x: int)
    ensures -0x8000_0000 <= Wrap(Int, x) < 0x8000_0000
  {
  }

  ghost predicate SameEffect(s: Stmt, r: Stmt) {
    forall env :: ExecOne(s, env) == ExecOne(r, env)
  }

  lemma FoldedEffect(s: Stmt, env: Env)
    requires FoldCandidate(s).Some? && WellTyped(s)
    ensures var (name, ty, v) := (s.target.name, s.target.ty, s.value.b.value);
      && ExecOne(s, env) == Normal(env[name := Wrap(ty, Get(env, name) + v)])
      && ExecOne(FoldCandidate(s).value, env)
        == Normal(env[name := Wrap(ty, Get(env, name) + AsIntConst(s.value.b).value)])
  {
    var x := Get(env, s.target.name);
    assert Eval(s.value.a, env) == Some(x) && Eval(s.value.b, env) == Some(s.value.b.value);
    assert Eval(s.value, env) == Arith(Add, s.value.ty, x, s.value.b.value);
  }

  lemma FoldFitsAt(s: Stmt, env: Env)
    requires FoldCandidate(s).Some? && WellTyped(s) && FitsInt(s)
    ensures ExecOne(s, env) == ExecOne(FoldCandidate(s).value, env)
  {
    FoldedEffect(s, env);
    assert AsIntConst(s.value.b).value == s.value.b.value;
  }

  lemma FoldFits(s: Stmt)
    requires FoldCandidate(s).Some? && WellTyped(s) && FitsInt(s)
    ensures SameEffect(s, FoldCandidate(s).value)
  {
    var r := FoldCandidate(s).value;
    forall env
      ensures ExecOne(s, env) == ExecOne(r, env)
    {
      FoldFitsAt(s, env);
    }
  }

  lemma Differ(name: string, v: int, w: int)
    requires v != w
    ensures map[name := 0][name := v] != map[name := 0][name := w]
  {
    assert map[name := 0][name := v][name] != map[name := 0][name := w][name];
  }

  lemma FoldLoses(s: Stmt) returns (env: Env)
    requires FoldCandidate(s).Some? && WellTyped(s) && !FitsInt(s)
    ensures ExecOne(s, env) != ExecOne(FoldCandidate(s).value, env)
  {
    var name, ty, v := s.target.name, s.target.ty, s.value.b.value;
    var delta := AsIntConst(s.value.b).value;
    env := map[name := 0];
    FoldedEffect(s, env);
    WrapInt(v);
    assert ty.Long? && delta == Wrap(Int, v);
    WrapRange(ty, delta);
    Differ(name, v, delta);
  }

  /** The increment does what the assignment does if and only if the constant is an `int`:
      a longer constant loses its high bits. */
  lemma FoldExact(s: Stmt)
    requires FoldCandidate(s).Some? && WellTyped(s)
    ensures SameEffect(s, FoldCandidate(s).value) <==> FitsInt(s)
  {
    if FitsInt(s) {
      FoldFits(s);
    } else {
      var env := FoldLoses(s);
    }
  }

  lemma {:induction false} FoldedAt(list: seq<Stmt>, k: nat, i: nat)
    requires i < |list| && k <= |list|
    ensures Folded(list, k)[i]
      == if i < k && FoldCandidate(list[i]).Some? then FoldCandidate(list[i]).value else list[i]
  {
    if k > 0 { FoldedAt(list, k - 1, i); }
  }

  /** On a list whose folded constants are all `int`s the pass changes no outcome. */
  lemma {:induction false} FoldKeeps(list: seq<Stmt>, env: Env, k: nat)
    requires k <= |list|
    requires forall i :: 0 <= i < |list| && FoldCandidate(list[i]).Some? ==> WellTyped(list[i]) && FitsInt(list[i])
    ensures Exec(Folded(list, |list|)[..k], env) == Exec(list[..k], env)
  {
    if k > 0 {
      var r := Folded(list, |list|);
      FoldKeeps(list, env, k - 1);
      assert r[..k] == r[..k - 1] + [r[k - 1]] && list[..k] == list[..k - 1] + [list[k - 1]];
      ExecAppend(r[..k - 1], r[k - 1], env);
      ExecAppend(list[..k - 1], list[k - 1], env);
      FoldedAt(list, |list|, k - 1);
      if FoldCandidate(list[k - 1]).Some? { FoldExact(list[k - 1]); }
    }
  }
}
