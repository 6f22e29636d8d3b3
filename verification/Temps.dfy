/** Inlining temporaries that are written once and read once. */
module Temps {
  import opened Results
  import opened JavaInts
  import opened Ir
  import opened BlockMeaning

  // ----- occurrences ----------------------------------------------------------------------

  function Count(b: bool): nat { if b then 1 else 0 }

  predicate IncOf(e: Expr, name: string) { e.Inc? && e.name == name }

  /** The expressions a statement evaluates. */
  function Parts(s: Stmt): seq<Expr> {
    match s
    case LocalDef(_, _, init) => [init]
    case Assign(target, value) => if target.Local? then [value] else [target, value]
    case ExprStmt(e) => [e]
    case IfGoto(test, _) => [test]
    case Return(result) => if result.Some? then [result.value] else []
    case Label(_) => []
    case Goto(_) => []
    case Comment(_) => []
  }

  function CountReads(es: seq<Expr>, name: string): nat {
    if es == [] then 0 else Count(Reads(es[0], name)) + CountReads(es[1..], name)
  }

  function CountIncs(es: seq<Expr>, name: string): nat {
    if es == [] then 0 else Count(IncOf(es[0], name)) + CountIncs(es[1..], name)
  }

  /** `occurrences`: the expressions of the statement that read the name... */
  function ReadsIn(s: Stmt, name: string): nat { CountReads(Parts(s), name) }

  /** ...and how often it is written. */
  function WritesIn(s: Stmt, name: string): nat {
    CountIncs(Parts(s), name)
    + (match s
       case LocalDef(n, _, _) => Count(n == name)
       case Assign(target, _) => Count(target.Local? && target.name == name)
       case _ => 0)
  }

  function ReadsUpTo(list: seq<Stmt>, name: string, k: nat): nat
    requires k <= |list|
  {
    if k == 0 then 0 else ReadsUpTo(list, name, k - 1) + ReadsIn(list[k - 1], name)
  }

  function WritesUpTo(list: seq<Stmt>, name: string, k: nat): nat
    requires k <= |list|
  {
    if k == 0 then 0 else WritesUpTo(list, name, k - 1) + WritesIn(list[k - 1], name)
  }

  // ----- substitution ------------------------------------------------------------------------

  function Subst(e: Expr, name: string, value: Expr): Expr {
    match e
    case Const(_, _) => e
    case Local(_, n, _) => if n == name then value else e
    case Bin(op, a, b, ty) => Bin(op, Subst(a, name, value), Subst(b, name, value), ty)
    case Shifted(op, a, b, ty) => Shifted(op, Subst(a, name, value), Subst(b, name, value), ty)
    case Bit(op, a, b, ty) => Bit(op, Subst(a, name, value), Subst(b, name, value), ty)
    case Cmp(c, a, b) => Cmp(c, Subst(a, name, value), Subst(b, name, value))
    case Not(a) => Not(Subst(a, name, value))
    case Neg(a, ty) => Neg(Subst(a, name, value), ty)
    case Ternary(c, a, b, ty) => Ternary(Subst(c, name, value), Subst(a, name, value), Subst(b, name, value), ty)
    case Inc(_, _, _, _, _) => e
  }

  function SubstStmt(s: Stmt, name: string, value: Expr): Stmt {
    match s
    case LocalDef(n, ty, init) => LocalDef(n, ty, Subst(init, name, value))
    case Assign(target, v) => Assign(Subst(target, name, value), Subst(v, name, value))
    case ExprStmt(e) => ExprStmt(Subst(e, name, value))
    case IfGoto(test, id) => IfGoto(Subst(test, name, value), id)
    case Return(result) => Return(if result.Some? then Some(Subst(result.value, name, value)) else None)
    case Label(_) => s
    case Goto(_) => s
    case Comment(_) => s
  }

  /** The names an expression reads. */
  function NamesRead(e: Expr): (r: set<string>)
    ensures forall n :: n in r <==> Reads(e, n)
  {
    match e
    case Const(_, _) => {}
    case Local(_, n, _) => {n}
    case Bin(_, a, b, _) => NamesRead(a) + NamesRead(b)
    case Shifted(_, a, b, _) => NamesRead(a) + NamesRead(b)
    case Bit(_, a, b, _) => NamesRead(a) + NamesRead(b)
    case Cmp(_, a, b) => NamesRead(a) + NamesRead(b)
    case Not(a) => NamesRead(a)
    case Neg(a, _) => NamesRead(a)
    case Ternary(c, a, b, _) => NamesRead(c) + NamesRead(a) + NamesRead(b)
    case Inc(_, n, _, _, _) => {n}
  }

  // ----- the pass ------------------------------------------------------------------------------

  /** The first statement after `i` that reads the name. */
  function FirstRead(list: seq<Stmt>, name: string, i: nat): (r: nat)
    requires i <= |list|
    ensures i <= r <= |list|
    ensures forall k :: i <= k < r ==> ReadsIn(list[k], name) == 0
    ensures r < |list| ==> ReadsIn(list[r], name) > 0
    decreases |list| - i
  {
    if i == |list| || ReadsIn(list[i], name) > 0 then i else FirstRead(list, name, i + 1)
  }

  /** Some statement from `from` to before `to` writes a name the value reads. */
  predicate Blocked(list: seq<Stmt>, value: Expr, from: nat, to: nat)
    requires from <= to <= |list|
  {
    exists k :: from <= k < to && exists n :: n in NamesRead(value) && WritesIn(list[k], n) > 0
  }

  /** The statement at `i` defines a temporary that can be inlined. */
  predicate Candidate(list: seq<Stmt>, names: set<string>, i: nat)
    requires i < |list|
  {
    && list[i].Assign? && list[i].target.Local? && list[i].target.name in names
    && var (name, value) := (list[i].target.name, list[i].value);
    && !HasSideEffects(value)
    && ReadsUpTo(list, name, i + 1) == 0 && ReadsUpTo(list, name, |list|) == 1 && WritesUpTo(list, name, |list|) == 1
    && FirstRead(list, name, i + 1) < |list|
    && !Blocked(list, value, i + 1, FirstRead(list, name, i + 1))
  }

  function SubstFrom(list: seq<Stmt>, name: string, value: Expr, i: nat): (r: seq<Stmt>)
    requires i <= |list|
    ensures |r| == |list| - i && forall k :: 0 <= k < |r| ==> r[k] == SubstStmt(list[i + k], name, value)
    decreases |list| - i
  {
    if i == |list| then [] else [SubstStmt(list[i], name, value)] + SubstFrom(list, name, value, i + 1)
  }

  function Inlined(list: seq<Stmt>, i: nat): (r: seq<Stmt>)
    requires i < |list| && list[i].Assign? && list[i].target.Local?
    ensures |r| == |list| - 1
  {
    list[..i] + SubstFrom(list, list[i].target.name, list[i].value, i + 1)
  }

  /** `try_inline_once`: inlines the first temporary it can. */
  method TryInlineOnce(list: seq<Stmt>, names: set<string>) returns (r: seq<Stmt>, found: Option<nat>)
    ensures found.Some? ==>
      found.value < |list| && Candidate(list, names, found.value) && r == Inlined(list, found.value)
    ensures found.Some? ==> forall k :: 0 <= k < found.value ==> !Candidate(list, names, k)
    ensures found.None? ==> r == list && forall k :: 0 <= k < |list| ==> !Candidate(list, names, k)
  {
    found := None;
    for i := 0 to |list|
      invariant found.None? && forall k :: 0 <= k < i ==> !Candidate(list, names, k)
    {
      if Candidate(list, names, i) {
        found := Some(i);
        break;
      }
    }
    r := list;
    if found.Some? {
      r := Replace(list, found.value);
    }
  }

  /** Substitutes the value in the statements after `i`, then removes the definition. */
  method Replace(list: seq<Stmt>, i: nat) returns (r: seq<Stmt>)
    requires i < |list| && list[i].Assign? && list[i].target.Local?
    ensures r == Inlined(list, i)
  {
    var (name, value) := (list[i].target.name, list[i].value);
    r := list;
    for k := i + 1 to |list|
      invariant |r| == |list| && forall j :: 0 <= j < |list| ==>
        r[j] == if i < j < k then SubstStmt(list[j], name, value) else list[j]
    {
      r := r[k := SubstStmt(r[k], name, value)];
    }
    r := r[..i] + r[i + 1..];
  }

  // ----- what inlining keeps -------------------------------------------------------------------

  /** Both environments agree, except perhaps on the given names. */
  ghost predicate AgreeOff(a: Env, b: Env, off: set<string>) {
    forall n :: n !in off ==> Get(a, n) == Get(b, n)
  }

  ghost predicate ReadsNone(e: Expr, off: set<string>) {
    forall n :: n in off ==> !Reads(e, n)
  }

  lemma {:induction false} EvalAgree(e: Expr, a: Env, b: Env, off: set<string>)
    requires AgreeOff(a, b, off) && ReadsNone(e, off)
    ensures Eval(e, a) == Eval(e, b)
  {
    match e
    case Const(_, _) =>
    case Local(_, n, _) =>
    case Bin(_, x, y, _) => EvalAgree(x, a, b, off); EvalAgree(y, a, b, off);
    case Shifted(_, x, y, _) => EvalAgree(x, a, b, off); EvalAgree(y, a, b, off);
    case Bit(_, x, y, _) => EvalAgree(x, a, b, off); EvalAgree(y, a, b, off);
    case Cmp(_, x, y) => EvalAgree(x, a, b, off); EvalAgree(y, a, b, off);
    case Not(x) => EvalAgree(x, a, b, off);
    case Neg(x, _) => EvalAgree(x, a, b, off);
    case Ternary(c, x, y, _) => EvalAgree(c, a, b, off); EvalAgree(x, a, b, off); EvalAgree(y, a, b, off);
    case Inc(_, _, _, _, _) =>
  }

  /** Evaluating the value in place of the variable that holds it. */
  lemma {:induction false} SubstEval(e: Expr, name: string, value: Expr, a: Env, b: Env, off: set<string>)
    requires off == {name} && AgreeOff(a, b, off) && Eval(value, b) == Some(Get(a, name))
    ensures Eval(Subst(e, name, value), b) == Eval(e, a)
  {
    match e
    case Const(_, _) =>
    case Local(_, n, _) =>
    case Bin(_, x, y, _) => SubstEval(x, name, value, a, b, off); SubstEval(y, name, value, a, b, off);
    case Shifted(_, x, y, _) => SubstEval(x, name, value, a, b, off); SubstEval(y, name, value, a, b, off);
    case Bit(_, x, y, _) => SubstEval(x, name, value, a, b, off); SubstEval(y, name, value, a, b, off);
    case Cmp(_, x, y) => SubstEval(x, name, value, a, b, off); SubstEval(y, name, value, a, b, off);
    case Not(x) => SubstEval(x, name, value, a, b, off);
    case Neg(x, _) => SubstEval(x, name, value, a, b, off);
    case Ternary(c, x, y, _) =>
      SubstEval(c, name, value, a, b, off); SubstEval(x, name, value, a, b, off); SubstEval(y, name, value, a, b, off);
    case Inc(_, _, _, _, _) =>
  }

  lemma {:induction false} SubstUnread(e: Expr, name: string, value: Expr)
    requires !Reads(e, name)
    ensures Subst(e, name, value) == e
  {
    match e
    case Const(_, _) =>
    case Local(_, _, _) =>
    case Bin(_, x, y, _) => SubstUnread(x, name, value); SubstUnread(y, name, value);
    case Shifted(_, x, y, _) => SubstUnread(x, name, value); SubstUnread(y, name, value);
    case Bit(_, x, y, _) => SubstUnread(x, name, value); SubstUnread(y, name, value);
    case Cmp(_, x, y) => SubstUnread(x, name, value); SubstUnread(y, name, value);
    case Not(x) => SubstUnread(x, name, value);
    case Neg(x, _) => SubstUnread(x, name, value);
    case Ternary(c, x, y, _) => SubstUnread(c, name, value); SubstUnread(x, name, value); SubstUnread(y, name, value);
    case Inc(_, _, _, _, _) =>
  }

  /** A statement of a flat list without labels and jumps, assigning to variables. */
  predicate Plain(s: Stmt) {
    match s
    case Assign(target, _) => target.Local?
    case IfGoto(_, _) => false
    case Label(_) => false
    case Goto(_) => false
    case _ => true
  }

  predicate AllPlain(list: seq<Stmt>) {
    forall k :: 0 <= k < |list| ==> Plain(list[k])
  }

  // ----- one statement ---------------------------------------------------------------------------

  ghost predicate PartsReadNone(s: Stmt, name: string) {
    forall k :: 0 <= k < |Parts(s)| ==> !Reads(Parts(s)[k], name)
  }

  lemma {:induction false} CountReadsNone(es: seq<Expr>, name: string)
    ensures CountReads(es, name) == 0 <==> forall k :: 0 <= k < |es| ==> !Reads(es[k], name)
  {
    if es != [] {
      CountReadsNone(es[1..], name);
      if CountReads(es, name) == 0 {
        forall k | 0 <= k < |es|
          ensures !Reads(es[k], name)
        {
          if k > 0 { assert es[1..][k - 1] == es[k]; }
        }
      }
      assert forall k :: 0 <= k < |es| - 1 ==> es[1..][k] == es[k + 1];
    }
  }

  lemma ReadsInNone(s: Stmt, name: string)
    requires ReadsIn(s, name) == 0
    ensures PartsReadNone(s, name)
  {
    CountReadsNone(Parts(s), name);
  }

  /** The variable a statement writes, if any, is one of those `occurrences` counts. */
  lemma WritesOnly(s: Stmt, env: Env, name: string)
    requires Plain(s) && WritesIn(s, name) == 0 && ExecOne(s, env).Normal?
    ensures Get(ExecOne(s, env).env, name) == Get(env, name)
  {
    if s.ExprStmt? && s.expr.Inc? { assert CountIncs([s.expr], name) >= Count(IncOf(s.expr, name)); }
  }

  /** Same outcome, up to the value of `name`. */
  ghost predicate Alike(x: Outcome, y: Outcome, name: string) {
    match x
    case Normal(a) => y.Normal? && AgreeOff(a, y.env, {name})
    case Returned(_) => y == x
    case Threw => y.Threw?
  }

  /** A statement that does not read `name`. */
  lemma UnreadStep(s: Stmt, name: string, a: Env, b: Env)
    requires Plain(s) && PartsReadNone(s, name) && AgreeOff(a, b, {name})
    ensures Alike(ExecOne(s, a), ExecOne(s, b), name)
  {
    forall k | 0 <= k < |Parts(s)|
      ensures Eval(Parts(s)[k], a) == Eval(Parts(s)[k], b)
    {
      EvalAgree(Parts(s)[k], a, b, {name});
    }
    match s
    case LocalDef(_, _, init) => assert Parts(s)[0] == init;
    case Assign(_, value) => assert Parts(s)[0] == value;
    case ExprStmt(e) => assert Parts(s)[0] == e;
    case Return(result) => if result.Some? { assert Parts(s)[0] == result.value; }
    case Comment(_) =>
  }

  lemma UnreadSubst(s: Stmt, name: string, value: Expr)
    requires Plain(s) && PartsReadNone(s, name) && WritesIn(s, name) == 0
    ensures SubstStmt(s, name, value) == s
  {
    forall k | 0 <= k < |Parts(s)|
      ensures Subst(Parts(s)[k], name, value) == Parts(s)[k]
    {
      SubstUnread(Parts(s)[k], name, value);
    }
    match s
    case LocalDef(_, _, init) => assert Parts(s)[0] == init;
    case Assign(_, v) => assert Parts(s)[0] == v;
    case ExprStmt(e) => assert Parts(s)[0] == e;
    case Return(result) => if result.Some? { assert Parts(s)[0] == result.value; }
    case Comment(_) =>
  }

  lemma UseExprStep(e: Expr, name: string, value: Expr, a: Env, b: Env)
    requires WritesIn(ExprStmt(e), name) == 0 && AgreeOff(a, b, {name}) && Eval(value, b) == Some(Get(a, name))
    ensures Alike(ExecOne(ExprStmt(e), a), ExecOne(ExprStmt(Subst(e, name, value)), b), name)
  {
    if e.Inc? {
      assert CountIncs([e], name) >= Count(IncOf(e, name));
      assert Subst(e, name, value) == e && e.name != name;
    } else {
      SubstEval(e, name, value, a, b, {name});
      assert !Subst(e, name, value).Inc?;
    }
  }

  lemma UseStoreStep(n: string, v: Expr, name: string, value: Expr, a: Env, b: Env)
    requires n != name && AgreeOff(a, b, {name}) && Eval(value, b) == Some(Get(a, name))
    ensures Alike(Store(n, Eval(v, a), a), Store(n, Eval(Subst(v, name, value), b), b), name)
  {
    SubstEval(v, name, value, a, b, {name});
  }

  /** The statement that reads `name`, with the value in its place. */
  lemma UseStep(s: Stmt, name: string, value: Expr, a: Env, b: Env)
    requires Plain(s) && WritesIn(s, name) == 0 && AgreeOff(a, b, {name})
    requires Eval(value, b) == Some(Get(a, name))
    ensures Alike(ExecOne(s, a), ExecOne(SubstStmt(s, name, value), b), name)
  {
    match s
    case LocalDef(n, _, init) => UseStoreStep(n, init, name, value, a, b);
    case Assign(target, v) => UseStoreStep(target.name, v, name, value, a, b);
    case ExprStmt(e) => UseExprStep(e, name, value, a, b);
    case Return(result) => if result.Some? { SubstEval(result.value, name, value, a, b, {name}); }
    case Comment(_) =>
  }

  /** A value keeps its value while nothing it reads is written. */
  lemma {:induction false} ValueStays(s: Stmt, value: Expr, b: Env)
    requires Plain(s) && ExecOne(s, b).Normal? && forall n :: n in NamesRead(value) ==> WritesIn(s, n) == 0
    ensures Eval(value, ExecOne(s, b).env) == Eval(value, b)
  {
    var off := set n | n in ExecOne(s, b).env.Keys + b.Keys && Get(ExecOne(s, b).env, n) != Get(b, n);
    forall n | n in off
      ensures !Reads(value, n)
    {
      if Reads(value, n) { WritesOnly(s, b, n); }
    }
    EvalAgree(value, ExecOne(s, b).env, b, off);
  }

  // ----- counting -----------------------------------------------------------------------------------

  lemma {:induction false} ReadsGrow(list: seq<Stmt>, name: string, j: nat, k: nat)
    requires j <= k <= |list|
    ensures ReadsUpTo(list, name, j) <= ReadsUpTo(list, name, k)
    ensures j < k ==> ReadsUpTo(list, name, j) + ReadsIn(list[j], name) <= ReadsUpTo(list, name, k)
    decreases k
  {
    if j < k { ReadsGrow(list, name, j, k - 1); }
  }

  lemma {:induction false} WritesGrow(list: seq<Stmt>, name: string, j: nat, k: nat)
    requires j <= k <= |list|
    ensures WritesUpTo(list, name, j) <= WritesUpTo(list, name, k)
    ensures j < k ==> WritesUpTo(list, name, j) + WritesIn(list[j], name) <= WritesUpTo(list, name, k)
    decreases k
  {
    if j < k { WritesGrow(list, name, j, k - 1); }
  }

  /** A total of one is used up by one statement. */
  lemma OneWrite(list: seq<Stmt>, name: string, i: nat, k: nat)
    requires i < |list| && k < |list| && k != i && WritesIn(list[i], name) >= 1 && WritesUpTo(list, name, |list|) == 1
    ensures WritesIn(list[k], name) == 0
  {
    var lo, hi := if i < k then i else k, if i < k then k else i;
    WritesGrow(list, name, lo, hi);
    WritesGrow(list, name, hi, |list|);
  }

  lemma OneRead(list: seq<Stmt>, name: string, u: nat, k: nat)
    requires u < |list| && k < |list| && k != u && ReadsIn(list[u], name) >= 1 && ReadsUpTo(list, name, |list|) == 1
    ensures ReadsIn(list[k], name) == 0
  {
    var lo, hi := if u < k then u else k, if u < k then k else u;
    ReadsGrow(list, name, lo, hi);
    ReadsGrow(list, name, hi, |list|);
  }

  /** Besides its definition and its use no statement mentions the temporary. */
  lemma OneUse(list: seq<Stmt>, names: set<string>, i: nat, k: nat)
    requires i < |list| && Candidate(list, names, i) && k < |list|
    ensures k != i ==> WritesIn(list[k], list[i].target.name) == 0
    ensures k != FirstRead(list, list[i].target.name, i + 1) ==> ReadsIn(list[k], list[i].target.name) == 0
  {
    var name := list[i].target.name;
    var u := FirstRead(list, name, i + 1);
    if k != i { OneWrite(list, name, i, k); }
    if k != u { OneRead(list, name, u, k); }
  }

  // ----- the whole list -------------------------------------------------------------------------------

  /** What the shorter list has done, against what the list has done: `held` while the
      temporary still has its use ahead, `exact` when exceptions are to agree as well. */
  ghost predicate Follows(x: Outcome, y: Outcome, name: string, value: Expr, held: bool, exact: bool) {
    match x
    case Normal(a) => y.Normal? && AgreeOff(a, y.env, {name}) && (held ==> Eval(value, y.env) == Some(Get(a, name)))
    case Returned(_) => y == x
    case Threw => exact ==> y.Threw?
  }

  /** The first `k` statements of the list, and what became of them. */
  ghost predicate FollowsAt(list: seq<Stmt>, i: nat, env: Env, k: nat)
    requires i < k <= |list| && list[i].Assign? && list[i].target.Local?
  {
    Follows(Exec(list[..k], env), Exec(Inlined(list, i)[..k - 1], env), list[i].target.name, list[i].value,
            k <= FirstRead(list, list[i].target.name, i + 1), !CanThrow(list[i].value))
  }

  lemma ExecNext(list: seq<Stmt>, k: nat, env: Env)
    requires k < |list|
    ensures Exec(list[..k + 1], env) ==
      match Exec(list[..k], env)
      case Normal(env') => ExecOne(list[k], env')
      case other => other
  {
    assert list[..k + 1] == list[..k] + [list[k]];
    ExecAppend(list[..k], list[k], env);
  }

  /** The definition itself. */
  lemma DefinitionFollows(list: seq<Stmt>, names: set<string>, i: nat, env: Env)
    requires i < |list| && Candidate(list, names, i)
    ensures FollowsAt(list, i, env, i + 1)
  {
    var (name, value) := (list[i].target.name, list[i].value);
    assert Inlined(list, i)[..i] == list[..i];
    ExecNext(list, i, env);
    match Exec(list[..i], env)
    case Normal(b) =>
      if !CanThrow(value) { CannotThrow(value, b); }
      if Eval(value, b).Some? {
        var v := Eval(value, b).value;
        OneUse(list, names, i, i);
        ReadsInNone(list[i], name);
        assert Parts(list[i])[0] == value;
        EvalUnread(value, b, name, v);
      }
    case _ =>
  }

  lemma InlineFollows(list: seq<Stmt>, names: set<string>, i: nat, env: Env, k: nat)
    requires i < k <= |list| && AllPlain(list) && Candidate(list, names, i)
    ensures FollowsAt(list, i, env, k)
  {
    DefinitionFollows(list, names, i, env);
    for n := i + 1 to k
      invariant FollowsAt(list, i, env, n)
    {
      StepFollows(list, names, i, env, n);
    }
  }

  lemma StepFollows(list: seq<Stmt>, names: set<string>, i: nat, env: Env, k: nat)
    requires i < k < |list| && AllPlain(list) && Candidate(list, names, i)
    requires Follows(Exec(list[..k], env), Exec(Inlined(list, i)[..k - 1], env), list[i].target.name, list[i].value,
                     k <= FirstRead(list, list[i].target.name, i + 1), !CanThrow(list[i].value))
    ensures Follows(Exec(list[..k + 1], env), Exec(Inlined(list, i)[..k], env), list[i].target.name, list[i].value,
                    k + 1 <= FirstRead(list, list[i].target.name, i + 1), !CanThrow(list[i].value))
  {
    var q := Inlined(list, i);
    ExecNext(list, k, env);
    ExecNext(q, k - 1, env);
    assert q[k - 1] == SubstStmt(list[k], list[i].target.name, list[i].value);
    var x, y := Exec(list[..k], env), Exec(q[..k - 1], env);
    if x.Normal? { NextFollows(list, names, i, k, x.env, y.env); }
  }

  lemma NextFollows(list: seq<Stmt>, names: set<string>, i: nat, k: nat, a: Env, b: Env)
    requires i < k < |list| && AllPlain(list) && Candidate(list, names, i)
    requires AgreeOff(a, b, {list[i].target.name})
    requires k <= FirstRead(list, list[i].target.name, i + 1) ==>
      Eval(list[i].value, b) == Some(Get(a, list[i].target.name))
    ensures Follows(ExecOne(list[k], a), ExecOne(SubstStmt(list[k], list[i].target.name, list[i].value), b),
      list[i].target.name, list[i].value,
                    k + 1 <= FirstRead(list, list[i].target.name, i + 1), !CanThrow(list[i].value))
  {
    var (name, value, s) := (list[i].target.name, list[i].value, list[k]);
    var u := FirstRead(list, name, i + 1);
    OneUse(list, names, i, k);
    if k == u {
      UseStep(s, name, value, a, b);
    } else {
      ReadsInNone(s, name);
      UnreadSubst(s, name, value);
      UnreadStep(s, name, a, b);
      if k < u && ExecOne(s, a).Normal? {
        WritesOnly(s, a, name);
        NotBlocked(list, value, i + 1, u, k);
        ValueStays(s, value, b);
      }
    }
  }

  lemma NotBlocked(list: seq<Stmt>, value: Expr, from: nat, to: nat, k: nat)
    requires from <= k < to <= |list| && !Blocked(list, value, from, to)
    ensures forall n :: n in NamesRead(value) ==> WritesIn(list[k], n) == 0
  {
  }

  /** `q` may stand for `p` where the variables in `off` are not looked at any more: a
      returned value and the final value of every other variable are the same, and if
      `exact` so are exceptions. */
  ghost predicate Preserved(p: seq<Stmt>, q: seq<Stmt>, off: set<string>, exact: bool) {
    forall env :: match Exec(p, env)
                  case Normal(a) => Exec(q, env).Normal? && AgreeOff(a, Exec(q, env).env, off)
                  case Returned(_) => Exec(q, env) == Exec(p, env)
                  case Threw => exact ==> Exec(q, env).Threw?
  }

  lemma InlinePreserves(list: seq<Stmt>, names: set<string>, i: nat)
    requires i < |list| && AllPlain(list) && Candidate(list, names, i)
    ensures Preserved(list, Inlined(list, i), {list[i].target.name}, !CanThrow(list[i].value))
  {
    forall env
      ensures Follows(Exec(list, env), Exec(Inlined(list, i), env), list[i].target.name, list[i].value, false,
        !CanThrow(list[i].value))
    {
      InlineFollows(list, names, i, env, |list|);
      assert list[..|list|] == list && Inlined(list, i)[..|list| - 1] == Inlined(list, i);
    }
  }

  // ----- until nothing is left to inline ----------------------------------------------------------

  lemma PreservedTransitive(p: seq<Stmt>, q: seq<Stmt>, r: seq<Stmt>, off: set<string>, more: set<string>, exact: bool)
    requires Preserved(p, q, off, exact) && Preserved(q, r, more, exact)
    ensures Preserved(p, r, off + more, exact)
  {
    forall env
      ensures match Exec(p, env)
              case Normal(a) => Exec(r, env).Normal? && AgreeOff(a, Exec(r, env).env, off + more)
              case Returned(_) => Exec(r, env) == Exec(p, env)
              case Threw => exact ==> Exec(r, env).Threw?
    {
      assert Exec(q, env) == Exec(q, env);
    }
  }

  /** No expression of the list can throw; an increment on its own is no expression. */
  ghost predicate Calm(list: seq<Stmt>) {
    forall k :: 0 <= k < |list| ==> CalmStmt(list[k])
  }

  predicate CalmStmt(s: Stmt) {
    forall k :: 0 <= k < |Parts(s)| ==> Parts(s)[k].Inc? || !CanThrow(Parts(s)[k])
  }

  lemma {:induction false} SubstCalm(e: Expr, name: string, value: Expr)
    requires !CanThrow(e) && !CanThrow(value)
    ensures !CanThrow(Subst(e, name, value))
  {
    match e
    case Const(_, _) =>
    case Local(_, _, _) =>
    case Bin(_, x, y, _) => SubstCalm(x, name, value); SubstCalm(y, name, value);
    case Shifted(_, x, y, _) => SubstCalm(x, name, value); SubstCalm(y, name, value);
    case Bit(_, x, y, _) => SubstCalm(x, name, value); SubstCalm(y, name, value);
    case Cmp(_, x, y) => SubstCalm(x, name, value); SubstCalm(y, name, value);
    case Not(x) => SubstCalm(x, name, value);
    case Neg(x, _) => SubstCalm(x, name, value);
    case Ternary(c, x, y, _) => SubstCalm(c, name, value); SubstCalm(x, name, value); SubstCalm(y, name, value);
  }

  lemma SubstStmtKeeps(s: Stmt, name: string, value: Expr)
    requires Plain(s) && !(s.Assign? && s.target.name == name)
    ensures Plain(SubstStmt(s, name, value))
    ensures CalmStmt(s) && !CanThrow(value) ==> CalmStmt(SubstStmt(s, name, value))
  {
    if CalmStmt(s) && !CanThrow(value) {
      forall k | 0 <= k < |Parts(s)|
        ensures Subst(Parts(s)[k], name, value).Inc? || !CanThrow(Subst(Parts(s)[k], name, value))
      {
        if !Parts(s)[k].Inc? { SubstCalm(Parts(s)[k], name, value); }
      }
      SubstParts(s, name, value);
    }
  }

  lemma SubstParts(s: Stmt, name: string, value: Expr)
    requires Plain(s) && !(s.Assign? && s.target.name == name)
    ensures |Parts(SubstStmt(s, name, value))| == |Parts(s)|
    ensures forall k :: 0 <= k < |Parts(s)| ==> Parts(SubstStmt(s, name, value))[k] == Subst(Parts(s)[k], name, value)
  {
  }

  /** Inlining keeps the list flat, and free of expressions that throw. */
  lemma InlinedKeeps(list: seq<Stmt>, names: set<string>, i: nat)
    requires i < |list| && AllPlain(list) && Candidate(list, names, i)
    ensures AllPlain(Inlined(list, i)) && (Calm(list) ==> Calm(Inlined(list, i)) && !CanThrow(list[i].value))
  {
    var (name, value, q) := (list[i].target.name, list[i].value, Inlined(list, i));
    assert Parts(list[i])[0] == value;
    assert Calm(list) ==> CalmStmt(list[i]);
    forall k | 0 <= k < |q|
      ensures Plain(q[k]) && (Calm(list) ==> CalmStmt(q[k]))
    {
      if k < i {
        assert q[k] == list[k];
      } else {
        assert q[k] == SubstStmt(list[k + 1], name, value);
        OneUse(list, names, i, k + 1);
        SubstStmtKeeps(list[k + 1], name, value);
      }
    }
  }

  /** `inline_temps`: inlines as long as it can. */
  method InlineTemps(list: seq<Stmt>, names: set<string>) returns (r: seq<Stmt>, inlined: nat, ghost off: set<string>)
    ensures inlined == |list| - |r| && off <= names
    ensures forall k :: 0 <= k < |r| ==> !Candidate(r, names, k)
    ensures AllPlain(list) ==> Preserved(list, r, off, Calm(list))
  {
    r, inlined, off := list, 0, {};
    ghost var exact := Calm(list);
    while true
      invariant inlined == |list| - |r| && off <= names
      invariant AllPlain(list) ==> AllPlain(r) && Preserved(list, r, off, exact) && (exact ==> Calm(r))
      decreases |r|
    {
      var shorter, found := TryInlineOnce(r, names);
      if found.None? { return; }
      if AllPlain(list) {
        InlinedKeeps(r, names, found.value);
        InlinePreserves(r, names, found.value);
        Weaken(r, shorter, {r[found.value].target.name}, !CanThrow(r[found.value].value), exact);
        PreservedTransitive(list, r, shorter, off, {r[found.value].target.name}, exact);
      }
      off := off + {r[found.value].target.name};
      r, inlined := shorter, inlined + 1;
    }
  }

  lemma Weaken(p: seq<Stmt>, q: seq<Stmt>, off: set<string>, exact: bool, less: bool)
    requires Preserved(p, q, off, exact) && (less ==> exact)
    ensures Preserved(p, q, off, less)
  {
  }
}
