/** Programs of statements, labels and jumps, and the pass that drops labels nothing jumps
    to and jumps to the next statement. */
module Labels {
  import opened Results
  import opened Ir

  // ----- running a flat program ---------------------------------------------------------

  datatype State =
    | At(pc: nat, env: Env)
    | FellOff(env: Env)
    | Gave(value: Option<int>)
    | Raised
    | NoLabel

  /** The position of the label. */
  function LabelAt(prog: seq<Stmt>, id: nat): (r: Option<nat>)
    ensures r.Some? ==> r.value < |prog| && prog[r.value] == Label(id)
    ensures r.None? ==> forall i :: 0 <= i < |prog| ==> prog[i] != Label(id)
  {
    if prog == [] then None
    else
      var n := |prog| - 1;
      if prog[n] == Label(id) then Some(n) else LabelAt(prog[..n], id)
  }

  function JumpTo(prog: seq<Stmt>, id: nat, env: Env): State {
    match LabelAt(prog, id)
    case Some(pc) => At(pc, env)
    case None => NoLabel
  }

  function Step(prog: seq<Stmt>, s: State): State {
    match s
    case At(pc, env) =>
      if pc >= |prog| then FellOff(env)
      else (match prog[pc]
            case Goto(id) => JumpTo(prog, id, env)
            case IfGoto(test, id) =>
              (match Eval(test, env)
               case Some(v) => if v != 0 then JumpTo(prog, id, env) else At(pc + 1, env)
               case None => Raised)
            case other =>
              (match ExecOne(other, env)
               case Normal(env') => At(pc + 1, env')
               case Returned(value) => Gave(value)
               case Threw => Raised))
    case other => other
  }

  function Run(prog: seq<Stmt>, s: State, n: nat): State {
    if n == 0 then s else Step(prog, Run(prog, s, n - 1))
  }

  /** The program, started on `env`, ends with `s`. */
  ghost predicate Yields(prog: seq<Stmt>, env: Env, s: State) {
    !s.At? && exists n: nat :: Run(prog, At(0, env), n) == s
  }

  /** Both programs end alike, or neither ends. */
  ghost predicate Equivalent(p: seq<Stmt>, q: seq<Stmt>) {
    forall env, s :: Yields(p, env, s) <==> Yields(q, env, s)
  }

  // ----- removing one statement -----------------------------------------------------------

  function RemoveAt(p: seq<Stmt>, i: nat): (q: seq<Stmt>)
    requires i < |p|
    ensures |q| == |p| - 1
    ensures forall k :: 0 <= k < |q| ==> q[k] == p[if k < i then k else k + 1]
  {
    p[..i] + p[i + 1..]
  }

  predicate Jumps(s: Stmt, id: nat) {
    (s.Goto? && s.id == id) || (s.IfGoto? && s.id == id)
  }

  ghost predicate Targeted(p: seq<Stmt>, id: nat) {
    exists i :: 0 <= i < |p| && Jumps(p[i], id)
  }

  ghost predicate UniqueLabels(p: seq<Stmt>) {
    forall i, j :: 0 <= i < j < |p| && p[i].Label? ==> p[i] != p[j]
  }

  /** The statement at `i` does nothing: a label nothing jumps to, or a jump to the label
      right after it. */
  ghost predicate Idle(p: seq<Stmt>, i: nat) {
    i < |p| && ((p[i].Label? && !Targeted(p, p[i].id))
                || (p[i].Goto? && i + 1 < |p| && p[i + 1] == Label(p[i].id)))
  }

  /** Where a position of `p` is found once the statement at `i` is gone. */
  function Moved(i: nat, pc: nat): nat { if pc <= i then pc else pc - 1 }

  ghost predicate Corresponds(i: nat, s: State, t: State) {
    match s
    case At(pc, env) => t == At(Moved(i, pc), env)
    case other => t == s
  }

  lemma UniqueAt(p: seq<Stmt>, i: nat, id: nat)
    requires UniqueLabels(p) && i < |p| && p[i] == Label(id)
    ensures LabelAt(p, id) == Some(i)
  {
    var r := LabelAt(p, id);
    assert p[r.value] == Label(id);
  }

  lemma RemovalKeepsUnique(p: seq<Stmt>, i: nat)
    requires UniqueLabels(p) && i < |p|
    ensures UniqueLabels(RemoveAt(p, i))
  {
  }

  /** A label that is jumped to moves with its position. */
  lemma LabelMoves(p: seq<Stmt>, i: nat, id: nat)
    requires UniqueLabels(p) && i < |p| && p[i] != Label(id)
    ensures LabelAt(RemoveAt(p, i), id) == match LabelAt(p, id) case Some(k) => Some(Moved(i, k)) case None => None
  {
    var q := RemoveAt(p, i);
    RemovalKeepsUnique(p, i);
    match LabelAt(p, id)
    case Some(k) =>
      assert q[Moved(i, k)] == p[k];
      UniqueAt(q, Moved(i, k), id);
    case None =>
      forall k | 0 <= k < |q|
        ensures q[k] != Label(id)
      {
        assert q[k] == p[if k < i then k else k + 1];
      }
  }

  /** At the idle statement the shorter program waits for one step. */
  lemma WaitStep(p: seq<Stmt>, i: nat, env: Env)
    requires UniqueLabels(p) && Idle(p, i)
    ensures Step(p, At(i, env)) == At(i + 1, env)
  {
    if p[i].Goto? { UniqueAt(p, i + 1, p[i].id); }
  }

  /** A jump goes to the place its label has moved to. */
  lemma JumpMoves(p: seq<Stmt>, i: nat, k: nat, env: Env)
    requires UniqueLabels(p) && Idle(p, i) && k < |p| && k != i && (p[k].Goto? || p[k].IfGoto?)
    ensures Corresponds(i, JumpTo(p, p[k].id, env), JumpTo(RemoveAt(p, i), p[k].id, env))
  {
    assert Jumps(p[k], p[k].id);
    assert p[i] != Label(p[k].id);
    LabelMoves(p, i, p[k].id);
  }

  /** Everywhere else both programs step together. */
  lemma RealStep(p: seq<Stmt>, i: nat, s: State, t: State)
    requires UniqueLabels(p) && Idle(p, i) && Corresponds(i, s, t) && !(s.At? && s.pc == i)
    ensures Corresponds(i, Step(p, s), Step(RemoveAt(p, i), t))
  {
    if s.At? && s.pc < |p| {
      assert RemoveAt(p, i)[Moved(i, s.pc)] == p[s.pc];
      if p[s.pc].Goto? || p[s.pc].IfGoto? { JumpMoves(p, i, s.pc, s.env); }
    }
  }

  lemma RunMore(p: seq<Stmt>, s: State, n: nat)
    ensures Run(p, s, n + 1) == Step(p, Run(p, s, n))
  {
  }

  /** One step of the longer program is one of the shorter, or none at the idle statement. */
  lemma OneOrNone(p: seq<Stmt>, i: nat, s: State, t: State) returns (waits: bool)
    requires UniqueLabels(p) && Idle(p, i) && Corresponds(i, s, t)
    ensures Corresponds(i, Step(p, s), if waits then t else Step(RemoveAt(p, i), t))
  {
    waits := s.At? && s.pc == i;
    if waits { WaitStep(p, i, s.env); } else { RealStep(p, i, s, t); }
  }

  lemma ShorterStep(p: seq<Stmt>, i: nat, start: State, n: nat, m: nat) returns (m': nat)
    requires UniqueLabels(p) && Idle(p, i) && Corresponds(i, Run(p, start, n), Run(RemoveAt(p, i), start, m))
    ensures Corresponds(i, Run(p, start, n + 1), Run(RemoveAt(p, i), start, m'))
  {
    RunMore(p, start, n);
    RunMore(RemoveAt(p, i), start, m);
    var waits := OneOrNone(p, i, Run(p, start, n), Run(RemoveAt(p, i), start, m));
    m' := if waits then m else m + 1;
  }

  lemma ShorterFollows(p: seq<Stmt>, i: nat, start: State, n: nat) returns (m: nat)
    requires UniqueLabels(p) && Idle(p, i) && start.At? && start.pc == 0
    ensures Corresponds(i, Run(p, start, n), Run(RemoveAt(p, i), start, m))
  {
    m := 0;
    for k := 0 to n
      invariant Corresponds(i, Run(p, start, k), Run(RemoveAt(p, i), start, m))
    {
      m := ShorterStep(p, i, start, k, m);
    }
  }

  /** One step of the shorter program is one or two of the longer. */
  lemma PastIdle(p: seq<Stmt>, i: nat, s: State, t: State) returns (waited: bool)
    requires UniqueLabels(p) && Idle(p, i) && Corresponds(i, s, t)
    ensures Corresponds(i, if waited then Step(p, Step(p, s)) else Step(p, s), Step(RemoveAt(p, i), t))
  {
    waited := s.At? && s.pc == i;
    if waited {
      WaitStep(p, i, s.env);
      RealStep(p, i, At(i + 1, s.env), t);
    } else {
      RealStep(p, i, s, t);
    }
  }

  lemma RunTwice(p: seq<Stmt>, start: State, n: nat, waited: bool) returns (n': nat)
    ensures var s := Run(p, start, n);
      Run(p, start, n') == if waited then Step(p, Step(p, s)) else Step(p, s)
  {
    n' := n + 1;
    RunMore(p, start, n);
    if waited {
      RunMore(p, start, n');
      n' := n' + 1;
    }
  }

  lemma LongerStep(p: seq<Stmt>, i: nat, start: State, m: nat, n: nat) returns (n': nat)
    requires UniqueLabels(p) && Idle(p, i) && Corresponds(i, Run(p, start, n), Run(RemoveAt(p, i), start, m))
    ensures Corresponds(i, Run(p, start, n'), Run(RemoveAt(p, i), start, m + 1))
  {
    RunMore(RemoveAt(p, i), start, m);
    var waited := PastIdle(p, i, Run(p, start, n), Run(RemoveAt(p, i), start, m));
    n' := RunTwice(p, start, n, waited);
  }

  lemma LongerFollows(p: seq<Stmt>, i: nat, start: State, m: nat) returns (n: nat)
    requires UniqueLabels(p) && Idle(p, i) && start.At? && start.pc == 0
    ensures Corresponds(i, Run(p, start, n), Run(RemoveAt(p, i), start, m))
  {
    n := 0;
    for k := 0 to m
      invariant Corresponds(i, Run(p, start, n), Run(RemoveAt(p, i), start, k))
    {
      n := LongerStep(p, i, start, k, n);
    }
  }

  /** Removing an idle statement changes nothing about how the program ends. */
  lemma RemovalEquivalent(p: seq<Stmt>, i: nat)
    requires UniqueLabels(p) && Idle(p, i)
    ensures Equivalent(p, RemoveAt(p, i))
  {
    forall env, s
      ensures Yields(p, env, s) <==> Yields(RemoveAt(p, i), env, s)
    {
      if Yields(p, env, s) {
        var n: nat :| Run(p, At(0, env), n) == s;
        var m := ShorterFollows(p, i, At(0, env), n);
      }
      if Yields(RemoveAt(p, i), env, s) {
        var m: nat :| Run(RemoveAt(p, i), At(0, env), m) == s;
        var n := LongerFollows(p, i, At(0, env), m);
      }
    }
  }

  lemma EquivalentTransitive(p: seq<Stmt>, q: seq<Stmt>, r: seq<Stmt>)
    requires Equivalent(p, q) && Equivalent(q, r)
    ensures Equivalent(p, r)
  {
    forall env, s
      ensures Yields(p, env, s) <==> Yields(r, env, s)
    {
      assert Yields(p, env, s) <==> Yields(q, env, s);
    }
  }

  // ----- the pass -----------------------------------------------------------------------------

  /** `label_targets` */
  function TargetsOf(p: seq<Stmt>): (r: set<nat>)
    ensures forall id :: id in r <==> Targeted(p, id)
  {
    set i | 0 <= i < |p| && (p[i].Goto? || p[i].IfGoto?) :: p[i].id
  }

  predicate Dead(s: Stmt, used: set<nat>) { s.Label? && s.id !in used }

  /** The first `k` statements without the labels nothing jumps to. */
  function DropDead(p: seq<Stmt>, used: set<nat>, k: nat): (r: seq<Stmt>)
    requires k <= |p|
    ensures |r| <= k
  {
    if k == 0 then [] else DropDead(p, used, k - 1) + if Dead(p[k - 1], used) then [] else [p[k - 1]]
  }

  predicate FallsThrough(p: seq<Stmt>, i: nat) {
    i + 1 < |p| && p[i].Goto? && p[i + 1] == Label(p[i].id)
  }

  /** The first `k` statements without the jumps to the next statement. */
  function DropJumps(p: seq<Stmt>, k: nat): (r: seq<Stmt>)
    requires k <= |p|
    ensures |r| <= k
  {
    if k == 0 then [] else DropJumps(p, k - 1) + if FallsThrough(p, k - 1) then [] else [p[k - 1]]
  }

  function Round(p: seq<Stmt>): seq<Stmt> {
    var q := DropDead(p, TargetsOf(p), |p|);
    DropJumps(q, |q|)
  }

  /** At most `n` rounds, until one changes nothing. */
  function Elide(p: seq<Stmt>, n: nat): seq<Stmt>
    decreases n
  {
    if n == 0 || Round(p) == p then p else Elide(Round(p), n - 1)
  }

  /** The list while the statement at `|done|` of it, the `k`-th of `p`, is looked at. */
  ghost predicate Looking(list: seq<Stmt>, done: seq<Stmt>, p: seq<Stmt>, k: nat) {
    k <= |p| && list == done + p[k..]
  }

  /** `list.remove(i)` */
  lemma RemoveNext(list: seq<Stmt>, done: seq<Stmt>, p: seq<Stmt>, k: nat)
    requires Looking(list, done, p, k) && |done| < |list|
    ensures k < |p| && list[|done|] == p[k] && Looking(RemoveAt(list, |done|), done, p, k + 1)
  {
  }

  lemma KeepNext(list: seq<Stmt>, done: seq<Stmt>, p: seq<Stmt>, k: nat)
    requires Looking(list, done, p, k) && |done| < |list|
    ensures k < |p| && list[|done|] == p[k] && Looking(list, done + [p[k]], p, k + 1)
  {
  }

  lemma DropDeadMore(p: seq<Stmt>, used: set<nat>, k: nat)
    requires k < |p|
    ensures DropDead(p, used, k + 1) == if Dead(p[k], used) then DropDead(p, used, k) else DropDead(p, used, k) + [p[k]]
  {
  }

  ghost predicate DeadScan(list: seq<Stmt>, i: nat, p: seq<Stmt>, used: set<nat>, k: nat) {
    k <= |p| && Looking(list, DropDead(p, used, k), p, k) && i == |DropDead(p, used, k)|
  }

  lemma DeadScanNext(list: seq<Stmt>, i: nat, p: seq<Stmt>, used: set<nat>, k: nat)
    requires DeadScan(list, i, p, used, k) && i < |list|
    ensures k < |p| && list[i] == p[k]
    ensures Dead(p[k], used) ==> DeadScan(RemoveAt(list, i), i, p, used, k + 1)
    ensures !Dead(p[k], used) ==> DeadScan(list, i + 1, p, used, k + 1)
  {
    RemoveNext(list, DropDead(p, used, k), p, k);
    KeepNext(list, DropDead(p, used, k), p, k);
    DropDeadMore(p, used, k);
  }

  /** `drop_dead_labels` */
  method DropDeadLabels(p: seq<Stmt>, used: set<nat>) returns (list: seq<Stmt>, removed: nat)
    ensures list == DropDead(p, used, |p|) && removed == |p| - |list|
  {
    list, removed := p, 0;
    var i: nat := 0;
    ghost var k := 0;
    while i < |list|
      invariant DeadScan(list, i, p, used, k) && removed == |p| - |list|
      decreases |p| - k
    {
      DeadScanNext(list, i, p, used, k);
      if Dead(list[i], used) {
        list := RemoveAt(list, i);
        removed := removed + 1;
      } else {
        i := i + 1;
      }
      k := k + 1;
    }
    assert p[k..] == [];
  }

  lemma LookAhead(list: seq<Stmt>, done: seq<Stmt>, p: seq<Stmt>, k: nat)
    requires Looking(list, done, p, k) && |done| + 1 < |list|
    ensures FallsThrough(list, |done|) <==> FallsThrough(p, k)
  {
    assert list[|done|] == p[k] && list[|done| + 1] == p[k + 1];
  }

  lemma DropJumpsMore(p: seq<Stmt>, k: nat)
    requires k < |p|
    ensures DropJumps(p, k + 1) == if FallsThrough(p, k) then DropJumps(p, k) else DropJumps(p, k) + [p[k]]
  {
  }

  ghost predicate JumpScan(list: seq<Stmt>, i: nat, p: seq<Stmt>, k: nat) {
    k <= |p| && Looking(list, DropJumps(p, k), p, k) && i == |DropJumps(p, k)|
  }

  lemma JumpScanNext(list: seq<Stmt>, i: nat, p: seq<Stmt>, k: nat)
    requires JumpScan(list, i, p, k) && i + 1 < |list|
    ensures k < |p| && (FallsThrough(p, k) <==> FallsThrough(list, i))
    ensures FallsThrough(p, k) ==> JumpScan(RemoveAt(list, i), i, p, k + 1)
    ensures !FallsThrough(p, k) ==> JumpScan(list, i + 1, p, k + 1)
  {
    RemoveNext(list, DropJumps(p, k), p, k);
    KeepNext(list, DropJumps(p, k), p, k);
    LookAhead(list, DropJumps(p, k), p, k);
    DropJumpsMore(p, k);
  }

  /** `drop_fallthrough_gotos` */
  method DropFallthroughGotos(p: seq<Stmt>) returns (list: seq<Stmt>, removed: nat)
    ensures list == DropJumps(p, |p|) && removed == |p| - |list|
  {
    list, removed := p, 0;
    var i: nat := 0;
    ghost var k := 0;
    while i + 1 < |list|
      invariant JumpScan(list, i, p, k) && removed == |p| - |list|
      decreases |p| - k
    {
      JumpScanNext(list, i, p, k);
      if FallsThrough(list, i) {
        list := RemoveAt(list, i);
        removed := removed + 1;
      } else {
        i := i + 1;
      }
      k := k + 1;
    }
    LastKept(list, DropJumps(p, k), p, k);
  }

  lemma LastKept(list: seq<Stmt>, done: seq<Stmt>, p: seq<Stmt>, k: nat)
    requires Looking(list, done, p, k) && done == DropJumps(p, k) && |done| + 1 >= |list|
    ensures list == DropJumps(p, |p|)
  {
    if k < |p| {
      assert |p| == k + 1 && p[k..] == [p[k]];
    } else {
      assert p[k..] == [];
    }
  }

  // ----- how many labels and plain jumps there are ------------------------------------------------

  /** The number of plain jumps. */
  function Gotos(p: seq<Stmt>): nat {
    if p == [] then 0
    else
      var n := |p| - 1;
      Gotos(p[..n]) + if p[n].Goto? then 1 else 0
  }

  lemma GotosAppend(p: seq<Stmt>, s: Stmt)
    ensures Gotos(p + [s]) == Gotos(p) + if s.Goto? then 1 else 0
  {
    assert (p + [s])[..|p|] == p;
  }

  lemma GotosUpTo(p: seq<Stmt>, k: nat)
    requires k < |p|
    ensures Gotos(p[..k + 1]) == Gotos(p[..k]) + if p[k].Goto? then 1 else 0
  {
    assert p[..k + 1] == p[..k] + [p[k]];
    GotosAppend(p[..k], p[k]);
  }

  /** Dropping labels loses no jump... */
  lemma DeadGotos(p: seq<Stmt>, used: set<nat>)
    ensures Gotos(DropDead(p, used, |p|)) == Gotos(p)
  {
    for k := 0 to |p|
      invariant Gotos(DropDead(p, used, k)) == Gotos(p[..k])
    {
      DropDeadMore(p, used, k);
      GotosUpTo(p, k);
      GotosAppend(DropDead(p, used, k), p[k]);
    }
    assert p[..|p|] == p;
  }

  /** ...and dropping jumps loses exactly those dropped. */
  lemma JumpGotos(p: seq<Stmt>)
    ensures Gotos(DropJumps(p, |p|)) + |p| == Gotos(p) + |DropJumps(p, |p|)|
  {
    for k := 0 to |p|
      invariant Gotos(DropJumps(p, k)) + k == Gotos(p[..k]) + |DropJumps(p, k)|
    {
      DropJumpsMore(p, k);
      GotosUpTo(p, k);
      GotosAppend(DropJumps(p, k), p[k]);
    }
    assert p[..|p|] == p;
  }

  /** The number of labels. */
  function LabelsIn(p: seq<Stmt>): nat {
    if p == [] then 0
    else
      var n := |p| - 1;
      LabelsIn(p[..n]) + if p[n].Label? then 1 else 0
  }

  lemma LabelsAppend(p: seq<Stmt>, s: Stmt)
    ensures LabelsIn(p + [s]) == LabelsIn(p) + if s.Label? then 1 else 0
  {
    assert (p + [s])[..|p|] == p;
  }

  lemma LabelsUpTo(p: seq<Stmt>, k: nat)
    requires k < |p|
    ensures LabelsIn(p[..k + 1]) == LabelsIn(p[..k]) + if p[k].Label? then 1 else 0
  {
    assert p[..k + 1] == p[..k] + [p[k]];
    LabelsAppend(p[..k], p[k]);
  }

  /** Dropping labels loses exactly those dropped... */
  lemma DeadLabels(p: seq<Stmt>, used: set<nat>)
    ensures LabelsIn(DropDead(p, used, |p|)) + |p| == LabelsIn(p) + |DropDead(p, used, |p|)|
  {
    for k := 0 to |p|
      invariant LabelsIn(DropDead(p, used, k)) + k == LabelsIn(p[..k]) + |DropDead(p, used, k)|
    {
      DropDeadMore(p, used, k);
      LabelsUpTo(p, k);
      LabelsAppend(DropDead(p, used, k), p[k]);
    }
    assert p[..|p|] == p;
  }

  /** ...and dropping jumps loses no label. */
  lemma {:induction false} JumpLabels(p: seq<Stmt>, k: nat)
    requires k <= |p|
    ensures LabelsIn(DropJumps(p, k)) == LabelsIn(p[..k])
  {
    if k == 0 {
      assert p[..k] == [];
    } else {
      JumpLabels(p, k - 1);
      LabelsUpTo(p, k - 1);
      JumpsKeepLabels(p, DropJumps(p, k - 1), k - 1);
    }
  }

  lemma JumpsKeepLabels(p: seq<Stmt>, done: seq<Stmt>, k: nat)
    requires k < |p| && done == DropJumps(p, k)
    ensures LabelsIn(DropJumps(p, k + 1)) == LabelsIn(done) + if p[k].Label? then 1 else 0
  {
    DropJumpsMore(p, k);
    LabelsAppend(done, p[k]);
  }

  /** What goes in the two halves of a round. */
  lemma RoundCounts(p: seq<Stmt>, used: set<nat>, q: seq<Stmt>)
    requires q == DropDead(p, used, |p|)
    ensures var r := DropJumps(q, |q|);
      && LabelsIn(p) - LabelsIn(r) == |p| - |q| && Gotos(p) - Gotos(r) == |q| - |r|
  {
    DeadLabels(p, used);
    DeadGotos(p, used);
    JumpLabels(q, |q|);
    assert q[..|q|] == q;
    JumpGotos(q);
  }

  /** `elide_dead_labels`: the shorter program, and how many labels and how many plain jumps went. */
  method ElideDeadLabels(p: seq<Stmt>) returns (list: seq<Stmt>, labels: nat, gotos: nat)
    ensures list == Elide(p, 16) && labels + gotos == |p| - |list|
    ensures labels == LabelsIn(p) - LabelsIn(list) && gotos == Gotos(p) - Gotos(list)
  {
    list, labels, gotos := p, 0, 0;
    var rounds: nat := 16;
    while rounds > 0
      invariant Elide(list, rounds) == Elide(p, 16) && labels + gotos == |p| - |list|
      invariant labels == LabelsIn(p) - LabelsIn(list) && gotos == Gotos(p) - Gotos(list)
    {
      var used := TargetsOf(list);
      var once, l := DropDeadLabels(list, used);
      var twice, g := DropFallthroughGotos(once);
      RoundCounts(list, used, once);
      labels, gotos := labels + l, gotos + g;
      assert twice == Round(list) && (l + g == 0 <==> twice == list) by { RoundShrinks(list); }
      list := twice;
      if l == 0 && g == 0 { break; }
      rounds := rounds - 1;
    }
  }

  lemma {:induction false} DeadOrSame(p: seq<Stmt>, used: set<nat>, k: nat)
    requires k <= |p|
    ensures |DropDead(p, used, k)| == k ==>
      DropDead(p, used, k) == p[..k] && forall i :: 0 <= i < k ==> !Dead(p[i], used)
  {
    if k > 0 { DeadOrSame(p, used, k - 1); }
  }

  lemma {:induction false} JumpsOrSame(p: seq<Stmt>, k: nat)
    requires k <= |p|
    ensures |DropJumps(p, k)| == k ==> DropJumps(p, k) == p[..k] && forall i :: 0 <= i < k ==> !FallsThrough(p, i)
  {
    if k > 0 { JumpsOrSame(p, k - 1); }
  }

  /** A round that removes nothing changes nothing, and then there is nothing left to drop. */
  lemma RoundShrinks(p: seq<Stmt>)
    ensures |Round(p)| <= |p|
    ensures |Round(p)| == |p| ==> Round(p) == p && DropDead(p, TargetsOf(p), |p|) == p
    ensures Round(p) == p ==> forall i :: 0 <= i < |p| ==> !Idle(p, i)
  {
    var used := TargetsOf(p);
    var q := DropDead(p, used, |p|);
    DeadOrSame(p, used, |p|);
    JumpsOrSame(q, |q|);
    assert p[..|p|] == p && q[..|q|] == q;
    if Round(p) == p {
      forall i | 0 <= i < |p|
        ensures !Idle(p, i)
      {
        assert !Dead(p[i], used) && !FallsThrough(p, i);
      }
    }
  }

  // ----- what the pass keeps ----------------------------------------------------------------------

  /** Every jump has its label. */
  ghost predicate Closed(p: seq<Stmt>) {
    forall id :: Targeted(p, id) ==> exists i :: 0 <= i < |p| && p[i] == Label(id)
  }

  /** `q` may stand for `p`. */
  ghost predicate Kept(p: seq<Stmt>, q: seq<Stmt>) {
    && Equivalent(p, q) && UniqueLabels(q)
    && (Closed(p) ==> Closed(q))
    && forall id :: Targeted(q, id) ==> Targeted(p, id)
  }

  lemma RemovalTargets(p: seq<Stmt>, i: nat, id: nat)
    requires i < |p| && Targeted(RemoveAt(p, i), id)
    ensures Targeted(p, id)
  {
    var k :| 0 <= k < |p| - 1 && Jumps(RemoveAt(p, i)[k], id);
    assert Jumps(p[if k < i then k else k + 1], id);
  }

  lemma RemovalKept(p: seq<Stmt>, i: nat)
    requires UniqueLabels(p) && Idle(p, i)
    ensures Kept(p, RemoveAt(p, i))
  {
    var q := RemoveAt(p, i);
    RemovalEquivalent(p, i);
    RemovalKeepsUnique(p, i);
    forall id | Targeted(q, id)
      ensures Targeted(p, id)
    {
      RemovalTargets(p, i, id);
    }
    if Closed(p) {
      forall id | Targeted(q, id)
        ensures exists k :: 0 <= k < |q| && q[k] == Label(id)
      {
        var k :| 0 <= k < |p| && p[k] == Label(id);
        assert k != i;
        assert q[if k < i then k else k - 1] == Label(id);
      }
    }
  }

  lemma KeptTransitive(p: seq<Stmt>, q: seq<Stmt>, r: seq<Stmt>)
    requires Kept(p, q) && Kept(q, r)
    ensures Kept(p, r)
  {
    EquivalentTransitive(p, q, r);
  }

  lemma AllLooked(list: seq<Stmt>, done: seq<Stmt>, p: seq<Stmt>)
    requires Looking(list, done, p, |p|)
    ensures list == done
  {
  }

  lemma DeadRemovalKept(p: seq<Stmt>, used: set<nat>, list: seq<Stmt>, i: nat)
    requires used == TargetsOf(p) && Kept(p, list) && i < |list| && Dead(list[i], used)
    ensures Kept(p, RemoveAt(list, i))
  {
    assert !Targeted(p, list[i].id);
    RemovalKept(list, i);
    KeptTransitive(p, list, RemoveAt(list, i));
  }

  lemma SameKept(p: seq<Stmt>)
    requires UniqueLabels(p)
    ensures Kept(p, p) && Looking(p, [], p, 0)
  {
  }

  lemma DeadTurn(p: seq<Stmt>, used: set<nat>, list: seq<Stmt>, done: seq<Stmt>, k: nat)
      returns (list': seq<Stmt>, done': seq<Stmt>)
    requires used == TargetsOf(p) && Kept(p, list) && Looking(list, done, p, k) && k < |p|
    ensures Kept(p, list') && Looking(list', done', p, k + 1) && done' == done + if Dead(p[k], used) then [] else [p[k]]
  {
    RemoveNext(list, done, p, k);
    KeepNext(list, done, p, k);
    if Dead(p[k], used) {
      DeadRemovalKept(p, used, list, |done|);
      list', done' := RemoveAt(list, |done|), done;
      assert done + [] == done;
    } else {
      list', done' := list, done + [p[k]];
    }
  }

  lemma DeadKept(p: seq<Stmt>, used: set<nat>)
    requires UniqueLabels(p) && used == TargetsOf(p)
    ensures Kept(p, DropDead(p, used, |p|))
  {
    var list, done: seq<Stmt> := p, [];
    SameKept(p);
    for k := 0 to |p|
      invariant Kept(p, list) && Looking(list, done, p, k) && done == DropDead(p, used, k)
    {
      list, done := DeadTurn(p, used, list, done, k);
    }
    AllLooked(list, done, p);
  }

  lemma JumpRemovalKept(p: seq<Stmt>, list: seq<Stmt>, i: nat)
    requires Kept(p, list) && FallsThrough(list, i)
    ensures Kept(p, RemoveAt(list, i))
  {
    RemovalKept(list, i);
    KeptTransitive(p, list, RemoveAt(list, i));
  }

  lemma JumpTurn(p: seq<Stmt>, list: seq<Stmt>, done: seq<Stmt>, k: nat) returns (list': seq<Stmt>, done': seq<Stmt>)
    requires Kept(p, list) && Looking(list, done, p, k) && k < |p|
    ensures Kept(p, list') && Looking(list', done', p, k + 1)
      && done' == done + if FallsThrough(p, k) then [] else [p[k]]
  {
    RemoveNext(list, done, p, k);
    KeepNext(list, done, p, k);
    if FallsThrough(p, k) {
      LookAhead(list, done, p, k);
      JumpRemovalKept(p, list, |done|);
      list', done' := RemoveAt(list, |done|), done;
      assert done + [] == done;
    } else {
      list', done' := list, done + [p[k]];
    }
  }

  lemma JumpsKept(p: seq<Stmt>)
    requires UniqueLabels(p)
    ensures Kept(p, DropJumps(p, |p|))
  {
    var list, done: seq<Stmt> := p, [];
    SameKept(p);
    for k := 0 to |p|
      invariant Kept(p, list) && Looking(list, done, p, k) && done == DropJumps(p, k)
    {
      list, done := JumpTurn(p, list, done, k);
    }
    AllLooked(list, done, p);
  }

  lemma RoundKept(p: seq<Stmt>)
    requires UniqueLabels(p)
    ensures Kept(p, Round(p))
  {
    var q := DropDead(p, TargetsOf(p), |p|);
    DeadKept(p, TargetsOf(p));
    JumpsKept(q);
    KeptTransitive(p, q, Round(p));
  }

  /** The pass keeps how every run ends, and that every jump has its label. */
  lemma {:induction false} ElideKeeps(p: seq<Stmt>, n: nat)
    requires UniqueLabels(p)
    ensures Kept(p, Elide(p, n))
    decreases n
  {
    if n > 0 && Round(p) != p {
      RoundKept(p);
      ElideKeeps(Round(p), n - 1);
      KeptTransitive(p, Round(p), Elide(p, n));
    }
  }

  // ----- how many rounds are enough -------------------------------------------------------------------

  /** What is left of the first `k` statements is no dead label, and all their jumps are left. */
  ghost predicate Swept(p: seq<Stmt>, used: set<nat>, k: nat)
    requires k <= |p|
  {
    && (forall i :: 0 <= i < |DropDead(p, used, k)| ==> !Dead(DropDead(p, used, k)[i], used))
    && forall id :: Targeted(DropDead(p, used, k), id) <==> Targeted(p[..k], id)
  }

  lemma TargetedAppend(p: seq<Stmt>, s: Stmt, id: nat)
    ensures Targeted(p + [s], id) <==> Targeted(p, id) || Jumps(s, id)
  {
    if Targeted(p, id) {
      var i :| 0 <= i < |p| && Jumps(p[i], id);
      assert Jumps((p + [s])[i], id);
    }
    if Jumps(s, id) { assert Jumps((p + [s])[|p|], id); }
  }

  lemma SweptNext(p: seq<Stmt>, used: set<nat>, k: nat)
    requires k < |p| && Swept(p, used, k)
    ensures Swept(p, used, k + 1)
  {
    var r, r', first := DropDead(p, used, k), DropDead(p, used, k + 1), p[..k + 1];
    DropDeadMore(p, used, k);
    assert first == p[..k] + [p[k]];
    forall id
      ensures Targeted(r', id) <==> Targeted(first, id)
    {
      TargetedAppend(p[..k], p[k], id);
      TargetedAppend(r, p[k], id);
    }
  }

  lemma SweptAll(p: seq<Stmt>, used: set<nat>)
    ensures Swept(p, used, |p|)
  {
    for k := 0 to |p|
      invariant Swept(p, used, k)
    {
      SweptNext(p, used, k);
    }
  }

  lemma NothingDead(q: seq<Stmt>, used: set<nat>)
    requires forall i :: 0 <= i < |q| ==> !Dead(q[i], used)
    ensures DropDead(q, used, |q|) == q
  {
    for k := 0 to |q|
      invariant DropDead(q, used, k) == q[..k]
    {
      DropDeadMore(q, used, k);
      assert q[..k + 1] == q[..k] + [q[k]];
    }
    assert q[..|q|] == q;
  }

  /** A round that loses no jump is the last that changes anything. */
  lemma CalmRound(p: seq<Stmt>)
    requires Gotos(Round(p)) >= Gotos(p)
    ensures Round(Round(p)) == Round(p)
  {
    var used := TargetsOf(p);
    var q := DropDead(p, used, |p|);
    DeadGotos(p, used);
    JumpGotos(q);
    JumpsOrSame(q, |q|);
    assert q[..|q|] == q;
    SweptAll(p, used);
    assert p[..|p|] == p;
    assert TargetsOf(q) == used;
    NothingDead(q, used);
  }

  lemma RoundGotos(p: seq<Stmt>)
    ensures Gotos(Round(p)) <= Gotos(p)
  {
    var q := DropDead(p, TargetsOf(p), |p|);
    DeadGotos(p, TargetsOf(p));
    JumpGotos(q);
    RoundShrinks(q);
  }

  lemma {:induction false} ElideSettles(p: seq<Stmt>, n: nat)
    requires Gotos(p) < n
    ensures Round(Elide(p, n)) == Elide(p, n)
    decreases n
  {
    if Round(p) != p {
      RoundGotos(p);
      if Gotos(Round(p)) < Gotos(p) { ElideSettles(Round(p), n - 1); } else { CalmRound(p); }
    }
  }

  /** More rounds than the program has plain jumps are enough: no dead label and no jump to
      the next statement is left. With fewer rounds they need not be, see `SixteenRounds`. */
  lemma ElideFinishes(p: seq<Stmt>, n: nat)
    requires Gotos(p) < n
    ensures forall i :: 0 <= i < |Elide(p, n)| ==> !Idle(Elide(p, n), i)
  {
    ElideSettles(p, n);
    RoundShrinks(Elide(p, n));
  }

  // ----- sixteen rounds are not always enough ----------------------------------------------------------

  /** `goto g; ... goto lo;` */
  function Jumping(lo: nat, g: nat): seq<Stmt>
    requires lo <= g + 1
  {
    seq(g + 1 - lo, i requires 0 <= i < g + 1 - lo => Goto(g - i))
  }

  /** `lo: ... g:` */
  function Landing(lo: nat, g: nat): seq<Stmt>
    requires lo <= g + 1
  {
    seq(g + 1 - lo, i requires 0 <= i < g + 1 - lo => Label(lo + i))
  }

  lemma {:induction false} OneDead(p: seq<Stmt>, used: set<nat>, d: nat, k: nat)
    requires d < |p| && k <= |p| && forall i :: 0 <= i < |p| ==> (Dead(p[i], used) <==> i == d)
    ensures DropDead(p, used, k) == if k <= d then p[..k] else p[..d] + p[d + 1..k]
  {
    if k > 0 { OneDead(p, used, d, k - 1); }
  }

  lemma {:induction false} OneJump(p: seq<Stmt>, d: nat, k: nat)
    requires d < |p| && k <= |p| && forall i :: 0 <= i < |p| ==> (FallsThrough(p, i) <==> i == d)
    ensures DropJumps(p, k) == if k <= d then p[..k] else p[..d] + p[d + 1..k]
  {
    if k > 0 { OneJump(p, d, k - 1); }
  }

  lemma NestTargets(lo: nat, g: nat, from: nat, id: nat)
    requires lo <= g + 1 && from <= g + 1
    ensures Targeted(Jumping(lo, g) + Landing(from, g), id) <==> lo <= id <= g
  {
    var p := Jumping(lo, g) + Landing(from, g);
    if lo <= id <= g { assert Jumps(p[g - id], id); }
  }

  /** The jumps from `g` down to `lo`, and one label more than they need. */
  function Nest(lo: nat, g: nat): (p: seq<Stmt>)
    requires 1 <= lo <= g + 1
    ensures |p| == 2 * (g + 1 - lo) + 1
  {
    Jumping(lo, g) + Landing(lo - 1, g)
  }

  lemma NestDead(lo: nat, g: nat)
    requires 1 <= lo <= g
    ensures DropDead(Nest(lo, g), TargetsOf(Nest(lo, g)), |Nest(lo, g)|) == Jumping(lo, g) + Landing(lo, g)
  {
    var p, m := Nest(lo, g), g + 1 - lo;
    var used := TargetsOf(p);
    forall i | 0 <= i < |p|
      ensures Dead(p[i], used) <==> i == m
    {
      if i >= m { NestTargets(lo, g, lo - 1, lo - 1 + (i - m)); }
    }
    OneDead(p, used, m, |p|);
    assert p[..m] + p[m + 1..|p|] == Jumping(lo, g) + Landing(lo, g);
  }

  lemma NestJumps(lo: nat, g: nat)
    requires 1 <= lo <= g
    ensures var q := Jumping(lo, g) + Landing(lo, g); DropJumps(q, |q|) == Nest(lo + 1, g)
  {
    var q, m := Jumping(lo, g) + Landing(lo, g), g + 1 - lo;
    OneJump(q, m - 1, |q|);
    assert q[..m - 1] + q[m..|q|] == Nest(lo + 1, g);
  }

  /** A round takes one label and one jump off the nest. */
  lemma NestRound(lo: nat, g: nat)
    requires 1 <= lo <= g
    ensures Round(Nest(lo, g)) == Nest(lo + 1, g)
  {
    NestDead(lo, g);
    NestJumps(lo, g);
  }

  lemma ElideMore(p: seq<Stmt>, q: seq<Stmt>, n: nat)
    requires n > 0 && q == Round(p) && |q| < |p|
    ensures Elide(p, n) == Elide(q, n - 1)
  {
  }

  lemma {:induction false} NestRounds(lo: nat, g: nat, n: nat, end: nat)
    requires 1 <= lo && end == lo + n <= g + 1
    ensures Elide(Nest(lo, g), n) == Nest(end, g)
    decreases n
  {
    if n == 0 {
      assert end == lo;
    } else {
      NestRound(lo, g);
      ElideMore(Nest(lo, g), Nest(lo + 1, g), n);
      NestRounds(lo + 1, g, n - 1, end);
    }
  }

  lemma NestUnique(lo: nat, g: nat)
    requires 1 <= lo <= g
    ensures UniqueLabels(Nest(lo, g))
  {
  }

  lemma NestIdle(lo: nat, g: nat)
    requires 1 <= lo <= g + 1
    ensures Idle(Nest(lo, g), g + 1 - lo)
  {
    NestTargets(lo, g, lo - 1, lo - 1);
    assert Nest(lo, g)[g + 1 - lo] == Label(lo - 1);
  }

  lemma {:induction false} JumpingGotos(lo: nat, g: nat, k: nat)
    requires lo <= g + 1 && k <= g + 1 - lo
    ensures Gotos(Jumping(lo, g)[..k]) == k
  {
    if k > 0 {
      JumpingGotos(lo, g, k - 1);
      GotosUpTo(Jumping(lo, g), k - 1);
    }
  }

  lemma NestGotos(lo: nat, g: nat)
    requires 1 <= lo <= g + 1
    ensures Gotos(Nest(lo, g)) == g + 1 - lo
  {
    var p, m := Nest(lo, g), g + 1 - lo;
    JumpingGotos(lo, g, m);
    assert p[..m] == Jumping(lo, g) == Jumping(lo, g)[..m];
    for k := m to |p|
      invariant Gotos(p[..k]) == m
    {
      GotosUpTo(p, k);
    }
    assert p[..|p|] == p;
  }

  /** `n` rounds are not enough for a nest of `n` jumps or more: a label nothing jumps to
      is left. So the bound of `ElideFinishes` cannot be improved. */
  lemma NestUnfinished(g: nat, n: nat)
    requires n <= g
    ensures Gotos(Nest(1, g)) == g && UniqueLabels(Nest(1, g)) && exists i :: Idle(Elide(Nest(1, g), n), i)
  {
    NestGotos(1, g);
    if g > 0 { NestUnique(1, g); }
    NestRounds(1, g, n, n + 1);
    NestIdle(n + 1, g);
  }

  /** The sixteen rounds the pass stops after are enough for fifteen plain jumps, and for no
      larger number in general. */
  lemma SixteenRounds(p: seq<Stmt>, g: nat)
    ensures Gotos(p) <= 15 ==> forall i :: 0 <= i < |Elide(p, 16)| ==> !Idle(Elide(p, 16), i)
    ensures g >= 16 ==> Gotos(Nest(1, g)) == g && exists i :: Idle(Elide(Nest(1, g), 16), i)
  {
    if Gotos(p) <= 15 { ElideFinishes(p, 16); }
    if g >= 16 { NestUnfinished(g, 16); }
  }
}
