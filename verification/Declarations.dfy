/** Which statements declare variables and which only assign them, whatever the emulation of a store does. */
module Declarations {
  import opened Results
  import opened JavaInts
  import opened Ir
  import opened Emulation
  import opened BlockMeaning
  import Jvm

  /** Declared by the statement that stores into it. */
  predicate DefinedInPlace(info: LocalInfo) { !info.isThis && !info.isParam && !info.hoist }

  /** Declared as a parameter, or at the head of the method. */
  predicate DefinedBefore(info: LocalInfo) { !info.isThis && (info.isParam || info.hoist) }

  /** The statement writes a variable of the table as it is declared there. */
  ghost predicate Declared(infos: seq<LocalInfo>, s: Stmt) {
    match s
    case LocalDef(name, ty, _) => exists x :: 0 <= x < |infos| && DefinesSlot(infos, x, name, ty)
    case Assign(target, _) => target.Local? && AssignsSlot(infos, target.index, target.name, target.ty)
    case _ => true
  }

  predicate DefinesSlot(infos: seq<LocalInfo>, x: nat, name: string, ty: Ty) {
    x < |infos| && infos[x].name == name && infos[x].ty == ty && DefinedInPlace(infos[x])
  }

  predicate AssignsSlot(infos: seq<LocalInfo>, x: nat, name: string, ty: Ty) {
    x < |infos| && infos[x].name == name && infos[x].ty == ty && DefinedBefore(infos[x])
  }

  ghost predicate AllDeclared(infos: seq<LocalInfo>, stmts: seq<Stmt>) {
    forall i :: 0 <= i < |stmts| ==> Declared(infos, stmts[i])
  }

  lemma DeclaredMore(infos: seq<LocalInfo>, stmts: seq<Stmt>, more: seq<Stmt>)
    requires AllDeclared(infos, stmts) && AllDeclared(infos, more)
    ensures AllDeclared(infos, stmts + more)
  {
    forall i | 0 <= i < |stmts + more|
      ensures Declared(infos, (stmts + more)[i])
    {
      if i >= |stmts| { assert Declared(infos, more[i - |stmts|]); }
    }
  }

  lemma DeclaredLater(infos: seq<LocalInfo>, infos': seq<LocalInfo>, stmts: seq<Stmt>)
    requires infos <= infos' && AllDeclared(infos, stmts)
    ensures AllDeclared(infos', stmts)
  {
    forall i | 0 <= i < |stmts|
      ensures Declared(infos', stmts[i])
    {
      assert Declared(infos, stmts[i]);
      if stmts[i].LocalDef? {
        var x :| 0 <= x < |infos| && DefinesSlot(infos, x, stmts[i].name, stmts[i].ty);
        assert DefinesSlot(infos', x, stmts[i].name, stmts[i].ty);
      }
    }
  }

  lemma StoreDeclared(infos: seq<LocalInfo>, x: nat, value: Expr)
    requires x < |infos|
    ensures Declared(infos, StoreLocal(infos, x, value))
  {
    var info := infos[x];
    if DefinedInPlace(info) { assert DefinesSlot(infos, x, info.name, info.ty); }
    if DefinedBefore(info) { assert AssignsSlot(infos, x, info.name, info.ty); }
  }

  lemma DroppedDeclared(infos: seq<LocalInfo>, e: Expr)
    ensures AllDeclared(infos, Dropped(e))
  {
  }

  lemma OneDeclared(infos: seq<LocalInfo>, s: Stmt)
    requires Declared(infos, s)
    ensures AllDeclared(infos, [s])
  {
  }

  lemma PopsDeclared(sem: Jvm.Sem, infos: seq<LocalInfo>, e: Emu)
    requires (sem.Pop? || sem.Pop2?) && AllDeclared(infos, e.stmts)
    ensures var out := Emulate(sem, infos, e); out.Ok? ==> AllDeclared(infos, out.value.stmts)
  {
    var (s, n) := (e.stack, |e.stack|);
    if n > 0 {
      DroppedDeclared(infos, s[n - 1]);
      DeclaredMore(infos, e.stmts, Dropped(s[n - 1]));
    }
    if n > 1 {
      DroppedDeclared(infos, s[n - 2]);
      DeclaredMore(infos, e.stmts, Dropped(s[n - 2]));
      DeclaredMore(infos, e.stmts + Dropped(s[n - 2]), Dropped(s[n - 1]));
    }
  }

  lemma EmulateDeclares(sem: Jvm.Sem, infos: seq<LocalInfo>, e: Emu)
    requires Jvm.Fits(sem, |infos|) && AllDeclared(infos, e.stmts)
    ensures var out := Emulate(sem, infos, e); out.Ok? ==> AllDeclared(infos, out.value.stmts)
  {
    match sem
    case Store(x) =>
      if e.stack != [] {
        var v := e.stack[|e.stack| - 1];
        StoreDeclared(infos, x, v);
        OneDeclared(infos, StoreLocal(infos, x, v));
        DeclaredMore(infos, e.stmts, [StoreLocal(infos, x, v)]);
      }
    case Pop | Pop2 => PopsDeclared(sem, infos, e);
    case Return(_) =>
      var out := Emulate(sem, infos, e);
      if out.Ok? {
        var last := out.value.stmts[|e.stmts|];
        OneDeclared(infos, last);
        DeclaredMore(infos, e.stmts, [last]);
        assert out.value.stmts == e.stmts + [last];
      }
    case _ =>
  }

  lemma {:induction false} CodeDeclares(code: seq<Jvm.Sem>, infos: seq<LocalInfo>, e: Emu)
    requires AllFit(code, |infos|) && AllDeclared(infos, e.stmts)
    ensures var out := EmulateAll(code, infos, e); out.Ok? ==> AllDeclared(infos, out.value.stmts)
    decreases code
  {
    if code != [] {
      var n := |code| - 1;
      CodeDeclares(code[..n], infos, e);
      var before := EmulateAll(code[..n], infos, e);
      if before.Ok? { EmulateDeclares(code[n], infos, before.value); }
    }
  }

  /** With unique names a definition in place is the definition of no other variable: nothing declared
      before is declared a second time. */
  lemma DefinesNoOther(infos: seq<LocalInfo>, s: Stmt, x: nat)
    requires Unique(infos) && Declared(infos, s) && s.LocalDef? && x < |infos| && infos[x].name == s.name
    ensures DefinedInPlace(infos[x]) && infos[x].ty == s.ty
  {
    var y :| 0 <= y < |infos| && DefinesSlot(infos, y, s.name, s.ty);
    assert x == y;
  }
}
