/** `pop2` and `dup2` take either two ints or one wide value, and the emulator decides by the type
    it recorded for the expression on top. */
module Widths {
  import opened Results
  import opened JavaInts
  import opened Ir
  import opened Emulation
  import opened BlockMeaning
  import Jvm

  predicate AllNarrow(s: seq<Expr>) {
    forall x :: x in s ==> !IsWide(x)
  }

  /** Every variable the code loads is recorded as `int`. */
  predicate IntLoads(code: seq<Jvm.Sem>, infos: seq<LocalInfo>)
    requires AllFit(code, |infos|)
  {
    forall k :: 0 <= k < |code| && code[k].Load? ==> infos[code[k].slot].ty.Int?
  }

  predicate Doubles(sem: Jvm.Sem) { sem.Pop2? || sem.Dup2? }

  predicate NoDoubles(code: seq<Jvm.Sem>) {
    forall k :: 0 <= k < |code| ==> !Doubles(code[k])
  }

  lemma NarrowTaken(s: seq<Expr>, k: nat)
    requires AllNarrow(s) && k <= |s|
    ensures AllNarrow(s[..k])
  {
  }

  lemma NarrowStep(sem: Jvm.Sem, infos: seq<LocalInfo>, e: Emu)
    requires AllNarrow(e.stack) && Jvm.Fits(sem, |infos|) && (sem.Load? ==> infos[sem.slot].ty.Int?)
    ensures !MeetsWide(sem, e.stack)
    ensures Emulate(sem, infos, e).Ok? ==> AllNarrow(Emulate(sem, infos, e).value.stack)
  {
    var n := |e.stack|;
    assert forall i :: 0 <= i < n ==> e.stack[i] in e.stack;
    if n >= Jvm.Needs(sem) { NarrowTaken(e.stack, n - Jvm.Needs(sem)); }
  }

  /** Starting from ints, code that loads only ints keeps every expression on the stack an int. */
  lemma {:induction false} NarrowPrefix(code: seq<Jvm.Sem>, infos: seq<LocalInfo>, e: Emu, k: nat)
    requires AllFit(code, |infos|) && k <= |code| && AllNarrow(e.stack) && IntLoads(code, infos)
    ensures EmulateAll(code[..k], infos, e).Ok? ==> AllNarrow(EmulateAll(code[..k], infos, e).value.stack)
  {
    if k > 0 {
      NarrowPrefix(code, infos, e, k - 1);
      EmulateUpTo(code, infos, e, k - 1);
      var before := EmulateAll(code[..k - 1], infos, e);
      if before.Ok? { NarrowStep(code[k - 1], infos, before.value); }
    }
  }

  lemma NarrowBlock(code: seq<Jvm.Sem>, infos: seq<LocalInfo>, e: Emu)
    requires AllFit(code, |infos|) && AllNarrow(e.stack) && IntLoads(code, infos)
    ensures NeverWide(code, infos, e)
    ensures EmulateAll(code, infos, e).Ok? ==> AllNarrow(EmulateAll(code, infos, e).value.stack)
  {
    assert code[..|code|] == code;
    NarrowPrefix(code, infos, e, |code|);
    forall k | 0 <= k < |code|
      ensures NotWideAt(code, infos, e, k)
    {
      NarrowPrefix(code, infos, e, k);
      var before := EmulateAll(code[..k], infos, e);
      if before.Ok? { NarrowStep(code[k], infos, before.value); }
    }
  }

  // ----- the emulation at a wide top ---------------------------------------------------------------

  lemma DepthTold(infos: seq<LocalInfo>, start: Env, e: Emu, m: Jvm.Machine)
    requires m.Running? && Exec(e.stmts, start).Normal? && |e.stack| != |m.stack|
    ensures !Tracks(infos, start, e, m)
  {
  }

  lemma WidePopped(infos: seq<LocalInfo>, e: Emu, n: nat)
    requires n == |e.stack| && MeetsWide(Jvm.Pop2, e.stack)
    ensures Emulate(Jvm.Pop2, infos, e) == Ok(Emu(e.stack[..n - 1], e.stmts + Dropped(e.stack[n - 1]), e.cond))
  {
  }

  lemma WidePop2(infos: seq<LocalInfo>, start: Env, e: Emu, m: Jvm.Machine)
    requires m.Running? && Tracks(infos, start, e, m) && |e.stack| >= 2 && MeetsWide(Jvm.Pop2, e.stack)
    ensures !Tracks(infos, start, Emulate(Jvm.Pop2, infos, e).value, Jvm.Step(Jvm.Pop2, m))
  {
    var n := |e.stack|;
    TopValue(infos, start, e, m);
    DropTracks(start, e.stmts, e.stack[n - 1]);
    WidePopped(infos, e, n);
    DepthTold(infos, start, Emulate(Jvm.Pop2, infos, e).value, Jvm.Running(m.locals, m.stack[..n - 2], m.taken));
  }

  lemma WideDup2(infos: seq<LocalInfo>, start: Env, e: Emu, m: Jvm.Machine)
    requires m.Running? && Tracks(infos, start, e, m) && |e.stack| >= 2 && MeetsWide(Jvm.Dup2, e.stack)
    ensures !Tracks(infos, start, Emulate(Jvm.Dup2, infos, e).value, Jvm.Step(Jvm.Dup2, m))
  {
    TopValue(infos, start, e, m);
    DepthTold(infos, start, Emulate(Jvm.Dup2, infos, e).value, Jvm.Step(Jvm.Dup2, m));
  }

  /** Over ints, `pop2` and `dup2` are emulated right if and only if the expression on top is not
      recorded as `long`. */
  lemma PairsIff(infos: seq<LocalInfo>, start: Env, e: Emu, m: Jvm.Machine, sem: Jvm.Sem)
    requires m.Running? && Tracks(infos, start, e, m) && |e.stack| >= 2 && Doubles(sem)
    ensures Emulate(sem, infos, e).Ok?
    ensures Tracks(infos, start, Emulate(sem, infos, e).value, Jvm.Step(sem, m)) <==> !IsWide(e.stack[|e.stack| - 1])
  {
    if sem.Pop2? {
      if MeetsWide(sem, e.stack) { WidePop2(infos, start, e, m); } else { Pop2Tracks(infos, start, e, m); }
    } else {
      if MeetsWide(sem, e.stack) { WideDup2(infos, start, e, m); } else { ShuffleTracks(infos, start, e, m, sem); }
    }
  }
}
