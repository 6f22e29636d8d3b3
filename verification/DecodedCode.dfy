/** Decoded instructions as the graph builder and the emulator see them. */
module DecodedCode {
  import opened Results
  import opened Bits
  import opened Decode
  import opened Cfg
  import opened CfgMeaning
  import opened Pipeline
  import JavaInts
  import Jvm

  // ----- control flow -------------------------------------------------------------------------

  function TargetOf(raw: Raw): nat { if raw.operand.Target? then raw.operand.offset else 0 }

  /** What `build_cfg` looks at: conditional branches, jumps, and instructions that end
      the flow. */
  function FlowOf(raw: Raw): Flow {
    var op := raw.code;
    if 0x99 <= op <= 0xa6 || op == 0xc6 || op == 0xc7 then Cond(TargetOf(raw))
    else if op == 0xa7 || op == 0xa8 || op == 0xc8 || op == 0xc9 then Jump(TargetOf(raw))
    else if op == 0xa9 || 0xac <= op <= 0xb1 || op == 0xbf then Stop
    else Next
  }

  function InsnsOf(raws: seq<Raw>): (r: seq<Insn>)
    ensures |r| == |raws| && forall i :: 0 <= i < |r| ==> r[i] == Insn(raws[i].off, raws[i].len, FlowOf(raws[i]))
  {
    seq(|raws|, i requires 0 <= i < |raws| => Insn(raws[i].off, raws[i].len, FlowOf(raws[i])))
  }

  /** Decoded code is what the graph builder expects: contiguous, from offset 0 to the end. */
  lemma DecodedContiguous(code: seq<byte>)
    requires code != [] && InsnsFrom(code, 0).Ok?
    ensures Contiguous(InsnsOf(InsnsFrom(code, 0).value), |code|)
  {
    var raws := InsnsFrom(code, 0).value;
    DecodedFills(code, 0);
    forall i | 0 <= i < |raws|
      ensures Adjoins(InsnsOf(raws), |code|, i)
    {
      assert Decode.FollowOn(raws, |code|, i);
    }
  }

  // ----- the int fragment -----------------------------------------------------------------------

  function Slot(raw: Raw): nat { if raw.operand.Local? then raw.operand.index else 0 }

  function IntConst(raw: Raw): int { if raw.operand.Constant? then raw.operand.v else 0 }

  function CondOf(k: int): JavaInts.Cond {
    match k
    case 0 => JavaInts.Eq
    case 1 => JavaInts.Ne
    case 2 => JavaInts.Lt
    case 3 => JavaInts.Ge
    case 4 => JavaInts.Gt
    case _ => JavaInts.Le
  }

  /** The semantic class of an instruction on ints, if it is one. Of the constants without operand
      only `iconst_0` is: see `IconstIff`. */
  function SemOf(raw: Raw): Option<Jvm.Sem> {
    var op := raw.code;
    if op == 0x00 then Some(Jvm.Nop)
    else if op == 0x03 || op == 0x10 || op == 0x11 then Some(Jvm.Push(IntConst(raw)))
    else if op == 0x15 || 0x1a <= op <= 0x1d then Some(Jvm.Load(Slot(raw)))
    else if op == 0x36 || 0x3b <= op <= 0x3e then Some(Jvm.Store(Slot(raw)))
    else if op == 0x57 then Some(Jvm.Pop)
    else if op == 0x58 then Some(Jvm.Pop2)
    else if op == 0x59 then Some(Jvm.Dup)
    else if op == 0x5a then Some(Jvm.DupX1)
    else if op == 0x5b then Some(Jvm.DupX2)
    else if op == 0x5c then Some(Jvm.Dup2)
    else if op == 0x5d then Some(Jvm.Dup2X1)
    else if op == 0x5e then Some(Jvm.Dup2X2)
    else if op == 0x5f then Some(Jvm.Swap)
    else if op == 0x60 then Some(Jvm.Binary(JavaInts.Add))
    else if op == 0x64 then Some(Jvm.Binary(JavaInts.Sub))
    else if op == 0x68 then Some(Jvm.Binary(JavaInts.Mul))
    else if op == 0x6c then Some(Jvm.Binary(JavaInts.Div))
    else if op == 0x70 then Some(Jvm.Binary(JavaInts.Rem))
    else if op == 0x74 then Some(Jvm.Negate)
    else if op == 0x78 then Some(Jvm.ShiftBy(JavaInts.Shl))
    else if op == 0x7a then Some(Jvm.ShiftBy(JavaInts.Shr))
    else if op == 0x7c then Some(Jvm.ShiftBy(JavaInts.Ushr))
    else if op == 0x7e then Some(Jvm.BitsWith(JavaInts.And))
    else if op == 0x80 then Some(Jvm.BitsWith(JavaInts.Or))
    else if op == 0x82 then Some(Jvm.BitsWith(JavaInts.Xor))
    else if 0x99 <= op <= 0x9e then Some(Jvm.If(CondOf(op - 0x99)))
    else if 0x9f <= op <= 0xa4 then Some(Jvm.IfCmp(CondOf(op - 0x9f)))
    else if op == 0xa7 || op == 0xc8 then Some(Jvm.Goto)
    else if op == 0xac then Some(Jvm.Return(true))
    else if op == 0xb1 then Some(Jvm.Return(false))
    else None
  }

  predicate AllInts(raws: seq<Raw>) {
    forall i :: 0 <= i < |raws| ==> SemOf(raws[i]).Some?
  }

  function SemsOf(raws: seq<Raw>): (r: seq<Jvm.Sem>)
    requires AllInts(raws)
    ensures |r| == |raws| && forall i :: 0 <= i < |r| ==> Some(r[i]) == SemOf(raws[i])
  {
    seq(|raws|, i requires 0 <= i < |raws| => SemOf(raws[i]).value)
  }

  lemma FlowAgrees(raw: Raw)
    requires SemOf(raw).Some?
    ensures SameFlow(SemOf(raw).value, FlowOf(raw))
  {
  }

  /** A decoded branch has its target. */
  lemma BranchHasTarget(code: seq<byte>, off: nat)
    requires off < |code| && InsnAt(code, off).Ok?
    ensures var raw := InsnAt(code, off).value; FlowOf(raw).Cond? || FlowOf(raw).Jump? ==> raw.operand.Target?
  {
  }

  predicate Lands(raws: seq<Raw>, o: nat) {
    exists j :: 0 <= j < |raws| && raws[j].off == o
  }

  /** Every branch goes to an instruction. */
  predicate AllLand(raws: seq<Raw>) {
    forall i :: 0 <= i < |raws| && raws[i].operand.Target? ==> Lands(raws, raws[i].operand.offset)
  }

  lemma TargetsAreOffsets(code: seq<byte>, raws: seq<Raw>, i: nat, t: nat)
    requires InsnsFrom(code, 0) == Ok(raws) && AllLand(raws) && i < |raws| && t in Targets(FlowOf(raws[i]))
    ensures IsOffset(InsnsOf(raws), t)
  {
    DecodedAt(code, 0, i);
    BranchHasTarget(code, raws[i].off);
    assert Lands(raws, t);
    var j :| 0 <= j < |raws| && raws[j].off == t;
    assert InsnsOf(raws)[j].off == t;
  }

  /** Bytes that decode to int instructions, branch only to instructions and do not run off
      their end are code the pipeline theorems are about. */
  lemma BytesVerified(code: seq<byte>, raws: seq<Raw>)
    requires code != [] && InsnsFrom(code, 0) == Ok(raws) && AllInts(raws) && AllLand(raws)
    requires raws != [] ==> FlowOf(raws[|raws| - 1]).Jump? || FlowOf(raws[|raws| - 1]).Stop?
    ensures Verified(Code(InsnsOf(raws), SemsOf(raws), |code|))
  {
    var insns, sems := InsnsOf(raws), SemsOf(raws);
    DecodedContiguous(code);
    forall i, t | 0 <= i < |insns| && t in Targets(insns[i].flow)
      ensures IsOffset(insns, t)
    {
      TargetsAreOffsets(code, raws, i, t);
    }
    forall i | 0 <= i < |insns|
      ensures SameFlow(sems[i], insns[i].flow)
    {
      FlowAgrees(raws[i]);
    }
  }

  // ----- iconst -------------------------------------------------------------------------------------

  /** The constant `iconst_m1` to `iconst_5` push. */
  function IconstValue(op: byte): int { op - 3 }

  /** The decoder gives these instructions no operand, and the emulator pushes 0 for a
      constant without operand: right exactly for `iconst_0`. */
  lemma IconstIff(code: seq<byte>, off: nat)
    requires off < |code| && 0x02 <= code[off] <= 0x08
    ensures InsnAt(code, off).Ok?
    ensures IntConst(InsnAt(code, off).value) == IconstValue(code[off]) <==> code[off] == 0x03
  {
  }
}
