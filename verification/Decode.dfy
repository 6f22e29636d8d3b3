/** Decoding a code array into instructions (chapter 6 of the Java Virtual Machine
    Specification). Operands that point into the constant pool stay indices. */
module Decode {
  import opened Results
  import opened Bits

  datatype Format =
    | Plain | LocalIndex | Increment | Const1 | Const2 | Pool8 | Pool16 | ArrayKind
    | Branch16 | Branch32 | Interface | Dynamic | MultiPool | Wide | SwitchTable | Illegal

  datatype Operand =
    | NoOperand
    | Local(index: nat)
    | IncBy(index: nat, delta: int)
    | Constant(v: int)
    | Pool(index: nat)
    | Kind(kind: nat)
    | Target(offset: nat)
    | Multi(index: nat, dims: nat)

  datatype Raw = Raw(off: nat, code: byte, len: nat, operand: Operand, wide: bool)

  /** `SwitchCode` stands for the two switch instructions, which are not modelled. */
  datatype DecodeError = Truncated | IllegalOpcode | IllegalWide | BadArrayKind | SwitchCode

  /** The opcode table. */
  function FormatOf(op: byte): Format {
    if op <= 0x0f then Plain
    else if op == 0x10 then Const1
    else if op == 0x11 then Const2
    else if op == 0x12 then Pool8
    else if op <= 0x14 then Pool16
    else if op <= 0x19 then LocalIndex
    else if op <= 0x35 then Plain
    else if op <= 0x3a then LocalIndex
    else if op <= 0x83 then Plain
    else if op == 0x84 then Increment
    else if op <= 0x98 then Plain
    else if op <= 0xa8 then Branch16
    else if op == 0xa9 then LocalIndex
    else if op <= 0xab then SwitchTable
    else if op <= 0xb1 then Plain
    else if op <= 0xb8 then Pool16
    else if op == 0xb9 then Interface
    else if op == 0xba then Dynamic
    else if op == 0xbc then ArrayKind
    else if op == 0xbb || op == 0xbd || op == 0xc0 || op == 0xc1 then Pool16
    else if op <= 0xc3 then Plain
    else if op == 0xc4 then Wide
    else if op == 0xc5 then MultiPool
    else if op <= 0xc7 then Branch16
    else if op <= 0xc9 then Branch32
    else Illegal
  }

  predicate IsLoad(op: byte) { 0x15 <= op <= 0x2d }

  predicate IsStore(op: byte) { 0x36 <= op <= 0x4e }

  const IINC: byte := 0x84
  const RET: byte := 0xa9

  /** The local of the shorthands `iload_0` to `aload_3` and `istore_0` to `astore_3`. */
  function Shorthand(op: byte): Operand {
    if 0x1a <= op <= 0x2d then Local((op - 0x1a) % 4)
    else if 0x3b <= op <= 0x4e then Local((op - 0x3b) % 4)
    else NoOperand
  }

  function FixedLen(f: Format): nat {
    match f
    case Plain => 1
    case LocalIndex => 2
    case Increment => 3
    case Const1 => 2
    case Const2 => 3
    case Pool8 => 2
    case Pool16 => 3
    case ArrayKind => 2
    case Branch16 => 3
    case Branch32 => 5
    case Interface => 5
    case Dynamic => 5
    case MultiPool => 4
    case Wide => 0
    case SwitchTable => 0
    case Illegal => 1
  }

  // ----- numbers ------------------------------------------------------------------------------

  function Signed8(x: int): int { if x < 0x80 then x else x - 0x100 }

  function Signed16(x: int): int { if x < 0x8000 then x else x - 0x1_0000 }

  function Signed32(x: int): int { if x < 0x8000_0000 then x else x - 0x1_0000_0000 }

  function Word(high: int, low: int): int { high * 0x100 + low }

  function Be16(code: seq<byte>, p: nat): nat
    requires p + 2 <= |code|
  {
    Word(code[p], code[p + 1])
  }

  function Be32(code: seq<byte>, p: nat): nat
    requires p + 4 <= |code|
  {
    Be16(code, p) * 0x1_0000 + Be16(code, p + 2)
  }

  /** An offset relative to the instruction, as an unsigned 32-bit number. */
  function Absolute(off: nat, delta: int): nat { (off + delta) % 0x1_0000_0000 }

  // ----- one instruction ------------------------------------------------------------------------

  /** The operand behind the opcode at `off`, all bytes being there. */
  function OperandAt(code: seq<byte>, off: nat, f: Format): Operand
    requires off + FixedLen(f) <= |code| && FixedLen(f) > 0
  {
    match f
    case Plain => Shorthand(code[off])
    case LocalIndex => Local(code[off + 1])
    case Increment => IncBy(code[off + 1], Signed8(code[off + 2]))
    case Const1 => Constant(Signed8(code[off + 1]))
    case Const2 => Constant(Signed16(Be16(code, off + 1)))
    case Pool8 => Pool(code[off + 1])
    case Pool16 => Pool(Be16(code, off + 1))
    case ArrayKind => Kind(code[off + 1])
    case Branch16 => Target(Absolute(off, Signed16(Be16(code, off + 1))))
    case Branch32 => Target(Absolute(off, Signed32(Be32(code, off + 1))))
    case Interface => Pool(Be16(code, off + 1))
    case Dynamic => Pool(Be16(code, off + 1))
    case MultiPool => Multi(Be16(code, off + 1), code[off + 3])
    case Illegal => NoOperand
  }

  function WideAt(code: seq<byte>, off: nat): Result<Raw, DecodeError>
    requires off < |code|
  {
    if off + 4 > |code| then Err(Truncated)
    else
      var (op, index) := (code[off + 1], Be16(code, off + 2));
      if op == IINC then
        if off + 6 > |code| then Err(Truncated)
          else Ok(Raw(off, op, 6, IncBy(index, Signed16(Be16(code, off + 4))), true))
      else if IsLoad(op) || IsStore(op) || op == RET then Ok(Raw(off, op, 4, Local(index), true))
      else Err(IllegalWide)
  }

  function InsnAt(code: seq<byte>, off: nat): (r: Result<Raw, DecodeError>)
    requires off < |code|
    ensures r.Ok? ==> r.value.off == off && r.value.len > 0 && off + r.value.len <= |code|
  {
    var op := code[off];
    var f := FormatOf(op);
    if f.Wide? then WideAt(code, off)
    else if f.Illegal? then Err(IllegalOpcode)
    else if f.SwitchTable? then Err(SwitchCode)
    else if off + FixedLen(f) > |code| then Err(Truncated)
    else if f.ArrayKind? && !(4 <= code[off + 1] <= 11) then Err(BadArrayKind)
    else Ok(Raw(off, op, FixedLen(f), OperandAt(code, off, f), false))
  }

  function InsnsFrom(code: seq<byte>, off: nat): Result<seq<Raw>, DecodeError>
    decreases |code| - off
  {
    if off >= |code| then Ok([])
    else
      match InsnAt(code, off)
      case Err(error) => Err(error)
      case Ok(raw) =>
        (match InsnsFrom(code, off + raw.len)
         case Err(error) => Err(error)
         case Ok(rest) => Ok([raw] + rest))
  }

  // ----- the decoder ------------------------------------------------------------------------------

  /** A cursor over the code; every read fails past the end. */
  class CodeReader {
    const code: seq<byte>
    var pos: nat

    constructor (code: seq<byte>)
      ensures this.code == code && pos == 0
    {
      this.code, pos := code, 0;
    }

    method U8() returns (r: Result<byte, DecodeError>)
      modifies this
      ensures r == if old(pos) < |code| then Ok(code[old(pos)]) else Err(Truncated)
      ensures r.Ok? ==> pos == old(pos) + 1
    {
      if pos >= |code| { return Err(Truncated); }
      pos := pos + 1;
      r := Ok(code[pos - 1]);
    }

    method U16() returns (r: Result<nat, DecodeError>)
      modifies this
      ensures r == if old(pos) + 2 <= |code| then Ok(Be16(code, old(pos))) else Err(Truncated)
      ensures r.Ok? ==> pos == old(pos) + 2
    {
      if pos + 2 > |code| { return Err(Truncated); }
      pos := pos + 2;
      r := Ok(Be16(code, pos - 2));
    }

    method U32() returns (r: Result<nat, DecodeError>)
      modifies this
      ensures r == if old(pos) + 4 <= |code| then Ok(Be32(code, old(pos))) else Err(Truncated)
      ensures r.Ok? ==> pos == old(pos) + 4
    {
      if pos + 4 > |code| { return Err(Truncated); }
      pos := pos + 4;
      r := Ok(Be32(code, pos - 4));
    }

    method Skip(n: nat) returns (r: Result<(), DecodeError>)
      modifies this
      ensures r == if old(pos) + n <= |code| then Ok(()) else Err(Truncated)
      ensures r.Ok? ==> pos == old(pos) + n
    {
      if pos + n > |code| { return Err(Truncated); }
      pos := pos + n;
      r := Ok(());
    }

    /** The part behind the `wide` prefix. */
    method DecodeWide(off: nat) returns (r: Result<Raw, DecodeError>)
      requires off < |code| && pos == off + 1
      modifies this
      ensures r == WideAt(code, off) && (r.Ok? ==> pos == off + r.value.len)
    {
      var op :- U8();
      var index :- U16();
      if !(IsLoad(op) || IsStore(op) || op == RET || op == IINC) { return Err(IllegalWide); }
      if op == IINC {
        var delta :- U16();
        return Ok(Raw(off, op, 6, IncBy(index, Signed16(delta)), true));
      }
      r := Ok(Raw(off, op, 4, Local(index), true));
    }

    /** The operand of a fixed format; the cursor moves over exactly its bytes. */
    method DecodeOperand(off: nat, f: Format) returns (r: Result<Operand, DecodeError>)
      requires off < |code| && pos == off + 1 && f == FormatOf(code[off]) && !f.Wide? && !f.SwitchTable? && !f.Illegal?
      modifies this
      ensures if off + FixedLen(f) > |code| then r == Err(Truncated)
              else if f.ArrayKind? && !(4 <= code[off + 1] <= 11) then r == Err(BadArrayKind)
              else r == Ok(OperandAt(code, off, f)) && pos == off + FixedLen(f)
    {
      match f {
        case Plain => return Ok(Shorthand(code[off]));
        case LocalIndex => var index :- U8(); return Ok(Local(index));
        case Increment =>
          var index :- U8();
          var delta :- U8();
          return Ok(IncBy(index, Signed8(delta)));
        case Const1 => var v :- U8(); return Ok(Constant(Signed8(v)));
        case Const2 => var v :- U16(); return Ok(Constant(Signed16(v)));
        case Pool8 => var index :- U8(); return Ok(Pool(index));
        case Pool16 => var index :- U16(); return Ok(Pool(index));
        case ArrayKind =>
          var kind :- U8();
          if kind < 4 || kind > 11 { return Err(BadArrayKind); }
          return Ok(Kind(kind));
        case Branch16 => var delta :- U16(); return Ok(Target(Absolute(off, Signed16(delta))));
        case Branch32 => var delta :- U32(); return Ok(Target(Absolute(off, Signed32(delta))));
        case Interface =>
          var index :- U16();
          var _ :- Skip(2);
          return Ok(Pool(index));
        case Dynamic =>
          var index :- U16();
          var _ :- Skip(2);
          return Ok(Pool(index));
        case MultiPool =>
          var index :- U16();
          var dims :- U8();
          return Ok(Multi(index, dims));
      }
    }

    method DecodeInsn() returns (r: Result<Raw, DecodeError>)
      requires pos < |code|
      modifies this
      ensures r == InsnAt(code, old(pos)) && (r.Ok? ==> pos == old(pos) + r.value.len)
    {
      var off := pos;
      var op := code[pos];
      pos := pos + 1;
      var f := FormatOf(op);
      if f.Wide? {
        r := DecodeWide(off);
        return;
      }
      if f.Illegal? { return Err(IllegalOpcode); }
      if f.SwitchTable? { return Err(SwitchCode); }
      var operand :- DecodeOperand(off, f);
      r := Ok(Raw(off, op, FixedLen(f), operand, false));
    }
  }

  function Prepend(out: seq<Raw>, r: Result<seq<Raw>, DecodeError>): Result<seq<Raw>, DecodeError> {
    match r
    case Ok(rest) => Ok(out + rest)
    case Err(error) => Err(error)
  }

  lemma PrependNext(code: seq<byte>, off: nat, out: seq<Raw>)
    requires off < |code|
    ensures Prepend(out, InsnsFrom(code, off)) ==
      match InsnAt(code, off)
      case Ok(raw) => Prepend(out + [raw], InsnsFrom(code, off + raw.len))
      case Err(error) => Err(error)
  {
    match InsnAt(code, off)
    case Ok(raw) =>
      var rest := InsnsFrom(code, off + raw.len);
      if rest.Ok? { assert out + ([raw] + rest.value) == (out + [raw]) + rest.value; }
    case Err(_) =>
  }

  lemma PrependNone(r: Result<seq<Raw>, DecodeError>)
    ensures Prepend([], r) == r
  {
    if r.Ok? { assert [] + r.value == r.value; }
  }

  /** `decode_code` */
  method DecodeCode(code: seq<byte>) returns (r: Result<seq<Raw>, DecodeError>)
    ensures r == InsnsFrom(code, 0)
  {
    var reader := new CodeReader(code);
    var out: seq<Raw> := [];
    PrependNone(InsnsFrom(code, 0));
    while reader.pos < |code|
      invariant reader.code == code && InsnsFrom(code, 0) == Prepend(out, InsnsFrom(code, reader.pos))
      decreases |code| - reader.pos
    {
      PrependNext(code, reader.pos, out);
      var raw :- reader.DecodeInsn();
      out := out + [raw];
    }
    assert out + [] == out;
    r := Ok(out);
  }

  // ----- what decoding gives -----------------------------------------------------------------------

  /** The offset at which instruction `i` of the list begins, or the code ends. */
  function NextOff(insns: seq<Raw>, end: nat, i: nat): nat { if i < |insns| then insns[i].off else end }

  ghost predicate FollowOn(insns: seq<Raw>, end: nat, i: nat) {
    i < |insns| ==> insns[i].len > 0 && insns[i].off + insns[i].len == NextOff(insns, end, i + 1)
  }

  /** Without gaps from `start` to `end`. */
  ghost predicate Fills(insns: seq<Raw>, start: nat, end: nat) {
    NextOff(insns, end, 0) == start && forall i :: 0 <= i < |insns| ==> FollowOn(insns, end, i)
  }

  /** Decoded instructions cover the code without gaps. */
  lemma {:induction false} DecodedFills(code: seq<byte>, off: nat)
    requires off <= |code| && InsnsFrom(code, off).Ok?
    ensures Fills(InsnsFrom(code, off).value, off, |code|)
    decreases |code| - off
  {
    if off < |code| {
      var raw := InsnAt(code, off).value;
      DecodedFills(code, off + raw.len);
      var rest := InsnsFrom(code, off + raw.len).value;
      FillsCons(raw, rest, off, |code|);
    }
  }

  /** Each instruction is the one that stands at its offset. */
  lemma {:induction false} DecodedAt(code: seq<byte>, off: nat, i: nat)
    requires InsnsFrom(code, off).Ok? && i < |InsnsFrom(code, off).value|
    ensures var raw := InsnsFrom(code, off).value[i]; raw.off < |code| && InsnAt(code, raw.off) == Ok(raw)
    decreases |code| - off
  {
    var raw := InsnAt(code, off).value;
    if i > 0 { DecodedAt(code, off + raw.len, i - 1); }
  }

  lemma FillsCons(raw: Raw, rest: seq<Raw>, start: nat, end: nat)
    requires raw.off == start && raw.len > 0 && Fills(rest, start + raw.len, end)
    ensures Fills([raw] + rest, start, end)
  {
    var insns := [raw] + rest;
    forall i | 0 <= i < |insns|
      ensures FollowOn(insns, end, i)
    {
      if i > 0 { assert FollowOn(rest, end, i - 1); }
    }
  }

  // ----- assembling -----------------------------------------------------------------------------------

  function Bytes16(x: nat): seq<byte> { [x / 0x100 % 0x100, x % 0x100] }

  function Bytes32(x: nat): seq<byte> { Bytes16(x / 0x1_0000) + Bytes16(x % 0x1_0000) }

  /** The operand bytes of an instruction. */
  function OperandBytes(raw: Raw, f: Format): seq<byte> {
    match raw.operand
    case NoOperand => []
    case Local(i) => if f.LocalIndex? then [i % 0x100] else []
    case IncBy(i, d) => [i % 0x100, d % 0x100]
    case Constant(v) => if f.Const1? then [v % 0x100] else Bytes16(v % 0x1_0000)
    case Pool(i) => if f.Pool8? then [i % 0x100] else if f.Pool16? then Bytes16(i) else Bytes16(i) + [0, 0]
    case Kind(k) => [k % 0x100]
    case Target(t) => if f.Branch16? then Bytes16((t - raw.off) % 0x1_0000) else Bytes32((t - raw.off) % 0x1_0000_0000)
    case Multi(i, d) => Bytes16(i) + [d % 0x100]
  }

  function WideBytes(operand: Operand): seq<byte> {
    match operand
    case Local(i) => Bytes16(i)
    case IncBy(i, d) => Bytes16(i) + Bytes16(d % 0x1_0000)
    case _ => []
  }

  function Assemble(raw: Raw): seq<byte> {
    if raw.wide then [0xc4, raw.code] + WideBytes(raw.operand) else [raw.code] + OperandBytes(raw, FormatOf(raw.code))
  }

  function AssembleAll(insns: seq<Raw>): seq<byte> {
    if insns == [] then [] else Assemble(insns[0]) + AssembleAll(insns[1..])
  }

  /** An instruction the format can express. */
  predicate Encodable(raw: Raw) {
    if raw.wide then
      match raw.operand
      case Local(i) => raw.len == 4 && i < 0x1_0000 && (IsLoad(raw.code) || IsStore(raw.code) || raw.code == RET)
      case IncBy(i, d) => raw.len == 6 && i < 0x1_0000 && raw.code == IINC && -0x8000 <= d < 0x8000
      case _ => false
    else
      var f := FormatOf(raw.code);
      && !f.Wide? && !f.Illegal? && !f.SwitchTable? && raw.len == FixedLen(f)
      && match f
         case Plain => raw.operand == Shorthand(raw.code)
         case LocalIndex => raw.operand.Local? && raw.operand.index < 0x100
         case Increment => raw.operand.IncBy? && raw.operand.index < 0x100 && -0x80 <= raw.operand.delta < 0x80
         case Const1 => raw.operand.Constant? && -0x80 <= raw.operand.v < 0x80
         case Const2 => raw.operand.Constant? && -0x8000 <= raw.operand.v < 0x8000
         case Pool8 => raw.operand.Pool? && raw.operand.index < 0x100
         case Pool16 => raw.operand.Pool? && raw.operand.index < 0x1_0000
         case ArrayKind => raw.operand.Kind? && 4 <= raw.operand.kind <= 11
         case Branch16 => raw.operand.Target? && -0x8000 <= raw.operand.offset - raw.off < 0x8000
           && raw.operand.offset < 0x1_0000_0000
         case Branch32 => raw.operand.Target? && -0x8000_0000 <= raw.operand.offset - raw.off < 0x8000_0000
           && raw.operand.offset < 0x1_0000_0000
         case Interface => raw.operand.Pool? && raw.operand.index < 0x1_0000
         case Dynamic => raw.operand.Pool? && raw.operand.index < 0x1_0000
         case MultiPool => raw.operand.Multi? && raw.operand.index < 0x1_0000 && raw.operand.dims < 0x100
         case _ => false
  }

  lemma Number16(x: nat)
    requires x < 0x1_0000
    ensures |Bytes16(x)| == 2 && Word(Bytes16(x)[0], Bytes16(x)[1]) == x
  {
  }

  lemma SignedBack(v: int)
    ensures -0x80 <= v < 0x80 ==> Signed8(v % 0x100) == v
    ensures -0x8000 <= v < 0x8000 ==> Signed16(v % 0x1_0000) == v
    ensures -0x8000_0000 <= v < 0x8000_0000 ==> Signed32(v % 0x1_0000_0000) == v
  {
  }

  lemma BranchBack(off: nat, t: nat)
    requires t < 0x1_0000_0000
    ensures Absolute(off, t - off) == t
  {
  }

  /** The bytes of `part` stand at `p`. */
  predicate Holds(code: seq<byte>, p: nat, part: seq<byte>) {
    p + |part| <= |code| && code[p..p + |part|] == part
  }

  lemma HoldsAt(code: seq<byte>, p: nat, part: seq<byte>, k: nat)
    requires Holds(code, p, part) && k < |part|
    ensures p + k < |code| && code[p + k] == part[k]
  {
  }

  lemma Holds16(code: seq<byte>, p: nat, x: nat)
    requires x < 0x1_0000 && Holds(code, p, Bytes16(x))
    ensures Be16(code, p) == x
  {
    Number16(x);
    HoldsAt(code, p, Bytes16(x), 0);
    HoldsAt(code, p, Bytes16(x), 1);
  }

  lemma HoldsConcat(code: seq<byte>, p: nat, a: seq<byte>, b: seq<byte>)
    requires Holds(code, p, a + b)
    ensures Holds(code, p, a) && Holds(code, p + |a|, b)
  {
    assert code[p..p + |a|] == (a + b)[..|a|] == a;
    assert code[p + |a|..p + |a| + |b|] == (a + b)[|a|..] == b;
  }

  lemma Holds32(code: seq<byte>, p: nat, x: nat)
    requires x < 0x1_0000_0000 && Holds(code, p, Bytes32(x))
    ensures Be32(code, p) == x
  {
    HoldsConcat(code, p, Bytes16(x / 0x1_0000), Bytes16(x % 0x1_0000));
    Holds16(code, p, x / 0x1_0000);
    Holds16(code, p + 2, x % 0x1_0000);
  }

  lemma Mod16(t: nat, off: nat)
    requires t < 0x1_0000_0000 && -0x8000 <= t - off < 0x8000
    ensures Absolute(off, Signed16((t - off) % 0x1_0000)) == t
  {
    SignedBack(t - off);
    BranchBack(off, t);
  }

  lemma Mod32(t: nat, off: nat)
    requires t < 0x1_0000_0000 && -0x8000_0000 <= t - off < 0x8000_0000
    ensures Absolute(off, Signed32((t - off) % 0x1_0000_0000)) == t
  {
    SignedBack(t - off);
    BranchBack(off, t);
  }

  /** Formats whose operand is made of single bytes. */
  lemma BytesBack(code: seq<byte>, raw: Raw, f: Format)
    requires f == FormatOf(raw.code) && (f.LocalIndex? || f.Increment? || f.Const1? || f.Pool8? || f.ArrayKind?)
    requires !raw.wide && Encodable(raw) && Holds(code, raw.off + 1, OperandBytes(raw, f))
    ensures |OperandBytes(raw, f)| + 1 == raw.len && OperandAt(code, raw.off, f) == raw.operand
  {
    var operand := OperandBytes(raw, f);
    HoldsAt(code, raw.off + 1, operand, 0);
    if f.Increment? {
      HoldsAt(code, raw.off + 1, operand, 1);
      SignedBack(raw.operand.delta);
    }
    if f.Const1? { SignedBack(raw.operand.v); }
  }

  /** Formats with a 16-bit operand. */
  lemma WordBack(code: seq<byte>, raw: Raw, f: Format)
    requires f == FormatOf(raw.code) && (f.Const2? || f.Pool16? || f.Branch16?)
    requires !raw.wide && Encodable(raw) && Holds(code, raw.off + 1, OperandBytes(raw, f))
    ensures |OperandBytes(raw, f)| + 1 == raw.len && OperandAt(code, raw.off, f) == raw.operand
  {
    var p := raw.off + 1;
    if f.Const2? {
      Holds16(code, p, raw.operand.v % 0x1_0000);
      SignedBack(raw.operand.v);
    } else if f.Pool16? {
      Holds16(code, p, raw.operand.index);
    } else {
      Holds16(code, p, (raw.operand.offset - raw.off) % 0x1_0000);
      Mod16(raw.operand.offset, raw.off);
    }
  }

  lemma LongBack(code: seq<byte>, raw: Raw, f: Format)
    requires f == FormatOf(raw.code) && (f.Branch32? || f.Interface? || f.Dynamic? || f.MultiPool?)
    requires !raw.wide && Encodable(raw) && Holds(code, raw.off + 1, OperandBytes(raw, f))
    ensures |OperandBytes(raw, f)| + 1 == raw.len && OperandAt(code, raw.off, f) == raw.operand
  {
    var p := raw.off + 1;
    if f.Branch32? {
      Holds32(code, p, (raw.operand.offset - raw.off) % 0x1_0000_0000);
      Mod32(raw.operand.offset, raw.off);
    } else if f.MultiPool? {
      HoldsConcat(code, p, Bytes16(raw.operand.index), [raw.operand.dims % 0x100]);
      Holds16(code, p, raw.operand.index);
      HoldsAt(code, p + 2, [raw.operand.dims % 0x100], 0);
    } else {
      HoldsConcat(code, p, Bytes16(raw.operand.index), [0, 0]);
      Holds16(code, p, raw.operand.index);
    }
  }

  lemma OperandBack(code: seq<byte>, raw: Raw)
    requires !raw.wide && Encodable(raw) && Holds(code, raw.off, Assemble(raw))
    ensures |Assemble(raw)| == raw.len && raw.off + raw.len <= |code| && InsnAt(code, raw.off) == Ok(raw)
  {
    var f := FormatOf(raw.code);
    HoldsConcat(code, raw.off, [raw.code], OperandBytes(raw, f));
    HoldsAt(code, raw.off, [raw.code], 0);
    if f.Plain? {
    } else if f.Const2? || f.Pool16? || f.Branch16? {
      WordBack(code, raw, f);
    } else if f.Branch32? || f.Interface? || f.Dynamic? || f.MultiPool? {
      LongBack(code, raw, f);
    } else {
      BytesBack(code, raw, f);
    }
  }

  lemma WideBytesBack(code: seq<byte>, p: nat, raw: Raw)
    requires raw.wide && Encodable(raw) && Holds(code, p, WideBytes(raw.operand))
    ensures |WideBytes(raw.operand)| + 2 == raw.len && Be16(code, p) == raw.operand.index
    ensures raw.operand.IncBy? ==> Signed16(Be16(code, p + 2)) == raw.operand.delta
  {
    match raw.operand
    case Local(i) => Holds16(code, p, i);
    case IncBy(i, d) =>
      HoldsConcat(code, p, Bytes16(i), Bytes16(d % 0x1_0000));
      Holds16(code, p, i);
      Holds16(code, p + 2, d % 0x1_0000);
      SignedBack(d);
  }

  lemma WideBack(code: seq<byte>, raw: Raw)
    requires raw.wide && Encodable(raw) && Holds(code, raw.off, Assemble(raw))
    ensures |Assemble(raw)| == raw.len && code[raw.off] == 0xc4 && WideAt(code, raw.off) == Ok(raw)
  {
    var prefix: seq<byte> := [0xc4, raw.code];
    HoldsConcat(code, raw.off, prefix, WideBytes(raw.operand));
    HoldsAt(code, raw.off, prefix, 0);
    HoldsAt(code, raw.off, prefix, 1);
    WideBytesBack(code, raw.off + 2, raw);
  }

  lemma InsnBack(code: seq<byte>, raw: Raw)
    requires Encodable(raw) && Holds(code, raw.off, Assemble(raw))
    ensures |Assemble(raw)| == raw.len && raw.off < |code| && InsnAt(code, raw.off) == Ok(raw)
  {
    if raw.wide { WideBack(code, raw); } else { OperandBack(code, raw); }
  }

  /** Decoding assembled code gives back the instructions, whatever stands before them. */
  lemma {:induction false} AssembledFrom(before: seq<byte>, insns: seq<Raw>)
    requires forall i :: 0 <= i < |insns| ==> Encodable(insns[i])
    requires Fills(insns, |before|, |before + AssembleAll(insns)|)
    ensures InsnsFrom(before + AssembleAll(insns), |before|) == Ok(insns)
    decreases insns
  {
    var code := before + AssembleAll(insns);
    if insns != [] {
      var (raw, rest) := (insns[0], insns[1..]);
      var head := Assemble(raw);
      assert code == (before + head) + AssembleAll(rest);
      assert code[|before|..|before| + |head|] == head;
      FillsTail(insns, |before|, |code|);
      InsnBack(code, raw);
      AssembledFrom(before + head, rest);
      assert insns == [raw] + rest;
    }
  }

  lemma FillsTail(insns: seq<Raw>, start: nat, end: nat)
    requires insns != [] && Fills(insns, start, end)
    ensures insns[0].off == start && insns[0].len > 0 && Fills(insns[1..], start + insns[0].len, end)
  {
    assert FollowOn(insns, end, 0);
    forall i | 0 <= i < |insns[1..]|
      ensures FollowOn(insns[1..], end, i)
    {
      assert FollowOn(insns, end, i + 1);
    }
  }

  lemma Assembled(insns: seq<Raw>)
    requires (forall i :: 0 <= i < |insns| ==> Encodable(insns[i])) && Fills(insns, 0, |AssembleAll(insns)|)
    ensures InsnsFrom(AssembleAll(insns), 0) == Ok(insns)
  {
    assert [] + AssembleAll(insns) == AssembleAll(insns);
    AssembledFrom([], insns);
  }
}
