/** The instruction formats of section 6.5 of the Java Virtual Machine Specification, with the opcodes in
    decimal as they stand there: what the decoder makes of each of them. */
module Mnemonics {
  import opened Results
  import opened Bits
  import opened Decode
  import opened DecodedCode
  import Cfg
  import Jvm
  import JavaInts

  // ----- writing int instructions ---------------------------------------------------------------------

  /** One instruction may have a short form, a usual one, and one for large operands. */
  datatype Form = Short | Usual | Extended

  function ConditionNumber(c: JavaInts.Cond): nat {
    match c
    case Eq => 0
    case Ne => 1
    case Lt => 2
    case Ge => 3
    case Gt => 4
    case Le => 5
  }

  /** Instructions without operand. */
  function Opcode(sem: Jvm.Sem): Option<byte> {
    match sem
    case Nop => Some(0)
    case Pop => Some(87)
    case Pop2 => Some(88)
    case Dup => Some(89)
    case DupX1 => Some(90)
    case DupX2 => Some(91)
    case Dup2 => Some(92)
    case Dup2X1 => Some(93)
    case Dup2X2 => Some(94)
    case Swap => Some(95)
    case Binary(op) => (match op
      case Add => Some(96) case Sub => Some(100) case Mul => Some(104) case Div => Some(108) case Rem => Some(112))
    case Negate => Some(116)
    case ShiftBy(op) => (match op case Shl => Some(120) case Shr => Some(122) case Ushr => Some(124))
    case BitsWith(op) => (match op case And => Some(126) case Or => Some(128) case Xor => Some(130))
    case Return(hasValue) => if hasValue then Some(172) else Some(177)
    case _ => None
  }

  function Branch(op: byte, delta: int): Option<seq<byte>> {
    if -0x8000 <= delta < 0x8000 then Some([op] + Bytes16(delta % 0x1_0000)) else None
  }

  function Variable(short: byte, usual: byte, x: nat, form: Form): Option<seq<byte>>
    requires short <= 252
  {
    match form
    case Short => if x < 4 then Some([short + x]) else None
    case Usual => if x < 0x100 then Some([usual, x]) else None
    case Extended => if x < 0x1_0000 then Some([196, usual] + Bytes16(x)) else None
  }

  /** The bytes of an instruction; `delta` is how far a jump goes. */
  function Written(sem: Jvm.Sem, delta: int, form: Form): Option<seq<byte>> {
    match sem
    case Push(v) => (match form
      case Short => if v == 0 then Some([3]) else None
      case Usual => if -0x80 <= v < 0x80 then Some([16, v % 0x100]) else None
      case Extended => if -0x8000 <= v < 0x8000 then Some([17] + Bytes16(v % 0x1_0000)) else None)
    case Load(x) => Variable(26, 21, x, form)
    case Store(x) => Variable(59, 54, x, form)
    case If(c) => if form.Usual? then Branch(153 + ConditionNumber(c), delta) else None
    case IfCmp(c) => if form.Usual? then Branch(159 + ConditionNumber(c), delta) else None
    case Goto => (match form
      case Short => None
      case Usual => Branch(167, delta)
      case Extended =>
        if -0x8000_0000 <= delta < 0x8000_0000 then Some([200] + Bytes32(delta % 0x1_0000_0000)) else None)
    case _ => if form.Usual? && Opcode(sem).Some? then Some([Opcode(sem).value]) else None
  }

  /** Where control goes after it, if it jumps by `delta` from `off`. */
  function FlowAfter(sem: Jvm.Sem, target: nat): Cfg.Flow {
    match sem
    case If(_) => Cfg.Cond(target)
    case IfCmp(_) => Cfg.Cond(target)
    case Goto => Cfg.Jump(target)
    case Return(_) => Cfg.Stop
    case _ => Cfg.Next
  }

  predicate IsBranch(sem: Jvm.Sem) { sem.If? || sem.IfCmp? || sem.Goto? }

  /** The decoder finds the instruction, with its length and its target. */
  ghost predicate ReadsAs(code: seq<byte>, off: nat, sem: Jvm.Sem, len: nat, target: nat) {
    && off < |code| && InsnAt(code, off).Ok?
    && var raw := InsnAt(code, off).value;
       raw.len == len && SemOf(raw) == Some(sem) && FlowOf(raw) == FlowAfter(sem, target)
  }

  /** The opcodes of the branches with a 16-bit distance. */
  predicate BranchOpcode(sem: Jvm.Sem, op: byte) {
    || (sem.If? && op == 153 + ConditionNumber(sem.c))
    || (sem.IfCmp? && op == 159 + ConditionNumber(sem.c))
    || (sem.Goto? && op == 167)
  }

  lemma BranchDecoded(code: seq<byte>, off: nat, op: byte, delta: int, target: nat)
    requires 153 <= op <= 167 && -0x8000 <= delta < 0x8000 && target == off + delta < 0x1_0000_0000
    requires Holds(code, off, [op] + Bytes16(delta % 0x1_0000))
    ensures off < |code| && InsnAt(code, off) == Ok(Raw(off, op, 3, Target(target), false))
  {
    var word := delta % 0x1_0000;
    HoldsConcat(code, off, [op], Bytes16(word));
    HoldsAt(code, off, [op], 0);
    Holds16(code, off + 1, word);
    Mod16(target, off);
  }

  lemma BranchMeaning(sem: Jvm.Sem, raw: Raw, target: nat)
    requires BranchOpcode(sem, raw.code) && raw.operand == Target(target)
    ensures SemOf(raw) == Some(sem) && FlowOf(raw) == FlowAfter(sem, target)
  {
  }

  lemma BranchRead(code: seq<byte>, off: nat, sem: Jvm.Sem, op: byte, delta: int, target: nat)
    requires BranchOpcode(sem, op) && -0x8000 <= delta < 0x8000 && target == off + delta < 0x1_0000_0000
    requires Holds(code, off, [op] + Bytes16(delta % 0x1_0000))
    ensures ReadsAs(code, off, sem, 3, target)
  {
    BranchDecoded(code, off, op, delta, target);
    BranchMeaning(sem, Raw(off, op, 3, Target(target), false), target);
  }

  lemma LongGotoRead(code: seq<byte>, off: nat, delta: int, target: nat)
    requires -0x8000_0000 <= delta < 0x8000_0000 && target == off + delta < 0x1_0000_0000
    requires Holds(code, off, [200] + Bytes32(delta % 0x1_0000_0000))
    ensures ReadsAs(code, off, Jvm.Goto, 5, target)
  {
    var word := delta % 0x1_0000_0000;
    HoldsConcat(code, off, [200], Bytes32(word));
    HoldsAt(code, off, [200], 0);
    Holds32(code, off + 1, word);
    Mod32(target, off);
  }

  /** Without operand bytes. */
  lemma PlainRead(code: seq<byte>, off: nat, sem: Jvm.Sem, op: byte)
    requires Holds(code, off, [op]) && Opcode(sem) == Some(op)
    ensures ReadsAs(code, off, sem, 1, 0)
  {
    HoldsAt(code, off, [op], 0);
  }

  lemma ShortRead(code: seq<byte>, off: nat, sem: Jvm.Sem, op: byte)
    requires Holds(code, off, [op])
    requires (op == 3 && sem == Jvm.Push(0)) || (26 <= op < 30 && sem == Jvm.Load(op - 26))
      || (59 <= op < 63 && sem == Jvm.Store(op - 59))
    ensures ReadsAs(code, off, sem, 1, 0)
  {
    HoldsAt(code, off, [op], 0);
  }

  /** With one operand byte. */
  lemma NarrowRead(code: seq<byte>, off: nat, sem: Jvm.Sem, op: byte, x: byte)
    requires Holds(code, off, [op, x])
    requires (op == 16 && sem.Push? && -0x80 <= sem.v < 0x80 && x == sem.v % 0x100)
      || (op == 21 && sem == Jvm.Load(x)) || (op == 54 && sem == Jvm.Store(x))
    ensures ReadsAs(code, off, sem, 2, 0)
  {
    HoldsAt(code, off, [op, x], 0);
    HoldsAt(code, off, [op, x], 1);
    if sem.Push? { SignedBack(sem.v); }
  }

  lemma LongPushRead(code: seq<byte>, off: nat, v: int)
    requires -0x8000 <= v < 0x8000 && Holds(code, off, [17] + Bytes16(v % 0x1_0000))
    ensures ReadsAs(code, off, Jvm.Push(v), 3, 0)
  {
    var word := v % 0x1_0000;
    HoldsConcat(code, off, [17], Bytes16(word));
    HoldsAt(code, off, [17], 0);
    Holds16(code, off + 1, word);
    SignedBack(v);
  }

  lemma WideRead(code: seq<byte>, off: nat, sem: Jvm.Sem, op: byte, x: nat)
    requires x < 0x1_0000 && Holds(code, off, [196, op] + Bytes16(x))
    requires (op == 21 && sem == Jvm.Load(x)) || (op == 54 && sem == Jvm.Store(x))
    ensures ReadsAs(code, off, sem, 4, 0)
  {
    HoldsConcat(code, off, [196, op], Bytes16(x));
    HoldsAt(code, off, [196, op], 0);
    HoldsAt(code, off, [196, op], 1);
    Holds16(code, off + 2, x);
  }

  lemma VariableRead(code: seq<byte>, off: nat, sem: Jvm.Sem, x: nat, form: Form, bytes: seq<byte>)
    requires sem == Jvm.Load(x) || sem == Jvm.Store(x)
    requires Written(sem, 0, form) == Some(bytes) && Holds(code, off, bytes)
    ensures ReadsAs(code, off, sem, |bytes|, 0)
  {
    match form
    case Short => ShortRead(code, off, sem, bytes[0]);
    case Usual => NarrowRead(code, off, sem, bytes[0], bytes[1]);
    case Extended => WideRead(code, off, sem, bytes[1], x);
  }

  lemma PushRead(code: seq<byte>, off: nat, v: int, form: Form, bytes: seq<byte>)
    requires Written(Jvm.Push(v), 0, form) == Some(bytes) && Holds(code, off, bytes)
    ensures ReadsAs(code, off, Jvm.Push(v), |bytes|, 0)
  {
    match form
    case Short => ShortRead(code, off, Jvm.Push(v), 3);
    case Usual => NarrowRead(code, off, Jvm.Push(v), 16, bytes[1]);
    case Extended => LongPushRead(code, off, v);
  }

  lemma JumpRead(code: seq<byte>, off: nat, sem: Jvm.Sem, delta: int, form: Form, bytes: seq<byte>, target: nat)
    requires IsBranch(sem) && Written(sem, delta, form) == Some(bytes) && Holds(code, off, bytes)
    requires target == off + delta < 0x1_0000_0000
    ensures ReadsAs(code, off, sem, |bytes|, target)
  {
    if form.Extended? {
      LongGotoRead(code, off, delta, target);
    } else {
      BranchRead(code, off, sem, bytes[0], delta, target);
    }
  }

  /** Every int instruction, in each of its forms and wherever it stands, is read as itself: with its
      length, its meaning, and its target if it jumps. */
  lemma MnemonicRead(code: seq<byte>, off: nat, sem: Jvm.Sem, delta: int, form: Form, bytes: seq<byte>, target: nat)
    requires Written(sem, delta, form) == Some(bytes) && Holds(code, off, bytes)
    requires target == (if IsBranch(sem) then off + delta else 0) && target < 0x1_0000_0000
    ensures ReadsAs(code, off, sem, |bytes|, target)
  {
    if IsBranch(sem) {
      JumpRead(code, off, sem, delta, form, bytes, target);
    } else if sem.Push? {
      PushRead(code, off, sem.v, form, bytes);
    } else if sem.Load? || sem.Store? {
      VariableRead(code, off, sem, sem.slot, form, bytes);
    } else {
      PlainRead(code, off, sem, bytes[0]);
    }
  }

  // ----- and nothing else is read as one ----------------------------------------------------------------

  /** `wide` before an instruction that already names its variable, which no format allows. */
  predicate WideShorthand(raw: Raw) { raw.wide && raw.code != 21 && raw.code != 54 }

  lemma Signed8Bytes(x: byte)
    ensures -0x80 <= Signed8(x) < 0x80 && Signed8(x) % 0x100 == x
  {
  }

  lemma Signed16Bytes(code: seq<byte>, p: nat)
    requires p + 2 <= |code|
    ensures var v := Signed16(Be16(code, p)); -0x8000 <= v < 0x8000 && Bytes16(v % 0x1_0000) == code[p..p + 2]
    ensures Be16(code, p) < 0x1_0000 && Bytes16(Be16(code, p)) == code[p..p + 2]
  {
    var (hi, lo) := (code[p], code[p + 1]);
    assert Be16(code, p) / 0x100 == hi && Be16(code, p) % 0x100 == lo;
    assert Signed16(Be16(code, p)) % 0x1_0000 == Be16(code, p);
  }

  /** The bytes of the instruction at `off` are one of the forms of `sem`. */
  ghost predicate Spells(code: seq<byte>, off: nat, raw: Raw, sem: Jvm.Sem, delta: int, form: Form) {
    && off + raw.len <= |code| && Written(sem, delta, form) == Some(code[off..off + raw.len])
    && (IsBranch(sem) ==> FlowOf(raw) == FlowAfter(sem, Absolute(off, delta)))
  }

  lemma PlainOnly(code: seq<byte>, off: nat, raw: Raw, sem: Jvm.Sem)
    requires off < |code| && InsnAt(code, off) == Ok(raw) && SemOf(raw) == Some(sem) && !raw.wide
    requires !IsBranch(sem) && !sem.Push? && !sem.Load? && !sem.Store?
    ensures Spells(code, off, raw, sem, 0, Usual)
  {
    assert code[off..off + 1] == [code[off]];
  }

  lemma PushOnly(code: seq<byte>, off: nat, raw: Raw, sem: Jvm.Sem) returns (form: Form)
    requires off < |code| && InsnAt(code, off) == Ok(raw) && SemOf(raw) == Some(sem) && !raw.wide && sem.Push?
    ensures Spells(code, off, raw, sem, 0, form)
  {
    if raw.code == 3 {
      form := Short;
      assert code[off..off + 1] == [code[off]];
    } else if raw.code == 16 {
      form := Usual;
      Signed8Bytes(code[off + 1]);
      assert code[off..off + 2] == [code[off], code[off + 1]];
    } else {
      form := Extended;
      Signed16Bytes(code, off + 1);
      assert code[off..off + 3] == [code[off]] + code[off + 1..off + 3];
    }
  }

  lemma VariableOnly(code: seq<byte>, off: nat, raw: Raw, sem: Jvm.Sem) returns (form: Form)
    requires off < |code| && InsnAt(code, off) == Ok(raw) && SemOf(raw) == Some(sem) && (sem.Load? || sem.Store?)
    requires !WideShorthand(raw)
    ensures Spells(code, off, raw, sem, 0, form)
  {
    if raw.wide {
      form := Extended;
      Signed16Bytes(code, off + 2);
      assert code[off..off + 4] == [code[off], code[off + 1]] + code[off + 2..off + 4];
    } else if raw.code == 21 || raw.code == 54 {
      form := Usual;
      assert code[off..off + 2] == [code[off], code[off + 1]];
    } else {
      form := Short;
      assert code[off..off + 1] == [code[off]];
    }
  }

  lemma Halves(x: nat, hi: nat, lo: nat)
    requires hi < 0x1_0000 && lo < 0x1_0000 && x == hi * 0x1_0000 + lo
    ensures Bytes32(x) == Bytes16(hi) + Bytes16(lo)
    ensures x < 0x1_0000_0000 && Signed32(x) % 0x1_0000_0000 == x
  {
    assert x / 0x1_0000 == hi && x % 0x1_0000 == lo;
  }

  lemma Signed32Bytes(code: seq<byte>, p: nat)
    requires p + 4 <= |code|
    ensures var v := Signed32(Be32(code, p));
      -0x8000_0000 <= v < 0x8000_0000 && Bytes32(v % 0x1_0000_0000) == code[p..p + 4]
  {
    Signed16Bytes(code, p);
    Signed16Bytes(code, p + 2);
    Halves(Be32(code, p), Be16(code, p), Be16(code, p + 2));
    assert code[p..p + 4] == code[p..p + 2] + code[p + 2..p + 4];
  }

  lemma NearJumpOnly(code: seq<byte>, off: nat, raw: Raw, sem: Jvm.Sem) returns (delta: int)
    requires off < |code| && InsnAt(code, off) == Ok(raw) && SemOf(raw) == Some(sem) && !raw.wide && IsBranch(sem)
    requires raw.code != 200
    ensures Spells(code, off, raw, sem, delta, Usual)
  {
    delta := Signed16(Be16(code, off + 1));
    Signed16Bytes(code, off + 1);
    assert code[off..off + 3] == [code[off]] + code[off + 1..off + 3];
  }

  lemma FarJumpOnly(code: seq<byte>, off: nat, raw: Raw) returns (delta: int)
    requires off < |code| && InsnAt(code, off) == Ok(raw) && !raw.wide && raw.code == 200
    ensures Spells(code, off, raw, Jvm.Goto, delta, Extended)
  {
    delta := Signed32(Be32(code, off + 1));
    Signed32Bytes(code, off + 1);
    assert code[off..off + 5] == [code[off]] + code[off + 1..off + 5];
  }

  lemma WideIsVariable(code: seq<byte>, off: nat, raw: Raw)
    requires off < |code| && InsnAt(code, off) == Ok(raw) && SemOf(raw).Some? && raw.wide
    ensures SemOf(raw).value.Load? || SemOf(raw).value.Store?
  {
  }

  /** Whatever is read as an int instruction is one of its forms, `wide` shorthands apart. */
  lemma OnlyMnemonics(code: seq<byte>, off: nat, raw: Raw, sem: Jvm.Sem) returns (delta: int, form: Form)
    requires off < |code| && InsnAt(code, off) == Ok(raw) && SemOf(raw) == Some(sem) && !WideShorthand(raw)
    ensures Spells(code, off, raw, sem, delta, form)
  {
    delta, form := 0, Usual;
    if raw.wide { WideIsVariable(code, off, raw); }
    if sem.Load? || sem.Store? {
      form := VariableOnly(code, off, raw, sem);
    } else if sem.Push? {
      form := PushOnly(code, off, raw, sem);
    } else if IsBranch(sem) {
      if raw.code == 200 {
        form := Extended;
        delta := FarJumpOnly(code, off, raw);
      } else {
        delta := NearJumpOnly(code, off, raw, sem);
      }
    } else {
      PlainOnly(code, off, raw, sem);
    }
  }

  // ----- the `wide` prefix --------------------------------------------------------------------------------

  /** The instructions that have a wide form: `iload` to `aload`, `istore` to `astore`, `iinc` and `ret`. */
  predicate HasWideForm(op: byte) { 21 <= op <= 25 || 54 <= op <= 58 || op == 132 || op == 169 }

  /** `iload_0` to `aload_3` and `istore_0` to `astore_3`. */
  predicate NamesVariable(op: byte) { 26 <= op <= 45 || 59 <= op <= 78 }

  /** The decoder also takes a variable from the bytes behind a shorthand. */
  lemma WideIff(code: seq<byte>, off: nat)
    requires off + 6 <= |code| && code[off] == 196
    ensures InsnAt(code, off).Ok? <==> HasWideForm(code[off + 1]) || NamesVariable(code[off + 1])
    ensures NamesVariable(code[off + 1]) ==>
      InsnAt(code, off) == Ok(Raw(off, code[off + 1], 4, Local(Be16(code, off + 2)), true))
  {
  }

  // ----- the other instructions ---------------------------------------------------------------------------

  /** How many bytes an instruction takes; the switches and `wide` are variable. */
  function LengthOf(op: byte): nat {
    if op == 16 || op == 18 || 21 <= op <= 25 || 54 <= op <= 58 || op == 169 || op == 188 then 2
    else if op == 17 || op == 19 || op == 20 || op == 132 || 153 <= op <= 168 || 178 <= op <= 184 then 3
    else if op == 187 || op == 189 || op == 192 || op == 193 || op == 198 || op == 199 then 3
    else if op == 197 then 4
    else if op == 185 || op == 186 || op == 200 || op == 201 then 5
    else 1
  }

  /** Each opcode takes its bytes, or is reported as truncated; 201 is the last, and `newarray` checks
      its element type. */
  lemma LengthsRead(code: seq<byte>, off: nat, op: byte)
    requires off < |code| && op == code[off] && op != 170 && op != 171 && op != 196
    ensures op > 201 ==> InsnAt(code, off) == Err(IllegalOpcode)
    ensures op <= 201 && off + LengthOf(op) > |code| ==> InsnAt(code, off) == Err(Truncated)
    ensures op <= 201 && off + LengthOf(op) <= |code| ==>
      if op == 188 && !(4 <= code[off + 1] <= 11) then InsnAt(code, off) == Err(BadArrayKind)
      else InsnAt(code, off).Ok? && InsnAt(code, off).value.len == LengthOf(op)
  {
  }

  /** The kind of operand behind each opcode. */
  datatype Layout = Bare | Index | Named(first: byte) | Increase | Byte | Short16 | Pool1 | Pool2 | Element | Near | Far
    | Dimensions

  function LayoutOf(op: byte): Layout {
    if op == 16 then Byte
    else if op == 17 then Short16
    else if op == 18 then Pool1
    else if op == 19 || op == 20 || 178 <= op <= 187 || op == 189 || op == 192 || op == 193 then Pool2
    else if 21 <= op <= 25 || 54 <= op <= 58 || op == 169 then Index
    else if 26 <= op <= 45 then Named(26)
    else if 59 <= op <= 78 then Named(59)
    else if op == 132 then Increase
    else if 153 <= op <= 168 || op == 198 || op == 199 then Near
    else if op == 188 then Element
    else if op == 197 then Dimensions
    else if op == 200 || op == 201 then Far
    else Bare
  }

  /** The operand agrees with the bytes behind the opcode. */
  predicate OperandFits(code: seq<byte>, off: nat, op: byte, operand: Operand)
    requires off + LengthOf(op) <= |code|
  {
    match LayoutOf(op)
    case Bare => operand == NoOperand
    case Index => operand == Local(code[off + 1])
    case Named(first) => operand == Local((op - first) % 4)
    case Increase =>
      && operand.IncBy? && operand.index == code[off + 1]
      && -0x80 <= operand.delta < 0x80 && operand.delta % 0x100 == code[off + 2]
    case Byte => operand.Constant? && -0x80 <= operand.v < 0x80 && operand.v % 0x100 == code[off + 1]
    case Short16 =>
      operand.Constant? && -0x8000 <= operand.v < 0x8000 && Bytes16(operand.v % 0x1_0000) == code[off + 1..off + 3]
    case Pool1 => operand == Pool(code[off + 1])
    case Pool2 => operand.Pool? && operand.index < 0x1_0000 && Bytes16(operand.index) == code[off + 1..off + 3]
    case Element => operand == Kind(code[off + 1])
    case Near =>
      exists delta :: -0x8000 <= delta < 0x8000 && ToTarget(code, off, operand, delta, Bytes16(delta % 0x1_0000))
    case Far =>
      exists delta :: -0x8000_0000 <= delta < 0x8000_0000
        && ToTarget(code, off, operand, delta, Bytes32(delta % 0x1_0000_0000))
    case Dimensions =>
      && operand.Multi? && operand.index < 0x1_0000 && Bytes16(operand.index) == code[off + 1..off + 3]
      && operand.dims == code[off + 3]
  }

  predicate ToTarget(code: seq<byte>, off: nat, operand: Operand, delta: int, bytes: seq<byte>) {
    Holds(code, off + 1, bytes) && operand == Target((off + delta) % 0x1_0000_0000)
  }

  lemma WordFits(code: seq<byte>, off: nat, op: byte)
    requires off < |code| && op == code[off] && InsnAt(code, off).Ok? && op != 196
    requires LayoutOf(op).Short16? || LayoutOf(op).Pool2? || LayoutOf(op).Dimensions?
    ensures off + LengthOf(op) <= |code| && OperandFits(code, off, op, InsnAt(code, off).value.operand)
  {
    Signed16Bytes(code, off + 1);
  }

  lemma NearFits(code: seq<byte>, off: nat, op: byte)
    requires off < |code| && op == code[off] && InsnAt(code, off).Ok? && LayoutOf(op).Near?
    ensures off + LengthOf(op) <= |code| && OperandFits(code, off, op, InsnAt(code, off).value.operand)
  {
    var delta := Signed16(Be16(code, off + 1));
    Signed16Bytes(code, off + 1);
    assert ToTarget(code, off, InsnAt(code, off).value.operand, delta, Bytes16(delta % 0x1_0000));
  }

  lemma FarFits(code: seq<byte>, off: nat, op: byte)
    requires off < |code| && op == code[off] && InsnAt(code, off).Ok? && LayoutOf(op).Far?
    ensures off + LengthOf(op) <= |code| && OperandFits(code, off, op, InsnAt(code, off).value.operand)
  {
    var delta := Signed32(Be32(code, off + 1));
    Signed32Bytes(code, off + 1);
    assert ToTarget(code, off, InsnAt(code, off).value.operand, delta, Bytes32(delta % 0x1_0000_0000));
  }

  lemma ByteFits(code: seq<byte>, off: nat, op: byte)
    requires off < |code| && op == code[off] && InsnAt(code, off).Ok?
    requires LayoutOf(op).Byte? || LayoutOf(op).Increase? || LayoutOf(op).Index? || LayoutOf(op).Pool1?
      || LayoutOf(op).Element?
    ensures off + LengthOf(op) <= |code| && OperandFits(code, off, op, InsnAt(code, off).value.operand)
  {
    if LayoutOf(op).Increase? { Signed8Bytes(code[off + 2]); } else { Signed8Bytes(code[off + 1]); }
  }

  /** Every instruction that is decoded has the operand its bytes say. */
  lemma OperandsRead(code: seq<byte>, off: nat, op: byte)
    requires off < |code| && op == code[off] && InsnAt(code, off).Ok? && op != 196
    ensures off + LengthOf(op) <= |code| && OperandFits(code, off, op, InsnAt(code, off).value.operand)
  {
    match LayoutOf(op)
    case Short16 | Pool2 | Dimensions => WordFits(code, off, op);
    case Near => NearFits(code, off, op);
    case Far => FarFits(code, off, op);
    case Byte | Increase | Index | Pool1 | Element => ByteFits(code, off, op);
    case Bare | Named(_) =>
  }

  /** Which instructions branch, jump or end the flow, switches apart. */
  lemma FlowsRead(raw: Raw)
    requires raw.code != 170 && raw.code != 171
    ensures FlowOf(raw).Cond? <==> 153 <= raw.code <= 166 || raw.code == 198 || raw.code == 199
    ensures FlowOf(raw).Jump? <==> raw.code == 167 || raw.code == 168 || raw.code == 200 || raw.code == 201
    ensures FlowOf(raw).Stop? <==> raw.code == 169 || 172 <= raw.code <= 177 || raw.code == 191
  {
  }
}
