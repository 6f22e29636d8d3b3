/** Two's complement arithmetic of the Java types `int` and `long`. The virtual machine
    and the Java source text give these operators the same meaning. */
module JavaInts {
  import opened Results
  import Bits

  datatype Ty = Int | Long

  function Width(ty: Ty): nat { if ty.Int? then 32 else 64 }

  function Modulus(ty: Ty): (m: nat)
    ensures m > 0 && m % 2 == 0
  {
    if ty.Int? then 0x1_0000_0000 else 0x1_0000_0000_0000_0000
  }

  /** The value of the given type congruent to `x`. */
  function Wrap(ty: Ty, x: int): int {
    (x + Modulus(ty) / 2) % Modulus(ty) - Modulus(ty) / 2
  }

  function Unsigned(ty: Ty, x: int): nat { x % Modulus(ty) }

  datatype BinOp = Add | Sub | Mul | Div | Rem
  datatype ShiftOp = Shl | Shr | Ushr
  datatype BitOp = And | Or | Xor
  datatype Cond = Eq | Ne | Lt | Ge | Gt | Le

  /** Division rounds towards zero. */
  function Quotient(a: int, b: int): int
    requires b != 0
  {
    var q := (if a < 0 then -a else a) / (if b < 0 then -b else b);
    if (a < 0) == (b < 0) then q else -q
  }

  /** `None` is an ArithmeticException. */
  function Arith(op: BinOp, ty: Ty, a: int, b: int): Option<int> {
    match op
    case Add => Some(Wrap(ty, a + b))
    case Sub => Some(Wrap(ty, a - b))
    case Mul => Some(Wrap(ty, a * b))
    case Div => if b == 0 then None else Some(Wrap(ty, Quotient(a, b)))
    case Rem => if b == 0 then None else Some(Wrap(ty, a - b * Quotient(a, b)))
  }

  /** Only the low five (six) bits of the distance count. */
  function Shift(op: ShiftOp, ty: Ty, a: int, b: int): int {
    var n := b % Width(ty);
    match op
    case Shl => Wrap(ty, a * Bits.Pow2(n))
    case Shr => a / Bits.Pow2(n)
    case Ushr => Wrap(ty, Unsigned(ty, a) / Bits.Pow2(n))
  }

  function Bitwise(op: BitOp, ty: Ty, a: int, b: int): int {
    var x, y := Unsigned(ty, a), Unsigned(ty, b);
    match op
    case And => Wrap(ty, Bits.BitAnd(x, y))
    case Or => Wrap(ty, Bits.BitOr(x, y))
    case Xor => Wrap(ty, Bits.BitXor(x, y))
  }

  predicate Holds(c: Cond, a: int, b: int) {
    match c
    case Eq => a == b
    case Ne => a != b
    case Lt => a < b
    case Ge => a >= b
    case Gt => a > b
    case Le => a <= b
  }
}
