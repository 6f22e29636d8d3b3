/** The int fragment of the virtual machine's instruction set, and what it does. */
module Jvm {
  import opened Results
  import opened JavaInts

  /** The semantic class of an instruction with its operand; the jumps keep their targets
      apart (see `Cfg`). */
  datatype Sem =
    | Nop
    | Push(v: int)
    | Load(slot: nat)
    | Store(slot: nat)
    | Pop | Pop2 | Dup | DupX1 | DupX2 | Dup2 | Dup2X1 | Dup2X2 | Swap
    | Binary(bop: BinOp)
    | Negate
    | ShiftBy(sop: ShiftOp)
    | BitsWith(iop: BitOp)
    | If(c: Cond)
    | IfCmp(c: Cond)
    | Goto
    | Return(hasValue: bool)

  /** Control does not simply fall out of this instruction. */
  predicate EndsBlock(sem: Sem) { sem.If? || sem.IfCmp? || sem.Goto? || sem.Return? }

  predicate Fits(sem: Sem, maxLocals: nat) {
    (sem.Load? || sem.Store?) ==> sem.slot < maxLocals
  }

  // ----- the machine -----------------------------------------------------------------

  /** The top of the stack is its last element. `taken` is the outcome of the branch. */
  datatype Machine =
    | Running(locals: seq<int>, stack: seq<int>, taken: Option<bool>)
    | Finished(value: Option<int>)
    | Faulted
    | Stuck

  function Needs(sem: Sem): nat {
    match sem
    case Nop | Push(_) | Load(_) | Goto => 0
    case Store(_) | Pop | Dup | Negate | If(_) => 1
    case Pop2 | DupX1 | Dup2 | Swap | Binary(_) | ShiftBy(_) | BitsWith(_) | IfCmp(_) => 2
    case DupX2 | Dup2X1 => 3
    case Dup2X2 => 4
    case Return(hasValue) => if hasValue then 1 else 0
  }

  predicate Shuffles(sem: Sem) {
    sem.Dup? || sem.DupX1? || sem.DupX2? || sem.Dup2? || sem.Dup2X1? || sem.Dup2X2? || sem.Swap?
  }

  function Step(sem: Sem, m: Machine): Machine
    requires m.Running?
  {
    var (l, s, n) := (m.locals, m.stack, |m.stack|);
    if n < Needs(sem) || !Fits(sem, |l|) then Stuck
    else match sem
      case Nop => m
      case Goto => m
      case Push(v) => m.(stack := s + [v])
      case Load(x) => m.(stack := s + [l[x]])
      case Store(x) => m.(locals := l[x := s[n - 1]], stack := s[..n - 1])
      case Pop => m.(stack := s[..n - 1])
      case Pop2 => m.(stack := s[..n - 2])
      case Dup => m.(stack := s + [s[n - 1]])
      case DupX1 => m.(stack := s[..n - 2] + [s[n - 1]] + [s[n - 2]] + [s[n - 1]])
      case DupX2 => m.(stack := s[..n - 3] + [s[n - 1]] + [s[n - 3]] + [s[n - 2]] + [s[n - 1]])
      case Dup2 => m.(stack := s + [s[n - 2]] + [s[n - 1]])
      case Dup2X1 => m.(stack := s[..n - 3] + [s[n - 2]] + [s[n - 1]] + [s[n - 3]] + [s[n - 2]] + [s[n - 1]])
      case Dup2X2 => m.(stack := s[..n - 4] + [s[n - 2]] + [s[n - 1]] + [s[n - 4]] + [s[n - 3]] + [s[n - 2]]
        + [s[n - 1]])
      case Swap => m.(stack := s[..n - 2] + [s[n - 1]] + [s[n - 2]])
      case Binary(op) =>
        (match Arith(op, Int, s[n - 2], s[n - 1])
         case Some(v) => m.(stack := s[..n - 2] + [v])
         case None => Faulted)
      case Negate => m.(stack := s[..n - 1] + [Wrap(Int, -s[n - 1])])
      case ShiftBy(op) => m.(stack := s[..n - 2] + [Shift(op, Int, s[n - 2], s[n - 1])])
      case BitsWith(op) => m.(stack := s[..n - 2] + [Bitwise(op, Int, s[n - 2], s[n - 1])])
      case If(c) => m.(stack := s[..n - 1], taken := Some(Holds(c, s[n - 1], 0)))
      case IfCmp(c) => m.(stack := s[..n - 2], taken := Some(Holds(c, s[n - 2], s[n - 1])))
      case Return(hasValue) => Finished(if hasValue then Some(s[n - 1]) else None)
  }

  function Steps(code: seq<Sem>, m: Machine): Machine {
    if code == [] then m
    else
      var n := |code| - 1;
      var before := Steps(code[..n], m);
      if before.Running? then Step(code[n], before) else before
  }

  // ----- stack depths, as the bytecode verifier computes them ---------------------------

  function Grows(sem: Sem): int {
    match sem
    case Nop | Goto | Swap | Negate => 0
    case Push(_) | Load(_) | Dup | DupX1 | DupX2 => 1
    case Dup2 | Dup2X1 | Dup2X2 => 2
    case Store(_) | Pop | Binary(_) | ShiftBy(_) | BitsWith(_) | If(_) => -1
    case Pop2 | IfCmp(_) => -2
    case Return(hasValue) => if hasValue then -1 else 0
  }

  /** The depth after the code, `None` when it underflows. */
  function Depth(code: seq<Sem>, depth: nat): Option<nat> {
    if code == [] then Some(depth)
    else
      var n := |code| - 1;
      match Depth(code[..n], depth)
      case Some(d) => if d < Needs(code[n]) then None else Some(d + Grows(code[n]))
      case None => None
  }
}
