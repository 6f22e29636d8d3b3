/** Type descriptors (section 4.3 of the Java Virtual Machine Specification). Characters
    stand for the bytes of the text. */
module Descriptors {
  import opened Results

  datatype JType =
    | Void | Boolean | Char | Byte | Short | Int | Long | Float | Double
    | Class(name: string)
    | Array(el: JType)
    | TypeVar(name: string)

  datatype MethodProto = MethodProto(args: seq<JType>, ret: JType)

  // ----- writing ---------------------------------------------------------------------------

  /** `write_descriptor` */
  function WriteDescriptor(t: JType): string {
    match t
    case Void => "V"
    case Boolean => "Z"
    case Char => "C"
    case Byte => "B"
    case Short => "S"
    case Int => "I"
    case Long => "J"
    case Float => "F"
    case Double => "D"
    case TypeVar(n) => n
    case Class(c) => "L" + c + ";"
    case Array(el) => "[" + WriteDescriptor(el)
  }

  function WriteAll(args: seq<JType>): string {
    if args == [] then "" else WriteDescriptor(args[0]) + WriteAll(args[1..])
  }

  function MethodText(args: seq<JType>, ret: JType): string { "(" + WriteAll(args) + ")" + WriteDescriptor(ret) }

  /** `method_descriptor` */
  method MethodDescriptor(args: seq<JType>, ret: JType) returns (out: string)
    ensures out == MethodText(args, ret)
  {
    out := "(";
    for k := 0 to |args|
      invariant out + WriteAll(args[k..]) == "(" + WriteAll(args)
    {
      assert args[k..][0] == args[k] && args[k..][1..] == args[k + 1..];
      assert out + (WriteDescriptor(args[k]) + WriteAll(args[k + 1..]))
        == (out + WriteDescriptor(args[k])) + WriteAll(args[k + 1..]);
      out := out + WriteDescriptor(args[k]);
    }
    assert args[|args|..] == [];
    out := out + ")" + WriteDescriptor(ret);
  }

  // ----- reading -----------------------------------------------------------------------------

  /** The position of the first `c` at or after `i`. */
  function FindChar(s: string, c: char, i: nat): (r: Option<nat>)
    requires i <= |s|
    ensures r.Some? ==> i <= r.value < |s| && s[r.value] == c && forall k :: i <= k < r.value ==> s[k] != c
    ensures r.None? ==> forall k :: i <= k < |s| ==> s[k] != c
    decreases |s| - i
  {
    if i == |s| then None else if s[i] == c then Some(i) else FindChar(s, c, i + 1)
  }

  /** The type a character stands for on its own. */
  function Primitive(c: char): Option<JType> {
    match c
    case 'V' => Some(Void)
    case 'Z' => Some(Boolean)
    case 'C' => Some(Char)
    case 'B' => Some(Byte)
    case 'S' => Some(Short)
    case 'I' => Some(Int)
    case 'J' => Some(Long)
    case 'F' => Some(Float)
    case 'D' => Some(Double)
    case _ => None
  }

  /** A type that has a descriptor of its own: no type variable, and no semicolon in the
      name of a class. */
  predicate Formed(t: JType) {
    match t
    case TypeVar(_) => false
    case Class(c) => ';' !in c
    case Array(el) => Formed(el)
    case _ => true
  }

  /** What `from_descriptor_at` finds at `pos`: the type, if there is one, and the new
      position. Failing after a `[` leaves the position behind the bracket. */
  function ReadType(s: string, pos: nat): (r: (Option<JType>, nat))
    ensures pos <= r.1
    ensures r.0.Some? ==> pos < r.1 <= |s| && Formed(r.0.value)
    decreases |s| - pos
  {
    if pos >= |s| then (None, pos)
    else if Primitive(s[pos]).Some? then (Primitive(s[pos]), pos + 1)
    else if s[pos] == 'L' then
      match FindChar(s, ';', pos + 1)
      case Some(end) => (Some(Class(s[pos + 1..end])), end + 1)
      case None => (None, pos)
    else if s[pos] == '[' then
      var (el, next) := ReadType(s, pos + 1);
      (if el.Some? then Some(Array(el.value)) else None, next)
    else (None, pos)
  }

  /** The arguments up to the closing parenthesis; what is no type is skipped. */
  function ReadArgs(s: string, pos: nat): (r: (seq<JType>, nat))
    ensures pos <= r.1
    decreases |s| - pos
  {
    if pos >= |s| || s[pos] == ')' then ([], pos)
    else
      var (t, next) := ReadType(s, pos);
      if t.Some? then
        var (args, end) := ReadArgs(s, next);
        ([t.value] + args, end)
      else ReadArgs(s, next + 1)
  }

  function ReadMethod(s: string): MethodProto {
    var (args, end) := if s != "" && s[0] == '(' then ReadArgs(s, 1) else ([], 0);
    var pos := if s != "" && s[0] == '(' && end < |s| then end + 1 else end;
    var ret := ReadType(s, pos).0;
    MethodProto(args, if ret.Some? then ret.value else Void)
  }

  /** The arguments from `from` on are `args` and those from `i` on. */
  ghost predicate ReadSoFar(s: string, from: nat, args: seq<JType>, i: nat) {
    ReadArgs(s, from) == (args + ReadArgs(s, i).0, ReadArgs(s, i).1)
  }

  /** One turn of the argument loop: a type `t` was looked for at `i`. */
  lemma ReadOn(s: string, from: nat, args: seq<JType>, i: nat, t: Option<JType>, j: nat)
    requires ReadSoFar(s, from, args, i) && i < |s| && s[i] != ')' && ReadType(s, i) == (t, j)
    ensures t.Some? ==> ReadSoFar(s, from, args + [t.value], j)
    ensures t.None? ==> ReadSoFar(s, from, args, j + 1)
  {
    if t.Some? {
      var rest := ReadArgs(s, j).0;
      assert ReadArgs(s, i) == ([t.value] + rest, ReadArgs(s, j).1);
      assert args + ([t.value] + rest) == (args + [t.value]) + rest;
    }
  }

  /** A descriptor being read: the text and the cursor. */
  class Cursor {
    const desc: string
    var pos: nat

    constructor (desc: string)
      ensures this.desc == desc && pos == 0
    {
      this.desc, pos := desc, 0;
    }

    /** `from_descriptor_at`: a type found moves the cursor behind it. */
    method FromDescriptorAt() returns (t: Option<JType>)
      modifies this
      ensures (t, pos) == ReadType(desc, old(pos))
      decreases |desc| - pos
    {
      var i := pos;
      if i >= |desc| { return None; }
      t := Primitive(desc[i]);
      if t.Some? {
        pos := i + 1;
      } else if desc[i] == 'L' {
        var semi := FindChar(desc, ';', i + 1);
        if semi.Some? {
          pos := semi.value + 1;
          t := Some(Class(desc[i + 1..semi.value]));
        }
      } else if desc[i] == '[' {
        pos := i + 1;
        var el := FromDescriptorAt();
        if el.Some? { t := Some(Array(el.value)); }
      }
    }

    method Arguments() returns (args: seq<JType>)
      modifies this
      ensures (args, pos) == ReadArgs(desc, old(pos))
    {
      args := [];
      assert [] + ReadArgs(desc, pos).0 == ReadArgs(desc, pos).0;
      while pos < |desc| && desc[pos] != ')'
        invariant ReadSoFar(desc, old(pos), args, pos)
        decreases |desc| - pos
      {
        ghost var before := pos;
        var t := FromDescriptorAt();
        ReadOn(desc, old(pos), args, before, t, pos);
        match t {
          case Some(ty) => args := args + [ty];
          case None => pos := pos + 1;
        }
      }
      assert args + [] == args;
    }

    /** `parse_method_descriptor`, from the start of the text. */
    method ParseMethod() returns (proto: MethodProto)
      requires pos == 0
      modifies this
      ensures proto == ReadMethod(desc)
    {
      var args: seq<JType> := [];
      if pos < |desc| && desc[pos] == '(' {
        pos := pos + 1;
        args := Arguments();
        if pos < |desc| { pos := pos + 1; }
      }
      var ret := FromDescriptorAt();
      proto := MethodProto(args, if ret.Some? then ret.value else Void);
    }
  }

  // ----- reading what was written -----------------------------------------------------------------

  lemma FirstIs(s: string, c: char, i: nat, end: nat)
    requires i <= end < |s| && s[end] == c && forall k :: i <= k < end ==> s[k] != c
    ensures FindChar(s, c, i) == Some(end)
  {
  }

  /** `w` stands in `s` at `i`. */
  predicate StandsAt(s: string, i: nat, w: string) { i + |w| <= |s| && s[i..i + |w|] == w }

  lemma StandsChar(s: string, i: nat, w: string, k: nat)
    requires StandsAt(s, i, w) && k < |w|
    ensures s[i + k] == w[k]
  {
    assert s[i..i + |w|][k] == w[k];
  }

  lemma StandsInTwo(s: string, i: nat, w: string, a: string, b: string, j: nat)
    requires StandsAt(s, i, w) && w == a + b && j == i + |a|
    ensures StandsAt(s, i, a) && StandsAt(s, j, b)
  {
    assert s[i..i + |a|] == w[..|a|] == a;
    assert s[j..j + |b|] == w[|a|..] == b;
  }

  lemma ClassBack(s: string, i: nat, c: string, w: string, end: nat)
    requires ';' !in c && w == "L" + c + ";" && StandsAt(s, i, w) && end == i + |w|
    ensures ReadType(s, i) == (Some(Class(c)), end)
  {
    StandsChar(s, i, w, 0);
    StandsChar(s, i, w, |w| - 1);
    forall k | i + 1 <= k < end - 1
      ensures s[k] == c[k - i - 1]
    {
      StandsChar(s, i, w, k - i);
    }
    FirstIs(s, ';', i + 1, end - 1);
    assert s[i + 1..end - 1] == c;
  }

  lemma ArrayBack(s: string, i: nat, el: JType, j: nat, end: nat)
    requires i < |s| && s[i] == '[' && j == i + 1 && ReadType(s, j) == (Some(el), end)
    ensures ReadType(s, i) == (Some(Array(el)), end)
  {
  }

  lemma PrimitiveBack(s: string, i: nat, t: JType, w: string, end: nat)
    requires !t.Class? && !t.Array? && !t.TypeVar? && w == WriteDescriptor(t) && StandsAt(s, i, w) && end == i + |w|
    ensures ReadType(s, i) == (Some(t), end)
  {
    StandsChar(s, i, w, 0);
  }

  /** The descriptor of a type, wherever it stands, is read as that type. */
  lemma {:induction false} TypeBack(t: JType, s: string, i: nat, w: string, end: nat)
    requires Formed(t) && w == WriteDescriptor(t) && StandsAt(s, i, w) && end == i + |w|
    ensures ReadType(s, i) == (Some(t), end)
    decreases t
  {
    match t
    case Class(c) => ClassBack(s, i, c, w, end);
    case Array(el) =>
      StandsInTwo(s, i, w, "[", WriteDescriptor(el), i + 1);
      StandsChar(s, i, w, 0);
      TypeBack(el, s, i + 1, WriteDescriptor(el), end);
      ArrayBack(s, i, el, i + 1, end);
    case _ => PrimitiveBack(s, i, t, w, end);
  }

  /** The text between the two positions is the descriptor of the type, if there is one. */
  ghost predicate WrittenAt(s: string, pos: nat, r: (Option<JType>, nat)) {
    r.0.Some? ==> pos <= r.1 <= |s| && s[pos..r.1] == WriteDescriptor(r.0.value)
  }

  lemma PrimitiveWritten(s: string, pos: nat)
    requires pos < |s| && Primitive(s[pos]).Some?
    ensures WrittenAt(s, pos, ReadType(s, pos))
  {
    assert s[pos..pos + 1] == [s[pos]];
  }

  lemma ClassText(s: string, pos: nat, end: nat, name: string)
    requires pos < end < |s| && s[pos] == 'L' && s[end] == ';' && name == s[pos + 1..end]
    ensures s[pos..end + 1] == WriteDescriptor(Class(name))
  {
  }

  lemma ClassWritten(s: string, pos: nat)
    requires pos < |s| && s[pos] == 'L'
    ensures WrittenAt(s, pos, ReadType(s, pos))
  {
    var semi := FindChar(s, ';', pos + 1);
    if semi.Some? { ClassText(s, pos, semi.value, s[pos + 1..semi.value]); }
  }

  lemma ArrayWritten(s: string, pos: nat, r: (Option<JType>, nat))
    requires pos < |s| && s[pos] == '[' && r == ReadType(s, pos + 1) && WrittenAt(s, pos + 1, r)
    ensures WrittenAt(s, pos, ReadType(s, pos))
  {
    if r.0.Some? { assert s[pos..r.1] == "[" + s[pos + 1..r.1]; }
  }

  /** Conversely, the text of a type that is found is the descriptor of that type. */
  lemma {:induction false} TypeIsWritten(s: string, pos: nat)
    ensures WrittenAt(s, pos, ReadType(s, pos))
    decreases |s| - pos
  {
    if pos < |s| {
      if Primitive(s[pos]).Some? {
        PrimitiveWritten(s, pos);
      } else if s[pos] == 'L' {
        ClassWritten(s, pos);
      } else if s[pos] == '[' {
        TypeIsWritten(s, pos + 1);
        ArrayWritten(s, pos, ReadType(s, pos + 1));
      }
    }
  }

  lemma OneMoreArg(s: string, i: nat, t: JType, j: nat, rest: seq<JType>, end: nat)
    requires i < |s| && s[i] != ')' && ReadType(s, i) == (Some(t), j) && ReadArgs(s, j) == (rest, end)
    ensures ReadArgs(s, i) == ([t] + rest, end)
  {
  }

  lemma NoMoreArgs(s: string, i: nat, w: string)
    requires StandsAt(s, i, w) && w == ")"
    ensures ReadArgs(s, i) == ([], i)
  {
    StandsChar(s, i, w, 0);
  }

  predicate AllFormed(args: seq<JType>) { forall k :: 0 <= k < |args| ==> Formed(args[k]) }

  /** One argument, and what stands behind it. */
  lemma ArgRead(t: JType, s: string, i: nat, w: string, head: string, rest: string, j: nat)
    requires Formed(t) && head == WriteDescriptor(t) && w == head + rest && StandsAt(s, i, w) && j == i + |head|
    ensures i < |s| && s[i] != ')' && ReadType(s, i) == (Some(t), j) && StandsAt(s, j, rest)
  {
    StandsInTwo(s, i, w, head, rest, j);
    TypeBack(t, s, i, head, j);
    NoParenthesis(t);
    StandsChar(s, i, head, 0);
  }

  /** All arguments are read back, up to the parenthesis behind them. */
  lemma {:induction false} ArgsBack(args: seq<JType>, s: string, i: nat, w: string, end: nat)
    requires AllFormed(args) && w == WriteAll(args) + ")" && StandsAt(s, i, w) && end == i + |w| - 1
    ensures ReadArgs(s, i) == (args, end)
    decreases args
  {
    if args == [] {
      NoMoreArgs(s, i, w);
    } else {
      var head, rest := WriteDescriptor(args[0]), WriteAll(args[1..]) + ")";
      assert w == head + rest;
      ArgRead(args[0], s, i, w, head, rest, i + |head|);
      ArgsBack(args[1..], s, i + |head|, rest, end);
      OneMoreArg(s, i, args[0], i + |head|, args[1..], end);
      assert args == [args[0]] + args[1..];
    }
  }

  lemma NoParenthesis(t: JType)
    requires Formed(t)
    ensures WriteDescriptor(t) != "" && WriteDescriptor(t)[0] != ')'
  {
  }

  lemma ProtoRead(s: string, args: seq<JType>, j: nat, k: nat, ret: JType, end: nat)
    requires 0 < |s| && s[0] == '(' && ReadArgs(s, 1) == (args, j) && j < |s|
    requires k == j + 1 && ReadType(s, k) == (Some(ret), end)
    ensures ReadMethod(s) == MethodProto(args, ret)
  {
  }

  lemma MethodReads(s: string, args: seq<JType>, w: string, j: nat, ret: JType, r: string, k: nat, end: nat)
    requires Formed(ret) && AllFormed(args) && w == WriteAll(args) + ")" && r == WriteDescriptor(ret)
    requires 0 < |s| && s[0] == '(' && StandsAt(s, 1, w) && StandsAt(s, k, r)
    requires j == |w| && k == j + 1 && end == k + |r|
    ensures ReadMethod(s) == MethodProto(args, ret)
  {
    ArgsBack(args, s, 1, w, j);
    TypeBack(ret, s, k, r, end);
    ProtoRead(s, args, j, k, ret, end);
  }

  /** Reading a written method descriptor gives back its arguments and its result. */
  lemma MethodBack(args: seq<JType>, ret: JType)
    requires Formed(ret) && AllFormed(args)
    ensures ReadMethod(MethodText(args, ret)) == MethodProto(args, ret)
  {
    var s, w, r := MethodText(args, ret), WriteAll(args) + ")", WriteDescriptor(ret);
    Parts(args, ret, s, w, r);
    MethodReads(s, args, w, |w|, ret, r, |w| + 1, |w| + 1 + |r|);
  }

  lemma Parts(args: seq<JType>, ret: JType, s: string, w: string, r: string)
    requires s == MethodText(args, ret) && w == WriteAll(args) + ")" && r == WriteDescriptor(ret)
    ensures 0 < |s| && s[0] == '(' && StandsAt(s, 1, w) && StandsAt(s, |w| + 1, r)
  {
    assert s == "(" + (w + r);
    assert s[1..1 + |w|] == w && s[|w| + 1..|w| + 1 + |r|] == r;
  }

  /** Different methods have different descriptors. */
  lemma MethodTextInjective(args: seq<JType>, ret: JType, args': seq<JType>, ret': JType)
    requires Formed(ret) && Formed(ret') && AllFormed(args) && AllFormed(args')
    requires MethodText(args, ret) == MethodText(args', ret')
    ensures args == args' && ret == ret'
  {
    MethodBack(args, ret);
    MethodBack(args', ret');
  }

  /** A type is read back from its descriptor exactly when it has no type variable and no
      semicolon in a class name. */
  lemma TypeBackIff(t: JType)
    ensures ReadType(WriteDescriptor(t), 0).0 == Some(t) <==> Formed(t)
  {
    if Formed(t) {
      var w := WriteDescriptor(t);
      assert StandsAt(w, 0, w);
      TypeBack(t, w, 0, w, |w|);
    }
  }
}
