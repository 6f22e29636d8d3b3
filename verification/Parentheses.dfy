/** The printer writes no parenthesis too many: among all token lists that are read as a tree the
    printed one is the shortest, and it is the only one of its length. */
module Parentheses {
  import opened Printer
  import opened Ir

  /** The level of the outermost construct of a tree. */
  function LevelOf(t: Tree): nat {
    match t
    case Var(_) => POSTFIX
    case Num(_, _) => POSTFIX
    case Infix(op, _, _) => Level(op)
    case Minussed(_) => UNARY
    case Negated(_) => UNARY
    case Choice(_, _, _) => TERNARY
  }

  /** How many tokens a tree needs where level `l` is asked for. */
  function Need(t: Tree, l: nat): nat
    decreases t, 1
  {
    Bare(t) + if LevelOf(t) < l then 2 else 0
  }

  function Bare(t: Tree): nat
    decreases t, 0
  {
    match t
    case Var(_) => 1
    case Num(_, _) => 1
    case Infix(op, a, b) => Need(a, Level(op)) + 1 + Need(b, Level(op) + 1)
    case Minussed(a) => 1 + Need(a, UNARY)
    case Negated(a) => 1 + Need(a, UNARY)
    case Choice(c, a, b) => Need(c, TERNARY + 1) + 1 + Need(a, TERNARY) + 1 + Need(b, TERNARY)
  }

  // ----- the printer meets the need exactly ----------------------------------------------------

  lemma BinaryParts(e: Expr, p: nat)
    requires Printable(e) && IsBinary(e) && p == Prec(e)
    ensures p == Level(OperatorOf(e)) && TreeOf(e) == Infix(OperatorOf(e), TreeOf(e.a), TreeOf(e.b))
    ensures ExprRaw(e).0 == ExprTokens(e.a, p) + [Sign(OperatorOf(e))] + ExprTokens(e.b, p + 1)
  {
  }

  lemma {:induction false} PrintedNeed(e: Expr, l: nat)
    requires Printable(e) && ASSIGN <= l <= UNARY
    ensures |ExprTokens(e, l)| == Need(TreeOf(e), l)
    decreases e, 1
  {
    RawNeed(e);
    LevelPrinted(e);
  }

  /** A negative number is printed as an atom and read as an operator; no context tells. */
  lemma LevelPrinted(e: Expr)
    requires Printable(e)
    ensures if e.Const? then Prec(e) == POSTFIX && LevelOf(TreeOf(e)) >= UNARY else LevelOf(TreeOf(e)) == Prec(e)
  {
  }

  lemma OtherParts(e: Expr)
    requires Printable(e) && (e.Ternary? || e.Not? || e.Neg?)
    ensures e.Ternary? ==>
      && TreeOf(e) == Choice(TreeOf(e.c), TreeOf(e.a), TreeOf(e.b))
      && |ExprRaw(e).0| == |ExprTokens(e.c, TERNARY + 1)| + |ExprTokens(e.a, ASSIGN)| + |ExprTokens(e.b, ASSIGN)| + 2
    ensures e.Not? ==> TreeOf(e) == Negated(TreeOf(e.a)) && |ExprRaw(e).0| == 1 + |ExprTokens(e.a, UNARY)|
    ensures e.Neg? ==> TreeOf(e) == Minussed(TreeOf(e.a)) && |ExprRaw(e).0| == 1 + |ExprTokens(e.a, UNARY)|
  {
  }

  lemma AtomNeed(e: Expr)
    requires Printable(e) && (e.Const? || e.Local?)
    ensures |ExprRaw(e).0| == Bare(TreeOf(e))
  {
    if e.Const? { assert Need(Num(if e.value < 0 then -e.value else e.value, e.ty), UNARY) == 1; }
  }

  lemma {:induction false} RawNeed(e: Expr)
    requires Printable(e)
    ensures |ExprRaw(e).0| == Bare(TreeOf(e))
    decreases e, 0
  {
    if IsBinary(e) {
      BinaryParts(e, Prec(e));
      PrintedNeed(e.a, Prec(e));
      PrintedNeed(e.b, Prec(e) + 1);
    } else if e.Const? || e.Local? {
      AtomNeed(e);
    } else {
      OtherParts(e);
      PrintedNeed(e.a, if e.Ternary? then ASSIGN else UNARY);
      if e.Ternary? {
        NeedGrows(TreeOf(e.a), ASSIGN);
        NeedGrows(TreeOf(e.b), ASSIGN);
        PrintedNeed(e.c, TERNARY + 1);
        PrintedNeed(e.b, ASSIGN);
      }
    }
  }

  // ----- no list is shorter --------------------------------------------------------------------------

  lemma NeedGrows(t: Tree, l: nat)
    ensures Need(t, l) <= Need(t, l + 1) <= Need(t, l) + 2 && (l <= TERNARY ==> Need(t, l) == Bare(t))
  {
  }

  lemma NeedInfix(op: Operator, a: Tree, b: Tree, l: nat)
    requires l == Level(op)
    ensures Need(Infix(op, a, b), l) == Need(a, l) + 1 + Need(b, l + 1)
  {
  }

  lemma NeedPrefix(t: Tree)
    ensures Need(Minussed(t), UNARY) == Need(Negated(t), UNARY) == 1 + Need(t, UNARY)
  {
  }

  lemma NeedChoice(c: Tree, a: Tree, b: Tree)
    ensures Need(Choice(c, a, b), TERNARY) == Need(c, TERNARY + 1) + Need(a, TERNARY) + Need(b, TERNARY) + 2
  {
  }

  /** What is read at the lowest level: one expression, or three. */
  datatype Lowest = One(c: Parse) | Three(c: Parse, a: Parse, b: Parse)

  /** The parts of a conditional expression, where one is read. */
  lemma LowestParts(ts: Tokens) returns (x: Lowest)
    requires ParseAt(TERNARY, ts).Read?
    ensures x.c == ParseAt(TERNARY + 1, ts) && x.c.Read?
    ensures x.One? ==> ParseAt(TERNARY, ts) == x.c
    ensures x.Three? ==>
      && x.c.rest.More? && x.c.rest.head == Question && x.a == ParseAt(TERNARY, x.c.rest.tail) && x.a.Read?
      && x.a.rest.More? && x.a.rest.head == Colon && x.b == ParseAt(TERNARY, x.a.rest.tail) && x.b.Read?
      && ParseAt(TERNARY, ts) == Read(Choice(x.c.tree, x.a.tree, x.b.tree), x.b.rest)
  {
    var c := ParseAt(TERNARY + 1, ts);
    if c.rest.More? && c.rest.head == Question {
      var a := ParseAt(TERNARY, c.rest.tail);
      x := Three(c, a, ParseAt(TERNARY, a.rest.tail));
    } else {
      x := One(c);
    }
  }

  /** Reading a tree at level `l` takes at least the tokens the tree needs there. */
  lemma {:induction false} ReadTakes(l: nat, ts: Tokens)
    requires TERNARY <= l <= UNARY && ParseAt(l, ts).Read?
    ensures Need(ParseAt(l, ts).tree, l) + ParseAt(l, ts).rest.Size() <= ts.Size()
    decreases ts.Size(), UNARY - l, 2
  {
    if l == TERNARY {
      var x := LowestParts(ts);
      ReadTakes(l + 1, ts);
      NeedGrows(x.c.tree, l);
      if x.Three? {
        ReadTakes(TERNARY, x.c.rest.tail);
        ReadTakes(TERNARY, x.a.rest.tail);
        NeedChoice(x.c.tree, x.a.tree, x.b.tree);
      }
    } else if l < UNARY {
      ReadTakes(l + 1, ts);
      var p := ParseAt(l + 1, ts);
      NeedGrows(p.tree, l);
      MoreTakes(l, p.tree, p.rest);
    } else {
      UnaryTakes(ts);
    }
  }

  lemma {:induction false} UnaryTakes(ts: Tokens)
    requires ParseAt(UNARY, ts).Read?
    ensures Need(ParseAt(UNARY, ts).tree, UNARY) + ParseAt(UNARY, ts).rest.Size() <= ts.Size()
    decreases ts.Size(), 0, 0
  {
    match ts.head
    case Sign(_) => ReadTakes(UNARY, ts.tail);
    case Bang => ReadTakes(UNARY, ts.tail);
    case Open => ReadTakes(TERNARY, ts.tail);
    case _ =>
  }

  lemma {:induction false} MoreTakes(l: nat, left: Tree, ts: Tokens)
    requires TERNARY < l < UNARY && ParseMore(l, left, ts).Read?
    ensures Need(ParseMore(l, left, ts).tree, l) + ParseMore(l, left, ts).rest.Size() <= Need(left, l) + ts.Size()
    decreases ts.Size(), UNARY - l, 1
  {
    if ts.More? && ts.head.Sign? && Level(ts.head.op) == l {
      var p := ParseAt(l + 1, ts.tail);
      ReadTakes(l + 1, ts.tail);
      NeedInfix(ts.head.op, left, p.tree, l);
      MoreTakes(l, Infix(ts.head.op, left, p.tree), p.rest);
    }
  }

  /** No token list that is read as the tree of `e` is shorter than the printed one. So no
      pair of parentheses in it can be left out. */
  lemma NoneShorter(e: Expr, s: seq<Token>)
    requires Printable(e) && ParseAt(TERNARY, Listed(s, End)) == Read(TreeOf(e), End)
    ensures |ExprTokens(e, ASSIGN)| <= |s|
  {
    ReadTakes(TERNARY, Listed(s, End));
    ListedSize(s, End);
    PrintedNeed(e, ASSIGN);
  }

  lemma {:induction false} ListedSize(s: seq<Token>, tail: Tokens)
    ensures Listed(s, tail).Size() == |s| + tail.Size()
  {
    if s != [] { ListedSize(s[1..], tail); }
  }

  // ----- and no other as short -------------------------------------------------------------------------

  /** The tokens of a tree where level `l` is asked for, before `tail`. */
  function Spelled(t: Tree, l: nat, tail: Tokens): Tokens
    decreases t, 1
  {
    if LevelOf(t) < l then More(Open, Spell(t, More(Close, tail))) else Spell(t, tail)
  }

  function Spell(t: Tree, tail: Tokens): Tokens
    decreases t, 0
  {
    match t
    case Var(name) => More(Word(name), tail)
    case Num(n, ty) => More(Number(n, ty), tail)
    case Infix(op, a, b) => Spelled(a, Level(op), More(Sign(op), Spelled(b, Level(op) + 1, tail)))
    case Minussed(a) => More(Sign(Minus), Spelled(a, UNARY, tail))
    case Negated(a) => More(Bang, Spelled(a, UNARY, tail))
    case Choice(c, a, b) =>
      Spelled(c, TERNARY + 1, More(Question, Spelled(a, TERNARY, More(Colon, Spelled(b, TERNARY, tail)))))
  }

  /** `p` was read with no token to spare. */
  predicate Tight(p: Parse, l: nat, size: nat) { p.Read? && Need(p.tree, l) + p.rest.Size() == size }

  lemma SpelledLower(t: Tree, l: nat, tail: Tokens)
    requires Need(t, l) == Need(t, l + 1)
    ensures Spelled(t, l, tail) == Spelled(t, l + 1, tail)
  {
  }

  lemma {:induction false} TightTernary(ts: Tokens)
    requires Tight(ParseAt(TERNARY, ts), TERNARY, ts.Size())
    ensures ts == Spelled(ParseAt(TERNARY, ts).tree, TERNARY, ParseAt(TERNARY, ts).rest)
    decreases ts.Size(), UNARY - TERNARY, 1
  {
    var x := LowestParts(ts);
    ReadTakes(TERNARY + 1, ts);
    NeedGrows(x.c.tree, TERNARY);
    if x.Three? {
      ReadTakes(TERNARY, x.c.rest.tail);
      ReadTakes(TERNARY, x.a.rest.tail);
      NeedChoice(x.c.tree, x.a.tree, x.b.tree);
      TightRead(TERNARY, x.c.rest.tail);
      TightRead(TERNARY, x.a.rest.tail);
    }
    TightRead(TERNARY + 1, ts);
    if x.One? { SpelledLower(x.c.tree, TERNARY, x.c.rest); }
  }

  lemma {:induction false} TightRead(l: nat, ts: Tokens)
    requires TERNARY <= l <= UNARY && Tight(ParseAt(l, ts), l, ts.Size())
    ensures ts == Spelled(ParseAt(l, ts).tree, l, ParseAt(l, ts).rest)
    decreases ts.Size(), UNARY - l, 2
  {
    if l == TERNARY {
      TightTernary(ts);
    } else if l < UNARY {
      var p := ParseAt(l + 1, ts);
      ReadTakes(l + 1, ts);
      MoreTakes(l, p.tree, p.rest);
      NeedGrows(p.tree, l);
      TightRead(l + 1, ts);
      SpelledLower(p.tree, l, p.rest);
      TightMore(l, p.tree, p.rest, ts);
    } else {
      TightUnary(ts);
    }
  }

  lemma {:induction false} TightUnary(ts: Tokens)
    requires Tight(ParseAt(UNARY, ts), UNARY, ts.Size())
    ensures ts == Spelled(ParseAt(UNARY, ts).tree, UNARY, ParseAt(UNARY, ts).rest)
    decreases ts.Size(), 0, 0
  {
    match ts.head
    case Sign(_) =>
      NeedPrefix(ParseAt(UNARY, ts.tail).tree);
      TightRead(UNARY, ts.tail);
    case Bang =>
      NeedPrefix(ParseAt(UNARY, ts.tail).tree);
      TightRead(UNARY, ts.tail);
    case Open =>
      ReadTakes(TERNARY, ts.tail);
      NeedGrows(ParseAt(TERNARY, ts.tail).tree, TERNARY);
      TightRead(TERNARY, ts.tail);
    case _ =>
  }

  lemma {:induction false} TightMore(l: nat, left: Tree, ts: Tokens, whole: Tokens)
    requires TERNARY < l < UNARY && whole == Spelled(left, l, ts)
    requires Tight(ParseMore(l, left, ts), l, Need(left, l) + ts.Size())
    ensures whole == Spelled(ParseMore(l, left, ts).tree, l, ParseMore(l, left, ts).rest)
    decreases ts.Size(), UNARY - l, 1
  {
    if ts.More? && ts.head.Sign? && Level(ts.head.op) == l {
      var p := ParseAt(l + 1, ts.tail);
      var more := Infix(ts.head.op, left, p.tree);
      ReadTakes(l + 1, ts.tail);
      NeedInfix(ts.head.op, left, p.tree, l);
      MoreTakes(l, more, p.rest);
      TightRead(l + 1, ts.tail);
      TightMore(l, more, p.rest, whole);
    }
  }

  /** The printed expression is the only list of its length that is read as its tree. */
  lemma OnlyOne(e: Expr, s: seq<Token>)
    requires Printable(e) && ParseAt(TERNARY, Listed(s, End)) == Read(TreeOf(e), End) && |s| <= |ExprTokens(e, ASSIGN)|
    ensures s == ExprTokens(e, ASSIGN)
  {
    var printed := ExprTokens(e, ASSIGN);
    PrintParse(e);
    PrintedNeed(e, ASSIGN);
    ReadTakes(TERNARY, Listed(s, End));
    ListedSize(s, End);
    ListedSize(printed, End);
    TightRead(TERNARY, Listed(s, End));
    TightRead(TERNARY, Listed(printed, End));
    ListedInjective(s, printed);
  }

  lemma {:induction false} ListedInjective(s: seq<Token>, r: seq<Token>)
    requires Listed(s, End) == Listed(r, End)
    ensures s == r
    decreases |s|
  {
    if s != [] && r != [] {
      ListedInjective(s[1..], r[1..]);
      assert s == [s[0]] + s[1..] && r == [r[0]] + r[1..];
    }
  }
}
