/** Variable names: one name per slot, and fresh names for the temporaries. */
module Names {
  import opened JavaInts
  import opened Emulation
  import opened BlockMeaning

  function Digit(d: nat): char
    requires d < 10
  {
    "0123456789"[d]
  }

  function Decimal(n: nat): (s: string)
    ensures s != []
  {
    if n < 10 then [Digit(n)] else Decimal(n / 10) + [Digit(n % 10)]
  }

  /** The number a string of digits stands for. */
  function Value(s: string): int {
    if s == "" then 0 else 10 * Value(s[..|s| - 1]) + (s[|s| - 1] as int - '0' as int)
  }

  lemma {:induction false} DecimalValue(n: nat)
    ensures Value(Decimal(n)) == n
  {
    if n < 10 {
      assert Decimal(n)[..0] == "";
    } else {
      DecimalValue(n / 10);
      assert Decimal(n)[..|Decimal(n)| - 1] == Decimal(n / 10);
    }
  }

  lemma DecimalInjective(m: nat, n: nat)
    requires Decimal(m) == Decimal(n)
    ensures m == n
  {
    DecimalValue(m);
    DecimalValue(n);
  }

  function Numbered(prefix: string, n: nat): string { prefix + Decimal(n) }

  lemma NumberedInjective(prefix: string, m: nat, n: nat)
    requires Numbered(prefix, m) == Numbered(prefix, n)
    ensures m == n
  {
    assert Decimal(m) == Numbered(prefix, m)[|prefix|..];
    assert Decimal(n) == Numbered(prefix, n)[|prefix|..];
    DecimalInjective(m, n);
  }

  /** The first number, counting up from `start`, whose name is not in use. Only finitely
      many names are, and no two numbers share one. */
  method FirstFree(prefix: string, start: nat, used: set<string>) returns (n: nat)
    ensures n >= start && Numbered(prefix, n) !in used
    ensures forall m :: start <= m < n ==> Numbered(prefix, m) in used
  {
    n := start;
    ghost var tried: set<string> := {};
    while Numbered(prefix, n) in used
      invariant n >= start
      invariant forall m :: start <= m < n ==> Numbered(prefix, m) in used
      invariant forall t :: t in tried ==> exists m: nat :: m < n && t == Numbered(prefix, m)
      decreases used - tried
    {
      if Numbered(prefix, n) in tried {
        var m: nat :| m < n && Numbered(prefix, n) == Numbered(prefix, m);
        NumberedInjective(prefix, m, n);
      }
      tried := tried + {Numbered(prefix, n)};
      n := n + 1;
    }
  }

  function NamesOf(infos: seq<LocalInfo>): (r: set<string>)
    ensures forall i :: 0 <= i < |infos| ==> infos[i].name in r
    ensures forall s :: s in r ==> exists i :: 0 <= i < |infos| && infos[i].name == s
  {
    set i | 0 <= i < |infos| :: infos[i].name
  }

  /** `default_local_name` */
  function DefaultName(ty: Ty, slot: nat): string {
    (if ty.Int? then "i" else "j") + Decimal(slot) + "$"
  }

  /** The name wanted for a variable. */
  function Wanted(info: LocalInfo): string {
    if info.name == "" then DefaultName(info.ty, info.slot) else info.name
  }

  /** A variable keeps its wanted name unless an earlier one has it, and then gets the first
      free numbered variation. */
  ghost predicate NamedAt(infos: seq<LocalInfo>, was: seq<LocalInfo>, i: nat)
    requires i < |infos| == |was|
  {
    var (want, earlier) := (Wanted(was[i]), NamesOf(infos[..i]));
    && infos[i] == was[i].(name := infos[i].name)
    && if want !in earlier then infos[i].name == want
       else exists n: nat :: n >= 1 && infos[i].name == Numbered(want + "$", n) && infos[i].name !in earlier
                             && forall m :: 1 <= m < n ==> Numbered(want + "$", m) in earlier
  }

  /** The first `i` slots have their names. */
  ghost predicate Settled(infos: seq<LocalInfo>, was: seq<LocalInfo>, i: nat, used: set<string>) {
    && i <= |infos| == |was| && used == NamesOf(infos[..i]) && infos[i..] == was[i..]
    && Unique(infos[..i])
    && forall k :: 0 <= k < i ==> NamedAt(infos, was, k)
  }

  lemma SettledUnique(infos: seq<LocalInfo>, i: nat, name: string)
    requires i < |infos| && Unique(infos[..i]) && name !in NamesOf(infos[..i])
    ensures Unique(infos[i := infos[i].(name := name)][..i + 1])
  {
    var more := infos[i := infos[i].(name := name)];
    var first, named := infos[..i], more[..i + 1];
    forall a, b | 0 <= a < b < |named|
      ensures named[a].name != named[b].name
    {
      assert named[a] == first[a];
      if b < i { assert named[b] == first[b]; }
    }
  }

  lemma SettledNames(infos: seq<LocalInfo>, i: nat, name: string)
    requires i < |infos|
    ensures NamesOf(infos[i := infos[i].(name := name)][..i + 1]) == NamesOf(infos[..i]) + {name}
  {
    var more := infos[i := infos[i].(name := name)];
    assert more[..i + 1] == infos[..i] + [more[i]];
    forall s
      ensures s in NamesOf(more[..i + 1]) <==> s in NamesOf(infos[..i]) + {name}
    {
      if s in NamesOf(infos[..i]) {
        var k :| 0 <= k < i && infos[..i][k].name == s;
        assert more[..i + 1][k].name == s;
      }
      if s == name { assert more[..i + 1][i].name == s; }
    }
  }

  lemma SettleOne(infos: seq<LocalInfo>, was: seq<LocalInfo>, i: nat, used: set<string>, name: string)
    requires Settled(infos, was, i, used) && i < |infos| && name !in used
    requires NamedAt(infos[i := infos[i].(name := name)], was, i)
    ensures Settled(infos[i := infos[i].(name := name)], was, i + 1, used + {name})
  {
    var more := infos[i := infos[i].(name := name)];
    SettledUnique(infos, i, name);
    SettledNames(infos, i, name);
    forall k | 0 <= k < i
      ensures NamedAt(more, was, k)
    {
      assert NamedAt(infos, was, k);
      assert more[..k] == infos[..k];
    }
  }

  /** The choice the loop makes for slot `i`, as the specification has it. */
  lemma ChosenName(infos: seq<LocalInfo>, was: seq<LocalInfo>, i: nat, want: string, name: string, n: nat)
    requires i < |infos| == |was| && infos[i] == was[i] && want == Wanted(was[i])
    requires if want !in NamesOf(infos[..i]) then name == want
             else n >= 1 && name == Numbered(want + "$", n) && name !in NamesOf(infos[..i])
                  && forall m :: 1 <= m < n ==> Numbered(want + "$", m) in NamesOf(infos[..i])
    ensures NamedAt(infos[i := infos[i].(name := name)], was, i)
  {
    var more := infos[i := infos[i].(name := name)];
    assert more[..i] == infos[..i] && more[i].name == name;
  }

  /** `make_names_unique` */
  method MakeNamesUnique(locals: array<LocalInfo>)
    modifies locals
    ensures Unique(locals[..])
    ensures forall i :: 0 <= i < locals.Length ==> NamedAt(locals[..], old(locals[..]), i)
  {
    ghost var was := locals[..];
    var used: set<string> := {};
    for i := 0 to locals.Length
      invariant Settled(locals[..], was, i, used)
    {
      ghost var before := locals[..];
      assert before[i] == before[i..][0] == was[i..][0] == was[i];
      var name := if locals[i].name == "" then DefaultName(locals[i].ty, locals[i].slot) else locals[i].name;
      ghost var want, number := name, 1;
      if name in used {
        var n := FirstFree(name + "$", 1, used);
        number := n;
        name := Numbered(name + "$", n);
      }
      ChosenName(before, was, i, want, name, number);
      locals[i] := locals[i].(name := name);
      assert locals[..] == before[i := before[i].(name := name)];
      SettleOne(before, was, i, used, name);
      used := used + {name};
    }
    assert locals[..][..locals.Length] == locals[..];
  }
}
