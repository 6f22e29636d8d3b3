/** Canonical Huffman codes: the table the decoder builds from code lengths, and
    the code assignment of section 3.2.2 of RFC 1951 it has to invert. */
module Huffman {
  import opened Bits

  /** `counts[l]`: how many symbols have length `l`; `symbols`: the symbols that
      have a code, sorted by (length, symbol), then zeros. */
  datatype Huff = Huff(counts: seq<nat>, symbols: seq<nat>)

  predicate Lengths(lengths: seq<nat>) {
    forall i :: 0 <= i < |lengths| ==> lengths[i] <= 15
  }

  /** The symbols below `n` of length `l`, ascending. */
  function Below(lengths: seq<nat>, l: nat, n: nat): seq<nat>
    requires n <= |lengths|
    decreases n
  {
    if n == 0 then [] else Below(lengths, l, n - 1) + if lengths[n - 1] == l then [n - 1] else []
  }

  /** The symbols of length `l`, ascending. */
  function WithLength(lengths: seq<nat>, l: nat): seq<nat> { Below(lengths, l, |lengths|) }

  function Count(lengths: seq<nat>, l: nat): nat { |WithLength(lengths, l)| }

  /** The symbols of lengths 1 to `l`, sorted by (length, symbol). */
  function ByLength(lengths: seq<nat>, l: nat): seq<nat>
    decreases l, lengths
  {
    if l == 0 then [] else ByLength(lengths, l - 1) + WithLength(lengths, l)
  }

  /** Position of symbol `s` among the symbols of its own length. */
  function Rank(lengths: seq<nat>, s: nat): nat
    requires s < |lengths|
  {
    |Below(lengths, lengths[s], s)|
  }

  /** The table for `lengths`, stated outright. */
  function Table(lengths: seq<nat>): Huff {
    var sorted := ByLength(lengths, 15);
    var size := if lengths == [] then 1 else |lengths|;
    Huff(seq(16, l requires 0 <= l < 16 => if l == 0 then 0 else Count(lengths, l)),
         sorted + seq(if size > |sorted| then size - |sorted| else 0, _ => 0))
  }

  // ----- facts about the sorted symbol list --------------------------------------

  lemma {:induction false} BelowIs(lengths: seq<nat>, l: nat, n: nat, k: nat)
    requires n <= |lengths| && k < |Below(lengths, l, n)|
    ensures var s := Below(lengths, l, n)[k];
      s < n && lengths[s] == l && Rank(lengths, s) == k
    decreases n
  {
    if k < |Below(lengths, l, n - 1)| { BelowIs(lengths, l, n - 1, k); }
  }

  lemma {:induction false} BelowGrows(lengths: seq<nat>, l: nat, m: nat, n: nat)
    requires m <= n <= |lengths|
    ensures Below(lengths, l, m) <= Below(lengths, l, n)
    decreases n
  {
    if m < n { BelowGrows(lengths, l, m, n - 1); }
  }

  lemma RankIs(lengths: seq<nat>, s: nat)
    requires s < |lengths|
    ensures Rank(lengths, s) < Count(lengths, lengths[s])
    ensures WithLength(lengths, lengths[s])[Rank(lengths, s)] == s
  {
    BelowGrows(lengths, lengths[s], s + 1, |lengths|);
  }

  lemma {:induction false} ByLengthGrows(lengths: seq<nat>, l: nat, m: nat)
    requires l <= m
    ensures ByLength(lengths, l) <= ByLength(lengths, m)
    decreases m
  {
    if l < m { ByLengthGrows(lengths, l, m - 1); }
  }

  /** Slot `k` of the run of length-`l` symbols. */
  lemma ByLengthAt(lengths: seq<nat>, l: nat, k: nat, m: nat)
    requires 1 <= l <= m && k < Count(lengths, l)
    ensures |ByLength(lengths, l - 1)| + k < |ByLength(lengths, m)|
    ensures ByLength(lengths, m)[|ByLength(lengths, l - 1)| + k] == WithLength(lengths, l)[k]
  {
    ByLengthGrows(lengths, l, m);
    assert ByLength(lengths, l)[|ByLength(lengths, l - 1)| + k] == WithLength(lengths, l)[k];
  }

  /** How many symbols below `n` have lengths 1 to `m`. */
  function CountBelow(lengths: seq<nat>, m: nat, n: nat): nat
    requires n <= |lengths|
    decreases m
  {
    if m == 0 then 0 else CountBelow(lengths, m - 1, n) + |Below(lengths, m, n)|
  }

  lemma {:induction false} CountBelowStep(lengths: seq<nat>, m: nat, n: nat)
    requires n < |lengths|
    ensures CountBelow(lengths, m, n + 1) == CountBelow(lengths, m, n) + if 1 <= lengths[n] <= m then 1 else 0
    decreases m
  {
    if m > 0 { CountBelowStep(lengths, m - 1, n); }
  }

  lemma {:induction false} CountBelowBound(lengths: seq<nat>, m: nat, n: nat)
    requires n <= |lengths|
    ensures CountBelow(lengths, m, n) <= n
    decreases n
  {
    if n > 0 {
      CountBelowBound(lengths, m, n - 1);
      CountBelowStep(lengths, m, n - 1);
    } else {
      NothingBelow(lengths, m);
    }
  }

  lemma {:induction false} NothingBelow(lengths: seq<nat>, m: nat)
    ensures CountBelow(lengths, m, 0) == 0
  {
    if m > 0 { NothingBelow(lengths, m - 1); }
  }

  lemma {:induction false} ByLengthCounted(lengths: seq<nat>, m: nat)
    ensures |ByLength(lengths, m)| == CountBelow(lengths, m, |lengths|)
  {
    if m > 0 { ByLengthCounted(lengths, m - 1); }
  }

  lemma ByLengthSize(lengths: seq<nat>, m: nat)
    ensures |ByLength(lengths, m)| <= |lengths|
  {
    ByLengthCounted(lengths, m);
    CountBelowBound(lengths, m, |lengths|);
  }

  /** Every position of the sorted list belongs to the run of some length. */
  lemma {:induction false} SlotOf(lengths: seq<nat>, j: nat, m: nat) returns (l: nat, k: nat)
    requires j < |ByLength(lengths, m)|
    ensures 1 <= l <= m && k < Count(lengths, l) && j == |ByLength(lengths, l - 1)| + k
    ensures ByLength(lengths, m)[j] == WithLength(lengths, l)[k]
    decreases m
  {
    if j < |ByLength(lengths, m - 1)| {
      l, k := SlotOf(lengths, j, m - 1);
    } else {
      l, k := m, j - |ByLength(lengths, m - 1)|;
    }
  }

  // ----- building the table ------------------------------------------------------

  /** `h.counts` after the first loop. */
  method CountLengths(lengths: seq<nat>) returns (counts: array<nat>)
    requires Lengths(lengths)
    ensures fresh(counts) && counts.Length == 16
    ensures counts[0] == 0 && forall l :: 1 <= l < 16 ==> counts[l] == Count(lengths, l)
  {
    counts := new nat[16](_ => 0);
    for i := 0 to |lengths|
      invariant forall l :: 0 <= l < 16 ==> counts[l] == |Below(lengths, l, i)|
    {
      counts[lengths[i]] := counts[lengths[i]] + 1;
    }
    counts[0] := 0;
  }

  /** Where the run of length-`l` symbols starts. */
  function Start(lengths: seq<nat>, l: nat): nat
    requires l > 0
  {
    |ByLength(lengths, l - 1)|
  }

  lemma RunsDisjoint(lengths: seq<nat>, l: nat, m: nat)
    requires 1 <= l < m
    ensures Start(lengths, l) + Count(lengths, l) <= Start(lengths, m)
  {
    ByLengthGrows(lengths, l, m - 1);
  }

  /** The run of length `l` once the first `n` symbols have been placed. */
  ghost predicate RunFilled(lengths: seq<nat>, n: nat, symbols: seq<nat>, l: nat)
    requires l > 0 && n <= |lengths|
  {
    var (from, to) := (Start(lengths, l), Start(lengths, l) + |Below(lengths, l, n)|);
    to <= |symbols| && symbols[from..to] == Below(lengths, l, n)
  }

  /** The fill loop after `n` symbols. */
  ghost predicate Filled(lengths: seq<nat>, n: nat, symbols: seq<nat>, offs: seq<nat>) {
    && n <= |lengths| && |offs| == 16
    && |ByLength(lengths, 15)| <= |symbols| == (if lengths == [] then 1 else |lengths|)
    && (forall l :: 1 <= l < 16 ==> offs[l] == Start(lengths, l) + |Below(lengths, l, n)|)
    && (forall l :: 1 <= l < 16 ==> RunFilled(lengths, n, symbols, l))
    && forall j :: |ByLength(lengths, 15)| <= j < |symbols| ==> symbols[j] == 0
  }

  /** The slot symbol `n` goes to lies in its own run and clears the others. */
  lemma SlotInRun(lengths: seq<nat>, n: nat, l: nat)
    requires n < |lengths| && 1 <= lengths[n] < 16 && 1 <= l < 16
    ensures var at := Start(lengths, lengths[n]) + Rank(lengths, n);
      && at < |ByLength(lengths, 15)|
      && (l != lengths[n] ==> at < Start(lengths, l) || Start(lengths, l) + |Below(lengths, l, n)| <= at)
  {
    var x := lengths[n];
    RankIs(lengths, n);
    BelowGrows(lengths, l, n, |lengths|);
    ByLengthAt(lengths, x, Rank(lengths, n), 15);
    if l < x { RunsDisjoint(lengths, l, x); }
    if x < l { RunsDisjoint(lengths, x, l); }
  }

  lemma RunStep(lengths: seq<nat>, n: nat, symbols: seq<nat>, at: nat, l: nat)
    requires n < |lengths| && 1 <= lengths[n] < 16 && 1 <= l < 16
    requires RunFilled(lengths, n, symbols, l)
    requires at == Start(lengths, lengths[n]) + Rank(lengths, n) < |symbols|
    ensures RunFilled(lengths, n + 1, symbols[at := n], l)
  {
    SlotInRun(lengths, n, l);
    var from := Start(lengths, l);
    var to := from + |Below(lengths, l, n)|;
    if l == lengths[n] {
      assert symbols[at := n][from..at + 1] == symbols[from..at] + [n];
    } else {
      assert symbols[at := n][from..to] == symbols[from..to];
    }
  }

  lemma OffsetStep(lengths: seq<nat>, n: nat, offs: seq<nat>, l: nat)
    requires n < |lengths| && |offs| == 16 && lengths[n] < 16 && 1 <= l < 16
    requires offs[l] == Start(lengths, l) + |Below(lengths, l, n)|
    ensures var offs' := if lengths[n] == 0 then offs else offs[lengths[n] := offs[lengths[n]] + 1];
      offs'[l] == Start(lengths, l) + |Below(lengths, l, n + 1)|
  {
  }

  lemma OffsetsStep(lengths: seq<nat>, n: nat, offs: seq<nat>)
    requires n < |lengths| && |offs| == 16 && lengths[n] < 16
    requires forall l :: 1 <= l < 16 ==> offs[l] == Start(lengths, l) + |Below(lengths, l, n)|
    ensures var offs' := if lengths[n] == 0 then offs else offs[lengths[n] := offs[lengths[n]] + 1];
      forall l :: 1 <= l < 16 ==> offs'[l] == Start(lengths, l) + |Below(lengths, l, n + 1)|
  {
    forall l | 1 <= l < 16
      ensures (if lengths[n] == 0 then offs else offs[lengths[n] := offs[lengths[n]] + 1])[l]
        == Start(lengths, l) + |Below(lengths, l, n + 1)|
    {
      OffsetStep(lengths, n, offs, l);
    }
  }

  lemma RunsStep(lengths: seq<nat>, n: nat, m: nat, symbols: seq<nat>, at: nat, symbols': seq<nat>)
    requires n < |lengths| && m == n + 1 && 1 <= lengths[n] < 16
    requires forall l :: 1 <= l < 16 ==> RunFilled(lengths, n, symbols, l)
    requires at == Start(lengths, lengths[n]) + Rank(lengths, n) < |symbols| && symbols' == symbols[at := n]
    ensures forall l :: 1 <= l < 16 ==> RunFilled(lengths, m, symbols', l)
  {
    forall l | 1 <= l < 16
      ensures RunFilled(lengths, m, symbols', l)
    {
      RunStep(lengths, n, symbols, at, l);
    }
  }

  /** A symbol of length 0 goes to no run. */
  lemma RunsStay(lengths: seq<nat>, n: nat, m: nat, symbols: seq<nat>)
    requires n < |lengths| && m == n + 1 && lengths[n] == 0
    requires forall l :: 1 <= l < 16 ==> RunFilled(lengths, n, symbols, l)
    ensures forall l :: 1 <= l < 16 ==> RunFilled(lengths, m, symbols, l)
  {
    forall l | 1 <= l < 16
      ensures RunFilled(lengths, m, symbols, l)
    {
      assert RunFilled(lengths, n, symbols, l);
    }
  }

  lemma FillStep(lengths: seq<nat>, n: nat, symbols: seq<nat>, offs: seq<nat>)
    requires n < |lengths| && Lengths(lengths) && Filled(lengths, n, symbols, offs)
    ensures var l := lengths[n];
      if l == 0 then Filled(lengths, n + 1, symbols, offs)
      else offs[l] < |symbols| && Filled(lengths, n + 1, symbols[offs[l] := n], offs[l := offs[l] + 1])
  {
    var x := lengths[n];
    OffsetsStep(lengths, n, offs);
    if x == 0 {
      RunsStay(lengths, n, n + 1, symbols);
    } else {
      SlotInRun(lengths, n, x);
      RunsStep(lengths, n, n + 1, symbols, offs[x], symbols[offs[x] := n]);
    }
  }

  lemma NothingFilled(lengths: seq<nat>, symbols: seq<nat>, offs: seq<nat>)
    requires |symbols| == (if lengths == [] then 1 else |lengths|) && forall j :: 0 <= j < |symbols| ==> symbols[j] == 0
    requires |offs| == 16 && forall l :: 1 <= l < 16 ==> offs[l] == Start(lengths, l)
    ensures Filled(lengths, 0, symbols, offs)
  {
    ByLengthSize(lengths, 15);
    forall l | 1 <= l < 16
      ensures RunFilled(lengths, 0, symbols, l)
    {
      ByLengthGrows(lengths, l - 1, 15);
    }
  }

  lemma SortedAt(lengths: seq<nat>, symbols: seq<nat>, l: nat, k: nat, j: nat)
    requires l > 0 && RunFilled(lengths, |lengths|, symbols, l) && k < Count(lengths, l) && j == Start(lengths, l) + k
    ensures j < |symbols| && symbols[j] == WithLength(lengths, l)[k]
  {
    var from := Start(lengths, l);
    assert symbols[from..from + Count(lengths, l)][k] == symbols[j];
  }

  /** The table is sorted. `m`, the greatest length, is a parameter because a literal would
      have the verifier compute `ByLength` to its end; the same goes for the parameters with
      a fixed value elsewhere. */
  lemma FilledIsSorted(lengths: seq<nat>, symbols: seq<nat>, offs: seq<nat>, j: nat, m: nat)
    requires m == 15 && Filled(lengths, |lengths|, symbols, offs) && j < |ByLength(lengths, m)|
    ensures symbols[j] == ByLength(lengths, m)[j]
  {
    var l, k := SlotOf(lengths, j, m);
    assert RunFilled(lengths, |lengths|, symbols, l);
    SortedAt(lengths, symbols, l, k, j);
  }

  lemma FilledIsTable(lengths: seq<nat>, symbols: seq<nat>, offs: seq<nat>)
    requires Filled(lengths, |lengths|, symbols, offs)
    ensures symbols == Table(lengths).symbols
  {
    forall j | 0 <= j < |ByLength(lengths, 15)|
      ensures symbols[j] == ByLength(lengths, 15)[j]
    {
      FilledIsSorted(lengths, symbols, offs, j, 15);
    }
  }

  method Offsets(lengths: seq<nat>, counts: array<nat>) returns (offs: array<nat>)
    requires counts.Length == 16 && counts[0] == 0
    requires forall l :: 1 <= l < 16 ==> counts[l] == Count(lengths, l)
    ensures fresh(offs) && offs.Length == 16
    ensures forall l :: 1 <= l < 16 ==> offs[l] == Start(lengths, l)
  {
    offs := new nat[16](_ => 0);
    for i := 1 to 16
      invariant offs[0] == 0 && forall l :: 1 <= l < i ==> offs[l] == Start(lengths, l)
    {
      offs[i] := offs[i - 1] + counts[i - 1];
    }
  }

  /** The fill loop of `build`. */
  method Fill(lengths: seq<nat>, offs: array<nat>, symbols: array<nat>)
    requires Lengths(lengths) && offs != symbols && Filled(lengths, 0, symbols[..], offs[..])
    modifies offs, symbols
    ensures symbols[..] == Table(lengths).symbols
  {
    for sym := 0 to |lengths|
      invariant Filled(lengths, sym, symbols[..], offs[..])
    {
      var l := lengths[sym];
      FillStep(lengths, sym, symbols[..], offs[..]);
      if l != 0 {
        symbols[offs[l]] := sym;
        offs[l] := offs[l] + 1;
      }
    }
    FilledIsTable(lengths, symbols[..], offs[..]);
  }

  /** `build` */
  method Build(lengths: seq<nat>) returns (h: Huff)
    requires Lengths(lengths)
    ensures h == Table(lengths)
  {
    var counts := CountLengths(lengths);
    var offs := Offsets(lengths, counts);
    var symbols := new nat[if lengths == [] then 1 else |lengths|](_ => 0);
    NothingFilled(lengths, symbols[..], offs[..]);
    Fill(lengths, offs, symbols);
    h := Huff(counts[..], symbols[..]);
  }

  // ----- decoding one symbol --------------------------------------------------------

  datatype Decoded =
    | Symbol(sym: nat, rest: seq<bool>)
    | EndOfInput
    | NoSuchCode

  /** How many symbols have lengths 1 to `l`. */
  function Total(counts: seq<nat>, l: nat): nat
    requires l < |counts|
    decreases l, counts
  {
    if l == 0 then 0 else Total(counts, l - 1) + counts[l]
  }

  /** The table's symbol list covers all its counts. */
  predicate WellFormed(h: Huff) {
    |h.counts| == 16 && Total(h.counts, 15) <= |h.symbols|
  }

  lemma {:induction false} TotalGrows(counts: seq<nat>, l: nat, m: nat)
    requires l <= m < |counts|
    ensures Total(counts, l) <= Total(counts, m)
    decreases m
  {
    if l < m { TotalGrows(counts, l, m - 1); }
  }

  lemma {:induction false} TotalIsByLength(lengths: seq<nat>, l: nat)
    requires l <= 15
    ensures Total(Table(lengths).counts, l) == |ByLength(lengths, l)|
  {
    if l > 0 { TotalIsByLength(lengths, l - 1); }
  }

  /** Every table that `Build` makes is usable, over-subscribed lengths included. */
  lemma TableWellFormed(lengths: seq<nat>)
    ensures WellFormed(Table(lengths))
  {
    TotalIsByLength(lengths, 15);
  }

  /** The decoding loop from code length `len` on: `code` holds the bits read so
      far, shifted for the next one; `index` the symbols of shorter lengths. */
  function Walk(h: Huff, rest: seq<bool>, len: nat, code: int, first: int, index: int): Decoded
    requires WellFormed(h) && 1 <= len <= 16
    requires 0 <= first <= code && index == Total(h.counts, len - 1)
    decreases 16 - len, rest
  {
    if len > 15 then NoSuchCode
    else if rest == [] then EndOfInput
    else
      var c := code + if rest[0] then 1 else 0;
      var count := h.counts[len];
      if c - first < count then
        TotalGrows(h.counts, len, 15);
        Symbol(h.symbols[index + (c - first)], rest[1..])
      else
        Walk(h, rest[1..], len + 1, 2 * c, 2 * (first + count), index + count)
  }

  function Decode(h: Huff, rest: seq<bool>): (d: Decoded)
    requires WellFormed(h)
  {
    Walk(h, rest, 1, 0, 0, 0)
  }

  // ----- the code of section 3.2.2 ------------------------------------------------------

  /** Smallest code of length `l`. */
  function FirstCode(lengths: seq<nat>, l: nat): nat
    requires l > 0
    decreases l, lengths
  {
    if l == 1 then 0 else 2 * (FirstCode(lengths, l - 1) + Count(lengths, l - 1))
  }

  /** Codes of one length are consecutive, in symbol order. */
  function Code(lengths: seq<nat>, s: nat): nat
    requires s < |lengths| && lengths[s] > 0
  {
    FirstCode(lengths, lengths[s]) + Rank(lengths, s)
  }

  /** The low `n` bits of `v`, most significant first. */
  function MsbBits(v: nat, n: nat): (b: seq<bool>)
    ensures |b| == n
  {
    if n == 0 then [] else MsbBits(v / 2, n - 1) + [v % 2 == 1]
  }

  function CodeBits(lengths: seq<nat>, s: nat): seq<bool>
    requires s < |lengths| && lengths[s] > 0
  {
    MsbBits(Code(lengths, s), lengths[s])
  }

  /** Kraft sum of the codes of lengths up to `l`, in units of 2^-l. */
  function KraftSum(lengths: seq<nat>, l: nat): nat
    decreases l, lengths
  {
    if l == 0 then 0 else 2 * KraftSum(lengths, l - 1) + Count(lengths, l)
  }

  /** The code lengths are not over-subscribed. */
  predicate Kraft(lengths: seq<nat>) {
    KraftSum(lengths, 15) <= Pow2(15)
  }

  lemma {:induction false} KraftPrefix(lengths: seq<nat>, l: nat, m: nat)
    requires l <= m && KraftSum(lengths, m) <= Pow2(m)
    ensures KraftSum(lengths, l) <= Pow2(l)
    decreases m
  {
    if l < m { KraftPrefix(lengths, l, m - 1); }
  }

  lemma {:induction false} KraftIsNextCode(lengths: seq<nat>, l: nat)
    requires l > 0
    ensures KraftSum(lengths, l) == FirstCode(lengths, l) + Count(lengths, l)
    decreases l
  {
    if l > 1 {
      KraftIsNextCode(lengths, l - 1);
    } else {
      assert KraftSum(lengths, 0) == 0;
    }
  }

  /** Under Kraft's inequality every code fits its length. */
  lemma CodeFits(lengths: seq<nat>, s: nat)
    requires Kraft(lengths) && s < |lengths| && 1 <= lengths[s] <= 15
    ensures Code(lengths, s) < Pow2(lengths[s])
  {
    KraftPrefix(lengths, lengths[s], 15);
    KraftIsNextCode(lengths, lengths[s]);
    RankIs(lengths, s);
  }

  // ----- decoding inverts the code ---------------------------------------------------------

  function MsbVal(b: seq<bool>): nat {
    if b == [] then 0 else 2 * MsbVal(b[..|b| - 1]) + if b[|b| - 1] then 1 else 0
  }

  lemma {:induction false} MsbBitsVal(b: seq<bool>)
    ensures MsbBits(MsbVal(b), |b|) == b
  {
    if b != [] {
      MsbBitsVal(b[..|b| - 1]);
      assert MsbVal(b) / 2 == MsbVal(b[..|b| - 1]);
    }
  }

  lemma {:induction false} MsbValBits(v: nat, n: nat)
    requires v < Pow2(n)
    ensures MsbVal(MsbBits(v, n)) == v
  {
    if n > 0 {
      MsbValBits(v / 2, n - 1);
      assert MsbBits(v, n)[..n - 1] == MsbBits(v / 2, n - 1);
    }
  }

  /** A proper prefix of a code lies past all codes of its own length. */
  lemma {:induction false} PrefixBeyond(lengths: seq<nat>, p: seq<bool>, q: seq<bool>)
    requires p != [] && q != [] && MsbVal(p + q) >= FirstCode(lengths, |p + q|)
    ensures MsbVal(p) >= FirstCode(lengths, |p|) + Count(lengths, |p|)
    decreases |q|
  {
    var q' := q[..|q| - 1];
    assert (p + q)[..|p + q| - 1] == p + q';
    if q' == [] {
      assert p + q' == p;
    } else {
      PrefixBeyond(lengths, p, q');
    }
  }

  /** Slot `k` of the run of length `l` in a table. */
  ghost predicate Slot(h: Huff, lengths: seq<nat>, l: nat, k: nat)
    requires WellFormed(h) && 1 <= l < 16 && k < Count(lengths, l)
  {
    var at := Total(h.counts, l - 1) + k;
    at < |h.symbols| && h.symbols[at] == WithLength(lengths, l)[k]
  }

  ghost predicate IsTable(h: Huff, lengths: seq<nat>) {
    && WellFormed(h)
    && (forall l :: 1 <= l < 16 ==> h.counts[l] == Count(lengths, l))
    && (forall l, k :: 1 <= l < 16 && 0 <= k < Count(lengths, l) ==> Slot(h, lengths, l, k))
  }

  lemma TableIsTable(lengths: seq<nat>)
    ensures IsTable(Table(lengths), lengths)
  {
    var h := Table(lengths);
    TableWellFormed(lengths);
    forall l, k | 1 <= l < 16 && 0 <= k < Count(lengths, l)
      ensures Slot(h, lengths, l, k)
    {
      TotalIsByLength(lengths, l - 1);
      ByLengthAt(lengths, l, k, 15);
    }
  }

  /** One turn of the loop. */
  lemma WalkStep(h: Huff, rest: seq<bool>, len: nat, code: int, first: int, index: int, c: int, count: int)
    requires WellFormed(h) && 1 <= len <= 15 && rest != []
    requires 0 <= first <= code && index == Total(h.counts, len - 1)
    requires c == code + (if rest[0] then 1 else 0) && count == h.counts[len]
    ensures c - first < count ==>
      index + (c - first) < |h.symbols|
        && Walk(h, rest, len, code, first, index) == Symbol(h.symbols[index + (c - first)], rest[1..])
    ensures c - first >= count ==>
      Walk(h, rest, len, code, first, index)
        == Walk(h, rest[1..], len + 1, 2 * c, 2 * (first + count), Total(h.counts, len))
  {
    TotalGrows(h.counts, len, 15);
  }

  lemma CodeBitsAre(lengths: seq<nat>, s: nat, p: seq<bool>)
    requires s < |lengths| && lengths[s] == |p| > 0 && Code(lengths, s) == MsbVal(p)
    ensures CodeBits(lengths, s) == p
  {
    MsbBitsVal(p);
  }

  lemma MsbValStep(p: seq<bool>, bit: bool)
    ensures MsbVal(p + [bit]) == 2 * MsbVal(p) + if bit then 1 else 0
  {
    assert (p + [bit])[..|p|] == p;
  }

  /** The state of the loop once the bits `p` are consumed. */
  ghost predicate State(h: Huff, lengths: seq<nat>, p: seq<bool>, code: nat, first: nat, index: nat) {
    && IsTable(h, lengths) && |p| <= 15
    && code == 2 * MsbVal(p) && first == FirstCode(lengths, |p| + 1) && index == Total(h.counts, |p|)
    && first <= code
  }

  lemma StateStep(h: Huff, lengths: seq<nat>, p: seq<bool>, code: nat, first: nat, index: nat, bit: bool)
    requires State(h, lengths, p, code, first, index) && |p| < 15
    ensures var count := h.counts[|p| + 1];
      var c := code + if bit then 1 else 0;
      && count == Count(lengths, |p| + 1) && MsbVal(p + [bit]) == c
      && (c - first >= count ==> State(h, lengths, p + [bit], 2 * c, 2 * (first + count), index + count))
  {
    MsbValStep(p, bit);
  }

  /** One turn, seen from both sides: the bit read joins those consumed. */
  lemma Turn(h: Huff, lengths: seq<nat>, p: seq<bool>, bit: bool, bits: seq<bool>, rest: seq<bool>,
             len: nat, code: nat, first: nat, index: nat, c: nat, count: nat)
    requires State(h, lengths, p, code, first, index) && len == |p| + 1 <= 15 && bits == [bit] + rest
    requires c == code + (if bit then 1 else 0) && count == h.counts[len]
    ensures count == Count(lengths, len) && MsbVal(p + [bit]) == c >= first
    ensures c - first >= count ==>
      && State(h, lengths, p + [bit], 2 * c, 2 * (first + count), index + count)
      && Walk(h, bits, len, code, first, index) == Walk(h, rest, len + 1, 2 * c, 2 * (first + count), index + count)
    ensures c - first < count ==>
      index + (c - first) < |h.symbols|
        && Walk(h, bits, len, code, first, index) == Symbol(h.symbols[index + (c - first)], rest)
  {
    StateStep(h, lengths, p, code, first, index, bit);
    assert bits[0] == bit && bits[1..] == rest;
    WalkStep(h, bits, len, code, first, index, c, count);
  }

  /** The last bit of the code of `s` is read... */
  lemma LastBit(h: Huff, lengths: seq<nat>, s: nat, p: seq<bool>, bit: bool, bits: seq<bool>, tail: seq<bool>,
                len: nat, code: nat, first: nat, index: nat)
    requires State(h, lengths, p, code, first, index) && len == |p| + 1 <= 15 && bits == [bit] + tail
    requires s < |lengths| && lengths[s] == len && MsbVal(p + [bit]) == Code(lengths, s)
    ensures Walk(h, bits, len, code, first, index) == Symbol(s, tail)
  {
    var c := code + if bit then 1 else 0;
    Turn(h, lengths, p, bit, bits, tail, len, code, first, index, c, h.counts[len]);
    RankIs(lengths, s);
    FinalSlot(h, lengths, s, len, c - first);
  }

  /** ...or one of the bits before it. */
  lemma EarlierBit(h: Huff, lengths: seq<nat>, p: seq<bool>, bit: bool, bits: seq<bool>, rest: seq<bool>,
                   len: nat, code: nat, first: nat, index: nat, c: nat, count: nat)
    requires State(h, lengths, p, code, first, index) && len == |p| + 1 <= 15 && bits == [bit] + rest
    requires c == code + (if bit then 1 else 0) && count == h.counts[len]
    requires MsbVal(p + [bit]) >= FirstCode(lengths, len) + Count(lengths, len)
    ensures State(h, lengths, p + [bit], 2 * c, 2 * (first + count), index + count)
    ensures Walk(h, bits, len, code, first, index) == Walk(h, rest, len + 1, 2 * c, 2 * (first + count), index + count)
  {
    Turn(h, lengths, p, bit, bits, rest, len, code, first, index, c, count);
  }

  lemma SplitOff(all: seq<bool>, n: nat, tail: seq<bool>)
    requires n < |all|
    ensures all[..n + 1] == all[..n] + [all[n]] && all[n..] + tail == [all[n]] + (all[n + 1..] + tail)
    ensures all[..n + 1] + all[n + 1..] == all
    ensures n + 1 == |all| ==> all[..n + 1] == all && all[n + 1..] + tail == tail
  {
  }

  /** The loop fed the code `all` of `s`, once the first `n` bits are consumed. */
  lemma {:induction false} WalkFindsSymbol(h: Huff, lengths: seq<nat>, s: nat, all: seq<bool>, n: nat, tail: seq<bool>,
                                           code: nat, first: nat, index: nat)
    requires n < |all| <= 15 && State(h, lengths, all[..n], code, first, index)
    requires s < |lengths| && lengths[s] == |all| && MsbVal(all) == Code(lengths, s)
    ensures Walk(h, all[n..] + tail, n + 1, code, first, index) == Symbol(s, tail)
    decreases |all| - n
  {
    SplitOff(all, n, tail);
    if n + 1 == |all| {
      LastBit(h, lengths, s, all[..n], all[n], all[n..] + tail, tail, n + 1, code, first, index);
    } else {
      var c, count := code + (if all[n] then 1 else 0), h.counts[n + 1];
      PrefixBeyond(lengths, all[..n + 1], all[n + 1..]);
      EarlierBit(h, lengths, all[..n], all[n], all[n..] + tail, all[n + 1..] + tail, n + 1, code, first, index, c,
        count);
      WalkFindsSymbol(h, lengths, s, all, n + 1, tail, 2 * c, 2 * (first + count), index + count);
    }
  }

  lemma FinalSlot(h: Huff, lengths: seq<nat>, s: nat, len: nat, k: int)
    requires IsTable(h, lengths) && s < |lengths| && 1 <= len == lengths[s] <= 15 && k == Rank(lengths, s)
    ensures k < Count(lengths, len) && Total(h.counts, len - 1) + k < |h.symbols|
    ensures h.symbols[Total(h.counts, len - 1) + k] == s
  {
    RankIs(lengths, s);
    assert Slot(h, lengths, len, k);
  }

  /** Fed the code of a symbol, the decoder returns the symbol and consumes exactly
      the code. */
  lemma DecodeInvertsCode(lengths: seq<nat>, s: nat, tail: seq<bool>)
    requires Kraft(lengths) && s < |lengths| && 1 <= lengths[s] <= 15
    ensures WellFormed(Table(lengths))
    ensures Decode(Table(lengths), CodeBits(lengths, s) + tail) == Symbol(s, tail)
  {
    var b := CodeBits(lengths, s);
    CodeFits(lengths, s);
    MsbValBits(Code(lengths, s), lengths[s]);
    TableIsTable(lengths);
    assert b[0..] == b && b[..0] == [];
    WalkFindsSymbol(Table(lengths), lengths, s, b, 0, tail, 0, 0, 0);
  }

  /** An accepted bit string is the code of the symbol in its slot. */
  lemma AcceptedIsCode(lengths: seq<nat>, p: seq<bool>, k: nat)
    requires 1 <= |p| <= 15 && k < Count(lengths, |p|) && FirstCode(lengths, |p|) + k == MsbVal(p)
    ensures var s := WithLength(lengths, |p|)[k];
      s < |lengths| && lengths[s] == |p| && CodeBits(lengths, s) == p
  {
    BelowIs(lengths, |p|, |lengths|, k);
    CodeBitsAre(lengths, WithLength(lengths, |p|)[k], p);
  }

  /** What the decoder took from `bits` is the code of the symbol it found. */
  ghost predicate Consumed(lengths: seq<nat>, bits: seq<bool>, d: Decoded) {
    d.Symbol? ==>
      d.sym < |lengths| && 1 <= lengths[d.sym] <= 15 && bits == CodeBits(lengths, d.sym) + d.rest
  }

  lemma InSlot(h: Huff, lengths: seq<nat>, len: nat, k: nat, at: nat)
    requires IsTable(h, lengths) && 1 <= len <= 15 && k < Count(lengths, len) && at == Total(h.counts, len - 1) + k
    ensures at < |h.symbols| && h.symbols[at] == WithLength(lengths, len)[k]
  {
    assert Slot(h, lengths, len, k);
  }

  /** The last turn of a successful loop, having read the bits `p`. */
  lemma LastTurn(lengths: seq<nat>, p: seq<bool>, rest: seq<bool>, bits: seq<bool>, len: nat, k: nat, s: nat)
    requires 1 <= len == |p| <= 15 && bits == p + rest
    requires k < Count(lengths, len) && FirstCode(lengths, len) + k == MsbVal(p) && s == WithLength(lengths, len)[k]
    ensures Consumed(lengths, bits, Symbol(s, rest))
  {
    AcceptedIsCode(lengths, p, k);
  }

  /** What a successful loop consumed, from the bits `p` already read. */
  lemma {:induction false} WalkConsumesCode(h: Huff, lengths: seq<nat>, all: seq<bool>, p: seq<bool>, rest: seq<bool>,
                                            len: nat, code: nat, first: nat, index: nat)
    requires State(h, lengths, p, code, first, index) && all == p + rest && len == |p| + 1
    ensures Consumed(lengths, all, Walk(h, rest, len, code, first, index))
    decreases 16 - |p|
  {
    if |p| < 15 && rest != [] {
      var p', rest' := p + [rest[0]], rest[1..];
      var c, count := code + (if rest[0] then 1 else 0), h.counts[len];
      assert rest == [rest[0]] + rest' && all == p' + rest';
      Turn(h, lengths, p, rest[0], rest, rest', len, code, first, index, c, count);
      if c - first < count {
        InSlot(h, lengths, len, c - first, index + (c - first));
        LastTurn(lengths, p', rest', all, len, c - first, h.symbols[index + (c - first)]);
      } else {
        WalkConsumesCode(h, lengths, all, p', rest', len + 1, 2 * c, 2 * (first + count), index + count);
      }
    }
  }

  /** Whatever the decoder accepts is the code of the symbol it returns. */
  lemma DecodeConsumesCode(lengths: seq<nat>, rest: seq<bool>)
    ensures WellFormed(Table(lengths))
    ensures Consumed(lengths, rest, Decode(Table(lengths), rest))
  {
    TableIsTable(lengths);
    assert [] + rest == rest;
    WalkConsumesCode(Table(lengths), lengths, rest, [], rest, 1, 0, 0, 0);
  }

  /** No code is a prefix of another. */
  lemma PrefixFree(lengths: seq<nat>, s: nat, t: nat)
    requires Kraft(lengths) && s < |lengths| && t < |lengths|
    requires 1 <= lengths[s] <= 15 && 1 <= lengths[t] <= 15
    requires CodeBits(lengths, s) <= CodeBits(lengths, t)
    ensures s == t
  {
    var tail := CodeBits(lengths, t)[lengths[s]..];
    DecodeInvertsCode(lengths, s, tail);
    DecodeInvertsCode(lengths, t, []);
    assert CodeBits(lengths, t) + [] == CodeBits(lengths, s) + tail;
  }
}
