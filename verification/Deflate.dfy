/** An encoder for RFC 1951, stated from the format's side: which bits a token, a
    code-length run, a block and a stream are.  The decoder inverts it. */
module Deflate {
  import opened Bits
  import opened Results
  import opened Huffman
  import opened BitReader
  import opened Inflate

  /** A literal byte, or a match: the index of its length and distance codes and
      their extra bits. */
  datatype Token =
    | Literal(b: byte)
    | Match(li: nat, lx: nat, di: nat, dx: nat)

  predicate HasCode(lengths: seq<nat>, s: nat) {
    s < |lengths| && 1 <= lengths[s] <= 15
  }

  /** The token can be written with these codes after `n` bytes of output. */
  ghost predicate ValidToken(t: Tables, lit: seq<nat>, dist: seq<nat>, tok: Token, n: nat)
    requires Usable(t)
  {
    match tok
    case Literal(b) => HasCode(lit, b)
    case Match(li, lx, di, dx) =>
      && li < |t.lengthBase| && lx < Pow2(t.lengthExtra[li]) && HasCode(lit, 257 + li)
      && di < |t.distBase| && dx < Pow2(t.distExtra[di]) && HasCode(dist, di)
      && t.distBase[di] + dx <= n
  }

  /** The bytes a token stands for: byte `k` of a match is the byte `back` before the
      position it goes to. */
  function Meaning(t: Tables, tok: Token, out: seq<byte>): seq<byte>
    requires Usable(t)
  {
    match tok
    case Literal(b) => out + [b]
    case Match(li, lx, di, dx) =>
      if li < |t.lengthBase| && di < |t.distBase| && t.distBase[di] + dx <= |out| then
        Lz77(out, t.distBase[di] + dx, t.lengthBase[li] + lx)
      else out
  }

  /** `len` bytes appended to `out`, reading cyclically through its last `back`. */
  function Lz77(out: seq<byte>, back: nat, len: nat): (r: seq<byte>)
    requires 1 <= back <= |out|
    ensures |r| == |out| + len
  {
    out + seq(len, k requires 0 <= k < len => out[|out| - back + k % back])
  }

  lemma {:induction false} CopyKeeps(out: seq<byte>, back: nat, len: nat)
    requires 1 <= back <= |out|
    ensures Copy(out, back, len)[..|out|] == out
    decreases len
  {
    if len > 0 {
      var out' := out + [out[|out| - back]];
      CopyKeeps(out', back, len - 1);
      assert Copy(out, back, len)[..|out|] == Copy(out', back, len - 1)[..|out'|][..|out|];
    }
  }

  lemma NextCyclic(k: nat, d: nat)
    requires k > 0 && d > 0
    ensures k % d == if (k - 1) % d == d - 1 then 0 else (k - 1) % d + 1
  {
    var q, m := (k - 1) / d, (k - 1) % d;
    assert k - 1 == d * q + m;
    if m == d - 1 {
      assert k == d * (q + 1);
      DivUnique(k, d, q + 1, 0);
    } else {
      DivUnique(k, d, q, m + 1);
    }
  }

  lemma DivUnique(x: nat, d: nat, q: nat, r: nat)
    requires r < d && x == d * q + r
    ensures x / d == q && x % d == r
  {
    var t: int := x / d - q;
    assert x == d * (x / d) + x % d;
    assert d * t == d * (x / d) - d * q;
    if t >= 1 { MulMono(d, 1, t); }
    if t <= -1 { MulMono(d, t, -1); }
  }

  lemma MulMono(a: nat, x: int, y: int)
    requires x <= y
    ensures a * x <= a * y
  {
  }

  lemma {:induction false} CopyAt(out: seq<byte>, back: nat, len: nat, k: nat)
    requires 1 <= back <= |out| && k < len
    ensures Copy(out, back, len)[|out| + k] == out[|out| - back + k % back]
    decreases len
  {
    var out' := out + [out[|out| - back]];
    CopyKeeps(out', back, len - 1);
    if k == 0 {
      assert Copy(out', back, len - 1)[..|out'|][|out|] == out'[|out|];
    } else {
      CopyAt(out', back, len - 1, k - 1);
      NextCyclic(k, back);
    }
  }

  /** The byte-by-byte copying loop is the LZ77 copy, overlaps included. */
  lemma CopyIsLz77(out: seq<byte>, back: nat, len: nat)
    requires 1 <= back <= |out|
    ensures Copy(out, back, len) == Lz77(out, back, len)
  {
    var c, z := Copy(out, back, len), Lz77(out, back, len);
    CopyKeeps(out, back, len);
    forall i | 0 <= i < |c|
      ensures c[i] == z[i]
    {
      if i < |out| {
        assert c[i] == c[..|out|][i];
      } else {
        CopyAt(out, back, len, i - |out|);
      }
    }
  }

  // ----- tokens -----------------------------------------------------------------------

  /** The bits of a token, then `tail`. */
  ghost function TokenBits(t: Tables, lit: seq<nat>, dist: seq<nat>, tok: Token, n: nat, tail: seq<bool>): seq<bool>
    requires Usable(t) && ValidToken(t, lit, dist, tok, n)
  {
    match tok
    case Literal(b) => CodeBits(lit, b) + tail
    case Match(li, lx, di, dx) =>
      CodeBits(lit, 257 + li)
        + (ToBits(lx, t.lengthExtra[li]) + (CodeBits(dist, di) + (ToBits(dx, t.distExtra[di]) + tail)))
  }

  ghost predicate ValidTokens(t: Tables, lit: seq<nat>, dist: seq<nat>, toks: seq<Token>, out: seq<byte>)
    requires Usable(t)
  {
    toks != [] ==>
      && ValidToken(t, lit, dist, toks[0], |out|)
      && ValidTokens(t, lit, dist, toks[1..], Meaning(t, toks[0], out))
  }

  /** The output after a list of tokens. */
  function Expand(t: Tables, toks: seq<Token>, out: seq<byte>): seq<byte>
    requires Usable(t)
    decreases toks
  {
    if toks == [] then out else Expand(t, toks[1..], Meaning(t, toks[0], out))
  }

  /** The tokens, the end-of-block code, then `tail`. */
  ghost function TokensBits(t: Tables, lit: seq<nat>, dist: seq<nat>, toks: seq<Token>, out: seq<byte>,
                            tail: seq<bool>): seq<bool>
    requires Usable(t) && HasCode(lit, 256) && ValidTokens(t, lit, dist, toks, out)
    decreases toks
  {
    if toks == [] then CodeBits(lit, 256) + tail
    else TokenBits(t, lit, dist, toks[0], |out|, TokensBits(t, lit, dist, toks[1..], Meaning(t, toks[0], out), tail))
  }

  lemma TakeToBits(x: nat, n: nat, tail: seq<bool>)
    requires x < Pow2(n)
    ensures Take(ToBits(x, n) + tail, n) == Ok((x, tail))
  {
    FromToBits(x, n);
    assert (ToBits(x, n) + tail)[..n] == ToBits(x, n);
    assert (ToBits(x, n) + tail)[n..] == tail;
  }

  /** Fed the code of `s`, the table `h` returns `s` and leaves `tail`. */
  ghost predicate Returns(h: Huff, lengths: seq<nat>, s: nat, tail: seq<bool>)
    requires WellFormed(h)
  {
    HasCode(lengths, s) ==> TakeSymbol(h, CodeBits(lengths, s) + tail) == Ok((s, tail))
  }

  /** `h` decodes the canonical code with these lengths. */
  ghost predicate Decodes(h: Huff, lengths: seq<nat>) {
    WellFormed(h) && forall s, tail :: Returns(h, lengths, s, tail)
  }

  lemma TableDecodes(lengths: seq<nat>)
    requires Kraft(lengths)
    ensures Decodes(Table(lengths), lengths)
  {
    TableWellFormed(lengths);
    forall s, tail
      ensures Returns(Table(lengths), lengths, s, tail)
    {
      if HasCode(lengths, s) { DecodeInvertsCode(lengths, s, tail); }
    }
  }

  lemma PairRoundTrip(t: Tables, hd: Huff, dist: seq<nat>, li: nat, lx: nat, di: nat, dx: nat, tail: seq<bool>)
    requires Usable(t) && Decodes(hd, dist) && HasCode(dist, di)
    requires li < |t.lengthBase| && lx < Pow2(t.lengthExtra[li])
    requires di < |t.distBase| && dx < Pow2(t.distExtra[di])
    ensures TakePair(ToBits(lx, t.lengthExtra[li]) + (CodeBits(dist, di) + (ToBits(dx, t.distExtra[di]) + tail)), li, t,
      hd)
            == Ok(((t.lengthBase[li] + lx, t.distBase[di] + dx), tail))
  {
    var d := ToBits(dx, t.distExtra[di]) + tail;
    TakeToBits(dx, t.distExtra[di], tail);
    assert Returns(hd, dist, di, d);
    TakeToBits(lx, t.lengthExtra[li], CodeBits(dist, di) + d);
  }

  /** One length symbol with its pair. */
  lemma MatchStep(t: Tables, h: Huff, d: Huff, sym: nat, li: nat, len: nat, back: nat, bits: seq<bool>, r1: seq<bool>,
                  tail: seq<bool>, out: seq<byte>)
    requires Usable(t) && WellFormed(h) && WellFormed(d) && sym == 257 + li && 1 <= back <= |out|
    requires TakeSymbol(h, bits) == Ok((sym, r1)) && TakePair(r1, li, t, d) == Ok(((len, back), tail))
    ensures Symbols(bits, t, h, d, out) == Symbols(tail, t, h, d, Lz77(out, back, len))
  {
    MatchTaken(t, d, li, len, back, r1, tail, out);
    SymbolsStep(t, h, d, sym, li, bits, r1, tail, out, Lz77(out, back, len));
  }

  lemma MatchTaken(t: Tables, d: Huff, li: nat, len: nat, back: nat, r1: seq<bool>, tail: seq<bool>, out: seq<byte>)
    requires Usable(t) && WellFormed(d) && 1 <= back <= |out|
    requires TakePair(r1, li, t, d) == Ok(((len, back), tail))
    ensures TakeMatch(r1, li, t, d, out) == Ok((Lz77(out, back, len), tail))
  {
    CopyIsLz77(out, back, len);
  }

  lemma SymbolsStep(t: Tables, h: Huff, d: Huff, sym: nat, li: nat, bits: seq<bool>, r1: seq<bool>, tail: seq<bool>,
                    out: seq<byte>, out': seq<byte>)
    requires Usable(t) && WellFormed(h) && WellFormed(d) && sym > 256 && li == sym - 257
    requires TakeSymbol(h, bits) == Ok((sym, r1)) && TakeMatch(r1, li, t, d, out) == Ok((out', tail))
    ensures Symbols(bits, t, h, d, out) == Symbols(tail, t, h, d, out')
  {
  }

  lemma CodeReturns(h: Huff, lengths: seq<nat>, s: nat, tail: seq<bool>)
    requires Decodes(h, lengths) && HasCode(lengths, s)
    ensures TakeSymbol(h, CodeBits(lengths, s) + tail) == Ok((s, tail))
  {
    assert Returns(h, lengths, s, tail);
  }

  lemma FieldsRoundTrip(t: Tables, hl: Huff, lit: seq<nat>, hd: Huff, dist: seq<nat>, li: nat, lx: nat, di: nat,
                        dx: nat, out: seq<byte>,
                        bits: seq<bool>, r1: seq<bool>, tail: seq<bool>, len: nat, back: nat, out': seq<byte>)
    requires Usable(t) && Decodes(hl, lit) && Decodes(hd, dist) && HasCode(lit, 257 + li) && HasCode(dist, di)
    requires li < |t.lengthBase| && lx < Pow2(t.lengthExtra[li]) && di < |t.distBase| && dx < Pow2(t.distExtra[di])
    requires len == t.lengthBase[li] + lx && back == t.distBase[di] + dx <= |out| && out' == Lz77(out, back, len)
    requires bits == CodeBits(lit, 257 + li) + r1
    requires r1 == ToBits(lx, t.lengthExtra[li]) + (CodeBits(dist, di) + (ToBits(dx, t.distExtra[di]) + tail))
    ensures Symbols(bits, t, hl, hd, out) == Symbols(tail, t, hl, hd, out')
  {
    CodeReturns(hl, lit, 257 + li, r1);
    PairRoundTrip(t, hd, dist, li, lx, di, dx, tail);
    MatchStep(t, hl, hd, 257 + li, li, len, back, bits, r1, tail, out);
  }

  lemma MatchRoundTrip(t: Tables, hl: Huff, lit: seq<nat>, hd: Huff, dist: seq<nat>, tok: Token, out: seq<byte>,
                       bits: seq<bool>, tail: seq<bool>, out': seq<byte>)
    requires Usable(t) && Decodes(hl, lit) && Decodes(hd, dist)
    requires tok.Match? && ValidToken(t, lit, dist, tok, |out|)
    requires bits == TokenBits(t, lit, dist, tok, |out|, tail) && out' == Meaning(t, tok, out)
    ensures Symbols(bits, t, hl, hd, out) == Symbols(tail, t, hl, hd, out')
  {
    var Match(li, lx, di, dx) := tok;
    var r1 := ToBits(lx, t.lengthExtra[li]) + (CodeBits(dist, di) + (ToBits(dx, t.distExtra[di]) + tail));
    FieldsRoundTrip(t, hl, lit, hd, dist, li, lx, di, dx, out, bits, r1, tail, t.lengthBase[li] + lx,
      t.distBase[di] + dx, out');
  }

  /** Decoding one token. */
  lemma TokenRoundTrip(t: Tables, hl: Huff, lit: seq<nat>, hd: Huff, dist: seq<nat>, tok: Token, out: seq<byte>,
                       tail: seq<bool>)
    requires Usable(t) && Decodes(hl, lit) && Decodes(hd, dist) && ValidToken(t, lit, dist, tok, |out|)
    ensures Symbols(TokenBits(t, lit, dist, tok, |out|, tail), t, hl, hd, out)
      == Symbols(tail, t, hl, hd, Meaning(t, tok, out))
  {
    if tok.Literal? {
      assert Returns(hl, lit, tok.b, tail);
    } else {
      MatchRoundTrip(t, hl, lit, hd, dist, tok, out, TokenBits(t, lit, dist, tok, |out|, tail), tail,
        Meaning(t, tok, out));
    }
  }

  /** Decoding the tokens of a block up to its end-of-block code. */
  lemma {:induction false} TokensRoundTrip(t: Tables, hl: Huff, lit: seq<nat>, hd: Huff, dist: seq<nat>,
                                           toks: seq<Token>, out: seq<byte>, tail: seq<bool>)
    requires Usable(t) && Decodes(hl, lit) && Decodes(hd, dist)
    requires HasCode(lit, 256) && ValidTokens(t, lit, dist, toks, out)
    ensures Symbols(TokensBits(t, lit, dist, toks, out, tail), t, hl, hd, out) == Ok((Expand(t, toks, out), tail))
    decreases toks
  {
    if toks == [] {
      assert Returns(hl, lit, 256, tail);
    } else {
      var out' := Meaning(t, toks[0], out);
      TokenRoundTrip(t, hl, lit, hd, dist, toks[0], out, TokensBits(t, lit, dist, toks[1..], out', tail));
      TokensRoundTrip(t, hl, lit, hd, dist, toks[1..], out', tail);
    }
  }

  // ----- dynamic headers ------------------------------------------------------------------

  /** What a dynamic block declares: both codes' lengths, the code-length code, how
      many of its lengths are sent, and the runs that spell the lengths out. */
  datatype Header = Header(lit: seq<nat>, dist: seq<nat>, cl: seq<nat>, hclen: nat, runs: seq<Run>)

  /** The lengths after one more run. */
  function Append(acc: seq<nat>, run: Run): seq<nat> {
    match run
    case One(len) => acc + [len]
    case Previous(rep) => acc + seq(rep, _ => if acc == [] then 0 else acc[|acc| - 1])
    case Skip(rep) => acc + seq(rep, _ => 0)
  }

  /** The lengths a list of runs spells out after `acc`. */
  function Spell(runs: seq<Run>, acc: seq<nat>): seq<nat>
    decreases runs
  {
    if runs == [] then acc else Spell(runs[1..], Append(acc, runs[0]))
  }

  predicate ValidRun(cl: seq<nat>, run: Run) {
    match run
    case One(len) => len <= 15 && HasCode(cl, len)
    case Previous(rep) => 3 <= rep <= 6 && HasCode(cl, 16)
    case Skip(rep) => if rep <= 10 then 3 <= rep && HasCode(cl, 17) else rep <= 138 && HasCode(cl, 18)
  }

  /** The symbol of a repetition, its extra value and the number of extra bits. */
  function Fields(run: Run): (nat, int, nat)
    requires !run.One?
  {
    if run.Previous? then (16, run.rep - 3, 2)
    else if run.rep <= 10 then (17, run.rep - 3, 3)
    else (18, run.rep - 11, 7)
  }

  function RunBits(cl: seq<nat>, run: Run, tail: seq<bool>): seq<bool>
    requires ValidRun(cl, run)
  {
    if run.One? then CodeBits(cl, run.len) + tail
    else
      var (sym, x, n) := Fields(run);
      CodeBits(cl, sym) + (ToBits(x, n) + tail)
  }

  ghost predicate ValidRuns(cl: seq<nat>, runs: seq<Run>) {
    forall i :: 0 <= i < |runs| ==> ValidRun(cl, runs[i])
  }

  ghost function RunsBits(cl: seq<nat>, runs: seq<Run>, tail: seq<bool>): seq<bool>
    requires ValidRuns(cl, runs)
    decreases runs
  {
    if runs == [] then tail else RunBits(cl, runs[0], RunsBits(cl, runs[1..], tail))
  }

  /** The 3-bit lengths of the code-length code, in the given order. */
  function OrderBits(cl: seq<nat>, order: seq<nat>, k: nat, n: nat, tail: seq<bool>): seq<bool>
    requires GoodOrder(order) && k <= n <= 19 && |cl| == 19
    decreases n - k, cl
  {
    if k == n then tail else ToBits(cl[order[k]], 3) + OrderBits(cl, order, k + 1, n, tail)
  }

  /** The counts fit their fields and every run can be written. */
  ghost predicate Shape(d: Header) {
    && 257 <= |d.lit| <= 288 && 1 <= |d.dist| <= 30
    && |d.cl| == 19 && 4 <= d.hclen <= 19
    && ValidRuns(d.cl, d.runs)
  }

  /** The code-length code is sent in full: its lengths fit 3 bits and those not sent
      are zero. */
  ghost predicate SendsCodeLengthCode(d: Header, order: seq<nat>)
    requires GoodOrder(order) && |d.cl| == 19
  {
    && (forall i :: 0 <= i < 19 ==> d.cl[i] < 8)
    && (forall k :: d.hclen <= k < 19 ==> d.cl[order[k]] == 0)
  }

  /** The runs spell out both codes' lengths. */
  ghost predicate SpellsLengths(d: Header) {
    && (d.runs != [] ==> !d.runs[0].Previous?)
    && Spell(d.runs, []) == d.lit + d.dist
  }

  ghost predicate ValidHeader(d: Header, order: seq<nat>)
    requires GoodOrder(order)
  {
    && Shape(d) && SendsCodeLengthCode(d, order) && SpellsLengths(d)
    && Kraft(d.lit) && Kraft(d.dist) && Kraft(d.cl)
  }

  ghost function HeaderBits(d: Header, order: seq<nat>, tail: seq<bool>): seq<bool>
    requires GoodOrder(order) && Shape(d)
  {
    CountsBits(|d.lit|, |d.dist|, d.hclen, OrderBits(d.cl, order, 0, d.hclen, RunsBits(d.cl, d.runs, tail)))
  }

  function CountsBits(hlit: nat, hdist: nat, hclen: nat, tail: seq<bool>): seq<bool>
    requires hlit >= 257 && hdist >= 1 && hclen >= 4
  {
    ToBits(hlit - 257, 5) + (ToBits(hdist - 1, 5) + (ToBits(hclen - 4, 4) + tail))
  }

  lemma RunRoundTrip(h: Huff, cl: seq<nat>, run: Run, first: bool, bits: seq<bool>, tail: seq<bool>)
    requires Decodes(h, cl) && ValidRun(cl, run) && !(first && run.Previous?) && bits == RunBits(cl, run, tail)
    ensures TakeRun(bits, h, first) == Ok((run, tail))
  {
    if run.One? {
      OneRoundTrip(h, cl, run.len, first, bits, tail);
    } else {
      var (sym, x, n) := Fields(run);
      RepeatRoundTrip(h, cl, run, first, sym, x, n, bits, tail);
    }
  }

  lemma OneRoundTrip(h: Huff, cl: seq<nat>, len: nat, first: bool, bits: seq<bool>, tail: seq<bool>)
    requires Decodes(h, cl) && HasCode(cl, len) && len <= 15 && bits == CodeBits(cl, len) + tail
    ensures TakeRun(bits, h, first) == Ok((One(len), tail))
  {
    CodeReturns(h, cl, len, tail);
  }

  lemma RepeatRoundTrip(h: Huff, cl: seq<nat>, run: Run, first: bool, sym: nat, x: nat, n: nat, bits: seq<bool>,
                        tail: seq<bool>)
    requires Decodes(h, cl) && HasCode(cl, sym) && bits == CodeBits(cl, sym) + (ToBits(x, n) + tail)
    requires (sym == 16 && n == 2 && x < 4 && run == Previous(3 + x) && !first)
          || (sym == 17 && n == 3 && x < 8 && run == Skip(3 + x))
          || (sym == 18 && n == 7 && x < 128 && run == Skip(11 + x))
    ensures TakeRun(bits, h, first) == Ok((run, tail))
  {
    ExtraRoundTrip(h, cl, sym, x, n, tail);
    RunStep(h, bits, first, sym, x, ToBits(x, n) + tail, tail, run);
  }

  lemma RunStep(h: Huff, bits: seq<bool>, first: bool, sym: nat, x: nat, r1: seq<bool>, r2: seq<bool>, run: Run)
    requires WellFormed(h) && TakeSymbol(h, bits) == Ok((sym, r1))
    requires (sym == 16 && Take(r1, 2) == Ok((x, r2)) && run == Previous(3 + x) && !first)
          || (sym == 17 && Take(r1, 3) == Ok((x, r2)) && run == Skip(3 + x))
          || (sym == 18 && Take(r1, 7) == Ok((x, r2)) && run == Skip(11 + x))
    ensures TakeRun(bits, h, first) == Ok((run, r2))
  {
  }

  lemma ExtraRoundTrip(h: Huff, cl: seq<nat>, sym: nat, x: nat, n: nat, tail: seq<bool>)
    requires Decodes(h, cl) && HasCode(cl, sym) && ((n == 2 && x < 4) || (n == 3 && x < 8) || (n == 7 && x < 128))
    ensures TakeSymbol(h, CodeBits(cl, sym) + (ToBits(x, n) + tail)) == Ok((sym, ToBits(x, n) + tail))
    ensures Take(ToBits(x, n) + tail, n) == Ok((x, tail))
  {
    assert Pow2(2) == 4 && Pow2(3) == 8 && Pow2(7) == 128;
    CodeReturns(h, cl, sym, ToBits(x, n) + tail);
    TakeToBits(x, n, tail);
  }

  lemma {:induction false} SpellGrows(runs: seq<Run>, acc: seq<nat>)
    ensures |acc| <= |Spell(runs, acc)|
    decreases runs
  {
    if runs != [] { SpellGrows(runs[1..], Append(acc, runs[0])); }
  }

  /** The entries while decoding: those already known, then zeros. */
  function Padded(acc: seq<nat>, n: nat): (r: seq<nat>)
    requires |acc| <= n
    ensures |r| == n
  {
    acc + Zeros(n - |acc|)
  }

  /** Storing one run in the entries is appending it to the known ones. */
  lemma PlaceAppends(acc: seq<nat>, run: Run, n: nat)
    requires |acc| < n && |Append(acc, run)| <= n && !(acc == [] && run.Previous?)
    ensures Place(Padded(acc, n), |acc|, run) == Ok((Padded(Append(acc, run), n), |Append(acc, run)|))
  {
    assert Place(Padded(acc, n), |acc|, run).value.0 == Padded(Append(acc, run), n);
  }

  lemma {:induction false} RunsRoundTrip(h: Huff, cl: seq<nat>, runs: seq<Run>, acc: seq<nat>, n: nat, tail: seq<bool>)
    requires Decodes(h, cl) && ValidRuns(cl, runs)
    requires acc == [] && runs != [] ==> !runs[0].Previous?
    requires |Spell(runs, acc)| == n && |acc| <= n && Lengths(acc)
    ensures CodeLengths(RunsBits(cl, runs, tail), h, Padded(acc, n), |acc|) == Ok((Spell(runs, acc), tail))
    decreases runs
  {
    if runs == [] {
      assert Padded(acc, n) == acc;
    } else {
      var acc' := Append(acc, runs[0]);
      assert ValidRun(cl, runs[0]);
      SpellGrows(runs[1..], acc');
      RunRoundTrip(h, cl, runs[0], |acc| == 0, RunsBits(cl, runs, tail), RunsBits(cl, runs[1..], tail));
      PlaceAppends(acc, runs[0], n);
      RunsRoundTrip(h, cl, runs[1..], acc', n, tail);
    }
  }

  /** The code-length lengths after the first `k` of them are known. */
  ghost predicate Known(cl: seq<nat>, order: seq<nat>, k: nat, acc: seq<nat>)
    requires GoodOrder(order) && |cl| == 19 && k <= 19
  {
    && |acc| == 19
    && forall s :: 0 <= s < 19 ==> acc[s] == cl[s] || (acc[s] == 0 && s !in order[..k])
  }

  lemma {:induction false} OrderRoundTrip(cl: seq<nat>, order: seq<nat>, k: nat, n: nat, acc: seq<nat>, tail: seq<bool>)
    returns (acc': seq<nat>)
    requires GoodOrder(order) && k <= n <= 19 && |cl| == 19 && (forall i :: 0 <= i < 19 ==> cl[i] < 8)
    requires Known(cl, order, k, acc) && Lengths(acc)
    ensures ReadOrder(OrderBits(cl, order, k, n, tail), order, k, n, acc) == Ok((acc', tail))
    ensures Known(cl, order, n, acc')
    decreases n - k
  {
    if k == n {
      acc' := acc;
    } else {
      var v := cl[order[k]];
      assert Pow2(3) == 8;
      TakeToBits(v, 3, OrderBits(cl, order, k + 1, n, tail));
      acc' := OrderRoundTrip(cl, order, k + 1, n, acc[order[k] := v], tail);
    }
  }

  /** The order lists every code-length symbol. */
  ghost predicate Covers(order: seq<nat>) {
    forall s :: 0 <= s < 19 ==> s in order
  }

  lemma KnownIsAll(cl: seq<nat>, order: seq<nat>, n: nat, acc: seq<nat>)
    requires GoodOrder(order) && Covers(order) && |cl| == 19 && n <= 19 && Known(cl, order, n, acc)
    requires forall k :: n <= k < 19 ==> cl[order[k]] == 0
    ensures acc == cl
  {
    forall s | 0 <= s < 19
      ensures acc[s] == cl[s]
    {
      assert s in order;
      var k :| 0 <= k < 19 && order[k] == s;
      if k < n { assert s == order[..n][k]; }
    }
  }

  lemma OrderThenAll(cl: seq<nat>, order: seq<nat>, n: nat, tail: seq<bool>)
    requires GoodOrder(order) && Covers(order) && |cl| == 19 && n <= 19
    requires (forall i :: 0 <= i < 19 ==> cl[i] < 8) && (forall k :: n <= k < 19 ==> cl[order[k]] == 0)
    ensures ReadOrder(OrderBits(cl, order, 0, n, tail), order, 0, n, Zeros(19)) == Ok((cl, tail))
  {
    assert Known(cl, order, 0, Zeros(19));
    var acc := OrderRoundTrip(cl, order, 0, n, Zeros(19), tail);
    KnownIsAll(cl, order, n, acc);
  }

  lemma RunsThenAll(cl: seq<nat>, runs: seq<Run>, n: nat, tail: seq<bool>)
    requires Kraft(cl) && ValidRuns(cl, runs) && (runs != [] ==> !runs[0].Previous?) && |Spell(runs, [])| == n
    ensures WellFormed(Table(cl))
    ensures CodeLengths(RunsBits(cl, runs, tail), Table(cl), Zeros(n), 0) == Ok((Spell(runs, []), tail))
  {
    TableDecodes(cl);
    RunsRoundTrip(Table(cl), cl, runs, [], n, tail);
    assert Padded([], n) == Zeros(n);
  }

  lemma LengthsRoundTrip(cl: seq<nat>, order: seq<nat>, hclen: nat, runs: seq<Run>, n: nat, bits: seq<bool>,
                         lens: seq<nat>, tail: seq<bool>)
    requires GoodOrder(order) && Covers(order) && |cl| == 19 && hclen <= 19 && Kraft(cl)
    requires (forall i :: 0 <= i < 19 ==> cl[i] < 8) && (forall k :: hclen <= k < 19 ==> cl[order[k]] == 0)
    requires ValidRuns(cl, runs) && (runs != [] ==> !runs[0].Previous?) && lens == Spell(runs, []) && |lens| == n
    requires bits == OrderBits(cl, order, 0, hclen, RunsBits(cl, runs, tail))
    ensures TakeLengths(bits, order, hclen, n) == Ok((lens, tail))
  {
    var more := RunsBits(cl, runs, tail);
    OrderThenAll(cl, order, hclen, more);
    RunsThenAll(cl, runs, n, tail);
    LengthsStep(bits, order, hclen, n, cl, more, lens, tail);
  }

  lemma LengthsStep(bits: seq<bool>, order: seq<nat>, hclen: nat, n: nat, cl: seq<nat>, r1: seq<bool>, lens: seq<nat>,
                    r2: seq<bool>)
    requires GoodOrder(order) && hclen <= 19 && WellFormed(Table(cl))
    requires ReadOrder(bits, order, 0, hclen, Zeros(19)) == Ok((cl, r1))
    requires CodeLengths(r1, Table(cl), Zeros(n), 0) == Ok((lens, r2))
    ensures TakeLengths(bits, order, hclen, n) == Ok((lens, r2))
  {
  }

  lemma CountsRoundTrip(hlit: nat, hdist: nat, hclen: nat, tail: seq<bool>)
    requires 257 <= hlit <= 288 && 1 <= hdist <= 32 && 4 <= hclen <= 19
    ensures TakeCounts(CountsBits(hlit, hdist, hclen, tail)) == Ok(((hlit, hdist, hclen), tail))
  {
    assert Pow2(5) == 32 && Pow2(4) == 16;
    var r2 := ToBits(hclen - 4, 4) + tail;
    var r1 := ToBits(hdist - 1, 5) + r2;
    TakeToBits(hclen - 4, 4, tail);
    TakeToBits(hdist - 1, 5, r2);
    TakeToBits(hlit - 257, 5, r1);
    CountsStep(ToBits(hlit - 257, 5) + r1, hlit, r1, hdist, r2, hclen, tail);
  }

  lemma CountsStep(bits: seq<bool>, hlit: nat, r1: seq<bool>, hdist: nat, r2: seq<bool>, hclen: nat, r3: seq<bool>)
    requires hlit >= 257 && hdist >= 1 && hclen >= 4
    requires Take(bits, 5) == Ok((hlit - 257, r1)) && Take(r1, 5) == Ok((hdist - 1, r2))
      && Take(r2, 4) == Ok((hclen - 4, r3))
    ensures TakeCounts(bits) == Ok(((hlit, hdist, hclen), r3))
  {
  }

  /** Decoding the header of a dynamic block yields the declared codes' tables. */
  lemma HeaderRoundTrip(d: Header, order: seq<nat>, bits: seq<bool>, tail: seq<bool>)
    requires GoodOrder(order) && Covers(order) && ValidHeader(d, order) && bits == HeaderBits(d, order, tail)
    ensures DynamicTables(bits, order) == Ok(((Table(d.lit), Table(d.dist)), tail))
  {
    var r1 := OrderBits(d.cl, order, 0, d.hclen, RunsBits(d.cl, d.runs, tail));
    FieldsOfHeader(d.lit, d.dist, d.cl, d.hclen, d.runs, order, |d.lit| + |d.dist|, bits, r1, d.lit + d.dist, tail);
  }

  lemma FieldsOfHeader(lit: seq<nat>, dist: seq<nat>, cl: seq<nat>, hclen: nat, runs: seq<Run>, order: seq<nat>, n: nat,
                       bits: seq<bool>, r1: seq<bool>, lens: seq<nat>, tail: seq<bool>)
    requires GoodOrder(order) && Covers(order) && |cl| == 19 && Kraft(cl)
    requires 257 <= |lit| <= 288 && 1 <= |dist| <= 30 && 4 <= hclen <= 19 && n == |lit| + |dist|
    requires (forall i :: 0 <= i < 19 ==> cl[i] < 8) && (forall k :: hclen <= k < 19 ==> cl[order[k]] == 0)
    requires ValidRuns(cl, runs) && (runs != [] ==> !runs[0].Previous?) && lens == Spell(runs, []) == lit + dist
    requires r1 == OrderBits(cl, order, 0, hclen, RunsBits(cl, runs, tail))
      && bits == CountsBits(|lit|, |dist|, hclen, r1)
    ensures DynamicTables(bits, order) == Ok(((Table(lit), Table(dist)), tail))
  {
    LengthsRoundTrip(cl, order, hclen, runs, n, r1, lens, tail);
    PartsRoundTrip(bits, order, lit, dist, hclen, n, r1, lens, tail);
  }

  lemma PartsRoundTrip(bits: seq<bool>, order: seq<nat>, lit: seq<nat>, dist: seq<nat>, hclen: nat, n: nat,
                       r1: seq<bool>, lens: seq<nat>, r2: seq<bool>)
    requires GoodOrder(order) && 257 <= |lit| <= 288 && 1 <= |dist| <= 30 && 4 <= hclen <= 19 && lens == lit + dist
      && n == |lit| + |dist|
    requires bits == CountsBits(|lit|, |dist|, hclen, r1) && TakeLengths(r1, order, hclen, n) == Ok((lens, r2))
    ensures DynamicTables(bits, order) == Ok(((Table(lit), Table(dist)), r2))
  {
    CountsRoundTrip(|lit|, |dist|, hclen, r1);
    HeaderStep(bits, order, |lit|, |dist|, hclen, n, r1, lens, r2);
    assert lens[..|lit|] == lit && lens[|lit|..] == dist;
  }

  lemma HeaderStep(bits: seq<bool>, order: seq<nat>, hlit: nat, hdist: nat, hclen: nat, n: nat, r1: seq<bool>,
                   lens: seq<nat>, r2: seq<bool>)
    requires GoodOrder(order) && hlit <= 288 && hdist <= 30 && hclen <= 19 && n == hlit + hdist
    requires TakeCounts(bits) == Ok(((hlit, hdist, hclen), r1))
    requires TakeLengths(r1, order, hclen, n) == Ok((lens, r2))
    ensures DynamicTables(bits, order) == Ok(((Table(lens[..hlit]), Table(lens[hlit..])), r2))
  {
    CodesStep(r1, order, hlit, n, hclen, lens, r2);
    TablesStep(r1, order, hlit, hdist, hclen, n);
    CountsThenTables(bits, order, hlit, hdist, hclen, r1);
  }

  lemma CodesStep(bits: seq<bool>, order: seq<nat>, hlit: nat, n: nat, hclen: nat, lens: seq<nat>, rest: seq<bool>)
    requires GoodOrder(order) && hclen <= 19 && hlit <= n
    requires TakeLengths(bits, order, hclen, n) == Ok((lens, rest))
    ensures TakeCodes(bits, order, hlit, n, hclen) == Ok(((Table(lens[..hlit]), Table(lens[hlit..])), rest))
  {
  }

  lemma TablesStep(bits: seq<bool>, order: seq<nat>, hlit: nat, hdist: nat, hclen: nat, n: nat)
    requires GoodOrder(order) && hlit <= 288 && hdist <= 30 && hclen <= 19 && n == hlit + hdist
    ensures TakeTables(bits, order, hlit, hdist, hclen) == TakeCodes(bits, order, hlit, n, hclen)
  {
  }

  lemma CountsThenTables(bits: seq<bool>, order: seq<nat>, hlit: nat, hdist: nat, hclen: nat, rest: seq<bool>)
    requires GoodOrder(order) && hclen <= 19 && TakeCounts(bits) == Ok(((hlit, hdist, hclen), rest))
    ensures DynamicTables(bits, order) == TakeTables(rest, order, hlit, hdist, hclen)
  {
  }
}
