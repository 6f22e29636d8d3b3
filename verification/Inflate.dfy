/** The DEFLATE decoder: what each part of the format means on the remaining bits,
    and the methods that read it through the bit reader. */
module Inflate {
  import opened Bits
  import opened Results
  import opened Huffman
  import opened BitReader

  const LENGTH_BASE: seq<nat> := [
    3, 4, 5, 6, 7, 8, 9, 10, 11, 13, 15, 17, 19, 23, 27, 31, 35, 43, 51, 59, 67, 83, 99, 115, 131, 163, 195, 227, 258]
  const LENGTH_EXTRA: seq<nat> := [
    0, 0, 0, 0, 0, 0, 0, 0, 1, 1, 1, 1, 2, 2, 2, 2, 3, 3, 3, 3, 4, 4, 4, 4, 5, 5, 5, 5, 0]
  const DIST_BASE: seq<nat> := [
    1, 2, 3, 4, 5, 7, 9, 13, 17, 25, 33, 49, 65, 97, 129, 193, 257, 385, 513, 769, 1025, 1537, 2049, 3073,
    4097, 6145, 8193, 12289, 16385, 24577]
  const DIST_EXTRA: seq<nat> := [
    0, 0, 0, 0, 1, 1, 2, 2, 3, 3, 4, 4, 5, 5, 6, 6, 7, 7, 8, 8, 9, 9, 10, 10, 11, 11, 12, 12, 13, 13]
  const ORDER: seq<nat> := [16, 17, 18, 0, 8, 7, 9, 6, 10, 5, 11, 4, 12, 3, 13, 2, 14, 1, 15]

  /** The base values and extra-bit counts of lengths and distances. */
  datatype Tables = Tables(lengthBase: seq<nat>, lengthExtra: seq<nat>, distBase: seq<nat>, distExtra: seq<nat>)

  predicate Usable(t: Tables) {
    && |t.lengthBase| == |t.lengthExtra| && |t.distBase| == |t.distExtra|
    && (forall i :: 0 <= i < |t.lengthExtra| ==> t.lengthExtra[i] <= 24)
    && (forall i :: 0 <= i < |t.distExtra| ==> t.distExtra[i] <= 24)
    && (forall i :: 0 <= i < |t.distBase| ==> t.distBase[i] >= 1)
  }

  // ----- literals and copies ----------------------------------------------------------

  /** `len` bytes copied from `back` bytes before the end, overlap included. */
  function Copy(out: seq<byte>, back: nat, len: nat): (r: seq<byte>)
    requires 1 <= back <= |out|
    ensures |r| == |out| + len
    decreases len
  {
    if len == 0 then out else Copy(out + [out[|out| - back]], back, len - 1)
  }

  function TakeDistance(rest: seq<bool>, t: Tables, dist: Huff): (r: Parsed<nat>)
    requires WellFormed(dist) && Usable(t)
    ensures r.Ok? ==> |r.value.1| < |rest| && r.value.0 >= 1
  {
    var (dsym, r1) :- TakeSymbol(dist, rest);
    if dsym >= |t.distBase| then Err(BadDistanceSymbol)
    else
      var (extra, r2) :- Take(r1, t.distExtra[dsym]);
      Ok((t.distBase[dsym] + extra, r2))
  }

  /** The length and distance that follow length symbol `257 + idx`. */
  function TakePair(rest: seq<bool>, idx: nat, t: Tables, dist: Huff): (r: Parsed<(nat, nat)>)
    requires WellFormed(dist) && Usable(t)
    ensures r.Ok? ==> |r.value.1| < |rest| && r.value.0.1 >= 1
  {
    if idx >= |t.lengthBase| then Err(BadLengthSymbol)
    else
      var (extra, r1) :- Take(rest, t.lengthExtra[idx]);
      var (back, r2) :- TakeDistance(r1, t, dist);
      Ok(((t.lengthBase[idx] + extra, back), r2))
  }

  /** A length and a distance, and the bytes they stand for appended to `out`. */
  function TakeMatch(rest: seq<bool>, idx: nat, t: Tables, dist: Huff, out: seq<byte>): (r: Parsed<seq<byte>>)
    requires WellFormed(dist) && Usable(t)
    ensures r.Ok? ==> |r.value.1| < |rest|
  {
    var ((len, back), r1) :- TakePair(rest, idx, t, dist);
    if back > |out| then Err(DistanceTooFar) else Ok((Copy(out, back, len), r1))
  }

  /** The symbols of one Huffman-coded block, appended to `out`. */
  function Symbols(rest: seq<bool>, t: Tables, lit: Huff, dist: Huff, out: seq<byte>): (r: Parsed<seq<byte>>)
    requires WellFormed(lit) && WellFormed(dist) && Usable(t)
    ensures r.Ok? ==> |r.value.1| < |rest|
    decreases |rest|
  {
    var (sym, r1) :- TakeSymbol(lit, rest);
    if sym < 256 then Symbols(r1, t, lit, dist, out + [sym])
    else if sym == 256 then Ok((out, r1))
    else
      var (out', r2) :- TakeMatch(r1, sym - 257, t, dist, out);
      Symbols(r2, t, lit, dist, out')
  }

  method CopyBack(out0: seq<byte>, back: nat, len: nat) returns (out: seq<byte>)
    requires 1 <= back <= |out0|
    ensures out == Copy(out0, back, len)
  {
    out := out0;
    var from := |out| - back;
    for k := 0 to len
      invariant |out| == |out0| + k
      invariant Copy(out, back, len - k) == Copy(out0, back, len)
    {
      var b := out[from + k];
      out := out + [b];
    }
  }

  method ReadDistance(r: Reader, t: Tables, dist: Huff) returns (res: Result<nat, Error>)
    requires r.Ready() && WellFormed(dist) && Usable(t)
    modifies r
    ensures r.Yields(TakeDistance(old(r.rest), t, dist), res)
  {
    var dsym := r.TakeCode(dist);
    if dsym.Err? { return Err(dsym.error); }
    if dsym.value >= |t.distBase| { return Err(BadDistanceSymbol); }
    var extra := r.TakeField(t.distExtra[dsym.value]);
    if extra.Err? { return Err(extra.error); }
    res := Ok(t.distBase[dsym.value] + extra.value);
  }

  /** The part of `inflate_block` that reads a length and a distance. */
  method ReadPair(r: Reader, idx: nat, t: Tables, dist: Huff) returns (res: Result<(nat, nat), Error>)
    requires r.Ready() && WellFormed(dist) && Usable(t)
    modifies r
    ensures r.Yields(TakePair(old(r.rest), idx, t, dist), res)
  {
    if idx >= |t.lengthBase| { return Err(BadLengthSymbol); }
    var extra := r.TakeField(t.lengthExtra[idx]);
    if extra.Err? { return Err(extra.error); }
    var back := ReadDistance(r, t, dist);
    if back.Err? { return Err(back.error); }
    res := Ok((t.lengthBase[idx] + extra.value, back.value));
  }

  method ReadMatch(r: Reader, idx: nat, t: Tables, dist: Huff, out: seq<byte>) returns (res: Result<seq<byte>, Error>)
    requires r.Ready() && WellFormed(dist) && Usable(t)
    modifies r
    ensures r.Yields(TakeMatch(old(r.rest), idx, t, dist, out), res)
  {
    var pair := ReadPair(r, idx, t, dist);
    if pair.Err? { return Err(pair.error); }
    var (len, back) := pair.value;
    if back > |out| { return Err(DistanceTooFar); }
    var out' := CopyBack(out, back, len);
    res := Ok(out');
  }

  /** One turn of the symbol loop. */
  lemma SymbolsTurn(rest: seq<bool>, t: Tables, lit: Huff, dist: Huff, out: seq<byte>, s: Parsed<nat>)
    requires WellFormed(lit) && WellFormed(dist) && Usable(t) && s == TakeSymbol(lit, rest)
    ensures s.Err? ==> Symbols(rest, t, lit, dist, out) == Err(s.error)
    ensures s.Ok? && s.value.0 < 256 ==>
      Symbols(rest, t, lit, dist, out) == Symbols(s.value.1, t, lit, dist, out + [s.value.0])
    ensures s.Ok? && s.value.0 == 256 ==> Symbols(rest, t, lit, dist, out) == Ok((out, s.value.1))
    ensures s.Ok? && s.value.0 > 256 ==>
      var m := TakeMatch(s.value.1, s.value.0 - 257, t, dist, out);
      Symbols(rest, t, lit, dist, out) == if m.Err? then Err(m.error) else Symbols(m.value.1, t, lit, dist, m.value.0)
  {
  }

  /** `inflate_block` */
  method InflateBlock(r: Reader, t: Tables, lit: Huff, dist: Huff, out0: seq<byte>)
      returns (res: Result<seq<byte>, Error>)
    requires r.Ready() && WellFormed(lit) && WellFormed(dist) && Usable(t)
    modifies r
    ensures r.Yields(Symbols(old(r.rest), t, lit, dist, out0), res)
  {
    var out := out0;
    while true
      invariant r.Ready()
      invariant Symbols(r.rest, t, lit, dist, out) == Symbols(old(r.rest), t, lit, dist, out0)
      decreases |r.rest|
    {
      ghost var before := r.rest;
      var sym := r.TakeCode(lit);
      SymbolsTurn(before, t, lit, dist, out, TakeSymbol(lit, before));
      if sym.Err? { return Err(sym.error); }
      if sym.value < 256 {
        out := out + [sym.value];
      } else if sym.value == 256 {
        return Ok(out);
      } else {
        var copied := ReadMatch(r, sym.value - 257, t, dist, out);
        if copied.Err? { return Err(copied.error); }
        out := copied.value;
      }
    }
  }

  // ----- dynamic tables ---------------------------------------------------------------

  function Zeros(n: nat): (z: seq<nat>)
    ensures |z| == n && forall i :: 0 <= i < n ==> z[i] == 0
  {
    seq(n, _ => 0)
  }

  predicate GoodOrder(order: seq<nat>) {
    |order| == 19 && forall i :: 0 <= i < 19 ==> order[i] < 19
  }

  /** The 3-bit lengths of the code-length code, the `k`-th to the `n`-th. */
  function ReadOrder(rest: seq<bool>, order: seq<nat>, k: nat, n: nat, acc: seq<nat>): (r: Parsed<seq<nat>>)
    requires GoodOrder(order) && k <= n <= 19 && |acc| == 19 && Lengths(acc)
    ensures r.Ok? ==> |r.value.0| == 19 && Lengths(r.value.0) && |r.value.1| <= |rest|
    decreases n - k, rest
  {
    if k == n then Ok((acc, rest))
    else
      var (v, r1) :- Take(rest, 3);
      ThreeBits(rest[..3]);
      ReadOrder(r1, order, k + 1, n, acc[order[k] := v])
  }

  lemma ThreeBits(bits: seq<bool>)
    requires |bits| == 3
    ensures FromBits(bits) < 8
  {
    FromBitsBound(bits);
    assert Pow2(3) == 8;
  }

  /** `rep` entries from `i` on set to `v`. */
  function PutRun(lens: seq<nat>, i: nat, rep: nat, v: nat): (r: seq<nat>)
    requires i + rep <= |lens|
    ensures |r| == |lens|
  {
    lens[..i] + seq(rep, _ => v) + lens[i + rep..]
  }

  /** One code-length symbol: a length, a repetition of the previous one, or a run
      of zeros. */
  datatype Run = One(len: nat) | Previous(rep: nat) | Skip(rep: nat)

  function TakeRun(rest: seq<bool>, h: Huff, first: bool): (r: Parsed<Run>)
    requires WellFormed(h)
    ensures r.Ok? ==> |r.value.1| < |rest| && (r.value.0.One? ==> r.value.0.len <= 15)
  {
    var (sym, r1) :- TakeSymbol(h, rest);
    if sym <= 15 then Ok((One(sym), r1))
    else if sym == 16 then
      if first then Err(RepeatBeforeFirst)
      else
        var (x, r2) :- Take(r1, 2);
        Ok((Previous(3 + x), r2))
    else if sym == 17 then
      var (x, r2) :- Take(r1, 3);
      Ok((Skip(3 + x), r2))
    else if sym == 18 then
      var (x, r2) :- Take(r1, 7);
      Ok((Skip(11 + x), r2))
    else Err(BadCodeLengthSymbol)
  }

  /** The entries after one run placed at `i`, and the next position.  A run of
      zeros leaves the entries alone and may pass the end. */
  function Place(lens: seq<nat>, i: nat, run: Run): (r: Result<(seq<nat>, nat), Error>)
    requires i < |lens|
    ensures r.Ok? ==> |r.value.0| == |lens|
  {
    match run
    case One(len) => Ok((lens[i := len], i + 1))
    case Previous(rep) =>
      if i == 0 then Err(RepeatBeforeFirst)
      else if i + rep > |lens| then Err(LengthOverflow)
      else Ok((PutRun(lens, i, rep, lens[i - 1]), i + rep))
    case Skip(rep) => Ok((lens, i + rep))
  }

  /** The run-length coded code lengths from position `i` on. */
  function CodeLengths(rest: seq<bool>, h: Huff, lens: seq<nat>, i: nat): (r: Parsed<seq<nat>>)
    requires WellFormed(h) && Lengths(lens)
    ensures r.Ok? ==> |r.value.0| == |lens| && Lengths(r.value.0) && |r.value.1| <= |rest|
    decreases |rest|
  {
    if i >= |lens| then Ok((lens, rest))
    else
      var (run, r1) :- TakeRun(rest, h, i == 0);
      var (lens', i') :- Place(lens, i, run);
      CodeLengths(r1, h, lens', i')
  }

  /** Placing a run keeps every length within 15 bits. */
  lemma PlacedLengths(lens: seq<nat>, i: nat, run: Run)
    requires i < |lens| && Lengths(lens) && (run.One? ==> run.len <= 15)
    ensures Place(lens, i, run).Ok? ==> Lengths(Place(lens, i, run).value.0)
  {
  }

  /** One turn of the length loop, for what it read and what that placed. */
  lemma LengthsTurn(rest: seq<bool>, h: Huff, lens: seq<nat>, i: nat, run: Parsed<Run>)
    requires WellFormed(h) && Lengths(lens) && i < |lens| && run == TakeRun(rest, h, i == 0)
    ensures run.Err? ==> CodeLengths(rest, h, lens, i) == Err(run.error)
    ensures run.Ok? ==>
      var placed := Place(lens, i, run.value.0);
      if placed.Err? then CodeLengths(rest, h, lens, i) == Err(placed.error)
      else
        Lengths(placed.value.0) &&
        CodeLengths(rest, h, lens, i) == CodeLengths(run.value.1, h, placed.value.0, placed.value.1)
  {
    if run.Ok? { PlacedLengths(lens, i, run.value.0); }
  }

  /** HLIT, HDIST and HCLEN: how many lengths of each kind follow. */
  function TakeSizes(rest: seq<bool>): (r: Parsed<(nat, nat)>)
    ensures r.Ok? ==> |r.value.1| <= |rest|
  {
    var (hlit, r1) :- Take(rest, 5);
    var (hdist, r2) :- Take(r1, 5);
    Ok(((hlit, hdist), r2))
  }

  function TakeCounts(rest: seq<bool>): (r: Parsed<(nat, nat, nat)>)
    ensures r.Ok? ==> |r.value.1| <= |rest|
  {
    var (sizes, r1) :- TakeSizes(rest);
    var (hclen, r2) :- Take(r1, 4);
    Ok(((sizes.0 + 257, sizes.1 + 1, hclen + 4), r2))
  }

  lemma AtMost19(rest: seq<bool>)
    ensures var r := TakeCounts(rest); r.Ok? ==> r.value.0.2 <= 19
  {
    if |rest| >= 14 {
      FromBitsBound(rest[5..][5..][..4]);
      assert Pow2(4) == 16;
    }
  }

  /** The code lengths of both alphabets, `n` in all. */
  function TakeLengths(rest: seq<bool>, order: seq<nat>, hclen: nat, n: nat): (r: Parsed<seq<nat>>)
    requires GoodOrder(order) && hclen <= 19
    ensures r.Ok? ==> |r.value.0| == n && Lengths(r.value.0) && |r.value.1| <= |rest|
  {
    var (cl, r1) :- ReadOrder(rest, order, 0, hclen, Zeros(19));
    TableWellFormed(cl);
    CodeLengths(r1, Table(cl), Zeros(n), 0)
  }

  /** The first `hlit` lengths are the literal/length code's, the others the distance
      code's. */
  function TablePair(lens: seq<nat>, hlit: nat): (p: (Huff, Huff))
    requires hlit <= |lens|
    ensures WellFormed(p.0) && WellFormed(p.1)
  {
    TableWellFormed(lens[..hlit]);
    TableWellFormed(lens[hlit..]);
    (Table(lens[..hlit]), Table(lens[hlit..]))
  }

  /** `n` lengths, the first `hlit` of them the literal/length code's. */
  function TakeCodes(rest: seq<bool>, order: seq<nat>, hlit: nat, n: nat, hclen: nat): (r: Parsed<(Huff, Huff)>)
    requires GoodOrder(order) && hclen <= 19 && hlit <= n
    ensures r.Ok? ==> WellFormed(r.value.0.0) && WellFormed(r.value.0.1) && |r.value.1| <= |rest|
  {
    var (lens, r1) :- TakeLengths(rest, order, hclen, n);
    Ok((TablePair(lens, hlit), r1))
  }

  /** The tables a dynamic block declares, its counts being known. */
  function TakeTables(rest: seq<bool>, order: seq<nat>, hlit: nat, hdist: nat, hclen: nat): (r: Parsed<(Huff, Huff)>)
    requires GoodOrder(order) && hclen <= 19
    ensures r.Ok? ==> WellFormed(r.value.0.0) && WellFormed(r.value.0.1) && |r.value.1| <= |rest|
  {
    if hlit > 288 || hdist > 30 then Err(TooManyCodes) else TakeCodes(rest, order, hlit, hlit + hdist, hclen)
  }

  /** The header of a dynamic block: its literal/length and distance tables. */
  function DynamicTables(rest: seq<bool>, order: seq<nat>): (r: Parsed<(Huff, Huff)>)
    requires GoodOrder(order)
    ensures r.Ok? ==> WellFormed(r.value.0.0) && WellFormed(r.value.0.1) && |r.value.1| <= |rest|
  {
    AtMost19(rest);
    var (n, r1) :- TakeCounts(rest);
    TakeTables(r1, order, n.0, n.1, n.2)
  }

  method ReadOrderLengths(r: Reader, order: seq<nat>, n: nat) returns (res: Result<seq<nat>, Error>)
    requires r.Ready() && GoodOrder(order) && n <= 19
    modifies r
    ensures r.Yields(ReadOrder(old(r.rest), order, 0, n, Zeros(19)), res)
  {
    var codeLengths := new nat[19](_ => 0);
    assert codeLengths[..] == Zeros(19);
    for i := 0 to n
      invariant fresh(codeLengths) && r.Ready() && Lengths(codeLengths[..])
      invariant ReadOrder(r.rest, order, i, n, codeLengths[..]) == ReadOrder(old(r.rest), order, 0, n, Zeros(19))
    {
      ghost var rest, acc := r.rest, codeLengths[..];
      var v := r.TakeField(3);
      if v.Err? { return Err(v.error); }
      ThreeBits(rest[..3]);
      codeLengths[order[i]] := v.value;
      assert codeLengths[..] == acc[order[i] := v.value];
    }
    res := Ok(codeLengths[..]);
  }

  /** The part of the length loop that reads one symbol and its extra bits. */
  method ReadRun(r: Reader, h: Huff, first: bool) returns (res: Result<Run, Error>)
    requires r.Ready() && WellFormed(h)
    modifies r
    ensures r.Yields(TakeRun(old(r.rest), h, first), res)
  {
    var sym := r.TakeCode(h);
    if sym.Err? { return Err(sym.error); }
    if sym.value <= 15 {
      return Ok(One(sym.value));
    } else if sym.value == 16 {
      if first { return Err(RepeatBeforeFirst); }
      var x := r.TakeField(2);
      if x.Err? { return Err(x.error); }
      return Ok(Previous(3 + x.value));
    } else if sym.value == 17 {
      var x := r.TakeField(3);
      if x.Err? { return Err(x.error); }
      return Ok(Skip(3 + x.value));
    } else if sym.value == 18 {
      var x := r.TakeField(7);
      if x.Err? { return Err(x.error); }
      return Ok(Skip(11 + x.value));
    }
    res := Err(BadCodeLengthSymbol);
  }

  method ReadCodeLengths(r: Reader, h: Huff, n: nat) returns (res: Result<seq<nat>, Error>)
    requires r.Ready() && WellFormed(h)
    modifies r
    ensures r.Yields(CodeLengths(old(r.rest), h, Zeros(n), 0), res)
  {
    var lengths := new nat[n](_ => 0);
    assert lengths[..] == Zeros(n);
    var i: nat := 0;
    while i < n
      invariant fresh(lengths) && r.Ready() && Lengths(lengths[..])
      invariant CodeLengths(r.rest, h, lengths[..], i) == CodeLengths(old(r.rest), h, Zeros(n), 0)
      decreases |r.rest|
    {
      LengthsTurn(r.rest, h, lengths[..], i, TakeRun(r.rest, h, i == 0));
      var run := ReadRun(r, h, i == 0);
      if run.Err? { return Err(run.error); }
      var next := PlaceRun(lengths, i, run.value);
      if next.Err? { return Err(next.error); }
      i := next.value;
    }
    res := Ok(lengths[..]);
  }

  /** The part of the length loop that stores what one symbol says. */
  method PlaceRun(lengths: array<nat>, start: nat, run: Run) returns (next: Result<nat, Error>)
    requires start < lengths.Length
    modifies lengths
    ensures match Place(old(lengths[..]), start, run)
      case Ok((lens, i)) => lengths[..] == lens && next == Ok(i)
      case Err(e) => next == Err(e)
  {
    match run {
      case One(len) =>
        lengths[start] := len;
        return Ok(start + 1);
      case Previous(rep) =>
        if start == 0 { return Err(RepeatBeforeFirst); }
        var prev, i := lengths[start - 1], start;
        for k := 0 to rep
          invariant i == start + k <= lengths.Length
          invariant lengths[..] == PutRun(old(lengths[..]), start, k, prev)
        {
          if i >= lengths.Length { return Err(LengthOverflow); }
          lengths[i] := prev;
          i := i + 1;
        }
        return Ok(i);
      case Skip(rep) =>
        return Ok(start + rep);
    }
  }

  method ReadSizes(r: Reader) returns (res: Result<(nat, nat), Error>)
    requires r.Ready()
    modifies r
    ensures r.Yields(TakeSizes(old(r.rest)), res)
  {
    var hlit := r.TakeField(5);
    if hlit.Err? { return Err(hlit.error); }
    var hdist := r.TakeField(5);
    if hdist.Err? { return Err(hdist.error); }
    res := Ok((hlit.value, hdist.value));
  }

  method ReadCounts(r: Reader) returns (res: Result<(nat, nat, nat), Error>)
    requires r.Ready()
    modifies r
    ensures r.Yields(TakeCounts(old(r.rest)), res)
  {
    var sizes := ReadSizes(r);
    if sizes.Err? { return Err(sizes.error); }
    var hclen := r.TakeField(4);
    if hclen.Err? { return Err(hclen.error); }
    res := Ok((sizes.value.0 + 257, sizes.value.1 + 1, hclen.value + 4));
  }

  method ReadLengths(r: Reader, order: seq<nat>, hclen: nat, n: nat) returns (res: Result<seq<nat>, Error>)
    requires r.Ready() && GoodOrder(order) && hclen <= 19
    modifies r
    ensures r.Yields(TakeLengths(old(r.rest), order, hclen, n), res)
  {
    var cl := ReadOrderLengths(r, order, hclen);
    if cl.Err? { return Err(cl.error); }
    var hcode := Build(cl.value);
    TableWellFormed(cl.value);
    res := ReadCodeLengths(r, hcode, n);
  }

  method BuildPair(lens: seq<nat>, hlit: nat) returns (p: (Huff, Huff))
    requires hlit <= |lens| && Lengths(lens)
    ensures p == TablePair(lens, hlit)
  {
    var lit := Build(lens[..hlit]);
    var dist := Build(lens[hlit..]);
    p := (lit, dist);
  }

  method ReadTables(r: Reader, order: seq<nat>, hlit: nat, hdist: nat, hclen: nat)
    returns (res: Result<(Huff, Huff), Error>)
    requires r.Ready() && GoodOrder(order) && hclen <= 19
    modifies r
    ensures r.Yields(TakeTables(old(r.rest), order, hlit, hdist, hclen), res)
  {
    if hlit > 288 || hdist > 30 { return Err(TooManyCodes); }
    var lens := ReadLengths(r, order, hclen, hlit + hdist);
    if lens.Err? { return Err(lens.error); }
    var pair := BuildPair(lens.value, hlit);
    res := Ok(pair);
  }

  method ReadDynamic(r: Reader, order: seq<nat>) returns (res: Result<(Huff, Huff), Error>)
    requires r.Ready() && GoodOrder(order)
    modifies r
    ensures r.Yields(DynamicTables(old(r.rest), order), res)
  {
    AtMost19(r.rest);
    var n := ReadCounts(r);
    if n.Err? { return Err(n.error); }
    res := ReadTables(r, order, n.value.0, n.value.1, n.value.2);
  }

  // ----- blocks and streams --------------------------------------------------------------

  /** A stored block as the code reads it: the length fields right after the header,
      the data from the next byte boundary. */
  function Stored(rest: seq<bool>, out: seq<byte>): (r: Parsed<seq<byte>>)
    ensures r.Ok? ==> |r.value.1| <= |rest|
  {
    var (len, r1) :- Take(rest, 16);
    var (nlen, r2) :- Take(r1, 16);
    if BitXor(len, nlen) != 0xffff then Err(StoredMismatch)
    else
      var (data, r3) :- TakeBytes(r2, len);
      Ok((out + data, r3))
  }

  /** The constant tables of `inflate_raw`. */
  datatype Setup = Setup(tables: Tables, order: seq<nat>, fixedLit: Huff, fixedDist: Huff)

  predicate GoodSetup(u: Setup) {
    Usable(u.tables) && GoodOrder(u.order) && WellFormed(u.fixedLit) && WellFormed(u.fixedDist)
  }

  function Block(rest: seq<bool>, u: Setup, kind: nat, out: seq<byte>): (r: Parsed<seq<byte>>)
    requires GoodSetup(u)
    ensures r.Ok? ==> |r.value.1| <= |rest|
  {
    if kind == 0 then Stored(rest, out)
    else if kind == 1 then Symbols(rest, u.tables, u.fixedLit, u.fixedDist, out)
    else if kind == 2 then
      var ((lit, dist), r1) :- DynamicTables(rest, u.order);
      Symbols(r1, u.tables, lit, dist, out)
    else Err(ReservedBlock)
  }

  /** The blocks of a stream up to the final one; the output limit is checked after
      each block. */
  function Blocks(rest: seq<bool>, u: Setup, limit: nat, out: seq<byte>): (r: Result<seq<byte>, Error>)
    requires GoodSetup(u)
    decreases |rest|
  {
    var (last, r1) :- Take(rest, 1);
    var (kind, r2) :- Take(r1, 2);
    var (out', r3) :- Block(r2, u, kind, out);
    if |out'| > limit then Err(LimitExceeded)
    else if last == 1 then Ok(out')
    else Blocks(r3, u, limit, out')
  }

  function FixedLitLengths(): (lengths: seq<nat>)
    ensures |lengths| == 288 && Lengths(lengths)
  {
    seq(288, i => if i < 144 then 8 else if i < 256 then 9 else if i < 280 then 7 else 8)
  }

  function FixedDistLengths(): (lengths: seq<nat>)
    ensures |lengths| == 30 && Lengths(lengths)
  {
    seq(30, _ => 5)
  }

  function Standard(): Setup {
    Setup(Tables(LENGTH_BASE, LENGTH_EXTRA, DIST_BASE, DIST_EXTRA), ORDER, Table(FixedLitLengths()),
      Table(FixedDistLengths()))
  }

  lemma LengthTablesUsable()
    ensures |LENGTH_BASE| == |LENGTH_EXTRA| == 29
    ensures forall i :: 0 <= i < 29 ==> LENGTH_EXTRA[i] <= 5
  {
  }

  lemma DistTablesUsable()
    ensures |DIST_BASE| == |DIST_EXTRA| == 30
    ensures forall i :: 0 <= i < 30 ==> DIST_EXTRA[i] <= 13
    ensures forall i :: 0 <= i < 30 ==> DIST_BASE[i] >= 1
  {
  }

  lemma TablesUsable()
    ensures Usable(Tables(LENGTH_BASE, LENGTH_EXTRA, DIST_BASE, DIST_EXTRA))
  {
    LengthTablesUsable();
    DistTablesUsable();
  }

  lemma OrderUsable()
    ensures GoodOrder(ORDER)
  {
  }

  lemma StandardIsGood()
    ensures GoodSetup(Standard())
  {
    TablesUsable();
    OrderUsable();
    TableWellFormed(FixedLitLengths());
    TableWellFormed(FixedDistLengths());
  }

  /** What `inflate_raw` makes of a byte string. */
  function InflateRaw(src: seq<byte>, limit: nat): Result<seq<byte>, Error> {
    StandardIsGood();
    Blocks(MessageBits(src), Standard(), limit, [])
  }

  method ReadU16(r: Reader) returns (res: Result<nat, Error>)
    requires r.Ready()
    modifies r
    ensures r.Yields(Take(old(r.rest), 16), res)
  {
    ghost var rest := r.rest;
    var lo := r.TakeField(8);
    if lo.Err? { return Err(lo.error); }
    var hi := r.TakeField(8);
    if hi.Err? { return Err(hi.error); }
    JoinField(rest[..8], rest[8..][..8]);
    assert rest[..8] + rest[8..][..8] == rest[..16];
    assert rest[8..][8..] == rest[16..];
    res := Ok(BitOr(lo.value, Shl(hi.value, 8)));
  }

  method InflateStored(r: Reader, out: seq<byte>) returns (res: Result<seq<byte>, Error>)
    requires r.Ready()
    modifies r
    ensures r.Yields(Stored(old(r.rest), out), res)
  {
    var len := ReadU16(r);
    if len.Err? { return Err(len.error); }
    var nmask := ReadU16(r);
    if nmask.Err? { return Err(nmask.error); }
    if BitXor(len.value, nmask.value) != 0xffff { return Err(StoredMismatch); }
    var data := r.TakeRaw(len.value);
    if data.Err? { return Err(data.error); }
    res := Ok(out + data.value);
  }

  method InflateAny(r: Reader, u: Setup, kind: nat, out: seq<byte>) returns (res: Result<seq<byte>, Error>)
    requires r.Ready() && GoodSetup(u)
    modifies r
    ensures r.Yields(Block(old(r.rest), u, kind, out), res)
  {
    if kind == 0 {
      res := InflateStored(r, out);
    } else if kind == 1 {
      res := InflateBlock(r, u.tables, u.fixedLit, u.fixedDist, out);
    } else if kind == 2 {
      var tables := ReadDynamic(r, u.order);
      if tables.Err? { return Err(tables.error); }
      var (lit, dist) := tables.value;
      res := InflateBlock(r, u.tables, lit, dist, out);
    } else {
      res := Err(ReservedBlock);
    }
  }

  method FixedLengths() returns (v: array<nat>)
    ensures fresh(v) && v[..] == FixedLitLengths()
  {
    v := new nat[288](_ => 0);
    var i := 0;
    while i < 144
      invariant i <= 144 && forall k :: 0 <= k < i ==> v[k] == 8
    {
      v[i] := 8;
      i := i + 1;
    }
    while i < 256
      invariant 144 <= i <= 256 && forall k :: 0 <= k < i ==> v[k] == FixedLitLengths()[k]
    {
      v[i] := 9;
      i := i + 1;
    }
    while i < 280
      invariant 256 <= i <= 280 && forall k :: 0 <= k < i ==> v[k] == FixedLitLengths()[k]
    {
      v[i] := 7;
      i := i + 1;
    }
    while i < 288
      invariant 280 <= i <= 288 && forall k :: 0 <= k < i ==> v[k] == FixedLitLengths()[k]
    {
      v[i] := 8;
      i := i + 1;
    }
  }

  method InflateLoop(r: Reader, u: Setup, limit: nat) returns (res: Result<seq<byte>, Error>)
    requires r.Ready() && GoodSetup(u)
    modifies r
    ensures res == Blocks(old(r.rest), u, limit, [])
  {
    var out: seq<byte> := [];
    while true
      invariant r.Ready() && Blocks(r.rest, u, limit, out) == Blocks(old(r.rest), u, limit, [])
      decreases |r.rest|
    {
      var last := r.TakeField(1);
      if last.Err? { return Err(last.error); }
      var kind := r.TakeField(2);
      if kind.Err? { return Err(kind.error); }
      var block := InflateAny(r, u, kind.value, out);
      if block.Err? { return Err(block.error); }
      out := block.value;
      if |out| > limit { return Err(LimitExceeded); }
      if last.value == 1 { return Ok(out); }
    }
  }

  method Inflate(src: seq<byte>, limit: nat) returns (res: Result<seq<byte>, Error>)
    ensures res == InflateRaw(src, limit)
  {
    var r := new Reader(src);
    var v := FixedLengths();
    var fixedLit := Build(v[..]);
    var fixedDist := Build(FixedDistLengths());
    StandardIsGood();
    var tables := Tables(LENGTH_BASE, LENGTH_EXTRA, DIST_BASE, DIST_EXTRA);
    res := InflateLoop(r, Setup(tables, ORDER, fixedLit, fixedDist), limit);
  }
}
