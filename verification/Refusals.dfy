/** What the decoder refuses, stated on encodings: one lemma for each rule of the format it checks. */
module Refusals {
  import opened Bits
  import opened Results
  import opened Huffman
  import opened BitReader
  import opened Inflate
  import opened Deflate
  import opened Streams

  /** The code words and extra bits of a match, then `tail`. */
  ghost function MatchBits(t: Tables, lit: seq<nat>, dist: seq<nat>, li: nat, lx: nat, di: nat, dx: nat,
                           tail: seq<bool>): seq<bool>
    requires li < |t.lengthBase| == |t.lengthExtra| && di < |t.distBase| == |t.distExtra|
    requires HasCode(lit, 257 + li) && HasCode(dist, di)
  {
    CodeBits(lit, 257 + li)
      + (ToBits(lx, t.lengthExtra[li]) + (CodeBits(dist, di) + (ToBits(dx, t.distExtra[di]) + tail)))
  }

  lemma MatchFails(t: Tables, d: Huff, li: nat, len: nat, back: nat, r1: seq<bool>, tail: seq<bool>, out: seq<byte>)
    requires Usable(t) && WellFormed(d) && back > |out| && TakePair(r1, li, t, d) == Ok(((len, back), tail))
    ensures TakeMatch(r1, li, t, d, out) == Err(DistanceTooFar)
  {
  }

  lemma SymbolsFail(t: Tables, h: Huff, d: Huff, sym: nat, li: nat, bits: seq<bool>, r1: seq<bool>, out: seq<byte>,
                    error: Error)
    requires Usable(t) && WellFormed(h) && WellFormed(d) && sym > 256 && li == sym - 257
    requires TakeSymbol(h, bits) == Ok((sym, r1)) && TakeMatch(r1, li, t, d, out) == Err(error)
    ensures Symbols(bits, t, h, d, out) == Err(error)
  {
  }

  /** A match that reaches back before the first byte, by however little. */
  lemma TooFarRefused(t: Tables, hl: Huff, lit: seq<nat>, hd: Huff, dist: seq<nat>, li: nat, lx: nat, di: nat, dx: nat,
                      out: seq<byte>, tail: seq<bool>)
    requires Usable(t) && Decodes(hl, lit) && Decodes(hd, dist)
    requires li < |t.lengthBase| && lx < Pow2(t.lengthExtra[li]) && HasCode(lit, 257 + li)
    requires di < |t.distBase| && dx < Pow2(t.distExtra[di]) && HasCode(dist, di)
    requires t.distBase[di] + dx > |out|
    ensures Symbols(MatchBits(t, lit, dist, li, lx, di, dx, tail), t, hl, hd, out) == Err(DistanceTooFar)
  {
    var r1 := ToBits(lx, t.lengthExtra[li]) + (CodeBits(dist, di) + (ToBits(dx, t.distExtra[di]) + tail));
    CodeReturns(hl, lit, 257 + li, r1);
    PairRoundTrip(t, hd, dist, li, lx, di, dx, tail);
    MatchFails(t, hd, li, t.lengthBase[li] + lx, t.distBase[di] + dx, r1, tail, out);
    SymbolsFail(t, hl, hd, 257 + li, li, MatchBits(t, lit, dist, li, lx, di, dx, tail), r1, out, DistanceTooFar);
  }

  /** A length symbol the format does not use. */
  lemma LengthSymbolRefused(t: Tables, hl: Huff, lit: seq<nat>, hd: Huff, sym: nat, out: seq<byte>, tail: seq<bool>)
    requires Usable(t) && Decodes(hl, lit) && WellFormed(hd) && HasCode(lit, sym) && sym >= 257 + |t.lengthBase|
    ensures Symbols(CodeBits(lit, sym) + tail, t, hl, hd, out) == Err(BadLengthSymbol)
  {
    CodeReturns(hl, lit, sym, tail);
    SymbolsFail(t, hl, hd, sym, sym - 257, CodeBits(lit, sym) + tail, tail, out, BadLengthSymbol);
  }

  /** Repeating the previous code length where there is none. */
  lemma FirstRepeatRefused(h: Huff, cl: seq<nat>, lens: seq<nat>, tail: seq<bool>)
    requires Decodes(h, cl) && HasCode(cl, 16) && Lengths(lens) && lens != []
    ensures CodeLengths(CodeBits(cl, 16) + tail, h, lens, 0) == Err(RepeatBeforeFirst)
  {
    CodeReturns(h, cl, 16, tail);
    var bits := CodeBits(cl, 16) + tail;
    assert TakeRun(bits, h, true) == Err(RepeatBeforeFirst);
    LengthsTurn(bits, h, lens, 0, TakeRun(bits, h, true));
  }

  /** Repeating it past the last length. */
  lemma LongRepeatRefused(h: Huff, cl: seq<nat>, lens: seq<nat>, i: nat, x: nat, tail: seq<bool>)
    requires Decodes(h, cl) && HasCode(cl, 16) && Lengths(lens) && 0 < i < |lens| && x < 4 && i + 3 + x > |lens|
    ensures CodeLengths(CodeBits(cl, 16) + (ToBits(x, 2) + tail), h, lens, i) == Err(LengthOverflow)
  {
    var bits := CodeBits(cl, 16) + (ToBits(x, 2) + tail);
    RepeatRoundTrip(h, cl, Previous(3 + x), false, 16, x, 2, bits, tail);
    LengthsTurn(bits, h, lens, i, TakeRun(bits, h, false));
  }

  /** More distance codes than there are distances. */
  lemma DistancesRefused(hlit: nat, hdist: nat, hclen: nat, order: seq<nat>, tail: seq<bool>)
    requires GoodOrder(order) && 257 <= hlit <= 288 && 31 <= hdist <= 32 && 4 <= hclen <= 19
    ensures DynamicTables(CountsBits(hlit, hdist, hclen, tail), order) == Err(TooManyCodes)
  {
    CountsRoundTrip(hlit, hdist, hclen, tail);
    CountsThenTables(CountsBits(hlit, hdist, hclen, tail), order, hlit, hdist, hclen, tail);
  }

  /** Length fields that are not complements of each other. */
  lemma FieldsRefused(len: nat, nlen: nat, tail: seq<bool>, out: seq<byte>)
    requires len < 0x1_0000 && nlen < 0x1_0000 && len + nlen != 0xffff
    ensures Stored(ToBits(len, 16) + (ToBits(nlen, 16) + tail), out) == Err(StoredMismatch)
  {
    Pow16();
    TakeToBits(nlen, 16, tail);
    TakeToBits(len, 16, ToBits(nlen, 16) + tail);
    StoredStep(ToBits(len, 16) + (ToBits(nlen, 16) + tail), len, nlen, ToBits(nlen, 16) + tail, tail, out);
  }

  /** The reserved block type. */
  lemma ReservedRefused(u: Setup, limit: nat, last: bool, kind: nat, bits: seq<bool>, r: seq<bool>, out: seq<byte>)
    requires GoodSetup(u) && kind == 3 && bits == [last] + (ToBits(kind, 2) + r)
    ensures Blocks(bits, u, limit, out) == Err(ReservedBlock)
  {
    HeaderOf(bits, last, kind, r);
  }
}
