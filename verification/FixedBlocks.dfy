/** Fixed blocks, bit by bit as sections 3.2.5 and 3.2.6 of RFC 1951 write them. */
module FixedBlocks {
  import opened Bits
  import opened Results
  import opened Huffman
  import opened BitReader
  import opened Inflate
  import opened Deflate
  import opened Rfc1951
  import opened FormatTables
  import opened Streams

  // ----- literals and matches -----------------------------------------------------------------------

  /** A list of literals and matches, as an LZ77 compressor produces it. */
  datatype Item = Byte(b: byte) | Pair(len: nat, back: nat)

  predicate ValidItem(i: Item, n: nat) {
    match i
    case Byte(_) => true
    case Pair(len, back) => 3 <= len <= 258 && 1 <= back <= 32768 && back <= n
  }

  function ItemMeaning(i: Item, out: seq<byte>): seq<byte>
    requires ValidItem(i, |out|)
  {
    match i
    case Byte(b) => out + [b]
    case Pair(len, back) => Lz77(out, back, len)
  }

  ghost predicate ValidItems(items: seq<Item>, out: seq<byte>)
    decreases items
  {
    items != [] ==> ValidItem(items[0], |out|) && ValidItems(items[1..], ItemMeaning(items[0], out))
  }

  ghost function Plain(items: seq<Item>, out: seq<byte>): seq<byte>
    requires ValidItems(items, out)
    decreases items
  {
    if items == [] then out else Plain(items[1..], ItemMeaning(items[0], out))
  }

  // ----- the bits ------------------------------------------------------------------------------------

  /** The token says which length and distance codes, with which extra values, stand for the item. */
  predicate Writes(tok: Token, item: Item) {
    match item
    case Byte(b) => tok == Literal(b)
    case Pair(len, back) => tok.Match? && WritesLength(tok.li, tok.lx, len) && WritesDistance(tok.di, tok.dx, back)
  }

  predicate HasWord(tok: Token) { tok.Match? ==> tok.li < 29 && tok.di < 30 }

  /** A token's code words and extra bits, then `tail`. */
  function FixedToken(tok: Token, tail: seq<bool>): seq<bool>
    requires HasWord(tok)
  {
    match tok
    case Literal(b) => FixedCode(b) + tail
    case Match(li, lx, di, dx) =>
      FixedCode(257 + li)
        + (ToBits(lx, LengthExtra(li)) + (FixedDistanceCode(di) + (ToBits(dx, DistanceExtra(di)) + tail)))
  }

  /** The tokens, end of block, then `tail`. */
  function FixedBits(toks: seq<Token>, tail: seq<bool>): seq<bool>
    requires forall i :: 0 <= i < |toks| ==> HasWord(toks[i])
    decreases toks
  {
    if toks == [] then FixedCode(256) + tail else FixedToken(toks[0], FixedBits(toks[1..], tail))
  }

  /** The bits of a stream of one fixed block: final, of type 01. */
  function FixedStream(toks: seq<Token>): seq<bool>
    requires forall i :: 0 <= i < |toks| ==> HasWord(toks[i])
  {
    [true] + ([true, false] + FixedBits(toks, []))
  }

  ghost predicate AllWritten(toks: seq<Token>, items: seq<Item>) {
    |toks| == |items| && forall i :: 0 <= i < |items| ==> Writes(toks[i], items[i])
  }

  lemma ItemWritten(item: Item, n: nat) returns (tok: Token)
    requires ValidItem(item, n)
    ensures Writes(tok, item)
  {
    match item
    case Byte(b) => tok := Literal(b);
    case Pair(len, back) =>
      var li, lx := LengthWritten(len);
      var di, dx := DistanceWritten(back);
      tok := Match(li, lx, di, dx);
  }

  /** Every list of items can be written. */
  lemma {:induction false} ItemsWritten(items: seq<Item>, out: seq<byte>) returns (toks: seq<Token>)
    requires ValidItems(items, out)
    ensures AllWritten(toks, items)
    decreases items
  {
    toks := [];
    if items != [] {
      var tok := ItemWritten(items[0], |out|);
      var more := ItemsWritten(items[1..], ItemMeaning(items[0], out));
      toks := [tok] + more;
    }
  }

  // ----- the encoder they are a case of -------------------------------------------------------------

  ghost predicate LengthRuled(t: Tables, i: nat)
    requires i < 29 == |t.lengthBase| == |t.lengthExtra|
  {
    t.lengthBase[i] == LengthBase(i) && t.lengthExtra[i] == LengthExtra(i)
  }

  ghost predicate DistanceRuled(t: Tables, d: nat)
    requires d < 30 == |t.distBase| == |t.distExtra|
  {
    t.distBase[d] == DistanceBase(d) && t.distExtra[d] == DistanceExtra(d)
  }

  ghost predicate WordRuled(lit: seq<nat>, s: nat) {
    s < 288 && HasCode(lit, s) && CodeBits(lit, s) == FixedCode(s)
  }

  ghost predicate DistanceWordRuled(dist: seq<nat>, d: nat) {
    d < 30 && HasCode(dist, d) && CodeBits(dist, d) == FixedDistanceCode(d)
  }

  ghost predicate WordsRuled(lit: seq<nat>, dist: seq<nat>) {
    && (forall s :: 0 <= s < 288 ==> WordRuled(lit, s))
    && (forall d :: 0 <= d < 30 ==> DistanceWordRuled(dist, d))
  }

  ghost predicate TablesRuled(t: Tables) {
    && Usable(t) && |t.lengthBase| == 29 && |t.distBase| == 30
    && (forall i :: 0 <= i < 29 ==> LengthRuled(t, i))
    && (forall d :: 0 <= d < 30 ==> DistanceRuled(t, d))
  }

  lemma FormatWords(lit: seq<nat>, dist: seq<nat>)
    requires lit == CodeWordLengths() && dist == DistanceWordLengths()
    ensures WordsRuled(lit, dist)
  {
    LengthsAgree();
    forall s | 0 <= s < 288
      ensures WordRuled(lit, s)
    {
      FixedLitCodes(s);
    }
    forall d | 0 <= d < 30
      ensures DistanceWordRuled(dist, d)
    {
      FixedDistCodes(d);
    }
  }

  lemma FormatTablesRuled(t: Tables)
    requires t == Tables(LengthBases(), LengthExtras(), DistanceBases(), DistanceExtras()) && Usable(t)
    ensures TablesRuled(t)
  {
  }

  /** A match, whatever its bases, extra bits and code words are. */
  lemma MatchAsWritten(t: Tables, lit: seq<nat>, dist: seq<nat>, li: nat, lx: nat, di: nat, dx: nat, len: nat,
                       back: nat, e: nat, f: nat, word: seq<bool>, distWord: seq<bool>, out: seq<byte>, tail: seq<bool>)
    requires Usable(t) && li < |t.lengthBase| && di < |t.distBase|
    requires t.lengthExtra[li] == e && lx < Pow2(e) && t.lengthBase[li] + lx == len
    requires t.distExtra[di] == f && dx < Pow2(f) && t.distBase[di] + dx == back && 1 <= back <= |out|
    requires HasCode(lit, 257 + li) && CodeBits(lit, 257 + li) == word
    requires HasCode(dist, di) && CodeBits(dist, di) == distWord
    ensures ValidToken(t, lit, dist, Match(li, lx, di, dx), |out|)
    ensures TokenBits(t, lit, dist, Match(li, lx, di, dx), |out|, tail)
      == word + (ToBits(lx, e) + (distWord + (ToBits(dx, f) + tail)))
    ensures Meaning(t, Match(li, lx, di, dx), out) == Lz77(out, back, len)
  {
  }

  lemma TokenAsRuled(t: Tables, lit: seq<nat>, dist: seq<nat>, tok: Token, item: Item, out: seq<byte>, tail: seq<bool>)
    requires TablesRuled(t) && WordsRuled(lit, dist) && Writes(tok, item) && ValidItem(item, |out|)
    ensures ValidToken(t, lit, dist, tok, |out|)
    ensures TokenBits(t, lit, dist, tok, |out|, tail) == FixedToken(tok, tail)
    ensures Meaning(t, tok, out) == ItemMeaning(item, out)
  {
    match item
    case Byte(b) =>
      assert WordRuled(lit, b);
    case Pair(len, back) =>
      var Match(li, lx, di, dx) := tok;
      assert LengthRuled(t, li) && DistanceRuled(t, di);
      assert WordRuled(lit, 257 + li) && DistanceWordRuled(dist, di);
      MatchAsWritten(t, lit, dist, li, lx, di, dx, len, back, LengthExtra(li), DistanceExtra(di), FixedCode(257 + li),
        FixedDistanceCode(di), out, tail);
  }

  lemma TokenThenMore(t: Tables, lit: seq<nat>, dist: seq<nat>, toks: seq<Token>, out: seq<byte>, out': seq<byte>,
                      tail: seq<bool>, more: seq<bool>)
    requires Usable(t) && HasCode(lit, 256) && toks != [] && ValidToken(t, lit, dist, toks[0], |out|)
    requires out' == Meaning(t, toks[0], out) && ValidTokens(t, lit, dist, toks[1..], out')
    requires more == TokensBits(t, lit, dist, toks[1..], out', tail)
    ensures ValidTokens(t, lit, dist, toks, out) && Expand(t, toks, out) == Expand(t, toks[1..], out')
    ensures TokensBits(t, lit, dist, toks, out, tail) == TokenBits(t, lit, dist, toks[0], |out|, more)
  {
  }

  lemma FirstBits(toks: seq<Token>, tail: seq<bool>)
    requires toks != [] && forall i :: 0 <= i < |toks| ==> HasWord(toks[i])
    ensures FixedBits(toks, tail) == FixedToken(toks[0], FixedBits(toks[1..], tail))
  {
  }

  lemma WordsExist(toks: seq<Token>, items: seq<Item>)
    requires AllWritten(toks, items)
    ensures forall i :: 0 <= i < |toks| ==> HasWord(toks[i])
  {
    forall i | 0 <= i < |toks|
      ensures HasWord(toks[i])
    {
      assert Writes(toks[i], items[i]);
    }
  }

  lemma {:induction false} TokensAsRuled(t: Tables, lit: seq<nat>, dist: seq<nat>, toks: seq<Token>, items: seq<Item>,
                                         out: seq<byte>, tail: seq<bool>)
    requires TablesRuled(t) && WordsRuled(lit, dist) && AllWritten(toks, items) && ValidItems(items, out)
    ensures forall i :: 0 <= i < |toks| ==> HasWord(toks[i])
    ensures ValidTokens(t, lit, dist, toks, out) && Expand(t, toks, out) == Plain(items, out)
    ensures HasCode(lit, 256) && TokensBits(t, lit, dist, toks, out, tail) == FixedBits(toks, tail)
    decreases items
  {
    WordsExist(toks, items);
    assert WordRuled(lit, 256);
    if items != [] {
      var out' := ItemMeaning(items[0], out);
      assert Writes(toks[0], items[0]);
      TokensAsRuled(t, lit, dist, toks[1..], items[1..], out', tail);
      TokenAsRuled(t, lit, dist, toks[0], items[0], out, FixedBits(toks[1..], tail));
      TokenThenMore(t, lit, dist, toks, out, out', tail, FixedBits(toks[1..], tail));
      FirstBits(toks, tail);
    }
  }

  /** One block, then whatever fills up the last byte. */
  lemma PackedBlock(u: Setup, lit: seq<nat>, dist: seq<nat>, toks: seq<Token>, limit: nat, none: seq<byte>,
                    noBits: seq<bool>, bits: seq<bool>)
    requires GoodCodes(u, lit, dist) && HasCode(lit, 256) && ValidTokens(u.tables, lit, dist, toks, none)
    requires none == [] && noBits == []
    requires bits == [true] + (ToBits(1, 2) + TokensBits(u.tables, lit, dist, toks, none, noBits))
    ensures Blocks(MessageBits(Pack(bits)), u, limit, none) ==
      var meaning := Expand(u.tables, toks, none);
      if |meaning| <= limit then Ok(meaning) else Err(LimitExceeded)
  {
    var blocks := [FixedBlock(toks)];
    assert blocks[1..] == [];
    OneBlock(u, lit, dist, toks, blocks, none, noBits);
    var tail := MessageBits(Pack(bits))[|bits|..];
    TailMoves(u, lit, dist, toks, blocks, none, noBits, tail);
    assert MessageBits(Pack(bits)) == bits + tail;
    StreamRoundTrip(u, lit, dist, limit, blocks, none, tail);
  }

  lemma FixedStreamIs(toks: seq<Token>, none: seq<bool>, body: seq<bool>)
    requires none == [] && (forall i :: 0 <= i < |toks| ==> HasWord(toks[i])) && body == FixedBits(toks, none)
    ensures FixedStream(toks) == [true] + (ToBits(1, 2) + body)
  {
    assert ToBits(1, 2) == [true, false];
  }

  lemma RuledBlock(u: Setup, lit: seq<nat>, dist: seq<nat>, items: seq<Item>, toks: seq<Token>, limit: nat,
                   out: seq<byte>, none: seq<bool>, bits: seq<bool>)
    requires GoodCodes(u, lit, dist) && TablesRuled(u.tables) && WordsRuled(lit, dist)
    requires out == [] && none == [] && ValidItems(items, out) && AllWritten(toks, items)
    requires forall i :: 0 <= i < |toks| ==> HasWord(toks[i])
    requires bits == [true] + (ToBits(1, 2) + FixedBits(toks, none))
    ensures Blocks(MessageBits(Pack(bits)), u, limit, out) ==
      if |Plain(items, out)| <= limit then Ok(Plain(items, out)) else Err(LimitExceeded)
  {
    TokensAsRuled(u.tables, lit, dist, toks, items, out, none);
    PackedBlock(u, lit, dist, toks, limit, out, none, bits);
  }

  lemma FixedDecodes(u: Setup, lit: seq<nat>, dist: seq<nat>, items: seq<Item>, toks: seq<Token>, limit: nat,
                     none: seq<byte>, noBits: seq<bool>)
    requires u == Format() && lit == CodeWordLengths() && dist == DistanceWordLengths() && none == [] && noBits == []
    requires ValidItems(items, none) && AllWritten(toks, items)
    ensures GoodSetup(u) && forall i :: 0 <= i < |toks| ==> HasWord(toks[i])
    ensures Blocks(MessageBits(Pack(FixedStream(toks))), u, limit, none) ==
      if |Plain(items, none)| <= limit then Ok(Plain(items, none)) else Err(LimitExceeded)
  {
    WordsExist(toks, items);
    FormatCodes();
    FormatTablesRuled(u.tables);
    FormatWords(lit, dist);
    FixedStreamIs(toks, noBits, FixedBits(toks, noBits));
    RuledBlock(u, lit, dist, items, toks, limit, none, noBits, FixedStream(toks));
  }

  /** Literals and matches, written as one fixed block with any codes that stand for them, come back
      as their LZ77 expansion. */
  lemma FixedBlockRoundTrip(items: seq<Item>, toks: seq<Token>, limit: nat)
    requires ValidItems(items, []) && AllWritten(toks, items)
    ensures forall i :: 0 <= i < |toks| ==> HasWord(toks[i])
    ensures InflateRaw(Pack(FixedStream(toks)), limit) ==
      if |Plain(items, [])| <= limit then Ok(Plain(items, [])) else Err(LimitExceeded)
  {
    FixedDecodes(Format(), CodeWordLengths(), DistanceWordLengths(), items, toks, limit, [], []);
    RawIsBlocks(Pack(FixedStream(toks)), Format(), limit, []);
  }
}
