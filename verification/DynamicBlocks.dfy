/** Dynamic blocks exist for all codes: whatever two codes a writer wants, a header declares them, and
    any tokens written with them are decoded. */
module DynamicBlocks {
  import opened Bits
  import opened Results
  import opened Huffman
  import opened BitReader
  import opened Inflate
  import opened Deflate
  import opened Rfc1951
  import opened FormatTables
  import opened Streams

  // ----- a header for any two codes -----------------------------------------------------------------

  /** A code-length code with four bits for each of the lengths 0 to 15, and no repetitions. */
  function FourBits(): (cl: seq<nat>)
    ensures |cl| == 19 && (forall i :: 0 <= i < 16 ==> cl[i] == 4) && (forall i :: 16 <= i < 19 ==> cl[i] == 0)
  {
    seq(19, i => if i < 16 then 4 else 0)
  }

  /** The lengths one by one. */
  function Singly(lens: seq<nat>): (runs: seq<Run>)
    ensures |runs| == |lens| && forall i :: 0 <= i < |runs| ==> runs[i] == One(lens[i])
  {
    seq(|lens|, i requires 0 <= i < |lens| => One(lens[i]))
  }

  function HeaderFor(lit: seq<nat>, dist: seq<nat>): Header {
    Header(lit, dist, FourBits(), 19, Singly(lit + dist))
  }

  lemma FourBitsCount(cl: seq<nat>, l: nat)
    requires cl == FourBits() && l > 0
    ensures Count(cl, l) == if l == 4 then 16 else 0
  {
    BelowRange(cl, l, 0, 16, l == 4);
    BelowRange(cl, l, 16, 19, false);
  }

  lemma FourBitsKraft(cl: seq<nat>)
    requires cl == FourBits()
    ensures Kraft(cl)
  {
    forall l: nat | l > 0
      ensures Count(cl, l) == if l == 4 then 16 else 0
    {
      FourBitsCount(cl, l);
    }
    KraftHead(cl, 3);
    assert KraftSum(cl, 4) == 16;
    assert Pow2(4) == 16;
    KraftTail(cl, 4, 15);
  }

  lemma {:induction false} SinglySpells(lens: seq<nat>, acc: seq<nat>)
    ensures Spell(Singly(lens), acc) == acc + lens
    decreases lens
  {
    if lens == [] {
      assert acc + lens == acc;
    } else {
      assert Singly(lens)[1..] == Singly(lens[1..]);
      SinglySpells(lens[1..], acc + [lens[0]]);
      assert acc + [lens[0]] + lens[1..] == acc + lens;
    }
  }

  /** The codes two lists of lengths define may be declared. */
  ghost predicate Declarable(lit: seq<nat>, dist: seq<nat>) {
    && 257 <= |lit| <= 288 && 1 <= |dist| <= 30 && Lengths(lit) && Lengths(dist) && Kraft(lit) && Kraft(dist)
  }

  lemma SinglyValid(cl: seq<nat>, lens: seq<nat>, runs: seq<Run>)
    requires Lengths(lens) && cl == FourBits() && runs == Singly(lens)
    ensures ValidRuns(cl, runs)
  {
    forall i | 0 <= i < |runs|
      ensures ValidRun(cl, runs[i])
    {
      assert runs[i] == One(lens[i]);
    }
  }

  lemma CodeLengthCodeSent(d: Header, order: seq<nat>)
    requires GoodOrder(order) && d.cl == FourBits() && d.hclen == 19
    ensures SendsCodeLengthCode(d, order)
  {
  }

  lemma HeaderIsValid(d: Header, order: seq<nat>, lens: seq<nat>)
    requires Declarable(d.lit, d.dist) && GoodOrder(order) && lens == d.lit + d.dist
    requires d.cl == FourBits() && d.hclen == 19 && d.runs == Singly(lens)
    ensures ValidHeader(d, order)
  {
    FourBitsKraft(d.cl);
    SinglyValid(d.cl, lens, d.runs);
    CodeLengthCodeSent(d, order);
    SinglySpells(lens, []);
    assert [] + lens == lens;
  }

  /** Any two codes of the sizes the format allows have a valid header. */
  lemma AnyCodesDeclared(lit: seq<nat>, dist: seq<nat>, order: seq<nat>)
    requires Declarable(lit, dist) && GoodOrder(order)
    ensures ValidHeader(HeaderFor(lit, dist), order)
  {
    HeaderIsValid(HeaderFor(lit, dist), order, lit + dist);
  }

  // ----- one dynamic block --------------------------------------------------------------------------

  lemma AppendLater<T>(a: seq<T>, b: seq<T>, c: seq<T>)
    ensures (a + b) + c == a + (b + c)
  {
  }

  lemma RunTail(cl: seq<nat>, run: Run, a: seq<bool>, b: seq<bool>)
    requires ValidRun(cl, run)
    ensures RunBits(cl, run, a) + b == RunBits(cl, run, a + b)
  {
    if run.One? {
      AppendLater(CodeBits(cl, run.len), a, b);
    } else {
      var (sym, x, n) := Fields(run);
      AppendLater(CodeBits(cl, sym), ToBits(x, n) + a, b);
      AppendLater(ToBits(x, n), a, b);
    }
  }

  lemma {:induction false} RunsTail(cl: seq<nat>, runs: seq<Run>, a: seq<bool>, b: seq<bool>)
    requires ValidRuns(cl, runs)
    ensures RunsBits(cl, runs, a) + b == RunsBits(cl, runs, a + b)
    decreases runs
  {
    if runs != [] {
      RunsTail(cl, runs[1..], a, b);
      RunTail(cl, runs[0], RunsBits(cl, runs[1..], a), b);
    }
  }

  lemma {:induction false} OrderTail(cl: seq<nat>, order: seq<nat>, k: nat, n: nat, a: seq<bool>, b: seq<bool>)
    requires GoodOrder(order) && k <= n <= 19 && |cl| == 19
    ensures OrderBits(cl, order, k, n, a) + b == OrderBits(cl, order, k, n, a + b)
    decreases n - k
  {
    if k < n {
      OrderTail(cl, order, k + 1, n, a, b);
      AppendLater(ToBits(cl[order[k]], 3), OrderBits(cl, order, k + 1, n, a), b);
    }
  }

  lemma CountsTail(hlit: nat, hdist: nat, hclen: nat, a: seq<bool>, b: seq<bool>)
    requires hlit >= 257 && hdist >= 1 && hclen >= 4
    ensures CountsBits(hlit, hdist, hclen, a) + b == CountsBits(hlit, hdist, hclen, a + b)
  {
    var x, y, z := ToBits(hlit - 257, 5), ToBits(hdist - 1, 5), ToBits(hclen - 4, 4);
    AppendLater(x, y + (z + a), b);
    AppendLater(y, z + a, b);
    AppendLater(z, a, b);
  }

  lemma HeaderTail(d: Header, order: seq<nat>, a: seq<bool>, b: seq<bool>)
    requires GoodOrder(order) && Deflate.Shape(d)
    ensures HeaderBits(d, order, a) + b == HeaderBits(d, order, a + b)
  {
    RunsTail(d.cl, d.runs, a, b);
    OrderTail(d.cl, order, 0, d.hclen, RunsBits(d.cl, d.runs, a), b);
    CountsTail(|d.lit|, |d.dist|, d.hclen, OrderBits(d.cl, order, 0, d.hclen, RunsBits(d.cl, d.runs, a)), b);
  }

  ghost predicate OneDynamic(u: Setup, lit: seq<nat>, dist: seq<nat>, d: Header, toks: seq<Token>, blocks: seq<Block>) {
    && GoodSetup(u) && blocks == [DynamicBlock(d, toks)] && ValidHeader(d, u.order) && HasCode(d.lit, 256)
    && ValidTokens(u.tables, d.lit, d.dist, toks, []) && ValidStream(u, lit, dist, blocks, [])
  }

  lemma DynamicBits(u: Setup, lit: seq<nat>, dist: seq<nat>, d: Header, toks: seq<Token>, blocks: seq<Block>,
                    none: seq<byte>, tail: seq<bool>)
    requires OneDynamic(u, lit, dist, d, toks, blocks) && none == []
    ensures StreamBits(u, lit, dist, blocks, none, tail)
      == [true] + (ToBits(2, 2) + HeaderBits(d, u.order, TokensBits(u.tables, d.lit, d.dist, toks, none, tail)))
  {
    var rest := blocks[1..];
    assert rest == [];
    assert StreamBits(u, lit, dist, rest, Streams.BlockMeaning(u, blocks[0], none), tail) == tail;
  }

  lemma DynamicTail(u: Setup, lit: seq<nat>, dist: seq<nat>, d: Header, toks: seq<Token>, blocks: seq<Block>,
                    none: seq<byte>, a: seq<bool>, tail: seq<bool>)
    requires OneDynamic(u, lit, dist, d, toks, blocks) && none == [] && a == []
    ensures StreamBits(u, lit, dist, blocks, none, a) + tail == StreamBits(u, lit, dist, blocks, none, tail)
  {
    var body := TokensBits(u.tables, d.lit, d.dist, toks, none, a);
    TokensTail(u.tables, d.lit, d.dist, toks, none, a, tail);
    assert a + tail == tail;
    HeaderTail(d, u.order, body, tail);
    DynamicBits(u, lit, dist, d, toks, blocks, none, a);
    DynamicBits(u, lit, dist, d, toks, blocks, none, tail);
    AppendInside([true], ToBits(2, 2), HeaderBits(d, u.order, body), tail);
  }

  lemma DynamicMeans(u: Setup, lit: seq<nat>, dist: seq<nat>, d: Header, toks: seq<Token>, blocks: seq<Block>,
                     none: seq<byte>, tail: seq<bool>)
    requires OneDynamic(u, lit, dist, d, toks, blocks) && none == []
    ensures Aligned(u, lit, dist, blocks, none, tail)
    ensures StreamMeaning(u, blocks, none) == Expand(u.tables, toks, none)
  {
    var rest := blocks[1..];
    assert rest == [];
  }

  lemma Packed(bits: seq<bool>) returns (tail: seq<bool>)
    ensures MessageBits(Pack(bits)) == bits + tail
  {
    tail := MessageBits(Pack(bits))[|bits|..];
  }

  lemma PackedDynamic(u: Setup, lit: seq<nat>, dist: seq<nat>, d: Header, toks: seq<Token>, blocks: seq<Block>,
                      none: seq<byte>, bits: seq<bool>, limit: nat)
    requires GoodCodes(u, lit, dist) && OneDynamic(u, lit, dist, d, toks, blocks) && none == []
    requires bits == StreamBits(u, lit, dist, blocks, none, [])
    requires |Expand(u.tables, toks, none)| <= limit
    ensures Blocks(MessageBits(Pack(bits)), u, limit, none) == Ok(Expand(u.tables, toks, none))
  {
    var tail := Packed(bits);
    DynamicTail(u, lit, dist, d, toks, blocks, none, [], tail);
    DynamicMeans(u, lit, dist, d, toks, blocks, none, tail);
    StreamRoundTrip(u, lit, dist, limit, blocks, none, tail);
  }

  lemma DynamicIsStream(u: Setup, lit: seq<nat>, dist: seq<nat>, d: Header, toks: seq<Token>, blocks: seq<Block>)
    requires GoodSetup(u) && blocks == [DynamicBlock(d, toks)] && ValidHeader(d, u.order) && HasCode(d.lit, 256)
    requires ValidTokens(u.tables, d.lit, d.dist, toks, [])
    ensures OneDynamic(u, lit, dist, d, toks, blocks)
  {
    assert blocks[1..] == [];
  }

  /** Any tokens, written in one dynamic block with any codes that have an end-of-block code and codes
      for the tokens, decode to their expansion. */
  lemma DynamicBlockRoundTrip(lit: seq<nat>, dist: seq<nat>, toks: seq<Token>, limit: nat)
    requires Declarable(lit, dist) && HasCode(lit, 256)
    ensures GoodSetup(Format())
    ensures ValidTokens(Format().tables, lit, dist, toks, []) && |Expand(Format().tables, toks, [])| <= limit ==>
      var blocks := [DynamicBlock(HeaderFor(lit, dist), toks)];
      && ValidStream(Format(), CodeWordLengths(), DistanceWordLengths(), blocks, [])
      && var src := Pack(StreamBits(Format(), CodeWordLengths(), DistanceWordLengths(), blocks, [], []));
         InflateRaw(src, limit) == Ok(Expand(Format().tables, toks, []))
  {
    FormatCodes();
    if ValidTokens(Format().tables, lit, dist, toks, []) && |Expand(Format().tables, toks, [])| <= limit {
      var blocks := [DynamicBlock(HeaderFor(lit, dist), toks)];
      DynamicDecodes(Format(), CodeWordLengths(), DistanceWordLengths(), HeaderFor(lit, dist), toks, blocks, [], limit);
      var bits := StreamBits(Format(), CodeWordLengths(), DistanceWordLengths(), blocks, [], []);
      RawIsBlocks(Pack(bits), Format(), limit, []);
    }
  }

  lemma DynamicDecodes(u: Setup, lit: seq<nat>, dist: seq<nat>, d: Header, toks: seq<Token>, blocks: seq<Block>,
                       none: seq<byte>, limit: nat)
    requires GoodCodes(u, lit, dist) && Declarable(d.lit, d.dist) && HasCode(d.lit, 256)
    requires d == HeaderFor(d.lit, d.dist)
    requires blocks == [DynamicBlock(d, toks)] && none == [] && ValidTokens(u.tables, d.lit, d.dist, toks, none)
    requires |Expand(u.tables, toks, none)| <= limit
    ensures ValidStream(u, lit, dist, blocks, none)
    ensures Blocks(MessageBits(Pack(StreamBits(u, lit, dist, blocks, none, []))), u, limit, none)
      == Ok(Expand(u.tables, toks, none))
  {
    AnyCodesDeclared(d.lit, d.dist, u.order);
    DynamicIsStream(u, lit, dist, d, toks, blocks);
    PackedDynamic(u, lit, dist, d, toks, blocks, none, StreamBits(u, lit, dist, blocks, none, []), limit);
  }
}
