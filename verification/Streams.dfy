/** Whole DEFLATE streams: the decoder inverts the encoder on every list of blocks,
    and what it makes of stored blocks. */
module Streams {
  import opened Bits
  import opened Results
  import opened Huffman
  import opened BitReader
  import opened Inflate
  import opened Deflate
  import opened Rfc1951
  import opened FormatTables

  // ----- blocks ----------------------------------------------------------------------------

  /** A block as section 3.2.3 of RFC 1951 lays it out; `pad` fills a stored block's
      header up to the byte boundary. */
  datatype Block =
    | StoredBlock(pad: seq<bool>, data: seq<byte>)
    | FixedBlock(toks: seq<Token>)
    | DynamicBlock(header: Header, toks: seq<Token>)

  /** The codes and tables every stream shares. */
  ghost predicate GoodCodes(u: Setup, lit: seq<nat>, dist: seq<nat>) {
    && GoodSetup(u) && Covers(u.order)
    && Decodes(u.fixedLit, lit) && Decodes(u.fixedDist, dist)
  }

  ghost predicate ValidBlock(u: Setup, lit: seq<nat>, dist: seq<nat>, b: Block, out: seq<byte>)
    requires GoodSetup(u)
  {
    match b
    case StoredBlock(pad, data) => |pad| < 8 && |data| <= 0xffff
    case FixedBlock(toks) => HasCode(lit, 256) && ValidTokens(u.tables, lit, dist, toks, out)
    case DynamicBlock(d, toks) =>
      && ValidHeader(d, u.order) && HasCode(d.lit, 256) && ValidTokens(u.tables, d.lit, d.dist, toks, out)
  }

  function BlockMeaning(u: Setup, b: Block, out: seq<byte>): seq<byte>
    requires GoodSetup(u)
  {
    match b
    case StoredBlock(_, data) => out + data
    case FixedBlock(toks) => Expand(u.tables, toks, out)
    case DynamicBlock(_, toks) => Expand(u.tables, toks, out)
  }

  function Kind(b: Block): nat {
    match b
    case StoredBlock(_, _) => 0
    case FixedBlock(_) => 1
    case DynamicBlock(_, _) => 2
  }

  /** The bits after a block's three header bits, then `tail`. */
  ghost function BlockBits(u: Setup, lit: seq<nat>, dist: seq<nat>, b: Block, out: seq<byte>,
                           tail: seq<bool>): seq<bool>
    requires GoodSetup(u) && ValidBlock(u, lit, dist, b, out)
  {
    match b
    case StoredBlock(pad, data) => StoredBits(pad, data, tail)
    case FixedBlock(toks) => TokensBits(u.tables, lit, dist, toks, out, tail)
    case DynamicBlock(d, toks) => HeaderBits(d, u.order, TokensBits(u.tables, d.lit, d.dist, toks, out, tail))
  }

  /** Padding, LEN, its complement and the data, then `tail`. */
  function StoredBits(pad: seq<bool>, data: seq<byte>, tail: seq<bool>): seq<bool>
    requires |data| <= 0xffff
  {
    pad + (ToBits(|data|, 16) + (ToBits(0xffff - |data|, 16) + (MessageBits(data) + tail)))
  }

  // ----- stored blocks ---------------------------------------------------------------------

  lemma StoredStep(bits: seq<bool>, len: nat, nlen: nat, r1: seq<bool>, r2: seq<bool>, out: seq<byte>)
    requires Take(bits, 16) == Ok((len, r1)) && Take(r1, 16) == Ok((nlen, r2)) && len < 0x1_0000 && nlen < 0x1_0000
    ensures Stored(bits, out) ==
      if len + nlen != 0xffff then Err(StoredMismatch)
      else match TakeBytes(r2, len)
        case Ok((data, r3)) => Ok((out + data, r3))
        case Err(e) => Err(e)
  {
    Pow16();
    XorComplement(len, nlen, 16);
  }

  lemma LengthFields(len: nat, tail: seq<bool>)
    requires len <= 0xffff
    ensures Take(ToBits(len, 16) + (ToBits(0xffff - len, 16) + tail), 16) == Ok((len, ToBits(0xffff - len, 16) + tail))
    ensures Take(ToBits(0xffff - len, 16) + tail, 16) == Ok((0xffff - len, tail))
  {
    Pow16();
    TakeToBits(0xffff - len, 16, tail);
    TakeToBits(len, 16, ToBits(0xffff - len, 16) + tail);
  }

  lemma AlignedBytes(m: seq<bool>, n: nat, tail: seq<bool>)
    requires |m| == 8 * n && |tail| % 8 == 0
    ensures TakeBytes(m + tail, n) == Ok((BytesOf(m), tail))
  {
    var r := m + tail;
    MultipleOf8(n, |tail|);
    assert r[0..] == r;
    assert r[..8 * n] == m && r[8 * n..] == tail;
  }

  lemma WholeBytes(data: seq<byte>, tail: seq<bool>)
    requires |tail| % 8 == 0
    ensures TakeBytes(MessageBits(data) + tail, |data|) == Ok((data, tail))
  {
    AlignedBytes(MessageBits(data), |data|, tail);
    BytesOfMessage(data);
  }

  lemma MultipleOf8(a: nat, b: nat)
    requires b % 8 == 0
    ensures (8 * a + b) % 8 == 0
  {
  }

  /** A stored block whose header ends on a byte boundary is read as it was meant. */
  lemma AlignedStored(data: seq<byte>, tail: seq<bool>, out: seq<byte>)
    requires |data| <= 0xffff && |tail| % 8 == 0
    ensures Stored(StoredBits([], data, tail), out) == Ok((out + data, tail))
  {
    var r2 := MessageBits(data) + tail;
    var r1 := ToBits(0xffff - |data|, 16) + r2;
    assert StoredBits([], data, tail) == ToBits(|data|, 16) + r1;
    LengthFields(|data|, r2);
    WholeBytes(data, tail);
    StoredStep(ToBits(|data|, 16) + r1, |data|, 0xffff - |data|, r1, r2, out);
  }

  lemma {:induction false} ComplementBits(x: nat, n: nat, i: nat)
    requires x < Pow2(n) && i < n
    ensures ToBits(Pow2(n) - 1 - x, n)[i] == !ToBits(x, n)[i]
  {
    var y := Pow2(n) - 1 - x;
    assert y / 2 == Pow2(n - 1) - 1 - x / 2 && y % 2 == 1 - x % 2;
    if i > 0 { ComplementBits(x / 2, n - 1, i - 1); }
  }

  predicate LikeBelow(l: seq<bool>, i: nat, k: nat) {
    k <= i < |l| && l[i] == l[i - k]
  }

  /** Every bit is the one `k` places below it. */
  ghost predicate MovedUp(l: seq<bool>, k: nat) {
    forall i :: k <= i < |l| ==> LikeBelow(l, i, k)
  }

  lemma {:induction false} Periodic(l: seq<bool>, k: nat, j: nat, q: nat)
    requires j + q * k < |l| && k > 0 && MovedUp(l, k)
    ensures l[j + q * k] == l[j]
    decreases q
  {
    if q > 0 {
      assert j + q * k - k == j + (q - 1) * k;
      assert LikeBelow(l, j + q * k, k);
      Periodic(l, k, j, q - 1);
    }
  }

  /** A 16-bit field that equals itself moved up by 1 to 7 places agrees somewhere with
      the bits that were pushed out of it: an odd cycle cannot alternate. */
  lemma WrapAgrees(l: seq<bool>, k: nat) returns (j: nat)
    requires |l| == 16 && 1 <= k <= 7 && MovedUp(l, k)
    ensures j < k && l[16 - k + j] == l[j]
  {
    j := 0;
    if k == 1 {
      Periodic(l, 1, 0, 15);
    } else if k == 2 {
      Periodic(l, 2, 0, 7);
    } else if k == 3 {
      Periodic(l, 3, 1, 4);
      Periodic(l, 3, 2, 4);
      Periodic(l, 3, 0, 5);
      j := if l[1] == l[0] then 0 else if l[2] == l[1] then 1 else 2;
    } else if k == 4 {
      Periodic(l, 4, 0, 3);
    } else if k == 5 {
      Periodic(l, 5, 1, 2);
      Periodic(l, 5, 2, 2);
      Periodic(l, 5, 3, 2);
      Periodic(l, 5, 4, 2);
      Periodic(l, 5, 0, 3);
      j := if l[1] == l[0] then 0 else if l[2] == l[1] then 1 else if l[3] == l[2] then 2 else if l[4] == l[3] then 3
        else 4;
    } else if k == 6 {
      Periodic(l, 6, 4, 1);
      Periodic(l, 6, 2, 2);
      Periodic(l, 6, 0, 2);
      j := if l[4] == l[0] then 0 else if l[2] == l[4] then 4 else 2;
    } else {
      Periodic(l, 7, 2, 1);
      Periodic(l, 7, 4, 1);
      Periodic(l, 7, 6, 1);
      Periodic(l, 7, 1, 2);
      Periodic(l, 7, 3, 1);
      Periodic(l, 7, 5, 1);
      Periodic(l, 7, 0, 2);
      j := if l[2] == l[0] then 0 else if l[4] == l[2] then 2 else if l[6] == l[4] then 4 else if l[1] == l[6] then 6
           else if l[3] == l[1] then 1 else if l[5] == l[3] then 3 else 5;
    }
  }

  /** Bit by bit: the fields read behind the padding cannot be the fields written. */
  lemma FieldsMoved(pad: seq<bool>, l: seq<bool>, n: seq<bool>, tail: seq<bool>, bits: seq<bool>, b: seq<bool>,
                    c: seq<bool>)
    requires 1 <= |pad| <= 7 && |l| == 16 && |n| == 16 && forall i :: 0 <= i < 16 ==> n[i] == !l[i]
    requires bits == pad + (l + (n + tail)) && b == bits[..16] && c == bits[16..][..16]
    ensures b == l ==> c != n
  {
    var k := |pad|;
    if b == l {
      forall i | k <= i < 16
        ensures LikeBelow(l, i, k)
      {
        assert b[i] == bits[i] == l[i - k];
      }
      var j := WrapAgrees(l, k);
      assert c[j] == bits[16 + j] == l[16 - k + j] != n[j];
    }
  }

  lemma FieldIs(b: seq<bool>, n: nat, k: nat)
    requires |b| == k && FromBits(b) == n
    ensures b == ToBits(n, k)
  {
    ToFromBits(b);
  }

  /** Complementary 16-bit fields. The width is a parameter so that it is no literal. */
  lemma Complements(len: nat, k: nat, top: nat, l: seq<bool>, n: seq<bool>)
    requires k == 16 && top == 0xffff && len <= top && l == ToBits(len, k) && n == ToBits(top - len, k)
    ensures forall i :: 0 <= i < k ==> n[i] == !l[i]
  {
    Pow16();
    forall i | 0 <= i < k
      ensures n[i] == !l[i]
    {
      ComplementBits(len, k, i);
    }
  }

  /** Behind 1 to 7 padding bits the length fields cannot both be read right. */
  lemma MisreadFields(pad: seq<bool>, len: nat, nlen: nat, tail: seq<bool>, bits: seq<bool>, b: seq<bool>, c: seq<bool>)
    requires 1 <= |pad| <= 7 && len + nlen == 0xffff && bits == pad + (ToBits(len, 16) + (ToBits(nlen, 16) + tail))
    requires b == bits[..16] && c == bits[16..][..16]
    ensures FromBits(b) == len ==> FromBits(c) != nlen
  {
    var l, n := ToBits(len, 16), ToBits(nlen, 16);
    Complements(len, 16, 0xffff, l, n);
    FieldsMoved(pad, l, n, tail, bits, b, c);
    if FromBits(b) == len {
      FieldIs(b, len, 16);
      if FromBits(c) == nlen { FieldIs(c, nlen, 16); }
    }
  }

  lemma FieldsRead(bits: seq<bool>, out: seq<byte>)
    requires |bits| >= 32
    ensures Stored(bits, out).Ok? ==>
      && FromBits(bits[..16]) + FromBits(bits[16..][..16]) == 0xffff
      && |Stored(bits, out).value.0| == |out| + FromBits(bits[..16])
  {
    FromBitsBound(bits[..16]);
    FromBitsBound(bits[16..][..16]);
    Pow16();
    StoredStep(bits, FromBits(bits[..16]), FromBits(bits[16..][..16]), bits[16..], bits[16..][16..], out);
  }

  /** Behind padding something else is read, and never as much as was written. */
  lemma PaddedNeverReads(pad: seq<bool>, data: seq<byte>, tail: seq<bool>, out: seq<byte>, bits: seq<bool>)
    requires 1 <= |pad| < 8 && |data| <= 0xffff && bits == StoredBits(pad, data, tail)
    ensures Stored(bits, out).Ok? ==> |Stored(bits, out).value.0| != |out + data|
  {
    MisreadFields(pad, |data|, 0xffff - |data|, MessageBits(data) + tail, bits, bits[..16], bits[16..][..16]);
    FieldsRead(bits, out);
  }

  /** The code reads a stored block as it was meant if and only if no padding precedes
      the length fields, that is, its header happens to end on a byte boundary. */
  lemma StoredIff(pad: seq<bool>, data: seq<byte>, tail: seq<bool>, out: seq<byte>)
    requires |pad| < 8 && |data| <= 0xffff && |tail| % 8 == 0
    ensures Stored(StoredBits(pad, data, tail), out) == Ok((out + data, tail)) <==> pad == []
  {
    if pad == [] {
      AlignedStored(data, tail, out);
    } else {
      PaddedNeverReads(pad, data, tail, out, StoredBits(pad, data, tail));
    }
  }

  lemma HeaderOf(rest: seq<bool>, last: bool, kind: nat, r: seq<bool>)
    requires kind < 4 && rest == [last] + (ToBits(kind, 2) + r)
    ensures Take(rest, 1) == Ok((if last then 1 else 0, ToBits(kind, 2) + r))
    ensures Take(ToBits(kind, 2) + r, 2) == Ok((kind, r))
  {
    assert Pow2(2) == 4;
    OneBit(rest);
    assert rest[1..] == ToBits(kind, 2) + r;
    TakeToBits(kind, 2, r);
  }

  /** A stream of one stored block yields what the block yields. */
  lemma OneStored(u: Setup, rest: seq<bool>, bits: seq<bool>, limit: nat, out: seq<byte>)
    requires GoodSetup(u) && rest == [true] + (ToBits(0, 2) + bits)
    ensures var r := Blocks(rest, u, limit, out);
      r.Ok? ==> Stored(bits, out).Ok? && r.value == Stored(bits, out).value.0
  {
    HeaderOf(rest, true, 0, bits);
    assert Inflate.Block(bits, u, 0, out) == Stored(bits, out);
  }

  lemma PaddedStream(u: Setup, rest: seq<bool>, bits: seq<bool>, pad: seq<bool>, data: seq<byte>, limit: nat,
                     out: seq<byte>)
    requires GoodSetup(u) && 1 <= |pad| < 8 && |data| <= 0xffff && out == []
    requires bits == StoredBits(pad, data, []) && rest == [true] + (ToBits(0, 2) + bits)
    ensures Blocks(rest, u, limit, out) != Ok(data)
  {
    PaddedNeverReads(pad, data, [], out, bits);
    OneStored(u, rest, bits, limit, out);
    assert |out + data| == |data|;
  }

  /** Such a stream, written as the format demands: its header takes three bits, so five
      bits of padding follow. The code never reads back the data. */
  lemma StoredStreamFails(src: seq<byte>, pad: seq<bool>, data: seq<byte>, limit: nat)
    requires |data| <= 0xffff && |pad| == 5
    requires MessageBits(src) == [true] + (ToBits(0, 2) + StoredBits(pad, data, []))
    ensures InflateRaw(src, limit) != Ok(data)
  {
    StandardIsGood();
    PaddedStream(Standard(), MessageBits(src), StoredBits(pad, data, []), pad, data, limit, []);
  }

  // ----- streams -------------------------------------------------------------------------------

  ghost predicate ValidStream(u: Setup, lit: seq<nat>, dist: seq<nat>, blocks: seq<Block>, out: seq<byte>)
    requires GoodSetup(u)
    decreases blocks
  {
    blocks != [] ==>
      && ValidBlock(u, lit, dist, blocks[0], out)
      && ValidStream(u, lit, dist, blocks[1..], BlockMeaning(u, blocks[0], out))
  }

  function StreamMeaning(u: Setup, blocks: seq<Block>, out: seq<byte>): seq<byte>
    requires GoodSetup(u)
    decreases blocks
  {
    if blocks == [] then out else StreamMeaning(u, blocks[1..], BlockMeaning(u, blocks[0], out))
  }

  /** The blocks, the last one marked final, then `tail`. */
  ghost function StreamBits(u: Setup, lit: seq<nat>, dist: seq<nat>, blocks: seq<Block>, out: seq<byte>,
                            tail: seq<bool>): seq<bool>
    requires GoodSetup(u) && ValidStream(u, lit, dist, blocks, out)
    decreases blocks
  {
    if blocks == [] then tail
    else
      var b := blocks[0];
      [|blocks| == 1] + (ToBits(Kind(b), 2)
        + BlockBits(u, lit, dist, b, out, StreamBits(u, lit, dist, blocks[1..], BlockMeaning(u, b, out), tail)))
  }

  /** Stored blocks end on a byte boundary, as the format demands, and their headers do
      too, as the code needs. */
  ghost predicate Aligned(u: Setup, lit: seq<nat>, dist: seq<nat>, blocks: seq<Block>, out: seq<byte>, tail: seq<bool>)
    requires GoodSetup(u) && ValidStream(u, lit, dist, blocks, out)
    decreases blocks
  {
    blocks != [] ==>
      var (b, out') := (blocks[0], BlockMeaning(u, blocks[0], out));
      && (b.StoredBlock? ==> b.pad == [] && |StreamBits(u, lit, dist, blocks[1..], out', tail)| % 8 == 0)
      && Aligned(u, lit, dist, blocks[1..], out', tail)
  }

  lemma DynamicRoundTrip(u: Setup, lit: seq<nat>, dist: seq<nat>, d: Header, toks: seq<Token>, out: seq<byte>,
                         bits: seq<bool>, tail: seq<bool>)
    requires GoodCodes(u, lit, dist) && ValidBlock(u, lit, dist, DynamicBlock(d, toks), out)
    requires bits == BlockBits(u, lit, dist, DynamicBlock(d, toks), out, tail)
    ensures Inflate.Block(bits, u, 2, out) == Ok((Expand(u.tables, toks, out), tail))
  {
    HeaderRoundTrip(d, u.order, bits, TokensBits(u.tables, d.lit, d.dist, toks, out, tail));
    TableDecodes(d.lit);
    TableDecodes(d.dist);
    TokensRoundTrip(u.tables, Table(d.lit), d.lit, Table(d.dist), d.dist, toks, out, tail);
  }

  lemma BlockRoundTrip(u: Setup, lit: seq<nat>, dist: seq<nat>, b: Block, out: seq<byte>, tail: seq<bool>)
    requires GoodCodes(u, lit, dist) && ValidBlock(u, lit, dist, b, out)
    requires b.StoredBlock? ==> b.pad == [] && |tail| % 8 == 0
    ensures Inflate.Block(BlockBits(u, lit, dist, b, out, tail), u, Kind(b), out) == Ok((BlockMeaning(u, b, out), tail))
  {
    match b
    case StoredBlock(pad, data) =>
      AlignedStored(data, tail, out);
    case FixedBlock(toks) =>
      TokensRoundTrip(u.tables, u.fixedLit, lit, u.fixedDist, dist, toks, out, tail);
    case DynamicBlock(d, toks) =>
      DynamicRoundTrip(u, lit, dist, d, toks, out, BlockBits(u, lit, dist, b, out, tail), tail);
  }

  lemma {:induction false} ExpandGrows(t: Tables, toks: seq<Token>, out: seq<byte>)
    requires Usable(t)
    ensures |out| <= |Expand(t, toks, out)|
    decreases toks
  {
    if toks != [] { ExpandGrows(t, toks[1..], Meaning(t, toks[0], out)); }
  }

  lemma BlockGrows(u: Setup, b: Block, out: seq<byte>)
    requires GoodSetup(u)
    ensures |out| <= |BlockMeaning(u, b, out)|
  {
    if !b.StoredBlock? { ExpandGrows(u.tables, b.toks, out); }
  }

  lemma {:induction false} StreamGrows(u: Setup, blocks: seq<Block>, out: seq<byte>)
    requires GoodSetup(u)
    ensures |out| <= |StreamMeaning(u, blocks, out)|
    decreases blocks
  {
    if blocks != [] {
      BlockGrows(u, blocks[0], out);
      StreamGrows(u, blocks[1..], BlockMeaning(u, blocks[0], out));
    }
  }

  lemma BlocksStep(u: Setup, limit: nat, bits: seq<bool>, last: bool, kind: nat, r2: seq<bool>, out: seq<byte>,
                   out': seq<byte>, r3: seq<bool>)
    requires GoodSetup(u) && kind < 4 && bits == [last] + (ToBits(kind, 2) + r2)
    requires Inflate.Block(r2, u, kind, out) == Ok((out', r3))
    ensures Blocks(bits, u, limit, out) ==
      if |out'| > limit then Err(LimitExceeded) else if last then Ok(out') else Blocks(r3, u, limit, out')
  {
    HeaderOf(bits, last, kind, r2);
  }

  /** Decoding the bits of a list of blocks gives exactly what the blocks mean, unless
      that is longer than the limit. */
  lemma {:induction false} StreamRoundTrip(u: Setup, lit: seq<nat>, dist: seq<nat>, limit: nat,
                                           blocks: seq<Block>, out: seq<byte>, tail: seq<bool>)
    requires GoodCodes(u, lit, dist) && blocks != [] && ValidStream(u, lit, dist, blocks, out)
    requires Aligned(u, lit, dist, blocks, out, tail)
    ensures Blocks(StreamBits(u, lit, dist, blocks, out, tail), u, limit, out) ==
      var meaning := StreamMeaning(u, blocks, out);
      if |meaning| <= limit then Ok(meaning) else Err(LimitExceeded)
    decreases blocks
  {
    var b := blocks[0];
    var out' := BlockMeaning(u, b, out);
    var more := StreamBits(u, lit, dist, blocks[1..], out', tail);
    BlockRoundTrip(u, lit, dist, b, out, more);
    BlocksStep(u, limit, StreamBits(u, lit, dist, blocks, out, tail), |blocks| == 1, Kind(b),
               BlockBits(u, lit, dist, b, out, more), out, out', more);
    StreamGrows(u, blocks[1..], out');
    if |blocks| > 1 {
      StreamRoundTrip(u, lit, dist, limit, blocks[1..], out', tail);
    } else {
      assert blocks[1..] == [];
    }
  }

  lemma OrderCovers()
    ensures Covers(ORDER)
  {
    assert ORDER[3] == 0 && ORDER[17] == 1 && ORDER[15] == 2 && ORDER[13] == 3 && ORDER[11] == 4 && ORDER[9] == 5;
    assert ORDER[7] == 6 && ORDER[5] == 7 && ORDER[4] == 8 && ORDER[6] == 9 && ORDER[8] == 10 && ORDER[10] == 11;
    assert ORDER[12] == 12 && ORDER[14] == 13 && ORDER[16] == 14 && ORDER[18] == 15 && ORDER[0] == 16 && ORDER[1] == 17;
    assert ORDER[2] == 18;
  }

  lemma FixedCodesDecoded()
    ensures GoodCodes(Standard(), FixedLitLengths(), FixedDistLengths())
  {
    StandardIsGood();
    OrderCovers();
    FixedCodesKraft();
    TableDecodes(FixedLitLengths());
    TableDecodes(FixedDistLengths());
  }

  /** A stream may use the format's own constants: the decoder has the same. */
  lemma FormatCodes()
    ensures GoodCodes(Format(), CodeWordLengths(), DistanceWordLengths())
  {
    FormatIsStandard();
    FixedCodesDecoded();
  }

  /** Bytes that hold the given bits, the last byte filled up with zeros. */
  function Pack(bits: seq<bool>): (src: seq<byte>)
    ensures bits <= MessageBits(src)
  {
    var padding := seq((8 - |bits| % 8) % 8, _ => false);
    MessageOfBytes(bits + padding);
    BytesOf(bits + padding)
  }

  lemma RawIsBlocks(src: seq<byte>, u: Setup, limit: nat, none: seq<byte>)
    requires u == Format() && GoodSetup(u) && none == []
    ensures InflateRaw(src, limit) == Blocks(MessageBits(src), u, limit, none)
  {
    FormatIsStandard();
  }

  /** The bits of `src` are the encoding of `blocks`, and then `tail`. */
  ghost predicate EncodedBy(src: seq<byte>, blocks: seq<Block>, tail: seq<bool>)
    requires GoodSetup(Format())
  {
    var (u, lit, dist) := (Format(), CodeWordLengths(), DistanceWordLengths());
    && ValidStream(u, lit, dist, blocks, []) && Aligned(u, lit, dist, blocks, [], tail)
    && MessageBits(src) == StreamBits(u, lit, dist, blocks, [], tail)
  }

  /** The main round trip: any source whose bits start with the encoding of a list of
      blocks decodes to what the blocks mean. */
  lemma InflateInvertsDeflate(src: seq<byte>, blocks: seq<Block>, tail: seq<bool>, limit: nat)
    ensures GoodSetup(Format())
    ensures blocks != [] && EncodedBy(src, blocks, tail) ==>
      var meaning := StreamMeaning(Format(), blocks, []);
      InflateRaw(src, limit) == if |meaning| <= limit then Ok(meaning) else Err(LimitExceeded)
  {
    FormatCodes();
    RawIsBlocks(src, Format(), limit, []);
    if blocks != [] && EncodedBy(src, blocks, tail) {
      StreamRoundTrip(Format(), CodeWordLengths(), DistanceWordLengths(), limit, blocks, [], tail);
    }
  }

  // ----- one block and what follows it ------------------------------------------------------------

  lemma AppendInside<T>(a: seq<T>, b: seq<T>, c: seq<T>, d: seq<T>)
    ensures (a + (b + c)) + d == a + (b + (c + d))
  {
  }

  /** A one-block stream with nothing after it, and with `tail` after it. */
  lemma TailMoves(u: Setup, lit: seq<nat>, dist: seq<nat>, toks: seq<Token>, blocks: seq<Block>, out: seq<byte>,
                  none: seq<bool>, tail: seq<bool>)
    requires GoodSetup(u) && HasCode(lit, 256) && ValidTokens(u.tables, lit, dist, toks, out)
    requires blocks == [FixedBlock(toks)] && none == [] && ValidStream(u, lit, dist, blocks, out)
    ensures StreamBits(u, lit, dist, blocks, out, none) + tail == StreamBits(u, lit, dist, blocks, out, tail)
  {
    TokensTail(u.tables, lit, dist, toks, out, none, tail);
    assert none + tail == tail;
    OneBlock(u, lit, dist, toks, blocks, out, none);
    OneBlock(u, lit, dist, toks, blocks, out, tail);
    AppendInside([true], ToBits(Kind(blocks[0]), 2), TokensBits(u.tables, lit, dist, toks, out, none), tail);
  }

  lemma OneBlock(u: Setup, lit: seq<nat>, dist: seq<nat>, toks: seq<Token>, blocks: seq<Block>, out: seq<byte>,
                 tail: seq<bool>)
    requires GoodSetup(u) && HasCode(lit, 256) && ValidTokens(u.tables, lit, dist, toks, out)
    requires blocks == [FixedBlock(toks)] && ValidStream(u, lit, dist, blocks, out)
    ensures StreamBits(u, lit, dist, blocks, out, tail)
      == [true] + (ToBits(Kind(blocks[0]), 2) + TokensBits(u.tables, lit, dist, toks, out, tail))
  {
    assert blocks[1..] == [];
  }

  lemma {:induction false} TokensTail(t: Tables, lit: seq<nat>, dist: seq<nat>, toks: seq<Token>, out: seq<byte>,
                                      a: seq<bool>, b: seq<bool>)
    requires Usable(t) && HasCode(lit, 256) && ValidTokens(t, lit, dist, toks, out)
    ensures TokensBits(t, lit, dist, toks, out, a) + b == TokensBits(t, lit, dist, toks, out, a + b)
    decreases toks
  {
    if toks != [] {
      var out' := Meaning(t, toks[0], out);
      TokensTail(t, lit, dist, toks[1..], out', a, b);
      TokenTail(t, lit, dist, toks[0], |out|, TokensBits(t, lit, dist, toks[1..], out', a), b);
    }
  }

  lemma TokenTail(t: Tables, lit: seq<nat>, dist: seq<nat>, tok: Token, n: nat, a: seq<bool>, b: seq<bool>)
    requires Usable(t) && ValidToken(t, lit, dist, tok, n)
    ensures TokenBits(t, lit, dist, tok, n, a) + b == TokenBits(t, lit, dist, tok, n, a + b)
  {
  }
}
