/** The LSB-first bit reader of the inflater, and the bit sequence it stands for. */
module BitReader {
  import opened Bits
  import opened Results
  import opened Huffman

  datatype Error =
    | UnexpectedEnd
    | InvalidCode
    | StoredMismatch
    | StoredTruncated
    | ReservedBlock
    | TooManyCodes
    | RepeatBeforeFirst
    | LengthOverflow
    | BadCodeLengthSymbol
    | BadLengthSymbol
    | BadDistanceSymbol
    | DistanceTooFar
    | LimitExceeded

  /** A parsed value and the bits after it. */
  type Parsed<T> = Result<(T, seq<bool>), Error>

  /** An `n`-bit field, low bit first. */
  function Take(rest: seq<bool>, n: nat): (r: Parsed<nat>)
    ensures r.Ok? ==> |r.value.1| == |rest| - n
  {
    if |rest| < n then Err(UnexpectedEnd) else Ok((FromBits(rest[..n]), rest[n..]))
  }

  /** One Huffman-coded symbol. */
  function TakeSymbol(h: Huff, rest: seq<bool>): (r: Parsed<nat>)
    requires WellFormed(h)
    ensures r.Ok? ==> |r.value.1| < |rest|
  {
    match Decode(h, rest)
    case Symbol(s, rest') =>
      WalkShrinks(h, rest, 1, 0, 0, 0);
      Ok((s, rest'))
    case EndOfInput => Err(UnexpectedEnd)
    case NoSuchCode => Err(InvalidCode)
  }

  lemma {:induction false} WalkShrinks(h: Huff, rest: seq<bool>, len: nat, code: int, first: int, index: int)
    requires WellFormed(h) && 1 <= len <= 16
    requires 0 <= first <= code && index == Total(h.counts, len - 1)
    ensures var d := Walk(h, rest, len, code, first, index); d.Symbol? ==> |d.rest| < |rest|
    decreases 16 - len
  {
    if len <= 15 && rest != [] {
      var c := code + if rest[0] then 1 else 0;
      var count := h.counts[len];
      if c - first >= count {
        WalkShrinks(h, rest[1..], len + 1, 2 * c, 2 * (first + count), index + count);
      }
    }
  }

  /** The rest of the current byte dropped, then `n` whole bytes. */
  function TakeBytes(rest: seq<bool>, n: nat): (r: Parsed<seq<byte>>)
    ensures r.Ok? ==> |r.value.1| <= |rest| - 8 * n && |r.value.0| == n
  {
    var aligned := rest[|rest| % 8..];
    if 8 * n > |aligned| then Err(StoredTruncated)
    else Ok((BytesOf(aligned[..8 * n]), aligned[8 * n..]))
  }

  /** Of the bits `rest` to be read, the first `nbits` are in `bitbuf` and the others
      are the bytes of `src` from `pos` on. */
  ghost predicate Buffered(src: seq<byte>, pos: nat, bitbuf: nat, nbits: nat, rest: seq<bool>) {
    && pos <= |src| && nbits <= |rest|
    && bitbuf == FromBits(rest[..nbits])
    && rest[nbits..] == MessageBits(src[pos..])
  }

  /** `field` joined above the buffered bits. */
  lemma FieldJoins(rest: seq<bool>, nbits: nat, b: nat, field: seq<bool>, more: seq<bool>, w: nat)
    requires nbits <= |rest| && rest[nbits..] == field + more && |field| == w && FromBits(field) == b
    ensures nbits + w <= |rest| && FromBits(rest[..nbits + w]) == BitOr(FromBits(rest[..nbits]), Shl(b, nbits))
    ensures rest[nbits + w..] == more
  {
    JoinField(rest[..nbits], field);
    assert rest[..nbits + w] == rest[..nbits] + field;
    assert rest[nbits + w..] == rest[nbits..][w..];
  }

  /** The next byte joined above the buffered bits. */
  lemma Refill(src: seq<byte>, pos: nat, bitbuf: nat, nbits: nat, rest: seq<bool>)
    requires Buffered(src, pos, bitbuf, nbits, rest) && pos < |src|
    ensures Buffered(src, pos + 1, BitOr(bitbuf, Shl(src[pos], nbits)), nbits + 8, rest)
  {
    assert src[pos..][1..] == src[pos + 1..];
    ByteBits(src[pos]);
    FieldJoins(rest, nbits, src[pos], ToBits(src[pos], 8), MessageBits(src[pos + 1..]), 8);
  }

  lemma ByteBits(b: byte)
    ensures FromBits(ToBits(b, 8)) == b
  {
    assert Pow2(8) == 256;
    FromToBits(b, 8);
  }

  /** The low `n` buffered bits split off. */
  lemma Drain(src: seq<byte>, pos: nat, bitbuf: nat, nbits: nat, rest: seq<bool>, n: nat)
    requires Buffered(src, pos, bitbuf, nbits, rest) && n <= nbits
    ensures BitAnd(bitbuf, Shl(1, n) - 1) == FromBits(rest[..n])
    ensures Buffered(src, pos, Shr(bitbuf, n), nbits - n, rest[n..])
  {
    SplitField(rest[..nbits], n);
    assert rest[..nbits][..n] == rest[..n];
    assert rest[..nbits][n..] == rest[n..][..nbits - n];
    assert rest[n..][nbits - n..] == rest[nbits..];
  }

  lemma NothingLeft(src: seq<byte>, pos: nat, bitbuf: nat, nbits: nat, rest: seq<bool>)
    requires Buffered(src, pos, bitbuf, nbits, rest) && pos >= |src|
    ensures |rest| == nbits
  {
    assert src[pos..] == [];
  }

  /** Outside the buffer there are whole bytes. */
  lemma WholeBytes(src: seq<byte>, pos: nat, bitbuf: nat, nbits: nat, rest: seq<bool>)
    requires Buffered(src, pos, bitbuf, nbits, rest) && nbits < 8
    ensures |rest| == nbits + 8 * (|src| - pos) && |rest| % 8 == nbits == nbits % 8
  {
    assert |rest[nbits..]| == 8 * |src[pos..]|;
    PartOfByte(nbits, |src| - pos);
  }

  /** With nothing buffered the next `n` bytes are there to be copied. */
  lemma BytesAhead(src: seq<byte>, pos: nat, bitbuf: nat, rest: seq<bool>, n: nat)
    requires Buffered(src, pos, bitbuf, 0, rest) && pos + n <= |src|
    ensures |rest| == 8 * (|src| - pos) && BytesOf(rest[..8 * n]) == src[pos..pos + n]
    ensures Buffered(src, pos + n, 0, 0, rest[8 * n..])
  {
    var here, more := src[pos..pos + n], src[pos + n..];
    assert src[pos..] == here + more && rest[0..] == rest;
    RawBytes(here, more);
    assert rest == MessageBits(here + more);
    assert rest[8 * n..][..0] == [];
    assert rest[8 * n..][0..] == rest[8 * n..];
  }

  lemma BytesTaken(rest: seq<bool>, aligned: seq<bool>, n: nat)
    requires aligned == rest[|rest| % 8..]
    ensures TakeBytes(rest, n) ==
      if 8 * n > |aligned| then Err(StoredTruncated) else Ok((BytesOf(aligned[..8 * n]), aligned[8 * n..]))
  {
  }

  class Reader {
    const src: seq<byte>
    var pos: nat
    var bitbuf: nat
    var nbits: nat

    /** The bits not yet read. */
    ghost var rest: seq<bool>

    ghost predicate Valid()
      reads this
    {
      Buffered(src, pos, bitbuf, nbits, rest)
    }

    /** Between two reads, less than a byte is buffered. */
    ghost predicate Ready()
      reads this
    {
      Valid() && nbits < 8
    }

    /** `r` and the state now are what `spec` says. */
    ghost predicate Yields<T(!new)>(spec: Parsed<T>, r: Result<T, Error>)
      reads this
    {
      match spec
      case Ok((v, rest)) => r == Ok(v) && Ready() && this.rest == rest
      case Err(e) => r == Err(e)
    }

    constructor (src: seq<byte>)
      ensures Ready() && this.src == src && rest == MessageBits(src)
    {
      this.src := src;
      pos := 0;
      bitbuf := 0;
      nbits := 0;
      rest := MessageBits(src);
    }

    /** The refill loop of `bits`: until `n` bits are buffered. They fit a 32-bit word, before
        each turn as well as after the last. */
    method Buffer(n: nat) returns (ok: bool)
      requires Ready() && n <= 24
      modifies this
      ensures Valid() && rest == old(rest)
      ensures if ok then n <= nbits < n + 8 else |rest| < n
      ensures nbits < 32 && bitbuf < Pow2(nbits)
    {
      FromBitsBound(rest[..nbits]);
      while nbits < n
        invariant Valid() && rest == old(rest)
        invariant nbits < 32 && (nbits < 8 || nbits < n + 8) && bitbuf < Pow2(nbits)
        decreases |src| - pos
      {
        if pos >= |src| {
          NothingLeft(src, pos, bitbuf, nbits, rest);
          return false;
        }
        Refill(src, pos, bitbuf, nbits, rest);
        bitbuf := BitOr(bitbuf, Shl(src[pos], nbits));
        pos := pos + 1;
        nbits := nbits + 8;
        FromBitsBound(rest[..nbits]);
      }
      ok := true;
    }

    /** `bits`: at most 24 at a time, so that the 32-bit buffer never overflows (see `Buffer`). */
    method TakeField(n: nat) returns (r: Result<nat, Error>)
      requires Ready() && n <= 24
      modifies this
      ensures Yields(Take(old(rest), n), r)
    {
      var ok := Buffer(n);
      if !ok { return Err(UnexpectedEnd); }
      Drain(src, pos, bitbuf, nbits, rest, n);
      var v := BitAnd(bitbuf, Shl(1, n) - 1);
      r := Ok(v);
      bitbuf := Shr(bitbuf, n);
      nbits := nbits - n;
      rest := rest[n..];
    }

    method Align()
      requires Ready()
      modifies this
      ensures Ready() && nbits == 0 && rest == old(rest)[|old(rest)| % 8..]
    {
      var dropBits := nbits % 8;
      WholeBytes(src, pos, bitbuf, nbits, rest);
      Drain(src, pos, bitbuf, nbits, rest, dropBits);
      bitbuf := Shr(bitbuf, dropBits);
      nbits := nbits - dropBits;
      rest := rest[dropBits..];
    }

    /** `bytes`, once the partial byte is dropped. */
    method TakeAligned(n: nat) returns (r: Result<seq<byte>, Error>)
      requires Ready() && nbits == 0
      modifies this
      ensures if 8 * n > |old(rest)| then r == Err(StoredTruncated)
        else r == Ok(BytesOf(old(rest)[..8 * n])) && Ready() && rest == old(rest)[8 * n..]
    {
      WholeBytes(src, pos, bitbuf, nbits, rest);
      var byteOff := pos - nbits / 8;
      if byteOff + n > |src| {
        return Err(StoredTruncated);
      }
      BytesAhead(src, pos, bitbuf, rest, n);
      r := Ok(src[byteOff..byteOff + n]);
      pos := byteOff + n;
      bitbuf := 0;
      nbits := 0;
      rest := rest[8 * n..];
    }

    /** `bytes` */
    method TakeRaw(n: nat) returns (r: Result<seq<byte>, Error>)
      requires Ready()
      modifies this
      ensures Yields(TakeBytes(old(rest), n), r)
    {
      Align();
      BytesTaken(old(rest), rest, n);
      r := TakeAligned(n);
    }

    /** `decode` */
    method TakeCode(h: Huff) returns (r: Result<nat, Error>)
      requires Ready() && WellFormed(h)
      modifies this
      ensures Yields(TakeSymbol(h, old(rest)), r)
    {
      var code, first, index := 0, 0, 0;
      ghost var half := 0;
      for len := 1 to 16
        invariant Ready() && 0 <= first <= code && index == Total(h.counts, len - 1) && code == 2 * half
        invariant Walk(h, rest, len, code, first, index) == Decode(h, old(rest))
      {
        ghost var before := rest;
        var bit := TakeField(1);
        if bit.Err? { return Err(bit.error); }
        code := BitOr(code, bit.value);
        var count := h.counts[len];
        DecodeTurn(h, before, rest, len, half, first, index, bit.value, code, count);
        if code - first < count {
          return Ok(h.symbols[index + (code - first)]);
        }
        index := index + count;
        first := 2 * (first + count);
        half := code;
        code := 2 * code;
      }
      r := Err(InvalidCode);
    }
  }

  lemma PartOfByte(n: nat, bytes: nat)
    requires n < 8
    ensures (n + 8 * bytes) % 8 == n
  {
  }

  lemma RawBytes(data: seq<byte>, tail: seq<byte>)
    ensures var rest := MessageBits(data + tail);
      BytesOf(rest[..8 * |data|]) == data && rest[8 * |data|..] == MessageBits(tail)
  {
    MessageBitsConcat(data, tail);
    assert MessageBits(data + tail)[..8 * |data|] == MessageBits(data);
    BytesOfMessage(data);
  }

  /** One turn of the decoding loop: the bit just taken becomes the low bit of an
      even word, and the walk ends there or goes on. */
  lemma DecodeTurn(h: Huff, rest: seq<bool>, rest': seq<bool>, len: nat, half: nat, first: nat, index: nat,
                   bit: nat, code: nat, count: nat)
    requires WellFormed(h) && 1 <= len <= 15 && first <= 2 * half && index == Total(h.counts, len - 1)
    requires Take(rest, 1) == Ok((bit, rest')) && code == BitOr(2 * half, bit) && count == h.counts[len]
    ensures first <= code && index + count == Total(h.counts, len)
    ensures code - first < count ==>
      && index + (code - first) < |h.symbols|
      && Walk(h, rest, len, 2 * half, first, index) == Symbol(h.symbols[index + (code - first)], rest')
    ensures code - first >= count ==>
      Walk(h, rest, len, 2 * half, first, index)
        == Walk(h, rest', len + 1, 2 * code, 2 * (first + count), index + count)
  {
    OneBit(rest);
    OrBit(half, bit);
    WalkStep(h, rest, len, 2 * half, first, index, code, count);
  }

  lemma OneBit(rest: seq<bool>)
    requires rest != []
    ensures Take(rest, 1) == Ok((if rest[0] then 1 else 0, rest[1..]))
  {
    assert rest[..1][1..] == [] && rest[..1][0] == rest[0];
    assert FromBits(rest[..1]) == (if rest[0] then 1 else 0) + 2 * FromBits([]);
  }

  /** The next bit of the stream becomes the low bit of an even word. */
  lemma OrBit(half: nat, bit: nat)
    requires bit <= 1
    ensures BitOr(2 * half, bit) == 2 * half + bit
  {
    assert 2 * half / 2 == half;
    if half != 0 && bit != 0 { assert BitOr(half, 0) == half; }
  }
}
