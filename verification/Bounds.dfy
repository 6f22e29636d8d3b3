/** How much a DEFLATE stream can expand. */
module Bounds {
  import opened Bits
  import opened Results
  import opened Huffman
  import opened BitReader
  import opened Inflate

  /** Every length with all its extra bits set is at most 258. */
  ghost predicate LengthsAtMost258(t: Tables) {
    |t.lengthBase| == |t.lengthExtra| &&
    forall i {:trigger t.lengthBase[i]} :: 0 <= i < |t.lengthBase| ==> t.lengthBase[i] + Pow2(t.lengthExtra[i]) <= 259
  }

  lemma StandardLengths()
    ensures |LENGTH_BASE| == |LENGTH_EXTRA| == 29
    ensures forall i {:trigger LENGTH_BASE[i]} :: 0 <= i < 29 ==> LENGTH_BASE[i] + Pow2(LENGTH_EXTRA[i]) <= 259
  {
    assert Pow2(0) == 1 && Pow2(1) == 2 && Pow2(2) == 4 && Pow2(3) == 8 && Pow2(4) == 16 && Pow2(5) == 32;
  }

  lemma TakeBound(rest: seq<bool>, n: nat)
    ensures var r := Take(rest, n); r.Ok? ==> r.value.0 < Pow2(n)
  {
    if n <= |rest| { FromBitsBound(rest[..n]); }
  }

  lemma PairBound(rest: seq<bool>, idx: nat, t: Tables, dist: Huff)
    requires WellFormed(dist) && Usable(t) && LengthsAtMost258(t)
    ensures var r := TakePair(rest, idx, t, dist); r.Ok? ==> r.value.0.0 <= 258
  {
    if idx < |t.lengthBase| { TakeBound(rest, t.lengthExtra[idx]); }
  }

  lemma MatchBound(rest: seq<bool>, idx: nat, t: Tables, dist: Huff, out: seq<byte>)
    requires WellFormed(dist) && Usable(t) && LengthsAtMost258(t)
    ensures var r := TakeMatch(rest, idx, t, dist, out); r.Ok? ==> |r.value.0| <= |out| + 258 && |r.value.1| < |rest|
  {
    PairBound(rest, idx, t, dist);
  }

  /** A coded symbol takes a bit and yields a byte; a match takes two bits at least
      and yields 258 bytes at most. */
  lemma {:induction false} SymbolsBound(rest: seq<bool>, t: Tables, lit: Huff, dist: Huff, out: seq<byte>)
    requires WellFormed(lit) && WellFormed(dist) && Usable(t) && LengthsAtMost258(t)
    ensures match Symbols(rest, t, lit, dist, out)
      case Ok((out', rest')) => |out'| - |out| <= 129 * (|rest| - |rest'|)
      case Err(_) => true
    decreases |rest|
  {
    var s := TakeSymbol(lit, rest);
    if s.Ok? {
      var (sym, r1) := s.value;
      if sym < 256 {
        SymbolsBound(r1, t, lit, dist, out + [sym]);
      } else if sym > 256 {
        MatchBound(r1, sym - 257, t, dist, out);
        var p := TakeMatch(r1, sym - 257, t, dist, out);
        if p.Ok? { SymbolsBound(p.value.1, t, lit, dist, p.value.0); }
      }
    }
  }

  lemma BlockBound(rest: seq<bool>, u: Setup, kind: nat, out: seq<byte>)
    requires GoodSetup(u) && LengthsAtMost258(u.tables)
    ensures match Inflate.Block(rest, u, kind, out)
      case Ok((out', rest')) => |out'| - |out| <= 129 * (|rest| - |rest'|)
      case Err(_) => true
  {
    if kind == 1 {
      SymbolsBound(rest, u.tables, u.fixedLit, u.fixedDist, out);
    } else if kind == 2 {
      var d := DynamicTables(rest, u.order);
      if d.Ok? {
        var ((lit, dist), r1) := d.value;
        SymbolsBound(r1, u.tables, lit, dist, out);
      }
    }
  }

  lemma {:induction false} BlocksBound(rest: seq<bool>, u: Setup, limit: nat, out: seq<byte>)
    requires GoodSetup(u) && LengthsAtMost258(u.tables)
    ensures match Blocks(rest, u, limit, out)
      case Ok(final) => |final| - |out| <= 129 * |rest| && |final| <= limit
      case Err(_) => true
    decreases |rest|
  {
    var l := Take(rest, 1);
    if l.Ok? {
      var k := Take(l.value.1, 2);
      if k.Ok? {
        BlockBound(k.value.1, u, k.value.0, out);
        var b := Inflate.Block(k.value.1, u, k.value.0, out);
        if b.Ok? { BlocksBound(b.value.1, u, limit, b.value.0); }
      }
    }
  }

  /** On every input, a successful result is at most 1032 times as long as the source
      and never longer than the limit. */
  lemma ExpansionBound(src: seq<byte>, limit: nat)
    ensures match InflateRaw(src, limit)
      case Ok(out) => |out| <= 1032 * |src| && |out| <= limit
      case Err(_) => true
  {
    StandardIsGood();
    StandardLengths();
    BlocksBound(MessageBits(src), Standard(), limit, []);
  }
}
