/** The constants of RFC 1951 as its text gives them, without the decoder's tables. */
module Rfc1951 {
  import opened Bits
  import Huffman

  // ----- section 3.2.5 -------------------------------------------------------------------

  /** Extra bits of length code `257 + i`: none for the first eight, then four codes for each
      number of bits; 285 has none. */
  function LengthExtra(i: nat): nat
    requires i < 29
  {
    if i < 8 || i == 28 then 0 else (i - 4) / 4
  }

  /** The shortest length of length code `257 + i`. */
  function LengthBase(i: nat): nat
    requires i < 29
  {
    if i == 28 then 258 else if i < 8 then 3 + i else 3 + (4 + i % 4) * Pow2(LengthExtra(i))
  }

  /** Two distance codes for each number of extra bits, after four without. */
  function DistanceExtra(d: nat): nat
    requires d < 30
  {
    if d < 4 then 0 else d / 2 - 1
  }

  function DistanceBase(d: nat): nat
    requires d < 30
  {
    if d < 4 then 1 + d else 1 + (2 + d % 2) * Pow2(DistanceExtra(d))
  }

  /** Length code `257 + i` with extra value `x` means `len`. */
  predicate WritesLength(i: nat, x: nat, len: nat) {
    i < 29 && x < Pow2(LengthExtra(i)) && LengthBase(i) + x == len
  }

  predicate WritesDistance(d: nat, x: nat, back: nat) {
    d < 30 && x < Pow2(DistanceExtra(d)) && DistanceBase(d) + x == back
  }

  // ----- section 3.2.6 -------------------------------------------------------------------

  /** The fixed code of a literal or length symbol, as a number, and how many bits it has. */
  function FixedWord(s: nat): (nat, nat)
    requires s < 288
  {
    if s < 144 then (0x30 + s, 8)
    else if s < 256 then (0x190 + (s - 144), 9)
    else if s < 280 then (s - 256, 7)
    else (0xc0 + (s - 280), 8)
  }

  function FixedCode(s: nat): seq<bool>
    requires s < 288
  {
    Huffman.MsbBits(FixedWord(s).0, FixedWord(s).1)
  }

  /** The bits of a distance symbol's fixed code. */
  const DISTANCE_BITS: nat := 5

  function FixedDistanceCode(d: nat): seq<bool>
    requires d < 30
  {
    Huffman.MsbBits(d, DISTANCE_BITS)
  }

  // ----- section 3.2.7 -------------------------------------------------------------------

  /** The `k`-th code length sent: 16, 17, 18, 0, then 8 and its neighbours outwards. */
  function OrderAt(k: nat): nat
    requires k < 19
  {
    if k < 3 then 16 + k else if k == 3 then 0 else if k % 2 == 0 then 8 + (k - 4) / 2 else 7 - (k - 5) / 2
  }

  // ----- the tables these rules give -----------------------------------------------------------

  function LengthBases(): (t: seq<nat>)
    ensures |t| == 29 && forall i :: 0 <= i < 29 ==> t[i] == LengthBase(i)
  {
    seq(29, i requires 0 <= i < 29 => LengthBase(i))
  }

  function LengthExtras(): (t: seq<nat>)
    ensures |t| == 29 && forall i :: 0 <= i < 29 ==> t[i] == LengthExtra(i)
  {
    seq(29, i requires 0 <= i < 29 => LengthExtra(i))
  }

  function DistanceBases(): (t: seq<nat>)
    ensures |t| == 30 && forall d :: 0 <= d < 30 ==> t[d] == DistanceBase(d)
  {
    seq(30, d requires 0 <= d < 30 => DistanceBase(d))
  }

  function DistanceExtras(): (t: seq<nat>)
    ensures |t| == 30 && forall d :: 0 <= d < 30 ==> t[d] == DistanceExtra(d)
  {
    seq(30, d requires 0 <= d < 30 => DistanceExtra(d))
  }

  function Order(): (t: seq<nat>)
    ensures |t| == 19 && forall k :: 0 <= k < 19 ==> t[k] == OrderAt(k)
  {
    seq(19, k requires 0 <= k < 19 => OrderAt(k))
  }

  /** The lengths of the fixed code words. */
  function CodeWordLengths(): (t: seq<nat>)
    ensures |t| == 288 && forall s :: 0 <= s < 288 ==> t[s] == |FixedCode(s)|
  {
    seq(288, s requires 0 <= s < 288 => |FixedCode(s)|)
  }

  function DistanceWordLengths(): (t: seq<nat>)
    ensures |t| == 30 && forall d :: 0 <= d < 30 ==> t[d] == |FixedDistanceCode(d)|
  {
    seq(30, d requires 0 <= d < 30 => |FixedDistanceCode(d)|)
  }

  // ----- every length and distance has its code ---------------------------------------------

  lemma LengthStep(i: nat)
    requires i < 27
    ensures LengthBase(i + 1) == LengthBase(i) + Pow2(LengthExtra(i))
  {
    if i == 7 {
      assert Pow2(1) == 2;
    } else if i > 7 && i % 4 == 3 {
      assert LengthExtra(i + 1) == LengthExtra(i) + 1;
    }
  }

  lemma DistanceIs(d: nat, e: nat, p: nat)
    requires 4 <= d < 30 && e == d / 2 - 1 && p == Pow2(e)
    ensures DistanceExtra(d) == e && DistanceBase(d) == 1 + 2 * p + if d % 2 == 0 then 0 else p
  {
  }

  lemma DistanceNext(d: nat, n: nat, e: nat, p: nat)
    requires 4 <= d && n == d + 1 < 30 && e == d / 2 - 1 && p == Pow2(e)
    ensures DistanceExtra(d) == e && DistanceBase(n) == DistanceBase(d) + p
  {
    DistanceIs(d, e, p);
    if d % 2 == 0 { DistanceIs(n, e, p); } else { DistanceIs(n, e + 1, 2 * p); }
  }

  lemma DistanceStep(d: nat)
    requires d < 29
    ensures DistanceBase(d + 1) == DistanceBase(d) + Pow2(DistanceExtra(d))
  {
    if d == 3 {
      assert Pow2(1) == 2;
    } else if d > 3 {
      DistanceNext(d, d + 1, d / 2 - 1, Pow2(d / 2 - 1));
    }
  }

  lemma {:induction false} LengthsApart(i: nat, j: nat)
    requires i < j < 28
    ensures LengthBase(i) + Pow2(LengthExtra(i)) <= LengthBase(j)
  {
    LengthStep(j - 1);
    if i < j - 1 { LengthsApart(i, j - 1); }
  }

  lemma {:induction false} DistancesApart(d: nat, e: nat)
    requires d < e < 30
    ensures DistanceBase(d) + Pow2(DistanceExtra(d)) <= DistanceBase(e)
  {
    DistanceStep(e - 1);
    if d < e - 1 { DistancesApart(d, e - 1); }
  }

  /** The code of a length, searched from code `j` downwards. */
  lemma {:induction false} LengthCode(len: nat, j: nat) returns (i: nat, x: nat)
    requires j < 28 && 3 <= len < LengthBase(j) + Pow2(LengthExtra(j))
    ensures i < 28 && WritesLength(i, x, len)
  {
    if LengthBase(j) <= len {
      i, x := j, len - LengthBase(j);
    } else {
      LengthStep(j - 1);
      i, x := LengthCode(len, j - 1);
    }
  }

  lemma {:induction false} DistanceCode(back: nat, e: nat) returns (d: nat, x: nat)
    requires e < 30 && 1 <= back < DistanceBase(e) + Pow2(DistanceExtra(e))
    ensures WritesDistance(d, x, back)
  {
    if DistanceBase(e) <= back {
      d, x := e, back - DistanceBase(e);
    } else {
      DistanceStep(e - 1);
      d, x := DistanceCode(back, e - 1);
    }
  }

  /** Each length has a code... */
  lemma LengthWritten(len: nat) returns (i: nat, x: nat)
    requires 3 <= len <= 258
    ensures WritesLength(i, x, len)
  {
    LastLength();
    i, x := LengthCode(len, 27);
  }

  lemma LastLength()
    ensures LengthBase(27) == 227 && Pow2(LengthExtra(27)) == 32
  {
    assert Pow2(5) == 32;
  }

  lemma LastDistance(e: nat)
    requires e == 29
    ensures DistanceBase(e) == 24577 && Pow2(DistanceExtra(e)) == 8192
  {
    assert Pow2(13) == 8192;
  }

  lemma DistanceWritten(back: nat) returns (d: nat, x: nat)
    requires 1 <= back <= 32768
    ensures WritesDistance(d, x, back)
  {
    LastDistance(29);
    d, x := DistanceCode(back, 29);
  }

  lemma LengthRange(i: nat, x: nat, len: nat)
    requires WritesLength(i, x, len)
    ensures 3 <= len && if i < 27 then len < 227 else if i == 27 then len == 227 + x <= 258 else len == 258 && x == 0
  {
    LastLength();
    if i < 27 { LengthsApart(i, 27); }
    if 0 < i < 28 { LengthsApart(0, i); }
  }

  /** ...and only one, except that 258 can also be written as code 284 with all extra bits set. */
  lemma LengthUnique(len: nat, i: nat, x: nat, j: nat, y: nat)
    requires WritesLength(i, x, len) && WritesLength(j, y, len)
    ensures 3 <= len <= 258 && (len != 258 ==> i == j && x == y)
    ensures len == 258 ==> (i == 27 && x == 31) || (i == 28 && x == 0)
  {
    LengthRange(i, x, len);
    LengthRange(j, y, len);
    if i < j < 28 { LengthsApart(i, j); }
    if j < i < 28 { LengthsApart(j, i); }
  }

  lemma DistanceRange(d: nat, x: nat, back: nat)
    requires WritesDistance(d, x, back)
    ensures 1 <= back <= 32768
  {
    BelowLast(d, x, back, 29);
  }

  lemma BelowLast(d: nat, x: nat, back: nat, last: nat)
    requires WritesDistance(d, x, back) && last == 29
    ensures back <= 32768
  {
    LastDistance(last);
    if d < last { DistancesApart(d, last); }
  }

  /** Each distance has exactly one. */
  lemma DistanceUnique(back: nat, d: nat, x: nat, e: nat, y: nat)
    requires WritesDistance(d, x, back) && WritesDistance(e, y, back)
    ensures d == e && x == y && 1 <= back <= 32768
  {
    DistanceRange(d, x, back);
    if d < e { DistancesApart(d, e); }
    if e < d { DistancesApart(e, d); }
  }
}
