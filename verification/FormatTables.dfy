/** The decoder's tables are those of RFC 1951, and its fixed codes are the ones written there. */
module FormatTables {
  import opened Bits
  import opened Huffman
  import opened Inflate
  import opened Rfc1951

  // ----- section 3.2.5 and 3.2.7 ------------------------------------------------------------

  lemma SmallPowers()
    ensures Pow2(0) == 1 && Pow2(1) == 2 && Pow2(2) == 4 && Pow2(3) == 8 && Pow2(4) == 16 && Pow2(5) == 32
    ensures Pow2(6) == 64 && Pow2(7) == 128 && Pow2(8) == 256 && Pow2(9) == 512 && Pow2(10) == 1024
    ensures Pow2(11) == 2048 && Pow2(12) == 4096 && Pow2(13) == 8192
  {
  }

  /** Bases and extra bits of the lengths... */
  lemma LengthTable(i: nat)
    requires i < 29
    ensures |LENGTH_BASE| == |LENGTH_EXTRA| == 29
    ensures LENGTH_EXTRA[i] == LengthExtra(i) && LENGTH_BASE[i] == LengthBase(i)
  {
    SmallPowers();
  }

  /** ...and of the distances. */
  lemma DistanceTable(d: nat)
    requires d < 30
    ensures |DIST_BASE| == |DIST_EXTRA| == 30
    ensures DIST_EXTRA[d] == DistanceExtra(d) && DIST_BASE[d] == DistanceBase(d)
  {
    SmallPowers();
  }

  /** The order of the code-length lengths. */
  lemma OrderTable(k: nat)
    requires k < 19
    ensures |ORDER| == 19 && ORDER[k] == OrderAt(k)
  {
  }

  // ----- section 3.2.6 ----------------------------------------------------------------------

  /** Between `lo` and `hi` every symbol has length `l`, or none has. */
  lemma {:induction false} BelowRange(lengths: seq<nat>, l: nat, lo: nat, hi: nat, all: bool)
    requires lo <= hi <= |lengths|
    requires forall i :: lo <= i < hi ==> (lengths[i] == l) == all
    ensures |Below(lengths, l, hi)| == |Below(lengths, l, lo)| + if all then hi - lo else 0
    decreases hi
  {
    if lo < hi { BelowRange(lengths, l, lo, hi - 1, all); }
  }

  /** Once no longer codes follow, the Kraft sum only doubles. */
  lemma {:induction false} KraftTail(lengths: seq<nat>, l: nat, m: nat)
    requires l <= m && KraftSum(lengths, l) <= Pow2(l)
    requires forall k :: l < k <= m ==> Count(lengths, k) == 0
    ensures KraftSum(lengths, m) <= Pow2(m)
    decreases m
  {
    if l < m { KraftTail(lengths, l, m - 1); }
  }

  lemma {:induction false} KraftHead(lengths: seq<nat>, l: nat)
    requires forall k :: 0 < k <= l ==> Count(lengths, k) == 0
    ensures KraftSum(lengths, l) == 0
  {
    if l > 0 { KraftHead(lengths, l - 1); }
  }

  lemma FixedLitCount(f: seq<nat>, l: nat)
    requires |f| == 288 && (forall i :: 0 <= i < 144 ==> f[i] == 8) && (forall i :: 144 <= i < 256 ==> f[i] == 9)
    requires (forall i :: 256 <= i < 280 ==> f[i] == 7) && (forall i :: 280 <= i < 288 ==> f[i] == 8)
    ensures Count(f, l) == if l == 7 then 24 else if l == 8 then 152 else if l == 9 then 112 else 0
  {
    BelowRange(f, l, 0, 144, l == 8);
    BelowRange(f, l, 144, 256, l == 9);
    BelowRange(f, l, 256, 280, l == 7);
    BelowRange(f, l, 280, 288, l == 8);
  }

  lemma LitKraft(f: seq<nat>)
    requires forall l :: Count(f, l) == if l == 7 then 24 else if l == 8 then 152 else if l == 9 then 112 else 0
    ensures Kraft(f)
  {
    KraftHead(f, 6);
    assert KraftSum(f, 7) == 24;
    assert KraftSum(f, 8) == 200;
    assert KraftSum(f, 9) == 512;
    assert Pow2(9) == 512;
    KraftTail(f, 9, 15);
  }

  lemma DistKraft(d: seq<nat>)
    requires forall l :: Count(d, l) == if l == 5 then 30 else 0
    ensures Kraft(d)
  {
    KraftHead(d, 4);
    assert KraftSum(d, 5) == 30;
    assert Pow2(5) == 32;
    KraftTail(d, 5, 15);
  }

  lemma FixedCodesKraft()
    ensures Kraft(FixedLitLengths()) && Kraft(FixedDistLengths())
  {
    forall l
      ensures Count(FixedLitLengths(), l) == if l == 7 then 24 else if l == 8 then 152 else if l == 9 then 112 else 0
    {
      FixedLitCount(FixedLitLengths(), l);
    }
    LitKraft(FixedLitLengths());
    forall l
      ensures Count(FixedDistLengths(), l) == if l == 5 then 30 else 0
    {
      BelowRange(FixedDistLengths(), l, 0, 30, l == 5);
    }
    DistKraft(FixedDistLengths());
  }

  /** The first code of the shortest length is 0. */
  lemma {:induction false} NoShorterCodes(f: seq<nat>, l: nat)
    requires l > 0 && forall k :: 0 < k < l ==> Count(f, k) == 0
    ensures FirstCode(f, l) == 0
  {
    if l > 1 { NoShorterCodes(f, l - 1); }
  }

  lemma NextFirst(f: seq<nat>, l: nat, m: nat)
    requires l > 0 && m == l + 1
    ensures FirstCode(f, m) == 2 * (FirstCode(f, l) + Count(f, l))
  {
  }

  lemma FixedFirstCodes(f: seq<nat>, l: nat, m: nat, n: nat)
    requires l == 7 && m == 8 && n == 9 && Count(f, l) == 24 && Count(f, m) == 152
    requires forall k :: 0 < k < l ==> Count(f, k) == 0
    ensures FirstCode(f, l) == 0 && FirstCode(f, m) == 0x30 && FirstCode(f, n) == 0x190
  {
    NoShorterCodes(f, l);
    NextFirst(f, l, m);
    NextFirst(f, m, n);
  }

  /** How many symbols of its length come before `s`. */
  lemma FixedRank(f: seq<nat>, s: nat)
    requires f == FixedLitLengths() && s < 288
    ensures Rank(f, s) == if s < 144 then s else if s < 256 then s - 144 else if s < 280 then s - 256 else s - 136
  {
    var l := f[s];
    if s < 144 {
      BelowRange(f, l, 0, s, true);
    } else if s < 256 {
      BelowRange(f, l, 0, 144, false);
      BelowRange(f, l, 144, s, true);
    } else if s < 280 {
      BelowRange(f, l, 0, 256, false);
      BelowRange(f, l, 256, s, true);
    } else {
      BelowRange(f, l, 0, 144, true);
      BelowRange(f, l, 144, 280, false);
      BelowRange(f, l, 280, s, true);
    }
  }

  lemma FixedLitCounts(f: seq<nat>)
    requires f == FixedLitLengths()
    ensures forall l :: Count(f, l) == if l == 7 then 24 else if l == 8 then 152 else if l == 9 then 112 else 0
  {
    forall l
      ensures Count(f, l) == if l == 7 then 24 else if l == 8 then 152 else if l == 9 then 112 else 0
    {
      FixedLitCount(f, l);
    }
  }

  lemma CodeIs(f: seq<nat>, s: nat, l: nat, first: nat, v: nat)
    requires s < |f| && f[s] == l > 0 && FirstCode(f, l) == first && v == first + Rank(f, s)
    ensures CodeBits(f, s) == MsbBits(v, l)
  {
  }

  /** The decoder's lengths lead to the code words of the table in section 3.2.6. */
  lemma FixedLitCodes(s: nat)
    requires s < 288
    ensures CodeBits(FixedLitLengths(), s) == FixedCode(s)
  {
    var f := FixedLitLengths();
    FixedLitCounts(f);
    FixedFirstCodes(f, 7, 8, 9);
    FixedRank(f, s);
    CodeIs(f, s, FixedWord(s).1, FirstCode(f, f[s]), FixedWord(s).0);
  }

  lemma FirstDistCode(f: seq<nat>, l: nat)
    requires f == FixedDistLengths() && l == DISTANCE_BITS
    ensures FirstCode(f, l) == 0
  {
    forall k | 0 < k < l
      ensures Count(f, k) == 0
    {
      BelowRange(f, k, 0, 30, false);
    }
    NoShorterCodes(f, l);
  }

  lemma FixedDistCodes(d: nat)
    requires d < 30
    ensures CodeBits(FixedDistLengths(), d) == FixedDistanceCode(d)
  {
    var f := FixedDistLengths();
    FirstDistCode(f, DISTANCE_BITS);
    BelowRange(f, f[d], 0, d, true);
    CodeIs(f, d, DISTANCE_BITS, 0, d);
  }

  // ----- the format as a whole ------------------------------------------------------------------

  /** What all streams share, from the rules of the text alone. */
  function Format(): Setup {
    Setup(Tables(LengthBases(), LengthExtras(), DistanceBases(), DistanceExtras()), Order(), Table(CodeWordLengths()),
      Table(DistanceWordLengths()))
  }

  lemma SameEntries(a: seq<nat>, b: seq<nat>, n: nat)
    requires |a| == |b| == n && forall i :: 0 <= i < n ==> a[i] == b[i]
    ensures a == b
  {
  }

  lemma LengthTablesAgree()
    ensures LengthBases() == LENGTH_BASE && LengthExtras() == LENGTH_EXTRA
  {
    LengthTable(0);
    forall i | 0 <= i < 29
      ensures LengthBases()[i] == LENGTH_BASE[i] && LengthExtras()[i] == LENGTH_EXTRA[i]
    {
      LengthTable(i);
    }
    SameEntries(LengthBases(), LENGTH_BASE, 29);
    SameEntries(LengthExtras(), LENGTH_EXTRA, 29);
  }

  lemma DistanceTablesAgree()
    ensures DistanceBases() == DIST_BASE && DistanceExtras() == DIST_EXTRA
  {
    DistanceTable(0);
    forall d | 0 <= d < 30
      ensures DistanceBases()[d] == DIST_BASE[d] && DistanceExtras()[d] == DIST_EXTRA[d]
    {
      DistanceTable(d);
    }
    SameEntries(DistanceBases(), DIST_BASE, 30);
    SameEntries(DistanceExtras(), DIST_EXTRA, 30);
  }

  lemma OrderAgrees()
    ensures Order() == ORDER
  {
    OrderTable(0);
    forall k | 0 <= k < 19
      ensures Order()[k] == ORDER[k]
    {
      OrderTable(k);
    }
    SameEntries(Order(), ORDER, 19);
  }

  lemma LengthsAgree()
    ensures CodeWordLengths() == FixedLitLengths() && DistanceWordLengths() == FixedDistLengths()
  {
    SameEntries(CodeWordLengths(), FixedLitLengths(), 288);
    SameEntries(DistanceWordLengths(), FixedDistLengths(), 30);
  }

  /** The constants of the decoder are those of the format. */
  lemma FormatIsStandard()
    ensures Format() == Standard()
    ensures CodeWordLengths() == FixedLitLengths() && DistanceWordLengths() == FixedDistLengths()
  {
    LengthTablesAgree();
    DistanceTablesAgree();
    OrderAgrees();
    LengthsAgree();
  }
}
