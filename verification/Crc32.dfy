/** CRC-32 as the zip reader computes it: the reflected, table-free form, one
    mask-and-shift step per bit.  A `u32` is its 32 bits, least significant
    first, so that the shift drops the head and the operators work bit by bit. */
module Crc32 {
  import opened Bits

  type Word = w: seq<bool> | |w| == 32 witness seq(32, _ => false)

  function Zeros(n: nat): (z: seq<bool>)
    ensures |z| == n
  {
    seq(n, _ => false)
  }

  function Xor(a: seq<bool>, b: seq<bool>): (r: seq<bool>)
    requires |a| == |b|
    ensures |r| == |a|
    ensures forall i :: 0 <= i < |r| ==> r[i] == (a[i] != b[i])
  {
    seq(|a|, i requires 0 <= i < |a| => a[i] != b[i])
  }

  function And(a: Word, b: Word): (r: Word)
    ensures forall i :: 0 <= i < 32 ==> r[i] == (a[i] && b[i])
  {
    seq(32, i requires 0 <= i < 32 => a[i] && b[i])
  }

  function Not(a: Word): (r: Word)
    ensures forall i :: 0 <= i < 32 ==> r[i] == !a[i]
  {
    seq(32, i requires 0 <= i < 32 => !a[i])
  }

  /** The constant of the loop as a word; `GeneratorBits` says which polynomial it is. */
  function Poly(): Word {
    seq(32, i requires 0 <= i < 32 => Shr(0xedb8_8320, i) % 2 == 1)
  }

  /** `!0u32` */
  function Ones(): Word { Not(Zeros(32)) }

  /** A byte widened to a word. */
  function Widen(bits: seq<bool>): Word
    requires |bits| <= 32
  {
    bits + Zeros(32 - |bits|)
  }

  /** `(crc & 1).wrapping_neg()`: negating the low bit copies it to every bit. */
  function Mask(crc: Word): (m: Word)
    ensures forall i :: 0 <= i < 32 ==> m[i] == crc[0]
  {
    seq(32, _ => crc[0])
  }

  /** One turn of the inner loop. */
  function Step(crc: Word): Word {
    Xor(crc[1..] + [false], And(Poly(), Mask(crc)))
  }

  function Steps(crc: Word, n: nat): Word
    decreases n, crc
  {
    if n == 0 then crc else Steps(Step(crc), n - 1)
  }

  function FeedAll(crc: Word, data: seq<byte>): Word
    decreases data
  {
    if data == [] then crc
    else FeedAll(Steps(Xor(crc, Widen(ToBits(data[0], 8))), 8), data[1..])
  }

  function Crc(data: seq<byte>): Word {
    Not(FeedAll(Ones(), data))
  }

  method Compute(data: seq<byte>) returns (r: Word)
    ensures r == Crc(data)
  {
    var crc: Word := Ones();
    for i := 0 to |data|
      invariant FeedAll(crc, data[i..]) == FeedAll(Ones(), data)
    {
      assert data[i..][1..] == data[i + 1..];
      crc := Xor(crc, Widen(ToBits(data[i], 8)));
      ghost var fed := Steps(crc, 8);
      for k := 0 to 8
        invariant Steps(crc, 8 - k) == fed
      {
        var mask := Mask(crc);
        crc := Xor(crc[1..] + [false], And(Poly(), mask));
      }
    }
    r := Not(crc);
  }

  // ----- one step: linear over xor, and a bijection ---------------------------

  /** The generator of section 8.1.1.6.2 of ITU-T V.42 by the exponents of its terms. */
  const EXPONENTS: set<nat> := {32, 26, 23, 22, 16, 12, 11, 10, 8, 7, 5, 4, 2, 1, 0}

  /** Its coefficients from the highest degree down. */
  function Generator(): (g: seq<bool>)
    ensures |g| == 33
  {
    seq(33, i requires 0 <= i < 33 => 32 - i in EXPONENTS)
  }

  /** Four binary digits of a word, from place `k` up. */
  lemma HexDigit(x: nat, k: nat, high: nat, digit: nat)
    requires digit < 16 && Shr(x, k) == 16 * high + digit
    ensures Shr(x, k) % 2 == digit % 2 && Shr(x, k + 1) % 2 == digit / 2 % 2
    ensures Shr(x, k + 2) % 2 == digit / 4 % 2 && Shr(x, k + 3) % 2 == digit / 8 % 2
    ensures Shr(x, k + 4) == high
  {
    BitPlace(x, k, 8 * high, digit);
    BitPlace(x, k + 1, 4 * high, digit / 2);
    BitPlace(x, k + 2, 2 * high, digit / 4);
    BitPlace(x, k + 3, high, digit / 8);
  }

  lemma BitPlace(x: nat, k: nat, high: nat, low: nat)
    requires Shr(x, k) == 2 * high + low
    ensures Shr(x, k) % 2 == low % 2 && Shr(x, k + 1) == high + low / 2
  {
    ShrNext(x, k);
  }

  lemma {:induction false} ShrNext(x: nat, k: nat)
    ensures Shr(x, k + 1) == Shr(x, k) / 2
  {
    if k > 0 { ShrNext(x / 2, k - 1); }
  }

  /** Bit `i` of the constant is the coefficient of x^(31 - i). */
  ghost predicate IsTerm(x: nat, i: nat) {
    (Shr(x, i) % 2 == 1) == (31 - i in EXPONENTS)
  }

  lemma Digits0(x: nat)
    requires Shr(x, 0) == 0xedb8_8320
    ensures forall i :: 0 <= i < 8 ==> IsTerm(x, i)
    ensures Shr(x, 8) == 0xed_b883
  {
    HexDigit(x, 0, 0xedb_8832, 0);
    HexDigit(x, 4, 0xed_b883, 2);
  }

  lemma Digits8(x: nat)
    requires Shr(x, 8) == 0xed_b883
    ensures forall i :: 8 <= i < 16 ==> IsTerm(x, i)
    ensures Shr(x, 16) == 0xedb8
  {
    HexDigit(x, 8, 0xe_db88, 3);
    HexDigit(x, 12, 0xedb8, 8);
  }

  lemma Digits16(x: nat)
    requires Shr(x, 16) == 0xedb8
    ensures forall i :: 16 <= i < 24 ==> IsTerm(x, i)
    ensures Shr(x, 24) == 0xed
  {
    HexDigit(x, 16, 0xedb, 8);
    HexDigit(x, 20, 0xed, 11);
  }

  lemma Digits24(x: nat)
    requires Shr(x, 24) == 0xed
    ensures forall i :: 24 <= i < 32 ==> IsTerm(x, i)
  {
    HexDigit(x, 24, 0xe, 13);
    HexDigit(x, 28, 0, 14);
  }

  lemma DigitsOf(x: nat, poly: seq<bool>, g: seq<bool>)
    requires x == 0xedb8_8320 && |poly| == 32 && |g| == 33
    requires forall i :: 0 <= i < 32 ==> poly[i] == (Shr(x, i) % 2 == 1)
    requires forall i :: 0 <= i < 33 ==> g[i] == (32 - i in EXPONENTS)
    ensures g[0] && g[1..] == poly
  {
    Digits0(x);
    Digits8(x);
    Digits16(x);
    Digits24(x);
    forall i | 0 <= i < 32
      ensures g[1..][i] == poly[i]
    {
      assert IsTerm(x, i);
      assert g[1..][i] == g[i + 1] == (31 - i in EXPONENTS);
    }
  }

  /** The constant of the loop is the generator without its highest term, reflected. */
  lemma GeneratorBits()
    ensures Generator() == [true] + Poly()
  {
    var g, poly := Generator(), Poly();
    DigitsOf(0xedb8_8320, poly, g);
    assert g == [g[0]] + g[1..];
  }

  /** The term of degree 0: why no step loses information. */
  lemma PolyTop()
    ensures Poly()[31]
  {
    GeneratorBits();
    assert Poly()[31] == Generator()[32];
  }

  lemma StepLinear(a: Word, b: Word)
    ensures Step(Xor(a, b)) == Xor(Step(a), Step(b))
  {
  }

  lemma StepInjective(a: Word, b: Word)
    requires Step(a) == Step(b)
    ensures a == b
  {
    PolyTop();
    assert Step(a)[31] == a[0] && Step(b)[31] == b[0];
    forall i | 0 < i < 32
      ensures a[i] == b[i]
    {
      assert Step(a)[i - 1] == (a[i] != (Poly()[i - 1] && a[0]));
      assert Step(b)[i - 1] == (b[i] != (Poly()[i - 1] && b[0]));
    }
  }

  lemma {:induction false} StepsInjective(a: Word, b: Word, n: nat)
    requires Steps(a, n) == Steps(b, n)
    ensures a == b
    decreases n
  {
    if n > 0 {
      StepsInjective(Step(a), Step(b), n - 1);
      StepInjective(a, b);
    }
  }

  // ----- the bit-serial view: injecting a byte at once is injecting its bits ----

  function FeedBits(crc: Word, bits: seq<bool>): Word
    decreases bits
  {
    if bits == [] then crc
    else FeedBits(Step(Xor(crc, Widen([bits[0]]))), bits[1..])
  }

  /** One bit now and the others after the step, or all of them before it. */
  lemma InjectFirst(crc: Word, bits: seq<bool>)
    requires 1 <= |bits| <= 32
    ensures Xor(Step(Xor(crc, Widen([bits[0]]))), Widen(bits[1..])) == Step(Xor(crc, Widen(bits)))
  {
    var now, later: Word := Xor(crc, Widen([bits[0]])), [false] + bits[1..] + Zeros(32 - |bits|);
    assert Step(later) == Widen(bits[1..]);
    assert Xor(now, later) == Xor(crc, Widen(bits));
    StepLinear(now, later);
  }

  /** Up to 32 bits may be injected together before stepping. */
  lemma {:induction false} InjectTogether(crc: Word, bits: seq<bool>)
    requires |bits| <= 32
    ensures FeedBits(crc, bits) == Steps(Xor(crc, Widen(bits)), |bits|)
    decreases bits
  {
    if bits == [] {
      assert Xor(crc, Widen(bits)) == crc;
    } else {
      InjectTogether(Step(Xor(crc, Widen([bits[0]]))), bits[1..]);
      InjectFirst(crc, bits);
    }
  }

  lemma {:induction false} FeedBitsConcat(crc: Word, a: seq<bool>, b: seq<bool>)
    ensures FeedBits(crc, a + b) == FeedBits(FeedBits(crc, a), b)
    decreases a
  {
    if a == [] {
      assert a + b == b;
    } else {
      assert (a + b)[1..] == a[1..] + b;
      FeedBitsConcat(Step(Xor(crc, Widen([a[0]]))), a[1..], b);
    }
  }

  lemma {:induction false} FeedAllIsBitSerial(crc: Word, data: seq<byte>)
    ensures FeedAll(crc, data) == FeedBits(crc, MessageBits(data))
    decreases data
  {
    if data != [] {
      InjectTogether(crc, ToBits(data[0], 8));
      FeedBitsConcat(crc, ToBits(data[0], 8), MessageBits(data[1..]));
      FeedAllIsBitSerial(FeedBits(crc, ToBits(data[0], 8)), data[1..]);
    }
  }

  // ----- the defining polynomial division --------------------------------------

  /** Schoolbook long division of a polynomial over GF(2) by the generator, coefficients
      from the highest degree down: what remains. */
  function Remainder(m: seq<bool>): (r: seq<bool>)
    requires |m| >= 32
    ensures |r| == 32
    decreases |m|
  {
    if |m| == 32 then m
    else if m[0] then Remainder(Xor(m[..33], Generator())[1..] + m[33..])
    else Remainder(m[1..])
  }

  /** One turn of the division, in terms of the constant of the loop. */
  lemma RemainderTurn(m: seq<bool>, shorter: seq<bool>)
    requires |m| > 32
    requires shorter == if m[0] then Xor(m[1..33], Poly()) + m[33..] else m[1..]
    ensures Remainder(m) == Remainder(shorter)
  {
    if m[0] {
      GeneratorBits();
      var x := Xor(m[..33], Generator());
      assert x[1..] == Xor(m[1..33], Poly()) by {
        forall i | 0 <= i < 32
          ensures x[1..][i] == Xor(m[1..33], Poly())[i]
        {
          assert Generator()[i + 1] == Poly()[i];
        }
      }
    }
  }

  lemma {:induction false} FeedBitsDivides(crc: Word, bits: seq<bool>)
    ensures FeedBits(crc, bits) == Remainder(Xor(bits + Zeros(32), crc + Zeros(|bits|)))
    decreases bits
  {
    if bits == [] {
      assert Xor(bits + Zeros(32), crc + Zeros(|bits|)) == crc;
    } else {
      FeedBitsDivides(Step(Xor(crc, Widen([bits[0]]))), bits[1..]);
      DivisionStep(crc, bits);
    }
  }

  lemma DivisionStep(crc: Word, bits: seq<bool>)
    requires bits != []
    ensures var next := Step(Xor(crc, Widen([bits[0]])));
      Remainder(Xor(bits + Zeros(32), crc + Zeros(|bits|)))
      == Remainder(Xor(bits[1..] + Zeros(32), next + Zeros(|bits| - 1)))
  {
    var m := Xor(bits + Zeros(32), crc + Zeros(|bits|));
    var c := Xor(crc, Widen([bits[0]]));
    var m' := Xor(bits[1..] + Zeros(32), Step(c) + Zeros(|bits| - 1));
    assert c[0] == m[0];
    assert c[1..] == crc[1..];
    if m[0] {
      assert Step(c) == Xor(crc[1..] + [false], Poly());
      assert m' == Xor(m[1..33], Poly()) + m[33..];
    } else {
      assert Step(c) == crc[1..] + [false];
      assert m' == m[1..];
    }
    RemainderTurn(m, m');
  }

  /** The first `n` bits complemented. */
  function Complemented(m: seq<bool>, n: nat): (r: seq<bool>)
    ensures |r| == |m| && forall i :: 0 <= i < |r| ==> r[i] == if i < n then !m[i] else m[i]
  {
    seq(|m|, i requires 0 <= i < |m| => if i < n then !m[i] else m[i])
  }

  /** The definition the standard gives: append 32 zero bits, complement the first
      32 bits, divide by the generator, complement the remainder. */
  lemma CrcIsRemainder(data: seq<byte>)
    ensures Crc(data) == Complemented(Remainder(Complemented(MessageBits(data) + seq(32, _ => false), 32)), 32)
  {
    var bits := MessageBits(data);
    FeedAllIsBitSerial(Ones(), data);
    FeedBitsDivides(Ones(), bits);
    assert Complemented(bits + seq(32, _ => false), 32) == Xor(bits + Zeros(32), Ones() + Zeros(|bits|));
  }

  // ----- error detection --------------------------------------------------------

  lemma {:induction false} FeedBitsInjective(a: Word, b: Word, bits: seq<bool>)
    requires FeedBits(a, bits) == FeedBits(b, bits)
    ensures a == b
    decreases bits
  {
    if bits != [] {
      var w := Widen([bits[0]]);
      FeedBitsInjective(Step(Xor(a, w)), Step(Xor(b, w)), bits[1..]);
      StepInjective(Xor(a, w), Xor(b, w));
      assert forall i :: 0 <= i < 32 ==> Xor(a, w)[i] == Xor(b, w)[i];
    }
  }

  lemma BurstChangesRegister(crc: Word, x: seq<bool>, y: seq<bool>)
    requires |x| == |y| <= 32 && x != y
    ensures FeedBits(crc, x) != FeedBits(crc, y)
  {
    InjectTogether(crc, x);
    InjectTogether(crc, y);
    var k :| 0 <= k < |x| && x[k] != y[k];
    assert Xor(crc, Widen(x))[k] != Xor(crc, Widen(y))[k];
    if Steps(Xor(crc, Widen(x)), |x|) == Steps(Xor(crc, Widen(y)), |y|) {
      StepsInjective(Xor(crc, Widen(x)), Xor(crc, Widen(y)), |x|);
    }
  }

  /** Any error burst of at most 32 transmitted bits, byte-aligned or not, is
      detected. */
  lemma DetectsBitBurst(a: seq<byte>, b: seq<byte>, start: nat)
    requires |a| == |b| && MessageBits(a) != MessageBits(b)
    requires forall i :: 0 <= i < 8 * |a| && !(start <= i < start + 32) ==> MessageBits(a)[i] == MessageBits(b)[i]
    ensures Crc(a) != Crc(b)
  {
    var m, n := MessageBits(a), MessageBits(b);
    var hi := if start + 32 <= |m| then start + 32 else |m|;
    var k :| 0 <= k < |m| && m[k] != n[k];
    BitBurst(Ones(), m, n, start, hi);
    FeedAllIsBitSerial(Ones(), a);
    FeedAllIsBitSerial(Ones(), b);
    NotInjective(FeedAll(Ones(), a), FeedAll(Ones(), b));
  }

  lemma BitBurst(crc: Word, m: seq<bool>, n: seq<bool>, lo: nat, hi: nat)
    requires |m| == |n| && m != n && lo <= hi <= |m| && hi - lo <= 32
    requires forall i :: 0 <= i < |m| && !(lo <= i < hi) ==> m[i] == n[i]
    ensures FeedBits(crc, m) != FeedBits(crc, n)
  {
    var k :| 0 <= k < |m| && m[k] != n[k];
    assert m[..lo] == n[..lo] && m[hi..] == n[hi..];
    assert m[lo..hi][k - lo] != n[lo..hi][k - lo];
    FeedBitsSplit(crc, m, lo, hi);
    FeedBitsSplit(crc, n, lo, hi);
    var c := FeedBits(crc, m[..lo]);
    BurstChangesRegister(c, m[lo..hi], n[lo..hi]);
    if FeedBits(crc, m) == FeedBits(crc, n) {
      FeedBitsInjective(FeedBits(c, m[lo..hi]), FeedBits(c, n[lo..hi]), m[hi..]);
    }
  }

  lemma FeedBitsSplit(crc: Word, m: seq<bool>, lo: nat, hi: nat)
    requires lo <= hi <= |m|
    ensures FeedBits(crc, m) == FeedBits(FeedBits(FeedBits(crc, m[..lo]), m[lo..hi]), m[hi..])
  {
    assert m == m[..lo] + m[lo..];
    FeedBitsConcat(crc, m[..lo], m[lo..]);
    assert m[lo..] == m[lo..hi] + m[hi..];
    FeedBitsConcat(FeedBits(crc, m[..lo]), m[lo..hi], m[hi..]);
  }

  lemma NotInjective(a: Word, b: Word)
    requires a != b
    ensures Not(a) != Not(b)
  {
    var i :| 0 <= i < 32 && a[i] != b[i];
    assert Not(a)[i] != Not(b)[i];
  }

  /** Two equal-length messages that differ, and only within four consecutive
      bytes, have different checksums. */
  lemma DetectsFourByteBurst(a: seq<byte>, b: seq<byte>, start: nat)
    requires |a| == |b| && a != b
    requires forall i :: 0 <= i < |a| && !(start <= i < start + 4) ==> a[i] == b[i]
    ensures Crc(a) != Crc(b)
  {
    forall i | 0 <= i < 8 * |a| && !(8 * start <= i < 8 * start + 32)
      ensures MessageBits(a)[i] == MessageBits(b)[i]
    {
      MessageBitsAt(a, i / 8, i % 8);
      MessageBitsAt(b, i / 8, i % 8);
    }
    var d :| 0 <= d < |a| && a[d] != b[d];
    assert Pow2(8) == 256;
    FromToBits(a[d], 8);
    FromToBits(b[d], 8);
    assert ToBits(a[d], 8) != ToBits(b[d], 8);
    var k :| 0 <= k < 8 && ToBits(a[d], 8)[k] != ToBits(b[d], 8)[k];
    MessageBitsAt(a, d, k);
    MessageBitsAt(b, d, k);
    DetectsBitBurst(a, b, 8 * start);
  }
}
