/** Machine words as naturals and as bit sequences, least significant bit first. */
module Bits {

  type byte = b: int | 0 <= b < 256

  function Pow2(k: nat): (p: nat)
    ensures p > 0
  {
    if k == 0 then 1 else 2 * Pow2(k - 1)
  }

  lemma DoubleLeft(a: nat, b: nat)
    ensures (2 * a) * b == 2 * (a * b)
  {
  }

  lemma {:induction false} Pow2Sum(m: nat, n: nat)
    ensures Pow2(m + n) == Pow2(m) * Pow2(n)
  {
    if m > 0 {
      Pow2Sum(m - 1, n);
      DoubleLeft(Pow2(m - 1), Pow2(n));
    }
  }

  lemma Pow16()
    ensures Pow2(16) == 0x1_0000
  {
    Pow2Sum(8, 8);
    assert Pow2(8) == 256;
  }

  function FromBits(s: seq<bool>): nat {
    if s == [] then 0 else (if s[0] then 1 else 0) + 2 * FromBits(s[1..])
  }

  function ToBits(n: nat, k: nat): (s: seq<bool>)
    ensures |s| == k
  {
    if k == 0 then [] else [n % 2 == 1] + ToBits(n / 2, k - 1)
  }

  // ----- the operators of an unsigned machine word ----------------------------

  function BitAnd(x: nat, y: nat): nat {
    if x == 0 || y == 0 then 0
    else (if x % 2 == 1 && y % 2 == 1 then 1 else 0) + 2 * BitAnd(x / 2, y / 2)
  }

  function BitOr(x: nat, y: nat): nat {
    if x == 0 then y else if y == 0 then x
    else (if x % 2 == 1 || y % 2 == 1 then 1 else 0) + 2 * BitOr(x / 2, y / 2)
  }

  function BitXor(x: nat, y: nat): nat
    decreases x + y
  {
    if x == 0 then y else if y == 0 then x
    else (if x % 2 != y % 2 then 1 else 0) + 2 * BitXor(x / 2, y / 2)
  }

  function Shl(x: nat, n: nat): (r: nat)
    ensures r >= x
  {
    if n == 0 then x else 2 * Shl(x, n - 1)
  }

  function Shr(x: nat, n: nat): nat {
    if n == 0 then x else Shr(x / 2, n - 1)
  }

  // ----- conversions ----------------------------------------------------------

  lemma {:induction false} FromBitsBound(s: seq<bool>)
    ensures FromBits(s) < Pow2(|s|)
  {
    if s != [] { FromBitsBound(s[1..]); }
  }

  lemma {:induction false} ToFromBits(s: seq<bool>)
    ensures ToBits(FromBits(s), |s|) == s
  {
    if s != [] {
      ToFromBits(s[1..]);
      assert FromBits(s) / 2 == FromBits(s[1..]);
    }
  }

  lemma {:induction false} FromToBits(n: nat, k: nat)
    requires n < Pow2(k)
    ensures FromBits(ToBits(n, k)) == n
  {
    if k > 0 {
      FromToBits(n / 2, k - 1);
      assert ToBits(n, k)[1..] == ToBits(n / 2, k - 1);
    }
  }

  // ----- masking, shifting and joining bit fields -------------------------------

  lemma {:induction false} ShlOne(n: nat)
    ensures Shl(1, n) == Pow2(n)
  {
    if n > 0 { ShlOne(n - 1); }
  }

  lemma {:induction false} ShiftOut(s: seq<bool>, n: nat)
    requires n <= |s|
    ensures Shr(FromBits(s), n) == FromBits(s[n..])
  {
    if n == 0 {
      assert s[0..] == s;
    } else {
      ShiftOut(s[1..], n - 1);
      assert s[1..][n - 1..] == s[n..];
      assert FromBits(s) / 2 == FromBits(s[1..]);
    }
  }

  /** Splitting a word: the masked low bits and the shifted rest. */
  lemma SplitField(s: seq<bool>, n: nat)
    requires n <= |s|
    ensures BitAnd(FromBits(s), Shl(1, n) - 1) == FromBits(s[..n])
    ensures Shr(FromBits(s), n) == FromBits(s[n..])
  {
    ShlOne(n);
    MaskField(s, n);
    ShiftOut(s, n);
  }

  lemma {:induction false} MaskField(s: seq<bool>, n: nat)
    requires n <= |s|
    ensures BitAnd(FromBits(s), Pow2(n) - 1) == FromBits(s[..n])
  {
    if n > 0 {
      MaskField(s[1..], n - 1);
      assert s[..n][1..] == s[1..][..n - 1];
      var x, m := FromBits(s), Pow2(n) - 1;
      assert x / 2 == FromBits(s[1..]) && m / 2 == Pow2(n - 1) - 1 && m % 2 == 1;
      if x == 0 {
        FromBitsPrefixZero(s, n);
      }
    }
  }

  lemma {:induction false} FromBitsPrefixZero(s: seq<bool>, n: nat)
    requires n <= |s| && FromBits(s) == 0
    ensures FromBits(s[..n]) == 0
  {
    if n > 0 {
      FromBitsPrefixZero(s[1..], n - 1);
      assert s[..n][1..] == s[1..][..n - 1];
    }
  }

  /** Joining a word: a field shifted above the bits already there. */
  lemma {:induction false} JoinField(a: seq<bool>, b: seq<bool>)
    ensures BitOr(FromBits(a), Shl(FromBits(b), |a|)) == FromBits(a + b)
  {
    if a == [] {
      assert a + b == b;
    } else {
      JoinField(a[1..], b);
      assert (a + b)[1..] == a[1..] + b;
      JoinDigit(FromBits(a[1..]), Shl(FromBits(b), |a| - 1), if a[0] then 1 else 0);
    }
  }

  lemma JoinDigit(x: nat, y: nat, d: nat)
    requires d <= 1
    ensures BitOr(d + 2 * x, 2 * y) == d + 2 * BitOr(x, y)
  {
    assert (d + 2 * x) / 2 == x && (d + 2 * x) % 2 == d;
    assert (2 * y) / 2 == y && (2 * y) % 2 == 0;
    if d + 2 * x == 0 { assert x == 0; }
    if y == 0 { assert BitOr(x, y) == x; }
  }

  /** Two `k`-bit words that differ in every bit are complements. */
  lemma {:induction false} XorComplement(x: nat, y: nat, k: nat)
    requires x < Pow2(k) && y < Pow2(k)
    ensures BitXor(x, y) == Pow2(k) - 1 <==> x + y == Pow2(k) - 1
  {
    if k > 0 {
      XorComplement(x / 2, y / 2, k - 1);
      XorDigit(x, y);
    }
  }

  lemma XorDigit(x: nat, y: nat)
    ensures BitXor(x, y) == (if x % 2 != y % 2 then 1 else 0) + 2 * BitXor(x / 2, y / 2)
  {
    if x == 0 { assert BitXor(0, y / 2) == y / 2; }
    if y == 0 { assert BitXor(x / 2, 0) == x / 2; }
  }

  // ----- byte strings as bit strings --------------------------------------------

  /** The bits of a byte string in transmission order: each byte from its low bit up. */
  function MessageBits(data: seq<byte>): (m: seq<bool>)
    ensures |m| == 8 * |data|
  {
    if data == [] then [] else ToBits(data[0], 8) + MessageBits(data[1..])
  }

  lemma {:induction false} MessageBitsAt(data: seq<byte>, i: nat, k: nat)
    requires i < |data| && k < 8
    ensures MessageBits(data)[8 * i + k] == ToBits(data[i], 8)[k]
  {
    if i > 0 { MessageBitsAt(data[1..], i - 1, k); }
  }

  lemma {:induction false} MessageBitsConcat(a: seq<byte>, b: seq<byte>)
    ensures MessageBits(a + b) == MessageBits(a) + MessageBits(b)
  {
    if a == [] {
      assert a + b == b;
    } else {
      assert (a + b)[1..] == a[1..] + b;
      MessageBitsConcat(a[1..], b);
    }
  }

  /** Reading bytes back from a bit string. */
  function BytesOf(bits: seq<bool>): (data: seq<byte>)
    requires |bits| % 8 == 0
    ensures |data| == |bits| / 8
    decreases |bits|
  {
    if bits == [] then []
    else
      FromBitsBound(bits[..8]);
      assert Pow2(8) == 256;
      [FromBits(bits[..8])] + BytesOf(bits[8..])
  }

  lemma {:induction false} BytesOfMessage(data: seq<byte>)
    ensures BytesOf(MessageBits(data)) == data
  {
    if data != [] {
      var m := MessageBits(data);
      assert m[..8] == ToBits(data[0], 8) && m[8..] == MessageBits(data[1..]);
      assert Pow2(8) == 256;
      FromToBits(data[0], 8);
      BytesOfMessage(data[1..]);
    }
  }

  lemma {:induction false} MessageOfBytes(bits: seq<bool>)
    requires |bits| % 8 == 0
    ensures MessageBits(BytesOf(bits)) == bits
    decreases |bits|
  {
    if bits != [] {
      ToFromBits(bits[..8]);
      MessageOfBytes(bits[8..]);
      assert BytesOf(bits)[1..] == BytesOf(bits[8..]);
    }
  }
}
