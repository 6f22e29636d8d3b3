/** "Modified UTF-8", the string encoding of class files (section 4.4.7 of the Java Virtual
    Machine Specification). The mask tests and shifts of `decode_modified_utf8` are
    written as ranges, remainders and products. */
module ModifiedUtf8 {
  import opened Results
  import opened Bits

  /** A UTF-16 code unit. */
  type unit = u: int | 0 <= u < 0x1_0000

  predicate IsScalar(c: int) { 0 <= c < 0xd800 || 0xe000 <= c < 0x11_0000 }

  /** A Unicode scalar value. */
  type scalar = c: int | 0 <= c < 0xd800 || 0xe000 <= c < 0x11_0000 witness 0

  /** `char::from_u32` */
  function FromU32(c: int): Option<scalar> { if IsScalar(c) then Some(c) else None }

  const QUESTION: unit := 0x3f
  const REPLACEMENT: scalar := 0xfffd

  // ----- decoding ----------------------------------------------------------------------------

  predicate Continues(b: byte) { 0x80 <= b < 0xc0 }

  function JoinTwo(b0: int, b1: int): unit { b0 % 0x20 * 0x40 + b1 % 0x40 }

  function JoinThree(b0: int, b1: int, b2: int): unit { b0 % 0x10 * 0x1000 + b1 % 0x40 * 0x40 + b2 % 0x40 }

  /** The code unit at position `i`, and how many bytes it takes. */
  function UnitAt(bytes: seq<byte>, i: nat): (r: (unit, nat))
    requires i < |bytes|
    ensures 1 <= r.1 <= 3 && i + r.1 <= |bytes|
  {
    var b0 := bytes[i];
    if b0 < 0x80 then (b0, 1)
    else if 0xc0 <= b0 < 0xe0 then
      if i + 1 < |bytes| && Continues(bytes[i + 1]) then (JoinTwo(b0, bytes[i + 1]), 2) else (QUESTION, 1)
    else if 0xe0 <= b0 < 0xf0 then
      if i + 2 < |bytes| && Continues(bytes[i + 1]) && Continues(bytes[i + 2])
      then (JoinThree(b0, bytes[i + 1], bytes[i + 2]), 3) else (QUESTION, 1)
    else (QUESTION, 1)
  }

  function Units(bytes: seq<byte>, i: nat): (r: seq<unit>)
    requires i <= |bytes|
    ensures |r| <= |bytes| - i
    decreases |bytes| - i
  {
    if i == |bytes| then []
    else
      var (u, n) := UnitAt(bytes, i);
      [u] + Units(bytes, i + n)
  }

  predicate IsHigh(u: int) { 0xd800 <= u < 0xdc00 }

  predicate IsLow(u: int) { 0xdc00 <= u < 0xe000 }

  predicate PairAt(units: seq<unit>, i: nat) {
    i + 1 < |units| && IsHigh(units[i]) && IsLow(units[i + 1])
  }

  function Joined(high: int, low: int): int { 0x1_0000 + (high - 0xd800) * 0x400 + (low - 0xdc00) }

  /** The character at position `i`, and how many units it takes. */
  function CharAt(units: seq<unit>, i: nat): (r: (scalar, nat))
    requires i < |units|
    ensures 1 <= r.1 && i + r.1 <= |units|
  {
    if PairAt(units, i) && FromU32(Joined(units[i], units[i + 1])).Some?
      then (FromU32(Joined(units[i], units[i + 1])).value, 2)
    else if FromU32(units[i]).Some? then (FromU32(units[i]).value, 1)
    else (REPLACEMENT, 1)
  }

  function Chars(units: seq<unit>, i: nat): (r: seq<scalar>)
    requires i <= |units|
    ensures |r| <= |units| - i
    decreases |units| - i
  {
    if i == |units| then []
    else
      var (c, n) := CharAt(units, i);
      [c] + Chars(units, i + n)
  }

  method ReadUnits(bytes: seq<byte>) returns (chars: seq<unit>)
    ensures chars == Units(bytes, 0)
  {
    chars := [];
    var i: nat := 0;
    while i < |bytes|
      invariant i <= |bytes| && chars + Units(bytes, i) == Units(bytes, 0)
    {
      var (u, n) := UnitAt(bytes, i);
      AppendOne(chars, u, Units(bytes, i + n));
      chars := chars + [u];
      i := i + n;
    }
  }

  lemma AppendOne<T>(a: seq<T>, x: T, b: seq<T>)
    ensures a + ([x] + b) == (a + [x]) + b
  {
  }

  method CombineSurrogates(chars: seq<unit>) returns (out: seq<scalar>)
    ensures out == Chars(chars, 0)
  {
    out := [];
    var idx: nat := 0;
    while idx < |chars|
      invariant idx <= |chars| && out + Chars(chars, idx) == Chars(chars, 0)
    {
      var (c, n) := CharAt(chars, idx);
      AppendOne(out, c, Chars(chars, idx + n));
      out := out + [c];
      idx := idx + n;
    }
  }

  /** `decode_modified_utf8`: every byte sequence decodes, to at most one character for
      each byte. */
  method DecodeModifiedUtf8(bytes: seq<byte>) returns (out: seq<scalar>)
    ensures out == Chars(Units(bytes, 0), 0) && |out| <= |bytes|
  {
    var chars := ReadUnits(bytes);
    out := CombineSurrogates(chars);
  }

  // ----- encoding, as the specification has it -------------------------------------------------

  /** U+0000 takes two bytes, so that no zero byte occurs. */
  function EncodeUnit(u: unit): seq<byte> {
    if 0 < u < 0x80 then [u]
    else if u < 0x800 then [0xc0 + u / 0x40, 0x80 + u % 0x40]
    else [0xe0 + u / 0x1000, 0x80 + u / 0x40 % 0x40, 0x80 + u % 0x40]
  }

  function EncodeUnits(units: seq<unit>): seq<byte> {
    if units == [] then [] else EncodeUnit(units[0]) + EncodeUnits(units[1..])
  }

  function HighOf(c: int): unit
    requires 0x1_0000 <= c < 0x11_0000
  {
    0xd800 + (c - 0x1_0000) / 0x400
  }

  function LowOf(c: int): unit
    requires 0x1_0000 <= c < 0x11_0000
  {
    0xdc00 + (c - 0x1_0000) % 0x400
  }

  /** A supplementary character is a pair of surrogates. */
  function Surrogates(c: scalar): seq<unit> {
    if c < 0x1_0000 then
      var u: unit := c;
      [u]
    else [HighOf(c), LowOf(c)]
  }

  function Utf16(s: seq<scalar>): seq<unit> {
    if s == [] then [] else Surrogates(s[0]) + Utf16(s[1..])
  }

  function Encode(s: seq<scalar>): seq<byte> { EncodeUnits(Utf16(s)) }

  // ----- round trips -----------------------------------------------------------------------------

  lemma JoinBack(u: unit)
    ensures u < 0x800 ==> JoinTwo(0xc0 + u / 0x40, 0x80 + u % 0x40) == u
    ensures JoinThree(0xe0 + u / 0x1000, 0x80 + u / 0x40 % 0x40, 0x80 + u % 0x40) == u
  {
    assert u / 0x40 / 0x40 == u / 0x1000;
  }

  lemma UnitBack(p: seq<byte>, u: unit, bytes: seq<byte>)
    requires p + EncodeUnit(u) <= bytes
    ensures UnitAt(bytes, |p|) == (u, |EncodeUnit(u)|)
  {
    var head := EncodeUnit(u);
    assert forall k :: 0 <= k < |head| ==> bytes[|p| + k] == (p + head)[|p| + k] == head[k];
    JoinBack(u);
  }

  /** The `n` bytes at `i` are the code unit `u` in the form of that length, which need not be the shortest. */
  predicate Spells(bytes: seq<byte>, i: nat, u: unit, n: nat) {
    && 1 <= n <= 3 && i + n <= |bytes|
    && if n == 1 then u < 0x80 && bytes[i] == u
       else if n == 2 then u < 0x800 && bytes[i] == 0xc0 + u / 0x40 && bytes[i + 1] == 0x80 + u % 0x40
       else bytes[i] == 0xe0 + u / 0x1000 && bytes[i + 1] == 0x80 + u / 0x40 % 0x40 && bytes[i + 2] == 0x80 + u % 0x40
  }

  lemma SpelledIsRead(bytes: seq<byte>, i: nat, u: unit, n: nat)
    requires Spells(bytes, i, u, n)
    ensures UnitAt(bytes, i) == (u, n)
  {
    JoinBack(u);
  }

  lemma Digits64(a: int, c: int)
    requires a >= 0 && 0 <= c < 0x40
    ensures (a * 0x40 + c) / 0x40 == a && (a * 0x40 + c) % 0x40 == c
  {
  }

  lemma TwoSpell(bytes: seq<byte>, i: nat)
    requires i + 2 <= |bytes| && 0xc0 <= bytes[i] < 0xe0 && Continues(bytes[i + 1])
    ensures Spells(bytes, i, JoinTwo(bytes[i], bytes[i + 1]), 2)
  {
    Digits64(bytes[i] % 0x20, bytes[i + 1] % 0x40);
  }

  lemma ThreeDigits(a: int, b: int, c: int, u: int)
    requires 0 <= a < 0x10 && 0 <= b < 0x40 && 0 <= c < 0x40 && u == a * 0x1000 + b * 0x40 + c
    ensures u / 0x1000 == a && u / 0x40 % 0x40 == b && u % 0x40 == c
  {
    Digits64(a * 0x40 + b, c);
    Digits64(a, b);
  }

  lemma ThreeSpell(bytes: seq<byte>, i: nat)
    requires i + 3 <= |bytes| && 0xe0 <= bytes[i] < 0xf0 && Continues(bytes[i + 1]) && Continues(bytes[i + 2])
    ensures Spells(bytes, i, JoinThree(bytes[i], bytes[i + 1], bytes[i + 2]), 3)
  {
    var (a, b, c) := (bytes[i] % 0x10, bytes[i + 1] % 0x40, bytes[i + 2] % 0x40);
    ThreeDigits(a, b, c, JoinThree(bytes[i], bytes[i + 1], bytes[i + 2]));
  }

  /** What is read is spelled there, or it is a question mark for a single byte. */
  lemma ReadIsSpelled(bytes: seq<byte>, i: nat)
    requires i < |bytes|
    ensures Spells(bytes, i, UnitAt(bytes, i).0, UnitAt(bytes, i).1) || UnitAt(bytes, i) == ('?' as int, 1)
  {
    var b0 := bytes[i];
    if 0xc0 <= b0 < 0xe0 && i + 1 < |bytes| && Continues(bytes[i + 1]) { TwoSpell(bytes, i); }
    if 0xe0 <= b0 < 0xf0 && i + 2 < |bytes| && Continues(bytes[i + 1]) && Continues(bytes[i + 2]) {
      ThreeSpell(bytes, i);
    }
  }

  /** What spells no code unit is read as a question mark, a byte at a time. */
  lemma MalformedByte(bytes: seq<byte>, i: nat)
    requires i < |bytes| && forall u, n :: !Spells(bytes, i, u, n)
    ensures UnitAt(bytes, i) == ('?' as int, 1)
  {
    ReadIsSpelled(bytes, i);
  }

  /** A lone surrogate becomes the replacement character. */
  lemma LoneSurrogate(units: seq<unit>, i: nat)
    requires i < |units| && (IsHigh(units[i]) || IsLow(units[i])) && !PairAt(units, i)
    ensures CharAt(units, i) == (0xfffd, 1)
  {
  }

  /** Every sequence of code units is read back, unpaired surrogates included. */
  lemma {:induction false} UnitsBack(p: seq<byte>, units: seq<unit>)
    ensures Units(p + EncodeUnits(units), |p|) == units
    decreases units
  {
    var bytes := p + EncodeUnits(units);
    if units != [] {
      var (head, tail) := (EncodeUnit(units[0]), EncodeUnits(units[1..]));
      assert bytes == p + head + tail;
      UnitBack(p, units[0], bytes);
      UnitsBack(p + head, units[1..]);
    }
  }

  lemma CharBack(p: seq<unit>, c: scalar, units: seq<unit>)
    requires p + Surrogates(c) <= units
    ensures CharAt(units, |p|) == (c, |Surrogates(c)|)
  {
    var head := Surrogates(c);
    assert forall k :: 0 <= k < |head| ==> units[|p| + k] == (p + head)[|p| + k] == head[k];
  }

  lemma {:induction false} CharsBack(p: seq<unit>, s: seq<scalar>)
    ensures Chars(p + Utf16(s), |p|) == s
    decreases s
  {
    if s != [] {
      var (head, tail) := (Surrogates(s[0]), Utf16(s[1..]));
      assert p + Utf16(s) == p + head + tail;
      CharBack(p, s[0], p + head + tail);
      CharsBack(p + head, s[1..]);
    }
  }

  /** Decoding gives back every string. */
  lemma RoundTrip(s: seq<scalar>)
    ensures Chars(Units(Encode(s), 0), 0) == s
  {
    UnitsBack([], Utf16(s));
    CharsBack([], s);
    assert [] + EncodeUnits(Utf16(s)) == Encode(s);
    assert [] + Utf16(s) == Utf16(s);
  }

  /** No encoded string has a zero byte. */
  lemma {:induction false} NoZeroByte(units: seq<unit>, k: nat)
    requires k < |EncodeUnits(units)|
    ensures EncodeUnits(units)[k] != 0
    decreases units
  {
    var head := EncodeUnit(units[0]);
    if k >= |head| { NoZeroByte(units[1..], k - |head|); }
  }

  /** Where a Java string comes back as it was: exactly when each surrogate in it is half
      of a pair. */
  ghost predicate Paired(units: seq<unit>, i: nat)
    requires i <= |units|
    decreases |units| - i
  {
    i == |units| || (if PairAt(units, i) then Paired(units, i + 2)
                     else !IsHigh(units[i]) && !IsLow(units[i]) && Paired(units, i + 1))
  }

  lemma Cancel<T>(a: seq<T>, b: seq<T>, c: seq<T>)
    ensures a + b == a + c <==> b == c
  {
    if a + b == a + c {
      assert b == (a + b)[|a|..] == (a + c)[|a|..] == c;
    }
  }

  /** The units a character was read from are its units again, unless it was a lone
      surrogate. */
  lemma SurrogatesBack(units: seq<unit>, i: nat)
    requires i < |units|
    ensures var (c, n) := CharAt(units, i);
      if PairAt(units, i) then n == 2 && Surrogates(c) == units[i..i + n]
      else if IsHigh(units[i]) || IsLow(units[i]) then n == 1 && Surrogates(c)[0] != units[i]
      else n == 1 && Surrogates(c) == units[i..i + n]
  {
    if PairAt(units, i) {
      assert units[i..i + 2] == [units[i], units[i + 1]];
    } else {
      assert units[i..i + 1] == [units[i]];
    }
  }

  lemma Utf16Next(c: scalar, rest: seq<scalar>)
    ensures Utf16([c] + rest) == Surrogates(c) + Utf16(rest)
  {
    assert ([c] + rest)[1..] == rest;
  }

  lemma Suffix<T>(s: seq<T>, i: nat, n: nat)
    requires i + n <= |s|
    ensures s[i..] == s[i..i + n] + s[i + n..]
  {
  }

  lemma {:induction false} ReencodeIff(units: seq<unit>, i: nat)
    requires i <= |units|
    ensures Utf16(Chars(units, i)) == units[i..] <==> Paired(units, i)
    decreases |units| - i
  {
    if i < |units| {
      var (c, n) := CharAt(units, i);
      ReencodeIff(units, i + n);
      SurrogatesBack(units, i);
      Utf16Next(c, Chars(units, i + n));
      ReencodeStep(units, i, c, n, Utf16(Chars(units, i + n)));
    }
  }

  lemma ReencodeStep(units: seq<unit>, i: nat, c: scalar, n: nat, rest: seq<unit>)
    requires i < |units| && (c, n) == CharAt(units, i)
    ensures Surrogates(c) + rest == units[i..] <==>
      (PairAt(units, i) || (!IsHigh(units[i]) && !IsLow(units[i]))) && rest == units[i + n..]
  {
    SurrogatesBack(units, i);
    Suffix(units, i, n);
    if PairAt(units, i) || (!IsHigh(units[i]) && !IsLow(units[i])) {
      Cancel(Surrogates(c), rest, units[i + n..]);
    } else {
      assert (Surrogates(c) + rest)[0] != units[i..][0];
    }
  }
}
