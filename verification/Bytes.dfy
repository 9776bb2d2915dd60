/** Byte strings and the three text formats the program stores in them:
    little-endian 64-bit words, decimal numbers and UTF-8 text. */
module ByteStrings {
  import opened Seqs

  datatype Option<+T> = None | Some(value: T)

  type byte = x: int | 0 <= x < 256
  type Bytes = seq<byte>

  const TWO64: int := 0x1_0000_0000_0000_0000
  const TWO63: int := 0x8000_0000_0000_0000

  // ----- little-endian words -----

  function LittleEndian(v: nat, n: nat): (r: Bytes)
    ensures |r| == n
  {
    if n == 0 then [] else [v % 256] + LittleEndian(v / 256, n - 1)
  }

  function LittleEndianValue(b: Bytes): nat {
    if b == [] then 0 else b[0] + 256 * LittleEndianValue(b[1..])
  }

  function Pow256(n: nat): nat {
    if n == 0 then 1 else 256 * Pow256(n - 1)
  }

  lemma {:induction false} LittleEndianRoundTrip(v: nat, n: nat)
    requires v < Pow256(n)
    ensures LittleEndianValue(LittleEndian(v, n)) == v
  {
    if n > 0 {
      assert v / 256 < Pow256(n - 1);
      LittleEndianRoundTrip(v / 256, n - 1);
      assert LittleEndian(v, n)[1..] == LittleEndian(v / 256, n - 1);
    }
  }

  lemma {:induction false} LittleEndianValueBound(b: Bytes)
    ensures LittleEndianValue(b) < Pow256(|b|)
  {
    if b != [] {
      LittleEndianValueBound(b[1..]);
    }
  }

  lemma Pow256Of8()
    ensures Pow256(8) == TWO64
  {
    assert Pow256(2) == 0x1_0000;
    assert Pow256(4) == 0x1_0000_0000;
    assert Pow256(6) == 0x1_0000_0000_0000;
  }

  /** binary.LittleEndian.PutUint64 */
  function PutUint64(v: nat): (r: Bytes)
    requires v < TWO64
    ensures |r| == 8
  {
    LittleEndian(v, 8)
  }

  /** binary.LittleEndian.Uint64 */
  function Uint64(b: Bytes): (v: nat)
    requires |b| == 8
    ensures v < TWO64
  {
    LittleEndianValueBound(b);
    Pow256Of8();
    LittleEndianValue(b)
  }

  lemma Uint64RoundTrip(v: nat)
    requires v < TWO64
    ensures Uint64(PutUint64(v)) == v
  {
    Pow256Of8();
    LittleEndianRoundTrip(v, 8);
  }

  /** The byte at position i weighs 256^i: least significant first. */
  lemma Uint64IsLittleEndian(b: Bytes)
    requires |b| == 8
    ensures Uint64(b) == b[0] as int + 0x100 * b[1] as int + 0x1_0000 * b[2] as int + 0x100_0000 * b[3] as int
                         + 0x1_0000_0000 * b[4] as int + 0x100_0000_0000 * b[5] as int
                         + 0x1_0000_0000_0000 * b[6] as int + 0x100_0000_0000_0000 * b[7] as int
  {
    FourBytes(b);
    FourBytes(b[4..]);
  }

  lemma FourBytes(b: Bytes)
    requires |b| >= 4
    ensures LittleEndianValue(b)
         == b[0] as int + 0x100 * b[1] as int + 0x1_0000 * b[2] as int + 0x100_0000 * b[3] as int
            + 0x1_0000_0000 * LittleEndianValue(b[4..])
  {
    assert b[1..][1..] == b[2..] && b[2..][1..] == b[3..] && b[3..][1..] == b[4..];
    var v4 := LittleEndianValue(b[4..]);
    var v3 := LittleEndianValue(b[3..]);
    assert v3 == 256 * v4 + b[3];
    var v2 := LittleEndianValue(b[2..]);
    assert v2 == 256 * v3 + b[2];
    var v1 := LittleEndianValue(b[1..]);
    assert v1 == 256 * v2 + b[1];
  }

  lemma {:induction false} LittleEndianOfValue(b: Bytes)
    ensures LittleEndian(LittleEndianValue(b), |b|) == b
  {
    if b != [] {
      LittleEndianOfValue(b[1..]);
      assert b == [b[0]] + b[1..];
    }
  }

  /** Every eight bytes are the word they stand for, written out. */
  lemma PutUint64OfUint64(b: Bytes)
    requires |b| == 8
    ensures PutUint64(Uint64(b)) == b
  {
    LittleEndianOfValue(b);
  }

  // ----- decimal numbers -----

  predicate IsDigit(c: byte) { 48 <= c <= 57 }

  predicate AllDigits(b: Bytes) { forall i :: 0 <= i < |b| ==> IsDigit(b[i]) }

  /** fmt.Sprintf("%d", n) */
  function Decimal(n: nat): (r: Bytes)
    ensures r != [] && AllDigits(r)
  {
    if n < 10 then [48 + n] else Decimal(n / 10) + [48 + n % 10]
  }

  function DigitsValue(b: Bytes): nat
    requires AllDigits(b)
  {
    if b == [] then 0 else DigitsValue(b[..|b| - 1]) * 10 + (b[|b| - 1] - 48)
  }

  lemma {:induction false} DecimalRoundTrip(n: nat)
    ensures DigitsValue(Decimal(n)) == n
  {
    if n >= 10 {
      DecimalRoundTrip(n / 10);
      assert Decimal(n)[..|Decimal(n)| - 1] == Decimal(n / 10);
    } else {
      assert Decimal(n)[..0] == [];
    }
  }

  /** No leading zeros. */
  lemma {:induction false} DecimalIsCanonical(n: nat)
    ensures n == 0 ==> Decimal(n) == [48]
    ensures n > 0 ==> Decimal(n)[0] != 48
  {
    if n >= 10 {
      DecimalIsCanonical(n / 10);
    }
  }

  lemma DecimalInjective(m: nat, n: nat)
    requires Decimal(m) == Decimal(n)
    ensures m == n
  {
    DecimalRoundTrip(m);
    DecimalRoundTrip(n);
  }

  /** strconv.ParseUint(s, 10, 64): digits only, and within 64 bits. */
  function ParseUint(b: Bytes): (r: Option<nat>)
    ensures r.Some? ==> r.value < TWO64
  {
    if b == [] || !AllDigits(b) || DigitsValue(b) >= TWO64 then None else Some(DigitsValue(b))
  }

  lemma ParseUintInvertsDecimal(n: nat)
    requires n < TWO64
    ensures ParseUint(Decimal(n)) == Some(n)
  {
    DecimalRoundTrip(n);
  }

  lemma {:induction false} DigitsValueCons(d: byte, b: Bytes)
    requires IsDigit(d) && AllDigits(b)
    ensures AllDigits([d] + b) && DigitsValue([d] + b) == (d - 48) * Pow10(|b|) + DigitsValue(b)
  {
    var n := |b| - 1;
    if b == [] {
      assert [d][..0] == [];
    } else {
      DigitsValueCons(d, b[..n]);
      assert ([d] + b)[..|[d] + b| - 1] == [d] + b[..n];
      assert 10 * ((d - 48) * Pow10(n)) == (d - 48) * Pow10(n + 1);
    }
  }

  function Pow10(n: nat): nat { if n == 0 then 1 else 10 * Pow10(n - 1) }

  function Zeros(k: nat): (r: Bytes)
    ensures |r| == k && forall i :: 0 <= i < k ==> r[i] == 48
  {
    seq(k, _ => 48)
  }

  /** d writes n in decimal, with or without leading zeros. */
  ghost predicate IsNumeral(d: Bytes, n: nat) { exists k :: d == Zeros(k) + Decimal(n) }

  lemma {:induction false} NumeralHasValue(k: nat, n: nat)
    ensures AllDigits(Zeros(k) + Decimal(n)) && DigitsValue(Zeros(k) + Decimal(n)) == n
  {
    if k == 0 {
      DecimalRoundTrip(n);
      assert Zeros(0) + Decimal(n) == Decimal(n);
    } else {
      var tail := Zeros(k - 1) + Decimal(n);
      NumeralHasValue(k - 1, n);
      DigitsValueCons(48, tail);
      assert Zeros(k) + Decimal(n) == [48] + tail;
    }
  }

  lemma DecimalSnoc(v: nat, x: nat)
    requires v > 0 && x < 10
    ensures Decimal(10 * v + x) == Decimal(v) + [48 + x]
  {
    assert (10 * v + x) / 10 == v && (10 * v + x) % 10 == x;
  }

  lemma ZeroSnoc(k: nat, x: nat)
    requires x < 10
    ensures Zeros(k) + Decimal(0) + [48 + x] == Zeros(k + 1) + Decimal(x)
  {
    assert Decimal(0) == [48] && Decimal(x) == [48 + x];
  }

  lemma NumeralSnoc(k: nat, v: nat, x: nat)
    requires x < 10
    ensures IsNumeral(Zeros(k) + Decimal(v) + [48 + x], 10 * v + x)
  {
    if v == 0 {
      ZeroSnoc(k, x);
    } else {
      DecimalSnoc(v, x);
      ConcatAssoc(Zeros(k), Decimal(v), [48 + x]);
    }
  }

  lemma {:induction false} DigitsAreNumeral(d: Bytes)
    requires d != [] && AllDigits(d)
    ensures IsNumeral(d, DigitsValue(d))
  {
    var n := |d| - 1;
    if n == 0 {
      assert d[..0] == [];
      assert d == Zeros(0) + Decimal(d[0] - 48);
    } else {
      DigitsAreNumeral(d[..n]);
      var k: nat :| d[..n] == Zeros(k) + Decimal(DigitsValue(d[..n]));
      NumeralSnoc(k, DigitsValue(d[..n]), d[n] - 48);
      assert d == d[..n] + [d[n]];
    }
  }

  /** The texts that denote n are its decimal with any number of leading zeros. */
  lemma NumeralIsExact(d: Bytes, n: nat)
    ensures IsNumeral(d, n) <==> d != [] && AllDigits(d) && DigitsValue(d) == n
  {
    if k: nat :| d == Zeros(k) + Decimal(n) {
      NumeralHasValue(k, n);
    }
    if d != [] && AllDigits(d) {
      DigitsAreNumeral(d);
    }
  }

  // ----- UTF-8 text, as section 4 of RFC 3629 defines it -----

  predicate Continuation(b: Bytes, i: nat) { i < |b| && 0x80 <= b[i] <= 0xBF }

  /** The length of the well-formed character b starts with, 0 if there is none. */
  function RuneLength(b: Bytes): (n: nat)
    ensures n <= |b|
  {
    if b == [] then 0
    else if b[0] < 0x80 then 1
    else if 0xC2 <= b[0] <= 0xDF && Continuation(b, 1) then 2
    else if 0xE0 <= b[0] <= 0xEF && Continuation(b, 1) && Continuation(b, 2)
            && (b[0] == 0xE0 ==> 0xA0 <= b[1]) && (b[0] == 0xED ==> b[1] <= 0x9F) then 3
    else if 0xF0 <= b[0] <= 0xF4 && Continuation(b, 1) && Continuation(b, 2) && Continuation(b, 3)
            && (b[0] == 0xF0 ==> 0x90 <= b[1]) && (b[0] == 0xF4 ==> b[1] <= 0x8F) then 4
    else 0
  }

  /** The Unicode scalar values: code points other than the surrogates. */
  predicate Scalar(c: int) { 0 <= c < 0xD800 || 0xE000 <= c <= 0x10_FFFF }

  /** The encoding of a character. */
  function RuneBytes(c: int): Bytes
    requires Scalar(c)
  {
    if c < 0x80 then [c]
    else if c < 0x800 then [0xC0 + c / 64, 0x80 + c % 64]
    else if c < 0x1_0000 then [0xE0 + c / 4096, 0x80 + c / 64 % 64, 0x80 + c % 64]
    else [0xF0 + c / 262144, 0x80 + c / 4096 % 64, 0x80 + c / 64 % 64, 0x80 + c % 64]
  }

  lemma RuneLengthOfRune(c: int, rest: Bytes)
    requires Scalar(c)
    ensures RuneLength(RuneBytes(c) + rest) == |RuneBytes(c)|
  {
    var r := RuneBytes(c);
    assert forall i :: 0 <= i < |r| ==> (r + rest)[i] == r[i];
    if c >= 0x1_0000 {
      assert 0 <= c / 4096 % 64 < 64 && 0 <= c / 64 % 64 < 64 && 0 <= c % 64 < 64 && 0 <= c / 262144 <= 4;
    }
  }

  lemma RuneOfTwo(w: int, x: int)
    requires 2 <= w < 32 && 0 <= x < 64
    ensures RuneBytes(64 * w + x) == [0xC0 + w, 0x80 + x]
  {
  }

  lemma RuneOfThree(w: int, x: int, y: int)
    requires 0 <= w < 16 && 0 <= x < 64 && 0 <= y < 64 && (w == 0 ==> x >= 32) && (w == 13 ==> x < 32)
    ensures Scalar(4096 * w + 64 * x + y) && RuneBytes(4096 * w + 64 * x + y) == [0xE0 + w, 0x80 + x, 0x80 + y]
  {
    var c := 4096 * w + 64 * x + y;
    assert c / 4096 == w && c / 64 == 64 * w + x && c % 64 == y;
    assert (64 * w + x) % 64 == x;
  }

  lemma RuneOfFour(w: int, x: int, y: int, z: int)
    requires 0 <= w <= 4 && 0 <= x < 64 && 0 <= y < 64 && 0 <= z < 64 && (w == 0 ==> x >= 16) && (w == 4 ==> x < 16)
    ensures Scalar(262144 * w + 4096 * x + 64 * y + z)
    ensures RuneBytes(262144 * w + 4096 * x + 64 * y + z) == [0xF0 + w, 0x80 + x, 0x80 + y, 0x80 + z]
  {
    var c := 262144 * w + 4096 * x + 64 * y + z;
    assert c / 262144 == w && c / 4096 == 64 * w + x && c / 64 == 64 * (64 * w + x) + y && c % 64 == z;
    assert (64 * w + x) % 64 == x && (64 * (64 * w + x) + y) % 64 == y;
  }

  /** The character that a well-formed sequence of bytes stands for. */
  lemma RuneOfBytes(b: Bytes) returns (c: int)
    requires RuneLength(b) > 0
    ensures Scalar(c) && b[..RuneLength(b)] == RuneBytes(c)
  {
    var n := RuneLength(b);
    var w: int := b[0];
    if n == 1 {
      return w;
    }
    w := w - (if n == 2 then 0xC0 else if n == 3 then 0xE0 else 0xF0);
    var x: int := b[1];
    x := x - 0x80;
    if n == 2 {
      RuneOfTwo(w, x);
      return 64 * w + x;
    }
    var y: int := b[2];
    y := y - 0x80;
    if n == 3 {
      RuneOfThree(w, x, y);
      return 4096 * w + 64 * x + y;
    }
    var z: int := b[3];
    z := z - 0x80;
    RuneOfFour(w, x, y, z);
    return 262144 * w + 4096 * x + 64 * y + z;
  }

  predicate ValidUtf8(b: Bytes)
    decreases |b|
  {
    b == [] || (RuneLength(b) > 0 && ValidUtf8(b[RuneLength(b)..]))
  }

  ghost predicate AllScalars(cs: seq<int>) { forall i :: 0 <= i < |cs| ==> Scalar(cs[i]) }

  function Utf8(cs: seq<int>): Bytes
    requires AllScalars(cs)
  {
    if cs == [] then [] else RuneBytes(cs[0]) + Utf8(cs[1..])
  }

  lemma {:induction false} Utf8IsValid(cs: seq<int>)
    requires AllScalars(cs)
    ensures ValidUtf8(Utf8(cs))
  {
    if cs != [] {
      Utf8IsValid(cs[1..]);
      RuneLengthOfRune(cs[0], Utf8(cs[1..]));
      DropOfConcat(RuneBytes(cs[0]), Utf8(cs[1..]));
    }
  }

  /** Valid UTF-8 is exactly what encodes some characters. */
  lemma {:induction false} ValidIsUtf8(b: Bytes) returns (cs: seq<int>)
    requires ValidUtf8(b)
    ensures AllScalars(cs) && Utf8(cs) == b
    decreases |b|
  {
    cs := [];
    if b != [] {
      var n := RuneLength(b);
      var c := RuneOfBytes(b);
      var rest := ValidIsUtf8(b[n..]);
      cs := [c] + rest;
      Utf8Cons(c, rest);
      TakeDrop(b, n);
    }
  }

  lemma Utf8Cons(c: int, cs: seq<int>)
    requires Scalar(c) && AllScalars(cs)
    ensures AllScalars([c] + cs) && Utf8([c] + cs) == RuneBytes(c) + Utf8(cs)
  {
    assert ([c] + cs)[1..] == cs;
  }

  lemma {:induction false} AsciiIsValidUtf8(b: Bytes)
    requires forall i :: 0 <= i < |b| ==> b[i] < 0x80
    ensures ValidUtf8(b)
  {
    if b != [] {
      AsciiIsValidUtf8(b[1..]);
    }
  }

  /** The byte 0xFF occurs in no UTF-8 text. */
  lemma {:induction false} ValidUtf8HasNoFF(b: Bytes)
    requires ValidUtf8(b)
    ensures 0xFF !in b
    decreases |b|
  {
    if b != [] {
      var n := RuneLength(b);
      ValidUtf8HasNoFF(b[n..]);
      assert b == b[..n] + b[n..];
      assert forall i :: 0 <= i < n ==> b[..n][i] != 0xFF;
    }
  }
}
