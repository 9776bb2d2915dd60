/** Base-128 varints: the decoding loop over 64-bit words, and the encoding it inverts. */
module Varint {
  import opened ByteStrings

  function Pow2(n: nat): nat { if n == 0 then 1 else 2 * Pow2(n - 1) }

  lemma {:induction false} Pow2Adds(m: nat, n: nat)
    ensures Pow2(m + n) == Pow2(m) * Pow2(n)
  {
    if m > 0 {
      Pow2Adds(m - 1, n);
      Doubled(Pow2(m - 1), Pow2(n));
    }
  }

  lemma Doubled(a: int, b: int)
    ensures 2 * (a * b) == (2 * a) * b
  {
  }

  lemma Pow2Literals()
    ensures Pow2(7) == 128 && Pow2(56) == 0x100_0000_0000_0000 && Pow2(63) == TWO63 && Pow2(64) == TWO64
  {
    assert Pow2(8) == 256;
    Pow2Adds(8, 8);
    Pow2Adds(16, 16);
    Pow2Adds(16, 8);
    Pow2Adds(32, 24);
    Pow2Adds(56, 7);
  }

  // ----- the 64-bit operations of the loop, on naturals -----

  /** Bitwise or. */
  function Or(a: nat, b: nat): nat
    decreases a + b
  {
    if a == 0 then b else if b == 0 then a
    else (if a % 2 == 1 || b % 2 == 1 then 1 else 0) + 2 * Or(a / 2, b / 2)
  }

  function ShiftLeft64(v: nat, s: nat): nat { (v * Pow2(s)) % TWO64 }

  /** Oring in bits above all those of x is addition. */
  lemma {:induction false} OrAboveIsAddition(x: nat, y: nat, s: nat)
    requires x < Pow2(s)
    ensures Or(x, y * Pow2(s)) == x + y * Pow2(s)
  {
    if s > 0 && x > 0 && y > 0 {
      var h := y * Pow2(s - 1);
      assert y * Pow2(s) == 2 * h;
      OrAboveIsAddition(x / 2, y, s - 1);
      assert Or(x, 2 * h) == x % 2 + 2 * Or(x / 2, h);
    }
  }

  // ----- what a varint means -----

  /** The number written by the 7-bit groups of b, least significant first. */
  function GroupsValue(b: Bytes): nat {
    if b == [] then 0 else b[0] % 128 + 128 * GroupsValue(b[1..])
  }

  /** The length of the leading run of bytes that announce a further group. */
  function RunLength(data: Bytes): (n: nat)
    ensures n <= |data| && (forall i :: 0 <= i < n ==> data[i] >= 128) && (n < |data| ==> data[n] < 128)
  {
    if data == [] || data[0] < 128 then 0 else 1 + RunLength(data[1..])
  }

  datatype Decoded = Value(v: nat, size: nat) | ShortBuffer | Malformed

  /** A varint is at most ten groups, taken modulo 2^64. */
  function Decode(data: Bytes): (r: Decoded)
    ensures r.Value? ==> 0 < r.size <= |data| && r.v < TWO64
  {
    var n := RunLength(data);
    if n < |data| && n < 10 then Value(GroupsValue(data[..n + 1]) % TWO64, n + 1)
    else if |data| <= 10 then ShortBuffer
    else Malformed
  }

  lemma Pow2OfNextGroup(n: nat)
    ensures Pow2(7 * (n + 1)) == 128 * Pow2(7 * n)
  {
    Pow2Adds(7, 7 * n);
    assert Pow2(7) == 128 by { Pow2Literals(); }
  }

  lemma Regroup(b0: int, v: int, g: int, p: int)
    ensures b0 + 128 * (v + g * p) == (b0 + 128 * v) + g * (128 * p)
  {
  }

  lemma {:induction false} GroupsValueSnoc(b: Bytes, c: byte)
    ensures GroupsValue(b + [c]) == GroupsValue(b) + (c % 128) * Pow2(7 * |b|)
  {
    if b == [] {
      assert [c][1..] == [] && [] + [c] == [c];
    } else {
      var n := |b| - 1;
      GroupsValueSnoc(b[1..], c);
      assert (b + [c])[1..] == b[1..] + [c];
      Pow2OfNextGroup(n);
      Regroup(b[0] % 128, GroupsValue(b[1..]), c % 128, Pow2(7 * n));
    }
  }

  lemma {:induction false} GroupsValueBound(b: Bytes)
    ensures GroupsValue(b) < Pow2(7 * |b|)
  {
    if b != [] {
      GroupsValueBound(b[1..]);
      Pow2OfNextGroup(|b| - 1);
    }
  }

  lemma LowBits(x: nat, g: nat, p: nat)
    requires x < p <= 0x100_0000_0000_0000 && g < 128
    ensures (g * p) % TWO64 == g * p && (x + g * p) % TWO64 == x + g * p
  {
    assert g * p <= 127 * p;
  }

  /** In the tenth group only one bit is left. */
  lemma TopBit(x: nat, g: nat, p: nat)
    requires x < p == TWO63
    ensures (g * p) % TWO64 == (g % 2) * p && (x + g * p) % TWO64 == x + (g % 2) * p
  {
    assert g * p == (g / 2) * TWO64 + (g % 2) * p;
  }

  lemma OrInAt(x: nat, g: nat, s: nat, y: nat)
    requires (Pow2(s) <= 0x100_0000_0000_0000 || Pow2(s) == TWO63) && x < Pow2(s) && g < 128
    requires y == x + g * Pow2(s)
    ensures Or(x, ShiftLeft64(g, s)) == y % TWO64
  {
    var p := Pow2(s);
    if p <= 0x100_0000_0000_0000 {
      LowBits(x, g, p);
      OrAboveIsAddition(x, g, s);
    } else {
      TopBit(x, g, p);
      OrAboveIsAddition(x, g % 2, s);
    }
  }

  lemma ShiftPower(n: nat)
    requires n <= 9
    ensures Pow2(7 * n) <= 0x100_0000_0000_0000 || Pow2(7 * n) == TWO63
  {
    Pow2Literals();
    if n <= 8 {
      Pow2Monotone(7 * n, 56);
    }
  }

  /** One round of the loop: or the next group in at the current shift. */
  lemma OrInGroup(b: Bytes, c: byte)
    requires |b| <= 9
    ensures Or(GroupsValue(b), ShiftLeft64(c % 128, 7 * |b|)) == GroupsValue(b + [c]) % TWO64
  {
    GroupsValueSnoc(b, c);
    GroupsValueBound(b);
    ShiftPower(|b|);
    OrInAt(GroupsValue(b), c % 128, 7 * |b|, GroupsValue(b + [c]));
  }

  lemma {:induction false} Pow2Monotone(m: nat, n: nat)
    requires m <= n
    ensures Pow2(m) <= Pow2(n)
  {
    if m < n {
      Pow2Monotone(m, n - 1);
    }
  }

  // ----- the encoder -----

  function Encode(v: nat): (r: Bytes)
    ensures r != []
  {
    if v < 128 then [v] else [v % 128 + 128] + Encode(v / 128)
  }

  lemma {:induction false} EncodeLength(v: nat, k: nat)
    requires k > 0 && v < Pow2(7 * k)
    ensures |Encode(v)| <= k
  {
    Pow2Literals();
    if v >= 128 {
      assert k > 1;
      Pow2Adds(7, 7 * (k - 1));
      EncodeLength(v / 128, k - 1);
    }
  }

  lemma {:induction false} EncodeValue(v: nat)
    ensures GroupsValue(Encode(v)) == v
  {
    if v < 128 {
      assert [v][1..] == [];
    } else {
      EncodeValue(v / 128);
      assert Encode(v)[1..] == Encode(v / 128);
    }
  }

  lemma {:induction false} EncodeRun(v: nat, rest: Bytes)
    ensures RunLength(Encode(v) + rest) == |Encode(v)| - 1
  {
    if v >= 128 {
      EncodeRun(v / 128, rest);
      assert (Encode(v) + rest)[1..] == Encode(v / 128) + rest;
    }
  }

  lemma EncodeFits(v: nat)
    requires v < TWO64
    ensures |Encode(v)| <= 10
  {
    Pow2Literals();
    Pow2Monotone(64, 70);
    EncodeLength(v, 10);
  }

  /** Decoding inverts encoding for every uint64. */
  lemma DecodeInvertsEncode(v: nat, rest: Bytes)
    requires v < TWO64
    ensures Decode(Encode(v) + rest) == Value(v, |Encode(v)|)
  {
    EncodeFits(v);
    EncodeValue(v);
    EncodeRun(v, rest);
    assert (Encode(v) + rest)[..|Encode(v)|] == Encode(v);
  }

  /** A strict prefix of an encoding is a short buffer. */
  lemma DecodeOfPrefix(v: nat, p: nat)
    requires v < TWO64 && p < |Encode(v)|
    ensures Decode(Encode(v)[..p]) == ShortBuffer
  {
    EncodeFits(v);
    EncodeRun(v, []);
    assert Encode(v) + [] == Encode(v);
    var n := RunLength(Encode(v));
    assert n == |Encode(v)| - 1;
    assert forall i :: 0 <= i < p ==> Encode(v)[..p][i] == Encode(v)[i] >= 128;
  }

  /** Decoding fails exactly on a run of continuation bytes: a short buffer if up to ten bytes are all
      there is, malformed if ten come first and more follow. */
  lemma DecodeFails(data: Bytes)
    ensures Decode(data) == ShortBuffer <==> |data| <= 10 && forall i :: 0 <= i < |data| ==> data[i] >= 128
    ensures Decode(data) == Malformed <==> |data| > 10 && forall i :: 0 <= i < 10 ==> data[i] >= 128
  {
    var n := RunLength(data);
    assert n < |data| ==> data[n] < 128;
  }

  /** Only a varint of ten bytes can denote a number of 2^63 or more. */
  lemma HugeNeedsTenBytes(data: Bytes)
    requires Decode(data).Value? && Decode(data).v >= TWO63
    ensures Decode(data).size == 10
  {
    var n := Decode(data).size;
    GroupsValueBound(data[..n]);
    if n < 10 {
      Pow2Literals();
      Pow2Monotone(7 * n, 63);
    }
  }
}
