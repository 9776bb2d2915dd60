/** The iterator over a serialized RocksDB write batch, and the record encoding it parses. */
module WriteBatch {
  import opened ByteStrings
  import opened Seqs
  import V = Varint

  datatype Error = ShortBuffer | MalformedVarint | UnsupportedType

  datatype Record = Record(kind: byte, cf: int, key: Bytes, value: Bytes)

  // ----- the record types -----

  predicate HasFamily(t: byte) {
    t == 0x4 || t == 0x8 || t == 0x5 || t == 0xE || t == 0x6 || t == 0x10
  }

  predicate HasKey(t: byte) {
    t == 0x0 || t == 0x7 || t == 0x1 || t == 0x2 || t == 0xF || t == 0x11 || HasFamily(t)
  }

  predicate HasValue(t: byte) {
    || t == 0x1 || t == 0x2 || t == 0xF || t == 0x11 || t == 0x5 || t == 0xE || t == 0x6 || t == 0x10
    || t == 0x3 || t == 0xA || t == 0xB || t == 0xC
  }

  predicate Supported(t: byte) { HasKey(t) || HasValue(t) || t == 0xD || t == 0x9 || t == 0x12 }

  // ----- parsing, field by field -----

  /** A parse step: a value and the bytes left, an error, or a Go run-time panic. */
  datatype Parse<T> = Got(value: T, rest: Bytes) | Failed(error: Error, rest: Bytes) | Crashed

  /** The two's-complement conversion int(v). */
  function ToInt64(v: nat): int { if v < TWO63 then v else v - TWO64 }

  function ParseVarint(data: Bytes): Parse<nat> {
    match V.Decode(data)
    case Value(v, n) => Got(v, data[n..])
    case ShortBuffer => Failed(ShortBuffer, data)
    case Malformed => Failed(MalformedVarint, data)
  }

  /** A length-prefixed string. A length of 2^63 or more turns negative, passes the bounds
      check, and the slice expression panics. */
  function ParseSlice(data: Bytes): Parse<Bytes> {
    match ParseVarint(data)
    case Got(v, rest) =>
      if v >= TWO63 then Crashed
      else if v > |rest| then Failed(ShortBuffer, rest)
      else Got(rest[..v], rest[v..])
    case Failed(e, rest) => Failed(e, rest)
    case Crashed => Crashed
  }

  function ParseValue(r: Record, data: Bytes): Parse<Record> {
    if !HasValue(r.kind) then Got(r, data)
    else match ParseSlice(data)
      case Got(s, rest) => Got(r.(value := s), rest)
      case Failed(e, rest) => Failed(e, rest)
      case Crashed => Crashed
  }

  function ParseKey(r: Record, data: Bytes): Parse<Record> {
    if !HasKey(r.kind) then ParseValue(r, data)
    else match ParseSlice(data)
      case Got(s, rest) => ParseValue(r.(key := s), rest)
      case Failed(e, rest) => Failed(e, rest)
      case Crashed => Crashed
  }

  function ParseFamily(r: Record, data: Bytes): Parse<Record> {
    if !HasFamily(r.kind) then ParseKey(r, data)
    else match ParseVarint(data)
      case Got(v, rest) => ParseKey(r.(cf := ToInt64(v)), rest)
      case Failed(e, rest) => Failed(e, rest)
      case Crashed => Crashed
  }

  function ParseRecord(data: Bytes): Parse<Record>
    requires data != []
  {
    if !Supported(data[0]) then Failed(UnsupportedType, data[1..])
    else ParseFamily(Record(data[0], 0, [], []), data[1..])
  }

  /** rest is what is left of data after some of it was read. */
  ghost predicate SuffixOf(rest: Bytes, data: Bytes) {
    |rest| <= |data| && rest == data[|data| - |rest|..]
  }

  lemma SuffixTransitive(a: Bytes, b: Bytes, c: Bytes)
    requires SuffixOf(a, b) && SuffixOf(b, c)
    ensures SuffixOf(a, c)
  {
  }

  lemma ParseSliceSuffix(data: Bytes)
    ensures !ParseSlice(data).Crashed? ==> SuffixOf(ParseSlice(data).rest, data)
  {
    if ParseVarint(data).Got? {
      var rest := ParseVarint(data).rest;
      assert SuffixOf(rest, data);
      if V.Decode(data).v <= |rest| && V.Decode(data).v < TWO63 {
        SuffixTransitive(rest[V.Decode(data).v..], rest, data);
      }
    }
  }

  lemma ParseKeySuffix(r: Record, data: Bytes)
    ensures !ParseKey(r, data).Crashed? ==> SuffixOf(ParseKey(r, data).rest, data)
  {
    ParseSliceSuffix(data);
    if HasKey(r.kind) && HasValue(r.kind) && ParseSlice(data).Got? {
      var rest := ParseSlice(data).rest;
      ParseSliceSuffix(rest);
      if !ParseSlice(rest).Crashed? { SuffixTransitive(ParseSlice(rest).rest, rest, data); }
    }
  }

  lemma ParseFamilySuffix(r: Record, data: Bytes)
    ensures !ParseFamily(r, data).Crashed? ==> SuffixOf(ParseFamily(r, data).rest, data)
  {
    if !HasFamily(r.kind) {
      ParseKeySuffix(r, data);
    } else if ParseVarint(data).Got? {
      var rest := ParseVarint(data).rest;
      var r1 := r.(cf := ToInt64(ParseVarint(data).value));
      ParseKeySuffix(r1, rest);
      if !ParseKey(r1, rest).Crashed? { SuffixTransitive(ParseKey(r1, rest).rest, rest, data); }
    }
  }

  /** On any bytes, a record parse leaves a strict suffix. */
  lemma ParseRecordSuffix(data: Bytes)
    requires data != []
    ensures !ParseRecord(data).Crashed? ==>
              SuffixOf(ParseRecord(data).rest, data) && |ParseRecord(data).rest| < |data|
  {
    ParseFamilySuffix(Record(data[0], 0, [], []), data[1..]);
    assert SuffixOf(data[1..], data);
    if !ParseRecord(data).Crashed? {
      SuffixTransitive(ParseRecord(data).rest, data[1..], data);
    }
  }

  // ----- a whole iteration -----

  /** How `for iter.Next()` goes: the records seen, and how it ended. */
  datatype Ending = Clean | Error(error: Error) | Panicked

  function Iterate(data: Bytes): (r: (seq<Record>, Ending))
    decreases |data|
  {
    if data == [] then ([], Clean)
    else
      ParseRecordSuffix(data);
      match ParseRecord(data)
      case Got(rec, rest) => var (recs, e) := Iterate(rest); ([rec] + recs, e)
      case Failed(e, _) => ([], Ending.Error(e))
      case Crashed => ([], Panicked)
  }

  /** n bytes give at most n records. */
  lemma {:induction false} AtMostOneRecordPerByte(data: Bytes)
    ensures |Iterate(data).0| <= |data|
    decreases |data|
  {
    if data != [] && ParseRecord(data).Got? {
      ParseRecordSuffix(data);
      AtMostOneRecordPerByte(ParseRecord(data).rest);
    }
  }

  // ----- when iteration panics -----

  /** The length field at the head of data is 2^63 or more. */
  predicate HugeLength(data: Bytes) {
    V.Decode(data).Value? && V.Decode(data).v >= TWO63
  }

  /** What is behind the string at the head of data, if there is a whole one. */
  function SkipSlice(data: Bytes): Option<Bytes> {
    match V.Decode(data)
    case Value(v, n) => if v <= |data| - n then Some(data[n..][v..]) else None
    case _ => None
  }

  function SkipVarint(data: Bytes): Option<Bytes> {
    match V.Decode(data)
    case Value(_, n) => Some(data[n..])
    case _ => None
  }

  predicate HugeValue(t: byte, data: Bytes) { HasValue(t) && HugeLength(data) }

  /** The key or, behind a whole key, the value has a huge length. */
  predicate HugeKeyOrValue(t: byte, data: Bytes) {
    if !HasKey(t) then HugeValue(t, data)
    else HugeLength(data) || (SkipSlice(data).Some? && HugeValue(t, SkipSlice(data).value))
  }

  /** The record at the head of data reaches a key or value length of 2^63 or more. */
  predicate HugeRecord(data: Bytes)
    requires data != []
  {
    var t := data[0];
    Supported(t) &&
    if !HasFamily(t) then HugeKeyOrValue(t, data[1..])
    else SkipVarint(data[1..]).Some? && HugeKeyOrValue(t, SkipVarint(data[1..]).value)
  }

  /** Some record that iteration reaches has such a length. */
  predicate ReachesHuge(data: Bytes)
    decreases |data|
  {
    data != [] &&
    (HugeRecord(data)
     || (ParseRecordSuffix(data); ParseRecord(data).Got? && ReachesHuge(ParseRecord(data).rest)))
  }

  lemma SlicePanic(data: Bytes)
    ensures ParseSlice(data).Crashed? <==> HugeLength(data)
    ensures ParseSlice(data).Got? ==> SkipSlice(data) == Some(ParseSlice(data).rest)
    ensures SkipSlice(data).Some? && !HugeLength(data) ==> ParseSlice(data).Got?
  {
  }

  lemma KeyPanic(r: Record, data: Bytes)
    ensures ParseKey(r, data).Crashed? <==> HugeKeyOrValue(r.kind, data)
  {
    SlicePanic(data);
    if HasKey(r.kind) && ParseSlice(data).Got? {
      SlicePanic(ParseSlice(data).rest);
    }
  }

  lemma RecordPanic(data: Bytes)
    requires data != []
    ensures ParseRecord(data).Crashed? <==> HugeRecord(data)
  {
    var r := Record(data[0], 0, [], []);
    if !HasFamily(data[0]) {
      KeyPanic(r, data[1..]);
    } else if ParseVarint(data[1..]).Got? {
      KeyPanic(r.(cf := ToInt64(ParseVarint(data[1..]).value)), ParseVarint(data[1..]).rest);
    }
  }

  /** Iteration panics exactly when it reaches a record with a key or value length of 2^63 or
      more; on all other byte strings no slice goes out of range. */
  lemma {:induction false} PanicIsExact(data: Bytes)
    ensures Iterate(data).1 == Panicked <==> ReachesHuge(data)
    decreases |data|
  {
    if data != [] {
      RecordPanic(data);
      ParseRecordSuffix(data);
      if ParseRecord(data).Got? {
        PanicIsExact(ParseRecord(data).rest);
      }
    }
  }

  /** Nine bytes in a row that all announce a further group. */
  ghost predicate LongRunAt(data: Bytes, i: nat) {
    i + 9 <= |data| && forall j :: i <= j < i + 9 ==> data[j] >= 128
  }

  ghost predicate HasLongRun(data: Bytes) { exists i :: LongRunAt(data, i) }

  lemma HugeLengthIsLongRun(data: Bytes, rest: Bytes)
    requires SuffixOf(rest, data) && HugeLength(rest)
    ensures HasLongRun(data)
  {
    V.HugeNeedsTenBytes(rest);
    var i := |data| - |rest|;
    assert V.RunLength(rest) == 9;
    forall j | i <= j < i + 9 ensures data[j] >= 128 {
      assert data[j] == rest[j - i];
    }
    assert LongRunAt(data, i);
  }

  lemma HugeKeyOrValueIsLongRun(t: byte, data: Bytes, rest: Bytes)
    requires SuffixOf(rest, data) && HugeKeyOrValue(t, rest)
    ensures HasLongRun(data)
  {
    if HugeLength(rest) {
      HugeLengthIsLongRun(data, rest);
    } else {
      SlicePanic(rest);
      ParseSliceSuffix(rest);
      SuffixTransitive(ParseSlice(rest).rest, rest, data);
      HugeLengthIsLongRun(data, ParseSlice(rest).rest);
    }
  }

  /** So a panic needs nine continuation bytes in a row somewhere in the data. */
  lemma {:induction false} PanicNeedsLongRun(data: Bytes, rest: Bytes)
    requires ReachesHuge(rest) && SuffixOf(rest, data)
    ensures HasLongRun(data)
    decreases |rest|
  {
    if HugeRecord(rest) {
      var d1 := rest[1..];
      assert SuffixOf(d1, rest);
      SuffixTransitive(d1, rest, data);
      if HasFamily(rest[0]) {
        var d2 := SkipVarint(d1).value;
        assert SuffixOf(d2, d1);
        SuffixTransitive(d2, d1, data);
        HugeKeyOrValueIsLongRun(rest[0], data, d2);
      } else {
        HugeKeyOrValueIsLongRun(rest[0], data, d1);
      }
    } else {
      ParseRecordSuffix(rest);
      SuffixTransitive(ParseRecord(rest).rest, rest, data);
      PanicNeedsLongRun(data, ParseRecord(rest).rest);
    }
  }

  lemma IteratePanics(data: Bytes)
    requires data != [] && ParseRecord(data).Crashed?
    ensures Iterate(data).1 == Panicked
  {
  }

  /** And it does happen: a deletion record with any key length of 2^63 or more. */
  lemma HugeLengthPanics(n: nat, rest: Bytes)
    requires TWO63 <= n < TWO64
    ensures Iterate([0x0] + V.Encode(n) + rest).1 == Panicked
  {
    var tail := V.Encode(n) + rest;
    ConcatAssoc([0x0], V.Encode(n), rest);
    ParseTagged(0x0, tail);
    V.DecodeInvertsEncode(n, rest);
    IteratePanics([0x0] + tail);
  }

  // ----- the encoding -----

  /** A record the encoder accepts: fields the type does not have are empty, lengths and column
      family ids are 32-bit. */
  predicate WellFormed(r: Record) {
    && Supported(r.kind)
    && (if HasFamily(r.kind) then 0 <= r.cf < 0x1_0000_0000 else r.cf == 0)
    && (if HasKey(r.kind) then |r.key| < 0x1_0000_0000 else r.key == [])
    && (if HasValue(r.kind) then |r.value| < 0x1_0000_0000 else r.value == [])
  }

  function EncodeSlice(s: Bytes): Bytes { V.Encode(|s|) + s }

  function EncodeValue(r: Record): Bytes { if HasValue(r.kind) then EncodeSlice(r.value) else [] }

  function EncodeKeyField(r: Record): Bytes { if HasKey(r.kind) then EncodeSlice(r.key) else [] }

  function EncodeKey(r: Record): Bytes { EncodeKeyField(r) + EncodeValue(r) }

  function EncodeFamily(r: Record): Bytes
    requires WellFormed(r)
  {
    if HasFamily(r.kind) then V.Encode(r.cf) else []
  }

  function EncodeRecord(r: Record): (b: Bytes)
    requires WellFormed(r)
    ensures b != []
  {
    [r.kind] + (EncodeFamily(r) + EncodeKey(r))
  }

  predicate AllWellFormed(rs: seq<Record>) { forall i :: 0 <= i < |rs| ==> WellFormed(rs[i]) }

  function EncodeAll(rs: seq<Record>): Bytes
    requires AllWellFormed(rs)
  {
    if rs == [] then [] else EncodeRecord(rs[0]) + EncodeAll(rs[1..])
  }

  // ----- decoding an encoding followed by anything -----

  lemma SliceRoundTrip(s: Bytes, rest: Bytes)
    requires |s| < TWO63
    ensures ParseSlice(EncodeSlice(s) + rest) == Got(s, rest)
  {
    ConcatAssoc(V.Encode(|s|), s, rest);
    V.DecodeInvertsEncode(|s|, s + rest);
    DropOfConcat(V.Encode(|s|), s + rest);
    DropOfConcat(s, rest);
  }

  lemma ValueRoundTrip(r: Record, rest: Bytes)
    requires WellFormed(r)
    ensures ParseValue(r.(value := []), EncodeValue(r) + rest) == Got(r, rest)
  {
    if HasValue(r.kind) {
      SliceRoundTrip(r.value, rest);
    } else {
      assert [] + rest == rest;
    }
  }

  /** After the key field of r, parsing goes on with the value. */
  lemma KeyThen(r: Record, tail: Bytes)
    requires WellFormed(r)
    ensures ParseKey(r.(key := [], value := []), EncodeKeyField(r) + tail) == ParseValue(r.(value := []), tail)
  {
    if HasKey(r.kind) {
      SliceRoundTrip(r.key, tail);
    } else {
      DropOfConcat([], tail);
    }
  }

  lemma KeyRoundTrip(r: Record, rest: Bytes)
    requires WellFormed(r)
    ensures ParseKey(r.(key := [], value := []), EncodeKey(r) + rest) == Got(r, rest)
  {
    ConcatAssoc(EncodeKeyField(r), EncodeValue(r), rest);
    KeyThen(r, EncodeValue(r) + rest);
    ValueRoundTrip(r, rest);
  }

  lemma ParseTagged(t: byte, tail: Bytes)
    requires Supported(t)
    ensures ParseRecord([t] + tail) == ParseFamily(Record(t, 0, [], []), tail)
  {
    DropOfConcat([t], tail);
  }

  lemma FamilyRoundTrip(r: Record, rest: Bytes)
    requires WellFormed(r)
    ensures ParseFamily(Record(r.kind, 0, [], []), EncodeFamily(r) + (EncodeKey(r) + rest)) == Got(r, rest)
  {
    KeyRoundTrip(r, rest);
    FamilyThen(r, EncodeKey(r) + rest);
  }

  lemma RecordRoundTrip(r: Record, rest: Bytes)
    requires WellFormed(r)
    ensures ParseRecord(EncodeRecord(r) + rest) == Got(r, rest)
  {
    var tail := EncodeFamily(r) + (EncodeKey(r) + rest);
    assert EncodeRecord(r) + rest == [r.kind] + tail;
    ParseTagged(r.kind, tail);
    FamilyRoundTrip(r, rest);
  }

  // ----- the layout of each record type, tag by tag -----

  /** Deletions: a key. */
  lemma DeletionLayout(t: byte, k: Bytes, rest: Bytes)
    requires (t == 0x0 || t == 0x7) && |k| < TWO63
    ensures ParseRecord([t] + (EncodeSlice(k) + rest)) == Got(Record(t, 0, k, []), rest)
  {
    ParseTagged(t, EncodeSlice(k) + rest);
    SliceRoundTrip(k, rest);
  }

  /** Puts, merges, range deletions and blob indices: a key and a value. */
  lemma PutLayout(t: byte, k: Bytes, v: Bytes, rest: Bytes)
    requires (t == 0x1 || t == 0x2 || t == 0xF || t == 0x11) && |k| < TWO63 && |v| < TWO63
    ensures ParseRecord([t] + (EncodeSlice(k) + (EncodeSlice(v) + rest))) == Got(Record(t, 0, k, v), rest)
  {
    ParseTagged(t, EncodeSlice(k) + (EncodeSlice(v) + rest));
    SliceRoundTrip(k, EncodeSlice(v) + rest);
    SliceRoundTrip(v, rest);
  }

  lemma FamilyFirst(t: byte, cf: nat, tail: Bytes)
    requires HasFamily(t) && cf < TWO64
    ensures ParseRecord([t] + (V.Encode(cf) + tail))
         == ParseKey(Record(t, if cf < TWO63 then cf else cf - TWO64, [], []), tail)
  {
    ParseTagged(t, V.Encode(cf) + tail);
    V.DecodeInvertsEncode(cf, tail);
    DropOfConcat(V.Encode(cf), tail);
  }

  /** Deletions in a column family: its id, converted to an int, and a key. */
  lemma FamilyDeletionLayout(t: byte, cf: nat, k: Bytes, rest: Bytes)
    requires (t == 0x4 || t == 0x8) && cf < TWO64 && |k| < TWO63
    ensures ParseRecord([t] + (V.Encode(cf) + (EncodeSlice(k) + rest)))
         == Got(Record(t, if cf < TWO63 then cf else cf - TWO64, k, []), rest)
  {
    FamilyFirst(t, cf, EncodeSlice(k) + rest);
    SliceRoundTrip(k, rest);
  }

  /** Puts, merges, range deletions and blob indices in a column family: its id, a key and a value. */
  lemma FamilyPutLayout(t: byte, cf: nat, k: Bytes, v: Bytes, rest: Bytes)
    requires (t == 0x5 || t == 0x6 || t == 0xE || t == 0x10) && cf < TWO64 && |k| < TWO63 && |v| < TWO63
    ensures ParseRecord([t] + (V.Encode(cf) + (EncodeSlice(k) + (EncodeSlice(v) + rest))))
         == Got(Record(t, if cf < TWO63 then cf else cf - TWO64, k, v), rest)
  {
    FamilyFirst(t, cf, EncodeSlice(k) + (EncodeSlice(v) + rest));
    SliceRoundTrip(k, EncodeSlice(v) + rest);
    SliceRoundTrip(v, rest);
  }

  /** Log data and the ends of two-phase commits: a value only. */
  lemma ValueLayout(t: byte, v: Bytes, rest: Bytes)
    requires (t == 0x3 || t == 0xA || t == 0xB || t == 0xC) && |v| < TWO63
    ensures ParseRecord([t] + (EncodeSlice(v) + rest)) == Got(Record(t, 0, [], v), rest)
  {
    ParseTagged(t, EncodeSlice(v) + rest);
    SliceRoundTrip(v, rest);
  }

  /** No-ops and the beginnings of two-phase commits: nothing; every tag above 0x12 is refused. */
  lemma OtherLayout(t: byte, rest: Bytes)
    ensures t == 0xD || t == 0x9 || t == 0x12 ==> ParseRecord([t] + rest) == Got(Record(t, 0, [], []), rest)
    ensures t > 0x12 ==> ParseRecord([t] + rest) == Failed(UnsupportedType, rest)
  {
    DropOfConcat([t], rest);
  }

  lemma IterateCons(data: Bytes, rec: Record, rest: Bytes)
    requires data != [] && ParseRecord(data) == Got(rec, rest)
    ensures Iterate(data).0 == [rec] + Iterate(rest).0 && Iterate(data).1 == Iterate(rest).1
  {
    ParseRecordSuffix(data);
  }

  /** Round trip: iterating over an encoded list of records yields exactly those records. */
  lemma {:induction false} BatchRoundTrip(rs: seq<Record>)
    requires AllWellFormed(rs)
    ensures Iterate(EncodeAll(rs)) == (rs, Clean)
  {
    if rs != [] {
      IterateFirst(rs[0], EncodeAll(rs[1..]));
      BatchRoundTrip(rs[1..]);
      assert [rs[0]] + rs[1..] == rs;
    }
  }

  // ----- truncated encodings -----

  lemma SliceTruncated(s: Bytes, p: nat)
    requires |s| < 0x1_0000_0000 && p < |EncodeSlice(s)|
    ensures ParseSlice(EncodeSlice(s)[..p]).Failed? && ParseSlice(EncodeSlice(s)[..p]).error == ShortBuffer
  {
    var len := V.Encode(|s|);
    if p < |len| {
      assert EncodeSlice(s)[..p] == len[..p];
      V.DecodeOfPrefix(|s|, p);
    } else {
      var cut := s[..p - |len|];
      assert EncodeSlice(s)[..p] == len + cut;
      V.DecodeInvertsEncode(|s|, cut);
      assert (len + cut)[|len|..] == cut;
    }
  }

  ghost predicate IsShort(p: Parse<Record>) { p.Failed? && p.error == ShortBuffer }

  /** Parsing the fields of a record of r's type from data runs out of bytes. */
  ghost predicate FieldsShort(r: Record, data: Bytes) { IsShort(ParseFamily(Record(r.kind, 0, [], []), data)) }

  lemma KeyTruncated(r: Record, p: nat)
    requires WellFormed(r) && p < |EncodeKey(r)|
    ensures IsShort(ParseKey(r.(key := [], value := []), EncodeKey(r)[..p]))
  {
    TakeOfConcat(EncodeKeyField(r), EncodeValue(r), p);
    if p < |EncodeKeyField(r)| {
      SliceTruncated(r.key, p);
    } else {
      SliceTruncated(r.value, p - |EncodeKeyField(r)|);
      KeyThen(r, EncodeValue(r)[..p - |EncodeKeyField(r)|]);
    }
  }

  /** After the column family id of r, parsing goes on with the key. */
  lemma FamilyThen(r: Record, tail: Bytes)
    requires WellFormed(r)
    ensures ParseFamily(Record(r.kind, 0, [], []), EncodeFamily(r) + tail) == ParseKey(r.(key := [], value := []), tail)
  {
    DropOfConcat(EncodeFamily(r), tail);
    if HasFamily(r.kind) {
      V.DecodeInvertsEncode(r.cf, tail);
    }
  }

  lemma FamilyCut(r: Record, p: nat)
    requires WellFormed(r) && p < |EncodeFamily(r)|
    ensures FieldsShort(r, EncodeFamily(r)[..p])
  {
    V.DecodeOfPrefix(r.cf, p);
  }

  lemma KeyCut(r: Record, p: nat)
    requires WellFormed(r) && p < |EncodeKey(r)|
    ensures FieldsShort(r, EncodeFamily(r) + EncodeKey(r)[..p])
  {
    KeyTruncated(r, p);
    FamilyThen(r, EncodeKey(r)[..p]);
  }

  lemma RecordTruncated(r: Record, p: nat)
    requires WellFormed(r) && 0 < p < |EncodeRecord(r)|
    ensures IsShort(ParseRecord(EncodeRecord(r)[..p]))
  {
    TakeOfRecord(r, p);
    TaggedShort(r, p - 1);
  }

  lemma TakeOfRecord(r: Record, p: nat)
    requires WellFormed(r) && 0 < p < |EncodeRecord(r)|
    ensures EncodeRecord(r)[..p] == [r.kind] + (EncodeFamily(r) + EncodeKey(r))[..p - 1]
  {
    TakeOfConcat([r.kind], EncodeFamily(r) + EncodeKey(r), p);
  }

  lemma TailCut(r: Record, p: nat)
    requires WellFormed(r) && p < |EncodeFamily(r)| + |EncodeKey(r)|
    ensures FieldsShort(r, (EncodeFamily(r) + EncodeKey(r))[..p])
  {
    TakeOfConcat(EncodeFamily(r), EncodeKey(r), p);
    if p < |EncodeFamily(r)| {
      FamilyCut(r, p);
    } else {
      KeyCut(r, p - |EncodeFamily(r)|);
    }
  }

  lemma TaggedShort(r: Record, p: nat)
    requires WellFormed(r) && p < |EncodeFamily(r)| + |EncodeKey(r)|
    ensures IsShort(ParseRecord([r.kind] + (EncodeFamily(r) + EncodeKey(r))[..p]))
  {
    TailCut(r, p);
    ParseTagged(r.kind, (EncodeFamily(r) + EncodeKey(r))[..p]);
  }

  lemma IterateTruncated(r: Record, p: nat)
    requires WellFormed(r) && p < |EncodeRecord(r)|
    ensures Iterate(EncodeRecord(r)[..p]) == ([], if p == 0 then Clean else Ending.Error(ShortBuffer))
  {
    if p > 0 {
      RecordTruncated(r, p);
      assert EncodeRecord(r)[..p] != [];
    }
  }

  /** How many whole records p bytes of the encoding hold. */
  function WholeRecords(rs: seq<Record>, p: nat): (n: nat)
    requires AllWellFormed(rs)
    ensures n <= |rs|
  {
    if rs == [] || p < |EncodeRecord(rs[0])| then 0
    else 1 + WholeRecords(rs[1..], p - |EncodeRecord(rs[0])|)
  }

  /** The size of the first n encodings, by the first of them. */
  lemma SizeOfFirst(rs: seq<Record>, n: nat)
    requires AllWellFormed(rs) && 0 < n <= |rs|
    ensures AllWellFormed(rs[..n]) && AllWellFormed(rs[1..][..n - 1])
    ensures |EncodeAll(rs[..n])| == |EncodeRecord(rs[0])| + |EncodeAll(rs[1..][..n - 1])|
  {
    HeadTail(rs, n);
  }

  /** The first n encodings fit into p bytes and the next one does not. */
  ghost predicate FillsUpTo(rs: seq<Record>, n: nat, p: nat)
    requires AllWellFormed(rs) && n <= |rs|
  {
    && |EncodeAll(rs[..n])| <= p
    && (n < |rs| ==> p < |EncodeAll(rs[..n])| + |EncodeRecord(rs[n])|)
  }

  lemma FillsNone(rs: seq<Record>, p: nat)
    requires AllWellFormed(rs) && (rs == [] || p < |EncodeRecord(rs[0])|)
    ensures FillsUpTo(rs, WholeRecords(rs, p), p)
  {
    assert rs[..0] == [];
  }

  lemma FillsMore(rs: seq<Record>, n: nat, p: nat)
    requires AllWellFormed(rs) && 0 < n <= |rs| && |EncodeRecord(rs[0])| <= p
    requires FillsUpTo(rs[1..], n - 1, p - |EncodeRecord(rs[0])|)
    ensures FillsUpTo(rs, n, p)
  {
    SizeOfFirst(rs, n);
    assert n < |rs| ==> rs[1..][n - 1] == rs[n];
  }

  lemma FillsByRest(rs: seq<Record>, p: nat, tail: seq<Record>, rest: nat)
    requires AllWellFormed(rs) && rs != [] && |EncodeRecord(rs[0])| + rest == p && tail == rs[1..]
    requires FillsUpTo(tail, WholeRecords(tail, rest), rest)
    ensures FillsUpTo(rs, WholeRecords(rs, p), p)
  {
    FillsMore(rs, WholeRecords(rs, p), p);
  }

  lemma {:induction false} WholeRecordsFit(rs: seq<Record>, p: nat)
    requires AllWellFormed(rs)
    ensures FillsUpTo(rs, WholeRecords(rs, p), p)
    decreases |rs|, 1
  {
    if rs == [] || p < |EncodeRecord(rs[0])| {
      FillsNone(rs, p);
    } else {
      RestRecordsFit(rs, p);
    }
  }

  lemma {:induction false} RestRecordsFit(rs: seq<Record>, p: nat)
    requires AllWellFormed(rs) && rs != [] && |EncodeRecord(rs[0])| <= p
    ensures FillsUpTo(rs, WholeRecords(rs, p), p)
    decreases |rs|, 0
  {
    var tail, rest := rs[1..], p - |EncodeRecord(rs[0])|;
    WholeRecordsFit(tail, rest);
    FillsByRest(rs, p, tail, rest);
  }

  /** Iterating over data yields the first n records and then stops: cleanly if these fill all
      p bytes, else with ErrShortBuffer. */
  ghost predicate StopsAfter(rs: seq<Record>, n: nat, p: nat, data: Bytes)
    requires AllWellFormed(rs) && n <= |rs|
  {
    && Iterate(data).0 == rs[..n]
    && Iterate(data).1 == if p == |EncodeAll(rs[..n])| then Clean else Ending.Error(ShortBuffer)
  }

  lemma StopsAtOnce(rs: seq<Record>, p: nat)
    requires rs == [] && p <= |EncodeAll(rs)|
    ensures StopsAfter(rs, WholeRecords(rs, p), p, EncodeAll(rs)[..p])
  {
    assert EncodeAll(rs)[..p] == [];
  }

  lemma StopsInFirst(rs: seq<Record>, p: nat)
    requires AllWellFormed(rs) && rs != [] && p < |EncodeRecord(rs[0])|
    ensures p <= |EncodeAll(rs)| && StopsAfter(rs, WholeRecords(rs, p), p, EncodeAll(rs)[..p])
  {
    TakeOfConcat(EncodeRecord(rs[0]), EncodeAll(rs[1..]), p);
    IterateTruncated(rs[0], p);
    assert rs[..0] == [];
  }

  lemma IteratePrefix(rs: seq<Record>, p: nat, cut: Bytes)
    requires AllWellFormed(rs) && rs != [] && |EncodeRecord(rs[0])| <= p <= |EncodeAll(rs)|
    requires cut == EncodeAll(rs[1..])[..p - |EncodeRecord(rs[0])|]
    ensures Iterate(EncodeAll(rs)[..p]).0 == [rs[0]] + Iterate(cut).0
    ensures Iterate(EncodeAll(rs)[..p]).1 == Iterate(cut).1
  {
    TakeOfConcat(EncodeRecord(rs[0]), EncodeAll(rs[1..]), p);
    IterateFirst(rs[0], cut);
  }

  lemma StopsLater(rs: seq<Record>, n: nat, p: nat, cut: Bytes)
    requires AllWellFormed(rs) && 0 < n <= |rs| && |EncodeRecord(rs[0])| <= p <= |EncodeAll(rs)|
    requires cut == EncodeAll(rs[1..])[..p - |EncodeRecord(rs[0])|]
    requires StopsAfter(rs[1..], n - 1, p - |EncodeRecord(rs[0])|, cut)
    ensures StopsAfter(rs, n, p, EncodeAll(rs)[..p])
  {
    IteratePrefix(rs, p, cut);
    HeadTail(rs, n);
    SizeOfFirst(rs, n);
  }

  lemma RestFits(rs: seq<Record>, p: nat)
    requires AllWellFormed(rs) && rs != [] && |EncodeRecord(rs[0])| <= p <= |EncodeAll(rs)|
    ensures p - |EncodeRecord(rs[0])| <= |EncodeAll(rs[1..])|
  {
  }

  lemma StopsByRest(rs: seq<Record>, p: nat, tail: seq<Record>, rest: nat)
    requires AllWellFormed(rs) && rs != [] && tail == rs[1..]
    requires |EncodeRecord(rs[0])| + rest == p <= |EncodeAll(rs)| && rest <= |EncodeAll(tail)|
    requires StopsAfter(tail, WholeRecords(tail, rest), rest, EncodeAll(tail)[..rest])
    ensures StopsAfter(rs, WholeRecords(rs, p), p, EncodeAll(rs)[..p])
  {
    StopsLater(rs, WholeRecords(rs, p), p, EncodeAll(tail)[..rest]);
  }

  lemma IterateFirst(r: Record, cut: Bytes)
    requires WellFormed(r)
    ensures Iterate(EncodeRecord(r) + cut).0 == [r] + Iterate(cut).0
    ensures Iterate(EncodeRecord(r) + cut).1 == Iterate(cut).1
  {
    RecordRoundTrip(r, cut);
    IterateCons(EncodeRecord(r) + cut, r, cut);
  }

  /** On every prefix of an encoded batch, iteration yields the whole records in it, then stops
      cleanly exactly at a record boundary and with ErrShortBuffer anywhere else. */
  lemma {:induction false} BatchPrefix(rs: seq<Record>, p: nat)
    requires AllWellFormed(rs) && p <= |EncodeAll(rs)|
    ensures StopsAfter(rs, WholeRecords(rs, p), p, EncodeAll(rs)[..p])
  {
    if rs == [] {
      StopsAtOnce(rs, p);
    } else if p < |EncodeRecord(rs[0])| {
      StopsInFirst(rs, p);
    } else {
      var tail, rest := rs[1..], p - |EncodeRecord(rs[0])|;
      RestFits(rs, p);
      BatchPrefix(tail, rest);
      StopsByRest(rs, p, tail, rest);
    }
  }
}
