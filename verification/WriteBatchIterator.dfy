/** The iterator object itself: a data window, the current record and a sticky error. */
module WriteBatchIteration {
  import opened ByteStrings
  import opened WriteBatch
  import V = Varint

  class WriteBatchIterator {
    var data: Bytes
    var record: Record
    var err: Option<Error>
    var panicked: bool       // a slice expression went out of range: the goroutine is gone

    /** NewIterator skips the 12-byte header of the serialized batch. */
    constructor (batch: Bytes)
      ensures data == (if |batch| < 12 then [] else batch[12..])
      ensures err == None && !panicked
    {
      data := if |batch| < 12 then [] else batch[12..];
      record := Record(0, 0, [], []);
      err := None;
      panicked := false;
    }

    method DecodeVarint() returns (v: nat)
      requires err == None
      modifies this`data, this`err
      ensures match V.Decode(old(data))
              case Value(w, n) => v == w && data == old(data)[n..] && err == None
              case ShortBuffer => v == 0 && data == old(data) && err == Some(Error.ShortBuffer)
              case Malformed => v == 0 && data == old(data) && err == Some(MalformedVarint)
    {
      var n, x, shift := 0, 0, 0;
      while shift < 64 && n < |data|
        invariant data == old(data) && err == None
        invariant shift == 7 * n && n <= 10 && n <= |data|
        invariant forall i :: 0 <= i < n ==> data[i] >= 128
        invariant n <= 9 ==> x == V.GroupsValue(data[..n])
        decreases 70 - shift
      {
        var b := data[n];
        assert data[..n + 1] == data[..n] + [b];
        V.OrInGroup(data[..n], b);
        x := V.Or(x, V.ShiftLeft64(b % 128, shift));
        n := n + 1;
        if b < 128 {
          data := data[n..];
          return x;
        }
        NineGroupsFit(data[..n]);
        shift := shift + 7;
      }
      err := Some(if n == |data| then Error.ShortBuffer else MalformedVarint);
      return 0;
    }

    method DecodeSlice() returns (s: Bytes)
      requires err == None && !panicked
      modifies this`data, this`err, this`panicked
      ensures match ParseSlice(old(data))
              case Got(t, rest) => s == t && data == rest && err == None && !panicked
              case Failed(e, rest) => s == [] && data == rest && err == Some(e) && !panicked
              case Crashed => panicked && err == None
    {
      var v := DecodeVarint();
      var l := ToInt64(v);
      if l > |data| {
        err := Some(Error.ShortBuffer);
      }
      if err.Some? {
        return [];
      }
      if l < 0 {
        panicked := true;
        return [];
      }
      s := data[..l];
      data := data[l..];
    }

    /** The fields hold the outcome of a parse. */
    ghost predicate Shows(p: Parse<Record>)
      reads this
    {
      match p
      case Got(r, rest) => record == r && data == rest && err == None && !panicked
      case Failed(e, rest) => data == rest && err == Some(e) && !panicked
      case Crashed => panicked
    }

    method DecodeFamily()
      requires err == None
      modifies this`data, this`err, this`record
      ensures match ParseVarint(old(data))
              case Got(v, rest) => record == old(record).(cf := ToInt64(v)) && data == rest && err == None
              case Failed(e, rest) => data == rest && err == Some(e) && record.kind == old(record.kind)
              case Crashed => false
    {
      var v := DecodeVarint();
      record := record.(cf := ToInt64(v));
    }

    method DecodeKey()
      requires err == None && !panicked && HasKey(record.kind) && !HasValue(record.kind)
      modifies this
      ensures Shows(ParseKey(old(record), old(data)))
    {
      var s := DecodeSlice();
      record := record.(key := s);
    }

    method DecodeValue()
      requires err == None && !panicked && HasValue(record.kind)
      modifies this
      ensures Shows(ParseValue(old(record), old(data)))
    {
      var s := DecodeSlice();
      record := record.(value := s);
    }

    method DecodeKeyValue()
      requires err == None && !panicked && HasKey(record.kind) && HasValue(record.kind)
      modifies this
      ensures Shows(ParseKey(old(record), old(data)))
    {
      var s := DecodeSlice();
      if panicked {
        return;
      }
      record := record.(key := s);
      if err == None {
        DecodeValue();
      }
    }

    /** The type switch of Next. */
    method DecodeFields()
      requires err == None && !panicked
      modifies this
      ensures Supported(old(record.kind)) ==> Shows(ParseFamily(old(record), old(data)))
      ensures !Supported(old(record.kind)) ==> data == old(data) && err == Some(UnsupportedType) && !panicked
    {
      match record.kind {
        case 0x0 | 0x7 =>
          DecodeKey();
        case 0x4 | 0x8 =>
          DecodeFamily();
          if err == None {
            DecodeKey();
          }
        case 0x1 | 0x2 | 0xF | 0x11 =>
          DecodeKeyValue();
        case 0x5 | 0xE | 0x6 | 0x10 =>
          DecodeFamily();
          if err == None {
            DecodeKeyValue();
          }
        case 0x3 | 0xA | 0xB | 0xC =>
          DecodeValue();
        case 0xD | 0x9 | 0x12 =>
        case _ =>
          err := Some(UnsupportedType);
      }
    }

    /** Next parses one record; it is false at the end of the data, on an error, and ever after. */
    method Next() returns (more: bool)
      requires !panicked
      modifies this
      ensures old(err).Some? || old(data) == [] ==>
                !more && data == old(data) && err == old(err) && record == old(record) && !panicked
      ensures old(err).None? && old(data) != [] ==>
                Shows(ParseRecord(old(data))) && more == ParseRecord(old(data)).Got?
    {
      if err.Some? || |data| == 0 {
        return false;
      }
      record := Record(data[0], 0, [], []);
      data := data[1..];
      DecodeFields();
      more := err == None && !panicked;
    }

    /** The loop of every user of the iterator: `for iter.Next() { ... iter.Record() ... }`. */
    method Drain() returns (records: seq<Record>)
      requires err == None && !panicked
      modifies this
      ensures records == Iterate(old(data)).0
      ensures match Iterate(old(data)).1
              case Clean => err == None && data == [] && !panicked
              case Error(e) => err == Some(e) && !panicked
              case Panicked => panicked
    {
      records := [];
      ghost var all := Iterate(data);
      while true
        invariant err == None && !panicked
        invariant all.0 == records + Iterate(data).0 && all.1 == Iterate(data).1
        decreases |data|
      {
        ghost var d := data;
        if d != [] { ParseRecordSuffix(d); }
        var more := Next();
        if !more {
          break;
        }
        records := records + [record];
      }
    }
  }

  /** Up to nine groups stay below 2^63, so nothing has been cut off yet. */
  lemma NineGroupsFit(b: Bytes)
    requires |b| <= 10
    ensures |b| <= 9 ==> V.GroupsValue(b) % TWO64 == V.GroupsValue(b)
  {
    if |b| <= 9 {
      V.GroupsValueBound(b);
      V.Pow2Literals();
      V.Pow2Monotone(7 * |b|, 63);
    }
  }
}
