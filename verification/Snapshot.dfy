/** The snapshot stream: a frame count, then one length-prefixed JSON frame per entry. */
module Snapshot {
  import opened ByteStrings
  import opened Seqs
  import opened Ordering
  import opened KeyValue

  function EntryJson(c: Codec, k: Bytes, v: Bytes): Bytes { c.encode(Action([], k, v)) }

  /** Every entry's JSON text can be allocated, and the count header is a uint64. */
  ghost predicate Fits(c: Codec, m: Store) {
    |m| < TWO64 && forall k :: k in m ==> |EntryJson(c, k, m[k])| <= c.maxAlloc
  }

  function Frame(c: Codec, k: Bytes, v: Bytes): (r: Bytes)
    requires |EntryJson(c, k, v)| <= c.maxAlloc
    ensures |r| >= 8
  {
    PutUint64(|EntryJson(c, k, v)|) + EntryJson(c, k, v)
  }

  ghost predicate KeysOf(m: Store, keys: seq<Bytes>) {
    forall i :: 0 <= i < |keys| ==> keys[i] in m
  }

  /** The frames of the given keys, in order. */
  ghost function Frames(c: Codec, m: Store, keys: seq<Bytes>): Bytes
    requires Fits(c, m) && KeysOf(m, keys)
  {
    if keys == [] then [] else Frame(c, keys[0], m[keys[0]]) + Frames(c, m, keys[1..])
  }

  /** What saveToWriter writes for a store. */
  ghost function Stream(c: Codec, m: Store): Bytes
    requires Fits(c, m)
  {
    PutUint64(|m|) + Frames(c, m, Sorted(m.Keys))
  }

  lemma {:induction false} FramesSnoc(c: Codec, m: Store, keys: seq<Bytes>, n: nat)
    requires Fits(c, m) && KeysOf(m, keys) && n < |keys|
    ensures Frames(c, m, keys[..n + 1]) == Frames(c, m, keys[..n]) + Frame(c, keys[n], m[keys[n]])
  {
    if n == 0 {
      assert keys[..1] == [keys[0]] && keys[..1][1..] == [] && keys[..0] == [];
    } else {
      FramesSnoc(c, m, keys[1..], n - 1);
      HeadTail(keys, n);
      HeadTail(keys, n + 1);
      ConcatAssoc(Frame(c, keys[0], m[keys[0]]), Frames(c, m, keys[1..][..n - 1]), Frame(c, keys[n], m[keys[n]]));
    }
  }

  // ----- reading it back -----

  /** How the reading loop of RecoverFromSnapshot ends. */
  datatype ReadResult =
    | Complete(wb: Batch)
    | ShortRead             // io.ReadFull fails: an error return
    | BadJson               // json.Unmarshal fails: a panic
    | HugeFrame             // make([]byte, n) with n beyond maxAlloc: a panic

  function ReadFrames(c: Codec, r: Bytes, total: nat, wb: Batch): ReadResult
    decreases total
  {
    if total == 0 then Complete(wb)
    else if |r| < 8 then ShortRead
    else
      var n := Uint64(r[..8]);
      if n > c.maxAlloc then HugeFrame
      else if |r| - 8 < n then ShortRead
      else match c.decode(r[8..8 + n])
        case None => BadJson
        case Some(a) => ReadFrames(c, r[8 + n..], total - 1, wb + [(a.key, a.val)])
  }

  function ReadStream(c: Codec, r: Bytes): ReadResult {
    if |r| < 8 then ShortRead else ReadFrames(c, r[8..], Uint64(r[..8]), [])
  }

  ghost function Pairs(m: Store, keys: seq<Bytes>): (wb: Batch)
    requires KeysOf(m, keys)
    ensures |wb| == |keys| && forall i :: 0 <= i < |keys| ==> wb[i] == (keys[i], m[keys[i]])
  {
    seq(|keys|, i requires 0 <= i < |keys| => (keys[i], m[keys[i]]))
  }

  /** One frame is read back as the entry it was written for. */
  lemma ReadOneFrame(c: Codec, k: Bytes, v: Bytes, rest: Bytes, total: nat, wb: Batch)
    requires c.decode(EntryJson(c, k, v)) == Some(Action([], k, v))
    requires |EntryJson(c, k, v)| <= c.maxAlloc && total > 0
    ensures ReadFrames(c, Frame(c, k, v) + rest, total, wb)
         == ReadFrames(c, rest, total - 1, wb + [(k, v)])
  {
    var data := EntryJson(c, k, v);
    var r := Frame(c, k, v) + rest;
    Uint64RoundTrip(|data|);
    assert r[..8] == PutUint64(|data|);
    assert r[8..8 + |data|] == data;
    assert r[8 + |data|..] == rest;
  }

  /** The codec gives back every entry of the store. */
  ghost predicate Readable(c: Codec, m: Store) {
    forall k :: k in m ==> c.decode(EntryJson(c, k, m[k])) == Some(Action([], k, m[k]))
  }

  lemma TextIsReadable(c: Codec, m: Store)
    requires CodecContract(c) && TextStore(m)
    ensures Readable(c, m)
  {
    forall k | k in m ensures c.decode(EntryJson(c, k, m[k])) == Some(Action([], k, m[k])) {
      assert IsText(Action([], k, m[k]));
    }
  }

  lemma PairsCons(m: Store, keys: seq<Bytes>)
    requires KeysOf(m, keys) && keys != []
    ensures Pairs(m, keys) == [(keys[0], m[keys[0]])] + Pairs(m, keys[1..])
  {
  }

  lemma {:induction false} FramesRoundTrip(c: Codec, m: Store, keys: seq<Bytes>, rest: Bytes, wb: Batch)
    requires Fits(c, m) && Readable(c, m) && KeysOf(m, keys)
    ensures ReadFrames(c, Frames(c, m, keys) + rest, |keys|, wb) == Complete(wb + Pairs(m, keys))
    decreases |keys|
  {
    if keys == [] {
      assert wb + Pairs(m, keys) == wb;
    } else {
      var k := keys[0];
      var tail := Frames(c, m, keys[1..]) + rest;
      ConcatAssoc(Frame(c, k, m[k]), Frames(c, m, keys[1..]), rest);
      ReadOneFrame(c, k, m[k], tail, |keys|, wb);
      FramesRoundTrip(c, m, keys[1..], rest, wb + [(k, m[k])]);
      PairsCons(m, keys);
      ConcatAssoc(wb, [(k, m[k])], Pairs(m, keys[1..]));
    }
  }

  lemma {:induction false} ApplyPairs(m: Store, keys: seq<Bytes>)
    requires KeysOf(m, keys)
    ensures ApplyBatch(map[], Pairs(m, keys)) == Pick(m, keys)
  {
    if keys != [] {
      var n := |keys| - 1;
      ApplyPairs(m, keys[..n]);
      assert Pairs(m, keys)[..n] == Pairs(m, keys[..n]);
      assert keys == keys[..n] + [keys[n]];
      PickSnoc(m, keys[..n], keys[n]);
    }
  }

  lemma SortedKeysOf(m: Store)
    ensures KeysOf(m, Sorted(m.Keys)) && |Sorted(m.Keys)| == |m|
  {
    var keys := Sorted(m.Keys);
    forall i | 0 <= i < |keys| ensures keys[i] in m {
      assert keys[i] in keys;
    }
  }

  /** out is the stream up to and including its first i frames. */
  ghost predicate WrittenUpTo(c: Codec, m: Store, keys: seq<Bytes>, i: nat, out: Bytes)
    requires Fits(c, m)
  {
    KeysOf(m, keys) && i <= |keys| && out == PutUint64(|m|) + Frames(c, m, keys[..i])
  }

  lemma WrittenHeader(c: Codec, m: Store)
    requires Fits(c, m)
    ensures WrittenUpTo(c, m, Sorted(m.Keys), 0, PutUint64(|m|))
  {
    SortedKeysOf(m);
    assert Sorted(m.Keys)[..0] == [];
    assert PutUint64(|m|) + [] == PutUint64(|m|);
  }

  lemma WrittenAll(c: Codec, m: Store, out: Bytes)
    requires Fits(c, m) && WrittenUpTo(c, m, Sorted(m.Keys), |Sorted(m.Keys)|, out)
    ensures out == Stream(c, m)
  {
    assert Sorted(m.Keys)[..|Sorted(m.Keys)|] == Sorted(m.Keys);
  }

  lemma WriteFrame(c: Codec, m: Store, keys: seq<Bytes>, i: nat, out: Bytes)
    requires Fits(c, m) && WrittenUpTo(c, m, keys, i, out) && i < |keys|
    ensures var data := EntryJson(c, keys[i], m[keys[i]]);
            |data| <= c.maxAlloc && WrittenUpTo(c, m, keys, i + 1, out + PutUint64(|data|) + data)
  {
    FramesSnoc(c, m, keys, i);
    var data := EntryJson(c, keys[i], m[keys[i]]);
    ConcatAssoc(out, PutUint64(|data|), data);
    ConcatAssoc(PutUint64(|m|), Frames(c, m, keys[..i]), PutUint64(|data|) + data);
  }

  lemma RebuiltFromPairs(m: Store)
    ensures KeysOf(m, Sorted(m.Keys))
    ensures ApplyBatch(map[], Pairs(m, Sorted(m.Keys))) == m
  {
    var keys := Sorted(m.Keys);
    SortedKeysOf(m);
    ApplyPairs(m, keys);
    assert Pick(m, keys) == m;
  }

  lemma ReadHeader(c: Codec, count: nat, rest: Bytes)
    requires count < TWO64
    ensures ReadStream(c, PutUint64(count) + rest) == ReadFrames(c, rest, count, [])
  {
    var s := PutUint64(count) + rest;
    Uint64RoundTrip(count);
    assert s[..8] == PutUint64(count) && s[8..] == rest;
  }

  /** Snapshot round trip: the stream of a text store rebuilds exactly that store. */
  lemma StreamRoundTrip(c: Codec, m: Store)
    requires CodecContract(c) && Fits(c, m) && TextStore(m)
    ensures ReadStream(c, Stream(c, m)).Complete?
    ensures ApplyBatch(map[], ReadStream(c, Stream(c, m)).wb) == m
  {
    var keys := Sorted(m.Keys);
    TextIsReadable(c, m);
    RebuiltFromPairs(m);
    var frames := Frames(c, m, keys);
    ReadHeader(c, |m|, frames);
    FramesRoundTrip(c, m, keys, [], []);
    DropOfConcat(frames, []);
    DropOfConcat([], Pairs(m, keys));
    assert frames + [] == frames;
  }

  /** Hence different stores have different streams. */
  lemma StreamInjective(c: Codec, m1: Store, m2: Store)
    requires CodecContract(c) && Fits(c, m1) && Fits(c, m2) && TextStore(m1) && TextStore(m2)
    requires Stream(c, m1) == Stream(c, m2)
    ensures m1 == m2
  {
    StreamRoundTrip(c, m1);
    StreamRoundTrip(c, m2);
  }

  lemma {:induction false} FramesPrefixIsShort(c: Codec, m: Store, keys: seq<Bytes>, p: nat, wb: Batch)
    requires Fits(c, m) && Readable(c, m) && KeysOf(m, keys)
    requires p < |Frames(c, m, keys)|
    ensures ReadFrames(c, Frames(c, m, keys)[..p], |keys|, wb) == ShortRead
    decreases |keys|
  {
    var k := keys[0];
    var first, tail := Frame(c, k, m[k]), Frames(c, m, keys[1..]);
    TakeOfConcat(first, tail, p);
    if p >= |first| {
      ReadOneFrame(c, k, m[k], tail[..p - |first|], |keys|, wb);
      FramesPrefixIsShort(c, m, keys[1..], p - |first|, wb + [(k, m[k])]);
    } else {
      CutFrameIsShort(c, k, m[k], p, |keys|, wb);
    }
  }

  lemma CutFrameIsShort(c: Codec, k: Bytes, v: Bytes, p: nat, total: nat, wb: Batch)
    requires |EntryJson(c, k, v)| <= c.maxAlloc && total > 0 && p < |Frame(c, k, v)|
    ensures ReadFrames(c, Frame(c, k, v)[..p], total, wb) == ShortRead
  {
    var data := EntryJson(c, k, v);
    if p >= 8 {
      TakeOfConcat(PutUint64(|data|), data, p);
      DropOfConcat(PutUint64(|data|), data[..p - 8]);
      Uint64RoundTrip(|data|);
    }
  }

  /** Every strict prefix of a stream is recognised as incomplete. */
  lemma StrictPrefixIsShort(c: Codec, m: Store, p: nat)
    requires CodecContract(c) && Fits(c, m) && TextStore(m)
    requires p < |Stream(c, m)|
    ensures ReadStream(c, Stream(c, m)[..p]) == ShortRead
  {
    if p >= 8 {
      var keys := Sorted(m.Keys);
      TextIsReadable(c, m);
      RebuiltFromPairs(m);
      TakeOfConcat(PutUint64(|m|), Frames(c, m, keys), p);
      ReadHeader(c, |m|, Frames(c, m, keys)[..p - 8]);
      FramesPrefixIsShort(c, m, keys, p - 8, []);
    }
  }

  // ----- the format, byte by byte -----

  ghost predicate Lengths(ds: seq<Bytes>) { forall i :: 0 <= i < |ds| ==> |ds[i]| < TWO64 }

  /** Texts one after another, each behind its length. */
  function Framed(ds: seq<Bytes>): Bytes
    requires Lengths(ds)
  {
    if ds == [] then [] else PutUint64(|ds[0]|) + ds[0] + Framed(ds[1..])
  }

  ghost function JsonOf(c: Codec, m: Store, keys: seq<Bytes>): (ds: seq<Bytes>)
    requires KeysOf(m, keys)
    ensures |ds| == |keys| && forall i :: 0 <= i < |keys| ==> ds[i] == c.encode(Action([], keys[i], m[keys[i]]))
  {
    seq(|keys|, i requires 0 <= i < |keys| => c.encode(Action([], keys[i], m[keys[i]])))
  }

  lemma {:induction false} FramesAreFramed(c: Codec, m: Store, keys: seq<Bytes>)
    requires Fits(c, m) && KeysOf(m, keys)
    ensures Lengths(JsonOf(c, m, keys)) && Frames(c, m, keys) == Framed(JsonOf(c, m, keys))
  {
    if keys != [] {
      FramesAreFramed(c, m, keys[1..]);
      assert JsonOf(c, m, keys)[1..] == JsonOf(c, m, keys[1..]);
    }
  }

  /** What a stream looks like: the number of entries, then for each key, in rising bytewise order, the
      JSON of a command with that key, its value and no action, behind its length. */
  lemma StreamLayout(c: Codec, m: Store) returns (keys: seq<Bytes>)
    requires Fits(c, m)
    ensures |keys| == |m| && (forall k :: k in keys <==> k in m) && InByteOrder(keys)
    ensures KeysOf(m, keys) && Lengths(JsonOf(c, m, keys))
    ensures Stream(c, m) == PutUint64(|m|) + Framed(JsonOf(c, m, keys))
  {
    keys := Sorted(m.Keys);
    SortedKeysOf(m);
    SortedInByteOrder(m.Keys);
    FramesAreFramed(c, m, keys);
  }

  /** Texts that decode and can be allocated. */
  ghost predicate Decodable(c: Codec, ds: seq<Bytes>) {
    forall i :: 0 <= i < |ds| ==> |ds[i]| <= c.maxAlloc && c.decode(ds[i]).Some?
  }

  function EntryOf(a: Action): (Bytes, Bytes) { (a.key, a.val) }

  /** The batch that texts after the ones in wb make up. */
  ghost function EntriesOf(c: Codec, ds: seq<Bytes>, wb: Batch): Batch
    requires Decodable(c, ds)
    decreases |ds|
  {
    if ds == [] then wb else EntriesOf(c, ds[1..], wb + [EntryOf(c.decode(ds[0]).value)])
  }

  lemma {:induction false} EntriesAre(c: Codec, ds: seq<Bytes>, wb: Batch)
    requires Decodable(c, ds)
    ensures |EntriesOf(c, ds, wb)| == |wb| + |ds| && EntriesOf(c, ds, wb)[..|wb|] == wb
    ensures forall i :: 0 <= i < |ds| ==> EntriesOf(c, ds, wb)[|wb| + i] == EntryOf(c.decode(ds[i]).value)
    decreases |ds|
  {
    if ds != [] {
      var wb' := wb + [EntryOf(c.decode(ds[0]).value)];
      EntriesAre(c, ds[1..], wb');
      var r := EntriesOf(c, ds, wb);
      assert r[..|wb|] == r[..|wb'|][..|wb|] == wb && r[|wb|] == r[..|wb'|][|wb|];
      forall i | 0 <= i < |ds| ensures r[|wb| + i] == EntryOf(c.decode(ds[i]).value) {
        assert i > 0 ==> ds[1..][i - 1] == ds[i] && r[|wb'| + (i - 1)] == r[|wb| + i];
      }
    }
  }

  lemma ReadText(c: Codec, d: Bytes, rest: Bytes, total: nat, wb: Batch)
    requires |d| <= c.maxAlloc && total > 0 && c.decode(d).Some?
    ensures ReadFrames(c, PutUint64(|d|) + d + rest, total, wb)
         == ReadFrames(c, rest, total - 1, wb + [EntryOf(c.decode(d).value)])
  {
    var r := PutUint64(|d|) + d + rest;
    Uint64RoundTrip(|d|);
    assert r[..8] == PutUint64(|d|) && r[8..8 + |d|] == d && r[8 + |d|..] == rest;
  }

  lemma {:induction false} ReadFramed(c: Codec, ds: seq<Bytes>, r: Bytes, n: nat, wb: Batch, rest: Bytes, total: nat)
    requires Decodable(c, ds) && Lengths(ds) && r == Framed(ds) + rest && n == |ds| + total
    ensures ReadFrames(c, r, n, wb) == ReadFrames(c, rest, total, EntriesOf(c, ds, wb))
    decreases |ds|
  {
    if ds == [] {
      ConcatEmpty(rest, Framed(ds));
    } else {
      var tail, wb' := ds[1..], wb + [EntryOf(c.decode(ds[0]).value)];
      var left := Framed(tail) + rest;
      ReadFirstText(c, ds, r, n, wb, tail, left, rest, wb');
      ReadFramed(c, tail, left, n - 1, wb', rest, total);
    }
  }

  lemma ReadFirstText(c: Codec, ds: seq<Bytes>, r: Bytes, n: nat, wb: Batch,
                      tail: seq<Bytes>, left: Bytes, rest: Bytes, wb': Batch)
    requires Decodable(c, ds) && Lengths(ds) && ds != [] && tail == ds[1..] && n > 0
    requires r == Framed(ds) + rest && left == Framed(tail) + rest
    requires wb' == wb + [EntryOf(c.decode(ds[0]).value)]
    ensures ReadFrames(c, r, n, wb) == ReadFrames(c, left, n - 1, wb')
  {
    ConcatAssoc(PutUint64(|ds[0]|) + ds[0], Framed(tail), rest);
    ReadText(c, ds[0], left, n, wb);
  }

  /** How reading goes on with the next frame, if there is to be one: short header, a length that cannot
      be allocated, short text, or text that does not decode. */
  lemma FrameEnds(c: Codec, rest: Bytes, more: nat, wb: Batch)
    ensures var r := ReadFrames(c, rest, more, wb);
            if more == 0 then r == Complete(wb)
            else if |rest| < 8 then r == ShortRead
            else if Uint64(rest[..8]) > c.maxAlloc then r == HugeFrame
            else if |rest| < 8 + Uint64(rest[..8]) then r == ShortRead
            else c.decode(rest[8..8 + Uint64(rest[..8])]) == None ==> r == BadJson
  {
  }

  /** A stream with a count and good frames to begin with is read frame by frame: what is left decides. */
  lemma StreamReads(c: Codec, ds: seq<Bytes>, count: nat, frames: Bytes, rest: Bytes, more: nat)
    requires Decodable(c, ds) && Lengths(ds) && frames == Framed(ds) + rest && |ds| + more == count < TWO64
    ensures ReadStream(c, PutUint64(count) + frames) == ReadFrames(c, rest, more, EntriesOf(c, ds, []))
    ensures |EntriesOf(c, ds, [])| == |ds|
    ensures forall i :: 0 <= i < |ds| ==> EntriesOf(c, ds, [])[i] == EntryOf(c.decode(ds[i]).value)
  {
    EntriesAre(c, ds, []);
    ReadHeader(c, count, frames);
    ReadFramed(c, ds, frames, count, [], rest, more);
  }

  // ----- saving while updates go on -----

  /** The database as its write history; a RocksDB snapshot is a position in it. */
  type History = seq<Batch>

  function At(h: History, s: nat): Store
    requires s <= |h|
  {
    if s == 0 then map[] else ApplyBatch(At(h, s - 1), h[s - 1])
  }

  lemma {:induction false} AtIsStable(h: History, h': History, s: nat)
    requires s <= |h| && h <= h'
    ensures At(h, s) == At(h', s)
  {
    if s > 0 {
      AtIsStable(h, h', s - 1);
    }
  }

  /** saveToWriter in progress on snapshot s: the counting pass, then the writing pass. */
  datatype Saver =
    | Counting(pos: nat, count: nat)
    | Writing(pos: nat, out: Bytes)

  datatype SaveState = SaveState(h: History, saver: Saver)

  /** The saver's iterator moves over the entries of m in key order. */
  ghost predicate SaverStep(c: Codec, m: Store, keys: seq<Bytes>, a: Saver, b: Saver) {
    match a
    case Counting(pos, count) =>
      if pos < |keys| then b == Counting(pos + 1, (count + 1) % TWO64)
      else count < TWO64 && b == Writing(0, PutUint64(count))
    case Writing(pos, out) =>
      && pos < |keys| && keys[pos] in m && |EntryJson(c, keys[pos], m[keys[pos]])| <= c.maxAlloc
      && b == Writing(pos + 1, out + Frame(c, keys[pos], m[keys[pos]]))
  }

  /** One step: a concurrent Update writes a batch, or the saver moves on, reading the
      current history through snapshot s. */
  ghost predicate SaveStep(c: Codec, s: nat, a: SaveState, b: SaveState) {
    && s <= |a.h|
    && (|| (b.saver == a.saver && |b.h| == |a.h| + 1 && a.h <= b.h)
        || (b.h == a.h && SaverStep(c, At(a.h, s), Sorted(At(a.h, s).Keys), a.saver, b.saver)))
  }

  /** A run that starts when PrepareSnapshot took snapshot |h0| of history h0. */
  ghost predicate SaveRun(c: Codec, h0: History, run: seq<SaveState>) {
    && |run| > 0 && h0 <= run[0].h && run[0].saver == Counting(0, 0)
    && forall i :: 0 <= i < |run| - 1 ==> SaveStep(c, |h0|, run[i], run[i + 1])
  }

  ghost predicate SaverInvariant(c: Codec, m: Store, keys: seq<Bytes>, saver: Saver)
    requires Fits(c, m)
  {
    && KeysOf(m, keys)
    && saver.pos <= |keys| == |m|
    && match saver
       case Counting(pos, count) => count == pos
       case Writing(pos, out) => out == PutUint64(|m|) + Frames(c, m, keys[..pos])
  }

  ghost predicate SaveInvariant(c: Codec, h0: History, st: SaveState)
    requires Fits(c, At(h0, |h0|))
  {
    h0 <= st.h && SaverInvariant(c, At(h0, |h0|), Sorted(At(h0, |h0|).Keys), st.saver)
  }

  lemma SaverStepKeepsInvariant(c: Codec, m: Store, keys: seq<Bytes>, a: Saver, b: Saver)
    requires Fits(c, m) && SaverInvariant(c, m, keys, a) && SaverStep(c, m, keys, a, b)
    ensures SaverInvariant(c, m, keys, b)
  {
    if a.Counting? {
      assert keys[..0] == [];
      assert PutUint64(|m|) + [] == PutUint64(|m|);
    } else {
      FramesSnoc(c, m, keys, a.pos);
      ConcatAssoc(PutUint64(|m|), Frames(c, m, keys[..a.pos]), Frame(c, keys[a.pos], m[keys[a.pos]]));
    }
  }

  /** Point in time: whatever updates run between and during PrepareSnapshot and SaveSnapshot,
      a finished writing pass has produced the stream of the store as it was at PrepareSnapshot. */
  lemma {:induction false} SavedStreamIsPointInTime(c: Codec, h0: History, run: seq<SaveState>, n: nat)
    requires Fits(c, At(h0, |h0|)) && SaveRun(c, h0, run) && n < |run|
    ensures SaveInvariant(c, h0, run[n])
    ensures run[n].saver.Writing? && run[n].saver.pos == |At(h0, |h0|)|
            ==> run[n].saver.out == Stream(c, At(h0, |h0|))
  {
    var m := At(h0, |h0|);
    var keys := Sorted(m.Keys);
    if n == 0 {
      RebuiltFromPairs(m);
    } else {
      SavedStreamIsPointInTime(c, h0, run, n - 1);
      AtIsStable(h0, run[n - 1].h, |h0|);
      assert SaveStep(c, |h0|, run[n - 1], run[n - 1 + 1]);
      if run[n].saver != run[n - 1].saver {
        SaverStepKeepsInvariant(c, m, keys, run[n - 1].saver, run[n].saver);
      }
    }
    assert keys[..|keys|] == keys;
  }
}
