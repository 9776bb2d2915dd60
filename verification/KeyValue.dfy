/** The key-value state that the Raft log determines: commands, write batches, and the
    store after a prefix of the log, with the applied index kept inside the store. */
module KeyValue {
  import opened ByteStrings
  import opened Seqs

  type Store = map<Bytes, Bytes>
  type Batch = seq<(Bytes, Bytes)>

  function Ascii(s: string): (r: Bytes)
    requires forall i :: 0 <= i < |s| ==> s[i] < 128 as char
    ensures |r| == |s| && forall i :: 0 <= i < |s| ==> r[i] == s[i] as int < 128
  {
    seq(|s|, i requires 0 <= i < |s| => s[i] as int)
  }

  function AppliedIndexKey(): Bytes { Ascii("disk_kv_applied_index") }

  /** The command struct. */
  datatype Action = Action(action: Bytes, key: Bytes, val: Bytes)

  /** The length of a Go slice is a non-negative int64. */
  type SliceLength = n: nat | n < TWO63

  /** The JSON codec: json.Marshal, json.Unmarshal into an empty struct (None is an error), what
      json.Unmarshal leaves in a struct that was filled before, errors ignored, and what is JSON at
      all. Texts are byte slices of at most maxAlloc bytes: make panics beyond that. */
  datatype Codec = Codec(
    encode: Action -> Bytes,
    decode: Bytes -> Option<Action>,
    fill: (Bytes, Action) -> Action,
    isJson: Bytes -> bool,
    maxAlloc: SliceLength)

  predicate IsText(a: Action) {
    ValidUtf8(a.action) && ValidUtf8(a.key) && ValidUtf8(a.val)
  }

  /** All that is assumed of JSON: text survives the round trip, whatever the struct held before,
      decoding yields text, and bytes that are not JSON are an error that leaves the struct alone. */
  ghost predicate CodecContract(c: Codec) {
    && (forall a: Action :: IsText(a) ==> c.decode(c.encode(a)) == Some(a))
    && (forall a: Action, before: Action :: IsText(a) ==> c.fill(c.encode(a), before) == a)
    && (forall b: Bytes :: c.decode(b).Some? ==> IsText(c.decode(b).value))
    && (forall a: Action :: IsText(a) ==> c.isJson(c.encode(a)))
    && (forall b: Bytes :: !c.isJson(b) ==> c.decode(b) == None)
    && (forall b: Bytes, before: Action :: !c.isJson(b) ==> c.fill(b, before) == before)
  }

  // ----- the assumption is satisfiable: fields separated by a byte UTF-8 never uses -----

  function PlainEncode(a: Action): Bytes { a.action + [0xFF] + (a.key + [0xFF] + a.val) }

  function IndexOfFF(b: Bytes): (i: nat)
    ensures i <= |b| && (i < |b| ==> b[i] == 0xFF)
  {
    if b == [] || b[0] == 0xFF then 0 else 1 + IndexOfFF(b[1..])
  }

  function CutAtFF(b: Bytes): Option<(Bytes, Bytes)> {
    var i := IndexOfFF(b);
    if i == |b| then None else Some((b[..i], b[i + 1..]))
  }

  function PlainDecode(b: Bytes): Option<Action> {
    match CutAtFF(b)
    case None => None
    case Some((action, rest)) =>
      match CutAtFF(rest)
      case None => None
      case Some((key, val)) =>
        if IsText(Action(action, key, val)) then Some(Action(action, key, val)) else None
  }

  function PlainFill(b: Bytes, before: Action): Action {
    match PlainDecode(b)
    case None => before
    case Some(a) => a
  }

  lemma {:induction false} IndexOfFFAfter(p: Bytes, rest: Bytes)
    requires 0xFF !in p
    ensures IndexOfFF(p + [0xFF] + rest) == |p|
  {
    var b := p + [0xFF] + rest;
    if p == [] {
      assert b[0] == 0xFF;
    } else {
      assert b[0] == p[0] && p[0] in p;
      assert b[1..] == p[1..] + [0xFF] + rest;
      IndexOfFFAfter(p[1..], rest);
    }
  }

  lemma CutAfterField(p: Bytes, rest: Bytes)
    requires 0xFF !in p
    ensures CutAtFF(p + [0xFF] + rest) == Some((p, rest))
  {
    IndexOfFFAfter(p, rest);
    ConcatAssoc(p, [0xFF], rest);
    DropOfConcat(p, [0xFF] + rest);
    DropOfConcat(p + [0xFF], rest);
  }

  lemma PlainRoundTrip(a: Action)
    requires IsText(a)
    ensures PlainDecode(PlainEncode(a)) == Some(a)
  {
    ValidUtf8HasNoFF(a.action);
    ValidUtf8HasNoFF(a.key);
    CutAfterField(a.action, a.key + [0xFF] + a.val);
    CutAfterField(a.key, a.val);
  }

  lemma CodecContractIsSatisfiable(maxAlloc: SliceLength)
    ensures CodecContract(Codec(PlainEncode, PlainDecode, PlainFill, b => PlainDecode(b).Some?, maxAlloc))
  {
    forall a: Action | IsText(a) ensures PlainDecode(PlainEncode(a)) == Some(a) {
      PlainRoundTrip(a);
    }
  }

  // ----- write batches -----

  /** RocksDB applies a batch atomically, put after put. */
  function ApplyBatch(m: Store, wb: Batch): Store {
    if wb == [] then m
    else ApplyBatch(m, wb[..|wb| - 1])[wb[|wb| - 1].0 := wb[|wb| - 1].1]
  }

  lemma {:induction false} ApplyBatchConcat(m: Store, a: Batch, b: Batch)
    ensures ApplyBatch(m, a + b) == ApplyBatch(ApplyBatch(m, a), b)
  {
    if b == [] {
      assert a + b == a;
    } else {
      assert (a + b)[..|a + b| - 1] == a + b[..|b| - 1];
      ApplyBatchConcat(m, a, b[..|b| - 1]);
    }
  }

  lemma WritesCommute(m1: Store, m2: Store, k': Bytes, v': Bytes, k: Bytes, y: Bytes)
    requires m1[k := y] == m2[k := y]
    ensures m1[k' := v'][k := y] == m2[k' := v'][k := y]
  {
    var n1, n2 := m1[k := y], m2[k := y];
    assert m1.Keys + {k} == n1.Keys == n2.Keys == m2.Keys + {k};
    forall x | x in n1 && x != k ensures x in m1 && x in m2 && m1[x] == m2[x] {
      assert n1[x] == n2[x];
    }
    assert m1[k' := v'][k := y].Keys == m2[k' := v'][k := y].Keys;
  }

  /** A key that is written at the end does not care what it held before the batch. */
  lemma {:induction false} LastWriteWins(m: Store, wb: Batch, k: Bytes, x: Bytes, y: Bytes)
    ensures ApplyBatch(m[k := x], wb)[k := y] == ApplyBatch(m, wb)[k := y]
  {
    if wb != [] {
      LastWriteWins(m, wb[..|wb| - 1], k, x, y);
      var m1, m2 := ApplyBatch(m[k := x], wb[..|wb| - 1]), ApplyBatch(m, wb[..|wb| - 1]);
      WritesCommute(m1, m2, wb[|wb| - 1].0, wb[|wb| - 1].1, k, y);
    }
  }

  lemma {:induction false} ApplyBatchGrows(m: Store, wb: Batch)
    ensures m.Keys <= ApplyBatch(m, wb).Keys
    ensures forall i :: 0 <= i < |wb| ==> wb[i].0 in ApplyBatch(m, wb)
  {
    if wb != [] {
      ApplyBatchGrows(m, wb[..|wb| - 1]);
      forall i | 0 <= i < |wb| - 1 ensures wb[i].0 in ApplyBatch(m, wb) {
        assert wb[i] == wb[..|wb| - 1][i];
      }
    }
  }

  // ----- the log -----

  datatype Entry = Entry(index: nat, cmd: Bytes)

  /** Raft hands out entries at strictly increasing 64-bit indices. */
  ghost predicate IsLog(log: seq<Entry>) {
    && (forall i :: 0 <= i < |log| ==> 1 <= log[i].index < TWO64)
    && (forall i, j :: 0 <= i < j < |log| ==> log[i].index < log[j].index)
  }

  predicate Decodes(c: Codec, ents: seq<Entry>) {
    forall i :: 0 <= i < |ents| ==> c.decode(ents[i].cmd).Some?
  }

  function PutOf(c: Codec, e: Entry): Batch {
    match c.decode(e.cmd)
    case Some(a) => [(a.key, a.val)]
    case None => []
  }

  function Puts(c: Codec, ents: seq<Entry>): Batch {
    if ents == [] then [] else Puts(c, ents[..|ents| - 1]) + PutOf(c, ents[|ents| - 1])
  }

  lemma {:induction false} PutsConcat(c: Codec, a: seq<Entry>, b: seq<Entry>)
    ensures Puts(c, a + b) == Puts(c, a) + Puts(c, b)
  {
    if b == [] {
      assert a + b == a;
    } else {
      assert (a + b)[..|a + b| - 1] == a + b[..|b| - 1];
      PutsConcat(c, a, b[..|b| - 1]);
    }
  }

  /** The index a replica reports after the first n entries. */
  function Applied(log: seq<Entry>, n: nat): nat
    requires n <= |log|
  {
    if n == 0 then 0 else log[n - 1].index
  }

  /** The store after the first n entries, whatever the batches were. */
  function StoreAt(c: Codec, log: seq<Entry>, n: nat): Store
    requires n <= |log|
  {
    if n == 0 then map[]
    else ApplyBatch(map[], Puts(c, log[..n]))[AppliedIndexKey() := Decimal(log[n - 1].index)]
  }

  /** The write batch of one Update call: the puts of the entries, then the applied index. */
  function UpdateBatch(c: Codec, ents: seq<Entry>): Batch
    requires ents != []
  {
    Puts(c, ents) + [(AppliedIndexKey(), Decimal(ents[|ents| - 1].index))]
  }

  function AfterUpdate(c: Codec, m: Store, ents: seq<Entry>): Store
    requires ents != []
  {
    ApplyBatch(m, UpdateBatch(c, ents))
  }

  /** Applying the next slice of the log as one batch extends the fold, even when
      entries write the applied-index key themselves. */
  lemma UpdateExtendsFold(c: Codec, log: seq<Entry>, j: nat, k: nat)
    requires j < k <= |log|
    ensures AfterUpdate(c, StoreAt(c, log, j), log[j..k]) == StoreAt(c, log, k)
  {
    var ents := log[j..k];
    var ak, idx := AppliedIndexKey(), Decimal(log[k - 1].index);
    assert ents[|ents| - 1] == log[k - 1];
    var wb := Puts(c, ents);
    assert (wb + [(ak, idx)])[..|wb + [(ak, idx)]| - 1] == wb;
    assert AfterUpdate(c, StoreAt(c, log, j), ents) == ApplyBatch(StoreAt(c, log, j), wb)[ak := idx];
    assert log[..k] == log[..j] + ents;
    PutsConcat(c, log[..j], ents);
    ApplyBatchConcat(map[], Puts(c, log[..j]), wb);
    if j > 0 {
      LastWriteWins(ApplyBatch(map[], Puts(c, log[..j])), wb, ak, Decimal(log[j - 1].index), idx);
    } else {
      assert log[..0] == [];
    }
  }

  /** Keys are never removed. */
  lemma KeysOnlyGrow(c: Codec, log: seq<Entry>, j: nat, k: nat)
    requires j <= k <= |log|
    ensures StoreAt(c, log, j).Keys <= StoreAt(c, log, k).Keys
  {
    if j < k {
      UpdateExtendsFold(c, log, j, k);
      ApplyBatchGrows(StoreAt(c, log, j), UpdateBatch(c, log[j..k]));
    }
  }

  /** queryAppliedIndex; None is a parse error. */
  function QueryAppliedIndex(m: Store): Option<nat> {
    var ak := AppliedIndexKey();
    if ak !in m || m[ak] == [] then Some(0) else ParseUint(m[ak])
  }

  /** What a stored index text means: nothing or an empty text is 0, a decimal with or without leading
      zeros is its value, and anything else, as well as a number beyond 64 bits, is an error. */
  lemma StoredIndexTexts(m: Store, text: Bytes, n: nat)
    ensures QueryAppliedIndex(m - {AppliedIndexKey()}) == QueryAppliedIndex(m[AppliedIndexKey() := []]) == Some(0)
    ensures text != [] ==>
              (QueryAppliedIndex(m[AppliedIndexKey() := text]) == Some(n) <==> IsNumeral(text, n) && n < TWO64)
  {
    NumeralIsExact(text, n);
  }

  lemma StoreKnowsItsIndex(c: Codec, log: seq<Entry>, n: nat)
    requires IsLog(log) && n <= |log|
    ensures QueryAppliedIndex(StoreAt(c, log, n)) == Some(Applied(log, n))
  {
    if n > 0 {
      ParseUintInvertsDecimal(log[n - 1].index);
    }
  }

  lemma AppliedInjective(log: seq<Entry>, j: nat, k: nat)
    requires IsLog(log) && j <= |log| && k <= |log|
    ensures Applied(log, j) <= Applied(log, k) <==> j <= k
    ensures Applied(log, j) == Applied(log, k) <==> j == k
  {
  }

  // ----- everything stored is text -----

  ghost predicate TextBatch(wb: Batch) {
    forall i :: 0 <= i < |wb| ==> ValidUtf8(wb[i].0) && ValidUtf8(wb[i].1)
  }

  ghost predicate TextStore(m: Store) {
    forall k :: k in m ==> ValidUtf8(k) && ValidUtf8(m[k])
  }

  lemma {:induction false} ApplyBatchKeepsText(m: Store, wb: Batch)
    requires TextStore(m) && TextBatch(wb)
    ensures TextStore(ApplyBatch(m, wb))
  {
    if wb != [] {
      assert forall i :: 0 <= i < |wb| - 1 ==> wb[..|wb| - 1][i] == wb[i];
      ApplyBatchKeepsText(m, wb[..|wb| - 1]);
    }
  }

  lemma {:induction false} PutsAreText(c: Codec, ents: seq<Entry>)
    requires CodecContract(c)
    ensures TextBatch(Puts(c, ents))
  {
    if ents != [] {
      PutsAreText(c, ents[..|ents| - 1]);
    }
  }

  /** Every key and value of a reachable store is valid UTF-8, because it came out of the
      JSON decoder or is the applied index. */
  lemma StoreIsText(c: Codec, log: seq<Entry>, n: nat)
    requires CodecContract(c) && n <= |log|
    ensures TextStore(StoreAt(c, log, n))
  {
    if n > 0 {
      PutsAreText(c, log[..n]);
      ApplyBatchKeepsText(map[], Puts(c, log[..n]));
      AsciiIsValidUtf8(AppliedIndexKey());
      AsciiIsValidUtf8(Decimal(log[n - 1].index));
    }
  }
}
