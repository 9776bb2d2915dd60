/** The first-run setup: a leader that finds nothing under the root key proposes the root key
    and one key per configured command. Several leaders may do so at once. */
module Bootstrap {
  import opened ByteStrings
  import opened Seqs
  import opened Ordering
  import opened KeyValue

  function RootKey(): Bytes { Ascii("__dcron") }

  /** fmt.Sprintf("%s::%d", ROOT_KEY, idx) */
  function CommandKey(idx: nat): Bytes { RootKey() + Ascii("::") + Decimal(idx) }

  function CommandPuts(commands: seq<Bytes>): (wb: Batch)
    ensures |wb| == |commands| && forall i :: 0 <= i < |commands| ==> wb[i] == (CommandKey(i), commands[i])
  {
    seq(|commands|, i requires 0 <= i < |commands| => (CommandKey(i), commands[i]))
  }

  /** The puts of one bootstrap of a configuration, commands given as their JSON text. */
  function BootstrapPuts(commands: seq<Bytes>): Batch {
    [(RootKey(), Ascii("OK"))] + CommandPuts(commands)
  }

  /** The command that is proposed for a put. */
  function Proposal(c: Codec, p: (Bytes, Bytes)): Bytes { c.encode(Action(Ascii("PUT"), p.0, p.1)) }

  /** The commands of one bootstrap. */
  function Proposals(c: Codec, commands: seq<Bytes>): (cmds: seq<Bytes>)
    ensures |cmds| == |commands| + 1
    ensures forall i :: 0 <= i <= |commands| ==> cmds[i] == Proposal(c, BootstrapPuts(commands)[i])
  {
    seq(|commands| + 1, i requires 0 <= i <= |commands| => Proposal(c, BootstrapPuts(commands)[i]))
  }

  /** The proposing loop: one action, filled anew for each command. */
  method Propose(c: Codec, commands: seq<Bytes>) returns (cmds: seq<Bytes>)
    ensures cmds == Proposals(c, commands)
  {
    var action := Action(Ascii("PUT"), RootKey(), Ascii("OK"));
    cmds := [c.encode(action)];
    var idx := 0;
    while idx < |commands|
      invariant 0 <= idx <= |commands| && action.action == Ascii("PUT")
      invariant cmds == Proposals(c, commands)[..idx + 1]
    {
      action := action.(key := CommandKey(idx));
      action := action.(val := commands[idx]);
      SliceSnoc(Proposals(c, commands), 0, idx + 1);
      cmds := cmds + [c.encode(action)];
      idx := idx + 1;
    }
  }

  lemma CommandKeysDistinct(i: nat, j: nat)
    ensures CommandKey(i) != RootKey() && HasPrefix(CommandKey(i), RootKey())
    ensures CommandKey(i) == CommandKey(j) ==> i == j
  {
    var p := RootKey() + Ascii("::");
    assert CommandKey(i)[|p|..] == Decimal(i) && CommandKey(j)[|p|..] == Decimal(j);
    if CommandKey(i) == CommandKey(j) {
      DecimalInjective(i, j);
    }
    assert |CommandKey(i)| > |RootKey()|;
    assert CommandKey(i)[..|RootKey()|] == RootKey();
  }

  /** The key of command idx: the root key, two colons, and the number without leading zeros. */
  lemma CommandKeyText(idx: nat)
    ensures |CommandKey(idx)| > 9 && CommandKey(idx)[..9] == Ascii("__dcron::")
    ensures idx < TWO64 ==> ParseUint(CommandKey(idx)[9..]) == Some(idx)
    ensures if idx == 0 then CommandKey(idx) == Ascii("__dcron::0") else CommandKey(idx)[9] != 48
  {
    var p := RootKey() + Ascii("::");
    assert p == Ascii("__dcron::") && |p| == 9;
    assert CommandKey(idx)[..9] == p && CommandKey(idx)[9..] == Decimal(idx);
    if idx < TWO64 {
      ParseUintInvertsDecimal(idx);
    }
    DecimalIsCanonical(idx);
    if idx == 0 {
      assert CommandKey(0) == p + [48];
    }
  }

  /** The applied-index key is not under the root key. */
  lemma AppliedIndexKeyIsApart()
    ensures !HasPrefix(AppliedIndexKey(), RootKey())
  {
    assert AppliedIndexKey()[0] == 'd' as int && RootKey()[0] == '_' as int;
  }

  /** The map a bootstrap of the configuration stands for. */
  function ConfigMap(commands: seq<Bytes>): Store { ApplyBatch(map[], BootstrapPuts(commands)) }

  /** All puts to k put v. */
  ghost predicate Agrees(wb: Batch, k: Bytes, v: Bytes) {
    forall i :: 0 <= i < |wb| && wb[i].0 == k ==> wb[i].1 == v
  }

  /** A key whose puts all agree ends up with that value, from whatever it held before. */
  lemma {:induction false} AgreedValue(m: Store, wb: Batch, k: Bytes, v: Bytes)
    requires Agrees(wb, k, v) && (k, v) in wb
    ensures k in ApplyBatch(m, wb) && ApplyBatch(m, wb)[k] == v
  {
    var n := |wb| - 1;
    if wb[n].0 != k {
      assert wb == wb[..n] + [wb[n]];
      assert (k, v) in wb[..n];
      AgreedValue(m, wb[..n], k, v);
    }
  }

  lemma {:induction false} OnlyPutKeys(m: Store, wb: Batch, k: Bytes)
    requires k in ApplyBatch(m, wb) && k !in m
    ensures exists i :: 0 <= i < |wb| && wb[i].0 == k
  {
    var n := |wb| - 1;
    if wb[n].0 != k {
      OnlyPutKeys(m, wb[..n], k);
      var i :| 0 <= i < n && wb[..n][i].0 == k;
      assert wb[i].0 == k;
    }
  }

  /** A bootstrap agrees with itself: its keys are distinct. */
  lemma BootstrapAgrees(commands: seq<Bytes>, i: nat)
    requires i < |BootstrapPuts(commands)|
    ensures var (k, v) := BootstrapPuts(commands)[i]; Agrees(BootstrapPuts(commands), k, v) && HasPrefix(k, RootKey())
  {
    var wb := BootstrapPuts(commands);
    forall j | 0 <= j < |wb| && j != i ensures wb[j].0 != wb[i].0 {
      if i < j { BootstrapKeysDistinct(commands, i, j); } else { BootstrapKeysDistinct(commands, j, i); }
    }
    if i > 0 { CommandKeysDistinct(i - 1, 0); }
  }

  lemma BootstrapKeysDistinct(commands: seq<Bytes>, i: nat, j: nat)
    requires i < j < |BootstrapPuts(commands)|
    ensures BootstrapPuts(commands)[i].0 != BootstrapPuts(commands)[j].0
  {
    if i == 0 {
      CommandKeysDistinct(j - 1, 0);
    } else {
      CommandKeysDistinct(i - 1, j - 1);
    }
  }

  /** The root key plus one distinct key per configured command, with its text. */
  lemma ConfigMapContents(commands: seq<Bytes>)
    ensures RootKey() in ConfigMap(commands) && ConfigMap(commands)[RootKey()] == Ascii("OK")
    ensures forall i :: 0 <= i < |commands| ==>
              CommandKey(i) in ConfigMap(commands) && ConfigMap(commands)[CommandKey(i)] == commands[i]
    ensures forall k :: k in ConfigMap(commands) ==>
              exists i :: 0 <= i <= |commands| && BootstrapPuts(commands)[i].0 == k
  {
    var wb := BootstrapPuts(commands);
    forall i | 0 <= i < |wb| ensures wb[i].0 in ConfigMap(commands) && ConfigMap(commands)[wb[i].0] == wb[i].1 {
      BootstrapAgrees(commands, i);
      assert wb[i] in wb;
      AgreedValue(map[], wb, wb[i].0, wb[i].1);
    }
    assert wb[0] == (RootKey(), Ascii("OK"));
    forall i | 0 <= i < |commands|
      ensures CommandKey(i) in ConfigMap(commands) && ConfigMap(commands)[CommandKey(i)] == commands[i]
    {
      assert wb[i + 1] == (CommandKey(i), commands[i]);
    }
    forall k | k in ConfigMap(commands) ensures exists i :: 0 <= i <= |commands| && BootstrapPuts(commands)[i].0 == k {
      OnlyPutKeys(map[], wb, k);
    }
  }

  /** The part of a store a scan of the root key sees. */
  function UnderRoot(m: Store): Store { map k | k in m && HasPrefix(k, RootKey()) :: m[k] }

  /** Whoever writes a key of the configuration writes its configured value. Other keys, under the
      root or not, may be written with anything. */
  ghost predicate OnlyConfigured(commands: seq<Bytes>, wb: Batch) {
    forall i :: 0 <= i < |wb| && wb[i].0 in ConfigMap(commands) ==> wb[i].1 == ConfigMap(commands)[wb[i].0]
  }

  /** At least one bootstrap has been applied completely, in any order and mixed with anything. */
  ghost predicate Complete(commands: seq<Bytes>, wb: Batch) {
    forall i :: 0 <= i < |BootstrapPuts(commands)| ==> BootstrapPuts(commands)[i] in wb
  }

  /** m has all keys of c, with the same values. */
  ghost predicate Contains(m: Store, c: Store) {
    forall k :: k in c ==> k in m && m[k] == c[k]
  }

  /** The configuration's map is what its puts say. */
  lemma ConfigMapOfPut(commands: seq<Bytes>, i: nat)
    requires i < |BootstrapPuts(commands)|
    ensures var (k, v) := BootstrapPuts(commands)[i]; k in ConfigMap(commands) && ConfigMap(commands)[k] == v
  {
    var puts := BootstrapPuts(commands);
    BootstrapAgrees(commands, i);
    assert puts[i] in puts;
    AgreedValue(map[], puts, puts[i].0, puts[i].1);
  }

  lemma PutOfConfigKey(commands: seq<Bytes>, k: Bytes) returns (i: nat)
    requires k in ConfigMap(commands)
    ensures i < |BootstrapPuts(commands)| && BootstrapPuts(commands)[i] == (k, ConfigMap(commands)[k])
  {
    OnlyPutKeys(map[], BootstrapPuts(commands), k);
    i :| 0 <= i < |BootstrapPuts(commands)| && BootstrapPuts(commands)[i].0 == k;
    ConfigMapOfPut(commands, i);
  }

  /** Any overlap of bootstraps of one configuration, at least one of them complete, gives every
      key of the configuration its value, from any store and whatever else is written meanwhile. */
  lemma OverlappingBootstrapsConverge(commands: seq<Bytes>, m: Store, wb: Batch)
    requires OnlyConfigured(commands, wb) && Complete(commands, wb)
    ensures Contains(ApplyBatch(m, wb), ConfigMap(commands))
  {
    forall k | k in ConfigMap(commands)
      ensures k in ApplyBatch(m, wb) && ApplyBatch(m, wb)[k] == ConfigMap(commands)[k]
    {
      var i := PutOfConfigKey(commands, k);
      AgreedValue(m, wb, k, ConfigMap(commands)[k]);
    }
  }

  /** From an empty store this takes a complete bootstrap. */
  lemma BootstrapTakesAll(commands: seq<Bytes>, wb: Batch)
    requires OnlyConfigured(commands, wb)
    ensures Contains(ApplyBatch(map[], wb), ConfigMap(commands)) <==> Complete(commands, wb)
  {
    if Complete(commands, wb) {
      OverlappingBootstrapsConverge(commands, map[], wb);
    }
    if Contains(ApplyBatch(map[], wb), ConfigMap(commands)) {
      forall i | 0 <= i < |BootstrapPuts(commands)| ensures BootstrapPuts(commands)[i] in wb {
        var (k, v) := BootstrapPuts(commands)[i];
        ConfigMapOfPut(commands, i);
        OnlyPutKeys(map[], wb, k);
        var j :| 0 <= j < |wb| && wb[j].0 == k;
        assert wb[j] == (k, v);
      }
    }
  }

  /** The replicated store: after any log prefix in which the bootstraps of one configuration
      overlap and one is complete, every replica holds the whole configuration. Jobs added under
      other keys do not disturb it. */
  lemma ReplicatedBootstrapConverges(c: Codec, log: seq<Entry>, n: nat, commands: seq<Bytes>)
    requires n <= |log|
    requires OnlyConfigured(commands, Puts(c, log[..n])) && Complete(commands, Puts(c, log[..n]))
    ensures Contains(StoreAt(c, log, n), ConfigMap(commands))
  {
    OverlappingBootstrapsConverge(commands, map[], Puts(c, log[..n]));
    assert BootstrapPuts(commands)[0] in Puts(c, log[..n]);
    assert log[..0] == [];
    forall k | k in ConfigMap(commands) ensures k != AppliedIndexKey() {
      ConfigKeyUnderRoot(commands, k);
      AppliedIndexKeyIsApart();
    }
  }

  lemma ConfigKeyUnderRoot(commands: seq<Bytes>, k: Bytes)
    requires k in ConfigMap(commands)
    ensures HasPrefix(k, RootKey())
  {
    var i := PutOfConfigKey(commands, k);
    BootstrapAgrees(commands, i);
  }

  /** Nobody puts any other key under the root. */
  ghost predicate NothingElseUnderRoot(commands: seq<Bytes>, wb: Batch) {
    forall i :: 0 <= i < |wb| && HasPrefix(wb[i].0, RootKey()) ==> wb[i].0 in ConfigMap(commands)
  }

  /** If moreover nothing else is put under the root key, a scan of it sees exactly the map of the
      configuration. */
  lemma ScanSeesConfiguration(c: Codec, log: seq<Entry>, n: nat, commands: seq<Bytes>)
    requires n <= |log|
    requires OnlyConfigured(commands, Puts(c, log[..n])) && Complete(commands, Puts(c, log[..n]))
    requires NothingElseUnderRoot(commands, Puts(c, log[..n]))
    ensures UnderRoot(StoreAt(c, log, n)) == ConfigMap(commands)
  {
    var m, wb := StoreAt(c, log, n), Puts(c, log[..n]);
    ReplicatedBootstrapConverges(c, log, n, commands);
    forall k | k in ConfigMap(commands) ensures k in UnderRoot(m) && UnderRoot(m)[k] == ConfigMap(commands)[k] {
      ConfigKeyUnderRoot(commands, k);
    }
    forall k | k in UnderRoot(m) ensures k in ConfigMap(commands) {
      AppliedIndexKeyIsApart();
      assert k in ApplyBatch(map[], wb);
      OnlyPutKeys(map[], wb, k);
    }
    assert UnderRoot(m).Keys == ConfigMap(commands).Keys;
  }

  // ----- from proposals to puts -----

  lemma RootPutIsText()
    ensures ValidUtf8(RootKey()) && ValidUtf8(Ascii("OK"))
  {
    AsciiIsValidUtf8(RootKey());
    AsciiIsValidUtf8(Ascii("OK"));
  }

  lemma CommandKeyIsText(idx: nat)
    ensures ValidUtf8(CommandKey(idx))
  {
    AsciiIsValidUtf8(CommandKey(idx));
  }

  ghost predicate AllText(commands: seq<Bytes>) { forall i :: 0 <= i < |commands| ==> ValidUtf8(commands[i]) }

  lemma BootstrapPutIsText(commands: seq<Bytes>, i: nat)
    requires AllText(commands) && i <= |commands|
    ensures ValidUtf8(BootstrapPuts(commands)[i].0) && ValidUtf8(BootstrapPuts(commands)[i].1)
  {
    if i == 0 {
      RootPutIsText();
    } else {
      CommandKeyIsText(i - 1);
      assert BootstrapPuts(commands)[i] == (CommandKey(i - 1), commands[i - 1]);
    }
  }

  /** An encoded PUT action is applied as that put. */
  lemma PutOfEncoded(c: Codec, p: (Bytes, Bytes), index: nat)
    requires CodecContract(c) && ValidUtf8(p.0) && ValidUtf8(p.1)
    ensures PutOf(c, Entry(index, Proposal(c, p))) == [p]
  {
    AsciiIsValidUtf8(Ascii("PUT"));
    assert IsText(Action(Ascii("PUT"), p.0, p.1));
  }

  lemma PutOfProposal(c: Codec, commands: seq<Bytes>, i: nat, e: Entry)
    requires CodecContract(c) && AllText(commands) && i <= |commands| && e.cmd == Proposals(c, commands)[i]
    ensures PutOf(c, e) == [BootstrapPuts(commands)[i]]
  {
    BootstrapPutIsText(commands, i);
    PutOfEncoded(c, BootstrapPuts(commands)[i], e.index);
  }

  lemma {:induction false} PutOfEntry(c: Codec, ents: seq<Entry>, j: nat)
    requires j < |ents| && |PutOf(c, ents[j])| == 1
    ensures PutOf(c, ents[j])[0] in Puts(c, ents)
  {
    var n := |ents| - 1;
    if j < n {
      PutOfEntry(c, ents[..n], j);
    }
  }

  lemma {:induction false} EntryOfPut(c: Codec, ents: seq<Entry>, i: nat) returns (j: nat)
    requires i < |Puts(c, ents)|
    ensures j < |ents| && PutOf(c, ents[j]) == [Puts(c, ents)[i]]
  {
    var n := |ents| - 1;
    j := n;
    if i < |Puts(c, ents[..n])| {
      j := EntryOfPut(c, ents[..n], i);
    }
  }

  ghost predicate Logged(ents: seq<Entry>, cmd: Bytes) { exists j :: 0 <= j < |ents| && ents[j].cmd == cmd }

  /** The log has every proposal of a bootstrap, in any order and mixed with anything. */
  ghost predicate AllProposed(c: Codec, commands: seq<Bytes>, ents: seq<Entry>) {
    forall i :: 0 <= i <= |commands| ==> Logged(ents, Proposals(c, commands)[i])
  }

  /** Only bootstraps of this configuration write its keys. */
  ghost predicate OnlyProposed(c: Codec, commands: seq<Bytes>, ents: seq<Entry>) {
    forall j :: 0 <= j < |ents| && c.decode(ents[j].cmd).Some? && c.decode(ents[j].cmd).value.key in ConfigMap(commands)
                ==> ents[j].cmd in Proposals(c, commands)
  }

  lemma ProposedIsComplete(c: Codec, commands: seq<Bytes>, ents: seq<Entry>)
    requires CodecContract(c) && AllText(commands) && AllProposed(c, commands, ents)
    ensures Complete(commands, Puts(c, ents))
  {
    forall i | 0 <= i < |BootstrapPuts(commands)| ensures BootstrapPuts(commands)[i] in Puts(c, ents) {
      assert Logged(ents, Proposals(c, commands)[i]);
      var j :| 0 <= j < |ents| && ents[j].cmd == Proposals(c, commands)[i];
      PutOfProposal(c, commands, i, ents[j]);
      PutOfEntry(c, ents, j);
    }
  }

  lemma ProposedIsConfigured(c: Codec, commands: seq<Bytes>, ents: seq<Entry>)
    requires CodecContract(c) && AllText(commands) && OnlyProposed(c, commands, ents)
    ensures OnlyConfigured(commands, Puts(c, ents))
  {
    var wb := Puts(c, ents);
    forall i | 0 <= i < |wb| && wb[i].0 in ConfigMap(commands) ensures wb[i].1 == ConfigMap(commands)[wb[i].0] {
      var j := EntryOfPut(c, ents, i);
      assert c.decode(ents[j].cmd).value.key == wb[i].0;
      var p := IndexOf(Proposals(c, commands), ents[j].cmd);
      PutOfProposal(c, commands, p, ents[j]);
      ConfigMapOfPut(commands, p);
    }
  }

  /** From the commands that leaders propose to the store: once a log prefix has all proposals of a
      bootstrap, and nobody else writes those keys, every replica has the configuration. */
  lemma ProposedBootstrapConverges(c: Codec, log: seq<Entry>, n: nat, commands: seq<Bytes>)
    requires CodecContract(c) && n <= |log| && AllText(commands)
    requires AllProposed(c, commands, log[..n]) && OnlyProposed(c, commands, log[..n])
    ensures Contains(StoreAt(c, log, n), ConfigMap(commands))
  {
    ProposedIsComplete(c, commands, log[..n]);
    ProposedIsConfigured(c, commands, log[..n]);
    ReplicatedBootstrapConverges(c, log, n, commands);
  }

  /** Once one bootstrap put is in the log, no later scan of the root key is empty, so no leader
      that reads the store from then on starts another bootstrap. */
  lemma NoSecondFirstRun(c: Codec, log: seq<Entry>, n: nat, later: nat, commands: seq<Bytes>, i: nat)
    requires n <= later <= |log| && i < |BootstrapPuts(commands)|
    requires BootstrapPuts(commands)[i] in Puts(c, log[..n])
    ensures UnderRoot(StoreAt(c, log, later)) != map[]
  {
    var k := BootstrapPuts(commands)[i].0;
    var wb := Puts(c, log[..n]);
    ApplyBatchGrows(map[], wb);
    var j :| 0 <= j < |wb| && wb[j] == BootstrapPuts(commands)[i];
    BootstrapAgrees(commands, i);
    KeysOnlyGrow(c, log, n, later);
    assert log[..0] == [];
    assert k in UnderRoot(StoreAt(c, log, later));
  }
}
