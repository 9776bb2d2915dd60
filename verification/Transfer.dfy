/** A snapshot from one replica to another: saved while the sender goes on applying the log, then
    installed by the receiver. */
module Transfer {
  import opened ByteStrings
  import opened KeyValue
  import opened Snapshot
  import opened Disk
  import opened Replica

  /** The sender: its node, and the snapshot in progress over the write history of its database. */
  datatype Sender = Sender(node: Node, save: SaveState)

  /** The node serves the first n entries of the log, and the history is that of its database. */
  ghost predicate Serving(env: Env, lv: Durability, log: seq<Entry>, s: Sender, n: nat)
    requires EnvContract(env)
  {
    && s.node.proc.Up? && Holds(env, lv, log, s.node.disk, s.node.proc.base, n)
    && s.node.proc.lastApplied == Applied(log, n)
    && At(s.save.h, |s.save.h|) == StoreAt(env.codec, log, n)
  }

  /** An Update call of the node appends its write batch to the history. */
  ghost predicate UpdateTo(env: Env, log: seq<Entry>, a: Sender, b: Sender, j: nat, k: nat)
    requires Setting(env, log)
  {
    && Enabled(env, log, a.node, Update(j, k)) && Decodes(env.codec, log[j..k])
    && b.node == UpdateNode(env, a.node, log[j..k])
    && b.save == SaveState(a.save.h + [UpdateBatch(env.codec, log[j..k])], a.save.saver)
  }

  /** The saver moves on, or the node applies the next entries. */
  ghost predicate SenderStep(env: Env, log: seq<Entry>, at: nat, a: Sender, b: Sender)
    requires Setting(env, log)
  {
    || (b.node == a.node && b.save.h == a.save.h && SaveStep(env.codec, at, a.save, b.save))
    || (exists j, k :: UpdateTo(env, log, a, b, j, k))
  }

  /** A run that starts when PrepareSnapshot has taken a snapshot of the first n entries. */
  ghost predicate SenderRun(env: Env, lv: Durability, log: seq<Entry>, run: seq<Sender>, n: nat)
    requires Setting(env, log)
  {
    && |run| > 0 && Serving(env, lv, log, run[0], n) && run[0].save.saver == Counting(0, 0)
    && forall i :: 0 <= i < |run| - 1 ==> SenderStep(env, log, |run[0].save.h|, run[i], run[i + 1])
  }

  lemma AtSnoc(h: History, wb: Batch)
    ensures At(h + [wb], |h| + 1) == ApplyBatch(At(h, |h|), wb)
  {
    AtIsStable(h, h + [wb], |h|);
  }

  lemma UpdateKeepsServing(env: Env, lv: Durability, log: seq<Entry>, a: Sender, b: Sender, n: nat, j: nat, k: nat)
    requires Setting(env, log) && Serving(env, lv, log, a, n) && UpdateTo(env, log, a, b, j, k)
    ensures n < k <= |log| && Serving(env, lv, log, b, k)
  {
    AppliedInjective(log, n, j);
    UpdateServes(env, lv, log, a.node, n, k);
    AtSnoc(a.save.h, UpdateBatch(env.codec, log[j..k]));
    UpdateExtendsFold(env.codec, log, n, k);
  }

  /** The sender goes on serving the log while it saves; nothing it writes is taken back. */
  lemma {:induction false} SenderKeepsServing(env: Env, lv: Durability, log: seq<Entry>, run: seq<Sender>,
                                              n: nat, i: nat)
      returns (n': nat)
    requires Setting(env, log) && SenderRun(env, lv, log, run, n) && i < |run|
    ensures n <= n' <= |log| && Serving(env, lv, log, run[i], n')
    ensures run[0].save.h <= run[i].save.h
  {
    n' := n;
    if i > 0 {
      n' := SenderKeepsServing(env, lv, log, run, n, i - 1);
      var a, b := run[i - 1], run[i];
      assert SenderStep(env, log, |run[0].save.h|, run[i - 1], run[i - 1 + 1]);
      if b.save.h != a.save.h || b.node != a.node {
        var j, k :| UpdateTo(env, log, a, b, j, k);
        UpdateKeepsServing(env, lv, log, a, b, n', j, k);
        n' := k;
      }
    }
  }

  ghost function Saves(run: seq<Sender>): seq<SaveState> {
    seq(|run|, i requires 0 <= i < |run| => run[i].save)
  }

  lemma SavesAreSaveRun(env: Env, lv: Durability, log: seq<Entry>, run: seq<Sender>, n: nat)
    requires Setting(env, log) && SenderRun(env, lv, log, run, n)
    ensures SaveRun(env.codec, run[0].save.h, Saves(run))
  {
    forall i | 0 <= i < |run| - 1
      ensures SaveStep(env.codec, |run[0].save.h|, Saves(run)[i], Saves(run)[i + 1])
    {
      var _ := SenderKeepsServing(env, lv, log, run, n, i);
      assert SenderStep(env, log, |run[0].save.h|, run[i], run[i + 1]);
    }
  }

  ghost predicate Finished(env: Env, log: seq<Entry>, s: Sender, n: nat)
    requires n <= |log|
  {
    s.save.saver.Writing? && s.save.saver.pos == |StoreAt(env.codec, log, n)|
  }

  /** The stream that a running replica saves is that of the log prefix it held at PrepareSnapshot,
      however many entries it applies meanwhile. */
  lemma SavedStreamIsLogPrefix(env: Env, lv: Durability, log: seq<Entry>, run: seq<Sender>, n: nat, i: nat)
    requires Setting(env, log) && SenderRun(env, lv, log, run, n) && i < |run| && Finished(env, log, run[i], n)
    ensures run[i].save.saver.out == Stream(env.codec, StoreAt(env.codec, log, n))
  {
    SavesAreSaveRun(env, lv, log, run, n);
    SavedStreamIsPointInTime(env.codec, run[0].save.h, Saves(run), i);
  }

  /** End to end: a replica with fewer entries that receives that stream comes up with the sender's
      store and index as of PrepareSnapshot, and refines the log from then on. */
  lemma TransferServes(env: Env, lv: Durability, log: seq<Entry>, run: seq<Sender>, n: nat, i: nat,
                       env2: Env, s: State, lo: nat, base: Bytes)
    requires Setting(env, log) && SenderRun(env, lv, log, run, n) && i < |run| && Finished(env, log, run[i], n)
    requires Setting(env2, log) && env2.codec == env.codec
    requires Refines(env2, log, s, lo) && s.node.proc.Up? && s.node.proc.lastApplied <= run[0].node.proc.lastApplied
    requires base !in s.node.disk.dirs
    ensures var s' := RecoverNode(env2, s.node, base, run[i].save.saver.out);
            && s'.proc == Up(base, run[0].node.proc.lastApplied)
            && StoreOf(s'.disk, base) == StoreOf(run[0].node.disk, run[0].node.proc.base)
            && Refines(env2, log, State(s', Steady), n)
  {
    SavedStreamIsLogPrefix(env, lv, log, run, n, i);
    var n2 := HeldBy(env2, log, s, lo);
    AppliedInjective(log, n2, n);
    var m, r := StoreAt(env.codec, log, n), run[i].save.saver.out;
    AnchoredBase(env, lv, run[0].node.disk, run[0].node.proc.base, m);
    InstallServes(env2, LevelOf(s.mode), log, s.node, n2, base, n);
    var s' := RecoverNode(env2, s.node, base, r);
    AnchoredBase(env2, Settled, s'.disk, base, m);
    UpRefines(env2, log, s', Steady, n, n);
  }
}
