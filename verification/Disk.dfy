/** A replica's data directory as a crash sees it: the `current` and `current.updating`
    pointer files, and one RocksDB directory per database, each with what is visible
    now and what a power loss may bring back. */
module Disk {
  import opened ByteStrings
  import opened KeyValue

  datatype File = File(data: Bytes, synced: bool)

  /** A file name: the inode it shows now, and the ones it had since the directory was last synced. */
  datatype Link = Link(now: Option<nat>, earlier: set<Option<nat>>)

  datatype Content = Intact(store: Store) | Damaged

  /** A database directory: whether its entry exists, whether that has reached the disk, its data. */
  datatype Directory = Directory(live: bool, settled: bool, content: Content)

  datatype Disk = Disk(
    files: map<nat, File>, next: nat,
    current: Link, updating: Link,
    dirs: map<Bytes, Directory>)

  /** The disk operations of the program. RocksDB writes are synchronous and atomic. */
  datatype Op =
    | RemoveUpdating
    | CreateUpdating
    | Append(bytes: Bytes)
    | FsyncUpdating
    | SyncDir
    | Rename
    | MakeDb(base: Bytes)
    | WriteDb(base: Bytes, store: Store)
    | Damage(base: Bytes)      // RemoveAll has deleted some files of the directory
    | RemoveDb(base: Bytes)    // RemoveAll has deleted the directory

  predicate IsLive(d: Disk, b: Bytes) { b in d.dirs && d.dirs[b].live }

  function LiveDirs(d: Disk): set<Bytes> { set b | b in d.dirs && d.dirs[b].live }

  predicate HasUpdating(d: Disk) { d.updating.now.Some? && d.updating.now.value in d.files }

  function Do(d: Disk, op: Op): Disk {
    match op
    case RemoveUpdating =>
      d.(updating := Link(None, d.updating.earlier + {d.updating.now}))
    case CreateUpdating =>
      if HasUpdating(d) then d.(files := d.files[d.updating.now.value := File([], false)])
      else d.(files := d.files[d.next := File([], false)], next := d.next + 1,
              updating := Link(Some(d.next), d.updating.earlier + {d.updating.now}))
    case Append(bytes) =>
      if !HasUpdating(d) then d
      else var i := d.updating.now.value;
           d.(files := d.files[i := File(d.files[i].data + bytes, false)])
    case FsyncUpdating =>
      if !HasUpdating(d) then d
      else var i := d.updating.now.value;
           d.(files := d.files[i := File(d.files[i].data, true)])
    case SyncDir =>
      d.(current := Link(d.current.now, {}), updating := Link(d.updating.now, {}),
         dirs := map b | b in d.dirs :: d.dirs[b].(settled := true))
    case Rename =>
      if !HasUpdating(d) then d
      else d.(current := Link(d.updating.now, d.current.earlier + {d.current.now}),
              updating := Link(None, d.updating.earlier + {d.updating.now}))
    case MakeDb(b) =>
      if IsLive(d, b) then d else d.(dirs := d.dirs[b := Directory(true, false, Intact(map[]))])
    case WriteDb(b, store) =>
      if IsLive(d, b) then d.(dirs := d.dirs[b := d.dirs[b].(content := Intact(store))]) else d
    case Damage(b) =>
      if IsLive(d, b) then d.(dirs := d.dirs[b := d.dirs[b].(content := Damaged)]) else d
    case RemoveDb(b) =>
      if IsLive(d, b) then d.(dirs := d.dirs[b := Directory(false, false, Damaged)]) else d
  }

  function DoAll(d: Disk, ops: seq<Op>): Disk {
    if ops == [] then d else Do(DoAll(d, ops[..|ops| - 1]), ops[|ops| - 1])
  }

  lemma {:induction false} DoAllConcat(d: Disk, a: seq<Op>, b: seq<Op>)
    ensures DoAll(d, a + b) == DoAll(DoAll(d, a), b)
  {
    if b == [] {
      assert a + b == a;
    } else {
      assert (a + b)[..|a + b| - 1] == a + b[..|b| - 1];
      DoAllConcat(d, a, b[..|b| - 1]);
    }
  }

  lemma DoAllSnoc(d: Disk, ops: seq<Op>, k: nat)
    requires k < |ops|
    ensures DoAll(d, ops[..k + 1]) == Do(DoAll(d, ops[..k]), ops[k])
  {
    assert ops[..k + 1][..k] == ops[..k];
  }

  /** Power loss: each name keeps its latest synced target or any later one, an unsynced file
      holds anything, an unsettled directory entry is there or not, what RemoveAll was deleting
      may be back in any state. */
  ghost predicate PowerLoss(d: Disk, d': Disk) {
    && d'.next == d.next
    && d'.files.Keys == d.files.Keys
    && (forall i :: i in d.files ==> d'.files[i].synced && (d.files[i].synced ==> d'.files[i] == d.files[i]))
    && d'.current.now in d.current.earlier + {d.current.now} && d'.current.earlier == {}
    && d'.updating.now in d.updating.earlier + {d.updating.now} && d'.updating.earlier == {}
    && d'.dirs.Keys == d.dirs.Keys
    && (forall b :: b in d.dirs ==>
          && d'.dirs[b].settled
          && (d.dirs[b].settled ==> d'.dirs[b].live == d.dirs[b].live)
          && (d.dirs[b].content.Intact? ==> d'.dirs[b].content == d.dirs[b].content))
  }

  // ----- the pointer file -----

  datatype Env = Env(dir: Bytes, md5: Bytes -> Bytes, codec: Codec)

  ghost predicate EnvContract(env: Env) {
    CodecContract(env.codec) && forall b: Bytes :: |env.md5(b)| == 16
  }

  /** filepath.Join(dir, base) */
  function PathOf(env: Env, base: Bytes): Bytes { env.dir + [47] + base }

  function BaseOf(env: Env, path: Bytes): Option<Bytes> {
    if env.dir + [47] <= path then Some(path[|env.dir| + 1..]) else None
  }

  function Checksum(env: Env, path: Bytes): (r: Bytes)
    requires EnvContract(env)
    ensures |r| == 8
  {
    env.md5(path)[..8]
  }

  function PointerData(env: Env, base: Bytes): Bytes
    requires EnvContract(env)
  {
    Checksum(env, PathOf(env, base)) + PathOf(env, base)
  }

  /** getCurrentDBDirName on the bytes read; None is the corruption panic. */
  function ReadPointer(env: Env, data: Bytes): Option<Bytes>
    requires EnvContract(env)
  {
    if |data| <= 8 || data[..8] != Checksum(env, data[8..]) then None else Some(data[8..])
  }

  /** The database a pointer file names, if its checksum verifies and it lies in the data directory. */
  function PointedBase(env: Env, data: Bytes): Option<Bytes>
    requires EnvContract(env)
  {
    match ReadPointer(env, data)
    case None => None
    case Some(path) => BaseOf(env, path)
  }

  /** A pointer file verifies, as that path, exactly when it is the first half of the path's digest
      followed by the path, which is not empty. */
  lemma ReadPointerIsExact(env: Env, data: Bytes, path: Bytes)
    requires EnvContract(env)
    ensures ReadPointer(env, data) == Some(path) <==> path != [] && data == env.md5(path)[..8] + path
  {
    if path != [] && data == env.md5(path)[..8] + path {
      assert data[..8] == env.md5(path)[..8] && data[8..] == path;
    }
    if ReadPointer(env, data) == Some(path) {
      assert data == data[..8] + data[8..];
    }
  }

  /** So a path behind another path's checksum is rejected, unless the two checksums agree. */
  lemma ForeignChecksumRejected(env: Env, path: Bytes, other: Bytes)
    requires EnvContract(env) && env.md5(path)[..8] != env.md5(other)[..8]
    ensures ReadPointer(env, env.md5(other)[..8] + path) == None
  {
    var data := env.md5(other)[..8] + path;
    assert data[8..] == path && data[..8] == env.md5(other)[..8];
  }

  lemma BaseOfPath(env: Env, base: Bytes)
    ensures BaseOf(env, PathOf(env, base)) == Some(base)
  {
    assert PathOf(env, base)[|env.dir| + 1..] == base;
  }

  /** A pointer verifies and names the base exactly when it is the complete file written for that base. */
  lemma PointerRoundTrip(env: Env, data: Bytes, base: Bytes)
    requires EnvContract(env)
    ensures PointedBase(env, data) == Some(base) <==> data == PointerData(env, base)
    ensures PointerData(env, base) == env.md5(env.dir + [47] + base)[..8] + (env.dir + [47] + base)
  {
    var path := PathOf(env, base);
    BaseOfPath(env, base);
    if data == PointerData(env, base) {
      assert data[8..] == path && data[..8] == Checksum(env, path);
    }
    if PointedBase(env, data) == Some(base) {
      assert data[8..] == env.dir + [47] + data[8..][|env.dir| + 1..] == path;
      assert data == data[..8] + data[8..];
    }
  }

  // ----- the disk programs of the source -----

  /** saveCurrentDBDirName: write the new pointer beside the old one and make it durable. */
  function SaveOps(env: Env, base: Bytes): seq<Op>
    requires EnvContract(env)
  {
    [CreateUpdating, Append(Checksum(env, PathOf(env, base))), Append(PathOf(env, base)), FsyncUpdating, SyncDir]
  }

  /** replaceCurrentDBFile */
  function ReplaceOps(): seq<Op> { [Rename, SyncDir] }

  /** cleanupNodeDataDir: every listed directory but the named one. */
  function CleanupOps(names: seq<Bytes>, keep: Option<Bytes>): seq<Op> {
    if names == [] then []
    else CleanupOps(names[..|names| - 1], keep) +
         var b := names[|names| - 1];
         if Some(b) == keep then [] else [Damage(b), RemoveDb(b)]
  }

  // ----- safety of a disk state -----

  /** How far a pointer and its database have got: the pointer file's contents are on disk, or the
      directory entries are too, so that a power loss does no harm. */
  datatype Durability = Written | Settled

  /** File o is a complete pointer to a whole database directory with contents among S. */
  ghost predicate Sound(env: Env, lv: Durability, d: Disk, o: Option<nat>, S: set<Store>)
    requires EnvContract(env)
  {
    && o.Some? && o.value in d.files && d.files[o.value].synced
    && var b := PointedBase(env, d.files[o.value].data);
    && b.Some? && IsLive(d, b.value)
    && (lv == Settled ==> d.dirs[b.value].settled)
    && d.dirs[b.value].content.Intact? && d.dirs[b.value].content.store in S
  }

  ghost predicate WellFormed(d: Disk) {
    forall i :: i in d.files ==> i < d.next
  }

  /** Whatever `current` shows now, and at level Settled whatever it may show after a power loss, is
      sound. */
  ghost predicate Safe(env: Env, lv: Durability, d: Disk, S: set<Store>)
    requires EnvContract(env)
  {
    && WellFormed(d)
    && Sound(env, lv, d, d.current.now, S)
    && (lv == Settled ==> forall o :: o in d.current.earlier ==> Sound(env, lv, d, o, S))
  }

  /** The usual case: `current` can only mean database b, which holds m. */
  ghost predicate Anchored(env: Env, lv: Durability, d: Disk, b: Bytes, m: Store)
    requires EnvContract(env)
  {
    && WellFormed(d)
    && Sound(env, lv, d, d.current.now, {m})
    && PointedBase(env, d.files[d.current.now.value].data) == Some(b)
    && (lv == Settled ==> d.current.earlier == {})
  }

  lemma AnchoredIsSafe(env: Env, lv: Durability, d: Disk, b: Bytes, m: Store)
    requires EnvContract(env) && Anchored(env, lv, d, b, m)
    ensures Safe(env, lv, d, {m})
    ensures IsLive(d, b) && d.dirs[b].content == Intact(m)
    ensures d.files[d.current.now.value].data == PointerData(env, b)
  {
    PointerRoundTrip(env, d.files[d.current.now.value].data, b);
  }

  /** A safe disk comes back from a power loss anchored to one of its safe databases. */
  lemma PowerLossKeepsSafe(env: Env, d: Disk, S: set<Store>, d': Disk) returns (b: Bytes, m: Store)
    requires EnvContract(env) && Safe(env, Settled, d, S) && PowerLoss(d, d')
    ensures m in S && Anchored(env, Settled, d', b, m)
  {
    var o := d'.current.now;
    assert Sound(env, Settled, d, o, S);
    assert d'.files[o.value] == d.files[o.value];
    b := PointedBase(env, d.files[o.value].data).value;
    m := d.dirs[b].content.store;
    assert d'.dirs[b].live && d'.dirs[b].content == Intact(m);
  }

  // ----- operations that leave the current database alone -----

  /** Operations that touch neither a pointer nor database b, whatever the state. */
  predicate Quiet(op: Op, b: Bytes) {
    op.RemoveUpdating? || op.SyncDir? || op.MakeDb? || ((op.WriteDb? || op.Damage? || op.RemoveDb?) && op.base != b)
  }

  lemma QuietKeepsAnchor(env: Env, lv: Durability, d: Disk, b: Bytes, m: Store, op: Op)
    requires EnvContract(env) && Anchored(env, lv, d, b, m) && Quiet(op, b)
    ensures Anchored(env, lv, Do(d, op), b, m)
    ensures Do(d, op).files == d.files
    ensures d.updating.now.None? ==> Do(d, op).updating.now.None?
  {
  }

  /** Once the pointer file is on disk, syncing the directory settles the rest. */
  lemma SyncSettles(env: Env, lv: Durability, d: Disk, b: Bytes, m: Store)
    requires EnvContract(env) && Anchored(env, lv, d, b, m)
    ensures Anchored(env, Settled, Do(d, SyncDir), b, m)
  {
    var d' := Do(d, SyncDir);
    assert d'.files == d.files && d'.dirs[b] == d.dirs[b].(settled := true);
  }

  lemma {:induction false} QuietOpsKeepAnchor(env: Env, lv: Durability, d: Disk, b: Bytes, m: Store, ops: seq<Op>)
    requires EnvContract(env) && Anchored(env, lv, d, b, m)
    requires AllQuiet(ops, b)
    ensures Anchored(env, lv, DoAll(d, ops), b, m)
    ensures d.updating.now.None? ==> DoAll(d, ops).updating.now.None?
  {
    if ops != [] {
      var n := |ops| - 1;
      assert AllQuiet(ops[..n], b) && Quiet(ops[n], b);
      QuietOpsKeepAnchor(env, lv, d, b, m, ops[..n]);
      QuietKeepsAnchor(env, lv, DoAll(d, ops[..n]), b, m, ops[n]);
    }
  }

  /** A batch written to the current database replaces its contents in one step. */
  lemma WriteMovesAnchor(env: Env, lv: Durability, d: Disk, b: Bytes, m: Store, m': Store)
    requires EnvContract(env) && Anchored(env, lv, d, b, m)
    ensures Anchored(env, lv, Do(d, WriteDb(b, m')), b, m')
    ensures Do(d, WriteDb(b, m')).updating == d.updating
  {
  }

  /** Writing through `current.updating` is invisible while it is a different file from `current`. */
  lemma ScratchWriteKeepsAnchor(env: Env, lv: Durability, d: Disk, b: Bytes, m: Store, op: Op)
    requires EnvContract(env) && Anchored(env, lv, d, b, m)
    requires op.CreateUpdating? || op.Append? || op.FsyncUpdating?
    requires d.updating.now != d.current.now
    ensures Anchored(env, lv, Do(d, op), b, m)
    ensures Do(d, op).updating.now != d.current.now == Do(d, op).current.now
  {
  }

  // ----- cleanup -----

  ghost predicate AllQuiet(ops: seq<Op>, b: Bytes) { forall i :: 0 <= i < |ops| ==> Quiet(ops[i], b) }

  lemma AllQuietConcat(a: seq<Op>, c: seq<Op>, b: Bytes)
    requires AllQuiet(a, b) && AllQuiet(c, b)
    ensures AllQuiet(a + c, b)
  {
  }

  lemma {:induction false} CleanupIsQuiet(names: seq<Bytes>, b: Bytes)
    ensures AllQuiet(CleanupOps(names, Some(b)), b)
  {
    if names != [] {
      CleanupIsQuiet(names[..|names| - 1], b);
    }
  }

  lemma RemoveOne(d: Disk, b: Bytes)
    ensures var d' := Do(Do(d, Damage(b)), RemoveDb(b));
            && LiveDirs(d') == LiveDirs(d) - {b}
            && d'.files == d.files && d'.current == d.current && d'.updating == d.updating
            && forall x :: x != b && x in d.dirs ==> x in d'.dirs && d'.dirs[x] == d.dirs[x]
  {
  }

  function Doomed(names: seq<Bytes>, keep: Option<Bytes>): set<Bytes> { set b | b in names && Some(b) != keep }

  lemma DoomedSnoc(names: seq<Bytes>, keep: Option<Bytes>)
    requires names != []
    ensures var n := |names| - 1;
            Doomed(names, keep) == Doomed(names[..n], keep) + (if Some(names[n]) == keep then {} else {names[n]})
  {
    var n := |names| - 1;
    assert names == names[..n] + [names[n]];
  }

  /** Cleanup deletes exactly the listed directories other than the kept one. */
  lemma {:induction false} CleanupRemoves(d: Disk, names: seq<Bytes>, keep: Option<Bytes>)
    ensures var d' := DoAll(d, CleanupOps(names, keep));
            && LiveDirs(d') == LiveDirs(d) - Doomed(names, keep)
            && d'.files == d.files && d'.current == d.current && d'.updating == d.updating
            && (keep.Some? && keep.value in d.dirs ==>
                  keep.value in d'.dirs && d'.dirs[keep.value] == d.dirs[keep.value])
  {
    if names != [] {
      var n := |names| - 1;
      var b := names[n];
      CleanupRemoves(d, names[..n], keep);
      DoomedSnoc(names, keep);
      if Some(b) == keep {
        assert CleanupOps(names, keep) == CleanupOps(names[..n], keep);
      } else {
        var d1 := DoAll(d, CleanupOps(names[..n], keep));
        DoAllConcat(d, CleanupOps(names[..n], keep), [Damage(b), RemoveDb(b)]);
        TwoOps(d1, Damage(b), RemoveDb(b));
        RemoveOne(d1, b);
      }
    }
  }

  lemma TwoOps(d: Disk, a: Op, b: Op)
    ensures DoAll(d, [a, b]) == Do(Do(d, a), b)
  {
    assert [a, b][..1] == [a] && [a][..0] == [];
    assert DoAll(d, [a]) == Do(DoAll(d, []), a);
    assert DoAll(d, [a, b]) == Do(DoAll(d, [a]), b);
  }

  lemma DoAllPush(d: Disk, ops: seq<Op>, op: Op)
    ensures DoAll(d, ops + [op]) == Do(DoAll(d, ops), op)
  {
    assert (ops + [op])[..|ops|] == ops;
  }
}
