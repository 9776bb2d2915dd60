/** One replica as a state machine over its calls and disk steps, with crashes at every step,
    and the refinement of the replicated log that it keeps along every run. */
module Replica {
  import opened ByteStrings
  import opened Seqs
  import opened Ordering
  import opened KeyValue
  import opened Snapshot
  import opened Disk
  import opened Switch

  /** The process: not running, serving a database, or dead in a panic that should be unreachable. */
  datatype Proc = Down | Up(base: Bytes, lastApplied: nat) | Panicked

  datatype Node = Node(disk: Disk, proc: Proc)

  /** A Go call: a value, an error return, or a panic. */
  datatype Outcome<+T> = Ok(value: T) | Err | Panic

  // ----- Open -----

  /** getCurrentDBDirName: the path stored in `current`, an error if there is none, a panic if it
      is corrupt. */
  function CurrentPath(env: Env, d: Disk): Outcome<Bytes>
    requires EnvContract(env)
  {
    if d.current.now.None? || d.current.now.value !in d.files then Err
    else match ReadPointer(env, d.files[d.current.now.value].data)
      case None => Panic
      case Some(path) => Ok(path)
  }

  function CurrentBase(env: Env, d: Disk): Option<Bytes>
    requires EnvContract(env)
  {
    match CurrentPath(env, d)
    case Ok(path) => BaseOf(env, path)
    case _ => None
  }

  function OpenOps(env: Env, d: Disk, spare: Bytes): seq<Op>
    requires EnvContract(env)
  {
    if d.current.now.None? then FirstRunOps(env, spare)
    else if !CurrentPath(env, d).Ok? then [RemoveUpdating]
    else
      var keep := CurrentBase(env, d);
      [RemoveUpdating] + CleanupOps(Sorted(LiveDirs(d)), keep)
        + (if keep.Some? && IsLive(d, keep.value) then [MakeDb(keep.value)] else [])
  }

  /** The database Open ends up with, unless the pointer is corrupt or its directory missing. */
  function OpenTarget(env: Env, d: Disk, spare: Bytes): Option<Bytes>
    requires EnvContract(env)
  {
    if d.current.now.None? then Some(spare)
    else
      var keep := CurrentBase(env, d);
      if keep.Some? && IsLive(d, keep.value) then keep else None
  }

  /** createDB on a directory and queryAppliedIndex: a damaged database is an error, an index that
      does not parse a panic. */
  function StartOutcome(d: Disk, b: Bytes): Outcome<nat> {
    if !IsLive(d, b) || d.dirs[b].content.Damaged? then Err
    else match QueryAppliedIndex(d.dirs[b].content.store)
      case None => Panic
      case Some(index) => Ok(index)
  }

  /** What Open returns: an error if `current` has no file, a panic if it is corrupt or names a
      missing directory, else what starting the database gives. */
  function OpenOutcome(env: Env, d: Disk, spare: Bytes): Outcome<nat>
    requires EnvContract(env)
  {
    match OpenTarget(env, d, spare)
    case None => if CurrentPath(env, d).Err? then Err else Panic
    case Some(b) => StartOutcome(DoAll(d, OpenOps(env, d, spare)), b)
  }

  function OpenNode(env: Env, d: Disk, spare: Bytes): Node
    requires EnvContract(env)
  {
    Node(DoAll(d, OpenOps(env, d, spare)),
         match OpenOutcome(env, d, spare)
         case Ok(index) => Up(OpenTarget(env, d, spare).value, index)
         case _ => Panicked)
  }

  // ----- Update -----

  function StoreOf(d: Disk, b: Bytes): Store {
    if b in d.dirs && d.dirs[b].content.Intact? then d.dirs[b].content.store else map[]
  }

  /** A command that is not JSON panics before anything is written. */
  function UpdateOps(env: Env, s: Node, ents: seq<Entry>): seq<Op>
    requires s.proc.Up? && ents != []
  {
    if !Decodes(env.codec, ents) then []
    else [WriteDb(s.proc.base, AfterUpdate(env.codec, StoreOf(s.disk, s.proc.base), ents))]
  }

  function UpdateNode(env: Env, s: Node, ents: seq<Entry>): Node
    requires s.proc.Up? && ents != []
  {
    var last := ents[|ents| - 1].index;
    Node(DoAll(s.disk, UpdateOps(env, s, ents)),
         if !Decodes(env.codec, ents) then Down
         else if s.proc.lastApplied >= last then Panicked
         else s.proc.(lastApplied := last))
  }

  // ----- RecoverFromSnapshot -----

  /** The new index is acceptable: readable and not behind the live one. */
  predicate Forward(last: nat, m': Store) {
    QueryAppliedIndex(m').Some? && last <= QueryAppliedIndex(m').value
  }

  function RecoverOps(env: Env, d: Disk, last: nat, base: Bytes, r: Bytes): seq<Op>
    requires EnvContract(env)
  {
    match CurrentBase(env, d)
    case None => []
    case Some(b) =>
      match ReadStream(env.codec, r)
      case Complete(wb) =>
        var m' := ApplyBatch(map[], wb);
        var ops := InstallOps(env, b, base, m');
        if Forward(last, m') then ops else ops[..9]
      case _ => [MakeDb(base)]
  }

  /** What RecoverFromSnapshot returns, with the new applied index. */
  function RecoverOutcome(env: Env, d: Disk, last: nat, r: Bytes): Outcome<nat>
    requires EnvContract(env)
  {
    if CurrentBase(env, d).None? then if CurrentPath(env, d).Err? then Err else Panic
    else match ReadStream(env.codec, r)
      case Complete(wb) =>
        var m' := ApplyBatch(map[], wb);
        if Forward(last, m') then Ok(QueryAppliedIndex(m').value) else Panic
      case ShortRead => Err
      case _ => Panic
  }

  function RecoverNode(env: Env, s: Node, base: Bytes, r: Bytes): Node
    requires EnvContract(env) && s.proc.Up?
  {
    Node(DoAll(s.disk, RecoverOps(env, s.disk, s.proc.lastApplied, base, r)),
         match RecoverOutcome(env, s.disk, s.proc.lastApplied, r)
         case Ok(index) => Up(base, index)
         case Err => s.proc
         case Panic => Panicked)
  }

  // ----- runs -----

  datatype Crash = Kill | PowerCut(after: Disk)

  /** Update(j, k) applies log entries j..k as one batch; Install(b, n, len) delivers the first
      len bytes of a snapshot of the log's first n entries. */
  datatype Call =
    | Open(spare: Bytes)
    | Update(j: nat, k: nat)
    | Install(base: Bytes, n: nat, len: nat)

  /** A call returns, or is cut by a crash after k of its disk steps; a crash may also hit an idle
      node, and between calls the file system may write the directory back on its own. */
  datatype Event =
    | Return(call: Call)
    | Cut(call: Call, k: nat, crash: Crash)
    | Stop(crash: Crash)
    | WriteBack

  /** What a power loss can do. Steady: no harm. Renamed: the rename of `current` is not yet synced,
      so the old database may come back. Exposed: what may come back need not be there, because an
      Open has begun to delete the old database, or the entry of the first one was never synced. */
  datatype Mode = Steady | Renamed | Exposed

  datatype State = State(node: Node, mode: Mode)

  ghost predicate LogFits(env: Env, log: seq<Entry>) {
    forall n :: 0 <= n <= |log| ==> Fits(env.codec, StoreAt(env.codec, log, n))
  }

  /** The setting of a run: the codec and hash behave, and the log is a Raft log. */
  ghost predicate Setting(env: Env, log: seq<Entry>) {
    EnvContract(env) && IsLog(log) && LogFits(env, log)
  }

  ghost predicate Enabled(env: Env, log: seq<Entry>, s: Node, call: Call)
    requires Setting(env, log)
  {
    match call
    case Open(b) => s.proc.Down? && b !in s.disk.dirs
    case Update(j, k) => s.proc.Up? && j < k <= |log| && s.proc.lastApplied == Applied(log, j)
    case Install(b, n, len) =>
      && s.proc.Up? && b !in s.disk.dirs
      && n <= |log| && s.proc.lastApplied <= Applied(log, n)
      && len <= |Stream(env.codec, StoreAt(env.codec, log, n))|
  }

  ghost function OpsOf(env: Env, log: seq<Entry>, s: Node, call: Call): seq<Op>
    requires Setting(env, log) && Enabled(env, log, s, call)
  {
    match call
    case Open(b) => OpenOps(env, s.disk, b)
    case Update(j, k) => UpdateOps(env, s, log[j..k])
    case Install(b, n, len) =>
      RecoverOps(env, s.disk, s.proc.lastApplied, b, Stream(env.codec, StoreAt(env.codec, log, n))[..len])
  }

  ghost function ResultOf(env: Env, log: seq<Entry>, s: Node, call: Call): Node
    requires Setting(env, log) && Enabled(env, log, s, call)
  {
    match call
    case Open(b) => OpenNode(env, s.disk, b)
    case Update(j, k) => UpdateNode(env, s, log[j..k])
    case Install(b, n, len) => RecoverNode(env, s, b, Stream(env.codec, StoreAt(env.codec, log, n))[..len])
  }

  /** The mode after k of a call's ops: an installation settles everything at its first directory
      sync, renames, and settles again; an Open starts deleting after its first step. */
  function ModeAfter(mode: Mode, call: Call, ops: seq<Op>, k: nat): Mode {
    if call.Install? && |ops| == INSTALL_STEPS then
      if k < 7 then mode else if k == WINDOW then Renamed else Steady
    else if call.Open? && mode == Renamed && k > 1 then Exposed
    else mode
  }

  /** After the power loss `current` still names the same database, and its directory is there. */
  predicate StillNamed(env: Env, d: Disk, after: Disk)
    requires EnvContract(env)
  {
    var b := CurrentBase(env, d);
    b.Some? && CurrentBase(env, after) == b && IsLive(after, b.value)
  }

  /** A crash in the given mode: a process crash keeps the disk as it shows; a power loss may have
      any outcome, on an exposed node any that leaves `current` naming the same database. */
  ghost predicate Crashed(env: Env, mode: Mode, d: Disk, crash: Crash, s': State)
    requires EnvContract(env)
  {
    && s'.node.proc == Down
    && match crash
       case Kill => s'.node.disk == d && s'.mode == mode
       case PowerCut(after) =>
         && PowerLoss(d, after) && (mode == Exposed ==> StillNamed(env, d, after))
         && s'.node.disk == after && s'.mode == Steady
  }

  ghost predicate Step(env: Env, log: seq<Entry>, s: State, e: Event, s': State)
    requires Setting(env, log)
  {
    match e
    case Return(call) =>
      && Enabled(env, log, s.node, call)
      && var ops := OpsOf(env, log, s.node, call);
      && s' == State(ResultOf(env, log, s.node, call), ModeAfter(s.mode, call, ops, |ops|))
    case Cut(call, k, crash) =>
      && Enabled(env, log, s.node, call)
      && var ops := OpsOf(env, log, s.node, call);
      && k <= |ops| && Crashed(env, ModeAfter(s.mode, call, ops, k), DoAll(s.node.disk, ops[..k]), crash, s')
    case Stop(crash) =>
      s.node.proc != Panicked && Crashed(env, s.mode, s.node.disk, crash, s')
    case WriteBack =>
      s' == State(s.node.(disk := Do(s.node.disk, SyncDir)), Steady)
  }

  ghost predicate IsRun(env: Env, log: seq<Entry>, run: seq<State>, events: seq<Event>)
    requires Setting(env, log)
  {
    && |run| == |events| + 1
    && forall i :: 0 <= i < |events| ==> Step(env, log, run[i], events[i], run[i + 1])
  }

  // ----- the invariant -----

  function LevelOf(mode: Mode): Durability { if mode == Steady then Settled else Written }

  /** Database b holds exactly the first n entries of the log, and `current` can only mean b. */
  ghost predicate Holds(env: Env, lv: Durability, log: seq<Entry>, d: Disk, b: Bytes, n: nat)
    requires EnvContract(env)
  {
    n <= |log| && Anchored(env, lv, d, b, StoreAt(env.codec, log, n))
  }

  /** After a power loss `current` means a database with the first n or the first n' entries. */
  ghost predicate HoldsEither(env: Env, log: seq<Entry>, d: Disk, n: nat, n': nat)
    requires EnvContract(env)
  {
    && n <= |log| && n' <= |log|
    && Safe(env, Settled, d, {StoreAt(env.codec, log, n), StoreAt(env.codec, log, n')})
  }

  /** The disk holds some prefix of the log of at least lo entries, and in mode Renamed still does
      after a power loss. */
  ghost predicate Recoverable(env: Env, mode: Mode, log: seq<Entry>, d: Disk, lo: nat)
    requires EnvContract(env)
  {
    && (exists b, n :: lo <= n && Holds(env, LevelOf(mode), log, d, b, n))
    && (mode == Renamed ==> exists n, n' :: lo <= n && lo <= n' && HoldsEither(env, log, d, n, n'))
  }

  /** The node is up, serves the first n entries and knows their index. */
  ghost predicate UpAt(env: Env, log: seq<Entry>, s: State, n: nat)
    requires EnvContract(env)
  {
    && s.node.proc.Up? && s.mode != Renamed && s.node.disk.updating.now.None?
    && Holds(env, LevelOf(s.mode), log, s.node.disk, s.node.proc.base, n)
    && s.node.proc.lastApplied == Applied(log, n)
  }

  /** The node is recoverable, and if it is up it serves the prefix it holds and knows its index. */
  ghost predicate Refines(env: Env, log: seq<Entry>, s: State, lo: nat)
    requires EnvContract(env)
  {
    match s.node.proc
    case Down => Recoverable(env, s.mode, log, s.node.disk, lo)
    case Up(_, _) => exists n :: lo <= n && UpAt(env, log, s, n)
    case Panicked => false
  }

  lemma UpRefines(env: Env, log: seq<Entry>, node: Node, mode: Mode, n: nat, lo: nat)
    requires EnvContract(env) && lo <= n && UpAt(env, log, State(node, mode), n)
    ensures Refines(env, log, State(node, mode), lo)
  {
  }

  lemma AnchoredBase(env: Env, lv: Durability, d: Disk, b: Bytes, m: Store)
    requires EnvContract(env) && Anchored(env, lv, d, b, m)
    ensures CurrentBase(env, d) == Some(b) && IsLive(d, b) && StoreOf(d, b) == m
    ensures d.current.now.Some? && d.dirs[b].content == Intact(m)
  {
  }

  lemma OpenOpsShape(env: Env, d: Disk, b: Bytes, spare: Bytes)
    requires EnvContract(env) && CurrentBase(env, d) == Some(b) && IsLive(d, b)
    ensures OpenOps(env, d, spare) == [RemoveUpdating] + (CleanupOps(Sorted(LiveDirs(d)), Some(b)) + [MakeDb(b)])
    ensures AllQuiet(OpenOps(env, d, spare), b)
  {
    var clean := CleanupOps(Sorted(LiveDirs(d)), Some(b));
    CleanupIsQuiet(Sorted(LiveDirs(d)), b);
    ConcatAssoc([RemoveUpdating], clean, [MakeDb(b)]);
    AllQuietConcat(clean, [MakeDb(b)], b);
    AllQuietConcat([RemoveUpdating], clean + [MakeDb(b)], b);
  }

  lemma OpenStops(env: Env, lv: Durability, log: seq<Entry>, d: Disk, b: Bytes, n: nat, spare: Bytes, k: nat)
    requires EnvContract(env) && Holds(env, lv, log, d, b, n) && k <= |OpenOps(env, d, spare)|
    ensures Holds(env, lv, log, DoAll(d, OpenOps(env, d, spare)[..k]), b, n)
  {
    var m := StoreAt(env.codec, log, n);
    AnchoredBase(env, lv, d, b, m);
    OpenOpsShape(env, d, b, spare);
    QuietOpsKeepAnchor(env, lv, d, b, m, OpenOps(env, d, spare)[..k]);
  }

  lemma OpenEnds(env: Env, lv: Durability, d: Disk, b: Bytes, m: Store, spare: Bytes)
    requires EnvContract(env) && Anchored(env, lv, d, b, m)
    ensures var d' := DoAll(d, OpenOps(env, d, spare));
            d'.updating.now.None? && LiveDirs(d') == {b} && OpenTarget(env, d, spare) == Some(b)
  {
    AnchoredBase(env, lv, d, b, m);
    OpenOpsShape(env, d, b, spare);
    OpenLeavesOne(d, Sorted(LiveDirs(d)), b);
  }

  /** Open on an anchored disk: no step disturbs the current database, every other directory
      goes, and the store and index that come up are those of the log prefix. */
  lemma OpenServes(env: Env, lv: Durability, log: seq<Entry>, d: Disk, b: Bytes, n: nat, spare: Bytes)
    requires Setting(env, log) && Holds(env, lv, log, d, b, n)
    ensures var ops := OpenOps(env, d, spare);
            forall k :: 0 <= k <= |ops| ==> Holds(env, lv, log, DoAll(d, ops[..k]), b, n)
    ensures var s := OpenNode(env, d, spare);
            && s.proc == Up(b, Applied(log, n))
            && Holds(env, lv, log, s.disk, b, n) && s.disk.updating.now.None?
            && LiveDirs(s.disk) == {b}
  {
    OpenComesUp(env, lv, log, d, b, n, spare);
    var ops := OpenOps(env, d, spare);
    forall k | 0 <= k <= |ops| ensures Holds(env, lv, log, DoAll(d, ops[..k]), b, n) {
      OpenStops(env, lv, log, d, b, n, spare, k);
    }
  }

  lemma OpenComesUp(env: Env, lv: Durability, log: seq<Entry>, d: Disk, b: Bytes, n: nat, spare: Bytes)
    requires Setting(env, log) && Holds(env, lv, log, d, b, n)
    ensures var s := OpenNode(env, d, spare);
            && s.proc == Up(b, Applied(log, n))
            && Holds(env, lv, log, s.disk, b, n) && s.disk.updating.now.None?
            && LiveDirs(s.disk) == {b}
  {
    var m, ops := StoreAt(env.codec, log, n), OpenOps(env, d, spare);
    OpenStops(env, lv, log, d, b, n, spare, |ops|);
    TakeAll(ops, |ops|);
    OpenEnds(env, lv, d, b, m, spare);
    StoreKnowsItsIndex(env.codec, log, n);
    AnchoredBase(env, lv, DoAll(d, ops), b, m);
  }

  lemma OpenLeavesOne(d: Disk, names: seq<Bytes>, b: Bytes)
    requires IsLive(d, b) && names == Sorted(LiveDirs(d))
    ensures var d' := DoAll(d, [RemoveUpdating] + (CleanupOps(names, Some(b)) + [MakeDb(b)]));
            && d'.updating.now.None? && LiveDirs(d') == {b} && d'.dirs[b] == d.dirs[b]
            && d'.files == d.files && d'.current == d.current
  {
    var d1 := Do(d, RemoveUpdating);
    var clean := CleanupOps(names, Some(b));
    OneOp(d, RemoveUpdating);
    DoAllConcat(d, [RemoveUpdating], clean + [MakeDb(b)]);
    DoAllPush(d1, clean, MakeDb(b));
    assert LiveDirs(d1) == LiveDirs(d);
    CleanupLeavesOne(d1, names, b);
  }

  lemma CleanupLeavesOne(d: Disk, names: seq<Bytes>, b: Bytes)
    requires IsLive(d, b) && names == Sorted(LiveDirs(d))
    ensures var d' := DoAll(d, CleanupOps(names, Some(b)));
            && d'.updating == d.updating && LiveDirs(d') == {b} && Do(d', MakeDb(b)) == d'
            && d'.files == d.files && d'.current == d.current && d'.dirs[b] == d.dirs[b]
  {
    CleanupRemoves(d, names, Some(b));
    DoomedButOne(LiveDirs(d), b);
    assert b in LiveDirs(DoAll(d, CleanupOps(names, Some(b))));
  }

  lemma DoomedButOne(live: set<Bytes>, b: Bytes)
    requires b in live
    ensures live - Doomed(Sorted(live), Some(b)) == {b}
  {
  }

  lemma OneOp(d: Disk, op: Op)
    ensures DoAll(d, [op]) == Do(d, op)
  {
    assert [op][..0] == [];
    assert DoAll(d, [op]) == Do(DoAll(d, []), op);
  }

  // ----- what the calls answer -----

  /** `current` is a file whose contents are the given. */
  predicate CurrentHolds(d: Disk, data: Bytes) {
    d.current.now.Some? && d.current.now.value in d.files && d.files[d.current.now.value].data == data
  }

  /** A pointer that is no path behind its own checksum is corrupt: Open and RecoverFromSnapshot panic. */
  lemma CorruptPointerPanics(env: Env, d: Disk, data: Bytes, spare: Bytes, last: nat, r: Bytes)
    requires EnvContract(env) && CurrentHolds(d, data)
    requires forall path :: path != [] ==> data != env.md5(path)[..8] + path
    ensures CurrentPath(env, d) == Panic && OpenOutcome(env, d, spare) == Panic && RecoverOutcome(env, d, last, r) == Panic
  {
    if ReadPointer(env, data).Some? {
      ReadPointerIsExact(env, data, ReadPointer(env, data).value);
    }
  }

  /** No pointer: getCurrentDBDirName and RecoverFromSnapshot return an error. */
  lemma MissingPointerIsAnError(env: Env, d: Disk, last: nat, r: Bytes)
    requires EnvContract(env) && d.current.now.None?
    ensures CurrentPath(env, d) == Err && RecoverOutcome(env, d, last, r) == Err
  {
  }

  /** A complete pointer to database b: Open panics if the directory is missing or the stored index is
      unreadable, returns an error if the database is damaged, and else comes up with the stored index. */
  lemma OpenAnswers(env: Env, d: Disk, b: Bytes, spare: Bytes)
    requires EnvContract(env) && CurrentHolds(d, env.md5(env.dir + [47] + b)[..8] + (env.dir + [47] + b))
    ensures CurrentPath(env, d) == Ok(env.dir + [47] + b)
    ensures !IsLive(d, b) ==> OpenOutcome(env, d, spare) == Panic
    ensures IsLive(d, b) && d.dirs[b].content.Damaged? ==> OpenOutcome(env, d, spare) == Err
    ensures IsLive(d, b) && d.dirs[b].content.Intact? ==>
              match QueryAppliedIndex(d.dirs[b].content.store)
              case None => OpenOutcome(env, d, spare) == Panic
              case Some(index) =>
                OpenOutcome(env, d, spare) == Ok(index) && OpenNode(env, d, spare).proc == Up(b, index)
  {
    var path := env.dir + [47] + b;
    PointerRoundTrip(env, PointerData(env, b), b);
    ReadPointerIsExact(env, PointerData(env, b), path);
    if IsLive(d, b) {
      OpenOpsShape(env, d, b, spare);
      OpenLeavesOne(d, Sorted(LiveDirs(d)), b);
      var d' := DoAll(d, OpenOps(env, d, spare));
      assert b in LiveDirs(d');
    }
  }

  /** With a pointer to a database, RecoverFromSnapshot answers by the stream: an error if it breaks off, a
      panic if a frame is too long or does not decode, or if the index of the new database is unreadable
      or behind the live one, and else that index. */
  lemma RecoverAnswers(env: Env, d: Disk, last: nat, r: Bytes)
    requires EnvContract(env) && CurrentBase(env, d).Some?
    ensures var res, f := RecoverOutcome(env, d, last, r), ReadStream(env.codec, r);
            && (f == ShortRead ==> res == Err)
            && (f == BadJson || f == HugeFrame ==> res == Panic)
            && (f.Complete? ==>
                  match QueryAppliedIndex(ApplyBatch(map[], f.wb))
                  case None => res == Panic
                  case Some(index) => res == if index < last then Panic else Ok(index))
  {
  }

  lemma {:induction false} LiveDirsStay(d: Disk, ops: seq<Op>)
    requires forall i :: 0 <= i < |ops| ==> !ops[i].MakeDb? && !ops[i].RemoveDb?
    ensures LiveDirs(DoAll(d, ops)) == LiveDirs(d)
  {
    if ops != [] {
      LiveDirsStay(d, ops[..|ops| - 1]);
      OpKeepsLive(DoAll(d, ops[..|ops| - 1]), ops[|ops| - 1]);
    }
  }

  lemma OpKeepsLive(d: Disk, op: Op)
    requires !op.MakeDb? && !op.RemoveDb?
    ensures LiveDirs(Do(d, op)) == LiveDirs(d)
  {
  }

  /** An installation replaces the old database by the new one, and leaves every other directory. */
  lemma InstallReplaces(env: Env, d: Disk, b: Bytes, base: Bytes, m': Store)
    requires EnvContract(env)
    ensures LiveDirs(DoAll(d, InstallOps(env, b, base, m'))) == LiveDirs(d) + {base} - {b}
    ensures LiveDirs(DoAll(d, InstallOps(env, b, base, m')[..9])) == LiveDirs(d) + {base}
  {
    var ops := InstallOps(env, b, base, m');
    var mid := ops[1..9];
    assert ops[..9] == [MakeDb(base)] + mid && ops == ops[..9] + [Damage(b), RemoveDb(b)];
    OneOp(d, MakeDb(base));
    DoAllConcat(d, [MakeDb(base)], mid);
    LiveDirsStay(Do(d, MakeDb(base)), mid);
    assert LiveDirs(Do(d, MakeDb(base))) == LiveDirs(d) + {base};
    DoAllConcat(d, ops[..9], [Damage(b), RemoveDb(b)]);
    TwoOps(DoAll(d, ops[..9]), Damage(b), RemoveDb(b));
    RemoveOne(DoAll(d, ops[..9]), b);
  }

  /** A snapshot whose index is behind the live one: RecoverFromSnapshot panics, but only after the new
      database has become the current one; the old one stays beside it. */
  lemma BackwardInstall(env: Env, lv: Durability, d: Disk, b: Bytes, m: Store, last: nat, base: Bytes, r: Bytes)
    requires EnvContract(env) && Anchored(env, lv, d, b, m) && d.updating.now.None? && base !in d.dirs
    requires ReadStream(env.codec, r).Complete?
    requires !Forward(last, ApplyBatch(map[], ReadStream(env.codec, r).wb))
    ensures var d' := DoAll(d, RecoverOps(env, d, last, base, r));
            && RecoverOutcome(env, d, last, r) == Panic
            && Anchored(env, Settled, d', base, ApplyBatch(map[], ReadStream(env.codec, r).wb))
            && LiveDirs(d') == LiveDirs(d) + {base}
  {
    AnchoredBase(env, lv, d, b, m);
    var m' := ApplyBatch(map[], ReadStream(env.codec, r).wb);
    InstallAfter(env, lv, d, b, m, base, m', 9);
    InstallReplaces(env, d, b, base, m');
  }

  // ----- every step keeps the refinement -----

  lemma CrashKeepsPrefix(env: Env, mode: Mode, log: seq<Entry>, d: Disk, crash: Crash, s': State, lo: nat)
    requires EnvContract(env) && Recoverable(env, mode, log, d, lo) && Crashed(env, mode, d, crash, s')
    ensures Refines(env, log, s', lo)
  {
    if crash.PowerCut? && mode == Exposed {
      var b, n :| lo <= n && Holds(env, LevelOf(mode), log, d, b, n);
      StillNamedKeepsAnchor(env, d, b, StoreAt(env.codec, log, n), s'.node.disk);
      assert Holds(env, LevelOf(s'.mode), log, s'.node.disk, b, n);
    } else if crash.PowerCut? {
      var n, n' := SafeEither(env, mode, log, d, lo);
      var m, m' := StoreAt(env.codec, log, n), StoreAt(env.codec, log, n');
      var b, m1 := PowerLossKeepsSafe(env, d, {m, m'}, s'.node.disk);
      assert Holds(env, LevelOf(s'.mode), log, s'.node.disk, b, if m1 == m then n else n');
    }
  }

  /** A power loss that leaves `current` naming the same database leaves it whole. */
  lemma StillNamedKeepsAnchor(env: Env, d: Disk, b: Bytes, m: Store, after: Disk)
    requires EnvContract(env) && Anchored(env, Written, d, b, m)
    requires PowerLoss(d, after) && StillNamed(env, d, after)
    ensures Anchored(env, Settled, after, b, m)
  {
    AnchoredBase(env, Written, d, b, m);
    assert after.dirs[b].content == Intact(m);
  }

  /** Once the directory has been written back, nothing is at risk. */
  lemma WriteBackKeeps(env: Env, log: seq<Entry>, s: State, lo: nat)
    requires Setting(env, log) && Refines(env, log, s, lo)
    ensures Refines(env, log, State(s.node.(disk := Do(s.node.disk, SyncDir)), Steady), lo)
  {
    var d, lv := s.node.disk, LevelOf(s.mode);
    var d' := Do(d, SyncDir);
    if s.node.proc.Up? {
      var n := HeldBy(env, log, s, lo);
      SyncSettles(env, lv, d, s.node.proc.base, StoreAt(env.codec, log, n));
      UpRefines(env, log, s.node.(disk := d'), Steady, n, lo);
    } else {
      var b, n :| lo <= n && Holds(env, lv, log, d, b, n);
      SyncSettles(env, lv, d, b, StoreAt(env.codec, log, n));
      assert Holds(env, LevelOf(Steady), log, d', b, n);
    }
  }

  lemma SafeEither(env: Env, mode: Mode, log: seq<Entry>, d: Disk, lo: nat) returns (n: nat, n': nat)
    requires EnvContract(env) && Recoverable(env, mode, log, d, lo) && mode != Exposed
    ensures lo <= n && lo <= n' && HoldsEither(env, log, d, n, n')
  {
    if mode == Renamed {
      n, n' :| lo <= n && lo <= n' && HoldsEither(env, log, d, n, n');
    } else {
      var b;
      b, n :| lo <= n && Holds(env, Settled, log, d, b, n);
      n' := n;
      var m := StoreAt(env.codec, log, n);
      AnchoredIsSafe(env, Settled, d, b, m);
      assert {m, m} == {m};
    }
  }

  /** A batch of the next entries moves the store and the index forward; cut short, it is all or nothing. */
  lemma UpdateServes(env: Env, lv: Durability, log: seq<Entry>, s: Node, n: nat, k: nat)
    requires Setting(env, log) && s.proc.Up? && n < k <= |log|
    requires Holds(env, lv, log, s.disk, s.proc.base, n) && s.proc.lastApplied == Applied(log, n)
    ensures var op := WriteDb(s.proc.base, StoreAt(env.codec, log, k));
            && UpdateOps(env, s, log[n..k]) == (if Decodes(env.codec, log[n..k]) then [op] else [])
            && DoAll(s.disk, [op]) == Do(s.disk, op)
            && Holds(env, lv, log, Do(s.disk, op), s.proc.base, k)
            && Do(s.disk, op).updating == s.disk.updating
    ensures UpdateNode(env, s, log[n..k]).proc
         == if Decodes(env.codec, log[n..k]) then Up(s.proc.base, Applied(log, k)) else Down
  {
    var ents, b := log[n..k], s.proc.base;
    var m, m' := StoreAt(env.codec, log, n), StoreAt(env.codec, log, k);
    AnchoredBase(env, lv, s.disk, b, m);
    UpdateExtendsFold(env.codec, log, n, k);
    WriteMovesAnchor(env, lv, s.disk, b, m, m');
    OneOp(s.disk, WriteDb(b, m'));
    SliceLast(log, n, k);
    AppliedInjective(log, n, k);
  }

  lemma RecoverReads(env: Env, lv: Durability, log: seq<Entry>, s: Node, n: nat, base: Bytes, n': nat)
    requires Setting(env, log) && s.proc.Up?
    requires Holds(env, lv, log, s.disk, s.proc.base, n) && s.proc.lastApplied == Applied(log, n)
    requires n <= n' <= |log|
    ensures var r := Stream(env.codec, StoreAt(env.codec, log, n'));
            && RecoverOps(env, s.disk, s.proc.lastApplied, base, r)
               == InstallOps(env, s.proc.base, base, StoreAt(env.codec, log, n'))
            && RecoverNode(env, s, base, r).proc == Up(base, Applied(log, n'))
  {
    var m' := StoreAt(env.codec, log, n');
    AnchoredBase(env, lv, s.disk, s.proc.base, StoreAt(env.codec, log, n));
    StoreIsText(env.codec, log, n');
    StreamRoundTrip(env.codec, m');
    StoreKnowsItsIndex(env.codec, log, n');
    AppliedInjective(log, n, n');
  }

  /** A complete snapshot of n' entries is installed with the contents and index of those entries,
      and everything has reached the disk. */
  lemma InstallServes(env: Env, lv: Durability, log: seq<Entry>, s: Node, n: nat, base: Bytes, n': nat)
    requires Setting(env, log) && s.proc.Up? && s.disk.updating.now.None?
    requires Holds(env, lv, log, s.disk, s.proc.base, n) && s.proc.lastApplied == Applied(log, n)
    requires base !in s.disk.dirs && n <= n' <= |log|
    ensures var r := Stream(env.codec, StoreAt(env.codec, log, n'));
            && RecoverOps(env, s.disk, s.proc.lastApplied, base, r)
               == InstallOps(env, s.proc.base, base, StoreAt(env.codec, log, n'))
            && RecoverNode(env, s, base, r).proc == Up(base, Applied(log, n'))
            && Holds(env, Settled, log, RecoverNode(env, s, base, r).disk, base, n')
            && RecoverNode(env, s, base, r).disk.updating.now.None?
            && LiveDirs(RecoverNode(env, s, base, r).disk) == LiveDirs(s.disk) + {base} - {s.proc.base}
  {
    var m, m' := StoreAt(env.codec, log, n), StoreAt(env.codec, log, n');
    RecoverReads(env, lv, log, s, n, base, n');
    var ops := InstallOps(env, s.proc.base, base, m');
    assert ops[..INSTALL_STEPS] == ops;
    InstallAfter(env, lv, s.disk, s.proc.base, m, base, m', INSTALL_STEPS);
    InstallReplaces(env, s.disk, s.proc.base, base, m');
    assert RecoverNode(env, s, base, Stream(env.codec, m')).disk == DoAll(s.disk, ops);
  }

  lemma TruncatedReads(env: Env, log: seq<Entry>, d: Disk, last: nat, base: Bytes, n: nat, len: nat)
    requires Setting(env, log) && CurrentBase(env, d).Some?
    requires n <= |log| && len < |Stream(env.codec, StoreAt(env.codec, log, n))|
    ensures var r := Stream(env.codec, StoreAt(env.codec, log, n))[..len];
            && ReadStream(env.codec, r) == ShortRead
            && RecoverOps(env, d, last, base, r) == [MakeDb(base)] && RecoverOutcome(env, d, last, r) == Err
  {
    StoreIsText(env.codec, log, n);
    StrictPrefixIsShort(env.codec, StoreAt(env.codec, log, n), len);
  }

  /** A snapshot stream that breaks off: an error, the live state and `current` untouched, and
      one extra directory. */
  lemma TruncatedInstall(env: Env, lv: Durability, log: seq<Entry>, s: Node, n: nat, base: Bytes, n': nat, len: nat)
    requires Setting(env, log) && s.proc.Up? && s.disk.updating.now.None?
    requires Holds(env, lv, log, s.disk, s.proc.base, n)
    requires base !in s.disk.dirs && n' <= |log| && len < |Stream(env.codec, StoreAt(env.codec, log, n'))|
    ensures var r := Stream(env.codec, StoreAt(env.codec, log, n'))[..len];
            var s' := RecoverNode(env, s, base, r);
            && ReadStream(env.codec, r) == ShortRead
            && RecoverOps(env, s.disk, s.proc.lastApplied, base, r) == [MakeDb(base)]
            && s'.proc == s.proc
            && s'.disk == s.disk.(dirs := s.disk.dirs[base := Directory(true, false, Intact(map[]))])
            && Holds(env, lv, log, s'.disk, s.proc.base, n)
  {
    AnchoredBase(env, lv, s.disk, s.proc.base, StoreAt(env.codec, log, n));
    TruncatedReads(env, log, s.disk, s.proc.lastApplied, base, n', len);
    OneOp(s.disk, MakeDb(base));
    QuietKeepsAnchor(env, lv, s.disk, s.proc.base, StoreAt(env.codec, log, n), MakeDb(base));
  }

  /** What a broken-off snapshot leaves behind is gone after the next Open, which serves the same
      prefix as before. */
  lemma TruncatedInstallLeavesNoTrace(env: Env, lv: Durability, log: seq<Entry>, s: Node, n: nat,
                                      base: Bytes, n': nat, len: nat, spare: Bytes)
    requires Setting(env, log) && s.proc.Up? && s.disk.updating.now.None?
    requires Holds(env, lv, log, s.disk, s.proc.base, n) && s.proc.lastApplied == Applied(log, n)
    requires base !in s.disk.dirs && n' <= |log| && len < |Stream(env.codec, StoreAt(env.codec, log, n'))|
    ensures var d := RecoverNode(env, s, base, Stream(env.codec, StoreAt(env.codec, log, n'))[..len]).disk;
            && d.current == s.disk.current && d.files == s.disk.files
            && LiveDirs(d) == LiveDirs(s.disk) + {base}
            && OpenNode(env, d, spare).proc == s.proc
            && LiveDirs(OpenNode(env, d, spare).disk) == {s.proc.base}
  {
    TruncatedInstall(env, lv, log, s, n, base, n', len);
    var d := RecoverNode(env, s, base, Stream(env.codec, StoreAt(env.codec, log, n'))[..len]).disk;
    LiveWithNew(s.disk, base);
    OpenServes(env, lv, log, d, s.proc.base, n, spare);
  }

  lemma LiveWithNew(d: Disk, base: Bytes)
    ensures LiveDirs(d.(dirs := d.dirs[base := Directory(true, false, Intact(map[]))])) == LiveDirs(d) + {base}
  {
  }

  /** A crash after k steps of the call leaves a recoverable disk. */
  ghost predicate CutKeeps(env: Env, log: seq<Entry>, s: State, call: Call, k: nat, lo: nat)
    requires Setting(env, log) && Enabled(env, log, s.node, call)
  {
    var ops := OpsOf(env, log, s.node, call);
    k <= |ops| ==> Recoverable(env, ModeAfter(s.mode, call, ops, k), log, DoAll(s.node.disk, ops[..k]), lo)
  }

  ghost predicate ReturnKeeps(env: Env, log: seq<Entry>, s: State, call: Call, lo: nat)
    requires Setting(env, log) && Enabled(env, log, s.node, call)
  {
    var ops := OpsOf(env, log, s.node, call);
    Refines(env, log, State(ResultOf(env, log, s.node, call), ModeAfter(s.mode, call, ops, |ops|)), lo)
  }

  /** After any number of Open's steps the disk is recoverable. */
  lemma OpenCut(env: Env, mode: Mode, log: seq<Entry>, d: Disk, spare: Bytes, k: nat, lo: nat)
    requires Setting(env, log) && Recoverable(env, mode, log, d, lo) && k <= |OpenOps(env, d, spare)|
    ensures var ops := OpenOps(env, d, spare);
            Recoverable(env, ModeAfter(mode, Open(spare), ops, k), log, DoAll(d, ops[..k]), lo)
  {
    var b, n :| lo <= n && Holds(env, LevelOf(mode), log, d, b, n);
    OpenStops(env, LevelOf(mode), log, d, b, n, spare, k);
    var ops := OpenOps(env, d, spare);
    assert Holds(env, LevelOf(ModeAfter(mode, Open(spare), ops, k)), log, DoAll(d, ops[..k]), b, n);
    if mode == Renamed && k <= 1 {
      var n1, n2 :| lo <= n1 && lo <= n2 && HoldsEither(env, log, d, n1, n2);
      FirstStepKeepsEither(env, log, d, b, StoreAt(env.codec, log, n), n1, n2, spare, k);
    }
  }

  lemma FirstStepKeepsEither(env: Env, log: seq<Entry>, d: Disk, b: Bytes, m: Store, n: nat, n': nat,
                             spare: Bytes, k: nat)
    requires EnvContract(env) && Anchored(env, Written, d, b, m) && HoldsEither(env, log, d, n, n')
    requires k <= 1 && k <= |OpenOps(env, d, spare)|
    ensures HoldsEither(env, log, DoAll(d, OpenOps(env, d, spare)[..k]), n, n')
  {
    AnchoredBase(env, Written, d, b, m);
    FirstOpenStep(env, d, b, spare, k);
    RemoveKeepsEither(env, log, d, n, n');
  }

  lemma RemoveKeepsEither(env: Env, log: seq<Entry>, d: Disk, n: nat, n': nat)
    requires EnvContract(env) && HoldsEither(env, log, d, n, n')
    ensures HoldsEither(env, log, Do(d, RemoveUpdating), n, n')
  {
    var d', S := Do(d, RemoveUpdating), {StoreAt(env.codec, log, n), StoreAt(env.codec, log, n')};
    forall o | Sound(env, Settled, d, o, S) ensures Sound(env, Settled, d', o, S) {
    }
  }

  /** The first step of Open only removes the scratch pointer. */
  lemma FirstOpenStep(env: Env, d: Disk, b: Bytes, spare: Bytes, k: nat)
    requires EnvContract(env) && CurrentBase(env, d) == Some(b) && IsLive(d, b)
    requires k <= 1 && k <= |OpenOps(env, d, spare)|
    ensures DoAll(d, OpenOps(env, d, spare)[..k]) == if k == 0 then d else Do(d, RemoveUpdating)
  {
    OpenOpsShape(env, d, b, spare);
    OneOp(d, RemoveUpdating);
    assert OpenOps(env, d, spare)[..k] == if k == 0 then [] else [RemoveUpdating];
  }

  lemma OpenReturns(env: Env, log: seq<Entry>, s: State, call: Call, lo: nat)
    requires Setting(env, log) && Refines(env, log, s, lo) && call.Open? && Enabled(env, log, s.node, call)
    ensures ReturnKeeps(env, log, s, call, lo)
  {
    var d, spare := s.node.disk, call.spare;
    var b, n :| lo <= n && Holds(env, LevelOf(s.mode), log, d, b, n);
    OpenComesUp(env, LevelOf(s.mode), log, d, b, n, spare);
    var mode := if s.mode == Renamed then Exposed else s.mode;
    UpRefines(env, log, OpenNode(env, d, spare), mode, n, lo);
    OpenMode(env, s.mode, d, b, StoreAt(env.codec, log, n), spare);
  }

  /** Open on a disk whose rename was not synced leaves the node exposed. */
  lemma OpenMode(env: Env, mode: Mode, d: Disk, b: Bytes, m: Store, spare: Bytes)
    requires EnvContract(env) && Anchored(env, LevelOf(mode), d, b, m)
    ensures var ops := OpenOps(env, d, spare);
            ModeAfter(mode, Open(spare), ops, |ops|) == if mode == Renamed then Exposed else mode
  {
    AnchoredBase(env, LevelOf(mode), d, b, m);
    OpenOpsShape(env, d, b, spare);
  }

  /** A call of at most one disk step, before or after it. */
  lemma OneStepCut(env: Env, mode: Mode, log: seq<Entry>, d: Disk, op: Op, ops: seq<Op>, b: Bytes, n: nat, n': nat,
                   k: nat, lo: nat)
    requires EnvContract(env) && (ops == [op] || ops == []) && k <= |ops| && lo <= n && lo <= n' && mode != Renamed
    requires Holds(env, LevelOf(mode), log, d, b, n) && Holds(env, LevelOf(mode), log, Do(d, op), b, n')
    ensures Recoverable(env, mode, log, DoAll(d, ops[..k]), lo)
  {
    if k == 0 {
      assert ops[..0] == [];
    } else {
      TakeOfOne(op, k);
      OneOp(d, op);
    }
  }

  lemma UpdateStops(env: Env, log: seq<Entry>, s: State, n: nat, k: nat, i: nat, lo: nat)
    requires Setting(env, log) && UpAt(env, log, s, n) && lo <= n < k <= |log|
    requires i <= |UpdateOps(env, s.node, log[n..k])|
    ensures Recoverable(env, s.mode, log, DoAll(s.node.disk, UpdateOps(env, s.node, log[n..k])[..i]), lo)
  {
    UpdateServes(env, LevelOf(s.mode), log, s.node, n, k);
    var b, ops := s.node.proc.base, UpdateOps(env, s.node, log[n..k]);
    OneStepCut(env, s.mode, log, s.node.disk, WriteDb(b, StoreAt(env.codec, log, k)), ops, b, n, k, i, lo);
  }

  lemma UpdateResult(env: Env, log: seq<Entry>, s: State, n: nat, k: nat, lo: nat)
    requires Setting(env, log) && UpAt(env, log, s, n) && lo <= n < k <= |log|
    ensures Refines(env, log, State(UpdateNode(env, s.node, log[n..k]), s.mode), lo)
  {
    UpdateServes(env, LevelOf(s.mode), log, s.node, n, k);
    var s' := UpdateNode(env, s.node, log[n..k]);
    if s'.proc.Up? {
      UpRefines(env, log, s', s.mode, k, lo);
    } else {
      assert Holds(env, LevelOf(s.mode), log, s'.disk, s.node.proc.base, n);
    }
  }

  lemma UpdateCut(env: Env, log: seq<Entry>, s: State, n: nat, call: Call, k: nat, lo: nat)
    requires Setting(env, log) && call.Update? && Enabled(env, log, s.node, call) && UpAt(env, log, s, n) && lo <= n
    ensures CutKeeps(env, log, s, call, k, lo)
  {
    AppliedInjective(log, n, call.j);
    if k <= |UpdateOps(env, s.node, log[n..call.k])| {
      UpdateStops(env, log, s, n, call.k, k, lo);
    }
  }

  lemma UpdateReturns(env: Env, log: seq<Entry>, s: State, n: nat, call: Call, lo: nat)
    requires Setting(env, log) && call.Update? && Enabled(env, log, s.node, call) && UpAt(env, log, s, n) && lo <= n
    ensures ReturnKeeps(env, log, s, call, lo)
  {
    AppliedInjective(log, n, call.j);
    UpdateResult(env, log, s, n, call.k, lo);
  }

  /** After any number of an installation's steps the disk is recoverable. */
  lemma InstallCut(env: Env, mode: Mode, log: seq<Entry>, s: Node, n: nat, call: Call, k: nat, lo: nat)
    requires Setting(env, log) && s.proc.Up? && s.disk.updating.now.None? && mode != Renamed
    requires Holds(env, LevelOf(mode), log, s.disk, s.proc.base, n)
    requires call.Install? && call.base !in s.disk.dirs && lo <= n <= call.n <= |log| && k <= INSTALL_STEPS
    ensures var ops := InstallOps(env, s.proc.base, call.base, StoreAt(env.codec, log, call.n));
            Recoverable(env, ModeAfter(mode, call, ops, k), log, DoAll(s.disk, ops[..k]), lo)
  {
    var Install(base, n', len) := call;
    var m, m' := StoreAt(env.codec, log, n), StoreAt(env.codec, log, n');
    InstallIsSafeAtEveryStep(env, LevelOf(mode), s.disk, s.proc.base, m, base, m', k);
    var ops := InstallOps(env, s.proc.base, base, m');
    var d1 := DoAll(s.disk, ops[..k]);
    assert LevelOf(ModeAfter(mode, call, ops, k)) == LevelAt(LevelOf(mode), k);
    if k < WINDOW {
      assert Holds(env, LevelAt(LevelOf(mode), k), log, d1, s.proc.base, n);
    } else {
      assert Holds(env, LevelAt(LevelOf(mode), k), log, d1, base, n');
      if k == WINDOW {
        assert HoldsEither(env, log, d1, n, n');
      }
    }
  }

  /** The ops of an Install call: all eleven steps of an installation if the stream is complete. */
  lemma InstallCallOps(env: Env, log: seq<Entry>, s: State, n: nat, call: Call)
    requires Setting(env, log) && call.Install? && Enabled(env, log, s.node, call) && UpAt(env, log, s, n)
    ensures n <= call.n
    ensures var ops := OpsOf(env, log, s.node, call);
            if call.len == |Stream(env.codec, StoreAt(env.codec, log, call.n))|
            then ops == InstallOps(env, s.node.proc.base, call.base, StoreAt(env.codec, log, call.n))
            else ops == [MakeDb(call.base)]
  {
    var lv, r := LevelOf(s.mode), Stream(env.codec, StoreAt(env.codec, log, call.n));
    AppliedInjective(log, n, call.n);
    if call.len == |r| {
      assert r[..call.len] == r;
      RecoverReads(env, lv, log, s.node, n, call.base, call.n);
    } else {
      TruncatedInstall(env, lv, log, s.node, n, call.base, call.n, call.len);
    }
  }

  lemma InstallCallCut(env: Env, log: seq<Entry>, s: State, n: nat, call: Call, k: nat, lo: nat)
    requires Setting(env, log) && call.Install? && Enabled(env, log, s.node, call) && UpAt(env, log, s, n) && lo <= n
    ensures CutKeeps(env, log, s, call, k, lo)
  {
    var ops := OpsOf(env, log, s.node, call);
    InstallCallOps(env, log, s, n, call);
    if k <= |ops| {
      if |ops| > 1 {
        InstallCut(env, s.mode, log, s.node, n, call, k, lo);
      } else {
        var b, m := s.node.proc.base, StoreAt(env.codec, log, n);
        QuietKeepsAnchor(env, LevelOf(s.mode), s.node.disk, b, m, ops[0]);
        OneStepCut(env, s.mode, log, s.node.disk, ops[0], ops, b, n, n, k, lo);
      }
    }
  }

  lemma FullInstallReturns(env: Env, log: seq<Entry>, s: State, n: nat, call: Call, lo: nat)
    requires Setting(env, log) && call.Install? && Enabled(env, log, s.node, call) && UpAt(env, log, s, n) && lo <= n
    requires call.len == |Stream(env.codec, StoreAt(env.codec, log, call.n))|
    ensures ReturnKeeps(env, log, s, call, lo)
  {
    var r := Stream(env.codec, StoreAt(env.codec, log, call.n));
    AppliedInjective(log, n, call.n);
    InstallComesUp(env, log, s, n, call.base, call.n, lo);
    InstallMode(env, s.mode, call, s.node.proc.base, StoreAt(env.codec, log, call.n));
    TakeAll(r, call.len);
  }

  lemma InstallComesUp(env: Env, log: seq<Entry>, s: State, n: nat, base: Bytes, n': nat, lo: nat)
    requires Setting(env, log) && UpAt(env, log, s, n) && lo <= n <= n' <= |log| && base !in s.node.disk.dirs
    ensures var r := Stream(env.codec, StoreAt(env.codec, log, n'));
            && RecoverOps(env, s.node.disk, s.node.proc.lastApplied, base, r)
               == InstallOps(env, s.node.proc.base, base, StoreAt(env.codec, log, n'))
            && Refines(env, log, State(RecoverNode(env, s.node, base, r), Steady), lo)
  {
    InstallServes(env, LevelOf(s.mode), log, s.node, n, base, n');
    UpRefines(env, log, RecoverNode(env, s.node, base, Stream(env.codec, StoreAt(env.codec, log, n'))), Steady, n', lo);
  }

  lemma InstallMode(env: Env, mode: Mode, call: Call, b: Bytes, m: Store)
    requires EnvContract(env) && call.Install?
    ensures var ops := InstallOps(env, b, call.base, m);
            ModeAfter(mode, call, ops, |ops|) == Steady
  {
  }

  lemma TruncatedInstallReturns(env: Env, log: seq<Entry>, s: State, n: nat, call: Call, lo: nat)
    requires Setting(env, log) && call.Install? && Enabled(env, log, s.node, call) && UpAt(env, log, s, n) && lo <= n
    requires call.len < |Stream(env.codec, StoreAt(env.codec, log, call.n))|
    ensures ReturnKeeps(env, log, s, call, lo)
  {
    var r := Stream(env.codec, StoreAt(env.codec, log, call.n))[..call.len];
    TruncatedInstall(env, LevelOf(s.mode), log, s.node, n, call.base, call.n, call.len);
    UpRefines(env, log, RecoverNode(env, s.node, call.base, r), s.mode, n, lo);
  }

  lemma CallKeeps(env: Env, log: seq<Entry>, s: State, call: Call, k: nat, lo: nat)
    requires Setting(env, log) && Refines(env, log, s, lo) && Enabled(env, log, s.node, call)
    ensures CutKeeps(env, log, s, call, k, lo) && ReturnKeeps(env, log, s, call, lo)
  {
    if call.Open? {
      if k <= |OpenOps(env, s.node.disk, call.spare)| {
        OpenCut(env, s.mode, log, s.node.disk, call.spare, k, lo);
      }
      OpenReturns(env, log, s, call, lo);
    } else {
      var n := HeldBy(env, log, s, lo);
      if call.Update? {
        UpdateCut(env, log, s, n, call, k, lo);
        UpdateReturns(env, log, s, n, call, lo);
      } else {
        InstallCallCut(env, log, s, n, call, k, lo);
        if call.len == |Stream(env.codec, StoreAt(env.codec, log, call.n))| {
          FullInstallReturns(env, log, s, n, call, lo);
        } else {
          TruncatedInstallReturns(env, log, s, n, call, lo);
        }
      }
    }
  }

  lemma StepKeepsRefinement(env: Env, log: seq<Entry>, s: State, e: Event, s': State, lo: nat)
    requires Setting(env, log) && Refines(env, log, s, lo) && Step(env, log, s, e, s')
    ensures Refines(env, log, s', lo)
  {
    match e
    case Return(call) => CallKeeps(env, log, s, call, 0, lo);
    case Cut(call, k, crash) =>
      CallKeeps(env, log, s, call, k, lo);
      var ops := OpsOf(env, log, s.node, call);
      CrashKeepsPrefix(env, ModeAfter(s.mode, call, ops, k), log, DoAll(s.node.disk, ops[..k]), crash, s', lo);
    case Stop(crash) =>
      if s.node.proc.Up? {
        var n := HeldBy(env, log, s, lo);
      }
      CrashKeepsPrefix(env, s.mode, log, s.node.disk, crash, s', lo);
    case WriteBack => WriteBackKeeps(env, log, s, lo);
  }

  // ----- the main results -----

  /** Whole-run refinement: from a refining state, every state of every run refines the log,
      without losing entries that were held at its start; in particular no run panics. */
  lemma {:induction false} RunRefinesLog(env: Env, log: seq<Entry>,
                                         run: seq<State>, events: seq<Event>, lo: nat, i: nat, j: nat)
    requires Setting(env, log) && IsRun(env, log, run, events)
    requires i <= j < |run| && Refines(env, log, run[i], lo)
    ensures Refines(env, log, run[j], lo)
    decreases j - i
  {
    if i < j {
      assert Step(env, log, run[i], events[i], run[i + 1]);
      StepKeepsRefinement(env, log, run[i], events[i], run[i + 1], lo);
      RunRefinesLog(env, log, run, events, lo, i + 1, j);
    }
  }

  /** Where runs start: a first Open on an empty data directory comes up at index 0 with the empty
      store, refining the log: exposed to power losses until the directory entry is on disk. */
  lemma FirstOpenRefines(env: Env, log: seq<Entry>, d: Disk, spare: Bytes)
    requires Setting(env, log) && WellFormed(d) && d.current == Link(None, {}) && spare !in d.dirs
    ensures var s := OpenNode(env, d, spare);
            && s.proc == Up(spare, 0)
            && Refines(env, log, State(s, Exposed), 0)
            && spare in s.disk.dirs
            && Refines(env, log, State(
                 s.(disk := s.disk.(dirs := s.disk.dirs[spare := s.disk.dirs[spare].(settled := true)])), Steady), 0)
  {
    FirstRunAnchors(env, d, spare);
    var s := OpenNode(env, d, spare);
    AnchoredBase(env, Written, s.disk, spare, map[]);
    assert StoreAt(env.codec, log, 0) == map[];
    UpRefines(env, log, s, Exposed, 0, 0);
    UpRefines(env, log, s.(disk := s.disk.(dirs := s.disk.dirs[spare := s.disk.dirs[spare].(settled := true)])),
              Steady, 0, 0);
  }

  /** Recovery: whenever a run leaves the node down, the next Open succeeds, serves exactly the
      fold of the log up to the index it returns, and leaves no directory but the current one. */
  lemma OpenAfterAnyRun(env: Env, log: seq<Entry>,
                        run: seq<State>, events: seq<Event>, lo: nat, i: nat, spare: Bytes)
      returns (n: nat)
    requires Setting(env, log) && IsRun(env, log, run, events)
    requires Refines(env, log, run[0], lo) && i < |run| && run[i].node.proc.Down?
    ensures lo <= n <= |log|
    ensures var s := OpenNode(env, run[i].node.disk, spare);
            && s.proc.Up? && s.proc.lastApplied == Applied(log, n)
            && StoreOf(s.disk, s.proc.base) == StoreAt(env.codec, log, n)
            && LiveDirs(s.disk) == {s.proc.base}
  {
    RunRefinesLog(env, log, run, events, lo, 0, i);
    var d, lv := run[i].node.disk, LevelOf(run[i].mode);
    var b;
    b, n :| lo <= n && Holds(env, lv, log, d, b, n);
    OpenServes(env, lv, log, d, b, n, spare);
    AnchoredBase(env, lv, OpenNode(env, d, spare).disk, b, StoreAt(env.codec, log, n));
  }

  /** A node that is up serves the fold of the log up to the index it reports. */
  lemma HeldBy(env: Env, log: seq<Entry>, s: State, lo: nat) returns (n: nat)
    requires Setting(env, log) && Refines(env, log, s, lo) && s.node.proc.Up?
    ensures lo <= n <= |log| && s.node.proc.lastApplied == Applied(log, n)
    ensures StoreOf(s.node.disk, s.node.proc.base) == StoreAt(env.codec, log, n)
    ensures UpAt(env, log, s, n)
  {
    n :| lo <= n && UpAt(env, log, s, n);
    AnchoredBase(env, LevelOf(s.mode), s.node.disk, s.node.proc.base, StoreAt(env.codec, log, n));
  }

  /** Nothing acknowledged is lost: along a run the index a node reports never goes back. */
  lemma IndexNeverGoesBack(env: Env, log: seq<Entry>, run: seq<State>, events: seq<Event>, i: nat, j: nat)
    requires Setting(env, log) && IsRun(env, log, run, events)
    requires Refines(env, log, run[0], 0)
    requires i <= j < |run| && run[i].node.proc.Up? && run[j].node.proc.Up?
    ensures run[i].node.proc.lastApplied <= run[j].node.proc.lastApplied
  {
    RunRefinesLog(env, log, run, events, 0, 0, i);
    var n := HeldBy(env, log, run[i], 0);
    assert Refines(env, log, run[i], n);
    RunRefinesLog(env, log, run, events, n, i, j);
    var n' := HeldBy(env, log, run[j], n);
    AppliedInjective(log, n, n');
  }

  /** GetHash */
  ghost function HashOf(env: Env, m: Store): nat
    requires EnvContract(env) && Fits(env.codec, m)
  {
    Uint64(env.md5(Stream(env.codec, m))[..8])
  }

  /** The hash written out as a little-endian word is the first half of the digest of the stream. */
  lemma HashIsDigest(env: Env, m: Store)
    requires EnvContract(env) && Fits(env.codec, m)
    ensures HashOf(env, m) < TWO64 && PutUint64(HashOf(env, m)) == env.md5(Stream(env.codec, m))[..8]
  {
    PutUint64OfUint64(env.md5(Stream(env.codec, m))[..8]);
  }

  /** Replica convergence: two replicas of one log, after any two runs, that report the same
      index hold the same map and the same hash. */
  lemma ReplicasConverge(env: Env, log: seq<Entry>, env2: Env,
                         run1: seq<State>, events1: seq<Event>, i: nat,
                         run2: seq<State>, events2: seq<Event>, j: nat)
    requires env2.codec == env.codec && env2.md5 == env.md5
    requires Setting(env, log) && Setting(env2, log)
    requires IsRun(env, log, run1, events1) && Refines(env, log, run1[0], 0)
    requires IsRun(env2, log, run2, events2) && Refines(env2, log, run2[0], 0)
    requires i < |run1| && j < |run2| && run1[i].node.proc.Up? && run2[j].node.proc.Up?
    requires run1[i].node.proc.lastApplied == run2[j].node.proc.lastApplied
    ensures var m1 := StoreOf(run1[i].node.disk, run1[i].node.proc.base);
            var m2 := StoreOf(run2[j].node.disk, run2[j].node.proc.base);
            m1 == m2 && Fits(env.codec, m1) && HashOf(env, m1) == HashOf(env2, m2)
  {
    RunRefinesLog(env, log, run1, events1, 0, 0, i);
    RunRefinesLog(env2, log, run2, events2, 0, 0, j);
    var n1 := HeldBy(env, log, run1[i], 0);
    var n2 := HeldBy(env2, log, run2[j], 0);
    AppliedInjective(log, n1, n2);
  }
}
