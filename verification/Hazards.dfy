/** Where crash safety ends: the exact crash points after which a later Open can panic. */
module Hazards {
  import opened ByteStrings
  import opened Ordering
  import opened KeyValue
  import opened Disk
  import opened Switch
  import opened Replica

  /** Open starts a database whose contents are among S. */
  ghost predicate OpensTo(env: Env, d: Disk, spare: Bytes, S: set<Store>)
    requires EnvContract(env)
  {
    var b := OpenTarget(env, d, spare);
    var d' := OpenNode(env, d, spare).disk;
    b.Some? && IsLive(d', b.value) && d'.dirs[b.value].content.Intact? && StoreOf(d', b.value) in S
  }

  ghost predicate SurvivesPowerLoss(env: Env, d: Disk, spare: Bytes, S: set<Store>)
    requires EnvContract(env)
  {
    forall d' :: PowerLoss(d, d') ==> OpensTo(env, d', spare, S)
  }

  /** Open does not get as far as a database: the pointer is corrupt or its directory is missing. */
  predicate Stuck(env: Env, d: Disk)
    requires EnvContract(env)
  {
    d.current.now.Some? && (CurrentBase(env, d).None? || !IsLive(d, CurrentBase(env, d).value))
  }

  ghost predicate PowerLossCanBreak(env: Env, d: Disk)
    requires EnvContract(env)
  {
    exists d' :: PowerLoss(d, d') && Stuck(env, d')
  }

  // ----- a node that is stuck -----

  predicate OnlyRemoves(ops: seq<Op>) {
    forall i :: 0 <= i < |ops| ==> ops[i].RemoveUpdating? || ops[i].Damage? || ops[i].RemoveDb?
  }

  lemma {:induction false} CleanupOnlyRemoves(names: seq<Bytes>, keep: Option<Bytes>)
    ensures OnlyRemoves(CleanupOps(names, keep))
  {
    if names != [] {
      CleanupOnlyRemoves(names[..|names| - 1], keep);
    }
  }

  /** The two disks have the same `current`, the same files and entries for the same names. */
  ghost predicate SameNames(d: Disk, d': Disk) {
    d'.current == d.current && d'.files == d.files && d'.dirs.Keys == d.dirs.Keys
  }

  lemma {:induction false} RemovingStaysStuck(env: Env, d: Disk, ops: seq<Op>)
    requires EnvContract(env) && Stuck(env, d) && OnlyRemoves(ops)
    ensures Stuck(env, DoAll(d, ops)) && SameNames(d, DoAll(d, ops))
  {
    if ops != [] {
      RemovingStaysStuck(env, d, ops[..|ops| - 1]);
    }
  }

  lemma StuckOpenOnlyRemoves(env: Env, d: Disk, spare: Bytes)
    requires EnvContract(env) && Stuck(env, d)
    ensures OnlyRemoves(OpenOps(env, d, spare))
  {
    CleanupOnlyRemoves(Sorted(LiveDirs(d)), CurrentBase(env, d));
  }

  /** The steps an Open performs before it is killed, or all of them if k is large. */
  function Attempted(env: Env, d: Disk, spare: Bytes, k: nat): seq<Op>
    requires EnvContract(env)
  {
    var ops := OpenOps(env, d, spare);
    if k < |ops| then ops[..k] else ops
  }

  /** The disk after Open was called again and again, each time with another spare name, and killed
      after some number of its steps or not. */
  function Reopened(env: Env, d: Disk, attempts: seq<(Bytes, nat)>): Disk
    requires EnvContract(env)
  {
    if attempts == [] then d
    else
      var n := |attempts| - 1;
      var d1 := Reopened(env, d, attempts[..n]);
      DoAll(d1, Attempted(env, d1, attempts[n].0, attempts[n].1))
  }

  lemma AttemptStaysStuck(env: Env, d: Disk, spare: Bytes, k: nat)
    requires EnvContract(env) && Stuck(env, d)
    ensures var d' := DoAll(d, Attempted(env, d, spare, k));
            Stuck(env, d') && SameNames(d, d')
  {
    StuckOpenOnlyRemoves(env, d, spare);
    RemovingStaysStuck(env, d, Attempted(env, d, spare, k));
  }

  /** A stuck node stays stuck until a power loss: however often Open is called, and killed or not,
      no later Open comes up. */
  lemma {:induction false} StuckForever(env: Env, d: Disk, attempts: seq<(Bytes, nat)>, spare: Bytes)
    requires EnvContract(env) && Stuck(env, d)
    ensures Stuck(env, Reopened(env, d, attempts)) && SameNames(d, Reopened(env, d, attempts))
    ensures OpenNode(env, Reopened(env, d, attempts), spare).proc == Panicked
  {
    if attempts != [] {
      var n := |attempts| - 1;
      StuckForever(env, d, attempts[..n], spare);
      AttemptStaysStuck(env, Reopened(env, d, attempts[..n]), attempts[n].0, attempts[n].1);
    }
  }

  // ----- a disk that a power loss can break -----

  /** `current` shows o, or will after some power loss, and the directory that o names need not
      be there then. */
  ghost predicate Fragile(env: Env, d: Disk, o: Option<nat>, b: Bytes)
    requires EnvContract(env)
  {
    && WellFormed(d) && d.updating.now != o
    && o in d.current.earlier + {d.current.now}
    && o.Some? && o.value in d.files && d.files[o.value].synced
    && PointedBase(env, d.files[o.value].data) == Some(b)
    && (b in d.dirs ==> !(d.dirs[b].live && d.dirs[b].settled))
  }

  /** One power loss among the possible: `current` shows o, the entry of b is gone, everything else
      is as it was. */
  function Reverted(d: Disk, o: Option<nat>, b: Bytes): Disk {
    d.(files := map i | i in d.files :: File(d.files[i].data, true),
       current := Link(o, {}), updating := Link(d.updating.now, {}),
       dirs := map x | x in d.dirs :: Directory(d.dirs[x].live && x != b, true, d.dirs[x].content))
  }

  lemma FragileCanBreak(env: Env, d: Disk, o: Option<nat>, b: Bytes)
    requires EnvContract(env) && Fragile(env, d, o, b)
    ensures PowerLossCanBreak(env, d)
  {
    assert PowerLoss(d, Reverted(d, o, b));
    assert Stuck(env, Reverted(d, o, b));
  }

  /** Only a directory sync ends it. */
  lemma FragileStays(env: Env, d: Disk, o: Option<nat>, b: Bytes, op: Op)
    requires EnvContract(env) && Fragile(env, d, o, b) && op != SyncDir
    ensures Fragile(env, Do(d, op), o, b)
  {
  }

  lemma {:induction false} FragileWithoutSync(env: Env, d: Disk, o: Option<nat>, b: Bytes, ops: seq<Op>)
    requires EnvContract(env) && Fragile(env, d, o, b) && SyncDir !in ops
    ensures Fragile(env, DoAll(d, ops), o, b)
  {
    if ops != [] {
      FragileWithoutSync(env, d, o, b, ops[..|ops| - 1]);
      FragileStays(env, DoAll(d, ops[..|ops| - 1]), o, b, ops[|ops| - 1]);
    }
  }

  lemma OpenDoesNotSync(env: Env, d: Disk, spare: Bytes)
    requires EnvContract(env) && d.current.now.Some?
    ensures SyncDir !in OpenOps(env, d, spare)
  {
    CleanupOnlyRemoves(Sorted(LiveDirs(d)), CurrentBase(env, d));
  }

  lemma EarlyInstallDoesNotSync(env: Env, b: Bytes, base: Bytes, m': Store, k: nat)
    requires EnvContract(env) && k < 7
    ensures SyncDir !in InstallOps(env, b, base, m')[..k]
  {
    assert forall i :: 0 <= i < 6 ==> InstallOps(env, b, base, m')[i] != SyncDir;
  }

  /** A call, or the part of it before a crash, that leaves the node exposed has not synced the
      directory. */
  lemma ExposedCallDoesNotSync(env: Env, log: seq<Entry>, s: State, call: Call, k: nat, lo: nat)
    requires Setting(env, log) && Refines(env, log, s, lo) && Enabled(env, log, s.node, call)
    requires s.mode == Exposed && k <= |OpsOf(env, log, s.node, call)|
    requires ModeAfter(s.mode, call, OpsOf(env, log, s.node, call), k) == Exposed
    ensures SyncDir !in OpsOf(env, log, s.node, call)[..k]
  {
    match call
    case Open(spare) =>
      OpenDoesNotSync(env, s.node.disk, spare);
    case Update(_, _) =>
    case Install(base, n', len) =>
      var n := HeldBy(env, log, s, lo);
      InstallCallOps(env, log, s, n, call);
      if k < 7 {
        EarlyInstallDoesNotSync(env, s.node.proc.base, base, StoreAt(env.codec, log, n'), k);
      }
  }

  /** A node exposed to power losses is so in earnest: from a fragile state on, as long as a run
      stays in that mode, some power loss makes every later Open fail. */
  lemma {:induction false} ExposedIsFatal(env: Env, log: seq<Entry>, run: seq<State>, events: seq<Event>,
                                          o: Option<nat>, b: Bytes, lo: nat, i: nat, j: nat)
    requires Setting(env, log) && IsRun(env, log, run, events) && i <= j < |run|
    requires Refines(env, log, run[i], lo) && Fragile(env, run[i].node.disk, o, b)
    requires forall x :: i <= x <= j ==> run[x].mode == Exposed
    ensures Fragile(env, run[j].node.disk, o, b) && PowerLossCanBreak(env, run[j].node.disk)
    decreases j - i
  {
    if i < j {
      assert Step(env, log, run[i], events[i], run[i + 1]);
      assert run[i + 1].mode == Exposed;
      StepKeepsRefinement(env, log, run[i], events[i], run[i + 1], lo);
      ExposedStep(env, log, run[i], events[i], run[i + 1], o, b, lo);
      ExposedIsFatal(env, log, run, events, o, b, lo, i + 1, j);
    } else {
      FragileCanBreak(env, run[j].node.disk, o, b);
    }
  }

  lemma ExposedStep(env: Env, log: seq<Entry>, s: State, e: Event, s': State, o: Option<nat>, b: Bytes, lo: nat)
    requires Setting(env, log) && Step(env, log, s, e, s') && s.mode == s'.mode == Exposed
    requires Refines(env, log, s, lo) && Fragile(env, s.node.disk, o, b)
    ensures Fragile(env, s'.node.disk, o, b)
  {
    if e.Return? || e.Cut? {
      var ops := OpsOf(env, log, s.node, e.call);
      ResultDisk(env, log, s.node, e.call);
      ExposedCall(env, log, s, e.call, if e.Return? then |ops| else e.k, o, b, lo);
    }
  }

  lemma ExposedCall(env: Env, log: seq<Entry>, s: State, call: Call, k: nat, o: Option<nat>, b: Bytes, lo: nat)
    requires Setting(env, log) && Refines(env, log, s, lo) && Enabled(env, log, s.node, call)
    requires s.mode == Exposed && k <= |OpsOf(env, log, s.node, call)| && Fragile(env, s.node.disk, o, b)
    requires ModeAfter(s.mode, call, OpsOf(env, log, s.node, call), k) == Exposed
    ensures Fragile(env, DoAll(s.node.disk, OpsOf(env, log, s.node, call)[..k]), o, b)
  {
    ExposedCallDoesNotSync(env, log, s, call, k, lo);
    FragileWithoutSync(env, s.node.disk, o, b, OpsOf(env, log, s.node, call)[..k]);
  }

  /** A call that returns has performed all its ops. */
  lemma ResultDisk(env: Env, log: seq<Entry>, s: Node, call: Call)
    requires Setting(env, log) && Enabled(env, log, s, call)
    ensures var ops := OpsOf(env, log, s, call);
            ResultOf(env, log, s, call).disk == DoAll(s.disk, ops[..|ops|])
  {
    var ops := OpsOf(env, log, s, call);
    assert ops[..|ops|] == ops;
  }

  // ----- an installation -----

  lemma AnchoredOpens(env: Env, lv: Durability, d: Disk, b: Bytes, m: Store, spare: Bytes)
    requires EnvContract(env) && Anchored(env, lv, d, b, m)
    ensures OpensTo(env, d, spare, {m})
    ensures Anchored(env, lv, OpenNode(env, d, spare).disk, b, m)
  {
    AnchoredBase(env, lv, d, b, m);
    OpenOpsShape(env, d, b, spare);
    QuietOpsKeepAnchor(env, lv, d, b, m, OpenOps(env, d, spare));
    AnchoredBase(env, lv, OpenNode(env, d, spare).disk, b, m);
  }

  lemma OpenKeepsOne(env: Env, lv: Durability, d: Disk, b: Bytes, m: Store, spare: Bytes)
    requires EnvContract(env) && Anchored(env, lv, d, b, m)
    ensures var d' := OpenNode(env, d, spare).disk;
            && d'.updating.now.None? && d'.files == d.files && d'.current == d.current
            && forall x :: x != b ==> !IsLive(d', x)
  {
    AnchoredBase(env, lv, d, b, m);
    OpenOpsShape(env, d, b, spare);
    OpenLeavesOne(d, Sorted(LiveDirs(d)), b);
    var d' := OpenNode(env, d, spare).disk;
    assert forall x :: IsLive(d', x) ==> x in LiveDirs(d');
  }

  lemma AnchoredSurvives(env: Env, d: Disk, b: Bytes, m: Store, spare: Bytes)
    requires EnvContract(env) && Anchored(env, Settled, d, b, m)
    ensures SurvivesPowerLoss(env, d, spare, {m}) && !PowerLossCanBreak(env, d)
  {
    AnchoredIsSafe(env, Settled, d, b, m);
    forall d' | PowerLoss(d, d') ensures OpensTo(env, d', spare, {m}) && !Stuck(env, d') {
      var b', m' := PowerLossKeepsSafe(env, d, {m}, d');
      AnchoredOpens(env, Settled, d', b', m', spare);
    }
  }

  /** On a node whose database may not survive, a power loss is harmless exactly when `current`
      still names that database and its directory is there: then the next Open starts it with all
      it held, else it does not start it. */
  lemma OutcomeIsExact(env: Env, d: Disk, b: Bytes, m: Store, after: Disk, spare: Bytes)
    requires EnvContract(env) && Anchored(env, Written, d, b, m) && PowerLoss(d, after) && spare !in d.dirs
    ensures StillNamed(env, d, after) <==> OpenTarget(env, after, spare) == Some(b)
    ensures StillNamed(env, d, after) ==> OpensTo(env, after, spare, {m})
  {
    AnchoredBase(env, Written, d, b, m);
    if StillNamed(env, d, after) {
      StillNamedKeepsAnchor(env, d, b, m, after);
      AnchoredOpens(env, Settled, after, b, m, spare);
    }
  }

  /** Kill the process after k steps of an installation, reopen, then lose power. Unless the kill
      fell between the rename and the directory sync, every outcome of the power loss opens with
      the contents the reopened node had; if it did, some outcome leaves the node stuck, because
      Open has deleted the database that the unsynced old pointer still names. */
  lemma KillPointIsExact(env: Env, d: Disk, b: Bytes, m: Store, base: Bytes, m': Store, k: nat, spare: Bytes)
    requires EnvContract(env) && Anchored(env, Settled, d, b, m)
    requires d.updating.now.None? && base !in d.dirs && k <= INSTALL_STEPS
    ensures var killed := DoAll(d, InstallOps(env, b, base, m')[..k]);
            var reopened := OpenNode(env, killed, spare).disk;
            var S := {if k < WINDOW then m else m'};
            && OpensTo(env, killed, spare, S)
            && (SurvivesPowerLoss(env, reopened, spare, S) <==> k != WINDOW)
            && (PowerLossCanBreak(env, reopened) <==> k == WINDOW)
  {
    var killed := DoAll(d, InstallOps(env, b, base, m')[..k]);
    var reopened := OpenNode(env, killed, spare).disk;
    var b1, m1 := if k < WINDOW then b else base, if k < WINDOW then m else m';
    InstallIsSafeAtEveryStep(env, Settled, d, b, m, base, m', k);
    AnchoredOpens(env, LevelAt(Settled, k), killed, b1, m1, spare);
    if k == WINDOW {
      InstallAfter(env, Settled, d, b, m, base, m', k);
      var o := WindowIsFatal(env, killed, b, m, base, m', spare);
      FragileCanBreak(env, reopened, o, b);
      BrokenIsNoSurvival(env, reopened, spare, {m1});
    } else {
      AnchoredSurvives(env, reopened, b1, m1, spare);
    }
  }

  lemma BrokenIsNoSurvival(env: Env, d: Disk, spare: Bytes, S: set<Store>)
    requires EnvContract(env) && PowerLossCanBreak(env, d)
    ensures !SurvivesPowerLoss(env, d, spare, S)
  {
    var d' :| PowerLoss(d, d') && Stuck(env, d');
    assert !OpensTo(env, d', spare, S);
  }

  /** Reopening after a kill in the window deletes the database that `current` may still name. */
  lemma WindowIsFatal(env: Env, killed: Disk, b: Bytes, m: Store, base: Bytes, m': Store, spare: Bytes)
      returns (o: Option<nat>)
    requires EnvContract(env) && b != base && InstallPhase(env, Settled, killed, b, m, base, m', WINDOW)
    ensures Fragile(env, OpenNode(env, killed, spare).disk, o, b)
  {
    AnchoredOpens(env, Written, killed, base, m', spare);
    OpenKeepsOne(env, Written, killed, base, m', spare);
    o :| o in killed.current.earlier;
    assert Sound(env, Settled, killed, o, {m}) && PointedBase(env, killed.files[o.value].data) == Some(b);
    var d := OpenNode(env, killed, spare).disk;
    assert WellFormed(d) && !IsLive(d, b);
  }

  lemma WindowKill(env: Env, log: seq<Entry>, s: State, call: Call, s': State, lo: nat)
      returns (b: Bytes, m: Store, m': Store)
    requires Setting(env, log) && Refines(env, log, s, lo) && s.mode == Steady && call.Install?
    requires Step(env, log, s, Cut(call, WINDOW, Kill), s')
    ensures b != call.base && InstallPhase(env, Settled, s'.node.disk, b, m, call.base, m', WINDOW)
  {
    var n := HeldBy(env, log, s, lo);
    InstallCallOps(env, log, s, n, call);
    b, m, m' := s.node.proc.base, StoreAt(env.codec, log, n), StoreAt(env.codec, log, call.n);
    InstallAfter(env, Settled, s.node.disk, b, m, call.base, m', WINDOW);
  }

  /** In a run: a kill in the window, then a completed Open. From then on, as long as the run stays
      exposed, that is until an installation syncs the directory or it is written back, some outcome
      of a power loss leaves the node stuck. */
  lemma ReopenedAfterWindowKill(env: Env, log: seq<Entry>, run: seq<State>, events: seq<Event>, lo: nat, i: nat, j: nat)
    requires Setting(env, log) && IsRun(env, log, run, events) && i + 2 <= j < |run|
    requires Refines(env, log, run[i], lo) && run[i].mode == Steady
    requires events[i].Cut? && events[i].call.Install? && events[i].k == WINDOW && events[i].crash.Kill?
    requires events[i + 1].Return? && events[i + 1].call.Open?
    requires forall x :: i + 2 <= x <= j ==> run[x].mode == Exposed
    ensures PowerLossCanBreak(env, run[j].node.disk)
  {
    assert Step(env, log, run[i], events[i], run[i + 1]);
    var b, m, m' := WindowKill(env, log, run[i], events[i].call, run[i + 1], lo);
    assert Step(env, log, run[i + 1], events[i + 1], run[i + 1 + 1]);
    var o := WindowIsFatal(env, run[i + 1].node.disk, b, m, events[i].call.base, m', events[i + 1].call.spare);
    RunRefinesLog(env, log, run, events, lo, i, i + 2);
    ExposedIsFatal(env, log, run, events, o, b, lo, i + 2, j);
  }

  // ----- the very first run -----

  lemma {:induction false} NamesStay(d: Disk, ops: seq<Op>)
    requires forall i :: 0 <= i < |ops| ==> !ops[i].MakeDb?
    ensures DoAll(d, ops).dirs.Keys == d.dirs.Keys
  {
    if ops != [] {
      NamesStay(d, ops[..|ops| - 1]);
    }
  }

  /** An Open that finds no pointer comes up empty. */
  lemma FirstOpenIsEmpty(env: Env, d: Disk, spare: Bytes)
    requires EnvContract(env) && d.current.now.None? && spare !in d.dirs
    ensures OpensTo(env, d, spare, {map[]}) && !Stuck(env, d)
  {
    var ops := FirstRunOps(env, spare);
    NamesStay(d, ops[..7]);
    DoAllSnoc(d, ops, 7);
    assert ops[..8] == ops;
  }

  /** From the rename on, `current` names a directory that need not be there after a power loss. */
  lemma FirstRunIsFragile(env: Env, d: Disk, base: Bytes, k: nat)
    requires EnvContract(env) && 6 <= k <= FIRST_RUN_STEPS && FirstPhase(env, d, base, k)
    ensures Fragile(env, d, d.current.now, base)
  {
    PointerRoundTrip(env, PointerData(env, base), base);
  }

  lemma KilledBeforeRename(env: Env, d: Disk, base: Bytes, k: nat, spare: Bytes)
    requires EnvContract(env) && WellFormed(d) && d.current == Link(None, {}) && base !in d.dirs && spare !in d.dirs
    requires k < 6
    ensures var killed := DoAll(d, FirstRunOps(env, base)[..k]);
            killed.current == Link(None, {}) && spare !in killed.dirs
  {
    FirstAfter(env, d, base, k);
    NamesStay(d, FirstRunOps(env, base)[..k]);
  }

  /** Kill the very first Open after k steps: the next Open comes up, empty, exactly when the kill
      did not fall between the rename of `current` and the creation of the directory it names; if
      it did, the node is stuck. */
  lemma FirstRunKillPointIsExact(env: Env, d: Disk, base: Bytes, k: nat, spare: Bytes)
    requires EnvContract(env) && WellFormed(d) && d.current == Link(None, {}) && base !in d.dirs && spare !in d.dirs
    requires k <= FIRST_RUN_STEPS
    ensures var killed := DoAll(d, FirstRunOps(env, base)[..k]);
            && (OpensTo(env, killed, spare, {map[]}) <==> k < 6 || k == FIRST_RUN_STEPS)
            && (Stuck(env, killed) <==> 6 <= k < FIRST_RUN_STEPS)
  {
    var killed := DoAll(d, FirstRunOps(env, base)[..k]);
    if k < 6 {
      KilledBeforeRename(env, d, base, k, spare);
      FirstOpenIsEmpty(env, killed, spare);
    } else if k < FIRST_RUN_STEPS {
      FirstAfter(env, d, base, k);
      PointerRoundTrip(env, PointerData(env, base), base);
    } else {
      FirstRunAnchors(env, d, base);
      assert FirstRunOps(env, base)[..k] == FirstRunOps(env, base);
      AnchoredOpens(env, Written, killed, base, map[], spare);
    }
  }

  lemma RenameLeavesNone(env: Env, d: Disk, base: Bytes)
    requires EnvContract(env) && WellFormed(d) && d.current == Link(None, {}) && base !in d.dirs
    ensures DoAll(d, FirstRunOps(env, base)[..6]).current.earlier == {None}
  {
    FirstAfter(env, d, base, 5);
    DoAllSnoc(d, FirstRunOps(env, base), 5);
  }

  ghost predicate PowerLossCanFree(env: Env, d: Disk, spare: Bytes)
    requires EnvContract(env)
  {
    exists d' :: PowerLoss(d, d') && OpensTo(env, d', spare, {map[]})
  }

  /** A first Open killed between the rename and the creation of the directory: the node is stuck
      however often Open is tried again, and a power loss can get it out, as new, exactly when the
      rename had not been synced. */
  lemma OnlyPowerLossFrees(env: Env, d: Disk, base: Bytes, k: nat, attempts: seq<(Bytes, nat)>, spare: Bytes)
    requires EnvContract(env) && WellFormed(d) && d.current == Link(None, {}) && base !in d.dirs && spare !in d.dirs
    requires 6 <= k < FIRST_RUN_STEPS
    ensures var d1 := Reopened(env, DoAll(d, FirstRunOps(env, base)[..k]), attempts);
            Stuck(env, d1) && (PowerLossCanFree(env, d1, spare) <==> k == 6)
  {
    var killed := DoAll(d, FirstRunOps(env, base)[..k]);
    FirstRunKillPointIsExact(env, d, base, k, spare);
    PointsNowhere(env, d, base, k, spare);
    StuckForever(env, killed, attempts, spare);
    var d1 := Reopened(env, killed, attempts);
    if k == 6 {
      UnsyncedRenameFrees(env, d1, base, spare);
    } else {
      SyncedRenameHolds(env, d1, base, spare);
    }
  }

  lemma PointsNowhere(env: Env, d: Disk, base: Bytes, k: nat, spare: Bytes)
    requires EnvContract(env) && WellFormed(d) && d.current == Link(None, {}) && base !in d.dirs && spare !in d.dirs
    requires 6 <= k < FIRST_RUN_STEPS
    ensures var killed := DoAll(d, FirstRunOps(env, base)[..k]);
            && base !in killed.dirs && spare !in killed.dirs
            && killed.current.now.Some? && killed.current.now.value in killed.files
            && killed.files[killed.current.now.value] == File(PointerData(env, base), true)
            && killed.current.earlier == if k == 6 then {None} else {}
  {
    FirstAfter(env, d, base, k);
    NamesStay(d, FirstRunOps(env, base)[..k]);
    if k == 6 {
      RenameLeavesNone(env, d, base);
    }
  }

  lemma UnsyncedRenameFrees(env: Env, d: Disk, base: Bytes, spare: Bytes)
    requires EnvContract(env) && None in d.current.earlier && base !in d.dirs && spare !in d.dirs
    ensures PowerLossCanFree(env, d, spare)
  {
    var after := Reverted(d, None, base);
    assert PowerLoss(d, after);
    FirstOpenIsEmpty(env, after, spare);
  }

  /** A synced pointer to a directory that never was survives every power loss. */
  lemma SyncedRenameHolds(env: Env, d: Disk, base: Bytes, spare: Bytes)
    requires EnvContract(env) && d.current.earlier == {} && base !in d.dirs
    requires d.current.now.Some? && d.current.now.value in d.files
    requires d.files[d.current.now.value] == File(PointerData(env, base), true)
    ensures !PowerLossCanFree(env, d, spare)
  {
    PointerRoundTrip(env, PointerData(env, base), base);
    forall d' | PowerLoss(d, d') ensures Stuck(env, d') {
      assert d'.files[d.current.now.value] == d.files[d.current.now.value];
    }
  }

  /** Lose power after k steps of the very first Open: every outcome opens, empty, exactly when
      the rename has not happened; from then on, also after the Open has returned, some outcome
      leaves the node stuck. */
  lemma FirstRunPowerLossPointIsExact(env: Env, d: Disk, base: Bytes, k: nat, spare: Bytes)
    requires EnvContract(env) && WellFormed(d) && d.current == Link(None, {}) && base !in d.dirs && spare !in d.dirs
    requires k <= FIRST_RUN_STEPS
    ensures var d1 := DoAll(d, FirstRunOps(env, base)[..k]);
            && (SurvivesPowerLoss(env, d1, spare, {map[]}) <==> k < 6)
            && (PowerLossCanBreak(env, d1) <==> k >= 6)
  {
    var d1 := DoAll(d, FirstRunOps(env, base)[..k]);
    if k < 6 {
      KilledBeforeRename(env, d, base, k, spare);
      forall d' | PowerLoss(d1, d') ensures OpensTo(env, d', spare, {map[]}) && !Stuck(env, d') {
        FirstOpenIsEmpty(env, d', spare);
      }
    } else {
      FirstAfter(env, d, base, k);
      FirstRunIsFragile(env, d1, base, k);
      FragileCanBreak(env, d1, d1.current.now, base);
      BrokenIsNoSurvival(env, d1, spare, {map[]});
    }
  }

  /** A power loss after the first Open: survivable for every outcome exactly when the entry of
      the new database directory has reached the disk, which no step of the first Open ensures. */
  lemma FirstRunPowerLossIsExact(env: Env, d: Disk, base: Bytes, settled: bool, spare: Bytes)
    requires EnvContract(env) && WellFormed(d) && d.current == Link(None, {}) && base !in d.dirs
    ensures var d' := DoAll(d, FirstRunOps(env, base));
            && base in d'.dirs && d'.dirs[base] == Directory(true, false, Intact(map[]))
            && var d1 := d'.(dirs := d'.dirs[base := Directory(true, settled, Intact(map[]))]);
            && (SurvivesPowerLoss(env, d1, spare, {map[]}) <==> settled)
            && (PowerLossCanBreak(env, d1) <==> !settled)
  {
    var ops := FirstRunOps(env, base);
    assert ops[..FIRST_RUN_STEPS] == ops;
    FirstAfter(env, d, base, FIRST_RUN_STEPS);
    FirstRunAnchors(env, d, base);
    var d' := DoAll(d, ops);
    if settled {
      AnchoredSurvives(env, d'.(dirs := d'.dirs[base := Directory(true, settled, Intact(map[]))]), base, map[], spare);
    } else {
      assert d'.dirs[base := Directory(true, settled, Intact(map[]))] == d'.dirs;
      FirstRunIsFragile(env, d', base, FIRST_RUN_STEPS);
      FragileCanBreak(env, d', d'.current.now, base);
      BrokenIsNoSurvival(env, d', spare, {map[]});
    }
  }
}
