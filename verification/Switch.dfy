/** Switching `current` from one database to another, disk step by disk step:
    the installation of a snapshot and the very first run. */
module Switch {
  import opened ByteStrings
  import opened KeyValue
  import opened Disk

  /** RecoverFromSnapshot once the stream has been read: build the new database, save the
      pointer, swap it in, remove the old database. */
  function InstallOps(env: Env, b: Bytes, b': Bytes, m': Store): seq<Op>
    requires EnvContract(env)
  {
    [MakeDb(b'), WriteDb(b', m')] + SaveOps(env, b') + ReplaceOps() + [Damage(b), RemoveDb(b)]
  }

  /** The number of steps after which the rename has happened and is not yet synced. */
  const WINDOW := 8
  const INSTALL_STEPS := 11

  /** The scratch pointer file after k steps of saveCurrentDBDirName (k <= 5). */
  ghost predicate Scratch(env: Env, d: Disk, base: Bytes, k: nat)
    requires EnvContract(env)
  {
    if k == 0 then d.updating.now.None?
    else
      && HasUpdating(d)
      && d.files[d.updating.now.value].data
         == (if k == 1 then [] else if k == 2 then Checksum(env, PathOf(env, base)) else PointerData(env, base))
      && (k >= 4 ==> d.files[d.updating.now.value].synced)
  }

  /** A complete, durable pointer to base waits under the scratch name, and every directory entry
      has reached the disk. */
  ghost predicate PointerReady(env: Env, d: Disk, base: Bytes)
    requires EnvContract(env)
  {
    && HasUpdating(d) && d.files[d.updating.now.value] == File(PointerData(env, base), true)
    && d.updating.earlier == {} && forall b :: b in d.dirs ==> d.dirs[b].settled
  }

  lemma {:induction false} SaveAfter(env: Env, d: Disk, base: Bytes, k: nat)
    requires EnvContract(env) && 0 < k <= 4
    ensures Scratch(env, DoAll(d, SaveOps(env, base)[..k]), base, k)
  {
    var ops := SaveOps(env, base);
    DoAllSnoc(d, ops, k - 1);
    if k == 1 {
      assert ops[..0] == [];
    } else {
      SaveAfter(env, d, base, k - 1);
      ScratchStep(env, DoAll(d, ops[..k - 1]), base, k - 1);
    }
  }

  /** saveCurrentDBDirName leaves a pointer that the rename can safely publish, whatever was
      under the scratch name before. */
  lemma SaveMakesPointerReady(env: Env, d: Disk, base: Bytes)
    requires EnvContract(env)
    ensures PointerReady(env, DoAll(d, SaveOps(env, base)), base)
  {
    var ops := SaveOps(env, base);
    SaveAfter(env, d, base, 4);
    DoAllSnoc(d, ops, 4);
    assert ops[..5] == ops;
  }

  /** replaceCurrentDBFile makes the waiting pointer the only thing `current` can mean. */
  lemma ReplacePublishes(env: Env, d: Disk, base: Bytes)
    requires EnvContract(env) && PointerReady(env, d, base)
    ensures var d' := DoAll(d, ReplaceOps());
            && d'.current == Link(d.updating.now, {}) && d'.updating.now == None
            && d'.files == d.files && PointedBase(env, d'.files[d'.current.now.value].data) == Some(base)
  {
    TwoOps(d, Rename, SyncDir);
    PointerRoundTrip(env, PointerData(env, base), base);
  }

  /** The level an installation that starts at lv has reached after k steps: its first directory
      sync settles everything, the rename is unsettled until the second. */
  function LevelAt(lv: Durability, k: nat): Durability {
    if k < 7 then lv else if k == WINDOW then Written else Settled
  }

  /** The state of an installation after k steps. */
  ghost predicate InstallPhase(env: Env, lv: Durability, d: Disk, b: Bytes, m: Store, b': Bytes, m': Store, k: nat)
    requires EnvContract(env)
  {
    if k <= 7 then
      && Anchored(env, LevelAt(lv, k), d, b, m)
      && Scratch(env, d, b', if k <= 2 then 0 else k - 2)
      && d.updating.now != d.current.now
      && (k == 0 ==> b' !in d.dirs)
      && (k >= 1 ==> IsLive(d, b') && d.dirs[b'].content == Intact(if k == 1 then map[] else m'))
      && (k == 7 ==> d.dirs[b'].settled)
    else
      && Anchored(env, LevelAt(lv, k), d, b', m')
      && d.updating.now.None?
      && (k == WINDOW ==>
            && d.dirs[b'].settled && IsLive(d, b) && d.dirs[b].content == Intact(m)
            && d.current.earlier != {}
            && forall o :: o in d.current.earlier ==>
                 Sound(env, Settled, d, o, {m}) && PointedBase(env, d.files[o.value].data) == Some(b))
  }

  lemma InstallStep(env: Env, lv: Durability, d: Disk, b: Bytes, m: Store, b': Bytes, m': Store, k: nat)
    requires EnvContract(env) && b != b' && k < INSTALL_STEPS
    requires InstallPhase(env, lv, d, b, m, b', m', k)
    ensures InstallPhase(env, lv, Do(d, InstallOps(env, b, b', m')[k]), b, m, b', m', k + 1)
  {
    var op := InstallOps(env, b, b', m')[k];
    if k < 7 {
      EarlyStep(env, lv, d, b, m, b', m', k, op);
    } else if k == 7 {
      RenameStep(env, lv, d, b, m, b', m');
    } else if k == 8 {
      SettleStep(env, lv, d, b, m, b', m');
    } else {
      assert Quiet(op, b');
      QuietKeepsAnchor(env, LevelAt(lv, k), d, b', m', op);
    }
  }

  lemma EarlyStep(env: Env, lv: Durability, d: Disk, b: Bytes, m: Store, b': Bytes, m': Store, k: nat, op: Op)
    requires EnvContract(env) && b != b' && k < 7
    requires op == if k == 0 then MakeDb(b') else if k == 1 then WriteDb(b', m') else SaveOps(env, b')[k - 2]
    requires InstallPhase(env, lv, d, b, m, b', m', k)
    ensures InstallPhase(env, lv, Do(d, op), b, m, b', m', k + 1)
  {
    if k == 0 || k == 1 || k == 6 {
      assert Quiet(op, b);
      QuietKeepsAnchor(env, lv, d, b, m, op);
      if k == 6 {
        SyncSettles(env, lv, d, b, m);
      }
    } else {
      ScratchWriteKeepsAnchor(env, lv, d, b, m, op);
      ScratchStep(env, d, b', k - 2);
    }
  }

  lemma ScratchStep(env: Env, d: Disk, base: Bytes, k: nat)
    requires EnvContract(env) && k < 4 && Scratch(env, d, base, k)
    ensures Scratch(env, Do(d, SaveOps(env, base)[k]), base, k + 1)
    ensures Do(d, SaveOps(env, base)[k]).dirs == d.dirs
  {
    if k == 1 {
      assert [] + Checksum(env, PathOf(env, base)) == Checksum(env, PathOf(env, base));
    }
  }

  lemma RenameStep(env: Env, lv: Durability, d: Disk, b: Bytes, m: Store, b': Bytes, m': Store)
    requires EnvContract(env) && b != b'
    requires InstallPhase(env, lv, d, b, m, b', m', 7)
    ensures InstallPhase(env, lv, Do(d, Rename), b, m, b', m', 8)
  {
    PointerRoundTrip(env, PointerData(env, b'), b');
    AnchoredIsSafe(env, LevelAt(lv, 7), d, b, m);
    var d' := Do(d, Rename);
    assert d'.files == d.files && d'.dirs == d.dirs;
    assert d'.current.earlier == {d.current.now};
  }

  lemma SettleStep(env: Env, lv: Durability, d: Disk, b: Bytes, m: Store, b': Bytes, m': Store)
    requires EnvContract(env)
    requires InstallPhase(env, lv, d, b, m, b', m', 8)
    ensures InstallPhase(env, lv, Do(d, SyncDir), b, m, b', m', 9)
  {
    var d' := Do(d, SyncDir);
    assert d'.files == d.files && d'.dirs[b'] == d.dirs[b'].(settled := true);
  }

  lemma {:induction false} InstallAfter(env: Env, lv: Durability, d: Disk, b: Bytes, m: Store,
                                        b': Bytes, m': Store, k: nat)
    requires EnvContract(env) && Anchored(env, lv, d, b, m)
    requires d.updating.now.None? && b' !in d.dirs && k <= INSTALL_STEPS
    ensures InstallPhase(env, lv, DoAll(d, InstallOps(env, b, b', m')[..k]), b, m, b', m', k)
  {
    var ops := InstallOps(env, b, b', m');
    AnchoredIsSafe(env, lv, d, b, m);
    if k > 0 {
      InstallAfter(env, lv, d, b, m, b', m', k - 1);
      InstallStep(env, lv, DoAll(d, ops[..k - 1]), b, m, b', m', k - 1);
      DoAllSnoc(d, ops, k - 1);
    }
  }

  /** At every disk step of an installation `current` holds a complete, verified name of an
      existing directory with the full old or the full new contents, now and after a power loss. */
  lemma InstallIsSafeAtEveryStep(env: Env, lv: Durability, d: Disk, b: Bytes, m: Store, b': Bytes, m': Store, k: nat)
    requires EnvContract(env) && Anchored(env, lv, d, b, m)
    requires d.updating.now.None? && b' !in d.dirs && k <= INSTALL_STEPS
    ensures var d1 := DoAll(d, InstallOps(env, b, b', m')[..k]);
            && Safe(env, if k == WINDOW then Settled else LevelAt(lv, k), d1,
                    if k < WINDOW then {m} else if k == WINDOW then {m, m'} else {m'})
            && (k < WINDOW ==> Anchored(env, LevelAt(lv, k), d1, b, m))
            && (k >= WINDOW ==> Anchored(env, LevelAt(lv, k), d1, b', m'))
  {
    InstallAfter(env, lv, d, b, m, b', m', k);
    var d1 := DoAll(d, InstallOps(env, b, b', m')[..k]);
    if k < WINDOW {
      AnchoredIsSafe(env, LevelAt(lv, k), d1, b, m);
    } else if k > WINDOW {
      AnchoredIsSafe(env, LevelAt(lv, k), d1, b', m');
    } else {
      assert Sound(env, Settled, d1, d1.current.now, {m, m'});
      assert forall o :: Sound(env, Settled, d1, o, {m}) ==> Sound(env, Settled, d1, o, {m, m'});
    }
  }

  // ----- the very first run -----

  /** Open on an empty data directory: the pointer is swapped in before the directory exists. */
  function FirstRunOps(env: Env, base: Bytes): seq<Op>
    requires EnvContract(env)
  {
    SaveOps(env, base) + ReplaceOps() + [MakeDb(base)]
  }

  const FIRST_RUN_STEPS := 8

  ghost predicate FirstPhase(env: Env, d: Disk, base: Bytes, k: nat)
    requires EnvContract(env)
  {
    && WellFormed(d)
    && (k < 8 ==> base !in d.dirs)
    && (k <= 5 ==> d.current == Link(None, {}) && (k > 0 ==> Scratch(env, d, base, k)))
    && (k > 5 ==>
          && d.updating.now.None?
          && d.current.now.Some? && d.current.now.value in d.files
          && d.files[d.current.now.value] == File(PointerData(env, base), true)
          && (k > 6 ==> d.current.earlier == {}))
    && (k == 8 ==> base in d.dirs && d.dirs[base] == Directory(true, false, Intact(map[])))
  }

  lemma FirstStep(env: Env, d: Disk, base: Bytes, k: nat)
    requires EnvContract(env) && k < FIRST_RUN_STEPS && FirstPhase(env, d, base, k)
    ensures FirstPhase(env, Do(d, FirstRunOps(env, base)[k]), base, k + 1)
  {
    if 0 < k < 4 {
      ScratchStep(env, d, base, k);
    }
  }

  lemma {:induction false} FirstAfter(env: Env, d: Disk, base: Bytes, k: nat)
    requires EnvContract(env) && k <= FIRST_RUN_STEPS && FirstPhase(env, d, base, 0)
    ensures FirstPhase(env, DoAll(d, FirstRunOps(env, base)[..k]), base, k)
  {
    if k > 0 {
      FirstAfter(env, d, base, k - 1);
      FirstStep(env, DoAll(d, FirstRunOps(env, base)[..k - 1]), base, k - 1);
      DoAllSnoc(d, FirstRunOps(env, base), k - 1);
    }
  }

  /** A completed first run is anchored to the empty database, for power losses too as soon
      as the new directory's entry has reached the disk. */
  lemma FirstRunAnchors(env: Env, d: Disk, base: Bytes)
    requires EnvContract(env) && WellFormed(d) && d.current == Link(None, {}) && base !in d.dirs
    ensures var d' := DoAll(d, FirstRunOps(env, base));
            && Anchored(env, Written, d', base, map[]) && d'.updating.now.None?
            && !Anchored(env, Settled, d', base, map[])
            && Anchored(env, Settled, d'.(dirs := d'.dirs[base := d'.dirs[base].(settled := true)]), base, map[])
  {
    var ops := FirstRunOps(env, base);
    assert ops[..FIRST_RUN_STEPS] == ops;
    FirstAfter(env, d, base, FIRST_RUN_STEPS);
    PointerRoundTrip(env, PointerData(env, base), base);
  }
}
