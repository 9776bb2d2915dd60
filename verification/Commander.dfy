/** The Commander object: its methods perform the disk steps and state changes of the replica
    machine, in the source's imperative form. */
module CommanderObject {
  import opened ByteStrings
  import opened Seqs
  import opened Ordering
  import opened KeyValue
  import opened Snapshot
  import opened Disk
  import opened Switch
  import opened Replica

  /** The database that Open means to start, before it starts it. */
  function Located(env: Env, d: Disk, spare: Bytes): Outcome<Bytes>
    requires EnvContract(env)
  {
    match OpenTarget(env, d, spare)
    case Some(b) => Ok(b)
    case None => if CurrentPath(env, d).Err? then Err else Panic
  }

  /** What a query means: fields that it does not set, or all if it is not JSON, are those of a
      GET whose key is the query itself. */
  function Parsed(c: Codec, query: Bytes): Action { c.fill(query, Action(Ascii("GET"), query, [])) }

  /** Unmarshalling the bytes changes nothing in a struct, whatever is in it. */
  ghost predicate LeavesAlone(c: Codec, b: Bytes) { forall before :: c.fill(b, before) == before }

  /** A query that is not JSON means a GET of itself, an encoded command means that command. */
  lemma QueryMeanings(c: Codec, query: Bytes)
    requires CodecContract(c)
    ensures !c.isJson(query) || LeavesAlone(c, query) ==>
              Parsed(c, query).key == query && Parsed(c, query).action != Ascii("SCAN")
    ensures forall a :: IsText(a) && query == c.encode(a) ==> Parsed(c, query) == a
  {
    assert |Ascii("GET")| != |Ascii("SCAN")|;
  }

  class Commander {
    const env: Env
    var disk: Disk              // the node's data directory
    var db: Option<Bytes>       // the open database, by directory name
    var lastApplied: nat
    var closed: bool
    ghost const start: Disk     // the data directory the process found
    ghost var steps: seq<Op>    // the disk operations performed since

    ghost predicate Valid()
      reads this
    {
      EnvContract(env) && disk == DoAll(start, steps)
    }

    constructor (env: Env, disk: Disk)
      requires EnvContract(env)
      ensures Valid() && this.env == env && this.disk == start == disk
      ensures db == None && lastApplied == 0 && !closed && steps == []
    {
      this.env := env;
      this.disk := disk;
      start := disk;
      db := None;
      lastApplied := 0;
      closed := false;
      steps := [];
    }

    ghost function State(): Node
      reads this
    {
      Node(disk, if db.Some? then Up(db.value, lastApplied) else Down)
    }

    method Perform(op: Op)
      requires Valid()
      modifies this`disk, this`steps
      ensures Valid() && steps == old(steps) + [op] && disk == Do(old(disk), op)
    {
      DoAllPush(start, steps, op);
      disk := Do(disk, op);
      steps := steps + [op];
    }

    // ----- the pointer file -----

    method SaveCurrentDBDirName(base: Bytes)
      requires Valid()
      modifies this`disk, this`steps
      ensures Valid() && steps == old(steps) + SaveOps(env, base)
      ensures PointerReady(env, disk, base)
    {
      DoAllConcat(start, steps, SaveOps(env, base));
      SaveMakesPointerReady(env, disk, base);
      var path := PathOf(env, base);
      var sum := Checksum(env, path);
      PushFive(steps, CreateUpdating, Append(sum), Append(path), FsyncUpdating, SyncDir);
      Perform(CreateUpdating);
      Perform(Append(sum));
      Perform(Append(path));
      Perform(FsyncUpdating);
      Perform(SyncDir);
    }

    method ReplaceCurrentDBFile()
      requires Valid()
      modifies this`disk, this`steps
      ensures Valid() && steps == old(steps) + ReplaceOps()
      ensures forall base :: PointerReady(env, old(disk), base) ==>
                CurrentBase(env, disk) == Some(base) && disk.current.earlier == {}
    {
      DoAllConcat(start, steps, ReplaceOps());
      forall base | PointerReady(env, disk, base)
        ensures CurrentBase(env, DoAll(disk, ReplaceOps())) == Some(base)
        ensures DoAll(disk, ReplaceOps()).current.earlier == {}
      {
        ReplacePublishes(env, disk, base);
      }
      Perform(Rename);
      Perform(SyncDir);
    }

    method GetCurrentDBDirName() returns (path: Outcome<Bytes>)
      requires Valid()
      ensures path == CurrentPath(env, disk)
    {
      if disk.current.now.None? || disk.current.now.value !in disk.files {
        return Err;
      }
      var data := disk.files[disk.current.now.value].data;
      if |data| <= 8 {
        return Panic;
      }
      var crc, content := data[..8], data[8..];
      if crc != env.md5(content)[..8] {
        return Panic;
      }
      return Ok(content);
    }

    /** One round of the directory loop. */
    method RemoveUnlessCurrent(name: Bytes, path: Bytes)
      requires Valid()
      modifies this`disk, this`steps
      ensures Valid() && steps == old(steps) + CleanupOne(name, BaseOf(env, path))
    {
      var toDelete := PathOf(env, name);
      PathsDiffer(env, path, name);
      if toDelete != path {
        Perform(Damage(name));
        Perform(RemoveDb(name));
      }
    }

    /** Remove the scratch pointer, then every directory whose path is not the one in `current`. */
    method CleanupNodeDataDir() returns (path: Outcome<Bytes>)
      requires Valid()
      modifies this`disk, this`steps
      ensures Valid() && path == CurrentPath(env, old(disk))
      ensures steps == old(steps) + [RemoveUpdating]
                + (if path.Ok? then CleanupOps(Sorted(LiveDirs(old(disk))), BaseOf(env, path.value)) else [])
    {
      ghost var d0 := disk;
      Perform(RemoveUpdating);
      assert LiveDirs(disk) == LiveDirs(d0);
      path := GetCurrentDBDirName();
      if !path.Ok? {
        return;
      }
      ghost var s1 := steps;
      ghost var keep := BaseOf(env, path.value);
      var names := Sorted(LiveDirs(disk));
      var i := 0;
      while i < |names|
        invariant 0 <= i <= |names|
        invariant Valid() && steps == s1 + CleanupOps(names[..i], keep)
      {
        RemoveUnlessCurrent(names[i], path.value);
        CleanupSnoc(names, i, keep);
        ConcatAssoc(s1, CleanupOps(names[..i], keep), CleanupOne(names[i], keep));
        i := i + 1;
      }
      assert names[..|names|] == names;
    }

    // ----- the state machine interface -----

    method QueryAppliedIndexOf(base: Bytes) returns (r: Option<nat>)
      ensures r == QueryAppliedIndex(StoreOf(disk, base))
    {
      var store := StoreOf(disk, base);
      if AppliedIndexKey() !in store || |store[AppliedIndexKey()]| == 0 {
        return Some(0);
      }
      r := ParseUint(store[AppliedIndexKey()]);
    }

    /** The branch of Open that finds a pointer: clean up, check the directory, open it. */
    method ReopenCurrent() returns (base: Outcome<Bytes>)
      requires Valid() && disk.current.now.Some?
      modifies this`disk, this`steps
      ensures Valid() && steps == old(steps) + OpenOps(env, old(disk), [])
      ensures base == Located(env, old(disk), [])
    {
      ghost var d0, s0 := disk, steps;
      var path := CleanupNodeDataDir();
      if !path.Ok? {
        return path;
      }
      var name := BaseOf(env, path.value);
      ghost var clean := CleanupOps(Sorted(LiveDirs(d0)), name);
      ConcatAssoc(s0, [RemoveUpdating], clean);
      DoAllConcat(start, s0, [RemoveUpdating] + clean);
      CleanupKeeps(d0, name);
      if name.None? || !IsLive(disk, name.value) {
        ConcatNone(s0, [RemoveUpdating] + clean);
        return Panic;
      }
      Perform(MakeDb(name.value));
      ConcatAssoc(s0, [RemoveUpdating] + clean, [MakeDb(name.value)]);
      return Ok(name.value);
    }

    /** The branch of Open that finds none: point at a new name, then create it. */
    method CreateFirst(spare: Bytes)
      requires Valid() && disk.current.now.None?
      modifies this`disk, this`steps
      ensures Valid() && steps == old(steps) + OpenOps(env, old(disk), spare)
    {
      ghost var s0 := steps;
      SaveCurrentDBDirName(spare);
      ReplaceCurrentDBFile();
      Perform(MakeDb(spare));
      ConcatAssoc(s0, SaveOps(env, spare), ReplaceOps());
      ConcatAssoc(s0, SaveOps(env, spare) + ReplaceOps(), [MakeDb(spare)]);
    }

    method LocateDB(spare: Bytes) returns (base: Outcome<Bytes>)
      requires Valid()
      modifies this`disk, this`steps
      ensures Valid() && steps == old(steps) + OpenOps(env, old(disk), spare)
      ensures disk == DoAll(old(disk), OpenOps(env, old(disk), spare))
      ensures base == Located(env, old(disk), spare)
    {
      DoAllConcat(start, steps, OpenOps(env, disk, spare));
      if disk.current.now.Some? {
        base := ReopenCurrent();
      } else {
        CreateFirst(spare);
        base := Ok(spare);
      }
    }

    /** createDB on a directory, and the index stored in it. */
    method StartDB(base: Bytes) returns (res: Outcome<nat>)
      requires Valid()
      modifies this`db, this`lastApplied
      ensures Valid() && res == StartOutcome(disk, base)
      ensures res.Ok? ==> db == Some(base) && lastApplied == res.value
      ensures !res.Ok? ==> lastApplied == old(lastApplied) && db == if res.Err? then old(db) else Some(base)
    {
      if !IsLive(disk, base) || disk.dirs[base].content.Damaged? {
        return Err;
      }
      db := Some(base);
      var applied := QueryAppliedIndexOf(base);
      if applied.None? {
        return Panic;
      }
      lastApplied := applied.value;
      return Ok(applied.value);
    }

    /** Open panics if the data directory cannot be made. Else it behaves as the machine's Open call:
        it returns the applied index of the database it starts, or fails with the error or the panic
        that the machine says. */
    method Open(spare: Bytes, dirMade: bool) returns (res: Outcome<nat>)
      requires Valid()
      modifies this`disk, this`steps, this`db, this`lastApplied
      ensures Valid()
      ensures !dirMade ==> res == Panic && State() == old(State()) && steps == old(steps)
      ensures dirMade ==>
                && steps == old(steps) + OpenOps(env, old(disk), spare)
                && disk == OpenNode(env, old(disk), spare).disk
                && res == OpenOutcome(env, old(disk), spare)
      ensures res.Ok? ==> State() == OpenNode(env, old(disk), spare) && res.value == lastApplied
      ensures dirMade && !res.Ok? ==>
                OpenNode(env, old(disk), spare).proc == Panicked && lastApplied == old(lastApplied)
    {
      if !dirMade {
        return Panic;
      }
      var base := LocateDB(spare);
      match base
      case Ok(b) => res := StartDB(b);
      case Err => res := Err;
      case Panic => res := Panic;
    }

    /** The loop of Update that decodes the commands into a write batch; None is the JSON panic. */
    method FillBatch(ents: seq<Entry>) returns (wb: Option<Batch>, results: seq<nat>)
      ensures wb == if Decodes(env.codec, ents) then Some(Puts(env.codec, ents)) else None
      ensures wb.Some? ==> results == seq(|ents|, i requires 0 <= i < |ents| => |ents[i].cmd|)
    {
      var puts: Batch := [];
      results := [];
      var idx := 0;
      while idx < |ents|
        invariant 0 <= idx <= |ents|
        invariant Decodes(env.codec, ents[..idx]) && puts == Puts(env.codec, ents[..idx])
        invariant |results| == idx && forall i :: 0 <= i < idx ==> results[i] == |ents[i].cmd|
      {
        var a := env.codec.decode(ents[idx].cmd);
        if a.None? {
          return None, results;
        }
        PutsSnoc(env.codec, ents, idx);
        puts := puts + [(a.value.key, a.value.val)];
        results := results + [|ents[idx].cmd|];
        idx := idx + 1;
      }
      assert ents[..|ents|] == ents;
      return Some(puts), results;
    }

    /** Update writes the batch and the index of its last entry in one step and returns the
        length of each command; it behaves as the machine's Update call. */
    method Update(ents: seq<Entry>) returns (res: Outcome<seq<nat>>)
      requires Valid() && ents != []
      modifies this`disk, this`steps, this`lastApplied
      ensures Valid()
      ensures closed || db.None? ==>
                res == Panic && disk == old(disk) && lastApplied == old(lastApplied) && steps == old(steps)
      ensures !closed && db.Some? ==>
                var s := UpdateNode(env, old(State()), ents);
                && steps == old(steps) + UpdateOps(env, old(State()), ents) && disk == s.disk
                && (res.Ok? <==> s.proc.Up?) && (res.Ok? ==> State() == s)
      ensures res.Ok? <==> !closed && db.Some? && Decodes(env.codec, ents) && old(lastApplied) < ents[|ents| - 1].index
      ensures !res.Ok? ==> res == Panic && lastApplied == old(lastApplied)
      ensures (exists i :: 0 <= i < |ents| && env.codec.decode(ents[i].cmd) == None) ==> res == Panic && disk == old(disk)
      ensures res.Ok? ==> lastApplied == ents[|ents| - 1].index
      ensures res.Ok? ==> res.value == seq(|ents|, i requires 0 <= i < |ents| => |ents[i].cmd|)
    {
      if closed || db.None? {
        return Panic;
      }
      UpdateSteps(env, State(), ents);
      var wb, results := FillBatch(ents);
      if wb.None? {
        return Panic;
      }
      var last := ents[|ents| - 1].index;
      var batch := wb.value + [(AppliedIndexKey(), Decimal(last))];
      Perform(WriteDb(db.value, ApplyBatch(StoreOf(disk, db.value), batch)));
      if lastApplied >= last {
        return Panic;
      }
      lastApplied := last;
      return Ok(results);
    }

    /** The stream reading loop of RecoverFromSnapshot. */
    method ReadSnapshot(r: Bytes) returns (res: ReadResult)
      ensures res == ReadStream(env.codec, r)
    {
      if |r| < 8 {
        return ShortRead;
      }
      var total := Uint64(r[..8]);
      var rest := r[8..];
      var wb: Batch := [];
      var i := 0;
      while i < total
        invariant 0 <= i <= total
        invariant ReadStream(env.codec, r) == ReadFrames(env.codec, rest, total - i, wb)
      {
        if |rest| < 8 {
          return ShortRead;
        }
        var toRead := Uint64(rest[..8]);
        if toRead > env.codec.maxAlloc {
          return HugeFrame;
        }
        if |rest| - 8 < toRead {
          return ShortRead;
        }
        var a := env.codec.decode(rest[8..8 + toRead]);
        if a.None? {
          return BadJson;
        }
        wb := wb + [(a.value.key, a.value.val)];
        rest := rest[8 + toRead..];
        i := i + 1;
      }
      return Complete(wb);
    }

    /** RecoverFromSnapshot into a new directory: the machine's recovery, disk step for disk step. */
    method RecoverFromSnapshot(r: Bytes, base: Bytes) returns (res: Outcome<nat>)
      requires Valid()
      modifies this`disk, this`steps, this`db, this`lastApplied
      ensures Valid()
      ensures closed ==> res == Panic && State() == old(State()) && steps == old(steps)
      ensures !closed ==>
                var ops := RecoverOps(env, old(disk), old(lastApplied), base, r);
                && steps == old(steps) + ops && disk == DoAll(old(disk), ops)
                && res == RecoverOutcome(env, old(disk), old(lastApplied), r)
                && (res.Ok? ==> db == Some(base) && lastApplied == res.value)
                && (!res.Ok? ==> db == old(db) && lastApplied == old(lastApplied))
      ensures !closed && old(db).Some? ==>
                var s := RecoverNode(env, old(State()), base, r);
                disk == s.disk && if res.Panic? then s.proc == Panicked else State() == s
    {
      if closed {
        return Panic;
      }
      DoAllConcat(start, steps, RecoverOps(env, disk, lastApplied, base, r));
      res := RecoverOpen(r, base);
    }

    /** RecoverFromSnapshot on a node that is not closed, by what it finds. */
    method RecoverOpen(r: Bytes, base: Bytes) returns (res: Outcome<nat>)
      requires Valid()
      modifies this`disk, this`steps, this`db, this`lastApplied
      ensures Valid() && steps == old(steps) + RecoverOps(env, old(disk), old(lastApplied), base, r)
      ensures res == RecoverOutcome(env, old(disk), old(lastApplied), r)
      ensures res.Ok? ==> db == Some(base) && lastApplied == res.value
      ensures !res.Ok? ==> db == old(db) && lastApplied == old(lastApplied)
    {
      ghost var d0, ops0 := disk, steps;
      RecoverOpsCases(env, d0, lastApplied, base, r);
      var oldBase := BeginRecovery(base);
      if !oldBase.Ok? {
        return if oldBase.Err? then Err else Panic;
      }
      var frames := ReadSnapshot(r);
      if !frames.Complete? {
        return if frames.ShortRead? then Err else Panic;
      }
      ConcatAssoc(ops0, [MakeDb(base)], InstallTail(env, lastApplied, oldBase.value, base, ApplyBatch(map[], frames.wb)));
      res := InstallBatch(frames.wb, oldBase.value, base);
    }

    /** Read the current pointer, then create the new database. */
    method BeginRecovery(base: Bytes) returns (oldBase: Outcome<Bytes>)
      requires Valid()
      modifies this`disk, this`steps
      ensures Valid()
      ensures if oldBase.Ok? then CurrentBase(env, old(disk)) == Some(oldBase.value)
              else CurrentBase(env, old(disk)) == None && (oldBase.Err? <==> CurrentPath(env, old(disk)).Err?)
      ensures steps == old(steps) + (if oldBase.Ok? then [MakeDb(base)] else [])
    {
      var path := GetCurrentDBDirName();
      if !path.Ok? {
        return path;
      }
      var name := BaseOf(env, path.value);
      if name.None? {
        return Panic;
      }
      Perform(MakeDb(base));
      return Ok(name.value);
    }

    /** The rest of RecoverFromSnapshot: write the batch, swap the pointer, check the index, and
        drop the old database. */
    method InstallBatch(wb: Batch, oldBase: Bytes, base: Bytes) returns (res: Outcome<nat>)
      requires Valid()
      modifies this`disk, this`steps, this`db, this`lastApplied
      ensures Valid()
      ensures var m' := ApplyBatch(map[], wb);
              && steps == old(steps) + InstallTail(env, old(lastApplied), oldBase, base, m')
              && (res == if Forward(old(lastApplied), m') then Ok(QueryAppliedIndex(m').value) else Panic)
              && (res.Ok? ==> db == Some(base) && lastApplied == res.value)
              && (!res.Ok? ==> db == old(db) && lastApplied == old(lastApplied))
    {
      ghost var ops0 := steps;
      var m' := ApplyBatch(map[], wb);
      SwitchTo(base, m');
      var newLastApplied := QueryAppliedIndex(m');
      if newLastApplied.None? || lastApplied > newLastApplied.value {
        ConcatNone(ops0, SwitchOps(env, base, m'));
        return Panic;
      }
      lastApplied := newLastApplied.value;
      db := Some(base);
      Perform(Damage(oldBase));
      Perform(RemoveDb(oldBase));
      ConcatTwo(ops0, SwitchOps(env, base, m'), Damage(oldBase), RemoveDb(oldBase));
      return Ok(lastApplied);
    }

    method SwitchTo(base: Bytes, m': Store)
      requires Valid()
      modifies this`disk, this`steps
      ensures Valid() && steps == old(steps) + SwitchOps(env, base, m')
    {
      ghost var s0 := steps;
      Perform(WriteDb(base, m'));
      SaveCurrentDBDirName(base);
      ReplaceCurrentDBFile();
      ConcatAssoc(s0, [WriteDb(base, m')], SaveOps(env, base));
      ConcatAssoc(s0, [WriteDb(base, m')] + SaveOps(env, base), ReplaceOps());
    }

    /** Lookup: the query is parsed over the defaults of a GET of the query itself, errors ignored;
        a SCAN answers with all entries under the prefix, anything else with the value. */
    method Lookup(query: Bytes) returns (items: Outcome<map<Bytes, Bytes>>, value: Outcome<Bytes>)
      requires Valid()
      ensures db.None? ==> items == Err && value == Err
      ensures db.Some? ==>
                var a := Parsed(env.codec, query);
                var m := StoreOf(disk, db.value);
                if a.action == Ascii("SCAN")
                then value == Err && items == Ok(map k | k in m && HasPrefix(k, a.key) :: m[k])
                else items == Err && value == if closed then Panic else Ok(if a.key in m then m[a.key] else [])
      ensures db.Some? && !closed && (!env.codec.isJson(query) || LeavesAlone(env.codec, query)) ==>
                var m := StoreOf(disk, db.value);
                items == Err && value == Ok(if query in m then m[query] else [])
      ensures forall a :: db.Some? && !closed && IsText(a) && query == env.codec.encode(a) ==>
                var m := StoreOf(disk, db.value);
                if a.action == Ascii("SCAN")
                then value == Err && items == Ok(map k | k in m && HasPrefix(k, a.key) :: m[k])
                else items == Err && value == Ok(if a.key in m then m[a.key] else [])
    {
      QueryMeanings(env.codec, query);
      var action := Action(Ascii("GET"), query, []);
      action := env.codec.fill(query, action);
      items, value := Err, Err;
      if db.None? {
        return;
      }
      var store := StoreOf(disk, db.value);
      if action.action == Ascii("SCAN") {
        var found := Scan(store, action.key);
        items := Ok(found);
      } else {
        value := if closed then Panic else Ok(if action.key in store then store[action.key] else []);
      }
    }

    /** saveToWriter: one pass to count, one to write. */
    method SaveToWriter(store: Store) returns (out: Bytes)
      requires Fits(env.codec, store)
      ensures out == Stream(env.codec, store)
    {
      var keys := Sorted(store.Keys);
      SortedKeysOf(store);
      var count := 0;
      while count < |keys|
        invariant 0 <= count <= |keys|
      {
        count := count + 1;
      }
      out := PutUint64(count);
      var i := 0;
      WrittenHeader(env.codec, store);
      while i < |keys|
        invariant i <= |keys| && WrittenUpTo(env.codec, store, keys, i, out)
      {
        WriteFrame(env.codec, store, keys, i, out);
        var data := EntryJson(env.codec, keys[i], store[keys[i]]);
        out := out + PutUint64(|data|);
        out := out + data;
        i := i + 1;
      }
      WrittenAll(env.codec, store, out);
    }

    method GetHash() returns (h: nat)
      requires Valid() && db.Some? && Fits(env.codec, StoreOf(disk, db.value))
      ensures h == HashOf(env, StoreOf(disk, db.value)) < TWO64
      ensures PutUint64(h) == env.md5(Stream(env.codec, StoreOf(disk, db.value)))[..8]
    {
      HashIsDigest(env, StoreOf(disk, db.value));
      var stream := SaveToWriter(StoreOf(disk, db.value));
      h := Uint64(env.md5(stream)[..8]);
    }

    method Close() returns (res: Outcome<()>)
      requires Valid()
      modifies this`db, this`closed
      ensures Valid() && db == None
      ensures old(db).Some? ==> closed && res == Ok(())
      ensures old(db).None? ==> closed == old(closed) && res == (if old(closed) then Panic else Ok(()))
    {
      if db.Some? {
        db := None;
        closed := true;
      } else if closed {
        return Panic;
      }
      return Ok(());
    }
  }

  lemma UpdateSteps(env: Env, s: Node, ents: seq<Entry>)
    requires s.proc.Up? && ents != []
    ensures var op := WriteDb(s.proc.base, ApplyBatch(StoreOf(s.disk, s.proc.base), UpdateBatch(env.codec, ents)));
            if Decodes(env.codec, ents)
            then UpdateOps(env, s, ents) == [op] && UpdateNode(env, s, ents).disk == Do(s.disk, op)
            else UpdateOps(env, s, ents) == [] && UpdateNode(env, s, ents).disk == s.disk
  {
    OneOp(s.disk, WriteDb(s.proc.base, ApplyBatch(StoreOf(s.disk, s.proc.base), UpdateBatch(env.codec, ents))));
  }

  lemma DecodesSlice(c: Codec, log: seq<Entry>, n: nat, k: nat)
    requires Decodes(c, log) && n <= k <= |log|
    ensures Decodes(c, log[n..k])
  {
  }

  /** A log of commands that decode, in the setting of a run. */
  ghost predicate GoodLog(env: Env, log: seq<Entry>) {
    Setting(env, log) && Decodes(env.codec, log)
  }

  /** The node is up and holds exactly the first n entries of the log. */
  ghost predicate Serves(node: Commander, log: seq<Entry>, n: nat)
    reads node
  {
    && node.Valid() && !node.closed && node.db.Some?
    && Holds(node.env, Written, log, node.disk, node.db.value, n) && node.lastApplied == Applied(log, n)
  }

  lemma ServesStore(node: Commander, log: seq<Entry>, n: nat)
    requires Serves(node, log, n)
    ensures node.lastApplied == Applied(log, n)
    ensures StoreOf(node.disk, node.db.value) == StoreAt(node.env.codec, log, n)
  {
    AnchoredBase(node.env, Written, node.disk, node.db.value, StoreAt(node.env.codec, log, n));
  }

  /** One batch of the next entries: it cannot panic. */
  method FeedBatch(node: Commander, log: seq<Entry>, n: nat, k: nat)
    requires GoodLog(node.env, log) && n < k <= |log| && Serves(node, log, n)
    modifies node`disk, node`steps, node`lastApplied
    ensures Serves(node, log, k)
  {
    UpdateServes(node.env, Written, log, node.State(), n, k);
    DecodesSlice(node.env.codec, log, n, k);
    var res := node.Update(log[n..k]);
    assert res.Ok?;
  }

  /** Positions after n at which batches end: increasing, and the last is the end of the log. */
  ghost predicate Splits(ends: seq<nat>, n: nat, len: nat) {
    && |ends| > 0 && n < ends[0] && ends[|ends| - 1] == len
    && forall i, j :: 0 <= i < j < |ends| ==> ends[i] < ends[j]
  }

  /** How many entries are in once i batches are. */
  function Done(ends: seq<nat>, n: nat, i: nat): nat
    requires i <= |ends|
  {
    if i == 0 then n else ends[i - 1]
  }

  lemma NextBatch(ends: seq<nat>, n: nat, len: nat, i: nat)
    requires Splits(ends, n, len) && i < |ends|
    ensures Done(ends, n, i) < Done(ends, n, i + 1) <= len
  {
  }

  method FeedNext(node: Commander, log: seq<Entry>, n: nat, ends: seq<nat>, i: nat)
    requires GoodLog(node.env, log) && n <= |log| && Splits(ends, n, |log|) && i < |ends|
    requires Serves(node, log, Done(ends, n, i))
    modifies node`disk, node`steps, node`lastApplied
    ensures Serves(node, log, Done(ends, n, i + 1))
  {
    NextBatch(ends, n, |log|, i);
    FeedBatch(node, log, Done(ends, n, i), ends[i]);
  }

  /** Feed a node that holds the first n entries the rest of the log, in batches that end at the
      given positions: no Update panics, and whatever the split, the store ends up as the fold of
      the whole log. */
  method FeedLog(node: Commander, log: seq<Entry>, n: nat, ends: seq<nat>)
    requires GoodLog(node.env, log) && n <= |log| && Serves(node, log, n) && Splits(ends, n, |log|)
    modifies node`disk, node`steps, node`lastApplied
    ensures Serves(node, log, |log|)
    ensures node.lastApplied == Applied(log, |log|)
    ensures StoreOf(node.disk, node.db.value) == StoreAt(node.env.codec, log, |log|)
  {
    var i := 0;
    while i < |ends|
      invariant 0 <= i <= |ends|
      invariant Serves(node, log, Done(ends, n, i)) == true // an equation, so that it is not taken apart
    {
      FeedNext(node, log, n, ends, i);
      i := i + 1;
    }
    ServesStore(node, log, |log|);
  }

  /** The middle of an installation: fill the new database, save the pointer, swap it in. */
  ghost function SwitchOps(env: Env, base: Bytes, m': Store): seq<Op>
    requires EnvContract(env)
  {
    [WriteDb(base, m')] + SaveOps(env, base) + ReplaceOps()
  }

  ghost function InstallTail(env: Env, last: nat, b: Bytes, base: Bytes, m': Store): seq<Op>
    requires EnvContract(env)
  {
    SwitchOps(env, base, m') + (if Forward(last, m') then [Damage(b), RemoveDb(b)] else [])
  }

  lemma InstallOpsSplit(env: Env, b: Bytes, base: Bytes, m': Store)
    requires EnvContract(env)
    ensures InstallOps(env, b, base, m')[..9] == [MakeDb(base)] + (SwitchOps(env, base, m') + [])
    ensures InstallOps(env, b, base, m') == [MakeDb(base)] + (SwitchOps(env, base, m') + [Damage(b), RemoveDb(b)])
  {
  }

  lemma RecoverOpsCases(env: Env, d: Disk, last: nat, base: Bytes, r: Bytes)
    requires EnvContract(env)
    ensures var b, f := CurrentBase(env, d), ReadStream(env.codec, r);
            RecoverOps(env, d, last, base, r)
            == if b.None? then [] else if !f.Complete? then [MakeDb(base)]
               else [MakeDb(base)] + InstallTail(env, last, b.value, base, ApplyBatch(map[], f.wb))
  {
    var b, f := CurrentBase(env, d), ReadStream(env.codec, r);
    if b.Some? && f.Complete? {
      InstallOpsSplit(env, b.value, base, ApplyBatch(map[], f.wb));
    }
  }

  lemma PutsSnoc(c: Codec, ents: seq<Entry>, i: nat)
    requires i < |ents|
    ensures Puts(c, ents[..i + 1]) == Puts(c, ents[..i]) + PutOf(c, ents[i])
  {
    assert ents[..i + 1][..i] == ents[..i];
  }

  /** Removing the scratch pointer and cleaning up keeps the named directory as it was. */
  lemma CleanupKeeps(d: Disk, keep: Option<Bytes>)
    ensures var d' := DoAll(d, [RemoveUpdating] + CleanupOps(Sorted(LiveDirs(d)), keep));
            keep.Some? ==> (IsLive(d', keep.value) <==> IsLive(d, keep.value))
  {
    var d1 := Do(d, RemoveUpdating);
    OneOp(d, RemoveUpdating);
    var clean := CleanupOps(Sorted(LiveDirs(d)), keep);
    DoAllConcat(d, [RemoveUpdating], clean);
    CleanupRemoves(d1, Sorted(LiveDirs(d)), keep);
    assert LiveDirs(d1) == LiveDirs(d);
    assert forall x, b :: IsLive(x, b) <==> b in LiveDirs(x);
  }

  lemma PathsDiffer(env: Env, path: Bytes, base: Bytes)
    ensures PathOf(env, base) == path <==> BaseOf(env, path) == Some(base)
  {
    BaseOfPath(env, base);
    if BaseOf(env, path) == Some(base) {
      assert path == env.dir + [47] + path[|env.dir| + 1..];
    }
  }

  ghost function CleanupOne(name: Bytes, keep: Option<Bytes>): seq<Op> {
    if Some(name) == keep then [] else [Damage(name), RemoveDb(name)]
  }

  lemma CleanupSnoc(names: seq<Bytes>, i: nat, keep: Option<Bytes>)
    requires i < |names|
    ensures CleanupOps(names[..i + 1], keep) == CleanupOps(names[..i], keep) + CleanupOne(names[i], keep)
  {
    assert names[..i + 1][..i] == names[..i];
  }
}
