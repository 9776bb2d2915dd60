/** Concurrent lookups, snapshot savers, Close and RecoverFromSnapshot on the shared database
    pointer: a step machine over atomic pointer swaps and each handle's read-write lock. */
module Handles {
  import opened ByteStrings

  /** A rocksdb wrapper: its closed flag, how often the C handle was closed, and its RWMutex. */
  datatype Handle = Handle(closed: bool, closes: nat, writer: Option<nat>, readers: set<nat>)

  /** Where a goroutine is. */
  datatype Thread =
    | Idle
    | Loaded(h: nat)     // lookup: pointer loaded
    | Locked(h: nat)     // lookup: read lock held
    | Reading(h: nat)    // lookup: found open, calling Get
    | Using(h: nat)      // a SCAN or PrepareSnapshot: pointer loaded, handle used without a lock
    | Prepared(h: nat)   // PrepareSnapshot has returned
    | Saving(h: nat)     // SaveSnapshot: read lock held, iterating, the closed flag not tested
    | Swapped(h: nat)    // Close or RecoverFromSnapshot: h taken out of the pointer, to be closed
    | Entered(h: nat)    // close: write lock held
    | Closed(h: nat)     // close: handle closed, write lock still held

  datatype State = State(pointer: Option<nat>, handles: map<nat, Handle>, threads: map<nat, Thread>)

  const FRESH := Handle(false, 0, None, {})

  function At(s: State, t: nat): Thread { if t in s.threads then s.threads[t] else Idle }

  predicate IsCloser(th: Thread, h: nat) { th == Swapped(h) || th == Entered(h) || th == Closed(h) }

  datatype Step =
    | Load | RLock | Check | Get                          // a GET
    | Use | Done | Prepare | SaveLock | Saved             // a SCAN; PrepareSnapshot and SaveSnapshot
    | Swap(next: Option<nat>) | Lock | CloseHandle | Unlock

  /** Goroutine t may take step a. */
  predicate Enabled(s: State, t: nat, a: Step) {
    var th := At(s, t);
    match a
    case Load => th.Idle? && s.pointer.Some?
    case RLock => th.Loaded? && th.h in s.handles && s.handles[th.h].writer == None
    case Check => th.Locked? && th.h in s.handles
    case Get => th.Reading? && th.h in s.handles
    case Use => th.Idle? && s.pointer.Some?
    case Done => th.Using?
    case Prepare => th.Using?
    case SaveLock => th.Prepared? && th.h in s.handles && s.handles[th.h].writer == None
    case Saved => th.Saving? && th.h in s.handles
    case Swap(next) => th.Idle? && (next.Some? ==> next.value !in s.handles)
    case Lock => th.Swapped? && th.h in s.handles && s.handles[th.h].writer == None && s.handles[th.h].readers == {}
    case CloseHandle => th.Entered? && th.h in s.handles
    case Unlock => th.Closed? && th.h in s.handles
  }

  /** Where the step takes the goroutine. */
  function ThreadAfter(s: State, t: nat, a: Step): Thread
    requires Enabled(s, t, a)
  {
    var th := At(s, t);
    match a
    case Load => Loaded(s.pointer.value)
    case RLock => Locked(th.h)
    case Check => if s.handles[th.h].closed then Idle else Reading(th.h)
    case Use => Using(s.pointer.value)
    case Prepare => Prepared(th.h)
    case SaveLock => Saving(th.h)
    case Swap(next) => if s.pointer.Some? then Swapped(s.pointer.value) else Idle
    case Lock => Entered(th.h)
    case CloseHandle => Closed(th.h)
    case _ => Idle
  }

  /** What the step makes of the goroutine's handle: locks taken and released, the handle closed. */
  function HandleAfter(k: Handle, t: nat, a: Step): Handle {
    match a
    case RLock => k.(readers := k.readers + {t})
    case SaveLock => k.(readers := k.readers + {t})
    case Check => if k.closed then k.(readers := k.readers - {t}) else k
    case Get => k.(readers := k.readers - {t})
    case Saved => k.(readers := k.readers - {t})
    case Lock => k.(writer := Some(t))
    case CloseHandle => k.(closed := true, closes := k.closes + 1)
    case Unlock => k.(writer := None)
    case _ => k
  }

  function HandlesAfter(s: State, t: nat, a: Step): map<nat, Handle>
    requires Enabled(s, t, a)
  {
    if a.Swap? then
      if a.next.Some? then s.handles[a.next.value := FRESH] else s.handles
    else if a.Load? || a.Use? || a.Done? || a.Prepare? then s.handles
    else s.handles[At(s, t).h := HandleAfter(s.handles[At(s, t).h], t, a)]
  }

  /** What goroutine t may do next. Swap(None) is Close; Swap(Some(h)) is RecoverFromSnapshot or
      Open putting in a database it has just created. */
  ghost predicate Next(s: State, t: nat, a: Step, s': State) {
    Enabled(s, t, a) && s' == After(s, t, a)
  }

  function After(s: State, t: nat, a: Step): State
    requires Enabled(s, t, a)
  {
    State(if a.Swap? then a.next else s.pointer, HandlesAfter(s, t, a), s.threads[t := ThreadAfter(s, t, a)])
  }

  /** What is wanted: no handle closed twice, and no Get on a closed handle. */
  ghost predicate Safe(s: State) {
    && (forall h :: h in s.handles ==> s.handles[h].closes <= 1)
    && (forall t :: At(s, t).Reading? ==> At(s, t).h in s.handles && s.handles[At(s, t).h].closes == 0)
  }

  /** Each handle has at most one closer, and locks agree with the goroutines' places. */
  ghost predicate ThreadOk(s: State, t: nat) {
    match At(s, t)
    case Idle => true
    case Loaded(h) => h in s.handles
    case Locked(h) => h in s.handles && t in s.handles[h].readers
    case Reading(h) => h in s.handles && t in s.handles[h].readers && !s.handles[h].closed
    case Using(h) => h in s.handles
    case Prepared(h) => h in s.handles
    case Saving(h) => h in s.handles && t in s.handles[h].readers
    case Swapped(h) => h in s.handles && !s.handles[h].closed && s.pointer != Some(h)
    case Entered(h) => h in s.handles && !s.handles[h].closed && s.pointer != Some(h) && s.handles[h].writer == Some(t)
    case Closed(h) => h in s.handles && s.handles[h].closed && s.pointer != Some(h) && s.handles[h].writer == Some(t)
  }

  ghost predicate HandleOk(k: Handle) {
    && k.closes == (if k.closed then 1 else 0)
    && (k.writer.Some? ==> k.readers == {})
  }

  predicate Reads(th: Thread, h: nat) { th == Locked(h) || th == Reading(h) || th == Saving(h) }

  predicate Writes(th: Thread, h: nat) { th == Entered(h) || th == Closed(h) }

  ghost predicate HasCloser(s: State, h: nat) { exists t :: IsCloser(At(s, t), h) }

  /** Who holds a lock of h is where it is held, and h is open only as long as it is shared or somebody
      is about to close it. */
  ghost predicate LocksOk(s: State, h: nat)
    requires h in s.handles
  {
    && (forall t :: t in s.handles[h].readers ==> Reads(At(s, t), h))
    && (forall t :: s.handles[h].writer == Some(t) ==> Writes(At(s, t), h))
    && (!s.handles[h].closed && s.pointer != Some(h) ==> HasCloser(s, h))
  }

  ghost predicate Inv(s: State) {
    && (forall t :: ThreadOk(s, t))
    && (forall h :: h in s.handles ==> LocksOk(s, h))
    && (forall h :: h in s.handles ==> HandleOk(s.handles[h]))
    && (s.pointer.Some? ==> s.pointer.value in s.handles && !s.handles[s.pointer.value].closed)
    && (forall t, u, h :: IsCloser(At(s, t), h) && IsCloser(At(s, u), h) ==> t == u)
  }

  lemma InvIsSafe(s: State)
    requires Inv(s)
    ensures Safe(s)
  {
    forall t | At(s, t).Reading? ensures At(s, t).h in s.handles && s.handles[At(s, t).h].closes == 0 {
      assert ThreadOk(s, t);
      assert HandleOk(s.handles[At(s, t).h]);
    }
    forall h | h in s.handles ensures s.handles[h].closes <= 1 {
      assert HandleOk(s.handles[h]);
    }
  }

  lemma NextKeepsActor(s: State, t: nat, a: Step, s': State)
    requires Inv(s) && Next(s, t, a, s')
    ensures ThreadOk(s', t)
  {
    assert ThreadOk(s, t);
  }

  lemma NextKeepsOther(s: State, t: nat, a: Step, s': State, u: nat)
    requires Inv(s) && Next(s, t, a, s') && u != t
    ensures ThreadOk(s', u)
  {
    assert ThreadOk(s, u);
    assert At(s', u) == At(s, u);
    if a.CloseHandle? || a.Lock? || a.Unlock? {
      CloserIsAlone(s, t, u);
    } else {
      assert ThreadOk(s, t);
    }
  }

  /** A goroutine that closes a handle has it to itself. */
  lemma CloserIsAlone(s: State, t: nat, u: nat)
    requires Inv(s) && u != t && (At(s, t).Swapped? || At(s, t).Entered? || At(s, t).Closed?)
    ensures var h := At(s, t).h;
            && h in s.handles && !IsCloser(At(s, u), h)
            && (!At(s, t).Swapped? ==> s.handles[h].readers == {} && !Reads(At(s, u), h))
  {
    var h := At(s, t).h;
    assert ThreadOk(s, t) && ThreadOk(s, u) && HandleOk(s.handles[h]);
    assert IsCloser(At(s, t), h);
  }

  lemma NextKeepsClosers(s: State, t: nat, a: Step, s': State, u: nat, v: nat, h: nat)
    requires Inv(s) && Next(s, t, a, s') && IsCloser(At(s', u), h) && IsCloser(At(s', v), h)
    ensures u == v
  {
    assert ThreadOk(s, u) && ThreadOk(s, v) && ThreadOk(s, t);
    assert u != t ==> At(s', u) == At(s, u);
    assert v != t ==> At(s', v) == At(s, v);
  }

  lemma NextKeepsHandles(s: State, t: nat, a: Step, s': State, h: nat)
    requires Inv(s) && Next(s, t, a, s') && h in s'.handles
    ensures HandleOk(s'.handles[h])
    ensures s'.pointer.Some? ==> s'.pointer.value in s'.handles && !s'.handles[s'.pointer.value].closed
  {
    assert ThreadOk(s, t);
    assert h in s.handles ==> HandleOk(s.handles[h]);
  }

  lemma NextKeepsReader(s: State, t: nat, a: Step, s': State, h: nat, u: nat)
    requires Inv(s) && Next(s, t, a, s') && h in s'.handles && u in s'.handles[h].readers
    ensures Reads(At(s', u), h)
  {
    assert h in s.handles && LocksOk(s, h);
    if u == t {
      assert ThreadOk(s, t);
    } else {
      assert At(s', u) == At(s, u) && u in s.handles[h].readers;
    }
  }

  lemma NextKeepsWriter(s: State, t: nat, a: Step, s': State, h: nat, u: nat)
    requires Inv(s) && Next(s, t, a, s') && h in s'.handles && s'.handles[h].writer == Some(u)
    ensures Writes(At(s', u), h)
  {
    assert ThreadOk(s, t);
    assert h in s.handles && LocksOk(s, h);
  }

  lemma NextKeepsLocks(s: State, t: nat, a: Step, s': State, h: nat)
    requires Inv(s) && Next(s, t, a, s') && h in s'.handles
    ensures LocksOk(s', h)
  {
    forall u | u in s'.handles[h].readers ensures Reads(At(s', u), h) { NextKeepsReader(s, t, a, s', h, u); }
    forall u | s'.handles[h].writer == Some(u) ensures Writes(At(s', u), h) { NextKeepsWriter(s, t, a, s', h, u); }
    if !s'.handles[h].closed && s'.pointer != Some(h) {
      NextKeepsCloser(s, t, a, s', h);
    }
  }

  lemma NextKeepsCloser(s: State, t: nat, a: Step, s': State, h: nat)
    requires Inv(s) && Next(s, t, a, s') && h in s'.handles && !s'.handles[h].closed && s'.pointer != Some(h)
    ensures HasCloser(s', h)
  {
    assert h in s.handles;
    assert ThreadOk(s, t) && LocksOk(s, h);
    assert At(s', t) == ThreadAfter(s, t, a);
    if s.pointer == Some(h) {
      assert IsCloser(At(s', t), h);
    } else {
      var u :| IsCloser(At(s, u), h);
      assert u != t ==> At(s', u) == At(s, u);
      assert IsCloser(At(s', u), h);
    }
  }

  lemma NextKeepsInv(s: State, t: nat, a: Step, s': State)
    requires Inv(s) && Next(s, t, a, s')
    ensures Inv(s')
  {
    forall u ensures ThreadOk(s', u) {
      if u == t { NextKeepsActor(s, t, a, s'); } else { NextKeepsOther(s, t, a, s', u); }
    }
    forall h | h in s'.handles ensures HandleOk(s'.handles[h]) { NextKeepsHandles(s, t, a, s', h); }
    forall h | h in s'.handles ensures LocksOk(s', h) { NextKeepsLocks(s, t, a, s', h); }
    forall u, v, h | IsCloser(At(s', u), h) && IsCloser(At(s', v), h) ensures u == v {
      NextKeepsClosers(s, t, a, s', u, v, h);
    }
    assert ThreadOk(s, t);
  }

  ghost predicate Init(s: State) {
    s.pointer == None && s.handles == map[] && s.threads == map[]
  }

  /** A run: goroutine who[i] does action acts[i]. */
  ghost predicate IsRun(run: seq<State>, who: seq<nat>, acts: seq<Step>) {
    && |run| == |who| + 1 == |acts| + 1
    && Init(run[0])
    && forall i :: 0 <= i < |acts| ==> Next(run[i], who[i], acts[i], run[i + 1])
  }

  lemma {:induction false} RunKeepsInv(run: seq<State>, who: seq<nat>, acts: seq<Step>, i: nat)
    requires IsRun(run, who, acts) && i < |run|
    ensures Inv(run[i])
  {
    if i > 0 {
      RunKeepsInv(run, who, acts, i - 1);
      assert Next(run[i - 1], who[i - 1], acts[i - 1], run[i - 1 + 1]);
      NextKeepsInv(run[i - 1], who[i - 1], acts[i - 1], run[i]);
    }
  }

  /** For every interleaving, each handle is closed at most once and no GET reads a closed one. */
  lemma EveryRunIsSafe(run: seq<State>, who: seq<nat>, acts: seq<Step>, i: nat)
    requires IsRun(run, who, acts) && i < |run|
    ensures Safe(run[i])
  {
    RunKeepsInv(run, who, acts, i);
    InvIsSafe(run[i]);
  }

  /** Nothing leaks: whenever all goroutines are idle, no lock is held, and of all databases ever opened
      the shared one is open and every other has been closed, once. */
  lemma NothingLeaks(run: seq<State>, who: seq<nat>, acts: seq<Step>, i: nat, h: nat)
    requires IsRun(run, who, acts) && i < |run| && h in run[i].handles && forall t :: At(run[i], t) == Idle
    ensures run[i].handles[h].readers == {} && run[i].handles[h].writer == None
    ensures run[i].handles[h].closes == if run[i].pointer == Some(h) then 0 else 1
  {
    RunKeepsInv(run, who, acts, i);
    assert LocksOk(run[i], h) && HandleOk(run[i].handles[h]);
  }

  // ----- readers that do not test the closed flag -----

  /** Step x of the run closes handle h. */
  ghost predicate ClosesAt(run: seq<State>, who: seq<nat>, acts: seq<Step>, h: nat, x: nat)
    requires x < |run| && x < |who| && x < |acts|
  {
    acts[x].CloseHandle? && At(run[x], who[x]) == Entered(h)
  }

  ghost predicate ClosedBetween(run: seq<State>, who: seq<nat>, acts: seq<Step>, h: nat, i: nat, j: nat)
    requires j < |run| == |who| + 1 == |acts| + 1
  {
    exists x: nat :: i <= x < j && ClosesAt(run, who, acts, h, x)
  }

  lemma NextCloses(s: State, t: nat, a: Step, s': State, h: nat)
    requires Next(s, t, a, s') && h in s.handles
    ensures h in s'.handles
    ensures s'.handles[h].closed <==> s.handles[h].closed || (a.CloseHandle? && At(s, t) == Entered(h))
  {
  }

  /** A handle that is open at one state of a run is closed at a later one exactly if a step between
      them closed it. */
  lemma {:induction false} ClosedExactly(run: seq<State>, who: seq<nat>, acts: seq<Step>, h: nat, i: nat, j: nat)
    requires IsRun(run, who, acts) && i <= j < |run| && h in run[i].handles && !run[i].handles[h].closed
    ensures h in run[j].handles && (run[j].handles[h].closed <==> ClosedBetween(run, who, acts, h, i, j))
    decreases j
  {
    if i < j {
      ClosedExactly(run, who, acts, h, i, j - 1);
      assert Next(run[j - 1], who[j - 1], acts[j - 1], run[j - 1 + 1]);
      NextCloses(run[j - 1], who[j - 1], acts[j - 1], run[j], h);
      assert ClosesAt(run, who, acts, h, j - 1) <==> acts[j - 1].CloseHandle? && At(run[j - 1], who[j - 1]) == Entered(h);
    }
  }

  /** What a goroutine loads is open at that moment. */
  lemma LoadedIsOpen(run: seq<State>, who: seq<nat>, acts: seq<Step>, i: nat)
    requires IsRun(run, who, acts) && i < |acts| && acts[i] == Use
    ensures At(run[i + 1], who[i]).Using?
    ensures var h := At(run[i + 1], who[i]).h; h in run[i].handles && !run[i].handles[h].closed
  {
    RunKeepsInv(run, who, acts, i);
    assert Next(run[i], who[i], acts[i], run[i + 1]);
  }

  /** A SCAN, or PrepareSnapshot, that loaded h at step i has a closed handle in its hands at state j
      exactly if some goroutine has closed h in between: nothing prevents that. */
  lemma ScanOnClosed(run: seq<State>, who: seq<nat>, acts: seq<Step>, i: nat, j: nat, h: nat)
    requires IsRun(run, who, acts) && i < j < |run| && acts[i] == Use
    requires h == At(run[i + 1], who[i]).h && At(run[j], who[i]) == Using(h)
    ensures h in run[j].handles && (run[j].handles[h].closed <==> ClosedBetween(run, who, acts, h, i, j))
  {
    LoadedIsOpen(run, who, acts, i);
    ClosedExactly(run, who, acts, h, i, j);
  }

  /** While a saver holds the read lock its handle is not closed. */
  lemma {:induction false} SaverHoldsOff(run: seq<State>, who: seq<nat>, acts: seq<Step>, k: nat, j: nat, t: nat, h: nat)
    requires IsRun(run, who, acts) && k <= j < |run|
    requires forall x :: k <= x <= j ==> At(run[x], t) == Saving(h)
    ensures h in run[k].handles && h in run[j].handles && (run[j].handles[h].closed <==> run[k].handles[h].closed)
    decreases j
  {
    if k < j {
      SaverHoldsOff(run, who, acts, k, j - 1, t, h);
      RunKeepsInv(run, who, acts, j - 1);
      assert Next(run[j - 1], who[j - 1], acts[j - 1], run[j - 1 + 1]);
      assert At(run[j - 1], t) == Saving(h);
      NotClosedWhileSaved(run[j - 1], who[j - 1], acts[j - 1], run[j], t, h);
    } else {
      RunKeepsInv(run, who, acts, j);
      assert ThreadOk(run[j], t);
    }
  }

  lemma NotClosedWhileSaved(s: State, t: nat, a: Step, s': State, u: nat, h: nat)
    requires Inv(s) && Next(s, t, a, s') && At(s, u) == Saving(h)
    ensures h in s.handles && h in s'.handles && (s'.handles[h].closed <==> s.handles[h].closed)
  {
    assert ThreadOk(s, u) && ThreadOk(s, t) && HandleOk(s.handles[h]);
    NextCloses(s, t, a, s', h);
  }

  /** SaveSnapshot on a handle loaded by PrepareSnapshot at step i: from the step k at which it takes
      the read lock to its end it reads a closed handle exactly if h was closed before step k. */
  lemma SaveOnClosed(run: seq<State>, who: seq<nat>, acts: seq<Step>, i: nat, k: nat, j: nat, t: nat, h: nat)
    requires IsRun(run, who, acts) && i < k < j < |run|
    requires acts[i] == Use && who[i] == t && At(run[i + 1], t) == Using(h)
    requires acts[k] == SaveLock && who[k] == t
    requires forall x :: k + 1 <= x <= j ==> At(run[x], t) == Saving(h)
    ensures h in run[j].handles && (run[j].handles[h].closed <==> ClosedBetween(run, who, acts, h, i, k))
  {
    LoadedIsOpen(run, who, acts, i);
    ClosedExactly(run, who, acts, h, i, k);
    assert Next(run[k], who[k], acts[k], run[k + 1]);
    NextCloses(run[k], who[k], acts[k], run[k + 1], h);
    SaverHoldsOff(run, who, acts, k + 1, j, t, h);
  }

  lemma Extend(run: seq<State>, who: seq<nat>, acts: seq<Step>, t: nat, a: Step)
      returns (run': seq<State>, who': seq<nat>, acts': seq<Step>)
    requires IsRun(run, who, acts) && Enabled(run[|run| - 1], t, a)
    ensures IsRun(run', who', acts') && run'[|run'| - 1] == After(run[|run| - 1], t, a)
  {
    run', who', acts' := run + [After(run[|run| - 1], t, a)], who + [t], acts + [a];
    forall i | 0 <= i < |acts'| ensures Next(run'[i], who'[i], acts'[i], run'[i + 1]) {
      if i < |acts| {
        assert Next(run[i], who[i], acts[i], run[i + 1]);
      }
    }
  }

  /** Goroutine 0 opens a database, goroutine 1 loads it for a SCAN, goroutine 2 prepares a snapshot. */
  lemma ReadersReady() returns (run: seq<State>, who: seq<nat>, acts: seq<Step>)
    ensures IsRun(run, who, acts)
    ensures var s := run[|run| - 1];
            && s.pointer == Some(0) && 0 in s.handles && s.handles[0] == FRESH
            && At(s, 0) == Idle && At(s, 1) == Using(0) && At(s, 2) == Prepared(0)
  {
    run, who, acts := [State(None, map[], map[])], [], [];
    run, who, acts := Extend(run, who, acts, 0, Swap(Some(0)));
    run, who, acts := Extend(run, who, acts, 1, Use);
    run, who, acts := Extend(run, who, acts, 2, Use);
    run, who, acts := Extend(run, who, acts, 2, Prepare);
  }

  /** Then goroutine 0 closes the handle. */
  lemma ClosedUnderReaders() returns (run: seq<State>, who: seq<nat>, acts: seq<Step>)
    ensures IsRun(run, who, acts)
    ensures var s := run[|run| - 1];
            && 0 in s.handles && s.handles[0].closed && s.handles[0].writer == Some(0)
            && At(s, 0) == Closed(0) && At(s, 1) == Using(0) && At(s, 2) == Prepared(0)
  {
    run, who, acts := ReadersReady();
    run, who, acts := Extend(run, who, acts, 0, Swap(None));
    run, who, acts := Extend(run, who, acts, 0, Lock);
    run, who, acts := Extend(run, who, acts, 0, CloseHandle);
  }

  /** Both do happen: the SCAN has a closed handle in its hands, and so has the saver that now takes
      the read lock. */
  lemma ClosedHandlesAreRead() returns (run: seq<State>, who: seq<nat>, acts: seq<Step>)
    ensures IsRun(run, who, acts)
    ensures var s := run[|run| - 1];
            At(s, 1) == Using(0) && At(s, 2) == Saving(0) && 0 in s.handles && s.handles[0].closed
  {
    run, who, acts := ClosedUnderReaders();
    run, who, acts := Extend(run, who, acts, 0, Unlock);
    run, who, acts := Extend(run, who, acts, 2, SaveLock);
  }
}
