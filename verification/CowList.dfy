/** The copy-on-write registry of callbacks: appenders serialised by a mutex, readers that
    load the published slice without a lock. */
module CowList {
  import opened ByteStrings

  /** The list object; `appended` holds the items in the order of their Append calls. */
  class COWList<T(0)> {
    var slice: array<T>          // what the atomic value holds
    ghost var appended: seq<T>

    ghost predicate Valid()
      reads this, slice
    {
      slice[..] == appended
    }

    constructor ()
      ensures Valid() && appended == [] && fresh(slice)
    {
      slice := new T[0];
      appended := [];
    }

    /** Copy into a new slice, fill its last slot, publish it. The slice that readers may have
        loaded stays as it was. */
    method Append(item: T) returns (index: nat)
      requires Valid()
      modifies this
      ensures Valid() && appended == old(appended) + [item] && index == |old(appended)|
      ensures fresh(slice) && old(slice)[..] == old(appended)
    {
      var list := slice;
      var newLen := list.Length + 1;
      var newList := new T[newLen];
      var i := 0;
      while i < list.Length
        invariant 0 <= i <= list.Length
        invariant newList[..i] == list[..i]
        invariant list == slice == old(slice) && list[..] == appended == old(appended)
      {
        newList[i] := list[i];
        i := i + 1;
      }
      newList[newLen - 1] := item;
      slice := newList;
      appended := appended + [item];
      index := newLen - 1;
    }

    /** The item whose Append returned this index; None is the panic on an index out of range. */
    method Get(index: int) returns (item: Option<T>)
      requires Valid()
      ensures item == if 0 <= index < |appended| then Some(appended[index]) else None
    {
      var list := slice;
      assert |list[..]| == list.Length;
      if index < 0 || list.Length <= index {
        return None;
      }
      assert list[..][index] == list[index];
      return Some(list[index]);
    }
  }

  // ----- appenders and readers side by side -----

  /** Where a goroutine is. Slices are named by numbers. */
  datatype Thread<T> =
    | Idle
    | Holding(item: T)                                   // Append: mutex taken
    | Loaded(item: T, src: nat)                          // Append: published slice loaded
    | Copying(item: T, src: nat, dst: nat, next: nat)    // Append: slots below next copied
    | Filled(item: T, dst: nat)                          // Append: last slot written
    | Done                                               // Append: new slice stored, mutex still held
    | Reading(id: nat)                                   // Get: slice loaded, to be indexed

  /** heap holds every slice ever allocated, with None in slots not yet written; seen are the
      slices that were published; returned are the indices handed out, with their items. */
  datatype State<T> = State(
    heap: map<nat, seq<Option<T>>>, published: nat, holder: Option<nat>, threads: map<nat, Thread<T>>,
    seen: set<nat>, returned: seq<(nat, T)>)

  function At<T>(s: State<T>, t: nat): Thread<T> { if t in s.threads then s.threads[t] else Idle }

  datatype Step<T> =
    | Lock(item: T) | Load | Allocate(id: nat) | Copy | Fill | Publish | Unlock
    | GetLoad | GetIndex(index: nat, result: Option<T>)

  function Goto<T>(s: State<T>, t: nat, th: Thread<T>): State<T> { s.(threads := s.threads[t := th]) }

  ghost predicate Next<T(!new)>(s: State<T>, t: nat, a: Step<T>, s': State<T>) {
    match a
    case Lock(item) =>
      At(s, t) == Idle && s.holder == None && s' == Goto(s, t, Holding(item)).(holder := Some(t))
    case Load =>
      At(s, t).Holding? && s' == Goto(s, t, Loaded(At(s, t).item, s.published))
    case Allocate(id) =>
      At(s, t).Loaded? && At(s, t).src in s.heap && id !in s.heap
      && var Loaded(item, src) := At(s, t);
      s' == Goto(s, t, Copying(item, src, id, 0)).(heap := s.heap[id := seq(|s.heap[src]| + 1, _ => None)])
    case Copy =>
      At(s, t).Copying?
      && var Copying(item, src, dst, next) := At(s, t);
      && src in s.heap && dst in s.heap && next < |s.heap[src]| && next < |s.heap[dst]|
      && s' == Goto(s, t, Copying(item, src, dst, next + 1))
               .(heap := s.heap[dst := s.heap[dst][next := s.heap[src][next]]])
    case Fill =>
      At(s, t).Copying?
      && var Copying(item, src, dst, next) := At(s, t);
      && src in s.heap && dst in s.heap && next == |s.heap[src]| && |s.heap[dst]| > 0
      && s' == Goto(s, t, Filled(item, dst))
               .(heap := s.heap[dst := s.heap[dst][|s.heap[dst]| - 1 := Some(item)]])
    case Publish =>
      At(s, t).Filled? && At(s, t).dst in s.heap && |s.heap[At(s, t).dst]| > 0
      && var Filled(item, dst) := At(s, t);
      s' == Goto(s, t, Done).(published := dst, seen := s.seen + {dst},
                              returned := s.returned + [(|s.heap[dst]| - 1, item)])
    case Unlock =>
      At(s, t) == Done && s' == Goto(s, t, Idle).(holder := None)
    case GetLoad =>
      At(s, t) == Idle && s' == Goto(s, t, Reading(s.published))
    case GetIndex(index, result) =>
      At(s, t).Reading? && At(s, t).id in s.heap && index < |s.heap[At(s, t).id]|
      && result == s.heap[At(s, t).id][index] && s' == Goto(s, t, Idle)
  }

  /** The part of a slice that the appender in Copying has filled so far. */
  ghost predicate CopiedUpTo<T(!new)>(heap: map<nat, seq<Option<T>>>, src: nat, dst: nat, next: nat) {
    && src in heap && dst in heap && |heap[dst]| == |heap[src]| + 1 && next <= |heap[src]|
    && heap[dst][..next] == heap[src][..next]
  }

  ghost predicate ThreadOk<T(!new)>(s: State<T>, t: nat) {
    match At(s, t)
    case Idle => true
    case Holding(_) => s.holder == Some(t)
    case Loaded(_, src) => s.holder == Some(t) && src == s.published
    case Copying(_, src, dst, next) =>
      s.holder == Some(t) && src == s.published && dst !in s.seen && CopiedUpTo(s.heap, src, dst, next)
    case Filled(item, dst) =>
      && s.holder == Some(t) && dst !in s.seen && dst in s.heap && s.published in s.heap
      && s.heap[dst] == s.heap[s.published] + [Some(item)]
    case Done => s.holder == Some(t)
    case Reading(id) => id in s.seen
  }

  /** The goroutine is inside Append, past taking the mutex. */
  predicate Appends<T>(th: Thread<T>) { !th.Idle? && !th.Reading? }

  ghost predicate Inv<T(!new)>(s: State<T>) {
    && s.published in s.seen && s.published in s.heap
    && (forall id :: id in s.seen ==> id in s.heap && s.heap[id] <= s.heap[s.published])
    && (forall t: nat :: ThreadOk(s, t))
    && (s.holder.Some? ==> Appends(At(s, s.holder.value)))
    && |s.returned| == |s.heap[s.published]|
    && (forall i :: 0 <= i < |s.returned| ==>
          s.returned[i].0 == i && s.heap[s.published][i] == Some(s.returned[i].1))
  }

  /** Slices that were published are never written again, and each is a prefix of the current one. */
  lemma NextKeepsSlices<T(!new)>(s: State<T>, t: nat, a: Step<T>, s': State<T>)
    requires Inv(s) && Next(s, t, a, s')
    ensures s.seen <= s'.seen && s'.published in s'.seen && s'.published in s'.heap
    ensures forall id :: id in s.seen ==> id in s'.heap && s'.heap[id] == s.heap[id]
    ensures forall id :: id in s'.seen ==> id in s'.heap && s'.heap[id] <= s'.heap[s'.published]
    ensures s.returned <= s'.returned
  {
    assert ThreadOk(s, t);
  }

  lemma NextKeepsReturned<T(!new)>(s: State<T>, t: nat, a: Step<T>, s': State<T>)
    requires Inv(s) && Next(s, t, a, s')
    ensures s'.published in s'.heap && |s'.returned| == |s'.heap[s'.published]|
    ensures forall i :: 0 <= i < |s'.returned| ==>
              s'.returned[i].0 == i && s'.heap[s'.published][i] == Some(s'.returned[i].1)
  {
    assert ThreadOk(s, t);
  }

  lemma CopyOneSlot<T(!new)>(heap: map<nat, seq<Option<T>>>, src: nat, dst: nat, next: nat)
    requires CopiedUpTo(heap, src, dst, next) && next < |heap[src]| && src != dst
    ensures CopiedUpTo(heap[dst := heap[dst][next := heap[src][next]]], src, dst, next + 1)
  {
    var d := heap[dst][next := heap[src][next]];
    assert d[..next + 1] == heap[dst][..next] + [heap[src][next]];
    assert heap[src][..next + 1] == heap[src][..next] + [heap[src][next]];
  }

  lemma FillLastSlot<T(!new)>(heap: map<nat, seq<Option<T>>>, src: nat, dst: nat, x: Option<T>)
    requires src in heap && CopiedUpTo(heap, src, dst, |heap[src]|)
    ensures heap[dst][|heap[dst]| - 1 := x] == heap[src] + [x]
  {
    assert heap[src][..|heap[src]|] == heap[src];
    assert heap[dst][|heap[dst]| - 1 := x] == heap[dst][..|heap[src]|] + [x];
  }

  lemma NextKeepsActor<T(!new)>(s: State<T>, t: nat, a: Step<T>, s': State<T>)
    requires Inv(s) && Next(s, t, a, s')
    ensures ThreadOk(s', t)
  {
    assert ThreadOk(s, t);
    match a
    case Copy =>
      CopyOneSlot(s.heap, At(s, t).src, At(s, t).dst, At(s, t).next);
    case Fill =>
      FillLastSlot(s.heap, At(s, t).src, At(s, t).dst, Some(At(s, t).item));
    case _ =>
  }

  /** The mutex keeps every other appender out, and readers only look at published slices. */
  lemma NextKeepsOthers<T(!new)>(s: State<T>, t: nat, a: Step<T>, s': State<T>, u: nat)
    requires Inv(s) && Next(s, t, a, s') && u != t
    ensures ThreadOk(s', u)
  {
    assert ThreadOk(s, t) && ThreadOk(s, u);
    assert At(s', u) == At(s, u);
  }

  lemma NextKeepsInv<T(!new)>(s: State<T>, t: nat, a: Step<T>, s': State<T>)
    requires Inv(s) && Next(s, t, a, s')
    ensures Inv(s')
  {
    NextKeepsSlices(s, t, a, s');
    NextKeepsReturned(s, t, a, s');
    forall u: nat ensures ThreadOk(s', u) {
      if u == t { NextKeepsActor(s, t, a, s'); } else { NextKeepsOthers(s, t, a, s', u); }
    }
  }

  /** NewCOWList publishes an empty slice. */
  ghost predicate Init<T(!new)>(s: State<T>) {
    s == State(map[0 := []], 0, None, map[], {0}, [])
  }

  ghost predicate IsRun<T(!new)>(run: seq<State<T>>, who: seq<nat>, acts: seq<Step<T>>) {
    && |run| == |who| + 1 == |acts| + 1
    && Init(run[0])
    && forall i :: 0 <= i < |acts| ==> Next(run[i], who[i], acts[i], run[i + 1])
  }

  lemma {:induction false} EveryStateOk<T(!new)>(run: seq<State<T>>, who: seq<nat>, acts: seq<Step<T>>, i: nat)
    requires IsRun(run, who, acts) && i < |run|
    ensures Inv(run[i])
  {
    if i > 0 {
      EveryStateOk(run, who, acts, i - 1);
      assert Next(run[i - 1], who[i - 1], acts[i - 1], run[i - 1 + 1]);
      NextKeepsInv(run[i - 1], who[i - 1], acts[i - 1], run[i]);
    }
  }

  /** A slice once published is never written again, and every later published slice extends it:
      what a reader has loaded stays as it is, a prefix of all later lists. */
  lemma {:induction false} PublishedSlicesAreFixed<T(!new)>(run: seq<State<T>>, who: seq<nat>, acts: seq<Step<T>>,
                                                      i: nat, j: nat, id: nat)
    requires IsRun(run, who, acts) && i <= j < |run| && id in run[i].seen
    ensures id in run[i].heap && id in run[j].seen && id in run[j].heap && run[j].heap[id] == run[i].heap[id]
    ensures run[j].published in run[j].heap && run[i].heap[id] <= run[j].heap[run[j].published]
    ensures run[i].returned <= run[j].returned
    decreases j
  {
    EveryStateOk(run, who, acts, j);
    if i < j {
      PublishedSlicesAreFixed(run, who, acts, i, j - 1, id);
      EveryStateOk(run, who, acts, j - 1);
      assert Next(run[j - 1], who[j - 1], acts[j - 1], run[j - 1 + 1]);
      NextKeepsSlices(run[j - 1], who[j - 1], acts[j - 1], run[j]);
    }
  }

  /** A reader only ever holds a published slice. */
  lemma ReadersHoldPublished<T(!new)>(run: seq<State<T>>, who: seq<nat>, acts: seq<Step<T>>, i: nat, t: nat)
    requires IsRun(run, who, acts) && i < |run| && At(run[i], t).Reading?
    ensures At(run[i], t).id in run[i].seen
  {
    EveryStateOk(run, who, acts, i);
    assert ThreadOk(run[i], t);
  }

  /** When no goroutine is inside Append, the mutex is free, and the published slice holds exactly the items
      of all Append calls so far, each at the index that its call returned. */
  lemma ListWhenQuiet<T(!new)>(run: seq<State<T>>, who: seq<nat>, acts: seq<Step<T>>, i: nat)
    requires IsRun(run, who, acts) && i < |run| && forall t: nat :: !Appends(At(run[i], t))
    ensures run[i].holder == None && run[i].published in run[i].heap
    ensures |run[i].heap[run[i].published]| == |run[i].returned|
    ensures forall p :: 0 <= p < |run[i].returned| ==>
              run[i].returned[p].0 == p && run[i].heap[run[i].published][p] == Some(run[i].returned[p].1)
  {
    EveryStateOk(run, who, acts, i);
  }

  /** Indices handed out are distinct. */
  lemma IndexesAreDistinct<T(!new)>(run: seq<State<T>>, who: seq<nat>, acts: seq<Step<T>>, i: nat, p: nat, q: nat)
    requires IsRun(run, who, acts) && i < |run| && p < q < |run[i].returned|
    ensures run[i].returned[p].0 != run[i].returned[q].0
  {
    EveryStateOk(run, who, acts, i);
  }

  /** A Get that loads after an Append has returned (index, item) finds the index in range. */
  lemma IndexStaysInRange<T(!new)>(run: seq<State<T>>, who: seq<nat>, acts: seq<Step<T>>, i: nat, j: nat, p: nat)
    requires IsRun(run, who, acts) && i <= j < |acts| && p < |run[i].returned| && acts[j] == GetLoad
    ensures At(run[j + 1], who[j]).Reading?
    ensures At(run[j + 1], who[j]).id in run[j + 1].heap
    ensures run[i].returned[p].0 < |run[j + 1].heap[At(run[j + 1], who[j]).id]|
  {
    EveryStateOk(run, who, acts, i);
    EveryStateOk(run, who, acts, j);
    PublishedSlicesAreFixed(run, who, acts, i, j, run[i].published);
    assert Next(run[j], who[j], acts[j], run[j + 1]);
  }

  /** And whenever any Get indexes a slice at an index that some Append returned, at any time in
      the run, it returns that Append's item. */
  lemma GetReturnsTheItem<T(!new)>(run: seq<State<T>>, who: seq<nat>, acts: seq<Step<T>>, i: nat, j: nat, p: nat)
    requires IsRun(run, who, acts) && i < |run| && j < |acts| && p < |run[i].returned|
    requires acts[j].GetIndex? && acts[j].index == run[i].returned[p].0
    ensures acts[j].result == Some(run[i].returned[p].1)
  {
    EveryStateOk(run, who, acts, i);
    EveryStateOk(run, who, acts, j);
    assert Next(run[j], who[j], acts[j], run[j + 1]);
    var id := At(run[j], who[j]).id;
    assert ThreadOk(run[j], who[j]);
    if i <= j {
      PublishedSlicesAreFixed(run, who, acts, i, j, run[i].published);
    } else {
      PublishedSlicesAreFixed(run, who, acts, j, i, run[j].published);
    }
  }
}
