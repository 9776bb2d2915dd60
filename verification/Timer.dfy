/** The leader worker's minute timer: when it sleeps, when it re-arms its ticker, and which
    minutes its ticks fall in. Times are nanoseconds on a clock that never goes back. */
module Timer {

  const SECOND := 1_000_000_000
  const MINUTE := 60 * SECOND

  /** time.Truncate(time.Minute) */
  function Truncate(t: int): int { t - t % MINUTE }

  predicate WholeMinute(t: int) { t % MINUTE == 0 }

  /** nextTime, the creation time of the current ticker, when a tick of it was last received
      (its creation if none was), and the last time that was read. */
  datatype Timer = Timer(nextTime: int, started: int, received: int, clock: int)

  /** Receiving empties the ticker's one-place channel, and the next tick to fire fills it:
      ticks that fire while one waits there are dropped. */
  function NextTick(t: Timer): int { (t.received - t.started) / MINUTE + 1 }

  function FireTime(t: Timer): int { t.started + NextTick(t) * MINUTE }

  /** One pass of the loop: whether this node is the leader, when the tick was received, when the
      round was over, when the time was read again, and when a sleep ended. */
  datatype Pass = Pass(leader: bool, handled: int, finished: int, again: int, woke: int)

  function Until(t: Timer, p: Pass): int { t.nextTime + MINUTE - p.finished }

  predicate Sleeps(t: Timer, p: Pass) { p.leader && Until(t, p) > 0 }

  /** What the clock, the ticker and Sleep guarantee. */
  predicate Possible(t: Timer, p: Pass) {
    && t.clock <= p.handled <= p.finished <= p.again
    && FireTime(t) <= p.handled
    && (Sleeps(t, p) ==> p.finished + Until(t, p) <= p.woke)
  }

  function AfterPass(t: Timer, p: Pass): Timer {
    if !p.leader then t.(received := p.handled, clock := p.handled)
    else if Sleeps(t, p) then Timer(t.nextTime + MINUTE, p.woke, p.woke, p.woke)
    else Timer(Truncate(p.again), t.started, p.handled, p.again)
  }

  /** The worker's start: sleep to one second into the current minute, aim at the next one. */
  function AtStart(now: int, ticking: int): Timer {
    Timer(Truncate(now) + MINUTE, ticking, ticking, ticking)
  }

  /** The worker object. */
  class LeaderTimer {
    var nextTime: int
    var ticker: int          // when the current ticker was created
    ghost var received: int
    ghost var clock: int

    ghost function State(): Timer
      reads this
    {
      Timer(nextTime, ticker, received, clock)
    }

    constructor (now: int, ticking: int)
      requires now <= ticking && Truncate(now) + SECOND <= ticking
      ensures State() == AtStart(now, ticking)
    {
      nextTime := now - now % MINUTE;
      new;
      nextTime := nextTime + MINUTE;
      ticker := ticking;
      received := ticking;
      clock := ticking;
    }

    method HandleTick(p: Pass) returns (slept: int)
      requires Possible(State(), p)
      modifies this
      ensures State() == AfterPass(old(State()), p)
      ensures slept == if Sleeps(old(State()), p) then Until(old(State()), p) else 0
    {
      slept := 0;
      received := p.handled;
      clock := p.handled;
      if p.leader {
        nextTime := nextTime + MINUTE;
        var until := nextTime - p.finished;
        if until > 0 {
          slept := until;
          ticker := p.woke;
          received := p.woke;
          clock := p.woke;
        } else {
          nextTime := p.again - p.again % MINUTE;
          clock := p.again;
        }
      }
    }
  }

  // ----- every run -----

  ghost predicate IsRun(states: seq<Timer>, passes: seq<Pass>) {
    && |states| == |passes| + 1
    && forall i :: 0 <= i < |passes| ==>
         Possible(states[i], passes[i]) && states[i + 1] == AfterPass(states[i], passes[i])
  }

  /** nextTime is a whole minute that is over by the time the next tick arrives. */
  ghost predicate OnSchedule(t: Timer) {
    && WholeMinute(t.nextTime)
    && t.started <= t.received <= t.clock
    && (t.nextTime <= t.clock || t.nextTime <= t.started + MINUTE)
  }

  lemma FirstTickIsLater(t: Timer)
    requires t.started <= t.received
    ensures t.received < FireTime(t) <= t.received + MINUTE && t.started + MINUTE <= FireTime(t)
  {
  }

  lemma StartIsOnSchedule(now: int, ticking: int)
    requires now <= ticking
    ensures OnSchedule(AtStart(now, ticking))
  {
    TruncateFacts(now);
  }

  lemma TruncateFacts(t: int)
    ensures WholeMinute(Truncate(t)) && Truncate(t) <= t < Truncate(t) + MINUTE
    ensures WholeMinute(Truncate(t) + MINUTE)
  {
  }

  lemma PassKeepsSchedule(t: Timer, p: Pass)
    requires OnSchedule(t) && Possible(t, p)
    ensures t.nextTime <= p.handled && OnSchedule(AfterPass(t, p))
    ensures Sleeps(t, p) ==> Until(t, p) <= MINUTE
  {
    FirstTickIsLater(t);
    TruncateFacts(p.again);
    TruncateFacts(t.nextTime);
  }

  /** In every run, at every tick nextTime is a whole minute no later than the tick being
      handled, and so no sleep is longer than a minute. */
  lemma {:induction false} NoLongSleep(now: int, ticking: int, states: seq<Timer>, passes: seq<Pass>, i: nat)
    requires now <= ticking && IsRun(states, passes) && states[0] == AtStart(now, ticking) && i < |states|
    ensures OnSchedule(states[i])
    ensures i < |passes| ==> WholeMinute(states[i].nextTime) && states[i].nextTime <= passes[i].handled
    ensures i < |passes| && Sleeps(states[i], passes[i]) ==> 0 < Until(states[i], passes[i]) <= MINUTE
  {
    if i == 0 {
      StartIsOnSchedule(now, ticking);
    } else {
      NoLongSleep(now, ticking, states, passes, i - 1);
      PassKeepsSchedule(states[i - 1], passes[i - 1]);
      assert states[i - 1 + 1] == AfterPass(states[i - 1], passes[i - 1]);
    }
    if i < |passes| {
      PassKeepsSchedule(states[i], passes[i]);
    }
  }

  // ----- after a sleep has re-armed the ticker -----

  /** The state a sleep until minute n leaves behind. */
  ghost predicate Rearmed(t: Timer, n: int) {
    WholeMinute(n) && t.nextTime == n <= t.started == t.received == t.clock
  }

  lemma SleepRearms(t: Timer, p: Pass)
    requires OnSchedule(t) && Possible(t, p) && Sleeps(t, p)
    ensures Rearmed(AfterPass(t, p), t.nextTime + MINUTE)
  {
    TruncateFacts(t.nextTime);
  }

  /** What a pass does: nothing on a follower; a leader done before the minute after nextTime sleeps to it
      and starts a new ticker there; a later one keeps its ticker and aims from the minute it is in. */
  lemma PassAims(t: Timer, p: Pass)
    requires OnSchedule(t) && Possible(t, p)
    ensures var t' := AfterPass(t, p);
            && (!p.leader ==> t'.nextTime == t.nextTime && t'.started == t.started)
            && (p.leader && p.finished < t.nextTime + MINUTE ==>
                  t'.nextTime == t.nextTime + MINUTE <= t'.started == p.woke)
            && (p.leader && p.finished >= t.nextTime + MINUTE ==>
                  WholeMinute(t'.nextTime) && t'.nextTime <= p.again < t'.nextTime + MINUTE && t'.started == t.started)
  {
    TruncateFacts(p.again);
  }

  /** The first pass: the worker sleeps exactly if the node leads and its round ends before the second
      whole minute after the one it started in, and is then re-armed at that minute. */
  lemma FirstPassRearms(now: int, ticking: int, p: Pass)
    requires now <= ticking && Possible(AtStart(now, ticking), p)
    ensures Sleeps(AtStart(now, ticking), p) <==> p.leader && p.finished < Truncate(now) + 2 * MINUTE
    ensures p.leader && p.finished < Truncate(now) + 2 * MINUTE ==>
              Rearmed(AfterPass(AtStart(now, ticking), p), Truncate(now) + 2 * MINUTE)
  {
    TruncateFacts(now);
  }

  /** The delay of the wake-up after minute n plus the time from the tick to the end of the round
      stays under a minute. */
  ghost predicate Timely(n: int, t: Timer, p: Pass) {
    (t.started - n) + (p.again - FireTime(t)) < MINUTE
  }

  /** After i timely passes the same ticker runs, tick i was the last received, within minute i. */
  ghost predicate InStep(n: int, started: int, t: Timer, i: nat) {
    && t.started == started
    && WholeMinute(t.nextTime) && t.nextTime <= n + i * MINUTE
    && started + i * MINUTE <= t.received <= t.clock
    && (i > 0 ==> t.clock < n + (i + 1) * MINUTE)
    && (i == 0 ==> t.received == t.clock == started)
  }

  lemma NextTickInStep(n: int, started: int, t: Timer, i: nat)
    requires n <= started && InStep(n, started, t, i)
    ensures NextTick(t) == i + 1 && FireTime(t) == started + (i + 1) * MINUTE
  {
    assert 0 <= t.received - started - i * MINUTE < MINUTE;
  }

  lemma PassInStep(n: int, started: int, t: Timer, i: nat, p: Pass)
    requires WholeMinute(n) && n <= started && InStep(n, started, t, i) && Possible(t, p) && Timely(n, t, p)
    ensures NextTick(t) == i + 1
    ensures Truncate(p.handled) == Truncate(p.finished) == Truncate(p.again) == n + (i + 1) * MINUTE
    ensures !Sleeps(t, p) && InStep(n, started, AfterPass(t, p), i + 1)
  {
    NextTickInStep(n, started, t, i);
    MinuteOf(n, i + 1, p.handled);
    MinuteOf(n, i + 1, p.finished);
    MinuteOf(n, i + 1, p.again);
    TruncateFacts(p.again);
  }

  lemma MinuteOf(n: int, k: nat, t: int)
    requires WholeMinute(n) && n + k * MINUTE <= t < n + (k + 1) * MINUTE
    ensures Truncate(t) == n + k * MINUTE
  {
    assert t - n - k * MINUTE == t % MINUTE by {
      assert (t - n - k * MINUTE) % MINUTE == t % MINUTE;
    }
  }

  /** Once re-armed at minute n, in every run whose delays stay under a minute the i-th pass handles
      tick i and lies wholly within minute n + i: each later minute gets exactly one tick, none
      skipped or doubled, whichever ticks find the node leader. */
  lemma {:induction false} OneTickPerMinute(n: int, states: seq<Timer>, passes: seq<Pass>, i: nat)
    requires IsRun(states, passes) && Rearmed(states[0], n)
    requires forall j :: 0 <= j < |passes| ==> Timely(n, states[j], passes[j])
    requires i < |passes|
    ensures InStep(n, states[0].started, states[i], i)
    ensures NextTick(states[i]) == i + 1 && !Sleeps(states[i], passes[i])
    ensures Truncate(passes[i].handled) == Truncate(passes[i].again) == n + (i + 1) * MINUTE
  {
    var started := states[0].started;
    if i > 0 {
      OneTickPerMinute(n, states, passes, i - 1);
      assert states[i - 1 + 1] == AfterPass(states[i - 1], passes[i - 1]);
      PassInStep(n, started, states[i - 1], i - 1, passes[i - 1]);
    }
    PassInStep(n, started, states[i], i, passes[i]);
  }

  /** From the start of the worker: if its first tick finds the node leader and done in time, then while
      delays stay under a minute, tick i is handled wholly within minute i + 2 after the minute of the
      start: from the third on, every minute gets exactly one. */
  lemma EveryMinuteFromStart(now: int, ticking: int, states: seq<Timer>, passes: seq<Pass>, i: nat)
    requires now <= ticking && IsRun(states, passes) && states[0] == AtStart(now, ticking) && 1 <= i < |passes|
    requires passes[0].leader && passes[0].finished < Truncate(now) + 2 * MINUTE
    requires forall j :: 1 <= j < |passes| ==> Timely(Truncate(now) + 2 * MINUTE, states[j], passes[j])
    ensures Truncate(passes[i].handled) == Truncate(passes[i].again) == Truncate(now) + (i + 2) * MINUTE
  {
    var n := Truncate(now) + 2 * MINUTE;
    assert Possible(states[0], passes[0]) && states[0 + 1] == AfterPass(states[0], passes[0]);
    FirstPassRearms(now, ticking, passes[0]);
    var states', passes' := states[1..], passes[1..];
    forall j | 0 <= j < |passes'|
      ensures Possible(states'[j], passes'[j]) && states'[j + 1] == AfterPass(states'[j], passes'[j])
    {
      assert states[j + 1 + 1] == AfterPass(states[j + 1], passes[j + 1]);
    }
    OneTickPerMinute(n, states', passes', i - 1);
  }
}
