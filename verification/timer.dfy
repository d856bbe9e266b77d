/** The timer queue: every timer that is due fires at the tick it is due at, once. */
module Timers {

  const TASK_TIMER_VALUE: int := 0x7fff_ffff
  const TASK_TIMER_PERIOD: nat := 2
  const NEVER: nat := 0xffff_ffff_ffff_ffff

  /** A timer, and the tick it was added at. */
  datatype Timer = Timer(timeout: nat, value: int, taskId: nat, addedAt: nat)

  /** A message sent: for which timer, and at which tick. */
  datatype Timeout = Timeout(timer: Timer, at: nat)

  predicate IsTaskTimer(t: Timer) {
    t.value == TASK_TIMER_VALUE
  }

  /** The task timer that follows one that ran out at this tick. */
  function NextTaskTimer(tick: nat): Timer {
    Timer(tick + TASK_TIMER_PERIOD, TASK_TIMER_VALUE, 1, tick)
  }

  function TimersOf(sent: seq<Timeout>): multiset<Timer> {
    if sent == [] then multiset{} else TimersOf(sent[..|sent| - 1]) + multiset{sent[|sent| - 1].timer}
  }

  /** In the order of their timeouts. */
  predicate Ordered(sent: seq<Timeout>) {
    forall i, j :: 0 <= i < j < |sent| ==> sent[i].timer.timeout <= sent[j].timer.timeout
  }

  /** At the first tick at or after its timeout, and after the tick it was added at. */
  predicate FiredInTime(m: Timeout) {
    m.at == if m.timer.timeout > m.timer.addedAt then m.timer.timeout else m.timer.addedAt + 1
  }

  /** What a tick takes from the queue and what it leaves: nothing is due any more. */
  predicate Fired(before: multiset<Timer>, after: multiset<Timer>, batch: seq<Timeout>, ended: multiset<Timer>,
                  tick: nat) {
    && TimersOf(batch) + ended <= before
    && after == before - TimersOf(batch) - ended + multiset{}[NextTaskTimer(tick) := |ended|]
    && (forall i :: 0 <= i < |batch| ==>
          batch[i].at == tick && batch[i].timer.timeout <= tick && !IsTaskTimer(batch[i].timer))
    && (forall t :: t in ended ==> t.timeout <= tick && IsTaskTimer(t))
    && (forall t :: t in after ==> t.timeout > tick)
  }

  lemma {:induction false} InTimersOf(sent: seq<Timeout>, t: Timer)
    ensures t in TimersOf(sent) <==> exists i :: 0 <= i < |sent| && sent[i].timer == t
  {
    if sent != [] {
      var front := sent[..|sent| - 1];
      InTimersOf(front, t);
      if i :| 0 <= i < |sent| && sent[i].timer == t {
        assert i < |front| ==> front[i].timer == t;
      }
    }
  }

  /**
   This leaves no choice: an ordinary timer fires as often as it is in the queue if it is due, and not at all
   otherwise.
   */
  lemma FiredExactly(before: multiset<Timer>, after: multiset<Timer>, batch: seq<Timeout>, ended: multiset<Timer>,
                     tick: nat, t: Timer)
    requires Fired(before, after, batch, ended, tick)
    ensures !IsTaskTimer(t) ==> TimersOf(batch)[t] == (if t.timeout <= tick then before[t] else 0)
    ensures !IsTaskTimer(t) ==> after[t] == (if t.timeout <= tick then 0 else before[t])
    ensures IsTaskTimer(t) ==> ended[t] == if t.timeout <= tick then before[t] else 0
  {
    InTimersOf(batch, t);
    if t.timeout <= tick {
      assert after[t] == 0;
    }
  }

  ghost predicate Endless(m: multiset<Timer>) {
    exists t :: t in m && t.timeout == NEVER
  }

  class TimerManager {
    var tick: nat
    var timers: multiset<Timer>
    var sent: seq<Timeout>

    constructor ()
      ensures Valid() && Punctual() && tick == 0 && sent == [] && timers == multiset{Timer(NEVER, 0, 0, 0)}
    {
      tick, sent := 0, [];
      timers := multiset{Timer(NEVER, 0, 0, 0)};
    }

    /** Behind all others there is a timer that never fires. */
    ghost predicate Valid()
      reads this
    {
      tick < NEVER && Endless(timers)
    }

    ghost predicate Punctual()
      reads this
    {
      OnTime(timers, sent, tick)
    }

    method AddTimer(timeout: nat, value: int, taskId: nat)
      requires Valid()
      modifies this`timers
      ensures Valid() && timers == old(timers) + multiset{Timer(timeout, value, taskId, tick)}
      ensures old(Punctual()) ==> Punctual()
    {
      timers := timers + multiset{Timer(timeout, value, taskId, tick)};
    }

    /** A timer that is due first; if there are several, any of them. */
    method Top() returns (t: Timer)
      requires Valid()
      ensures t in timers && forall u :: u in timers ==> t.timeout <= u.timeout
    {
      Earliest(timers);
      t :| t in timers && forall u :: u in timers ==> t.timeout <= u.timeout;
    }

    /**
     One tick.  The ordinary timers that are due are sent, in the order of their timeouts, and leave the queue;
     each task timer that is due is replaced by a later one; nothing due is left.
     */
    method Tick() returns (taskTimerTimeout: bool, ghost batch: seq<Timeout>, ghost ended: multiset<Timer>)
      requires Valid() && tick + 1 < NEVER
      modifies this
      ensures Valid() && tick == old(tick) + 1 && sent == old(sent) + batch && Ordered(batch)
      ensures Fired(old(timers), timers, batch, ended, tick)
      ensures taskTimerTimeout <==> ended != multiset{}
    {
      hide Midway, Fired, Ordered, TimersOf, Endless;
      tick := tick + 1;
      ghost var all, rest := timers, timers;
      batch, ended := [], multiset{};
      taskTimerTimeout := false;
      MidwayAtFirst(all, tick);
      while true
        invariant Valid() && tick == old(tick) + 1 && sent == old(sent) + batch
        invariant Midway(all, timers, rest, batch, ended, tick)
        invariant taskTimerTimeout <==> ended != multiset{}
        decreases |rest|
      {
        var t := Top();
        if t.timeout > tick {
          break;
        }
        TopIsOld(all, timers, rest, batch, ended, tick, t);
        KeepsLast(timers, t, NextTaskTimer(tick));
        if t.value == TASK_TIMER_VALUE {
          MidwayRestart(all, timers, rest, batch, ended, tick, t);
          rest := rest - multiset{t};
          taskTimerTimeout := true;
          ended := ended + multiset{t};
          timers := timers - multiset{t} + multiset{NextTaskTimer(tick)};
          continue;
        }
        MidwayFire(all, timers, rest, batch, ended, tick, t);
        rest := rest - multiset{t};
        AppendTwice(old(sent), batch, Timeout(t, tick));
        sent := sent + [Timeout(t, tick)];
        batch := batch + [Timeout(t, tick)];
        timers := timers - multiset{t};
      }
      MidwayDone(all, timers, rest, batch, ended, tick);
    }
  }

  /** Whatever fired did so in time; what is due now was added after the last tick. */
  ghost predicate OnTime(timers: multiset<Timer>, sent: seq<Timeout>, tick: nat) {
    && (forall t :: t in timers ==> t.addedAt <= tick && (t.timeout > tick || t.addedAt == tick))
    && (forall i :: 0 <= i < |sent| ==> FiredInTime(sent[i]) && !IsTaskTimer(sent[i].timer))
  }

  lemma StaysOnTime(before: multiset<Timer>, after: multiset<Timer>, sent: seq<Timeout>, batch: seq<Timeout>,
                    ended: multiset<Timer>, tick: nat)
    requires tick > 0 && OnTime(before, sent, tick - 1) && Fired(before, after, batch, ended, tick)
    ensures OnTime(after, sent + batch, tick)
  {
    forall i | 0 <= i < |batch| ensures FiredInTime(batch[i]) {
      InTimersOf(batch, batch[i].timer);
      assert batch[i].timer in before;
    }
    forall t | t in after ensures t.addedAt <= tick {
      assert t in before || t == NextTaskTimer(tick);
    }
  }

  // ----- Whole runs -----

  datatype Event = Add(timeout: nat, value: int, taskId: nat) | OneTick

  /** The timers a run adds, beginning at a tick. */
  function Added(events: seq<Event>, tick: nat): multiset<Timer> {
    if events == [] then multiset{}
    else
      match events[0]
      case Add(timeout, value, taskId) => multiset{Timer(timeout, value, taskId, tick)} + Added(events[1..], tick)
      case OneTick => Added(events[1..], tick + 1)
  }

  /** The same count of an ordinary timer, fired or waiting. */
  ghost predicate Conserved(timers: multiset<Timer>, sent: seq<Timeout>, all: multiset<Timer>) {
    forall t :: !IsTaskTimer(t) ==> timers[t] + TimersOf(sent)[t] == all[t]
  }

  lemma ConservedByTick(before: multiset<Timer>, after: multiset<Timer>, sent: seq<Timeout>, batch: seq<Timeout>,
                        ended: multiset<Timer>, tick: nat, all: multiset<Timer>)
    requires Conserved(before, sent, all) && Fired(before, after, batch, ended, tick)
    ensures Conserved(after, sent + batch, all)
  {
    hide Fired;
    forall t | !IsTaskTimer(t) ensures after[t] + TimersOf(sent + batch)[t] == all[t] {
      FiredExactly(before, after, batch, ended, tick, t);
      TimersOfAll(sent, batch);
    }
  }

  lemma {:induction false} TimersOfAll(a: seq<Timeout>, b: seq<Timeout>)
    ensures TimersOf(a + b) == TimersOf(a) + TimersOf(b)
  {
    hide TimersOf;
    if b == [] {
      TimersOfNone();
      assert a + b == a;
    } else {
      var front, last := b[..|b| - 1], b[|b| - 1];
      TimersOfAll(a, front);
      TimersOfMore(a + front, last);
      TimersOfMore(front, last);
      assert a + b == a + front + [last] && b == front + [last];
    }
  }

  lemma TimersOfNone()
    ensures TimersOf([]) == multiset{}
  {
  }

  // ----- The number of task timers -----

  /** `tasks` are the task timers of a queue. */
  ghost predicate TaskTimersOf(tasks: multiset<Timer>, timers: multiset<Timer>) {
    forall t :: tasks[t] == if IsTaskTimer(t) then timers[t] else 0
  }

  ghost predicate TaskTimers(timers: multiset<Timer>, n: nat) {
    exists tasks :: TaskTimersOf(tasks, timers) && |tasks| == n
  }

  /** A queue has one number of task timers. */
  lemma TaskTimersUnique(timers: multiset<Timer>, n: nat, m: nat)
    requires TaskTimers(timers, n) && TaskTimers(timers, m)
    ensures n == m
  {
    var a :| TaskTimersOf(a, timers) && |a| == n;
    var b :| TaskTimersOf(b, timers) && |b| == m;
    Same(a, b);
  }

  function AddedTaskTimers(events: seq<Event>): nat {
    if events == [] then 0
    else
      (if events[0].Add? && events[0].value == TASK_TIMER_VALUE then 1 else 0) + AddedTaskTimers(events[1..])
  }

  /** Every task timer that runs out is replaced by one. */
  lemma TickKeepsTaskTimers(before: multiset<Timer>, after: multiset<Timer>, batch: seq<Timeout>,
                            ended: multiset<Timer>,
                            tick: nat, n: nat)
    requires Fired(before, after, batch, ended, tick) && TaskTimers(before, n)
    ensures TaskTimers(after, n)
  {
    hide Fired;
    var tasks :| TaskTimersOf(tasks, before) && |tasks| == n;
    forall t
      ensures ended[t] <= tasks[t]
      ensures IsTaskTimer(t) ==>
                after[t] == tasks[t] - ended[t] + if t == NextTaskTimer(tick) then |ended| else 0
    {
      TaskTimerTick(before, after, batch, ended, tick, t);
    }
    Replaced(tasks, after, ended, NextTaskTimer(tick));
  }

  lemma TaskTimerTick(before: multiset<Timer>, after: multiset<Timer>, batch: seq<Timeout>, ended: multiset<Timer>,
                      tick: nat, t: Timer)
    requires Fired(before, after, batch, ended, tick)
    ensures ended[t] <= if IsTaskTimer(t) then before[t] else 0
    ensures IsTaskTimer(t) ==>
              after[t] == before[t] - ended[t] + if t == NextTaskTimer(tick) then |ended| else 0
  {
    hide TimersOf;
    InTimersOf(batch, t);
    assert t in ended || ended[t] == 0;
    assert (TimersOf(batch) + ended)[t] <= before[t];
  }

  lemma Replaced(tasks: multiset<Timer>, after: multiset<Timer>, ended: multiset<Timer>, next: Timer)
    requires forall t :: ended[t] <= tasks[t]
    requires forall t :: !IsTaskTimer(t) ==> tasks[t] == 0
    requires IsTaskTimer(next)
    requires forall t :: IsTaskTimer(t) ==> after[t] == tasks[t] - ended[t] + if t == next then |ended| else 0
    ensures TaskTimers(after, |tasks|)
  {
    var tasks' := tasks - ended + multiset{}[next := |ended|];
    assert ended <= tasks && |multiset{}[next := |ended|]| == |ended|;
    assert TaskTimersOf(tasks', after);
  }

  lemma AddCountsTaskTimer(timers: multiset<Timer>, t: Timer, n: nat)
    requires TaskTimers(timers, n)
    ensures TaskTimers(timers + multiset{t}, if IsTaskTimer(t) then n + 1 else n)
  {
    var tasks :| TaskTimersOf(tasks, timers) && |tasks| == n;
    var tasks' := if IsTaskTimer(t) then tasks + multiset{t} else tasks;
    assert TaskTimersOf(tasks', timers + multiset{t});
  }

  /**
   Any timers added between any ticks: each ordinary one fires exactly once, at the first tick at or after its
   timeout that follows its being added, or is still waiting for it.  There are always as many task timers as
   there were, and were added.
   */
  method Run(manager: TimerManager, events: seq<Event>, ghost n: nat)
    requires manager.Valid() && manager.Punctual() && manager.tick + |events| + 1 < NEVER
    requires TaskTimers(manager.timers, n)
    modifies manager
    ensures manager.Valid() && manager.Punctual()
    ensures Conserved(manager.timers, manager.sent,
                      old(manager.timers) + TimersOf(old(manager.sent)) + Added(events, old(manager.tick)))
    ensures TaskTimers(manager.timers, n + AddedTaskTimers(events))
  {
    hide Fired, OnTime, Endless, Conserved, TaskTimers;
    ghost var tasks: nat := n;
    ghost var all := manager.timers + TimersOf(manager.sent);
    StartConserved(manager.timers, manager.sent);
    var i := 0;
    ghost var added: multiset<Timer> := multiset{};
    assert events[0..] == events;
    while i < |events|
      invariant 0 <= i <= |events| && manager.Valid() && manager.Punctual()
      invariant manager.tick <= old(manager.tick) + i
      invariant Conserved(manager.timers, manager.sent, all + added)
      invariant added + Added(events[i..], manager.tick) == Added(events, old(manager.tick))
      invariant TaskTimers(manager.timers, tasks) && tasks + AddedTaskTimers(events[i..]) == n + AddedTaskTimers(events)
    {
      assert events[i..][1..] == events[i + 1..];
      match events[i] {
        case Add(timeout, value, taskId) =>
          ghost var t := Timer(timeout, value, taskId, manager.tick);
          ConservedByAdd(manager.timers, manager.sent, all, added, t);
          AddCountsTaskTimer(manager.timers, t, tasks);
          tasks := if IsTaskTimer(t) then tasks + 1 else tasks;
          manager.AddTimer(timeout, value, taskId);
          added := added + multiset{t};
        case OneTick =>
          ghost var before, sent := manager.timers, manager.sent;
          var _, batch, ended := manager.Tick();
          TickKeepsTaskTimers(before, manager.timers, batch, ended, manager.tick, tasks);
          StaysOnTime(before, manager.timers, sent, batch, ended, manager.tick);
          ConservedByTick(before, manager.timers, sent, batch, ended, manager.tick, all + added);
      }
      i := i + 1;
    }
    assert added + multiset{} == added;
  }

  // ----- The period of task switches -----

  /** There is one task timer, due at this tick. */
  ghost predicate OneTaskTimer(timers: multiset<Timer>, timeout: nat) {
    exists t :: IsTaskTimer(t) && t.timeout == timeout && OnlyTaskTimer(timers, t)
  }

  ghost predicate OnlyTaskTimer(timers: multiset<Timer>, t: Timer) {
    forall u :: IsTaskTimer(u) ==> timers[u] == if u == t then 1 else 0
  }

  /** It runs out at the tick it is due at, and is due again two ticks later. */
  lemma NextTimeout(before: multiset<Timer>, after: multiset<Timer>, batch: seq<Timeout>, ended: multiset<Timer>,
                    tick: nat, timeout: nat)
    requires Fired(before, after, batch, ended, tick) && OneTaskTimer(before, timeout) && tick <= timeout
    ensures ended != multiset{} <==> timeout == tick
    ensures OneTaskTimer(after, if timeout == tick then tick + 2 else timeout)
  {
    hide Fired, TimersOf;
    var t :| IsTaskTimer(t) && t.timeout == timeout && OnlyTaskTimer(before, t);
    forall u
      ensures ended[u] == if u == t && timeout == tick then 1 else 0
      ensures IsTaskTimer(u) ==>
                after[u] == before[u] - ended[u] + if u == NextTaskTimer(tick) then |ended| else 0
    {
      TaskTimerTick(before, after, batch, ended, tick, u);
      FiredExactly(before, after, batch, ended, tick, u);
    }
    Same(ended, if timeout == tick then multiset{t} else multiset{});
    StaysOnly(before, after, ended, t, tick);
  }

  lemma StaysOnly(before: multiset<Timer>, after: multiset<Timer>, ended: multiset<Timer>, t: Timer, tick: nat)
    requires IsTaskTimer(t) && tick <= t.timeout && OnlyTaskTimer(before, t)
    requires ended == if t.timeout == tick then multiset{t} else multiset{}
    requires forall u :: IsTaskTimer(u) ==>
               after[u] == before[u] - ended[u] + if u == NextTaskTimer(tick) then |ended| else 0
    ensures OneTaskTimer(after, if t.timeout == tick then tick + 2 else t.timeout)
  {
    assert OnlyTaskTimer(after, if t.timeout == tick then NextTaskTimer(tick) else t);
  }

  /** With one task timer, tasks are switched at its first timeout and at every second tick from it on. */
  method RunTicks(manager: TimerManager, n: nat, ghost first: nat) returns (switches: seq<bool>)
    requires manager.Valid() && manager.tick + n + 1 < NEVER
    requires OneTaskTimer(manager.timers, first) && manager.tick < first
    modifies manager
    ensures manager.Valid() && manager.tick == old(manager.tick) + n && |switches| == n
    ensures forall i :: 0 <= i < n ==>
      var now := old(manager.tick) + 1 + i;
      switches[i] <==> now >= first && (now - first) % 2 == 0
  {
    hide Fired, Endless, OneTaskTimer;
    switches := [];
    ghost var next: nat := first;
    ghost var start := manager.tick;
    var i := 0;
    while i < n
      invariant 0 <= i <= n && |switches| == i && manager.Valid() && manager.tick == start + i
      invariant OneTaskTimer(manager.timers, next) && manager.tick < next && next >= first && (next - first) % 2 == 0
      invariant next == first || next <= manager.tick + 2
      invariant forall k :: 0 <= k < i ==>
        var now := start + 1 + k;
        switches[k] <==> now >= first && (now - first) % 2 == 0
    {
      ghost var before := manager.timers;
      var switched, batch, ended := manager.Tick();
      NextTimeout(before, manager.timers, batch, ended, manager.tick, next);
      switches := switches + [switched];
      next := if next == manager.tick then manager.tick + 2 else next;
      i := i + 1;
    }
  }

  lemma StartConserved(timers: multiset<Timer>, sent: seq<Timeout>)
    ensures Conserved(timers, sent, timers + TimersOf(sent) + multiset{})
  {
  }

  lemma ConservedByAdd(timers: multiset<Timer>, sent: seq<Timeout>, all: multiset<Timer>, added: multiset<Timer>,
                       t: Timer)
    requires Conserved(timers, sent, all + added)
    ensures Conserved(timers + multiset{t}, sent, all + (added + multiset{t}))
  {
  }

  /** In the middle of a tick: `rest` is what was not looked at yet. */
  ghost predicate Midway(all: multiset<Timer>, timers: multiset<Timer>, rest: multiset<Timer>, batch: seq<Timeout>,
                         ended: multiset<Timer>, tick: nat)
  {
    && rest + TimersOf(batch) + ended == all && timers == rest + multiset{}[NextTaskTimer(tick) := |ended|]
    && Ordered(batch)
    && (forall i :: 0 <= i < |batch| ==>
          batch[i].at == tick && batch[i].timer.timeout <= tick && !IsTaskTimer(batch[i].timer))
    && (forall i, t :: 0 <= i < |batch| && t in rest ==> batch[i].timer.timeout <= t.timeout)
    && (forall t :: t in ended ==> t.timeout <= tick && IsTaskTimer(t))
  }

  lemma MidwayAtFirst(all: multiset<Timer>, tick: nat)
    ensures Midway(all, all, all, [], multiset{}, tick)
  {
  }

  lemma Same(a: multiset<Timer>, b: multiset<Timer>)
    requires forall t :: a[t] == b[t]
    ensures a == b
  {
  }

  /** Taking an element out, of one part of a sum and into another. */
  lemma MoveOver(rest: multiset<Timer>, a: multiset<Timer>, b: multiset<Timer>, t: Timer)
    requires t in rest
    ensures rest - multiset{t} + (a + multiset{t}) + b == rest + a + b
    ensures rest - multiset{t} + a + (b + multiset{t}) == rest + a + b
    ensures |rest - multiset{t}| < |rest| && rest - multiset{t} <= rest
  {
    Same(rest - multiset{t} + (a + multiset{t}) + b, rest + a + b);
    Same(rest - multiset{t} + a + (b + multiset{t}), rest + a + b);
  }

  lemma TakeOut(rest: multiset<Timer>, next: Timer, n: nat, t: Timer)
    requires t in rest
    ensures rest + multiset{}[next := n] - multiset{t} == rest - multiset{t} + multiset{}[next := n]
    ensures rest + multiset{}[next := n] - multiset{t} + multiset{next}
        == rest - multiset{t} + multiset{}[next := n + 1]
  {
    Same(rest + multiset{}[next := n] - multiset{t}, rest - multiset{t} + multiset{}[next := n]);
    Same(rest + multiset{}[next := n] - multiset{t} + multiset{next}, rest - multiset{t} + multiset{}[next := n + 1]);
  }

  /** The timer on top is one that was not looked at, if it is due. */
  lemma TopIsOld(all: multiset<Timer>, timers: multiset<Timer>, rest: multiset<Timer>, batch: seq<Timeout>,
                 ended: multiset<Timer>, tick: nat, t: Timer)
    requires Midway(all, timers, rest, batch, ended, tick) && t in timers && t.timeout <= tick
    ensures t in rest && |rest - multiset{t}| < |rest| && forall u :: u in rest ==> u in timers
  {
    hide TimersOf;
  }

  lemma MidwayFire(all: multiset<Timer>, timers: multiset<Timer>, rest: multiset<Timer>, batch: seq<Timeout>,
                   ended: multiset<Timer>, tick: nat, t: Timer)
    requires Midway(all, timers, rest, batch, ended, tick) && t in rest && t.timeout <= tick && !IsTaskTimer(t)
    requires forall u :: u in rest ==> t.timeout <= u.timeout
    ensures Midway(all, timers - multiset{t}, rest - multiset{t}, batch + [Timeout(t, tick)], ended, tick)
  {
    hide TimersOf;
    TimersOfMore(batch, Timeout(t, tick));
    MoveOver(rest, TimersOf(batch), ended, t);
    TakeOut(rest, NextTaskTimer(tick), |ended|, t);
  }

  lemma MidwayRestart(all: multiset<Timer>, timers: multiset<Timer>, rest: multiset<Timer>, batch: seq<Timeout>,
                      ended: multiset<Timer>, tick: nat, t: Timer)
    requires Midway(all, timers, rest, batch, ended, tick) && t in rest && t.timeout <= tick && IsTaskTimer(t)
    ensures Midway(all, timers - multiset{t} + multiset{NextTaskTimer(tick)}, rest - multiset{t}, batch,
                   ended + multiset{t}, tick)
  {
    hide TimersOf;
    MoveOver(rest, TimersOf(batch), ended, t);
    TakeOut(rest, NextTaskTimer(tick), |ended|, t);
  }

  lemma TimersOfMore(batch: seq<Timeout>, m: Timeout)
    ensures TimersOf(batch + [m]) == TimersOf(batch) + multiset{m.timer}
  {
    assert (batch + [m])[..|batch|] == batch;
  }

  lemma AppendTwice(a: seq<Timeout>, b: seq<Timeout>, m: Timeout)
    ensures a + b + [m] == a + (b + [m])
  {
  }

  /** Only due timers leave, and the last one is never due. */
  lemma KeepsLast(m: multiset<Timer>, t: Timer, next: Timer)
    requires Endless(m) && t.timeout < NEVER
    ensures Endless(m - multiset{t}) && Endless(m - multiset{t} + multiset{next})
  {
    var u :| u in m && u.timeout == NEVER;
    assert u in m - multiset{t};
    assert u in m - multiset{t} + multiset{next};
  }

  lemma MidwayDone(all: multiset<Timer>, timers: multiset<Timer>, rest: multiset<Timer>, batch: seq<Timeout>,
                   ended: multiset<Timer>, tick: nat)
    requires Midway(all, timers, rest, batch, ended, tick) && forall t :: t in timers ==> t.timeout > tick
    ensures Fired(all, timers, batch, ended, tick) && Ordered(batch)
  {
  }

  lemma {:induction false} Earliest(m: multiset<Timer>)
    requires m != multiset{}
    ensures exists t :: t in m && forall u :: u in m ==> t.timeout <= u.timeout
    decreases |m|
  {
    var t :| t in m;
    var rest := m - multiset{t};
    forall u | u in m ensures u == t || u in rest {
    }
    if rest != multiset{} {
      Earliest(rest);
      var s :| s in rest && forall u :: u in rest ==> s.timeout <= u.timeout;
      var best := if t.timeout <= s.timeout then t else s;
      assert best in m && forall u :: u in m ==> best.timeout <= u.timeout;
    } else {
      assert t in m && forall u :: u in m ==> t.timeout <= u.timeout;
    }
  }
}
