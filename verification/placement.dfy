/** Where the operations put tasks: their levels, whether they run, and their places in the queues. */
module Placement {
  import opened Basics
  import opened Errors
  import opened Scheduler
  import opened RoundRobin
  import opened Messages

  /** Who is runnable after an operation, and at which level. */
  lemma MarksAfter(s: Sched, op: Op, t: nat)
    requires Inv(s) && Legal(s, op) && t in Step(s, op).tasks && t in s.tasks
    ensures Step(s, op).tasks[t].level ==
      if op.Wakeup? && op.task == t && op.level >= 0 then op.level else s.tasks[t].level
    ensures Step(s, op).tasks[t].running ==
      match op
      case Wakeup(u, _) => s.tasks[t].running || t == u
      case Send(u, _) => s.tasks[t].running || t == u
      case Sleep(u) => s.tasks[t].running && t != u
      case Finish(_) => s.tasks[t].running || (Current(s) in s.waiter && s.waiter[Current(s)] == t)
      case Wait(id) => s.tasks[t].running && (id in s.finished || t != Current(s))
      case _ => s.tasks[t].running
  {
    hide Rotate, WakeupTask, SleepTask, Core, Books, WaitRound, FinishCurrent, Highest;
    InvParts(s);
    NewIsNew(s);
    CurrentTask(s);
    match op {
      case NewTask =>
      case Switch => RotateKeepsTasks(s, false);
      case Sleep(u) => SleepMarks(s, u);
      case Wakeup(u, level) => WakeupMarks(s, u, level);
      case Send(u, m) => WakeupMarks(s.(tasks := s.tasks[u := s.tasks[u].(msgs := s.tasks[u].msgs + [m])]), u, -1);
      case Receive(u) =>
      case Finish(code) => FinishMarks(s, code);
      case Wait(id) => WaitMarks(s, id);
    }
  }

  /** Which tasks there are after an operation. */
  lemma TasksAfter(s: Sched, op: Op)
    requires Inv(s) && Legal(s, op)
    ensures Step(s, op).tasks.Keys ==
      match op
      case NewTask => s.tasks.Keys + {s.latestId + 1}
      case Finish(_) => s.tasks.Keys - {Current(s)}
      case _ => s.tasks.Keys
    ensures op.NewTask? ==> s.latestId + 1 !in s.tasks && Step(s, op).tasks[s.latestId + 1] == Task(1, false, [])
  {
    hide Rotate, WakeupTask, SleepTask, Core, Books, WaitRound, FinishCurrent, Highest;
    InvParts(s);
    NewIsNew(s);
    match op {
      case NewTask =>
      case Switch => RotateKeepsTasks(s, false);
      case Sleep(u) => SleepKeeps(s, u);
      case Wakeup(u, level) => WakeupKeeps(s, u, level);
      case Send(u, m) => WakeupKeeps(s.(tasks := s.tasks[u := s.tasks[u].(msgs := s.tasks[u].msgs + [m])]), u, -1);
      case Receive(u) =>
      case Finish(code) => EndKeeps(s, code);
      case Wait(id) => WaitKeeps(s, id);
    }
  }

  ghost predicate Marked(s: Sched, s': Sched, u: nat, level: int, running: bool) {
    s'.tasks.Keys == s.tasks.Keys && forall t :: t in s.tasks ==>
      && s'.tasks[t].level == (if t == u && level >= 0 then level else s.tasks[t].level)
      && s'.tasks[t].running == if t == u then running else s.tasks[t].running
  }

  lemma ChangeMarks(s: Sched, u: nat, level: int)
    requires Shape(s) && u in s.tasks && level <= MAX_LEVEL
    ensures Marked(s, Scheduler.ChangeLevelRunning(s, u, level), u, level, s.tasks[u].running)
  {
    hide Scheduler.ChangeLevelRunning;
    ChangeTasks(s, u, level);
  }

  lemma WakeupMarks(s: Sched, u: nat, level: int)
    requires Shape(s) && u in s.tasks && level <= MAX_LEVEL
    ensures Marked(s, WakeupTask(s, u, level), u, level, true)
  {
    hide Scheduler.ChangeLevelRunning;
    ChangeMarks(s, u, level);
  }

  lemma SleepMarks(s: Sched, u: nat)
    requires Shape(s) && u in s.tasks
    ensures Marked(s, SleepTask(s, u), u, -1, false)
  {
    hide Rotate, Erased;
    if s.tasks[u].running {
      RotateKeepsTasks(SetRunning(s, u, false), true);
    }
  }

  lemma FinishMarks(s: Sched, code: int)
    requires Inv(s) && Legal(s, Op.Finish(code))
    ensures var c, s' := Current(s), Step(s, Op.Finish(code));
      forall t :: t in s'.tasks ==>
        && t in s.tasks && s'.tasks[t].level == s.tasks[t].level
        && s'.tasks[t].running == (s.tasks[t].running || (c in s.waiter && s.waiter[c] == t))
  {
    hide Rotate, WakeupTask, Core, Books;
    InvParts(s);
    CanFinish(s);
    RotateKeepsTasks(s, true);
    var c := Current(s);
    var s1 := Rotate(s, true);
    var s2 := s1.(tasks := s1.tasks - {c}, finished := s1.finished[c := code], exited := s1.exited[c := code]);
    if c in s.waiter {
      WakeupMarks(s2.(waiter := s2.waiter - {c}), s.waiter[c], -1);
    }
  }

  lemma WaitMarks(s: Sched, id: nat)
    requires Inv(s) && Legal(s, Wait(id))
    ensures Marked(s, Step(s, Wait(id)), Current(s), -1, id in s.finished)
  {
    hide SleepTask, Core, Books;
    InvParts(s);
    CurrentTask(s);
    if id !in s.finished {
      SleepMarks(s.(waiter := s.waiter[id := Current(s)], waiting := s.waiting[Current(s) := id]), Current(s));
    }
  }

  // ----- Places in the queues -----

  function Queue(s: Sched, l: nat): seq<nat> {
    if l < |s.queues| then s.queues[l] else []
  }

  /** Two tasks, other than the one moved, that are in the queue before and after stand in the same order. */
  ghost predicate KeepsOrder(q: seq<nat>, q': seq<nat>, moved: Option<nat>) {
    forall u, v :: u in q && v in q && u in q' && v in q' && moved != Some(u) && moved != Some(v) ==>
      (Place(q, u) < Place(q, v) <==> Place(q', u) < Place(q', v))
  }

  lemma {:induction false} ErasedPlaces(q: seq<nat>, w: nat, u: nat, v: nat)
    requires u in q && v in q && u != w && v != w
    ensures Place(q, u) < Place(q, v) <==> Place(Erased(q, w), u) < Place(Erased(q, w), v)
  {
    if q[0] == w {
      ErasedPlaces(q[1..], w, u, v);
    } else {
      assert Erased(q, w)[1..] == Erased(q[1..], w);
      if q[0] != u && q[0] != v {
        ErasedPlaces(q[1..], w, u, v);
      }
    }
  }

  lemma ErasedOrder(q: seq<nat>, w: nat)
    ensures KeepsOrder(q, Erased(q, w), None)
  {
    forall u, v | u in q && v in q && u in Erased(q, w) && v in Erased(q, w)
      ensures Place(q, u) < Place(q, v) <==> Place(Erased(q, w), u) < Place(Erased(q, w), v)
    {
      ErasedPlaces(q, w, u, v);
    }
  }

  lemma AppendOrder(q: seq<nat>, w: nat)
    requires w !in q
    ensures KeepsOrder(q, q + [w], None)
  {
    forall u | u in q ensures Place(q + [w], u) == Place(q, u) {
      PlaceAppend(q, [w], u);
    }
  }

  lemma FrontOrder(q: seq<nat>, w: nat)
    requires w !in q
    ensures KeepsOrder(q, [w] + q, None)
  {
    assert ([w] + q)[1..] == q;
  }

  /** The first task leaves, or goes to the end. */
  lemma TailOrder(q: seq<nat>)
    requires q != [] && NoDuplicates(q)
    ensures KeepsOrder(q, q[1..], None) && KeepsOrder(q, q[1..] + [q[0]], Some(q[0]))
  {
    PopFront(q);
    forall u | u in q[1..]
      ensures Place(q, u) == Place(q[1..], u) + 1 && Place(q[1..] + [q[0]], u) == Place(q[1..], u)
    {
      PlaceAppend(q[1..], [q[0]], u);
    }
  }

  lemma SameOrder(q: seq<nat>)
    ensures KeepsOrder(q, q, None) && forall moved :: KeepsOrder(q, q, Some(moved))
  {
  }

  lemma RotateOrder(s: Sched, sleep: bool, l: nat)
    requires Core(s) && l <= MAX_LEVEL
    ensures KeepsOrder(s.queues[l], Rotate(s, sleep).queues[l], if sleep then None else Some(Current(s)))
    ensures Rotate(s, sleep).queues ==
      s.queues[s.currentLevel := s.queues[s.currentLevel][1..] + if sleep then [] else [Current(s)]]
  {
    hide KeepsOrder, Highest;
    LevelQueue(s);
    TailOrder(s.queues[s.currentLevel]);
    SameOrder(s.queues[l]);
    assert s.queues[s.currentLevel][1..] + [] == s.queues[s.currentLevel][1..];
  }

  /** A task in no queue of a level, which it would be in if it ran there. */
  lemma NotQueued(s: Sched, t: nat, l: nat)
    requires Core(s) && t in s.tasks && l <= MAX_LEVEL && (!s.tasks[t].running || s.tasks[t].level != l)
    ensures t !in s.queues[l]
  {
  }

  /** A change of level keeps the order of each queue; the newcomer stands last, or first if it is the current task. */
  lemma ChangeOrder(s: Sched, t: nat, level: int, l: nat)
    requires Core(s) && t in s.tasks && s.tasks[t].running && level <= MAX_LEVEL && l <= MAX_LEVEL
    ensures var q, q' := s.queues[l], Scheduler.ChangeLevelRunning(s, t, level).queues[l];
      && KeepsOrder(q, q', None)
      && forall u :: u in q' && u !in q ==>
           u == t && l == level && (if t == Current(s) then q'[0] == t else q'[|q'| - 1] == t)
  {
    hide KeepsOrder, Structure, TopLevel, Erased;
    LevelQueue(s);
    CurrentTask(s);
    SameOrder(s.queues[l]);
    if level >= 0 && level != s.tasks[t].level {
      NotQueued(s, t, level);
      TailOrder(s.queues[s.currentLevel]);
      ErasedOrder(s.queues[s.tasks[t].level], t);
      AppendOrder(s.queues[level], t);
      FrontOrder(s.queues[level], t);
    }
  }

  /** So does waking up; a task that was asleep comes to stand last in the queue of the level asked for, or its own. */
  lemma WakeupOrder(s: Sched, t: nat, level: int, l: nat)
    requires Core(s) && t in s.tasks && level <= MAX_LEVEL && l <= MAX_LEVEL
    ensures var q, q' := s.queues[l], Queue(WakeupTask(s, t, level), l);
      && KeepsOrder(q, q', None)
      && (forall u :: u in q' && u !in q ==>
           u == t && if t == Current(s) then q'[0] == t else q'[|q'| - 1] == t)
      && (!s.tasks[t].running && l == (if level < 0 then s.tasks[t].level else level) ==> q' == q + [t])
  {
    hide KeepsOrder, Structure, TopLevel, Scheduler.ChangeLevelRunning;
    if s.tasks[t].running {
      ChangeKeepsCurrent(s, t, level);
      ChangeOrder(s, t, level, l);
    } else {
      CurrentTask(s);
      SameOrder(s.queues[l]);
      NotQueued(s, t, l);
      AppendOrder(s.queues[l], t);
    }
  }

  lemma SleepOrder(s: Sched, t: nat, l: nat)
    requires Core(s) && t in s.tasks && l <= MAX_LEVEL
    ensures KeepsOrder(s.queues[l], Queue(SleepTask(s, t), l), None)
    ensures forall u :: u in Queue(SleepTask(s, t), l) ==> u in s.queues[l]
  {
    hide KeepsOrder, Structure, TopLevel, Rotate;
    SameOrder(s.queues[l]);
    if s.tasks[t].running {
      if t == Current(s) {
        SleepingOrder(s, t, l);
      } else {
        ErasedOrder(s.queues[s.tasks[t].level], t);
      }
    }
  }

  lemma SleepingOrder(s: Sched, t: nat, l: nat)
    requires Core(s) && t in s.tasks && l <= MAX_LEVEL && t == Current(s)
    ensures |Rotate(SetRunning(s, t, false), true).queues| == MAX_LEVEL + 1
    ensures var q' := Rotate(SetRunning(s, t, false), true).queues[l];
            KeepsOrder(s.queues[l], q', None) && forall u :: u in q' ==> u in s.queues[l]
  {
    hide KeepsOrder, Structure, TopLevel, Highest;
    RotateOrder(s, true, l);
    SameRotation(s, t);
  }

  lemma SameRotation(s: Sched, t: nat)
    requires Shape(s) && t in s.tasks
    ensures Rotate(SetRunning(s, t, false), true).queues == Rotate(s, true).queues
  {
    hide Highest;
  }

  /** Both at once: a task leaves the front of a queue, and another one, which was in none, comes last in one. */
  lemma LeaveAndJoin(q: seq<nat>, q1: seq<nat>, q2: seq<nat>, w: nat)
    requires KeepsOrder(q, q1, None) && KeepsOrder(q1, q2, None)
    requires forall u :: u in q2 && u !in q1 ==> u == w
    requires w !in q || w in q1
    ensures KeepsOrder(q, q2, None)
  {
  }

  lemma FinishOrder(s: Sched, code: int, l: nat)
    requires Inv(s) && Legal(s, Op.Finish(code)) && l <= MAX_LEVEL
    ensures KeepsOrder(s.queues[l], Queue(Step(s, Op.Finish(code)), l), None)
  {
    hide KeepsOrder, Structure, TopLevel, Books, Rotate, WakeupTask;
    var c := Current(s);
    InvParts(s);
    CanFinish(s);
    RotateOrder(s, true, l);
    RotateKeepsTasks(s, true);
    LeaveCore(s, s.tasks - {c});
    if c in s.waiter {
      var s1 := Rotate(s, true);
      var s2 := s1.(tasks := s1.tasks - {c}, finished := s1.finished[c := code], exited := s1.exited[c := code],
                    waiter := s1.waiter - {c});
      var w := s.waiter[c];
      CoreFields(s1.(tasks := s1.tasks - {c}), s2);
      WakeupOrder(s2, w, -1, l);
      Rejoins(s, l, w);
      LeaveAndJoin(s.queues[l], s1.queues[l], Queue(WakeupTask(s2, w, -1), l), w);
    }
  }

  lemma Rejoins(s: Sched, l: nat, w: nat)
    requires Core(s) && l <= MAX_LEVEL && w != Current(s)
    ensures w !in s.queues[l] || w in Rotate(s, true).queues[l]
  {
    hide KeepsOrder, Highest, Structure;
    RotateOrder(s, true, l);
    LevelQueue(s);
    PopFront(s.queues[s.currentLevel]);
  }

  /** Whatever happens, two tasks of a queue stand in the same order, unless a switch sends one of them to the end. */
  lemma OrderAfter(s: Sched, op: Op, l: nat)
    requires Inv(s) && Legal(s, op) && l <= MAX_LEVEL
    ensures KeepsOrder(s.queues[l], Queue(Step(s, op), l), if op.Switch? then Some(Current(s)) else None)
  {
    hide KeepsOrder, Structure, TopLevel, Books, Rotate, WakeupTask, SleepTask, FinishCurrent;
    StepInv(s, op);
    SameOrder(s.queues[l]);
    match op {
      case NewTask =>
      case Switch => RotateOrder(s, false, l);
      case Sleep(t) => SleepOrder(s, t, l);
      case Wakeup(t, level) => WakeupOrder(s, t, level, l);
      case Send(t, m) =>
        var s1 := s.(tasks := s.tasks[t := s.tasks[t].(msgs := s.tasks[t].msgs + [m])]);
        SetMsgsInv(s, t, s.tasks[t].msgs + [m]);
        WakeupOrder(s1, t, -1, l);
      case Receive(t) =>
      case Finish(code) => FinishOrder(s, code, l);
      case Wait(id) =>
        if id !in s.finished {
          CurrentTask(s);
          var s1 := s.(waiter := s.waiter[id := Current(s)], waiting := s.waiting[Current(s) := id]);
          CoreFields(s, s1);
          SleepOrder(s1, Current(s), l);
        }
    }
  }
}
