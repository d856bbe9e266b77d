/**
 The multi-level run queues as a state machine: every public operation of the task manager is one
 step on a value, and the facts below hold in every reachable state.
 */
module Scheduler {
  import opened Basics
  import opened Errors

  const MAX_LEVEL: nat := 3
  const DEFAULT_LEVEL: nat := 1
  const MAIN: nat := 1
  const IDLE: nat := 2

  datatype Task = Task(level: nat, running: bool, msgs: seq<nat>)

  /**
   The fields of the task manager, and three histories: which task is inside WaitFinish for which id,
   the code each task ended with, and the codes handed to waiters.
   */
  datatype Sched = Sched(
    tasks: map<nat, Task>, latestId: nat,
    queues: seq<seq<nat>>, currentLevel: nat, levelChanged: bool,
    finished: map<nat, int>, waiter: map<nat, nat>,
    waiting: map<nat, nat>, exited: map<nat, int>, deliveries: seq<Delivery>)

  /** An exit code handed to a waiter. */
  datatype Delivery = Delivery(id: nat, code: int)

  // ----- The operations -----

  /** A queue without any occurrence of t. */
  function Erased(q: seq<nat>, t: nat): (r: seq<nat>)
    ensures t !in r && forall u :: u in r <==> u in q && u != t
    ensures |r| <= |q|
  {
    if q == [] then []
    else if q[0] == t then Erased(q[1..], t)
    else [q[0]] + Erased(q[1..], t)
  }

  /** The highest level with a waiting task among levels 0 .. n-1. */
  function Highest(queues: seq<seq<nat>>, n: nat): (level: Option<nat>)
    requires n <= |queues|
    ensures level.Some? ==> level.value < n && queues[level.value] != []
                            && forall l :: level.value < l < n ==> queues[l] == []
    ensures level.None? <==> forall l :: 0 <= l < n ==> queues[l] == []
  {
    if n == 0 then None
    else if queues[n - 1] != [] then Some(n - 1)
    else Highest(queues, n - 1)
  }

  /** What the class holds between operations: a queue for each level, and somebody to run. */
  predicate Shape(s: Sched) {
    && |s.queues| == MAX_LEVEL + 1 && s.currentLevel <= MAX_LEVEL
    && s.queues[s.currentLevel] != []
    && forall t :: t in s.tasks ==> s.tasks[t].level <= MAX_LEVEL
  }

  function Current(s: Sched): nat
    requires Shape(s)
  {
    s.queues[s.currentLevel][0]
  }

  function Rotate(s: Sched, currentSleep: bool): Sched
    requires Shape(s)
  {
    var q := s.queues[s.currentLevel];
    var q' := q[1..] + (if currentSleep then [] else [q[0]]);
    var queues := s.queues[s.currentLevel := q'];
    if s.levelChanged || q' == [] then
      var level := Highest(queues, MAX_LEVEL + 1);
      s.(queues := queues, levelChanged := false, currentLevel := if level.Some? then level.value else s.currentLevel)
    else
      s.(queues := queues)
  }

  function SetRunning(s: Sched, t: nat, running: bool): Sched
    requires t in s.tasks
  {
    s.(tasks := s.tasks[t := s.tasks[t].(running := running)])
  }

  function SetLevel(s: Sched, t: nat, level: nat): Sched
    requires t in s.tasks
  {
    s.(tasks := s.tasks[t := s.tasks[t].(level := level)])
  }

  function SleepTask(s: Sched, t: nat): Sched
    requires Shape(s) && t in s.tasks
  {
    if !s.tasks[t].running then s
    else
      var s1 := SetRunning(s, t, false);
      if t == Current(s) then Rotate(s1, true)
      else
        var level := s.tasks[t].level;
        s1.(queues := s.queues[level := Erased(s.queues[level], t)])
  }

  function ChangeLevelRunning(s: Sched, t: nat, level: int): Sched
    requires Shape(s) && t in s.tasks && level <= MAX_LEVEL
  {
    if level < 0 || level == s.tasks[t].level then s
    else if t != Current(s) then
      var old_ := s.tasks[t].level;
      var erased := s.queues[old_ := Erased(s.queues[old_], t)];
      SetLevel(s, t, level).(
        queues := erased[level := erased[level] + [t]],
        levelChanged := s.levelChanged || level > s.currentLevel)
    else
      var popped := s.queues[s.currentLevel := s.queues[s.currentLevel][1..]];
      SetLevel(s, t, level).(
        queues := popped[level := [t] + popped[level]],
        currentLevel := level,
        levelChanged := s.levelChanged || level < s.currentLevel)
  }

  function WakeupTask(s: Sched, t: nat, level: int): Sched
    requires Shape(s) && t in s.tasks && level <= MAX_LEVEL
  {
    if s.tasks[t].running then ChangeLevelRunning(s, t, level)
    else
      var level' := if level < 0 then s.tasks[t].level else level;
      var s1 := SetRunning(SetLevel(s, t, level'), t, true);
      s1.(queues := s.queues[level' := s.queues[level'] + [t]],
          levelChanged := s.levelChanged || level' > s.currentLevel)
  }

  function AddTask(s: Sched): Sched {
    var id := s.latestId + 1;
    s.(tasks := s.tasks[id := Task(DEFAULT_LEVEL, false, [])], latestId := id)
  }

  function PostMessage(s: Sched, t: nat, m: nat): Sched
    requires Shape(s) && t in s.tasks
  {
    WakeupTask(s.(tasks := s.tasks[t := s.tasks[t].(msgs := s.tasks[t].msgs + [m])]), t, -1)
  }

  function TakeMessage(s: Sched, t: nat): Sched
    requires t in s.tasks
  {
    if s.tasks[t].msgs == [] then s
    else s.(tasks := s.tasks[t := s.tasks[t].(msgs := s.tasks[t].msgs[1..])])
  }

  function FinishCurrent(s: Sched, code: int): Sched
    requires Shape(s) && Shape(Rotate(s, true))
    requires Current(s) in s.waiter ==> s.waiter[Current(s)] in s.tasks && s.waiter[Current(s)] != Current(s)
  {
    var t := Current(s);
    var s1 := Rotate(s, true);
    var s2 := s1.(tasks := s1.tasks - {t}, finished := s1.finished[t := code], exited := s1.exited[t := code]);
    if t in s.waiter then WakeupTask(s2.(waiter := s2.waiter - {t}), s.waiter[t], -1) else s2
  }

  /** One round of the loop in WaitFinish, by the current task. */
  function WaitRound(s: Sched, id: nat): Sched
    requires Shape(s) && Current(s) in s.tasks
  {
    var t := Current(s);
    if id in s.finished then
      s.(finished := s.finished - {id}, waiting := s.waiting - {t},
         deliveries := s.deliveries + [Delivery(id, s.finished[id])])
    else
      SleepTask(s.(waiter := s.waiter[id := t], waiting := s.waiting[t := id]), t)
  }

  // ----- The machine -----

  datatype Op =
    | NewTask
    | Switch
    | Sleep(task: nat)
    | Wakeup(task: nat, level: int)
    | Send(task: nat, msg: nat)
    | Receive(task: nat)
    | Finish(code: int)
    | Wait(id: nat)

  function Init(): Sched {
    Sched(map[MAIN := Task(MAX_LEVEL, true, []), IDLE := Task(0, true, [])], IDLE,
          [[IDLE], [], [], [MAIN]], MAX_LEVEL, false, map[], map[], map[], map[], [])
  }

  /**
   Tasks named exist, levels are in range, the idle task neither sleeps nor ends, and a task inside
   WaitFinish goes on with WaitFinish.
   */
  predicate Legal(s: Sched, op: Op)
    requires Shape(s)
  {
    match op
    case NewTask => true
    case Switch => true
    case Sleep(t) => t in s.tasks && t != IDLE
    case Wakeup(t, level) => t in s.tasks && level <= MAX_LEVEL
    case Send(t, _) => t in s.tasks
    case Receive(t) => t in s.tasks
    case Finish(_) => Current(s) != IDLE && Current(s) !in s.waiting
    case Wait(id) => Current(s) != IDLE && (Current(s) in s.waiting ==> s.waiting[Current(s)] == id)
  }

  function Step(s: Sched, op: Op): Sched
    requires Inv(s) && Legal(s, op)
  {
    match op
    case NewTask => AddTask(s)
    case Switch => Rotate(s, false)
    case Sleep(t) => SleepTask(s, t)
    case Wakeup(t, level) => WakeupTask(s, t, level)
    case Send(t, m) => PostMessage(s, t, m)
    case Receive(t) => TakeMessage(s, t)
    case Finish(code) =>
      CanFinish(s);
      FinishCurrent(s, code)
    case Wait(id) => WaitRound(s, id)
  }

  // ----- What every reachable state satisfies -----

  /** A live task is in the queue of its level iff it is marked running, once, and in no other queue. */
  predicate Structure(tasks: map<nat, Task>, queues: seq<seq<nat>>) {
    && |queues| == MAX_LEVEL + 1
    && (forall l :: 0 <= l <= MAX_LEVEL ==> NoDuplicates(queues[l]))
    && (forall l, t :: 0 <= l <= MAX_LEVEL && t in queues[l] ==> t in tasks && tasks[t].running && tasks[t].level == l)
    && (forall t :: t in tasks ==> tasks[t].level <= MAX_LEVEL && (tasks[t].running ==> t in queues[tasks[t].level]))
  }

  /** Unless a level change is pending, nobody waits above the current level. */
  predicate TopLevel(queues: seq<seq<nat>>, level: nat, changed: bool)
    requires |queues| == MAX_LEVEL + 1
  {
    !changed ==> forall l :: level < l <= MAX_LEVEL ==> queues[l] == []
  }

  /**
   Ids are handed out in order.  Whoever waits, or is named as a waiter, is a live task inside
   WaitFinish; an id with a stored exit code belongs to no live task and has no waiter registered.
   */
  predicate Books(live: set<nat>, latestId: nat, waiting: map<nat, nat>, waiter: map<nat, nat>,
                  finished: map<nat, int>) {
    && (forall t :: t in live ==> t <= latestId)
    && (forall w :: w in waiting ==> w in live && w != IDLE)
    && (forall id :: id in waiter ==> waiter[id] in waiting && waiting[waiter[id]] == id)
    && (forall id :: id in finished ==> id !in live && id <= latestId && id !in waiter)
  }

  predicate Core(s: Sched) {
    && Shape(s)
    && Structure(s.tasks, s.queues)
    && TopLevel(s.queues, s.currentLevel, s.levelChanged)
    && IDLE in s.tasks && s.tasks[IDLE].running
  }

  predicate Inv(s: Sched) {
    Core(s) && Books(s.tasks.Keys, s.latestId, s.waiting, s.waiter, s.finished)
  }

  lemma InitInv()
    ensures Inv(Init())
  {
  }

  lemma {:induction false} ErasedNoDuplicates(q: seq<nat>, t: nat)
    requires NoDuplicates(q)
    ensures NoDuplicates(Erased(q, t))
    ensures t in q ==> |Erased(q, t)| == |q| - 1
    ensures t !in q ==> Erased(q, t) == q
  {
    if q != [] {
      assert NoDuplicates(q[1..]);
      ErasedNoDuplicates(q[1..], t);
      if q[0] == t {
        assert t !in q[1..];
      } else {
        var r := Erased(q[1..], t);
        assert q[0] !in r;
      }
    }
  }

  /** The running tasks do not depend on messages. */
  lemma StructureSetMsgs(tasks: map<nat, Task>, queues: seq<seq<nat>>, t: nat, msgs: seq<nat>)
    requires Structure(tasks, queues) && t in tasks
    ensures Structure(tasks[t := tasks[t].(msgs := msgs)], queues)
  {
  }

  lemma StructureNew(tasks: map<nat, Task>, queues: seq<seq<nat>>, id: nat)
    requires Structure(tasks, queues) && id !in tasks
    ensures Structure(tasks[id := Task(DEFAULT_LEVEL, false, [])], queues)
  {
    hide NoDuplicates;
  }

  lemma StructureRemove(tasks: map<nat, Task>, queues: seq<seq<nat>>, t: nat, q: seq<nat>)
    requires Structure(tasks, queues) && t in tasks && tasks[t].running
    requires NoDuplicates(q) && forall u :: u in q <==> u in queues[tasks[t].level] && u != t
    ensures Structure(tasks[t := tasks[t].(running := false)], queues[tasks[t].level := q])
    ensures Structure(tasks - {t}, queues[tasks[t].level := q])
  {
  }

  lemma StructureAdd(tasks: map<nat, Task>, queues: seq<seq<nat>>, t: nat, level: nat, q: seq<nat>)
    requires Structure(tasks, queues) && t in tasks && !tasks[t].running && level <= MAX_LEVEL
    requires NoDuplicates(q) && forall u :: u in q <==> u in queues[level] || u == t
    ensures Structure(tasks[t := tasks[t].(running := true, level := level)], queues[level := q])
  {
  }

  lemma AppendNew(q: seq<nat>, t: nat)
    requires NoDuplicates(q) && t !in q
    ensures NoDuplicates(q + [t]) && NoDuplicates([t] + q)
    ensures forall u :: u in q + [t] <==> u in q || u == t
    ensures forall u :: u in [t] + q <==> u in q || u == t
  {
  }

  lemma PopFront(q: seq<nat>)
    requires NoDuplicates(q) && q != []
    ensures NoDuplicates(q[1..]) && NoDuplicates(q[1..] + [q[0]])
    ensures forall u :: u in q[1..] <==> u in q && u != q[0]
    ensures forall u :: u in q[1..] + [q[0]] <==> u in q
  {
    assert q == [q[0]] + q[1..];
    assert q[0] !in q[1..];
  }

  // ----- Each operation keeps the invariant -----

  /** The highest occupied level is found, since the idle task is somewhere. */
  lemma SomebodyWaits(tasks: map<nat, Task>, queues: seq<seq<nat>>)
    requires Structure(tasks, queues) && IDLE in tasks && tasks[IDLE].running
    ensures Highest(queues, MAX_LEVEL + 1).Some?
  {
    assert IDLE in queues[tasks[IDLE].level];
  }

  /** Rotation keeps everything in order as long as somebody is left to run. */
  lemma RotateKeeps(s: Sched, sleep: bool, tasks: map<nat, Task>, q: seq<nat>, queues: seq<seq<nat>>)
    requires Shape(s) && TopLevel(s.queues, s.currentLevel, s.levelChanged)
    requires q == s.queues[s.currentLevel][1..] + (if sleep then [] else [Current(s)])
    requires queues == s.queues[s.currentLevel := q] && Structure(tasks, queues)
    requires IDLE in tasks && tasks[IDLE].running
    ensures var s' := Rotate(s, sleep);
            && Shape(s'.(tasks := tasks)) && s'.queues == queues
            && TopLevel(s'.queues, s'.currentLevel, s'.levelChanged) && !s'.levelChanged
  {
    hide NoDuplicates;
    SomebodyWaits(tasks, queues);
    StructureLevels(tasks, queues);
  }

  lemma StructureLevels(tasks: map<nat, Task>, queues: seq<seq<nat>>)
    requires Structure(tasks, queues)
    ensures |queues| == MAX_LEVEL + 1 && forall t :: t in tasks ==> tasks[t].level <= MAX_LEVEL
  {
  }

  lemma CurrentTask(s: Sched)
    requires Core(s)
    ensures Current(s) in s.tasks && s.tasks[Current(s)].running && s.tasks[Current(s)].level == s.currentLevel
  {
    assert Current(s) in s.queues[s.currentLevel];
  }

  /** Taking the current task out, asleep or for good. */
  lemma LeaveCore(s: Sched, tasks: map<nat, Task>)
    requires Core(s) && Current(s) != IDLE && Current(s) in s.tasks
    requires tasks == s.tasks - {Current(s)}
          || tasks == s.tasks[Current(s) := s.tasks[Current(s)].(running := false)]
    ensures Core(Rotate(s, true).(tasks := tasks))
    ensures Shape(Rotate(s, true))
  {
    hide NoDuplicates;
    var q := s.queues[s.currentLevel];
    var stopped := s.tasks[Current(s) := s.tasks[Current(s)].(running := false)];
    CurrentTask(s);
    LevelQueue(s);
    PopFront(q);
    StructureRemove(s.tasks, s.queues, Current(s), q[1..]);
    RotateKeeps(s, true, tasks, q[1..], s.queues[s.currentLevel := q[1..]]);
    RotateKeeps(s, true, stopped, q[1..], s.queues[s.currentLevel := q[1..]]);
  }

  lemma LevelQueue(s: Sched)
    requires Core(s)
    ensures NoDuplicates(s.queues[s.currentLevel])
  {
  }

  lemma CanFinish(s: Sched)
    requires Inv(s) && Current(s) != IDLE && Current(s) !in s.waiting
    ensures Shape(Rotate(s, true)) && Current(s) in s.tasks
    ensures Current(s) in s.waiter ==> s.waiter[Current(s)] in s.tasks && s.waiter[Current(s)] != Current(s)
  {
    hide Structure;
    CurrentTask(s);
    LeaveCore(s, s.tasks - {Current(s)});
  }

  lemma SwitchInv(s: Sched)
    requires Inv(s)
    ensures Inv(Rotate(s, false))
  {
    var q := s.queues[s.currentLevel][1..] + [Current(s)];
    PopFront(s.queues[s.currentLevel]);
    StructureSameMembers(s.tasks, s.queues, s.currentLevel, q);
    RotateKeeps(s, false, s.tasks, q, s.queues[s.currentLevel := q]);
  }

  lemma StructureSameMembers(tasks: map<nat, Task>, queues: seq<seq<nat>>, level: nat, q: seq<nat>)
    requires Structure(tasks, queues) && level <= MAX_LEVEL
    requires NoDuplicates(q) && forall u :: u in q <==> u in queues[level]
    ensures Structure(tasks, queues[level := q])
  {
  }

  lemma SleepOtherCore(s: Sched, t: nat)
    requires Core(s) && t in s.tasks && t != IDLE && s.tasks[t].running && t != Current(s)
    ensures Core(SleepTask(s, t))
  {
    hide NoDuplicates;
    var level := s.tasks[t].level;
    ErasedNoDuplicates(s.queues[level], t);
    StructureRemove(s.tasks, s.queues, t, Erased(s.queues[level], t));
    assert level == s.currentLevel ==> Current(s) in Erased(s.queues[level], t);
  }

  lemma RotateTasks(s: Sched, tasks: map<nat, Task>)
    requires Shape(s) && Shape(s.(tasks := tasks))
    ensures Rotate(s.(tasks := tasks), true) == Rotate(s, true).(tasks := tasks)
  {
    if s.levelChanged {
    } else {
    }
  }

  lemma SleepInv(s: Sched, t: nat)
    requires Inv(s) && t in s.tasks && t != IDLE
    ensures Inv(SleepTask(s, t))
  {
    hide Structure, TopLevel, Books, Core;
    InvParts(s);
    if s.tasks[t].running {
      if t == Current(s) {
        var tasks := s.tasks[t := s.tasks[t].(running := false)];
        LeaveCore(s, tasks);
        CurrentTask(s);
        assert Shape(s.(tasks := tasks));
        RotateTasks(s, tasks);
      } else {
        SleepOtherCore(s, t);
      }
      assert SleepTask(s, t).tasks.Keys == s.tasks.Keys;
    }
  }

  lemma NotQueued(tasks: map<nat, Task>, queues: seq<seq<nat>>, t: nat, level: nat)
    requires Structure(tasks, queues) && t in tasks && level <= MAX_LEVEL
    requires tasks[t].running ==> tasks[t].level != level
    ensures |queues| == MAX_LEVEL + 1 && t !in queues[level] && NoDuplicates(queues[level])
  {
  }

  lemma WakeCore(s: Sched, t: nat, level: nat)
    requires Core(s) && t in s.tasks && !s.tasks[t].running && level <= MAX_LEVEL
    ensures Core(WakeupTask(s, t, level))
  {
    hide NoDuplicates, Structure;
    NotQueued(s.tasks, s.queues, t, level);
    AppendNew(s.queues[level], t);
    StructureAdd(s.tasks, s.queues, t, level, s.queues[level] + [t]);
    var s' := WakeupTask(s, t, level);
    assert s'.tasks == s.tasks[t := s.tasks[t].(running := true, level := level)];
    StructureLevels(s'.tasks, s'.queues);
  }

  lemma WakeInv(s: Sched, t: nat, level: int)
    requires Inv(s) && t in s.tasks && level <= MAX_LEVEL
    ensures Inv(WakeupTask(s, t, level))
  {
    hide Structure, TopLevel, Books, Core;
    InvParts(s);
    if s.tasks[t].running {
      ChangeLevelInv(s, t, level);
    } else {
      LevelsInRange(s, t);
      WakeCore(s, t, if level < 0 then s.tasks[t].level else level);
      assert WakeupTask(s, t, level).tasks.Keys == s.tasks.Keys;
    }
  }

  lemma LevelsInRange(s: Sched, t: nat)
    requires Core(s) && t in s.tasks
    ensures s.tasks[t].level <= MAX_LEVEL
  {
  }

  /** Moving a running task to another level, in three steps on the queues. */
  lemma MoveStructure(tasks: map<nat, Task>, queues: seq<seq<nat>>, t: nat, level: nat, q: seq<nat>, q': seq<nat>)
    requires Structure(tasks, queues) && t in tasks && tasks[t].running && level <= MAX_LEVEL && level != tasks[t].level
    requires NoDuplicates(q) && forall u :: u in q <==> u in queues[tasks[t].level] && u != t
    requires NoDuplicates(q') && forall u :: u in q' <==> u in queues[level] || u == t
    ensures Structure(tasks[t := tasks[t].(level := level)], queues[tasks[t].level := q][level := q'])
  {
    var stopped := tasks[t := tasks[t].(running := false)];
    StructureRemove(tasks, queues, t, q);
    StructureAdd(stopped, queues[tasks[t].level := q], t, level, q');
    assert stopped[t := stopped[t].(running := true, level := level)] == tasks[t := tasks[t].(level := level)];
  }

  lemma ChangeOtherCore(s: Sched, t: nat, level: nat)
    requires Core(s) && t in s.tasks && s.tasks[t].running && level <= MAX_LEVEL
    requires level != s.tasks[t].level && t != Current(s)
    ensures Core(ChangeLevelRunning(s, t, level))
  {
    hide NoDuplicates, Structure;
    var from := s.tasks[t].level;
    LevelsInRange(s, t);
    MoveAway(s, t, level);
    var s' := ChangeLevelRunning(s, t, level);
    assert s'.queues == s.queues[from := Erased(s.queues[from], t)][level := s.queues[level] + [t]];
    assert from == s.currentLevel ==> Current(s) in Erased(s.queues[from], t);
  }

  lemma MoveAway(s: Sched, t: nat, level: nat)
    requires Core(s) && t in s.tasks && s.tasks[t].running && level <= MAX_LEVEL && level != s.tasks[t].level
    ensures var from := s.tasks[t].level;
            Structure(s.tasks[t := s.tasks[t].(level := level)],
                      s.queues[from := Erased(s.queues[from], t)][level := s.queues[level] + [t]])
  {
    hide NoDuplicates;
    var from := s.tasks[t].level;
    ErasedNoDuplicates(s.queues[from], t);
    assert t !in s.queues[level];
    AppendNew(s.queues[level], t);
    MoveStructure(s.tasks, s.queues, t, level, Erased(s.queues[from], t), s.queues[level] + [t]);
  }

  lemma ChangeSelfCore(s: Sched, level: nat)
    requires Core(s) && level <= MAX_LEVEL && level != s.currentLevel && Current(s) in s.tasks
    ensures Core(ChangeLevelRunning(s, Current(s), level))
  {
    hide NoDuplicates;
    var t := Current(s);
    CurrentTask(s);
    PopFront(s.queues[s.currentLevel]);
    assert t !in s.queues[level];
    AppendNew(s.queues[level], t);
    MoveStructure(s.tasks, s.queues, t, level, s.queues[s.currentLevel][1..], [t] + s.queues[level]);
  }

  lemma ChangeLevelInv(s: Sched, t: nat, level: int)
    requires Inv(s) && t in s.tasks && s.tasks[t].running && level <= MAX_LEVEL
    ensures Inv(ChangeLevelRunning(s, t, level))
  {
    hide Structure, TopLevel, Books, Core;
    InvParts(s);
    CurrentTask(s);
    LevelsInRange(s, t);
    if 0 <= level != s.tasks[t].level {
      if t == Current(s) {
        ChangeSelfCore(s, level);
      } else {
        ChangeOtherCore(s, t, level);
      }
      assert ChangeLevelRunning(s, t, level).tasks.Keys == s.tasks.Keys;
    }
  }

  lemma FinishBooks(live: set<nat>, latestId: nat, waiting: map<nat, nat>, waiter: map<nat, nat>,
                    finished: map<nat, int>, t: nat, code: int)
    requires Books(live, latestId, waiting, waiter, finished) && t in live && t !in waiting
    ensures Books(live - {t}, latestId, waiting, waiter - {t}, finished[t := code])
  {
  }

  /** Core only looks at the tasks and the queues. */
  lemma CoreFields(s: Sched, s': Sched)
    requires Core(s)
    requires s'.tasks == s.tasks && s'.queues == s.queues
    requires s'.currentLevel == s.currentLevel && s'.levelChanged == s.levelChanged
    ensures Core(s')
  {
  }

  lemma FinishInv(s: Sched, code: int)
    requires Inv(s) && Legal(s, Finish(code))
    ensures Inv(Step(s, Finish(code)))
  {
    hide Structure, TopLevel, Core, Books;
    InvParts(s);
    var t := Current(s);
    CurrentTask(s);
    CanFinish(s);
    LeaveCore(s, s.tasks - {t});
    var s1 := Rotate(s, true);
    var s2 := s1.(tasks := s.tasks - {t}, finished := s.finished[t := code], exited := s.exited[t := code],
                  waiter := s.waiter - {t});
    FinishBooks(s.tasks.Keys, s.latestId, s.waiting, s.waiter, s.finished, t, code);
    assert s2.tasks.Keys == s.tasks.Keys - {t};
    CoreFields(s1.(tasks := s.tasks - {t}), s2);
    if t in s.waiter {
      WakeInv(s2, s.waiter[t], -1);
    } else {
      assert s.waiter - {t} == s.waiter;
    }
  }

  lemma WaitBooks(live: set<nat>, latestId: nat, waiting: map<nat, nat>, waiter: map<nat, nat>,
                  finished: map<nat, int>, t: nat, id: nat)
    requires Books(live, latestId, waiting, waiter, finished) && t in live && t != IDLE
    requires t in waiting ==> waiting[t] == id
    ensures id in finished ==> Books(live, latestId, waiting - {t}, waiter, finished - {id})
    ensures id !in finished ==> Books(live, latestId, waiting[t := id], waiter[id := t], finished)
  {
  }

  lemma WaitInv(s: Sched, id: nat)
    requires Inv(s) && Legal(s, Wait(id))
    ensures Inv(Step(s, Wait(id)))
  {
    hide Structure, TopLevel, Core, Books;
    InvParts(s);
    var t := Current(s);
    CurrentTask(s);
    WaitBooks(s.tasks.Keys, s.latestId, s.waiting, s.waiter, s.finished, t, id);
    if id !in s.finished {
      var s1 := s.(waiter := s.waiter[id := t], waiting := s.waiting[t := id]);
      CoreFields(s, s1);
      SleepInv(s1, t);
    } else {
      CoreFields(s, Step(s, Wait(id)));
    }
  }

  lemma NewTaskInv(s: Sched)
    requires Inv(s)
    ensures Inv(AddTask(s))
  {
    hide Structure, TopLevel;
    StructureNew(s.tasks, s.queues, s.latestId + 1);
    StructureLevels(AddTask(s).tasks, s.queues);
    assert AddTask(s).tasks.Keys == s.tasks.Keys + {s.latestId + 1};
  }

  lemma SetMsgsInv(s: Sched, t: nat, msgs: seq<nat>)
    requires Inv(s) && t in s.tasks
    ensures Inv(s.(tasks := s.tasks[t := s.tasks[t].(msgs := msgs)]))
  {
    hide Structure, TopLevel;
    StructureSetMsgs(s.tasks, s.queues, t, msgs);
    StructureLevels(s.tasks, s.queues);
  }

  lemma SendInv(s: Sched, t: nat, m: nat)
    requires Inv(s) && t in s.tasks
    ensures Inv(PostMessage(s, t, m))
  {
    hide Inv;
    InvParts(s);
    var s1 := s.(tasks := s.tasks[t := s.tasks[t].(msgs := s.tasks[t].msgs + [m])]);
    SetMsgsInv(s, t, s.tasks[t].msgs + [m]);
    WakeInv(s1, t, -1);
  }

  lemma InvParts(s: Sched)
    requires Inv(s)
    ensures Core(s) && Shape(s)
  {
  }

  lemma StepInv(s: Sched, op: Op)
    requires Inv(s) && Legal(s, op)
    ensures Inv(Step(s, op))
  {
    hide Structure, TopLevel;
    match op
    case NewTask => NewTaskInv(s);
    case Switch => SwitchInv(s);
    case Sleep(t) => SleepInv(s, t);
    case Wakeup(t, level) => WakeInv(s, t, level);
    case Send(t, m) => SendInv(s, t, m);
    case Receive(t) => SetMsgsInv(s, t, if s.tasks[t].msgs == [] then [] else s.tasks[t].msgs[1..]);
    case Finish(code) => FinishInv(s, code);
    case Wait(id) => WaitInv(s, id);
  }

  // ----- Whole runs -----

  /** A sequence of operations, each legal where it happens. */
  predicate LegalRun(s: Sched, ops: seq<Op>)
    requires Inv(s)
    decreases |ops|
  {
    ops == [] || (Legal(s, ops[0]) && StepIsInv(s, ops[0]) && LegalRun(Step(s, ops[0]), ops[1..]))
  }

  predicate StepIsInv(s: Sched, op: Op)
    requires Inv(s) && Legal(s, op)
    ensures StepIsInv(s, op)
  {
    StepInv(s, op);
    Inv(Step(s, op))
  }

  function Exec(s: Sched, ops: seq<Op>): (s': Sched)
    requires Inv(s) && LegalRun(s, ops)
    ensures Inv(s')
    decreases |ops|
  {
    if ops == [] then s else Exec(Step(s, ops[0]), ops[1..])
  }

  /**
   After any run, from the initial state or any other that satisfies the invariant, a live task is
   marked running iff it is in the queue of its own level, exactly once, and then it is in no other
   queue; the current queue is never empty.
   */
  lemma ReachableStructure(s0: Sched, ops: seq<Op>, s: Sched, t: nat, l: nat)
    requires Inv(s0) && LegalRun(s0, ops) && s == Exec(s0, ops)
    requires t in s.tasks && l <= MAX_LEVEL
    ensures |s.queues| == MAX_LEVEL + 1
    ensures multiset(s.queues[l])[t] == (if s.tasks[t].running && s.tasks[t].level == l then 1 else 0)
    ensures Shape(s) && Current(s) in s.tasks && s.tasks[Current(s)].running
  {
    CurrentTask(s);
    OccursOnce(s.queues[l], t);
  }

  lemma {:induction false} OccursOnce(q: seq<nat>, t: nat)
    requires NoDuplicates(q)
    ensures multiset(q)[t] == if t in q then 1 else 0
  {
    if q != [] {
      assert q == [q[0]] + q[1..];
      assert NoDuplicates(q[1..]);
      OccursOnce(q[1..], t);
      if q[0] == t {
        assert t !in q[1..];
      }
    }
  }

  /** Operations that rotate the current queue. */
  predicate Rotates(s: Sched, op: Op)
    requires Shape(s)
  {
    match op
    case Switch => true
    case Sleep(t) => t == Current(s) && t in s.tasks && s.tasks[t].running
    case Finish(_) => true
    case Wait(id) => id !in s.finished
    case _ => false
  }

  /** Who runs changes by rotation only, even when a task changes its own level. */
  lemma OnlyRotationSwitches(s: Sched, op: Op)
    requires Inv(s) && Legal(s, op) && !Rotates(s, op)
    ensures Shape(Step(s, op)) && Current(Step(s, op)) == Current(s)
  {
    hide Books, Structure, TopLevel, Rotate, Highest, SleepTask, WakeupTask;
    StepInv(s, op);
    InvParts(Step(s, op));
    CurrentTask(s);
    match op {
      case Sleep(t) => SleepKeepsCurrent(s, t);
      case Wakeup(t, level) => WakeKeepsCurrent(s, t, level);
      case Send(t, m) => WakeKeepsCurrent(s.(tasks := s.tasks[t := s.tasks[t].(msgs := s.tasks[t].msgs + [m])]), t, -1);
      case NewTask =>
      case Receive(_) =>
      case Wait(_) =>
    }
  }

  lemma SleepKeepsCurrent(s: Sched, t: nat)
    requires Core(s) && t in s.tasks && !(t == Current(s) && s.tasks[t].running)
    ensures |SleepTask(s, t).queues| == MAX_LEVEL + 1 && SleepTask(s, t).currentLevel == s.currentLevel
    ensures SleepTask(s, t).queues[s.currentLevel] != [] && SleepTask(s, t).queues[s.currentLevel][0] == Current(s)
  {
    hide Structure, TopLevel, Rotate;
  }

  lemma WakeKeepsCurrent(s: Sched, t: nat, level: int)
    requires Shape(s) && t in s.tasks && level <= MAX_LEVEL
    ensures var s' := WakeupTask(s, t, level);
            && |s'.queues| == MAX_LEVEL + 1 && s'.currentLevel <= MAX_LEVEL
            && s'.queues[s'.currentLevel] != [] && s'.queues[s'.currentLevel][0] == Current(s)
  {
    hide ChangeLevelRunning;
    if s.tasks[t].running {
      ChangeKeepsCurrent(s, t, level);
    }
  }

  lemma ChangeKeepsCurrent(s: Sched, t: nat, level: int)
    requires Shape(s) && t in s.tasks && level <= MAX_LEVEL
    ensures var s' := ChangeLevelRunning(s, t, level);
            && |s'.queues| == MAX_LEVEL + 1 && s'.currentLevel <= MAX_LEVEL
            && s'.queues[s'.currentLevel] != [] && s'.queues[s'.currentLevel][0] == Current(s)
  {
    if level < 0 || level == s.tasks[t].level {
    } else if t == Current(s) {
    } else {
      ErasedFirst(s.queues[s.currentLevel], t);
    }
  }

  lemma ErasedFirst(q: seq<nat>, t: nat)
    requires q != [] && q[0] != t
    ensures Erased(q, t) != [] && Erased(q, t)[0] == q[0]
  {
  }

  /** After a rotation no level change is pending, and a task of the highest occupied level runs. */
  lemma RotationPicksHighest(s: Sched, op: Op)
    requires Inv(s) && Legal(s, op) && Rotates(s, op)
    requires op.Finish? ==> Current(s) !in s.waiter
    ensures var s' := Step(s, op);
            && Shape(s') && !s'.levelChanged && Current(s') in s'.tasks
            && HighestRuns(s')
  {
    hide Books, Structure, Rotate;
    StepInv(s, op);
    var s' := Step(s, op);
    CurrentTask(s');
    match op {
    case Switch => Unpending(s, false);
    case Sleep(t) => Unpending(SetRunning(s, t, false), true);
    case Finish(_) =>
      CanFinish(s);
      Unpending(s, true);
    case Wait(id) =>
      var t := Current(s);
      CurrentTask(s);
      Unpending(SetRunning(s.(waiter := s.waiter[id := t], waiting := s.waiting[t := id]), t, false), true);
    }
    TopRuns(s');
  }

  lemma Unpending(s: Sched, sleep: bool)
    requires Shape(s)
    ensures !Rotate(s, sleep).levelChanged
  {
    if s.levelChanged {
    } else {
    }
  }

  predicate HighestRuns(s: Sched)
    requires Shape(s) && Current(s) in s.tasks
  {
    forall t :: t in s.tasks && s.tasks[t].running ==> s.tasks[t].level <= s.tasks[Current(s)].level
  }

  /** Whenever no level change is pending, a task of the highest occupied level runs. */
  lemma TopRuns(s: Sched)
    requires Core(s) && !s.levelChanged
    ensures Current(s) in s.tasks && HighestRuns(s)
  {
    CurrentTask(s);
  }
}
