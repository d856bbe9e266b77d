/**
 The task manager itself: fields changed in place, each method doing exactly the step of the machine
 in Scheduler, so that whatever is proved of the machine's runs holds of the manager's.
 */
module Tasks {
  import opened Errors
  import opened Scheduler

  /** q without t, as std::remove and erase leave it. */
  method Erase(q: seq<nat>, t: nat) returns (r: seq<nat>)
    ensures r == Erased(q, t)
  {
    r := [];
    var i := 0;
    while i < |q|
      invariant 0 <= i <= |q|
      invariant Erased(q, t) == r + Erased(q[i..], t)
    {
      if q[i] != t {
        r := r + [q[i]];
      }
      i := i + 1;
    }
  }

  class TaskManager {
    var tasks: map<nat, Task>
    var latestId: nat
    var running: seq<seq<nat>>
    var currentLevel: nat
    var levelChanged: bool
    var finishTasks: map<nat, int>
    var finishWaiter: map<nat, nat>
    ghost var waiting: map<nat, nat>
    ghost var exited: map<nat, int>
    ghost var deliveries: seq<Delivery>

    ghost function State(): Sched
      reads this
    {
      Sched(tasks, latestId, running, currentLevel, levelChanged, finishTasks, finishWaiter, waiting, exited,
            deliveries)
    }

    constructor ()
      ensures State() == Init() && Inv(State())
    {
      hide Inv, Core, Structure, TopLevel, Books, Highest, Init;
      tasks, latestId := map[], 0;
      running, currentLevel, levelChanged := [[], [], [], []], MAX_LEVEL, false;
      finishTasks, finishWaiter := map[], map[];
      waiting, exited, deliveries := map[], map[], [];
      new;
      ghost var s0 := State();
      var main := NewTask();
      tasks := tasks[main := Task(currentLevel, true, [])];
      running := running[currentLevel := running[currentLevel] + [main]];
      ghost var s1 := State();
      var idle := NewTask();
      tasks := tasks[idle := Task(0, true, [])];
      running := running[0 := running[0] + [idle]];
      assert s1 == Started(s0, MAX_LEVEL) && State() == Started(s1, 0);
      InitStarted();
      InitInv();
    }

    /** A task is created and put straight into the queue of a level. */
    ghost static function Started(s: Sched, level: nat): Sched
      requires level < |s.queues|
    {
      var id := s.latestId + 1;
      AddTask(s).(tasks := AddTask(s).tasks[id := Task(level, true, [])],
                  queues := s.queues[level := s.queues[level] + [id]])
    }

    /** The initial state is that of the main task and the idle task, started one after the other. */
    static lemma InitStarted()
      ensures var s := Sched(map[], 0, [[], [], [], []], MAX_LEVEL, false, map[], map[], map[], map[], []);
              Started(Started(s, MAX_LEVEL), 0) == Init()
    {
      var s := Sched(map[], 0, [[], [], [], []], MAX_LEVEL, false, map[], map[], map[], map[], []);
      var s1 := Started(s, MAX_LEVEL);
      var s2 := Started(s1, 0);
      assert s1.tasks == map[MAIN := Task(MAX_LEVEL, true, [])];
      assert s1.queues[3] == [MAIN] && s2.queues[0] == [IDLE];
      assert s2.queues == [[IDLE], [], [], [MAIN]];
    }

    /** Ids are never given twice: the new task's id was no task's before. */
    method NewTask() returns (id: nat)
      modifies this
      ensures State() == AddTask(old(State())) && id == latestId == old(latestId) + 1
      ensures Inv(old(State())) ==> Inv(State()) && id !in old(tasks)
    {
      ghost var s := State();
      latestId := latestId + 1;
      tasks := tasks[latestId := Task(DEFAULT_LEVEL, false, [])];
      id := latestId;
      if Inv(s) {
        NewTaskInv(s);
      }
    }

    method CurrentTask() returns (t: nat)
      requires Inv(State())
      ensures t == Current(State()) && t in tasks && tasks[t].running
    {
      Scheduler.CurrentTask(State());
      t := running[currentLevel][0];
    }

    method RotateCurrentRunQueue(currentSleep: bool) returns (current: nat)
      requires Shape(State())
      modifies `running, `currentLevel, `levelChanged
      ensures State() == Rotate(old(State()), currentSleep) && current == Current(old(State()))
    {
      var levelQueue := running[currentLevel];
      current := levelQueue[0];
      levelQueue := levelQueue[1..];
      if !currentSleep {
        levelQueue := levelQueue + [current];
      }
      assert levelQueue == running[currentLevel][1..] + (if currentSleep then [] else [current]);
      running := running[currentLevel := levelQueue];
      if levelQueue == [] {
        levelChanged := true;
      }
      if levelChanged {
        levelChanged := false;
        var lv := MAX_LEVEL + 1;
        while lv > 0
          invariant 0 <= lv <= MAX_LEVEL + 1
          invariant Highest(running, MAX_LEVEL + 1) == Highest(running, lv)
        {
          lv := lv - 1;
          if running[lv] != [] {
            currentLevel := lv;
            break;
          }
        }
      }
    }

    /** The timer's switch: the current task goes to the end of its queue and a task of the highest level runs. */
    method SwitchTask()
      requires Inv(State())
      modifies `running, `currentLevel, `levelChanged
      ensures State() == Rotate(old(State()), false) && Inv(State())
      ensures !levelChanged && Shape(State()) && Current(State()) in tasks && HighestRuns(State())
    {
      hide Core, Structure, TopLevel, Books;
      InvParts(State());
      SwitchInv(State());
      RotationPicksHighest(State(), Switch);
      var _ := RotateCurrentRunQueue(false);
    }

    method SetRunning(t: nat, on: bool)
      requires t in tasks
      modifies `tasks
      ensures State() == Scheduler.SetRunning(old(State()), t, on)
    {
      tasks := tasks[t := tasks[t].(running := on)];
    }

    method SetLevel(t: nat, level: nat)
      requires t in tasks
      modifies `tasks
      ensures State() == Scheduler.SetLevel(old(State()), t, level)
    {
      tasks := tasks[t := tasks[t].(level := level)];
    }

    method Sleep(t: nat)
      requires Inv(State()) && t in tasks && t != IDLE
      modifies `tasks, `running, `currentLevel, `levelChanged
      ensures State() == SleepTask(old(State()), t) && Inv(State())
    {
      hide Inv, Core, Structure, TopLevel, Books, Rotate;
      SleepInv(State(), t);
      InvParts(State());
      if !tasks[t].running {
        return;
      }
      SetRunning(t, false);
      if t == running[currentLevel][0] {
        var _ := RotateCurrentRunQueue(true);
        return;
      }
      var rest := Erase(running[tasks[t].level], t);
      running := running[tasks[t].level := rest];
    }

    /** Sleep by number; an unknown number changes nothing. */
    method SleepId(id: nat) returns (err: Error)
      requires Inv(State()) && id != IDLE
      modifies `tasks, `running, `currentLevel, `levelChanged
      ensures Inv(State())
      ensures id !in old(tasks) <==> err == NoSuchTask
      ensures err == NoSuchTask ==> State() == old(State())
      ensures err != NoSuchTask ==> err == Success && State() == SleepTask(old(State()), id)
    {
      if id !in tasks {
        return NoSuchTask;
      }
      Sleep(id);
      err := Success;
    }

    method ChangeLevelOther(t: nat, level: nat)
      requires Shape(State()) && t in tasks && level <= MAX_LEVEL && level != tasks[t].level && t != Current(State())
      modifies `tasks, `running, `levelChanged
      ensures State() == Scheduler.ChangeLevelRunning(old(State()), t, level)
    {
      var rest := Erase(running[tasks[t].level], t);
      running := running[tasks[t].level := rest];
      running := running[level := running[level] + [t]];
      SetLevel(t, level);
      if level > currentLevel {
        levelChanged := true;
      }
    }

    method ChangeLevelRunning(t: nat, level: int)
      requires Inv(State()) && t in tasks && tasks[t].running && level <= MAX_LEVEL
      modifies `tasks, `running, `currentLevel, `levelChanged
      ensures State() == Scheduler.ChangeLevelRunning(old(State()), t, level) && Inv(State())
    {
      hide Inv, Core, Structure, TopLevel, Books, Erased, Highest;
      ChangeLevelInv(State(), t, level);
      InvParts(State());
      if level < 0 || level == tasks[t].level {
        return;
      }
      if t != running[currentLevel][0] {
        ChangeLevelOther(t, level);
        return;
      }
      running := running[currentLevel := running[currentLevel][1..]];
      running := running[level := [t] + running[level]];
      SetLevel(t, level);
      if level >= currentLevel {
        currentLevel := level;
      } else {
        currentLevel := level;
        levelChanged := true;
      }
    }

    method Wakeup(t: nat, level: int)
      requires Inv(State()) && t in tasks && level <= MAX_LEVEL
      modifies `tasks, `running, `currentLevel, `levelChanged
      ensures State() == WakeupTask(old(State()), t, level) && Inv(State())
    {
      hide Inv, Core, Structure, TopLevel, Books, Scheduler.ChangeLevelRunning;
      WakeInv(State(), t, level);
      InvParts(State());
      if tasks[t].running {
        ChangeLevelRunning(t, level);
        return;
      }
      var level' := if level < 0 then tasks[t].level else level;
      SetLevel(t, level');
      SetRunning(t, true);
      running := running[level' := running[level'] + [t]];
      if level' > currentLevel {
        levelChanged := true;
      }
    }

    method WakeupId(id: nat, level: int) returns (err: Error)
      requires Inv(State()) && level <= MAX_LEVEL
      modifies `tasks, `running, `currentLevel, `levelChanged
      ensures Inv(State())
      ensures id !in old(tasks) <==> err == NoSuchTask
      ensures err == NoSuchTask ==> State() == old(State())
      ensures err != NoSuchTask ==> err == Success && State() == WakeupTask(old(State()), id, level)
    {
      if id !in tasks {
        return NoSuchTask;
      }
      Wakeup(id, level);
      err := Success;
    }

    method SendMessage(id: nat, msg: nat) returns (err: Error)
      requires Inv(State())
      modifies `tasks, `running, `currentLevel, `levelChanged
      ensures Inv(State())
      ensures id !in old(tasks) <==> err == NoSuchTask
      ensures err == NoSuchTask ==> State() == old(State())
      ensures err != NoSuchTask ==> err == Success && State() == PostMessage(old(State()), id, msg)
      ensures err != NoSuchTask ==> id in tasks && tasks[id].msgs == old(tasks[id].msgs) + [msg] && tasks[id].running
    {
      hide Inv, Core, Structure, TopLevel, Books, WakeupTask;
      InvParts(State());
      if id !in tasks {
        return NoSuchTask;
      }
      SetMsgsInv(State(), id, tasks[id].msgs + [msg]);
      tasks := tasks[id := tasks[id].(msgs := tasks[id].msgs + [msg])];
      WokenMail(State(), id);
      Wakeup(id, -1);
      err := Success;
    }

    /** Waking a task up leaves its messages alone. */
    static lemma WokenMail(s: Sched, t: nat)
      requires Shape(s) && t in s.tasks
      ensures var s' := WakeupTask(s, t, -1);
              t in s'.tasks && s'.tasks[t].msgs == s.tasks[t].msgs && s'.tasks[t].running
    {
    }

    /** The oldest message, if there is one. */
    method ReceiveMessage(t: nat) returns (msg: Option<nat>)
      requires Inv(State()) && t in tasks
      modifies `tasks
      ensures State() == TakeMessage(old(State()), t) && Inv(State())
      ensures msg == if old(tasks[t].msgs) == [] then None else Some(old(tasks[t].msgs[0]))
    {
      hide Inv, Core, Structure, TopLevel, Books;
      if tasks[t].msgs == [] {
        return None;
      }
      SetMsgsInv(State(), t, tasks[t].msgs[1..]);
      msg := Some(tasks[t].msgs[0]);
      tasks := tasks[t := tasks[t].(msgs := tasks[t].msgs[1..])];
    }

    method Finish(exitCode: int)
      requires Inv(State()) && Legal(State(), Op.Finish(exitCode))
      modifies this
      ensures State() == Step(old(State()), Op.Finish(exitCode)) && Inv(State())
    {
      hide Core, Structure, TopLevel, Books, Rotate, WakeupTask;
      ghost var s := State();
      InvParts(s);
      FinishInv(s, exitCode);
      CanFinish(s);
      LeavesCore(s, exitCode);
      var t := RotateCurrentRunQueue(true);
      tasks := tasks - {t};
      finishTasks := finishTasks[t := exitCode];
      exited := exited[t := exitCode];
      if t in finishWaiter {
        var waiter := finishWaiter[t];
        finishWaiter := finishWaiter - {t};
        Wakeup(waiter, -1);
      }
    }

    /** The manager between taking the ended task out and waking its waiter. */
    ghost static function Gone(s: Sched, code: int): Sched
      requires Shape(s)
    {
      var t := Current(s);
      Rotate(s, true).(tasks := s.tasks - {t}, finished := s.finished[t := code], exited := s.exited[t := code],
                       waiter := s.waiter - {t})
    }

    /** A rotation is about the queues only. */
    static lemma RotateFields(s: Sched, currentSleep: bool)
      requires Shape(s)
      ensures var r := Rotate(s, currentSleep);
              r == s.(queues := r.queues, currentLevel := r.currentLevel, levelChanged := r.levelChanged)
    {
      hide Highest;
    }

    static lemma LeavesCore(s: Sched, code: int)
      requires Inv(s) && Legal(s, Op.Finish(code))
      ensures Inv(Gone(s, code))
      ensures Rotate(s, true).tasks == s.tasks && Rotate(s, true).finished == s.finished
      ensures Rotate(s, true).exited == s.exited && Rotate(s, true).waiter == s.waiter
    {
      hide Structure, TopLevel, Core, Books, Rotate;
      InvParts(s);
      var t := Current(s);
      Scheduler.CurrentTask(s);
      RotateFields(s, true);
      LeaveCore(s, s.tasks - {t});
      FinishBooks(s.tasks.Keys, s.latestId, s.waiting, s.waiter, s.finished, t, code);
      assert (s.tasks - {t}).Keys == s.tasks.Keys - {t};
      CoreFields(Rotate(s, true).(tasks := s.tasks - {t}), Gone(s, code));
    }

    /**
     One round of the loop in WaitFinish, up to the point where the caller either has its code or was
     switched away from.  The loop goes round again whenever the caller runs next.
     */
    method WaitFinishRound(id: nat) returns (code: Option<int>)
      requires Inv(State()) && Legal(State(), Wait(id))
      modifies this
      ensures State() == Step(old(State()), Wait(id)) && Inv(State())
      ensures code == if id in old(finishTasks) then Some(old(finishTasks[id])) else None
    {
      hide Core, Structure, TopLevel, Books, SleepTask;
      InvParts(State());
      WaitInv(State(), id);
      var current := CurrentTask();
      WaitBooks(tasks.Keys, latestId, waiting, finishWaiter, finishTasks, current, id);
      if id in finishTasks {
        code := Some(finishTasks[id]);
        waiting, deliveries := waiting - {current}, deliveries + [Delivery(id, finishTasks[id])];
        finishTasks := finishTasks - {id};
        return;
      }
      ghost var s := State();
      finishWaiter := finishWaiter[id := current];
      waiting := waiting[current := id];
      CoreFields(s, State());
      Sleep(current);
      code := None;
    }
  }
}
