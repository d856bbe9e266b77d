/** Messages: over any run each live task receives what was sent to it, in order, or it is still queued. */
module Messages {
  import opened Scheduler

  /** What was sent to a task, in the order it was sent. */
  function SentTo(ops: seq<Op>, t: nat): seq<nat> {
    if ops == [] then []
    else (if ops[0].Send? && ops[0].task == t then [ops[0].msg] else []) + SentTo(ops[1..], t)
  }

  function QueueOf(s: Sched, t: nat): seq<nat> {
    if t in s.tasks then s.tasks[t].msgs else []
  }

  /** What the task's own calls to ReceiveMessage answered, in the order of the calls. */
  function ReceivedBy(s: Sched, ops: seq<Op>, t: nat): seq<nat>
    requires Inv(s) && LegalRun(s, ops)
    decreases |ops|
  {
    if ops == [] then []
    else
      (if ops[0] == Receive(t) && QueueOf(s, t) != [] then [QueueOf(s, t)[0]] else [])
      + ReceivedBy(Step(s, ops[0]), ops[1..], t)
  }

  /** The same tasks with the same queues. */
  ghost predicate SameQueues(s: Sched, s': Sched) {
    && s'.latestId == s.latestId && s'.tasks.Keys == s.tasks.Keys
    && forall t :: t in s.tasks ==> s'.tasks[t].msgs == s.tasks[t].msgs
  }

  /** A change of level is about one task's level, and the queues. */
  lemma ChangeTasks(s: Sched, u: nat, level: int)
    requires Shape(s) && u in s.tasks && level <= MAX_LEVEL
    ensures var s' := Scheduler.ChangeLevelRunning(s, u, level);
            && s'.latestId == s.latestId
            && s'.tasks == if level < 0 then s.tasks else s.tasks[u := s.tasks[u].(level := level)]
  {
    hide Erased;
    if 0 <= level == s.tasks[u].level {
      assert s.tasks[u].(level := level) == s.tasks[u];
      assert s.tasks[u := s.tasks[u]] == s.tasks;
    } else if level >= 0 {
      assert SetLevel(s, u, level).tasks == s.tasks[u := s.tasks[u].(level := level)];
    }
  }

  lemma ChangeKeeps(s: Sched, u: nat, level: int)
    requires Shape(s) && u in s.tasks && level <= MAX_LEVEL
    ensures SameQueues(s, Scheduler.ChangeLevelRunning(s, u, level))
  {
    hide Scheduler.ChangeLevelRunning;
    ChangeTasks(s, u, level);
  }

  lemma WakeupKeeps(s: Sched, u: nat, level: int)
    requires Shape(s) && u in s.tasks && level <= MAX_LEVEL
    ensures SameQueues(s, WakeupTask(s, u, level))
  {
    hide Scheduler.ChangeLevelRunning;
    ChangeKeeps(s, u, level);
  }

  lemma RotateKeepsTasks(s: Sched, sleep: bool)
    requires Shape(s)
    ensures Rotate(s, sleep).tasks == s.tasks && Rotate(s, sleep).waiter == s.waiter
    ensures Rotate(s, sleep).latestId == s.latestId
  {
    hide Highest;
  }

  lemma SleepKeeps(s: Sched, u: nat)
    requires Shape(s) && u in s.tasks
    ensures SameQueues(s, SleepTask(s, u))
  {
    hide Rotate, Erased;
    if s.tasks[u].running {
      RotateKeepsTasks(SetRunning(s, u, false), true);
    }
  }

  lemma EndKeeps(s: Sched, code: int)
    requires Inv(s) && Legal(s, Op.Finish(code))
    ensures SameQueues(s.(tasks := s.tasks - {Current(s)}), Step(s, Op.Finish(code)))
  {
    hide Rotate, WakeupTask, Core, Books;
    InvParts(s);
    CanFinish(s);
    RotateKeepsTasks(s, true);
    var c := Current(s);
    var s1 := Rotate(s, true);
    var s2 := s1.(tasks := s1.tasks - {c}, finished := s1.finished[c := code], exited := s1.exited[c := code]);
    if c in s.waiter {
      WakeupKeeps(s2.(waiter := s2.waiter - {c}), s.waiter[c], -1);
    }
  }

  lemma WaitKeeps(s: Sched, id: nat)
    requires Inv(s) && Legal(s, Wait(id))
    ensures SameQueues(s, Step(s, Wait(id)))
  {
    hide SleepTask, Core, Books;
    InvParts(s);
    CurrentTask(s);
    if id !in s.finished {
      SleepKeeps(s.(waiter := s.waiter[id := Current(s)], waiting := s.waiting[Current(s) := id]), Current(s));
    }
  }

  lemma NewIsNew(s: Sched)
    requires Inv(s)
    ensures s.latestId + 1 !in s.tasks && forall t :: t in s.tasks ==> t <= s.latestId
  {
    hide Core;
  }

  lemma ReceiveKeeps(s: Sched, u: nat, t: nat)
    requires u in s.tasks
    ensures var s' := TakeMessage(s, u);
      && s'.latestId == s.latestId && s'.tasks.Keys == s.tasks.Keys
      && QueueOf(s, t) == (if t == u && QueueOf(s, t) != [] then [QueueOf(s, t)[0]] else []) + QueueOf(s', t)
      && (t == u && QueueOf(s, t) == [] ==> QueueOf(s', t) == [])
  {
    var q := s.tasks[u].msgs;
    if q != [] {
      assert q == [q[0]] + q[1..];
    } else {
      assert q == [] + q;
    }
  }

  /** Only a message sent to a task joins its queue, at the end, and only its receiving takes one away, the first. */
  lemma QueueAfter(s: Sched, op: Op, t: nat)
    requires Inv(s) && Legal(s, op) && t in Step(s, op).tasks
    ensures op.Send? && op.task == t ==> QueueOf(Step(s, op), t) == QueueOf(s, t) + [op.msg]
    ensures op == Receive(t) && QueueOf(s, t) != [] ==> QueueOf(s, t) == [QueueOf(s, t)[0]] + QueueOf(Step(s, op), t)
    ensures op == Receive(t) && QueueOf(s, t) == [] ==> QueueOf(Step(s, op), t) == []
    ensures op != Receive(t) && !(op.Send? && op.task == t) ==> QueueOf(Step(s, op), t) == QueueOf(s, t)
    ensures t in s.tasks || (op.NewTask? && t == s.latestId + 1 && QueueOf(Step(s, op), t) == [])
    ensures s.latestId <= Step(s, op).latestId
  {
    hide Rotate, WakeupTask, SleepTask, Core, Books, WaitRound, FinishCurrent, Highest, TakeMessage;
    InvParts(s);
    NewIsNew(s);
    match op {
      case NewTask =>
      case Switch => RotateKeepsTasks(s, false);
      case Sleep(u) => SleepKeeps(s, u);
      case Wakeup(u, level) => WakeupKeeps(s, u, level);
      case Send(u, m) =>
        WakeupKeeps(s.(tasks := s.tasks[u := s.tasks[u].(msgs := s.tasks[u].msgs + [m])]), u, -1);
      case Receive(u) => ReceiveKeeps(s, u, t);
      case Finish(code) => EndKeeps(s, code);
      case Wait(id) => WaitKeeps(s, id);
    }
  }

  lemma EndedStays(s: Sched, ops: seq<Op>, t: nat)
    requires Inv(s) && LegalRun(s, ops) && t !in s.tasks && t <= s.latestId
    ensures t !in Exec(s, ops).tasks
    decreases |ops|
  {
    hide Legal, Step, Inv;
    if ops != [] {
      var s' := Step(s, ops[0]);
      if t in s'.tasks {
        QueueAfter(s, ops[0], t);
      }
      LatestGrows(s, ops[0]);
      EndedStays(s', ops[1..], t);
    }
  }

  lemma LatestGrows(s: Sched, op: Op)
    requires Inv(s) && Legal(s, op)
    ensures s.latestId <= Step(s, op).latestId
  {
    hide Rotate, WakeupTask, SleepTask, Books, WaitRound, Structure, TopLevel, FinishCurrent;
    StepInv(s, op);
    var s' := Step(s, op);
    IdleLives(s');
    QueueAfter(s, op, IDLE);
  }

  lemma IdleLives(s: Sched)
    requires Inv(s)
    ensures IDLE in s.tasks
  {
  }

  lemma NotSentBefore(s: Sched, op: Op, t: nat)
    requires Shape(s) && Legal(s, op) && t !in s.tasks
    ensures !(op.Send? && op.task == t) && op != Receive(t)
  {
  }

  /**
   Any run: what a live task had in its queue and what was sent to it since is what it received followed by what is
   in its queue now, in this order.
   */
  lemma {:induction false} ReceivedInOrder(s: Sched, ops: seq<Op>, t: nat)
    requires Inv(s) && LegalRun(s, ops) && t in Exec(s, ops).tasks
    ensures QueueOf(s, t) + SentTo(ops, t) == ReceivedBy(s, ops, t) + QueueOf(Exec(s, ops), t)
    decreases |ops|
  {
    hide Legal, Step, Inv;
    if ops != [] {
      var s' := Step(s, ops[0]);
      ReceivedInOrder(s', ops[1..], t);
      if t in s'.tasks {
        QueueAfter(s, ops[0], t);
        var sent := if ops[0].Send? && ops[0].task == t then [ops[0].msg] else [];
        var received := if ops[0] == Receive(t) && QueueOf(s, t) != [] then [QueueOf(s, t)[0]] else [];
        assert QueueOf(s, t) + sent == received + QueueOf(s', t);
        Chained(QueueOf(s, t), sent, received, QueueOf(s', t), SentTo(ops[1..], t), ReceivedBy(s', ops[1..], t),
                QueueOf(Exec(s', ops[1..]), t));
      } else if t in s.tasks {
        LatestGrows(s, ops[0]);
        LiveIsOld(s, t);
        EndedStays(s', ops[1..], t);
      } else {
        InvShape(s);
        NotSentBefore(s, ops[0], t);
      }
    }
  }

  lemma Chained(q: seq<nat>, sent: seq<nat>, received: seq<nat>, q': seq<nat>, s: seq<nat>, r: seq<nat>, q'': seq<nat>)
    requires q + sent == received + q' && q' + s == r + q''
    ensures q + (sent + s) == received + r + q''
  {
    assert q + (sent + s) == q + sent + s;
    assert received + (q' + s) == received + q' + s;
    assert received + (r + q'') == received + r + q'';
  }

  lemma InvShape(s: Sched)
    requires Inv(s)
    ensures Shape(s)
  {
  }

  lemma LiveIsOld(s: Sched, t: nat)
    requires Inv(s) && t in s.tasks
    ensures t <= s.latestId
  {
  }
}
