/**
 Waiting for another task to end: under any interleaving, spurious wakeups included, nobody sleeps
 waiting for a task that is gone, and each exit code is handed over once.
 */
module WaitFinish {
  import opened Scheduler

  ghost predicate Delivered(deliveries: seq<Delivery>, id: nat) {
    exists i :: 0 <= i < |deliveries| && deliveries[i].id == id
  }

  /**
   An ended task's code is either still stored or was handed over, never both; what is stored or was
   handed over is the code the task ended with, and no task's code was handed over twice.
   */
  ghost predicate Codes(exited: map<nat, int>, finished: map<nat, int>, deliveries: seq<Delivery>) {
    && (forall id :: id in exited <==> id in finished || Delivered(deliveries, id))
    && (forall id :: id in finished ==> finished[id] == exited[id] && !Delivered(deliveries, id))
    && (forall i :: 0 <= i < |deliveries| ==>
          deliveries[i].id in exited && deliveries[i].code == exited[deliveries[i].id])
    && (forall i, j :: 0 <= i < j < |deliveries| ==> deliveries[i].id != deliveries[j].id)
  }

  /** Whoever sleeps inside WaitFinish is registered to be woken, and nobody waits for a code already handed over. */
  ghost predicate Sleepers(tasks: map<nat, Task>, waiting: map<nat, nat>, waiter: map<nat, nat>,
                           deliveries: seq<Delivery>) {
    && (forall w :: w in waiting ==> w in tasks && !Delivered(deliveries, waiting[w]))
    && (forall w :: w in waiting && !tasks[w].running ==> waiting[w] in waiter && waiter[waiting[w]] == w)
    && (forall v, w :: v in waiting && w in waiting && waiting[v] == waiting[w] ==> v == w)
  }

  predicate Past(exited: map<nat, int>, tasks: map<nat, Task>, latestId: nat) {
    forall id :: id in exited ==> id !in tasks && id <= latestId
  }

  ghost predicate WaitInv(s: Sched) {
    && Codes(s.exited, s.finished, s.deliveries)
    && Sleepers(s.tasks, s.waiting, s.waiter, s.deliveries)
    && Past(s.exited, s.tasks, s.latestId)
  }

  /**
   The caller's side: nobody else puts a task inside WaitFinish to sleep, and WaitFinish(id) is entered
   only if nobody else waits for id and its code was not handed over already.
   */
  ghost predicate LegalWait(s: Sched, op: Op)
    requires Shape(s)
  {
    && Legal(s, op)
    && (op.Sleep? ==> op.task !in s.waiting)
    && (op.Wait? && Current(s) !in s.waiting ==>
          !Delivered(s.deliveries, op.id) && forall w :: w in s.waiting ==> s.waiting[w] != op.id)
  }

  lemma InitWaitInv()
    ensures WaitInv(Init())
  {
  }

  /** Nothing recorded about waiting, ending and handing over differs. */
  predicate SameBooks(s: Sched, s': Sched) {
    && s'.waiting == s.waiting && s'.waiter == s.waiter && s'.finished == s.finished
    && s'.exited == s.exited && s'.deliveries == s.deliveries
  }

  lemma ChangesLevel(s: Sched, t: nat, level: int)
    requires Shape(s) && t in s.tasks && s.tasks[t].running && level <= MAX_LEVEL
    ensures var s' := ChangeLevelRunning(s, t, level);
            && SameBooks(s, s') && s'.latestId == s.latestId
            && s'.tasks.Keys == s.tasks.Keys && s'.tasks[t].running
            && forall u :: u in s.tasks && u != t ==> s'.tasks[u] == s.tasks[u]
  {
    hide Erased;
    if level < 0 || level == s.tasks[t].level {
    } else if t == Current(s) {
    } else {
    }
  }

  /** Waking a task changes nothing else that matters here. */
  lemma Wakes(s: Sched, t: nat, level: int)
    requires Shape(s) && t in s.tasks && level <= MAX_LEVEL
    ensures var s' := WakeupTask(s, t, level);
            && SameBooks(s, s') && s'.latestId == s.latestId
            && s'.tasks.Keys == s.tasks.Keys && s'.tasks[t].running
            && forall u :: u in s.tasks && u != t ==> s'.tasks[u] == s.tasks[u]
  {
    hide ChangeLevelRunning;
    if s.tasks[t].running {
      ChangesLevel(s, t, level);
    }
  }

  /** Rotation only touches the queues. */
  lemma Rotation(s: Sched, sleep: bool)
    requires Shape(s)
    ensures SameBooks(s, Rotate(s, sleep)) && Rotate(s, sleep).tasks == s.tasks
    ensures Rotate(s, sleep).latestId == s.latestId
  {
  }

  lemma Sleeps(s: Sched, t: nat)
    requires Shape(s) && t in s.tasks
    ensures var s' := SleepTask(s, t);
            SameBooks(s, s') && s'.latestId == s.latestId && s'.tasks == s.tasks[t := s.tasks[t].(running := false)]
  {
    hide Highest, Erased;
    if !s.tasks[t].running {
      assert s.tasks[t := s.tasks[t].(running := false)] == s.tasks;
    } else if t == Current(s) {
    } else {
    }
  }

  lemma Posts(s: Sched, t: nat, m: nat)
    requires Shape(s) && t in s.tasks
    ensures var s' := PostMessage(s, t, m);
            && SameBooks(s, s') && s'.latestId == s.latestId && s'.tasks.Keys == s.tasks.Keys
            && forall u :: u in s.tasks && s.tasks[u].running ==> s'.tasks[u].running
  {
    hide WakeupTask;
    Wakes(s.(tasks := s.tasks[t := s.tasks[t].(msgs := s.tasks[t].msgs + [m])]), t, -1);
  }

  lemma Creates(s: Sched)
    requires Inv(s)
    ensures var s' := AddTask(s);
            && SameBooks(s, s') && s'.latestId == s.latestId + 1 && s'.latestId !in s.tasks
            && forall u :: u in s'.tasks <==> u in s.tasks || u == s'.latestId
    ensures forall u :: u in s.tasks ==> u in AddTask(s).tasks && AddTask(s).tasks[u] == s.tasks[u]
  {
    hide Core;
  }

  /** Everything but a task ending or waiting leaves the books alone, and only Sleep stops a task. */
  lemma Quiet(s: Sched, op: Op)
    requires Inv(s) && Legal(s, op) && !op.Finish? && !op.Wait?
    ensures var s' := Step(s, op);
            && SameBooks(s, s') && s'.latestId >= s.latestId
            && (forall u :: u in s.tasks ==> u in s'.tasks)
            && (forall u :: u in s'.tasks && u !in s.tasks ==> u > s.latestId)
            && (forall u :: u in s.tasks && s.tasks[u].running && op != Sleep(u) ==> s'.tasks[u].running)
  {
    hide Structure, TopLevel, Books, Rotate, SleepTask, WakeupTask, PostMessage, TakeMessage, AddTask;
    match op {
      case Switch => Rotation(s, false);
      case Sleep(t) => Sleeps(s, t);
      case Wakeup(t, level) => Wakes(s, t, level);
      case Send(t, m) => Posts(s, t, m);
      case NewTask => Creates(s);
      case Receive(t) => Receives(s, t);
    }
  }

  lemma Receives(s: Sched, t: nat)
    requires t in s.tasks
    ensures var s' := TakeMessage(s, t);
            && SameBooks(s, s') && s'.latestId == s.latestId && s'.tasks.Keys == s.tasks.Keys
            && forall u :: u in s.tasks ==> s'.tasks[u].running == s.tasks[u].running
  {
  }

  /** The state after the current task ended. */
  lemma Finishes(s: Sched, code: int)
    requires Inv(s) && Legal(s, Finish(code))
    ensures var t := Current(s); var s' := Step(s, Finish(code));
            && t in s.tasks
            && s'.tasks.Keys == s.tasks.Keys - {t} && s'.latestId == s.latestId
            && (forall u :: u in s'.tasks && s.tasks[u].running ==> s'.tasks[u].running)
            && (t in s.waiter ==> s.waiter[t] in s'.tasks && s'.tasks[s.waiter[t]].running)
            && s'.finished == s.finished[t := code] && s'.exited == s.exited[t := code]
            && s'.waiting == s.waiting && s'.waiter == s.waiter - {t} && s'.deliveries == s.deliveries
  {
    hide Structure, TopLevel, Rotate, WakeupTask, Books;
    var t := Current(s);
    CurrentTask(s);
    CanFinish(s);
    Rotation(s, true);
    if t in s.waiter {
      Wakes(Rotate(s, true).(tasks := s.tasks - {t}, finished := s.finished[t := code],
                             exited := s.exited[t := code], waiter := s.waiter - {t}), s.waiter[t], -1);
    } else {
      assert s.waiter - {t} == s.waiter;
    }
  }

  lemma SleepersFinish(tasks: map<nat, Task>, tasks': map<nat, Task>, waiting: map<nat, nat>, waiter: map<nat, nat>,
                       deliveries: seq<Delivery>, t: nat)
    requires Sleepers(tasks, waiting, waiter, deliveries) && t !in waiting
    requires tasks'.Keys == tasks.Keys - {t}
    requires forall u :: u in tasks' && tasks[u].running ==> tasks'[u].running
    requires t in waiter ==> waiter[t] in tasks' && tasks'[waiter[t]].running
    ensures Sleepers(tasks', waiting, waiter - {t}, deliveries)
    ensures forall w :: w in waiting && waiting[w] == t ==> w in tasks' && tasks'[w].running
  {
    hide Delivered;
  }

  /** When a task ends, whoever waits for it is runnable. */
  lemma FinishKeepsWaits(s: Sched, code: int)
    requires Inv(s) && WaitInv(s) && LegalWait(s, Finish(code))
    ensures WaitInv(Step(s, Finish(code)))
    ensures var t := Current(s); var s' := Step(s, Finish(code));
            && t !in s'.tasks && t in s'.finished && s'.finished[t] == code
            && (t in s'.exited && s'.exited == s.exited[t := code])
            && forall w :: w in s.waiting && s.waiting[w] == t ==>
                 w in s'.waiting && w in s'.tasks && s'.tasks[w].running
  {
    hide Structure, TopLevel, Codes, Step, Sleepers, Core;
    InvParts(s);
    var t := Current(s);
    Finishes(s, code);
    var s' := Step(s, Finish(code));
    CodesFinish(s.exited, s.finished, s.deliveries, t, code);
    SleepersFinish(s.tasks, s'.tasks, s.waiting, s.waiter, s.deliveries, t);
  }

  lemma CodesFinish(exited: map<nat, int>, finished: map<nat, int>, deliveries: seq<Delivery>, t: nat, code: int)
    requires Codes(exited, finished, deliveries) && t !in exited
    ensures Codes(exited[t := code], finished[t := code], deliveries)
  {
    hide Delivered;
    assert !Delivered(deliveries, t);
  }

  lemma DeliveredAppend(deliveries: seq<Delivery>, id: nat, code: int)
    ensures forall u :: Delivered(deliveries + [Delivery(id, code)], u) <==> Delivered(deliveries, u) || u == id
  {
    var ds := deliveries + [Delivery(id, code)];
    assert ds[|deliveries|].id == id;
    forall u | Delivered(deliveries, u) ensures Delivered(ds, u) {
      var i :| 0 <= i < |deliveries| && deliveries[i].id == u;
      assert ds[i].id == u;
    }
  }

  lemma CodesDeliver(exited: map<nat, int>, finished: map<nat, int>, deliveries: seq<Delivery>, id: nat)
    requires Codes(exited, finished, deliveries) && id in finished
    ensures Codes(exited, finished - {id}, deliveries + [Delivery(id, finished[id])])
    ensures forall u :: Delivered(deliveries + [Delivery(id, finished[id])], u) <==> Delivered(deliveries, u) || u == id
  {
    DeliveredAppend(deliveries, id, finished[id]);
    forall i | 0 <= i < |deliveries| ensures deliveries[i].id != id {
      assert deliveries[i].id == id ==> Delivered(deliveries, id);
    }
  }

  /** The state after one round of the loop in WaitFinish. */
  lemma Waits(s: Sched, id: nat)
    requires Inv(s) && Legal(s, Wait(id))
    ensures var t := Current(s); var s' := Step(s, Wait(id));
            && t in s.tasks && s.tasks[t].running && s'.latestId == s.latestId && s'.exited == s.exited
            && (id in s.finished ==>
                  && s'.tasks == s.tasks && s'.finished == s.finished - {id} && s'.waiting == s.waiting - {t}
                  && s'.waiter == s.waiter && s'.deliveries == s.deliveries + [Delivery(id, s.finished[id])])
            && (id !in s.finished ==>
                  && s'.tasks == s.tasks[t := s.tasks[t].(running := false)] && s'.finished == s.finished
                  && s'.waiting == s.waiting[t := id] && s'.waiter == s.waiter[id := t]
                      && s'.deliveries == s.deliveries)
  {
    hide Structure, TopLevel, SleepTask, Books;
    CurrentTask(s);
    if id !in s.finished {
      Sleeps(s.(waiter := s.waiter[id := Current(s)], waiting := s.waiting[Current(s) := id]), Current(s));
    }
  }

  lemma SleepersWait(tasks: map<nat, Task>, waiting: map<nat, nat>, waiter: map<nat, nat>,
                     deliveries: seq<Delivery>, deliveries': seq<Delivery>, t: nat, id: nat)
    requires Sleepers(tasks, waiting, waiter, deliveries) && t in tasks
    requires t in waiting ==> waiting[t] == id
    requires t !in waiting ==> !Delivered(deliveries, id) && forall w :: w in waiting ==> waiting[w] != id
    requires forall u :: Delivered(deliveries', u) <==> Delivered(deliveries, u) || u == id
    ensures Sleepers(tasks[t := tasks[t].(running := false)], waiting[t := id], waiter[id := t], deliveries)
    ensures Sleepers(tasks, waiting - {t}, waiter, deliveries')
  {
    hide Delivered;
  }

  lemma WaitKeepsWaits(s: Sched, id: nat)
    requires Inv(s) && WaitInv(s) && LegalWait(s, Wait(id))
    ensures WaitInv(Step(s, Wait(id)))
    ensures id in s.finished ==>
              id in s.exited && Step(s, Wait(id)).deliveries == s.deliveries + [Delivery(id, s.exited[id])]
    ensures id !in s.finished ==> Step(s, Wait(id)).deliveries == s.deliveries
  {
    hide Structure, TopLevel, Step, Sleepers, Core, Delivered;
    InvParts(s);
    Waits(s, id);
    var taken := s.deliveries + [Delivery(id, 0)];
    if id in s.finished {
      CodesDeliver(s.exited, s.finished, s.deliveries, id);
      taken := s.deliveries + [Delivery(id, s.finished[id])];
    } else {
      DeliveredAppend(s.deliveries, id, 0);
    }
    SleepersWait(s.tasks, s.waiting, s.waiter, s.deliveries, taken, Current(s), id);
  }

  lemma QuietKeepsWaits(s: Sched, s': Sched)
    requires WaitInv(s) && SameBooks(s, s') && s'.latestId >= s.latestId
    requires forall u :: u in s.tasks ==> u in s'.tasks
    requires forall u :: u in s'.tasks && u !in s.tasks ==> u > s.latestId
    requires forall u :: u in s.waiting && u in s.tasks && s.tasks[u].running ==> s'.tasks[u].running
    ensures WaitInv(s')
  {
    hide Codes, Delivered;
  }

  lemma StepWaitInv(s: Sched, op: Op)
    requires Inv(s) && WaitInv(s) && LegalWait(s, op)
    ensures WaitInv(Step(s, op))
  {
    hide Structure, TopLevel, Codes, Step, Sleepers, Core, Past, Books;
    match op
    case Finish(code) => FinishKeepsWaits(s, code);
    case Wait(id) => WaitKeepsWaits(s, id);
    case _ =>
      Quiet(s, op);
      QuietKeepsWaits(s, Step(s, op));
  }

  ghost predicate LegalWaitRun(s: Sched, ops: seq<Op>)
    requires Inv(s)
    decreases |ops|
  {
    ops == [] || (LegalWait(s, ops[0]) && StepIsInv(s, ops[0]) && LegalWaitRun(Step(s, ops[0]), ops[1..]))
  }

  /**
   After any run from the initial state: nobody sleeps waiting for a task that has ended; every task
   registered as a waiter is alive and inside WaitFinish; each code handed over is the one the task
   ended with, and no task's code is handed over twice or lost while still unclaimed.
   */
  lemma {:induction false} NoLostFinish(s0: Sched, ops: seq<Op>)
    requires Inv(s0) && WaitInv(s0) && LegalWaitRun(s0, ops)
    ensures LegalRun(s0, ops)
    ensures var s := Exec(s0, ops);
            && WaitInv(s)
            && (forall w :: w in s.waiting && w in s.tasks && !s.tasks[w].running ==> s.waiting[w] !in s.exited)
            && (forall id :: id in s.waiter ==> s.waiter[id] in s.tasks && s.waiter[id] in s.waiting)
            && Codes(s.exited, s.finished, s.deliveries)
    decreases |ops|
  {
    hide Core, Codes, Delivered, Step, Past;
    if ops != [] {
      StepWaitInv(s0, ops[0]);
      NoLostFinish(Step(s0, ops[0]), ops[1..]);
    } else {
      SleepersWaitForTheLiving(s0);
    }
  }

  ghost predicate LegalFromInit(ops: seq<Op>) {
    InitInv();
    LegalWaitRun(Init(), ops)
  }

  /** The same from the manager's first state on, in which nobody waits and nothing was handed over. */
  lemma NoLostFinishFromInit(ops: seq<Op>)
    requires LegalFromInit(ops)
    ensures Inv(Init()) && LegalRun(Init(), ops)
    ensures var s := Exec(Init(), ops);
            && (forall w :: w in s.waiting && w in s.tasks && !s.tasks[w].running ==> s.waiting[w] !in s.exited)
            && (forall id :: id in s.waiter ==> s.waiter[id] in s.tasks && s.waiter[id] in s.waiting)
            && Codes(s.exited, s.finished, s.deliveries)
  {
    hide Inv, WaitInv, Codes, Init;
    InitInv();
    InitWaitInv();
    NoLostFinish(Init(), ops);
  }

  lemma SleepersWaitForTheLiving(s: Sched)
    requires Inv(s) && WaitInv(s)
    ensures forall w :: w in s.waiting && w in s.tasks && !s.tasks[w].running ==> s.waiting[w] !in s.exited
  {
    hide Core, Delivered;
  }

  /**
   The end of a task reaches its waiter: whoever waits for the current task is runnable after it ends,
   and as long as it does not run, whatever else happens, it stays runnable and the code stays stored.
   */
  lemma {:induction false} FinishReachesWaiter(s: Sched, ops: seq<Op>, w: nat, id: nat)
    requires Inv(s) && WaitInv(s) && LegalWaitRun(s, ops)
    requires w in s.waiting && s.waiting[w] == id && id in s.finished && w in s.tasks && s.tasks[w].running
    requires NotRunBy(s, ops, w)
    ensures LegalRun(s, ops)
    ensures var s' := Exec(s, ops);
            && w in s'.waiting && s'.waiting[w] == id && w in s'.tasks && s'.tasks[w].running
            && id in s'.finished && s'.finished[id] == s.finished[id]
    decreases |ops|
  {
    hide Core, Codes, Delivered, Step, Past;
    if ops != [] {
      var s' := Step(s, ops[0]);
      StepWaitInv(s, ops[0]);
      StaysReady(s, ops[0], w, id);
      FinishReachesWaiter(s', ops[1..], w, id);
    }
  }

  /** No operation of the run is made by w. */
  ghost predicate NotRunBy(s: Sched, ops: seq<Op>, w: nat)
    requires Inv(s) && LegalWaitRun(s, ops)
    decreases |ops|
  {
    ops == [] || ((ops[0].Wait? || ops[0].Finish? ==> Current(s) != w) && NotRunBy(Step(s, ops[0]), ops[1..], w))
  }

  lemma StaysReady(s: Sched, op: Op, w: nat, id: nat)
    requires Inv(s) && WaitInv(s) && LegalWait(s, op)
    requires w in s.waiting && s.waiting[w] == id && id in s.finished && w in s.tasks && s.tasks[w].running
    requires op.Wait? || op.Finish? ==> Current(s) != w
    ensures var s' := Step(s, op);
            && w in s'.waiting && s'.waiting[w] == id && w in s'.tasks && s'.tasks[w].running
            && id in s'.finished && s'.finished[id] == s.finished[id]
  {
    hide Structure, TopLevel, Codes, Delivered, Step, Core;
    match op {
      case Finish(code) => Finishes(s, code);
      case Wait(other) => Waits(s, other);
      case _ => Quiet(s, op);
    }
  }

  /**
   Why there may be only one waiter for each task: a second one takes the first one's registration,
   so the first sleeps on when the task ends.
   */
  lemma SecondWaiterStrandsTheFirst(s: Sched, w: nat, id: nat)
    requires Inv(s) && Legal(s, Wait(id)) && id !in s.finished
    requires w in s.waiting && s.waiting[w] == id && w != Current(s) && w in s.tasks && !s.tasks[w].running
    ensures var s' := Step(s, Wait(id));
            && w in s'.waiting && w in s'.tasks && !s'.tasks[w].running
            && forall other :: other in s'.waiter && s'.waiter[other] == w ==> other != id
  {
    hide Structure, TopLevel, Books, Step;
    Waits(s, id);
  }
}
