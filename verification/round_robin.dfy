/** Round robin: while a level stays current, a task p places behind the front runs after at most p rotations. */
module RoundRobin {
  import opened Scheduler

  function Place(q: seq<nat>, t: nat): (p: nat)
    requires t in q
    ensures p < |q| && q[p] == t
  {
    if q[0] == t then 0 else 1 + Place(q[1..], t)
  }

  lemma {:induction false} PlaceErased(q: seq<nat>, u: nat, t: nat)
    requires t in q && t != u
    ensures t in Erased(q, u) && Place(Erased(q, u), t) <= Place(q, t)
  {
    if q[0] == u {
      PlaceErased(q[1..], u, t);
    } else if q[0] != t {
      PlaceErased(q[1..], u, t);
      assert Erased(q, u)[1..] == Erased(q[1..], u);
    }
  }

  lemma {:induction false} PlaceAppend(q: seq<nat>, r: seq<nat>, t: nat)
    requires t in q
    ensures Place(q + r, t) == Place(q, t)
  {
    if q[0] != t {
      assert (q + r)[1..] == q[1..] + r;
      PlaceAppend(q[1..], r, t);
    }
  }

  /** How the current queue can change in one operation that leaves its level current. */
  ghost predicate QueueStep(q: seq<nat>, q': seq<nat>, rotates: bool)
    requires q != []
  {
    if rotates then q' == q[1..] || exists u :: Appended(q[1..], q', u)
    else q' == q || (exists u :: q' == Erased(q, u)) || exists u :: Appended(q, q', u)
  }

  predicate Appended(q: seq<nat>, q': seq<nat>, u: nat) {
    q' == q + [u]
  }

  lemma QueueStepPlace(q: seq<nat>, q': seq<nat>, rotates: bool, t: nat)
    requires q != [] && QueueStep(q, q', rotates) && t in q && t in q' && q[0] != t
    ensures Place(q', t) <= Place(q, t) - (if rotates then 1 else 0)
  {
    if rotates {
      if q' != q[1..] {
        var u :| Appended(q[1..], q', u);
        PlaceAppend(q[1..], [u], t);
      }
    } else if q' != q {
      if u :| q' == Erased(q, u) {
        PlaceErased(q, u, t);
      } else {
        var u :| Appended(q, q', u);
        PlaceAppend(q, [u], t);
      }
    }
  }

  lemma RotateQueue(s: Sched, sleep: bool)
    requires Core(s) && Shape(Rotate(s, sleep)) && Rotate(s, sleep).currentLevel == s.currentLevel
    ensures QueueStep(s.queues[s.currentLevel], Rotate(s, sleep).queues[s.currentLevel], true)
  {
    var q := s.queues[s.currentLevel];
    assert q[1..] + [] == q[1..];
    assert Appended(q[1..], q[1..] + [q[0]], q[0]);
  }

  lemma WakeQueue(s: Sched, t: nat, level: int)
    requires Core(s) && t in s.tasks && level <= MAX_LEVEL
    requires WakeupTask(s, t, level).currentLevel == s.currentLevel
    ensures |WakeupTask(s, t, level).queues| == MAX_LEVEL + 1
    ensures QueueStep(s.queues[s.currentLevel], WakeupTask(s, t, level).queues[s.currentLevel], false)
  {
    hide Structure;
    CurrentTask(s);
    LevelsInRange(s, t);
    var q := s.queues[s.currentLevel];
    assert Appended(q, q + [t], t);
    if s.tasks[t].running && 0 <= level != s.tasks[t].level && s.tasks[t].level == s.currentLevel && t != Current(s) {
      assert WakeupTask(s, t, level).queues[s.currentLevel] == Erased(q, t);
    }
  }

  lemma FinishQueue(s: Sched, code: int)
    requires Inv(s) && Legal(s, Finish(code)) && Step(s, Finish(code)).currentLevel == s.currentLevel
    ensures |Step(s, Finish(code)).queues| == MAX_LEVEL + 1
    ensures QueueStep(s.queues[s.currentLevel], Step(s, Finish(code)).queues[s.currentLevel], true)
  {
    hide Structure, Books, TopLevel, WakeupTask, QueueStep;
    var t := Current(s);
    CanFinish(s);
    CurrentTask(s);
    LeaveCore(s, s.tasks - {t});
    LeaveQueue(s);
    var q := s.queues[s.currentLevel];
    PoppedQueue(q);
    if t in s.waiter {
      var w := s.waiter[t];
      var s2 := Rotate(s, true).(tasks := s.tasks - {t}, finished := s.finished[t := code],
                                 exited := s.exited[t := code], waiter := s.waiter - {t});
      WokenQueue(s2, w);
      PoppedWokenQueue(q, w);
    }
  }

  lemma PoppedQueue(q: seq<nat>)
    requires q != []
    ensures QueueStep(q, q[1..], true)
  {
  }

  lemma PoppedWokenQueue(q: seq<nat>, w: nat)
    requires q != []
    ensures QueueStep(q, q[1..] + [w], true)
  {
    assert Appended(q[1..], q[1..] + [w], w);
  }

  /** Waking a task without naming a level appends it to its queue, or does nothing. */
  lemma WokenQueue(s: Sched, w: nat)
    requires Shape(s) && w in s.tasks
    ensures var s' := WakeupTask(s, w, -1);
            && s'.currentLevel == s.currentLevel && |s'.queues| == MAX_LEVEL + 1
            && forall l :: 0 <= l <= MAX_LEVEL ==> s'.queues[l] == s.queues[l] || s'.queues[l] == s.queues[l] + [w]
  {
  }

  lemma LeaveQueue(s: Sched)
    requires Shape(s)
    ensures var s1 := Rotate(s, true);
            s1.queues == s.queues[s.currentLevel := s.queues[s.currentLevel][1..]] && s1.tasks == s.tasks
  {
    assert s.queues[s.currentLevel][1..] + [] == s.queues[s.currentLevel][1..];
  }

  lemma StepQueue(s: Sched, op: Op)
    requires Inv(s) && Legal(s, op) && Step(s, op).currentLevel == s.currentLevel
    ensures |Step(s, op).queues| == MAX_LEVEL + 1
    ensures QueueStep(s.queues[s.currentLevel], Step(s, op).queues[s.currentLevel], Rotates(s, op))
  {
    hide Structure, Books, QueueStep;
    StepInv(s, op);
    CurrentTask(s);
    match op
    case NewTask => SameQueue(s.queues[s.currentLevel]);
    case Switch => RotateQueue(s, false);
    case Sleep(t) => SleepQueue(s, t);
    case Wakeup(t, level) => WakeQueue(s, t, level);
    case Send(t, m) =>
      SetMsgsInv(s, t, s.tasks[t].msgs + [m]);
      WakeQueue(s.(tasks := s.tasks[t := s.tasks[t].(msgs := s.tasks[t].msgs + [m])]), t, -1);
    case Receive(t) => SameQueue(s.queues[s.currentLevel]);
    case Finish(code) => FinishQueue(s, code);
    case Wait(id) =>
      if id in s.finished {
        SameQueue(s.queues[s.currentLevel]);
      } else {
        var t := Current(s);
        var s1 := s.(waiter := s.waiter[id := t], waiting := s.waiting[t := id]);
        CoreFields(s, s1);
        SleepQueue(s1, t);
      }
  }

  lemma SameQueue(q: seq<nat>)
    requires q != []
    ensures QueueStep(q, q, false)
  {
  }

  lemma SleepQueue(s: Sched, t: nat)
    requires Core(s) && t in s.tasks && t != IDLE && SleepTask(s, t).currentLevel == s.currentLevel
    ensures |SleepTask(s, t).queues| == MAX_LEVEL + 1
    ensures QueueStep(s.queues[s.currentLevel], SleepTask(s, t).queues[s.currentLevel],
                      t == Current(s) && s.tasks[t].running)
  {
    hide Structure;
    CurrentTask(s);
    LevelsInRange(s, t);
    var q := s.queues[s.currentLevel];
    assert q[1..] + [] == q[1..];
  }

  /** Level lv stays current, and t stays in its queue, throughout a run. */
  predicate Stays(s: Sched, ops: seq<Op>, t: nat, lv: nat)
    requires Inv(s) && LegalRun(s, ops)
    decreases |ops|
  {
    && s.currentLevel == lv && t in s.queues[lv]
    && (ops == [] || Stays(Step(s, ops[0]), ops[1..], t, lv))
  }

  function Rotations(s: Sched, ops: seq<Op>): nat
    requires Inv(s) && LegalRun(s, ops)
    decreases |ops|
  {
    if ops == [] then 0
    else (if Rotates(s, ops[0]) then 1 else 0) + Rotations(Step(s, ops[0]), ops[1..])
  }

  /** Some state of the run, at most k rotations from its start, has t running. */
  predicate RunsWithin(s: Sched, ops: seq<Op>, t: nat, k: nat)
    requires Inv(s) && LegalRun(s, ops)
    decreases |ops|
  {
    Current(s) == t || (ops != [] &&
      var r := if Rotates(s, ops[0]) then 1 else 0;
      r <= k && RunsWithin(Step(s, ops[0]), ops[1..], t, k - r))
  }

  /**
   If the level of t stays current and the run rotates at least as often as there are tasks ahead of t,
   then t gets to run after at most that many rotations.
   */
  lemma {:induction false} RunsInTurn(s: Sched, ops: seq<Op>, t: nat, lv: nat)
    requires Inv(s) && LegalRun(s, ops) && Stays(s, ops, t, lv)
    requires Rotations(s, ops) >= Place(s.queues[lv], t)
    ensures RunsWithin(s, ops, t, Place(s.queues[lv], t))
    decreases |ops|
  {
    hide Core, Books, Step;
    InvParts(s);
    if Current(s) != t {
      var s' := Step(s, ops[0]);
      InvParts(s');
      StepQueue(s, ops[0]);
      QueueStepPlace(s.queues[lv], s'.queues[lv], Rotates(s, ops[0]), t);
      RunsInTurn(s', ops[1..], t, lv);
      RunsWithinMono(s', ops[1..], t, Place(s'.queues[lv], t),
                     Place(s.queues[lv], t) - (if Rotates(s, ops[0]) then 1 else 0));
    }
  }

  lemma {:induction false} RunsWithinMono(s: Sched, ops: seq<Op>, t: nat, k: nat, k': nat)
    requires Inv(s) && LegalRun(s, ops) && RunsWithin(s, ops, t, k) && k <= k'
    ensures RunsWithin(s, ops, t, k')
    decreases |ops|
  {
    hide Core, Books, Step;
    InvParts(s);
    if Current(s) != t {
      var r := if Rotates(s, ops[0]) then 1 else 0;
      RunsWithinMono(Step(s, ops[0]), ops[1..], t, k - r, k' - r);
    }
  }
}
