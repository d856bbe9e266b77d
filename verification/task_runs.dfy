/** Whole runs of the task manager, and what its tasks receive. */
module TaskRuns {
  import opened Errors
  import opened Scheduler
  import opened Messages
  import opened Tasks

  /** Any operation of the manager is a step of the machine; the answer is that of ReceiveMessage. */
  method Perform(manager: TaskManager, op: Op) returns (answer: Option<nat>)
    requires Inv(manager.State()) && Legal(manager.State(), op)
    modifies manager
    ensures manager.State() == Step(old(manager.State()), op) && Inv(manager.State())
    ensures op.Receive? ==>
      var queue := QueueOf(old(manager.State()), op.task);
      answer == if queue == [] then None else Some(queue[0])
  {
    hide Core, Structure, TopLevel, Books, Rotate, WakeupTask, SleepTask, FinishCurrent, WaitRound;
    answer := None;
    match op {
      case NewTask => var _ := manager.NewTask();
      case Switch => manager.SwitchTask();
      case Sleep(t) => manager.Sleep(t);
      case Wakeup(t, level) => manager.Wakeup(t, level);
      case Send(t, msg) => var _ := manager.SendMessage(t, msg);
      case Receive(t) => answer := manager.ReceiveMessage(t);
      case Finish(code) => manager.Finish(code);
      case Wait(id) => var _ := manager.WaitFinishRound(id);
    }
  }

  /**
   Any run of the manager, with the messages one task receives in it: together with its queue at the end they are
   its queue at the beginning and the messages sent to it, in the order they were sent.
   */
  method Run(manager: TaskManager, ops: seq<Op>, t: nat) returns (received: seq<nat>)
    requires Inv(manager.State()) && LegalRun(manager.State(), ops)
    modifies manager
    ensures Inv(manager.State()) && manager.State() == Exec(old(manager.State()), ops)
    ensures received == ReceivedBy(old(manager.State()), ops, t)
    ensures t in manager.tasks ==>
      QueueOf(old(manager.State()), t) + SentTo(ops, t) == received + manager.tasks[t].msgs
  {
    hide Legal, Step, Inv, QueueOf;
    ghost var s := manager.State();
    received := [];
    var i := 0;
    while i < |ops|
      invariant 0 <= i <= |ops| && Inv(manager.State()) && LegalRun(manager.State(), ops[i..])
      invariant Exec(manager.State(), ops[i..]) == Exec(s, ops)
      invariant received + ReceivedBy(manager.State(), ops[i..], t) == ReceivedBy(s, ops, t)
    {
      assert ops[i..][0] == ops[i] && ops[i..][1..] == ops[i + 1..];
      ghost var before := manager.State();
      var answer := Perform(manager, ops[i]);
      ghost var received0 := received;
      if ops[i] == Receive(t) && answer.Some? {
        received := received + [answer.value];
      }
      OneMore(before, ops[i..], t, received0, received);
      i := i + 1;
    }
    assert ops[i..] == [];
    if t in manager.tasks {
      ReceivedInOrder(s, ops, t);
      QueueIs(manager.State(), t);
    }
  }

  lemma OneMore(s: Sched, ops: seq<Op>, t: nat, received: seq<nat>, received': seq<nat>)
    requires Inv(s) && ops != [] && LegalRun(s, ops)
    requires received' == received +
      if ops[0] == Receive(t) && QueueOf(s, t) != [] then [QueueOf(s, t)[0]] else []
    ensures received' + ReceivedBy(Step(s, ops[0]), ops[1..], t) == received + ReceivedBy(s, ops, t)
  {
    hide Legal, Step, Inv, QueueOf;
  }

  lemma QueueIs(s: Sched, t: nat)
    requires t in s.tasks
    ensures QueueOf(s, t) == s.tasks[t].msgs
  {
  }
}
