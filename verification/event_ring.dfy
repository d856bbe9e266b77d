/**
 The event ring, on which the controller is the producer: one segment, no link, and the driver's own cycle
 bit tells a new event from an old one (xHCI specification, section 4.9.4).
 */
module EventRing {
  import opened Errors
  import opened Ring

  /**
   The segment, the controller's enqueue position and cycle bit, the driver's dequeue position and cycle bit,
   and the events posted and popped, without cycle bits.
   */
  datatype Events = Events(
    buf: seq<Trb>, enqueue: nat, producerCycle: bool, dequeue: nat, consumerCycle: bool,
    posted: seq<Trb>, popped: seq<Trb>)

  function Empty(size: nat): Events {
    Events(seq(size, _ => Trb(0, 0, 0, 0)), 0, true, 0, true, [], [])
  }

  /** The controller posts an event; it keeps one slot free, as it can tell from the dequeue register. */
  function Posted(s: Events, event: Trb): Events
    requires s.enqueue < |s.buf|
  {
    var s1 := s.(buf := s.buf[s.enqueue := Published(event, s.producerCycle)],
                 posted := s.posted + [Published(event, false)]);
    if s.enqueue + 1 == |s.buf| then s1.(enqueue := 0, producerCycle := !s.producerCycle)
    else s1.(enqueue := s.enqueue + 1)
  }

  predicate HasRoom(s: Events) {
    |s.posted| - |s.popped| < |s.buf| - 1
  }

  function Popped(s: Events): Events
    requires s.dequeue < |s.buf|
  {
    var s1 := s.(popped := s.popped + [Published(s.buf[s.dequeue], false)]);
    if s.dequeue + 1 == |s.buf| then s1.(dequeue := 0, consumerCycle := !s.consumerCycle)
    else s1.(dequeue := s.dequeue + 1)
  }

  /** The slots from `from` to `to` hold posted[at..], with this cycle bit. */
  predicate HoldsEvents(buf: seq<Trb>, from: nat, to: nat, cycle: bool, posted: seq<Trb>, at: nat) {
    && from <= to <= |buf| && at + (to - from) <= |posted|
    && forall i :: from <= i < to ==> buf[i] == Published(posted[at + i - from], cycle)
  }

  predicate EventsInv(s: Events) {
    && s.enqueue < |s.buf| && s.dequeue < |s.buf| && s.popped <= s.posted
    && (forall i :: 0 <= i < |s.posted| ==> !Cycle(s.posted[i]))
    && if s.producerCycle == s.consumerCycle then
         && s.dequeue <= s.enqueue && |s.posted| - |s.popped| == s.enqueue - s.dequeue
         && HoldsEvents(s.buf, s.dequeue, s.enqueue, s.producerCycle, s.posted, |s.popped|)
         && CyclesAre(s.buf, 0, s.dequeue, s.producerCycle) && CyclesAre(s.buf, s.enqueue, |s.buf|, !s.producerCycle)
       else
         && s.enqueue < s.dequeue && |s.posted| - |s.popped| == |s.buf| - s.dequeue + s.enqueue
         && HoldsEvents(s.buf, s.dequeue, |s.buf|, s.consumerCycle, s.posted, |s.popped|)
         && HoldsEvents(s.buf, 0, s.enqueue, s.producerCycle, s.posted, |s.popped| + (|s.buf| - s.dequeue))
         && CyclesAre(s.buf, s.enqueue, s.dequeue, s.consumerCycle)
  }

  lemma EmptyInv(size: nat)
    requires size > 0
    ensures EventsInv(Empty(size))
  {
  }

  lemma PostInv(s: Events, event: Trb)
    requires EventsInv(s) && HasRoom(s)
    ensures EventsInv(Posted(s, event))
  {
    hide TypeOf, Cycle, Published;
    Republished(event, false, s.producerCycle);
  }

  /** The driver sees an event exactly if there is one, and it is the oldest that was not popped. */
  lemma FrontIsNext(s: Events)
    requires EventsInv(s)
    ensures Cycle(s.buf[s.dequeue]) == s.consumerCycle <==> |s.popped| < |s.posted|
    ensures |s.popped| < |s.posted| ==> Published(s.buf[s.dequeue], false) == s.posted[|s.popped|]
  {
    hide TypeOf, Cycle, Published;
    if |s.popped| < |s.posted| {
      Republished(s.posted[|s.popped|], s.consumerCycle, false);
      Republished(s.posted[|s.popped|], false, false);
    }
  }

  lemma PopInv(s: Events)
    requires EventsInv(s) && |s.popped| < |s.posted|
    ensures EventsInv(Popped(s))
  {
    hide TypeOf, Cycle, Published;
    FrontIsNext(s);
    assert Popped(s).popped <= s.posted;
  }

  // ----- Any run, against a plain queue -----

  /** The controller posts an event, or the driver looks for one and takes it if there is one. */
  datatype EventStep = Post(event: Trb) | Poll

  /** The events taken so far, and those waiting. */
  datatype Fifo = Fifo(popped: seq<Trb>, waiting: seq<Trb>)

  function NextFifo(f: Fifo, step: EventStep): Fifo {
    match step
    case Post(event) => f.(waiting := f.waiting + [Published(event, false)])
    case Poll => if f.waiting == [] then f else Fifo(f.popped + [f.waiting[0]], f.waiting[1..])
  }

  function FifoAfter(steps: seq<EventStep>): Fifo {
    if steps == [] then Fifo([], []) else NextFifo(FifoAfter(steps[..|steps| - 1]), steps[|steps| - 1])
  }

  /** The driver polls by its cycle bit. */
  function NextEvents(s: Events, step: EventStep): Events
    requires s.enqueue < |s.buf| && s.dequeue < |s.buf|
  {
    match step
    case Post(event) => Posted(s, event)
    case Poll => if Cycle(s.buf[s.dequeue]) == s.consumerCycle then Popped(s) else s
  }

  /** The ring holds and has delivered what the queue holds and has delivered. */
  predicate Follows(s: Events, size: nat, f: Fifo) {
    EventsInv(s) && |s.buf| == size && s.popped == f.popped && s.posted == f.popped + f.waiting
  }

  lemma InRing(s: Events, size: nat, f: Fifo)
    requires Follows(s, size, f)
    ensures s.enqueue < |s.buf| && s.dequeue < |s.buf|
  {
  }

  lemma StepFollows(s: Events, size: nat, f: Fifo, step: EventStep)
    requires Follows(s, size, f) && (step.Post? ==> |f.waiting| < size - 1)
    ensures s.enqueue < |s.buf| && s.dequeue < |s.buf|
    ensures Follows(NextEvents(s, step), size, NextFifo(f, step))
  {
    hide EventsInv, Published, Cycle;
    InRing(s, size, f);
    match step {
      case Post(event) => PostInv(s, event);
      case Poll =>
        FrontIsNext(s);
        if f.waiting != [] {
          PopInv(s);
        }
    }
  }

  /** The controller never fills the last slot. */
  predicate Roomy(size: nat, steps: seq<EventStep>) {
    forall i :: 0 <= i < |steps| && steps[i].Post? ==> |FifoAfter(steps[..i]).waiting| < size - 1
  }

  lemma RoomyBefore(size: nat, steps: seq<EventStep>)
    requires steps != [] && Roomy(size, steps)
    ensures Roomy(size, steps[..|steps| - 1])
    ensures steps[|steps| - 1].Post? ==> |FifoAfter(steps[..|steps| - 1]).waiting| < size - 1
  {
    var before := steps[..|steps| - 1];
    forall i | 0 <= i < |before| && before[i].Post? ensures |FifoAfter(before[..i]).waiting| < size - 1 {
      assert before[..i] == steps[..i];
    }
  }

  /** The ring after some steps. */
  function After(size: nat, steps: seq<EventStep>): Events
    requires size > 0
  {
    if steps == [] then Empty(size)
    else
      var s := After(size, steps[..|steps| - 1]);
      if s.enqueue < |s.buf| && s.dequeue < |s.buf| then NextEvents(s, steps[|steps| - 1]) else s
  }

  /**
   After any steps in any order, over any number of laps, the ring's events are those of a plain queue: taken in
   the order they were posted, none lost and none taken twice.
   */
  lemma {:induction false} RingIsQueue(size: nat, steps: seq<EventStep>)
    requires size > 0 && Roomy(size, steps)
    ensures Follows(After(size, steps), size, FifoAfter(steps))
    decreases |steps|
  {
    hide EventsInv, NextFifo, NextEvents, Empty;
    if steps == [] {
      EmptyFollows(size);
    } else {
      var last := |steps| - 1;
      RoomyBefore(size, steps);
      RingIsQueue(size, steps[..last]);
      StepFollows(After(size, steps[..last]), size, FifoAfter(steps[..last]), steps[last]);
    }
  }

  lemma EmptyFollows(size: nat)
    requires size > 0
    ensures Follows(Empty(size), size, Fifo([], []))
  {
    EmptyInv(size);
  }

  class EventRing {
    const buf: array<Trb>
    var cycleBit: bool
    var dequeuePointer: nat

    /** The driver's view of the state. */
    ghost predicate Matches(s: Events)
      reads this, buf
    {
      s.buf == buf[..] && s.dequeue == dequeuePointer && s.consumerCycle == cycleBit
    }

    constructor (size: nat)
      requires size > 0
      ensures Matches(Empty(size)) && EventsInv(Empty(size)) && fresh(buf)
    {
      buf := new Trb[size](_ => Trb(0, 0, 0, 0));
      cycleBit, dequeuePointer := true, 0;
      EmptyInv(size);
    }

    /** Whether an event is there. */
    method HasFront(ghost s: Events) returns (b: bool)
      requires Matches(s) && EventsInv(s)
      ensures b <==> |s.popped| < |s.posted|
    {
      FrontIsNext(s);
      b := Cycle(buf[dequeuePointer]) == cycleBit;
    }

    /** The oldest event that was not popped. */
    method Front(ghost s: Events) returns (event: Trb)
      requires Matches(s) && EventsInv(s) && |s.popped| < |s.posted|
      ensures Published(event, false) == s.posted[|s.popped|]
    {
      FrontIsNext(s);
      event := buf[dequeuePointer];
    }

    /** Gives the slot back to the controller. */
    method Pop(ghost s: Events) returns (ghost s': Events)
      requires Matches(s) && EventsInv(s) && |s.popped| < |s.posted|
      modifies this
      ensures s' == Popped(s) && Matches(s') && EventsInv(s') && s'.popped == s.posted[..|s.popped| + 1]
    {
      PopInv(s);
      FrontIsNext(s);
      s' := Popped(s);
      var p := dequeuePointer + 1;
      if p == buf.Length {
        p := 0;
        cycleBit := !cycleBit;
      }
      dequeuePointer := p;
    }

    /** What the driver does with the ring in ProcessEvent: it takes the oldest event there is, or does nothing. */
    method Process(ghost s: Events) returns (event: Option<Trb>, ghost s': Events)
      requires Matches(s) && EventsInv(s)
      modifies this
      ensures Matches(s') && EventsInv(s')
      ensures event.None? <==> |s.popped| == |s.posted|
      ensures s' == if event.None? then s else Popped(s)
      ensures event.Some? ==> Published(event.value, false) == s.posted[|s.popped|]
    {
      var b := HasFront(s);
      if !b {
        return None, s;
      }
      var front := Front(s);
      s' := Pop(s);
      event := Some(front);
    }
  }
}
