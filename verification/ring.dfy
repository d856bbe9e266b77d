/**
 A command or transfer ring between the driver and the host controller, at the granularity of single
 32-bit stores and loads: the driver may be interrupted by the controller between any two stores, and
 the controller by the driver between any two loads (xHCI specification, sections 4.9.2 and 4.9.3).
 */
module Ring {

  type Word = n: nat | n < 0x1_0000_0000

  datatype Trb = Trb(w0: Word, w1: Word, w2: Word, w3: Word)

  const LINK_TYPE: nat := 6

  function Cycle(t: Trb): bool {
    t.w3 % 2 == 1
  }

  function TypeOf(t: Trb): nat {
    (t.w3 / 1024) % 64
  }

  predicate TogglesCycle(t: Trb) {
    (t.w3 / 2) % 2 == 1
  }

  /** The fourth word with the given cycle bit. */
  function WithCycle(w: Word, cycle: bool): (r: Word)
    ensures (r % 2 == 1) == cycle && r / 2 == w / 2
  {
    w - w % 2 + if cycle then 1 else 0
  }

  /** A TRB with the given cycle bit; nothing else differs. */
  function Published(t: Trb, cycle: bool): (p: Trb)
    ensures Cycle(p) == cycle && TypeOf(p) == TypeOf(t) && TogglesCycle(p) == TogglesCycle(t)
    ensures p.w0 == t.w0 && p.w1 == t.w1 && p.w2 == t.w2
  {
    t.(w3 := WithCycle(t.w3, cycle))
  }

  lemma Republished(t: Trb, a: bool, b: bool)
    ensures Published(Published(t, a), b) == Published(t, b)
    ensures Cycle(t) == a ==> Published(t, a) == t
  {
  }

  function StoreWord(t: Trb, k: nat, v: Word): Trb {
    if k == 0 then t.(w0 := v) else if k == 1 then t.(w1 := v) else if k == 2 then t.(w2 := v) else t.(w3 := v)
  }

  function WordOf(t: Trb, k: nat): Word {
    if k == 0 then t.w0 else if k == 1 then t.w1 else if k == 2 then t.w2 else t.w3
  }

  /** The k-th word CopyToLast stores for a TRB: the first three as they are, the last with the cycle bit. */
  function Stored(data: Trb, k: nat, cycle: bool): Word {
    if k < 3 then WordOf(data, k) else WithCycle(data.w3, cycle)
  }

  /** The Link TRB to the beginning of the ring, with the toggle-cycle flag. */
  function LinkTrb(base: (Word, Word)): (t: Trb)
    ensures TypeOf(t) == LINK_TYPE && TogglesCycle(t) && t.w0 == base.0 && t.w1 == base.1
  {
    Trb(base.0, base.1, 0, LINK_TYPE * 1024 + 2)
  }

  // ----- Both sides, step by step -----

  datatype Producer = Idle | StoringTrb(k: nat, data: Trb) | StoringLink(k: nat)

  /** The consumer loads the fourth word of the TRB at its dequeue position first, then the other three. */
  datatype Consumer = Polling | Fetching(k: nat, got: Trb)

  /**
   The ring buffer at address `base` (low and high word), what each side knows, and two histories: what
   was pushed, counted from the last store of each TRB on, and what was dequeued, both without cycle bits.
   */
  datatype State = State(
    base: (Word, Word), buf: seq<Trb>,
    writeIndex: nat, cycleBit: bool, producer: Producer,
    dequeue: nat, consumerCycle: bool, consumer: Consumer, derailed: bool,
    pushed: seq<Trb>, dequeued: seq<Trb>)

  datatype Action = Begin(data: Trb) | Produce | Consume

  function Initial(base: (Word, Word), size: nat): State
    requires size >= 3
  {
    State(base, seq(size, _ => Trb(0, 0, 0, 0)), 0, true, Idle, 0, true, Polling, false, [], [])
  }

  predicate Shape(s: State) {
    && |s.buf| >= 3 && s.writeIndex < |s.buf| && s.dequeue < |s.buf|
    && |s.dequeued| <= |s.pushed|
  }

  /** The TRBs pushed or being pushed and not dequeued. */
  function Outstanding(s: State): nat
    requires Shape(s)
  {
    |s.pushed| - |s.dequeued| + if s.producer.StoringTrb? then 1 else 0
  }

  /**
   A push may begin when the one before is done; Push does not check for room, so its caller keeps at most
   buf_size - 2 TRBs outstanding, and pushes no Link TRBs.
   */
  predicate Legal(s: State, a: Action)
    requires Shape(s)
  {
    match a
    case Begin(data) => s.producer.Idle? && Outstanding(s) < |s.buf| - 2 && TypeOf(data) != LINK_TYPE
    case Produce => !s.producer.Idle?
    case Consume => true
  }

  /** The next of the driver's stores, with the bookkeeping behind it. */
  function NextStore(s: State): State
    requires Shape(s) && !s.producer.Idle?
  {
    match s.producer
    case StoringTrb(k, data) =>
      var s1 := s.(buf := s.buf[s.writeIndex := StoreWord(s.buf[s.writeIndex], k, Stored(data, k, s.cycleBit))]);
      if k < 3 then s1.(producer := StoringTrb(k + 1, data))
      else
        s1.(writeIndex := s.writeIndex + 1, pushed := s.pushed + [Published(data, false)],
            producer := if s.writeIndex + 1 == |s.buf| - 1 then StoringLink(0) else Idle)
    case StoringLink(k) =>
      var link := Stored(LinkTrb(s.base), k, s.cycleBit);
      var s1 := s.(buf := s.buf[s.writeIndex := StoreWord(s.buf[s.writeIndex], k, link)]);
      if k < 3 then s1.(producer := StoringLink(k + 1))
      else s1.(writeIndex := 0, cycleBit := !s.cycleBit, producer := Idle)
  }

  /** The next of the controller's loads; with the last one it takes the TRB or follows the link. */
  function NextLoad(s: State): State
    requires Shape(s)
  {
    var here := s.buf[s.dequeue];
    match s.consumer
    case Polling =>
      if Cycle(here) == s.consumerCycle then s.(consumer := Fetching(0, Trb(0, 0, 0, here.w3))) else s
    case Fetching(k, got) =>
      var got' := StoreWord(got, k, WordOf(here, k));
      if k < 2 then s.(consumer := Fetching(k + 1, got'))
      else if TypeOf(got') == LINK_TYPE then
        s.(consumer := Polling, dequeue := 0,
           derailed := s.derailed || (got'.w0, got'.w1) != s.base,
           consumerCycle := if TogglesCycle(got') then !s.consumerCycle else s.consumerCycle)
      else
        s.(consumer := Polling, dequeue := if s.dequeue + 1 < |s.buf| then s.dequeue + 1 else 0,
           derailed := s.derailed || s.dequeue + 1 >= |s.buf|,
           dequeued := s.dequeued + [Published(got', false)])
  }

  function Step(s: State, a: Action): State
    requires Shape(s) && Legal(s, a)
  {
    match a
    case Begin(data) => s.(producer := StoringTrb(0, data))
    case Produce => NextStore(s)
    case Consume => NextLoad(s)
  }

  // ----- The invariant -----

  /** The TRBs from `from` to `to` are completely stored, with this cycle bit, and are pushed[at..] in order. */
  predicate Holds(buf: seq<Trb>, from: nat, to: nat, cycle: bool, pushed: seq<Trb>, at: nat) {
    && to <= |buf| && from <= to && at + (to - from) <= |pushed|
    && forall i :: from <= i < to ==> buf[i] == Published(pushed[at + i - from], cycle) && TypeOf(buf[i]) != LINK_TYPE
  }

  predicate CyclesAre(buf: seq<Trb>, from: nat, to: nat, cycle: bool) {
    to <= |buf| && forall i :: from <= i < to ==> Cycle(buf[i]) == cycle
  }

  /** Both sides are in the same lap: what is between them is pushed and not dequeued. */
  predicate SameLap(s: State)
    requires Shape(s)
  {
    var last := |s.buf| - 1;
    && s.dequeue <= s.writeIndex <= last
    && |s.pushed| - |s.dequeued| == s.writeIndex - s.dequeue
    && Holds(s.buf, s.dequeue, s.writeIndex, s.cycleBit, s.pushed, |s.dequeued|)
    && CyclesAre(s.buf, 0, s.dequeue, s.cycleBit)
    && CyclesAre(s.buf, s.writeIndex, last + 1, !s.cycleBit)
    && (s.dequeue == last ==> s.writeIndex == last)
  }

  /** The driver is one lap ahead: the rest of the old lap, the link, and the beginning of the new lap. */
  predicate NextLap(s: State)
    requires Shape(s)
  {
    var last := |s.buf| - 1;
    && s.writeIndex < s.dequeue <= last
    && |s.pushed| - |s.dequeued| == last - s.dequeue + s.writeIndex
    && Holds(s.buf, s.dequeue, last, s.consumerCycle, s.pushed, |s.dequeued|)
    && s.buf[last] == Published(LinkTrb(s.base), s.consumerCycle)
    && Holds(s.buf, 0, s.writeIndex, s.cycleBit, s.pushed, |s.dequeued| + (last - s.dequeue))
    && CyclesAre(s.buf, s.writeIndex, s.dequeue, s.consumerCycle)
  }

  /** The first words of t are those of data. */
  predicate WordsStored(t: Trb, k: nat, data: Trb) {
    && (k > 0 ==> t.w0 == data.w0) && (k > 1 ==> t.w1 == data.w1) && (k > 2 ==> t.w2 == data.w2)
  }

  predicate ProducerOk(s: State)
    requires Shape(s)
  {
    match s.producer
    case Idle => s.writeIndex < |s.buf| - 1
    case StoringTrb(k, data) =>
      && s.writeIndex < |s.buf| - 1 && k <= 3 && TypeOf(data) != LINK_TYPE
      && WordsStored(s.buf[s.writeIndex], k, data)
    case StoringLink(k) =>
      && s.writeIndex == |s.buf| - 1 && k <= 3
      && WordsStored(s.buf[s.writeIndex], k, LinkTrb(s.base))
  }

  predicate ConsumerOk(s: State)
    requires Shape(s)
  {
    s.consumer.Fetching? ==>
      var here := s.buf[s.dequeue];
      && s.consumer.k <= 2 && Cycle(here) == s.consumerCycle
      && s.consumer.got.w3 == here.w3 && WordsStored(s.consumer.got, s.consumer.k, here)
  }

  predicate Inv(s: State) {
    && Shape(s) && Outstanding(s) <= |s.buf| - 2
    && (if s.cycleBit == s.consumerCycle then SameLap(s) else NextLap(s))
    && ProducerOk(s) && ConsumerOk(s)
    && s.dequeued <= s.pushed && !s.derailed
    && forall i :: 0 <= i < |s.pushed| ==> !Cycle(s.pushed[i])
  }

  lemma InitialInv(base: (Word, Word), size: nat)
    requires size >= 3
    ensures Inv(Initial(base, size))
  {
  }

  lemma Complete(t: Trb, k: nat, data: Trb, cycle: bool)
    requires WordsStored(t, k, data) && k <= 3
    ensures k < 3 ==> WordsStored(StoreWord(t, k, Stored(data, k, cycle)), k + 1, data)
                      && Cycle(StoreWord(t, k, Stored(data, k, cycle))) == Cycle(t)
    ensures k == 3 ==> StoreWord(t, k, Stored(data, k, cycle)) == Published(data, cycle)
  {
  }

  /** The slot being written is none that the consumer may take. */
  lemma StoreInv(s: State)
    requires Inv(s) && !s.producer.Idle?
    ensures Inv(NextStore(s))
  {
    hide TypeOf, Cycle, Published, WordsStored, StoreWord, Stored, LinkTrb;
    match s.producer {
      case StoringTrb(k, data) =>
        Complete(s.buf[s.writeIndex], k, data, s.cycleBit);
        if k < 3 { PartInv(s, NextStore(s)); } else { PushInv(s, data); }
      case StoringLink(k) =>
        Complete(s.buf[s.writeIndex], k, LinkTrb(s.base), s.cycleBit);
        if k < 3 { PartInv(s, NextStore(s)); } else { LinkInv(s); }
    }
  }

  /** A store to the driver's slot that leaves its cycle bit alone is invisible to the consumer. */
  lemma PartInv(s: State, s': State)
    requires Inv(s) && s' == s.(buf := s'.buf, producer := s'.producer)
    requires |s'.buf| == |s.buf| && s'.buf == s.buf[s.writeIndex := s'.buf[s.writeIndex]]
    requires Cycle(s'.buf[s.writeIndex]) == Cycle(s.buf[s.writeIndex])
    requires s'.producer.StoringTrb? == s.producer.StoringTrb? && Shape(s') && ProducerOk(s')
    ensures Inv(s')
  {
    hide TypeOf, Cycle, Published, WordsStored, ProducerOk;
  }

  lemma PushInv(s: State, data: Trb)
    requires Inv(s) && s.producer == StoringTrb(3, data)
    requires NextStore(s).buf == s.buf[s.writeIndex := Published(data, s.cycleBit)]
    ensures Inv(NextStore(s))
  {
    hide TypeOf, Cycle, Published, StoreWord, Stored, LinkTrb;
    Republished(data, false, s.cycleBit);
  }

  lemma LinkInv(s: State)
    requires Inv(s) && s.producer == StoringLink(3)
    requires NextStore(s).buf == s.buf[s.writeIndex := Published(LinkTrb(s.base), s.cycleBit)]
    ensures Inv(NextStore(s))
  {
    hide TypeOf, Cycle, Published, WordsStored, StoreWord, Stored, LinkTrb;
  }

  /** What the consumer finds at its position when the cycle bit says so: the next TRB, or the link. */
  lemma Found(s: State)
    requires Inv(s) && Cycle(s.buf[s.dequeue]) == s.consumerCycle
    ensures s.dequeue == |s.buf| - 1 ==>
              s.cycleBit != s.consumerCycle && s.buf[s.dequeue] == Published(LinkTrb(s.base), s.consumerCycle)
    ensures s.dequeue < |s.buf| - 1 ==>
              && |s.dequeued| < |s.pushed| && TypeOf(s.buf[s.dequeue]) != LINK_TYPE
              && s.buf[s.dequeue] == Published(s.pushed[|s.dequeued|], s.consumerCycle)
  {
    hide TypeOf, Published, WordsStored, LinkTrb;
  }

  lemma TakeInv(s: State, s': State)
    requires Inv(s) && s.dequeue < |s.buf| - 1 && |s.dequeued| < |s.pushed|
    requires Cycle(s.buf[s.dequeue]) == s.consumerCycle
    requires s' == s.(consumer := Polling, dequeue := s.dequeue + 1, dequeued := s.dequeued + [s.pushed[|s.dequeued|]])
    ensures Inv(s')
  {
    hide TypeOf, Cycle, Published, WordsStored, LinkTrb;
  }

  lemma FollowInv(s: State, s': State)
    requires Inv(s) && s.dequeue == |s.buf| - 1 && s.cycleBit != s.consumerCycle
    requires s' == s.(consumer := Polling, dequeue := 0, consumerCycle := !s.consumerCycle)
    ensures Inv(s')
  {
    hide TypeOf, Cycle, Published, WordsStored, LinkTrb;
  }

  lemma FetchInv(s: State, s': State)
    requires Inv(s) && s' == s.(consumer := s'.consumer) && ConsumerOk(s')
    ensures Inv(s')
  {
    hide TypeOf, Cycle, Published, WordsStored, LinkTrb, ConsumerOk, Holds, CyclesAre;
  }

  lemma LoadInv(s: State)
    requires Inv(s)
    ensures Inv(NextLoad(s))
  {
    hide TypeOf, Cycle, Published, LinkTrb, SameLap, NextLap, ProducerOk;
    match s.consumer {
      case Polling => FetchInv(s, NextLoad(s));
      case Fetching(k, got) =>
        if k < 2 {
          FetchInv(s, NextLoad(s));
        } else {
          Fetched(s.buf[s.dequeue], got);
          Found(s);
          if s.dequeue == |s.buf| - 1 {
            FollowInv(s, NextLoad(s));
          } else {
            var t := s.pushed[|s.dequeued|];
            Republished(t, s.consumerCycle, false);
            Republished(t, false, false);
            TakeInv(s, NextLoad(s));
          }
        }
    }
  }

  lemma Fetched(here: Trb, got: Trb)
    requires WordsStored(got, 2, here) && got.w3 == here.w3
    ensures StoreWord(got, 2, WordOf(here, 2)) == here
  {
  }

  // ----- Whole runs -----

  lemma StepInv(s: State, a: Action)
    requires Inv(s) && Legal(s, a)
    ensures Inv(Step(s, a))
  {
    hide SameLap, NextLap;
    match a
    case Begin(data) => BeginInv(s, data);
    case Produce => StoreInv(s);
    case Consume => LoadInv(s);
  }

  lemma BeginInv(s: State, data: Trb)
    requires Inv(s) && Legal(s, Begin(data))
    ensures Inv(s.(producer := StoringTrb(0, data)))
  {
    hide TypeOf, Cycle, Published, LinkTrb, Holds, CyclesAre;
  }

  predicate LegalRun(s: State, actions: seq<Action>)
    requires Inv(s)
    decreases |actions|
  {
    actions == [] || (Legal(s, actions[0]) && StepIsInv(s, actions[0]) && LegalRun(Step(s, actions[0]), actions[1..]))
  }

  predicate StepIsInv(s: State, a: Action)
    requires Inv(s) && Legal(s, a)
    ensures StepIsInv(s, a)
  {
    StepInv(s, a);
    Inv(Step(s, a))
  }

  function Exec(s: State, actions: seq<Action>): (s': State)
    requires Inv(s) && LegalRun(s, actions)
    ensures Inv(s')
    decreases |actions|
  {
    if actions == [] then s else Exec(Step(s, actions[0]), actions[1..])
  }

  /** The TRBs whose push began, without cycle bits. */
  function Begun(actions: seq<Action>): seq<Trb>
    decreases |actions|
  {
    if actions == [] then []
    else (if actions[0].Begin? then [Published(actions[0].data, false)] else []) + Begun(actions[1..])
  }

  /** The TRB whose push has begun and is not done. */
  function InProgress(s: State): seq<Trb> {
    if s.producer.StoringTrb? then [Published(s.producer.data, false)] else []
  }

  lemma StepBegun(s: State, a: Action)
    requires Inv(s) && Legal(s, a)
    ensures Step(s, a).pushed + InProgress(Step(s, a)) == s.pushed + InProgress(s) + Begun([a])
  {
    hide Inv, Published, StoreWord, Stored, LinkTrb, TypeOf;
    BegunOne(a);
    match a {
      case Begin(_) =>
      case Produce =>
      case Consume =>
    }
  }

  lemma BegunOne(a: Action)
    ensures Begun([a]) == if a.Begin? then [Published(a.data, false)] else []
  {
    assert Begun([a][1..]) == [];
  }

  /**
   Whatever the order of single stores and loads, over any number of laps: the controller dequeues
   exactly the TRBs whose push began, in order and unmixed, and always finds the right link.
   */
  lemma {:induction false} DequeuedInOrder(s: State, actions: seq<Action>)
    requires Inv(s) && LegalRun(s, actions)
    ensures var s' := Exec(s, actions);
            && !s'.derailed && s'.dequeued <= s'.pushed
            && s'.pushed + InProgress(s') == s.pushed + InProgress(s) + Begun(actions)
    decreases |actions|
  {
    hide SameLap, NextLap, ProducerOk, ConsumerOk, Step, Legal, InProgress, Shape;
    if actions != [] {
      StepBegun(s, actions[0]);
      StepInv(s, actions[0]);
      DequeuedInOrder(Step(s, actions[0]), actions[1..]);
      assert Begun([actions[0]][1..]) == [];
      var all, rest := s.pushed + InProgress(s), Begun(actions[1..]);
      assert all + Begun([actions[0]]) + rest == all + (Begun([actions[0]]) + rest);
    }
  }

  predicate LegalFromStart(base: (Word, Word), size: nat, actions: seq<Action>)
    requires size >= 3
  {
    InitialInv(base, size);
    LegalRun(Initial(base, size), actions)
  }

  /** From an empty ring on, what is dequeued is the beginning of what the caller pushed, and nothing else. */
  lemma DequeuedFromStart(base: (Word, Word), size: nat, actions: seq<Action>)
    requires size >= 3 && LegalFromStart(base, size, actions)
    ensures var s := Initial(base, size);
            && Inv(s) && LegalRun(s, actions)
            && var s' := Exec(s, actions);
               !s'.derailed && s'.dequeued <= s'.pushed && s'.pushed + InProgress(s') == Begun(actions)
  {
    InitialInv(base, size);
    DequeuedInOrder(Initial(base, size), actions);
  }

  function Loads(s: State, n: nat): (s': State)
    requires Inv(s)
    ensures Inv(s')
    decreases n
  {
    if n == 0 then s
    else
      LoadInv(s);
      Loads(NextLoad(s), n - 1)
  }

  /** Four loads take the TRB at the consumer's position. */
  lemma FourLoads(s: State)
    requires Inv(s) && s.consumer == Polling && Cycle(s.buf[s.dequeue]) == s.consumerCycle
    ensures var s' := Loads(s, 4);
            if s.dequeue == |s.buf| - 1 then
              s' == s.(dequeue := 0, consumerCycle := !s.consumerCycle)
            else
              |s.dequeued| < |s.pushed|
              && s' == s.(dequeue := s.dequeue + 1, dequeued := s.dequeued + [s.pushed[|s.dequeued|]])
  {
    hide SameLap, NextLap, ProducerOk, ConsumerOk, Cycle, TypeOf, Published, LinkTrb;
    Found(s);
    var here := s.buf[s.dequeue];
    LoadInv(s);
    var s1 := NextLoad(s);
    LoadInv(s1);
    var s2 := NextLoad(s1);
    LoadInv(s2);
    var s3 := NextLoad(s2);
    assert s3.consumer == Fetching(2, Trb(here.w0, here.w1, 0, here.w3));
    LoadInv(s3);
    assert Loads(s, 4) == Loads(s1, 3) == Loads(s2, 2) == Loads(s3, 1) == Loads(NextLoad(s3), 0);
    if s.dequeue < |s.buf| - 1 {
      Republished(s.pushed[|s.dequeued|], s.consumerCycle, false);
      Republished(s.pushed[|s.dequeued|], false, false);
    }
  }

  /** A pushed TRB is never missed: the controller's next few loads take it, through the link if need be. */
  lemma NeverStuck(s: State)
    requires Inv(s) && s.consumer == Polling && |s.dequeued| < |s.pushed|
    ensures Loads(s, if s.dequeue == |s.buf| - 1 then 8 else 4).dequeued == s.dequeued + [s.pushed[|s.dequeued|]]
  {
    hide ProducerOk, ConsumerOk, TypeOf, Published, LinkTrb;
    Ready(s);
    FourLoads(s);
    if s.dequeue == |s.buf| - 1 {
      var s' := Loads(s, 4);
      Ready(s');
      FourLoads(s');
      LoadsAdd(s, 4, 4);
    }
  }

  lemma Ready(s: State)
    requires Inv(s) && |s.dequeued| < |s.pushed|
    ensures Cycle(s.buf[s.dequeue]) == s.consumerCycle
  {
    hide TypeOf, LinkTrb, ProducerOk, ConsumerOk;
  }

  lemma {:induction false} LoadsAdd(s: State, m: nat, n: nat)
    requires Inv(s)
    ensures Loads(s, m + n) == Loads(Loads(s, m), n)
    decreases m
  {
    hide Inv, NextLoad;
    if m > 0 {
      InvShape(s);
      LoadInv(s);
      LoadsAdd(NextLoad(s), m - 1, n);
    }
  }

  // ----- The limit is sharp -----

  /**
   With buf_size - 2 TRBs outstanding and the controller about to follow the link, one push more stores
   the link of the new lap over it, and the controller finds nothing to take with all of them outstanding.
   */
  lemma OneMoreStopsTheController(s: State, data: Trb)
    requires Inv(s) && s.producer.Idle? && s.consumer == Polling
    requires s.dequeue == |s.buf| - 1 && Outstanding(s) == |s.buf| - 2
    ensures var s' := s.(producer := StoringTrb(0, data));
            var s4 := NextStore(NextStore(NextStore(NextStore(s'))));
            s4.producer == StoringLink(0) && Shape(s4)
            && var s8 := NextStore(NextStore(NextStore(NextStore(s4))));
               Shape(s8) && Outstanding(s8) == |s8.buf| - 1 && NextLoad(s8) == s8
  {
    hide Holds, CyclesAre, TypeOf, Published, LinkTrb, WordsStored, ConsumerOk, Cycle;
    assert s.cycleBit != s.consumerCycle && s.writeIndex == |s.buf| - 2;
    var s' := s.(producer := StoringTrb(0, data));
    var s4 := NextStore(NextStore(NextStore(NextStore(s'))));
    assert s4 == s.(buf := s4.buf, writeIndex := |s.buf| - 1, producer := StoringLink(0), pushed := s4.pushed);
    assert |s4.buf| == |s.buf| && |s4.pushed| == |s.pushed| + 1;
    LinkStores(s4);
  }

  lemma LinkStores(s: State)
    requires Shape(s) && s.producer == StoringLink(0)
    ensures var s8 := NextStore(NextStore(NextStore(NextStore(s))));
            && s8 == s.(buf := s8.buf, writeIndex := 0, cycleBit := !s.cycleBit, producer := Idle)
            && |s8.buf| == |s.buf| && Cycle(s8.buf[s.writeIndex]) == s.cycleBit
  {
    hide LinkTrb;
  }

  // ----- The driver's side as it is coded -----

  /** The state after the driver's next n stores, or when its push is done. */
  function Stores(s: State, n: nat): (s': State)
    requires Inv(s)
    ensures Inv(s')
    decreases n
  {
    if n == 0 then s
    else
      var t := Stores(s, n - 1);
      if t.producer.Idle? then t
      else
        StoreInv(t);
        NextStore(t)
  }

  class Ring {
    const base: (Word, Word)
    const buf: array<Trb>
    const bufSize: nat
    var cycleBit: bool
    var writeIndex: nat

    /** The ring's fields are the driver's side of the state. */
    ghost predicate Matches(s: State)
      reads this, buf
    {
      && buf.Length == bufSize && s.base == base && s.buf == buf[..]
      && s.writeIndex == writeIndex && s.cycleBit == cycleBit
    }

    /** An empty ring. */
    constructor (base: (Word, Word), bufSize: nat)
      requires bufSize >= 3
      ensures this.base == base && this.bufSize == bufSize && fresh(buf) && Matches(Initial(base, bufSize))
    {
      this.base, this.bufSize := base, bufSize;
      cycleBit, writeIndex := true, 0;
      buf := new Trb[bufSize](_ => Trb(0, 0, 0, 0));
    }

    /** The four stores of a TRB, the one with the cycle bit last. */
    method CopyToLast(data: Trb, ghost s: State)
      requires Matches(s) && Inv(s)
      requires s.producer == StoringTrb(0, data) || (s.producer == StoringLink(0) && data == LinkTrb(base))
      modifies buf
      ensures Stores(s, 4).buf == buf[..]
    {
      hide Inv, WithCycle, LinkTrb, TypeOf;
      var i := 0;
      InvShape(s);
      assert Stores(s, 0) == s;
      while i < 3
        invariant 0 <= i <= 3 && buf[..] == Stores(s, i).buf
        invariant StoringWord(s, Stores(s, i), i, data)
      {
        NextWord(s, i, data);
        buf[writeIndex] := StoreWord(buf[writeIndex], i, WordOf(data, i));
        i := i + 1;
      }
      NextWord(s, 3, data);
      buf[writeIndex] := StoreWord(buf[writeIndex], 3, WithCycle(data.w3, cycleBit));
    }

    /**
     Appends a TRB: exactly the stores of the machine, four, or eight where the link follows.  The caller
     sees to it that there is room.
     */
    method Push(data: Trb, ghost s: State) returns (index: nat, ghost s': State)
      requires Matches(s) && Inv(s) && Legal(s, Begin(data))
      modifies this, buf
      ensures s' == Stores(Step(s, Begin(data)), if old(writeIndex) + 1 == bufSize - 1 then 8 else 4)
      ensures Matches(s') && Inv(s') && s'.producer.Idle? && index == old(writeIndex)
      ensures s'.pushed == s.pushed + [Published(data, false)]
    {
      hide Inv, WithCycle, LinkTrb, TypeOf, Stores, Published;
      InvShape(s);
      StepInv(s, Begin(data));
      ghost var begun := Step(s, Begin(data));
      index := writeIndex;
      Pushes(begun, data);
      CopyToLast(data, begun);
      s' := Stores(begun, 4);
      writeIndex := writeIndex + 1;
      if writeIndex == bufSize - 1 {
        StoresAdd(begun, 4, 4);
        s' := PlaceLink(s');
      }
    }

    /** The end of a lap: the link, and the beginning of the ring with the other cycle bit. */
    method PlaceLink(ghost s: State) returns (ghost s': State)
      requires Matches(s) && Inv(s) && s.producer == StoringLink(0)
      modifies this, buf
      ensures s' == Stores(s, 4) && Matches(s') && Inv(s') && s'.producer.Idle? && s'.pushed == s.pushed
    {
      hide Inv, WithCycle, LinkTrb, TypeOf, Stores;
      Links(s);
      CopyToLast(LinkTrb(base), s);
      s' := Stores(s, 4);
      writeIndex := 0;
      cycleBit := !cycleBit;
    }
  }

  lemma InvShape(s: State)
    requires Inv(s)
    ensures Shape(s)
    ensures s.producer.Idle? ==> s.writeIndex < |s.buf| - 1
  {
  }

  /** After k of its four stores the driver is about to do the next, and nothing but the buffer changed. */
  predicate StoringWord(s: State, t: State, k: nat, data: Trb) {
    && |t.buf| == |s.buf| && t == s.(buf := t.buf, producer := t.producer)
    && (s.producer.StoringTrb? ==> t.producer == StoringTrb(k, data))
    && (s.producer.StoringLink? ==> t.producer == StoringLink(k))
  }

  lemma NextWord(s: State, k: nat, data: Trb)
    requires Inv(s) && k < 4 && StoringWord(s, Stores(s, k), k, data)
    requires s.producer.StoringTrb? || (s.producer.StoringLink? && data == LinkTrb(s.base))
    ensures var t := Stores(s, k);
            && t.writeIndex < |t.buf|
            && Stores(s, k + 1).buf
               == t.buf[t.writeIndex := StoreWord(t.buf[t.writeIndex], k, Stored(data, k, t.cycleBit))]
            && (k < 3 ==> StoringWord(s, Stores(s, k + 1), k + 1, data))
  {
    hide Inv, NextStore, Stores, LinkTrb, StoreWord, Stored;
    InvShape(s);
    InvShape(Stores(s, k));
    StoresOne(s, k);
    OneWord(s, Stores(s, k), k, data);
  }

  lemma StoresOne(s: State, k: nat)
    requires Inv(s) && !Stores(s, k).producer.Idle?
    ensures Shape(Stores(s, k)) && Stores(s, k + 1) == NextStore(Stores(s, k))
  {
    hide Inv, NextStore;
    InvShape(Stores(s, k));
  }

  /** One store, of a TRB or of the link. */
  lemma OneWord(s: State, t: State, k: nat, data: Trb)
    requires k < 4 && StoringWord(s, t, k, data) && Shape(t)
    requires s.producer.StoringTrb? || (s.producer.StoringLink? && data == LinkTrb(s.base))
    ensures var t' := NextStore(t);
            && t'.buf == t.buf[t.writeIndex := StoreWord(t.buf[t.writeIndex], k, Stored(data, k, t.cycleBit))]
            && (k < 3 ==> StoringWord(s, t', k + 1, data))
  {
    hide LinkTrb, StoreWord, Stored;
  }

  lemma {:induction false} StoringWords(s: State, k: nat, data: Trb)
    requires Inv(s) && k < 4
    requires s.producer == StoringTrb(0, data) || (s.producer == StoringLink(0) && data == LinkTrb(s.base))
    ensures StoringWord(s, Stores(s, k), k, data)
  {
    hide Inv, NextStore, LinkTrb, StoreWord, Stored;
    if k > 0 {
      StoringWords(s, k - 1, data);
      NextWord(s, k - 1, data);
    }
  }

  /** The four stores of a TRB push it. */
  lemma Pushes(s: State, data: Trb)
    requires Inv(s) && s.producer == StoringTrb(0, data)
    ensures var s' := Stores(s, 4);
            && s' == s.(buf := s'.buf, writeIndex := s.writeIndex + 1, pushed := s.pushed + [Published(data, false)],
                        producer := if s.writeIndex + 1 == |s.buf| - 1 then StoringLink(0) else Idle)
            && |s'.buf| == |s.buf|
  {
    hide Inv, WithCycle, LinkTrb, TypeOf, StoreWord, Stored, Published;
    StoringWords(s, 3, data);
    InvShape(Stores(s, 3));
  }

  /** The four stores of the link begin a new lap. */
  lemma Links(s: State)
    requires Inv(s) && s.producer == StoringLink(0)
    ensures var s' := Stores(s, 4);
            && s' == s.(buf := s'.buf, writeIndex := 0, cycleBit := !s.cycleBit, producer := Idle)
            && |s'.buf| == |s.buf|
  {
    hide Inv, WithCycle, LinkTrb, TypeOf, StoreWord, Stored, Published;
    StoringWords(s, 3, LinkTrb(s.base));
    InvShape(Stores(s, 3));
  }

  lemma {:induction false} StoresAdd(s: State, m: nat, n: nat)
    requires Inv(s)
    ensures Stores(s, m + n) == Stores(Stores(s, m), n)
    decreases n
  {
    hide Inv, NextStore;
    if n > 0 {
      StoresAdd(s, m, n - 1);
    }
  }
}
