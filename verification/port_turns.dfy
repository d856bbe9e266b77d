/** The way of a single port: its phases one after the other, and when it gets its turn. */
module PortTurns {
  import opened Errors
  import opened Ports

  /** A port reported connected for the first time begins, or waits if another one is under way. */
  lemma ReportedBegins(s: Control, e: Event)
    requires Sound(s) && LegalEvent(e) && (e.ConfigurePort? || e.PortStatusChange?)
    requires s.phases[e.port] == NotConnected
    ensures var (s', err) := Handled(s, e);
      && err == Success && s'.devices == s.devices && s'.maxSlots == s.maxSlots
      && (!e.status.connected ==> s' == s)
      && (e.status.connected && s.addressing != 0 ==>
            s'.phases == s.phases[e.port := WaitingAddressed] && s'.addressing == s.addressing)
      && (e.status.connected && s.addressing == 0 ==>
            s'.phases == s.phases[e.port := ResettingPort] && s'.addressing == e.port)
  {
  }

  /** Whether an event is the one a port in its phase goes on by. */
  predicate Advances(s: Control, e: Event, p: nat)
    requires Ready(s) && p < NUM_PORTS
  {
    match s.phases[p]
    case NotConnected => (e.ConfigurePort? || e.PortStatusChange?) && e.port == p && e.status.connected
    case WaitingAddressed =>
      && e.AddressDeviceDone? && s.HasDevice(e.slot) && e.port == s.addressing && p in e.connected
      && (forall q :: 0 <= q < p ==> s.phases[q] != WaitingAddressed)
      && e.port < NUM_PORTS && s.phases[e.port] == AddressingDevice
    case ResettingPort => e.PortStatusChange? && e.port == p && e.status.enabled && e.status.resetChanged
    case EnablingSlot => e.EnableSlotDone? && e.slot <= s.maxSlots
    case AddressingDevice => e.AddressDeviceDone? && e.port == p && s.HasDevice(e.slot)
    case InitializingDevice =>
      && e.Transfer? && e.port == p && s.HasDevice(e.slot) && e.result == Success && e.initialized
      && 1 <= e.speed <= SUPER_SPEED_PLUS
    case ConfiguringEndpoints => e.ConfigureEndpointDone? && e.port == p && s.HasDevice(e.slot)
    case Configured => false
  }

  /** A port goes to its next phase, and to no other, exactly by the event it waits for. */
  lemma PhaseAfter(s: Control, e: Event, p: nat)
    requires Sound(s) && LegalEvent(e) && p < NUM_PORTS
    ensures Ready(Handled(s, e).0)
    ensures var phase, phase' := s.phases[p], Handled(s, e).0.phases[p];
      if !Advances(s, e, p) then phase' == phase
      else
        match phase
        case NotConnected => phase' == if s.addressing == 0 then ResettingPort else WaitingAddressed
        case WaitingAddressed => phase' == ResettingPort
        case ResettingPort => phase' == EnablingSlot
        case EnablingSlot => phase' == AddressingDevice
        case AddressingDevice => phase' == InitializingDevice
        case InitializingDevice => phase' == ConfiguringEndpoints
        case ConfiguringEndpoints => phase' == Configured
        case Configured => false
  {
    hide FirstWaiting;
    if e.AddressDeviceDone? && s.phases[p] == WaitingAddressed {
      LowestWaits(s.phases, p);
    }
  }

  lemma LowestWaits(phases: seq<ConfigPhase>, p: nat)
    requires |phases| == NUM_PORTS && p < NUM_PORTS && phases[p] == WaitingAddressed
    ensures FirstWaiting(phases, 0) <= p
    ensures FirstWaiting(phases, 0) == p <==> forall q :: 0 <= q < p ==> phases[q] != WaitingAddressed
  {
  }

  /** Over any run: every port that reported to be connected has begun or waits. */
  lemma {:induction false} ReportedLeave(s: Control, events: seq<Event>, p: nat)
    requires Sound(s) && LegalEvents(events) && p in Reported(events)
    ensures p < NUM_PORTS && HandledAll(s, events).phases[p] != NotConnected
    decreases |events|
  {
    hide Handled, Advances;
    var last := |events| - 1;
    var s1 := HandledAll(s, events[..last]);
    RunSound(s, events[..last]);
    if p in Reported(events[..last]) {
      ReportedLeave(s, events[..last], p);
    } else {
      LastReports(events, p);
    }
    PhaseAfter(s1, events[last], p);
    if s1.phases[p] == NotConnected {
      ReportAdvances(s1, events[last], p);
    }
  }

  lemma LastReports(events: seq<Event>, p: nat)
    requires events != [] && p in Reported(events) && p !in Reported(events[..|events| - 1]) && LegalEvents(events)
    ensures var e := events[|events| - 1];
            && p < NUM_PORTS && (e.ConfigurePort? || e.PortStatusChange?) && e.port == p && e.status.connected
  {
    assert LegalEvent(events[|events| - 1]);
  }

  lemma ReportAdvances(s: Control, e: Event, p: nat)
    requires Sound(s) && p < NUM_PORTS && s.phases[p] == NotConnected
    requires (e.ConfigurePort? || e.PortStatusChange?) && e.port == p && e.status.connected
    ensures Advances(s, e, p)
  {
  }

  lemma {:induction false} RunSound(s: Control, events: seq<Event>)
    requires Sound(s) && LegalEvents(events)
    ensures Sound(HandledAll(s, events)) && Forward(s.phases, HandledAll(s, events).phases)
    decreases |events|
  {
    hide Handled, Rank;
    if events != [] {
      var last := |events| - 1;
      RunSound(s, events[..last]);
      HandledKeeps(HandledAll(s, events[..last]), events[last]);
    }
  }

  // ----- Turns -----

  /** The event assigns an address to the port under way. */
  predicate Assigns(s: Control, e: Event)
    requires Ready(s) && LegalEvent(e)
  {
    e.AddressDeviceDone? && s.HasDevice(e.slot) && e.port == s.addressing && s.phases[e.port] == AddressingDevice
  }

  /** How many addresses are assigned in a run. */
  function Assigned(s: Control, events: seq<Event>): nat
    requires Ready(s) && LegalEvents(events)
  {
    if events == [] then 0
    else
      var last := |events| - 1;
      Assigned(s, events[..last]) + if Assigns(HandledAll(s, events[..last]), events[last]) then 1 else 0
  }

  /** How many of the first n ports have not been reset yet. */
  function NotReset(phases: seq<ConfigPhase>, n: nat): (c: nat)
    requires n <= |phases|
    ensures c <= n
  {
    if n == 0 then 0 else NotReset(phases, n - 1) + if Rank(phases[n - 1]) < Rank(ResettingPort) then 1 else 0
  }

  lemma {:induction false} NotResetFalls(before: seq<ConfigPhase>, after: seq<ConfigPhase>, n: nat)
    requires Forward(before, after) && n <= |before|
    ensures NotReset(after, n) <= NotReset(before, n)
    ensures (exists p :: 0 <= p < n && before[p] == WaitingAddressed && after[p] == ResettingPort) ==>
      NotReset(after, n) < NotReset(before, n)
  {
    hide Rank;
    Ranks();
    if n > 0 {
      NotResetFalls(before, after, n - 1);
      ResetRank(before[n - 1], after[n - 1]);
    }
  }

  lemma ResetRank(a: ConfigPhase, b: ConfigPhase)
    requires Rank(a) <= Rank(b)
    ensures Rank(a) >= Rank(ResettingPort) ==> Rank(b) >= Rank(ResettingPort)
    ensures a == WaitingAddressed && b == ResettingPort ==> Rank(a) < Rank(ResettingPort) <= Rank(b)
  {
  }

  lemma {:induction false} StillCounts(phases: seq<ConfigPhase>, n: nat, p: nat)
    requires p < n <= |phases| && phases[p] == WaitingAddressed
    ensures NotReset(phases, n) > 0
  {
    if p < n - 1 {
      StillCounts(phases, n - 1, p);
    }
  }

  /** Each address assigned gives the turn to the waiting port with the lowest number, if that one is connected. */
  lemma TurnGoesToLowest(s: Control, e: Event, p: nat)
    requires Sound(s) && LegalEvent(e) && Assigns(s, e) && p < NUM_PORTS
    requires s.phases[p] == WaitingAddressed && forall q :: 0 <= q < p ==> s.phases[q] != WaitingAddressed
    requires p in e.connected
    ensures var s' := Handled(s, e).0;
      s'.phases == s.phases[e.port := InitializingDevice][p := ResettingPort] && s'.addressing == p
  {
    hide FirstWaiting;
    LowestWaits(s.phases, p);
  }

  lemma TurnTaken(s: Control, e: Event, p: nat, reported: set<nat>)
    requires Sound(s) && LegalEvent(e) && Assigns(s, e) && p < NUM_PORTS && s.phases[p] == WaitingAddressed
    requires WaitingWere(s.phases, reported) && reported <= e.connected
    ensures Ready(Handled(s, e).0)
    ensures exists q :: 0 <= q < NUM_PORTS && s.phases[q] == WaitingAddressed
              && Handled(s, e).0.phases[q] == ResettingPort
  {
    hide FirstWaiting, Handled;
    LowestWaits(s.phases, p);
    var q := FirstWaiting(s.phases, 0);
    IsFirst(s.phases);
    TurnGoesToLowest(s, e, q);
  }

  lemma IsFirst(phases: seq<ConfigPhase>)
    requires |phases| == NUM_PORTS
    ensures var q := FirstWaiting(phases, 0);
      (q < NUM_PORTS ==> phases[q] == WaitingAddressed) && forall k :: 0 <= k < q ==> phases[k] != WaitingAddressed
  {
  }

  /**
   If ports stay connected, a port that still waits after some further events has seen fewer addresses assigned than
   there were ports not reset yet.
   */
  lemma {:induction false} WaitsNotForever(s: Control, first: seq<Event>, more: seq<Event>, p: nat)
    requires Sound(s) && !SomebodyWaits(s.phases) && LegalEvents(first + more) && StayConnected(first + more)
    requires LegalEvents(first) && LegalEvents(more)
    requires p < NUM_PORTS && HandledAll(s, first).phases[p] == WaitingAddressed
    requires HandledAll(s, first + more).phases[p] == WaitingAddressed
    ensures Assigned(HandledAll(s, first), more) + NotReset(HandledAll(s, first + more).phases, NUM_PORTS)
         <= NotReset(HandledAll(s, first).phases, NUM_PORTS)
    decreases |more|
  {
    hide Handled, Rank, NotReset;
    if more == [] {
      assert first + more == first;
    } else {
      var n := |more| - 1;
      var all := first + more;
      assert all[..|all| - 1] == first + more[..n] && all[|all| - 1] == more[n];
      var s1, s2 := HandledAll(s, first + more[..n]), HandledAll(s, all);
      StaysPrefix(all);
      RunSound(s, first);
      RunSound(s, first + more[..n]);
      RunSafe(s, first + more[..n]);
      LegalParts(first, more[..n]);
      Concatenated(s, first, more[..n]);
      HandledKeeps(s1, more[n]);
      StillWaiting(s, first, more[..n], more[n], p);
      WaitsNotForever(s, first, more[..n], p);
      if Assigns(s1, more[n]) {
        ConnectedThen(all);
        TurnTaken(s1, more[n], p, Reported(first + more[..n]));
      }
      NotResetFalls(s1.phases, s2.phases, NUM_PORTS);
    }
  }

  lemma LegalParts(first: seq<Event>, more: seq<Event>)
    requires LegalEvents(first + more)
    ensures LegalEvents(first) && LegalEvents(more)
  {
    forall i | 0 <= i < |first| ensures LegalEvent(first[i]) {
      assert (first + more)[i] == first[i];
    }
    forall i | 0 <= i < |more| ensures LegalEvent(more[i]) {
      assert (first + more)[|first| + i] == more[i];
    }
  }

  lemma {:induction false} Concatenated(s: Control, first: seq<Event>, more: seq<Event>)
    requires Ready(s) && LegalEvents(first) && LegalEvents(more) && LegalEvents(first + more)
    ensures HandledAll(HandledAll(s, first), more) == HandledAll(s, first + more)
    decreases |more|
  {
    hide Handled;
    if more == [] {
      assert first + more == first;
    } else {
      var all, n := first + more, |more| - 1;
      assert all[..|all| - 1] == first + more[..n] && all[|all| - 1] == more[n];
      Concatenated(s, first, more[..n]);
    }
  }

  lemma ConnectedThen(events: seq<Event>)
    requires events != [] && StayConnected(events) && events[|events| - 1].AddressDeviceDone?
    ensures Reported(events[..|events| - 1]) <= events[|events| - 1].connected
  {
  }

  /** Phases only move forward, so a port that waits before and after waits in between. */
  lemma StillWaiting(s: Control, first: seq<Event>, more: seq<Event>, e: Event, p: nat)
    requires Sound(s) && LegalEvents(first) && LegalEvents(more) && LegalEvents(first + more) && LegalEvent(e)
    requires p < NUM_PORTS && HandledAll(s, first).phases[p] == WaitingAddressed
    requires Sound(HandledAll(s, first + more)) && Ready(Handled(HandledAll(s, first + more), e).0)
    requires Handled(HandledAll(s, first + more), e).0.phases[p] == WaitingAddressed
    ensures HandledAll(s, first + more).phases[p] == WaitingAddressed
  {
    hide Handled;
    RunSound(s, first);
    RunSound(HandledAll(s, first), more);
    Concatenated(s, first, more);
    HandledKeeps(HandledAll(s, first + more), e);
    SameRank(HandledAll(s, first + more).phases[p]);
  }

  lemma SameRank(phase: ConfigPhase)
    ensures Rank(phase) == Rank(WaitingAddressed) <==> phase == WaitingAddressed
  {
  }

  /**
   Every port that reported to be connected gets its turn: if ports stay connected, it has been reset once as many
   addresses were assigned as there are ports.
   */
  lemma EveryPortGetsItsTurn(s: Control, first: seq<Event>, more: seq<Event>, p: nat)
    requires Sound(s) && !SomebodyWaits(s.phases) && LegalEvents(first + more) && StayConnected(first + more)
    requires p in Reported(first)
    ensures LegalEvents(first) && LegalEvents(more) && p < NUM_PORTS
    ensures Assigned(HandledAll(s, first), more) >= NUM_PORTS ==>
      Rank(HandledAll(s, first + more).phases[p]) >= Rank(ResettingPort)
  {
    hide Handled, Rank, Assigns, NotReset;
    LegalParts(first, more);
    ReportedLeave(s, first, p);
    RunSound(s, first);
    RunSound(HandledAll(s, first), more);
    Concatenated(s, first, more);
    var before, after := HandledAll(s, first).phases[p], HandledAll(s, first + more).phases[p];
    Moved(before, after);
    if after == WaitingAddressed {
      WaitsNotForever(s, first, more, p);
      StillCounts(HandledAll(s, first + more).phases, NUM_PORTS, p);
    }
  }

  lemma Moved(before: ConfigPhase, after: ConfigPhase)
    requires before != NotConnected && Rank(before) <= Rank(after)
    ensures after == WaitingAddressed ==> before == WaitingAddressed
    ensures after != WaitingAddressed ==> Rank(after) >= Rank(ResettingPort)
  {
  }
}
