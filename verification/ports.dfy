/**
 Configuring the root hub ports: between reset and address assignment only one port may be under way,
 and the others wait.  Register values are inputs of the events.
 */
module Ports {
  import opened Errors

  const NUM_PORTS: nat := 256
  const SUPER_SPEED_PLUS: nat := 5

  datatype ConfigPhase =
    | NotConnected
    | WaitingAddressed
    | ResettingPort
    | EnablingSlot
    | AddressingDevice
    | InitializingDevice
    | ConfiguringEndpoints
    | Configured

  function Rank(phase: ConfigPhase): nat {
    match phase
    case NotConnected => 0
    case WaitingAddressed => 1
    case ResettingPort => 2
    case EnablingSlot => 3
    case AddressingDevice => 4
    case InitializingDevice => 5
    case ConfiguringEndpoints => 6
    case Configured => 7
  }

  predicate Busy(phase: ConfigPhase) {
    phase.ResettingPort? || phase.EnablingSlot? || phase.AddressingDevice?
  }

  /** What a port's status register says. */
  datatype PortStatus = PortStatus(connected: bool, enabled: bool, resetChanged: bool)

  /**
   An event, with the register and context values read while it is handled.  `port` of the completion and
   transfer events is the root hub port number in the device's slot context.
   */
  datatype Event =
    | ConfigurePort(port: nat, status: PortStatus)
    | PortStatusChange(port: nat, status: PortStatus)
    | Transfer(slot: nat, port: nat, result: Error, initialized: bool, speed: nat)
    | EnableSlotDone(slot: nat)
    | AddressDeviceDone(slot: nat, port: nat, connected: set<nat>)
    | ConfigureEndpointDone(slot: nat, port: nat)
    | OtherCommandDone

  /** Port numbers are bytes, and a port that reports for itself is not number 0. */
  predicate LegalEvent(e: Event) {
    match e
    case ConfigurePort(port, _) => 1 <= port < NUM_PORTS
    case PortStatusChange(port, _) => 1 <= port < NUM_PORTS
    case Transfer(_, port, _, _, _) => port < NUM_PORTS
    case AddressDeviceDone(_, port, _) => port < NUM_PORTS
    case ConfigureEndpointDone(_, port) => port < NUM_PORTS
    case _ => true
  }

  // ----- What holds between events -----

  /** A port is resetting, enabling a slot or addressing iff it is the one named, and 0 names none. */
  predicate Exclusive(phases: seq<ConfigPhase>, addressing: nat) {
    && |phases| == NUM_PORTS && addressing < NUM_PORTS && phases[0] == NotConnected
    && forall p :: 0 <= p < NUM_PORTS ==> (Busy(phases[p]) <==> p == addressing && addressing != 0)
  }

  predicate SomebodyWaits(phases: seq<ConfigPhase>) {
    exists p :: 0 <= p < |phases| && phases[p] == WaitingAddressed
  }

  /** When no port is under way none is waiting for its turn. */
  predicate NobodyStranded(phases: seq<ConfigPhase>, addressing: nat) {
    addressing == 0 ==> !SomebodyWaits(phases)
  }

  /** Phases only move forward. */
  predicate Forward(before: seq<ConfigPhase>, after: seq<ConfigPhase>) {
    |before| == |after| && forall p :: 0 <= p < |before| ==> Rank(before[p]) <= Rank(after[p])
  }

  /** The waiting port with the lowest number, or NUM_PORTS. */
  function FirstWaiting(phases: seq<ConfigPhase>, from: nat): (p: nat)
    requires |phases| == NUM_PORTS && from <= NUM_PORTS
    ensures from <= p <= NUM_PORTS && (p < NUM_PORTS ==> phases[p] == WaitingAddressed)
    ensures forall q :: from <= q < p ==> phases[q] != WaitingAddressed
    decreases NUM_PORTS - from
  {
    if from == NUM_PORTS || phases[from] == WaitingAddressed then from else FirstWaiting(phases, from + 1)
  }

  // ----- One event, as a step of the controller's state -----

  datatype Control = Control(phases: seq<ConfigPhase>, addressing: nat, devices: set<nat>, maxSlots: nat) {
    predicate HasDevice(slot: nat) {
      slot <= maxSlots && slot in devices
    }

    function At(port: nat, phase: ConfigPhase): Control
      requires port < |phases|
    {
      this.(phases := phases[port := phase])
    }
  }

  predicate Sound(s: Control) {
    Exclusive(s.phases, s.addressing)
  }

  predicate Ready(s: Control) {
    |s.phases| == NUM_PORTS && s.addressing < NUM_PORTS
  }

  function Reset(s: Control, port: nat, connected: bool): (r: (Control, Error))
    requires Ready(s) && port < NUM_PORTS
    ensures Ready(r.0) && r.0.devices == s.devices
  {
    if !connected then (s, Success)
    else if s.addressing != 0 then (s.At(port, WaitingAddressed), Success)
    else if Rank(s.phases[port]) > Rank(WaitingAddressed) then (s, InvalidPhase)
    else (s.At(port, ResettingPort).(addressing := port), Success)
  }

  /** The state once the turn is given away: to the waiting port with the lowest number, if it is still connected. */
  function HandedOver(s: Control, connected: set<nat>): (r: Control)
    requires Ready(s) && s.addressing == 0
    ensures Ready(r) && r.devices == s.devices && r.maxSlots == s.maxSlots
  {
    var next := FirstWaiting(s.phases, 0);
    if next < NUM_PORTS && next in connected then s.At(next, ResettingPort).(addressing := next) else s
  }

  /** What an event does: the state after it, and what the handler answers. */
  function Handled(s: Control, e: Event): (r: (Control, Error))
    requires Ready(s) && LegalEvent(e)
    ensures Ready(r.0)
  {
    match e
    case ConfigurePort(port, status) =>
      if s.phases[port].NotConnected? then Reset(s, port, status.connected) else (s, Success)
    case PortStatusChange(port, status) =>
      if s.phases[port].NotConnected? then Reset(s, port, status.connected)
      else if !s.phases[port].ResettingPort? then (s, InvalidPhase)
      else (if status.enabled && status.resetChanged then s.At(port, EnablingSlot) else s, Success)
    case Transfer(slot, port, result, initialized, speed) =>
      if !s.HasDevice(slot) then (s, InvalidSlotID)
      else if result != Success then (s, result)
      else if !initialized || !s.phases[port].InitializingDevice? then (s, Success)
      else if speed == 0 || speed > SUPER_SPEED_PLUS then (s, UnknownXHCISpeedID)
      else (s.At(port, ConfiguringEndpoints), Success)
    case EnableSlotDone(slot) =>
      if !s.phases[s.addressing].EnablingSlot? then (s, InvalidPhase)
      else if slot > s.maxSlots then (s, InvalidSlotID)
      else (s.At(s.addressing, AddressingDevice).(devices := s.devices + {slot}), Success)
    case AddressDeviceDone(slot, port, connected) =>
      if !s.HasDevice(slot) then (s, InvalidSlotID)
      else if port != s.addressing || !s.phases[port].AddressingDevice? then (s, InvalidPhase)
      else (HandedOver(s.(addressing := 0), connected).At(port, InitializingDevice), Success)
    case ConfigureEndpointDone(slot, port) =>
      if !s.HasDevice(slot) then (s, InvalidSlotID)
      else if !s.phases[port].ConfiguringEndpoints? then (s, InvalidPhase)
      else (s.At(port, Configured), Success)
    case OtherCommandDone => (s, InvalidPhase)
  }

  predicate LegalEvents(events: seq<Event>) {
    forall i :: 0 <= i < |events| ==> LegalEvent(events[i])
  }

  function HandledAll(s: Control, events: seq<Event>): (r: Control)
    requires Ready(s) && LegalEvents(events)
    ensures Ready(r)
  {
    if events == [] then s
    else
      var last := |events| - 1;
      Handled(HandledAll(s, events[..last]), events[last]).0
  }

  // ----- What every event, and so every run, keeps -----

  lemma ResetKeeps(s: Control, port: nat, connected: bool)
    requires Sound(s) && 1 <= port < NUM_PORTS && s.phases[port].NotConnected?
    ensures var (s', err) := Reset(s, port, connected);
            && Sound(s') && Forward(s.phases, s'.phases) && err == Success
            && (NobodyStranded(s.phases, s.addressing) ==> NobodyStranded(s'.phases, s'.addressing))
  {
  }

  lemma Ranks()
    ensures Rank(AddressingDevice) < Rank(InitializingDevice) && Rank(WaitingAddressed) < Rank(ResettingPort)
  {
  }

  lemma HandedOverKeeps(s: Control, port: nat, connected: set<nat>)
    requires Sound(s) && port == s.addressing && s.phases[port].AddressingDevice?
    ensures var s' := HandedOver(s.(addressing := 0), connected).At(port, InitializingDevice);
            var next := FirstWaiting(s.phases, 0);
            && Sound(s') && Forward(s.phases, s'.phases)
            && (NobodyStranded(s'.phases, s'.addressing) <==> next == NUM_PORTS || next in connected)
  {
    hide Rank, FirstWaiting;
    var s' := HandedOver(s.(addressing := 0), connected).At(port, InitializingDevice);
    var next := FirstWaiting(s.phases, 0);
    assert Rank(AddressingDevice) < Rank(InitializingDevice) && Rank(WaitingAddressed) < Rank(ResettingPort) by {
      Ranks();
    }
    if next < NUM_PORTS && next !in connected {
      assert s'.phases[next] == WaitingAddressed;
    }
  }

  /** Addressing stays exclusive, phases only move forward, and an event that fails changes nothing. */
  lemma HandledKeeps(s: Control, e: Event)
    requires Sound(s) && LegalEvent(e)
    ensures var (s', err) := Handled(s, e);
            Sound(s') && Forward(s.phases, s'.phases) && (err != Success ==> s' == s)
  {
    hide FirstWaiting, Reset, HandedOver;
    match e {
      case ConfigurePort(port, status) =>
        if s.phases[port].NotConnected? {
          ResetKeeps(s, port, status.connected);
        }
      case PortStatusChange(port, status) =>
        if s.phases[port].NotConnected? {
          ResetKeeps(s, port, status.connected);
        }
      case AddressDeviceDone(slot, port, connected) =>
        if s.addressing == port && s.phases[port].AddressingDevice? {
          HandedOverKeeps(s, port, connected);
        }
      case _ =>
    }
  }

  /**
   An event strands waiting ports exactly if it assigns an address to the port under way while there are waiting
   ports and the lowest of them is gone.
   */
  lemma HandledStrands(s: Control, e: Event)
    requires Sound(s) && LegalEvent(e) && NobodyStranded(s.phases, s.addressing)
    ensures var s' := Handled(s, e).0;
            var next := FirstWaiting(s.phases, 0);
            NobodyStranded(s'.phases, s'.addressing) <==>
            || !e.AddressDeviceDone? || !s.HasDevice(e.slot)
            || e.port != s.addressing || !s.phases[e.port].AddressingDevice?
            || next == NUM_PORTS || next in e.connected
  {
    hide FirstWaiting, Reset, HandedOver;
    match e {
      case ConfigurePort(port, status) =>
        if s.phases[port].NotConnected? {
          ResetKeeps(s, port, status.connected);
        }
      case PortStatusChange(port, status) =>
        if s.phases[port].NotConnected? {
          ResetKeeps(s, port, status.connected);
        }
      case AddressDeviceDone(slot, port, connected) =>
        if s.addressing == port && s.phases[port].AddressingDevice? {
          HandedOverKeeps(s, port, connected);
        }
      case _ =>
    }
  }

  /** Port 1 has got its address; port 2, the lowest that waits, is gone; nobody serves port 3, which is still there. */
  lemma PortThreeIsStranded()
    ensures var s := Control(seq(NUM_PORTS, p => if p == 1 then AddressingDevice
                                                 else if p == 2 || p == 3 then WaitingAddressed else NotConnected),
                             1, {5}, 8);
            && Sound(s) && NobodyStranded(s.phases, s.addressing)
            && var s' := Handled(s, AddressDeviceDone(5, 1, {1, 3})).0;
               s'.phases[3] == WaitingAddressed && !NobodyStranded(s'.phases, s'.addressing)
  {
    var s := Control(seq(NUM_PORTS, p => if p == 1 then AddressingDevice
                                         else if p == 2 || p == 3 then WaitingAddressed else NotConnected),
                     1, {5}, 8);
    assert s.phases[2] == WaitingAddressed;
    assert FirstWaiting(s.phases, 0) == FirstWaiting(s.phases, 1) == FirstWaiting(s.phases, 2) == 2;
    HandledStrands(s, AddressDeviceDone(5, 1, {1, 3}));
  }

  /** The ports that reported to be connected. */
  function Reported(events: seq<Event>): set<nat> {
    if events == [] then {}
    else
      Reported(events[..|events| - 1]) +
      match events[|events| - 1] {
        case ConfigurePort(port, status) => if status.connected then {port} else {}
        case PortStatusChange(port, status) => if status.connected then {port} else {}
        case _ => {}
      }
  }

  /** Whatever port was found connected is still connected whenever an address was assigned. */
  predicate StayConnected(events: seq<Event>) {
    forall i :: 0 <= i < |events| && events[i].AddressDeviceDone? ==> Reported(events[..i]) <= events[i].connected
  }

  ghost predicate WaitingWere(phases: seq<ConfigPhase>, reported: set<nat>) {
    forall p :: 0 <= p < |phases| && phases[p] == WaitingAddressed ==> p in reported
  }

  /** Only a port that is found connected begins to wait. */
  lemma HandledWaiting(s: Control, e: Event, reported: set<nat>)
    requires Sound(s) && LegalEvent(e) && WaitingWere(s.phases, reported)
    ensures WaitingWere(Handled(s, e).0.phases, reported + Reported([e]))
  {
    assert [e][..0] == [];
  }

  /**
   Any events in any order: at the end, as at every event boundary on the way, addressing is exclusive and
   phases have only moved forward; and if ports stay connected, nobody waits while no port is under way.
   */
  lemma {:induction false} RunSafe(s: Control, events: seq<Event>)
    requires Sound(s) && LegalEvents(events) && !SomebodyWaits(s.phases)
    ensures var s' := HandledAll(s, events);
            && Sound(s') && Forward(s.phases, s'.phases) && WaitingWere(s'.phases, Reported(events))
            && (StayConnected(events) ==> NobodyStranded(s'.phases, s'.addressing))
  {
    hide Handled, Rank, NobodyStranded, SomebodyWaits;
    if events == [] {
      NothingYet(s);
    } else {
      var last := |events| - 1;
      var s1 := HandledAll(s, events[..last]);
      RunSafe(s, events[..last]);
      HandledKeeps(s1, events[last]);
      HandledWaiting(s1, events[last], Reported(events[..last]));
      assert Reported(events[..last]) + Reported([events[last]]) == Reported(events) by {
        assert [events[last]][..0] == [];
      }
      if StayConnected(events) {
        StaysPrefix(events);
        HandledStrands(s1, events[last]);
      }
    }
  }

  lemma NothingYet(s: Control)
    requires Sound(s) && !SomebodyWaits(s.phases)
    ensures Forward(s.phases, s.phases) && NobodyStranded(s.phases, s.addressing)
    ensures WaitingWere(s.phases, {})
  {
  }

  lemma StaysPrefix(events: seq<Event>)
    requires events != [] && StayConnected(events)
    ensures StayConnected(events[..|events| - 1])
  {
    var before := events[..|events| - 1];
    forall i | 0 <= i < |before| && before[i].AddressDeviceDone? ensures Reported(before[..i]) <= before[i].connected {
      assert before[..i] == events[..i];
    }
  }

  class Controller {
    const phases: array<ConfigPhase>
    const maxSlots: nat
    var addressingPort: nat
    var devices: set<nat>

    constructor (maxSlots: nat)
      ensures fresh(phases) && this.maxSlots == maxSlots && devices == {}
      ensures Exclusive(phases[..], addressingPort) && addressingPort == 0
      ensures forall p :: 0 <= p < NUM_PORTS ==> phases[p] == NotConnected
    {
      phases := new ConfigPhase[NUM_PORTS](_ => NotConnected);
      this.maxSlots := maxSlots;
      addressingPort, devices := 0, {};
    }

    function State(): Control
      reads this, phases
    {
      Control(phases[..], addressingPort, devices, maxSlots)
    }

    ghost predicate Valid()
      reads this, phases
    {
      Sound(State())
    }

    predicate HasDevice(slot: nat)
      reads this
    {
      slot <= maxSlots && slot in devices
    }

    /** Begins with a connected port, or makes it wait while another one is under way. */
    method ResetPort(port: nat, connected: bool) returns (err: Error)
      requires Ready(State()) && port < NUM_PORTS
      modifies phases, this`addressingPort
      ensures (State(), err) == Reset(old(State()), port, connected)
      ensures connected && old(addressingPort) != 0 ==>
        phases[port] == WaitingAddressed && addressingPort == old(addressingPort) && err == Success
      ensures connected && old(addressingPort) == 0 && Rank(old(phases[port])) <= 1 ==>
        phases[port] == ResettingPort && addressingPort == port && err == Success
      ensures !connected || (old(addressingPort) == 0 && Rank(old(phases[port])) > 1) ==>
        phases[..] == old(phases[..]) && addressingPort == old(addressingPort)
    {
      if !connected {
        return Success;
      }
      if addressingPort != 0 {
        phases[port] := WaitingAddressed;
      } else {
        if phases[port] != NotConnected && phases[port] != WaitingAddressed {
          return InvalidPhase;
        }
        addressingPort := port;
        phases[port] := ResettingPort;
      }
      err := Success;
    }

    method EnableSlot(port: nat, status: PortStatus) returns (err: Error)
      requires phases.Length == NUM_PORTS && port < NUM_PORTS
      modifies phases
      ensures err == Success
      ensures phases[..] == if status.enabled && status.resetChanged then old(phases[..])[port := EnablingSlot]
          else old(phases[..])
    {
      if status.enabled && status.resetChanged {
        phases[port] := EnablingSlot;
      }
      err := Success;
    }

    /** A device already in the slot is used as it is; no slot beyond the last can hold one. */
    method AddressDevice(port: nat, slot: nat) returns (err: Error)
      requires phases.Length == NUM_PORTS && port < NUM_PORTS
      modifies phases, this`devices
      ensures slot > maxSlots ==> err == InvalidSlotID && phases[..] == old(phases[..]) && devices == old(devices)
      ensures slot <= maxSlots ==>
                err == Success && phases[..] == old(phases[..])[port := AddressingDevice]
                    && devices == old(devices) + {slot}
    {
      if slot <= maxSlots {
        devices := devices + {slot};
      }
      if !HasDevice(slot) {
        return InvalidSlotID;
      }
      phases[port] := AddressingDevice;
      err := Success;
    }

    /** Moves one port on to a later phase, if its device is there. */
    method Advance(port: nat, slot: nat, phase: ConfigPhase) returns (err: Error)
      requires phases.Length == NUM_PORTS && port < NUM_PORTS
      modifies phases
      ensures !HasDevice(slot) ==> err == InvalidSlotID && phases[..] == old(phases[..])
      ensures HasDevice(slot) ==> err == Success && phases[..] == old(phases[..])[port := phase]
    {
      if !HasDevice(slot) {
        return InvalidSlotID;
      }
      phases[port] := phase;
      err := Success;
    }

    /** Begins with a port that is not connected yet, or lets it wait; any other is left alone. */
    method OnConfigurePort(port: nat, status: PortStatus) returns (err: Error)
      requires Valid() && 1 <= port < NUM_PORTS
      modifies phases, this`addressingPort
      ensures Valid() && (State(), err) == Handled(old(State()), Event.ConfigurePort(port, status))
    {
      HandledKeeps(State(), Event.ConfigurePort(port, status));
      if phases[port] == NotConnected {
        err := ResetPort(port, status.connected);
      } else {
        err := Success;
      }
    }

    /**
     A status change moves a port that is not connected, or one under reset; any other is an error and changes nothing.
     */
    method OnPortStatusChange(port: nat, status: PortStatus) returns (err: Error)
      requires Valid() && 1 <= port < NUM_PORTS
      modifies phases, this`addressingPort
      ensures Valid() && (State(), err) == Handled(old(State()), PortStatusChange(port, status))
    {
      HandledKeeps(State(), PortStatusChange(port, status));
      match phases[port] {
        case NotConnected => err := ResetPort(port, status.connected);
        case ResettingPort => err := EnableSlot(port, status);
        case _ => err := InvalidPhase;
      }
    }

    method OnTransfer(slot: nat, port: nat, result: Error, initialized: bool, speed: nat) returns (err: Error)
      requires Valid() && port < NUM_PORTS
      modifies phases
      ensures Valid() && (State(), err) == Handled(old(State()), Transfer(slot, port, result, initialized, speed))
    {
      HandledKeeps(State(), Transfer(slot, port, result, initialized, speed));
      if !HasDevice(slot) {
        return InvalidSlotID;
      }
      if result != Success {
        return result;
      }
      if initialized && phases[port] == InitializingDevice {
        if speed == 0 || speed > SUPER_SPEED_PLUS {
          return UnknownXHCISpeedID;
        }
        phases[port] := ConfiguringEndpoints;
      }
      err := Success;
    }

    method OnEnableSlotDone(slot: nat) returns (err: Error)
      requires Valid()
      modifies phases, this`devices
      ensures Valid() && (State(), err) == Handled(old(State()), EnableSlotDone(slot))
    {
      HandledKeeps(State(), EnableSlotDone(slot));
      if phases[addressingPort] != EnablingSlot {
        return InvalidPhase;
      }
      err := AddressDevice(addressingPort, slot);
    }

    /** Gives the turn to the waiting port with the lowest number, if that one is still connected. */
    method HandOver(connected: set<nat>)
      requires Ready(State()) && addressingPort == 0
      modifies phases, this`addressingPort
      ensures State() == HandedOver(old(State()), connected)
    {
      var i := 0;
      while i < NUM_PORTS
        invariant 0 <= i <= NUM_PORTS && phases[..] == old(phases[..]) && addressingPort == 0
        invariant FirstWaiting(old(phases[..]), 0) == FirstWaiting(old(phases[..]), i)
      {
        if phases[i] == WaitingAddressed {
          var _ := ResetPort(i, i in connected);
          return;
        }
        i := i + 1;
      }
    }

    /**
     A device has its address: the turn goes to the waiting port with the lowest number if that one is still
     connected, and otherwise to none.
     */
    method OnAddressDeviceDone(slot: nat, port: nat, connected: set<nat>) returns (err: Error)
      requires Valid() && port < NUM_PORTS
      modifies phases, this`addressingPort
      ensures Valid() && (State(), err) == Handled(old(State()), AddressDeviceDone(slot, port, connected))
    {
      HandledKeeps(State(), AddressDeviceDone(slot, port, connected));
      if !HasDevice(slot) {
        return InvalidSlotID;
      }
      if port != addressingPort {
        return InvalidPhase;
      }
      if phases[port] != AddressingDevice {
        return InvalidPhase;
      }
      addressingPort := 0;
      HandOver(connected);
      err := Advance(port, slot, InitializingDevice);
    }

    method OnConfigureEndpointDone(slot: nat, port: nat) returns (err: Error)
      requires Valid() && port < NUM_PORTS
      modifies phases
      ensures Valid() && (State(), err) == Handled(old(State()), ConfigureEndpointDone(slot, port))
    {
      HandledKeeps(State(), ConfigureEndpointDone(slot, port));
      if !HasDevice(slot) {
        return InvalidSlotID;
      }
      if phases[port] != ConfiguringEndpoints {
        return InvalidPhase;
      }
      err := Advance(port, slot, Configured);
    }
  }

  /** Dispatches an event. */
  method Handle(c: Controller, e: Event) returns (err: Error)
    requires c.Valid() && LegalEvent(e)
    modifies c, c.phases
    ensures c.Valid() && (c.State(), err) == Handled(old(c.State()), e)
  {
    match e {
      case ConfigurePort(port, status) => err := c.OnConfigurePort(port, status);
      case PortStatusChange(port, status) => err := c.OnPortStatusChange(port, status);
      case Transfer(slot, port, result, initialized, speed) =>
        err := c.OnTransfer(slot, port, result, initialized, speed);
      case EnableSlotDone(slot) => err := c.OnEnableSlotDone(slot);
      case AddressDeviceDone(slot, port, connected) => err := c.OnAddressDeviceDone(slot, port, connected);
      case ConfigureEndpointDone(slot, port) => err := c.OnConfigureEndpointDone(slot, port);
      case OtherCommandDone => err := InvalidPhase;
    }
  }

  /** A run of the controller, from a state in which no port waits. */
  method Run(c: Controller, events: seq<Event>)
    requires c.Valid() && LegalEvents(events) && !SomebodyWaits(c.phases[..])
    modifies c, c.phases
    ensures c.Valid() && c.State() == HandledAll(old(c.State()), events)
    ensures Forward(old(c.phases[..]), c.phases[..])
    ensures StayConnected(events) ==> NobodyStranded(c.phases[..], c.addressingPort)
  {
    hide Handled, Rank, SomebodyWaits;
    ghost var was := c.State();
    var i := 0;
    while i < |events|
      invariant 0 <= i <= |events| && c.Valid() && c.State() == HandledAll(was, events[..i])
    {
      assert events[..i + 1][..i] == events[..i];
      var _ := Handle(c, events[i]);
      i := i + 1;
    }
    assert events[..i] == events;
    RunSafe(was, events);
  }
}
