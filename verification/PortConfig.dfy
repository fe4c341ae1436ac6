/** Bringing up the ports of the USB controller (kernel/usb/xhci/xhci.cpp, xHCI
    section 4.3). One port at a time may be between its reset and its address. */
module PortConfig {

  datatype Phase =
    | NotConnected | WaitingAddressed | ResettingPort | EnablingSlot | AddressingDevice
    | InitializingDevice | ConfiguringEndpoints | Configured

  function Rank(p: Phase): nat {
    match p
    case NotConnected => 0 case WaitingAddressed => 1 case ResettingPort => 2 case EnablingSlot => 3
    case AddressingDevice => 4 case InitializingDevice => 5 case ConfiguringEndpoints => 6 case Configured => 7
  }

  const PORTS := 256
  const MAX_SLOTS := 8
  const SUPER_SPEED_PLUS := 5

  datatype Error = Success | InvalidPhase | InvalidSlotID | UnknownSpeed | TransferFailed

  /** What the handlers do to the controller and to devices: requests to a
      port's register, commands on the command ring, calls of a device. */
  datatype Action =
    | PortReset(port: nat)
    | ClearPortResetChange(port: nat)
    | EnableSlotCommand
    | AddressDeviceCommand(slot: nat)
    | StartInitialize(slot: nat)
    | ConfigureEndpointCommand(slot: nat)
    | EndpointsConfigured(slot: nat)

  /** What the port's registers say while an event is handled. */
  datatype PortStatus = PortStatus(connected: bool, enabled: bool, resetChanged: bool, speed: nat)

  /** `port` of a transfer or command completion is the root hub port number in
      the device's context, which the controller writes; nothing is assumed
      about it. Neither is anything about the order of events. */
  datatype Event =
    | ConfigurePort(port: nat)
    | PortStatusChange(port: nat)
    | Transfer(slot: nat, failed: bool, initialized: bool, port: nat)
    | EnableSlotDone(slot: nat)
    | AddressDeviceDone(slot: nat, port: nat)
    | ConfigureEndpointDone(slot: nat, port: nat)
    | OtherCommandDone

  datatype Setup = Setup(phases: seq<Phase>, addressing: nat, devices: set<nat>, actions: seq<Action>) {
    predicate Shape() {
      |phases| == PORTS && addressing < PORTS
    }

    function SetPhase(port: nat, p: Phase): Setup
      requires port < |phases|
    {
      this.(phases := phases[port := p])
    }

    predicate Found(slot: nat) {
      slot <= MAX_SLOTS && slot in devices
    }

    function Do(a: Action): Setup {
      this.(actions := actions + [a])
    }
  }

  // Handlers

  function Reset(s: Setup, port: nat, connected: bool): (Setup, Error)
    requires s.Shape() && port < PORTS
  {
    if !connected then (s, Success)
    else if s.addressing != 0 then (s.SetPhase(port, WaitingAddressed), Success)
    else if s.phases[port] != NotConnected && s.phases[port] != WaitingAddressed then (s, InvalidPhase)
    else (s.(addressing := port).SetPhase(port, ResettingPort).Do(PortReset(port)), Success)
  }

  function Enable(s: Setup, port: nat, status: PortStatus): Setup
    requires s.Shape() && port < PORTS
  {
    if status.enabled && status.resetChanged then
      s.Do(ClearPortResetChange(port)).SetPhase(port, EnablingSlot).Do(EnableSlotCommand)
    else
      s
  }

  function Address(s: Setup, slot: nat): (Setup, Error)
    requires s.Shape()
  {
    var r := if slot <= MAX_SLOTS then s.(devices := s.devices + {slot}) else s;
    if !r.Found(slot) then (r, InvalidSlotID)
    else (r.SetPhase(s.addressing, AddressingDevice).Do(AddressDeviceCommand(slot)), Success)
  }

  /** The lowest port from `from` on that waits for its turn, or none. */
  function FirstWaiting(phases: seq<Phase>, from: nat): (r: nat)
    requires from <= |phases|
    ensures from <= r <= |phases|
    ensures forall i :: from <= i < r ==> phases[i] != WaitingAddressed
    ensures r < |phases| ==> phases[r] == WaitingAddressed
    decreases |phases| - from
  {
    if from == |phases| || phases[from] == WaitingAddressed then from else FirstWaiting(phases, from + 1)
  }

  function Initialize(s: Setup, port: nat, slot: nat): (Setup, Error)
    requires s.Shape() && port < PORTS
  {
    if !s.Found(slot) then (s, InvalidSlotID)
    else (s.SetPhase(port, InitializingDevice).Do(StartInitialize(slot)), Success)
  }

  /** The turn passes to the lowest port that waits. */
  function PassTurn(s: Setup, ports: seq<PortStatus>): (Setup, Error)
    requires s.Shape() && |ports| == PORTS
  {
    var r := s.(addressing := 0);
    var next := FirstWaiting(r.phases, 0);
    if next < PORTS then Reset(r, next, ports[next].connected) else (r, Success)
  }

  function Addressed(s: Setup, ports: seq<PortStatus>, slot: nat, port: nat): (Setup, Error)
    requires s.Shape() && |ports| == PORTS && port < PORTS
  {
    if !s.Found(slot) then (s, InvalidSlotID)
    else if port != s.addressing || s.phases[port] != AddressingDevice then (s, InvalidPhase)
    else
      var (r, e) := PassTurn(s, ports);
      if e != Success then (r, e) else Initialize(r, port, slot)
  }

  function Endpoints(s: Setup, port: nat, slot: nat, speed: nat): (Setup, Error)
    requires s.Shape() && port < PORTS
  {
    if speed == 0 || speed > SUPER_SPEED_PLUS then (s, UnknownSpeed)
    else (s.SetPhase(port, ConfiguringEndpoints).Do(ConfigureEndpointCommand(slot)), Success)
  }

  /** The port of an event is one of the controller's ports. */
  predicate Enabled(e: Event) {
    match e
    case ConfigurePort(port) => 0 < port < PORTS
    case PortStatusChange(port) => 0 < port < PORTS
    case Transfer(_, _, _, port) => port < PORTS
    case AddressDeviceDone(_, port) => port < PORTS
    case ConfigureEndpointDone(_, port) => port < PORTS
    case _ => true
  }

  function Handle(s: Setup, ports: seq<PortStatus>, e: Event): (Setup, Error)
    requires s.Shape() && |ports| == PORTS && Enabled(e)
  {
    match e
    case ConfigurePort(port) =>
      if s.phases[port] == NotConnected then Reset(s, port, ports[port].connected) else (s, Success)
    case PortStatusChange(port) =>
      if s.phases[port] == NotConnected then Reset(s, port, ports[port].connected)
      else if s.phases[port] == ResettingPort then (Enable(s, port, ports[port]), Success)
      else (s, InvalidPhase)
    case Transfer(slot, failed, initialized, port) =>
      if !s.Found(slot) then (s, InvalidSlotID)
      else if failed then (s, TransferFailed)
      else if initialized && s.phases[port] == InitializingDevice then Endpoints(s, port, slot, ports[port].speed)
      else (s, Success)
    case EnableSlotDone(slot) =>
      if s.phases[s.addressing] != EnablingSlot then (s, InvalidPhase) else Address(s, slot)
    case AddressDeviceDone(slot, port) => Addressed(s, ports, slot, port)
    case ConfigureEndpointDone(slot, port) =>
      if !s.Found(slot) then (s, InvalidSlotID)
      else if s.phases[port] != ConfiguringEndpoints then (s, InvalidPhase)
      else (s.Do(EndpointsConfigured(slot)).SetPhase(port, Configured), Success)
    case OtherCommandDone => (s, InvalidPhase)
  }

  // Invariants

  predicate Addressing(p: Phase) {
    p == ResettingPort || p == EnablingSlot || p == AddressingDevice
  }

  /** The ports between reset and address are exactly the one whose turn it is. */
  ghost predicate Exclusive(s: Setup) {
    && s.Shape() && s.phases[0] == NotConnected
    && forall i :: 0 <= i < PORTS ==> (Addressing(s.phases[i]) <==> s.addressing != 0 && i == s.addressing)
  }

  /** Nobody waits while it is nobody's turn. */
  ghost predicate NoneIdle(s: Setup)
    requires s.Shape()
  {
    s.addressing == 0 ==> forall i :: 0 <= i < PORTS ==> s.phases[i] != WaitingAddressed
  }

  function Start(): Setup {
    Setup(seq(PORTS, _ => NotConnected), 0, {}, [])
  }

  /** Phases only go up. */
  ghost predicate Ahead(s: Setup, r: Setup) {
    |r.phases| == |s.phases| && forall i :: 0 <= i < |s.phases| ==> Rank(s.phases[i]) <= Rank(r.phases[i])
  }

  ghost predicate Kept(s: Setup, r: Setup) {
    Exclusive(r) && Ahead(s, r)
  }

  lemma ResetKeeps(s: Setup, port: nat, connected: bool)
    requires Exclusive(s) && 0 < port < PORTS && (s.phases[port] == NotConnected || s.phases[port] == WaitingAddressed)
    ensures Kept(s, Reset(s, port, connected).0) && Reset(s, port, connected).1 == Success
    ensures NoneIdle(s) ==> NoneIdle(Reset(s, port, connected).0)
  {
  }

  lemma EnableKeeps(s: Setup, port: nat, status: PortStatus)
    requires Exclusive(s) && 0 < port < PORTS && s.phases[port] == ResettingPort
    ensures Kept(s, Enable(s, port, status))
  {
  }

  lemma AddressKeeps(s: Setup, slot: nat)
    requires Exclusive(s) && s.phases[s.addressing] == EnablingSlot
    ensures Kept(s, Address(s, slot).0)
  {
  }

  lemma SetLaterKeeps(s: Setup, port: nat, p: Phase)
    requires Exclusive(s) && port < PORTS && Rank(InitializingDevice) <= Rank(s.phases[port]) <= Rank(p)
    ensures Kept(s, s.SetPhase(port, p))
  {
  }

  /** The port that was addressed goes on, and the lowest waiting port, if it is
      still connected, gets the turn. */
  lemma AddressedKeeps(s: Setup, ports: seq<PortStatus>, slot: nat, port: nat)
    requires Exclusive(s) && |ports| == PORTS && port < PORTS
    ensures Kept(s, Addressed(s, ports, slot, port).0)
  {
    if s.Found(slot) && port == s.addressing && s.phases[port] == AddressingDevice {
      var next := FirstWaiting(s.phases, 0);
      if next < PORTS {
        assert next != port && next > 0;
      }
    }
  }

  lemma DoKeeps(s: Setup, r: Setup, a: Action)
    requires Kept(s, r)
    ensures Kept(s, r.Do(a))
  {
  }

  /** Every event, in any state and with any contents, keeps the turn exclusive
      and moves no port back. */
  lemma HandleKeeps(s: Setup, ports: seq<PortStatus>, e: Event)
    requires Exclusive(s) && |ports| == PORTS && Enabled(e)
    ensures Exclusive(Handle(s, ports, e).0) && Ahead(s, Handle(s, ports, e).0)
  {
    assert s.Shape() && Ahead(s, s);
    hide Exclusive, Ahead;
    match e
    case ConfigurePort(port) =>
      if s.phases[port] == NotConnected { ResetKeeps(s, port, ports[port].connected); }
    case PortStatusChange(port) =>
      if s.phases[port] == NotConnected { ResetKeeps(s, port, ports[port].connected); }
      else if s.phases[port] == ResettingPort { EnableKeeps(s, port, ports[port]); }
    case Transfer(slot, failed, initialized, port) =>
      if s.phases[port] == InitializingDevice {
        SetLaterKeeps(s, port, ConfiguringEndpoints);
        DoKeeps(s, s.SetPhase(port, ConfiguringEndpoints), ConfigureEndpointCommand(slot));
      }
    case EnableSlotDone(slot) =>
      if s.phases[s.addressing] == EnablingSlot { AddressKeeps(s, slot); }
    case AddressDeviceDone(slot, port) => AddressedKeeps(s, ports, slot, port);
    case ConfigureEndpointDone(slot, port) =>
      if s.phases[port] == ConfiguringEndpoints {
        SetLaterKeeps(s, port, Configured);
        DoKeeps(s, s.SetPhase(port, Configured), EndpointsConfigured(slot));
      }
    case OtherCommandDone =>
  }

  /** Every waiting port is still connected. */
  ghost predicate WaitersConnected(s: Setup, ports: seq<PortStatus>)
    requires s.Shape() && |ports| == PORTS
  {
    forall i :: 0 <= i < PORTS && s.phases[i] == WaitingAddressed ==> ports[i].connected
  }

  /** When a device has its address, the turn goes to a waiting port iff the
      lowest of them is still connected; a port that was unplugged while it
      waited leaves the others waiting while it is nobody's turn. */
  lemma TurnPasses(s: Setup, ports: seq<PortStatus>, slot: nat, port: nat)
    requires Exclusive(s) && |ports| == PORTS && 0 < port == s.addressing && s.phases[port] == AddressingDevice
      && s.Found(slot)
    ensures
      var r := Addressed(s, ports, slot, port).0;
      var next := FirstWaiting(s.phases, 0);
      && Addressed(s, ports, slot, port).1 == Success
      && r.phases[port] == InitializingDevice
      && (next < PORTS && ports[next].connected ==> r.addressing == next && r.phases[next] == ResettingPort)
      && (NoneIdle(r) <==> (next < PORTS ==> ports[next].connected))
      && (forall i :: 0 <= i < PORTS && i != port && i != next ==> r.phases[i] == s.phases[i])
  {
    var next := FirstWaiting(s.phases, 0);
    var r := Addressed(s, ports, slot, port).0;
    if next < PORTS {
      assert next != port && next > 0;
      assert r.phases[next] == if ports[next].connected then ResettingPort else WaitingAddressed;
    }
  }

  /** If waiting ports stay connected, it is nobody's turn only when nobody
      waits. */
  lemma NoneIdleKeeps(s: Setup, ports: seq<PortStatus>, e: Event)
    requires Exclusive(s) && NoneIdle(s) && |ports| == PORTS && Enabled(e) && WaitersConnected(s, ports)
    ensures Handle(s, ports, e).0.Shape() && NoneIdle(Handle(s, ports, e).0)
  {
    NoneIdleExact(s, ports, e);
    hide Handle, EndsTurn;
  }

  // Runs

  datatype Step = Step(ports: seq<PortStatus>, event: Event) {
    predicate Valid() {
      |ports| == PORTS && Enabled(event)
    }
  }

  ghost predicate AllValid(steps: seq<Step>) {
    forall i :: 0 <= i < |steps| ==> steps[i].Valid()
  }

  ghost function Run(s: Setup, steps: seq<Step>): (r: Setup)
    requires Exclusive(s) && AllValid(steps)
    ensures Exclusive(r)
  {
    if steps == [] then s
    else
      var m := Run(s, steps[..|steps| - 1]);
      var last := steps[|steps| - 1];
      HandleKeeps(m, last.ports, last.event);
      Handle(m, last.ports, last.event).0
  }

  /** How often the phase of a port changes in a run. */
  ghost function Changes(s: Setup, steps: seq<Step>, port: nat): nat
    requires Exclusive(s) && AllValid(steps) && port < PORTS
  {
    if steps == [] then 0
    else
      var before := steps[..|steps| - 1];
      Changes(s, before, port) + if Run(s, steps).phases[port] != Run(s, before).phases[port] then 1 else 0
  }

  lemma RanksDiffer(p: Phase, q: Phase)
    ensures Rank(p) == Rank(q) <==> p == q
  {
  }

  /** A port passes through each phase at most once, so its phase changes at
      most seven times in any run. */
  lemma {:induction false} ChangesBounded(s: Setup, steps: seq<Step>, port: nat)
    requires Exclusive(s) && AllValid(steps) && port < PORTS
    ensures Rank(s.phases[port]) + Changes(s, steps, port) <= Rank(Run(s, steps).phases[port]) <= 7
  {
    if steps != [] {
      var before, last := steps[..|steps| - 1], steps[|steps| - 1];
      ChangesBounded(s, before, port);
      var m := Run(s, before);
      HandleKeeps(m, last.ports, last.event);
      RanksDiffer(m.phases[port], Run(s, steps).phases[port]);
      hide Handle;
    }
  }

  lemma StartExclusive()
    ensures Exclusive(Start()) && NoneIdle(Start())
  {
  }

  /** In every run from the start in which waiting ports stay connected, if it is
      nobody's turn then nobody waits. */
  lemma {:induction false} RunNoneIdle(steps: seq<Step>)
    requires Exclusive(Start()) && AllValid(steps)
    requires forall i :: 0 <= i < |steps| ==> WaitersConnected(Run(Start(), steps[..i]), steps[i].ports)
    ensures NoneIdle(Run(Start(), steps))
  {
    StartExclusive();
    hide Handle, NoneIdle, WaitersConnected, Exclusive;
    if steps != [] {
      var before, last := steps[..|steps| - 1], steps[|steps| - 1];
      assert forall i :: 0 <= i < |before| ==> before[..i] == steps[..i] && before[i] == steps[i];
      RunNoneIdle(before);
      NoneIdleKeeps(Run(Start(), before), last.ports, last.event);
    }
  }

  /** An event out of turn is refused and changes nothing. */
  lemma RefusedChangesNothing(s: Setup, ports: seq<PortStatus>, e: Event)
    requires Exclusive(s) && |ports| == PORTS && Enabled(e) && Handle(s, ports, e).1 == InvalidPhase
    ensures Handle(s, ports, e).0 == s
  {
    if e.AddressDeviceDone? && s.Found(e.slot) && e.port == s.addressing && s.phases[e.port] == AddressingDevice {
      TurnPasses(s, ports, e.slot, e.port);
    }
  }

  // Each port is reset once

  function Count(actions: seq<Action>, a: Action): nat {
    if actions == [] then 0
    else Count(actions[..|actions| - 1], a) + if actions[|actions| - 1] == a then 1 else 0
  }

  /** A port was reset, and its reset acknowledged, once if it came so far, and
      not at all before. */
  ghost predicate DoneOnce(s: Setup, port: nat)
    requires port < |s.phases|
  {
    && Count(s.actions, PortReset(port)) == (if 2 <= Rank(s.phases[port]) then 1 else 0)
    && Count(s.actions, ClearPortResetChange(port)) == (if 3 <= Rank(s.phases[port]) then 1 else 0)
  }

  lemma CountDone(s: Setup, a: Action, b: Action)
    ensures Count(s.Do(a).actions, b) == Count(s.actions, b) + if a == b then 1 else 0
  {
    assert s.Do(a).actions[..|s.actions|] == s.actions;
  }

  /** Every event keeps it so. */
  lemma HandleOnce(s: Setup, ports: seq<PortStatus>, e: Event, p: nat)
    requires Exclusive(s) && |ports| == PORTS && Enabled(e) && p < PORTS && DoneOnce(s, p)
    ensures DoneOnce(Handle(s, ports, e).0, p)
  {
    hide Count;
    match e
    case ConfigurePort(port) =>
      if s.phases[port] == NotConnected {
        ResetOnce(s, port, ports[port].connected, p);
      }
    case PortStatusChange(port) =>
      if s.phases[port] == NotConnected {
        ResetOnce(s, port, ports[port].connected, p);
      } else if s.phases[port] == ResettingPort {
        EnableOnce(s, port, ports[port], p);
      }
    case Transfer(slot, _, _, port) => LaterOnce(s, p, ConfigureEndpointCommand(slot));
    case EnableSlotDone(slot) => LaterOnce(s, p, AddressDeviceCommand(slot));
    case AddressDeviceDone(slot, port) => AddressedOnce(s, ports, slot, port, p);
    case ConfigureEndpointDone(slot, _) => LaterOnce(s, p, EndpointsConfigured(slot));
    case OtherCommandDone =>
  }

  lemma LaterOnce(s: Setup, p: nat, a: Action)
    requires !a.PortReset? && !a.ClearPortResetChange?
    ensures Count(s.actions + [a], PortReset(p)) == Count(s.actions, PortReset(p))
    ensures Count(s.actions + [a], ClearPortResetChange(p)) == Count(s.actions, ClearPortResetChange(p))
  {
    CountDone(s, a, PortReset(p));
    CountDone(s, a, ClearPortResetChange(p));
  }

  lemma ResetOnce(s: Setup, port: nat, connected: bool, p: nat)
    requires s.Shape() && port < PORTS && p < PORTS && DoneOnce(s, p)
    requires s.phases[port] == NotConnected || s.phases[port] == WaitingAddressed
    ensures DoneOnce(Reset(s, port, connected).0, p)
  {
    hide Count;
    CountDone(s, PortReset(port), PortReset(p));
    CountDone(s, PortReset(port), ClearPortResetChange(p));
  }

  lemma EnableOnce(s: Setup, port: nat, status: PortStatus, p: nat)
    requires s.Shape() && port < PORTS && p < PORTS && DoneOnce(s, p) && s.phases[port] == ResettingPort
    ensures DoneOnce(Enable(s, port, status), p)
  {
    hide Count;
    var t := s.Do(ClearPortResetChange(port));
    CountDone(s, ClearPortResetChange(port), PortReset(p));
    CountDone(s, ClearPortResetChange(port), ClearPortResetChange(p));
    LaterOnce(t, p, EnableSlotCommand);
  }

  lemma AddressedOnce(s: Setup, ports: seq<PortStatus>, slot: nat, port: nat, p: nat)
    requires Exclusive(s) && |ports| == PORTS && port < PORTS && p < PORTS && DoneOnce(s, p)
    ensures DoneOnce(Addressed(s, ports, slot, port).0, p)
  {
    hide Count;
    if s.Found(slot) && port == s.addressing && s.phases[port] == AddressingDevice {
      var r := s.(addressing := 0);
      var next := FirstWaiting(s.phases, 0);
      if next < PORTS {
        assert next != port;
        ResetOnce(r, next, ports[next].connected, p);
      }
      LaterOnce(PassTurn(s, ports).0, p, StartInitialize(slot));
    }
  }

  /** In every run each port is reset at most once, and exactly once if it came
      past the reset. */
  lemma {:induction false} RunOnce(steps: seq<Step>, port: nat)
    requires Exclusive(Start()) && AllValid(steps) && port < PORTS
    ensures DoneOnce(Run(Start(), steps), port)
  {
    hide Handle, Exclusive;
    if steps != [] {
      var before, last := steps[..|steps| - 1], steps[|steps| - 1];
      RunOnce(before, port);
      HandleOnce(Run(Start(), before), last.ports, last.event, port);
    }
  }

  // How long a port waits

  /** The ports below `p` that still have their turn before them or hold it. */
  function Lower(phases: seq<Phase>, p: nat): (n: nat)
    requires p <= |phases|
    ensures n < p || p == n == 0
  {
    if p <= 1 then 0 else Lower(phases, p - 1) + if Rank(phases[p - 1]) < 5 then 1 else 0
  }

  /** How many turns may end before port `p` gets its own. */
  function Before(s: Setup, p: nat): nat
    requires s.Shape() && p < PORTS
  {
    Lower(s.phases, p) + if p < s.addressing then 1 else 0
  }

  lemma {:induction false} LowerFalls(a: seq<Phase>, b: seq<Phase>, p: nat)
    requires |a| == |b| && p <= |a| && forall i :: 0 <= i < p ==> Rank(a[i]) <= Rank(b[i])
    ensures Lower(b, p) <= Lower(a, p)
    ensures forall i :: 1 <= i < p && Rank(a[i]) < 5 <= Rank(b[i]) ==> Lower(b, p) < Lower(a, p)
  {
    if p > 1 {
      LowerFalls(a, b, p - 1);
    }
  }

  lemma {:induction false} LowerCounts(phases: seq<Phase>, p: nat, i: nat)
    requires 1 <= i < p <= |phases| && Rank(phases[i]) < 5
    ensures Lower(phases, p) > 0
  {
    if i < p - 1 {
      LowerCounts(phases, p - 1, i);
    }
  }

  /** The event ends a turn: the port that was addressed has its address. */
  ghost predicate EndsTurn(s: Setup, ports: seq<PortStatus>, e: Event)
    requires s.Shape() && |ports| == PORTS && Enabled(e)
  {
    e.AddressDeviceDone? && Handle(s, ports, e).1 == Success
  }

  /** No event lengthens the wait of port `p`, and each end of a turn shortens
      it. */
  lemma WaitShrinks(s: Setup, ports: seq<PortStatus>, e: Event, p: nat)
    requires Exclusive(s) && NoneIdle(s) && |ports| == PORTS && Enabled(e) && WaitersConnected(s, ports)
    requires p < PORTS && s.phases[p] == WaitingAddressed
    ensures
      var r := Handle(s, ports, e).0;
      r.phases[p] == WaitingAddressed ==> Before(r, p) + (if EndsTurn(s, ports, e) then 1 else 0) <= Before(s, p)
  {
    var r := Handle(s, ports, e).0;
    HandleKeeps(s, ports, e);
    LowerFalls(s.phases, r.phases, p);
    if EndsTurn(s, ports, e) {
      TurnPasses(s, ports, e.slot, e.port);
      assert FirstWaiting(s.phases, 0) <= p;
      assert e.port == s.addressing && r.phases[e.port] == InitializingDevice;
    } else {
      SameTurn(s, ports, e);
    }
  }

  lemma SameTurn(s: Setup, ports: seq<PortStatus>, e: Event)
    requires s.Shape() && |ports| == PORTS && Enabled(e) && s.addressing != 0 && !EndsTurn(s, ports, e)
    requires Exclusive(s)
    ensures Handle(s, ports, e).0.addressing == s.addressing
  {
    if e.AddressDeviceDone? && s.Found(e.slot) && e.port == s.addressing && s.phases[e.port] == AddressingDevice {
      TurnPasses(s, ports, e.slot, e.port);
      assert false;
    }
  }

  lemma SomeoneBefore(s: Setup, p: nat)
    requires Exclusive(s) && NoneIdle(s) && p < PORTS && s.phases[p] == WaitingAddressed
    ensures 1 <= Before(s, p) <= p
  {
    if s.addressing < p {
      LowerCounts(s.phases, p, s.addressing);
    }
  }

  /** How many turns end in a run. */
  ghost function Turns(s: Setup, steps: seq<Step>): nat
    requires Exclusive(s) && AllValid(steps)
  {
    if steps == [] then 0
    else
      var before, last := steps[..|steps| - 1], steps[|steps| - 1];
      Turns(s, before) + if EndsTurn(Run(s, before), last.ports, last.event) then 1 else 0
  }

  lemma StillWaits(s: Setup, ports: seq<PortStatus>, e: Event, p: nat)
    requires Exclusive(s) && |ports| == PORTS && Enabled(e) && p < PORTS
    requires Rank(WaitingAddressed) <= Rank(s.phases[p]) && Handle(s, ports, e).0.phases[p] == WaitingAddressed
    ensures s.phases[p] == WaitingAddressed
  {
    HandleKeeps(s, ports, e);
    RanksDiffer(s.phases[p], WaitingAddressed);
    hide Handle;
  }

  /** While port `p` waits in a run in which waiting ports stay connected, fewer
      turns end than there were ports before it, which are at most `p`. */
  lemma {:induction false} WaitBounded(s: Setup, steps: seq<Step>, p: nat)
    requires Exclusive(s) && NoneIdle(s) && AllValid(steps) && p < PORTS
    requires forall i :: 0 <= i < |steps| ==> WaitersConnected(Run(s, steps[..i]), steps[i].ports)
    requires s.phases[p] == WaitingAddressed && Run(s, steps).phases[p] == WaitingAddressed
    ensures NoneIdle(Run(s, steps)) && 1 <= Before(Run(s, steps), p)
    ensures Turns(s, steps) + Before(Run(s, steps), p) <= Before(s, p) <= p
  {
    SomeoneBefore(s, p);
    hide Handle, NoneIdle, WaitersConnected, Exclusive, Before, EndsTurn;
    if steps != [] {
      var before, last := steps[..|steps| - 1], steps[|steps| - 1];
      assert forall i :: 0 <= i < |before| ==> before[..i] == steps[..i] && before[i] == steps[i];
      ChangesBounded(s, before, p);
      StillWaits(Run(s, before), last.ports, last.event, p);
      WaitBounded(s, before, p);
      WaitStep(Run(s, before), last.ports, last.event, p);
    }
  }

  lemma WaitStep(s: Setup, ports: seq<PortStatus>, e: Event, p: nat)
    requires Exclusive(s) && NoneIdle(s) && |ports| == PORTS && Enabled(e) && WaitersConnected(s, ports)
    requires p < PORTS && s.phases[p] == WaitingAddressed && Handle(s, ports, e).0.phases[p] == WaitingAddressed
    ensures
      var r := Handle(s, ports, e).0;
      && r.Shape() && NoneIdle(r) && 1 <= Before(r, p)
      && Before(r, p) + (if EndsTurn(s, ports, e) then 1 else 0) <= Before(s, p)
  {
    hide Before, EndsTurn;
    HandleKeeps(s, ports, e);
    NoneIdleKeeps(s, ports, e);
    WaitShrinks(s, ports, e, p);
    hide Handle;
    SomeoneBefore(Handle(s, ports, e).0, p);
  }

  /** Where nobody waited while it was nobody's turn, an event brings that about
      exactly when it ends a turn and the lowest waiting port is not connected. */
  lemma NoneIdleExact(s: Setup, ports: seq<PortStatus>, e: Event)
    requires Exclusive(s) && NoneIdle(s) && |ports| == PORTS && Enabled(e)
    ensures
      var next := FirstWaiting(s.phases, 0);
      && Handle(s, ports, e).0.Shape()
      && (NoneIdle(Handle(s, ports, e).0) <==> !(EndsTurn(s, ports, e) && next < PORTS && !ports[next].connected))
  {
    HandleKeeps(s, ports, e);
    if EndsTurn(s, ports, e) {
      TurnPasses(s, ports, e.slot, e.port);
    } else if s.addressing != 0 {
      SameTurn(s, ports, e);
    } else {
      NobodysTurn(s, ports, e);
    }
  }

  /** While it is nobody's turn and nobody waits, nobody comes to wait. */
  lemma NobodysTurn(s: Setup, ports: seq<PortStatus>, e: Event)
    requires Exclusive(s) && NoneIdle(s) && |ports| == PORTS && Enabled(e) && s.addressing == 0
    ensures Handle(s, ports, e).0.Shape() && NoneIdle(Handle(s, ports, e).0)
  {
    match e
    case ConfigurePort(port) =>
      if s.phases[port] == NotConnected { ResetKeeps(s, port, ports[port].connected); }
    case PortStatusChange(port) =>
      if s.phases[port] == NotConnected { ResetKeeps(s, port, ports[port].connected); }
    case _ =>
  }

  /** Only the end of a turn ends a wait, so a port that waits while it is
      nobody's turn waits on until another port has had one. */
  lemma OnlyTurnsEndWaits(s: Setup, ports: seq<PortStatus>, e: Event, p: nat)
    requires Exclusive(s) && |ports| == PORTS && Enabled(e) && p < PORTS && s.phases[p] == WaitingAddressed
    requires Handle(s, ports, e).0.phases[p] != WaitingAddressed
    ensures EndsTurn(s, ports, e) && s.addressing != 0
  {
    if e.AddressDeviceDone? && s.Found(e.slot) && e.port == s.addressing && s.phases[e.port] == AddressingDevice {
      TurnPasses(s, ports, e.slot, e.port);
    }
  }

  /** Port 1 is brought up; port 2 is plugged in while it waits for it, and is
      out again when its turn comes. */
  function Unplugged(): seq<Step> {
    var plugged, out := PortStatus(true, true, true, 1), PortStatus(false, false, false, 1);
    var both := seq(PORTS, i => if i == 1 || i == 2 then plugged else out);
    var one := seq(PORTS, i => if i == 1 then plugged else out);
    [Step(both, ConfigurePort(1)), Step(both, ConfigurePort(2)), Step(both, PortStatusChange(1)),
     Step(both, EnableSlotDone(1)), Step(one, AddressDeviceDone(1, 1))]
  }

  /** The phases of ports 1 and 2 and whose turn it is after `k` of these events. */
  function Expected(k: nat): (Phase, Phase, nat) {
    match k
    case 0 => (NotConnected, NotConnected, 0)
    case 1 => (ResettingPort, NotConnected, 1)
    case 2 => (ResettingPort, WaitingAddressed, 1)
    case 3 => (EnablingSlot, WaitingAddressed, 1)
    case 4 => (AddressingDevice, WaitingAddressed, 1)
    case _ => (InitializingDevice, WaitingAddressed, 0)
  }

  ghost predicate UpTo(s: Setup, k: nat) {
    && s.Shape() && s.phases[0] == NotConnected && (s.phases[1], s.phases[2], s.addressing) == Expected(k)
    && (k == 4 ==> s.Found(1))
  }

  lemma UnpluggedStep(s: Setup, k: nat)
    requires k < 5 && UpTo(s, k)
    ensures UpTo(Handle(s, Unplugged()[k].ports, Unplugged()[k].event).0, k + 1)
  {
  }

  lemma RunNext(s: Setup, steps: seq<Step>, k: nat)
    requires Exclusive(s) && AllValid(steps) && k < |steps|
    ensures Run(s, steps[..k + 1]) == Handle(Run(s, steps[..k]), steps[k].ports, steps[k].event).0
  {
    assert steps[..k + 1][..k] == steps[..k];
  }

  /** Port 2 then waits while it is nobody's turn. */
  lemma UnpluggedWaits()
    ensures Exclusive(Start()) && AllValid(Unplugged())
    ensures
      var r := Run(Start(), Unplugged());
      r.addressing == 0 && r.phases[2] == WaitingAddressed && !NoneIdle(r)
  {
    var steps := Unplugged();
    StartExclusive();
    UnpluggedStart();
    hide Handle, UpTo, Exclusive, Unplugged;
    for k := 0 to 5
      invariant UpTo(Run(Start(), steps[..k]), k)
    {
      RunNext(Start(), steps, k);
      UnpluggedStep(Run(Start(), steps[..k]), k);
    }
    assert steps[..5] == steps;
    UnpluggedEnd(Run(Start(), steps));
  }

  lemma UnpluggedStart()
    ensures UpTo(Start(), 0) && |Unplugged()| == 5 && AllValid(Unplugged())
  {
  }

  lemma UnpluggedEnd(s: Setup)
    requires UpTo(s, 5)
    ensures s.Shape() && s.addressing == 0 && s.phases[2] == WaitingAddressed && !NoneIdle(s)
  {
  }

  /** The handlers, on the table of phases. The registers of the ports are read
      from `ports`. */
  class Configurator {
    const phases: array<Phase>
    var addressingPort: nat
    var devices: set<nat>
    ghost var actions: seq<Action>

    ghost function View(): Setup
      reads this, phases
    {
      Setup(phases[..], addressingPort, devices, actions)
    }

    ghost predicate Valid()
      reads this, phases
    {
      Exclusive(View())
    }

    constructor ()
      ensures Valid() && fresh(phases) && View() == Start()
    {
      addressingPort, devices, actions := 0, {}, [];
      phases := new Phase[PORTS](_ => NotConnected);
    }

    method ResetPort(port: nat, connected: bool) returns (e: Error)
      requires View().Shape() && port < PORTS
      modifies phases, `addressingPort, `actions
      ensures (View(), e) == Reset(old(View()), port, connected)
    {
      if !connected {
        return Success;
      }
      if addressingPort != 0 {
        phases[port] := WaitingAddressed;
      } else {
        var phase := phases[port];
        if phase != NotConnected && phase != WaitingAddressed {
          return InvalidPhase;
        }
        addressingPort := port;
        phases[port] := ResettingPort;
        actions := actions + [PortReset(port)];
      }
      e := Success;
    }

    method EnableSlot(port: nat, status: PortStatus) returns (e: Error)
      requires View().Shape() && port < PORTS
      modifies phases, `actions
      ensures (View(), e) == (Enable(old(View()), port, status), Success)
    {
      if status.enabled && status.resetChanged {
        actions := actions + [ClearPortResetChange(port)];
        phases[port] := EnablingSlot;
        actions := actions + [EnableSlotCommand];
      }
      e := Success;
    }

    /** The result of allocating the device is ignored, as in the source. */
    method AddressDevice(port: nat, slot: nat) returns (e: Error)
      requires View().Shape() && port == addressingPort
      modifies this, phases
      ensures (View(), e) == Address(old(View()), slot)
    {
      if slot <= MAX_SLOTS && slot !in devices {
        devices := devices + {slot};
      }
      assert devices == if slot <= MAX_SLOTS then old(devices) + {slot} else old(devices);
      if slot > MAX_SLOTS || slot !in devices {
        return InvalidSlotID;
      }
      phases[port] := AddressingDevice;
      actions := actions + [AddressDeviceCommand(slot)];
      e := Success;
    }

    method InitializeDevice(port: nat, slot: nat) returns (e: Error)
      requires View().Shape() && port < PORTS
      modifies phases, `actions
      ensures (View(), e) == Initialize(old(View()), port, slot)
    {
      if slot > MAX_SLOTS || slot !in devices {
        return InvalidSlotID;
      }
      phases[port] := InitializingDevice;
      actions := actions + [StartInitialize(slot)];
      e := Success;
    }

    method ConfigureEndpoints(port: nat, slot: nat, speed: nat) returns (e: Error)
      requires View().Shape() && port < PORTS
      modifies phases, `actions
      ensures (View(), e) == Endpoints(old(View()), port, slot, speed)
    {
      if speed == 0 || speed > SUPER_SPEED_PLUS {
        return UnknownSpeed;
      }
      phases[port] := ConfiguringEndpoints;
      actions := actions + [ConfigureEndpointCommand(slot)];
      e := Success;
    }

    /** The device has its address: the turn passes to the first waiting port. */
    method OnAddressed(ports: seq<PortStatus>, slot: nat, port: nat) returns (e: Error)
      requires View().Shape() && |ports| == PORTS && port < PORTS
      modifies this, phases
      ensures (View(), e) == Addressed(old(View()), ports, slot, port)
    {
      if slot > MAX_SLOTS || slot !in devices {
        return InvalidSlotID;
      }
      if port != addressingPort || phases[port] != AddressingDevice {
        return InvalidPhase;
      }
      addressingPort := 0;
      ghost var s := View();
      var i := 0;
      while i < phases.Length
        invariant i <= phases.Length == PORTS && View() == s
        invariant FirstWaiting(phases[..], 0) == FirstWaiting(phases[..], i)
      {
        if phases[i] == WaitingAddressed {
          e := ResetPort(i, ports[i].connected);
          if e != Success {
            return;
          }
          break;
        }
        i := i + 1;
      }
      e := InitializeDevice(port, slot);
    }

    method OnEvent(ports: seq<PortStatus>, event: Event) returns (e: Error)
      requires Valid() && |ports| == PORTS && Enabled(event)
      modifies this, phases
      ensures Valid() && (View(), e) == Handle(old(View()), ports, event)
    {
      HandleKeeps(View(), ports, event);
      assert View().Shape();
      hide Exclusive, Ahead, Reset, Enable, Address, Addressed, Endpoints;
      match event
      case ConfigurePort(port) =>
        if phases[port] == NotConnected {
          e := ResetPort(port, ports[port].connected);
        } else {
          e := Success;
        }
      case PortStatusChange(port) =>
        match phases[port] {
          case NotConnected => e := ResetPort(port, ports[port].connected);
          case ResettingPort => e := EnableSlot(port, ports[port]);
          case _ => e := InvalidPhase;
        }
      case Transfer(slot, failed, initialized, port) =>
        if slot > MAX_SLOTS || slot !in devices {
          e := InvalidSlotID;
        } else if failed {
          e := TransferFailed;
        } else if initialized && phases[port] == InitializingDevice {
          e := ConfigureEndpoints(port, slot, ports[port].speed);
        } else {
          e := Success;
        }
      case EnableSlotDone(slot) =>
        if phases[addressingPort] != EnablingSlot {
          e := InvalidPhase;
        } else {
          e := AddressDevice(addressingPort, slot);
        }
      case AddressDeviceDone(slot, port) =>
        e := OnAddressed(ports, slot, port);
      case ConfigureEndpointDone(slot, port) =>
        if slot > MAX_SLOTS || slot !in devices {
          e := InvalidSlotID;
        } else if phases[port] != ConfiguringEndpoints {
          e := InvalidPhase;
        } else {
          e := CompleteConfiguration(port, slot);
        }
      case OtherCommandDone =>
        e := InvalidPhase;
    }

    method CompleteConfiguration(port: nat, slot: nat) returns (e: Error)
      requires View().Shape() && port < PORTS
      modifies phases, `actions
      ensures (View(), e) ==
        if old(View()).Found(slot) then
          (old(View()).Do(EndpointsConfigured(slot)).SetPhase(port, Configured), Success)
        else (old(View()), InvalidSlotID)
    {
      if slot > MAX_SLOTS || slot !in devices {
        return InvalidSlotID;
      }
      actions := actions + [EndpointsConfigured(slot)];
      phases[port] := Configured;
      e := Success;
    }
  }
}
