/** What the bring-up of the ports does, read off the phases of the ports: each
    event's effect on every port, and the exact count of every request and command
    over a run (kernel/usb/xhci/xhci.cpp). */
module PortAccounts {
  import opened PortConfig

  // The effect of an event, port by port

  predicate IsFirstWaiting(phases: seq<Phase>, p: nat)
    requires p < |phases|
  {
    phases[p] == WaitingAddressed && forall q :: 0 <= q < p ==> phases[q] != WaitingAddressed
  }

  /** Where a port goes that is plugged in: it takes the turn, or waits for it. */
  function PluggedIn(s: Setup): Phase {
    if forall q :: 0 <= q < |s.phases| ==> !Addressing(s.phases[q]) then ResettingPort else WaitingAddressed
  }

  function PhaseAfter(s: Setup, ports: seq<PortStatus>, e: Event, p: nat): Phase
    requires |s.phases| == PORTS && |ports| == PORTS && Enabled(e) && p < PORTS
  {
    var was := s.phases[p];
    match was
    case NotConnected =>
      if (e == ConfigurePort(p) || e == PortStatusChange(p)) && ports[p].connected then PluggedIn(s) else was
    case WaitingAddressed =>
      if e.AddressDeviceDone? && s.Found(e.slot) && s.phases[e.port] == AddressingDevice
         && IsFirstWaiting(s.phases, p) && ports[p].connected
      then ResettingPort else was
    case ResettingPort =>
      if e == PortStatusChange(p) && ports[p].enabled && ports[p].resetChanged then EnablingSlot else was
    case EnablingSlot => if e.EnableSlotDone? && e.slot <= MAX_SLOTS then AddressingDevice else was
    case AddressingDevice => if e.AddressDeviceDone? && s.Found(e.slot) && e.port == p then InitializingDevice else was
    case InitializingDevice =>
      if e.Transfer? && s.Found(e.slot) && !e.failed && e.initialized && e.port == p
         && 1 <= ports[p].speed <= SUPER_SPEED_PLUS
      then ConfiguringEndpoints else was
    case ConfiguringEndpoints =>
      if e.ConfigureEndpointDone? && s.Found(e.slot) && e.port == p then Configured else was
    case Configured => was
  }

  lemma NobodysTurnIs(s: Setup)
    requires Exclusive(s)
    ensures s.addressing == 0 <==> forall q :: 0 <= q < |s.phases| ==> !Addressing(s.phases[q])
  {
    if s.addressing != 0 {
      assert Addressing(s.phases[s.addressing]);
    }
  }

  lemma FirstIs(phases: seq<Phase>, p: nat)
    requires p < |phases|
    ensures IsFirstWaiting(phases, p) <==> FirstWaiting(phases, 0) == p
  {
  }

  lemma AddressedPhases(s: Setup, ports: seq<PortStatus>, slot: nat, port: nat, p: nat)
    requires Exclusive(s) && |ports| == PORTS && port < PORTS && p < PORTS
    ensures Handle(s, ports, AddressDeviceDone(slot, port)).0.Shape()
    ensures Handle(s, ports, AddressDeviceDone(slot, port)).0.phases[p] ==
      PhaseAfter(s, ports, AddressDeviceDone(slot, port), p)
  {
    FirstIs(s.phases, p);
    if s.Found(slot) && port == s.addressing && s.phases[port] == AddressingDevice {
      TurnPasses(s, ports, slot, port);
      hide FirstWaiting;
    }
  }

  /** Every event changes exactly the phases that the table says. */
  lemma PhasesExact(s: Setup, ports: seq<PortStatus>, e: Event, p: nat)
    requires Exclusive(s) && |ports| == PORTS && Enabled(e) && p < PORTS
    ensures |Handle(s, ports, e).0.phases| == PORTS && Handle(s, ports, e).0.phases[p] == PhaseAfter(s, ports, e, p)
  {
    if e.AddressDeviceDone? {
      AddressedPhases(s, ports, e.slot, e.port, p);
    } else {
      hide FirstWaiting, Addressed;
      NobodysTurnIs(s);
    }
  }

  /** A device is allocated exactly when its slot is enabled for the port whose
      turn it is. */
  lemma DevicesExact(s: Setup, ports: seq<PortStatus>, e: Event, slot: nat)
    requires Exclusive(s) && |ports| == PORTS && Enabled(e)
    ensures slot in Handle(s, ports, e).0.devices <==>
      || slot in s.devices
      || (e == EnableSlotDone(slot) && slot <= MAX_SLOTS && exists p :: 0 <= p < PORTS && s.phases[p] == EnablingSlot)
  {
    if p :| 0 <= p < PORTS && s.phases[p] == EnablingSlot {
      assert Addressing(s.phases[p]);
    }
    hide FirstWaiting;
  }

  /** Which error an event ends in. */
  function ErrorOf(s: Setup, ports: seq<PortStatus>, e: Event): Error
    requires |s.phases| == PORTS && |ports| == PORTS && Enabled(e)
  {
    match e
    case ConfigurePort(_) => Success
    case PortStatusChange(p) =>
      if s.phases[p] == NotConnected || s.phases[p] == ResettingPort then Success else InvalidPhase
    case Transfer(slot, failed, initialized, p) =>
      if !s.Found(slot) then InvalidSlotID
      else if failed then TransferFailed
      else if initialized && s.phases[p] == InitializingDevice && !(1 <= ports[p].speed <= SUPER_SPEED_PLUS) then
        UnknownSpeed
      else Success
    case EnableSlotDone(slot) =>
      if forall p :: 0 <= p < PORTS ==> s.phases[p] != EnablingSlot then InvalidPhase
      else if slot > MAX_SLOTS then InvalidSlotID
      else Success
    case AddressDeviceDone(slot, p) =>
      if !s.Found(slot) then InvalidSlotID else if s.phases[p] != AddressingDevice then InvalidPhase else Success
    case ConfigureEndpointDone(slot, p) =>
      if !s.Found(slot) then InvalidSlotID else if s.phases[p] != ConfiguringEndpoints then InvalidPhase else Success
    case OtherCommandDone => InvalidPhase
  }

  lemma ErrorsExact(s: Setup, ports: seq<PortStatus>, e: Event)
    requires Exclusive(s) && |ports| == PORTS && Enabled(e)
    ensures Handle(s, ports, e).1 == ErrorOf(s, ports, e)
  {
    match e
    case EnableSlotDone(slot) =>
      if p :| 0 <= p < PORTS && s.phases[p] == EnablingSlot {
        assert Addressing(s.phases[p]);
      }
    case AddressDeviceDone(slot, port) =>
      if s.phases[port] == AddressingDevice {
        assert Addressing(s.phases[port]);
        if s.Found(slot) {
          TurnPasses(s, ports, slot, port);
        }
      }
    case _ =>
  }

  // The actions of an event, from the phases

  /** What is due when a port enters a phase, for the slot of the event. */
  function Due(p: nat, entered: Phase, slot: nat): seq<Action> {
    match entered
    case ResettingPort => [PortReset(p)]
    case EnablingSlot => [ClearPortResetChange(p), EnableSlotCommand]
    case AddressingDevice => [AddressDeviceCommand(slot)]
    case InitializingDevice => [StartInitialize(slot)]
    case ConfiguringEndpoints => [ConfigureEndpointCommand(slot)]
    case Configured => [EndpointsConfigured(slot)]
    case _ => []
  }

  function SlotOf(e: Event): nat {
    match e
    case Transfer(slot, _, _, _) => slot
    case EnableSlotDone(slot) => slot
    case AddressDeviceDone(slot, _) => slot
    case ConfigureEndpointDone(slot, _) => slot
    case _ => 0
  }

  /** What is due for the ports that entered this phase. */
  function DueFor(was: seq<Phase>, now: seq<Phase>, entered: Phase, slot: nat): seq<Action>
    requires |was| == |now|
  {
    if was == [] then []
    else
      var n := |was| - 1;
      DueFor(was[..n], now[..n], entered, slot)
      + (if was[n] != now[n] == entered then Due(n, entered, slot) else [])
  }

  /** The resets come first. */
  function AllDue(was: seq<Phase>, now: seq<Phase>, slot: nat): seq<Action>
    requires |was| == |now|
  {
    DueFor(was, now, ResettingPort, slot) + DueFor(was, now, EnablingSlot, slot)
    + DueFor(was, now, AddressingDevice, slot) + DueFor(was, now, InitializingDevice, slot)
    + DueFor(was, now, ConfiguringEndpoints, slot) + DueFor(was, now, Configured, slot)
  }

  lemma {:induction false} DueNone(was: seq<Phase>, now: seq<Phase>, entered: Phase, slot: nat)
    requires |was| == |now| && forall i :: 0 <= i < |was| && now[i] == entered ==> was[i] == entered
    ensures DueFor(was, now, entered, slot) == []
  {
    if was != [] {
      var n := |was| - 1;
      DueNone(was[..n], now[..n], entered, slot);
    }
  }

  lemma {:induction false} DueOne(was: seq<Phase>, now: seq<Phase>, entered: Phase, slot: nat, k: nat)
    requires |was| == |now| && k < |was| && was[k] != now[k] == entered
    requires forall i :: 0 <= i < |was| && i != k && now[i] == entered ==> was[i] == entered
    ensures DueFor(was, now, entered, slot) == Due(k, entered, slot)
  {
    hide Due;
    var n := |was| - 1;
    if k == n {
      DueNone(was[..n], now[..n], entered, slot);
      assert [] + Due(n, entered, slot) == Due(n, entered, slot);
    } else {
      DueOne(was[..n], now[..n], entered, slot, k);
      assert Due(k, entered, slot) + [] == Due(k, entered, slot);
    }
  }

  /** Only port `k` changed. */
  lemma DueSet(was: seq<Phase>, k: nat, p: Phase, entered: Phase, slot: nat)
    requires k < |was| && was[k] != p
    ensures DueFor(was, was[k := p], entered, slot) == if entered == p then Due(k, p, slot) else []
  {
    if entered == p {
      DueOne(was, was[k := p], entered, slot, k);
    } else {
      DueNone(was, was[k := p], entered, slot);
    }
  }

  lemma AllDueSet(was: seq<Phase>, k: nat, p: Phase, slot: nat)
    requires k < |was| && was[k] != p
    ensures AllDue(was, was[k := p], slot) == Due(k, p, slot)
  {
    hide DueFor, AllDue, Due;
    DueSet(was, k, p, ResettingPort, slot);
    DueSet(was, k, p, EnablingSlot, slot);
    DueSet(was, k, p, AddressingDevice, slot);
    DueSet(was, k, p, InitializingDevice, slot);
    DueSet(was, k, p, ConfiguringEndpoints, slot);
    DueSet(was, k, p, Configured, slot);
    AllDueIs(was, was[k := p], slot);
    DueLater(k, slot);
    OneOfSix(Due(k, p, slot), p);
  }

  /** A port that leaves the table or comes to wait asks for nothing. */
  lemma DueLater(k: nat, slot: nat)
    ensures Due(k, NotConnected, slot) == Due(k, WaitingAddressed, slot) == []
  {
  }

  lemma AllDueIs(was: seq<Phase>, now: seq<Phase>, slot: nat)
    requires |was| == |now|
    ensures AllDue(was, now, slot) ==
      DueFor(was, now, ResettingPort, slot) + DueFor(was, now, EnablingSlot, slot)
      + DueFor(was, now, AddressingDevice, slot) + DueFor(was, now, InitializingDevice, slot)
      + DueFor(was, now, ConfiguringEndpoints, slot) + DueFor(was, now, Configured, slot)
  {
  }

  function At(a: seq<Action>, p: Phase, entered: Phase): seq<Action> {
    if entered == p then a else []
  }

  lemma OneOfSix(a: seq<Action>, p: Phase)
    ensures At(a, p, ResettingPort) + At(a, p, EnablingSlot) + At(a, p, AddressingDevice)
      + At(a, p, InitializingDevice) + At(a, p, ConfiguringEndpoints) + At(a, p, Configured) ==
      if p == NotConnected || p == WaitingAddressed then [] else a
  {
  }

  lemma AllDueNone(was: seq<Phase>, slot: nat)
    ensures AllDue(was, was, slot) == []
  {
    DueNone(was, was, ResettingPort, slot);
    DueNone(was, was, EnablingSlot, slot);
    DueNone(was, was, AddressingDevice, slot);
    DueNone(was, was, InitializingDevice, slot);
    DueNone(was, was, ConfiguringEndpoints, slot);
    DueNone(was, was, Configured, slot);
    hide DueFor;
  }

  /** One port goes on and another one is reset. */
  lemma AllDueTwo(was: seq<Phase>, k: nat, next: nat, slot: nat)
    requires k < |was| && next < |was| && k != next && was[k] == AddressingDevice && was[next] == WaitingAddressed
    ensures AllDue(was, was[next := ResettingPort][k := InitializingDevice], slot) ==
      [PortReset(next), StartInitialize(slot)]
  {
    hide DueFor, AllDue;
    var now := was[next := ResettingPort][k := InitializingDevice];
    DueOne(was, now, ResettingPort, slot, next);
    DueOne(was, now, InitializingDevice, slot, k);
    DueNone(was, now, EnablingSlot, slot);
    DueNone(was, now, AddressingDevice, slot);
    DueNone(was, now, ConfiguringEndpoints, slot);
    DueNone(was, now, Configured, slot);
    AllDueIs(was, now, slot);
  }

  /** An event requests and commands exactly what is due for the phases that it
      changes, for its own slot. */
  ghost predicate Does(s: Setup, r: Setup, slot: nat) {
    |s.phases| == |r.phases| && r.actions == s.actions + AllDue(s.phases, r.phases, slot)
  }

  lemma DoesNothing(s: Setup, r: Setup, slot: nat)
    requires r.phases == s.phases && r.actions == s.actions
    ensures Does(s, r, slot)
  {
    AllDueNone(s.phases, slot);
    assert s.actions + [] == s.actions;
  }

  lemma DoesSet(s: Setup, r: Setup, slot: nat, k: nat, p: Phase)
    requires k < |s.phases| && s.phases[k] != p && r.phases == s.phases[k := p]
    requires r.actions == s.actions + Due(k, p, slot)
    ensures Does(s, r, slot)
  {
    AllDueSet(s.phases, k, p, slot);
  }

  lemma ResetDoes(s: Setup, port: nat, connected: bool, slot: nat)
    requires s.Shape() && port < PORTS && (s.phases[port] == NotConnected || s.phases[port] == WaitingAddressed)
    requires s.phases[port] == NotConnected || s.addressing == 0
    ensures Does(s, Reset(s, port, connected).0, slot)
  {
    var r := Reset(s, port, connected).0;
    hide Does;
    if !connected {
      DoesNothing(s, r, slot);
    } else if s.addressing != 0 {
      assert s.actions + [] == s.actions;
      DoesSet(s, r, slot, port, WaitingAddressed);
    } else {
      DoesSet(s, r, slot, port, ResettingPort);
    }
  }

  lemma EnableDoes(s: Setup, port: nat, status: PortStatus, slot: nat)
    requires s.Shape() && port < PORTS && s.phases[port] == ResettingPort
    ensures Does(s, Enable(s, port, status), slot)
  {
    var r := Enable(s, port, status);
    hide Does;
    if status.enabled && status.resetChanged {
      assert r.actions == s.actions + [ClearPortResetChange(port), EnableSlotCommand];
      DoesSet(s, r, slot, port, EnablingSlot);
    } else {
      DoesNothing(s, r, slot);
    }
  }

  lemma AddressDoes(s: Setup, slot: nat)
    requires s.Shape() && s.phases[s.addressing] == EnablingSlot
    ensures Does(s, Address(s, slot).0, slot)
  {
    var r := Address(s, slot).0;
    hide Does;
    if slot <= MAX_SLOTS {
      DoesSet(s, r, slot, s.addressing, AddressingDevice);
    } else {
      DoesNothing(s, r, slot);
    }
  }

  lemma AddressedDoes(s: Setup, ports: seq<PortStatus>, slot: nat, port: nat)
    requires Exclusive(s) && |ports| == PORTS && port < PORTS
    ensures Does(s, Addressed(s, ports, slot, port).0, slot)
  {
    var r := Addressed(s, ports, slot, port).0;
    hide Does;
    if s.Found(slot) && port == s.addressing && s.phases[port] == AddressingDevice {
      var next := FirstWaiting(s.phases, 0);
      if next < PORTS && ports[next].connected {
        assert next != port;
        assert r.phases == s.phases[next := ResettingPort][port := InitializingDevice];
        assert r.actions == s.actions + [PortReset(next), StartInitialize(slot)];
        AllDueTwo(s.phases, port, next, slot);
        DoesIs(s, r, slot);
      } else {
        assert r.phases == s.phases[port := InitializingDevice];
        DoesSet(s, r, slot, port, InitializingDevice);
      }
    } else {
      DoesNothing(s, r, slot);
    }
  }

  lemma DoesIs(s: Setup, r: Setup, slot: nat)
    requires |s.phases| == |r.phases| && r.actions == s.actions + AllDue(s.phases, r.phases, slot)
    ensures Does(s, r, slot)
  {
  }

  lemma ActionsExact(s: Setup, ports: seq<PortStatus>, e: Event)
    requires Exclusive(s) && |ports| == PORTS && Enabled(e)
    ensures Does(s, Handle(s, ports, e).0, SlotOf(e))
  {
    var r := Handle(s, ports, e).0;
    hide Does;
    match e
    case ConfigurePort(port) =>
      if s.phases[port] == NotConnected { ResetDoes(s, port, ports[port].connected, 0); } else { DoesNothing(s, r, 0); }
    case PortStatusChange(port) =>
      if s.phases[port] == NotConnected {
        ResetDoes(s, port, ports[port].connected, 0);
      } else if s.phases[port] == ResettingPort {
        EnableDoes(s, port, ports[port], 0);
      } else {
        DoesNothing(s, r, 0);
      }
    case Transfer(slot, _, _, port) =>
      if r == s { DoesNothing(s, r, slot); } else { DoesSet(s, r, slot, port, ConfiguringEndpoints); }
    case EnableSlotDone(slot) =>
      if s.phases[s.addressing] == EnablingSlot { AddressDoes(s, slot); } else { DoesNothing(s, r, slot); }
    case AddressDeviceDone(slot, port) => AddressedDoes(s, ports, slot, port);
    case ConfigureEndpointDone(slot, port) =>
      if r == s { DoesNothing(s, r, slot); } else { DoesSet(s, r, slot, port, Configured); }
    case OtherCommandDone => DoesNothing(s, r, 0);
  }

  // Runs

  /** What is due for the changes of each step, for the slot of its own event. */
  ghost function RunDue(s: Setup, steps: seq<Step>): seq<Action>
    requires Exclusive(s) && AllValid(steps)
  {
    if steps == [] then []
    else
      var before := steps[..|steps| - 1];
      RunDue(s, before) + AllDue(Run(s, before).phases, Run(s, steps).phases, SlotOf(steps[|steps| - 1].event))
  }

  /** So does every run. */
  lemma {:induction false} RunActions(s: Setup, steps: seq<Step>)
    requires Exclusive(s) && AllValid(steps)
    ensures Run(s, steps).actions == s.actions + RunDue(s, steps)
  {
    hide Handle, AllDue, Exclusive;
    if steps == [] {
      assert s.actions + [] == s.actions;
    } else {
      var before, last := steps[..|steps| - 1], steps[|steps| - 1];
      RunActions(s, before);
      ActionsExact(Run(s, before), last.ports, last.event);
    }
  }

  /** How many ports are in a phase of these ranks. */
  function Number(phases: seq<Phase>, low: nat, high: nat): nat {
    if phases == [] then 0
    else Number(phases[..|phases| - 1], low, high) + InRange(phases[|phases| - 1], low, high)
  }

  function InRange(p: Phase, low: nat, high: nat): nat {
    if low <= Rank(p) < high then 1 else 0
  }

  lemma {:induction false} NumberSet(phases: seq<Phase>, i: nat, p: Phase, low: nat, high: nat)
    requires i < |phases|
    ensures Number(phases[i := p], low, high) + InRange(phases[i], low, high) ==
      Number(phases, low, high) + InRange(p, low, high)
  {
    var last := |phases| - 1;
    if i < last {
      assert phases[i := p][..last] == phases[..last][i := p];
      NumberSet(phases[..last], i, p, low, high);
    } else {
      assert phases[i := p][..last] == phases[..last];
    }
  }

  lemma {:induction false} NumberSplit(phases: seq<Phase>, low: nat, mid: nat, high: nat)
    requires low <= mid <= high
    ensures Number(phases, low, high) == Number(phases, low, mid) + Number(phases, mid, high)
  {
    if phases != [] {
      NumberSplit(phases[..|phases| - 1], low, mid, high);
    }
  }

  lemma {:induction false} NumberNone(phases: seq<Phase>, low: nat, high: nat)
    requires forall i :: 0 <= i < |phases| ==> InRange(phases[i], low, high) == 0
    ensures Number(phases, low, high) == 0
  {
    if phases != [] {
      NumberNone(phases[..|phases| - 1], low, high);
    }
  }

  lemma {:induction false} NumberOne(phases: seq<Phase>, low: nat, high: nat, k: nat)
    requires forall i :: 0 <= i < |phases| && i != k ==> InRange(phases[i], low, high) == 0
    ensures Number(phases, low, high) <= 1
  {
    if phases != [] {
      var rest := phases[..|phases| - 1];
      if k == |rest| {
        NumberNone(rest, low, high);
      } else {
        NumberOne(rest, low, high, k);
      }
    }
  }

  /** How many of the actions are of a kind. */
  function Asked(actions: seq<Action>, kind: Action -> bool): nat {
    if actions == [] then 0
    else Asked(actions[..|actions| - 1], kind) + if kind(actions[|actions| - 1]) then 1 else 0
  }

  lemma {:induction false} AskedConcat(a: seq<Action>, b: seq<Action>, kind: Action -> bool)
    ensures Asked(a + b, kind) == Asked(a, kind) + Asked(b, kind)
  {
    if b == [] {
      assert a + b == a;
    } else {
      assert (a + b)[..|a + b| - 1] == a + b[..|b| - 1];
      AskedConcat(a, b[..|b| - 1], kind);
    }
  }

  /** How many ports enter a phase. */
  function Entering(was: seq<Phase>, now: seq<Phase>, entered: Phase): nat
    requires |was| == |now|
  {
    if was == [] then 0
    else
      var n := |was| - 1;
      Entering(was[..n], now[..n], entered) + if was[n] != now[n] == entered then 1 else 0
  }

  /** This kind of action is due exactly when a port enters this phase. */
  ghost predicate DueIn(kind: Action -> bool, phase: Phase, slot: nat) {
    forall p: nat, entered :: Asked(Due(p, entered, slot), kind) == if entered == phase then 1 else 0
  }

  lemma AskedIf(x: seq<Action>, due: seq<Action>, changed: bool, kind: Action -> bool)
    ensures Asked(x + (if changed then due else []), kind) == Asked(x, kind) + if changed then Asked(due, kind) else 0
  {
    if changed {
      AskedConcat(x, due, kind);
    } else {
      assert x + [] == x;
    }
  }

  lemma {:induction false} DueCount(
    was: seq<Phase>, now: seq<Phase>, entered: Phase, slot: nat, kind: Action -> bool, phase: Phase)
    requires |was| == |now| && DueIn(kind, phase, slot)
    ensures Asked(DueFor(was, now, entered, slot), kind) == if entered == phase then Entering(was, now, phase) else 0
  {
    assert Asked([], kind) == 0;
    hide Due, Asked;
    if was != [] {
      var n := |was| - 1;
      assert Asked(Due(n, entered, slot), kind) == if entered == phase then 1 else 0;
      hide DueIn;
      DueCount(was[..n], now[..n], entered, slot, kind, phase);
      AskedIf(DueFor(was[..n], now[..n], entered, slot), Due(n, entered, slot), was[n] != now[n] == entered, kind);
    }
  }

  lemma AllDueCount(was: seq<Phase>, now: seq<Phase>, slot: nat, kind: Action -> bool, phase: Phase)
    requires |was| == |now| && DueIn(kind, phase, slot) && 3 <= Rank(phase)
    ensures Asked(AllDue(was, now, slot), kind) == Entering(was, now, phase)
  {
    hide Asked, DueFor, Entering, DueIn;
    var a, b, c := DueFor(was, now, ResettingPort, slot), DueFor(was, now, EnablingSlot, slot),
      DueFor(was, now, AddressingDevice, slot);
    var d, e, f := DueFor(was, now, InitializingDevice, slot), DueFor(was, now, ConfiguringEndpoints, slot),
      DueFor(was, now, Configured, slot);
    AskedConcat(a, b, kind);
    AskedConcat(a + b, c, kind);
    AskedConcat(a + b + c, d, kind);
    AskedConcat(a + b + c + d, e, kind);
    AskedConcat(a + b + c + d + e, f, kind);
    DueCount(was, now, ResettingPort, slot, kind, phase);
    DueCount(was, now, EnablingSlot, slot, kind, phase);
    DueCount(was, now, AddressingDevice, slot, kind, phase);
    DueCount(was, now, InitializingDevice, slot, kind, phase);
    DueCount(was, now, ConfiguringEndpoints, slot, kind, phase);
    DueCount(was, now, Configured, slot, kind, phase);
  }

  /** A port comes to this rank or beyond it exactly by entering its phase. */
  ghost predicate OneByOne(was: seq<Phase>, now: seq<Phase>, phase: Phase)
    requires |was| == |now|
  {
    forall i :: 0 <= i < |was| ==>
      InRange(now[i], Rank(phase), 8) == InRange(was[i], Rank(phase), 8) + if was[i] != now[i] == phase then 1 else 0
  }

  lemma {:induction false} EnteringCount(was: seq<Phase>, now: seq<Phase>, phase: Phase)
    requires |was| == |now| && OneByOne(was, now, phase)
    ensures Number(now, Rank(phase), 8) == Number(was, Rank(phase), 8) + Entering(was, now, phase)
  {
    hide InRange, Rank;
    if was != [] {
      var n := |was| - 1;
      EnteringCount(was[..n], now[..n], phase);
    }
  }

  lemma PhasesOneByOne(s: Setup, ports: seq<PortStatus>, e: Event, phase: Phase)
    requires Exclusive(s) && |ports| == PORTS && Enabled(e) && 3 <= Rank(phase)
    ensures |Handle(s, ports, e).0.phases| == PORTS && OneByOne(s.phases, Handle(s, ports, e).0.phases, phase)
  {
    assert s.Shape();
    hide Handle, Exclusive, PhaseAfter;
    var now := Handle(s, ports, e).0.phases;
    PhasesExact(s, ports, e, 0);
    forall i | 0 <= i < PORTS
      ensures InRange(now[i], Rank(phase), 8) ==
        InRange(s.phases[i], Rank(phase), 8) + if s.phases[i] != now[i] == phase then 1 else 0
    {
      PhasesExact(s, ports, e, i);
      AfterOneByOne(s, ports, e, i);
      RanksDiffer(now[i], phase);
    }
  }

  /** No phase from the third on is skipped. */
  lemma AfterOneByOne(s: Setup, ports: seq<PortStatus>, e: Event, p: nat)
    requires |s.phases| == PORTS && |ports| == PORTS && Enabled(e) && p < PORTS
    ensures
      || PhaseAfter(s, ports, e, p) == s.phases[p]
      || Rank(PhaseAfter(s, ports, e, p)) == Rank(s.phases[p]) + 1
      || Rank(s.phases[p]) < Rank(PhaseAfter(s, ports, e, p)) == 2
  {
    hide IsFirstWaiting;
  }

  /** As many actions of this kind as ports came to this rank. */
  ghost predicate Balanced(s: Setup, kind: Action -> bool, phase: Phase) {
    Asked(s.actions, kind) == Number(s.phases, Rank(phase), 8)
  }

  lemma HandleBalanced(s: Setup, ports: seq<PortStatus>, e: Event, kind: Action -> bool, phase: Phase)
    requires Exclusive(s) && |ports| == PORTS && Enabled(e) && 3 <= Rank(phase)
    requires forall slot :: DueIn(kind, phase, slot)
    requires Balanced(s, kind, phase)
    ensures Balanced(Handle(s, ports, e).0, kind, phase)
  {
    assert s.Shape();
    hide Handle, Exclusive, DueIn, AllDue, OneByOne, Number, Entering, Asked;
    var r := Handle(s, ports, e).0;
    ActionsExact(s, ports, e);
    AskedConcat(s.actions, AllDue(s.phases, r.phases, SlotOf(e)), kind);
    AllDueCount(s.phases, r.phases, SlotOf(e), kind, phase);
    PhasesOneByOne(s, ports, e, phase);
    EnteringCount(s.phases, r.phases, phase);
  }

  lemma {:induction false} RunBalanced(steps: seq<Step>, kind: Action -> bool, phase: Phase)
    requires Exclusive(Start()) && AllValid(steps) && 3 <= Rank(phase)
    requires forall slot :: DueIn(kind, phase, slot)
    ensures Balanced(Run(Start(), steps), kind, phase)
  {
    hide Handle, Exclusive, DueIn;
    if steps == [] {
      NumberNone(Start().phases, Rank(phase), 8);
    } else {
      var before, last := steps[..|steps| - 1], steps[|steps| - 1];
      RunBalanced(before, kind, phase);
      HandleBalanced(Run(Start(), before), last.ports, last.event, kind, phase);
    }
  }

  lemma AskedOne(a: Action, b: Action, kind: Action -> bool)
    ensures Asked([a], kind) == if kind(a) then 1 else 0
    ensures Asked([a, b], kind) == (if kind(a) then 1 else 0) + if kind(b) then 1 else 0
  {
    assert [a][..0] == [] && [a, b][..1] == [a];
  }

  /** The phase in which an action is the last one due. */
  function DueLast(a: Action): Phase {
    match a
    case PortReset(_) => ResettingPort
    case ClearPortResetChange(_) => NotConnected
    case EnableSlotCommand => EnablingSlot
    case AddressDeviceCommand(_) => AddressingDevice
    case StartInitialize(_) => InitializingDevice
    case ConfigureEndpointCommand(_) => ConfiguringEndpoints
    case EndpointsConfigured(_) => Configured
  }

  lemma KindDue(kind: Action -> bool, phase: Phase)
    requires 3 <= Rank(phase) && forall a :: kind(a) <==> DueLast(a) == phase
    ensures forall slot :: DueIn(kind, phase, slot)
  {
    forall p: nat, entered, slot
      ensures Asked(Due(p, entered, slot), kind) == if entered == phase then 1 else 0
    {
      AskedOne(ClearPortResetChange(p), EnableSlotCommand, kind);
      var due := Due(p, entered, slot);
      if |due| == 1 {
        assert due == [due[0]];
        AskedOne(due[0], due[0], kind);
        hide Asked;
      }
    }
  }

  predicate EnablesSlot(a: Action) { a.EnableSlotCommand? }
  predicate AddressesDevice(a: Action) { a.AddressDeviceCommand? }
  predicate StartsDevice(a: Action) { a.StartInitialize? }
  predicate ConfiguresEndpoints(a: Action) { a.ConfigureEndpointCommand? }
  predicate CompletesDevice(a: Action) { a.EndpointsConfigured? }

  /** After every run, exactly one command or call was made for each port that
      came so far. */
  lemma RunAccounts(steps: seq<Step>)
    requires Exclusive(Start()) && AllValid(steps)
    ensures
      var r := Run(Start(), steps);
      && Asked(r.actions, EnablesSlot) == Number(r.phases, 3, 8)
      && Asked(r.actions, AddressesDevice) == Number(r.phases, 4, 8)
      && Asked(r.actions, StartsDevice) == Number(r.phases, 5, 8)
      && Asked(r.actions, ConfiguresEndpoints) == Number(r.phases, 6, 8)
      && Asked(r.actions, CompletesDevice) == Number(r.phases, 7, 8)
  {
    hide Run, Number, Exclusive, AllValid, Asked;
    Balances(EnablesSlot, EnablingSlot, steps);
    Balances(AddressesDevice, AddressingDevice, steps);
    Balances(StartsDevice, InitializingDevice, steps);
    Balances(ConfiguresEndpoints, ConfiguringEndpoints, steps);
    Balances(CompletesDevice, Configured, steps);
  }

  lemma Balances(kind: Action -> bool, phase: Phase, steps: seq<Step>)
    requires Exclusive(Start()) && AllValid(steps)
    requires 3 <= Rank(phase) && forall a :: kind(a) <==> DueLast(a) == phase
    ensures Asked(Run(Start(), steps).actions, kind) == Number(Run(Start(), steps).phases, Rank(phase), 8)
  {
    KindDue(kind, phase);
    RunBalanced(steps, kind, phase);
  }

  // Devices

  /** The controller enables each slot once, and numbers them from 1 (xHCI section
      4.6.3). */
  predicate Fresh(s: Setup, e: Event)
    requires s.Shape()
  {
    e.EnableSlotDone? && s.phases[s.addressing] == EnablingSlot ==> 1 <= e.slot && e.slot !in s.devices
  }

  /** What is done for a slot, and the event that it is done for: one for this slot
      that is accepted, or a transfer that leads to the configuration of the
      endpoints. */
  ghost predicate DoneFor(s: Setup, ports: seq<PortStatus>, e: Event, a: Action)
    requires s.Shape() && |ports| == PORTS && Enabled(e)
  {
    var (r, error) := Handle(s, ports, e);
    match a
    case AddressDeviceCommand(slot) => e == EnableSlotDone(slot) && error == Success
    case StartInitialize(slot) => e.AddressDeviceDone? && e.slot == slot && error == Success
    case ConfigureEndpointCommand(slot) => e.Transfer? && e.slot == slot && r.phases != s.phases
    case EndpointsConfigured(slot) => e.ConfigureEndpointDone? && e.slot == slot && error == Success
    case _ => false
  }

  predicate OfSlot(a: Action) {
    a.AddressDeviceCommand? || a.StartInitialize? || a.ConfigureEndpointCommand? || a.EndpointsConfigured?
  }

  /** It is done once for each such event, and for no other. */
  lemma HandleSlots(s: Setup, ports: seq<PortStatus>, e: Event, a: Action)
    requires Exclusive(s) && |ports| == PORTS && Enabled(e) && OfSlot(a)
    ensures Count(Handle(s, ports, e).0.actions, a) == Count(s.actions, a) + if DoneFor(s, ports, e, a) then 1 else 0
  {
    hide Count, FirstWaiting;
    match e
    case ConfigurePort(port) => CountDone(s, PortReset(port), a);
    case PortStatusChange(port) =>
      CountDone(s, PortReset(port), a);
      CountDone(s, ClearPortResetChange(port), a);
      CountDone(s.Do(ClearPortResetChange(port)), EnableSlotCommand, a);
    case Transfer(slot, _, _, port) => CountDone(s, ConfigureEndpointCommand(slot), a);
    case EnableSlotDone(slot) => CountDone(s, AddressDeviceCommand(slot), a);
    case AddressDeviceDone(slot, port) =>
      CountDone(s, PortReset(FirstWaiting(s.phases, 0)), a);
      CountDone(s, StartInitialize(slot), a);
      CountDone(s.Do(PortReset(FirstWaiting(s.phases, 0))), StartInitialize(slot), a);
    case ConfigureEndpointDone(slot, _) => CountDone(s, EndpointsConfigured(slot), a);
    case OtherCommandDone =>
  }

  /** A device is allocated exactly when the completion that brings its slot is
      accepted. */
  lemma HandleDevices(s: Setup, ports: seq<PortStatus>, e: Event, slot: nat)
    requires Exclusive(s) && |ports| == PORTS && Enabled(e)
    ensures slot in Handle(s, ports, e).0.devices <==>
      slot in s.devices || DoneFor(s, ports, e, AddressDeviceCommand(slot))
  {
    hide Exclusive, FirstWaiting;
  }

  /** After every run the address of every allocated device was asked for, and of
      no other; if the controller enables each slot once, once. */
  lemma {:induction false} RunDevices(steps: seq<Step>, slot: nat)
    requires Exclusive(Start()) && AllValid(steps)
    ensures
      var r := Run(Start(), steps);
      slot in r.devices <==> 1 <= Count(r.actions, AddressDeviceCommand(slot))
    ensures (forall i :: 0 <= i < |steps| ==> Fresh(Run(Start(), steps[..i]), steps[i].event)) ==>
      Count(Run(Start(), steps).actions, AddressDeviceCommand(slot)) <= 1
  {
    assert Count([], AddressDeviceCommand(slot)) == 0;
    hide Handle, Exclusive, Count;
    if steps != [] {
      var before, last := steps[..|steps| - 1], steps[|steps| - 1];
      assert forall i :: 0 <= i < |before| ==> before[..i] == steps[..i] && before[i] == steps[i];
      RunDevices(before, slot);
      HandleDevices(Run(Start(), before), last.ports, last.event, slot);
      HandleSlots(Run(Start(), before), last.ports, last.event, AddressDeviceCommand(slot));
    }
  }
}
