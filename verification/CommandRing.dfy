/** The commands of the port bring-up on the command ring
    (kernel/usb/xhci/xhci.cpp): the handlers push without a check, and the ring
    has 32 TRBs. */
module CommandRings {
  import opened Wrappers
  import opened PortConfig
  import opened PortAccounts
  import Rings
  import Protocol = RingProtocol
  import Progress = RingProgress

  const RING_SIZE := 32

  // Commands and completions

  predicate IsCommand(a: Action) {
    a.EnableSlotCommand? || a.AddressDeviceCommand? || a.ConfigureEndpointCommand?
  }

  function Commands(actions: seq<Action>): (r: seq<Action>) {
    if actions == [] then []
    else Commands(actions[..|actions| - 1]) + if IsCommand(actions[|actions| - 1]) then [actions[|actions| - 1]] else []
  }

  lemma CommandsDo(actions: seq<Action>, a: Action)
    ensures Commands(actions + [a]) == Commands(actions) + if IsCommand(a) then [a] else []
  {
    assert (actions + [a])[..|actions|] == actions;
  }

  /** The commands of a run are those that were asked for: as many as ports came
      to each of the three phases that wait for one. */
  lemma CommandsExact(steps: seq<Step>)
    requires Exclusive(Start()) && AllValid(steps)
    ensures
      var r := PortConfig.Run(Start(), steps);
      |Commands(r.actions)| == Number(r.phases, 3, 8) + Number(r.phases, 4, 8) + Number(r.phases, 6, 8)
  {
    RunAccounts(steps);
    CommandsAsked(PortConfig.Run(Start(), steps).actions);
    hide PortConfig.Run, Number, Exclusive, Commands, Asked;
  }

  lemma {:induction false} CommandsAsked(actions: seq<Action>)
    ensures |Commands(actions)| ==
      Asked(actions, EnablesSlot) + Asked(actions, AddressesDevice) + Asked(actions, ConfiguresEndpoints)
  {
    if actions != [] {
      CommandsAsked(actions[..|actions| - 1]);
    }
  }

  predicate IsCompletion(e: Event) {
    e.EnableSlotDone? || e.AddressDeviceDone? || e.ConfigureEndpointDone? || e.OtherCommandDone?
  }

  /** How many ports are in a phase that waits for a command. */
  function Busy(phases: seq<Phase>): nat {
    Number(phases, 3, 5) + Number(phases, 6, 7)
  }

  lemma BusySet(phases: seq<Phase>, i: nat, p: Phase)
    requires i < |phases|
    ensures Busy(phases[i := p]) + InRange(phases[i], 3, 5) + InRange(phases[i], 6, 7) ==
      Busy(phases) + InRange(p, 3, 5) + InRange(p, 6, 7)
    ensures Number(phases[i := p], 4, 8) + InRange(phases[i], 4, 8) == Number(phases, 4, 8) + InRange(p, 4, 8)
  {
    NumberSet(phases, i, p, 3, 5);
    NumberSet(phases, i, p, 6, 7);
    NumberSet(phases, i, p, 4, 8);
  }

  /** Every port that has got a slot has a device of its own. */
  ghost predicate Slots(s: Setup) {
    && Number(s.phases, 4, 8) <= |s.devices|
    && forall d :: d in s.devices ==> 1 <= d <= MAX_SLOTS
  }

  lemma SlotsFew(devices: set<nat>)
    requires forall d :: d in devices ==> 1 <= d <= MAX_SLOTS
    ensures |devices| <= MAX_SLOTS
  {
    FewUpTo(devices, MAX_SLOTS);
  }

  lemma {:induction false} FewUpTo(devices: set<nat>, n: nat)
    requires forall d :: d in devices ==> 1 <= d <= n
    ensures |devices| <= n
  {
    if n == 0 {
      assert devices == {};
    } else {
      FewUpTo(devices - {n}, n - 1);
      assert devices - {n} == devices || devices == (devices - {n}) + {n};
    }
  }

  /** At most one port more than there are slots waits for a command. */
  lemma BusyFew(s: Setup)
    requires Exclusive(s) && Slots(s)
    ensures Busy(s.phases) <= MAX_SLOTS + 1
  {
    NumberSplit(s.phases, 3, 4, 5);
    NumberSplit(s.phases, 4, 5, 8);
    NumberSplit(s.phases, 5, 6, 8);
    NumberSplit(s.phases, 6, 7, 8);
    NumberOne(s.phases, 3, 4, s.addressing);
    SlotsFew(s.devices);
  }

  /** What an event that answers `answered` commands does to the commands. */
  ghost predicate Accounts(s: Setup, r: Setup, answered: nat) {
    && Commands(s.actions) <= Commands(r.actions)
    && |Commands(r.actions)| <= |Commands(s.actions)| + 1
    && |Commands(r.actions)| + Busy(s.phases) == |Commands(s.actions)| + Busy(r.phases) + answered
    && (Slots(s) ==> Slots(r))
  }

  /** No event issues more than one command, and every command makes one more
      port wait, unless a completion was accepted that ends the wait for one. */
  lemma HandleAccounts(s: Setup, ports: seq<PortStatus>, e: Event)
    requires Exclusive(s) && |ports| == PORTS && Enabled(e) && Fresh(s, e)
    ensures Accounts(s, Handle(s, ports, e).0, if IsCompletion(e) && Handle(s, ports, e).1 == Success then 1 else 0)
  {
    hide Number, Commands;
    match e
    case ConfigurePort(port) => ResetAccounts(s, port, ports[port].connected);
    case PortStatusChange(port) =>
      if s.phases[port] == NotConnected {
        ResetAccounts(s, port, ports[port].connected);
      } else if s.phases[port] == ResettingPort {
        EnableAccounts(s, port, ports[port]);
      }
    case Transfer(slot, _, _, port) =>
      BusySet(s.phases, port, ConfiguringEndpoints);
      CommandsDo(s.actions, ConfigureEndpointCommand(slot));
    case EnableSlotDone(slot) =>
      if s.phases[s.addressing] == EnablingSlot {
        AddressAccounts(s, slot);
      }
    case AddressDeviceDone(slot, port) => AddressedAccounts(s, ports, slot, port);
    case ConfigureEndpointDone(slot, port) =>
      BusySet(s.phases, port, Configured);
      CommandsDo(s.actions, EndpointsConfigured(slot));
    case OtherCommandDone =>
  }

  lemma ResetAccounts(s: Setup, port: nat, connected: bool)
    requires s.Shape() && port < PORTS
    ensures s.phases[port] == NotConnected || s.phases[port] == WaitingAddressed ==>
      Accounts(s, Reset(s, port, connected).0, 0)
      && Busy(Reset(s, port, connected).0.phases) == Busy(s.phases)
      && Commands(Reset(s, port, connected).0.actions) == Commands(s.actions)
  {
    hide Number, Commands;
    BusySet(s.phases, port, ResettingPort);
    BusySet(s.phases, port, WaitingAddressed);
    CommandsDo(s.actions, PortReset(port));
  }

  lemma EnableAccounts(s: Setup, port: nat, status: PortStatus)
    requires s.Shape() && port < PORTS && s.phases[port] == ResettingPort
    ensures Accounts(s, Enable(s, port, status), 0)
  {
    hide Number, Commands;
    BusySet(s.phases, port, EnablingSlot);
    CommandsDo(s.actions, ClearPortResetChange(port));
    CommandsDo(s.actions + [ClearPortResetChange(port)], EnableSlotCommand);
  }

  lemma AddressAccounts(s: Setup, slot: nat)
    requires s.Shape() && s.phases[s.addressing] == EnablingSlot && 1 <= slot && slot !in s.devices
    ensures Accounts(s, PortConfig.Address(s, slot).0, if PortConfig.Address(s, slot).1 == Success then 1 else 0)
  {
    hide Number, Commands;
    BusySet(s.phases, s.addressing, AddressingDevice);
    CommandsDo(s.actions, AddressDeviceCommand(slot));
  }

  lemma AddressedAccounts(s: Setup, ports: seq<PortStatus>, slot: nat, port: nat)
    requires Exclusive(s) && |ports| == PORTS && port < PORTS
    ensures
      Accounts(s, Addressed(s, ports, slot, port).0, if Addressed(s, ports, slot, port).1 == Success then 1 else 0)
  {
    hide Number, Commands;
    if s.Found(slot) && port == s.addressing && s.phases[port] == AddressingDevice {
      var r := s.(addressing := 0);
      var next := FirstWaiting(s.phases, 0);
      if next < PORTS {
        assert next != port;
        ResetAccounts(r, next, ports[next].connected);
      }
      var t := PassTurn(s, ports).0;
      BusySet(t.phases, port, InitializingDevice);
      CommandsDo(t.actions, StartInitialize(slot));
    }
  }

  // With the ring

  /** The bring-up, how many of its commands are completed, how many of these
      completions it refused, and the command ring. `overfull` is set when a
      command is pushed beyond the ring's limit. */
  datatype Joint = Joint(setup: Setup, completed: nat, refused: nat, ring: Protocol.Sys, overfull: bool)

  /** A handler runs and may start to push a command with these contents, or one
      word is stored, or the controller reads one. */
  datatype Move = Bring(step: Step, trb: Rings.Trb) | Write | Controller

  /** Handlers run one at a time and finish their pushes. The controller completes
      a command that it has taken, and each once. */
  predicate Allowed(j: Joint, m: Move) {
    match m
    case Bring(step, trb) =>
      && j.ring.push == None && step.Valid() && trb.Type() != Rings.LINK_TYPE
      && j.setup.Shape() && Fresh(j.setup, step.event)
      && (IsCompletion(step.event) ==> j.completed < |j.ring.consumed|)
    case Write => j.ring.push.Some?
    case Controller => !j.ring.lost
  }

  function Next(j: Joint, m: Move): Joint
    requires Allowed(j, m) && j.ring.WellFormed()
  {
    match m
    case Bring(step, trb) => Brought(j, step, trb)
    case Write => j.(ring := Protocol.Next(j.ring, Protocol.Write))
    case Controller => j.(ring := Protocol.Next(j.ring, Protocol.Controller))
  }

  function Brought(j: Joint, step: Step, trb: Rings.Trb): Joint
    requires step.Valid() && j.setup.Shape() && j.ring.WellFormed()
  {
    var (r, e) := Handle(j.setup, step.ports, step.event);
    var completed := j.completed + if IsCompletion(step.event) then 1 else 0;
    var refused := j.refused + if IsCompletion(step.event) && e != Success then 1 else 0;
    if |Commands(r.actions)| <= |Commands(j.setup.actions)| then Joint(r, completed, refused, j.ring, j.overfull)
    else if Protocol.Enabled(j.ring, Protocol.Begin(trb)) then
      Joint(r, completed, refused, Protocol.Next(j.ring, Protocol.Begin(trb)), j.overfull)
    else Joint(r, completed, refused, j.ring, true)
  }

  function Run(j: Joint, ms: seq<Move>): Option<Joint> {
    if ms == [] then Some(j)
    else
      var before := Run(j, ms[..|ms| - 1]);
      if before.Some? && before.value.ring.WellFormed() && Allowed(before.value, ms[|ms| - 1]) then
        Some(Next(before.value, ms[|ms| - 1]))
      else None
  }

  function Begin(setup: Setup, base: Rings.Address): Joint {
    Joint(setup, 0, 0, Progress.Start(RING_SIZE, base, MAX_SLOTS + 1), false)
  }

  /** The ring got there by stores and reads alone. */
  ghost predicate ByRing(base: Rings.Address, ring: Protocol.Sys) {
    exists es :: RunsTo(base, es, ring)
  }

  predicate RunsTo(base: Rings.Address, es: seq<Protocol.Event>, ring: Protocol.Sys) {
    Protocol.Run(Progress.Start(RING_SIZE, base, MAX_SLOTS + 1), es) == Some(ring)
  }

  ghost predicate Sound(base: Rings.Address, j: Joint) {
    && Exclusive(j.setup) && Slots(j.setup)
    && Protocol.Inv(j.ring) && ByRing(base, j.ring) && j.ring.limit == MAX_SLOTS + 1
    && !j.overfull && |Commands(j.setup.actions)| == |j.ring.pushed|
    && j.completed <= |j.ring.consumed|
    && |j.ring.pushed| + j.refused == j.completed + Busy(j.setup.phases)
  }

  lemma RingStep(base: Rings.Address, s: Protocol.Sys, e: Protocol.Event)
    requires Protocol.Inv(s) && Protocol.Enabled(s, e) && ByRing(base, s)
    ensures Protocol.Inv(Protocol.Next(s, e)) && ByRing(base, Protocol.Next(s, e))
    ensures
      var r := Protocol.Next(s, e);
      && r.limit == s.limit
      && |r.pushed| == |s.pushed| + (if e.Begin? then 1 else 0) && |s.consumed| <= |r.consumed|
  {
    Protocol.StepKeeps(s, e);
    Protocol.StepHistory(s, e);
    ConsumesMore(s, e);
    var es :| RunsTo(base, es, s);
    hide Protocol.Next, Protocol.Enabled, Protocol.Inv;
    assert (es + [e])[..|es|] == es;
    assert RunsTo(base, es + [e], Protocol.Next(s, e));
  }

  lemma ConsumesMore(s: Protocol.Sys, e: Protocol.Event)
    requires s.WellFormed() && Protocol.Enabled(s, e)
    ensures |s.consumed| <= |Protocol.Next(s, e).consumed|
  {
  }

  lemma BroughtKeeps(base: Rings.Address, j: Joint, step: Step, trb: Rings.Trb)
    requires Sound(base, j) && Allowed(j, Bring(step, trb))
    ensures Sound(base, Brought(j, step, trb))
  {
    hide Protocol.Inv, Protocol.Next, Handle, Commands, Busy, Slots, Exclusive, ByRing;
    HandleKeeps(j.setup, step.ports, step.event);
    HandleAccounts(j.setup, step.ports, step.event);
    var r := Handle(j.setup, step.ports, step.event).0;
    BusyFew(r);
    if |Commands(r.actions)| > |Commands(j.setup.actions)| {
      RingStep(base, j.ring, Protocol.Begin(trb));
    }
  }

  lemma {:induction false} RunSound(base: Rings.Address, ms: seq<Move>)
    requires Run(Begin(Start(), base), ms).Some?
    ensures Sound(base, Run(Begin(Start(), base), ms).value)
  {
    if ms == [] {
      BeginSound(base);
    } else {
      hide Sound, Protocol.Next;
      var before, m := ms[..|ms| - 1], ms[|ms| - 1];
      RunSound(base, before);
      NextKeeps(base, Run(Begin(Start(), base), before).value, m);
    }
  }

  lemma BeginSound(base: Rings.Address)
    ensures Sound(base, Begin(Start(), base))
  {
    StartExclusive();
    NumberNone(Start().phases, 4, 8);
    NumberNone(Start().phases, 3, 5);
    NumberNone(Start().phases, 6, 7);
    Protocol.InitInv(Begin(Start(), base).ring);
    assert RunsTo(base, [], Begin(Start(), base).ring);
  }

  lemma NextKeeps(base: Rings.Address, j: Joint, m: Move)
    requires Sound(base, j) && j.ring.WellFormed() && Allowed(j, m)
    ensures Sound(base, Next(j, m))
  {
    hide Protocol.Inv, Protocol.Next, Commands, Busy, Slots, Exclusive, ByRing, Brought;
    match m
    case Bring(step, trb) => BroughtKeeps(base, j, step, trb);
    case Write => RingStep(base, j.ring, Protocol.Write);
    case Controller => RingStep(base, j.ring, Protocol.Controller);
  }

  /** However handlers, their stores and the controller's reads and completions
      follow each other, unless a completion is refused as many commands are
      outstanding as ports wait for one: at most one more than there are slots, so
      that the ring is never overfull and the controller gets through what was
      pushed. */
  lemma CommandsGetThrough(base: Rings.Address, ms: seq<Move>)
    requires Run(Begin(Start(), base), ms).Some?
    ensures
      var r := Run(Begin(Start(), base), ms).value;
      && !r.overfull && |r.ring.pushed| == |Commands(r.setup.actions)|
      && |r.ring.pushed| + r.refused == r.completed + Busy(r.setup.phases)
      && r.completed <= |r.ring.consumed| && Busy(r.setup.phases) <= MAX_SLOTS + 1
    ensures Run(Begin(Start(), base), ms).value.ring.push == None ==>
      Progress.Drains(Run(Begin(Start(), base), ms).value.ring)
  {
    RunSound(base, ms);
    var r := Run(Begin(Start(), base), ms).value;
    hide Run, Begin;
    BusyFew(r.setup);
    Progress.LimitIsExact(RING_SIZE, base, MAX_SLOTS + 1);
    var es :| RunsTo(base, es, r.ring);
  }
}
