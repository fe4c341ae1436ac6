/** The scan of the PCI buses (kernel/pci.cpp). */
module Pci {

  const CAPACITY := 32
  const NO_VENDOR: nat := 0xffff

  datatype ClassCode = ClassCode(base: nat, sub: nat, interface: nat)

  datatype Device = Device(bus: nat, device: nat, fn: nat, headerType: nat, classCode: ClassCode)

  /** What the configuration space answers at a bus, device and function. */
  datatype Config = Config(
    vendorId: (nat, nat, nat) -> nat, headerType: (nat, nat, nat) -> nat,
    classCode: (nat, nat, nat) -> ClassCode, busNumbers: (nat, nat, nat) -> nat)
  {
    predicate Present(bus: nat, device: nat, fn: nat) {
      vendorId(bus, device, fn) != NO_VENDOR
    }

    function At(bus: nat, device: nat, fn: nat): Device {
      Device(bus, device, fn, headerType(bus, device, fn), classCode(bus, device, fn))
    }

    /** Bits 8 to 15 of the bus number register. */
    function Secondary(d: Device): nat {
      busNumbers(d.bus, d.device, d.fn) / 0x100 % 0x100
    }
  }

  predicate IsSingleFunctionDevice(headerType: nat) {
    headerType / 0x80 % 2 == 0
  }

  /** A standard PCI-PCI bridge. */
  predicate IsBridge(d: Device) {
    d.classCode.base == 6 && d.classCode.sub == 4
  }

  // What there is on a bus

  function FunctionsFrom(c: Config, bus: nat, device: nat, fn: nat): seq<Device>
    requires fn <= 8
    decreases 8 - fn
  {
    if fn == 8 then []
    else
      (if c.Present(bus, device, fn) then [c.At(bus, device, fn)] else [])
      + FunctionsFrom(c, bus, device, fn + 1)
  }

  /** The functions of a device: only the first unless it says that it has more. */
  function DeviceFunctions(c: Config, bus: nat, device: nat): seq<Device> {
    if !c.Present(bus, device, 0) then []
    else
      [c.At(bus, device, 0)]
      + if IsSingleFunctionDevice(c.headerType(bus, device, 0)) then [] else FunctionsFrom(c, bus, device, 1)
  }

  function DevicesFrom(c: Config, bus: nat, device: nat): seq<Device>
    requires device <= 32
    decreases 32 - device
  {
    if device == 32 then [] else DeviceFunctions(c, bus, device) + DevicesFrom(c, bus, device + 1)
  }

  /** All functions on a bus, in the order of their numbers. */
  function OnBus(c: Config, bus: nat): seq<Device> {
    DevicesFrom(c, bus, 0)
  }

  /** The scan looks for this function: function 0 of the device is there, this
      one is, and bit 7 of the header type of function 0 tells of more than one. */
  ghost predicate IsThere(c: Config, d: Device) {
    && d == c.At(d.bus, d.device, d.fn) && d.device < 32 && d.fn < 8
    && c.vendorId(d.bus, d.device, 0) != 0xffff && c.vendorId(d.bus, d.device, d.fn) != 0xffff
    && (d.fn == 0 || c.headerType(d.bus, d.device, 0) / 0x80 % 2 == 1)
  }

  /** In the order of devices, and of functions in a device. */
  ghost predicate Earlier(d: Device, e: Device) {
    d.device < e.device || (d.device == e.device && d.fn < e.fn)
  }

  ghost predicate Ordered(ds: seq<Device>) {
    forall i, j :: 0 <= i < j < |ds| ==> Earlier(ds[i], ds[j])
  }

  lemma OrderedConcat(a: seq<Device>, b: seq<Device>)
    requires Ordered(a) && Ordered(b) && forall i, j :: 0 <= i < |a| && 0 <= j < |b| ==> Earlier(a[i], b[j])
    ensures Ordered(a + b)
  {
  }

  lemma {:induction false} FunctionsExact(c: Config, bus: nat, device: nat, fn: nat, d: Device)
    requires fn <= 8
    ensures d in FunctionsFrom(c, bus, device, fn) <==>
      d == c.At(bus, device, d.fn) && fn <= d.fn < 8 && c.vendorId(bus, device, d.fn) != 0xffff
    decreases 8 - fn
  {
    if fn < 8 {
      FunctionsExact(c, bus, device, fn + 1, d);
    }
  }

  lemma {:induction false} FunctionsOrdered(c: Config, bus: nat, device: nat, fn: nat)
    requires fn <= 8
    ensures Ordered(FunctionsFrom(c, bus, device, fn))
    decreases 8 - fn
  {
    hide FunctionsFrom;
    if fn < 8 {
      var first := if c.Present(bus, device, fn) then [c.At(bus, device, fn)] else [];
      var rest := FunctionsFrom(c, bus, device, fn + 1);
      FunctionsOrdered(c, bus, device, fn + 1);
      forall j | 0 <= j < |rest|
        ensures rest[j].device == device && fn < rest[j].fn
      {
        FunctionsExact(c, bus, device, fn + 1, rest[j]);
      }
      OrderedConcat(first, rest);
      assert FunctionsFrom(c, bus, device, fn) == first + rest by { FunctionsNext(c, bus, device, fn); }
    } else {
      FunctionsNext(c, bus, device, 8);
    }
  }

  lemma FunctionsNext(c: Config, bus: nat, device: nat, fn: nat)
    requires fn <= 8
    ensures FunctionsFrom(c, bus, device, fn) ==
      if fn == 8 then []
      else (if c.Present(bus, device, fn) then [c.At(bus, device, fn)] else []) + FunctionsFrom(c, bus, device, fn + 1)
  {
  }

  lemma DeviceExact(c: Config, bus: nat, device: nat)
    requires device < 32
    ensures forall d :: d in DeviceFunctions(c, bus, device) <==> d.bus == bus && d.device == device && IsThere(c, d)
    ensures Ordered(DeviceFunctions(c, bus, device))
  {
    hide FunctionsFrom;
    forall d
      ensures d in DeviceFunctions(c, bus, device) <==> d.bus == bus && d.device == device && IsThere(c, d)
    {
      FunctionsExact(c, bus, device, 1, d);
    }
    if c.Present(bus, device, 0) {
      FunctionsOrdered(c, bus, device, 1);
      var more := if IsSingleFunctionDevice(c.headerType(bus, device, 0)) then [] else FunctionsFrom(c, bus, device, 1);
      forall j | 0 <= j < |more|
        ensures more[j].device == device && 1 <= more[j].fn
      {
        FunctionsExact(c, bus, device, 1, more[j]);
      }
      OrderedConcat([c.At(bus, device, 0)], more);
    }
  }

  lemma {:induction false} DevicesExact(c: Config, bus: nat, device: nat)
    requires device <= 32
    ensures forall d :: d in DevicesFrom(c, bus, device) <==> d.bus == bus && device <= d.device && IsThere(c, d)
    ensures Ordered(DevicesFrom(c, bus, device))
    decreases 32 - device
  {
    hide DeviceFunctions;
    if device < 32 {
      DeviceExact(c, bus, device);
      DevicesExact(c, bus, device + 1);
      OrderedConcat(DeviceFunctions(c, bus, device), DevicesFrom(c, bus, device + 1));
    }
  }

  /** Exactly the functions that are there, in order. */
  lemma OnBusExact(c: Config, bus: nat)
    ensures forall d :: d in OnBus(c, bus) <==> d.bus == bus && IsThere(c, d)
    ensures Ordered(OnBus(c, bus))
  {
    DevicesExact(c, bus, 0);
  }

  // The scan

  datatype Scan = Scan(devices: seq<Device>, ok: bool)

  /** Each function is recorded, and what lies behind it if it is a bridge, until
      the table is full. Bridges may form cycles: every step records one more. */
  function Scanned(c: Config, found: seq<Device>, fs: seq<Device>): (r: Scan)
    requires |found| <= CAPACITY
    ensures found <= r.devices && |r.devices| <= CAPACITY
    decreases CAPACITY - |found|, |fs|
  {
    if fs == [] then Scan(found, true)
    else if |found| == CAPACITY then Scan(found, false)
    else
      var first := found + [fs[0]];
      var behind := if IsBridge(fs[0]) then Scanned(c, first, OnBus(c, c.Secondary(fs[0]))) else Scan(first, true);
      if behind.ok then Scanned(c, behind.devices, fs[1..]) else behind
  }

  lemma {:induction false} ScannedConcat(c: Config, found: seq<Device>, a: seq<Device>, b: seq<Device>)
    requires |found| <= CAPACITY
    ensures
      var r := Scanned(c, found, a);
      Scanned(c, found, a + b) == if r.ok then Scanned(c, r.devices, b) else r
    decreases CAPACITY - |found|, |a|
  {
    if a == [] {
      assert a + b == b;
    } else if |found| < CAPACITY {
      assert (a + b)[0] == a[0] && (a + b)[1..] == a[1..] + b;
      var first := found + [a[0]];
      var behind := if IsBridge(a[0]) then Scanned(c, first, OnBus(c, c.Secondary(a[0]))) else Scan(first, true);
      if behind.ok {
        ScannedConcat(c, behind.devices, a[1..], b);
      }
    }
  }

  /** The buses that the scan starts from: bus 0, or one for each function of a
      host bridge with several. */
  function Roots(c: Config, fn: nat): seq<nat>
    requires fn <= 8
    decreases 8 - fn
  {
    if fn == 8 then [] else (if c.Present(0, 0, fn) then [fn] else []) + Roots(c, fn + 1)
  }

  function RootBuses(c: Config): seq<nat> {
    if IsSingleFunctionDevice(c.headerType(0, 0, 0)) then [0] else Roots(c, 0)
  }

  /** The scan starts from this bus: from bus 0, or, if bit 7 of the host
      bridge's header type tells of more than one function, from the bus with the
      number of each function. */
  ghost predicate IsRoot(c: Config, bus: nat) {
    if c.headerType(0, 0, 0) / 0x80 % 2 == 1 then bus < 8 && c.vendorId(0, 0, bus) != 0xffff else bus == 0
  }

  lemma {:induction false} RootsExact(c: Config, fn: nat, bus: nat)
    requires fn <= 8
    ensures bus in Roots(c, fn) <==> fn <= bus < 8 && c.vendorId(0, 0, bus) != 0xffff
    decreases 8 - fn
  {
    if fn < 8 {
      RootsExact(c, fn + 1, bus);
    }
  }

  lemma RootBusesExact(c: Config)
    ensures forall bus :: bus in RootBuses(c) <==> IsRoot(c, bus)
  {
    forall bus
      ensures bus in Roots(c, 0) <==> bus < 8 && c.vendorId(0, 0, bus) != 0xffff
    {
      RootsExact(c, 0, bus);
    }
    hide Roots;
  }

  function OnBuses(c: Config, buses: seq<nat>): seq<Device> {
    if buses == [] then [] else OnBus(c, buses[0]) + OnBuses(c, buses[1..])
  }

  /** `a` is scanned first, and `b` if there was room. */
  ghost predicate Splits(c: Config, found: seq<Device>, whole: seq<Device>, a: seq<Device>, b: seq<Device>)
    requires |found| <= CAPACITY
  {
    var r := Scanned(c, found, a);
    Scanned(c, found, whole) == if r.ok then Scanned(c, r.devices, b) else r
  }

  lemma SplitDevice(c: Config, found: seq<Device>, bus: nat, device: nat)
    requires |found| <= CAPACITY && c.Present(bus, device, 0)
    ensures Splits(c, found, DeviceFunctions(c, bus, device), [c.At(bus, device, 0)],
                   if IsSingleFunctionDevice(c.headerType(bus, device, 0)) then []
                   else FunctionsFrom(c, bus, device, 1))
  {
    hide Scanned, FunctionsFrom;
    ScannedConcat(c, found, [c.At(bus, device, 0)],
                  if IsSingleFunctionDevice(c.headerType(bus, device, 0)) then []
                  else FunctionsFrom(c, bus, device, 1));
  }

  lemma SplitFunction(c: Config, found: seq<Device>, bus: nat, device: nat, fn: nat)
    requires |found| <= CAPACITY && fn < 8
    ensures
      var rest := FunctionsFrom(c, bus, device, fn + 1);
      if c.Present(bus, device, fn) then
        Splits(c, found, FunctionsFrom(c, bus, device, fn), [c.At(bus, device, fn)], rest)
      else FunctionsFrom(c, bus, device, fn) == rest
  {
    hide Scanned;
    var rest := FunctionsFrom(c, bus, device, fn + 1);
    ScannedConcat(c, found, [c.At(bus, device, fn)], rest);
    assert [] + rest == rest;
  }

  lemma SplitBus(c: Config, found: seq<Device>, bus: nat, device: nat)
    requires |found| <= CAPACITY && device < 32
    ensures
      var rest := DevicesFrom(c, bus, device + 1);
      if c.Present(bus, device, 0) then
        Splits(c, found, DevicesFrom(c, bus, device), DeviceFunctions(c, bus, device), rest)
      else DevicesFrom(c, bus, device) == rest
  {
    hide Scanned;
    var rest := DevicesFrom(c, bus, device + 1);
    ScannedConcat(c, found, DeviceFunctions(c, bus, device), rest);
    assert [] + rest == rest;
  }

  lemma SplitRoots(c: Config, found: seq<Device>, fn: nat)
    requires |found| <= CAPACITY && fn < 8
    ensures
      var rest := OnBuses(c, Roots(c, fn + 1));
      if c.Present(0, 0, fn) then Splits(c, found, OnBuses(c, Roots(c, fn)), OnBus(c, fn), rest)
      else OnBuses(c, Roots(c, fn)) == rest
  {
    hide Scanned, OnBus;
    var rest := Roots(c, fn + 1);
    ScannedConcat(c, found, OnBus(c, fn), OnBuses(c, rest));
    assert [] + rest == rest && ([fn] + rest)[1..] == rest;
  }

  lemma NothingLeft(c: Config, found: seq<Device>)
    requires |found| <= CAPACITY
    ensures Scanned(c, found, []) == Scan(found, true)
    ensures forall bus, device :: FunctionsFrom(c, bus, device, 8) == []
    ensures forall bus :: DevicesFrom(c, bus, 32) == []
    ensures OnBuses(c, Roots(c, 8)) == []
  {
  }

  class Scanner {
    const config: Config
    const devices: array<Device>
    var numDevice: nat

    ghost predicate Valid()
      reads this
    {
      devices.Length == CAPACITY && numDevice <= CAPACITY
    }

    ghost function Found(): seq<Device>
      reads this, devices
      requires Valid()
    {
      devices[..numDevice]
    }

    constructor (config: Config)
      ensures Valid() && this.config == config && numDevice == 0
    {
      this.config := config;
      numDevice := 0;
      devices := new Device[CAPACITY](_ => Device(0, 0, 0, 0, ClassCode(0, 0, 0)));
    }

    method AddDevice(d: Device) returns (ok: bool)
      requires Valid()
      modifies devices, `numDevice
      ensures Valid() && ok == (old(numDevice) < CAPACITY)
      ensures Found() == if ok then old(Found()) + [d] else old(Found())
    {
      if numDevice == devices.Length {
        return false;
      }
      devices[numDevice] := d;
      numDevice := numDevice + 1;
      ok := true;
    }

    method ScanFunction(bus: nat, device: nat, fn: nat) returns (ok: bool)
      requires Valid()
      modifies devices, `numDevice
      ensures Valid() && Scan(Found(), ok) == Scanned(config, old(Found()), [config.At(bus, device, fn)])
      decreases CAPACITY - numDevice, 0
    {
      var d := config.At(bus, device, fn);
      ok := AddDevice(d);
      if !ok {
        return;
      }
      if IsBridge(d) {
        ok := ScanBus(config.Secondary(d));
      }
    }

    method ScanDevice(bus: nat, device: nat) returns (ok: bool)
      requires Valid() && config.Present(bus, device, 0)
      modifies devices, `numDevice
      ensures Valid() && Scan(Found(), ok) == Scanned(config, old(Found()), DeviceFunctions(config, bus, device))
      decreases CAPACITY - numDevice, 1
    {
      hide Scanned, FunctionsFrom, DeviceFunctions;
      ghost var whole := Scanned(config, Found(), DeviceFunctions(config, bus, device));
      SplitDevice(config, Found(), bus, device);
      ok := ScanFunction(bus, device, 0);
      NothingLeft(config, Found());
      if !ok {
        return;
      }
      if IsSingleFunctionDevice(config.headerType(bus, device, 0)) {
        return;
      }
      var fn := 1;
      while fn < 8
        invariant 1 <= fn <= 8 && Valid() && ok && numDevice >= old(numDevice)
        invariant whole == Scanned(config, Found(), FunctionsFrom(config, bus, device, fn))
      {
        SplitFunction(config, Found(), bus, device, fn);
        if config.Present(bus, device, fn) {
          ok := ScanFunction(bus, device, fn);
          if !ok {
            return;
          }
        }
        fn := fn + 1;
      }
      NothingLeft(config, Found());
    }

    method ScanBus(bus: nat) returns (ok: bool)
      requires Valid()
      modifies devices, `numDevice
      ensures Valid() && Scan(Found(), ok) == Scanned(config, old(Found()), OnBus(config, bus))
      decreases CAPACITY - numDevice, 2
    {
      hide Scanned, DevicesFrom, DeviceFunctions;
      ok := true;
      ghost var whole := Scanned(config, Found(), OnBus(config, bus));
      var device := 0;
      while device < 32
        invariant 0 <= device <= 32 && Valid() && ok && numDevice >= old(numDevice)
        invariant whole == Scanned(config, Found(), DevicesFrom(config, bus, device))
      {
        SplitBus(config, Found(), bus, device);
        if config.Present(bus, device, 0) {
          ok := ScanDevice(bus, device);
          if !ok {
            return;
          }
        }
        device := device + 1;
      }
      NothingLeft(config, Found());
    }

    method ScanAllBus() returns (ok: bool)
      requires Valid()
      modifies devices, `numDevice
      ensures Valid() && Scan(Found(), ok) == Scanned(config, [], OnBuses(config, RootBuses(config)))
    {
      hide Scanned, OnBus, Roots;
      numDevice := 0;
      assert Found() == [];
      if IsSingleFunctionDevice(config.headerType(0, 0, 0)) {
        assert OnBuses(config, [0]) == OnBus(config, 0) + OnBuses(config, []) == OnBus(config, 0);
        ok := ScanBus(0);
        return;
      }
      hide OnBuses;
      ok := true;
      ghost var whole := Scanned(config, [], OnBuses(config, RootBuses(config)));
      var fn := 0;
      while fn < 8
        invariant 0 <= fn <= 8 && Valid() && ok
        invariant whole == Scanned(config, Found(), OnBuses(config, Roots(config, fn)))
      {
        SplitRoots(config, Found(), fn);
        if config.Present(0, 0, fn) {
          ok := ScanBus(fn);
          if !ok {
            return;
          }
        }
        fn := fn + 1;
      }
      NothingLeft(config, Found());
    }
  }
}
