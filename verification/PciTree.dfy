/** What the scan of Pci finds when no bus lies behind itself. */
module PciTree {
  import opened Pci
  import opened Sequences

  /** A bus behind a bridge ranks below the bridge's own. */
  ghost predicate Ranked(c: Config, rank: nat -> nat) {
    forall bus: nat, d :: d in OnBus(c, bus) && IsBridge(d) ==> rank(c.Secondary(d)) < rank(bus)
  }

  /** Depth first: each function followed by what lies behind it. */
  ghost function Preorder(c: Config, rank: nat -> nat, bus: nat, fs: seq<Device>): seq<Device>
    requires Ranked(c, rank) && forall i :: 0 <= i < |fs| ==> fs[i] in OnBus(c, bus)
    decreases rank(bus), |fs|
  {
    if fs == [] then []
    else
      var next := c.Secondary(fs[0]);
      [fs[0]] + (if IsBridge(fs[0]) then Preorder(c, rank, next, OnBus(c, next)) else [])
        + Preorder(c, rank, bus, fs[1..])
  }

  ghost function PreorderOf(c: Config, rank: nat -> nat, buses: seq<nat>): seq<Device>
    requires Ranked(c, rank)
  {
    if buses == [] then [] else Preorder(c, rank, buses[0], OnBus(c, buses[0])) + PreorderOf(c, rank, buses[1..])
  }

  /** As many as fit, and whether all do. */
  function Capped(found: seq<Device>, all: seq<Device>): Scan
    requires |found| <= CAPACITY
  {
    if |found| + |all| <= CAPACITY then Scan(found + all, true) else Scan(found + all[..CAPACITY - |found|], false)
  }

  lemma CappedConcat(found: seq<Device>, a: seq<Device>, b: seq<Device>)
    requires |found| <= CAPACITY
    ensures Capped(found, a + b) == if Capped(found, a).ok then Capped(found + a, b) else Capped(found, a)
  {
    assert found + (a + b) == found + a + b;
    if |found| + |a| > CAPACITY {
      assert (a + b)[..CAPACITY - |found|] == a[..CAPACITY - |found|];
    } else if |found| + |a| + |b| > CAPACITY {
      assert (a + b)[..CAPACITY - |found|] == a + b[..CAPACITY - |found| - |a|];
    }
  }

  /** What lies behind a function. */
  ghost function Behind(c: Config, rank: nat -> nat, bus: nat, d: Device): seq<Device>
    requires Ranked(c, rank) && d in OnBus(c, bus)
  {
    if IsBridge(d) then Preorder(c, rank, c.Secondary(d), OnBus(c, c.Secondary(d))) else []
  }

  lemma ScannedOne(c: Config, found: seq<Device>, d: Device)
    requires |found| <= CAPACITY
    ensures Scanned(c, found, [d]) ==
      if |found| == CAPACITY then Scan(found, false)
      else if IsBridge(d) then Scanned(c, found + [d], OnBus(c, c.Secondary(d)))
      else Scan(found + [d], true)
  {
    hide OnBus;
    assert [d][1..] == [];
    assert forall f: seq<Device> :: |f| <= CAPACITY ==> Scanned(c, f, []) == Scan(f, true);
  }

  lemma {:induction false} ScanIsPreorder(c: Config, rank: nat -> nat, bus: nat, fs: seq<Device>, found: seq<Device>)
    requires Ranked(c, rank) && |found| <= CAPACITY && forall i :: 0 <= i < |fs| ==> fs[i] in OnBus(c, bus)
    ensures Scanned(c, found, fs) == Capped(found, Preorder(c, rank, bus, fs))
    decreases rank(bus), |fs|
  {
    hide Scanned, Preorder, Capped, OnBus, Ranked;
    if fs == [] {
      NoneLeft(c, rank, bus, found);
    } else {
      var d, rest := fs[0], fs[1..];
      var behind := Behind(c, rank, bus, d);
      PreorderFirst(c, rank, bus, fs);
      if IsBridge(d) && |found| < CAPACITY {
        BridgeRanks(c, rank, bus, d);
        ScanIsPreorder(c, rank, c.Secondary(d), OnBus(c, c.Secondary(d)), found + [d]);
      }
      if |found| + 1 + |behind| <= CAPACITY {
        ScanIsPreorder(c, rank, bus, rest, found + ([d] + behind));
      }
      ScanFirst(c, found, d, rest, behind, Preorder(c, rank, bus, rest));
      assert fs == [d] + rest;
    }
  }

  lemma NoneLeft(c: Config, rank: nat -> nat, bus: nat, found: seq<Device>)
    requires Ranked(c, rank) && |found| <= CAPACITY
    ensures Scanned(c, found, []) == Capped(found, Preorder(c, rank, bus, []))
  {
    assert found + [] == found;
  }

  lemma BridgeRanks(c: Config, rank: nat -> nat, bus: nat, d: Device)
    requires Ranked(c, rank) && d in OnBus(c, bus) && IsBridge(d)
    ensures rank(c.Secondary(d)) < rank(bus)
  {
  }

  lemma PreorderFirst(c: Config, rank: nat -> nat, bus: nat, fs: seq<Device>)
    requires Ranked(c, rank) && fs != [] && forall i :: 0 <= i < |fs| ==> fs[i] in OnBus(c, bus)
    ensures Preorder(c, rank, bus, fs) == ([fs[0]] + Behind(c, rank, bus, fs[0])) + Preorder(c, rank, bus, fs[1..])
  {
  }

  lemma ScanFirst(c: Config, found: seq<Device>, d: Device, rest: seq<Device>, behind: seq<Device>, all: seq<Device>)
    requires |found| <= CAPACITY
    requires
      if IsBridge(d) then
        |found| < CAPACITY ==> Scanned(c, found + [d], OnBus(c, c.Secondary(d))) == Capped(found + [d], behind)
      else behind == []
    requires |found| + 1 + |behind| <= CAPACITY ==>
      Scanned(c, found + ([d] + behind), rest) == Capped(found + ([d] + behind), all)
    ensures Scanned(c, found, [d] + rest) == Capped(found, ([d] + behind) + all)
  {
    hide Scanned, OnBus;
    ScannedConcat(c, found, [d], rest);
    ScannedOne(c, found, d);
    CappedConcat(found, [d], behind);
    CappedConcat(found, [d] + behind, all);
    assert [d] + [] == [d];
  }

  lemma {:induction false} ScanOfBuses(c: Config, rank: nat -> nat, buses: seq<nat>, found: seq<Device>)
    requires Ranked(c, rank) && |found| <= CAPACITY
    ensures Scanned(c, found, OnBuses(c, buses)) == Capped(found, PreorderOf(c, rank, buses))
  {
    if buses != [] {
      var all := Preorder(c, rank, buses[0], OnBus(c, buses[0]));
      ScannedConcat(c, found, OnBus(c, buses[0]), OnBuses(c, buses[1..]));
      ScanIsPreorder(c, rank, buses[0], OnBus(c, buses[0]), found);
      CappedConcat(found, all, PreorderOf(c, rank, buses[1..]));
      if |found| + |all| <= CAPACITY {
        ScanOfBuses(c, rank, buses[1..], found + all);
      }
    }
  }

  // The buses that the scan can come to

  /** From a root bus on, each bus lies behind a bridge on the one before. */
  ghost predicate Path(c: Config, p: seq<nat>) {
    && p != [] && IsRoot(c, p[0])
    && forall i :: 0 <= i < |p| - 1 ==> Leads(c, p[i], p[i + 1])
  }

  /** A standard PCI-PCI bridge on the one bus has the other as its secondary. */
  ghost predicate Leads(c: Config, bus: nat, next: nat) {
    exists d: Device :: d.bus == bus && IsThere(c, d) && BridgeTo(c, d, next)
  }

  ghost predicate BridgeTo(c: Config, d: Device, next: nat) {
    && d.classCode.base == 6 && d.classCode.sub == 4
    && next == c.busNumbers(d.bus, d.device, d.fn) / 0x100 % 0x100
  }

  ghost predicate Reached(c: Config, bus: nat) {
    exists p :: Path(c, p) && p[|p| - 1] == bus
  }

  lemma LeadingBridge(c: Config, bus: nat, next: nat) returns (d: Device)
    requires Leads(c, bus, next)
    ensures d in OnBus(c, bus) && IsBridge(d) && c.Secondary(d) == next
  {
    OnBusExact(c, bus);
    d :| d.bus == bus && IsThere(c, d) && BridgeTo(c, d, next);
  }

  ghost function LiveVendor(c: Config, bus: nat, device: nat, fn: nat): nat {
    if Reached(c, bus) then c.vendorId(bus, device, fn) else NO_VENDOR
  }

  /** The configuration space with nothing on the other buses. */
  ghost function Live(c: Config): Config {
    c.(vendorId := (bus: nat, device: nat, fn: nat) => LiveVendor(c, bus, device, fn))
  }

  lemma RootReached(c: Config, bus: nat)
    requires bus in RootBuses(c)
    ensures Reached(c, bus)
  {
    RootBusesExact(c);
    assert Path(c, [bus]);
  }

  lemma NextReached(c: Config, bus: nat, d: Device)
    requires Reached(c, bus) && d in OnBus(c, bus) && IsBridge(d)
    ensures Reached(c, c.Secondary(d))
  {
    hide OnBus;
    OnBusExact(c, bus);
    var p :| Path(c, p) && p[|p| - 1] == bus;
    hide Path;
    assert BridgeTo(c, d, c.Secondary(d));
    assert Leads(c, bus, c.Secondary(d));
    PathOn(c, p, c.Secondary(d));
  }

  lemma PathOn(c: Config, p: seq<nat>, next: nat)
    requires Path(c, p) && Leads(c, p[|p| - 1], next)
    ensures Path(c, p + [next])
  {
    hide Leads, RootBuses;
  }

  lemma LiveAt(c: Config, bus: nat, device: nat, fn: nat)
    ensures Live(c).Present(bus, device, fn) == (Reached(c, bus) && c.Present(bus, device, fn))
    ensures Live(c).At(bus, device, fn) == c.At(bus, device, fn)
    ensures Live(c).headerType(bus, device, fn) == c.headerType(bus, device, fn)
  {
    hide Reached;
  }

  lemma {:induction false} LiveFunctions(c: Config, bus: nat, device: nat, fn: nat)
    requires fn <= 8
    ensures FunctionsFrom(Live(c), bus, device, fn) == if Reached(c, bus) then FunctionsFrom(c, bus, device, fn) else []
    decreases 8 - fn
  {
    hide Live, Reached;
    if fn < 8 {
      LiveAt(c, bus, device, fn);
      LiveFunctions(c, bus, device, fn + 1);
    }
  }

  lemma LiveDevice(c: Config, bus: nat, device: nat)
    ensures DeviceFunctions(Live(c), bus, device) == if Reached(c, bus) then DeviceFunctions(c, bus, device) else []
  {
    hide Live, Reached, FunctionsFrom;
    LiveAt(c, bus, device, 0);
    LiveFunctions(c, bus, device, 1);
  }

  lemma {:induction false} LiveDevices(c: Config, bus: nat, device: nat)
    requires device <= 32
    ensures DevicesFrom(Live(c), bus, device) == if Reached(c, bus) then DevicesFrom(c, bus, device) else []
    decreases 32 - device
  {
    hide Live, Reached, DeviceFunctions;
    if device < 32 {
      LiveDevice(c, bus, device);
      LiveDevices(c, bus, device + 1);
    }
  }

  lemma LiveOnBus(c: Config, bus: nat)
    ensures OnBus(Live(c), bus) == if Reached(c, bus) then OnBus(c, bus) else []
  {
    LiveDevices(c, bus, 0);
  }

  lemma {:induction false} LiveScan(c: Config, found: seq<Device>, fs: seq<Device>)
    requires |found| <= CAPACITY && forall i :: 0 <= i < |fs| && IsBridge(fs[i]) ==> Reached(c, c.Secondary(fs[i]))
    ensures Scanned(Live(c), found, fs) == Scanned(c, found, fs)
    decreases CAPACITY - |found|, |fs|
  {
    hide OnBus, Reached;
    if fs != [] && |found| < CAPACITY {
      var first := found + [fs[0]];
      if IsBridge(fs[0]) {
        LiveScanBus(c, first, c.Secondary(fs[0]));
      }
      var behind := if IsBridge(fs[0]) then Scanned(c, first, OnBus(c, c.Secondary(fs[0]))) else Scan(first, true);
      if behind.ok {
        LiveScan(c, behind.devices, fs[1..]);
      }
    }
  }

  lemma {:induction false} LiveScanBus(c: Config, found: seq<Device>, bus: nat)
    requires |found| <= CAPACITY && Reached(c, bus)
    ensures Scanned(Live(c), found, OnBus(Live(c), bus)) == Scanned(c, found, OnBus(c, bus))
    decreases CAPACITY - |found|, |OnBus(c, bus)| + 1
  {
    hide OnBus, Reached, Scanned;
    LiveOnBus(c, bus);
    var fs := OnBus(c, bus);
    forall i | 0 <= i < |fs| && IsBridge(fs[i])
      ensures Reached(c, c.Secondary(fs[i]))
    {
      NextReached(c, bus, fs[i]);
    }
    LiveScan(c, found, fs);
  }

  lemma {:induction false} LiveScanBuses(c: Config, found: seq<Device>, buses: seq<nat>)
    requires |found| <= CAPACITY && forall i :: 0 <= i < |buses| ==> Reached(c, buses[i])
    ensures Scanned(Live(c), found, OnBuses(Live(c), buses)) == Scanned(c, found, OnBuses(c, buses))
    decreases |buses|
  {
    hide OnBus, Reached, Scanned, Live;
    if buses != [] {
      ScannedConcat(c, found, OnBus(c, buses[0]), OnBuses(c, buses[1..]));
      ScannedConcat(Live(c), found, OnBus(Live(c), buses[0]), OnBuses(Live(c), buses[1..]));
      LiveScanBus(c, found, buses[0]);
      var r := Scanned(c, found, OnBus(c, buses[0]));
      if r.ok {
        LiveScanBuses(c, r.devices, buses[1..]);
      }
    } else {
      NothingLeft(c, found);
      NothingLeft(Live(c), found);
    }
  }

  lemma LiveScanAll(c: Config)
    ensures Scanned(Live(c), [], OnBuses(Live(c), RootBuses(c))) == Scanned(c, [], OnBuses(c, RootBuses(c)))
  {
    hide Reached, Scanned;
    forall i | 0 <= i < |RootBuses(c)|
      ensures Reached(c, RootBuses(c)[i])
    {
      RootReached(c, RootBuses(c)[i]);
    }
    LiveScanBuses(c, [], RootBuses(c));
  }

  /** Where no bus that it comes to lies behind itself, the scan records the
      depth-first order from the root buses, and succeeds iff the table holds all
      of it. */
  lemma ScanExact(c: Config, rank: nat -> nat)
    requires Ranked(Live(c), rank)
    ensures
      var all := PreorderOf(Live(c), rank, RootBuses(c));
      var r := Scanned(c, [], OnBuses(c, RootBuses(c)));
      && (r.ok <==> |all| <= CAPACITY)
      && r.devices == all[..if |all| <= CAPACITY then |all| else CAPACITY]
  {
    hide Live, Ranked;
    ScanOfBuses(Live(c), rank, RootBuses(c), []);
    LiveScanAll(c);
  }

  // When the scan succeeds

  /** A scan that succeeds does so with fewer functions before it, and finds the
      same. */
  lemma {:induction false} ScanMoves(c: Config, f: seq<Device>, g: seq<Device>, fs: seq<Device>)
    requires |g| <= |f| <= CAPACITY && Scanned(c, f, fs).ok
    ensures Scanned(c, g, fs) == Scan(g + Scanned(c, f, fs).devices[|f|..], true)
    decreases CAPACITY - |f|, |fs|
  {
    hide OnBus, Scanned;
    if fs == [] {
      NothingLeft(c, f);
      NothingLeft(c, g);
      assert g + [] == g;
    } else {
      var d, rest := fs[0], fs[1..];
      assert fs == [d] + rest;
      ScannedConcat(c, f, [d], rest);
      ScannedConcat(c, g, [d], rest);
      MovesOne(c, f, g, d);
      var r := Scanned(c, f, [d]);
      ScanMoves(c, r.devices, Scanned(c, g, [d]).devices, rest);
      Joined(f, g, r.devices, Scanned(c, f, fs).devices);
    }
  }

  lemma Joined(f: seq<Device>, g: seq<Device>, r: seq<Device>, u: seq<Device>)
    requires f <= r <= u
    ensures g + r[|f|..] + u[|r|..] == g + u[|f|..]
  {
  }

  lemma MovesOne(c: Config, f: seq<Device>, g: seq<Device>, d: Device)
    requires |g| <= |f| <= CAPACITY && Scanned(c, f, [d]).ok
    ensures |f| < |Scanned(c, f, [d]).devices|
      && Scanned(c, g, [d]) == Scan(g + Scanned(c, f, [d]).devices[|f|..], true)
    decreases CAPACITY - |f|, 0
  {
    hide OnBus, Scanned;
    ScannedOne(c, f, d);
    ScannedOne(c, g, d);
    var r := Scanned(c, f, [d]);
    if IsBridge(d) {
      ScanMoves(c, f + [d], g + [d], OnBus(c, c.Secondary(d)));
      assert r.devices == f + [d] + r.devices[|f| + 1..];
      assert g + [d] + r.devices[|f| + 1..] == g + r.devices[|f|..];
    }
  }

  /** How many functions a scan of one bus finds. */
  ghost function Size(c: Config, bus: nat): nat {
    |Scanned(c, [], OnBus(c, bus)).devices|
  }

  ghost predicate Finite(c: Config, bus: nat) {
    Scanned(c, [], OnBus(c, bus)).ok
  }

  lemma {:induction false} BridgeScanned(c: Config, f: seq<Device>, fs: seq<Device>, d: Device)
    requires |f| <= CAPACITY && Scanned(c, f, fs).ok && d in fs && IsBridge(d)
    ensures Finite(c, c.Secondary(d)) && |f| + 1 + Size(c, c.Secondary(d)) <= |Scanned(c, f, fs).devices|
    decreases |fs|
  {
    hide OnBus;
    var behind :=
      if IsBridge(fs[0]) then Scanned(c, f + [fs[0]], OnBus(c, c.Secondary(fs[0]))) else Scan(f + [fs[0]], true);
    if d == fs[0] {
      ScanMoves(c, f + [d], [], OnBus(c, c.Secondary(d)));
    } else {
      BridgeScanned(c, behind.devices, fs[1..], d);
    }
  }

  lemma {:induction false} RootsFinite(c: Config, f: seq<Device>, buses: seq<nat>, bus: nat)
    requires |f| <= CAPACITY && Scanned(c, f, OnBuses(c, buses)).ok && bus in buses
    ensures Finite(c, bus)
    decreases |buses|
  {
    hide OnBus, Scanned;
    ScannedConcat(c, f, OnBus(c, buses[0]), OnBuses(c, buses[1..]));
    if bus == buses[0] {
      ScanMoves(c, f, [], OnBus(c, bus));
    } else {
      RootsFinite(c, Scanned(c, f, OnBus(c, buses[0])).devices, buses[1..], bus);
    }
  }

  lemma {:induction false} PathFinite(c: Config, p: seq<nat>)
    requires Scanned(c, [], OnBuses(c, RootBuses(c))).ok && Path(c, p)
    ensures Finite(c, p[|p| - 1])
  {
    hide OnBus, Scanned, Finite;
    if |p| == 1 {
      RootBusesExact(c);
      RootsFinite(c, [], RootBuses(c), p[0]);
    } else {
      var q := p[..|p| - 1];
      assert Leads(c, p[|p| - 2], p[|p| - 1]);
      assert Path(c, q) by {
        assert forall i :: 0 <= i < |q| - 1 ==> Leads(c, q[i], q[i + 1]);
      }
      PathFinite(c, q);
      var d := LeadingBridge(c, p[|p| - 2], p[|p| - 1]);
      FiniteNext(c, p[|p| - 2], d);
    }
  }

  lemma FiniteNext(c: Config, bus: nat, d: Device)
    requires Finite(c, bus) && d in OnBus(c, bus) && IsBridge(d)
    ensures Finite(c, c.Secondary(d)) && Size(c, c.Secondary(d)) < Size(c, bus)
  {
    hide OnBus, Scanned;
    BridgeScanned(c, [], OnBus(c, bus), d);
  }

  /** After a scan that succeeds the sizes rank the buses. */
  lemma SizesRank(c: Config)
    requires Scanned(c, [], OnBuses(c, RootBuses(c))).ok
    ensures Ranked(Live(c), bus => Size(c, bus))
  {
    hide OnBus, Finite, Size, Scanned;
    forall bus: nat, d | d in OnBus(Live(c), bus) && IsBridge(d)
      ensures Size(c, Live(c).Secondary(d)) < Size(c, bus)
    {
      LiveOnBus(c, bus);
      var p :| Path(c, p) && p[|p| - 1] == bus;
      PathFinite(c, p);
      FiniteNext(c, bus, d);
    }
  }

  /** The scan succeeds exactly when no bus that it comes to lies behind itself
      and the table holds the depth-first order. */
  lemma ScanSucceeds(c: Config)
    ensures Scanned(c, [], OnBuses(c, RootBuses(c))).ok <==>
      exists rank :: Ranked(Live(c), rank) && |PreorderOf(Live(c), rank, RootBuses(c))| <= CAPACITY
  {
    hide Scanned, Live, Ranked, OnBuses, PreorderOf;
    if Scanned(c, [], OnBuses(c, RootBuses(c))).ok {
      var rank: nat -> nat := bus => Size(c, bus);
      SizesRank(c);
      ScanExact(c, rank);
    }
    if rank :| Ranked(Live(c), rank) && |PreorderOf(Live(c), rank, RootBuses(c))| <= CAPACITY {
      ScanExact(c, rank);
    }
  }

  // Each function once

  /** Every bus behind a bridge has that one bridge. */
  ghost predicate OneParent(c: Config) {
    forall a: nat, b: nat, d, e ::
      d in OnBus(c, a) && e in OnBus(c, b) && IsBridge(d) && IsBridge(e) && c.Secondary(d) == c.Secondary(e) ==> d == e
  }

  ghost predicate IsBehind(c: Config, bus: nat) {
    exists a: nat, d :: d in OnBus(c, a) && IsBridge(d) && c.Secondary(d) == bus
  }

  /** What the scan comes to is a tree: no cycle, one way to every bus, and none
      to a root. */
  ghost predicate Tree(c: Config, rank: nat -> nat) {
    && Ranked(Live(c), rank) && OneParent(Live(c))
    && forall i :: 0 <= i < |RootBuses(c)| ==> !IsBehind(Live(c), RootBuses(c)[i])
  }

  /** Bus `x` is `a` or behind a bridge on it. */
  ghost predicate Reaches(c: Config, rank: nat -> nat, a: nat, x: nat)
    requires Ranked(c, rank)
    decreases rank(a)
  {
    a == x || exists d :: d in OnBus(c, a) && IsBridge(d) && Reaches(c, rank, c.Secondary(d), x)
  }

  lemma {:induction false} ReachesRank(c: Config, rank: nat -> nat, a: nat, x: nat)
    requires Ranked(c, rank) && Reaches(c, rank, a, x)
    ensures rank(x) <= rank(a)
    decreases rank(a)
  {
    if a != x {
      var d :| d in OnBus(c, a) && IsBridge(d) && Reaches(c, rank, c.Secondary(d), x);
      ReachesRank(c, rank, c.Secondary(d), x);
    }
  }

  /** The bridge right before a bus that is reached. */
  lemma {:induction false} LastBridge(c: Config, rank: nat -> nat, a: nat, x: nat) returns (y: nat, d: Device)
    requires Ranked(c, rank) && Reaches(c, rank, a, x) && a != x
    ensures d in OnBus(c, y) && IsBridge(d) && c.Secondary(d) == x && Reaches(c, rank, a, y)
    decreases rank(a)
  {
    var e :| e in OnBus(c, a) && IsBridge(e) && Reaches(c, rank, c.Secondary(e), x);
    if c.Secondary(e) == x {
      y, d := a, e;
    } else {
      y, d := LastBridge(c, rank, c.Secondary(e), x);
    }
  }

  lemma BusOf(c: Config, bus: nat, d: Device)
    requires d in OnBus(c, bus)
    ensures d.bus == bus
  {
    OnBusExact(c, bus);
  }

  /** Of two buses that reach a third one reaches the other. */
  lemma {:induction false} Chain(c: Config, rank: nat -> nat, a: nat, b: nat, x: nat)
    requires Ranked(c, rank) && OneParent(c) && Reaches(c, rank, a, x) && Reaches(c, rank, b, x)
    ensures Reaches(c, rank, a, b) || Reaches(c, rank, b, a)
    decreases rank(a) - rank(x)
  {
    ReachesRank(c, rank, a, x);
    if a != x && b != x {
      var y, d := LastBridge(c, rank, a, x);
      var z, e := LastBridge(c, rank, b, x);
      BusOf(c, y, d);
      BusOf(c, z, e);
      BridgeRanks(c, rank, y, d);
      ReachesRank(c, rank, a, y);
      Chain(c, rank, a, b, y);
    }
  }

  /** A bus that a sibling's bus reaches lies on or below the sibling's own. */
  lemma SiblingsApart(c: Config, rank: nat -> nat, bus: nat, d: Device, e: Device, x: nat)
    requires Ranked(c, rank) && OneParent(c)
    requires d in OnBus(c, bus) && e in OnBus(c, bus) && IsBridge(d) && IsBridge(e) && d != e
    ensures !(Reaches(c, rank, c.Secondary(d), x) && Reaches(c, rank, c.Secondary(e), x))
  {
    if Reaches(c, rank, c.Secondary(d), x) && Reaches(c, rank, c.Secondary(e), x) {
      Chain(c, rank, c.Secondary(d), c.Secondary(e), x);
      if Reaches(c, rank, c.Secondary(d), c.Secondary(e)) {
        NotBelow(c, rank, bus, d, e);
      } else {
        NotBelow(c, rank, bus, e, d);
      }
    }
  }

  lemma NotBelow(c: Config, rank: nat -> nat, bus: nat, d: Device, e: Device)
    requires Ranked(c, rank) && OneParent(c)
    requires d in OnBus(c, bus) && e in OnBus(c, bus) && IsBridge(d) && IsBridge(e) && d != e
    ensures !Reaches(c, rank, c.Secondary(d), c.Secondary(e))
  {
    if Reaches(c, rank, c.Secondary(d), c.Secondary(e)) {
      var y, f := LastBridge(c, rank, c.Secondary(d), c.Secondary(e));
      BusOf(c, y, f);
      BusOf(c, bus, e);
      ReachesRank(c, rank, c.Secondary(d), y);
      BridgeRanks(c, rank, bus, d);
    }
  }

  /** Where the functions of a preorder are: among those it lists, or on a bus
      behind one of them. */
  ghost predicate From(c: Config, rank: nat -> nat, fs: seq<Device>, e: Device)
    requires Ranked(c, rank)
  {
    e in OnBus(c, e.bus)
    && (e in fs || exists i :: 0 <= i < |fs| && IsBridge(fs[i]) && Reaches(c, rank, c.Secondary(fs[i]), e.bus))
  }

  lemma {:induction false} PreorderFrom(c: Config, rank: nat -> nat, bus: nat, fs: seq<Device>, e: Device)
    requires Ranked(c, rank) && (forall i :: 0 <= i < |fs| ==> fs[i] in OnBus(c, bus))
      && e in Preorder(c, rank, bus, fs)
    ensures From(c, rank, fs, e)
    decreases rank(bus), |fs|
  {
    var d := fs[0];
    PreorderFirst(c, rank, bus, fs);
    hide Preorder, OnBus;
    if e == d {
      BusOf(c, bus, d);
    } else if e in Behind(c, rank, bus, d) {
      BridgeRanks(c, rank, bus, d);
      BehindFrom(c, rank, bus, d, e);
    } else {
      PreorderFrom(c, rank, bus, fs[1..], e);
    }
  }

  lemma {:induction false} BehindFrom(c: Config, rank: nat -> nat, bus: nat, d: Device, e: Device)
    requires Ranked(c, rank) && d in OnBus(c, bus) && e in Behind(c, rank, bus, d)
    ensures IsBridge(d) && Reaches(c, rank, c.Secondary(d), e.bus) && e in OnBus(c, e.bus)
    decreases rank(bus), 0
  {
    var next := c.Secondary(d);
    BridgeRanks(c, rank, bus, d);
    PreorderFrom(c, rank, next, OnBus(c, next), e);
    if e in OnBus(c, next) {
      BusOf(c, next, e);
    }
    hide OnBus;
  }

  lemma NotBehind(c: Config, rank: nat -> nat, bus: nat, d: Device, e: Device)
    requires Ranked(c, rank) && d in OnBus(c, bus) && e in Behind(c, rank, bus, d)
    ensures e.bus != bus
  {
    BehindFrom(c, rank, bus, d, e);
    BridgeRanks(c, rank, bus, d);
    ReachesRank(c, rank, c.Secondary(d), e.bus);
  }

  /** What lies behind a function is listed nowhere else. */
  lemma BehindApart(c: Config, rank: nat -> nat, bus: nat, fs: seq<Device>, e: Device)
    requires Ranked(c, rank) && OneParent(c) && fs != [] && forall i :: 0 <= i < |fs| ==> fs[i] in OnBus(c, bus)
    requires NoDuplicates(fs) && e in Preorder(c, rank, bus, fs[1..])
    ensures e != fs[0] && e !in Behind(c, rank, bus, fs[0])
  {
    var d, rest := fs[0], fs[1..];
    PreorderFrom(c, rank, bus, rest, e);
    BusOf(c, bus, d);
    hide OnBus, Preorder, Behind;
    if e in rest {
      BusOf(c, bus, e);
      if e in Behind(c, rank, bus, d) {
        NotBehind(c, rank, bus, d, e);
      }
    } else {
      var i :| 0 <= i < |rest| && IsBridge(rest[i]) && Reaches(c, rank, c.Secondary(rest[i]), e.bus);
      BridgeRanks(c, rank, bus, rest[i]);
      ReachesRank(c, rank, c.Secondary(rest[i]), e.bus);
      if e in Behind(c, rank, bus, d) {
        BehindFrom(c, rank, bus, d, e);
        SiblingsApart(c, rank, bus, d, rest[i], e.bus);
      }
    }
  }

  lemma JoinDistinct(a: seq<Device>, b: seq<Device>)
    requires NoDuplicates(a) && NoDuplicates(b) && forall i :: 0 <= i < |b| ==> b[i] !in a
    ensures NoDuplicates(a + b)
  {
  }

  lemma {:induction false} PreorderDistinct(c: Config, rank: nat -> nat, bus: nat, fs: seq<Device>)
    requires Ranked(c, rank) && OneParent(c) && NoDuplicates(fs) && forall i :: 0 <= i < |fs| ==> fs[i] in OnBus(c, bus)
    ensures NoDuplicates(Preorder(c, rank, bus, fs))
    decreases rank(bus), |fs|
  {
    if fs != [] {
      var d, rest := fs[0], fs[1..];
      var behind, all := Behind(c, rank, bus, d), Preorder(c, rank, bus, rest);
      BusOf(c, bus, d);
      PreorderFirst(c, rank, bus, fs);
      PreorderDistinct(c, rank, bus, rest);
      BehindDistinct(c, rank, bus, d);
      forall i | 0 <= i < |behind|
        ensures behind[i] !in [d]
      {
        NotBehind(c, rank, bus, d, behind[i]);
      }
      JoinDistinct([d], behind);
      forall i | 0 <= i < |all|
        ensures all[i] !in [d] + behind
      {
        BehindApart(c, rank, bus, fs, all[i]);
      }
      hide OnBus, Preorder, Behind, Ranked, OneParent;
      JoinDistinct([d] + behind, all);
    }
  }

  lemma {:induction false} BehindDistinct(c: Config, rank: nat -> nat, bus: nat, d: Device)
    requires Ranked(c, rank) && OneParent(c) && d in OnBus(c, bus)
    ensures NoDuplicates(Behind(c, rank, bus, d))
    decreases rank(bus), 0
  {
    if IsBridge(d) {
      OnBusDistinct(c, c.Secondary(d));
      BridgeRanks(c, rank, bus, d);
      PreorderDistinct(c, rank, c.Secondary(d), OnBus(c, c.Secondary(d)));
    }
  }

  ghost predicate Rising(s: seq<nat>, from: nat) {
    (forall i :: 0 <= i < |s| ==> from <= s[i]) && forall i, j :: 0 <= i < j < |s| ==> s[i] < s[j]
  }

  lemma {:induction false} RootsRise(c: Config, fn: nat)
    requires fn <= 8
    ensures Rising(Roots(c, fn), fn)
    decreases 8 - fn
  {
    hide Config.Present;
    if fn < 8 {
      RootsRise(c, fn + 1);
      PrependRises(Roots(c, fn + 1), fn);
      assert [] + Roots(c, fn + 1) == Roots(c, fn + 1);
    }
  }

  lemma PrependRises(s: seq<nat>, fn: nat)
    requires Rising(s, fn + 1)
    ensures Rising([fn] + s, fn) && Rising(s, fn)
  {
  }

  lemma {:induction false} OfBusesFrom(c: Config, rank: nat -> nat, buses: seq<nat>, e: Device) returns (i: nat)
    requires Ranked(c, rank) && e in PreorderOf(c, rank, buses)
    ensures i < |buses| && Reaches(c, rank, buses[i], e.bus)
    decreases |buses|
  {
    hide Preorder, OnBus, Ranked, Reaches;
    if e in Preorder(c, rank, buses[0], OnBus(c, buses[0])) {
      i := 0;
      InOneOf(c, rank, buses[0], e);
    } else {
      i := OfBusesFrom(c, rank, buses[1..], e);
      i := i + 1;
    }
  }

  lemma RootsApart(c: Config, rank: nat -> nat, a: nat, b: nat, x: nat)
    requires Ranked(c, rank) && OneParent(c) && !IsBehind(c, a) && !IsBehind(c, b) && a != b
    ensures !(Reaches(c, rank, a, x) && Reaches(c, rank, b, x))
  {
    if Reaches(c, rank, a, x) && Reaches(c, rank, b, x) {
      Chain(c, rank, a, b, x);
      if Reaches(c, rank, a, b) {
        var y, d := LastBridge(c, rank, a, b);
      } else {
        var y, d := LastBridge(c, rank, b, a);
      }
    }
  }

  lemma OfBusesApart(c: Config, rank: nat -> nat, buses: seq<nat>, e: Device)
    requires Ranked(c, rank) && OneParent(c) && buses != [] && NoDuplicates(buses)
    requires forall i :: 0 <= i < |buses| ==> !IsBehind(c, buses[i])
    requires e in PreorderOf(c, rank, buses[1..])
    ensures e !in Preorder(c, rank, buses[0], OnBus(c, buses[0]))
  {
    hide OnBus, Preorder, Ranked, OneParent, IsBehind, PreorderOf;
    var k := OfBusesFrom(c, rank, buses[1..], e);
    if e in Preorder(c, rank, buses[0], OnBus(c, buses[0])) {
      InOneOf(c, rank, buses[0], e);
      RootsApart(c, rank, buses[0], buses[k + 1], e.bus);
    }
  }

  lemma OnBusDistinct(c: Config, bus: nat)
    ensures NoDuplicates(OnBus(c, bus))
  {
    OnBusExact(c, bus);
  }

  lemma {:induction false} OfBusesDistinct(c: Config, rank: nat -> nat, buses: seq<nat>)
    requires Ranked(c, rank) && OneParent(c) && NoDuplicates(buses)
    requires forall i :: 0 <= i < |buses| ==> !IsBehind(c, buses[i])
    ensures NoDuplicates(PreorderOf(c, rank, buses))
  {
    hide OnBus, Preorder, Ranked, OneParent, IsBehind;
    if buses != [] {
      OnBusDistinct(c, buses[0]);
      PreorderDistinct(c, rank, buses[0], OnBus(c, buses[0]));
      OfBusesDistinct(c, rank, buses[1..]);
      var a, b := Preorder(c, rank, buses[0], OnBus(c, buses[0])), PreorderOf(c, rank, buses[1..]);
      forall i | 0 <= i < |b|
        ensures b[i] !in a
      {
        OfBusesApart(c, rank, buses, b[i]);
      }
      JoinDistinct(a, b);
    }
  }

  lemma InOneOf(c: Config, rank: nat -> nat, bus: nat, e: Device)
    requires Ranked(c, rank) && e in Preorder(c, rank, bus, OnBus(c, bus))
    ensures Reaches(c, rank, bus, e.bus)
  {
    hide Preorder;
    PreorderFrom(c, rank, bus, OnBus(c, bus), e);
    if e in OnBus(c, bus) {
      BusOf(c, bus, e);
    }
  }

  lemma {:induction false} PreorderHas(c: Config, rank: nat -> nat, bus: nat, fs: seq<Device>, d: Device, e: Device)
    requires Ranked(c, rank) && (forall i :: 0 <= i < |fs| ==> fs[i] in OnBus(c, bus)) && d in fs
    requires e == d || e in Behind(c, rank, bus, d)
    ensures e in Preorder(c, rank, bus, fs)
  {
    PreorderFirst(c, rank, bus, fs);
    if d != fs[0] {
      hide Preorder, OnBus, Behind;
      PreorderHas(c, rank, bus, fs[1..], d, e);
    }
  }

  /** Nothing that is reached is missing. */
  lemma {:induction false} PreorderComplete(c: Config, rank: nat -> nat, bus: nat, e: Device)
    requires Ranked(c, rank) && e in OnBus(c, e.bus)
    ensures e in Preorder(c, rank, bus, OnBus(c, bus)) <==> Reaches(c, rank, bus, e.bus)
    decreases rank(bus)
  {
    if e in Preorder(c, rank, bus, OnBus(c, bus)) {
      InOneOf(c, rank, bus, e);
    }
    if e.bus == bus {
      PreorderHas(c, rank, bus, OnBus(c, bus), e, e);
    } else if Reaches(c, rank, bus, e.bus) {
      var d :| d in OnBus(c, bus) && IsBridge(d) && Reaches(c, rank, c.Secondary(d), e.bus);
      BridgeRanks(c, rank, bus, d);
      PreorderComplete(c, rank, c.Secondary(d), e);
      PreorderHas(c, rank, bus, OnBus(c, bus), d, e);
    }
  }

  lemma RootBusesDistinct(c: Config)
    ensures NoDuplicates(RootBuses(c)) && Rising(RootBuses(c), 0)
  {
    RootsRise(c, 0);
  }

  /** On a tree the scan records every function once, in depth-first order, and
      succeeds iff there are at most as many as the table holds. */
  lemma ScanOfTree(c: Config, rank: nat -> nat)
    requires Tree(c, rank)
    ensures
      var all := PreorderOf(Live(c), rank, RootBuses(c));
      var r := Scanned(c, [], OnBuses(c, RootBuses(c)));
      && NoDuplicates(all) && NoDuplicates(r.devices) && (r.ok <==> |all| <= CAPACITY)
      && r.devices == all[..if |all| <= CAPACITY then |all| else CAPACITY]
    ensures forall e :: e in PreorderOf(Live(c), rank, RootBuses(c)) <==> Reached(c, e.bus) && IsThere(c, e)
  {
    hide Scanned, PreorderOf, RootBuses, OnBuses, Ranked, OneParent, IsBehind, Live, Reached, IsThere;
    ScanExact(c, rank);
    forall e
      ensures e in PreorderOf(Live(c), rank, RootBuses(c)) <==> Reached(c, e.bus) && IsThere(c, e)
    {
      OrderExact(c, rank, e);
    }
    RootBusesDistinct(c);
    OfBusesDistinct(Live(c), rank, RootBuses(c));
  }

  // What the scan finds

  lemma {:induction false} ReachesOn(c: Config, rank: nat -> nat, a: nat, y: nat, d: Device)
    requires Ranked(c, rank) && Reaches(c, rank, a, y) && d in OnBus(c, y) && IsBridge(d)
    ensures Reaches(c, rank, a, c.Secondary(d))
    decreases rank(a)
  {
    BridgeRanks(c, rank, y, d);
    assert Reaches(c, rank, c.Secondary(d), c.Secondary(d));
    if a != y {
      var e :| e in OnBus(c, a) && IsBridge(e) && Reaches(c, rank, c.Secondary(e), y);
      ReachesOn(c, rank, c.Secondary(e), y, d);
    }
  }

  lemma {:induction false} PathReaches(c: Config, rank: nat -> nat, p: seq<nat>)
    requires Ranked(Live(c), rank) && Path(c, p)
    ensures Reaches(Live(c), rank, p[0], p[|p| - 1])
  {
    hide OnBus, Live, Ranked, Reaches, RootBuses;
    if |p| == 1 {
      ReachesItself(Live(c), rank, p[0]);
    } else {
      var q, y := p[..|p| - 1], p[|p| - 2];
      assert Leads(c, y, p[|p| - 1]);
      assert Path(c, q) by {
        assert forall i :: 0 <= i < |q| - 1 ==> Leads(c, q[i], q[i + 1]);
      }
      PathReaches(c, rank, q);
      var d := LeadingBridge(c, y, p[|p| - 1]);
      LiveOnBus(c, y);
      assert Live(c).Secondary(d) == c.Secondary(d) by {
        LiveSecondary(c, d);
      }
      ReachesOn(Live(c), rank, p[0], y, d);
    }
  }

  lemma ReachesItself(c: Config, rank: nat -> nat, a: nat)
    requires Ranked(c, rank)
    ensures Reaches(c, rank, a, a)
  {
  }

  lemma LiveSecondary(c: Config, d: Device)
    ensures Live(c).Secondary(d) == c.Secondary(d)
  {
  }

  lemma {:induction false} OfBusesHas(c: Config, rank: nat -> nat, buses: seq<nat>, bus: nat, e: Device)
    requires Ranked(c, rank) && bus in buses && e in Preorder(c, rank, bus, OnBus(c, bus))
    ensures e in PreorderOf(c, rank, buses)
  {
    hide Preorder, OnBus, Ranked;
    if bus != buses[0] {
      OfBusesHas(c, rank, buses[1..], bus, e);
    }
  }

  lemma {:induction false} OfBusesLive(c: Config, rank: nat -> nat, buses: seq<nat>, e: Device)
    requires Ranked(c, rank) && e in PreorderOf(c, rank, buses)
    ensures e in OnBus(c, e.bus)
    decreases |buses|
  {
    hide Preorder, OnBus, Ranked;
    if e in Preorder(c, rank, buses[0], OnBus(c, buses[0])) {
      PreorderFrom(c, rank, buses[0], OnBus(c, buses[0]), e);
    } else {
      OfBusesLive(c, rank, buses[1..], e);
    }
  }

  /** The depth-first order holds exactly the functions on the buses that a chain
      of bridges leads to. */
  lemma OrderExact(c: Config, rank: nat -> nat, e: Device)
    requires Ranked(Live(c), rank)
    ensures e in PreorderOf(Live(c), rank, RootBuses(c)) <==> Reached(c, e.bus) && IsThere(c, e)
  {
    hide OnBus, Live, PreorderOf, Preorder, Ranked, Reaches, RootBuses, IsThere;
    LiveOnBus(c, e.bus);
    OnBusExact(c, e.bus);
    if e in PreorderOf(Live(c), rank, RootBuses(c)) {
      OfBusesLive(Live(c), rank, RootBuses(c), e);
    }
    if Reached(c, e.bus) && e in OnBus(c, e.bus) {
      var p :| Path(c, p) && p[|p| - 1] == e.bus;
      PathReaches(c, rank, p);
      RootBusesExact(c);
      PreorderComplete(Live(c), rank, p[0], e);
      OfBusesHas(Live(c), rank, RootBuses(c), p[0], e);
    }
  }

  /** A scan that succeeds finds exactly the functions that are there on the buses
      that a chain of bridges leads to. */
  lemma ScanFinds(c: Config, e: Device)
    requires Scanned(c, [], OnBuses(c, RootBuses(c))).ok
    ensures e in Scanned(c, [], OnBuses(c, RootBuses(c))).devices <==> Reached(c, e.bus) && IsThere(c, e)
  {
    hide Scanned, OnBuses, Live, PreorderOf, Ranked, Reached, RootBuses, IsThere;
    var rank: nat -> nat := bus => Size(c, bus);
    SizesRank(c);
    ScanExact(c, rank);
    var all := PreorderOf(Live(c), rank, RootBuses(c));
    assert all[..|all|] == all;
    OrderExact(c, rank, e);
  }

  // In which order, with cycles and all

  /** The scan starts from this bus, or has recorded the bridge before it. */
  ghost predicate Opened(c: Config, found: seq<Device>, bus: nat) {
    IsRoot(c, bus) || exists j :: 0 <= j < |found| && BridgeTo(c, found[j], bus)
  }

  ghost predicate Supported(c: Config, found: seq<Device>) {
    forall i :: 0 <= i < |found| ==> IsThere(c, found[i]) && Opened(c, found[..i], found[i].bus)
  }

  ghost predicate AllOpened(c: Config, found: seq<Device>, fs: seq<Device>) {
    forall i :: 0 <= i < |fs| ==> IsThere(c, fs[i]) && Opened(c, found, fs[i].bus)
  }

  lemma OpenedMore(c: Config, found: seq<Device>, more: seq<Device>, bus: nat)
    requires Opened(c, found, bus) && found <= more
    ensures Opened(c, more, bus)
  {
    if !IsRoot(c, bus) {
      var j :| 0 <= j < |found| && BridgeTo(c, found[j], bus);
      assert BridgeTo(c, more[j], bus);
    }
  }

  lemma SupportedMore(c: Config, found: seq<Device>, d: Device)
    requires Supported(c, found) && IsThere(c, d) && Opened(c, found, d.bus)
    ensures Supported(c, found + [d])
  {
    hide IsThere, Opened;
    forall i | 0 <= i < |found| + 1
      ensures IsThere(c, (found + [d])[i]) && Opened(c, (found + [d])[..i], (found + [d])[i].bus)
    {
      assert (found + [d])[..i] == if i < |found| then found[..i] else found;
    }
  }

  lemma {:induction false} ScanSupported(c: Config, found: seq<Device>, fs: seq<Device>)
    requires |found| <= CAPACITY && Supported(c, found) && AllOpened(c, found, fs)
    ensures Supported(c, Scanned(c, found, fs).devices)
    decreases CAPACITY - |found|, |fs|
  {
    hide OnBus, IsThere, Supported, Opened;
    if fs != [] && |found| < CAPACITY {
      var first := found + [fs[0]];
      SupportedMore(c, found, fs[0]);
      if IsBridge(fs[0]) {
        var next := c.Secondary(fs[0]);
        OpenedBy(c, found, fs[0]);
        OnBusExact(c, next);
        assert AllOpened(c, first, OnBus(c, next));
        ScanSupported(c, first, OnBus(c, next));
      }
      var behind := if IsBridge(fs[0]) then Scanned(c, first, OnBus(c, c.Secondary(fs[0]))) else Scan(first, true);
      if behind.ok {
        var rest := fs[1..];
        forall i | 0 <= i < |rest|
          ensures Opened(c, behind.devices, rest[i].bus)
        {
          OpenedMore(c, found, behind.devices, rest[i].bus);
        }
        ScanSupported(c, behind.devices, rest);
      }
    }
  }

  lemma OpenedBy(c: Config, found: seq<Device>, d: Device)
    requires IsBridge(d)
    ensures Opened(c, found + [d], c.Secondary(d))
  {
    assert BridgeTo(c, (found + [d])[|found|], c.Secondary(d));
  }

  lemma {:induction false} RootsOpened(c: Config, buses: seq<nat>)
    requires forall i :: 0 <= i < |buses| ==> IsRoot(c, buses[i])
    ensures AllOpened(c, [], OnBuses(c, buses))
  {
    hide OnBus, IsThere, IsRoot;
    if buses != [] {
      OnBusExact(c, buses[0]);
      RootsOpened(c, buses[1..]);
    }
  }

  /** Every scan, complete or not and with cycles too, records functions that are
      there, each on a root bus or after the bridge that leads to its bus. */
  lemma ScanOrder(c: Config)
    ensures Supported(c, Scanned(c, [], OnBuses(c, RootBuses(c))).devices)
  {
    hide Scanned, OnBuses, IsRoot;
    RootBusesExact(c);
    RootsOpened(c, RootBuses(c));
    ScanSupported(c, [], OnBuses(c, RootBuses(c)));
  }
}
