/** Control transfers (kernel/usb/xhci/device.cpp): the stages pushed for a
    request and the completion that is matched with it (xHCI section 6.4.1.2). */
module ControlTransfers {
  import opened Wrappers
  import opened Sequences
  import opened Rings
  import opened ArrayMaps

  type byte = b: int | 0 <= b < 0x100
  type half = h: int | 0 <= h < 0x1_0000

  datatype SetupData = SetupData(requestType: byte, request: byte, value: half, index: half, length: half)

  /** Where the data of a request goes or comes from. */
  datatype Buffer = Buffer(address: Address, length: nat)

  datatype Request = Request(setup: SetupData, dirIn: bool, buffer: Option<Buffer>)

  const RING_SIZE := 32
  const DATA_SLOTS := 31
  const MAP_SIZE := 16

  const NORMAL_TYPE: word := 1
  const DATA_TYPE: word := 3
  const STATUS_TYPE: word := 4

  // TRBs

  function TransferType(r: Request): (t: nat)
    ensures t < 4
  {
    if r.buffer.None? then 0 else if r.dirIn then 3 else 2
  }

  /** Type 2, immediate data, eight bytes. */
  function SetupTrb(s: SetupData, transferType: nat): Trb
    requires transferType < 4
  {
    Trb(
      s.requestType + 0x100 * s.request + 0x1_0000 * s.value, s.index + 0x1_0000 * s.length,
      8, 0x840 + 0x1_0000 * transferType)
  }

  /** The length field has 17 bits; the interrupt-on-completion bit is set. */
  function DataTrb(b: Buffer, dirIn: bool): Trb {
    Trb(b.address.low, b.address.high, b.length % 0x2_0000, 0xc20 + (if dirIn then 0x1_0000 else 0))
  }

  function StatusTrb(dirIn: bool, interrupt: bool): Trb {
    Trb(0, 0, 0, 0x1000 + (if dirIn then 0x1_0000 else 0) + (if interrupt then 0x20 else 0))
  }

  /** The TRB whose completion is reported. */
  function ReportTrb(r: Request): Trb {
    if r.buffer.Some? then DataTrb(r.buffer.value, r.dirIn) else StatusTrb(true, true)
  }

  /** The number of TRBs of a request. */
  function Length(r: Request): nat {
    if r.buffer.Some? then 3 else 2
  }

  /** The setup data read back from a setup stage. */
  function SetupOf(t: Trb): SetupData {
    SetupData(t.w0 % 0x100, t.w0 / 0x100 % 0x100, t.w0 / 0x1_0000, t.w1 % 0x1_0000, t.w1 / 0x1_0000)
  }

  lemma SetupRoundTrip(s: SetupData, transferType: nat, cycle: bool)
    requires transferType < 4
    ensures SetupOf(SetupTrb(s, transferType).Stamped(cycle)) == s
  {
    hide Stamp;
    var t := SetupTrb(s, transferType);
    assert t.w0 / 0x100 == s.request + 0x100 * s.value;
  }

  /** Bits 16 and 17 of a setup stage's control word: 0 without data, 2 for data
      from the host and 3 for data to it. */
  function TransferTypeOf(w: word): word {
    w / 0x1_0000 % 4
  }

  /** Bit 16 of a data or status stage's control word: to the host. */
  function DirectionOf(w: word): bool {
    w / 0x1_0000 % 2 == 1
  }

  /** Bit 5 of a control word: completion is reported. */
  function InterruptOf(w: word): bool {
    w / 0x20 % 2 == 1
  }

  /** Bit 6 of a control word: the data is in the TRB itself. */
  function ImmediateOf(w: word): bool {
    w / 0x40 % 2 == 1
  }

  /** Bits 1 to 4, 7 to 9 and 18 to 31 of a control word: no chain, and nothing
      reserved. */
  function RestOf(w: word): (word, word, word) {
    (w / 2 % 0x10, w / 0x80 % 8, w / 0x4_0000)
  }

  lemma StampLeaves(w: word, cycle: bool)
    ensures
      var v := Stamp(w, cycle);
      && TypeOf(v) == TypeOf(w) && TransferTypeOf(v) == TransferTypeOf(w) && DirectionOf(v) == DirectionOf(w)
      && InterruptOf(v) == InterruptOf(w) && ImmediateOf(v) == ImmediateOf(w) && RestOf(v) == RestOf(w)
  {
    StampFacts(w, cycle);
    StampHalves(w, cycle);
    hide Stamp, TypeOf;
    ByHalves(w);
    ByHalves(Stamp(w, cycle));
  }

  lemma ByHalves(w: word)
    ensures w / 0x20 == w / 2 / 0x10 && w / 0x40 == w / 2 / 0x20 && w / 0x1_0000 == w / 2 / 0x8000
    ensures w / 0x80 == w / 2 / 0x40 && w / 0x4_0000 == w / 2 / 0x2_0000
  {
  }

  /** A setup stage of these directions: the data lies in its eight bytes. */
  predicate SetupStage(t: Trb, r: Request) {
    && SetupOf(t) == r.setup && t.Type() == 2 && t.w2 == 8 && ImmediateOf(t.w3) && !InterruptOf(t.w3)
    && TransferTypeOf(t.w3) == (if r.buffer.None? then 0 else if r.dirIn then 3 else 2) && RestOf(t.w3) == (0, 0, 0)
  }

  /** The stage whose completion is reported: the data stage, or without data a
      status stage that goes to the host. */
  predicate ReportStage(t: Trb, r: Request) {
    && InterruptOf(t.w3) && !ImmediateOf(t.w3) && TransferTypeOf(t.w3) < 2 && RestOf(t.w3) == (0, 0, 0)
    && t.Type() == (if r.buffer.Some? then 3 else 4)
    && DirectionOf(t.w3) == (r.buffer.Some? ==> r.dirIn)
    && (r.buffer.Some? ==> Address(t.w0, t.w1) == r.buffer.value.address && t.w2 == r.buffer.value.length % 0x2_0000)
  }

  /** The status stage after data goes the other way and is not reported. */
  predicate LastStage(t: Trb, r: Request) {
    && t.Type() == 4 && !InterruptOf(t.w3) && DirectionOf(t.w3) == !r.dirIn && t.w0 == t.w1 == t.w2 == 0
    && !ImmediateOf(t.w3) && TransferTypeOf(t.w3) < 2 && RestOf(t.w3) == (0, 0, 0)
  }

  lemma SetupControl(s: SetupData, transferType: nat)
    requires transferType < 4
    ensures
      var w := SetupTrb(s, transferType).w3;
      && TransferTypeOf(w) == transferType && TypeOf(w) == 2 && ImmediateOf(w) && !InterruptOf(w)
      && RestOf(w) == (0, 0, 0)
  {
    assert SetupTrb(s, transferType).w3 ==
      match transferType case 0 => 0x840 case 1 => 0x1_0840 case 2 => 0x2_0840 case _ => 0x3_0840;
  }

  lemma SetupIs(r: Request, cycle: bool)
    ensures SetupStage(SetupTrb(r.setup, TransferType(r)).Stamped(cycle), r)
  {
    var t := SetupTrb(r.setup, TransferType(r));
    SetupRoundTrip(r.setup, TransferType(r), cycle);
    StampLeaves(t.w3, cycle);
    SetupControl(r.setup, TransferType(r));
    hide Stamp, TypeOf, TransferTypeOf, ImmediateOf, InterruptOf, SetupOf, RestOf;
  }

  lemma DataControl(b: Buffer, dirIn: bool)
    ensures
      var w := DataTrb(b, dirIn).w3;
      && TypeOf(w) == 3 && InterruptOf(w) && !ImmediateOf(w) && DirectionOf(w) == dirIn && TransferTypeOf(w) < 2
      && RestOf(w) == (0, 0, 0)
  {
    assert DataTrb(b, dirIn).w3 == if dirIn then 0x1_0c20 else 0xc20;
  }

  lemma StatusControl(dirIn: bool, interrupt: bool)
    ensures
      var w := StatusTrb(dirIn, interrupt).w3;
      && TypeOf(w) == 4 && InterruptOf(w) == interrupt && !ImmediateOf(w) && DirectionOf(w) == dirIn
      && TransferTypeOf(w) < 2 && RestOf(w) == (0, 0, 0)
  {
    if dirIn {
      assert StatusTrb(dirIn, interrupt).w3 == if interrupt then 0x1_1020 else 0x1_1000;
    } else {
      assert StatusTrb(dirIn, interrupt).w3 == if interrupt then 0x1020 else 0x1000;
    }
  }

  lemma ReportIs(r: Request, cycle: bool)
    ensures ReportStage(ReportTrb(r).Stamped(cycle), r)
  {
    StampLeaves(ReportTrb(r).w3, cycle);
    if r.buffer.Some? {
      DataControl(r.buffer.value, r.dirIn);
    } else {
      StatusControl(true, true);
    }
    hide Stamp, TypeOf, TransferTypeOf, DirectionOf, ImmediateOf, InterruptOf, RestOf;
  }

  lemma LastIs(r: Request, cycle: bool)
    ensures LastStage(StatusTrb(!r.dirIn, false).Stamped(cycle), r)
  {
    StampLeaves(StatusTrb(!r.dirIn, false).w3, cycle);
    StatusControl(!r.dirIn, false);
    hide Stamp, TypeOf, TransferTypeOf, DirectionOf, ImmediateOf, InterruptOf, RestOf;
  }

  // The pipe

  /** A request under way, and the number of the push of its setup stage. */
  datatype Pending = Pending(request: Request, first: nat)

  /** `pushes` counts the TRBs pushed so far; the n-th lies in slot n modulo the
      number of data slots. */
  datatype Pipe = Pipe(
    base: Address, mem: seq<Trb>, pushes: nat, cycle: bool, table: Table<nat, nat>, pending: seq<Pending>)
  {
    predicate Shape() {
      |mem| == RING_SIZE && |table| == MAP_SIZE
    }
  }

  function Slot(n: nat): (s: nat)
    ensures s < DATA_SLOTS
  {
    n % DATA_SLOTS
  }

  function PushOne(p: Pipe, t: Trb): (r: Pipe)
    requires p.Shape()
    ensures r.Shape()
  {
    var slot := Slot(p.pushes);
    p.(
      mem := Pushed(p.mem, p.base, slot, t, p.cycle), cycle := NextCycle(RING_SIZE, slot, p.cycle),
      pushes := p.pushes + 1)
  }

  /** The stages of a request: the status stage of a request with data goes the
      other way and is not reported. */
  function PushStages(p: Pipe, r: Request): (q: Pipe)
    requires p.Shape()
    ensures q.Shape()
  {
    var two := PushOne(PushOne(p, SetupTrb(r.setup, TransferType(r))), ReportTrb(r));
    if r.buffer.Some? then PushOne(two, StatusTrb(!r.dirIn, false)) else two
  }

  /** `ControlIn` and `ControlOut`: the completion of the reported stage will be
      looked up under the slot of that stage. */
  function Submitted(p: Pipe, r: Request): Pipe
    requires p.Shape()
  {
    var q := PushStages(p, r);
    q.(table := WithPut(q.table, Slot(p.pushes + 1), Slot(p.pushes)), pending := q.pending + [Pending(r, p.pushes)])
  }

  /** What a transfer event leads to. */
  datatype Outcome =
    | ControlCompleted(setup: SetupData, buffer: Option<Address>, length: int)
    | InterruptCompleted(data: Address, length: int)
    | TransferFailed | NoCorrespondingSetupStage | NotImplemented

  predicate Successful(code: nat) {
    code == 1 || code == 13
  }

  function Transferred(t: Trb, residual: nat): int {
    t.w2 % 0x2_0000 - residual
  }

  /** The table's values are slots of the ring. */
  ghost predicate InSlots(table: Table<nat, nat>) {
    forall i :: 0 <= i < |table| ==> table[i].1 < DATA_SLOTS
  }

  /** `OnTransferEventReceived`. The event points to a slot of this ring or, from
      RING_SIZE on, to a TRB elsewhere, which is then given. */
  function Completed(p: Pipe, code: nat, residual: nat, position: nat, elsewhere: Trb): (Table<nat, nat>, Outcome)
    requires p.Shape() && InSlots(p.table)
  {
    var issuer := if position < RING_SIZE then p.mem[position] else elsewhere;
    var setup := Got(p.table, position);
    if !Successful(code) then (p.table, TransferFailed)
    else if issuer.Type() == NORMAL_TYPE then
      (p.table, InterruptCompleted(Address(issuer.w0, issuer.w1), Transferred(issuer, residual)))
    else if setup.None? then (p.table, NoCorrespondingSetupStage)
    else
      (WithDelete(p.table, position),
       if issuer.Type() == DATA_TYPE then
         ControlCompleted(SetupOf(p.mem[setup.value]), Some(Address(issuer.w0, issuer.w1)),
           Transferred(issuer, residual))
       else if issuer.Type() == STATUS_TYPE then ControlCompleted(SetupOf(p.mem[setup.value]), None, 0)
       else NotImplemented)
  }

  // The invariant

  /** Requests under way follow each other and lie within the last pushes that
      the ring holds. */
  ghost predicate Window(pending: seq<Pending>, pushes: nat) {
    && (forall i :: 0 <= i < |pending| ==>
          pending[i].first + Length(pending[i].request) <= pushes <= pending[i].first + DATA_SLOTS)
    && forall i, j :: 0 <= i < j < |pending| ==> pending[i].first + Length(pending[i].request) <= pending[j].first
  }

  /** The ring holds the setup stage and the reported stage of a request. */
  ghost predicate InRing(mem: seq<Trb>, q: Pending)
    requires |mem| == RING_SIZE
  {
    SetupStage(mem[Slot(q.first)], q.request) && ReportStage(mem[Slot(q.first + 1)], q.request)
  }

  ghost function KeysOf(pending: seq<Pending>): set<nat> {
    if pending == [] then {} else KeysOf(pending[..|pending| - 1]) + {Slot(pending[|pending| - 1].first + 1)}
  }

  lemma {:induction false} KeysFew(pending: seq<Pending>)
    ensures |KeysOf(pending)| <= |pending|
  {
    if pending != [] {
      KeysFew(pending[..|pending| - 1]);
    }
  }

  lemma {:induction false} KeyOwner(pending: seq<Pending>, k: nat) returns (i: nat)
    requires k in KeysOf(pending)
    ensures i < |pending| && k == Slot(pending[i].first + 1)
  {
    i := |pending| - 1;
    if k != Slot(pending[i].first + 1) {
      i := KeyOwner(pending[..i], k);
    }
  }

  lemma {:induction false} KeyOf(pending: seq<Pending>, i: nat)
    requires i < |pending|
    ensures Slot(pending[i].first + 1) in KeysOf(pending)
  {
    if i < |pending| - 1 {
      KeyOf(pending[..|pending| - 1], i);
    }
  }

  /** The table pairs exactly the reported stages with their setup stages. */
  ghost predicate Paired(table: Table<nat, nat>, pending: seq<Pending>) {
    && Unique(table) && Keys(table) == KeysOf(pending)
    && forall i :: 0 <= i < |pending| ==> Matched(table, pending[i])
  }

  /** Looking up the reported stage of a request finds its setup stage. */
  ghost predicate Matched(table: Table<nat, nat>, q: Pending) {
    Got(table, Slot(q.first + 1)) == Some(Slot(q.first))
  }

  ghost predicate Inv(p: Pipe) {
    && p.Shape() && InSlots(p.table) && Window(p.pending, p.pushes) && Paired(p.table, p.pending)
    && forall i :: 0 <= i < |p.pending| ==> InRing(p.mem, p.pending[i])
  }

  /** The request and all those under way fit in the data slots. */
  ghost predicate Fits(p: Pipe, r: Request) {
    forall i :: 0 <= i < |p.pending| ==> p.pushes + Length(r) <= p.pending[i].first + DATA_SLOTS
  }

  lemma SlotsDiffer(m: nat, n: nat)
    requires m < n < m + DATA_SLOTS
    ensures Slot(m) != Slot(n)
  {
  }

  lemma PushSlot(p: Pipe, t: Trb, s: nat)
    requires p.Shape() && s < DATA_SLOTS
    ensures PushOne(p, t).mem[s] == if s == Slot(p.pushes) then t.Stamped(p.cycle) else p.mem[s]
  {
    hide Stamp, LinkTrb;
  }

  // Submitting

  lemma {:induction false} WindowSpread(pending: seq<Pending>, pushes: nat, i: nat)
    requires Window(pending, pushes) && i < |pending|
    ensures pending[0].first + 2 * i <= pending[i].first
    decreases i
  {
    if i > 0 {
      WindowSpread(pending, pushes, i - 1);
    }
  }

  /** At most fifteen requests fit, and with one to come at most fourteen. */
  lemma FewPending(p: Pipe)
    requires Inv(p)
    ensures |p.pending| < MAP_SIZE
  {
    hide Paired, InRing, InSlots;
    if p.pending != [] {
      WindowSpread(p.pending, p.pushes, |p.pending| - 1);
    }
  }

  lemma FewWithRoom(p: Pipe, r: Request)
    requires Inv(p) && Fits(p, r)
    ensures |p.pending| + 1 < MAP_SIZE
  {
    hide Paired, InRing, InSlots;
    if p.pending != [] {
      WindowSpread(p.pending, p.pushes, |p.pending| - 1);
    }
  }

  lemma PushElsewhere(p: Pipe, t: Trb, n: nat)
    requires p.Shape() && n < p.pushes < n + DATA_SLOTS
    ensures PushOne(p, t).mem[Slot(n)] == p.mem[Slot(n)]
  {
    SlotsDiffer(n, p.pushes);
    PushSlot(p, t, Slot(n));
    hide PushOne;
  }

  lemma PushHere(p: Pipe, t: Trb)
    requires p.Shape()
    ensures
      var r := PushOne(p, t);
      && r.mem[Slot(p.pushes)] == t.Stamped(p.cycle)
      && r.pushes == p.pushes + 1 && r.table == p.table && r.pending == p.pending && r.base == p.base
  {
    PushSlot(p, t, Slot(p.pushes));
    hide Pushed, Stamp;
  }

  /** The slots of requests under way are left alone. */
  lemma PushedOthers(p: Pipe, r: Request, n: nat)
    requires p.Shape() && n < p.pushes && p.pushes + Length(r) <= n + DATA_SLOTS
    ensures PushStages(p, r).mem[Slot(n)] == p.mem[Slot(n)]
  {
    hide SetupTrb, StatusTrb, DataTrb, Slot, PushOne;
    var a := PushOne(p, SetupTrb(r.setup, TransferType(r)));
    PushHere(p, SetupTrb(r.setup, TransferType(r)));
    PushElsewhere(p, SetupTrb(r.setup, TransferType(r)), n);
    PushHere(a, ReportTrb(r));
    PushElsewhere(a, ReportTrb(r), n);
    if r.buffer.Some? {
      PushElsewhere(PushOne(a, ReportTrb(r)), StatusTrb(!r.dirIn, false), n);
    }
  }

  /** The request's own slots hold its stages: two TRBs, and with data a third. */
  lemma PushedStages(p: Pipe, r: Request)
    requires p.Shape()
    ensures
      var q := PushStages(p, r);
      && q.pushes == p.pushes + (if r.buffer.Some? then 3 else 2)
      && q.table == p.table && q.pending == p.pending && q.base == p.base
      && InRing(q.mem, Pending(r, p.pushes))
      && (r.buffer.Some? ==> LastStage(q.mem[Slot(p.pushes + 2)], r))
  {
    var setup, report := SetupTrb(r.setup, TransferType(r)), ReportTrb(r);
    hide SetupTrb, StatusTrb, DataTrb, ReportTrb, Slot, PushOne, Stamp, SetupStage, ReportStage, LastStage;
    SetupIs(r, p.cycle);
    var a := PushOne(p, setup);
    PushHere(p, setup);
    ReportIs(r, a.cycle);
    var b := PushOne(a, report);
    PushHere(a, report);
    PushElsewhere(a, report, p.pushes);
    if r.buffer.Some? {
      LastIs(r, b.cycle);
      PushHere(b, StatusTrb(!r.dirIn, false));
      PushElsewhere(b, StatusTrb(!r.dirIn, false), p.pushes);
      PushElsewhere(b, StatusTrb(!r.dirIn, false), p.pushes + 1);
    }
  }

  lemma NewKey(p: Pipe, r: Request)
    requires Window(p.pending, p.pushes) && Fits(p, r)
    ensures Slot(p.pushes + 1) !in KeysOf(p.pending)
  {
    if Slot(p.pushes + 1) in KeysOf(p.pending) {
      var i := KeyOwner(p.pending, Slot(p.pushes + 1));
      SlotsDiffer(p.pending[i].first + 1, p.pushes + 1);
    }
  }

  lemma RoomInMap(table: Table<nat, nat>, pending: seq<Pending>)
    requires Paired(table, pending) && |pending| < |table|
    ensures Free(table) < |table|
  {
    KeyCount(table);
    KeysFew(pending);
  }

  lemma SubmitPairs(p: Pipe, r: Request)
    requires Inv(p) && Fits(p, r)
    ensures Free(p.table) < MAP_SIZE
    ensures Paired(WithPut(p.table, Slot(p.pushes + 1), Slot(p.pushes)), p.pending + [Pending(r, p.pushes)])
  {
    hide Paired, Window, Fits, InRing, InSlots, Slot, WithPut, Free;
    NewKey(p, r);
    FewWithRoom(p, r);
    RoomInMap(p.table, p.pending);
    PairMore(p.table, p.pending, Pending(r, p.pushes));
  }

  lemma KeysOfMore(pending: seq<Pending>, q: Pending)
    ensures KeysOf(pending + [q]) == KeysOf(pending) + {Slot(q.first + 1)}
  {
    assert (pending + [q])[..|pending|] == pending;
  }

  lemma PairMore(table: Table<nat, nat>, pending: seq<Pending>, q: Pending)
    requires Paired(table, pending) && Slot(q.first + 1) !in KeysOf(pending) && Free(table) < |table|
    ensures Paired(WithPut(table, Slot(q.first + 1), Slot(q.first)), pending + [q])
  {
    hide Unique, Keys, Slot, WithPut, Free, KeysOf, Matched, Got;
    var key, value := Slot(q.first + 1), Slot(q.first);
    var r, more := WithPut(table, key, value), pending + [q];
    PutKeys(table, key, value);
    KeysOfMore(pending, q);
    forall i | 0 <= i < |more|
      ensures Matched(r, more[i])
    {
      if i < |pending| {
        KeyOf(pending, i);
        MatchedStill(table, key, value, pending[i]);
      } else {
        MatchedNew(table, q);
      }
    }
  }

  lemma MatchedStill(table: Table<nat, nat>, key: nat, value: nat, q: Pending)
    requires Unique(table) && key !in Keys(table) && Free(table) < |table| && Unique(WithPut(table, key, value))
    requires Matched(table, q) && Slot(q.first + 1) != key
    ensures Matched(WithPut(table, key, value), q)
  {
    hide Unique, Keys, Slot, WithPut, Free, Got;
    PutLookup(table, key, value, Slot(q.first + 1));
  }

  lemma MatchedNew(table: Table<nat, nat>, q: Pending)
    requires Unique(table) && Slot(q.first + 1) !in Keys(table) && Free(table) < |table|
    requires Unique(WithPut(table, Slot(q.first + 1), Slot(q.first)))
    ensures Matched(WithPut(table, Slot(q.first + 1), Slot(q.first)), q)
  {
    hide Unique, Keys, Slot, WithPut, Free, Got;
    PutLookup(table, Slot(q.first + 1), Slot(q.first), Slot(q.first + 1));
  }

  lemma PushedRing(p: Pipe, r: Request, q: Pending)
    requires p.Shape() && InRing(p.mem, q)
    requires q.first + 2 <= p.pushes && p.pushes + Length(r) <= q.first + DATA_SLOTS
    ensures InRing(PushStages(p, r).mem, q)
  {
    hide PushStages, Slot, SetupStage, ReportStage;
    PushedOthers(p, r, q.first);
    PushedOthers(p, r, q.first + 1);
  }

  lemma SubmitWindow(p: Pipe, r: Request)
    requires Window(p.pending, p.pushes) && Fits(p, r)
    ensures Window(p.pending + [Pending(r, p.pushes)], p.pushes + Length(r))
  {
  }

  lemma PutInSlots(table: Table<nat, nat>, key: nat, value: nat)
    requires InSlots(table) && value < DATA_SLOTS
    ensures InSlots(WithPut(table, key, value)) && |WithPut(table, key, value)| == |table|
  {
  }

  /** A submitted request joins those under way; the map always has room. */
  lemma SubmitKeeps(p: Pipe, r: Request)
    requires Inv(p) && Fits(p, r)
    ensures Inv(Submitted(p, r)) && Submitted(p, r).pending == p.pending + [Pending(r, p.pushes)]
  {
    hide Paired, InRing, InSlots, PushStages, Slot, WithPut;
    SubmitPairs(p, r);
    PushedStages(p, r);
    SubmitWindow(p, r);
    PutInSlots(p.table, Slot(p.pushes + 1), Slot(p.pushes));
    forall i | 0 <= i < |p.pending|
      ensures InRing(PushStages(p, r).mem, p.pending[i])
    {
      PushedRing(p, r, p.pending[i]);
    }
    hide Window;
  }

  /** Of the stages of a request, exactly the one under whose slot the map leads
      to the setup stage is reported. */
  lemma ReportedExact(p: Pipe, r: Request, i: nat)
    requires Inv(p) && Fits(p, r) && i < Length(r)
    ensures
      var q := Submitted(p, r);
      && q.Shape()
      && (InterruptOf(q.mem[Slot(p.pushes + i)].w3) <==> Got(q.table, Slot(p.pushes + i)) == Some(Slot(p.pushes)))
      && (InterruptOf(q.mem[Slot(p.pushes + i)].w3) <==> Got(q.table, Slot(p.pushes + i)).Some?)
  {
    hide PushStages, Slot, WithPut, Got, Inv, Fits, InterruptOf, DirectionOf, ImmediateOf, TransferTypeOf, Keys,
      RestOf;
    InvShape(p);
    var q := Submitted(p, r);
    PushedStages(p, r);
    SubmitKeeps(p, r);
    InvShape(q);
    MatchedAt(q, |p.pending|);
    GotIff(q.table, Slot(p.pushes + i));
    OwnKeys(p, r, i);
  }

  /** The other stages of a request lie in the slot of no reported stage. */
  lemma OwnKeys(p: Pipe, r: Request, i: nat)
    requires Inv(p) && Fits(p, r) && i < Length(r)
    ensures Slot(p.pushes + i) in Keys(Submitted(p, r).table) <==> i == 1
  {
    hide PushStages, Slot, WithPut, Got, InRing, InSlots, Keys;
    SubmitKeeps(p, r);
    var q := Pending(r, p.pushes);
    KeysOfMore(p.pending, q);
    if i != 1 {
      SlotsDiffer(p.pushes + if i < 1 then i else 1, p.pushes + if i < 1 then 1 else i);
    }
    if Slot(p.pushes + i) in KeysOf(p.pending) {
      var k := KeyOwner(p.pending, Slot(p.pushes + i));
      SlotsDiffer(p.pending[k].first + 1, p.pushes + i);
    }
  }

  // Completing

  /** Where an element of the shorter sequence was. */
  function Before(i: nat, j: nat): nat {
    if j < i then j else j + 1
  }

  lemma WithoutIndex(pending: seq<Pending>, i: nat, j: nat)
    requires i < |pending| && j + 1 < |pending|
    ensures Without(pending, i)[j] == pending[Before(i, j)] && Before(i, j) != i
  {
  }

  lemma KeysApart(pending: seq<Pending>, pushes: nat, i: nat, j: nat)
    requires Window(pending, pushes) && i < |pending| && j < |pending| && i != j
    ensures Slot(pending[i].first + 1) != Slot(pending[j].first + 1)
  {
    if i < j {
      SlotsDiffer(pending[i].first + 1, pending[j].first + 1);
    } else {
      SlotsDiffer(pending[j].first + 1, pending[i].first + 1);
    }
  }

  lemma KeyStays(pending: seq<Pending>, pushes: nat, i: nat, k: nat)
    requires Window(pending, pushes) && i < |pending| && k in KeysOf(Without(pending, i))
    ensures k in KeysOf(pending) && k != Slot(pending[i].first + 1)
  {
    hide *;
    var j := KeyOwner(Without(pending, i), k);
    WithoutIndex(pending, i, j);
    BeforeBounds(i, j);
    var b := Before(i, j);
    KeyOf(pending, b);
    KeysApart(pending, pushes, i, b);
  }

  lemma BeforeBounds(i: nat, j: nat)
    ensures j <= Before(i, j) <= j + 1
  {
  }

  lemma KeyLeft(pending: seq<Pending>, i: nat, k: nat)
    requires i < |pending| && k in KeysOf(pending) && k != Slot(pending[i].first + 1)
    ensures k in KeysOf(Without(pending, i))
  {
    hide Without, KeysOf, Slot;
    var j := KeyOwner(pending, k);
    var at := if j < i then j else j - 1;
    WithoutIndex(pending, i, at);
    KeyOf(Without(pending, i), at);
  }

  lemma PairLess(table: Table<nat, nat>, pending: seq<Pending>, pushes: nat, i: nat)
    requires Paired(table, pending) && Window(pending, pushes) && i < |pending|
    ensures Paired(WithDelete(table, Slot(pending[i].first + 1)), Without(pending, i))
  {
    hide Unique, Keys, Slot, WithDelete, KeysOf, Got, Window, Without;
    var key, r := Slot(pending[i].first + 1), Without(pending, i);
    DeleteIsRemoval(table, key);
    forall k
      ensures k in KeysOf(r) <==> k in Keys(WithDelete(table, key))
    {
      if k in KeysOf(r) {
        KeyStays(pending, pushes, i, k);
      } else if k in KeysOf(pending) && k != key {
        KeyLeft(pending, i, k);
      }
    }
    forall j | 0 <= j < |r|
      ensures Matched(WithDelete(table, key), r[j])
    {
      WithoutIndex(pending, i, j);
      KeysApart(pending, pushes, Before(i, j), i);
    }
  }

  lemma DeleteInSlots(table: Table<nat, nat>, key: nat)
    requires InSlots(table)
    ensures InSlots(WithDelete(table, key)) && |WithDelete(table, key)| == |table|
  {
  }

  lemma WindowLess(pending: seq<Pending>, pushes: nat, i: nat)
    requires Window(pending, pushes) && i < |pending|
    ensures Window(Without(pending, i), pushes)
  {
  }

  /** The pipe once the i-th request under way was completed. */
  function Finished(p: Pipe, i: nat): Pipe
    requires p.Shape() && i < |p.pending|
  {
    p.(table := WithDelete(p.table, Slot(p.pending[i].first + 1)), pending := Without(p.pending, i))
  }

  lemma FinishKeeps(p: Pipe, i: nat)
    requires Inv(p) && i < |p.pending|
    ensures Inv(Finished(p, i))
  {
    hide Paired, Window, InRing, InSlots, Slot, WithDelete, Without;
    PairLess(p.table, p.pending, p.pushes, i);
    WindowLess(p.pending, p.pushes, i);
    DeleteInSlots(p.table, Slot(p.pending[i].first + 1));
    forall j | 0 <= j < |p.pending| - 1
      ensures InRing(p.mem, Without(p.pending, i)[j])
    {
      WithoutIndex(p.pending, i, j);
    }
  }

  /** What its class driver is told about a request that was completed with
      `residual` bytes left. */
  function Answer(r: Request, residual: nat): Outcome {
    match r.buffer
    case None => ControlCompleted(r.setup, None, 0)
    case Some(b) => ControlCompleted(r.setup, Some(b.address), b.length % 0x2_0000 - residual)
  }

  lemma MatchedOutcome(p: Pipe, q: Pending, code: nat, residual: nat, elsewhere: Trb)
    requires p.Shape() && InSlots(p.table) && InRing(p.mem, q) && Matched(p.table, q) && Successful(code)
    ensures Completed(p, code, residual, Slot(q.first + 1), elsewhere) ==
      (WithDelete(p.table, Slot(q.first + 1)), Answer(q.request, residual))
  {
    hide Slot, WithDelete, SetupOf, Got, TypeOf, InterruptOf, ImmediateOf, DirectionOf, TransferTypeOf, RestOf;
  }

  lemma MatchedAt(p: Pipe, i: nat)
    requires Inv(p) && i < |p.pending|
    ensures InRing(p.mem, p.pending[i]) && Matched(p.table, p.pending[i])
  {
  }

  /** A completion is matched with its own request: the driver gets back the
      setup data, the buffer and the transferred length of exactly that request,
      wherever it lies in the ring. */
  lemma CompletionMatches(p: Pipe, i: nat, code: nat, residual: nat, elsewhere: Trb)
    requires Inv(p) && i < |p.pending| && Successful(code)
    ensures
      var q := p.pending[i];
      && Completed(p, code, residual, Slot(q.first + 1), elsewhere) ==
        (Finished(p, i).table, Answer(q.request, residual))
      && Inv(Finished(p, i))
  {
    hide InRing, Paired, Window, InSlots, Slot, WithDelete, Without, SetupOf, Matched, TypeOf;
    FinishKeeps(p, i);
    MatchedAt(p, i);
    MatchedOutcome(p, p.pending[i], code, residual, elsewhere);
  }

  /** Whatever the event: the codes of success and of a short packet, and no
      other, are successful. */
  lemma FailsExact(p: Pipe, code: nat, residual: nat, position: nat, elsewhere: Trb)
    requires p.Shape() && InSlots(p.table)
    ensures Completed(p, code, residual, position, elsewhere).1 == TransferFailed <==> code != 1 && code != 13
  {
    hide WithDelete, Got, SetupOf, TypeOf;
  }

  /** Any other event leaves the map alone: a failure is reported, a normal TRB,
      which other rings hold, is left to the interrupt driver, and anything else is
      refused. */
  lemma OtherEvents(p: Pipe, code: nat, residual: nat, position: nat, elsewhere: Trb)
    requires Inv(p) && position !in KeysOf(p.pending)
    ensures
      var issuer := if position < RING_SIZE then p.mem[position] else elsewhere;
      Completed(p, code, residual, position, elsewhere) ==
        (p.table,
         if !Successful(code) then TransferFailed
         else if issuer.Type() == NORMAL_TYPE then
           InterruptCompleted(Address(issuer.w0, issuer.w1), issuer.w2 % 0x2_0000 - residual)
         else NoCorrespondingSetupStage)
  {
    GotIff(p.table, position);
    hide Got, Keys, KeysOf, WithDelete, SetupOf, Slot;
  }

  // Runs

  /** Requests and successful completions, in any order in which the requests
      under way fit in the ring. */
  datatype Op = Submit(request: Request) | Complete(index: nat, code: nat, residual: nat)

  ghost predicate Possible(p: Pipe, op: Op) {
    match op
    case Submit(r) => Fits(p, r)
    case Complete(i, code, _) => i < |p.pending| && Successful(code)
  }

  ghost function Step(p: Pipe, op: Op): Pipe
    requires p.Shape() && Possible(p, op)
  {
    match op
    case Submit(r) => Submitted(p, r)
    case Complete(i, _, _) => Finished(p, i)
  }

  ghost function Run(p: Pipe, ops: seq<Op>): Option<Pipe> {
    if ops == [] then Some(p)
    else
      var m := Run(p, ops[..|ops| - 1]);
      var op := ops[|ops| - 1];
      if m.Some? && m.value.Shape() && Possible(m.value, op) then Some(Step(m.value, op)) else None
  }

  /** A new ring and an empty map. */
  function Opened(base: Address): Pipe {
    Pipe(base, seq(RING_SIZE, _ => ZERO_TRB), 0, true, seq(MAP_SIZE, _ => (None, 0)), [])
  }

  lemma OpenedInv(base: Address)
    ensures Inv(Opened(base))
  {
    assert Keys(Opened(base).table) == {};
  }

  lemma {:induction false} RunInv(base: Address, ops: seq<Op>)
    requires Run(Opened(base), ops).Some?
    ensures Inv(Run(Opened(base), ops).value)
  {
    hide Inv, Submitted, Finished, Fits;
    if ops == [] {
      OpenedInv(base);
    } else {
      RunInv(base, ops[..|ops| - 1]);
      var m := Run(Opened(base), ops[..|ops| - 1]).value;
      match ops[|ops| - 1]
      case Submit(r) => SubmitKeeps(m, r);
      case Complete(i, _, _) => FinishKeeps(m, i);
    }
  }

  lemma InvShape(p: Pipe)
    requires Inv(p)
    ensures p.Shape() && InSlots(p.table)
  {
  }

  /** What the driver is told about a request: its setup data and its buffer, and
      a length that together with what is left is the length asked for, if that is
      one that the data stage can hold. */
  predicate Told(o: Outcome, r: Request, residual: nat) {
    && o.ControlCompleted? && o.setup == r.setup
    && match r.buffer
       case None => o.buffer == None && o.length == 0
       case Some(b) => o.buffer == Some(b.address) && (b.length < 0x2_0000 ==> o.length + residual == b.length)
  }

  lemma AnswerTold(r: Request, residual: nat)
    ensures Told(Answer(r, residual), r, residual)
  {
  }

  /** In every run the map has room for the next request and every completion is
      answered with its own request, across any number of laps of the ring. */
  lemma RunMatches(base: Address, ops: seq<Op>, i: nat, code: nat, residual: nat, elsewhere: Trb)
    requires Run(Opened(base), ops).Some? && i < |Run(Opened(base), ops).value.pending| && Successful(code)
    ensures
      var p := Run(Opened(base), ops).value;
      && |p.pending| < MAP_SIZE && p.Shape() && InSlots(p.table)
      && Told(Completed(p, code, residual, Slot(p.pending[i].first + 1), elsewhere).1, p.pending[i].request, residual)
  {
    hide *;
    RunInv(base, ops);
    var p := Run(Opened(base), ops).value;
    InvShape(p);
    FewPending(p);
    CompletionMatches(p, i, code, residual, elsewhere);
    AnswerTold(p.pending[i].request, residual);
  }

  /** The control endpoint of a device: its transfer ring and the map of setup
      stages. */
  class ControlPipe {
    const ring: Ring
    const setupStageMap: ArrayMap<nat, nat>
    ghost var pushes: nat
    ghost var pending: seq<Pending>

    ghost predicate Linked()
      reads this, ring
    {
      && ring.Valid() && ring.bufSize == RING_SIZE && ring.writeIndex == Slot(pushes)
      && setupStageMap.table.Length == MAP_SIZE
    }

    ghost function View(): Pipe
      reads this, ring, ring.buf, setupStageMap.table
    {
      Pipe(ring.base, ring.buf[..], pushes, ring.cycleBit, setupStageMap.table[..], pending)
    }

    ghost predicate Valid()
      reads this, ring, ring.buf, setupStageMap.table
    {
      Linked() && Inv(View())
    }

    constructor (ring: Ring)
      requires ring.Valid() && ring.bufSize == RING_SIZE && ring.writeIndex == 0
      ensures Valid() && this.ring == ring && pushes == 0 && pending == [] && fresh(setupStageMap.table)
    {
      this.ring := ring;
      setupStageMap := new ArrayMap(MAP_SIZE, 0);
      pushes, pending := 0, [];
      new;
      assert Keys(setupStageMap.table[..]) == {};
    }

    method PushStage(t: Trb) returns (slot: nat)
      requires Linked()
      modifies ring, ring.buf, `pushes
      ensures Linked() && slot == Slot(old(pushes)) && View() == PushOne(old(View()), t)
    {
      hide Pushed, Stamp;
      slot := ring.Push(t);
      pushes := pushes + 1;
    }

    method PutStage(report: nat, setup: nat, ghost q: Pending)
      requires Linked()
      modifies setupStageMap.table, `pending
      ensures Linked()
      ensures View() ==
        old(View()).(table := WithPut(old(View()).table, report, setup), pending := old(View()).pending + [q])
    {
      setupStageMap.Put(report, setup);
      pending := pending + [q];
    }

    lemma MaySubmit(r: Request)
      requires Linked()
      ensures Inv(View()) && Fits(View(), r) ==> Inv(Submitted(View(), r))
    {
      hide Fits;
      if Inv(View()) && Fits(View(), r) {
        SubmitKeeps(View(), r);
      }
      hide Inv;
    }

    /** The stages of a request from the device to the host. */
    method ControlIn(setup: SetupData, buffer: Option<Buffer>)
      requires Linked()
      modifies this, ring, ring.buf, setupStageMap.table
      ensures Linked() && View() == Submitted(old(View()), Request(setup, true, buffer))
      ensures old(Valid() && Fits(View(), Request(setup, true, buffer))) ==> Valid()
    {
      ghost var r := Request(setup, true, buffer);
      ghost var q := Pending(r, pushes);
      MaySubmit(r);
      hide Inv, PushOne, SetupTrb, DataTrb, StatusTrb, WithPut, Slot, View, Linked, Fits;
      if buffer.Some? {
        var setupStage := PushStage(SetupTrb(setup, 3));
        var dataStage := PushStage(DataTrb(buffer.value, true));
        var statusStage := PushStage(StatusTrb(false, false));
        PutStage(dataStage, setupStage, q);
      } else {
        var setupStage := PushStage(SetupTrb(setup, 0));
        var statusStage := PushStage(StatusTrb(true, true));
        PutStage(statusStage, setupStage, q);
      }
    }

    /** The stages of a request from the host to the device. */
    method ControlOut(setup: SetupData, buffer: Option<Buffer>)
      requires Linked()
      modifies this, ring, ring.buf, setupStageMap.table
      ensures Linked() && View() == Submitted(old(View()), Request(setup, false, buffer))
      ensures old(Valid() && Fits(View(), Request(setup, false, buffer))) ==> Valid()
    {
      ghost var r := Request(setup, false, buffer);
      ghost var q := Pending(r, pushes);
      MaySubmit(r);
      hide Inv, PushOne, SetupTrb, DataTrb, StatusTrb, WithPut, Slot, View, Linked, Fits;
      if buffer.Some? {
        var setupStage := PushStage(SetupTrb(setup, 2));
        var dataStage := PushStage(DataTrb(buffer.value, false));
        var statusStage := PushStage(StatusTrb(true, false));
        PutStage(dataStage, setupStage, q);
      } else {
        var setupStage := PushStage(SetupTrb(setup, 0));
        var statusStage := PushStage(StatusTrb(true, true));
        PutStage(statusStage, setupStage, q);
      }
    }

    method OnTransferEventReceived(code: nat, residual: nat, position: nat, elsewhere: Trb) returns (o: Outcome)
      requires Linked() && InSlots(setupStageMap.table[..])
      modifies setupStageMap.table
      ensures Linked() && View().Shape()
      ensures (View().table, o) == Completed(old(View()), code, residual, position, elsewhere)
      ensures View() == old(View()).(table := View().table)
    {
      hide SetupOf, Unique, Slot;
      if code != 1 && code != 13 {
        return TransferFailed;
      }
      var issuer := if position < RING_SIZE then ring.buf[position] else elsewhere;
      if issuer.Type() == NORMAL_TYPE {
        return InterruptCompleted(Address(issuer.w0, issuer.w1), Transferred(issuer, residual));
      }
      var setup := setupStageMap.Get(position);
      if setup == None {
        return NoCorrespondingSetupStage;
      }
      var data := SetupOf(ring.buf[setup.value]);
      setupStageMap.Delete(position);
      if issuer.Type() == DATA_TYPE {
        o := ControlCompleted(data, Some(Address(issuer.w0, issuer.w1)), Transferred(issuer, residual));
      } else if issuer.Type() == STATUS_TYPE {
        o := ControlCompleted(data, None, 0);
      } else {
        o := NotImplemented;
      }
    }

    /** The event of the i-th request under way: which one it is, only the proof
        knows; the code is given the position of a TRB. */
    method Complete(code: nat, residual: nat, position: nat, elsewhere: Trb, ghost i: nat) returns (o: Outcome)
      requires Valid() && i < |pending| && position == Slot(pending[i].first + 1) && Successful(code)
      modifies setupStageMap.table, `pending
      ensures Valid() && View() == Finished(old(View()), i) && o == Answer(old(pending[i].request), residual)
    {
      hide Completed, Slot, WithDelete, Without, Answer, Paired, Window, InRing, InSlots;
      CompletionMatches(View(), i, code, residual, elsewhere);
      assert InSlots(View().table);
      hide Inv;
      o := OnTransferEventReceived(code, residual, position, elsewhere);
      pending := Without(pending, i);
    }
  }

  datatype Error = Success | InvalidEndpointNumber | TransferRingNotSet

  /** A request to a device: refused without an endpoint or its ring. */
  method ControlRequest(pipe: ControlPipe?, endpoint: nat, r: Request) returns (e: Error)
    requires pipe != null ==> pipe.Linked()
    modifies if pipe == null then {} else {pipe, pipe.ring, pipe.ring.buf, pipe.setupStageMap.table}
    ensures e == if endpoint > 15 then InvalidEndpointNumber else if pipe == null then TransferRingNotSet else Success
    ensures pipe != null ==>
      pipe.Linked() && pipe.View() == if e == Success then Submitted(old(pipe.View()), r) else old(pipe.View())
    ensures pipe != null && old(pipe.Valid() && Fits(pipe.View(), r)) ==> pipe.Valid()
  {
    hide Inv, Submitted, Fits;
    if endpoint > 15 {
      return InvalidEndpointNumber;
    }
    if pipe == null {
      return TransferRingNotSet;
    }
    if r.dirIn {
      pipe.ControlIn(r.setup, r.buffer);
    } else {
      pipe.ControlOut(r.setup, r.buffer);
    }
    e := Success;
  }
}
