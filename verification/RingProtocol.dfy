/** The producer of ring.cpp and the host controller, interleaved word by word
    (xHCI sections 4.9.2, 4.9.3 and 6.4.4.1). */
module RingProtocol {
  import opened Wrappers
  import opened Rings

  /** The controller either polls the control word at its dequeue position or
      is reading the TRB behind a control word it accepted. */
  datatype Reader = Polling | Reading(got: seq<word>)

  /** `push` is the TRB of a `Push` in progress and `done` the number of its
      stores already made. `pushed` and `consumed` are histories. */
  datatype Sys = Sys(
    size: nat, base: Address, limit: nat, mem: seq<Trb>,
    slot: nat, cycle: bool, push: Option<Trb>, done: nat, pushed: seq<Trb>,
    deq: nat, ccs: bool, reader: Reader, lost: bool, consumed: seq<Trb>)
  {
    predicate WellFormed() {
      && 2 <= size == |mem| && slot + 1 < size && deq < size && limit < size
      && (if push == None then done == 0 else done < |Stores()|)
      && (reader.Reading? ==> 1 <= |reader.got| <= 3)
    }

    /** The stores of the push in progress, as `Ring.Push` makes them. */
    function Stores(): seq<WordWrite>
      requires push.Some? && slot + 1 < size
    {
      PushWrites(size, base, slot, push.value, cycle)
    }
  }

  datatype Event = Begin(t: Trb) | Write | Controller

  /** The caller starts no push while `limit` TRBs are outstanding. */
  predicate Enabled(s: Sys, e: Event)
    requires s.WellFormed()
  {
    match e
    case Begin(t) => s.push == None && t.Type() != LINK_TYPE && |s.pushed| < |s.consumed| + s.limit
    case Write => s.push.Some?
    case Controller => !s.lost
  }

  function Next(s: Sys, e: Event): Sys
    requires s.WellFormed() && Enabled(s, e)
  {
    match e
    case Begin(t) => s.(push := Some(t), done := 0, pushed := s.pushed + [t.Clean()])
    case Write => WriteNext(s)
    case Controller => ControllerNext(s)
  }

  function WriteNext(s: Sys): Sys
    requires s.WellFormed() && s.push.Some?
  {
    var mem := Store(s.mem, s.Stores()[s.done]);
    if s.done + 1 < |s.Stores()| then s.(mem := mem, done := s.done + 1)
    else s.(mem := mem, push := None, done := 0,
            slot := NextSlot(s.size, s.slot), cycle := NextCycle(s.size, s.slot, s.cycle))
  }

  function ControllerNext(s: Sys): Sys
    requires s.WellFormed()
  {
    var trb := s.mem[s.deq];
    match s.reader
    case Polling => if trb.Cycle() == s.ccs then s.(reader := Reading([trb.w3])) else s
    case Reading(got) =>
      var words := got + [trb.Word(|got| - 1)];
      if |words| < 4 then s.(reader := Reading(words)) else Accept(s, Trb(words[1], words[2], words[3], words[0]))
  }

  /** A link TRB is followed, any other TRB is taken. The controller is lost
      when it would leave the ring. */
  function Accept(s: Sys, t: Trb): Sys
    requires s.WellFormed()
  {
    var r := s.(reader := Polling);
    if t.Type() == LINK_TYPE then
      r.(deq := 0, ccs := if ToggleOf(t.w3) then !s.ccs else s.ccs, lost := !PointsTo(t, s.base))
    else
      r.(
        deq := if s.deq + 1 < s.size then s.deq + 1 else 0, lost := s.deq + 1 >= s.size,
        consumed := s.consumed + [t.Clean()])
  }

  /** After `Ring::Initialize` and the registration of the ring with cycle 1. */
  predicate Init(s: Sys) {
    && s.WellFormed() && s.mem == seq(s.size, _ => ZERO_TRB)
    && s.slot == 0 && s.cycle && s.push == None && s.pushed == []
    && s.deq == 0 && s.ccs && s.reader == Polling && !s.lost && s.consumed == []
  }

  // The invariant

  /** Slots below this one carry the producer's present cycle bit. */
  function Edge(s: Sys): nat {
    if s.push.Some? && s.done >= 4 then s.slot + 1 else s.slot
  }

  /** TRBs whose control word is in memory and which were not taken. */
  function Visible(s: Sys): int {
    |s.pushed| - |s.consumed| - (if s.push.Some? && s.done < 4 then 1 else 0)
  }

  predicate Starts(t: Trb, d: Trb, n: nat)
    requires n <= 4
  {
    forall i :: 0 <= i < n ==> t.Word(i) == d.Word(i)
  }

  ghost predicate Histories(s: Sys) {
    && s.consumed <= s.pushed && |s.pushed| <= |s.consumed| + s.limit
    && (forall i :: 0 <= i < |s.pushed| ==> s.pushed[i].Type() != LINK_TYPE && s.pushed[i] == s.pushed[i].Clean())
    && (s.push.Some? ==> s.pushed != [] && s.pushed[|s.pushed| - 1] == s.push.value.Clean())
  }

  /** The words of the push in progress, and every slot's cycle bit. */
  ghost predicate Memory(s: Sys)
    requires s.WellFormed()
  {
    && (s.push.Some? ==>
          if s.done < 4 then Starts(s.mem[s.slot], s.push.value, s.done)
          else Starts(s.mem[s.size - 1], LinkTrb(s.base), s.done - 4))
    && (forall k :: 0 <= k < s.size - 1 ==> s.mem[k].Cycle() == if k < Edge(s) then s.cycle else !s.cycle)
    && s.mem[s.size - 1].Cycle() == !s.cycle
  }

  /** The slots from `from` to `to` hold the queue from its `at`-th TRB on. */
  ghost predicate Holds(s: Sys, from: nat, to: nat, at: int, cycle: bool) {
    from < to ==>
      && to <= |s.mem| && 0 <= |s.consumed| + at && |s.consumed| + at + (to - from) <= |s.pushed|
      && forall i :: from <= i < to ==> s.mem[i] == s.pushed[|s.consumed| + at + (i - from)].Stamped(cycle)
  }

  /** Producer and controller are on the same lap. */
  ghost predicate SameLap(s: Sys)
    requires s.WellFormed()
  {
    && s.ccs == s.cycle && s.deq <= Edge(s) && Visible(s) == Edge(s) - s.deq
    && Holds(s, s.deq, Edge(s), 0, s.cycle)
    && (s.reader.Reading? ==> s.deq < Edge(s))
  }

  /** The controller still has to follow the link TRB of the last lap. */
  ghost predicate LapBehind(s: Sys)
    requires s.WellFormed()
  {
    && s.ccs != s.cycle && Edge(s) <= s.deq && Visible(s) == s.size - 1 - s.deq + Edge(s)
    && Holds(s, s.deq, s.size - 1, 0, !s.cycle)
    && s.mem[s.size - 1] == LinkTrb(s.base).Stamped(!s.cycle)
    && Holds(s, 0, Edge(s), s.size - 1 - s.deq, s.cycle)
    && (s.push.Some? && s.done < 4 ==> s.slot < s.deq)
  }

  /** A whole lap was pushed while the controller stood at the link TRB, which
      now carries the wrong cycle bit. */
  ghost predicate LinkOverrun(s: Sys)
    requires s.WellFormed()
  {
    && s.ccs == s.cycle && s.push == None && s.slot == 0 && s.deq == s.size - 1
    && Visible(s) == s.size - 1
    && Holds(s, 0, s.size - 1, 0, !s.cycle)
    && s.mem[s.size - 1] == LinkTrb(s.base).Stamped(!s.cycle)
  }

  /** What the controller is about to accept. */
  function Item(s: Sys): Trb
    requires s.deq + 1 < s.size ==> |s.consumed| < |s.pushed|
  {
    if s.deq + 1 < s.size then s.pushed[|s.consumed|] else LinkTrb(s.base)
  }

  function InReadOrder(t: Trb): seq<word> {
    [t.w3, t.w0, t.w1, t.w2]
  }

  ghost predicate ReaderOk(s: Sys) {
    s.reader.Reading? ==>
      && (s.deq + 1 < s.size ==> |s.consumed| < |s.pushed|)
      && |s.reader.got| <= 4
      && s.reader.got == InReadOrder(Item(s).Stamped(s.ccs))[..|s.reader.got|]
  }

  ghost predicate Inv(s: Sys) {
    && s.WellFormed() && !s.lost && Histories(s) && Memory(s) && ReaderOk(s)
    && (SameLap(s) || LapBehind(s) || LinkOverrun(s))
  }

  lemma InitInv(s: Sys)
    requires Init(s)
    ensures Inv(s)
  {
    assert !ZERO_TRB.Cycle();
  }

  lemma BeginHistories(s: Sys, t: Trb)
    requires Inv(s) && Enabled(s, Begin(t))
    ensures Histories(Next(s, Begin(t))) && Memory(Next(s, Begin(t))) && ReaderOk(Next(s, Begin(t)))
  {
    StampFacts(t.w3, true);
    StampFacts(Unstamp(t.w3), true);
    hide CycleOf, ToggleOf, TypeOf, Stamp, Unstamp, LinkTrb, SameLap, LapBehind, LinkOverrun;
  }

  lemma BeginKeeps(s: Sys, t: Trb)
    requires Inv(s) && Enabled(s, Begin(t))
    ensures Inv(Next(s, Begin(t)))
  {
    BeginHistories(s, t);
    hide CycleOf, ToggleOf, TypeOf, Stamp, Unstamp, LinkTrb, Memory, ReaderOk, Histories, Holds;
    var r := Next(s, Begin(t));
    if SameLap(s) {
      HoldsLonger(s, r, s.deq, Edge(s), 0, s.cycle);
    } else {
      HoldsLonger(s, r, s.deq, s.size - 1, 0, !s.cycle);
      HoldsLonger(s, r, 0, Edge(s), s.size - 1 - s.deq, s.cycle);
    }
  }

  lemma HoldsLonger(s: Sys, r: Sys, from: nat, to: nat, at: int, cycle: bool)
    requires Holds(s, from, to, at, cycle) && r.mem == s.mem && r.consumed == s.consumed && s.pushed <= r.pushed
    ensures Holds(r, from, to, at, cycle)
  {
    hide Stamp;
  }

  // Stores

  /** The next store of the push in progress. */
  function NextStore(s: Sys): WordWrite
    requires s.WellFormed() && s.push.Some?
  {
    if s.done < 3 then WordWrite(s.slot, s.done, s.push.value.Word(s.done))
    else if s.done == 3 then WordWrite(s.slot, 3, s.push.value.Stamped(s.cycle).w3)
    else if s.done < 7 then WordWrite(s.size - 1, s.done - 4, LinkTrb(s.base).Word(s.done - 4))
    else WordWrite(s.size - 1, 3, LinkTrb(s.base).Stamped(s.cycle).w3)
  }

  lemma StoresAt(s: Sys)
    requires s.WellFormed() && s.push.Some?
    ensures s.Stores()[s.done] == NextStore(s) && (s.done >= 4 ==> s.slot + 2 == s.size)
    ensures WriteNext(s).mem == Store(s.mem, NextStore(s))
    ensures |s.Stores()| == if s.slot + 2 == s.size then 8 else 4
  {
    hide CycleOf, ToggleOf, TypeOf, Stamp, Unstamp, LinkTrb;
  }

  /** `Holds` looks at its slots only. */
  lemma HoldsStill(s: Sys, r: Sys, from: nat, to: nat, at: int, cycle: bool)
    requires Holds(s, from, to, at, cycle) && r.pushed == s.pushed && r.consumed == s.consumed
    requires |r.mem| == |s.mem| && forall i :: from <= i < to && i < |s.mem| ==> r.mem[i] == s.mem[i]
    ensures Holds(r, from, to, at, cycle)
  {
    hide Stamp;
  }

  lemma LapStill(s: Sys, r: Sys)
    requires s.WellFormed() && r.WellFormed() && (SameLap(s) || LapBehind(s))
    requires r == s.(mem := r.mem, push := r.push, done := r.done, pushed := r.pushed, slot := r.slot)
    requires r.pushed == s.pushed && Edge(r) == Edge(s) && Visible(r) == Visible(s)
    requires r.push.Some? && r.done < 4 ==> LapBehind(s) ==> r.slot < r.deq
    requires forall k ::
      0 <= k < s.size && (SameLap(s) ==> s.deq <= k < Edge(s)) && (LapBehind(s) ==> s.deq <= k || k < Edge(s)) ==>
        r.mem[k] == s.mem[k]
    ensures SameLap(r) || LapBehind(r)
  {
    hide Stamp, LinkTrb;
    if SameLap(s) {
      hide Holds;
      HoldsStill(s, r, s.deq, Edge(s), 0, s.cycle);
    } else {
      hide Holds;
      HoldsStill(s, r, s.deq, s.size - 1, 0, !s.cycle);
      HoldsStill(s, r, 0, Edge(s), s.size - 1 - s.deq, s.cycle);
    }
  }

  /** The stores before the control word touch no TRB the controller may read. */
  lemma BodyKeeps(s: Sys)
    requires Inv(s) && s.push.Some? && s.done < 3
    ensures Inv(WriteNext(s))
  {
    StoresAt(s);
    BodyMemory(s);
    hide CycleOf, ToggleOf, TypeOf, Stamp, LinkTrb, Histories, ReaderOk, Memory, Holds, Store;
    LapStill(s, WriteNext(s));
  }

  lemma BodyMemory(s: Sys)
    requires Inv(s) && s.push.Some? && s.done < 3
    ensures WriteNext(s) == s.(mem := WriteNext(s).mem, done := s.done + 1)
    ensures forall k :: 0 <= k < s.size && k != s.slot ==> WriteNext(s).mem[k] == s.mem[k]
    ensures Memory(WriteNext(s))
    ensures Histories(WriteNext(s)) && ReaderOk(WriteNext(s))
  {
    StoresAt(s);
    hide CycleOf, ToggleOf, TypeOf, Stamp, Unstamp, LinkTrb, Sys.Stores, SameLap, LapBehind, LinkOverrun;
  }

  lemma HoldsMore(s: Sys, from: nat, to: nat, at: int, cycle: bool)
    requires Holds(s, from, to, at, cycle) && from <= to < |s.mem|
    requires 0 <= |s.consumed| + at && |s.consumed| + at + (to - from) < |s.pushed|
    requires s.mem[to] == s.pushed[|s.consumed| + at + (to - from)].Stamped(cycle)
    ensures Holds(s, from, to + 1, at, cycle)
  {
    hide Stamp;
  }

  /** The steps of the producer leave the controller's side alone. */
  predicate SameController(s: Sys, r: Sys) {
    && r.size == s.size && r.base == s.base && |r.mem| == |s.mem| && r.pushed == s.pushed
    && r.deq == s.deq && r.ccs == s.ccs && r.reader == s.reader && r.consumed == s.consumed
  }

  /** `r` is `s` with the control word of the pushed TRB in memory. */
  ghost predicate ControlDone(s: Sys, r: Sys)
    requires s.WellFormed()
  {
    && r.WellFormed() && SameController(s, r) && r.cycle == s.cycle && (r.push.Some? ==> r.done >= 4)
    && Edge(s) == s.slot && Edge(r) == s.slot + 1 && Visible(r) == Visible(s) + 1 == |s.pushed| - |s.consumed|
    && (forall k :: 0 <= k < s.size && k != s.slot ==> r.mem[k] == s.mem[k])
    && s.pushed != [] && r.mem[s.slot] == s.pushed[|s.pushed| - 1].Stamped(s.cycle)
  }

  lemma ControlShape(s: Sys)
    requires Inv(s) && s.push.Some? && s.done == 3
    ensures ControlDone(s, WriteNext(s))
  {
    ControlMemory(s);
    StoresAt(s);
    hide CycleOf, ToggleOf, TypeOf, Stamp, LinkTrb, ReaderOk, Memory, Store, Sys.Stores, SameLap, LapBehind,
      LinkOverrun;
  }

  lemma ControlSameLap(s: Sys, r: Sys)
    requires s.WellFormed() && s.push.Some? && s.done == 3 && SameLap(s)
    requires ControlDone(s, r)
    ensures SameLap(r)
  {
    hide Stamp, LinkTrb, Holds, Edge, Visible;
    assert Edge(s) == s.slot && Edge(r) == s.slot + 1;
    HoldsStill(s, r, s.deq, s.slot, 0, s.cycle);
    HoldsMore(r, s.deq, s.slot, 0, s.cycle);
  }

  lemma ControlLapBehind(s: Sys, r: Sys)
    requires s.WellFormed() && s.push.Some? && s.done == 3 && LapBehind(s)
    requires ControlDone(s, r)
    ensures LapBehind(r)
  {
    hide Stamp, LinkTrb, Holds, Edge, Visible;
    assert Edge(s) == s.slot && Edge(r) == s.slot + 1;
    var at := s.size - 1 - s.deq;
    HoldsStill(s, r, s.deq, s.size - 1, 0, !s.cycle);
    HoldsStill(s, r, 0, s.slot, at, s.cycle);
    assert |s.consumed| + at + s.slot == |s.pushed| - 1;
    HoldsMore(r, 0, s.slot, at, s.cycle);
  }

  /** The control word makes the TRB visible, complete. */
  lemma ControlKeeps(s: Sys)
    requires Inv(s) && s.push.Some? && s.done == 3
    ensures Inv(WriteNext(s))
  {
    ControlMemory(s);
    ControlShape(s);
    if SameLap(s) {
      ControlSameLap(s, WriteNext(s));
    } else {
      ControlLapBehind(s, WriteNext(s));
    }
    hide SameLap, LapBehind, LinkOverrun, Memory, Histories, ReaderOk, Sys.Stores;
  }

  lemma ControlMemory(s: Sys)
    requires Inv(s) && s.push.Some? && s.done == 3
    ensures WriteNext(s).mem == s.mem[s.slot := s.push.value.Stamped(s.cycle)]
    ensures s.pushed != [] && s.pushed[|s.pushed| - 1].Stamped(s.cycle) == s.push.value.Stamped(s.cycle)
    ensures Memory(WriteNext(s)) && Histories(WriteNext(s)) && ReaderOk(WriteNext(s))
  {
    StoresAt(s);
    StampFacts(s.push.value.w3, s.cycle);
    hide CycleOf, ToggleOf, TypeOf, Stamp, Unstamp, LinkTrb, Sys.Stores, SameLap, LapBehind, LinkOverrun;
    var t := s.push.value;
    assert s.mem[s.slot].Word(0) == t.Word(0) && s.mem[s.slot].Word(1) == t.Word(1)
      && s.mem[s.slot].Word(2) == t.Word(2);
  }

  /** Rewriting the link TRB's pointer stores what is there already if the
      controller still has to read it. */
  lemma LinkBodyKeeps(s: Sys)
    requires Inv(s) && s.push.Some? && 4 <= s.done < 7
    ensures Inv(WriteNext(s))
  {
    StoresAt(s);
    LinkBodyMemory(s);
    var r := WriteNext(s);
    hide CycleOf, ToggleOf, TypeOf, Stamp, LinkTrb, ReaderOk, Memory, Histories, Holds, Sys.Stores;
    LapStill(s, r);
  }

  lemma LinkBodyMemory(s: Sys)
    requires Inv(s) && s.push.Some? && 4 <= s.done < 7
    ensures WriteNext(s) == s.(mem := WriteNext(s).mem, done := s.done + 1)
    ensures forall k :: 0 <= k < s.size - 1 ==> WriteNext(s).mem[k] == s.mem[k]
    ensures LapBehind(s) ==> WriteNext(s).mem == s.mem
    ensures Memory(WriteNext(s)) && Histories(WriteNext(s)) && ReaderOk(WriteNext(s))
  {
    StoresAt(s);
    hide CycleOf, ToggleOf, TypeOf, Stamp, Unstamp, LinkTrb, Sys.Stores, Holds;
  }

  /** The link TRB's control word ends the lap. */
  lemma LinkControlKeeps(s: Sys)
    requires Inv(s) && s.push.Some? && s.done == 7
    ensures Inv(WriteNext(s))
    ensures LinkOverrun(WriteNext(s)) <==> LapBehind(s)
  {
    StoresAt(s);
    LinkControlMemory(s);
    var r := WriteNext(s);
    hide CycleOf, ToggleOf, TypeOf, Stamp, LinkTrb, ReaderOk, Memory, Histories, Holds, Sys.Stores;
    if SameLap(s) {
      HoldsStill(s, r, s.deq, s.size - 1, 0, s.cycle);
    } else {
      HoldsStill(s, r, 0, s.size - 1, 0, s.cycle);
    }
  }

  lemma LinkControlMemory(s: Sys)
    requires Inv(s) && s.push.Some? && s.done == 7
    ensures WriteNext(s).mem == s.mem[s.size - 1 := LinkTrb(s.base).Stamped(s.cycle)]
    ensures Memory(WriteNext(s)) && Histories(WriteNext(s)) && ReaderOk(WriteNext(s))
  {
    StoresAt(s);
    StampFacts(LinkTrb(s.base).w3, s.cycle);
    hide CycleOf, ToggleOf, TypeOf, Stamp, Unstamp, LinkTrb, Sys.Stores, SameLap, LapBehind, LinkOverrun;
    var m, l := s.mem[s.size - 1], LinkTrb(s.base);
    assert m.Word(0) == l.Word(0) && m.Word(1) == l.Word(1) && m.Word(2) == l.Word(2);
  }

  // The controller

  /** The TRB at the dequeue position is one the controller may read. */
  predicate Ready(s: Sys)
    requires s.WellFormed()
  {
    s.reader.Reading? || s.mem[s.deq].Cycle() == s.ccs
  }

  /** A TRB with the expected cycle bit is the next pushed one, whole, or the
      link TRB at the end of the lap. */
  lemma ReadyItem(s: Sys)
    requires Inv(s) && Ready(s)
    ensures s.deq + 1 < s.size ==> Visible(s) > 0
    ensures forall i :: 0 <= i < 3 ==> s.mem[s.deq].Word(i) == Item(s).Stamped(s.ccs).Word(i)
    ensures s.reader == Polling ==> s.mem[s.deq] == Item(s).Stamped(s.ccs)
  {
    hide CycleOf, ToggleOf, TypeOf, Stamp, Unstamp, LinkTrb, ReaderOk, Histories;
    if SameLap(s) {
      assert s.deq < Edge(s);
    } else if LapBehind(s) {
      if s.deq + 1 < s.size {
        assert s.mem[s.deq] == s.pushed[|s.consumed|].Stamped(!s.cycle);
      }
    }
  }

  lemma ReadShape(s: Sys)
    requires Inv(s) && Ready(s) && (s.reader.Reading? ==> |s.reader.got| < 3)
    ensures
      var r := ControllerNext(s);
      r == s.(reader := r.reader) && r.reader.Reading? && r.WellFormed() && ReaderOk(r)
  {
    ReadyItem(s);
    ReadOrder(Item(s).Stamped(s.ccs));
    hide CycleOf, ToggleOf, TypeOf, Stamp, Unstamp, LinkTrb, Histories, Item, SameLap, LapBehind, LinkOverrun, Memory;
  }

  /** Reading on does not disturb the protocol. */
  lemma ReadKeeps(s: Sys)
    requires Inv(s) && (s.reader.Reading? ==> |s.reader.got| < 3)
    ensures Inv(ControllerNext(s))
  {
    if Ready(s) {
      ReadShape(s);
      ReaderOnly(s, ControllerNext(s));
      hide SameLap, LapBehind, LinkOverrun, Memory, Histories, ReaderOk, ControllerNext;
      assert Memory(ControllerNext(s)) && Histories(ControllerNext(s));
    }
  }

  lemma ReaderOnly(s: Sys, r: Sys)
    requires Inv(s) && Ready(s) && r == s.(reader := r.reader) && r.WellFormed()
    ensures SameLap(r) || LapBehind(r) || LinkOverrun(r)
    ensures Memory(r) && Histories(r)
  {
    hide CycleOf, ToggleOf, TypeOf, Stamp, Unstamp, LinkTrb, ReaderOk, Holds, Visible;
    if SameLap(s) {
      ReadySameLap(s);
      assert Holds(r, r.deq, Edge(r), 0, r.cycle) by { HoldsStill(s, r, s.deq, Edge(s), 0, s.cycle); }
      assert Visible(r) == Visible(s) by { VisibleStill(s, r); }
    } else if LapBehind(s) {
      HoldsStill(s, r, s.deq, s.size - 1, 0, !s.cycle);
      HoldsStill(s, r, 0, Edge(s), s.size - 1 - s.deq, s.cycle);
      VisibleStill(s, r);
    } else {
      HoldsStill(s, r, 0, s.size - 1, 0, !s.cycle);
      VisibleStill(s, r);
    }
  }

  lemma VisibleStill(s: Sys, r: Sys)
    requires r.pushed == s.pushed && r.consumed == s.consumed && r.push == s.push && r.done == s.done
    ensures Visible(r) == Visible(s)
  {
  }

  lemma ReadySameLap(s: Sys)
    requires Inv(s) && Ready(s) && SameLap(s)
    ensures s.deq < Edge(s)
  {
    hide CycleOf, ToggleOf, TypeOf, Stamp, Unstamp, LinkTrb, ReaderOk, Histories, Holds;
  }

  lemma ReadOrder(t: Trb)
    ensures InReadOrder(t)[..1] == [t.w3] && InReadOrder(t)[..2] == [t.w3, t.w0]
    ensures InReadOrder(t)[..3] == [t.w3, t.w0, t.w1] && InReadOrder(t)[..4] == InReadOrder(t)
  {
  }

  // Accepting

  lemma HoldsLess(s: Sys, r: Sys, from: nat, to: nat, at: int, cycle: bool)
    requires Holds(s, from, to, at, cycle) && r.mem == s.mem && r.pushed == s.pushed && |r.consumed| == |s.consumed| + 1
    ensures Holds(r, from, to, at - 1, cycle)
    ensures from < to ==> Holds(r, from + 1, to, at, cycle)
  {
    hide Stamp;
  }

  /** What the controller accepts: its three reads added the rest of the TRB. */
  lemma AcceptShape(s: Sys)
    requires Inv(s) && s.reader.Reading? && |s.reader.got| == 3
    ensures ControllerNext(s) == Accept(s, Item(s).Stamped(s.ccs))
  {
    ReadyItem(s);
    ReadOrder(Item(s).Stamped(s.ccs));
    hide CycleOf, ToggleOf, TypeOf, Stamp, Unstamp, LinkTrb, Histories, Item, SameLap, LapBehind, LinkOverrun, Memory,
      Accept;
  }

  /** A pushed TRB is taken as it was pushed. */
  lemma TakeShape(s: Sys)
    requires Inv(s) && s.deq + 1 < s.size && |s.consumed| < |s.pushed|
    ensures Accept(s, Item(s).Stamped(s.ccs)) ==
      s.(reader := Polling, deq := s.deq + 1, lost := false, consumed := s.consumed + [s.pushed[|s.consumed|]])
  {
    var t := s.pushed[|s.consumed|];
    StampFacts(t.w3, s.ccs);
    hide CycleOf, ToggleOf, TypeOf, Stamp, Unstamp, LinkTrb, ReaderOk, SameLap, LapBehind, LinkOverrun, Memory;
  }

  /** The link TRB leads back to the first slot and flips the cycle state. */
  lemma FollowShape(s: Sys)
    requires Inv(s) && s.deq + 1 == s.size
    ensures Accept(s, Item(s).Stamped(s.ccs)) == s.(reader := Polling, deq := 0, ccs := !s.ccs, lost := false)
  {
    var t := LinkTrb(s.base);
    LinkBits(s.base);
    LinkControl();
    StampFacts(t.w3, s.ccs);
    hide CycleOf, ToggleOf, TypeOf, Stamp, Unstamp, LinkTrb, ReaderOk, SameLap, LapBehind, LinkOverrun, Memory;
  }

  lemma TakeLap(s: Sys, r: Sys)
    requires s.WellFormed() && (SameLap(s) || LapBehind(s)) && Visible(s) > 0 && s.deq + 1 < s.size
    requires |s.consumed| < |s.pushed|
    requires r ==
      s.(reader := Polling, deq := s.deq + 1, lost := false, consumed := s.consumed + [s.pushed[|s.consumed|]])
    requires SameLap(s) ==> s.deq < Edge(s)
    ensures r.WellFormed() && (SameLap(r) || LapBehind(r))
  {
    hide Stamp, LinkTrb, Holds;
    assert Edge(r) == Edge(s) && Visible(r) == Visible(s) - 1;
    if SameLap(s) {
      HoldsLess(s, r, s.deq, Edge(s), 0, s.cycle);
    } else {
      HoldsLess(s, r, s.deq, s.size - 1, 0, !s.cycle);
      HoldsLess(s, r, 0, Edge(s), s.size - 1 - s.deq, s.cycle);
    }
  }

  lemma TakeKeeps(s: Sys)
    requires Inv(s) && s.reader.Reading? && |s.reader.got| == 3 && s.deq + 1 < s.size
    ensures Inv(ControllerNext(s))
  {
    ReadyItem(s);
    AcceptShape(s);
    TakeShape(s);
    if SameLap(s) {
      ReadySameLap(s);
    }
    var r := ControllerNext(s);
    TakeLap(s, r);
    hide CycleOf, ToggleOf, TypeOf, Stamp, Unstamp, LinkTrb, SameLap, LapBehind, LinkOverrun, ControllerNext, Accept;
    assert r.consumed <= r.pushed;
  }

  lemma FollowKeeps(s: Sys)
    requires Inv(s) && s.reader.Reading? && |s.reader.got| == 3 && s.deq + 1 == s.size
    ensures Inv(ControllerNext(s)) && (LapBehind(s) ==> SameLap(ControllerNext(s)))
    ensures LinkOverrun(s) ==> LapBehind(ControllerNext(s))
  {
    ReadyItem(s);
    AcceptShape(s);
    FollowShape(s);
    var r := ControllerNext(s);
    if SameLap(s) {
      ReadySameLap(s);
    }
    hide CycleOf, ToggleOf, TypeOf, Stamp, Unstamp, LinkTrb, ReaderOk, Holds, ControllerNext, Accept;
    if LapBehind(s) {
      HoldsStill(s, r, 0, Edge(s), 0, s.cycle);
    } else {
      HoldsStill(s, r, 0, s.size - 1, 0, !s.cycle);
    }
  }

  // Runs

  lemma WriteKeeps(s: Sys)
    requires Inv(s) && s.push.Some?
    ensures Inv(WriteNext(s))
  {
    StoresAt(s);
    hide SameLap, LapBehind, LinkOverrun, Memory, Histories, ReaderOk, Sys.Stores;
    if s.done < 3 {
      BodyKeeps(s);
    } else if s.done == 3 {
      ControlKeeps(s);
    } else if s.done < 7 {
      LinkBodyKeeps(s);
    } else {
      LinkControlKeeps(s);
    }
  }

  lemma ControllerKeeps(s: Sys)
    requires Inv(s)
    ensures Inv(ControllerNext(s))
  {
    hide SameLap, LapBehind, LinkOverrun, Memory, Histories, ReaderOk, Sys.Stores;
    if s.reader.Polling? || |s.reader.got| < 3 {
      ReadKeeps(s);
    } else if s.deq + 1 < s.size {
      TakeKeeps(s);
    } else {
      FollowKeeps(s);
    }
  }

  /** Every store and every read keeps the invariant. */
  lemma StepKeeps(s: Sys, e: Event)
    requires Inv(s) && Enabled(s, e)
    ensures Inv(Next(s, e))
  {
    hide SameLap, LapBehind, LinkOverrun, Memory, Histories, ReaderOk, Sys.Stores;
    match e
    case Begin(t) => BeginKeeps(s, t);
    case Write => WriteKeeps(s);
    case Controller => ControllerKeeps(s);
  }

  /** The TRBs whose push an event sequence begins. */
  function Begun(es: seq<Event>): seq<Trb> {
    if es == [] then []
    else Begun(es[..|es| - 1]) + (if es[|es| - 1].Begin? then [es[|es| - 1].t.Clean()] else [])
  }

  /** Where the events lead from `s`, if each is enabled when it happens. */
  function Run(s: Sys, es: seq<Event>): Option<Sys> {
    if es == [] then Some(s)
    else
      var m := Run(s, es[..|es| - 1]);
      if m.Some? && m.value.WellFormed() && Enabled(m.value, es[|es| - 1]) then Some(Next(m.value, es[|es| - 1]))
      else None
  }

  lemma StepHistory(s: Sys, e: Event)
    requires Inv(s) && Enabled(s, e)
    ensures Next(s, e).pushed == s.pushed + (if e.Begin? then [e.t.Clean()] else [])
    ensures Next(s, e).size == s.size && Next(s, e).limit == s.limit && Next(s, e).base == s.base
  {
    hide CycleOf, ToggleOf, TypeOf, Stamp, Unstamp, LinkTrb, Store, Sys.Stores;
    hide SameLap, LapBehind, LinkOverrun, Memory, Histories, ReaderOk;
  }

  lemma {:induction false} RunInv(s: Sys, es: seq<Event>)
    requires Init(s) && Run(s, es).Some?
    ensures
      var r := Run(s, es).value;
      Inv(r) && r.pushed == Begun(es) && r.size == s.size && r.limit == s.limit && r.base == s.base
  {
    if es == [] {
      InitInv(s);
    } else {
      hide Inv, Next, Sys.Stores, Init;
      var m, e := Run(s, es[..|es| - 1]).value, es[|es| - 1];
      RunInv(s, es[..|es| - 1]);
      StepKeeps(m, e);
      StepHistory(m, e);
    }
  }

  /** However stores and reads interleave, the controller takes a prefix of the
      pushed TRBs, whole and in order, and stays on the ring. */
  lemma RunSafe(s: Sys, es: seq<Event>)
    requires Init(s) && Run(s, es).Some?
    ensures
      var r := Run(s, es).value;
      r.consumed <= Begun(es) && |Begun(es)| <= |r.consumed| + s.limit && !r.lost
  {
    RunInv(s, es);
    hide SameLap, LapBehind, LinkOverrun, Memory, ReaderOk;
  }
}
