/** The event ring (kernel/usb/xhci/ring.cpp and ring.hpp) and the loop that
    empties it (kernel/usb/xhci/xhci.cpp): software is the consumer. */
module EventRings {
  import opened Rings

  /** Which `OnEvent` an event TRB is dispatched to. */
  datatype Handler = Transfer | CommandCompletion | PortStatusChange | NotImplemented

  function HandlerOf(t: Trb): Handler {
    if t.Type() == 32 then Transfer
    else if t.Type() == 34 then PortStatusChange
    else if t.Type() == 33 then CommandCompletion
    else NotImplemented
  }

  /** TRBs as they are compared: without the cycle bit. */
  function Cleaned(ts: seq<Trb>): (r: seq<Trb>)
    ensures |r| == |ts| && forall i :: 0 <= i < |ts| ==> r[i] == ts[i].Clean()
  {
    seq(|ts|, i requires 0 <= i < |ts| => ts[i].Clean())
  }

  /** The controller wrote the first of the events to come; `rest` is left. */
  ghost predicate Delivered(coming: seq<Trb>, rest: seq<Trb>, was: seq<Trb>, now: seq<Trb>) {
    |rest| <= |coming| && rest == coming[|coming| - |rest|..] && now == was + Cleaned(coming[..|coming| - |rest|])
  }

  lemma CleanedConcat(a: seq<Trb>, b: seq<Trb>)
    ensures Cleaned(a + b) == Cleaned(a) + Cleaned(b)
  {
    hide Unstamp;
  }

  lemma TakeMore(s: seq<Trb>, i: nat, j: nat)
    requires i <= j <= |s|
    ensures s[..j] == s[..i] + s[i..][..j - i] && s[i..][j - i..] == s[j..]
  {
  }

  lemma DeliveredThen(coming: seq<Trb>, mid: seq<Trb>, rest: seq<Trb>, a: seq<Trb>, b: seq<Trb>, c: seq<Trb>)
    requires Delivered(coming, mid, a, b) && Delivered(mid, rest, b, c)
    ensures Delivered(coming, rest, a, c)
  {
    hide Cleaned;
    TakeMore(coming, |coming| - |mid|, |coming| - |rest|);
    CleanedConcat(coming[..|coming| - |mid|], mid[..|mid| - |rest|]);
    assert a + Cleaned(coming[..|coming| - |mid|]) + Cleaned(mid[..|mid| - |rest|]) ==
      a + Cleaned(coming[..|coming| - |rest|]);
  }

  lemma DeliveredOne(coming: seq<Trb>, was: seq<Trb>)
    requires coming != []
    ensures Delivered(coming, coming[1..], was, was + [coming[0].Clean()])
  {
    assert coming[..1] == [coming[0]];
  }

  lemma DeliveredNone(coming: seq<Trb>, was: seq<Trb>)
    ensures Delivered(coming, coming, was, was)
  {
    assert coming[..0] == [] && was + [] == was;
  }

  /** The handlers called for a sequence of events. */
  function Dispatched(ts: seq<Trb>): (r: seq<(Handler, Trb)>)
    ensures |r| == |ts|
  {
    seq(|ts|, i requires 0 <= i < |ts| => (HandlerOf(ts[i]), ts[i]))
  }

  /** Transfer, command completion and port status change events have types 32 to
      34, and no other type has a handler (xHCI section 6.4.6). */
  ghost predicate RightHandler(h: Handler, t: Trb) {
    && (h == Transfer <==> t.w3 / 0x400 % 0x40 == 32)
    && (h == CommandCompletion <==> t.w3 / 0x400 % 0x40 == 33)
    && (h == PortStatusChange <==> t.w3 / 0x400 % 0x40 == 34)
  }

  /** Each event goes to the handler of its type. */
  lemma DispatchedRight(ts: seq<Trb>, i: nat)
    requires i < |ts|
    ensures Dispatched(ts)[i].1 == ts[i] && RightHandler(Dispatched(ts)[i].0, ts[i])
  {
  }

  /** The ring with both ends: software takes at `erdp`, expecting cycle bit
      `ccs`, and the controller writes at `enqueue` with cycle bit `pcs`. */
  datatype Ends = Ends(mem: seq<Trb>, erdp: nat, ccs: bool, enqueue: nat, pcs: bool, pending: seq<Trb>)

  /** Events at the slots from `from` on, stamped with one cycle bit. */
  ghost predicate Lies(mem: seq<Trb>, events: seq<Trb>, from: nat, cycle: bool) {
    from + |events| <= |mem| && forall i :: 0 <= i < |events| ==> mem[from + i] == events[i].Stamped(cycle)
  }

  ghost predicate Stamps(e: Ends) {
    forall k :: 0 <= k < |e.mem| ==> e.mem[k].Cycle() == if k < e.enqueue then e.pcs else !e.pcs
  }

  /** The pending events lie from `erdp` to `enqueue`, around the end of the
      ring when the cycle bits differ. */
  ghost predicate Between(e: Ends)
    requires e.erdp < |e.mem|
  {
    if e.pcs == e.ccs then
      e.erdp + |e.pending| == e.enqueue && Lies(e.mem, e.pending, e.erdp, e.pcs)
    else
      var last := |e.mem| - e.erdp;
      e.enqueue <= e.erdp && |e.pending| == last + e.enqueue
      && Lies(e.mem, e.pending[..last], e.erdp, !e.pcs) && Lies(e.mem, e.pending[last..], 0, e.pcs)
  }

  ghost predicate Consistent(e: Ends) {
    && e.erdp < |e.mem| && e.enqueue < |e.mem| && Stamps(e) && Between(e)
    && forall i :: 0 <= i < |e.pending| ==> e.pending[i].Clean() == e.pending[i]
  }

  /** The cycle bit at the dequeue pointer tells whether an event is pending. */
  lemma FrontIsPending(e: Ends)
    requires Consistent(e)
    ensures e.mem[e.erdp].Cycle() == e.ccs <==> e.pending != []
    ensures e.pending != [] ==> e.mem[e.erdp].Clean() == e.pending[0]
  {
    if e.pending != [] {
      StampFacts(e.pending[0].w3, e.ccs);
      hide CycleOf, Stamp, Unstamp;
      if e.pcs != e.ccs {
        assert e.pending[..|e.mem| - e.erdp][0] == e.pending[0];
      }
    }
  }

  function Popped(e: Ends): Ends
    requires e.pending != []
  {
    if e.erdp + 1 == |e.mem| then e.(erdp := 0, ccs := !e.ccs, pending := e.pending[1..])
    else e.(erdp := e.erdp + 1, pending := e.pending[1..])
  }

  lemma PopKeeps(e: Ends)
    requires Consistent(e) && e.pending != []
    ensures Consistent(Popped(e))
  {
    hide CycleOf, Stamp, Unstamp;
    if e.pcs != e.ccs {
      var last := |e.mem| - e.erdp;
      assert e.pending[1..][..last - 1] == e.pending[..last][1..];
      assert e.pending[1..][last - 1..] == e.pending[last..];
      assert last == 1 ==> e.pending[1..] == e.pending[last..];
    }
  }

  function Produced(e: Ends, t: Trb): Ends
    requires e.enqueue < |e.mem|
  {
    var r := e.(mem := e.mem[e.enqueue := t.Stamped(e.pcs)], pending := e.pending + [t.Clean()]);
    if e.enqueue + 1 == |e.mem| then r.(enqueue := 0, pcs := !e.pcs) else r.(enqueue := e.enqueue + 1)
  }

  /** A store at `at` beside events, or right behind them. */
  lemma LiesAfter(mem: seq<Trb>, events: seq<Trb>, from: nat, cycle: bool, at: nat, t: Trb, stamp: bool)
    requires Lies(mem, events, from, cycle) && at < |mem|
    ensures at < from || from + |events| <= at ==> Lies(mem[at := t.Stamped(stamp)], events, from, cycle)
    ensures at == from + |events| && stamp == cycle ==>
      Lies(mem[at := t.Stamped(stamp)], events + [t.Clean()], from, cycle)
  {
    assert t.Stamped(stamp) == t.Clean().Stamped(stamp) by { StampFacts(t.w3, stamp); }
    hide Stamp, Unstamp;
  }

  lemma LiesNone(mem: seq<Trb>, cycle: bool)
    ensures Lies(mem, [], 0, cycle)
  {
  }

  lemma ProduceBetween(e: Ends, t: Trb)
    requires Consistent(e) && |e.pending| < |e.mem|
    ensures Between(Produced(e, t))
  {
    hide CycleOf, Stamp, Unstamp, Stamps, Lies;
    var r := Produced(e, t);
    var last := |e.mem| - e.erdp;
    if e.pcs != e.ccs {
      LiesAfter(e.mem, e.pending[..last], e.erdp, !e.pcs, e.enqueue, t, e.pcs);
      LiesAfter(e.mem, e.pending[last..], 0, e.pcs, e.enqueue, t, e.pcs);
      assert r.pending[..last] == e.pending[..last];
      assert r.pending[last..] == e.pending[last..] + [t.Clean()];
    } else {
      LiesAfter(e.mem, e.pending, e.erdp, e.pcs, e.enqueue, t, e.pcs);
      if r.pcs != e.ccs {
        assert r.pending[..last] == r.pending == e.pending + [t.Clean()];
        assert r.pending[last..] == [];
        LiesNone(r.mem, r.pcs);
      }
    }
  }

  lemma ProduceKeeps(e: Ends, t: Trb)
    requires Consistent(e) && |e.pending| < |e.mem|
    ensures Consistent(Produced(e, t))
  {
    ProduceBetween(e, t);
    StampFacts(t.w3, e.pcs);
    StampFacts(Unstamp(t.w3), e.pcs);
    hide CycleOf, Stamp, Unstamp, Lies, Between;
  }

  lemma LiesBeside(mem: seq<Trb>, events: seq<Trb>, from: nat, cycle: bool, at: nat, t: Trb)
    requires Lies(mem, events, from, cycle) && at < |mem| && (at < from || from + |events| <= at)
    ensures Lies(mem[at := t], events, from, cycle)
  {
    hide Stamp;
  }

  /** The controller stores one of the first three words of an event where it
      will be. */
  function Begun(e: Ends, t: Trb, i: nat): Ends
    requires e.enqueue < |e.mem| && i < 3
  {
    e.(mem := e.mem[e.enqueue := e.mem[e.enqueue].SetWord(i, t.Word(i))])
  }

  /** As long as its cycle bit is not stored, an event is not there. */
  lemma BegunKeeps(e: Ends, t: Trb, i: nat)
    requires Consistent(e) && |e.pending| < |e.mem| && i < 3
    ensures Consistent(Begun(e, t, i))
  {
    hide CycleOf, Stamp, Unstamp, Lies;
    var at, x := e.enqueue, e.mem[e.enqueue].SetWord(i, t.Word(i));
    assert x.w3 == e.mem[at].w3;
    if e.pcs == e.ccs {
      LiesBeside(e.mem, e.pending, e.erdp, e.pcs, at, x);
    } else {
      var last := |e.mem| - e.erdp;
      LiesBeside(e.mem, e.pending[..last], e.erdp, !e.pcs, at, x);
      LiesBeside(e.mem, e.pending[last..], 0, e.pcs, at, x);
    }
  }

  class EventRing {
    const buf: array<Trb>
    var cycleBit: bool
    /** The index ERDP points to. */
    var erdp: nat

    // The controller's side
    var enqueue: nat
    var pcs: bool
    /** The words of the next event that are stored already. */
    var stored: set<nat>
    /** Every event the controller wrote, and how many of them were popped. */
    ghost var produced: seq<Trb>
    ghost var popped: nat
    /** The calls of the handlers. */
    ghost var calls: seq<(Handler, Trb)>

    ghost function View(): Ends
      reads `erdp, `cycleBit, `enqueue, `pcs, `produced, `popped, buf
      requires popped <= |produced|
    {
      Ends(buf[..], erdp, cycleBit, enqueue, pcs, produced[popped..])
    }

    ghost predicate Valid()
      reads `erdp, `cycleBit, `enqueue, `pcs, `produced, `popped, buf
    {
      popped <= |produced| && Consistent(View())
    }

    constructor (bufSize: nat)
      requires 0 < bufSize
      ensures Valid() && fresh(buf) && buf.Length == bufSize && produced == [] && popped == 0 && calls == []
        && stored == {}
    {
      cycleBit, erdp := true, 0;
      enqueue, pcs, stored, produced, popped, calls := 0, true, {}, [], 0, [];
      buf := new Trb[bufSize](_ => ZERO_TRB);
      new;
      assert !ZERO_TRB.Cycle();
      assert View().pending == [];
    }

    function Front(): Trb
      reads `erdp, `cycleBit, `enqueue, `pcs, `produced, `popped, buf
      requires erdp < buf.Length
    {
      buf[erdp]
    }

    predicate HasFront()
      reads `erdp, `cycleBit, `enqueue, `pcs, `produced, `popped, buf
      requires Valid()
      ensures HasFront() <==> popped < |produced|
      ensures HasFront() ==> Front().Clean() == produced[popped]
    {
      FrontIsPending(View());
      Front().Cycle() == cycleBit
    }

    method Pop(ghost coming: seq<Trb>)
      requires Valid() && Arriving(coming) && popped < |produced|
      modifies `erdp, `cycleBit, `popped
      ensures Valid() && Arriving(coming) && View() == Popped(old(View())) && popped == old(popped) + 1
    {
      PopKeeps(View());
      hide Consistent;
      var p := erdp + 1;
      if p == buf.Length {
        p := 0;
        cycleBit := !cycleBit;
      }
      erdp := p;
      popped := popped + 1;
    }

    /** The first of the events to come is the one being written: some of its
        first three words are there, and room for it. */
    ghost predicate Arriving(coming: seq<Trb>)
      reads `stored, `erdp, `cycleBit, `enqueue, `pcs, `produced, `popped, buf
      requires Valid()
    {
      && stored <= {0, 1, 2}
      && (stored != {} ==>
            && coming != [] && |produced| - popped < buf.Length
            && forall i :: i in stored ==> buf[enqueue].Word(i) == coming[0].Word(i))
    }

    /** The controller stores one word of the next event: the first three in any
        order, the one with the cycle bit last (xHCI section 4.9.4). It does not
        overrun software. */
    method Store(coming: seq<Trb>) returns (rest: seq<Trb>)
      requires Valid() && Arriving(coming) && coming != [] && |produced| - popped < buf.Length
      modifies buf, `enqueue, `pcs, `produced, `stored
      ensures Valid() && Arriving(rest) && Delivered(coming, rest, old(produced), produced)
      ensures if old(stored) == {0, 1, 2} then rest == coming[1..] else rest == coming
    {
      if stored == {0, 1, 2} {
        Complete(coming[0]);
        rest := coming[1..];
        DeliveredOne(coming, old(produced));
      } else {
        var i: nat :| i < 3 && i !in stored;
        Begin(coming[0], i);
        rest := coming;
        DeliveredNone(coming, produced);
      }
    }

    method Begin(t: Trb, i: nat)
      requires Valid() && Arriving([t]) && |produced| - popped < buf.Length && i < 3 && i !in stored
      modifies buf, `stored
      ensures Valid() && Arriving([t]) && View() == Begun(old(View()), t, i) && stored == old(stored) + {i}
    {
      ghost var e := View();
      BegunKeeps(e, t, i);
      assert enqueue < buf.Length && Consistent(Begun(e, t, i));
      hide Consistent;
      buf[enqueue] := buf[enqueue].SetWord(i, t.Word(i));
      stored := stored + {i};
      assert buf[..] == Begun(e, t, i).mem;
    }

    method Complete(t: Trb)
      requires Valid() && Arriving([t]) && stored == {0, 1, 2}
      modifies buf, `enqueue, `pcs, `produced, `stored
      ensures Valid() && stored == {} && View() == Produced(old(View()), t) && produced == old(produced) + [t.Clean()]
    {
      ghost var e := View();
      ProduceKeeps(e, t);
      assert enqueue < buf.Length && Consistent(Produced(e, t));
      hide Consistent, CycleOf, Stamp, Unstamp;
      assert 0 in stored && 1 in stored && 2 in stored;
      buf[enqueue] := buf[enqueue].SetWord(3, Stamp(t.w3, pcs));
      enqueue := enqueue + 1;
      if enqueue == buf.Length {
        enqueue := 0;
        pcs := !pcs;
      }
      stored := {};
      produced := produced + [t.Clean()];
      assert produced[popped..] == e.pending + [t.Clean()];
      assert buf[..] == Produced(e, t).mem;
      assert View() == Produced(e, t);
    }

    /** The controller finds no free slot before the one ERDP points to. */
    predicate Full()
      reads `erdp, `cycleBit, `enqueue, `pcs, `produced, `popped, buf
      requires Valid()
      ensures Full() <==> |produced| - popped == buf.Length
    {
      pcs != cycleBit && enqueue == erdp
    }

    /** Between two steps of software the controller stores any number of the
        words of the events to come for which there is room. */
    method Interleave(coming: seq<Trb>) returns (rest: seq<Trb>)
      requires Valid() && Arriving(coming)
      modifies buf, `enqueue, `pcs, `produced, `stored
      ensures Valid() && Arriving(rest) && Delivered(coming, rest, old(produced), produced)
    {
      rest := coming;
      DeliveredNone(coming, produced);
      var n: nat :| n <= 4 * |coming|;
      while n > 0 && rest != [] && !Full()
        invariant Valid() && Arriving(rest) && Delivered(coming, rest, old(produced), produced)
      {
        hide Valid, Delivered, Arriving;
        ghost var was, now := rest, produced;
        rest := Store(rest);
        DeliveredThen(coming, was, rest, old(produced), now, produced);
        n := n - 1;
      }
    }

    /** The event at the front, read while the controller stores others. */
    method ReadFront(coming: seq<Trb>) returns (trb: Trb, rest: seq<Trb>)
      requires Valid() && Arriving(coming) && popped < |produced|
      modifies buf, `enqueue, `pcs, `produced, `stored
      ensures Valid() && Arriving(rest) && Delivered(coming, rest, old(produced), produced)
      ensures popped < |produced| && trb == old(produced[popped])
    {
      rest := Interleave(coming);
      InPlace(coming, rest, old(produced), produced, popped);
      assert HasFront();
      trb := Front().Clean();
    }

    /** What was produced stays so. */
    static lemma InPlace(coming: seq<Trb>, rest: seq<Trb>, was: seq<Trb>, now: seq<Trb>, k: nat)
      requires Delivered(coming, rest, was, now) && k < |was|
      ensures |was| <= |now| && now[k] == was[k]
    {
    }

    static lemma DispatchedOne(ts: seq<Trb>, k: nat)
      requires k < |ts|
      ensures Dispatched(ts[k..k + 1]) == [(HandlerOf(ts[k]), ts[k])]
    {
      hide HandlerOf;
    }

    static lemma HandlerIs(t: Trb, h: Handler)
      requires h == if t.Type() == 32 then Transfer else if t.Type() == 34 then PortStatusChange
        else if t.Type() == 33 then CommandCompletion else NotImplemented
      ensures h == HandlerOf(t) && RightHandler(h, t)
    {
    }

    /** One event: its handler is called, then it is popped. The result tells
        whether a handler exists. */
    method ProcessEvent(coming: seq<Trb>) returns (found: bool, rest: seq<Trb>)
      requires Valid() && Arriving(coming)
      modifies buf, this
      ensures Valid() && Arriving(rest) && Delivered(coming, rest, old(produced), produced)
      ensures old(popped < |produced|) ==>
        && popped == old(popped) + 1 && calls == old(calls) + Dispatched(old(produced)[old(popped)..popped])
        && (found <==> HandlerOf(old(produced[popped])) != NotImplemented)
      ensures !old(popped < |produced|) ==> found && popped == old(popped) && calls == old(calls)
    {
      hide HandlerOf, Delivered, Valid, Arriving, Dispatched;
      if !HasFront() {
        DeliveredNone(coming, produced);
        return true, coming;
      }
      DispatchedOne(produced, popped);
      var trb, mid := ReadFront(coming);
      ghost var first := produced;
      var handler := NotImplemented;
      if trb.Type() == 32 {
        handler := Transfer;
      } else if trb.Type() == 34 {
        handler := PortStatusChange;
      } else if trb.Type() == 33 {
        handler := CommandCompletion;
      }
      HandlerIs(trb, handler);
      calls := calls + [(handler, trb)];
      found := handler != NotImplemented;
      rest := Interleave(mid);
      DeliveredThen(coming, mid, rest, old(produced), first, produced);
      InPlace(mid, rest, first, produced, popped);
      Pop(rest);
    }

    /** One turn of the loop of `ProcessEvents`. */
    method ProcessNext(
      ghost coming: seq<Trb>, left: seq<Trb>, ghost was: seq<Trb>, ghost from: nat, ghost before: seq<(Handler, Trb)>)
      returns (rest: seq<Trb>)
      requires Valid() && Arriving(left) && from <= popped < |produced| && Delivered(coming, left, was, produced)
      requires calls == before + Dispatched(produced[from..popped])
      modifies buf, this
      ensures Valid() && Arriving(rest) && from <= popped <= |produced| && Delivered(coming, rest, was, produced)
      ensures calls == before + Dispatched(produced[from..popped])
      ensures |rest| + |produced| - popped < |left| + old(|produced| - popped)
    {
      hide Valid, HandlerOf, Delivered, Dispatched, Arriving;
      ghost var first := produced;
      var found, mid := ProcessEvent(left);
      DeliveredThen(coming, left, mid, was, first, produced);
      ghost var second := produced;
      rest := Interleave(mid);
      DeliveredThen(coming, mid, rest, was, second, produced);
      DeliveredThen(left, mid, rest, first, second, produced);
      OneMore(left, rest, first, produced, from, popped - 1);
    }

    static lemma AllRight(ts: seq<Trb>)
      ensures forall i :: 0 <= i < |ts| ==> RightHandler(Dispatched(ts)[i].0, Dispatched(ts)[i].1)
    {
      forall i | 0 <= i < |ts|
        ensures RightHandler(Dispatched(ts)[i].0, Dispatched(ts)[i].1)
      {
        DispatchedRight(ts, i);
      }
    }

    static lemma OneMore(left: seq<Trb>, rest: seq<Trb>, first: seq<Trb>, now: seq<Trb>, from: nat, k: nat)
      requires Delivered(left, rest, first, now) && from <= k < |first|
      ensures k < |now| && Dispatched(now[from..k + 1]) == Dispatched(first[from..k]) + Dispatched(first[k..k + 1])
      ensures |rest| + |now| == |left| + |first|
    {
      hide HandlerOf;
      assert now[..|first|] == first;
      assert now[from..k + 1] == first[from..k + 1] == first[from..k] + first[k..k + 1];
    }

    /** The loop of the main task. However the controller's stores fall between
        its steps, every event is handled exactly once and in order, none before
        all of it is there, and the loop ends exactly when none is pending. */
    method ProcessEvents(coming: seq<Trb>) returns (rest: seq<Trb>)
      requires Valid() && Arriving(coming)
      modifies buf, this
      ensures Valid() && Arriving(rest) && !HasFront() && popped == |produced|
      ensures Delivered(coming, rest, old(produced), produced)
      ensures calls == old(calls) + Dispatched(produced[old(popped)..])
      ensures forall i :: old(|calls|) <= i < |calls| ==> RightHandler(calls[i].0, calls[i].1)
    {
      rest := coming;
      DeliveredNone(coming, produced);
      while HasFront()
        invariant Valid() && Arriving(rest) && Delivered(coming, rest, old(produced), produced)
        invariant old(popped) <= popped <= |produced|
        invariant calls == old(calls) + Dispatched(produced[old(popped)..popped])
        decreases |rest| + |produced| - popped
      {
        rest := ProcessNext(coming, rest, old(produced), old(popped), old(calls));
      }
      AllRight(produced[old(popped)..]);
    }
  }
}
