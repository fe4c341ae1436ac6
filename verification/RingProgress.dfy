/** When the controller of RingProtocol gets through what was pushed. */
module RingProgress {
  import opened Wrappers
  import opened Rings
  import opened RingProtocol

  lemma {:induction false} RunAppend(s: Sys, a: seq<Event>, b: seq<Event>)
    requires Run(s, a).Some?
    ensures Run(s, a + b) == Run(Run(s, a).value, b)
  {
    if b == [] {
      assert a + b == a;
    } else {
      RunAppend(s, a, b[..|b| - 1]);
      assert (a + b)[..|a + b| - 1] == a + b[..|b| - 1];
      hide Next, Enabled;
    }
  }

  lemma RunFirst(s: Sys, e: Event, es: seq<Event>)
    requires s.WellFormed() && Enabled(s, e)
    ensures Run(s, [e] + es) == Run(Next(s, e), es)
  {
    assert [e][..0] == [];
    assert Run(s, [e]) == Some(Next(s, e)) by {
      hide Next, Enabled;
      assert Run(s, []) == Some(s);
    }
    RunAppend(s, [e], es);
  }

  function Times(e: Event, n: nat): (r: seq<Event>)
    ensures |r| == n
  {
    if n == 0 then [] else [e] + Times(e, n - 1)
  }

  /** The controller alone takes everything pushed so far. */
  ghost predicate Drains(s: Sys) {
    exists n: nat :: DrainedAfter(s, n)
  }

  predicate DrainedAfter(s: Sys, n: nat) {
    var r := Run(s, Times(Controller, n));
    r.Some? && r.value.consumed == s.pushed
  }

  /** The controller polls a link TRB that was stamped for the lap after the one
      it is to close. */
  predicate Stuck(s: Sys)
    requires s.WellFormed()
  {
    s.reader == Polling && s.deq + 1 == s.size && s.mem[s.deq].Cycle() != s.ccs
  }

  /** How many link TRBs lie between the controller and the producer. */
  function Links(s: Sys): nat {
    if s.ccs != s.cycle then 1 else if s.deq + 1 == s.size then 2 else 0
  }

  function ToRead(s: Sys): int {
    if s.reader == Polling then 4 else 4 - |s.reader.got|
  }

  lemma Laps(s: Sys)
    requires Inv(s) && s.push == None
    ensures SameLap(s) <==> s.ccs == s.cycle && s.deq + 1 < s.size
    ensures LapBehind(s) <==> s.ccs != s.cycle
    ensures s.mem[s.size - 1].Cycle() == !s.cycle
    ensures Stuck(s) <==> LinkOverrun(s) && s.reader == Polling
  {
    hide CycleOf, ToggleOf, TypeOf, Stamp, Unstamp, LinkTrb, Histories, ReaderOk, Holds;
  }

  lemma Pending(s: Sys)
    requires Inv(s) && s.push == None && !Stuck(s) && s.consumed != s.pushed
    ensures Ready(s) && |s.consumed| < |s.pushed|
  {
    hide CycleOf, ToggleOf, TypeOf, Stamp, Unstamp, LinkTrb, ReaderOk, Holds;
    assert s.consumed == s.pushed[..|s.consumed|];
    assert s.pushed == s.pushed[..|s.pushed|];
    if SameLap(s) {
      assert s.deq < Edge(s);
    }
  }

  /** What a controller step that finds a TRB does. */
  lemma StepShape(s: Sys)
    requires Inv(s) && s.push == None && Ready(s)
    ensures
      var r := ControllerNext(s);
      && r == s.(deq := r.deq, ccs := r.ccs, reader := r.reader, consumed := r.consumed)
      && if s.reader == Polling || |s.reader.got| < 3 then
           r == s.(reader := r.reader) && r.reader.Reading? && ToRead(r) < ToRead(s)
         else
           r.reader == Polling
           && if s.deq + 1 < s.size then
                |s.consumed| < |s.pushed| && r.deq == s.deq + 1 && r.ccs == s.ccs && |r.consumed| == |s.consumed| + 1
              else r.deq == 0 && r.ccs == !s.ccs && r.consumed == s.consumed
  {
    hide CycleOf, ToggleOf, TypeOf, Stamp, Unstamp, LinkTrb, ReaderOk, SameLap, LapBehind, LinkOverrun, Memory,
      Histories;
    if s.reader.Reading? && |s.reader.got| == 3 {
      AcceptShape(s);
      hide ControllerNext;
      if s.deq + 1 < s.size {
        ReadyItem(s);
        TakeShape(s);
      } else {
        FollowShape(s);
      }
    }
  }

  lemma Progress(s: Sys)
    requires Inv(s) && s.push == None && !Stuck(s) && s.consumed != s.pushed
    ensures
      var r := ControllerNext(s);
      && Inv(r) && r.push == None && !Stuck(r) && r.pushed == s.pushed
      && |s.consumed| <= |r.consumed| <= |r.pushed|
      && (|r.consumed| > |s.consumed|
          || (|r.consumed| == |s.consumed| && (Links(r) < Links(s) || (Links(r) == Links(s) && ToRead(r) < ToRead(s)))))
  {
    Pending(s);
    StepShape(s);
    ControllerKeeps(s);
    var r := ControllerNext(s);
    Laps(s);
    Laps(r);
    hide CycleOf, Holds, Memory, ReaderOk, ControllerNext, Visible;
    assert |r.consumed| <= |r.pushed|;
    if SameLap(s) {
      assert s.deq < Edge(s) by { ReadySameLap(s); }
    }
  }

  lemma {:induction false} DrainOne(s: Sys) returns (n: nat)
    requires Inv(s) && s.push == None && !Stuck(s)
    ensures DrainedAfter(s, n)
    decreases |s.pushed| - |s.consumed|, Links(s), ToRead(s)
  {
    if s.consumed == s.pushed {
      n := 0;
    } else {
      Progress(s);
      hide Inv, Stuck, ControllerNext, Links, ToRead;
      n := DrainOne(ControllerNext(s));
      RunFirst(s, Controller, Times(Controller, n));
      n := n + 1;
    }
  }

  /** A stuck controller and the caller wait for each other: nothing is enabled
      that changes the state. */
  lemma StuckStays(s: Sys, e: Event)
    requires Inv(s) && s.push == None && Stuck(s)
    ensures !s.lost && |s.pushed| == |s.consumed| + s.size - 1 && s.consumed != s.pushed
    ensures Enabled(s, e) ==> Next(s, e) == s
  {
    Laps(s);
    hide CycleOf, ToggleOf, TypeOf, Stamp, Unstamp, LinkTrb, ReaderOk, Holds, Memory;
  }

  lemma {:induction false} StuckForever(s: Sys, es: seq<Event>)
    requires Inv(s) && s.push == None && Stuck(s)
    ensures Run(s, es).Some? ==> Run(s, es).value == s
  {
    if es != [] {
      StuckForever(s, es[..|es| - 1]);
      StuckStays(s, es[|es| - 1]);
    }
  }

  /** Between pushes, the controller takes everything iff it is not stuck. */
  lemma DrainIff(s: Sys)
    requires Inv(s) && s.push == None
    ensures Drains(s) <==> !Stuck(s)
  {
    if Stuck(s) {
      StuckStays(s, Controller);
      forall n: nat
        ensures !DrainedAfter(s, n)
      {
        StuckForever(s, Times(Controller, n));
      }
    } else {
      var n := DrainOne(s);
    }
  }

  // Whole pushes

  lemma WriteShape(s: Sys)
    requires Inv(s) && s.push.Some?
    ensures
      var r := WriteNext(s);
      if s.done + 1 < |s.Stores()| then r == s.(mem := r.mem, done := s.done + 1)
      else
        r == s.(mem := r.mem, done := 0, push := None,
                slot := NextSlot(s.size, s.slot), cycle := NextCycle(s.size, s.slot, s.cycle))
  {
  }

  lemma {:induction false} Finish(s: Sys) returns (es: seq<Event>, r: Sys)
    requires Inv(s) && s.push.Some?
    ensures Run(s, es) == Some(r) && Inv(r)
    ensures r == s.(mem := r.mem, done := 0, push := None,
                    slot := NextSlot(s.size, s.slot), cycle := NextCycle(s.size, s.slot, s.cycle))
    decreases |s.Stores()| - s.done
  {
    WriteShape(s);
    WriteKeeps(s);
    hide Inv, WriteNext, Sys.Stores;
    var m := WriteNext(s);
    if m.push.Some? {
      assert m.Stores() == s.Stores();
      es, r := Finish(m);
    } else {
      es, r := [], m;
    }
    RunFirst(s, Write, es);
    es := [Write] + es;
  }

  /** `r` is `s` with `k` more TRBs pushed and no step of the controller. */
  predicate PushedMore(s: Sys, r: Sys, k: nat) {
    && r.push == None && |r.pushed| == |s.pushed| + k && r.size == s.size && r.limit == s.limit
    && r.deq == s.deq && r.ccs == s.ccs && r.reader == s.reader && r.consumed == s.consumed
  }

  /** A whole `Push` while the controller rests. */
  lemma PushAlone(s: Sys, t: Trb) returns (es: seq<Event>, r: Sys)
    requires Inv(s) && Enabled(s, Begin(t))
    ensures Run(s, es) == Some(r) && Inv(r) && PushedMore(s, r, 1)
    ensures r.slot == NextSlot(s.size, s.slot) && r.cycle == NextCycle(s.size, s.slot, s.cycle)
  {
    BeginKeeps(s, t);
    hide Inv, NextSlot, NextCycle;
    var m := Next(s, Begin(t));
    es, r := Finish(m);
    RunFirst(s, Begin(t), es);
    es := [Begin(t)] + es;
  }

  /** A push gets the controller stuck exactly when it fills the last data slot
      while the controller polls the link TRB. */
  lemma PushSticks(s: Sys, t: Trb) returns (es: seq<Event>, r: Sys)
    requires Inv(s) && Enabled(s, Begin(t))
    ensures Run(s, es) == Some(r) && Inv(r) && PushedMore(s, r, 1)
    ensures Stuck(r) <==> s.slot + 2 == s.size && s.deq + 1 == s.size && s.reader == Polling
  {
    es, r := PushAlone(s, t);
    Laps(s);
    Laps(r);
    hide CycleOf, ToggleOf, TypeOf, Stamp, LinkTrb, ReaderOk, Holds, Memory, Run, SameController;
  }

  const NOOP := Trb(0, 0, 0, 0x2000)

  lemma {:induction false} PushMany(s: Sys, k: nat) returns (es: seq<Event>, r: Sys)
    requires Inv(s) && s.push == None && s.slot + k < s.size && |s.pushed| + k <= |s.consumed| + s.limit
    ensures Run(s, es) == Some(r) && Inv(r) && PushedMore(s, r, k)
    ensures if s.slot + k + 1 < s.size then r.slot == s.slot + k && r.cycle == s.cycle
            else r.slot == 0 && (0 < k ==> r.cycle == !s.cycle)
    decreases k
  {
    if k == 0 {
      es, r := [], s;
    } else {
      var first, m := PushAlone(s, NOOP);
      hide Inv;
      var rest: seq<Event>;
      rest, r := PushMany(m, k - 1);
      RunAppend(s, first, rest);
      es := first + rest;
    }
  }

  /** The controller takes the rest of a lap and stops at the link TRB. */
  lemma {:induction false} TakeLap(s: Sys) returns (es: seq<Event>, r: Sys)
    requires Inv(s) && s.push == None && s.slot == 0 && s.ccs != s.cycle
    requires s.deq + 1 == s.size ==> s.reader == Polling
    ensures Run(s, es) == Some(r) && Inv(r)
    ensures r == s.(deq := s.size - 1, reader := Polling, consumed := s.pushed)
  {
    es, r := [], s;
    assert s.WellFormed() && !s.lost;
    hide Inv, ControllerNext, Ready;
    while r.deq + 1 < r.size
      invariant Run(s, es) == Some(r) && Inv(r) && r.WellFormed() && !r.lost
      invariant r == s.(deq := r.deq, reader := r.reader, consumed := r.consumed)
      invariant r.deq + 1 == r.size ==> r.reader == Polling
      decreases r.size - r.deq, ToRead(r)
    {
      TakeStep(r);
      RunAppend(s, es, [Controller]);
      RunFirst(r, Controller, []);
      es, r := es + [Controller], ControllerNext(r);
    }
    LapTaken(r);
  }

  lemma TakeStep(s: Sys)
    requires Inv(s) && s.push == None && s.slot == 0 && s.ccs != s.cycle && s.deq + 1 < s.size
    ensures
      var r := ControllerNext(s);
      && Inv(r) && r.WellFormed() && r == s.(deq := r.deq, reader := r.reader, consumed := r.consumed)
      && (if r.deq == s.deq then r.reader.Reading? && ToRead(r) < ToRead(s)
          else r.deq == s.deq + 1 && r.reader == Polling)
  {
    Laps(s);
    assert Ready(s) by {
      hide CycleOf, ToggleOf, TypeOf, Stamp, Unstamp, LinkTrb, ReaderOk, Holds, Histories;
    }
    StepShape(s);
    ControllerKeeps(s);
    hide Inv, ControllerNext;
  }

  lemma LapTaken(s: Sys)
    requires Inv(s) && s.push == None && s.slot == 0 && s.ccs != s.cycle && s.deq + 1 == s.size
    ensures s.consumed == s.pushed
  {
    Laps(s);
    hide CycleOf, ToggleOf, TypeOf, Stamp, Unstamp, LinkTrb, ReaderOk, Holds, Memory;
    assert s.consumed == s.pushed[..|s.consumed|];
  }

  // How many outstanding TRBs are safe

  function Start(size: nat, base: Address, limit: nat): (s: Sys)
    requires 2 <= size && limit < size
    ensures Init(s)
  {
    Sys(size, base, limit, seq(size, _ => ZERO_TRB), 0, true, None, 0, [], 0, true, Polling, false, [])
  }

  /** Whenever no push is in progress, the controller can take the rest. */
  ghost predicate AlwaysDrains(s: Sys) {
    forall es :: Run(s, es).Some? && Run(s, es).value.push == None ==> Drains(Run(s, es).value)
  }

  /** One lap is pushed and taken up to its link TRB, and then the next lap is
      pushed before the controller has followed the link TRB. */
  lemma Overfill(size: nat, base: Address) returns (es: seq<Event>, r: Sys)
    requires 2 <= size
    ensures Run(Start(size, base, size - 1), es) == Some(r)
    ensures Inv(r) && r.push == None && Stuck(r)
  {
    var s := Start(size, base, size - 1);
    InitInv(s);
    var first, m := PushMany(s, size - 1);
    var takes, q := TakeLap(m);
    var second: seq<Event>;
    second, r := PushMany(q, size - 1);
    Laps(r);
    hide Inv, Init;
    RunAppend(s, first, takes);
    RunAppend(s, first + takes, second);
    es := first + takes + second;
  }

  /** With a ring of `size` TRBs, the controller gets through every run exactly
      when at most `size - 2` are outstanding, one fewer than there are data
      slots. */
  lemma LimitIsExact(size: nat, base: Address, limit: nat)
    requires 2 <= size && limit < size
    ensures AlwaysDrains(Start(size, base, limit)) <==> limit + 1 < size
  {
    var s := Start(size, base, limit);
    if limit + 1 < size {
      forall es | Run(s, es).Some? && Run(s, es).value.push == None
        ensures Drains(Run(s, es).value)
      {
        RunInv(s, es);
        RunSafe(s, es);
        DrainIff(Run(s, es).value);
        hide Inv, Stuck;
        if Stuck(Run(s, es).value) {
          StuckStays(Run(s, es).value, Controller);
          assert false;
        }
      }
    } else {
      var es, r := Overfill(size, base);
      DrainIff(r);
    }
  }
}
