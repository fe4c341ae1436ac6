/** Round robin without starvation: how soon a task runs while no higher level has
    one (kernel/task.cpp, kernel/timer.cpp). */
module BoundedResponse {
  import opened Scheduler
  import opened Timers
  import opened Kernels

  /** Where a task first is in a queue, from its front. */
  function Position(q: seq<nat>, id: nat): (p: nat)
    requires id in q
    ensures p < |q| && q[p] == id
  {
    if q[0] == id then 0 else 1 + Position(q[1..], id)
  }

  lemma {:induction false} PositionOfPrefix(q: seq<nat>, r: seq<nat>, id: nat)
    requires q <= r && id in q
    ensures id in r && Position(r, id) == Position(q, id)
  {
    if q[0] != id {
      PositionOfPrefix(q[1..], r[1..], id);
    }
  }

  /** The task waits or runs at this level. */
  ghost predicate InLevel(s: Sched, lv: nat, id: nat) {
    Good(s) && lv <= MAX_LEVEL && id in s.queues[lv]
  }

  /** No higher level has a task. */
  ghost predicate NoneAbove(s: Sched, lv: nat) {
    forall l :: lv < l < |s.queues| ==> s.queues[l] == []
  }

  /** How many switches may pass before the task is current. */
  ghost function Wait(s: Sched, lv: nat, id: nat): nat
    requires InLevel(s, lv, id)
  {
    Position(s.queues[lv], id) + (if s.current != lv then 1 else 0)
  }

  lemma WaitZero(s: Sched, lv: nat, id: nat)
    requires InLevel(s, lv, id)
    ensures Wait(s, lv, id) == 0 ==> s.Current() == id
    ensures Wait(s, lv, id) <= |s.queues[lv]|
  {
  }

  /** A task that is woken waits for at most the tasks then in its queue. */
  lemma WokenWaits(s: Sched, id: nat, lv: nat)
    requires Good(s) && s.Known(id) && !s.TaskAt(id).running && lv <= MAX_LEVEL
    ensures
      var r := Woken(s, id, lv);
      InLevel(r, lv, id) && Wait(r, lv, id) <= |r.queues[lv]| == |s.queues[lv]| + 1
  {
    WakeKeeps(s, id, lv);
    var r := Woken(s, id, lv);
    assert r.queues[lv][|r.queues[lv]| - 1] == id;
    WaitZero(r, lv, id);
  }

  /** Messages and wake-ups only append to the queue. */
  lemma AppendWaits(s: Sched, r: Sched, lv: nat, id: nat)
    requires InLevel(s, lv, id) && Good(r) && s.queues[lv] <= r.queues[lv] && r.current == s.current
    ensures InLevel(r, lv, id) && Wait(r, lv, id) == Wait(s, lv, id)
  {
    PositionOfPrefix(s.queues[lv], r.queues[lv], id);
  }

  lemma PositionShift(q: seq<nat>, more: seq<nat>, id: nat)
    requires id in q && q[0] != id
    ensures id in q[1..] + more && Position(q[1..] + more, id) + 1 == Position(q, id)
  {
    PositionOfPrefix(q[1..], q[1..] + more, id);
  }

  /** Right after a switch the current level is that of the highest task. */
  lemma CurrentLevel(r: Sched, lv: nat, id: nat)
    requires InLevel(r, lv, id) && !r.changed && NoneAbove(r, lv)
    ensures r.current == lv
  {
    hide Placed;
  }

  /** Every switch brings a waiting task nearer, from any level below its own or
      within it. */
  lemma SwitchNearer(s: Sched, sleep: bool, r: Sched, lv: nat, id: nat)
    requires InLevel(s, lv, id) && Good(r) && s.Current() != id && NoneAbove(s, lv)
    requires !r.changed && |r.queues| == |s.queues|
    requires r.queues[s.current] == s.queues[s.current][1..] + (if sleep then [] else [s.Current()])
    requires forall l :: 0 <= l < |s.queues| && l != s.current ==> r.queues[l] == s.queues[l]
    ensures InLevel(r, lv, id) && Wait(r, lv, id) < Wait(s, lv, id) && NoneAbove(r, lv)
  {
    hide Placed;
    if s.current == lv {
      PositionShift(s.queues[lv], if sleep then [] else [s.Current()], id);
    }
    assert s.current <= lv;
    CurrentLevel(r, lv, id);
  }

  /** The event does not change the level of a running task. */
  predicate KeepsLevels(s: Sched, e: Event) {
    e.Wake? && s.Known(e.id) && s.TaskAt(e.id).running ==> e.level < 0 || e.level == s.TaskAt(e.id).level
  }

  function Expires(e: Event): nat {
    if e.Tick? && e.expired then 1 else 0
  }

  ghost predicate Nearer(k: Kernel, e: Event, r: Kernel, lv: nat, id: nat) {
    && k.Shape() && r.Shape() && InLevel(k.sched, lv, id) && InLevel(r.sched, lv, id)
    && Wait(r.sched, lv, id) + Expires(e) <= Wait(k.sched, lv, id)
  }

  lemma QueueStays(s: Sched, r: Sched, lv: nat, id: nat)
    requires InLevel(s, lv, id) && Good(r) && r.queues == s.queues && r.current == s.current
    ensures InLevel(r, lv, id) && Wait(r, lv, id) == Wait(s, lv, id)
  {
  }

  lemma SleepNearer(k: Kernel, lv: nat, id: nat)
    requires Inv(k) && Enabled(k, Event.Sleep) && k.sched.Current() != id
    requires InLevel(k.sched, lv, id) && NoneAbove(k.sched, lv)
    ensures Nearer(k, Event.Sleep, Next(k, Event.Sleep), lv, id)
  {
    hide Good, Slept, Switched, Rotated, Mail, Asleep, Masked, Wait, NoneAbove;
    StepKeeps(k, Event.Sleep);
    CurrentFacts(k.sched);
    SleepQueues(k.sched);
    SwitchNearer(k.sched, true, Next(k, Event.Sleep).sched, lv, id);
  }

  lemma SendNearer(k: Kernel, e: Event, lv: nat, id: nat)
    requires Inv(k) && Enabled(k, e) && (e.Send? || e.Usb?) && InLevel(k.sched, lv, id)
    ensures Nearer(k, e, Next(k, e), lv, id)
  {
    hide Good, Sent, Mail, Asleep, Masked, Wait, Ticks;
    StepKeeps(k, e);
    CurrentFacts(k.sched);
    var to := if e.Send? then e.id else MAIN_ID;
    if k.sched.Known(to) {
      SendEffect(k.sched, to, if e.Send? then e.m else InterruptXHCI);
      AppendWaits(k.sched, Next(k, e).sched, lv, id);
    }
  }

  lemma WakeAppends(s: Sched, other: nat, level: int)
    requires Good(s) && s.Known(other) && level <= MAX_LEVEL && KeepsLevels(s, Event.Wake(other, level))
    ensures
      var r := Woken(s, other, level);
      && r.current == s.current && |r.queues| == |s.queues|
      && forall lv :: 0 <= lv <= MAX_LEVEL ==> s.queues[lv] <= r.queues[lv]
  {
    hide Placed;
  }

  lemma WakeNearer(k: Kernel, e: Event, lv: nat, id: nat)
    requires Inv(k) && Enabled(k, e) && e.Wake? && InLevel(k.sched, lv, id) && KeepsLevels(k.sched, e)
    ensures Nearer(k, e, Next(k, e), lv, id)
  {
    hide Good, Woken, Mail, Asleep, Masked, Wait;
    StepKeeps(k, e);
    CurrentFacts(k.sched);
    if k.sched.Known(e.id) {
      WakeAppends(k.sched, e.id, e.level);
      AppendWaits(k.sched, Next(k, e).sched, lv, id);
    }
  }

  lemma PreemptNearer(s: Sched, lv: nat, id: nat)
    requires InLevel(s, lv, id) && NoneAbove(s, lv) && s.Current() != id
    ensures
      var r := Switched(s, false);
      InLevel(r, lv, id) && Wait(r, lv, id) < Wait(s, lv, id)
  {
    SwitchKeeps(s);
    SwitchQueues(s, false);
    hide Good, Wait, Switched, NoneAbove;
    SwitchNearer(s, false, Switched(s, false), lv, id);
  }

  /** A switch that keeps the current task keeps every level's queue empty or not. */
  lemma SameAbove(s: Sched, lv: nat)
    requires Good(s) && NoneAbove(Switched(s, false), lv)
    ensures NoneAbove(s, lv)
  {
    SwitchQueues(s, false);
    hide Good, Switched;
  }

  lemma TickNearer(k: Kernel, e: Event, lv: nat, id: nat)
    requires Inv(k) && Enabled(k, e) && e.Tick? && InLevel(k.sched, lv, id) && k.sched.Current() != id
    requires NoneAbove(k.sched, lv) && NoneAbove(Next(k, e).sched, lv)
    ensures Nearer(k, e, Next(k, e), lv, id)
  {
    hide Good, Delivered, Rotated, Mail, Asleep, Masked, Wait, Ticks, Highest;
    StepKeeps(k, e);
    DeliverEffect(k.sched, e.sent);
    var m := Ticked(k, e.sent, e.after).sched;
    AppendWaits(k.sched, m, lv, id);
    if e.expired {
      SameAbove(m, lv);
      PreemptNearer(m, lv, id);
    }
  }

  lemma PlainNearer(k: Kernel, e: Event, lv: nat, id: nat)
    requires Inv(k) && Enabled(k, e) && InLevel(k.sched, lv, id)
    requires !e.Tick? && !e.Wake? && !e.Send? && !e.Usb? && !e.Sleep?
    ensures Nearer(k, e, Next(k, e), lv, id)
  {
    hide Good, Mail, Asleep, Masked, Wait, Ticks;
    StepKeeps(k, e);
    CurrentFacts(k.sched);
    QueueStays(k.sched, Next(k, e).sched, lv, id);
  }

  /** While no higher level has a task, no step makes a waiting task wait longer,
      and an expiry of the task timer brings it nearer. */
  lemma StepNearer(k: Kernel, e: Event, lv: nat, id: nat)
    requires Inv(k) && Enabled(k, e) && InLevel(k.sched, lv, id) && k.sched.Current() != id
    requires KeepsLevels(k.sched, e) && NoneAbove(k.sched, lv) && NoneAbove(Next(k, e).sched, lv)
    ensures Nearer(k, e, Next(k, e), lv, id)
  {
    hide Nearer, Inv, Enabled, Next, NoneAbove, InLevel;
    if e.Sleep? {
      SleepNearer(k, lv, id);
    } else if e.Send? || e.Usb? {
      SendNearer(k, e, lv, id);
    } else if e.Wake? {
      WakeNearer(k, e, lv, id);
    } else if e.Tick? {
      TickNearer(k, e, lv, id);
    } else {
      PlainNearer(k, e, lv, id);
    }
  }

  // Runs

  function CountTicks(es: seq<Event>): nat {
    if es == [] then 0 else CountTicks(es[..|es| - 1]) + if es[|es| - 1].Tick? then 1 else 0
  }

  function CountExpiries(es: seq<Event>): nat {
    if es == [] then 0 else CountExpiries(es[..|es| - 1]) + Expires(es[|es| - 1])
  }

  /** No event of the run changes a running task's level. */
  ghost predicate LevelsKept(k: Kernel, es: seq<Event>) {
    es == [] ||
    var before := es[..|es| - 1];
    LevelsKept(k, before) && Run(k, before).Some? && KeepsLevels(Run(k, before).value.sched, es[|es| - 1])
  }

  /** At no point of the run a level above has a task. */
  ghost predicate NoneHigher(k: Kernel, es: seq<Event>, lv: nat) {
    && Run(k, es).Some? && NoneAbove(Run(k, es).value.sched, lv)
    && (es != [] ==> NoneHigher(k, es[..|es| - 1], lv))
  }

  /** Above the highest level there is none. */
  lemma {:induction false} NoneHigherAtTop(k: Kernel, es: seq<Event>)
    requires Inv(k) && Run(k, es).Some?
    ensures NoneHigher(k, es, MAX_LEVEL)
  {
    RunInv(k, es);
    if es != [] {
      NoneHigherAtTop(k, es[..|es| - 1]);
    }
    hide Run, Mail, Asleep, Masked, Placed;
  }

  ghost predicate IsCurrentAfter(k: Kernel, es: seq<Event>, id: nat) {
    Run(k, es).Some? && Run(k, es).value.sched.Shape() && Run(k, es).value.sched.Current() == id
  }

  ghost predicate EverCurrent(k: Kernel, es: seq<Event>, id: nat) {
    exists i :: 0 <= i <= |es| && IsCurrentAfter(k, es[..i], id)
  }

  lemma EverEarlier(k: Kernel, es: seq<Event>, id: nat)
    requires es != [] && EverCurrent(k, es[..|es| - 1], id)
    ensures EverCurrent(k, es, id)
  {
    var i :| 0 <= i < |es| && IsCurrentAfter(k, es[..|es| - 1][..i], id);
    assert es[..|es| - 1][..i] == es[..i];
  }

  /** As long as a task has not run, its wait is what it was at first less the
      expiries so far. */
  lemma {:induction false} RunNearer(k: Kernel, es: seq<Event>, lv: nat, id: nat)
    requires Inv(k) && InLevel(k.sched, lv, id) && Run(k, es).Some? && LevelsKept(k, es) && NoneHigher(k, es, lv)
    requires !EverCurrent(k, es, id)
    ensures
      var r := Run(k, es).value;
      && Inv(r) && InLevel(r.sched, lv, id) && r.sched.Current() != id
      && Wait(r.sched, lv, id) + CountExpiries(es) <= Wait(k.sched, lv, id)
  {
    RunInv(k, es);
    assert es[..|es|] == es;
    assert !IsCurrentAfter(k, es[..|es|], id);
    if es != [] {
      var before, e := es[..|es| - 1], es[|es| - 1];
      if EverCurrent(k, before, id) {
        EverEarlier(k, es, id);
      }
      RunNearer(k, before, lv, id);
      StepNearer(Run(k, before).value, e, lv, id);
    }
    hide Good, Mail, Asleep, Masked, NoneAbove;
  }

  /** The task timer expires every other tick. */
  lemma {:induction false} ExpiriesOfTicks(k: Kernel, es: seq<Event>, due: nat) returns (last: nat)
    requires Inv(k) && Run(k, es).Some? && OneTaskTimer(k.timers, k.tick, due)
    ensures
      var r := Run(k, es).value;
      && OneTaskTimer(r.timers, r.tick, last)
      && TASK_TIMER_PERIOD * CountExpiries(es) + (due - k.tick) == CountTicks(es) + (last - r.tick)
  {
    if es == [] {
      last := due;
    } else {
      var before, e := es[..|es| - 1], es[|es| - 1];
      var mid := ExpiriesOfTicks(k, before, due);
      RunInv(k, before);
      last := StepTimer(Run(k, before).value, e, mid);
    }
  }

  lemma StepTimer(k: Kernel, e: Event, due: nat) returns (last: nat)
    requires Inv(k) && Enabled(k, e) && OneTaskTimer(k.timers, k.tick, due)
    ensures
      var r := Next(k, e);
      && OneTaskTimer(r.timers, r.tick, last)
      && TASK_TIMER_PERIOD * Expires(e) + (due - k.tick) == (if e.Tick? then 1 else 0) + (last - r.tick)
  {
    hide Good, Mail, Asleep, Masked, Delivered, Switched, Slept, Sent, Woken, Received, Ticks, OneTaskTimer;
    last := due;
    CurrentFacts(k.sched);
    if e.Tick? {
      TaskTimerStays(k.timers, k.tick + 1, e.after, e.sent, e.expired, due);
      if e.expired {
        last := k.tick + 1 + TASK_TIMER_PERIOD;
      }
    } else if e.AddTimer? {
      AddTimerStays(k.timers, k.tick, due, e.t);
    }
  }

  /** Bounded response: a task that need wait for at most n switches in the queue
      of its level is current at some point of every run with n expiries of the
      task timer, or with n periods of ticks, in which no higher level has a task
      and no running task's level is changed. */
  lemma BoundedResponse(k: Kernel, es: seq<Event>, lv: nat, id: nat, n: nat, due: nat)
    requires Inv(k) && InLevel(k.sched, lv, id) && Wait(k.sched, lv, id) <= n && OneTaskTimer(k.timers, k.tick, due)
    requires Run(k, es).Some? && LevelsKept(k, es) && NoneHigher(k, es, lv)
    requires CountExpiries(es) >= n || CountTicks(es) >= n * TASK_TIMER_PERIOD
    ensures EverCurrent(k, es, id)
  {
    if !EverCurrent(k, es, id) {
      RunNearer(k, es, lv, id);
      var last := ExpiriesOfTicks(k, es, due);
      var r := Run(k, es).value;
      WaitZero(r.sched, lv, id);
      hide Good, Wait, Inv;
    }
  }

  /** In particular a task woken at a level, leaving q tasks in its queue, runs
      within q expiries, that is within q periods of ticks. */
  lemma WokenRuns(k: Kernel, id: nat, lv: nat, es: seq<Event>, due: nat)
    requires Inv(k) && lv <= MAX_LEVEL && Enabled(k, Event.Wake(id, lv))
    requires k.sched.Known(id) && !k.sched.TaskAt(id).running
    requires OneTaskTimer(k.timers, k.tick, due)
    requires
      var r := Next(k, Event.Wake(id, lv));
      && Run(r, es).Some? && LevelsKept(r, es) && NoneHigher(r, es, lv) && |r.sched.queues| == MAX_LEVEL + 1
      && (CountExpiries(es) >= |r.sched.queues[lv]| || CountTicks(es) >= |r.sched.queues[lv]| * TASK_TIMER_PERIOD)
    ensures EverCurrent(Next(k, Event.Wake(id, lv)), es, id)
  {
    var e := Event.Wake(id, lv);
    StepKeeps(k, e);
    WokenWaits(k.sched, id, lv);
    CurrentFacts(k.sched);
    hide Good, Woken, Inv, Run, Wait;
    BoundedResponse(Next(k, e), es, lv, id, |Next(k, e).sched.queues[lv]|, due);
  }

  /** In every reachable state there is one task timer, due within a period, so
      that BoundedResponse applies there. */
  lemma TaskTimerAlways(es: seq<Event>) returns (due: nat)
    requires Run(Boot(), es).Some?
    ensures Inv(Run(Boot(), es).value) && OneTaskTimer(Run(Boot(), es).value.timers, Run(Boot(), es).value.tick, due)
  {
    BootInv();
    RunInv(Boot(), es);
    hide Run, Inv;
    due := ExpiriesOfTicks(Boot(), es, TASK_TIMER_PERIOD);
  }
}
