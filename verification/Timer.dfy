/** Logical timers and the timer interrupt (kernel/timer.cpp, kernel/timer.hpp). */
module Timers {
  import opened Scheduler
  import opened Tasks

  const ULONG_MAX := 0xffff_ffff_ffff_ffff
  /** `kTimerFreq * 0.02`, with a frequency of 100. */
  const TASK_TIMER_PERIOD := 2
  /** The smallest `int`. */
  const TASK_TIMER_VALUE := -0x8000_0000

  datatype Timer = Timer(timeout: nat, value: int)

  const SENTINEL := Timer(ULONG_MAX, -1)

  function TaskTimer(timeout: nat): Timer {
    Timer(timeout, TASK_TIMER_VALUE)
  }

  /** What becomes of a timer when the tick reaches `now`. */
  datatype Fate = Message | Again | Later

  predicate Is(t: Timer, now: nat, f: Fate) {
    f == if t.timeout > now then Later else if t.value == TASK_TIMER_VALUE then Again else Message
  }

  /** The timers with one fate. */
  ghost function Part(m: multiset<Timer>, now: nat, f: Fate): (r: multiset<Timer>)
    ensures forall t: Timer :: r[t] == if Is(t, now, f) then m[t] else 0
    decreases |m|
  {
    if m == multiset{} then m
    else
      var t :| t in m;
      Part(m[t := 0], now, f)[t := if Is(t, now, f) then m[t] else 0]
  }

  lemma PartsSum(m: multiset<Timer>, now: nat)
    ensures m == Part(m, now, Message) + Part(m, now, Again) + Part(m, now, Later)
  {
  }

  predicate InOrder(ts: seq<Timer>) {
    forall i, j :: 0 <= i < j < |ts| ==> ts[i].timeout <= ts[j].timeout
  }

  function Copies(t: Timer, n: nat): multiset<Timer> {
    multiset{}[t := n]
  }

  /** What a tick does to the timers: those due are taken out and sent, once
      each and earliest first; a task timer that is due is due again a period
      later; the others stay. */
  ghost predicate Ticks(before: multiset<Timer>, now: nat, after: multiset<Timer>, sent: seq<Timer>, expired: bool) {
    && InOrder(sent) && multiset(sent) == Part(before, now, Message)
    && after == Part(before, now, Later) + Copies(TaskTimer(now + TASK_TIMER_PERIOD), |Part(before, now, Again)|)
    && (expired <==> Part(before, now, Again) != multiset{})
  }

  lemma {:induction false} EarliestExists(m: multiset<Timer>) returns (t: Timer)
    requires m != multiset{}
    ensures t in m && forall u :: u in m ==> t.timeout <= u.timeout
    decreases |m|
  {
    var first :| first in m;
    var rest := m[first := 0];
    t := first;
    if rest != multiset{} {
      var r := EarliestExists(rest);
      if r.timeout < first.timeout {
        t := r;
      }
    }
    forall u | u in m
      ensures t.timeout <= u.timeout
    {
      assert u == first || u in rest;
    }
  }

  /** A tick under way: timers still to send and to renew, those not due, how
      many were renewed and which were sent. */
  datatype Ticking = Ticking(
    messages: multiset<Timer>, again: multiset<Timer>, later: multiset<Timer>, renewed: nat, sent: seq<Timer>)

  ghost function Begin(before: multiset<Timer>, now: nat): Ticking {
    Ticking(Part(before, now, Message), Part(before, now, Again), Part(before, now, Later), 0, [])
  }

  ghost function Left(p: Ticking): nat {
    |p.messages| + |p.again|
  }

  /** No timer is due before `t`. */
  ghost predicate IsTop(t: Timer, timers: multiset<Timer>) {
    t in timers && forall u :: u in timers ==> t.timeout <= u.timeout
  }

  function Fired(timers: multiset<Timer>, now: nat, t: Timer): multiset<Timer> {
    if t.value == TASK_TIMER_VALUE then timers - multiset{t} + multiset{TaskTimer(now + TASK_TIMER_PERIOD)}
    else timers - multiset{t}
  }

  ghost predicate UnderWay(before: multiset<Timer>, now: nat, timers: multiset<Timer>, p: Ticking) {
    && timers == p.messages + p.again + p.later + Copies(TaskTimer(now + TASK_TIMER_PERIOD), p.renewed)
    && multiset(p.sent) + p.messages == Part(before, now, Message)
    && p.again <= Part(before, now, Again) && p.renewed + |p.again| == |Part(before, now, Again)|
    && p.later == Part(before, now, Later)
    && InOrder(p.sent) && forall i, t :: 0 <= i < |p.sent| && t in p.messages ==> p.sent[i].timeout <= t.timeout
  }

  lemma TickBegins(before: multiset<Timer>, now: nat)
    ensures UnderWay(before, now, before, Begin(before, now))
    ensures Begin(before, now).sent == [] && Begin(before, now).renewed == 0
  {
    PartsSum(before, now);
  }

  /** Where the earliest timer comes from. */
  lemma Earliest(before: multiset<Timer>, now: nat, timers: multiset<Timer>, p: Ticking, t: Timer)
    requires UnderWay(before, now, timers, p) && t in timers
    ensures t.timeout <= now ==> if t.value == TASK_TIMER_VALUE then t in p.again else t in p.messages
    ensures t in p.messages ==> Is(t, now, Message)
    ensures t in p.again ==> Is(t, now, Again)
  {
    assert t in p.messages ==> t in Part(before, now, Message);
  }

  lemma Renew(before: multiset<Timer>, now: nat, timers: multiset<Timer>, p: Ticking, t: Timer)
    requires UnderWay(before, now, timers, p) && t in p.again
    ensures UnderWay(before, now, timers - multiset{t} + multiset{TaskTimer(now + TASK_TIMER_PERIOD)},
                     p.(again := p.again - multiset{t}, renewed := p.renewed + 1))
  {
    hide Part;
  }

  lemma Send(before: multiset<Timer>, now: nat, timers: multiset<Timer>, p: Ticking, t: Timer)
    requires UnderWay(before, now, timers, p) && t in p.messages && forall u :: u in timers ==> t.timeout <= u.timeout
    ensures UnderWay(before, now, timers - multiset{t}, p.(messages := p.messages - multiset{t}, sent := p.sent + [t]))
  {
    hide Part;
    SendOrder(p.sent, p.messages, t);
    SendSum(p.sent, p.messages, t, Part(before, now, Message));
    SendRest(p.messages, p.again, p.later, Copies(TaskTimer(now + TASK_TIMER_PERIOD), p.renewed), t);
    hide InOrder, Copies;
  }

  lemma FireStep(before: multiset<Timer>, now: nat, timers: multiset<Timer>, p: Ticking, t: Timer) returns (q: Ticking)
    requires UnderWay(before, now, timers, p) && t.timeout <= now && IsTop(t, timers)
    ensures UnderWay(before, now, Fired(timers, now, t), q) && Left(q) < Left(p)
    ensures if t.value == TASK_TIMER_VALUE then q.sent == p.sent && q.renewed == p.renewed + 1
            else q.sent == p.sent + [t] && q.renewed == p.renewed
  {
    Earliest(before, now, timers, p, t);
    hide UnderWay;
    if t.value == TASK_TIMER_VALUE {
      Renew(before, now, timers, p, t);
      q := p.(again := p.again - multiset{t}, renewed := p.renewed + 1);
    } else {
      Send(before, now, timers, p, t);
      q := p.(messages := p.messages - multiset{t}, sent := p.sent + [t]);
    }
  }

  lemma SendSum(sent: seq<Timer>, messages: multiset<Timer>, t: Timer, sum: multiset<Timer>)
    requires multiset(sent) + messages == sum && t in messages
    ensures multiset(sent + [t]) + (messages - multiset{t}) == sum
  {
  }

  lemma SendRest(a: multiset<Timer>, b: multiset<Timer>, c: multiset<Timer>, d: multiset<Timer>, t: Timer)
    requires t in a
    ensures a + b + c + d - multiset{t} == (a - multiset{t}) + b + c + d
  {
  }

  lemma SentinelStays(before: multiset<Timer>, now: nat, timers: multiset<Timer>, p: Ticking)
    requires UnderWay(before, now, timers, p) && SENTINEL in before && now < ULONG_MAX
    ensures SENTINEL in timers
  {
    assert SENTINEL in p.later;
  }

  lemma SendOrder(sent: seq<Timer>, messages: multiset<Timer>, t: Timer)
    requires InOrder(sent) && t in messages && forall u :: u in messages ==> t.timeout <= u.timeout
    requires forall i, u :: 0 <= i < |sent| && u in messages ==> sent[i].timeout <= u.timeout
    ensures InOrder(sent + [t])
    ensures forall i, u :: 0 <= i <= |sent| && u in messages - multiset{t} ==> (sent + [t])[i].timeout <= u.timeout
  {
  }

  lemma TickEnds(before: multiset<Timer>, now: nat, timers: multiset<Timer>, p: Ticking, t: Timer)
    requires UnderWay(before, now, timers, p) && t.timeout > now && IsTop(t, timers)
    ensures Ticks(before, now, timers, p.sent, p.renewed > 0)
  {
    forall u | u in p.messages
      ensures false
    {
      assert u in timers;
      Earliest(before, now, timers, p, u);
    }
    forall u | u in p.again
      ensures false
    {
      assert u in timers;
      Earliest(before, now, timers, p, u);
    }
    assert p.messages == multiset{} && p.again == multiset{};
  }

  /** The messages of a tick, sent to the main task. */
  function Delivered(s: Sched, sent: seq<Timer>): Sched
    requires Good(s)
    ensures Good(Delivered(s, sent))
  {
    if sent == [] then s
    else
      var m := Delivered(s, sent[..|sent| - 1]);
      var op := SendTimeout(sent[|sent| - 1]);
      ApplyKeeps(m, op);
      Apply(m, op)
  }

  function SendTimeout(t: Timer): Op {
    Op.SendMessage(MAIN_ID, TimerTimeout(t.timeout, t.value))
  }

  lemma DeliverNone(s: Sched)
    requires Good(s)
    ensures Delivered(s, []) == s
  {
  }

  lemma DeliverOne(s: Sched, sent: seq<Timer>, t: Timer)
    requires Good(s)
    ensures Delivered(s, sent + [t]) == Apply(Delivered(s, sent), SendTimeout(t))
  {
    assert (sent + [t])[..|sent + [t]| - 1] == sent;
  }

  class TimerManager {
    var tick: nat
    /** The priority queue; which of equal timeouts is on top is left open. */
    var timers: multiset<Timer>

    ghost predicate Valid()
      reads this
    {
      SENTINEL in timers
    }

    constructor ()
      ensures Valid() && tick == 0 && timers == multiset{SENTINEL}
    {
      tick, timers := 0, multiset{SENTINEL};
    }

    method AddTimer(timer: Timer)
      requires Valid()
      modifies `timers
      ensures Valid() && timers == old(timers) + multiset{timer}
    {
      timers := timers + multiset{timer};
    }

    method Top() returns (t: Timer)
      requires SENTINEL in timers
      ensures IsTop(t, timers)
    {
      ghost var e := EarliestExists(timers);
      t :| t in timers && forall u :: u in timers ==> t.timeout <= u.timeout;
    }

    method Notify(tasks: TaskManager, t: Timer, ghost was: Sched, ghost sent: seq<Timer>)
      requires tasks.Valid() && Good(was) && tasks.View() == Delivered(was, sent)
      modifies tasks, tasks.tasks
      ensures tasks.Valid() && tasks.tasks == old(tasks.tasks) && tasks.View() == Delivered(was, sent + [t])
    {
      DeliverOne(was, sent, t);
      hide Delivered, Apply, Good, TaskManager.Linked, TaskManager.View;
      var e := tasks.SendMessage(MAIN_ID, TimerTimeout(t.timeout, t.value));
    }

    /** The loop of `Tick`. */
    method SendDue(tasks: TaskManager, ghost before: multiset<Timer>, ghost was: Sched, ghost begin: Ticking)
      returns (expired: bool, ghost sent: seq<Timer>)
      requires SENTINEL in before && tick < ULONG_MAX
      requires UnderWay(before, tick, timers, begin) && begin.renewed == 0 && begin.sent == []
      requires tasks.Valid() && Good(was) && tasks.View() == Delivered(was, [])
      modifies `timers, tasks, tasks.tasks
      ensures SENTINEL in timers && tasks.Valid() && tasks.tasks == old(tasks.tasks)
      ensures Ticks(before, tick, timers, sent, expired) && tasks.View() == Delivered(was, sent)
    {
      hide *;
      expired := false;
      ghost var p := begin;
      while true
        invariant tasks.Valid() && tasks.tasks == old(tasks.tasks) && tasks.View() == Delivered(was, p.sent)
        invariant UnderWay(before, tick, timers, p) && (expired <==> p.renewed > 0)
        decreases Left(p)
      {
        SentinelStays(before, tick, timers, p);
        var t := Top();
        if t.timeout > tick {
          TickEnds(before, tick, timers, p, t);
          break;
        }
        ghost var q := FireStep(before, tick, timers, p, t);
        if t.value == TASK_TIMER_VALUE {
          expired := true;
        } else {
          Notify(tasks, t, was, p.sent);
        }
        timers := Fired(timers, tick, t);
        p := q;
      }
      sent := p.sent;
      SentinelStays(before, tick, timers, p);
    }

    /** The counter must not reach the sentinel's timeout. */
    method Tick(tasks: TaskManager) returns (expired: bool, ghost sent: seq<Timer>)
      requires Valid() && tasks.Valid() && tick + 1 + TASK_TIMER_PERIOD < ULONG_MAX
      modifies this, tasks, tasks.tasks
      ensures Valid() && tasks.Valid() && tasks.tasks == old(tasks.tasks) && tick == old(tick) + 1
      ensures Ticks(old(timers), tick, timers, sent, expired)
      ensures tasks.View() == Delivered(old(tasks.View()), sent)
    {
      hide Delivered, Good, TaskManager.View, TaskManager.Valid, TaskManager.Linked, Ticks, UnderWay, Begin, Part;
      tasks.GoodView();
      DeliverNone(tasks.View());
      TickBegins(timers, tick + 1);
      tick := tick + 1;
      expired, sent := SendDue(tasks, timers, tasks.View(), Begin(timers, tick));
    }
  }

  lemma TickSizes(before: multiset<Timer>, now: nat, after: multiset<Timer>, sent: seq<Timer>, expired: bool)
    requires Ticks(before, now, after, sent, expired)
    ensures |after| + |sent| == |before|
  {
    PartsSum(before, now);
    assert |multiset(sent)| == |sent|;
    CopiesSize(TaskTimer(now + TASK_TIMER_PERIOD), |Part(before, now, Again)|);
    hide Part, Copies;
  }

  lemma TickSent(before: multiset<Timer>, now: nat, after: multiset<Timer>, sent: seq<Timer>, expired: bool, t: Timer)
    requires Ticks(before, now, after, sent, expired) && t in sent
    ensures t.timeout <= now && t.value != TASK_TIMER_VALUE
  {
    assert t in multiset(sent);
  }

  /** After a tick nothing is due, and no timer was lost or added: those taken
      out were sent, each as often as it was there. */
  lemma TickExact(before: multiset<Timer>, now: nat, after: multiset<Timer>, sent: seq<Timer>, expired: bool)
    requires Ticks(before, now, after, sent, expired)
    ensures forall t :: t in after ==> t.timeout > now
    ensures |after| + |sent| == |before|
    ensures forall t: Timer :: t.value != TASK_TIMER_VALUE ==> before[t] == after[t] + multiset(sent)[t]
    ensures forall t :: t in sent ==> t.timeout <= now && t.value != TASK_TIMER_VALUE
  {
    TickSizes(before, now, after, sent, expired);
    forall t | t in sent
      ensures t.timeout <= now && t.value != TASK_TIMER_VALUE
    {
      TickSent(before, now, after, sent, expired, t);
    }
  }

  lemma CopiesSize(t: Timer, n: nat)
    ensures |Copies(t, n)| == n
  {
  }

  /** There is one task timer, due within a period. */
  ghost predicate OneTaskTimer(m: multiset<Timer>, tick: nat, due: nat) {
    && tick < due <= tick + TASK_TIMER_PERIOD
    && forall t: Timer :: t.value == TASK_TIMER_VALUE ==> m[t] == if t.timeout == due then 1 else 0
  }

  /** A tick keeps exactly one task timer; it expires exactly when it is due. */
  lemma TaskTimerStays(
    before: multiset<Timer>, now: nat, after: multiset<Timer>, sent: seq<Timer>, expired: bool, due: nat)
    requires now > 0 && OneTaskTimer(before, now - 1, due) && Ticks(before, now, after, sent, expired)
    ensures expired <==> due == now
    ensures OneTaskTimer(after, now, if expired then now + TASK_TIMER_PERIOD else due)
  {
    var again := Part(before, now, Again);
    if due == now {
      assert again == multiset{TaskTimer(due)};
    } else {
      assert again == multiset{};
    }
  }

  lemma AddTimerStays(m: multiset<Timer>, tick: nat, due: nat, t: Timer)
    requires OneTaskTimer(m, tick, due) && t.value != TASK_TIMER_VALUE
    ensures OneTaskTimer(m + multiset{t}, tick, due)
  {
  }

  /** `LAPICTimerOnInterrupt`. */
  method TimerInterrupt(timers: TimerManager, tasks: TaskManager) returns (expired: bool, ghost sent: seq<Timer>)
    requires timers.Valid() && tasks.Valid() && timers.tick + 1 + TASK_TIMER_PERIOD < ULONG_MAX
    modifies timers, tasks, tasks.tasks
    ensures timers.Valid() && tasks.Valid() && timers.tick == old(timers.tick) + 1
    ensures Ticks(old(timers.timers), timers.tick, timers.timers, sent, expired)
    ensures
      var s := Delivered(old(tasks.View()), sent);
      tasks.View() == if expired then Switched(s, false) else s
  {
    hide TaskManager.View, TaskManager.Linked, Ticks, Delivered, Switched, Good;
    tasks.GoodView();
    expired, sent := timers.Tick(tasks);
    if expired {
      tasks.Preempt();
    }
  }
}
