/** Tasks, interrupts and the interrupt flag together: the receive-or-sleep loop
    (kernel/main.cpp, kernel/terminal.cpp) against the timer and the USB
    controller's interrupts (kernel/timer.cpp, kernel/interrupt.cpp). */
module Kernels {
  import opened Wrappers
  import opened Scheduler
  import opened Timers

  /** Where a task is: it found its mailbox empty and is about to sleep, it was
      switched away from inside the timer interrupt, or anywhere else. */
  datatype Pc = Working | Empty | Handler

  /** `iflag` is the processor's interrupt flag, `saved` the flag in each task's
      context. `sent` and `received` are the histories of each mailbox. */
  datatype Kernel = Kernel(
    sched: Sched, timers: multiset<Timer>, tick: nat, iflag: bool, saved: seq<bool>, pcs: seq<Pc>,
    sent: seq<seq<Message>>, received: seq<seq<Message>>)
  {
    ghost predicate Shape() {
      && Good(sched) && |saved| == |pcs| == |sent| == |received| == |sched.tasks|
    }

    function Pc(id: nat): Pc
      requires 1 <= id <= |pcs|
    {
      pcs[id - 1]
    }

    function Log(id: nat, ms: seq<Message>): Kernel
      requires 1 <= id <= |sent|
    {
      this.(sent := sent[id - 1 := sent[id - 1] + ms])
    }

    function Goto(id: nat, pc: Pc): Kernel
      requires 1 <= id <= |pcs|
    {
      this.(pcs := pcs[id - 1 := pc])
    }
  }

  /** Steps of the current task, and interrupts. `Tick` says in which order the
      timer interrupt sends and what it leaves in the heap. */
  datatype Event =
    | Cli | Sti | Receive | Sleep | Send(id: nat, m: Message) | NewTask | Wake(id: nat, level: int) | AddTimer(t: Timer)
    | Tick(sent: seq<Timer>, after: multiset<Timer>, expired: bool) | Usb | InterruptReturn

  predicate OfTask(e: Event) {
    e.Cli? || e.Sti? || e.Receive? || e.Send? || e.NewTask? || e.Wake? || e.AddTimer?
  }

  ghost predicate Enabled(k: Kernel, e: Event)
    requires k.Shape()
  {
    CurrentFacts(k.sched);
    var id := k.sched.Current();
    && (OfTask(e) ==> k.Pc(id) == Working)
    && match e
       case Receive => !k.iflag && id != IDLE_ID
       case Sleep => k.Pc(id) == Empty && id != IDLE_ID
       case Wake(_, level) => level <= MAX_LEVEL
       case AddTimer(t) => t.value != TASK_TIMER_VALUE
       case Tick(sent, after, expired) =>
         k.iflag && k.tick + 1 + TASK_TIMER_PERIOD < ULONG_MAX && Ticks(k.timers, k.tick + 1, after, sent, expired)
       case Usb => k.iflag
       case InterruptReturn => k.Pc(id) == Handler
       case _ => true
  }

  /** The context switch to the task that the scheduler picked: the flag goes
      with the context. */
  ghost function SwitchTo(k: Kernel, s: Sched): Kernel
    requires k.Shape() && Good(s) && |s.tasks| == |k.sched.tasks|
  {
    CurrentFacts(k.sched);
    CurrentFacts(s);
    var saved := k.saved[k.sched.Current() - 1 := k.iflag];
    k.(sched := s, saved := saved, iflag := saved[s.Current() - 1])
  }

  function Texts(sent: seq<Timer>): (r: seq<Message>)
    ensures |r| == |sent| && forall i :: 0 <= i < |sent| ==> r[i] == TimerTimeout(sent[i].timeout, sent[i].value)
  {
    seq(|sent|, i requires 0 <= i < |sent| => TimerTimeout(sent[i].timeout, sent[i].value))
  }

  /** The flag is cleared on entry to an interrupt handler. A handler that does
      not switch tasks runs to its end, which restores the flag. */
  ghost function Next(k: Kernel, e: Event): Kernel
    requires k.Shape() && Enabled(k, e)
  {
    CurrentFacts(k.sched);
    var s, id := k.sched, k.sched.Current();
    match e
    case Cli => k.(iflag := false)
    case Sti => k.(iflag := true)
    case Receive =>
      var msgs := s.TaskAt(id).msgs;
      if msgs == [] then k.Goto(id, Empty)
      else k.(sched := Received(s, id), received := k.received[id - 1 := k.received[id - 1] + [msgs[0]]])
    case Sleep =>
      SleepKeeps(s, id);
      SleepEffect(s);
      SwitchTo(k.Goto(id, Working), Slept(s, id))
    case Send(to, m) => if s.Known(to) then k.(sched := Sent(s, to, m)).Log(to, [m]) else k
    case NewTask =>
      k.(sched := Added(s), saved := k.saved + [true], pcs := k.pcs + [Working],
         sent := k.sent + [[]], received := k.received + [[]])
    case Wake(other, level) => if s.Known(other) then k.(sched := Woken(s, other, level)) else k
    case AddTimer(t) => k.(timers := k.timers + multiset{t})
    case Tick(sent, after, expired) =>
      DeliverEffect(s, sent);
      var m := k.(tick := k.tick + 1, timers := after, sched := Delivered(s, sent)).Log(MAIN_ID, Texts(sent));
      if expired then
        SwitchKeeps(m.sched);
        SwitchTo(m.(iflag := false).Goto(id, Handler), Switched(m.sched, false))
      else m
    case Usb => k.(sched := Sent(s, MAIN_ID, InterruptXHCI)).Log(MAIN_ID, [InterruptXHCI])
    case InterruptReturn => k.(iflag := true).Goto(id, Working)
  }

  // What the scheduler's operations do to mailboxes and to the current task

  lemma SendEffect(s: Sched, id: nat, m: Message)
    requires Good(s) && s.Known(id)
    ensures
      var r := Sent(s, id, m);
      && Good(r) && |r.tasks| == |s.tasks| && r.Current() == s.Current() && r.current == s.current
      && r.TaskAt(id).running && r.TaskAt(id).msgs == s.TaskAt(id).msgs + [m]
      && (forall i :: 0 <= i < |s.tasks| && i != id - 1 ==> r.tasks[i] == s.tasks[i])
      && forall lv :: 0 <= lv <= MAX_LEVEL ==> s.queues[lv] <= r.queues[lv]
  {
    SendKeeps(s, id, m);
    hide Placed;
  }

  lemma {:induction false} DeliverEffect(s: Sched, sent: seq<Timer>)
    requires Good(s)
    ensures
      var r := Delivered(s, sent);
      && |r.tasks| == |s.tasks| && r.Current() == s.Current() && r.current == s.current
      && s.Known(MAIN_ID) && r.TaskAt(MAIN_ID).msgs == s.TaskAt(MAIN_ID).msgs + Texts(sent)
      && r.TaskAt(MAIN_ID).running == (s.TaskAt(MAIN_ID).running || sent != [])
      && (forall i :: 0 < i < |s.tasks| ==> r.tasks[i] == s.tasks[i])
      && forall lv :: 0 <= lv <= MAX_LEVEL ==> s.queues[lv] <= r.queues[lv]
  {
    hide Placed, Sent;
    if sent != [] {
      var last := sent[|sent| - 1];
      DeliverEffect(s, sent[..|sent| - 1]);
      var m := Delivered(s, sent[..|sent| - 1]);
      SendEffect(m, MAIN_ID, TimerTimeout(last.timeout, last.value));
      assert Texts(sent) == Texts(sent[..|sent| - 1]) + [TimerTimeout(last.timeout, last.value)];
    }
  }

  lemma SleepEffect(s: Sched)
    requires Good(s) && s.Known(s.Current())
    ensures
      var r := Slept(s, s.Current());
      && |r.tasks| == |s.tasks|
      && (forall i :: 0 <= i < |s.tasks| ==> r.tasks[i].msgs == s.tasks[i].msgs)
      && (forall i :: 0 <= i < |s.tasks| && i != s.Current() - 1 ==> r.tasks[i] == s.tasks[i])
  {
    CurrentFacts(s);
    hide Placed, Highest;
  }

  lemma LevelTasks(s: Sched, id: nat, level: int)
    requires s.Shape() && s.Known(id) && level <= MAX_LEVEL
    ensures LevelChanged(s, id, level).tasks ==
      if level < 0 then s.tasks else s.tasks[id - 1 := s.TaskAt(id).(level := level)]
  {
  }

  lemma LevelHead(s: Sched, id: nat, level: int)
    requires Good(s) && s.Known(id) && level <= MAX_LEVEL && LevelChanged(s, id, level).Shape()
    ensures LevelChanged(s, id, level).Current() == s.Current()
  {
    hide Placed;
    var q := s.queues[s.current];
    assert id != s.Current() ==> Erased(q, id)[0] == s.Current();
    hide Erased;
  }

  lemma LevelEffect(s: Sched, id: nat, level: int)
    requires Good(s) && s.Known(id) && s.TaskAt(id).running && level <= MAX_LEVEL
    ensures
      var r := LevelChanged(s, id, level);
      Good(r) && |r.tasks| == |s.tasks| && r.Current() == s.Current()
      && forall i :: 0 <= i < |s.tasks| ==>
        r.tasks[i].msgs == s.tasks[i].msgs && r.tasks[i].running == s.tasks[i].running
  {
    WakeKeeps(s, id, level);
    assert Good(LevelChanged(s, id, level));
    LevelTasks(s, id, level);
    LevelHead(s, id, level);
    hide Placed, LevelChanged;
  }

  lemma WakeEffect(s: Sched, id: nat, level: int)
    requires Good(s) && s.Known(id) && level <= MAX_LEVEL
    ensures
      var r := Woken(s, id, level);
      && Good(r) && |r.tasks| == |s.tasks| && r.Current() == s.Current()
      && (forall i :: 0 <= i < |s.tasks| ==> r.tasks[i].msgs == s.tasks[i].msgs)
      && (forall i :: 0 <= i < |s.tasks| && s.tasks[i].running ==> r.tasks[i].running)
  {
    WakeKeeps(s, id, level);
    hide Placed, LevelChanged;
    if s.TaskAt(id).running {
      LevelEffect(s, id, level);
    }
  }

  // The invariant

  /** A mailbox holds what was sent to the task and not yet received. */
  ghost predicate Mail(k: Kernel)
    requires k.Shape()
  {
    forall i :: 0 <= i < |k.sent| ==> k.sent[i] == k.received[i] + k.sched.tasks[i].msgs
  }

  ghost predicate Asleep(k: Kernel)
    requires k.Shape()
  {
    forall i :: 0 <= i < |k.sched.tasks| && !k.sched.tasks[i].running ==> k.sched.tasks[i].msgs == []
  }

  /** Interrupts are masked from the look into the mailbox to the switch, and in
      the handler. */
  ghost predicate Masked(k: Kernel)
    requires k.Shape()
  {
    && k.sched.Known(k.sched.Current())
    && (k.iflag ==> k.Pc(k.sched.Current()) == Working)
    && (k.Pc(k.sched.Current()) == Empty ==> k.sched.TaskAt(k.sched.Current()).msgs == [])
    && OthersMasked(k)
  }

  ghost predicate OthersMasked(k: Kernel)
    requires k.Shape()
  {
    forall i :: 0 <= i < |k.pcs| && i != k.sched.Current() - 1 ==>
      k.pcs[i] != Empty && (k.saved[i] ==> k.pcs[i] == Working)
  }

  ghost predicate Inv(k: Kernel) {
    k.Shape() && Mail(k) && Asleep(k) && Masked(k)
  }

  /** After the initial task has set up the task timer. */
  function Boot(): Kernel {
    Kernel(START, multiset{SENTINEL, TaskTimer(TASK_TIMER_PERIOD)}, 0, true, [true, true], [Working, Working],
      [[], []], [[], []])
  }

  lemma BootInv()
    ensures Inv(Boot())
  {
    StartGood();
  }

  lemma SwitchToKeeps(k: Kernel, s: Sched)
    requires k.Shape() && Good(s) && |s.tasks| == |k.sched.tasks| && k.sched.Known(k.sched.Current())
    requires !k.iflag && k.Pc(k.sched.Current()) != Empty && OthersMasked(k)
    ensures SwitchTo(k, s).Shape() && Masked(SwitchTo(k, s))
  {
    CurrentFacts(s);
    hide Good, Sched.Current;
  }

  lemma FlagKeeps(k: Kernel, e: Event)
    requires Inv(k) && Enabled(k, e) && (e.Cli? || e.Sti? || e.AddTimer? || e.InterruptReturn?)
    ensures Inv(Next(k, e))
  {
    CurrentFacts(k.sched);
    hide Good, Sched.Current, Ticks;
  }

  lemma ReceiveKeeps(k: Kernel)
    requires Inv(k) && Enabled(k, Receive)
    ensures Inv(Next(k, Receive))
  {
    CurrentFacts(k.sched);
    var s, id := k.sched, k.sched.Current();
    var msgs := s.TaskAt(id).msgs;
    if msgs != [] {
      MailKeeps(s, id, msgs[1..]);
      assert k.received[id - 1] + msgs == k.received[id - 1] + [msgs[0]] + msgs[1..];
    }
    hide Good, Ticks;
  }

  lemma SleepInv(k: Kernel)
    requires Inv(k) && Enabled(k, Event.Sleep)
    ensures Inv(Next(k, Event.Sleep))
  {
    CurrentFacts(k.sched);
    var s, id := k.sched, k.sched.Current();
    SleepKeeps(s, id);
    SleepEffect(s);
    hide Good, Ticks, Slept, SwitchTo;
    var m := k.Goto(id, Working);
    SwitchToKeeps(m, Slept(s, id));
    assert Next(k, Event.Sleep) == SwitchTo(m, Slept(s, id));
  }

  /** `s` is the scheduler after messages for `to` were appended. */
  ghost predicate Delivers(was: Sched, s: Sched, to: nat, ms: seq<Message>) {
    && Good(was) && Good(s) && |s.tasks| == |was.tasks| && s.Current() == was.Current() && was.Known(to)
    && s.TaskAt(to).msgs == was.TaskAt(to).msgs + ms && (s.TaskAt(to).running || (ms == [] && !was.TaskAt(to).running))
    && forall i :: 0 <= i < |s.tasks| && i != to - 1 ==> s.tasks[i] == was.tasks[i]
  }

  lemma DeliverInv(k: Kernel, s: Sched, to: nat, ms: seq<Message>)
    requires Inv(k) && Delivers(k.sched, s, to, ms)
    requires k.Pc(k.sched.Current()) != Empty
    ensures Inv(k.(sched := s).Log(to, ms))
  {
    hide Good;
    var i := to - 1;
    assert k.sent[i] + ms == k.received[i] + (k.sched.tasks[i].msgs + ms);
  }

  lemma SendInv(k: Kernel, e: Event)
    requires Inv(k) && Enabled(k, e) && (e.Send? || e.Usb?)
    ensures Inv(Next(k, e))
  {
    CurrentFacts(k.sched);
    var to, m := if e.Send? then e.id else MAIN_ID, if e.Send? then e.m else InterruptXHCI;
    if k.sched.Known(to) {
      SendEffect(k.sched, to, m);
      hide Good, Sent, Ticks;
      DeliverInv(k, Sent(k.sched, to, m), to, [m]);
    }
  }

  lemma NewTaskInv(k: Kernel)
    requires Inv(k) && Enabled(k, Event.NewTask)
    ensures Inv(Next(k, Event.NewTask))
  {
    CurrentFacts(k.sched);
    AddKeeps(k.sched);
    hide Good;
  }

  lemma WakeInv(k: Kernel, id: nat, level: int)
    requires Inv(k) && Enabled(k, Event.Wake(id, level))
    ensures Inv(Next(k, Event.Wake(id, level)))
  {
    CurrentFacts(k.sched);
    hide Good, Woken;
    if k.sched.Known(id) {
      WakeEffect(k.sched, id, level);
    }
  }

  /** The timer interrupt without the switch. */
  ghost function Ticked(k: Kernel, sent: seq<Timer>, after: multiset<Timer>): Kernel
    requires k.Shape()
  {
    DeliverEffect(k.sched, sent);
    k.(tick := k.tick + 1, timers := after, sched := Delivered(k.sched, sent)).Log(MAIN_ID, Texts(sent))
  }

  lemma TickedInv(k: Kernel, sent: seq<Timer>, after: multiset<Timer>)
    requires Inv(k) && k.iflag
    ensures Inv(Ticked(k, sent, after)) && Ticked(k, sent, after).sched.Current() == k.sched.Current()
  {
    DeliverEffect(k.sched, sent);
    hide Good, Delivered;
    DeliverInv(k.(tick := k.tick + 1, timers := after), Delivered(k.sched, sent), MAIN_ID, Texts(sent));
  }

  lemma TickInv(k: Kernel, e: Event)
    requires Inv(k) && Enabled(k, e) && e.Tick?
    ensures Inv(Next(k, e))
  {
    TickedInv(k, e.sent, e.after);
    var m := Ticked(k, e.sent, e.after);
    hide Good, Delivered, Ticks, Switched, SwitchTo;
    if e.expired {
      var id := k.sched.Current();
      var q := m.(iflag := false).Goto(id, Handler);
      SwitchKeeps(m.sched);
      SwitchTasks(m.sched);
      SwitchToKeeps(q, Switched(m.sched, false));
      assert Next(k, e) == SwitchTo(q, Switched(m.sched, false));
    }
  }

  lemma SwitchTasks(s: Sched)
    requires Good(s)
    ensures Switched(s, false).tasks == s.tasks
  {
  }

  lemma StepKeeps(k: Kernel, e: Event)
    requires Inv(k) && Enabled(k, e)
    ensures Inv(Next(k, e))
  {
    hide Inv, Next, Enabled;
    match e
    case Cli => FlagKeeps(k, e);
    case Sti => FlagKeeps(k, e);
    case Receive => ReceiveKeeps(k);
    case Sleep => SleepInv(k);
    case Send(_, _) => SendInv(k, e);
    case NewTask => NewTaskInv(k);
    case Wake(id, level) => WakeInv(k, id, level);
    case AddTimer(_) => FlagKeeps(k, e);
    case Tick(_, _, _) => TickInv(k, e);
    case Usb => SendInv(k, e);
    case InterruptReturn => FlagKeeps(k, e);
  }

  /** Where the events lead from `k`, if each is enabled when it happens. */
  ghost function Run(k: Kernel, es: seq<Event>): Option<Kernel> {
    if es == [] then Some(k)
    else
      var m := Run(k, es[..|es| - 1]);
      if m.Some? && m.value.Shape() && Enabled(m.value, es[|es| - 1]) then Some(Next(m.value, es[|es| - 1])) else None
  }

  lemma {:induction false} RunInv(k: Kernel, es: seq<Event>)
    requires Inv(k) && Run(k, es).Some?
    ensures Inv(Run(k, es).value)
  {
    hide Inv, Next, Enabled;
    if es != [] {
      RunInv(k, es[..|es| - 1]);
      StepKeeps(Run(k, es[..|es| - 1]).value, es[|es| - 1]);
    }
  }

  /** What was sent to a task: an interrupt's messages go to the main task. */
  function SentBy(e: Event, to: nat): seq<Message> {
    match e
    case Send(id, m) => if id == to then [m] else []
    case Tick(sent, _, _) => if to == MAIN_ID then Texts(sent) else []
    case Usb => if to == MAIN_ID then [InterruptXHCI] else []
    case _ => []
  }

  /** What the current task takes from its mailbox. */
  ghost function TakenBy(k: Kernel, e: Event, id: nat): seq<Message>
    requires k.Shape()
  {
    CurrentFacts(k.sched);
    var msgs := k.sched.TaskAt(k.sched.Current()).msgs;
    if e.Receive? && id == k.sched.Current() && msgs != [] then [msgs[0]] else []
  }

  ghost predicate HistoriesStep(k: Kernel, e: Event, r: Kernel) {
    && k.Shape() && |k.sent| <= |r.sent| && |k.received| <= |r.received|
    && forall i :: 0 <= i < |k.sent| ==>
      r.sent[i] == k.sent[i] + SentBy(e, i + 1) && r.received[i] == k.received[i] + TakenBy(k, e, i + 1)
  }

  lemma TickHistories(k: Kernel, e: Event)
    requires Inv(k) && Enabled(k, e) && e.Tick?
    ensures HistoriesStep(k, e, Next(k, e))
  {
    hide Good, Delivered, Ticks, Switched, Mail, Asleep, Masked, Placed;
    if e.expired {
      DeliverEffect(k.sched, e.sent);
      SwitchKeeps(Ticked(k, e.sent, e.after).sched);
    }
  }

  lemma SleepHistories(k: Kernel)
    requires Inv(k) && Enabled(k, Event.Sleep)
    ensures HistoriesStep(k, Event.Sleep, Next(k, Event.Sleep))
  {
    hide Good, Slept, Mail, Asleep, Masked;
  }

  lemma SendHistories(k: Kernel, e: Event)
    requires Inv(k) && Enabled(k, e) && (e.Send? || e.Usb?)
    ensures HistoriesStep(k, e, Next(k, e))
  {
    CurrentFacts(k.sched);
    hide Good, Sent, Received, Mail, Asleep, Masked, Sched.Current, Ticks;
  }

  lemma ReceiveHistories(k: Kernel, e: Event)
    requires Inv(k) && Enabled(k, e) && e.Receive?
    ensures HistoriesStep(k, e, Next(k, e))
  {
    CurrentFacts(k.sched);
    hide Good, Sent, Received, Mail, Asleep, Masked, Sched.Current, Ticks;
  }

  lemma OtherHistories(k: Kernel, e: Event)
    requires Inv(k) && Enabled(k, e) && !e.Tick? && !e.Sleep? && !e.Send? && !e.Usb? && !e.Receive?
    ensures HistoriesStep(k, e, Next(k, e))
  {
    CurrentFacts(k.sched);
    hide Good, Added, Woken, Mail, Asleep, Masked, Sched.Current, Ticks;
  }

  /** The histories are what the events say: messages are appended by senders
      and taken from the front by their task. */
  lemma StepHistories(k: Kernel, e: Event)
    requires Inv(k) && Enabled(k, e)
    ensures HistoriesStep(k, e, Next(k, e))
  {
    hide *;
    if e.Tick? {
      TickHistories(k, e);
    } else if e.Sleep? {
      SleepHistories(k);
    } else if e.Send? || e.Usb? {
      SendHistories(k, e);
    } else if e.Receive? {
      ReceiveHistories(k, e);
    } else {
      OtherHistories(k, e);
    }
  }

  /** In every reachable state a sleeping task has an empty mailbox, and what a
      task has received is a prefix of what was sent to it, the rest being in
      its mailbox. */
  lemma NoLostWakeup(es: seq<Event>, id: nat)
    requires Run(Boot(), es).Some? && 1 <= id <= |Run(Boot(), es).value.sched.tasks|
    ensures
      var k := Run(Boot(), es).value;
      && k.Shape()
      && (!k.sched.TaskAt(id).running ==> k.sched.TaskAt(id).msgs == [])
      && k.received[id - 1] <= k.sent[id - 1]
      && k.sent[id - 1] == k.received[id - 1] + k.sched.TaskAt(id).msgs
  {
    BootInv();
    RunInv(Boot(), es);
    hide Run, Good;
  }
}
