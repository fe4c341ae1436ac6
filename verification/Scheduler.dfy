/** The state of the task manager as a value, and what its operations do to it
    (kernel/task.hpp, kernel/task.cpp). */
module Scheduler {

  const MAX_LEVEL := 3
  const DEFAULT_LEVEL := 1
  const MAIN_ID := 1
  const IDLE_ID := 2

  datatype Message =
    | InterruptXHCI
    | TimerTimeout(timeout: nat, value: int)
    | KeyPush(modifier: nat, keycode: nat, ascii: char)
    | LayerRequest(srcTask: nat, layerId: nat, x: int, y: int, w: int, h: int)
    | LayerFinish

  datatype TaskState = TaskState(level: nat, running: bool, msgs: seq<Message>)

  /** A task is known by its id; ids count from 1. A run queue lists ids. */
  datatype Sched = Sched(tasks: seq<TaskState>, queues: seq<seq<nat>>, current: nat, changed: bool) {
    predicate Known(id: nat) {
      1 <= id <= |tasks|
    }

    function TaskAt(id: nat): TaskState
      requires Known(id)
    {
      tasks[id - 1]
    }

    ghost predicate Shape() {
      && |queues| == MAX_LEVEL + 1 && current <= MAX_LEVEL && queues[current] != []
      && forall i :: 0 <= i < |tasks| ==> tasks[i].level <= MAX_LEVEL
    }

    function Current(): nat
      requires Shape()
    {
      queues[current][0]
    }

    function SetTask(id: nat, t: TaskState): (r: Sched)
      requires Known(id)
      ensures Shape() && t.level <= MAX_LEVEL ==> r.Shape()
    {
      this.(tasks := tasks[id - 1 := t])
    }

    function SetQueue(lv: nat, q: seq<nat>): Sched
      requires lv < |queues|
    {
      this.(queues := queues[lv := q])
    }
  }

  /** `q` without `id`. */
  function Erased(q: seq<nat>, id: nat): (r: seq<nat>)
    ensures multiset(r) == multiset(q)[id := 0]
    ensures |r| <= |q|
  {
    if q == [] then []
    else
      assert q == [q[0]] + q[1..];
      (if q[0] == id then [] else [q[0]]) + Erased(q[1..], id)
  }

  // Operations

  /** The highest level below `top` with a task in its queue. */
  function Highest(queues: seq<seq<nat>>, top: nat, otherwise: nat): (lv: nat)
    requires top <= |queues|
    ensures forall k :: lv < k < top ==> queues[k] == []
    ensures (exists k :: 0 <= k < top && queues[k] != []) ==> lv < top && queues[lv] != []
    ensures (forall k :: 0 <= k < top ==> queues[k] == []) ==> lv == otherwise
  {
    if top == 0 then otherwise
    else if queues[top - 1] != [] then top - 1
    else Highest(queues, top - 1, otherwise)
  }

  /** The head of the current queue goes to its back, or away. */
  function Rotated(s: Sched, sleep: bool): (r: seq<seq<nat>>)
    requires s.Shape()
    ensures |r| == |s.queues|
  {
    s.queues[s.current := s.queues[s.current][1..] + (if sleep then [] else [s.Current()])]
  }

  function Switched(s: Sched, sleep: bool): Sched
    requires s.Shape()
  {
    var r := s.(queues := Rotated(s, sleep));
    if s.changed || r.queues[s.current] == [] then
      r.(changed := false, current := Highest(r.queues, MAX_LEVEL + 1, s.current))
    else r
  }

  function Slept(s: Sched, id: nat): Sched
    requires s.Shape() && s.Known(id)
  {
    if !s.TaskAt(id).running then s
    else
      var r := s.SetTask(id, s.TaskAt(id).(running := false));
      if id == s.Current() then Switched(r, true)
      else
        var lv := s.TaskAt(id).level;
        r.SetQueue(lv, Erased(s.queues[lv], id))
  }

  function LevelChanged(s: Sched, id: nat, level: int): Sched
    requires s.Shape() && s.Known(id) && level <= MAX_LEVEL
  {
    var was := s.TaskAt(id).level;
    if level < 0 || level == was then s
    else if id != s.Current() then
      var r := s.SetQueue(was, Erased(s.queues[was], id));
      r.SetQueue(level, r.queues[level] + [id]).SetTask(id, s.TaskAt(id).(level := level)).(
        changed := s.changed || level > s.current)
    else
      var r := s.SetQueue(s.current, s.queues[s.current][1..]);
      r.SetQueue(level, [id] + r.queues[level]).SetTask(id, s.TaskAt(id).(level := level)).(
        current := level, changed := s.changed || level < s.current)
  }

  function Woken(s: Sched, id: nat, level: int): Sched
    requires s.Shape() && s.Known(id) && level <= MAX_LEVEL
  {
    if s.TaskAt(id).running then LevelChanged(s, id, level)
    else
      var lv := if level < 0 then s.TaskAt(id).level else level;
      s.SetTask(id, s.TaskAt(id).(level := lv, running := true)).SetQueue(lv, s.queues[lv] + [id]).(
        changed := s.changed || lv > s.current)
  }

  function Sent(s: Sched, id: nat, m: Message): Sched
    requires s.Shape() && s.Known(id)
  {
    Woken(s.SetTask(id, s.TaskAt(id).(msgs := s.TaskAt(id).msgs + [m])), id, -1)
  }

  function Received(s: Sched, id: nat): Sched
    requires s.Known(id) && s.TaskAt(id).msgs != []
  {
    s.SetTask(id, s.TaskAt(id).(msgs := s.TaskAt(id).msgs[1..]))
  }

  function Added(s: Sched): Sched {
    s.(tasks := s.tasks + [TaskState(DEFAULT_LEVEL, false, [])])
  }

  // The invariant

  /** How often a task must occur in the queue of a level. */
  function Places(s: Sched, lv: nat, id: nat): nat {
    if s.Known(id) && s.TaskAt(id).running && s.TaskAt(id).level == lv then 1 else 0
  }

  /** A task is marked running iff it is in the queue of its own level, once,
      and in no other. */
  ghost predicate Placed(s: Sched)
    requires |s.queues| == MAX_LEVEL + 1
  {
    forall lv: nat, id: nat :: lv <= MAX_LEVEL ==> multiset(s.queues[lv])[id] == Places(s, lv, id)
  }

  ghost predicate Sane(s: Sched) {
    && s.Shape() && Placed(s)
    && (!s.changed ==> forall lv :: s.current < lv <= MAX_LEVEL ==> s.queues[lv] == [])
  }

  ghost predicate Good(s: Sched) {
    Sane(s) && s.Known(IDLE_ID) && s.TaskAt(IDLE_ID).running
  }

  const START := Sched(
    [TaskState(MAX_LEVEL, true, []), TaskState(0, true, [])], [[IDLE_ID], [], [], [MAIN_ID]], MAX_LEVEL, false)

  /** Before the first task is made. */
  const EMPTY := Sched([], [[], [], [], []], MAX_LEVEL, false)

  /** `r` is `s` with a new task running at a level. */
  function Launched(s: Sched, level: nat): Sched
    requires level < |s.queues|
  {
    var id := |s.tasks| + 1;
    Added(s).SetTask(id, TaskState(level, true, [])).SetQueue(level, s.queues[level] + [id])
  }

  lemma StartSteps()
    ensures Launched(Launched(EMPTY, MAX_LEVEL), 0) == START
  {
    assert [] + [MAIN_ID] == [MAIN_ID] && [] + [IDLE_ID] == [IDLE_ID];
  }

  lemma StartGood()
    ensures Good(START)
  {
    forall lv: nat, id: nat | lv <= MAX_LEVEL
      ensures multiset(START.queues[lv])[id] == Places(START, lv, id)
    {
      if lv == 0 { assert START.queues[lv] == [IDLE_ID]; }
      else if lv == 3 { assert START.queues[lv] == [MAIN_ID]; }
    }
  }

  /** Where the running task at the front of a queue is. */
  lemma InQueue(s: Sched, lv: nat, i: nat)
    requires Sane(s) && lv <= MAX_LEVEL && i < |s.queues[lv]|
    ensures
      var id := s.queues[lv][i];
      s.Known(id) && s.TaskAt(id).running && s.TaskAt(id).level == lv
  {
    var id := s.queues[lv][i];
    assert multiset(s.queues[lv])[id] > 0;
    assert multiset(s.queues[lv])[id] == Places(s, lv, id);
  }

  lemma HeadFacts(s: Sched)
    requires Sane(s)
    ensures s.Known(s.Current()) && s.TaskAt(s.Current()).running && s.TaskAt(s.Current()).level == s.current
    ensures multiset(s.queues[s.current][1..]) == multiset(s.queues[s.current])[s.Current() := 0]
  {
    InQueue(s, s.current, 0);
    var q := s.queues[s.current];
    assert q == [q[0]] + q[1..];
    assert multiset(q)[q[0]] == Places(s, s.current, q[0]);
  }

  lemma CurrentFacts(s: Sched)
    requires Good(s)
    ensures s.Known(s.Current()) && s.TaskAt(s.Current()).running && s.TaskAt(s.Current()).level == s.current
    ensures multiset(s.queues[s.current][1..]) == multiset(s.queues[s.current])[s.Current() := 0]
  {
    HeadFacts(s);
  }

  /** After `SwitchTask` the current task heads the highest level that has a
      task; the queue was rotated, or lost its sleeping head, and no other queue
      changed. */
  lemma SwitchPicks(s: Sched, sleep: bool)
    requires s.Shape() && (!s.changed ==> forall lv :: s.current < lv <= MAX_LEVEL ==> s.queues[lv] == [])
    requires exists lv :: 0 <= lv <= MAX_LEVEL && Rotated(s, sleep)[lv] != []
    ensures
      var r := Switched(s, sleep);
      && r.Shape() && !r.changed
      && forall lv :: r.current < lv <= MAX_LEVEL ==> r.queues[lv] == []
  {
  }

  /** A switch moves the current task to the back of its queue, or takes it out if
      it sleeps, and nothing else. */
  lemma SwitchQueues(s: Sched, sleep: bool)
    requires s.Shape()
    ensures
      var r := Switched(s, sleep);
      && r.tasks == s.tasks && !r.changed && |r.queues| == |s.queues|
      && r.queues[s.current] == s.queues[s.current][1..] + (if sleep then [] else [s.Current()])
      && forall lv :: 0 <= lv < |s.queues| && lv != s.current ==> r.queues[lv] == s.queues[lv]
  {
    hide Highest;
  }

  /** The current task going to sleep leaves its queue, and nothing else moves. */
  lemma SleepQueues(s: Sched)
    requires Good(s) && s.Known(s.Current())
    ensures
      var r := Slept(s, s.Current());
      && r.tasks == s.tasks[s.Current() - 1 := s.TaskAt(s.Current()).(running := false)]
      && !r.changed && |r.queues| == |s.queues| && r.queues[s.current] == s.queues[s.current][1..]
      && forall lv :: 0 <= lv < |s.queues| && lv != s.current ==> r.queues[lv] == s.queues[lv]
  {
    CurrentFacts(s);
    SwitchQueues(s.SetTask(s.Current(), s.TaskAt(s.Current()).(running := false)), true);
    assert s.queues[s.current][1..] + [] == s.queues[s.current][1..];
    hide Placed, Switched;
  }

  lemma SwitchKeeps(s: Sched)
    requires Good(s)
    ensures Good(Switched(s, false))
  {
    HeadFacts(s);
    assert Rotated(s, false)[s.current] != [];
    SwitchPicks(s, false);
    var r := Switched(s, false);
    var q := s.queues[s.current];
    assert multiset(q[1..] + [q[0]]) == multiset(q) by { assert q == [q[0]] + q[1..]; }
    forall lv: nat, id: nat | lv <= MAX_LEVEL
      ensures multiset(r.queues[lv])[id] == Places(r, lv, id)
    {
      assert multiset(s.queues[lv])[id] == Places(s, lv, id);
    }
  }

  /** Only `id` moves. */
  ghost predicate Moves(s: Sched, r: Sched, id: nat) {
    && s.Shape() && |r.queues| == |s.queues| && |r.tasks| == |s.tasks| && s.Known(id)
    && (forall k :: s.Known(k) && k != id ==> r.TaskAt(k) == s.TaskAt(k))
    && forall lv: nat :: lv <= MAX_LEVEL ==>
      multiset(r.queues[lv]) == multiset(s.queues[lv])[id := Places(r, lv, id)]
  }

  lemma MovesPlaced(s: Sched, r: Sched, id: nat)
    requires |s.queues| == MAX_LEVEL + 1 && Placed(s) && Moves(s, r, id)
    ensures Placed(r)
  {
    forall lv: nat, k: nat | lv <= MAX_LEVEL
      ensures multiset(r.queues[lv])[k] == Places(r, lv, k)
    {
      assert multiset(s.queues[lv])[k] == Places(s, lv, k);
    }
  }

  lemma SleepOtherMoves(s: Sched, id: nat)
    requires Sane(s) && s.Known(id) && s.TaskAt(id).running && id != s.Current()
    ensures Moves(s, Slept(s, id), id)
  {
    var r := Slept(s, id);
    forall lv: nat | lv <= MAX_LEVEL
      ensures multiset(r.queues[lv]) == multiset(s.queues[lv])[id := Places(r, lv, id)]
    {
      assert multiset(s.queues[lv])[id] == Places(s, lv, id);
    }
  }

  /** The current queue keeps its head when another task moves. */
  lemma HeadStays(s: Sched, r: Sched, id: nat)
    requires Sane(s) && Moves(s, r, id) && id != s.Current() && r.current == s.current
    ensures r.queues[r.current] != []
  {
    hide Placed;
    assert s.Current() in multiset(s.queues[s.current]);
    assert s.Current() in multiset(r.queues[s.current]);
  }

  lemma SleepOther(s: Sched, id: nat)
    requires Sane(s) && s.Known(id) && s.TaskAt(id).running && id != s.Current()
    ensures Sane(Slept(s, id))
  {
    SleepOtherMoves(s, id);
    MovesPlaced(s, Slept(s, id), id);
    HeadStays(s, Slept(s, id), id);
    hide Placed, Moves;
  }

  /** Another task that runs is left in its queue. */
  lemma OtherStays(s: Sched, k: nat)
    requires Sane(s) && s.Known(k) && s.TaskAt(k).running && k != s.Current()
    ensures Rotated(s, true)[s.TaskAt(k).level] != []
  {
    HeadFacts(s);
    var lv := s.TaskAt(k).level;
    assert multiset(s.queues[lv])[k] == Places(s, lv, k);
    assert s.queues[s.current][1..] + [] == s.queues[s.current][1..];
    assert k in multiset(Rotated(s, true)[lv]);
  }

  lemma AnotherStays(s: Sched)
    requires Sane(s) && exists k :: k != s.Current() && s.Known(k) && s.TaskAt(k).running
    ensures exists lv :: 0 <= lv <= MAX_LEVEL && Rotated(s, true)[lv] != []
  {
    var k :| k != s.Current() && s.Known(k) && s.TaskAt(k).running;
    OtherStays(s, k);
    assert s.TaskAt(k).level <= MAX_LEVEL;
  }

  lemma SleepCurrentMoves(s: Sched)
    requires Sane(s) && s.Known(s.Current()) && s.TaskAt(s.Current()).running
      && s.TaskAt(s.Current()).level == s.current
    ensures Moves(s, Slept(s, s.Current()), s.Current())
  {
    HeadFacts(s);
    var id := s.Current();
    var r := Slept(s, id);
    assert s.queues[s.current][1..] + [] == s.queues[s.current][1..];
    forall lv: nat | lv <= MAX_LEVEL
      ensures multiset(r.queues[lv]) == multiset(s.queues[lv])[id := Places(r, lv, id)]
    {
      assert multiset(s.queues[lv])[id] == Places(s, lv, id);
    }
  }

  /** When the current task goes to sleep and another is left, the highest of
      those goes on. */
  lemma SleepCurrent(s: Sched, k: nat)
    requires Sane(s) && s.Known(k) && s.TaskAt(k).running && k != s.Current()
    ensures s.Known(s.Current()) && Sane(Slept(s, s.Current()))
  {
    HeadFacts(s);
    SleepCurrentMoves(s);
    MovesPlaced(s, Slept(s, s.Current()), s.Current());
    OtherStays(s, k);
    hide Placed, Moves, Highest;
    var id := s.Current();
    var m := s.SetTask(id, s.TaskAt(id).(running := false));
    assert Rotated(m, true) == Rotated(s, true);
    SwitchPicks(m, true);
  }

  /** Putting a task to sleep leaves a task to go on with exactly when another
      one runs. */
  lemma SleepExact(s: Sched, id: nat)
    requires Sane(s) && s.Known(id) && s.TaskAt(id).running
    ensures Sane(Slept(s, id)) <==> exists k :: k != id && s.Known(k) && s.TaskAt(k).running
  {
    hide Slept, Placed;
    if k :| k != id && s.Known(k) && s.TaskAt(k).running {
      if id == s.Current() {
        SleepCurrent(s, k);
      } else {
        SleepOther(s, id);
      }
    }
    if Sane(Slept(s, id)) {
      HeadFacts(Slept(s, id));
      SleptTasks(s, id);
      var k := Slept(s, id).Current();
      assert k != id && s.Known(k) && s.TaskAt(k).running;
    }
  }

  /** Right after the start the idle task may go to sleep, but then the main task
      may not. */
  lemma IdleFirst()
    ensures Sane(Slept(START, IDLE_ID)) && Slept(START, IDLE_ID).TaskAt(MAIN_ID).running
    ensures !Sane(Slept(Slept(START, IDLE_ID), MAIN_ID))
  {
    StartGood();
    SleepExact(START, IDLE_ID);
    SleptTasks(START, IDLE_ID);
    SleepExact(Slept(START, IDLE_ID), MAIN_ID);
  }

  lemma SleptTasks(s: Sched, id: nat)
    requires s.Shape() && s.Known(id)
    ensures Slept(s, id).tasks == s.tasks[id - 1 := s.TaskAt(id).(running := false)]
  {
  }

  /** The idle task always runs, so others may sleep. */
  lemma SleepKeeps(s: Sched, id: nat)
    requires Good(s) && s.Known(id) && id != IDLE_ID
    ensures Good(Slept(s, id))
  {
    hide Slept, Placed;
    if !s.TaskAt(id).running {
      SleepNothing(s, id);
    } else {
      SleepExact(s, id);
      SleptTasks(s, id);
    }
  }

  lemma SleepNothing(s: Sched, id: nat)
    requires s.Shape() && s.Known(id) && !s.TaskAt(id).running
    ensures Slept(s, id) == s
  {
  }

  lemma LevelOtherMoves(s: Sched, id: nat, level: nat)
    requires Good(s) && s.Known(id) && s.TaskAt(id).running && level <= MAX_LEVEL
    requires level != s.TaskAt(id).level && id != s.Current()
    ensures Moves(s, LevelChanged(s, id, level), id)
  {
    var r := LevelChanged(s, id, level);
    forall lv: nat | lv <= MAX_LEVEL
      ensures multiset(r.queues[lv]) == multiset(s.queues[lv])[id := Places(r, lv, id)]
    {
      assert multiset(s.queues[lv])[id] == Places(s, lv, id);
    }
  }

  lemma LevelOther(s: Sched, id: nat, level: nat)
    requires Good(s) && s.Known(id) && s.TaskAt(id).running && level <= MAX_LEVEL
    requires level != s.TaskAt(id).level && id != s.Current()
    ensures Good(LevelChanged(s, id, level))
  {
    LevelOtherMoves(s, id, level);
    MovesPlaced(s, LevelChanged(s, id, level), id);
    HeadStays(s, LevelChanged(s, id, level), id);
    hide Placed, Moves;
  }

  lemma LevelCurrentMoves(s: Sched, level: nat)
    requires Good(s) && level <= MAX_LEVEL && s.Known(s.Current()) && level != s.TaskAt(s.Current()).level
    ensures Moves(s, LevelChanged(s, s.Current(), level), s.Current())
  {
    HeadFacts(s);
    var id := s.Current();
    var r := LevelChanged(s, id, level);
    forall lv: nat | lv <= MAX_LEVEL
      ensures multiset(r.queues[lv]) == multiset(s.queues[lv])[id := Places(r, lv, id)]
    {
      assert multiset(s.queues[lv])[id] == Places(s, lv, id);
    }
  }

  lemma LevelCurrent(s: Sched, level: nat)
    requires Good(s) && level <= MAX_LEVEL && s.Known(s.Current()) && level != s.TaskAt(s.Current()).level
    ensures Good(LevelChanged(s, s.Current(), level))
  {
    HeadFacts(s);
    LevelCurrentMoves(s, level);
    MovesPlaced(s, LevelChanged(s, s.Current(), level), s.Current());
    hide Placed, Moves;
  }

  lemma WakeSleeping(s: Sched, id: nat, level: int)
    requires Good(s) && s.Known(id) && !s.TaskAt(id).running && level <= MAX_LEVEL
    ensures Good(Woken(s, id, level))
  {
    var r := Woken(s, id, level);
    forall lv: nat | lv <= MAX_LEVEL
      ensures multiset(r.queues[lv]) == multiset(s.queues[lv])[id := Places(r, lv, id)]
    {
      assert multiset(s.queues[lv])[id] == Places(s, lv, id);
    }
    MovesPlaced(s, r, id);
  }

  lemma WakeKeeps(s: Sched, id: nat, level: int)
    requires Good(s) && s.Known(id) && level <= MAX_LEVEL
    ensures Good(Woken(s, id, level)) && Woken(s, id, level).TaskAt(id).running
  {
    hide Placed;
    if !s.TaskAt(id).running {
      WakeSleeping(s, id, level);
    } else if 0 <= level && level != s.TaskAt(id).level {
      if id == s.Current() {
        LevelCurrent(s, level);
      } else {
        LevelOther(s, id, level);
      }
    }
  }

  // Who goes where

  lemma {:induction false} ErasedNone(q: seq<nat>, id: nat)
    requires id !in q
    ensures Erased(q, id) == q
  {
    if q != [] {
      ErasedNone(q[1..], id);
    }
  }

  lemma ErasedStep(q: seq<nat>, id: nat)
    requires q != []
    ensures Erased(q, id) == (if q[0] == id then [] else [q[0]]) + Erased(q[1..], id)
    ensures multiset(q)[id] == multiset(q[1..])[id] + (if q[0] == id then 1 else 0)
  {
    assert q == [q[0]] + q[1..];
    hide Erased;
  }

  lemma {:induction false} ErasedAt(q: seq<nat>, id: nat) returns (h: nat)
    requires multiset(q)[id] == 1
    ensures h < |q| && q[h] == id && Erased(q, id) == q[..h] + q[h + 1..]
  {
    hide Erased;
    ErasedStep(q, id);
    if q[0] == id {
      h := 0;
      assert id !in multiset(q[1..]);
      ErasedNone(q[1..], id);
      assert [] + q[1..] == q[..0] + q[1..];
    } else {
      h := ErasedAt(q[1..], id);
      assert [q[0]] + (q[1..][..h] + q[1..][h + 1..]) == q[..h + 1] + q[h + 2..];
      h := h + 1;
    }
  }

  /** `r` is `s` but for the queues of two levels. */
  ghost predicate OtherQueues(s: Sched, r: Sched, a: nat, b: nat) {
    |r.queues| == |s.queues| && forall lv :: 0 <= lv < |s.queues| && lv != a && lv != b ==> r.queues[lv] == s.queues[lv]
  }

  /** A task that is not current leaves the queue of its level, where the others
      keep their order. */
  lemma SleepOrder(s: Sched, id: nat) returns (h: nat)
    requires Sane(s) && s.Known(id) && s.TaskAt(id).running && id != s.Current()
    ensures
      var r, lv := Slept(s, id), s.TaskAt(id).level;
      && lv < |s.queues| && OtherQueues(s, r, lv, lv) && h < |s.queues[lv]| && s.queues[lv][h] == id
      && r.queues[lv] == s.queues[lv][..h] + s.queues[lv][h + 1..]
      && r.current == s.current && r.changed == s.changed
      && r.tasks == s.tasks[id - 1 := s.TaskAt(id).(running := false)]
  {
    var lv := s.TaskAt(id).level;
    assert multiset(s.queues[lv])[id] == Places(s, lv, id);
    h := ErasedAt(s.queues[lv], id);
    hide Placed, Erased;
  }

  /** A task that wakes goes to the back of the queue of its level, and a change
      is pending if that is higher than the current one. */
  lemma WakeOrder(s: Sched, id: nat, level: int)
    requires Sane(s) && s.Known(id) && !s.TaskAt(id).running && level <= MAX_LEVEL
    ensures
      var r, lv := Woken(s, id, level), if level < 0 then s.TaskAt(id).level else level;
      && lv < |s.queues| && OtherQueues(s, r, lv, lv) && r.queues[lv] == s.queues[lv] + [id]
      && r.current == s.current && (r.changed <==> s.changed || lv > s.current)
      && r.tasks == s.tasks[id - 1 := TaskState(lv, true, s.TaskAt(id).msgs)]
  {
    hide Placed;
  }

  /** A running task that is not current goes from the queue of its level to the
      back of another's. */
  lemma LevelOrder(s: Sched, id: nat, level: nat) returns (h: nat)
    requires Sane(s) && s.Known(id) && s.TaskAt(id).running && id != s.Current()
    requires level <= MAX_LEVEL && level != s.TaskAt(id).level
    ensures
      var r, lv := Woken(s, id, level), s.TaskAt(id).level;
      && lv < |s.queues| && OtherQueues(s, r, lv, level) && h < |s.queues[lv]| && s.queues[lv][h] == id
      && r.queues[lv] == s.queues[lv][..h] + s.queues[lv][h + 1..] && r.queues[level] == s.queues[level] + [id]
      && r.current == s.current && (r.changed <==> s.changed || level > s.current)
      && r.tasks == s.tasks[id - 1 := TaskState(level, true, s.TaskAt(id).msgs)]
  {
    var lv := s.TaskAt(id).level;
    assert multiset(s.queues[lv])[id] == Places(s, lv, id);
    h := ErasedAt(s.queues[lv], id);
    hide Placed, Erased;
  }

  /** The current task goes to the front of the other queue and stays current; if
      that is a lower one a change is pending. */
  lemma LevelOrderCurrent(s: Sched, level: nat)
    requires Sane(s) && s.Known(s.Current()) && s.TaskAt(s.Current()).running
    requires level <= MAX_LEVEL && level != s.TaskAt(s.Current()).level
    ensures
      var id := s.Current();
      var r := Woken(s, id, level);
      && level != s.current && OtherQueues(s, r, s.current, level)
      && r.queues[s.current] == s.queues[s.current][1..] && r.queues[level] == [id] + s.queues[level]
      && r.current == level && (r.changed <==> s.changed || level < s.current)
      && r.tasks == s.tasks[id - 1 := TaskState(level, true, s.TaskAt(id).msgs)]
  {
    HeadFacts(s);
    hide Placed;
  }

  /** Without another level asked for, a running task stays where it is. */
  lemma WakeNothing(s: Sched, id: nat, level: int)
    requires Sane(s) && s.Known(id) && s.TaskAt(id).running && level <= MAX_LEVEL
    requires level < 0 || level == s.TaskAt(id).level
    ensures Woken(s, id, level) == s
  {
  }

  /** A message goes to the back of the mailbox, and wakes its task at the task's
      own level. */
  lemma SendOrder(s: Sched, id: nat, m: Message)
    requires Sane(s) && s.Known(id)
    ensures
      var r, t := Sent(s, id, m), s.TaskAt(id);
      && t.level < |s.queues| && OtherQueues(s, r, t.level, t.level) && r.current == s.current
      && r.queues[t.level] == s.queues[t.level] + (if t.running then [] else [id])
      && (r.changed <==> s.changed || (!t.running && t.level > s.current))
      && r.tasks == s.tasks[id - 1 := TaskState(t.level, true, t.msgs + [m])]
  {
    hide Placed;
  }

  /** Mailboxes are no concern of the queues. */
  lemma MailKeeps(s: Sched, id: nat, msgs: seq<Message>)
    requires Good(s) && s.Known(id)
    ensures Good(s.SetTask(id, s.TaskAt(id).(msgs := msgs)))
  {
    var r := s.SetTask(id, s.TaskAt(id).(msgs := msgs));
    forall lv: nat, k: nat | lv <= MAX_LEVEL
      ensures multiset(r.queues[lv])[k] == Places(r, lv, k)
    {
      assert multiset(s.queues[lv])[k] == Places(s, lv, k);
    }
  }

  lemma SendKeeps(s: Sched, id: nat, m: Message)
    requires Good(s) && s.Known(id)
    ensures Good(Sent(s, id, m)) && Sent(s, id, m).TaskAt(id).running
    ensures Sent(s, id, m).TaskAt(id).msgs == s.TaskAt(id).msgs + [m]
  {
    MailKeeps(s, id, s.TaskAt(id).msgs + [m]);
    WakeKeeps(s.SetTask(id, s.TaskAt(id).(msgs := s.TaskAt(id).msgs + [m])), id, -1);
  }

  lemma AddKeeps(s: Sched)
    requires Good(s)
    ensures Good(Added(s))
  {
    var r := Added(s);
    forall lv: nat, k: nat | lv <= MAX_LEVEL
      ensures multiset(r.queues[lv])[k] == Places(r, lv, k)
    {
      assert multiset(s.queues[lv])[k] == Places(s, lv, k);
    }
  }

  // Runs

  datatype Op = NewTask | SwitchTask | Sleep(id: nat) | Wakeup(id: nat, level: int) | SendMessage(id: nat, m: Message)
    | ReceiveMessage(id: nat)

  /** The idle task is never put to sleep and levels stay in range. */
  predicate Allowed(op: Op) {
    (op.Sleep? ==> op.id != IDLE_ID) && (op.Wakeup? ==> op.level <= MAX_LEVEL)
  }

  /** An unknown id is an error and changes nothing. */
  function Apply(s: Sched, op: Op): Sched
    requires s.Shape() && Allowed(op)
  {
    match op
    case NewTask => Added(s)
    case SwitchTask => Switched(s, false)
    case Sleep(id) => if s.Known(id) then Slept(s, id) else s
    case Wakeup(id, level) => if s.Known(id) then Woken(s, id, level) else s
    case SendMessage(id, m) => if s.Known(id) then Sent(s, id, m) else s
    case ReceiveMessage(id) => if s.Known(id) && s.TaskAt(id).msgs != [] then Received(s, id) else s
  }

  lemma ApplyKeeps(s: Sched, op: Op)
    requires Good(s) && Allowed(op)
    ensures Good(Apply(s, op))
    ensures op.SwitchTask? ==> forall lv :: Apply(s, op).current < lv <= MAX_LEVEL ==> Apply(s, op).queues[lv] == []
  {
    hide Placed, Slept, Woken, Switched;
    match op
    case NewTask => AddKeeps(s);
    case SwitchTask => SwitchKeeps(s); SwitchNow(s);
    case Sleep(id) => if s.Known(id) { SleepKeeps(s, id); }
    case Wakeup(id, level) => if s.Known(id) { WakeKeeps(s, id, level); }
    case SendMessage(id, m) => if s.Known(id) { SendKeeps(s, id, m); }
    case ReceiveMessage(id) => if s.Known(id) && s.TaskAt(id).msgs != [] { MailKeeps(s, id, s.TaskAt(id).msgs[1..]); }
  }

  lemma SwitchNow(s: Sched)
    requires Good(s)
    ensures !Switched(s, false).changed
  {
    hide Placed;
  }

  ghost function RunOps(s: Sched, ops: seq<Op>): Sched
    requires Good(s) && forall i :: 0 <= i < |ops| ==> Allowed(ops[i])
    ensures Good(RunOps(s, ops))
  {
    if ops == [] then s
    else
      var m := RunOps(s, ops[..|ops| - 1]);
      ApplyKeeps(m, ops[|ops| - 1]);
      Apply(m, ops[|ops| - 1])
  }

  /** After any operations whatever, running means queued once at the own level
      and the current queue has a task; and directly after a switch the current
      task heads the highest level that has one. */
  lemma {:induction false} RunPlaces(ops: seq<Op>, id: nat, lv: nat)
    requires forall i :: 0 <= i < |ops| ==> Allowed(ops[i])
    requires lv <= MAX_LEVEL
    ensures Good(START)
    ensures
      var r := RunOps(START, ops);
      && multiset(r.queues[lv])[id] ==
        (if r.Known(id) && r.TaskAt(id).running && r.TaskAt(id).level == lv then 1 else 0)
      && r.queues[r.current] != []
      && (!r.changed || (ops != [] && ops[|ops| - 1].SwitchTask?) ==> r.current < lv ==> r.queues[lv] == [])
  {
    StartGood();
    var r := RunOps(START, ops);
    assert multiset(r.queues[lv])[id] == Places(r, lv, id);
    if ops != [] {
      ApplyKeeps(RunOps(START, ops[..|ops| - 1]), ops[|ops| - 1]);
    }
  }
}
