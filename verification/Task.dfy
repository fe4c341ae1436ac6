/** Tasks and the task manager (kernel/task.cpp). A context switch is its choice
    of the next task. */
module Tasks {
  import opened Wrappers
  import opened Scheduler

  datatype Error = Success | NoSuchTask

  class Task {
    const id: nat
    var msgs: seq<Message>
    var level: nat
    var running: bool

    constructor (id: nat)
      ensures this.id == id && State() == TaskState(DEFAULT_LEVEL, false, [])
    {
      this.id := id;
      msgs, level, running := [], DEFAULT_LEVEL, false;
    }

    ghost function State(): TaskState
      reads this
    {
      TaskState(level, running, msgs)
    }

    method ReceiveMessage() returns (m: Option<Message>)
      modifies `msgs
      ensures old(msgs) == [] ==> m == None && msgs == []
      ensures old(msgs) != [] ==> m == Some(old(msgs)[0]) && msgs == old(msgs)[1..]
    {
      if |msgs| == 0 {
        return None;
      }
      m := Some(msgs[0]);
      msgs := msgs[1..];
    }
  }

  ghost function States(tasks: seq<Task>): (r: seq<TaskState>)
    reads tasks
    ensures |r| == |tasks| && forall i :: 0 <= i < |r| ==> r[i] == tasks[i].State()
  {
    seq(|tasks|, i requires 0 <= i < |tasks| reads tasks => tasks[i].State())
  }

  ghost function Ids(q: seq<Task>): (r: seq<nat>)
    ensures |r| == |q| && forall i :: 0 <= i < |r| ==> r[i] == q[i].id
  {
    seq(|q|, i requires 0 <= i < |q| => q[i].id)
  }

  ghost function AllIds(queues: seq<seq<Task>>): (r: seq<seq<nat>>)
    ensures |r| == |queues| && forall lv :: 0 <= lv < |r| ==> r[lv] == Ids(queues[lv])
  {
    seq(|queues|, lv requires 0 <= lv < |queues| => Ids(queues[lv]))
  }

  lemma IdsSplit(a: seq<Task>, b: seq<Task>)
    ensures Ids(a + b) == Ids(a) + Ids(b)
  {
  }

  lemma IdsOne(t: Task)
    ensures Ids([t]) == [t.id]
  {
  }

  lemma IdsTail(q: seq<Task>)
    requires q != []
    ensures Ids(q[1..]) == Ids(q)[1..]
  {
  }

  lemma SetIds(queues: seq<seq<Task>>, lv: nat, q: seq<Task>)
    requires lv < |queues|
    ensures AllIds(queues[lv := q]) == AllIds(queues)[lv := Ids(q)]
  {
  }

  lemma ErasedStep(s: seq<nat>, i: nat, id: nat)
    requires i < |s|
    ensures Erased(s[i..], id) == (if s[i] == id then [] else [s[i]]) + Erased(s[i + 1..], id)
  {
    assert s[i..][1..] == s[i + 1..];
  }

  /** Every task of `r` is one of `q`. */
  ghost predicate Among(r: seq<Task>, q: seq<Task>) {
    forall i :: 0 <= i < |r| ==> r[i] in q
  }

  /** `std::remove` and `erase`: the order of the others stays. */
  method Erase(q: seq<Task>, task: Task) returns (r: seq<Task>)
    requires forall i :: 0 <= i < |q| && q[i].id == task.id ==> q[i] == task
    ensures Ids(r) == Erased(Ids(q), task.id) && Among(r, q)
  {
    hide Erased, Among;
    r := [];
    var i := |q|;
    ghost var ids := Ids(q);
    EraseNone(ids, task.id, q);
    while i > 0
      invariant 0 <= i <= |q|
      invariant Ids(r) == Erased(ids[i..], task.id)
      invariant Among(r, q)
    {
      i := i - 1;
      ErasedStep(ids, i, task.id);
      if q[i] != task {
        IdsSplit([q[i]], r);
        IdsOne(q[i]);
        AmongMore(q, i, r);
        hide Ids;
        r := [q[i]] + r;
      }
    }
    assert ids[0..] == ids;
  }

  lemma EraseNone(ids: seq<nat>, id: nat, q: seq<Task>)
    ensures Ids([]) == [] == Erased(ids[|ids|..], id) && Among([], q)
  {
  }

  lemma AmongMore(q: seq<Task>, i: nat, r: seq<Task>)
    requires i < |q| && Among(r, q)
    ensures Among([q[i]] + r, q)
  {
  }

  /** The tasks of a queue are the manager's. */
  ghost predicate Owns(tasks: seq<Task>, q: seq<Task>) {
    forall i :: 0 <= i < |q| ==> 1 <= q[i].id <= |tasks| && tasks[q[i].id - 1] == q[i]
  }

  lemma OwnsParts(tasks: seq<Task>, a: seq<Task>, b: seq<Task>)
    ensures Owns(tasks, a + b) <==> Owns(tasks, a) && Owns(tasks, b)
  {
    if Owns(tasks, a + b) {
      assert forall i :: 0 <= i < |a| ==> a[i] == (a + b)[i];
      assert forall i :: 0 <= i < |b| ==> b[i] == (a + b)[|a| + i];
    }
  }

  /** A task's id occurs in a queue only where the task does. */
  lemma SameId(tasks: seq<Task>, q: seq<Task>, task: Task)
    requires Owns(tasks, q) && 1 <= task.id <= |tasks| && tasks[task.id - 1] == task
    ensures forall i :: 0 <= i < |q| && q[i].id == task.id ==> q[i] == task
  {
  }

  lemma AmongOwns(tasks: seq<Task>, r: seq<Task>, q: seq<Task>)
    requires Owns(tasks, q) && Among(r, q)
    ensures Owns(tasks, r)
  {
  }

  lemma SetTwice(s: Sched, id: nat, a: TaskState, b: TaskState)
    requires s.Known(id)
    ensures s.SetTask(id, a).SetTask(id, b) == s.SetTask(id, b)
  {
  }

  class TaskManager {
    var tasks: seq<Task>
    var latestId: nat
    var running: seq<seq<Task>>
    var currentLevel: nat
    var levelChanged: bool

    ghost predicate Linked()
      reads this
    {
      && latestId == |tasks| && (forall i :: 0 <= i < |tasks| ==> tasks[i].id == i + 1)
      && forall lv :: 0 <= lv < |running| ==> Owns(tasks, running[lv])
    }

    ghost function View(): (v: Sched)
      reads this, tasks
      ensures v.current == currentLevel && |v.queues| == |running| && |v.tasks| == |tasks|
    {
      Sched(States(tasks), AllIds(running), currentLevel, levelChanged)
    }

    ghost predicate Valid()
      reads this, tasks
    {
      Linked() && Good(View())
    }

    /** The idle task may be asleep. */
    ghost predicate Steady()
      reads this, tasks
    {
      Linked() && Sane(View())
    }

    /** A task that runs may sleep if another one runs. */
    ghost predicate MaySleep(id: nat)
      reads this, tasks
    {
      View().Known(id) && View().TaskAt(id).running ==>
        exists k :: k != id && View().Known(k) && View().TaskAt(k).running
    }

    lemma GoodView()
      requires Valid()
      ensures Good(View())
    {
    }

    constructor ()
      ensures Valid() && View() == START && |tasks| == 2 && fresh(tasks[0]) && fresh(tasks[1])
    {
      tasks, latestId, running, currentLevel, levelChanged := [], 0, [[], [], [], []], MAX_LEVEL, false;
      new;
      assert View().queues == EMPTY.queues;
      Started();
    }

    /** What the constructor does after its member initializers. */
    method Started()
      requires Linked() && tasks == [] && View() == EMPTY
      modifies this
      ensures Valid() && View() == START && |tasks| == 2 && fresh(tasks[0]) && fresh(tasks[1])
    {
      StartSteps();
      StartGood();
      assert |running| == |View().queues| == MAX_LEVEL + 1;
      hide Good, Linked, START, EMPTY;
      Launch(MAX_LEVEL);
      Launch(0);
    }

    /** A new task, running at a level. */
    method Launch(lv: nat)
      requires Linked() && lv < |running|
      modifies this`tasks, this`latestId, this`running
      ensures Linked() && View() == Launched(old(View()), lv) && |running| == old(|running|)
      ensures |tasks| == old(|tasks|) + 1 && tasks[..|tasks| - 1] == old(tasks) && fresh(tasks[|tasks| - 1])
    {
      var task := AddTask();
      hide Linked, View;
      RunAt(task, lv);
    }

    method AddTask() returns (task: Task)
      requires Linked()
      modifies this`tasks, this`latestId
      ensures Linked() && fresh(task) && tasks == old(tasks) + [task] && View() == Added(old(View()))
      ensures task.id == latestId == old(latestId) + 1 && task.State() == TaskState(DEFAULT_LEVEL, false, [])
    {
      latestId := latestId + 1;
      task := new Task(latestId);
      tasks := tasks + [task];
    }

    method NewTask() returns (task: Task)
      requires Valid()
      modifies this`tasks, this`latestId
      ensures Valid() && fresh(task) && tasks == old(tasks) + [task] && View() == Added(old(View()))
      ensures task.id == old(|tasks|) + 1 && task.State() == TaskState(DEFAULT_LEVEL, false, [])
    {
      AddKeeps(View());
      task := AddTask();
    }

    /** The head of the current queue goes to its back, or away. */
    method Rotate(currentSleep: bool) returns (current: Task)
      requires Linked() && View().Shape()
      modifies this`running
      ensures Linked() && View() == old(View()).(queues := Rotated(old(View()), currentSleep))
      ensures current in tasks && current.id == old(View().Current())
    {
      var queue := running[currentLevel];
      current := queue[0];
      IdsTail(queue);
      assert queue == [current] + queue[1..];
      OwnsParts(tasks, [current], queue[1..]);
      queue := queue[1..];
      IdsOne(current);
      if !currentSleep {
        IdsSplit(queue, [current]);
        OwnsParts(tasks, queue, [current]);
        queue := queue + [current];
      }
      assert Ids(queue) == View().queues[currentLevel][1..] + (if currentSleep then [] else [current.id]);
      assert tasks[current.id - 1] == current && current in tasks;
      SetIds(running, currentLevel, queue);
      hide Ids, AllIds, Owns, States;
      running := running[currentLevel := queue];
    }

    method SwitchTask(currentSleep: bool) returns (current: Task, next: Task)
      requires Linked() && View().Shape()
      requires exists lv :: 0 <= lv <= MAX_LEVEL && Rotated(View(), currentSleep)[lv] != []
      modifies this`running, this`currentLevel, this`levelChanged
      ensures Linked() && View() == Switched(old(View()), currentSleep)
      ensures current in tasks && current.id == old(View().Current())
      ensures running[currentLevel] != [] && next == running[currentLevel][0]
    {
      hide Ids, AllIds, Owns, Highest, States, Rotated;
      current := Rotate(currentSleep);
      if running[currentLevel] == [] {
        levelChanged := true;
      }
      if levelChanged {
        levelChanged := false;
        PickLevel();
      }
      next := running[currentLevel][0];
    }

    /** The timer interrupt's call of `SwitchTask`. */
    method Preempt()
      requires Valid()
      modifies this`running, this`currentLevel, this`levelChanged
      ensures Valid() && View() == Switched(old(View()), false)
      ensures
        var v := old(View());
        && View().queues[v.current] == v.queues[v.current][1..] + [v.Current()]
        && forall lv :: 0 <= lv < |v.queues| && lv != v.current ==> View().queues[lv] == v.queues[lv]
    {
      SwitchQueues(View(), false);
      SwitchKeeps(View());
      assert Rotated(View(), false)[View().current] != [];
      hide View, Linked, Good, Switched, Rotated;
      var current, next := SwitchTask(false);
    }

    method PickLevel()
      requires |running| == MAX_LEVEL + 1
      modifies this`currentLevel
      ensures currentLevel == Highest(AllIds(running), MAX_LEVEL + 1, old(currentLevel))
    {
      ghost var q := AllIds(running);
      var lv := MAX_LEVEL;
      while lv >= 0
        invariant -1 <= lv <= MAX_LEVEL && currentLevel == old(currentLevel)
        invariant Highest(q, MAX_LEVEL + 1, currentLevel) == Highest(q, lv + 1, currentLevel)
      {
        if running[lv] != [] {
          currentLevel := lv;
          break;
        }
        lv := lv - 1;
      }
    }

    lemma Numbered(task: Task)
      requires Linked() && task in tasks
      ensures View().Known(task.id) && tasks[task.id - 1] == task && View().TaskAt(task.id) == task.State()
    {
    }

    method SetLevel(task: Task, level: nat)
      requires Linked() && task in tasks
      modifies task`level
      ensures Linked() && old(View()).Known(task.id)
      ensures View() == old(View()).SetTask(task.id, old(View()).TaskAt(task.id).(level := level))
    {
      Numbered(task);
      task.level := level;
    }

    method SetRunning(task: Task, run: bool)
      requires Linked() && task in tasks
      modifies task`running
      ensures Linked() && old(View()).Known(task.id)
      ensures View() == old(View()).SetTask(task.id, old(View()).TaskAt(task.id).(running := run))
    {
      Numbered(task);
      task.running := run;
    }

    /** The task is marked running at a level and queued there. */
    method RunAt(task: Task, lv: nat)
      requires Linked() && task in tasks && lv < |running|
      modifies this`running, task`level, task`running
      ensures Linked() && old(View()).Known(task.id) && |running| == old(|running|)
      ensures
        var v := old(View());
        View() ==
          v.SetTask(task.id, v.TaskAt(task.id).(level := lv, running := true)).SetQueue(lv, v.queues[lv] + [task.id])
    {
      ghost var v := View();
      hide Linked, View;
      SetLevel(task, lv);
      SetRunning(task, true);
      PushBack(lv, task);
      SetTwice(v, task.id, v.TaskAt(task.id).(level := lv), v.TaskAt(task.id).(level := lv, running := true));
    }

    method EraseFrom(lv: nat, task: Task)
      requires Linked() && task in tasks && lv < |running|
      modifies this`running
      ensures Linked() && View() == old(View()).SetQueue(lv, Erased(old(View()).queues[lv], task.id))
    {
      hide Ids, AllIds, States, Erased, Among, Owns;
      Numbered(task);
      SameId(tasks, running[lv], task);
      var q := Erase(running[lv], task);
      AmongOwns(tasks, q, running[lv]);
      SetIds(running, lv, q);
      running := running[lv := q];
    }

    method PushBack(lv: nat, task: Task)
      requires Linked() && task in tasks && lv < |running|
      modifies this`running
      ensures Linked() && View() == old(View()).SetQueue(lv, old(View()).queues[lv] + [task.id])
    {
      Numbered(task);
      OwnsParts(tasks, running[lv], [task]);
      IdsSplit(running[lv], [task]);
      IdsOne(task);
      SetIds(running, lv, running[lv] + [task]);
      hide Ids, AllIds, States;
      running := running[lv := running[lv] + [task]];
    }

    /** The task leaves the front of one queue for the front of another. */
    method MoveFront(from: nat, to: nat)
      requires Linked() && from < |running| && to < |running| && from != to && running[from] != []
      modifies this`running
      ensures Linked()
      ensures
        var v := old(View());
        View() == v.SetQueue(from, v.queues[from][1..]).SetQueue(to, [v.queues[from][0]] + v.queues[to])
    {
      var task := running[from][0];
      assert running[from] == [task] + running[from][1..];
      OwnsParts(tasks, [task], running[from][1..]);
      OwnsParts(tasks, [task], running[to]);
      IdsTail(running[from]);
      IdsOne(task);
      IdsSplit([task], running[to]);
      SetIds(running, from, running[from][1..]);
      SetIds(running[from := running[from][1..]], to, [task] + running[to]);
      hide Ids, AllIds, States, Owns;
      running := running[from := running[from][1..]];
      running := running[to := [task] + running[to]];
    }

    /** Whether the task is the one at the front of the current queue. */
    predicate IsCurrent(task: Task)
      reads this, tasks
      requires Steady() && task in tasks
      ensures IsCurrent(task) <==> View().Current() == task.id
    {
      assert Owns(tasks, running[currentLevel]) && View().queues[currentLevel] == Ids(running[currentLevel]);
      Numbered(task);
      task == running[currentLevel][0]
    }

    method CurrentTask() returns (task: Task)
      requires Valid()
      ensures task in tasks && task.id == View().Current()
    {
      assert Owns(tasks, running[currentLevel]);
      task := running[currentLevel][0];
    }

    method SleepTask(task: Task)
      requires Steady() && task in tasks && MaySleep(task.id)
      modifies this`running, this`currentLevel, this`levelChanged, task`running
      ensures Steady() && View() == Slept(old(View()), task.id)
      ensures old(Valid()) && task.id != IDLE_ID ==> Valid()
    {
      Numbered(task);
      ghost var v := View();
      SleepLeaves(task.id);
      if !task.running {
        return;
      }
      var isCurrent := IsCurrent(task);
      if isCurrent {
        AnotherStays(v);
      }
      hide Good, Sane, Placed, Ids, AllIds, States, Owns, Erased, Switched, Rotated, MaySleep;
      var lv := task.level;
      SetRunning(task, false);
      if isCurrent {
        var current, next := SwitchTask(true);
        return;
      }
      EraseFrom(lv, task);
    }

    lemma SleepLeaves(id: nat)
      requires Steady() && View().Known(id) && MaySleep(id)
      ensures Sane(Slept(View(), id)) && (Good(View()) && id != IDLE_ID ==> Good(Slept(View(), id)))
    {
      var v := View();
      hide Slept, Placed, Linked, View;
      if v.TaskAt(id).running {
        SleepExact(v, id);
      } else {
        SleepNothing(v, id);
      }
      if Good(v) && id != IDLE_ID {
        SleepKeeps(v, id);
      }
    }

    method FindTask(id: nat) returns (task: Option<Task>)
      requires Linked()
      ensures task.Some? <==> View().Known(id)
      ensures task.Some? ==> task.value in tasks && task.value.id == id
    {
      for i := 0 to |tasks|
        invariant id == 0 || id > i
      {
        if tasks[i].id == id {
          return Some(tasks[i]);
        }
      }
      task := None;
    }

    method Sleep(id: nat) returns (e: Error)
      requires Steady() && MaySleep(id)
      modifies this`running, this`currentLevel, this`levelChanged, tasks`running
      ensures Steady() && e == if old(View()).Known(id) then Success else NoSuchTask
      ensures View() == if old(View()).Known(id) then Slept(old(View()), id) else old(View())
      ensures old(Valid()) && id != IDLE_ID ==> Valid()
    {
      hide Good, Sane, Linked, Slept, View, MaySleep;
      var task := FindTask(id);
      if task == None {
        return NoSuchTask;
      }
      SleepTask(task.value);
      e := Success;
    }

    /** A task was queued at a level. */
    method NoteLevel(level: int)
      modifies this`levelChanged
      ensures View() == old(View()).(changed := old(View()).changed || level > old(View()).current)
      ensures Linked() == old(Linked())
    {
      if level > currentLevel {
        levelChanged := true;
      }
    }

    /** The current task has moved to a level. */
    method FollowLevel(level: nat)
      modifies this`levelChanged, this`currentLevel
      ensures View() == old(View()).(current := level, changed := old(View()).changed || level < old(View()).current)
      ensures Linked() == old(Linked())
    {
      if level >= currentLevel {
        currentLevel := level;
      } else {
        currentLevel := level;
        levelChanged := true;
      }
    }

    method ChangeLevelRunning(task: Task, level: int)
      requires Valid() && task in tasks && task.running && level <= MAX_LEVEL
      modifies this`running, this`currentLevel, this`levelChanged, task`level
      ensures Valid() && View() == LevelChanged(old(View()), task.id, level)
    {
      Numbered(task);
      ghost var v := View();
      WakeKeeps(v, task.id, level);
      var was := task.level;
      assert Woken(v, task.id, level) == LevelChanged(v, task.id, level);
      if level < 0 || level == was {
        return;
      }
      var isCurrent := IsCurrent(task);
      CurrentFacts(v);
      assert v.Shape() && was == v.TaskAt(task.id).level <= MAX_LEVEL;
      hide Good, Linked, View, Erased, Placed;
      if !isCurrent {
        EraseFrom(was, task);
        PushBack(level, task);
        SetLevel(task, level);
        NoteLevel(level);
        return;
      }
      MoveFront(currentLevel, level);
      SetLevel(task, level);
      FollowLevel(level);
    }

    /** Wakes a sleeping task, or changes the level of a running one; a negative
        level stands for the task's own. */
    method WakeupTask(task: Task, level: int)
      requires Valid() && task in tasks && level <= MAX_LEVEL
      modifies this`running, this`currentLevel, this`levelChanged, task`level, task`running
      ensures Valid() && View() == Woken(old(View()), task.id, level)
    {
      Numbered(task);
      WakeKeeps(View(), task.id, level);
      if task.running {
        ChangeLevelRunning(task, level);
        return;
      }
      var lv := if level < 0 then task.level else level;
      assert View().Shape() && View().TaskAt(task.id).level <= MAX_LEVEL;
      hide Good, Linked, View, LevelChanged;
      RunAt(task, lv);
      NoteLevel(lv);
    }

    method Wakeup(id: nat, level: int) returns (e: Error)
      requires Valid() && level <= MAX_LEVEL
      modifies this`running, this`currentLevel, this`levelChanged, tasks`level, tasks`running
      ensures Valid() && e == if old(View()).Known(id) then Success else NoSuchTask
      ensures View() == Apply(old(View()), Op.Wakeup(id, level))
    {
      assert Apply(View(), Op.Wakeup(id, level)) == if View().Known(id) then Woken(View(), id, level) else View();
      hide Good, Linked, Woken, View, Apply;
      var task := FindTask(id);
      if task == None {
        return NoSuchTask;
      }
      WakeupTask(task.value, level);
      e := Success;
    }

    /** A message is appended and its receiver woken. */
    method SendToTask(task: Task, msg: Message)
      requires Valid() && task in tasks
      modifies this`running, this`currentLevel, this`levelChanged, task`level, task`running, task`msgs
      ensures Valid() && View() == Sent(old(View()), task.id, msg)
    {
      Numbered(task);
      MailKeeps(View(), task.id, View().TaskAt(task.id).msgs + [msg]);
      hide Good, Linked, Woken, View;
      AppendMessage(task, msg);
      WakeupTask(task, -1);
    }

    method SendMessage(id: nat, msg: Message) returns (e: Error)
      requires Valid()
      modifies this`running, this`currentLevel, this`levelChanged, tasks`level, tasks`running, tasks`msgs
      ensures Valid() && e == if old(View()).Known(id) then Success else NoSuchTask
      ensures View() == Apply(old(View()), Op.SendMessage(id, msg))
    {
      assert Apply(View(), Op.SendMessage(id, msg)) == if View().Known(id) then Sent(View(), id, msg) else View();
      hide Good, Linked, Sent, View, Apply;
      var task := FindTask(id);
      if task == None {
        return NoSuchTask;
      }
      SendToTask(task.value, msg);
      e := Success;
    }

    method AppendMessage(task: Task, msg: Message)
      requires Linked() && task in tasks
      modifies task`msgs
      ensures Linked() && old(View()).Known(task.id)
      ensures
        var t := old(View()).TaskAt(task.id);
        View() == old(View()).SetTask(task.id, t.(msgs := t.msgs + [msg]))
    {
      Numbered(task);
      task.msgs := task.msgs + [msg];
    }
  }
}
