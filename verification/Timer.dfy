/** The timer's object; every method that takes the mutex is one action of `TimerModel` (`Timer`). */
module Timers {
  import opened Wrappers
  import opened TimerModel
  import opened TimerResults

  class Timer {
    var taskMap: TaskMap
    var pendingTasks: set<int>
    var inHand: map<nat, Task>  // the nodes held by the worker threads
    var lastId: int
    var threads: bool           // are there worker threads?
    var shutdown: bool
    ghost var log: seq<Run>

    ghost function Value(): State
      reads this
    {
      State(taskMap, pendingTasks, inHand, lastId, log)
    }

    /** The object's state has been reached by actions of the model, so all results about reachable states hold. */
    ghost predicate Valid()
      reads this
    {
      Reachable(Value())
    }

    /** `time` is the least free time not before either of the two. */
    ghost predicate LeastFree(m: TaskMap, time: int, proposed: int, now: int) {
      && time !in m && time >= proposed && time >= now
      && forall j :: proposed <= j < time && now <= j ==> j in m
    }

    /** The task waits, and all others as before: at the least free time not before the one meant for it and now. */
    ghost predicate PutInAt(before: TaskMap, after: TaskMap, task: Task, time: int, proposed: int, now: int) {
      && LeastFree(before, time, proposed, now)
      && after == before[time := Task(task.id, task.name, time, task.interval)]
    }

    ghost predicate PutIn(before: TaskMap, after: TaskMap, task: Task, proposed: int, now: int) {
      exists time :: PutInAt(before, after, task, time, proposed, now)
    }

    /** The task that waited at `at` waits at another time, the least that was free. */
    ghost predicate MovedTo(before: TaskMap, after: TaskMap, at: int, time: int, proposed: int, now: int) {
      && at in before && LeastFree(before, time, proposed, now)
      && after == (before - {at})[time := Task(before[at].id, before[at].name, time, before[at].interval)]
    }

    ghost predicate Moved(before: TaskMap, after: TaskMap, at: int, proposed: int, now: int) {
      exists time :: MovedTo(before, after, at, time, proposed, now)
    }

    /** The action is possible, and the new state is what it makes of the old one. */
    ghost predicate Moves(s: State, t: State, a: Action)
    {
      Enabled(s, a) && t == Apply(s, a)
    }

    lemma DropOne(s: State, key: int, id: int)
      requires Reachable(s) && HasId(s.taskMap, key, id)
      ensures s.taskMap - {key} == Drop(s.taskMap, id)
    {
      ReachableInv(s);
      assert forall k :: k in s.taskMap && s.taskMap[k].id == id ==> k == key;
    }

    ghost predicate SameControl(wasRunning: bool, wasStopping: bool)
      reads this
    {
      threads == wasRunning && shutdown == wasStopping
    }

    constructor ()
      ensures Valid() && Value() == INITIAL && !threads && !shutdown
    {
      taskMap, pendingTasks, inHand, lastId, log := map[], {}, map[], 0, [];
      threads, shutdown := false, false;
      new;
      assert Value() == INITIAL;
      InitialReachable();
    }

    /** Starts the worker threads, unless there are some already or the name or their number will not do. */
    method Start(name: string, threadCount: nat) returns (ok: bool)
      requires Valid()
      modifies this`threads
      ensures Valid() && Value() == old(Value())
      ensures ok <==> !old(threads) && 1 <= |name| <= 12 && 1 <= threadCount <= 99
      ensures threads == (old(threads) || ok)
    {
      if threads {
        return false;
      } else if |name| == 0 || |name| > 12 {
        return false;
      } else if threadCount < 1 || threadCount > 99 {
        return false;
      }
      threads := true;
      return true;
    }

    /** The second step of stopping, after all tasks have been cancelled: the flag the workers look at is raised. */
    method RaiseShutdown()
      requires Valid()
      modifies this`shutdown
      ensures Valid() && Value() == old(Value())
      ensures shutdown == (old(shutdown) || threads)
    {
      shutdown := shutdown || threads;
    }

    /** The last step of stopping: all workers have left their loops, so none holds a task. */
    method Joined()
      requires Valid() && shutdown && inHand == map[]
      modifies this`threads, this`shutdown
      ensures Valid() && Value() == old(Value()) && !threads && !shutdown
      ensures pendingTasks == {}
    {
      ReachableInv(Value());
      threads, shutdown := false, false;
      assert forall id :: id in pendingTasks ==> exists w :: RunsId(Value(), w, id);
      assert forall w, id :: !RunsId(Value(), w, id);
    }

    method GetUnusedScheduleTime(proposedTime: int) returns (time: int)
      ensures time == Unused(taskMap, proposedTime)
      ensures LeastFree(taskMap, time, proposedTime, proposedTime)
    {
      time := proposedTime;
      while time in taskMap
        invariant Unused(taskMap, time) == Unused(taskMap, proposedTime)
        decreases |Above(taskMap, time)|
      {
        AboveShrinks(taskMap, time);
        time := time + 1;
      }
    }

    static lemma SomeKey(keys: set<int>)
      requires keys != {}
      ensures exists k :: k in keys
    {
      assert (forall k :: k !in keys) ==> keys == {};
    }

    /** Map iteration: the least key above `after`, or the first key of all. */
    method NextKey(after: Option<int>) returns (it: Option<int>)
      ensures it.Some? ==> it.value in taskMap && (after.Some? ==> it.value > after.value)
      ensures it.Some? ==> forall k :: k in taskMap && (after.Some? ==> k > after.value) ==> it.value <= k
      ensures it.None? ==> forall k :: k in taskMap ==> after.Some? && k <= after.value
    {
      it := None;
      var keys := taskMap.Keys;
      while keys != {}
        invariant keys <= taskMap.Keys
        invariant it.Some? ==> it.value in taskMap && (after.Some? ==> it.value > after.value)
        invariant forall k :: k in taskMap && k !in keys && (after.Some? ==> k > after.value) ==>
                  it.Some? && it.value <= k
        decreases |keys|
      {
        SomeKey(keys);
        var k: int :| k in keys;
        keys := keys - {k};
        if (after.None? || k > after.value) && (it.None? || k < it.value) {
          it := Some(k);
        }
      }
    }

    function KeysAbove(it: Option<int>): set<int>
      reads this
    {
      if it.None? then {} else set k | k in taskMap && k >= it.value
    }

    /** The loop that looks for an id. */
    method FindId(id: int) returns (at: Option<int>)
      ensures at.Some? ==> HasId(taskMap, at.value, id)
      ensures at.None? ==> forall k :: k in taskMap ==> taskMap[k].id != id
    {
      at := NextKey(None);
      while at.Some? && taskMap[at.value].id != id
        invariant at.Some? ==> at.value in taskMap
        invariant forall k :: k in taskMap && (at.Some? ==> k < at.value) ==> taskMap[k].id != id
        decreases KeysAbove(at)
      {
        ghost var was := at;
        at := NextKey(at);
        assert was.value in KeysAbove(was) && was.value !in KeysAbove(at);
      }
    }

    /** The loop that looks for a name, in the order of due times. */
    method FindName(name: string) returns (at: Option<int>)
      ensures at.Some? ==> FirstNamed(taskMap, at.value, name)
      ensures at.None? ==> forall k :: k in taskMap ==> taskMap[k].name != name
    {
      at := NextKey(None);
      while at.Some? && taskMap[at.value].name != name
        invariant at.Some? ==> at.value in taskMap
        invariant forall k :: k in taskMap && (at.Some? ==> k < at.value) ==> taskMap[k].name != name
        decreases KeysAbove(at)
      {
        ghost var was := at;
        at := NextKey(at);
        assert was.value in KeysAbove(was) && was.value !in KeysAbove(at);
      }
    }

    /**
      Schedules a task.  Without a positive first time, it comes after a random part of the interval, `draw`, from the
      clock's reading `drawnAt`.  `newId` is the fresh key that becomes the task's id.  `failed` reports an insertion
      that did not succeed.
     */
    method ScheduleAt(name: string, interval: int, firstEventTime: int, drawnAt: int, draw: int, now: int, newId: int)
      returns (id: Option<int>, failed: bool)
      requires Valid() && newId > lastId
      requires threads && !shutdown && firstEventTime <= 0 ==> 0 <= draw <= interval
      modifies this
      ensures Valid() && SameControl(old(threads), old(shutdown))
      ensures id == if threads && !shutdown then Some(newId) else None
      ensures !failed
      ensures id.Some? ==>
                Moves(old(Value()), Value(),
                      Schedule(name, interval, FirstTime(firstEventTime, drawnAt, draw), now, newId))
      ensures id.None? ==> Value() == old(Value())
      ensures id.Some? ==>
                PutIn(old(taskMap), taskMap, Task(newId, name, 0, interval),
                      if firstEventTime > 0 then firstEventTime else drawnAt + draw, now)
      ensures id.Some? ==> lastId == newId
      ensures pendingTasks == old(pendingTasks) && inHand == old(inHand) && log == old(log)
    {
      if !threads || shutdown {
        return None, false;
      }
      var firstTime := firstEventTime;
      if firstTime <= 0 {
        firstTime := drawnAt + draw;
      }
      ReachableStep(Value(), Schedule(name, interval, firstTime, now, newId));
      var scheduledTime := GetUnusedScheduleTime(Max(firstTime, now));
      failed := scheduledTime in taskMap;
      if !failed {
        taskMap := taskMap[scheduledTime := Task(newId, name, scheduledTime, interval)];
      }
      lastId := newId;
      id := Some(newId);
      assert PutInAt(old(taskMap), taskMap, Task(newId, name, 0, interval), scheduledTime, firstTime, now);
    }

    function FirstTime(firstEventTime: int, drawnAt: int, draw: int): int {
      if firstEventTime > 0 then firstEventTime else drawnAt + draw
    }

    method CancelTask(taskId: int) returns (found: bool)
      requires Valid()
      modifies this
      ensures Valid() && SameControl(old(threads), old(shutdown))
      ensures found <==> threads && !shutdown && old(Live(Value(), taskId))
      ensures found <==> threads && !shutdown && (old(InMap(taskMap, taskId)) || taskId in old(pendingTasks))
      ensures Value() == if threads && !shutdown then old(Apply(Value(), Cancel(taskId))) else old(Value())
      ensures found ==> forall k :: k in taskMap <==> k in old(taskMap) && old(taskMap)[k].id != taskId
      ensures forall k :: k in taskMap ==> k in old(taskMap) && taskMap[k] == old(taskMap)[k]
      ensures pendingTasks == if found && !old(InMap(taskMap, taskId)) then old(pendingTasks) - {taskId}
                              else old(pendingTasks)
      ensures inHand == old(inHand) && log == old(log)
      ensures !found ==> taskMap == old(taskMap)
    {
      if !threads || shutdown {
        return false;
      }
      ReachableStep(Value(), Cancel(taskId));
      var at := FindId(taskId);
      if at.Some? {
        DropOne(Value(), at.value, taskId);
        assert InMap(taskMap, taskId);
        taskMap := taskMap - {at.value};
        return true;
      }
      found := taskId in pendingTasks;
      pendingTasks := pendingTasks - {taskId};
    }

    method CancelAllTasks() returns (ok: bool)
      requires Valid()
      modifies this
      ensures Valid() && SameControl(old(threads), old(shutdown))
      ensures ok <==> threads && !shutdown
      ensures Value() == if ok then old(Apply(Value(), CancelAll)) else old(Value())
      ensures ok ==> taskMap == map[] && pendingTasks == {} && inHand == old(inHand) && log == old(log)
    {
      if !threads || shutdown {
        return false;
      }
      ReachableStep(Value(), CancelAll);
      taskMap, pendingTasks := map[], {};
      return true;
    }

    /** The due time of a waiting task.  A task that is being executed has none. */
    method GetScheduledTime(taskId: int) returns (time: Option<int>, executing: bool)
      requires Valid()
      ensures time.Some? <==> threads && !shutdown && exists k :: HasId(taskMap, k, taskId) && k > 0
      ensures time.Some? ==> HasId(taskMap, time.value, taskId)
      ensures executing <==> threads && !shutdown && taskId in pendingTasks
    {
      ReachableInv(Value());
      time, executing := None, false;
      if threads && !shutdown {
        var scheduledTime := 0;
        var at := FindId(taskId);
        if at.Some? {
          scheduledTime := taskMap[at.value].scheduledTime;
        }
        if scheduledTime > 0 {
          time := Some(scheduledTime);
        } else if scheduledTime == 0 && taskId in pendingTasks {
          executing := true;
        }
      }
    }

    method RescheduleTask(taskId: int, nextEventTime: int, now: int) returns (found: bool)
      requires Valid()
      modifies this
      ensures Valid() && SameControl(old(threads), old(shutdown))
      ensures found <==> threads && !shutdown && old(InMap(taskMap, taskId))
      ensures found ==> exists at :: Moves(old(Value()), Value(), Reschedule(taskId, Some(at), nextEventTime, now))
      ensures !found ==> Value() == old(Value())
      ensures found ==> exists at :: HasId(old(taskMap), at, taskId)
                                     && Moved(old(taskMap), taskMap, at, nextEventTime, now)
      ensures pendingTasks == old(pendingTasks) && inHand == old(inHand) && log == old(log)
    {
      if !threads || shutdown {
        return false;
      }
      var at := FindId(taskId);
      if at.None? {
        return false;
      }
      ReachableStep(Value(), Reschedule(taskId, at, nextEventTime, now));
      var scheduledTime := GetUnusedScheduleTime(Max(nextEventTime, now));
      MoveNode(at.value, scheduledTime);
      assert MovedTo(old(taskMap), taskMap, at.value, scheduledTime, nextEventTime, now);
      assert Moved(old(taskMap), taskMap, at.value, nextEventTime, now);
      return true;
    }

    /** Extracts the node at `key`, gives it its new time and inserts it again. */
    method MoveNode(key: int, scheduledTime: int)
      requires key in taskMap
      modifies this`taskMap
      ensures taskMap == Move(old(taskMap), key, scheduledTime)
    {
      var node := taskMap[key].(scheduledTime := scheduledTime);
      taskMap := taskMap - {key};
      if scheduledTime !in taskMap {
        taskMap := taskMap[scheduledTime := node];
      }
    }

    /**
      The first half of a delayed execution: a waiting task of that name, if any, is postponed.  If there is none
      the caller goes on to schedule a new task, in a second critical section.
     */
    method PostponeNamed(uniqueName: string, delay: int, now: int) returns (id: Option<int>)
      requires Valid()
      modifies this
      ensures Valid() && SameControl(old(threads), old(shutdown))
      ensures id.Some? ==> threads && !shutdown
      ensures id.Some? ==> exists at :: Moves(old(Value()), Value(), Delay(uniqueName, Some(at), delay, now))
                                        && HasId(old(taskMap), at, id.value)
      ensures id.None? ==> Value() == old(Value())
      ensures id.None? <==>
                uniqueName == "" || !threads || shutdown
                || old(forall k :: k in taskMap ==> taskMap[k].name != uniqueName)
      ensures id.Some? ==> exists at :: FirstNamed(old(taskMap), at, uniqueName) && HasId(old(taskMap), at, id.value)
                                        && Moved(old(taskMap), taskMap, at, now + delay, now + delay)
      ensures pendingTasks == old(pendingTasks) && inHand == old(inHand) && log == old(log)
    {
      if uniqueName == "" || !threads || shutdown {
        return None;
      }
      var at := FindName(uniqueName);
      if at.None? {
        return None;
      }
      ReachableStep(Value(), Delay(uniqueName, at, delay, now));
      var scheduledTime := GetUnusedScheduleTime(now + delay);
      id := Some(taskMap[at.value].id);
      MoveNode(at.value, scheduledTime);
      assert MovedTo(old(taskMap), taskMap, at.value, scheduledTime, now + delay, now + delay);
      assert Moved(old(taskMap), taskMap, at.value, now + delay, now + delay);
    }

    /** A worker's look at the map after waking up: it takes the first task if that is due, else nothing. */
    method TakeDueTask(thread: nat, now: int) returns (task: Option<Task>)
      requires Valid() && thread !in inHand
      modifies this
      ensures Valid() && SameControl(old(threads), old(shutdown))
      ensures task.Some? ==> !shutdown && Moves(old(Value()), Value(), Pick(thread, task.value.scheduledTime, now))
      ensures task.Some? ==> thread in inHand && inHand[thread] == task.value
      ensures task.Some? ==> task.value.scheduledTime <= now
      ensures task.Some? ==> forall k :: k in old(taskMap) ==> task.value.scheduledTime <= old(taskMap)[k].scheduledTime
      ensures task.Some? ==> log == old(log) + [Run(task.value.id, task.value.scheduledTime, now)]
      ensures task.None? ==> Value() == old(Value())
      ensures task.None? ==> shutdown || forall k :: k in taskMap ==> k > now
      ensures task.Some? ==>
                && HasId(old(taskMap), task.value.scheduledTime, task.value.id)
                && old(taskMap)[task.value.scheduledTime] == task.value
                && taskMap == old(taskMap) - {task.value.scheduledTime}
                && pendingTasks == old(pendingTasks) + {task.value.id}
                && inHand == old(inHand)[thread := task.value]
    {
      var it := NextKey(None);
      if !shutdown && it.Some? && it.value <= now {
        ReachableInv(Value());
        ReachableStep(Value(), Pick(thread, it.value, now));
        var node := taskMap[it.value];
        assert node.scheduledTime == it.value;
        taskMap := taskMap - {it.value};
        pendingTasks := pendingTasks + {node.id};
        inHand := inHand[thread := node];
        log := log + [Run(node.id, node.scheduledTime, now)];
        return Some(node);
      }
      return None;
    }

    /** The action being executed changes its own task's due time or interval. */
    method EditTask(thread: nat, scheduledTime: int, interval: int)
      requires Valid() && thread in inHand
      modifies this`inHand
      ensures Valid() && SameControl(old(threads), old(shutdown))
      ensures Value() == old(Apply(Value(), Edit(thread, scheduledTime, interval)))
      ensures inHand == old(inHand[thread := Task(inHand[thread].id, inHand[thread].name, scheduledTime, interval)])
    {
      ReachableStep(Value(), Edit(thread, scheduledTime, interval));
      inHand := inHand[thread := inHand[thread].(scheduledTime := scheduledTime, interval := interval)];
    }

    /** After the action: unless the task has been cancelled meanwhile or has no next interval, it goes back. */
    method FinishTask(thread: nat, now: int)
      requires Valid() && thread in inHand
      modifies this
      ensures Valid() && SameControl(old(threads), old(shutdown))
      ensures Value() == old(Apply(Value(), Finish(thread, now)))
      ensures var task := old(inHand[thread]);
              && inHand == old(inHand) - {thread} && pendingTasks == old(pendingTasks) - {task.id} && log == old(log)
              && if task.id in old(pendingTasks) && task.interval > 0
                 then PutIn(old(taskMap), taskMap, task, task.scheduledTime + task.interval, now)
                 else taskMap == old(taskMap)
    {
      ReachableStep(Value(), Finish(thread, now));
      var node := inHand[thread];
      inHand := inHand - {thread};
      var erased := node.id in pendingTasks;
      pendingTasks := pendingTasks - {node.id};
      if erased && node.interval > 0 {
        var scheduledTime := GetUnusedScheduleTime(Max(node.scheduledTime + node.interval, now));
        if scheduledTime !in taskMap {
          taskMap := taskMap[scheduledTime := node.(scheduledTime := scheduledTime)];
        }
        assert PutInAt(old(taskMap), taskMap, node, scheduledTime, node.scheduledTime + node.interval, now);
      }
    }
  }
}
