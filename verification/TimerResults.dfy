/** What the timer guarantees over all its runs. */
module TimerResults {
  import opened Wrappers
  import opened TimerModel

  ghost predicate Reachable(s: State) {
    exists actions :: Runs(INITIAL, actions, s)
  }

  lemma ReachableInv(s: State)
    requires Reachable(s)
    ensures Inv(s)
  {
    var actions :| Runs(INITIAL, actions, s);
    RunInv(INITIAL, actions, s);
  }

  lemma {:induction false} RunAppend(s: State, actions: seq<Action>, t: State, a: Action)
    requires Runs(s, actions, t) && Enabled(t, a)
    ensures Runs(s, actions + [a], Apply(t, a))
    decreases |actions|
  {
    if actions == [] {
      assert [a][1..] == [];
    } else {
      RunAppend(Apply(s, actions[0]), actions[1..], t, a);
      assert (actions + [a])[1..] == actions[1..] + [a];
    }
  }

  lemma ReachableStep(s: State, a: Action)
    requires Reachable(s) && Enabled(s, a)
    ensures Reachable(Apply(s, a))
  {
    var actions :| Runs(INITIAL, actions, s);
    RunAppend(INITIAL, actions, s, a);
  }

  lemma InitialReachable()
    ensures Reachable(INITIAL)
  {
    assert Runs(INITIAL, [], INITIAL);
  }

  /** A task is never run by two threads at once, and never waits in the map while it runs. */
  lemma TaskInOnePlace(s: State, id: int)
    requires Reachable(s)
    ensures forall v, w :: RunsId(s, v, id) && RunsId(s, w, id) ==> v == w
    ensures InMap(s.taskMap, id) ==> id !in s.pending && forall w :: !RunsId(s, w, id)
    ensures id in s.pending ==> exists w :: RunsId(s, w, id)
    ensures forall k :: k in s.taskMap ==> s.taskMap[k].scheduledTime == k
  {
    ReachableInv(s);
  }

  // ---------------------------------------------------------------------------------------------------------
  // Which tasks live on
  // ---------------------------------------------------------------------------------------------------------

  predicate Ends(s: State, a: Action, id: int)
    requires Enabled(s, a)
  {
    match a
    case Cancel(x) => x == id
    case CancelAll => true
    case Finish(thread, _) => s.running[thread].id == id && s.running[thread].interval <= 0
    case _ => false
  }

  predicate Creates(a: Action, id: int) {
    a.Schedule? && a.newId == id
  }

  lemma InsertedIn(m: TaskMap, key: int, task: Task, id: int)
    requires key !in m
    ensures InMap(InsertNode(m, key, task), id) <==> InMap(m, id) || task.id == id
  {
    var r := InsertNode(m, key, task);
    if task.id == id {
      assert HasId(r, key, id);
    }
    if InMap(m, id) {
      var k :| k in m && HasId(m, k, id);
      assert HasId(r, k, id);
    }
    if InMap(r, id) && task.id != id {
      var k :| k in r && HasId(r, k, id);
      assert HasId(m, k, id);
    }
  }

  lemma RemovedFrom(m: TaskMap, key: int, id: int)
    requires key in m && forall j, k :: j in m && k in m && m[j].id == m[k].id ==> j == k
    ensures InMap(m - {key}, id) <==> InMap(m, id) && m[key].id != id
  {
    if InMap(m, id) && m[key].id != id {
      var k :| k in m && HasId(m, k, id);
      assert HasId(m - {key}, k, id);
    }
    if InMap(m - {key}, id) {
      var k :| k in m - {key} && HasId(m - {key}, k, id);
      assert HasId(m, k, id);
    }
  }

  lemma DroppedFrom(m: TaskMap, id: int, other: int)
    ensures InMap(Drop(m, id), other) <==> InMap(m, other) && other != id
  {
    if InMap(m, other) && other != id {
      var k :| k in m && HasId(m, k, other);
      assert HasId(Drop(m, id), k, other);
    }
    if InMap(Drop(m, id), other) {
      var k :| k in Drop(m, id) && HasId(Drop(m, id), k, other);
      assert HasId(m, k, other);
    }
  }

  /**
    No action but a cancellation, or the end of a run without a next interval, ends a task; in particular every
    re-insertion succeeds.  And nothing but scheduling brings a task to life.
   */
  lemma LifeOfATask(s: State, a: Action, id: int)
    requires Inv(s) && Enabled(s, a)
    ensures Live(Apply(s, a), id) <==> (Live(s, id) && !Ends(s, a, id)) || Creates(a, id)
  {
    match a
    case Schedule(_, _, _, _, _) => ScheduleLife(s, a, id);
    case Cancel(x) => CancelLife(s, x, id);
    case CancelAll =>
    case Reschedule(_, at, nextTime, now) =>
      if at.Some? { MoveKeeps(s.taskMap, at.value, Unused(s.taskMap, Max(nextTime, now))); }
    case Delay(_, at, delay, now) =>
      if at.Some? { MoveKeeps(s.taskMap, at.value, Unused(s.taskMap, now + delay)); }
    case Pick(_, _, _) => PickLife(s, a, id);
    case Edit(_, _, _) =>
    case Finish(thread, now) => FinishLife(s, thread, now, id);
  }

  lemma ScheduleLife(s: State, a: Action, id: int)
    requires a.Schedule? && Enabled(s, a)
    ensures Live(Apply(s, a), id) <==> Live(s, id) || id == a.newId
  {
    var time := Unused(s.taskMap, Max(a.firstTime, a.now));
    InsertedIn(s.taskMap, time, Task(a.newId, a.name, time, a.interval), id);
  }

  lemma PickLife(s: State, a: Action, id: int)
    requires a.Pick? && Inv(s) && Enabled(s, a)
    ensures Live(Apply(s, a), id) <==> Live(s, id)
  {
    RemovedFrom(s.taskMap, a.key, id);
    assert HasId(s.taskMap, a.key, s.taskMap[a.key].id);
  }

  lemma CancelLife(s: State, x: int, id: int)
    requires Inv(s)
    ensures Live(Apply(s, Cancel(x)), id) <==> Live(s, id) && x != id
  {
    DroppedFrom(s.taskMap, x, id);
    NotBoth(s, x);
  }

  lemma NotBoth(s: State, id: int)
    requires Inv(s)
    ensures InMap(s.taskMap, id) ==> id !in s.pending && forall w :: !RunsId(s, w, id)
  {
  }

  lemma FinishLife(s: State, thread: nat, now: int, id: int)
    requires Inv(s) && thread in s.running
    ensures Live(Apply(s, Finish(thread, now)), id) <==>
              Live(s, id) && !(s.running[thread].id == id && s.running[thread].interval <= 0)
  {
    var task := s.running[thread];
    if task.id in s.pending && task.interval > 0 {
      var time := Unused(s.taskMap, Max(task.scheduledTime + task.interval, now));
      InsertedIn(s.taskMap, time, task.(scheduledTime := time), id);
    }
    assert !InMap(s.taskMap, task.id);
  }

  // ---------------------------------------------------------------------------------------------------------
  // Cancelled for good
  // ---------------------------------------------------------------------------------------------------------

  ghost predicate Dead(s: State, id: int) {
    id <= s.lastId && !Live(s, id)
  }

  /** `later` continues `log` without a start of the task. */
  ghost predicate NoStart(log: seq<Run>, later: seq<Run>, id: int) {
    && |log| <= |later| && later[..|log|] == log
    && (forall i :: |log| <= i < |later| ==> later[i].id != id)
  }

  lemma DeadStep(s: State, a: Action, id: int)
    requires Inv(s) && Enabled(s, a) && Dead(s, id)
    ensures Dead(Apply(s, a), id) && NoStart(s.log, Apply(s, a).log, id)
  {
    LifeOfATask(s, a, id);
    if a.Pick? {
      assert HasId(s.taskMap, a.key, s.taskMap[a.key].id);
    }
  }

  lemma NoStartTrans(a: seq<Run>, b: seq<Run>, c: seq<Run>, id: int)
    requires NoStart(a, b, id) && NoStart(b, c, id)
    ensures NoStart(a, c, id)
  {
    assert c[..|a|] == c[..|b|][..|a|];
    assert forall i :: 0 <= i < |b| ==> c[i] == c[..|b|][i];
  }

  /** Once a task is cancelled or done, even in the middle of a run of it, it never starts again. */
  lemma {:induction false} DeadNeverStarts(s: State, actions: seq<Action>, t: State, id: int)
    requires Inv(s) && Dead(s, id) && Runs(s, actions, t)
    ensures Dead(t, id) && NoStart(s.log, t.log, id)
    decreases |actions|
  {
    if actions != [] {
      var next := Apply(s, actions[0]);
      StepInv(s, actions[0]);
      DeadStep(s, actions[0], id);
      DeadNeverStarts(next, actions[1..], t, id);
      NoStartTrans(s.log, next.log, t.log, id);
    }
  }

  /** Cancelling ends a task for good, and succeeds exactly for tasks that would have been started again. */
  lemma CancelIsFinal(s: State, id: int, actions: seq<Action>, t: State)
    requires Reachable(s) && Live(s, id) && Runs(Apply(s, Cancel(id)), actions, t)
    ensures forall i :: |s.log| <= i < |t.log| ==> t.log[i].id != id
    ensures !Live(t, id)
  {
    ReachableInv(s);
    StepInv(s, Cancel(id));
    LifeOfATask(s, Cancel(id), id);
    DeadNeverStarts(Apply(s, Cancel(id)), actions, t, id);
  }

  // ---------------------------------------------------------------------------------------------------------
  // Times
  // ---------------------------------------------------------------------------------------------------------

  ghost predicate StartsDue(s: State) {
    forall i :: 0 <= i < |s.log| ==> s.log[i].scheduledTime <= s.log[i].at
  }

  lemma StartsDueStep(s: State, a: Action)
    requires Inv(s) && Enabled(s, a) && StartsDue(s)
    ensures StartsDue(Apply(s, a))
  {
  }

  lemma {:induction false} StartsDueRun(s: State, actions: seq<Action>, t: State)
    requires Inv(s) && StartsDue(s) && Runs(s, actions, t)
    ensures StartsDue(t)
    decreases |actions|
  {
    if actions != [] {
      StepInv(s, actions[0]);
      StartsDueStep(s, actions[0]);
      StartsDueRun(Apply(s, actions[0]), actions[1..], t);
    }
  }

  /** No task has ever been started before its time. */
  lemma TasksStartWhenDue(t: State)
    requires Reachable(t)
    ensures StartsDue(t)
  {
    var actions :| Runs(INITIAL, actions, t);
    StartsDueRun(INITIAL, actions, t);
  }

  /** The action gives the task a new time or interval from outside its regular rhythm. */
  predicate Disturbs(s: State, a: Action, id: int)
    requires Enabled(s, a)
  {
    match a
    case Reschedule(x, _, _, _) => x == id
    case Delay(_, at, _, _) => at.Some? && s.taskMap[at.value].id == id
    case Edit(thread, _, _) => s.running[thread].id == id
    case _ => false
  }

  ghost predicate QuietRuns(s: State, actions: seq<Action>, t: State, id: int)
    decreases |actions|
  {
    if actions == [] then s == t
    else Enabled(s, actions[0]) && !Disturbs(s, actions[0], id) && QuietRuns(Apply(s, actions[0]), actions[1..], t, id)
  }

  /** All starts of the task from position `from` on lie an interval apart, and the next one will too. */
  ghost predicate Spaced(s: State, from: nat, id: int, interval: int) {
    && (forall i, j :: from <= i < j < |s.log| && s.log[i].id == id && s.log[j].id == id ==>
          s.log[j].scheduledTime >= s.log[i].scheduledTime + interval)
    && (forall k :: HasId(s.taskMap, k, id) ==> s.taskMap[k].interval == interval)
    && (forall k, i :: HasId(s.taskMap, k, id) && from <= i < |s.log| && s.log[i].id == id ==>
          interval > 0 && k >= s.log[i].scheduledTime + interval)
    && (forall w :: RunsId(s, w, id) ==> s.running[w].interval == interval)
    && (forall w, i :: RunsId(s, w, id) && from <= i < |s.log| && s.log[i].id == id ==>
          s.running[w].scheduledTime >= s.log[i].scheduledTime)
  }

  lemma SpacedSchedule(s: State, a: Action, from: nat, id: int, interval: int)
    requires a.Schedule? && Enabled(s, a) && Inv(s) && id <= s.lastId && Spaced(s, from, id, interval)
    ensures Spaced(Apply(s, a), from, id, interval)
  {
    var r := Apply(s, a);
    assert forall k :: HasId(r.taskMap, k, id) ==> HasId(s.taskMap, k, id);
    assert forall w :: RunsId(r, w, id) ==> RunsId(s, w, id);
  }

  lemma SpacedPick(s: State, a: Action, from: nat, id: int, interval: int)
    requires a.Pick? && Enabled(s, a) && Inv(s) && Spaced(s, from, id, interval)
    ensures Spaced(Apply(s, a), from, id, interval)
  {
    var r := Apply(s, a);
    assert HasId(s.taskMap, a.key, s.taskMap[a.key].id);
    assert forall k :: HasId(r.taskMap, k, id) ==> HasId(s.taskMap, k, id) && s.taskMap[a.key].id != id;
    assert forall w :: RunsId(r, w, id) ==> RunsId(s, w, id) || (w == a.thread && HasId(s.taskMap, a.key, id));
  }

  lemma SpacedFinish(s: State, a: Action, from: nat, id: int, interval: int)
    requires a.Finish? && Enabled(s, a) && Inv(s) && Spaced(s, from, id, interval)
    ensures Spaced(Apply(s, a), from, id, interval)
  {
    if s.running[a.thread].id == id {
      SpacedPutBack(s, a, from, interval);
    } else {
      OthersFinish(s, a, id);
    }
  }

  /** The task itself: what is put back is due an interval later at least. */
  lemma SpacedPutBack(s: State, a: Action, from: nat, interval: int)
    requires a.Finish? && Enabled(s, a) && Inv(s) && Spaced(s, from, s.running[a.thread].id, interval)
    ensures Spaced(Apply(s, a), from, s.running[a.thread].id, interval)
  {
    var r, id := Apply(s, a), s.running[a.thread].id;
    assert RunsId(s, a.thread, id);
    assert forall k :: !HasId(s.taskMap, k, id);
    assert forall w :: !RunsId(r, w, id);
  }

  lemma OthersFinish(s: State, a: Action, id: int)
    requires a.Finish? && Enabled(s, a) && s.running[a.thread].id != id
    ensures var r := Apply(s, a);
            && r.log == s.log
            && (forall k :: HasId(r.taskMap, k, id) ==> HasId(s.taskMap, k, id) && r.taskMap[k] == s.taskMap[k])
            && (forall w :: RunsId(r, w, id) ==> RunsId(s, w, id) && r.running[w] == s.running[w])
  {
  }

  lemma SpacedOther(s: State, a: Action, from: nat, id: int, interval: int)
    requires !a.Schedule? && !a.Pick? && !a.Finish? && Enabled(s, a) && !Disturbs(s, a, id)
    requires Inv(s) && Spaced(s, from, id, interval)
    ensures Spaced(Apply(s, a), from, id, interval)
  {
    UndisturbedSame(s, a, id);
  }

  lemma UndisturbedSame(s: State, a: Action, id: int)
    requires !a.Schedule? && !a.Pick? && !a.Finish? && Enabled(s, a) && !Disturbs(s, a, id)
    ensures var r := Apply(s, a);
            && r.log == s.log
            && (forall k :: HasId(r.taskMap, k, id) ==> HasId(s.taskMap, k, id) && r.taskMap[k] == s.taskMap[k])
            && (forall w :: RunsId(r, w, id) ==> RunsId(s, w, id) && r.running[w] == s.running[w])
  {
  }

  lemma {:induction false} SpacedOverRuns(s: State, actions: seq<Action>, t: State, from: nat, id: int, interval: int)
    requires Inv(s) && id <= s.lastId && Spaced(s, from, id, interval) && QuietRuns(s, actions, t, id)
    ensures Spaced(t, from, id, interval)
    decreases |actions|
  {
    if actions != [] {
      var a := actions[0];
      StepInv(s, a);
      match a {
        case Schedule(_, _, _, _, _) => SpacedSchedule(s, a, from, id, interval);
        case Pick(_, _, _) => SpacedPick(s, a, from, id, interval);
        case Finish(_, _) => SpacedFinish(s, a, from, id, interval);
        case _ => SpacedOther(s, a, from, id, interval);
      }
      SpacedOverRuns(Apply(s, a), actions[1..], t, from, id, interval);
    }
  }

  /** The task waits or is being run. */
  ghost predicate AtHand(s: State, task: Task) {
    (exists k :: k in s.taskMap && s.taskMap[k] == task) || (exists w :: w in s.running && s.running[w] == task)
  }

  lemma AtHandIsOne(s: State, task: Task)
    requires Inv(s) && AtHand(s, task)
    ensures task.id <= s.lastId
    ensures forall k :: HasId(s.taskMap, k, task.id) ==> s.taskMap[k] == task
    ensures forall w :: RunsId(s, w, task.id) ==> s.running[w] == task
  {
    if k :| k in s.taskMap && s.taskMap[k] == task {
      assert HasId(s.taskMap, k, task.id);
    } else {
      var w :| w in s.running && s.running[w] == task;
      assert RunsId(s, w, task.id);
    }
  }

  /**
    From any moment at which a task waits or runs, be it after its scheduling, a reschedule or a delay: as long as
    nobody disturbs it, the due times of its starts grow by its interval at least.
   */
  lemma PeriodicTasksKeepTheirDistance(s: State, task: Task, actions: seq<Action>, t: State, i: nat, j: nat)
    requires Reachable(s) && AtHand(s, task) && QuietRuns(s, actions, t, task.id)
    requires |s.log| <= i < j < |t.log| && t.log[i].id == task.id && t.log[j].id == task.id
    ensures t.log[j].scheduledTime >= t.log[i].scheduledTime + task.interval
  {
    ReachableInv(s);
    AtHandIsOne(s, task);
    SpacedOverRuns(s, actions, t, |s.log|, task.id, task.interval);
  }

  /** The task neither has been started, nor waits, nor runs, with a due time before `first`. */
  ghost predicate NotBefore(s: State, from: nat, id: int, first: int) {
    && (forall i :: from <= i < |s.log| && s.log[i].id == id ==> s.log[i].scheduledTime >= first)
    && (forall k :: HasId(s.taskMap, k, id) ==> k >= first)
    && (forall w :: RunsId(s, w, id) ==> s.running[w].scheduledTime >= first)
  }

  lemma NotBeforeStep(s: State, a: Action, from: nat, id: int, first: int)
    requires !a.Schedule? && !a.Pick? && !a.Finish? && Enabled(s, a) && !Disturbs(s, a, id)
    requires NotBefore(s, from, id, first)
    ensures NotBefore(Apply(s, a), from, id, first)
  {
    UndisturbedSame(s, a, id);
  }

  lemma NotBeforeSchedule(s: State, a: Action, from: nat, id: int, first: int)
    requires a.Schedule? && Enabled(s, a) && Inv(s) && id <= s.lastId && NotBefore(s, from, id, first)
    ensures NotBefore(Apply(s, a), from, id, first)
  {
    var r := Apply(s, a);
    assert forall k :: HasId(r.taskMap, k, id) ==> HasId(s.taskMap, k, id);
    assert forall w :: RunsId(r, w, id) ==> RunsId(s, w, id);
  }

  lemma NotBeforePick(s: State, a: Action, from: nat, id: int, first: int)
    requires a.Pick? && Enabled(s, a) && Inv(s) && NotBefore(s, from, id, first)
    ensures NotBefore(Apply(s, a), from, id, first)
  {
    var r := Apply(s, a);
    assert HasId(s.taskMap, a.key, s.taskMap[a.key].id);
    assert forall k :: HasId(r.taskMap, k, id) ==> HasId(s.taskMap, k, id);
    assert forall w :: RunsId(r, w, id) ==> RunsId(s, w, id) || (w == a.thread && HasId(s.taskMap, a.key, id));
  }

  lemma NotBeforeFinish(s: State, a: Action, from: nat, id: int, first: int)
    requires a.Finish? && Enabled(s, a) && Inv(s) && NotBefore(s, from, id, first)
    ensures NotBefore(Apply(s, a), from, id, first)
  {
    var r := Apply(s, a);
    if s.running[a.thread].id != id {
      OthersFinish(s, a, id);
    } else {
      assert RunsId(s, a.thread, id);
      assert forall k :: !HasId(s.taskMap, k, id);
      assert forall w :: !RunsId(r, w, id);
    }
  }

  lemma {:induction false} NotBeforeRuns(s: State, actions: seq<Action>, t: State, from: nat, id: int, first: int)
    requires Inv(s) && id <= s.lastId && NotBefore(s, from, id, first) && QuietRuns(s, actions, t, id)
    ensures NotBefore(t, from, id, first)
    decreases |actions|
  {
    if actions != [] {
      var a := actions[0];
      StepInv(s, a);
      match a {
        case Schedule(_, _, _, _, _) => NotBeforeSchedule(s, a, from, id, first);
        case Pick(_, _, _) => NotBeforePick(s, a, from, id, first);
        case Finish(_, _) => NotBeforeFinish(s, a, from, id, first);
        case _ => NotBeforeStep(s, a, from, id, first);
      }
      NotBeforeRuns(Apply(s, a), actions[1..], t, from, id, first);
    }
  }

  lemma ScheduledNotBefore(s: State, a: Action)
    requires Inv(s) && a.Schedule? && Enabled(s, a)
    ensures NotBefore(Apply(s, a), |s.log|, a.newId, Max(a.firstTime, a.now))
  {
    var r := Apply(s, a);
    assert forall k :: !HasId(s.taskMap, k, a.newId);
    assert forall w :: RunsId(r, w, a.newId) ==> RunsId(s, w, a.newId);
  }

  /** No start of a task is due, or happens, before the first time it was scheduled for, unless it is disturbed. */
  lemma NeverBeforeFirstTime(s: State, a: Action, actions: seq<Action>, t: State, i: nat)
    requires Reachable(s) && a.Schedule? && Enabled(s, a) && QuietRuns(Apply(s, a), actions, t, a.newId)
    requires |s.log| <= i < |t.log| && t.log[i].id == a.newId
    ensures t.log[i].scheduledTime >= a.firstTime && t.log[i].scheduledTime >= a.now
    ensures t.log[i].at >= a.firstTime
  {
    ReachableInv(s);
    StepInv(s, a);
    ScheduledNotBefore(s, a);
    NotBeforeRuns(Apply(s, a), actions, t, |s.log|, a.newId, Max(a.firstTime, a.now));
    QuietIsRun(Apply(s, a), actions, t, a.newId);
    ReachableStep(s, a);
    ReachableRun(Apply(s, a), actions, t);
    TasksStartWhenDue(t);
  }

  lemma {:induction false} QuietIsRun(s: State, actions: seq<Action>, t: State, id: int)
    requires QuietRuns(s, actions, t, id)
    ensures Runs(s, actions, t)
    decreases |actions|
  {
    if actions != [] {
      QuietIsRun(Apply(s, actions[0]), actions[1..], t, id);
    }
  }

  lemma {:induction false} ReachableRun(s: State, actions: seq<Action>, t: State)
    requires Reachable(s) && Runs(s, actions, t)
    ensures Reachable(t)
    decreases |actions|
  {
    if actions != [] {
      ReachableStep(s, actions[0]);
      ReachableRun(Apply(s, actions[0]), actions[1..], t);
    }
  }
}
