/**
  The multi-threaded timer as a state machine (`Timer`): a map from due time to task, the set of task ids being
  executed and not cancelled, and the tasks the worker threads have taken out of the map.
 */
module TimerModel {
  import opened Wrappers

  datatype Task = Task(id: int, name: string, scheduledTime: int, interval: int)

  type TaskMap = map<int, Task>

  /** One start of a task: when it was due, and the clock reading at which it was taken. */
  datatype Run = Run(id: int, scheduledTime: int, at: int)

  datatype State = State(
    taskMap: TaskMap,
    pending: set<int>,
    running: map<nat, Task>,   // by thread; the node is in the thread's hands, not in the map
    lastId: int,
    log: seq<Run>              // history: all starts
  )

  const INITIAL := State(map[], {}, map[], 0, [])

  /** The least time not below `proposed` at which nothing is due. */
  function Unused(m: TaskMap, proposed: int): (k: int)
    ensures k >= proposed && k !in m
    ensures forall j :: proposed <= j < k ==> j in m
    decreases |Above(m, proposed)|
  {
    if proposed !in m then proposed
    else
      AboveShrinks(m, proposed);
      Unused(m, proposed + 1)
  }

  function Above(m: TaskMap, t: int): set<int> {
    set k | k in m && k >= t
  }

  lemma AboveShrinks(m: TaskMap, t: int)
    requires t in m
    ensures |Above(m, t + 1)| < |Above(m, t)|
  {
    assert Above(m, t) == Above(m, t + 1) + {t};
  }

  function Max(a: int, b: int): int {
    if a >= b then a else b
  }

  /** Map insertion, which never overwrites: the node is lost if its key is taken. */
  function InsertNode(m: TaskMap, key: int, task: Task): TaskMap {
    if key in m then m else m[key := task]
  }

  predicate IsLeast(m: TaskMap, key: int) {
    key in m && forall k :: k in m ==> key <= k
  }

  predicate HasId(m: TaskMap, key: int, id: int) {
    key in m && m[key].id == id
  }

  predicate InMap(m: TaskMap, id: int) {
    exists k | k in m :: HasId(m, k, id)
  }

  predicate FirstNamed(m: TaskMap, key: int, name: string) {
    key in m && m[key].name == name && forall k :: k in m && m[k].name == name ==> key <= k
  }

  datatype Action =
    | Schedule(name: string, interval: int, firstTime: int, now: int, newId: int)
    | Cancel(id: int)
    | CancelAll
    | Reschedule(id: int, at: Option<int>, nextTime: int, now: int)
    | Delay(name: string, at: Option<int>, delay: int, now: int)
    | Pick(thread: nat, key: int, now: int)
    | Edit(thread: nat, scheduledTime: int, interval: int)  // the running action changes its own task
    | Finish(thread: nat, now: int)

  predicate Enabled(s: State, a: Action) {
    match a
    case Schedule(_, _, _, _, newId) => newId > s.lastId
    case Reschedule(id, at, _, _) =>
      if at.Some? then HasId(s.taskMap, at.value, id) else forall k :: k in s.taskMap ==> s.taskMap[k].id != id
    case Delay(name, at, _, _) =>
      if at.Some? then FirstNamed(s.taskMap, at.value, name)
      else forall k :: k in s.taskMap ==> s.taskMap[k].name != name
    case Pick(thread, key, now) => thread !in s.running && IsLeast(s.taskMap, key) && key <= now
    case Edit(thread, _, _) => thread in s.running
    case Finish(thread, _) => thread in s.running
    case _ => true
  }

  /** Takes the node at `key` out and puts it back at `time`. */
  function Move(m: TaskMap, key: int, time: int): TaskMap
    requires key in m
  {
    InsertNode(m - {key}, time, m[key].(scheduledTime := time))
  }

  function Drop(m: TaskMap, id: int): TaskMap {
    map k | k in m && m[k].id != id :: m[k]
  }

  function Apply(s: State, a: Action): State
    requires Enabled(s, a)
  {
    match a
    case Schedule(name, interval, firstTime, now, newId) =>
      var time := Unused(s.taskMap, Max(firstTime, now));
      s.(taskMap := InsertNode(s.taskMap, time, Task(newId, name, time, interval)), lastId := newId)
    case Cancel(id) =>
      if InMap(s.taskMap, id) then s.(taskMap := Drop(s.taskMap, id)) else s.(pending := s.pending - {id})
    case CancelAll => s.(taskMap := map[], pending := {})
    case Reschedule(_, at, nextTime, now) =>
      if at.None? then s else s.(taskMap := Move(s.taskMap, at.value, Unused(s.taskMap, Max(nextTime, now))))
    case Delay(_, at, delay, now) =>
      if at.None? then s else s.(taskMap := Move(s.taskMap, at.value, Unused(s.taskMap, now + delay)))
    case Pick(thread, key, now) =>
      var task := s.taskMap[key];
      s.(taskMap := s.taskMap - {key},
         pending := s.pending + {task.id},
         running := s.running[thread := task],
         log := s.log + [Run(task.id, task.scheduledTime, now)])
    case Edit(thread, scheduledTime, interval) =>
      s.(running := s.running[thread := s.running[thread].(scheduledTime := scheduledTime, interval := interval)])
    case Finish(thread, now) =>
      var task := s.running[thread];
      var idle := s.(running := s.running - {thread}, pending := s.pending - {task.id});
      if task.id in s.pending && task.interval > 0 then
        var time := Unused(s.taskMap, Max(task.scheduledTime + task.interval, now));
        idle.(taskMap := InsertNode(s.taskMap, time, task.(scheduledTime := time)))
      else idle
  }

  ghost predicate Runs(s: State, actions: seq<Action>, t: State)
    decreases |actions|
  {
    if actions == [] then s == t
    else Enabled(s, actions[0]) && Runs(Apply(s, actions[0]), actions[1..], t)
  }

  // ---------------------------------------------------------------------------------------------------------
  // Invariant
  // ---------------------------------------------------------------------------------------------------------

  ghost predicate KeysAreDueTimes(s: State) {
    forall k :: k in s.taskMap ==> s.taskMap[k].scheduledTime == k
  }

  /** Every task is in one place only: once in the map, or in the hands of one thread. */
  ghost predicate OnePlace(s: State) {
    && (forall j, k :: j in s.taskMap && k in s.taskMap && s.taskMap[j].id == s.taskMap[k].id ==> j == k)
    && (forall v, w :: v in s.running && w in s.running && s.running[v].id == s.running[w].id ==> v == w)
    && (forall k, w :: k in s.taskMap && w in s.running ==> s.taskMap[k].id != s.running[w].id)
  }

  predicate RunsId(s: State, w: nat, id: int) {
    w in s.running && s.running[w].id == id
  }

  ghost predicate IdsKnown(s: State) {
    && (forall id :: id in s.pending ==> exists w :: RunsId(s, w, id))
    && (forall k :: k in s.taskMap ==> s.taskMap[k].id <= s.lastId)
    && (forall w :: w in s.running ==> s.running[w].id <= s.lastId)
  }

  ghost predicate Inv(s: State) {
    KeysAreDueTimes(s) && OnePlace(s) && IdsKnown(s)
  }

  /** A task that will be started (again): it waits in the map, or runs without having been cancelled. */
  ghost predicate Live(s: State, id: int) {
    InMap(s.taskMap, id) || id in s.pending
  }

  lemma ScheduleInv(s: State, a: Action)
    requires a.Schedule? && Enabled(s, a) && Inv(s)
    ensures Inv(Apply(s, a))
  {
    var r := Apply(s, a);
    assert forall w, id :: RunsId(s, w, id) ==> RunsId(r, w, id);
  }

  lemma CancelInv(s: State, a: Action)
    requires (a.Cancel? || a.CancelAll?) && Enabled(s, a) && Inv(s)
    ensures Inv(Apply(s, a))
  {
    var r := Apply(s, a);
    assert forall w, id :: RunsId(s, w, id) ==> RunsId(r, w, id);
  }

  /** Moving a node to an unused time never loses it: all ids stay, at keys equal to their due times. */
  lemma MoveKeeps(m: TaskMap, key: int, time: int)
    requires key in m && time !in m
    ensures Move(m, key, time) == (m - {key})[time := m[key].(scheduledTime := time)]
    ensures |Move(m, key, time)| == |m|
    ensures forall id :: InMap(m, id) <==> InMap(Move(m, key, time), id)
  {
    var moved := Move(m, key, time);
    assert moved.Keys == (m.Keys - {key}) + {time};
    forall id ensures InMap(m, id) <==> InMap(moved, id) {
      if InMap(m, id) {
        var k :| k in m && HasId(m, k, id);
        assert HasId(moved, if k == key then time else k, id);
      }
      if InMap(moved, id) {
        var k :| k in moved && HasId(moved, k, id);
        assert HasId(m, if k == time then key else k, id);
      }
    }
  }

  lemma MoveInv(s: State, key: int, time: int)
    requires Inv(s) && key in s.taskMap && time !in s.taskMap
    ensures Inv(s.(taskMap := Move(s.taskMap, key, time)))
  {
    var r := s.(taskMap := Move(s.taskMap, key, time));
    MoveKeeps(s.taskMap, key, time);
    assert forall w, id :: RunsId(s, w, id) ==> RunsId(r, w, id);
  }

  lemma PickInv(s: State, a: Action)
    requires a.Pick? && Enabled(s, a) && Inv(s)
    ensures Inv(Apply(s, a))
  {
    var r := Apply(s, a);
    forall id | id in r.pending ensures exists w :: RunsId(r, w, id) {
      if id == s.taskMap[a.key].id {
        assert RunsId(r, a.thread, id);
      } else {
        var w :| RunsId(s, w, id);
        assert RunsId(r, w, id);
      }
    }
  }

  lemma EditInv(s: State, a: Action)
    requires a.Edit? && Enabled(s, a) && Inv(s)
    ensures Inv(Apply(s, a))
  {
    var r := Apply(s, a);
    assert forall w, id :: RunsId(s, w, id) ==> RunsId(r, w, id);
  }

  lemma FinishInv(s: State, a: Action)
    requires a.Finish? && Enabled(s, a) && Inv(s)
    ensures Inv(Apply(s, a))
  {
    var r := Apply(s, a);
    forall id | id in r.pending ensures exists w :: RunsId(r, w, id) {
      var w :| RunsId(s, w, id);
      assert RunsId(r, w, id);
    }
  }

  lemma StepInv(s: State, a: Action)
    requires Enabled(s, a) && Inv(s)
    ensures Inv(Apply(s, a))
  {
    match a
    case Schedule(_, _, _, _, _) => ScheduleInv(s, a);
    case Reschedule(_, at, nextTime, now) =>
      if at.Some? { MoveInv(s, at.value, Unused(s.taskMap, Max(nextTime, now))); }
    case Delay(_, at, delay, now) =>
      if at.Some? { MoveInv(s, at.value, Unused(s.taskMap, now + delay)); }
    case Pick(_, _, _) => PickInv(s, a);
    case Edit(_, _, _) => EditInv(s, a);
    case Finish(_, _) => FinishInv(s, a);
    case _ => CancelInv(s, a);
  }

  lemma {:induction false} RunInv(s: State, actions: seq<Action>, t: State)
    requires Inv(s) && Runs(s, actions, t)
    ensures Inv(t)
    decreases |actions|
  {
    if actions != [] {
      StepInv(s, actions[0]);
      RunInv(Apply(s, actions[0]), actions[1..], t);
    }
  }
}
