/**
  The tagged thread pool as a state machine (`BackgroundWorker`).

  A worker thread touches the shared queue only while it holds the queue mutex, so one whole critical
  section of one thread is one action.  `Turn` is the section a worker runs from the moment it owns the mutex
  until it gives it back: to run an item, to wait on the condition variable, or to leave its loop.
 */
module WorkerPool {
  import opened Wrappers

  /** A queued element.  `serial` numbers the accepted elements and stands for the element's arguments. */
  datatype Item = Item(serial: nat, tag: Option<nat>)

  /** Where a worker thread is. */
  datatype Worker =
    | Starting            // created, has not yet owned the mutex
    | Waiting             // blocked on the condition variable
    | Notified            // woken up, about to take the mutex again
    | Running(item: Item) // executing an item, without the mutex
    | Left                // has left its loop

  /** What an observer of the action sees. */
  datatype Event = Started(item: Item) | Finished(item: Item)

  datatype State = State(
    queue: seq<Item>,
    open: set<nat>,         // tags of the sequences being processed
    workers: seq<Worker>,
    shutdown: bool,
    maxQueueSize: nat,
    accepted: seq<Item>,    // history: everything ever enqueued
    cancelled: seq<Item>,   // history: everything dropped from the queue
    log: seq<Event>         // history: starts and ends of items
  )

  datatype Action =
    | Start(threads: nat, maxSize: nat)
    | Enqueue(tag: Option<nat>, sawShutdown: bool, wake: Option<nat>)
    | SpuriousWake(w: nat)
    | Turn(w: nat, sawShutdown: bool)
    | Clear
    | BeginStop
    | WakeAll
    | EndStop

  const MAX_QUEUE_SIZE: nat := 100000

  const INITIAL := State([], {}, [], false, MAX_QUEUE_SIZE, [], [], [])

  predicate Startable(open: set<nat>, item: Item) {
    item.tag.None? || item.tag.value !in open
  }

  /** Position of the first item that may be started now; the queue length if there is none. */
  function FirstStartable(queue: seq<Item>, open: set<nat>): (k: nat)
    ensures k <= |queue|
    ensures k < |queue| ==> Startable(open, queue[k])
    ensures forall j :: 0 <= j < k ==> !Startable(open, queue[j])
  {
    if queue == [] then 0
    else if Startable(open, queue[0]) then 0
    else 1 + FirstStartable(queue[1..], open)
  }

  function OpenTag(open: set<nat>, item: Item): set<nat> {
    if item.tag.Some? then open + {item.tag.value} else open
  }

  function CloseTag(open: set<nat>, item: Item): set<nat> {
    if item.tag.Some? then open - {item.tag.value} else open
  }

  predicate SomeWaiting(workers: seq<Worker>) {
    exists w :: 0 <= w < |workers| && workers[w].Waiting?
  }

  predicate IsAwake(worker: Worker) {
    worker.Starting? || worker.Notified?
  }

  /** The end of the item a worker has been running, if any; afterwards the worker is awake. */
  function Retire(s: State, w: nat): State
    requires w < |s.workers|
  {
    if s.workers[w].Running? then
      s.(open := CloseTag(s.open, s.workers[w].item),
         workers := s.workers[w := Notified],
         log := s.log + [Finished(s.workers[w].item)])
    else s
  }

  /** The rest of the section: an awake worker takes the first startable item, else it waits or leaves. */
  function Pick(s: State, w: nat, sawShutdown: bool): State
    requires w < |s.workers|
  {
    var k := FirstStartable(s.queue, s.open);
    if k < |s.queue| then
      var item := s.queue[k];
      s.(queue := s.queue[..k] + s.queue[k + 1..],
         open := OpenTag(s.open, item),
         workers := s.workers[w := Running(item)],
         log := s.log + [Started(item)])
    else
      s.(workers := s.workers[w := if sawShutdown then Left else Waiting])
  }

  predicate Enabled(s: State, a: Action) {
    match a
    case Start(threads, maxSize) => s.workers == [] && !s.shutdown && threads >= 1 && maxSize >= 1
    case Enqueue(_, sawShutdown, wake) =>
      && (sawShutdown ==> s.shutdown)
      && (wake.Some? ==> wake.value < |s.workers| && s.workers[wake.value].Waiting?)
      && (wake.None? ==> !SomeWaiting(s.workers))
    case SpuriousWake(w) => w < |s.workers| && s.workers[w].Waiting?
    case Turn(w, sawShutdown) =>
      && w < |s.workers|
      && (IsAwake(s.workers[w]) || s.workers[w].Running?)
      && (sawShutdown ==> s.shutdown)
    case Clear => true
    case BeginStop => s.workers != []
    case WakeAll => s.shutdown
    case EndStop => s.shutdown && forall w :: 0 <= w < |s.workers| ==> s.workers[w].Left?
  }

  function Apply(s: State, a: Action): State
    requires Enabled(s, a)
  {
    match a
    case Start(threads, maxSize) =>
      s.(workers := seq(threads, i => Starting), maxQueueSize := maxSize)
    case Enqueue(tag, sawShutdown, wake) =>
      if sawShutdown || |s.queue| >= s.maxQueueSize then s
      else
        var item := Item(|s.accepted|, tag);
        s.(queue := s.queue + [item],
           accepted := s.accepted + [item],
           workers := if wake.Some? then s.workers[wake.value := Notified] else s.workers)
    case SpuriousWake(w) => s.(workers := s.workers[w := Notified])
    case Turn(w, sawShutdown) => Pick(Retire(s, w), w, sawShutdown)
    case Clear => s.(queue := [], cancelled := s.cancelled + s.queue)
    case BeginStop => s.(shutdown := true)
    case WakeAll =>
      s.(workers := seq(|s.workers|, i requires 0 <= i < |s.workers| =>
                          if s.workers[i].Waiting? then Notified else s.workers[i]))
    case EndStop => s.(workers := [], shutdown := false)
  }

  /** `actions`, taken one after the other from `s`, lead to `t`. */
  ghost predicate Runs(s: State, actions: seq<Action>, t: State)
    decreases |actions|
  {
    if actions == [] then s == t
    else Enabled(s, actions[0]) && Runs(Apply(s, actions[0]), actions[1..], t)
  }

  ghost predicate Reachable(s: State) {
    exists actions :: Runs(INITIAL, actions, s)
  }

  // ---------------------------------------------------------------------------------------------------------
  // Open sequences are exactly the tags being run
  // ---------------------------------------------------------------------------------------------------------

  predicate RunsTag(s: State, w: int, t: nat) {
    0 <= w < |s.workers| && s.workers[w].Running? && s.workers[w].item.tag == Some(t)
  }

  ghost predicate TagsExact(s: State) {
    && (forall w, t :: RunsTag(s, w, t) ==> t in s.open)
    && (forall t :: t in s.open ==> exists w :: RunsTag(s, w, t))
    && (forall v, w, t :: RunsTag(s, v, t) && RunsTag(s, w, t) ==> v == w)
  }

  // ---------------------------------------------------------------------------------------------------------
  // Start order per tag
  // ---------------------------------------------------------------------------------------------------------

  predicate SameTag(a: Item, b: Item) {
    a.tag.Some? && a.tag == b.tag
  }

  ghost predicate SerialsGrow(s: State) {
    && (forall i :: 0 <= i < |s.accepted| ==> s.accepted[i].serial == i)
    && (forall i :: 0 <= i < |s.queue| ==> s.queue[i].serial < |s.accepted|)
    && (forall i, j :: 0 <= i < j < |s.queue| ==> s.queue[i].serial < s.queue[j].serial)
  }

  /** Items with one tag have been started in the order of their acceptance, and before all that still queue. */
  ghost predicate StartOrder(s: State) {
    && (forall i, q :: 0 <= i < |s.log| && s.log[i].Started? && 0 <= q < |s.queue| && SameTag(s.log[i].item, s.queue[q])
          ==> s.log[i].item.serial < s.queue[q].serial)
    && (forall i, j ::
          0 <= i < j < |s.log| && s.log[i].Started? && s.log[j].Started? && SameTag(s.log[i].item, s.log[j].item)
          ==> s.log[i].item.serial < s.log[j].item.serial)
  }

  predicate EndsBetween(log: seq<Event>, i: int, j: int) {
    && 0 <= i < j <= |log|
    && log[i].Started?
    && exists k :: i < k < j && log[k] == Finished(log[i].item)
  }

  predicate RunsItem(s: State, item: Item) {
    exists w :: 0 <= w < |s.workers| && s.workers[w] == Running(item)
  }

  /** A started item has ended or is being run; the next item of its tag started only after it ended. */
  ghost predicate NoOverlap(s: State) {
    && (forall i :: 0 <= i < |s.log| && s.log[i].Started? ==>
          EndsBetween(s.log, i, |s.log|) || RunsItem(s, s.log[i].item))
    && (forall i, j ::
          0 <= i < j < |s.log| && s.log[i].Started? && s.log[j].Started? && SameTag(s.log[i].item, s.log[j].item)
          ==> EndsBetween(s.log, i, j))
  }

  // ---------------------------------------------------------------------------------------------------------
  // Conservation
  // ---------------------------------------------------------------------------------------------------------

  ghost function RunningOf(w: Worker): multiset<Item> {
    if w.Running? then multiset{w.item} else multiset{}
  }

  ghost function RunningItems(workers: seq<Worker>): multiset<Item> {
    if workers == [] then multiset{}
    else RunningItems(workers[..|workers| - 1]) + RunningOf(workers[|workers| - 1])
  }

  ghost function FinishedOf(e: Event): multiset<Item> {
    if e.Finished? then multiset{e.item} else multiset{}
  }

  ghost function FinishedItems(log: seq<Event>): multiset<Item> {
    if log == [] then multiset{}
    else FinishedItems(log[..|log| - 1]) + FinishedOf(log[|log| - 1])
  }

  ghost predicate Conserved(s: State) {
    multiset(s.accepted)
    == multiset(s.queue) + RunningItems(s.workers) + FinishedItems(s.log) + multiset(s.cancelled)
  }

  // ---------------------------------------------------------------------------------------------------------
  // Wake-up counting
  // ---------------------------------------------------------------------------------------------------------

  function Untagged(queue: seq<Item>): nat {
    if queue == [] then 0
    else Untagged(queue[..|queue| - 1]) + if queue[|queue| - 1].tag.None? then 1 else 0
  }

  function QueuedTags(queue: seq<Item>): set<nat> {
    set i | 0 <= i < |queue| && queue[i].tag.Some? :: queue[i].tag.value
  }

  /** How many queued items could be started side by side: untagged ones, plus one for each tag not in progress. */
  function StartableCount(queue: seq<Item>, open: set<nat>): nat {
    Untagged(queue) + |QueuedTags(queue) - open|
  }

  /** Workers that are awake and will scan the queue before they next wait. */
  function Awake(workers: seq<Worker>): nat {
    if workers == [] then 0
    else Awake(workers[..|workers| - 1]) + if IsAwake(workers[|workers| - 1]) then 1 else 0
  }

  ghost predicate WorkConserving(s: State) {
    && (!s.shutdown && SomeWaiting(s.workers) ==> StartableCount(s.queue, s.open) <= Awake(s.workers))
    && (!s.shutdown ==> forall w :: 0 <= w < |s.workers| ==> !s.workers[w].Left?)
  }

  /** Only a pool that has threads is ever being stopped. */
  predicate StopsThreads(s: State) {
    s.shutdown ==> s.workers != []
  }
}
