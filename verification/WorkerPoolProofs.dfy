/** Every action of the thread pool keeps the four invariants of `WorkerPool`; so every reachable state has them. */
module WorkerPoolProofs {
  import opened Wrappers
  import opened WorkerPool

  ghost predicate Inv(s: State) {
    && TagsExact(s)
    && SerialsGrow(s)
    && StartOrder(s)
    && NoOverlap(s)
    && Conserved(s)
    && WorkConserving(s)
  }

  // ---------------------------------------------------------------------------------------------------------
  // Counting lemmas
  // ---------------------------------------------------------------------------------------------------------

  lemma {:induction false} RunningItemsUpdate(workers: seq<Worker>, w: nat, v: Worker)
    requires w < |workers|
    ensures forall x ::
              RunningItems(workers[w := v])[x] + RunningOf(workers[w])[x] == RunningItems(workers)[x] + RunningOf(v)[x]
  {
    var n := |workers| - 1;
    if w == n {
      assert workers[w := v][..n] == workers[..n];
    } else {
      assert workers[w := v][..n] == workers[..n][w := v];
      RunningItemsUpdate(workers[..n], w, v);
    }
  }

  lemma {:induction false} NoneRunning(workers: seq<Worker>)
    requires forall w :: 0 <= w < |workers| ==> !workers[w].Running?
    ensures RunningItems(workers) == multiset{}
  {
    if workers != [] {
      NoneRunning(workers[..|workers| - 1]);
    }
  }

  lemma {:induction false} AwakeUpdate(workers: seq<Worker>, w: nat, v: Worker)
    requires w < |workers|
    ensures Awake(workers[w := v]) + (if IsAwake(workers[w]) then 1 else 0)
         == Awake(workers) + (if IsAwake(v) then 1 else 0)
  {
    var n := |workers| - 1;
    if w == n {
      assert workers[w := v][..n] == workers[..n];
    } else {
      assert workers[w := v][..n] == workers[..n][w := v];
      AwakeUpdate(workers[..n], w, v);
    }
  }

  lemma {:induction false} SameRunning(a: seq<Worker>, b: seq<Worker>)
    requires |a| == |b|
    requires forall w :: 0 <= w < |a| ==> RunningOf(a[w]) == RunningOf(b[w])
    ensures RunningItems(a) == RunningItems(b)
  {
    if a != [] {
      var n := |a| - 1;
      SameRunning(a[..n], b[..n]);
      assert RunningItems(a) == RunningItems(a[..n]) + RunningOf(a[n]);
      assert RunningItems(b) == RunningItems(b[..n]) + RunningOf(b[n]);
    }
  }

  lemma {:induction false} UntaggedSplit(a: seq<Item>, b: seq<Item>)
    ensures Untagged(a + b) == Untagged(a) + Untagged(b)
  {
    if b == [] {
      assert a + b == a;
    } else {
      var n := |b| - 1;
      assert (a + b)[..|a + b| - 1] == a + b[..n];
      UntaggedSplit(a, b[..n]);
    }
  }

  lemma UntaggedRemove(queue: seq<Item>, k: nat)
    requires k < |queue|
    ensures Untagged(queue) == Untagged(queue[..k] + queue[k + 1..]) + if queue[k].tag.None? then 1 else 0
  {
    assert queue == queue[..k] + ([queue[k]] + queue[k + 1..]);
    UntaggedSplit(queue[..k], [queue[k]] + queue[k + 1..]);
    UntaggedSplit([queue[k]], queue[k + 1..]);
    UntaggedSplit(queue[..k], queue[k + 1..]);
    assert [queue[k]][..0] == [];
  }

  lemma QueuedTagsRemove(queue: seq<Item>, k: nat)
    requires k < |queue|
    ensures QueuedTags(queue) == QueuedTags(queue[..k] + queue[k + 1..])
                                 + if queue[k].tag.Some? then {queue[k].tag.value} else {}
  {
    var rest := queue[..k] + queue[k + 1..];
    forall t | t in QueuedTags(queue) && !(queue[k].tag.Some? && t == queue[k].tag.value)
      ensures t in QueuedTags(rest)
    {
      var i :| 0 <= i < |queue| && queue[i].tag.Some? && queue[i].tag.value == t;
      assert i != k;
      assert rest[if i < k then i else i - 1] == queue[i];
    }
    forall t | t in QueuedTags(rest)
      ensures t in QueuedTags(queue)
    {
      var i :| 0 <= i < |rest| && rest[i].tag.Some? && rest[i].tag.value == t;
      assert queue[if i < k then i else i + 1] == rest[i];
    }
  }

  /** Taking a startable item out and opening its tag lowers the count of startable items by exactly one. */
  lemma StartableCountPick(queue: seq<Item>, open: set<nat>, k: nat)
    requires k < |queue| && Startable(open, queue[k])
    ensures StartableCount(queue, open) == StartableCount(queue[..k] + queue[k + 1..], OpenTag(open, queue[k])) + 1
  {
    var rest := queue[..k] + queue[k + 1..];
    UntaggedRemove(queue, k);
    QueuedTagsRemove(queue, k);
    if queue[k].tag.Some? {
      var t := queue[k].tag.value;
      assert QueuedTags(queue) - open == (QueuedTags(rest) - OpenTag(open, queue[k])) + {t};
    } else {
      assert QueuedTags(queue) == QueuedTags(rest);
    }
  }

  lemma StartableCountAppend(queue: seq<Item>, open: set<nat>, item: Item)
    ensures StartableCount(queue + [item], open) <= StartableCount(queue, open) + 1
  {
    UntaggedSplit(queue, [item]);
    assert [item][..0] == [];
    var all := queue + [item];
    QueuedTagsRemove(all, |queue|);
    assert all[..|queue|] + all[|queue| + 1..] == queue;
    if item.tag.Some? {
      var t := item.tag.value;
      assert QueuedTags(all) - open <= (QueuedTags(queue) - open) + {t};
      SubsetSize(QueuedTags(all) - open, (QueuedTags(queue) - open) + {t});
    }
  }

  lemma StartableCountClose(queue: seq<Item>, open: set<nat>, item: Item)
    ensures StartableCount(queue, CloseTag(open, item)) <= StartableCount(queue, open) + 1
  {
    if item.tag.Some? {
      var t := item.tag.value;
      SubsetSize(QueuedTags(queue) - CloseTag(open, item), (QueuedTags(queue) - open) + {t});
    }
  }

  lemma {:induction false} SubsetSize(a: set<nat>, b: set<nat>)
    requires a <= b
    ensures |a| <= |b|
  {
    if a != {} {
      var x :| x in a;
      SubsetSize(a - {x}, b - {x});
    }
  }

  lemma {:induction false} NothingUntagged(queue: seq<Item>)
    requires forall i :: 0 <= i < |queue| ==> queue[i].tag.Some?
    ensures Untagged(queue) == 0
  {
    if queue != [] {
      NothingUntagged(queue[..|queue| - 1]);
    }
  }

  lemma NothingStartable(queue: seq<Item>, open: set<nat>)
    requires FirstStartable(queue, open) == |queue|
    ensures StartableCount(queue, open) == 0
  {
    forall i | 0 <= i < |queue| ensures queue[i].tag.Some? && queue[i].tag.value in open {
      assert !Startable(open, queue[i]);
    }
    NothingUntagged(queue);
    assert QueuedTags(queue) - open == {};
  }

  // ---------------------------------------------------------------------------------------------------------
  // The first half of a turn: the item just executed is retired
  // ---------------------------------------------------------------------------------------------------------

  lemma RetireTags(s: State, w: nat)
    requires w < |s.workers| && TagsExact(s)
    ensures TagsExact(Retire(s, w))
  {
    var r := Retire(s, w);
    forall v, t | RunsTag(r, v, t) ensures RunsTag(s, v, t) && t in r.open {
      assert RunsTag(s, v, t);
      if s.workers[w].Running? && s.workers[w].item.tag == Some(t) {
        assert RunsTag(s, w, t);
      }
    }
    forall t | t in r.open ensures exists v :: RunsTag(r, v, t) {
      var v :| RunsTag(s, v, t);
      assert RunsTag(r, v, t);
    }
  }

  lemma RetireOrder(s: State, w: nat)
    requires w < |s.workers| && StartOrder(s)
    ensures StartOrder(Retire(s, w))
  {
  }

  /** Appending to the log keeps what lay between two events. */
  lemma EndsBetweenAppend(log: seq<Event>, e: Event, i: int, j: int)
    requires EndsBetween(log, i, j)
    ensures EndsBetween(log + [e], i, j)
  {
    var k :| i < k < j && log[k] == Finished(log[i].item);
    assert (log + [e])[k] == Finished((log + [e])[i].item);
  }

  lemma RetireNoOverlap(s: State, w: nat)
    requires w < |s.workers| && NoOverlap(s)
    ensures NoOverlap(Retire(s, w))
  {
    if s.workers[w].Running? {
      var r := Retire(s, w);
      var item := s.workers[w].item;
      forall i | 0 <= i < |r.log| && r.log[i].Started?
        ensures EndsBetween(r.log, i, |r.log|) || RunsItem(r, r.log[i].item)
      {
        assert s.log[i] == r.log[i];
        if r.log[i].item == item {
          assert r.log[|s.log|] == Finished(item);
        } else if EndsBetween(s.log, i, |s.log|) {
          EndsBetweenAppend(s.log, Finished(item), i, |s.log|);
          var k :| i < k < |s.log| && r.log[k] == Finished(r.log[i].item);
        } else {
          var v :| 0 <= v < |s.workers| && s.workers[v] == Running(s.log[i].item);
          assert r.workers[v] == Running(r.log[i].item);
        }
      }
      forall i, j |
        0 <= i < j < |r.log| && r.log[i].Started? && r.log[j].Started? && SameTag(r.log[i].item, r.log[j].item)
        ensures EndsBetween(r.log, i, j)
      {
        assert r.log[i] == s.log[i] && r.log[j] == s.log[j];
        EndsBetweenAppend(s.log, Finished(item), i, j);
      }
    }
  }

  lemma FinishedAppend(log: seq<Event>, e: Event)
    ensures FinishedItems(log + [e]) == FinishedItems(log) + FinishedOf(e)
  {
    assert (log + [e])[..|log|] == log;
  }

  lemma RetireConserved(s: State, w: nat)
    requires w < |s.workers| && Conserved(s)
    ensures Conserved(Retire(s, w))
  {
    if s.workers[w].Running? {
      var r := Retire(s, w);
      RunningItemsUpdate(s.workers, w, Notified);
      FinishedAppend(s.log, Finished(s.workers[w].item));
      assert forall x :: RunningItems(s.workers)[x] + FinishedItems(s.log)[x]
                      == RunningItems(r.workers)[x] + FinishedItems(r.log)[x];
      assert RunningItems(s.workers) + FinishedItems(s.log) == RunningItems(r.workers) + FinishedItems(r.log);
    }
  }

  lemma RetireWorkConserving(s: State, w: nat)
    requires w < |s.workers| && WorkConserving(s)
    ensures WorkConserving(Retire(s, w))
  {
    if s.workers[w].Running? {
      var r := Retire(s, w);
      AwakeUpdate(s.workers, w, Notified);
      StartableCountClose(s.queue, s.open, s.workers[w].item);
      if SomeWaiting(r.workers) {
        var v :| 0 <= v < |r.workers| && r.workers[v].Waiting?;
        assert s.workers[v].Waiting?;
      }
    }
  }

  lemma RetireInv(s: State, w: nat)
    requires w < |s.workers| && Inv(s)
    ensures Inv(Retire(s, w))
  {
    RetireTags(s, w);
    RetireOrder(s, w);
    RetireNoOverlap(s, w);
    RetireConserved(s, w);
    RetireWorkConserving(s, w);
  }

  // ---------------------------------------------------------------------------------------------------------
  // The second half of a turn: an awake worker takes an item, waits or leaves
  // ---------------------------------------------------------------------------------------------------------

  ghost predicate CanPick(s: State, w: nat, sawShutdown: bool) {
    w < |s.workers| && IsAwake(s.workers[w]) && (sawShutdown ==> s.shutdown)
  }

  lemma PickTags(s: State, w: nat, sawShutdown: bool)
    requires CanPick(s, w, sawShutdown) && TagsExact(s)
    ensures TagsExact(Pick(s, w, sawShutdown))
  {
    var r := Pick(s, w, sawShutdown);
    var k := FirstStartable(s.queue, s.open);
    forall v, t | RunsTag(r, v, t) ensures t in r.open {
      if v != w { assert RunsTag(s, v, t); }
    }
    forall t | t in r.open ensures exists v :: RunsTag(r, v, t) {
      if t in s.open {
        var v :| RunsTag(s, v, t);
        assert RunsTag(r, v, t);
      } else {
        assert RunsTag(r, w, t);
      }
    }
    forall u, v, t | RunsTag(r, u, t) && RunsTag(r, v, t) ensures u == v {
      if u != w { assert RunsTag(s, u, t); }
      if v != w { assert RunsTag(s, v, t); }
    }
  }

  lemma PickSerials(s: State, w: nat, sawShutdown: bool)
    requires CanPick(s, w, sawShutdown) && SerialsGrow(s)
    ensures SerialsGrow(Pick(s, w, sawShutdown))
  {
    var k := FirstStartable(s.queue, s.open);
    if k < |s.queue| {
      var rest := s.queue[..k] + s.queue[k + 1..];
      assert forall i :: 0 <= i < |rest| ==> rest[i] == s.queue[if i < k then i else i + 1];
    }
  }

  /** The picked item is the earliest queued one of its tag: everything before it is blocked by another tag. */
  lemma PickOrder(s: State, w: nat, sawShutdown: bool)
    requires CanPick(s, w, sawShutdown) && SerialsGrow(s) && StartOrder(s)
    ensures StartOrder(Pick(s, w, sawShutdown))
  {
    var r := Pick(s, w, sawShutdown);
    var k := FirstStartable(s.queue, s.open);
    if k < |s.queue| {
      assert forall i :: 0 <= i < |r.queue| ==> r.queue[i] == s.queue[if i < k then i else i + 1];
      forall i, q | 0 <= i < |r.log| && r.log[i].Started? && 0 <= q < |r.queue| && SameTag(r.log[i].item, r.queue[q])
        ensures r.log[i].item.serial < r.queue[q].serial
      {
        if i == |s.log| {
          assert SameTag(s.queue[k], r.queue[q]) && k <= q;
        }
      }
    }
  }

  lemma PickNoOverlap(s: State, w: nat, sawShutdown: bool)
    requires CanPick(s, w, sawShutdown) && TagsExact(s) && NoOverlap(s)
    ensures NoOverlap(Pick(s, w, sawShutdown))
  {
    var r := Pick(s, w, sawShutdown);
    var k := FirstStartable(s.queue, s.open);
    forall i | 0 <= i < |s.log| && s.log[i].Started?
      ensures EndsBetween(r.log, i, |s.log|) || RunsItem(r, s.log[i].item)
    {
      if EndsBetween(s.log, i, |s.log|) {
        if k < |s.queue| { EndsBetweenAppend(s.log, Started(s.queue[k]), i, |s.log|); }
      } else {
        var v :| 0 <= v < |s.workers| && s.workers[v] == Running(s.log[i].item);
        assert r.workers[v] == Running(s.log[i].item);
      }
    }
    if k < |s.queue| {
      PickNoOverlapLog(s, r, w, k);
    }
  }

  lemma PickNoOverlapLog(s: State, r: State, w: nat, k: nat)
    requires CanPick(s, w, false) && TagsExact(s) && NoOverlap(s)
    requires k == FirstStartable(s.queue, s.open) < |s.queue| && r == Pick(s, w, false)
    requires forall i :: 0 <= i < |s.log| && s.log[i].Started? ==>
              EndsBetween(r.log, i, |s.log|) || RunsItem(r, s.log[i].item)
    ensures NoOverlap(r)
  {
    var item := s.queue[k];
    assert r.workers[w] == Running(item);
    forall i | 0 <= i < |r.log| && r.log[i].Started?
      ensures EndsBetween(r.log, i, |r.log|) || RunsItem(r, r.log[i].item)
    {
      if i < |s.log| && EndsBetween(r.log, i, |s.log|) {
        var m :| i < m < |s.log| && r.log[m] == Finished(r.log[i].item);
      }
    }
    forall i, j |
      0 <= i < j < |r.log| && r.log[i].Started? && r.log[j].Started? && SameTag(r.log[i].item, r.log[j].item)
      ensures EndsBetween(r.log, i, j)
    {
      if j < |s.log| {
        EndsBetweenAppend(s.log, Started(item), i, j);
      } else if !EndsBetween(s.log, i, |s.log|) {
        var v :| 0 <= v < |s.workers| && s.workers[v] == Running(s.log[i].item);
        assert RunsTag(s, v, item.tag.value);
        assert false;
      } else {
        EndsBetweenAppend(s.log, Started(item), i, j);
      }
    }
  }

  lemma QueueRemove(queue: seq<Item>, k: nat)
    requires k < |queue|
    ensures multiset(queue) == multiset(queue[..k] + queue[k + 1..]) + multiset{queue[k]}
  {
    assert queue == queue[..k] + [queue[k]] + queue[k + 1..];
  }

  lemma PickConserved(s: State, w: nat, sawShutdown: bool)
    requires CanPick(s, w, sawShutdown) && Conserved(s)
    ensures Conserved(Pick(s, w, sawShutdown))
  {
    var k := FirstStartable(s.queue, s.open);
    if k < |s.queue| {
      PickStartedConserved(s, w, k);
    } else {
      var r := Pick(s, w, sawShutdown);
      RunningItemsUpdate(s.workers, w, r.workers[w]);
      assert RunningItems(r.workers) == RunningItems(s.workers);
    }
  }

  lemma PickStartedConserved(s: State, w: nat, k: nat)
    requires CanPick(s, w, false) && Conserved(s) && k == FirstStartable(s.queue, s.open) < |s.queue|
    ensures Conserved(Pick(s, w, false))
  {
    var item := s.queue[k];
    var rest := s.queue[..k] + s.queue[k + 1..];
    var workers := s.workers[w := Running(item)];
    RunningItemsUpdate(s.workers, w, Running(item));
    QueueRemove(s.queue, k);
    FinishedAppend(s.log, Started(item));
    assert RunningItems(workers) == RunningItems(s.workers) + multiset{item};
    Regroup(multiset(rest), multiset{item}, RunningItems(s.workers), FinishedItems(s.log), multiset(s.cancelled));
  }

  lemma Regroup(a: multiset<Item>, b: multiset<Item>, c: multiset<Item>, d: multiset<Item>, e: multiset<Item>)
    ensures (a + b) + c + d + e == a + (c + b) + d + e
  {
  }

  lemma PickWorkConserving(s: State, w: nat, sawShutdown: bool)
    requires CanPick(s, w, sawShutdown) && WorkConserving(s)
    ensures WorkConserving(Pick(s, w, sawShutdown))
  {
    var r := Pick(s, w, sawShutdown);
    var k := FirstStartable(s.queue, s.open);
    if k < |s.queue| {
      PickStartedWorkConserving(s, w, k);
    } else {
      AwakeUpdate(s.workers, w, r.workers[w]);
      NothingStartable(s.queue, s.open);
    }
  }

  lemma PickStartedWorkConserving(s: State, w: nat, k: nat)
    requires CanPick(s, w, false) && WorkConserving(s) && k == FirstStartable(s.queue, s.open) < |s.queue|
    ensures WorkConserving(Pick(s, w, false))
  {
    PickStartedWaiting(s.workers, w, s.queue[k]);
    if !s.shutdown && SomeWaiting(s.workers) {
      PickStartedCounts(s, w, k);
    }
  }

  /** A worker that starts an item was awake: nobody begins to wait or leaves. */
  lemma PickStartedWaiting(workers: seq<Worker>, w: nat, item: Item)
    requires w < |workers| && IsAwake(workers[w])
    ensures SomeWaiting(workers[w := Running(item)]) ==> SomeWaiting(workers)
    ensures forall v :: 0 <= v < |workers| && workers[w := Running(item)][v].Left? ==> workers[v].Left?
  {
    if SomeWaiting(workers[w := Running(item)]) {
      var v :| 0 <= v < |workers| && workers[w := Running(item)][v].Waiting?;
      assert workers[v].Waiting?;
    }
  }

  /** One startable item less, and one awake worker less. */
  lemma PickStartedCounts(s: State, w: nat, k: nat)
    requires w < |s.workers| && IsAwake(s.workers[w]) && k == FirstStartable(s.queue, s.open) < |s.queue|
    requires StartableCount(s.queue, s.open) <= Awake(s.workers)
    ensures StartableCount(s.queue[..k] + s.queue[k + 1..], OpenTag(s.open, s.queue[k]))
         <= Awake(s.workers[w := Running(s.queue[k])])
  {
    AwakeUpdate(s.workers, w, Running(s.queue[k]));
    StartableCountPick(s.queue, s.open, k);
  }

  lemma PickInv(s: State, w: nat, sawShutdown: bool)
    requires CanPick(s, w, sawShutdown) && Inv(s)
    ensures Inv(Pick(s, w, sawShutdown))
  {
    PickTags(s, w, sawShutdown);
    PickSerials(s, w, sawShutdown);
    PickOrder(s, w, sawShutdown);
    PickNoOverlap(s, w, sawShutdown);
    PickConserved(s, w, sawShutdown);
    PickWorkConserving(s, w, sawShutdown);
  }

  // ---------------------------------------------------------------------------------------------------------
  // The other actions
  // ---------------------------------------------------------------------------------------------------------

  lemma EnqueueOrder(s: State, r: State, item: Item)
    requires SerialsGrow(s) && StartOrder(s)
    requires forall i :: 0 <= i < |s.log| && s.log[i].Started? ==> s.log[i].item.serial < |s.accepted|
    requires item.serial == |s.accepted| && r.log == s.log
    requires r.queue == s.queue + [item] && r.accepted == s.accepted + [item]
    ensures SerialsGrow(r) && StartOrder(r)
  {
  }

  /** Started items are accepted items, so their serials lie below the next one. */
  lemma LoggedWereAccepted(s: State)
    requires SerialsGrow(s) && Conserved(s) && NoOverlap(s)
    ensures forall i :: 0 <= i < |s.log| && s.log[i].Started? ==> s.log[i].item.serial < |s.accepted|
  {
    forall i | 0 <= i < |s.log| && s.log[i].Started?
      ensures s.log[i].item.serial < |s.accepted|
    {
      var item := s.log[i].item;
      if EndsBetween(s.log, i, |s.log|) {
        var k :| i < k < |s.log| && s.log[k] == Finished(item);
        InFinished(s.log, k);
      } else {
        var w :| 0 <= w < |s.workers| && s.workers[w] == Running(item);
        InRunning(s.workers, w);
      }
      assert item in multiset(s.accepted);
      assert item in s.accepted;
    }
  }

  lemma {:induction false} InFinished(log: seq<Event>, k: nat)
    requires k < |log| && log[k].Finished?
    ensures log[k].item in FinishedItems(log)
  {
    if k < |log| - 1 {
      InFinished(log[..|log| - 1], k);
    }
  }

  lemma {:induction false} InRunning(workers: seq<Worker>, w: nat)
    requires w < |workers| && workers[w].Running?
    ensures workers[w].item in RunningItems(workers)
  {
    if w < |workers| - 1 {
      InRunning(workers[..|workers| - 1], w);
    }
  }

  /** `r` is `s` up to where idle workers stand and where dropped items went. */
  ghost predicate SameRunners(s: State, r: State) {
    && r.open == s.open && r.log == s.log && r.accepted == s.accepted
    && multiset(r.queue) + multiset(r.cancelled) == multiset(s.queue) + multiset(s.cancelled)
    && |r.workers| == |s.workers|
    && (forall w :: 0 <= w < |s.workers| ==> RunningOf(r.workers[w]) == RunningOf(s.workers[w]))
  }

  lemma SameRunnersTags(s: State, r: State)
    requires SameRunners(s, r) && TagsExact(s)
    ensures TagsExact(r)
  {
    forall v, t ensures RunsTag(r, v, t) <==> RunsTag(s, v, t) {
      if 0 <= v < |s.workers| {
        SameRunner(s.workers[v], r.workers[v]);
      }
    }
  }

  lemma SameRunner(a: Worker, b: Worker)
    requires RunningOf(a) == RunningOf(b)
    ensures a.Running? <==> b.Running?
    ensures a.Running? ==> a == b
  {
    if a.Running? {
      assert a.item in RunningOf(b);
    }
    if b.Running? {
      assert b.item in RunningOf(a);
    }
  }

  lemma SameRunnersNoOverlap(s: State, r: State)
    requires SameRunners(s, r) && NoOverlap(s)
    ensures NoOverlap(r)
  {
    forall item | RunsItem(s, item) ensures RunsItem(r, item) {
      var v :| 0 <= v < |s.workers| && s.workers[v] == Running(item);
      SameRunner(s.workers[v], r.workers[v]);
      assert r.workers[v] == Running(item);
    }
  }

  lemma SameRunnersConserved(s: State, r: State)
    requires SameRunners(s, r) && Conserved(s)
    ensures Conserved(r)
  {
    SameRunning(s.workers, r.workers);
    var running, finished := RunningItems(s.workers), FinishedItems(s.log);
    assert multiset(r.queue) + running + finished + multiset(r.cancelled)
        == multiset(r.queue) + multiset(r.cancelled) + (running + finished);
    assert multiset(s.queue) + running + finished + multiset(s.cancelled)
        == multiset(s.queue) + multiset(s.cancelled) + (running + finished);
  }

  lemma SameRunnersKeep(s: State, r: State)
    requires SameRunners(s, r) && TagsExact(s) && NoOverlap(s) && Conserved(s)
    ensures TagsExact(r) && NoOverlap(r) && Conserved(r)
  {
    SameRunnersTags(s, r);
    SameRunnersNoOverlap(s, r);
    SameRunnersConserved(s, r);
  }

  /** Waking a waiting worker changes nothing but the number of awake workers. */
  lemma WakeInv(s: State, w: nat)
    requires w < |s.workers| && s.workers[w].Waiting? && Inv(s)
    ensures Inv(s.(workers := s.workers[w := Notified]))
    ensures Awake(s.workers[w := Notified]) == Awake(s.workers) + 1
  {
    var r := s.(workers := s.workers[w := Notified]);
    AwakeUpdate(s.workers, w, Notified);
    SameRunnersKeep(s, r);
    SameOrder(s, r);
    WakeWorkConserving(s, w);
  }

  lemma SameOrder(s: State, r: State)
    requires r.accepted == s.accepted && r.log == s.log && (r.queue == s.queue || r.queue == [])
    requires SerialsGrow(s) && StartOrder(s)
    ensures SerialsGrow(r) && StartOrder(r)
  {
  }

  lemma WakeWorkConserving(s: State, w: nat)
    requires w < |s.workers| && s.workers[w].Waiting? && WorkConserving(s)
    ensures WorkConserving(s.(workers := s.workers[w := Notified]))
  {
    AwakeUpdate(s.workers, w, Notified);
    assert SomeWaiting(s.workers);
  }

  /** Accepting an item and waking one worker, if any waits. */
  lemma EnqueueInv(s: State, a: Action)
    requires a.Enqueue? && Enabled(s, a) && Inv(s)
    ensures Inv(Apply(s, a))
  {
    if Apply(s, a) != s {
      var item := Item(|s.accepted|, a.tag);
      var woken := s;
      if a.wake.Some? {
        WakeInv(s, a.wake.value);
        woken := s.(workers := s.workers[a.wake.value := Notified]);
      }
      EnqueueItemInv(woken, item);
      EnqueueWorkConserving(s, a, item);
    }
  }

  /** The new item at the end of the queue, whoever has been woken up. */
  lemma EnqueueItemInv(s: State, item: Item)
    requires TagsExact(s) && SerialsGrow(s) && StartOrder(s) && NoOverlap(s) && Conserved(s)
    requires item.serial == |s.accepted|
    ensures var r := s.(queue := s.queue + [item], accepted := s.accepted + [item]);
            TagsExact(r) && SerialsGrow(r) && StartOrder(r) && NoOverlap(r) && Conserved(r)
  {
    var r := s.(queue := s.queue + [item], accepted := s.accepted + [item]);
    LoggedWereAccepted(s);
    EnqueueOrder(s, r, item);
    EnqueueKeeps(s, r);
  }

  /** One startable item more at most, and one awake worker more if any waits. */
  lemma EnqueueWorkConserving(s: State, a: Action, item: Item)
    requires a.Enqueue? && Enabled(s, a) && Apply(s, a) != s && item == Item(|s.accepted|, a.tag) && WorkConserving(s)
    ensures WorkConserving(Apply(s, a))
  {
    StartableCountAppend(s.queue, s.open, item);
    if a.wake.Some? {
      AwakeUpdate(s.workers, a.wake.value, Notified);
      assert SomeWaiting(s.workers);
    }
  }

  lemma EnqueueKeeps(s: State, r: State)
    requires r == s.(queue := r.queue, accepted := r.accepted)
    requires TagsExact(s) && NoOverlap(s) && Conserved(s)
    requires exists item :: r.queue == s.queue + [item] && r.accepted == s.accepted + [item]
    ensures TagsExact(r) && NoOverlap(r) && Conserved(r)
  {
    assert forall v, t :: RunsTag(r, v, t) <==> RunsTag(s, v, t);
    assert forall item :: RunsItem(s, item) ==> RunsItem(r, item);
  }

  /** Dropping the queue, raising the shutdown flag and waking everybody leave the running items alone. */
  lemma ControlInv(s: State, a: Action)
    requires a.Clear? || a.BeginStop? || a.WakeAll?
    requires Enabled(s, a) && Inv(s)
    ensures Inv(Apply(s, a))
  {
    ControlSameRunners(s, a);
    SameRunnersKeep(s, Apply(s, a));
    SameOrder(s, Apply(s, a));
    ControlWorkConserving(s, a);
  }

  lemma ControlSameRunners(s: State, a: Action)
    requires a.Clear? || a.BeginStop? || a.WakeAll?
    requires Enabled(s, a)
    ensures SameRunners(s, Apply(s, a))
  {
    match a
    case Clear => ClearSameRunners(s);
    case WakeAll => WakeAllSameRunners(s);
    case _ =>
  }

  lemma ClearSameRunners(s: State)
    ensures SameRunners(s, Apply(s, Clear))
  {
    assert multiset(s.cancelled + s.queue) == multiset(s.cancelled) + multiset(s.queue);
  }

  lemma WakeAllSameRunners(s: State)
    requires s.shutdown
    ensures SameRunners(s, Apply(s, WakeAll))
  {
  }

  lemma ControlWorkConserving(s: State, a: Action)
    requires a.Clear? || a.BeginStop? || a.WakeAll?
    requires Enabled(s, a) && WorkConserving(s)
    ensures WorkConserving(Apply(s, a))
  {
    if a.Clear? {
      assert QueuedTags([]) - s.open == {};
    }
  }

  /** All workers are gone (or not yet there): nothing runs, no sequence is open, everything started has ended. */
  lemma RosterInv(s: State, a: Action)
    requires a.Start? || a.EndStop?
    requires Enabled(s, a) && Inv(s)
    ensures Inv(Apply(s, a))
  {
    var r := Apply(s, a);
    NoRunnerNoTag(s);
    assert forall v, t :: !RunsTag(r, v, t);
    RosterNoOverlap(s, r);
    NoneRunning(s.workers);
    NoneRunning(r.workers);
    SameOrder(s, r);
    assert WorkConserving(r);
  }

  lemma RosterNoOverlap(s: State, r: State)
    requires NoOverlap(s) && r.log == s.log
    requires forall v :: 0 <= v < |s.workers| ==> !s.workers[v].Running?
    ensures NoOverlap(r)
  {
    assert forall item :: !RunsItem(s, item);
  }

  lemma NoRunnerNoTag(s: State)
    requires TagsExact(s) && forall v :: 0 <= v < |s.workers| ==> !s.workers[v].Running?
    ensures s.open == {}
  {
    assert forall v, t :: !RunsTag(s, v, t);
  }

  lemma StepInv(s: State, a: Action)
    requires Enabled(s, a) && Inv(s)
    ensures Inv(Apply(s, a))
  {
    match a
    case Enqueue(_, _, _) => EnqueueInv(s, a);
    case SpuriousWake(w) => WakeInv(s, w);
    case Turn(w, sawShutdown) =>
      RetireInv(s, w);
      PickInv(Retire(s, w), w, sawShutdown);
    case Start(_, _) => RosterInv(s, a);
    case EndStop => RosterInv(s, a);
    case _ => ControlInv(s, a);
  }

  lemma {:induction false} RunInv(s: State, actions: seq<Action>, t: State)
    requires Inv(s) && Runs(s, actions, t)
    ensures Inv(t)
    decreases |actions|
  {
    if actions != [] {
      StepInv(s, actions[0]);
      RunInv(Apply(s, actions[0]), actions[1..], t);
    }
  }

  lemma {:induction false} RunStops(s: State, actions: seq<Action>, t: State)
    requires StopsThreads(s) && Runs(s, actions, t)
    ensures StopsThreads(t)
    decreases |actions|
  {
    if actions != [] {
      RunStops(Apply(s, actions[0]), actions[1..], t);
    }
  }

  // ---------------------------------------------------------------------------------------------------------
  // Main results
  // ---------------------------------------------------------------------------------------------------------

  lemma {:induction false} RunAppend(s: State, actions: seq<Action>, t: State, a: Action)
    requires Runs(s, actions, t) && Enabled(t, a)
    ensures Runs(s, actions + [a], Apply(t, a))
    decreases |actions|
  {
    if actions == [] {
      assert [a][1..] == [];
    } else {
      RunAppend(Apply(s, actions[0]), actions[1..], t, a);
      assert (actions + [a])[1..] == actions[1..] + [a];
    }
  }

  lemma ReachableStep(s: State, a: Action)
    requires Reachable(s) && Enabled(s, a)
    ensures Reachable(Apply(s, a))
  {
    var actions :| Runs(INITIAL, actions, s);
    RunAppend(INITIAL, actions, s, a);
  }

  lemma InitialReachable()
    ensures Reachable(INITIAL)
  {
    assert Runs(INITIAL, [], INITIAL);
  }

  lemma ReachableInv(s: State)
    requires Reachable(s)
    ensures Inv(s)
    ensures StopsThreads(s)
  {
    var actions :| Runs(INITIAL, actions, s);
    assert Inv(INITIAL);
    RunInv(INITIAL, actions, s);
    RunStops(INITIAL, actions, s);
  }

  /** The tags of the items, in order. */
  function TagsOf(items: seq<Item>): seq<Option<nat>> {
    seq(|items|, i requires 0 <= i < |items| => items[i].tag)
  }

  /** The tags under which the run has enqueued what was accepted: with room in the queue, and no stop seen. */
  ghost function TagsEnqueued(s: State, actions: seq<Action>, t: State): seq<Option<nat>>
    requires Runs(s, actions, t)
    decreases |actions|
  {
    if actions == [] then []
    else
      var a := actions[0];
      (if a.Enqueue? && !a.sawShutdown && |s.queue| < s.maxQueueSize then [a.tag] else [])
      + TagsEnqueued(Apply(s, a), actions[1..], t)
  }

  lemma StepTags(s: State, a: Action)
    requires Enabled(s, a)
    ensures TagsOf(Apply(s, a).accepted)
         == TagsOf(s.accepted) + if a.Enqueue? && !a.sawShutdown && |s.queue| < s.maxQueueSize then [a.tag] else []
  {
  }

  /** Over any run, every item carries the tag under which it was enqueued. */
  lemma {:induction false} ItemsKeepTheirTags(s: State, actions: seq<Action>, t: State)
    requires Runs(s, actions, t)
    ensures TagsOf(t.accepted) == TagsOf(s.accepted) + TagsEnqueued(s, actions, t)
    decreases |actions|
  {
    if actions != [] {
      StepTags(s, actions[0]);
      ItemsKeepTheirTags(Apply(s, actions[0]), actions[1..], t);
    }
  }

  /** The tags in progress once worker `w` is done with what it was running. */
  function OpenWithout(s: State, w: nat): set<nat>
    requires w < |s.workers|
  {
    if s.workers[w].Running? && s.workers[w].item.tag.Some? then s.open - {s.workers[w].item.tag.value} else s.open
  }

  /** The end of what worker `w` was running, if anything. */
  function EndOf(s: State, w: nat): seq<Event>
    requires w < |s.workers|
  {
    if s.workers[w].Running? then [Finished(s.workers[w].item)] else []
  }

  predicate Blocked(item: Item, open: set<nat>) {
    item.tag.Some? && item.tag.value in open
  }

  /** Worker `w` has taken the item at position `k`, the first that is not blocked, and its tag is in progress. */
  ghost predicate Took(s: State, r: State, w: nat, k: nat)
    requires w < |s.workers|
  {
    && k < |s.queue| && !Blocked(s.queue[k], OpenWithout(s, w))
    && (forall j :: 0 <= j < k ==> Blocked(s.queue[j], OpenWithout(s, w)))
    && r.queue == s.queue[..k] + s.queue[k + 1..]
    && w < |r.workers| && r.workers[w] == Running(s.queue[k])
    && r.log == s.log + EndOf(s, w) + [Started(s.queue[k])]
    && r.open == OpenWithout(s, w) + (if s.queue[k].tag.Some? then {s.queue[k].tag.value} else {})
  }

  /** Every item is blocked, and worker `w` waits or leaves. */
  ghost predicate FoundNothing(s: State, r: State, w: nat, leave: bool)
    requires w < |s.workers|
  {
    && (forall j :: 0 <= j < |s.queue| ==> Blocked(s.queue[j], OpenWithout(s, w)))
    && r.queue == s.queue && w < |r.workers| && r.workers[w] == (if leave then Left else Waiting)
    && r.log == s.log + EndOf(s, w) && r.open == OpenWithout(s, w)
  }

  ghost predicate OthersSame(s: State, r: State, w: nat) {
    && |r.workers| == |s.workers|
    && (forall v :: 0 <= v < |s.workers| && v != w ==> r.workers[v] == s.workers[v])
    && r.shutdown == s.shutdown && r.maxQueueSize == s.maxQueueSize
    && r.accepted == s.accepted && r.cancelled == s.cancelled
  }

  /** A worker's turn: the end of its item, and then the first item that is not blocked, or none. */
  lemma TurnMeans(s: State, w: nat, leave: bool)
    requires Enabled(s, Turn(w, leave))
    ensures var r := Apply(s, Turn(w, leave));
            && OthersSame(s, r, w)
            && ((exists k: nat :: Took(s, r, w, k)) || FoundNothing(s, r, w, leave))
  {
    var mid := Retire(s, w);
    assert mid.open == OpenWithout(s, w) && mid.log == s.log + EndOf(s, w) && mid.queue == s.queue;
    var k := FirstStartable(mid.queue, mid.open);
    assert k < |s.queue| ==> Took(s, Apply(s, Turn(w, leave)), w, k);
  }

  /** No two workers ever run items of one sequence, and the open set is exactly what is being run. */
  lemma TagsNeverRunInParallel(s: State, v: nat, w: nat)
    requires Reachable(s)
    requires v < |s.workers| && w < |s.workers| && s.workers[v].Running? && s.workers[w].Running?
    ensures v != w ==> !SameTag(s.workers[v].item, s.workers[w].item)
    ensures s.workers[w].item.tag.Some? ==> s.workers[w].item.tag.value in s.open
    ensures forall t :: t in s.open ==> exists u :: RunsTag(s, u, t)
  {
    ReachableInv(s);
    if s.workers[v].item.tag.Some? {
      assert RunsTag(s, v, s.workers[v].item.tag.value);
    }
    if s.workers[w].item.tag.Some? {
      assert RunsTag(s, w, s.workers[w].item.tag.value);
    }
  }

  /** Items of one sequence start in the order in which they were enqueued, each after the previous one ended. */
  lemma TagsStartInOrder(s: State, i: nat, j: nat)
    requires Reachable(s)
    requires i < j < |s.log| && s.log[i].Started? && s.log[j].Started? && SameTag(s.log[i].item, s.log[j].item)
    ensures s.log[i].item.serial < s.log[j].item.serial
    ensures EndsBetween(s.log, i, j)
  {
    ReachableInv(s);
  }

  /** Nothing is lost, doubled or invented: every accepted item is queued, running, finished or cancelled. */
  lemma ItemsConserved(s: State)
    requires Reachable(s)
    ensures multiset(s.accepted)
         == multiset(s.queue) + RunningItems(s.workers) + FinishedItems(s.log) + multiset(s.cancelled)
    ensures forall x :: multiset(s.accepted)[x] <= 1
    ensures forall i :: 0 <= i < |s.accepted| ==> s.accepted[i].serial == i
  {
    ReachableInv(s);
    forall x ensures multiset(s.accepted)[x] <= 1 {
      DistinctOnce(s.accepted, x);
    }
  }

  lemma {:induction false} DistinctOnce(items: seq<Item>, x: Item)
    requires forall i :: 0 <= i < |items| ==> items[i].serial == i
    ensures multiset(items)[x] <= 1
  {
    if items != [] {
      var n := |items| - 1;
      assert items == items[..n] + [items[n]];
      DistinctOnce(items[..n], x);
      if items[n] == x {
        assert x !in items[..n];
      }
    }
  }

  /** While the pool is not being stopped, a startable item never sits in the queue with every free worker asleep. */
  lemma PoolIsWorkConserving(s: State)
    requires Reachable(s) && !s.shutdown && SomeWaiting(s.workers)
    ensures StartableCount(s.queue, s.open) <= Awake(s.workers)
    ensures (forall w :: 0 <= w < |s.workers| ==> !IsAwake(s.workers[w])) ==>
              FirstStartable(s.queue, s.open) == |s.queue|
  {
    ReachableInv(s);
    if forall w :: 0 <= w < |s.workers| ==> !IsAwake(s.workers[w]) {
      NoneAwake(s.workers);
      var k := FirstStartable(s.queue, s.open);
      if k < |s.queue| {
        StartableCountPick(s.queue, s.open, k);
      }
    }
  }

  lemma {:induction false} NoneAwake(workers: seq<Worker>)
    requires forall w :: 0 <= w < |workers| ==> !IsAwake(workers[w])
    ensures Awake(workers) == 0
  {
    if workers != [] {
      NoneAwake(workers[..|workers| - 1]);
    }
  }

  /** In a graceful stop a worker that leaves while no other one runs an item leaves an empty queue behind. */
  lemma LastToLeaveEmptiesQueue(s: State, w: nat)
    requires Reachable(s) && Enabled(s, Turn(w, true)) && Apply(s, Turn(w, true)).workers[w].Left?
    requires forall v :: 0 <= v < |s.workers| && v != w ==> !s.workers[v].Running?
    ensures Apply(s, Turn(w, true)).queue == []
  {
    ReachableInv(s);
    RetireTags(s, w);
    NoRunnerNoTag(Retire(s, w));
    NothingBlocked(Retire(s, w).queue);
  }

  lemma NothingBlocked(queue: seq<Item>)
    requires FirstStartable(queue, {}) == |queue|
    ensures queue == []
  {
  }
}
