/**
  The pool's object: the fields guarded by the queue mutex and the code that runs under it.  Each method is one
  critical section, and its contract ties it to one action of `WorkerPool`, so everything proved there about
  runs of actions holds for runs of these methods.
 */
module BackgroundWorkers {
  import opened Wrappers
  import opened WorkerPool
  import opened WorkerPoolProofs

  class BackgroundWorker {
    var queue: seq<Item>
    var openSequences: set<nat>
    var workers: seq<Worker>
    var shutdown: bool
    var maxQueueSize: nat
    ghost var accepted: seq<Item>
    ghost var cancelled: seq<Item>
    ghost var log: seq<Event>
    var acceptedCount: nat

    ghost function Value(): State
      reads this
    {
      State(queue, openSequences, workers, shutdown, maxQueueSize, accepted, cancelled, log)
    }

    /** What only the history knows has not changed. */
    twostate predicate SameHistory()
      reads this
    {
      accepted == old(accepted) && cancelled == old(cancelled) && log == old(log)
    }

    /** One worker is somewhere else now, or none. */
    twostate predicate OnlyMoved(w: Option<nat>)
      reads this
    {
      && |workers| == old(|workers|)
      && forall v :: 0 <= v < |workers| && w != Some(v) ==> workers[v] == old(workers[v])
    }

    /** The object's state has been reached by actions of the pool, so all results about reachable states hold. */
    ghost predicate Valid()
      reads this
    {
      acceptedCount == |accepted| && Reachable(Value())
    }

    constructor ()
      ensures Valid() && Value() == INITIAL
    {
      queue, openSequences, workers, shutdown, maxQueueSize := [], {}, [], false, MAX_QUEUE_SIZE;
      accepted, cancelled, log, acceptedCount := [], [], [], 0;
      InitialReachable();
    }

    /** Starts the worker threads; refused while the pool has threads or for a useless size. */
    method StartThreads(workerThreads: nat, maxSize: nat) returns (ok: bool)
      requires Valid()
      modifies this
      ensures Valid()
      ensures ok <==> old(workers) == [] && workerThreads >= 1 && maxSize >= 1
      ensures ok ==> !old(shutdown)
      ensures Value() == if ok then old(Apply(Value(), Start(workerThreads, maxSize))) else old(Value())
      ensures ok ==> |workers| == workerThreads && maxQueueSize == maxSize
      ensures ok ==> forall w :: 0 <= w < |workers| ==> workers[w] == Starting
      ensures queue == old(queue) && openSequences == old(openSequences) && shutdown == old(shutdown) && SameHistory()
    {
      ReachableInv(Value());
      if workers != [] || workerThreads < 1 || maxSize < 1 {
        return false;
      }
      ReachableStep(Value(), Start(workerThreads, maxSize));
      maxQueueSize := maxSize;
      var i := 0;
      while i < workerThreads
        invariant i <= workerThreads == |workers| + (workerThreads - i)
        invariant forall w :: 0 <= w < i ==> workers[w] == Starting
        invariant Value() == old(Value()).(workers := workers, maxQueueSize := maxSize)
        invariant acceptedCount == |accepted|
      {
        workers := workers + [Starting];
        i := i + 1;
      }
      assert workers == seq(workerThreads, k => Starting);
      return true;
    }

    /**
      Adds an item at the end of the queue and notifies one waiting worker.  The shutdown flag is read before the
      mutex is taken: `sawShutdown` is what was read.  Which waiting worker wakes up is the system's choice, `wake`.
     */
    method EnqueueTagged(tag: Option<nat>, sawShutdown: bool, wake: Option<nat>) returns (ok: bool)
      requires Valid() && Enabled(Value(), Enqueue(tag, sawShutdown, wake))
      modifies this
      ensures Valid()
      ensures Value() == old(Apply(Value(), Enqueue(tag, sawShutdown, wake)))
      ensures ok <==> !sawShutdown && old(|queue|) < maxQueueSize
      ensures !ok ==> Value() == old(Value())
      ensures ok ==> queue == old(queue) + [Item(old(|accepted|), tag)]
      ensures ok ==> accepted == old(accepted) + [Item(old(|accepted|), tag)]
      ensures ok ==> OnlyMoved(wake)
      ensures ok && wake.Some? ==> old(workers[wake.value]).Waiting? && workers[wake.value].Notified?
      ensures ok ==> wake.Some? || forall w :: 0 <= w < |workers| ==> !workers[w].Waiting?
      ensures openSequences == old(openSequences) && shutdown == old(shutdown) && maxQueueSize == old(maxQueueSize)
      ensures cancelled == old(cancelled) && log == old(log)
    {
      ReachableStep(Value(), Enqueue(tag, sawShutdown, wake));
      if !sawShutdown {
        if |queue| < maxQueueSize {
          var item := Item(acceptedCount, tag);
          queue := queue + [item];
          accepted, acceptedCount := accepted + [item], acceptedCount + 1;
          if wake.Some? {
            workers := workers[wake.value := Notified];
          }
          return true;
        }
      }
      return false;
    }

    /** Drops every queued item. */
    method ClearQueue()
      requires Valid()
      modifies this
      ensures Valid() && Value() == old(Apply(Value(), Clear))
      ensures queue == [] && cancelled == old(cancelled) + old(queue) && accepted == old(accepted) && log == old(log)
      ensures workers == old(workers) && openSequences == old(openSequences) && shutdown == old(shutdown)
    {
      ReachableStep(Value(), Clear);
      cancelled := cancelled + queue;
      queue := [];
    }

    /** The scan: the position of the first item whose sequence is not in progress. */
    method Scan() returns (it: nat)
      ensures it == FirstStartable(queue, openSequences)
      ensures it <= |queue|
      ensures it < |queue| ==> queue[it].tag.None? || queue[it].tag.value !in openSequences
      ensures forall j :: 0 <= j < it ==> queue[j].tag.Some? && queue[j].tag.value in openSequences
    {
      it := 0;
      while it < |queue|
        invariant it <= |queue|
        invariant forall j :: 0 <= j < it ==> !Startable(openSequences, queue[j])
      {
        var elem := queue[it];
        if elem.tag.None? || elem.tag.value !in openSequences {
          return;
        }
        it := it + 1;
      }
    }

    /** The item worker `w` has been running is over: its sequence is closed. */
    method CloseSequence(w: nat)
      requires w < |workers| && workers[w].Running?
      modifies this
      ensures acceptedCount == old(acceptedCount) && Value() == old(Retire(Value(), w))
    {
      var done := workers[w].item;
      if done.tag.Some? {
        openSequences := openSequences - {done.tag.value};
      }
      workers := workers[w := Notified];
      log := log + [Finished(done)];
    }

    /** Moves the accepted item from the queue to worker `w` and marks its sequence as open. */
    method FetchItem(w: nat, it: nat)
      requires w < |workers| && it == FirstStartable(queue, openSequences) < |queue|
      modifies this
      ensures acceptedCount == old(acceptedCount) && Value() == old(Pick(Value(), w, false))
    {
      var elem := queue[it];
      queue := queue[..it] + queue[it + 1..];
      if elem.tag.Some? {
        openSequences := openSequences + {elem.tag.value};
      }
      workers := workers[w := Running(elem)];
      log := log + [Started(elem)];
    }

    /**
      What worker `w` does between taking the mutex and giving it back.  The shutdown flag is atomic and may be
      raised while the section runs: its first `readsFalse` reads in this section give false and, if `raised`,
      all later ones give true.  `leave` tells whether the worker left its loop.
     */
    method RunSection(w: nat, raised: bool, readsFalse: nat) returns (leave: bool)
      requires Valid() && Enabled(Value(), Turn(w, false)) && (raised ==> shutdown)
      modifies this
      ensures Valid()
      ensures leave ==> raised
      ensures old(Enabled(Value(), Turn(w, leave)))
      ensures Value() == old(Apply(Value(), Turn(w, leave)))
      ensures raised && readsFalse == 0 && !workers[w].Running? ==> leave
    {
      ReachableStep(Value(), Turn(w, false));
      if raised {
        ReachableStep(Value(), Turn(w, true));
      }
      var it := 0;
      var flagReads := 0;
      var resumed := workers[w].Notified?; // woken inside the wait: goes straight to the scan
      if workers[w].Running? {
        CloseSequence(w);
      }
      ghost var mid := Value();
      while true
        invariant acceptedCount == old(acceptedCount) && Value() == mid && it <= |queue|
        invariant it == |queue| || it == 0
        invariant it == |queue| > 0 ==> FirstStartable(queue, openSequences) == |queue|
        decreases if raised && flagReads >= readsFalse then 0 else 1, if it == |queue| && !resumed then 0 else 1
      {
        if !resumed {
          flagReads := flagReads + 1;
          if raised && flagReads > readsFalse && it == |queue| {
            workers := workers[w := Left];
            return true;
          }
          flagReads := flagReads + 1;
          if !(raised && flagReads > readsFalse) && it == |queue| {
            workers := workers[w := Waiting];
            return false;
          }
        }
        resumed := false;
        it := Scan();
        if it != |queue| {
          FetchItem(w, it);
          return false;
        }
      }
    }

    /** The same by its effect: the first item that is not blocked starts, or else the worker waits or leaves. */
    method WorkerTurn(w: nat, raised: bool, readsFalse: nat) returns (leave: bool)
      requires Valid() && Enabled(Value(), Turn(w, false)) && (raised ==> shutdown)
      modifies this
      ensures Valid() && OthersSame(old(Value()), Value(), w)
      ensures leave ==> raised
      ensures (exists k: nat :: Took(old(Value()), Value(), w, k)) || FoundNothing(old(Value()), Value(), w, leave)
      ensures old(Enabled(Value(), Turn(w, leave)))
      ensures Value() == old(Apply(Value(), Turn(w, leave)))
      ensures raised && readsFalse == 0 && !workers[w].Running? ==> leave
    {
      leave := RunSection(w, raised, readsFalse);
      TurnMeans(old(Value()), w, leave);
    }

    /** The system may wake up a sleeping worker without being asked to. */
    method WakeUp(w: nat)
      requires Valid() && w < |workers| && workers[w].Waiting?
      modifies this
      ensures Valid() && Value() == old(Apply(Value(), SpuriousWake(w)))
      ensures OnlyMoved(Some(w)) && workers[w] == Notified && SameHistory()
      ensures queue == old(queue) && openSequences == old(openSequences) && shutdown == old(shutdown)
    {
      ReachableStep(Value(), SpuriousWake(w));
      workers := workers[w := Notified];
    }

    /** A stop begins by raising the flag, if there are threads to be stopped. */
    method RaiseShutdown() returns (stopping: bool)
      requires Valid()
      modifies this
      ensures Valid() && (stopping <==> old(workers) != [])
      ensures Value() == if stopping then old(Apply(Value(), BeginStop)) else old(Value())
      ensures shutdown == (old(shutdown) || stopping)
      ensures queue == old(queue) && workers == old(workers) && openSequences == old(openSequences) && SameHistory()
    {
      if workers == [] {
        return false;
      }
      ReachableStep(Value(), BeginStop);
      shutdown := true;
      return true;
    }

    /** All sleeping workers are woken up. */
    method NotifyAll()
      requires Valid() && shutdown
      modifies this
      ensures Valid() && Value() == old(Apply(Value(), WakeAll)) && |workers| == old(|workers|)
      ensures forall w :: 0 <= w < |workers| ==>
                workers[w] == if old(workers[w]).Waiting? then Notified else old(workers[w])
      ensures queue == old(queue) && openSequences == old(openSequences) && shutdown && SameHistory()
    {
      ReachableStep(Value(), WakeAll);
      var i := 0;
      while i < |workers|
        invariant i <= |workers| == old(|workers|) && acceptedCount == |accepted|
        invariant Value() == old(Value()).(workers := workers)
        invariant forall w :: 0 <= w < |workers| ==>
                    workers[w] == if w < i && old(workers[w]).Waiting? then Notified else old(workers[w])
      {
        if workers[i].Waiting? {
          workers := workers[i := Notified];
        }
        i := i + 1;
      }
      assert workers == old(Apply(Value(), WakeAll)).workers;
    }

    /** When all threads have been joined, the pool has none any more and may be started again. */
    method Joined()
      requires Valid() && shutdown && forall w :: 0 <= w < |workers| ==> workers[w].Left?
      modifies this
      ensures Valid() && Value() == old(Apply(Value(), EndStop))
      ensures workers == [] && !shutdown && queue == old(queue) && SameHistory() && openSequences == {}
    {
      ReachableInv(Value());
      assert forall w, t :: !RunsTag(Value(), w, t);
      ReachableStep(Value(), EndStop);
      workers, shutdown := [], false;
    }
  }
}
