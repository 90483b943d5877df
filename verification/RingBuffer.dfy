/**
  The lock-free queue between one producer and one consumer thread (`OneToOneQueue`), as the atomic steps of the
  two threads interleaved in any order under sequential consistency.
 */
module RingBuffer {
  /** Where the producer is inside an enqueue, and what it holds in local variables. */
  datatype Producer<T> =
    | Out                              // outside
    | TailRead(value: T, ix: nat)      // has read its own index
    | Checked(value: T, ix: nat)       // has read the other index and found room
    | Written(value: T, ix: nat)       // has written the slot

  /** Where the consumer is inside a dequeue. */
  datatype Consumer =
    | Away
    | HeadRead(at: nat)                // has read its own index
    | Found(at: nat)                   // has read the other index and found an element
    | Taken(at: nat)                   // has moved the element out
    | Cleared(at: nat)                 // has reset the slot

  datatype State<T> = State(
    max: nat,
    empty: T,                          // what a slot is reset to
    buffer: seq<T>,
    head: nat,
    tail: nat,
    producer: Producer<T>,
    consumer: Consumer,
    accepted: seq<T>,                  // history: values whose enqueue has taken effect
    dequeued: seq<T>                   // history: values handed to the consumer
  ) {
    function Size(): nat { max + 1 }
  }

  datatype Action<T> =
    | ReadOwnTail(value: T) | ReadOtherHead | WriteSlot | StoreTail
    | ReadOwnHead | ReadOtherTail | TakeSlot | ClearSlot | StoreHead

  function Inc(ix: nat, size: nat): (r: nat)
    requires ix < size
  {
    if ix < size - 1 then ix + 1 else 0
  }

  function Dist(h: nat, t: nat, size: nat): (r: nat)
    requires h < size && t < size
  {
    if h <= t then t - h else t + size - h
  }

  function Initial<T>(max: nat, empty: T): State<T> {
    State(max, empty, seq(max + 1, _ => empty), 0, 0, Out, Away, [], [])
  }

  predicate InBounds<T>(s: State<T>) {
    && s.head < s.Size() && s.tail < s.Size() && |s.buffer| == s.Size()
    && (!s.producer.Out? ==> s.producer.ix < s.Size())
    && (!s.consumer.Away? ==> s.consumer.at < s.Size())
  }

  predicate Enabled<T>(s: State<T>, a: Action<T>) {
    match a
    case ReadOwnTail(_) => s.producer.Out?
    case ReadOtherHead => s.producer.TailRead?
    case WriteSlot => s.producer.Checked?
    case StoreTail => s.producer.Written?
    case ReadOwnHead => s.consumer.Away?
    case ReadOtherTail => s.consumer.HeadRead?
    case TakeSlot => s.consumer.Found?
    case ClearSlot => s.consumer.Taken?
    case StoreHead => s.consumer.Cleared?
  }

  function Apply<T>(s: State<T>, a: Action<T>): State<T>
    requires InBounds(s) && Enabled(s, a)
  {
    match a
    case ReadOwnTail(value) => s.(producer := TailRead(value, s.tail))
    case ReadOtherHead =>
      if Dist(s.head, s.producer.ix, s.Size()) == s.max then s.(producer := Out)
      else s.(producer := Checked(s.producer.value, s.producer.ix))
    case WriteSlot =>
      s.(buffer := s.buffer[s.producer.ix := s.producer.value], producer := Written(s.producer.value, s.producer.ix))
    case StoreTail =>
      s.(tail := Inc(s.producer.ix, s.Size()), accepted := s.accepted + [s.producer.value], producer := Out)
    case ReadOwnHead => s.(consumer := HeadRead(s.head))
    case ReadOtherTail =>
      s.(consumer := if Dist(s.consumer.at, s.tail, s.Size()) == 0 then Away else Found(s.consumer.at))
    case TakeSlot => s.(dequeued := s.dequeued + [s.buffer[s.consumer.at]], consumer := Taken(s.consumer.at))
    case ClearSlot => s.(buffer := s.buffer[s.consumer.at := s.empty], consumer := Cleared(s.consumer.at))
    case StoreHead => s.(head := Inc(s.consumer.at, s.Size()), consumer := Away)
  }

  ghost predicate Runs<T>(s: State<T>, actions: seq<Action<T>>, t: State<T>)
    decreases |actions|
  {
    if actions == [] then s == t
    else InBounds(s) && Enabled(s, actions[0]) && Runs(Apply(s, actions[0]), actions[1..], t)
  }

  ghost predicate Reachable<T(!new)>(s: State<T>) {
    exists actions :: Runs(Initial(s.max, s.empty), actions, s)
  }

  // ---------------------------------------------------------------------------------------------------------
  // Invariant
  // ---------------------------------------------------------------------------------------------------------

  /** The slot `i` places after `ix` on the ring. */
  function Slot(ix: nat, i: nat, size: nat): (r: nat)
    requires ix < size && i < size
    ensures r < size
  {
    if ix + i < size then ix + i else ix + i - size
  }

  /** The consumer has taken an element whose slot still counts as occupied. */
  predicate HoldsOne(c: Consumer) {
    c.Taken? || c.Cleared?
  }

  predicate NeedsElement(c: Consumer) {
    c.Found? || c.Taken? || c.Cleared?
  }

  /** Number of elements that have left the ring for good. */
  function Popped<T>(s: State<T>): int {
    |s.dequeued| - if HoldsOne(s.consumer) then 1 else 0
  }

  /** The two indices span exactly the accepted elements that have not left the ring. */
  ghost predicate Counts<T>(s: State<T>) {
    && InBounds(s)
    && 0 <= Popped(s) <= |s.accepted|
    && |s.accepted| - Popped(s) == Dist(s.head, s.tail, s.Size())
    && (!s.producer.Out? ==> s.producer.ix == s.tail)
    && (s.producer.Checked? || s.producer.Written? ==> Dist(s.head, s.tail, s.Size()) < s.max)
    && (!s.consumer.Away? ==> s.consumer.at == s.head)
    && (NeedsElement(s.consumer) ==> Dist(s.head, s.tail, s.Size()) > 0)
  }

  /** The span holds the accepted elements in order, and the slot that the producer has filled holds its value. */
  ghost predicate Contents<T>(s: State<T>)
    requires Counts(s)
  {
    && (forall i: nat :: (s.consumer.Cleared? ==> i > 0) && i < |s.accepted| - Popped(s) ==>
          s.buffer[Slot(s.head, i, s.Size())] == s.accepted[Popped(s) + i])
    && (s.producer.Written? ==> s.buffer[s.tail] == s.producer.value)
  }

  /** Distance of the first slot behind the span, and behind the slot that the producer may have filled already. */
  function FreeFrom<T>(s: State<T>): nat
    requires InBounds(s)
  {
    Dist(s.head, s.tail, s.Size()) + if s.producer.Written? then 1 else 0
  }

  /** All other slots are reset: the ring keeps nothing alive that has been handed out. */
  ghost predicate Resets<T>(s: State<T>)
    requires Counts(s)
  {
    && (forall i: nat :: FreeFrom(s) <= i < s.Size() ==> s.buffer[Slot(s.head, i, s.Size())] == s.empty)
    && (s.consumer.Cleared? ==> s.buffer[s.head] == s.empty)
  }

  /** What the consumer got is a prefix of what the producer put in: nothing lost, doubled, reordered or made up. */
  ghost predicate Fifo<T>(s: State<T>) {
    s.dequeued <= s.accepted
  }

  ghost predicate Inv<T>(s: State<T>) {
    Counts(s) && Contents(s) && Resets(s) && Fifo(s)
  }

  lemma SpanEnds<T>(s: State<T>)
    requires Counts(s)
    ensures Slot(s.head, Dist(s.head, s.tail, s.Size()), s.Size()) == s.tail
    ensures forall i: nat :: i < Dist(s.head, s.tail, s.Size()) ==> Slot(s.head, i, s.Size()) != s.tail
    ensures forall i: nat :: 0 < i < Dist(s.head, s.tail, s.Size()) ==> Slot(s.head, i, s.Size()) != s.head
  {
  }

  lemma CountsStep<T>(s: State<T>, a: Action<T>)
    requires Counts(s) && Enabled(s, a)
    ensures Counts(Apply(s, a))
  {
  }

  lemma ProducerContents<T>(s: State<T>, a: Action<T>)
    requires a.WriteSlot? || a.StoreTail?
    requires Counts(s) && Enabled(s, a) && Contents(s) && Counts(Apply(s, a))
    ensures Contents(Apply(s, a))
  {
    SpanEnds(s);
  }

  lemma ClearContents<T>(s: State<T>)
    requires Counts(s) && s.consumer.Taken? && Contents(s) && Counts(Apply(s, ClearSlot))
    ensures Contents(Apply(s, ClearSlot))
  {
    SpanEnds(s);
  }

  lemma HeadContents<T>(s: State<T>)
    requires Counts(s) && s.consumer.Cleared? && Contents(s) && Counts(Apply(s, StoreHead))
    ensures Contents(Apply(s, StoreHead))
  {
    var t := Apply(s, StoreHead);
    forall i: nat | i < |t.accepted| - Popped(t)
      ensures t.buffer[Slot(t.head, i, t.Size())] == t.accepted[Popped(t) + i]
    {
      assert Slot(t.head, i, t.Size()) == Slot(s.head, i + 1, s.Size());
    }
  }

  lemma SlotsDiffer<T>(s: State<T>)
    requires Counts(s)
    ensures forall i: nat, j: nat :: i < j < s.Size() ==> Slot(s.head, i, s.Size()) != Slot(s.head, j, s.Size())
    ensures Slot(s.head, 0, s.Size()) == s.head
  {
  }

  lemma ResetsStep<T>(s: State<T>, a: Action<T>)
    requires Counts(s) && Enabled(s, a) && Resets(s) && Counts(Apply(s, a)) && !a.StoreHead?
    ensures Resets(Apply(s, a))
  {
    SpanEnds(s);
    SlotsDiffer(s);
  }

  lemma HeadResets<T>(s: State<T>)
    requires Counts(s) && s.consumer.Cleared? && Resets(s) && Counts(Apply(s, StoreHead))
    ensures Resets(Apply(s, StoreHead))
  {
    var t := Apply(s, StoreHead);
    forall i: nat | FreeFrom(t) <= i < t.Size()
      ensures t.buffer[Slot(t.head, i, t.Size())] == t.empty
    {
      if i == t.Size() - 1 {
        assert Slot(t.head, i, t.Size()) == s.head;
      } else {
        assert Slot(t.head, i, t.Size()) == Slot(s.head, i + 1, s.Size());
      }
    }
  }

  lemma FifoStep<T>(s: State<T>, a: Action<T>)
    requires Inv(s) && Enabled(s, a)
    ensures Fifo(Apply(s, a))
  {
    if a.TakeSlot? {
      assert Slot(s.head, 0, s.Size()) == s.head;
    }
  }

  lemma StepInv<T>(s: State<T>, a: Action<T>)
    requires Inv(s) && Enabled(s, a)
    ensures Inv(Apply(s, a))
  {
    CountsStep(s, a);
    FifoStep(s, a);
    if a.StoreHead? { HeadResets(s); } else { ResetsStep(s, a); }
    match a
    case WriteSlot => ProducerContents(s, a);
    case StoreTail => ProducerContents(s, a);
    case ClearSlot => ClearContents(s);
    case StoreHead => HeadContents(s);
    case _ =>
  }

  lemma {:induction false} RunInv<T>(s: State<T>, actions: seq<Action<T>>, t: State<T>)
    requires Inv(s) && Runs(s, actions, t)
    ensures Inv(t)
    decreases |actions|
  {
    if actions != [] {
      StepInv(s, actions[0]);
      RunInv(Apply(s, actions[0]), actions[1..], t);
    }
  }

  lemma ReachableInv<T(!new)>(s: State<T>)
    requires Reachable(s)
    ensures Inv(s)
  {
    var actions :| Runs(Initial(s.max, s.empty), actions, s);
    RunInv(Initial(s.max, s.empty), actions, s);
  }

  // ---------------------------------------------------------------------------------------------------------
  // Results
  // ---------------------------------------------------------------------------------------------------------

  /** Over all interleavings: first in, first out, and never more than the maximum in between. */
  lemma FirstInFirstOut<T(!new)>(s: State<T>)
    requires Reachable(s)
    ensures s.dequeued <= s.accepted
    ensures |s.accepted| - |s.dequeued| <= s.max
    ensures s.consumer.Away? && s.head == s.tail ==> s.dequeued == s.accepted
  {
    ReachableInv(s);
  }

  /** The two threads are never about to touch the same slot. */
  lemma NeverSameSlot<T(!new)>(s: State<T>)
    requires Reachable(s) && s.producer.Checked? && (s.consumer.Found? || s.consumer.Taken?)
    ensures s.producer.ix != s.consumer.at
  {
    ReachableInv(s);
  }

  /** An enqueue is refused exactly when the ring holds the maximum at the moment the other index is read. */
  lemma RefusedExactlyWhenFull<T(!new)>(s: State<T>)
    requires Reachable(s) && s.producer.TailRead?
    ensures InBounds(s)
    ensures Apply(s, ReadOtherHead).producer.Out? <==> |s.accepted| - Popped(s) == s.max
  {
    ReachableInv(s);
  }

  /** A dequeue finds nothing exactly when everything accepted so far has been handed over. */
  lemma EmptyExactlyWhenDrained<T(!new)>(s: State<T>)
    requires Reachable(s) && s.consumer.HeadRead?
    ensures InBounds(s)
    ensures Apply(s, ReadOtherTail).consumer.Away? <==> s.dequeued == s.accepted
  {
    ReachableInv(s);
  }

  /** An element found is the oldest one that has not been handed over yet. */
  lemma TakesTheOldest<T(!new)>(s: State<T>)
    requires Reachable(s) && s.consumer.Found?
    ensures InBounds(s) && |s.dequeued| < |s.accepted|
    ensures Apply(s, TakeSlot).dequeued == s.dequeued + [s.accepted[|s.dequeued|]]
  {
    ReachableInv(s);
    assert Slot(s.head, 0, s.Size()) == s.head;
  }

  /** A drained queue holds nothing any more. */
  lemma NothingLeftBehind<T(!new)>(s: State<T>, ix: nat)
    requires Reachable(s) && s.producer.Out? && s.consumer.Away? && s.dequeued == s.accepted && ix < s.Size()
    ensures InBounds(s) && s.buffer[ix] == s.empty
  {
    ReachableInv(s);
    var i := if ix >= s.head then ix - s.head else ix + s.Size() - s.head;
    assert Slot(s.head, i, s.Size()) == ix;
  }

  // ---------------------------------------------------------------------------------------------------------
  // The size as other threads see it
  // ---------------------------------------------------------------------------------------------------------

  /** The indices count what has passed them, round the ring. */
  ghost predicate Positions<T>(s: State<T>) {
    Counts(s) && s.tail == |s.accepted| % s.Size() && s.head == Popped(s) % s.Size()
  }

  lemma IncCounts(k: nat, size: nat)
    requires size > 0
    ensures (k + 1) % size == Inc(k % size, size)
  {
    var q, r := k / size, k % size;
    assert k == q * size + r;
    if r < size - 1 {
      Remainder(k + 1, q, r + 1, size);
    } else {
      assert k + 1 == (q + 1) * size;
      Remainder(k + 1, q + 1, 0, size);
    }
  }

  lemma AtLeastOnce(d: int, size: nat)
    requires d >= 1
    ensures d * size >= size
  {
    assert (d - 1) * size >= 0;
  }

  lemma SmallMultiple(d: int, size: nat, e: int)
    requires d * size == e && e < size && -e < size
    ensures d == 0
  {
    if d >= 1 {
      AtLeastOnce(d, size);
    } else if d <= -1 {
      AtLeastOnce(-d, size);
    }
  }

  lemma SameRemainder(p: int, rem: nat, q: int, r: nat, size: nat)
    requires rem < size && r < size && p * size + rem == q * size + r
    ensures rem == r
  {
    assert (p - q) * size == r - rem;
    SmallMultiple(p - q, size, r - rem);
  }

  lemma Remainder(k: int, q: int, r: nat, size: nat)
    requires r < size && k == q * size + r
    ensures k % size == r
  {
    SameRemainder(k / size, k % size, q, r, size);
  }

  lemma PositionsStep<T>(s: State<T>, a: Action<T>)
    requires Positions(s) && Enabled(s, a)
    ensures Positions(Apply(s, a))
  {
    CountsStep(s, a);
    if a.StoreTail? {
      IncCounts(|s.accepted|, s.Size());
    } else if a.StoreHead? {
      IncCounts(Popped(s), s.Size());
    }
  }

  lemma {:induction false} PositionsRun<T>(s: State<T>, actions: seq<Action<T>>, t: State<T>)
    requires Positions(s) && Runs(s, actions, t)
    ensures Positions(t) && t.max == s.max
    decreases |actions|
  {
    if actions != [] {
      PositionsStep(s, actions[0]);
      PositionsRun(Apply(s, actions[0]), actions[1..], t);
    }
  }

  lemma ReachablePositions<T(!new)>(s: State<T>)
    requires Reachable(s)
    ensures Positions(s)
  {
    var actions :| Runs(Initial(s.max, s.empty), actions, s);
    PositionsRun(Initial(s.max, s.empty), actions, s);
  }

  /** The distance of two places is the difference of their counts, round the ring. */
  lemma DistCounts(h: nat, t: nat, size: nat)
    requires size > 0
    ensures Dist(h % size, t % size, size) == (t - h) % size
  {
    var p, q := h / size, t / size;
    var d := Dist(h % size, t % size, size);
    if h % size <= t % size {
      assert t - h == (q - p) * size + d;
      Remainder(t - h, q - p, d, size);
    } else {
      assert t - h == (q - p - 1) * size + d;
      Remainder(t - h, q - p - 1, d, size);
    }
  }

  /**
    A size made of the head read first and the tail read after some steps, or the other way round: what was accepted
    by the one moment less what had left by the other, round the ring.
   */
  lemma SizeReadInSteps<T(!new)>(s: State<T>, actions: seq<Action<T>>, t: State<T>)
    requires Reachable(s) && Runs(s, actions, t)
    ensures InBounds(s) && InBounds(t) && s.Size() == t.Size()
    ensures Dist(s.head, t.tail, s.Size()) == (|t.accepted| - Popped(s)) % s.Size()
    ensures Dist(t.head, s.tail, s.Size()) == (|s.accepted| - Popped(t)) % s.Size()
  {
    ReachablePositions(s);
    PositionsRun(s, actions, t);
    DistCounts(Popped(s), |t.accepted|, s.Size());
    DistCounts(Popped(t), |s.accepted|, s.Size());
  }

  /** So it is the size at the moment when the other thread's index is read, for either of the two threads. */
  lemma OwnThreadSeesSize<T(!new)>(s: State<T>, actions: seq<Action<T>>, t: State<T>)
    requires Reachable(s) && Runs(s, actions, t)
    ensures InBounds(s) && InBounds(t) && s.Size() == t.Size()
    ensures Popped(s) == Popped(t) ==>
              Dist(s.head, t.tail, s.Size()) == |t.accepted| - Popped(t)
              && Dist(t.head, s.tail, s.Size()) == |s.accepted| - Popped(s)
    ensures s.accepted == t.accepted ==>
              Dist(s.head, t.tail, s.Size()) == |s.accepted| - Popped(s)
              && Dist(t.head, s.tail, s.Size()) == |t.accepted| - Popped(t)
  {
    ReachablePositions(s);
    PositionsRun(s, actions, t);
  }

  lemma {:induction false} RunAppend<T>(s: State<T>, actions: seq<Action<T>>, t: State<T>, a: Action<T>)
    requires Runs(s, actions, t) && InBounds(t) && Enabled(t, a)
    ensures Runs(s, actions + [a], Apply(t, a))
    decreases |actions|
  {
    if actions == [] {
      assert [a][1..] == [];
    } else {
      RunAppend(Apply(s, actions[0]), actions[1..], t, a);
      assert (actions + [a])[1..] == actions[1..] + [a];
    }
  }

  lemma ReachableStep<T(!new)>(s: State<T>, a: Action<T>)
    requires Reachable(s) && Enabled(s, a)
    ensures InBounds(s) && Reachable(Apply(s, a))
  {
    ReachableInv(s);
    var actions :| Runs(Initial(s.max, s.empty), actions, s);
    RunAppend(Initial(s.max, s.empty), actions, s, a);
  }

  lemma InitialReachable<T(!new)>(max: nat, empty: T)
    ensures Reachable(Initial(max, empty))
  {
    assert Runs(Initial(max, empty), [], Initial(max, empty));
  }
}
