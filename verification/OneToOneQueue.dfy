/**
  The queue object of `RingBuffer`: shared fields and the two threads' local variables.  Each method is one atomic
  step of a thread; `Enqueue` and `Dequeue` are those steps in a row, when the other thread stands still.
 */
module OneToOneQueues {
  import opened RingBuffer

  class OneToOneQueue<T(!new)> {
    const maxCount: nat
    const empty: T
    const buffer: array<T>
    var ixHead: nat
    var ixTail: nat
    var producer: Producer<T>
    var consumer: Consumer
    ghost var accepted: seq<T>
    ghost var dequeued: seq<T>

    ghost function Value(): State<T>
      reads this, buffer
    {
      State(maxCount, empty, buffer[..], ixHead, ixTail, producer, consumer, accepted, dequeued)
    }

    ghost predicate Valid()
      reads this, buffer
    {
      Reachable(Value())
    }

    constructor (max: nat, defaultValue: T)
      ensures Valid() && Value() == Initial(max, defaultValue) && fresh(buffer)
    {
      maxCount, empty := max, defaultValue;
      buffer := new T[max + 1](_ => defaultValue);
      ixHead, ixTail, producer, consumer, accepted, dequeued := 0, 0, Out, Away, [], [];
      new;
      assert buffer[..] == seq(max + 1, _ => defaultValue);
      InitialReachable(max, defaultValue);
    }

    method ReadTailIndex(value: T)
      requires Valid() && producer.Out?
      modifies this`producer
      ensures Valid() && InBounds(old(Value())) && Value() == Apply(old(Value()), ReadOwnTail(value))
    {
      ReachableStep(Value(), ReadOwnTail(value));
      producer := TailRead(value, ixTail);
    }

    /** The check whether the buffer is full. */
    method CheckRoom() returns (room: bool)
      requires Valid() && producer.TailRead?
      modifies this`producer
      ensures Valid() && InBounds(old(Value())) && Value() == Apply(old(Value()), ReadOtherHead)
      ensures room <==> producer.Checked?
      ensures room <==> |accepted| - Popped(Value()) < maxCount
    {
      ReachableInv(Value());
      ReachableStep(Value(), ReadOtherHead);
      RefusedExactlyWhenFull(Value());
      var queueSize := Dist(ixHead, producer.ix, maxCount + 1);
      if queueSize == maxCount {
        producer := Out;
        return false;
      }
      producer := Checked(producer.value, producer.ix);
      return true;
    }

    method WriteToSlot()
      requires Valid() && producer.Checked?
      modifies this`producer, buffer
      ensures Valid() && InBounds(old(Value())) && Value() == Apply(old(Value()), WriteSlot)
    {
      ReachableInv(Value());
      ReachableStep(Value(), WriteSlot);
      buffer[producer.ix] := producer.value;
      producer := Written(producer.value, producer.ix);
    }

    method StoreTailIndex()
      requires Valid() && producer.Written?
      modifies this`ixTail, this`producer, this`accepted
      ensures Valid() && InBounds(old(Value())) && Value() == Apply(old(Value()), StoreTail)
    {
      ReachableInv(Value());
      ReachableStep(Value(), StoreTail);
      ixTail := Inc(producer.ix, maxCount + 1);
      accepted := accepted + [producer.value];
      producer := Out;
    }

    method ReadHeadIndex()
      requires Valid() && consumer.Away?
      modifies this`consumer
      ensures Valid() && InBounds(old(Value())) && Value() == Apply(old(Value()), ReadOwnHead)
      ensures consumer.HeadRead?
    {
      ReachableStep(Value(), ReadOwnHead);
      consumer := HeadRead(ixHead);
    }

    /** The check whether the buffer is empty. */
    method CheckElement() returns (found: bool)
      requires Valid() && consumer.HeadRead?
      modifies this`consumer
      ensures Valid() && InBounds(old(Value())) && Value() == Apply(old(Value()), ReadOtherTail)
      ensures found <==> consumer.Found?
      ensures !found <==> dequeued == accepted
    {
      ReachableInv(Value());
      ReachableStep(Value(), ReadOtherTail);
      EmptyExactlyWhenDrained(Value());
      var queueSize := Dist(consumer.at, ixTail, maxCount + 1);
      if queueSize == 0 {
        consumer := Away;
        return false;
      }
      consumer := Found(consumer.at);
      return true;
    }

    method TakeFromSlot() returns (value: T)
      requires Valid() && consumer.Found?
      modifies this`consumer, this`dequeued
      ensures Valid() && InBounds(old(Value())) && Value() == Apply(old(Value()), TakeSlot)
      ensures old(|dequeued|) < |accepted| && value == accepted[old(|dequeued|)]
      ensures consumer.Taken? && dequeued == old(dequeued) + [value]
    {
      ReachableInv(Value());
      ReachableStep(Value(), TakeSlot);
      TakesTheOldest(Value());
      assert Apply(Value(), TakeSlot).dequeued[|dequeued|] == accepted[|dequeued|];
      value := buffer[consumer.at];
      dequeued := dequeued + [value];
      consumer := Taken(consumer.at);
    }

    method ClearTheSlot()
      requires Valid() && consumer.Taken?
      modifies this`consumer, buffer
      ensures Valid() && InBounds(old(Value())) && Value() == Apply(old(Value()), ClearSlot)
      ensures consumer.Cleared?
    {
      ReachableInv(Value());
      ReachableStep(Value(), ClearSlot);
      buffer[consumer.at] := empty;
      consumer := Cleared(consumer.at);
    }

    method StoreHeadIndex()
      requires Valid() && consumer.Cleared?
      modifies this`ixHead, this`consumer
      ensures Valid() && InBounds(old(Value())) && Value() == Apply(old(Value()), StoreHead)
      ensures consumer.Away?
    {
      ReachableInv(Value());
      ReachableStep(Value(), StoreHead);
      ixHead := Inc(consumer.at, maxCount + 1);
      consumer := Away;
    }

    /** A whole enqueue, wherever the consumer stands. */
    method Enqueue(value: T, shutdown: bool) returns (ok: bool)
      requires Valid() && producer.Out?
      modifies this, buffer
      ensures Valid() && producer.Out?
      ensures consumer == old(consumer) && ixHead == old(ixHead) && dequeued == old(dequeued)
      ensures ok <==> !shutdown && |old(accepted)| - Popped(old(Value())) < maxCount
      ensures accepted == if ok then old(accepted) + [value] else old(accepted)
    {
      if shutdown {
        return false;
      }
      ReadTailIndex(value);
      ok := CheckRoom();
      if ok {
        WriteToSlot();
        StoreTailIndex();
      }
    }

    /** A whole dequeue, wherever the producer stands. */
    method Dequeue(ref: T) returns (ok: bool, value: T)
      requires Valid() && consumer.Away?
      modifies this, buffer
      ensures Valid() && consumer.Away?
      ensures producer == old(producer) && ixTail == old(ixTail) && accepted == old(accepted)
      ensures ok <==> old(dequeued) != accepted
      ensures if ok then
                old(|dequeued|) < |accepted| && value == accepted[old(|dequeued|)]
                && dequeued == old(dequeued) + [value]
              else value == ref && dequeued == old(dequeued)
    {
      value := ref;
      ReadHeadIndex();
      ok := CheckElement();
      if ok {
        value := TakeFromSlot();
        ClearTheSlot();
        StoreHeadIndex();
      }
    }

    /**
      The number of accepted elements that have not left the ring, read at one moment; between calls, those not yet
      handed over.
     */
    method QueueSize() returns (n: nat)
      requires Valid()
      ensures n == |accepted| - Popped(Value()) <= maxCount
      ensures consumer.Away? ==> n == |accepted| - |dequeued|
    {
      ReachableInv(Value());
      n := Dist(ixHead, ixTail, maxCount + 1);
    }
  }
}
