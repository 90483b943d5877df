/**
  The buffer pool: a slab of equal buffers, of which the free ones form a list whose links lie in the buffers
  themselves (`BufferPool`).  A buffer is given by its number; the number of buffers stands for the address one
  past the end.
 */
module ObjectPools {
  import opened Wrappers

  /** The list that starts at `head` is `chain`, and ends one past the last buffer. */
  ghost predicate Linked(links: seq<nat>, head: nat, chain: seq<nat>)
    decreases |chain|
  {
    if chain == [] then head == |links|
    else head == chain[0] && head < |links| && Linked(links, links[head], chain[1..])
  }

  ghost predicate Distinct(chain: seq<nat>) {
    forall i, j :: 0 <= i < j < |chain| ==> chain[i] != chain[j]
  }

  /** Changing the memory of a buffer that is not in the list leaves the list alone. */
  lemma {:induction false} LinkedElsewhere(links: seq<nat>, head: nat, chain: seq<nat>, b: nat, value: nat)
    requires Linked(links, head, chain) && b < |links| && b !in chain
    ensures Linked(links[b := value], head, chain)
    decreases |chain|
  {
    if chain != [] {
      LinkedElsewhere(links, links[head], chain[1..], b, value);
    }
  }

  /** The numbers from `from` to `to`. */
  ghost function Range(from: nat, to: nat): seq<nat>
    requires from <= to
  {
    seq(to - from, i requires 0 <= i < to - from => from + i)
  }

  lemma {:induction false} InitialChain(links: seq<nat>, from: nat)
    requires from <= |links| && forall i :: from <= i < |links| ==> links[i] == i + 1
    ensures Linked(links, from, Range(from, |links|))
    decreases |links| - from
  {
    if from < |links| {
      InitialChain(links, from + 1);
      assert Range(from, |links|)[1..] == Range(from + 1, |links|);
    }
  }

  lemma RangeMembers(from: nat, to: nat, x: nat)
    requires from <= to
    ensures x in Range(from, to) <==> from <= x < to
  {
    if from <= x < to {
      assert Range(from, to)[x - from] == x;
    }
  }

  ghost function Numbers(n: nat): (s: set<nat>)
    ensures |s| == n && forall x: nat :: x in s <==> x < n
  {
    if n == 0 then {} else Numbers(n - 1) + {n - 1}
  }

  lemma {:induction false} CountDistinct(chain: seq<nat>, n: nat)
    requires Distinct(chain) && forall i :: 0 <= i < |chain| ==> chain[i] < n
    ensures |chain| + |set x: nat | x in Numbers(n) && x !in chain| == n
    decreases |chain|
  {
    var out := set x: nat | x in Numbers(n) && x !in chain;
    if chain == [] {
      assert out == Numbers(n);
    } else {
      var rest := chain[1..];
      CountDistinct(rest, n);
      assert chain[0] !in rest by {
        assert forall i :: 0 <= i < |rest| ==> rest[i] == chain[i + 1];
      }
      assert (set x: nat | x in Numbers(n) && x !in rest) == out + {chain[0]} by {
        assert forall x :: x in chain <==> x == chain[0] || x in rest;
      }
    }
  }

  class BufferPool {
    const links: array<nat>  // the first word of each buffer
    var freeList: nat
    var buffersInUse: nat
    const capacity: nat
    ghost var chain: seq<nat>        // the free buffers, in the order in which they will be handed out
    ghost var outstanding: set<nat>  // the buffers handed out

    /**
      The free list holds exactly the buffers that are not handed out, each once, so its length is the capacity
      less the number of buffers in use.
     */
    ghost predicate Valid()
      reads this, links
    {
      && capacity == links.Length > 0
      && Linked(links[..], freeList, chain) && Distinct(chain)
      && (forall b: nat :: b in outstanding <==> b < capacity && b !in chain)
      && (forall i :: 0 <= i < |chain| ==> chain[i] < capacity)
      && buffersInUse == |outstanding|
    }

    lemma ChainLength()
      requires Valid()
      ensures |chain| == capacity - buffersInUse
      ensures buffersInUse < capacity <==> chain != []
    {
      CountDistinct(chain, capacity);
      assert outstanding == set x: nat | x in Numbers(capacity) && x !in chain;
    }

    constructor (bufferCount: nat)
      requires bufferCount > 0
      ensures Valid() && fresh(links) && capacity == bufferCount && outstanding == {} && chain == Range(0, bufferCount)
    {
      capacity := bufferCount;
      links := new nat[bufferCount];
      freeList, buffersInUse, outstanding := 0, 0, {};
      chain := Range(0, bufferCount);
      new;
      InitBuffers();
      InitialChain(links[..], 0);
      forall b: nat ensures b in chain <==> b < capacity {
        RangeMembers(0, bufferCount, b);
      }
    }

    /** Makes each buffer point to the next one. */
    method InitBuffers()
      modifies links
      ensures forall i :: 0 <= i < links.Length ==> links[i] == i + 1
    {
      var offset := 0;
      while offset < links.Length
        invariant offset <= links.Length && forall i :: 0 <= i < offset ==> links[i] == i + 1
      {
        links[offset] := offset + 1;
        offset := offset + 1;
      }
    }

    method IsExhausted() returns (exhausted: bool)
      requires Valid()
      ensures exhausted <==> chain == []
    {
      ChainLength();
      exhausted := buffersInUse >= capacity;
    }

    /** Hands out the buffer freed last.  None stands for the fallback to the heap. */
    method GetRawBuffer() returns (buffer: Option<nat>)
      requires Valid()
      modifies this`freeList, this`buffersInUse, this`chain, this`outstanding
      ensures Valid()
      ensures buffer.None? <==> old(chain) == []
      ensures buffer.None? ==> chain == old(chain) && outstanding == old(outstanding)
      ensures buffer.Some? ==>
                && buffer.value < capacity && buffer.value !in old(outstanding)
                && old(chain) == [buffer.value] + chain && outstanding == old(outstanding) + {buffer.value}
    {
      ChainLength();
      if buffersInUse >= capacity {
        return None;
      }
      var newBuffer := freeList;
      freeList := links[newBuffer];
      buffersInUse := buffersInUse + 1;
      outstanding := outstanding + {newBuffer};
      chain := chain[1..];
      return Some(newBuffer);
    }

    /** Takes back a buffer that was handed out. */
    method ReleaseBuffer(buffer: nat)
      requires Valid() && buffer in outstanding
      modifies links, this`freeList, this`buffersInUse, this`chain, this`outstanding
      ensures Valid() && chain == [buffer] + old(chain) && outstanding == old(outstanding) - {buffer}
      ensures forall i :: 0 <= i < links.Length && i != buffer ==> links[i] == old(links[i])
    {
      LinkedElsewhere(links[..], freeList, chain, buffer, freeList);
      ghost var before := links[..];
      links[buffer] := freeList;
      assert links[..] == before[buffer := freeList];
      freeList := buffer;
      buffersInUse := buffersInUse - 1;
      outstanding := outstanding - {buffer};
      chain := [buffer] + chain;
      assert chain[1..] == old(chain);
    }

    /** The owner of a buffer may write anything into it. */
    method Write(buffer: nat, value: nat)
      requires Valid() && buffer in outstanding
      modifies links
      ensures Valid() && links[..] == old(links[..])[buffer := value]
    {
      LinkedElsewhere(links[..], freeList, chain, buffer, value);
      ghost var before := links[..];
      links[buffer] := value;
      assert links[..] == before[buffer := value];
    }

    /** A buffer that is released and asked for again is the same, and the pool is as before. */
    method ReleaseAndGet(buffer: nat) returns (again: Option<nat>)
      requires Valid() && buffer in outstanding
      modifies links, this`freeList, this`buffersInUse, this`chain, this`outstanding
      ensures Valid() && again == Some(buffer)
      ensures chain == old(chain) && outstanding == old(outstanding)
    {
      ReleaseBuffer(buffer);
      again := GetRawBuffer();
      assert chain == old(chain);
    }
  }
}
