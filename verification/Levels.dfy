/** What it means to group one side of a book by price, and to cut it into chunks of a minimum volume. */
module Levels {
  import opened Quotes
  import opened OrderBooks

  type Pred = Quote -> bool

  function Filter(vec: seq<Quote>, pred: Pred): seq<Quote> {
    if vec == [] then [] else (if pred(vec[0]) then [vec[0]] else []) + Filter(vec[1..], pred)
  }

  lemma {:induction false} FilterConcat(a: seq<Quote>, b: seq<Quote>, pred: Pred)
    ensures Filter(a + b, pred) == Filter(a, pred) + Filter(b, pred)
  {
    if a == [] {
      assert a + b == b;
    } else {
      FilterConcat(a[1..], b, pred);
      assert (a + b)[1..] == a[1..] + b && (a + b)[0] == a[0];
      var head := if pred(a[0]) then [a[0]] else [];
      assert head + (Filter(a[1..], pred) + Filter(b, pred)) == head + Filter(a[1..], pred) + Filter(b, pred);
    }
  }

  /** Every accepted quote stays where it is among the others, once; a refused one goes. */
  lemma FilterKeeps(before: seq<Quote>, q: Quote, after: seq<Quote>, pred: Pred)
    ensures Filter(before + [q] + after, pred)
         == Filter(before, pred) + (if pred(q) then [q] else []) + Filter(after, pred)
  {
    FilterConcat(before + [q], after, pred);
    FilterConcat(before, [q], pred);
  }

  lemma {:induction false} FilterMembers(vec: seq<Quote>, pred: Pred, q: Quote)
    ensures q in Filter(vec, pred) <==> q in vec && pred(q)
  {
    if vec != [] {
      FilterMembers(vec[1..], pred, q);
      assert q in vec <==> q == vec[0] || q in vec[1..];
    }
  }

  function Flatten(groups: seq<seq<Quote>>): seq<Quote> {
    if groups == [] then [] else Flatten(groups[..|groups| - 1]) + groups[|groups| - 1]
  }

  lemma FlattenAppend(groups: seq<seq<Quote>>, group: seq<Quote>)
    ensures Flatten(groups + [group]) == Flatten(groups) + group
  {
    assert (groups + [group])[..|groups|] == groups;
  }

  lemma {:induction false} FlattenPrepend(group: seq<Quote>, groups: seq<seq<Quote>>)
    ensures Flatten([group] + groups) == group + Flatten(groups)
  {
    var all := [group] + groups;
    if groups == [] {
      assert all[..0] == [];
    } else {
      var before, last := groups[..|groups| - 1], groups[|groups| - 1];
      assert all[..|all| - 1] == [group] + before && all[|all| - 1] == last;
      FlattenPrepend(group, before);
      assert group + Flatten(before) + last == group + (Flatten(before) + last);
    }
  }

  lemma {:induction false} FlattenPrefix(groups: seq<seq<Quote>>, n: nat)
    requires n <= |groups|
    ensures Flatten(groups[..n]) <= Flatten(groups)
  {
    if n == |groups| {
      assert groups[..n] == groups;
    } else {
      assert groups[..|groups| - 1][..n] == groups[..n];
      FlattenPrefix(groups[..|groups| - 1], n);
    }
  }

  // ---------------------------------------------------------------------------------------------------------
  // Levels
  // ---------------------------------------------------------------------------------------------------------

  /** Number of quotes at the front that have this price. */
  function Run(vec: seq<Quote>, price: int): (n: nat)
    ensures n <= |vec|
    ensures forall i :: 0 <= i < n ==> vec[i].price == price
    ensures n < |vec| ==> vec[n].price != price
  {
    if vec == [] || vec[0].price != price then 0 else 1 + Run(vec[1..], price)
  }

  /** The levels: runs of one price, reduced to accepted quotes; a run without any is no level. */
  function Groups(vec: seq<Quote>, pred: Pred): seq<seq<Quote>> {
    if vec == [] then []
    else
      var n := Run(vec, vec[0].price);
      var group := Filter(vec[..n], pred);
      (if group == [] then [] else [group]) + Groups(vec[n..], pred)
  }

  /** Grouping loses nothing and keeps the order. */
  lemma {:induction false} GroupsKeepEverything(vec: seq<Quote>, pred: Pred)
    ensures Flatten(Groups(vec, pred)) == Filter(vec, pred)
    decreases |vec|
  {
    if vec != [] {
      var n := Run(vec, vec[0].price);
      GroupsKeepEverything(vec[n..], pred);
      FilterConcat(vec[..n], vec[n..], pred);
      assert vec == vec[..n] + vec[n..];
      FlattenPrepend(Filter(vec[..n], pred), Groups(vec[n..], pred));
      assert [] + Groups(vec[n..], pred) == Groups(vec[n..], pred);
    }
  }

  ghost predicate OnePrice(group: seq<Quote>) {
    group != [] && forall i :: 0 <= i < |group| ==> group[i].price == group[0].price
  }

  lemma {:induction false} GroupsFromVec(vec: seq<Quote>, pred: Pred, q: Quote, k: nat)
    requires k < |Groups(vec, pred)| && q in Groups(vec, pred)[k]
    ensures q in vec
    decreases |vec|
  {
    var n := Run(vec, vec[0].price);
    FilterMembers(vec[..n], pred, q);
    var group := Filter(vec[..n], pred);
    var rest := Groups(vec[n..], pred);
    if group != [] && k == 0 {
      assert q in vec[..n];
    } else {
      var m := if group == [] then k else k - 1;
      assert Groups(vec, pred)[k] == rest[m];
      GroupsFromVec(vec[n..], pred, q, m);
      assert q in vec[n..];
    }
  }

  /** Every level is non-empty and has one price; on a sorted side each price is strictly worse than the one before. */
  lemma {:induction false} GroupsAreLevels(vec: seq<Quote>, pred: Pred, bid: bool)
    ensures forall k :: 0 <= k < |Groups(vec, pred)| ==> OnePrice(Groups(vec, pred)[k])
    ensures Sorted(bid, vec) ==> forall j, k :: 0 <= j < k < |Groups(vec, pred)| ==>
              OnePrice(Groups(vec, pred)[j]) && OnePrice(Groups(vec, pred)[k])
              && BetterPrice(bid, Groups(vec, pred)[j][0].price, Groups(vec, pred)[k][0].price)
    decreases |vec|
  {
    if vec != [] {
      var n := Run(vec, vec[0].price);
      var group := Filter(vec[..n], pred);
      var rest: seq<seq<Quote>> := Groups(vec[n..], pred);
      GroupsAreLevels(vec[n..], pred, bid);
      forall i | 0 <= i < |group| ensures group[i].price == vec[0].price {
        FilterMembers(vec[..n], pred, group[i]);
      }
      if Sorted(bid, vec) {
        forall k: nat | k < |rest| ensures BetterPrice(bid, vec[0].price, rest[k][0].price) {
          GroupsFromVec(vec[n..], pred, rest[k][0], k);
          WorseAfterRun(vec, bid, n, rest[k][0]);
        }
        assert Sorted(bid, vec[n..]);
      }
    }
  }

  lemma WorseAfterRun(vec: seq<Quote>, bid: bool, n: nat, q: Quote)
    requires vec != [] && n == Run(vec, vec[0].price) && Sorted(bid, vec) && q in vec[n..]
    ensures BetterPrice(bid, vec[0].price, q.price)
  {
    var i :| 0 <= i < |vec[n..]| && vec[n..][i] == q;
    assert vec[n + i] == q;
    assert InFrontOf(bid, vec[0], vec[n]);
    if i > 0 {
      assert InFrontOf(bid, vec[n], vec[n + i]);
    }
  }

  /** What a callback gets to see that answers "continue" or "stop" after each level, from what it has seen so far. */
  ghost predicate Delivered(groups: seq<seq<Quote>>, decide: seq<seq<Quote>> -> bool, d: seq<seq<Quote>>) {
    && d <= groups
    && (forall k :: 0 < k < |d| ==> decide(groups[..k]))
    && (d == groups || (d != [] && !decide(d)))
  }

  lemma DeliveredIsUnique(groups: seq<seq<Quote>>, decide: seq<seq<Quote>> -> bool,
                          d: seq<seq<Quote>>, e: seq<seq<Quote>>)
    requires Delivered(groups, decide, d) && Delivered(groups, decide, e)
    ensures d == e
  {
    assert d == groups[..|d|] && e == groups[..|e|];
  }

  function FirstLevels(groups: seq<seq<Quote>>, n: nat): seq<seq<Quote>> {
    if n == 0 || n >= |groups| then groups else groups[..n]
  }

  /** With n > 0 the levels are the first n of all levels, or all. */
  lemma LimitedDelivery(groups: seq<seq<Quote>>, n: nat, d: seq<seq<Quote>>)
    requires Delivered(groups, e => n == 0 || |e| < n, d)
    ensures d == FirstLevels(groups, n)
  {
    assert d == groups[..|d|];
    assert forall k :: 0 < k < |d| ==> |groups[..k]| == k;
  }

  // ---------------------------------------------------------------------------------------------------------
  // The quotes that cover a volume
  // ---------------------------------------------------------------------------------------------------------

  function Unused(quotes: seq<Quote>): seq<Quote> {
    Filter(quotes, (q: Quote) => !q.used)
  }

  lemma UnusedAppend(quotes: seq<Quote>, q: Quote)
    ensures Unused(quotes + [q]) == if q.used then Unused(quotes) else Unused(quotes) + [q]
  {
    FilterConcat(quotes, [q], (r: Quote) => !r.used);
  }

  function Volume(quotes: seq<Quote>): int {
    if quotes == [] then 0 else Volume(quotes[..|quotes| - 1]) + quotes[|quotes| - 1].volume
  }

  lemma VolumeAppend(quotes: seq<Quote>, q: Quote)
    ensures Volume(quotes + [q]) == Volume(quotes) + q.volume
  {
    assert (quotes + [q])[..|quotes|] == quotes;
  }

  /** Volumes add up. */
  lemma {:induction false} VolumeConcat(a: seq<Quote>, b: seq<Quote>)
    ensures Volume(a + b) == Volume(a) + Volume(b)
    ensures |a| == 1 ==> Volume(a) == a[0].volume
  {
    if |a| == 1 {
      assert a[..0] == [];
    }
    if b == [] {
      assert a + b == a;
    } else {
      assert (a + b)[..|a + b| - 1] == a + b[..|b| - 1];
      VolumeConcat(a, b[..|b| - 1]);
    }
  }

  /** Quotes from the front, as long as their volumes leave something to cover. */
  function Cover(quotes: seq<Quote>, volume: int): seq<Quote> {
    if quotes == [] then []
    else
      var before := Cover(quotes[..|quotes| - 1], volume);
      if volume > Volume(before) then before + [quotes[|quotes| - 1]] else before
  }

  lemma CoverAppend(quotes: seq<Quote>, q: Quote, volume: int)
    ensures Cover(quotes + [q], volume) == var c := Cover(quotes, volume); if volume > Volume(c) then c + [q] else c
  {
    assert (quotes + [q])[..|quotes|] == quotes;
  }

  /** That is the shortest prefix whose volume covers the request, or everything; it does not change any more then. */
  lemma {:induction false} CoverIsShortest(quotes: seq<Quote>, volume: int)
    ensures var c := Cover(quotes, volume);
            && c <= quotes
            && (volume > Volume(c) ==> c == quotes)
            && forall n :: 0 <= n < |c| ==> Volume(c[..n]) < volume
  {
    if quotes != [] {
      var before := Cover(quotes[..|quotes| - 1], volume);
      CoverIsShortest(quotes[..|quotes| - 1], volume);
      if volume > Volume(before) {
        var c := before + [quotes[|quotes| - 1]];
        forall n | 0 <= n < |c| ensures Volume(c[..n]) < volume {
          if n == |before| {
            assert c[..n] == before;
          } else {
            assert c[..n] == before[..n];
          }
        }
      }
    }
  }

  lemma {:induction false} CoverIsFinal(quotes: seq<Quote>, more: seq<Quote>, volume: int)
    requires volume <= Volume(Cover(quotes, volume))
    ensures Cover(quotes + more, volume) == Cover(quotes, volume)
  {
    if more == [] {
      assert quotes + more == quotes;
    } else {
      assert (quotes + more)[..|quotes + more| - 1] == quotes + more[..|more| - 1];
      CoverIsFinal(quotes, more[..|more| - 1], volume);
    }
  }

  // ---------------------------------------------------------------------------------------------------------
  // Chunks
  // ---------------------------------------------------------------------------------------------------------

  /** Finished chunks, the quotes of the unfinished one, and whether the client wants more. */
  datatype Chunking = Chunking(chunks: seq<seq<Quote>>, unfinished: seq<Quote>, cont: bool)

  function AddToChunk(c: Chunking, q: Quote, minimum: int, answer: seq<seq<Quote>> -> bool): Chunking {
    if !c.cont || q.used then c
    else
      var chunk := c.unfinished + [q];
      if Volume(chunk) >= minimum then Chunking(c.chunks + [chunk], [], answer(c.chunks + [chunk]))
      else c.(unfinished := chunk)
  }

  function Chunked(quotes: seq<Quote>, minimum: int, answer: seq<seq<Quote>> -> bool): Chunking {
    if quotes == [] then Chunking([], [], true)
    else AddToChunk(Chunked(quotes[..|quotes| - 1], minimum, answer), quotes[|quotes| - 1], minimum, answer)
  }

  function AllChunks(c: Chunking): seq<seq<Quote>> {
    if c.unfinished == [] then c.chunks else c.chunks + [c.unfinished]
  }

  lemma ChunkedAppend(quotes: seq<Quote>, q: Quote, minimum: int, answer: seq<seq<Quote>> -> bool)
    ensures Chunked(quotes + [q], minimum, answer) == AddToChunk(Chunked(quotes, minimum, answer), q, minimum, answer)
  {
    assert (quotes + [q])[..|quotes|] == quotes;
  }

  lemma {:induction false} ChunkedIsFinal(quotes: seq<Quote>, more: seq<Quote>, minimum: int,
                                          answer: seq<seq<Quote>> -> bool)
    requires !Chunked(quotes, minimum, answer).cont
    ensures Chunked(quotes + more, minimum, answer) == Chunked(quotes, minimum, answer)
  {
    if more == [] {
      assert quotes + more == quotes;
    } else {
      assert (quotes + more)[..|quotes + more| - 1] == quotes + more[..|more| - 1];
      ChunkedIsFinal(quotes, more[..|more| - 1], minimum, answer);
    }
  }

  /** No part of the chunk from its front, but the chunk itself perhaps, reaches the minimum. */
  ghost predicate ShortBefore(chunk: seq<Quote>, minimum: int) {
    forall n :: 0 < n < |chunk| ==> Volume(chunk[..n]) < minimum
  }

  lemma ShortExtended(chunk: seq<Quote>, q: Quote, minimum: int)
    requires ShortBefore(chunk, minimum) && (chunk != [] ==> Volume(chunk) < minimum)
    ensures ShortBefore(chunk + [q], minimum)
  {
    forall n | 0 < n < |chunk + [q]| ensures Volume((chunk + [q])[..n]) < minimum {
      if n == |chunk| {
        assert (chunk + [q])[..n] == chunk;
      } else {
        assert (chunk + [q])[..n] == chunk[..n];
      }
    }
  }

  ghost predicate Finished(chunk: seq<Quote>, minimum: int) {
    chunk != [] && Volume(chunk) >= minimum && ShortBefore(chunk, minimum)
  }

  ghost predicate Minimal(c: Chunking, minimum: int) {
    && (forall k :: 0 <= k < |c.chunks| ==> Finished(c.chunks[k], minimum))
    && (c.unfinished != [] ==> Volume(c.unfinished) < minimum && ShortBefore(c.unfinished, minimum))
  }

  ghost predicate Consumed(c: Chunking, unused: seq<Quote>) {
    && Flatten(c.chunks) + c.unfinished <= unused
    && (c.cont ==> Flatten(c.chunks) + c.unfinished == unused)
    && (!c.cont ==> c.unfinished == [])
  }

  ghost predicate Answered(c: Chunking, answer: seq<seq<Quote>> -> bool) {
    && (forall k :: 0 < k < |c.chunks| ==> answer(c.chunks[..k]))
    && (c.cont <==> c.chunks == [] || answer(c.chunks))
  }

  lemma AddMinimal(c: Chunking, q: Quote, minimum: int, answer: seq<seq<Quote>> -> bool)
    requires Minimal(c, minimum)
    ensures Minimal(AddToChunk(c, q, minimum, answer), minimum)
  {
    ShortExtended(c.unfinished, q, minimum);
  }

  lemma AddConsumed(c: Chunking, unused: seq<Quote>, q: Quote, minimum: int, answer: seq<seq<Quote>> -> bool)
    requires Consumed(c, unused)
    ensures Consumed(AddToChunk(c, q, minimum, answer), if q.used then unused else unused + [q])
  {
    FlattenAppend(c.chunks, c.unfinished + [q]);
    assert Flatten(c.chunks) + (c.unfinished + [q]) == Flatten(c.chunks) + c.unfinished + [q];
  }

  lemma AddAnswered(c: Chunking, q: Quote, minimum: int, answer: seq<seq<Quote>> -> bool)
    requires Answered(c, answer)
    ensures Answered(AddToChunk(c, q, minimum, answer), answer)
  {
    var r := AddToChunk(c, q, minimum, answer);
    if |r.chunks| > |c.chunks| {
      assert r.chunks[..|c.chunks|] == c.chunks;
      assert forall k :: 0 < k < |c.chunks| ==> r.chunks[..k] == c.chunks[..k];
    }
  }

  /** Finished chunks reach the minimum, and not before their last quote; the unfinished one does not reach it. */
  lemma {:induction false} ChunksAreMinimal(quotes: seq<Quote>, minimum: int, answer: seq<seq<Quote>> -> bool)
    ensures Minimal(Chunked(quotes, minimum, answer), minimum)
  {
    if quotes != [] {
      ChunksAreMinimal(quotes[..|quotes| - 1], minimum, answer);
      AddMinimal(Chunked(quotes[..|quotes| - 1], minimum, answer), quotes[|quotes| - 1], minimum, answer);
    }
  }

  /** The chunks are the unused quotes in order: all of them, or as far as the client wanted them. */
  lemma {:induction false} ChunksConsume(quotes: seq<Quote>, minimum: int, answer: seq<seq<Quote>> -> bool)
    ensures Consumed(Chunked(quotes, minimum, answer), Unused(quotes))
  {
    if quotes != [] {
      var before, q := quotes[..|quotes| - 1], quotes[|quotes| - 1];
      ChunksConsume(before, minimum, answer);
      ConsumeNext(before, q, minimum, answer);
      assert before + [q] == quotes;
    }
  }

  lemma ConsumeNext(before: seq<Quote>, q: Quote, minimum: int, answer: seq<seq<Quote>> -> bool)
    requires Consumed(Chunked(before, minimum, answer), Unused(before))
    ensures Consumed(Chunked(before + [q], minimum, answer), Unused(before + [q]))
  {
    ChunkedAppend(before, q, minimum, answer);
    UnusedAppend(before, q);
    AddConsumed(Chunked(before, minimum, answer), Unused(before), q, minimum, answer);
  }

  /** The client got all chunks up to the first one after which it wanted no more. */
  lemma {:induction false} ChunksAnswered(quotes: seq<Quote>, minimum: int, answer: seq<seq<Quote>> -> bool)
    ensures Answered(Chunked(quotes, minimum, answer), answer)
  {
    if quotes != [] {
      ChunksAnswered(quotes[..|quotes| - 1], minimum, answer);
      AddAnswered(Chunked(quotes[..|quotes| - 1], minimum, answer), quotes[|quotes| - 1], minimum, answer);
    }
  }

  lemma AllChunksOf(c: Chunking, minimum: int)
    requires Minimal(c, minimum)
    ensures Flatten(AllChunks(c)) == Flatten(c.chunks) + c.unfinished
    ensures forall k :: 0 <= k < |AllChunks(c)| ==> AllChunks(c)[k] != [] && ShortBefore(AllChunks(c)[k], minimum)
    ensures forall k :: 0 <= k < |AllChunks(c)| - 1 ==> Finished(AllChunks(c)[k], minimum)
  {
    FlattenAppend(c.chunks, c.unfinished);
  }

  /** The same for the result, with the unfinished chunk at its end. */
  lemma ChunksConcatenate(quotes: seq<Quote>, minimum: int, answer: seq<seq<Quote>> -> bool, result: seq<seq<Quote>>)
    requires result == AllChunks(Chunked(quotes, minimum, answer))
    ensures Flatten(result) <= Unused(quotes)
    ensures (forall chunks :: answer(chunks)) ==> Flatten(result) == Unused(quotes)
    ensures forall k :: 0 <= k < |result| ==> result[k] != [] && ShortBefore(result[k], minimum)
    ensures forall k :: 0 <= k < |result| - 1 ==> Finished(result[k], minimum)
  {
    ChunksAreMinimal(quotes, minimum, answer);
    ChunksConsume(quotes, minimum, answer);
    ChunksAnswered(quotes, minimum, answer);
    AllChunksOf(Chunked(quotes, minimum, answer), minimum);
  }
}
