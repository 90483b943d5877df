/**
  The loops over the levels of a side.  A callback is given by what it answers ("continue?") after the levels it
  has seen so far, so it may keep any state of its own.
 */
module BookViews {
  import opened Wrappers
  import opened Quotes
  import opened Levels

  /** Advances over one price after another until a level has accepted quotes; None stands for a null group. */
  method GetNextLevel(srcVec: seq<Quote>, pred: Pred, start: nat) returns (group: Option<seq<Quote>>, next: nat)
    requires start < |srcVec|
    ensures start < next <= |srcVec|
    ensures Groups(srcVec[start..], pred) == if group.Some? then [group.value] + Groups(srcVec[next..], pred) else []
    ensures group.None? ==> next == |srcVec|
  {
    group, next := None, start;
    while next < |srcVec| && group.None?
      invariant start <= next <= |srcVec| && (next == start ==> group.None?)
      invariant Groups(srcVec[start..], pred)
             == if group.Some? then [group.value] + Groups(srcVec[next..], pred) else Groups(srcVec[next..], pred)
      decreases |srcVec| - next
    {
      var quotes, end := CollectPrice(srcVec, pred, next);
      if quotes != [] {
        group := Some(quotes);
      }
      next := end;
    }
  }

  /** The inner loop: all quotes of one price, reduced to accepted ones. */
  method CollectPrice(srcVec: seq<Quote>, pred: Pred, start: nat) returns (quotes: seq<Quote>, next: nat)
    requires start < |srcVec|
    ensures start < next <= |srcVec|
    ensures Groups(srcVec[start..], pred)
         == if quotes == [] then Groups(srcVec[next..], pred) else [quotes] + Groups(srcVec[next..], pred)
  {
    var price := srcVec[start].price;
    quotes, next := [], start;
    while next < |srcVec| && price == srcVec[next].price
      invariant start <= next <= |srcVec|
      invariant forall i :: start <= i < next ==> srcVec[i].price == price
      invariant quotes == Filter(srcVec[start..next], pred)
    {
      FilterConcat(srcVec[start..next], [srcVec[next]], pred);
      assert srcVec[start..next + 1] == srcVec[start..next] + [srcVec[next]];
      if pred(srcVec[next]) {
        quotes := quotes + [srcVec[next]];
      }
      next := next + 1;
    }
    GroupsNext(srcVec, pred, start, next);
  }

  lemma GroupsNext(srcVec: seq<Quote>, pred: Pred, start: nat, next: nat)
    requires start < next <= |srcVec| && (forall i :: start <= i < next ==> srcVec[i].price == srcVec[start].price)
    requires next < |srcVec| ==> srcVec[next].price != srcVec[start].price
    ensures Groups(srcVec[start..], pred)
         == (if Filter(srcVec[start..next], pred) == [] then Groups(srcVec[next..], pred)
             else [Filter(srcVec[start..next], pred)] + Groups(srcVec[next..], pred))
  {
    var rest := srcVec[start..];
    RunIs(rest, srcVec[start].price, next - start);
    assert rest[..next - start] == srcVec[start..next] && rest[next - start..] == srcVec[next..];
    assert [] + Groups(srcVec[next..], pred) == Groups(srcVec[next..], pred);
  }

  lemma {:induction false} RunIs(vec: seq<Quote>, price: int, n: nat)
    requires n <= |vec| && (forall i :: 0 <= i < n ==> vec[i].price == price) && (n < |vec| ==> vec[n].price != price)
    ensures Run(vec, price) == n
  {
    if n > 0 {
      RunIs(vec[1..], price, n - 1);
    }
  }

  /** Passes the levels to a callback until it wants no more: `delivered` is what it has seen in the end. */
  method IterateQuoteGroups(quotes: seq<Quote>, decide: seq<seq<Quote>> -> bool, pred: Pred)
    returns (delivered: seq<seq<Quote>>)
    ensures Delivered(Groups(quotes, pred), decide, delivered)
  {
    delivered := [];
    ghost var all, rest := Groups(quotes, pred), Groups(quotes, pred);
    var cont, it := true, 0;
    assert quotes[0..] == quotes;
    while cont && it < |quotes|
      invariant it <= |quotes| && rest == Groups(quotes[it..], pred) && all == delivered + rest
      invariant Continued(decide, delivered) && cont == (delivered == [] || decide(delivered))
      decreases |quotes| - it
    {
      var group;
      group, it := GetNextLevel(quotes, pred, it);
      if group.Some? {
        ContinuedAppend(decide, delivered, group.value);
        assert all == delivered + [group.value] + rest[1..];
        rest := rest[1..];
        delivered := delivered + [group.value];
        cont := decide(delivered);
      }
    }
    assert cont ==> quotes[it..] == [];
    IsDelivered(all, decide, delivered, rest);
  }

  /** The callback wanted to continue after all levels but the last one. */
  ghost predicate Continued(decide: seq<seq<Quote>> -> bool, d: seq<seq<Quote>>) {
    forall k :: 0 < k < |d| ==> decide(d[..k])
  }

  lemma ContinuedAppend(decide: seq<seq<Quote>> -> bool, d: seq<seq<Quote>>, group: seq<Quote>)
    requires Continued(decide, d) && (d == [] || decide(d))
    ensures Continued(decide, d + [group])
  {
    forall k | 0 < k < |d| + 1 ensures decide((d + [group])[..k]) {
      assert (d + [group])[..k] == if k == |d| then d else d[..k];
    }
  }

  lemma IsDelivered(groups: seq<seq<Quote>>, decide: seq<seq<Quote>> -> bool, d: seq<seq<Quote>>, rest: seq<seq<Quote>>)
    requires groups == d + rest && Continued(decide, d) && (rest == [] || (d != [] && !decide(d)))
    ensures Delivered(groups, decide, d)
  {
    assert forall k :: 0 < k < |d| ==> groups[..k] == d[..k];
  }

  /** All levels, or the first `n` of them. */
  method GetLevels(quotes: seq<Quote>, n: nat, pred: Pred) returns (levels: seq<seq<Quote>>)
    ensures levels == FirstLevels(Groups(quotes, pred), n)
    ensures levels <= Groups(quotes, pred)
    ensures |levels| == if n == 0 || n >= |Groups(quotes, pred)| then |Groups(quotes, pred)| else n
  {
    levels := IterateQuoteGroups(quotes, d => n == 0 || |d| < n, pred);
    LimitedDelivery(Groups(quotes, pred), n, levels);
  }

  /** The quotes seen after some levels are a front part of all accepted ones. */
  lemma DeliveredQuotes(quotes: seq<Quote>, pred: Pred, decide: seq<seq<Quote>> -> bool, d: seq<seq<Quote>>)
    requires Delivered(Groups(quotes, pred), decide, d)
    ensures Flatten(d) <= Filter(quotes, pred)
    ensures Flatten(d) == Filter(quotes, pred) || !decide(d)
  {
    GroupsKeepEverything(quotes, pred);
    FlattenPrefix(Groups(quotes, pred), |d|);
    assert Groups(quotes, pred)[..|d|] == d;
  }

  lemma CoverDelivered(quotes: seq<Quote>, pred: Pred, request: int, decide: seq<seq<Quote>> -> bool,
                       d: seq<seq<Quote>>)
    requires Delivered(Groups(quotes, pred), decide, d)
    requires decide(d) == (request > Volume(Cover(Unused(Flatten(d)), request)))
    ensures Cover(Unused(Flatten(d)), request) == Cover(Unused(Filter(quotes, pred)), request)
  {
    DeliveredQuotes(quotes, pred, decide, d);
    CoverOfPrefix(Flatten(d), Filter(quotes, pred), request);
  }

  lemma CoverOfPrefix(seen: seq<Quote>, all: seq<Quote>, volume: int)
    requires seen <= all && (seen == all || volume <= Volume(Cover(Unused(seen), volume)))
    ensures Cover(Unused(seen), volume) == Cover(Unused(all), volume)
  {
    var more := all[|seen|..];
    assert all == seen + more;
    if seen != all {
      FilterConcat(seen, more, (q: Quote) => !q.used);
      CoverIsFinal(Unused(seen), Unused(more), volume);
    }
  }

  /** The first unused accepted quotes that cover the volume. */
  method AggregateLevel(quotes: seq<Quote>, request: int, pred: Pred) returns (quoteVec: seq<Quote>)
    ensures quoteVec == Cover(Unused(Filter(quotes, pred)), request)
  {
    var decide := (d: seq<seq<Quote>>) => request > Volume(Cover(Unused(Flatten(d)), request));
    var groups := IterateQuoteGroups(quotes, decide, pred);
    CoverDelivered(quotes, pred, request, decide, groups);
    quoteVec := CoverGroups(groups, request);
  }

  /** The callback's work on all levels it gets. */
  method CoverGroups(groups: seq<seq<Quote>>, request: int) returns (quoteVec: seq<Quote>)
    ensures quoteVec == Cover(Unused(Flatten(groups)), request)
  {
    quoteVec := [];
    var volume, i := request, 0;
    while i < |groups|
      invariant i <= |groups| && quoteVec == Cover(Unused(Flatten(groups[..i])), request)
      invariant volume == request - Volume(quoteVec)
    {
      quoteVec, volume := CoverGroup(Unused(Flatten(groups[..i])), groups[i], quoteVec, volume, request);
      FlattenAppend(groups[..i], groups[i]);
      FilterConcat(Flatten(groups[..i]), groups[i], (q: Quote) => !q.used);
      assert groups[..i + 1] == groups[..i] + [groups[i]];
      i := i + 1;
    }
    assert groups[..i] == groups;
  }

  /** The callback: one level's quotes, of which those are taken that are still needed. */
  method CoverGroup(ghost unused: seq<Quote>, group: seq<Quote>, taken: seq<Quote>, remaining: int, ghost request: int)
    returns (quoteVec: seq<Quote>, volume: int)
    requires taken == Cover(unused, request) && remaining == request - Volume(taken)
    ensures quoteVec == Cover(unused + Unused(group), request) && volume == request - Volume(quoteVec)
  {
    quoteVec, volume := taken, remaining;
    var j := 0;
    ghost var seen := unused;
    assert group[0..] == group;
    while j < |group|
      invariant j <= |group| && seen + Unused(group[j..]) == unused + Unused(group)
      invariant quoteVec == Cover(seen, request) && volume == request - Volume(quoteVec)
    {
      var q := group[j];
      UnusedNext(seen, group, j);
      CoverAppend(seen, q, request);
      VolumeAppend(quoteVec, q);
      if volume > 0 && !q.used {
        quoteVec := quoteVec + [q];
        volume := volume - q.volume;
      }
      seen := if q.used then seen else seen + [q];
      j := j + 1;
    }
    assert seen + Unused(group[j..]) == seen;
  }

  lemma UnusedNext(seen: seq<Quote>, group: seq<Quote>, j: nat)
    requires j < |group|
    ensures seen + Unused(group[j..])
         == (if group[j].used then seen else seen + [group[j]]) + Unused(group[j + 1..])
  {
    assert group[j..][1..] == group[j + 1..];
  }

  lemma ChunkedDelivered(quotes: seq<Quote>, pred: Pred, minimum: int, answer: seq<seq<Quote>> -> bool,
                         decide: seq<seq<Quote>> -> bool, d: seq<seq<Quote>>)
    requires Delivered(Groups(quotes, pred), decide, d)
    requires decide(d) == Chunked(Flatten(d), minimum, answer).cont
    ensures Chunked(Flatten(d), minimum, answer) == Chunked(Filter(quotes, pred), minimum, answer)
  {
    DeliveredQuotes(quotes, pred, decide, d);
    ChunkedOfPrefix(Flatten(d), Filter(quotes, pred), minimum, answer);
  }

  lemma ChunkedOfPrefix(seen: seq<Quote>, all: seq<Quote>, minimum: int, answer: seq<seq<Quote>> -> bool)
    requires seen <= all && (seen == all || !Chunked(seen, minimum, answer).cont)
    ensures Chunked(seen, minimum, answer) == Chunked(all, minimum, answer)
  {
    var more := all[|seen|..];
    assert all == seen + more;
    if seen != all {
      ChunkedIsFinal(seen, more, minimum, answer);
    }
  }

  /** Cuts the unused accepted quotes into chunks and passes each to `answer`, which sees `chunks`. */
  method AggregateLevels(quotes: seq<Quote>, minVolumePerLevel: int, answer: seq<seq<Quote>> -> bool, pred: Pred)
    returns (chunks: seq<seq<Quote>>)
    ensures chunks == AllChunks(Chunked(Filter(quotes, pred), minVolumePerLevel, answer))
  {
    var decide := (d: seq<seq<Quote>>) => Chunked(Flatten(d), minVolumePerLevel, answer).cont;
    var groups := IterateQuoteGroups(quotes, decide, pred);
    ChunkedDelivered(quotes, pred, minVolumePerLevel, answer, decide, groups);
    chunks := ChunkGroups(groups, minVolumePerLevel, answer);
  }

  /** The callback's work on all levels it gets, and the unfinished chunk at the end. */
  method ChunkGroups(groups: seq<seq<Quote>>, minVolumePerLevel: int, answer: seq<seq<Quote>> -> bool)
    returns (chunks: seq<seq<Quote>>)
    ensures chunks == AllChunks(Chunked(Flatten(groups), minVolumePerLevel, answer))
  {
    var state, aggVolume, i := Chunking([], [], true), 0, 0;
    while i < |groups|
      invariant i <= |groups| && state == Chunked(Flatten(groups[..i]), minVolumePerLevel, answer)
      invariant aggVolume == Volume(state.unfinished)
    {
      state, aggVolume := ChunkGroup(Flatten(groups[..i]), groups[i], state, aggVolume, minVolumePerLevel, answer);
      FlattenAppend(groups[..i], groups[i]);
      assert groups[..i + 1] == groups[..i] + [groups[i]];
      i := i + 1;
    }
    assert groups[..i] == groups;
    chunks := state.chunks;
    if state.unfinished != [] {
      chunks := chunks + [state.unfinished];
    }
  }

  /** The callback: one level's quotes are added to the unfinished chunk. */
  method ChunkGroup(ghost before: seq<Quote>, group: seq<Quote>, start: Chunking, volume: int, minimum: int,
                    answer: seq<seq<Quote>> -> bool)
    returns (state: Chunking, aggVolume: int)
    requires start == Chunked(before, minimum, answer) && volume == Volume(start.unfinished)
    ensures state == Chunked(before + group, minimum, answer) && aggVolume == Volume(state.unfinished)
  {
    state, aggVolume := start, volume;
    var j := 0;
    ghost var seen := before;
    while j < |group|
      invariant j <= |group| && seen == before + group[..j]
      invariant state == Chunked(seen, minimum, answer) && aggVolume == Volume(state.unfinished)
    {
      ChunkedAppend(seen, group[j], minimum, answer);
      seen := seen + [group[j]];
      state, aggVolume := ChunkQuote(state, aggVolume, group[j], minimum, answer);
      j := j + 1;
    }
    assert seen == before + group;
  }

  /** What happens to one quote; a full chunk is passed on. */
  method ChunkQuote(c: Chunking, volume: int, q: Quote, minimum: int, answer: seq<seq<Quote>> -> bool)
    returns (state: Chunking, aggVolume: int)
    requires volume == Volume(c.unfinished)
    ensures state == AddToChunk(c, q, minimum, answer) && aggVolume == Volume(state.unfinished)
  {
    state, aggVolume := c, volume;
    if state.cont && !q.used {
      VolumeAppend(c.unfinished, q);
      state := state.(unfinished := state.unfinished + [q]);
      aggVolume := aggVolume + q.volume;
      if aggVolume >= minimum {
        var passed := state.chunks + [state.unfinished];
        state := Chunking(passed, [], answer(passed));
        aggVolume := 0;
      }
    }
  }
}
