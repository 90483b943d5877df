/** What a message says, level by level: which levels count, and what they leave active. */
module MessageLevels {
  import opened Wrappers
  import opened Quotes
  import opened ActiveQuoteTables
  import opened MarketData

  /** The levels of one side of a pair, as received. */
  datatype Message = Message(cp: Pair, side: EntryType, levels: seq<Level>) {
    predicate Valid() {
      cp.Valid() && !side.NoType?
    }

    /** The first levels only. */
    function First(n: nat): Message
      requires n <= |levels|
    {
      Message(cp, side, levels[..n])
    }

    function IdAt(name: Naming, i: nat): string
      requires i < |levels|
    {
      name(cp) + "_" + (if side.Bid? then "B" else "A") + levels[i].priceText
    }
  }

  /** The entries that the parser makes of a message, field by field. */
  ghost predicate EntriesOf(name: Naming, m: Message, entries: seq<Entry>) {
    && |entries| == |m.levels|
    && forall i :: 0 <= i < |entries| ==>
         && entries[i].id == entries[i].refId == m.IdAt(name, i)
         && entries[i].cp == m.cp && entries[i].entryType == m.side
         && entries[i].updateType == (if m.levels[i].size == 0.0 then QtDelete else QtNew)
         && entries[i].price == m.levels[i].price && entries[i].volume == m.levels[i].size
  }

  lemma EntriesAreParsed(name: Naming, m: Message, entries: seq<Entry>)
    ensures EntriesOf(name, m, entries) <==> entries == ParseLevels(name, m.levels, m.side, m.cp)
  {
    var parsed := ParseLevels(name, m.levels, m.side, m.cp);
    forall i | 0 <= i < |parsed| ensures parsed[i].id == m.IdAt(name, i) {
      assert parsed[i] == ParseLevel(name, m.levels[i], m.side, m.cp);
    }
    assert EntriesOf(name, m, parsed);
    if EntriesOf(name, m, entries) {
      forall i | 0 <= i < |entries| ensures entries[i] == parsed[i] {
      }
    }
  }

  /** The last level of the message with this id. */
  function LastWith(name: Naming, m: Message, id: string): Option<Level>
    decreases |m.levels|
  {
    var n := |m.levels|;
    if n == 0 then None
    else if m.IdAt(name, n - 1) == id then Some(m.levels[n - 1])
    else LastWith(name, m.First(n - 1), id)
  }

  /** Whether an id is active after the message, if `active` were active before it. */
  predicate ActiveAfter(name: Naming, active: set<string>, m: Message, id: string) {
    match LastWith(name, m, id)
    case None => id in active
    case Some(level) => level.size != 0.0
  }

  /** A level that ends the message: of size zero, for an id that is not active when it comes. */
  predicate Ends(name: Naming, active: set<string>, m: Message, i: nat)
    requires i < |m.levels|
  {
    m.levels[i].size == 0.0 && !ActiveAfter(name, active, m.First(i), m.IdAt(name, i))
  }

  /** How many levels count: those before the first that ends the message. */
  ghost predicate Counting(name: Naming, active: set<string>, m: Message, h: nat) {
    && h <= |m.levels|
    && (forall i :: 0 <= i < h ==> !Ends(name, active, m, i))
    && (h < |m.levels| ==> Ends(name, active, m, h))
  }

  /** What the levels show in the ladder: the last level of each id, unless it has size zero. */
  ghost predicate Leaves(scales: Scales, name: Naming, before: Ladder, m: Message, after: Ladder) {
    forall id :: LeavesId(scales, name, before, m, after, id)
  }

  ghost predicate LeavesId(scales: Scales, name: Naming, before: Ladder, m: Message, after: Ladder, id: string) {
    match LastWith(name, m, id)
    case None => (id in after <==> id in before) && (id in after ==> after[id] == before[id])
    case Some(level) =>
      && (id in after <==> level.size != 0.0)
      && (id in after ==> ShowsLevel(scales, m, level, after[id]))
  }

  /** Pair and side of the message, price and size of the level to the nearest unit. */
  ghost predicate ShowsLevel(scales: Scales, m: Message, level: Level, live: Live) {
    && live.cp == m.cp && live.bid == m.side.Bid?
    && live.price == scales(m.cp).ToCpip(level.price) && live.volume == scales(m.cp).ToQty(level.size)
  }

  lemma FirstFirst(m: Message, n: nat, k: nat)
    requires k <= n <= |m.levels|
    ensures m.First(n).First(k) == m.First(k)
  {
    assert m.levels[..n][..k] == m.levels[..k];
  }

  lemma LastOfNext(name: Naming, m: Message, n: nat, id: string)
    requires n < |m.levels|
    ensures LastWith(name, m.First(n + 1), id)
         == if m.IdAt(name, n) == id then Some(m.levels[n]) else LastWith(name, m.First(n), id)
  {
    FirstFirst(m, n + 1, n);
  }

  lemma ActiveIsInLadder(scales: Scales, name: Naming, before: Ladder, m: Message, after: Ladder, id: string)
    requires Leaves(scales, name, before, m, after)
    ensures id in after <==> ActiveAfter(name, before.Keys, m, id)
  {
    assert LeavesId(scales, name, before, m, after, id);
  }

  lemma OneMore(scales: Scales, name: Naming, before: Ladder, m: Message, n: nat, ladder: Ladder, next: Ladder)
    requires n < |m.levels| && Leaves(scales, name, before, m.First(n), ladder)
    requires var id := m.IdAt(name, n);
             if m.levels[n].size == 0.0 then next == ladder - {id}
             else id in next && next == ladder[id := next[id]] && ShowsLevel(scales, m, m.levels[n], next[id])
    ensures Leaves(scales, name, before, m.First(n + 1), next)
  {
    var more := m.First(n + 1);
    forall id ensures LeavesId(scales, name, before, more, next, id) {
      assert LeavesId(scales, name, before, m.First(n), ladder, id);
      LastOfNext(name, m, n, id);
    }
  }

  lemma EntryStep(scales: Scales, name: Naming, m: Message, entries: seq<Entry>, n: nat, ladder: Ladder)
    requires m.Valid() && EntriesOf(name, m, entries) && n < |entries|
    ensures var id := m.IdAt(name, n);
            match SpecEntry(scales, ladder, entries[n])
            case Halt => m.levels[n].size == 0.0 && id !in ladder
            case Continue(next) =>
              if m.levels[n].size == 0.0 then id in ladder && next == ladder - {id}
              else id in next && next == ladder[id := next[id]] && ShowsLevel(scales, m, m.levels[n], next[id])
  {
  }

  /** From level `n` on: the ladder so far is what the levels before `n` leave. */
  lemma {:induction false} RestLeaves(scales: Scales, name: Naming, before: Ladder, m: Message, entries: seq<Entry>,
                                      n: nat, ladder: Ladder) returns (h: nat)
    requires m.Valid() && EntriesOf(name, m, entries) && n <= |entries|
    requires Leaves(scales, name, before, m.First(n), ladder)
    requires forall i :: 0 <= i < n ==> !Ends(name, before.Keys, m, i)
    ensures n <= h && Counting(name, before.Keys, m, h)
    ensures Leaves(scales, name, before, m.First(h), SpecMessage(scales, ladder, entries[n..]))
    decreases |entries| - n
  {
    if n == |entries| {
      return n;
    }
    assert entries[n..][0] == entries[n] && entries[n..][1..] == entries[n + 1..];
    EntryStep(scales, name, m, entries, n, ladder);
    ActiveIsInLadder(scales, name, before, m.First(n), ladder, m.IdAt(name, n));
    match SpecEntry(scales, ladder, entries[n])
    case Halt => return n;
    case Continue(next) =>
      OneMore(scales, name, before, m, n, ladder, next);
      h := RestLeaves(scales, name, before, m, entries, n + 1, next);
  }

  /**
    What the specification makes of a parsed message: of the levels before the one that ends it, if any, the last one
    of each id shows in the ladder, and all other ids are as before.
   */
  lemma LevelsLeave(scales: Scales, name: Naming, before: Ladder, m: Message, entries: seq<Entry>) returns (h: nat)
    requires m.Valid() && EntriesOf(name, m, entries)
    ensures Counting(name, before.Keys, m, h)
    ensures Leaves(scales, name, before, m.First(h), SpecMessage(scales, before, entries))
  {
    forall id ensures LeavesId(scales, name, before, m.First(0), before, id) {
    }
    assert entries[0..] == entries;
    h := RestLeaves(scales, name, before, m, entries, 0, before);
  }

  lemma CountingIsUnique(name: Naming, active: set<string>, m: Message, h: nat, k: nat)
    requires Counting(name, active, m, h) && Counting(name, active, m, k)
    ensures h == k
  {
    assert h < |m.levels| ==> Ends(name, active, m, h);
    assert k < |m.levels| ==> Ends(name, active, m, k);
  }
}
