/**
  From price levels to book updates: what one market-data connection does with a message
  (`ConnectionBaseMD::ParseQuote`, `PublishQuotes`), and the plain specification it is measured against.
 */
module MarketData {
  import opened Wrappers
  import opened Quotes
  import opened ActiveQuoteTables

  /** A price level as received: the price text, and the numbers its price and size texts denote. */
  datatype Level = Level(priceText: string, price: real, size: real)

  datatype Entry = Entry(
    id: string,
    refId: string,
    cp: Pair,
    entryType: EntryType,
    updateType: UpdateType,
    price: real,
    volume: real
  )

  type Scales = Pair -> Scale

  /** The names of pairs as they are given out: the registry may remember others than their symbols make. */
  type Naming = Pair -> string

  function FreshName(cp: Pair): string {
    cp.ToString()
  }

  /** The generated id of a level: name of the pair, side letter and price text. */
  function EntryId(name: Naming, cp: Pair, entryType: EntryType, priceText: string): string {
    name(cp) + "_" + (if entryType.Bid? then "B" else "A") + priceText
  }

  function ParseLevel(name: Naming, level: Level, entryType: EntryType, cp: Pair): Entry {
    var id := EntryId(name, cp, entryType, level.priceText);
    Entry(id, id, cp, entryType, if level.size == 0.0 then QtDelete else QtNew, level.price, level.size)
  }

  function ParseLevels(name: Naming, levels: seq<Level>, entryType: EntryType, cp: Pair): (entries: seq<Entry>)
    ensures |entries| == |levels|
    ensures forall i :: 0 <= i < |levels| ==> entries[i] == ParseLevel(name, levels[i], entryType, cp)
  {
    seq(|levels|, i requires 0 <= i < |levels| => ParseLevel(name, levels[i], entryType, cp))
  }

  /** The next key: the clock if it has moved past the last key, else the last key plus one. */
  function NextKey(lastKey: int, now: int): (key: int)
    ensures key > lastKey
  {
    if now <= lastKey then lastKey + 1 else now
  }

  /** What becomes of an entry: skipped, ends the message, or published to one side of one pair. */
  datatype Outcome = Skip | Stop | Publish(cp: Pair, bid: bool, quote: Quote)

  datatype Resolution = Unresolved | Resolved(cp: Pair, entryType: EntryType)

  /** Pair and side of an entry, completed from the entry it refers to where they are missing. */
  function Resolve(table: Table, e: Entry): Resolution {
    if !e.entryType.NoType? && e.cp.Valid() then Resolved(e.cp, e.entryType)
    else
      var found := Lookup(table, e.refId);
      if found.None? then Unresolved
      else Resolved(if e.cp.Valid() then e.cp else found.value.cp,
                    if e.entryType.NoType? then found.value.entryType else e.entryType)
  }

  function FreshInfo(key: int, cp: Pair, entryType: EntryType): QuoteInfo {
    QuoteInfo(key, cp, entryType, 0, key, 0)
  }

  function MakeQuote(scales: Scales, cp: Pair, key: int, refKey: int, updateType: UpdateType, e: Entry): Quote {
    Quote(key, refKey, updateType, scales(cp).ToCpip(e.price), scales(cp).ToQty(e.volume), scales(cp).ToQty(0.0), false)
  }

  datatype Registered = Registered(table: Table, lastKey: int, outcome: Outcome)

  /** One pass of the publishing loop up to, and without, the call of the order book. */
  function Register(scales: Scales, table: Table, lastKey: int, e: Entry, now: int): Registered {
    var where := Resolve(table, e);
    if where.Unresolved? then Registered(table, lastKey, Skip)
    else
      var key := NextKey(lastKey, now);
      var prior := Lookup(table, e.refId);
      if e.updateType.QtDelete? then
        if prior.None? then Registered(table, key, Stop)
        else Registered(Removed(table, e.refId), key,
                        Publish(where.cp, where.entryType.Bid?,
                                MakeQuote(scales, where.cp, key, prior.value.key, QtDelete, e)))
      else
        var updateType :=
          if prior.Some? && e.updateType.QtNew? then QtUpdate
          else if prior.None? && e.updateType.QtUpdate? then QtNew
          else e.updateType;
        Registered(Replaced(table, e.refId, e.id, FreshInfo(key, where.cp, where.entryType)), key,
                   Publish(where.cp, where.entryType.Bid?,
                           MakeQuote(scales, where.cp, key, if prior.Some? then prior.value.key else 0, updateType, e)))
  }

  /** The entry that the given one replaces or removes. */
  predicate HasPrior(table: Table, e: Entry) {
    e.refId != "" && e.refId in table
  }

  /** Price and volume to the nearest unit, and no minimum quantity. */
  ghost predicate NumbersOf(scale: Scale, e: Entry, q: Quote) {
    && Rounded(q.price, e.price * scale.cpipFactor as real)
    && Rounded(q.volume, e.volume * scale.qtyFactor as real)
    && q.minQty == 0 && !q.used
  }

  lemma MadeNumbers(scales: Scales, cp: Pair, key: int, refKey: int, updateType: UpdateType, e: Entry)
    ensures NumbersOf(scales(cp), e, MakeQuote(scales, cp, key, refKey, updateType, e))
  {
    assert 0.0 * scales(cp).qtyFactor as real == 0.0;
  }

  /** The quote that is published for an entry: numbers of the entry, keys, and the corrected type. */
  ghost predicate QuoteFor(scales: Scales, table: Table, e: Entry, cp: Pair, key: int, q: Quote) {
    && q.key == key && q.refKey == (if HasPrior(table, e) then table[e.refId].key else 0)
    && NumbersOf(scales(cp), e, q)
    && q.updateType == (if e.updateType.QtNew? && HasPrior(table, e) then QtUpdate
                        else if e.updateType.QtUpdate? && !HasPrior(table, e) then QtNew
                        else e.updateType)
  }

  /** The table without the prior entry and, but for a delete, with the new one; a taken id is not overwritten. */
  ghost predicate TableFor(table: Table, e: Entry, cp: Pair, bid: bool, key: int, after: Table) {
    if e.updateType.QtDelete? then after == table - {e.refId}
    else
      && (forall id :: id != e.id ==> (id in after <==> id in table && !(HasPrior(table, e) && id == e.refId)))
      && (forall id :: id in after && id != e.id ==> after[id] == table[id])
      && e.id in after
      && if e.id in table && !(HasPrior(table, e) && e.id == e.refId) then after[e.id] == table[e.id]
         else after[e.id].key == key == after[e.id].oriKey && after[e.id].cp == cp && after[e.id].entryType.Bid? == bid
  }

  /** What becomes of an entry, case by case. */
  ghost predicate Handles(scales: Scales, table: Table, lastKey: int, e: Entry, now: int, r: Registered) {
    var prior, complete := HasPrior(table, e), !e.entryType.NoType? && e.cp.Valid();
    && (r.outcome.Skip? <==> !complete && !prior)
    && (r.outcome.Stop? <==> complete && !prior && e.updateType.QtDelete?)
    && (r.outcome.Skip? ==> r.table == table && r.lastKey == lastKey)
    && (!r.outcome.Skip? ==> r.lastKey == if now > lastKey then now else lastKey + 1)
    && (r.outcome.Stop? ==> r.table == table)
    && (r.outcome.Publish? ==>
          && r.outcome.cp == (if e.cp.Valid() then e.cp else table[e.refId].cp)
          && r.outcome.bid == (if e.entryType.NoType? then table[e.refId].entryType.Bid? else e.entryType.Bid?)
          && QuoteFor(scales, table, e, r.outcome.cp, r.lastKey, r.outcome.quote)
          && TableFor(table, e, r.outcome.cp, r.outcome.bid, r.lastKey, r.table))
  }

  lemma QuoteMade(scales: Scales, table: Table, lastKey: int, e: Entry, now: int)
    requires Register(scales, table, lastKey, e, now).outcome.Publish?
    ensures var r := Register(scales, table, lastKey, e, now);
            QuoteFor(scales, table, e, r.outcome.cp, r.lastKey, r.outcome.quote)
  {
    var r := Register(scales, table, lastKey, e, now);
    var q := r.outcome.quote;
    MadeNumbers(scales, r.outcome.cp, q.key, q.refKey, q.updateType, e);
  }

  lemma TableMade(scales: Scales, table: Table, lastKey: int, e: Entry, now: int)
    requires Register(scales, table, lastKey, e, now).outcome.Publish?
    ensures var r := Register(scales, table, lastKey, e, now);
            TableFor(table, e, r.outcome.cp, r.outcome.bid, r.lastKey, r.table)
  {
  }

  lemma RegisterHandles(scales: Scales, table: Table, lastKey: int, e: Entry, now: int)
    ensures Handles(scales, table, lastKey, e, now, Register(scales, table, lastKey, e, now))
  {
    var r := Register(scales, table, lastKey, e, now);
    if r.outcome.Publish? {
      QuoteMade(scales, table, lastKey, e, now);
      TableMade(scales, table, lastKey, e, now);
    }
  }

  // ---------------------------------------------------------------------------------------------------------
  // The specification: the last non-zero level of every active id
  // ---------------------------------------------------------------------------------------------------------

  datatype Live = Live(cp: Pair, bid: bool, price: int, volume: int)

  type Ladder = map<string, Live>

  predicate Complete(e: Entry) {
    !e.entryType.NoType? && e.cp.Valid()
  }

  /** Pair and side of an id that is active or being activated. */
  function Place(ladder: Ladder, e: Entry): (Pair, bool)
    requires Complete(e) || e.id in ladder
  {
    (if e.cp.Valid() then e.cp else ladder[e.id].cp,
     if e.entryType.NoType? then ladder[e.id].bid else e.entryType.Bid?)
  }

  /** One entry of a message: it either ends the message or changes the ladder, perhaps not at all. */
  datatype SpecStep = Halt | Continue(ladder: Ladder)

  function SpecEntry(scales: Scales, ladder: Ladder, e: Entry): SpecStep {
    if !Complete(e) && e.id !in ladder then Continue(ladder)
    else if e.updateType.QtDelete? then
      if e.id in ladder then Continue(ladder - {e.id}) else Halt
    else
      var (cp, bid) := Place(ladder, e);
      Continue(ladder[e.id := Live(cp, bid, scales(cp).ToCpip(e.price), scales(cp).ToQty(e.volume))])
  }

  /** The ladder after the message `entries`.  A zero level for an inactive id ends the message. */
  function SpecMessage(scales: Scales, ladder: Ladder, entries: seq<Entry>): Ladder
    decreases |entries|
  {
    if entries == [] then ladder
    else
      match SpecEntry(scales, ladder, entries[0])
      case Halt => ladder
      case Continue(next) => SpecMessage(scales, next, entries[1..])
  }

  function SpecAll(scales: Scales, messages: seq<seq<Entry>>): Ladder {
    if messages == [] then map[]
    else SpecMessage(scales, SpecAll(scales, messages[..|messages| - 1]), messages[|messages| - 1])
  }
}
