/** The index of active quotes of one connection: quote id to key, pair and side (`ActiveQuoteTable`). */
module ActiveQuoteTables {
  import opened Wrappers
  import opened Quotes

  datatype EntryType = Bid | Offer | NoType

  datatype QuoteInfo =
    QuoteInfo(key: int, cp: Pair, entryType: EntryType, hashValue: int, oriKey: int, sequenceTag: int)

  type Table = map<string, QuoteInfo>

  /** The entry an id refers to; the empty id refers to nothing. */
  function Lookup(table: Table, refId: string): Option<QuoteInfo> {
    if refId != "" && refId in table then Some(table[refId]) else None
  }

  /**
    The table after storing `info` under `newId` in place of what `refId` refers to.  A map never overwrites on
    insertion: when `newId` is taken by another entry, the new info is dropped.
   */
  function Replaced(table: Table, refId: string, newId: string, info: QuoteInfo): Table {
    Put(table, if Lookup(table, refId).Some? then Some(refId) else None, newId, info)
  }

  /** The same at a found entry, or at none. */
  function Put(table: Table, at: Option<string>, newId: string, info: QuoteInfo): Table {
    var rest := if at.Some? then table - {at.value} else table;
    if newId in rest then rest else rest[newId := info]
  }

  function Removed(table: Table, refId: string): Table {
    if Lookup(table, refId).Some? then table - {refId} else table
  }

  /** When the new id is free (or is the replaced one) the new info is what a later lookup finds. */
  lemma ReplacedLookup(table: Table, refId: string, newId: string, info: QuoteInfo, id: string)
    requires newId != ""
    ensures Lookup(Replaced(table, refId, newId, info), id)
         == if id == newId && (newId !in table || newId == refId) then Some(info)
            else if id == refId && Lookup(table, refId).Some? && id != newId then None
            else Lookup(table, id)
  {
  }

  /** Taking back a fresh replacement leaves the table as if the replaced quote had been removed. */
  lemma RemoveUndoesReplace(table: Table, refId: string, newId: string, info: QuoteInfo)
    requires newId != "" && (newId !in table || newId == refId)
    ensures Removed(Replaced(table, refId, newId, info), newId) == Removed(table, refId)
  {
  }

  class ActiveQuoteTable {
    var activeQuoteMap: Table

    constructor ()
      ensures activeQuoteMap == map[]
    {
      activeQuoteMap := map[];
    }

    method FindQuoteInfo(refId: string) returns (info: Option<QuoteInfo>)
      ensures info == Lookup(activeQuoteMap, refId)
      ensures info == if refId != "" && refId in activeQuoteMap then Some(activeQuoteMap[refId]) else None
    {
      info := None;
      if refId != "" {
        if refId in activeQuoteMap {
          info := Some(activeQuoteMap[refId]);
        }
      }
    }

    /** Replaces at a found entry, or creates one.  The node keeps its place unless its id changes. */
    method ReplaceQuoteInfoAt(it: Option<string>, newId: string, newQuote: QuoteInfo)
      returns (lastQuote: Option<QuoteInfo>)
      requires it.Some? ==> it.value in activeQuoteMap
      modifies this
      ensures lastQuote == if it.Some? then Some(old(activeQuoteMap)[it.value]) else None
      ensures activeQuoteMap == Put(old(activeQuoteMap), it, newId, newQuote)
      ensures newId !in old(activeQuoteMap) || it == Some(newId) ==>
                newId in activeQuoteMap && activeQuoteMap[newId] == newQuote
      ensures forall id :: id != newId ==> (id in activeQuoteMap <==> id in old(activeQuoteMap) && it != Some(id))
      ensures newId in activeQuoteMap
      ensures forall id :: id in activeQuoteMap && id in old(activeQuoteMap) && it != Some(id) ==>
                activeQuoteMap[id] == old(activeQuoteMap)[id]
    {
      lastQuote := None;
      if it.Some? {
        lastQuote := Some(activeQuoteMap[it.value]);
        activeQuoteMap := activeQuoteMap[it.value := newQuote];
        if newId != it.value {
          var node := activeQuoteMap[it.value];
          activeQuoteMap := activeQuoteMap - {it.value};
          if newId !in activeQuoteMap {
            activeQuoteMap := activeQuoteMap[newId := node];
          }
        }
      } else if newId !in activeQuoteMap {
        activeQuoteMap := activeQuoteMap[newId := newQuote];
      }
    }

    /** Stores a new quote unconditionally; its original key is its own key. */
    method ReplaceQuoteInfo(refId: string, newId: string, key: int, cp: Pair, entryType: EntryType)
      returns (lastQuote: Option<QuoteInfo>)
      modifies this
      ensures lastQuote == Lookup(old(activeQuoteMap), refId)
      ensures activeQuoteMap == Replaced(old(activeQuoteMap), refId, newId, QuoteInfo(key, cp, entryType, 0, key, 0))
    {
      var newQuote := QuoteInfo(key, cp, entryType, 0, key, 0);
      var it := if refId != "" && refId in activeQuoteMap then Some(refId) else None;
      lastQuote := ReplaceQuoteInfoAt(it, newId, newQuote);
      assert it.None? ==> Lookup(old(activeQuoteMap), refId).None?;
    }

    /**
      Stores a new quote that keeps the original key as long as id and hash value stay the same, unless a key is
      forced.
     */
    method ReplaceQuoteInfoHashed(forceKey: bool, refId: string, newId: string, hashValue: int, sequenceTag: int,
                                  key: int, cp: Pair, entryType: EntryType)
      returns (lastQuote: Option<QuoteInfo>, skipKey: bool)
      modifies this
      ensures lastQuote == Lookup(old(activeQuoteMap), refId)
      ensures skipKey <==> !forceKey && lastQuote.Some? && lastQuote.value.hashValue == hashValue && refId == newId
      ensures var oriKey := if skipKey then lastQuote.value.oriKey else key;
              activeQuoteMap == Replaced(old(activeQuoteMap), refId, newId,
                                         QuoteInfo(key, cp, entryType, hashValue, oriKey, sequenceTag))
    {
      var it := if refId != "" && refId in activeQuoteMap then Some(refId) else None;
      skipKey := !forceKey && it.Some? && activeQuoteMap[it.value].hashValue == hashValue && refId == newId;
      var oriKey := if skipKey then activeQuoteMap[it.value].oriKey else key;
      lastQuote := ReplaceQuoteInfoAt(it, newId, QuoteInfo(key, cp, entryType, hashValue, oriKey, sequenceTag));
      assert it.None? ==> Lookup(old(activeQuoteMap), refId).None?;
    }

    method RemoveQuoteInfo(refId: string) returns (lastQuote: Option<QuoteInfo>)
      modifies this
      ensures lastQuote == Lookup(old(activeQuoteMap), refId)
      ensures activeQuoteMap == Removed(old(activeQuoteMap), refId)
      ensures lastQuote
           == if refId != "" && refId in old(activeQuoteMap) then Some(old(activeQuoteMap)[refId]) else None
      ensures activeQuoteMap == if refId != "" then old(activeQuoteMap) - {refId} else old(activeQuoteMap)
    {
      lastQuote := None;
      if refId != "" {
        if refId in activeQuoteMap {
          lastQuote := Some(activeQuoteMap[refId]);
          activeQuoteMap := activeQuoteMap - {refId};
        }
      }
    }

    /** Removes every entry whose key lies below the limit; `removed` collects what the action is called with. */
    method RemoveOldQuoteInfos(limitKey: int) returns (removed: Table)
      modifies this
      ensures removed
           == map id | id in old(activeQuoteMap) && old(activeQuoteMap)[id].key < limitKey :: old(activeQuoteMap)[id]
      ensures activeQuoteMap == old(activeQuoteMap) - removed.Keys
    {
      removed := map[];
      var ids := activeQuoteMap.Keys;
      while ids != {}
        invariant ids <= old(activeQuoteMap).Keys
        invariant forall id :: id in removed <==>
                  id in old(activeQuoteMap) && id !in ids && old(activeQuoteMap)[id].key < limitKey
        invariant forall id :: id in removed ==> removed[id] == old(activeQuoteMap)[id]
        invariant activeQuoteMap == old(activeQuoteMap) - removed.Keys
        decreases |ids|
      {
        var id :| id in ids;
        ids := ids - {id};
        if activeQuoteMap[id].key < limitKey {
          removed := removed[id := activeQuoteMap[id]];
          activeQuoteMap := activeQuoteMap - {id};
        }
      }
    }
  }
}
