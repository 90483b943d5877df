/** The registry of currencies: two maps and a cache of pair names, all of them shared by the whole program. */
module CurrencyRegistries {
  import opened Wrappers
  import opened Symbols

  datatype Outcome =
    | Registered
    | IdExists
    | SymbolExists
    | InvalidPair(x: Entry, y: Entry)
    | Conflicting(x: Entry, y: Entry, with: CurrencyPair, name: string)

  /** The reported conflict is one among these entries. */
  ghost predicate Understood(index: Index, outcome: Outcome)
    requires outcome.InvalidPair? || outcome.Conflicting?
  {
    && outcome.x in index && outcome.y in index && Conflict(index, outcome.x, outcome.y)
    && var cp := Parse(index, outcome.x.symbol + outcome.y.symbol);
       if outcome.Conflicting? then outcome.with == cp && (cp.Empty() || cp.Valid()) else !cp.Empty() && !cp.Valid()
  }

  /** A pair of registered ids without a cached name. */
  predicate Fresh(valToStr: map<int, string>, names: map<CurrencyPair, string>, cp: CurrencyPair) {
    cp.Valid() && cp.baseCcy in valToStr && cp.quoteCcy in valToStr && cp !in names
  }

  function SymbolOf(valToStr: map<int, string>, value: int): string {
    if value in valToStr then valToStr[value] else ""
  }

  /** What looking a value up leaves behind. */
  function Touched(valToStr: map<int, string>, value: int): map<int, string> {
    if value in valToStr then valToStr else valToStr[value := ""]
  }

  /** The name a pair goes by: the remembered one, or else the fresh one. */
  function NameIn(valToStr: map<int, string>, names: map<CurrencyPair, string>, cp: CurrencyPair): string
    requires cp.baseCcy in valToStr && cp.quoteCcy in valToStr
  {
    if cp in names then names[cp] else Name(valToStr, cp)
  }

  class CurrencyRegistry {
    var valToStr: map<int, string>
    var strToVal: Index
    var nameCache: map<CurrencyPair, string>
    ghost var failedIds: set<int>  // ids whose registration was taken back because of a conflict

    ghost predicate Known(id: int)
      reads this
    {
      id in valToStr || id in failedIds
    }

    /** Every cached name has a slash, and is the pair's name but for pairs of ids that failed before. */
    ghost predicate NamesValid()
      reads this
    {
      forall cp :: cp in nameCache ==>
        && cp.Valid() && Known(cp.baseCcy) && Known(cp.quoteCcy) && '/' in nameCache[cp]
        && (cp.baseCcy !in failedIds && cp.quoteCcy !in failedIds ==> nameCache[cp] == Name(valToStr, cp))
    }

    ghost predicate MapsValid()
      reads this
    {
      && Ordered(strToVal) && Inverse(valToStr, strToVal)
      && NONE in valToStr && valToStr[NONE] == "" && INVALID in valToStr && valToStr[INVALID] == INVALID_CURRENCY
    }

    ghost predicate Valid()
      reads this
    {
      MapsValid() && NoConflict(strToVal) && NamesValid()
    }

    /** The first `n` symbols have the values from 1 to n. */
    ghost predicate Table(symbols: seq<string>, n: nat)
      requires n <= |symbols|
      reads this
    {
      && (forall v :: v in valToStr <==> v == NONE || v == INVALID || 1 <= v <= n)
      && (forall v :: v in valToStr ==>
            valToStr[v] == if v == NONE then "" else if v == INVALID then INVALID_CURRENCY
                           else if 1 <= v <= n then symbols[v - 1] else "")
    }

    /** No cached name is ever dropped or changed. */
    ghost predicate NamesKept(names: map<CurrencyPair, string>)
      reads this
    {
      forall cp :: cp in names ==> cp in nameCache && nameCache[cp] == names[cp]
    }

    ghost predicate HasSymbols(cp: CurrencyPair)
      reads this
    {
      cp.baseCcy in valToStr && cp.quoteCcy in valToStr
    }

    /** Every pair of registered currencies goes by the same name as before. */
    twostate predicate NamesSteady()
      reads this
    {
      forall cp: CurrencyPair :: cp.Valid() && old(HasSymbols(cp)) ==>
        HasSymbols(cp) && NameIn(valToStr, nameCache, cp) == old(NameIn(valToStr, nameCache, cp))
    }

    /** The built-in table: given symbols of three characters, numbered from 1. */
    constructor (symbols: seq<string>)
      requires |symbols| < INVALID
      requires forall i :: 0 <= i < |symbols| ==> |symbols[i]| == 3 && symbols[i] != INVALID_CURRENCY
      requires forall i, j :: 0 <= i < j < |symbols| ==> symbols[i] != symbols[j]
      ensures Valid() && nameCache == map[] && failedIds == {} && Table(symbols, |symbols|)
      ensures symbols == [] ==> strToVal == [Entry("", NONE), Entry(INVALID_CURRENCY, INVALID)]
    {
      valToStr := map[NONE := "", INVALID := INVALID_CURRENCY];
      strToVal := [Entry("", NONE), Entry(INVALID_CURRENCY, INVALID)];
      nameCache, failedIds := map[], {};
      new;
      FillTable(symbols);
      assert forall x :: x in strToVal && ValidValue(x.value) ==> x.symbol == symbols[x.value - 1];
      ThreeCharactersNeverConflict(strToVal);
    }

    method FillTable(symbols: seq<string>)
      requires |symbols| < INVALID && MapsValid() && Table(symbols, 0)
      requires forall i :: 0 <= i < |symbols| ==> |symbols[i]| == 3 && symbols[i] != INVALID_CURRENCY
      requires forall i, j :: 0 <= i < j < |symbols| ==> symbols[i] != symbols[j]
      modifies this`valToStr, this`strToVal
      ensures MapsValid() && Table(symbols, |symbols|)
      ensures symbols == [] ==> strToVal == old(strToVal)
    {
      var i := 0;
      while i < |symbols|
        invariant i <= |symbols| && MapsValid() && Table(symbols, i)
        invariant i == 0 ==> strToVal == old(strToVal)
      {
        AddSymbol(symbols, i);
        i := i + 1;
      }
    }

    method AddSymbol(symbols: seq<string>, i: nat)
      requires i < |symbols| < INVALID && MapsValid() && Table(symbols, i)
      requires symbols[i] != "" && symbols[i] != INVALID_CURRENCY && symbols[i] !in symbols[..i]
      modifies this`valToStr, this`strToVal
      ensures MapsValid() && Table(symbols, i + 1)
    {
      assert forall k :: 0 <= k < i ==> symbols[k] in symbols[..i];
      AddEntry(i + 1, symbols[i]);
    }

    /** Insertion into both maps. */
    method AddEntry(value: int, symbol: string)
      requires MapsValid() && value !in valToStr && forall v :: v in valToStr ==> valToStr[v] != symbol
      modifies this`valToStr, this`strToVal
      ensures MapsValid()
      ensures valToStr == old(valToStr)[value := symbol] && strToVal == Insert(old(strToVal), Entry(symbol, value))
      ensures old(NamesValid()) ==> NamesValid()
    {
      InsertInverse(valToStr, strToVal, value, symbol);
      valToStr := valToStr[value := symbol];
      strToVal := Insert(strToVal, Entry(symbol, value));
    }

    /** The last entry is removed again. */
    method RemoveEntry(value: int, symbol: string, ghost valToStrBefore: map<int, string>, ghost indexBefore: Index)
      requires NamesValid() && value !in valToStrBefore && forall x :: x in indexBefore ==> x.symbol != symbol
      requires valToStr == valToStrBefore[value := symbol] && strToVal == Insert(indexBefore, Entry(symbol, value))
      modifies this`valToStr, this`strToVal, this`failedIds
      ensures valToStr == valToStrBefore && strToVal == indexBefore && failedIds == old(failedIds) + {value}
      ensures NamesValid()
    {
      EraseInserted(indexBefore, Entry(symbol, value));
      failedIds := failedIds + {value};
      valToStr := valToStr - {value};
      strToVal := Erase(strToVal, symbol);
    }

    /**
      Registers a currency, unless its id or symbol exists or it makes some pair of symbols ambiguous; the latter is
      found out afterwards, and the entries are removed again.
     */
    method RegisterCurrency(value: int, symbol: string) returns (outcome: Outcome)
      requires Valid()
      modifies this
      ensures Valid()
      ensures outcome.IdExists? <==> value in old(valToStr)
      ensures outcome.SymbolExists? <==>
                value !in old(valToStr) && exists v :: v in old(valToStr) && old(valToStr)[v] == symbol
      ensures outcome.Registered? <==>
                && value !in old(valToStr) && (forall v :: v in old(valToStr) ==> old(valToStr)[v] != symbol)
                && NoConflict(Insert(old(strToVal), Entry(symbol, value)))
      ensures outcome.Registered? ==>
                valToStr == old(valToStr)[value := symbol] && strToVal == Insert(old(strToVal), Entry(symbol, value))
      ensures !outcome.Registered? ==> valToStr == old(valToStr) && strToVal == old(strToVal)
      ensures failedIds
           == if outcome.InvalidPair? || outcome.Conflicting? then old(failedIds) + {value} else old(failedIds)
      ensures NamesKept(old(nameCache)) && NamesSteady()
      ensures outcome.Conflicting? ==>
                && Understood(Insert(old(strToVal), Entry(symbol, value)), outcome)
                && (outcome.with.Valid() ==> outcome.with in nameCache && nameCache[outcome.with] == outcome.name)
                && (Fresh(old(valToStr)[value := symbol], old(nameCache), outcome.with)
                    ==> outcome.name == Name(old(valToStr)[value := symbol], outcome.with))
      ensures outcome.InvalidPair? ==> Understood(Insert(old(strToVal), Entry(symbol, value)), outcome)
    {
      if value in valToStr {
        return IdExists;
      }
      var k := Find(strToVal, symbol);
      if k < |strToVal| {
        assert strToVal[k] in strToVal;
        return SymbolExists;
      }
      NotThere(symbol);
      AddEntry(value, symbol);
      outcome := CheckRegisteredCurrencies();
      if !outcome.Registered? {
        RemoveEntry(value, symbol, old(valToStr), old(strToVal));
      }
    }

    lemma NotThere(symbol: string)
      requires MapsValid() && Find(strToVal, symbol) == |strToVal|
      ensures forall v :: v in valToStr ==> valToStr[v] != symbol
      ensures forall x :: x in strToVal ==> x.symbol != symbol
    {
      forall v | v in valToStr ensures valToStr[v] != symbol {
        var i :| 0 <= i < |strToVal| && strToVal[i] == Entry(valToStr[v], v);
      }
    }

    /** The outcome names two currencies in conflict, and the pair they are understood as if that is valid. */
    ghost predicate Reported(outcome: Outcome)
      reads this
    {
      (outcome.InvalidPair? || outcome.Conflicting?) && Understood(strToVal, outcome)
      && (outcome.Conflicting? ==>
            outcome.with.Empty() ||
            (outcome.with.Valid() && outcome.with in nameCache && nameCache[outcome.with] == outcome.name))
    }

    /** Tries all pairs of symbols.  A conflict is reported with the name of the pair that was understood instead. */
    method CheckRegisteredCurrencies() returns (outcome: Outcome)
      requires MapsValid() && NamesValid()
      modifies this`nameCache, this`valToStr
      ensures NamesValid() && valToStr == old(valToStr)
      ensures outcome.Registered? <==> NoConflict(strToVal)
      ensures !outcome.Registered? ==> Reported(outcome)
      ensures NamesKept(old(nameCache)) && NamesSteady()
      ensures outcome.Conflicting? && Fresh(valToStr, old(nameCache), outcome.with) ==>
                outcome.name == Name(valToStr, outcome.with)
    {
      var at := FindConflict();
      if at.None? {
        return Registered;
      }
      outcome := ReportConflict(at.value.0, at.value.1);
    }

    method FindConflict() returns (at: Option<(Entry, Entry)>)
      requires MapsValid()
      ensures at.None? <==> NoConflict(strToVal)
      ensures at.Some? ==>
                at.value.0 in strToVal && at.value.1 in strToVal && Conflict(strToVal, at.value.0, at.value.1)
    {
      var index := strToVal;
      TestIsConflict();
      at := FindPair((x, y) => Misunderstood(index, x, y));
    }

    /** The loops over all pairs of entries. */
    method FindPair(test: (Entry, Entry) -> bool) returns (at: Option<(Entry, Entry)>)
      ensures at.None? <==> forall x, y :: x in strToVal && y in strToVal ==> !test(x, y)
      ensures at.Some? ==> at.value.0 in strToVal && at.value.1 in strToVal && test(at.value.0, at.value.1)
    {
      var i := 0;
      while i < |strToVal|
        invariant i <= |strToVal|
        invariant forall k, y :: 0 <= k < i && y in strToVal ==> !test(strToVal[k], y)
      {
        var j := 0;
        while j < |strToVal|
          invariant j <= |strToVal|
          invariant forall k :: 0 <= k < j ==> !test(strToVal[i], strToVal[k])
        {
          if test(strToVal[i], strToVal[j]) {
            return Some((strToVal[i], strToVal[j]));
          }
          j := j + 1;
        }
        i := i + 1;
      }
      at := None;
    }

    lemma TestIsConflict()
      requires MapsValid()
      ensures forall x, y :: x in strToVal && y in strToVal ==>
                Misunderstood(strToVal, x, y) == Conflict(strToVal, x, y)
    {
      forall x, y | x in strToVal && y in strToVal ensures Misunderstood(strToVal, x, y) == Conflict(strToVal, x, y) {
        OrderedFinds(strToVal, x);
        OrderedFinds(strToVal, y);
      }
    }

    method ReportConflict(x: Entry, y: Entry) returns (outcome: Outcome)
      requires MapsValid() && NamesValid() && x in strToVal && y in strToVal && Conflict(strToVal, x, y)
      modifies this`nameCache, this`valToStr
      ensures NamesValid() && Reported(outcome) && valToStr == old(valToStr)
      ensures NamesKept(old(nameCache)) && NamesSteady()
      ensures outcome.Conflicting? && Fresh(valToStr, old(nameCache), outcome.with) ==>
                outcome.name == Name(valToStr, outcome.with)
    {
      var cp := Parse(strToVal, x.symbol + y.symbol);
      if !cp.Empty() && !cp.Valid() {
        return InvalidPair(x, y);
      }
      ParsedIsRegistered(valToStr, strToVal, x.symbol + y.symbol);
      var name := ToString(cp);
      return Conflicting(x, y, cp, name);
    }

    /**
      The pair's name, as cached or else put together and cached.  Symbols are looked up on the way, which adds values
      that are not registered to the map of symbols.
     */
    method ToString(cp: CurrencyPair) returns (name: string)
      requires MapsValid() && NamesValid() && (cp.Empty() || cp.Valid())
      modifies this`nameCache, this`valToStr
      ensures cp.Empty() ==> name == "" && nameCache == old(nameCache) && valToStr == old(valToStr)
      ensures cp.Valid() ==> nameCache == old(nameCache)[cp := name]
      ensures cp.Valid() && cp in old(nameCache) ==> name == old(nameCache)[cp] && valToStr == old(valToStr)
      ensures cp.Valid() && cp !in old(nameCache) ==>
                && name == SymbolOf(old(valToStr), cp.baseCcy) + "/" + SymbolOf(old(valToStr), cp.quoteCcy)
                && valToStr == Touched(Touched(old(valToStr), cp.baseCcy), cp.quoteCcy)
      ensures cp.Empty() || old(HasSymbols(cp)) ==> NamesValid() && valToStr == old(valToStr)
      ensures old(HasSymbols(cp)) ==> name == old(NameIn(valToStr, nameCache, cp))
      ensures cp.Empty() || old(HasSymbols(cp)) ==> NamesSteady()
      ensures old(HasSymbols(cp)) && (cp !in old(nameCache) || (cp.baseCcy !in failedIds && cp.quoteCcy !in failedIds))
              ==> name == Name(valToStr, cp)
    {
      if cp.Empty() {
        name := "";
      } else if cp in nameCache {
        name := nameCache[cp];
      } else {
        var baseSymbol := ToStringView(cp.baseCcy);
        var quoteSymbol := ToStringView(cp.quoteCcy);
        name := baseSymbol + "/" + quoteSymbol;
        assert name[|baseSymbol|] == '/';
        nameCache := nameCache[cp := name];
      }
    }

    /**
      The round trip.  If no symbol has a slash, a pair's name is parsed back exactly if no other name has been cached
      for the pair; in particular if no registration of its ids had failed.
     */
    method NameRoundTrip(cp: CurrencyPair) returns (parsed: CurrencyPair)
      requires Valid() && cp.Valid() && HasSymbols(cp)
      modifies this`nameCache, this`valToStr
      ensures Valid() && valToStr == old(valToStr)
      ensures (forall v :: v in valToStr ==> '/' !in valToStr[v]) ==>
                (parsed == cp <==> cp !in old(nameCache) || old(nameCache)[cp] == Name(valToStr, cp))
      ensures (forall v :: v in valToStr ==> '/' !in valToStr[v])
              && cp.baseCcy !in failedIds && cp.quoteCcy !in failedIds ==>
                parsed == cp
    {
      var name := ToString(cp);
      parsed := Parse(strToVal, name);
      if forall v :: v in valToStr ==> '/' !in valToStr[v] {
        OnlyNameParsesBack(valToStr, strToVal, cp, name);
      }
    }

    /** Looking up the symbol of an unregistered value adds it, with an empty symbol: the maps are inverse no more. */
    method ToStringView(value: int) returns (symbol: string)
      modifies this`valToStr
      ensures symbol == SymbolOf(old(valToStr), value) && valToStr == Touched(old(valToStr), value)
      ensures old(MapsValid()) ==> (Inverse(valToStr, strToVal) <==> value in old(valToStr))
    {
      if value !in valToStr {
        if MapsValid() {
          FoundOnce(value);
        }
        valToStr := valToStr[value := ""];
      }
      symbol := valToStr[value];
    }

    lemma FoundOnce(value: int)
      requires MapsValid() && value !in valToStr
      ensures Entry("", value) !in strToVal
    {
    }
  }
}
