/** A history in which a pair's name is not parsed back: an id is used again after its registration failed. */
module RegistryExample {
  import opened Wrappers
  import opened Symbols
  import opened CurrencyRegistries

  const EMPTY: Index := [Entry("", NONE), Entry(INVALID_CURRENCY, INVALID)]
  const WITH_A: Index := [Entry("", NONE), Entry(INVALID_CURRENCY, INVALID), Entry("A", 1)]
  const WITH_B: Index := [Entry("", NONE), Entry(INVALID_CURRENCY, INVALID), Entry("A", 1), Entry("B", 2)]
  const WITH_C: Index :=
    [Entry("", NONE), Entry(INVALID_CURRENCY, INVALID), Entry("A", 1), Entry("B", 2), Entry("C", 3)]

  function WithAA(id: int): Index {
    [Entry("", NONE), Entry(INVALID_CURRENCY, INVALID), Entry("A", 1), Entry("AA", id)]
  }

  lemma {:induction false} NotFound(s: string, sub: string)
    requires sub != "" && sub[0] !in s
    ensures FindFirst(s, sub) == None
  {
    if s != [] {
      NotFound(s[1..], sub);
    }
  }

  lemma InsertA()
    ensures Insert(EMPTY, Entry("A", 1)) == WITH_A
  {
    assert EMPTY[1..] == [Entry(INVALID_CURRENCY, INVALID)];
    assert EMPTY[1..][1..] == [];
    assert Insert([], Entry("A", 1)) == [Entry("A", 1)];
  }

  lemma InsertSecond(e: Entry)
    requires e.symbol == "AA" || e.symbol == "B"
    ensures Insert(WITH_A, e) == WITH_A + [e]
  {
    assert WITH_A[1..] == [Entry(INVALID_CURRENCY, INVALID), Entry("A", 1)];
    assert WITH_A[1..][1..] == [Entry("A", 1)];
    assert WITH_A[1..][1..][1..] == [];
    assert Less("A", "AA") && "A"[1..] == [] && "AA"[1..] == "A";
    assert Insert([], e) == [e];
    assert !Less(e.symbol, "A");
    assert Insert([Entry("A", 1)], e) == [Entry("A", 1), e];
  }

  lemma {:induction false} InsertLast(index: Index, e: Entry)
    requires forall x :: x in index ==> !Less(e.symbol, x.symbol)
    ensures Insert(index, e) == index + [e]
  {
    if index != [] {
      assert index[0] in index;
      InsertLast(index[1..], e);
    }
  }

  lemma InsertC()
    ensures Insert(WITH_B, Entry("C", 3)) == WITH_C
  {
    assert !Less("C", "") && !Less("C", INVALID_CURRENCY) && !Less("C", "A") && !Less("C", "B");
    InsertLast(WITH_B, Entry("C", 3));
  }

  /** Neither "" nor "???" takes part in parsing a text of letters without delimiter. */
  lemma FirstLetterDecides(index: Index, s: string)
    requires |index| >= 3 && index[..3] == WITH_A && s != "" && |s| != 6
    requires '/' !in s && '-' !in s && '?' !in s
    ensures Parse(index, s) == TryFrom(index, 2, s)
  {
    NotFound(s, "/");
    NotFound(s, "-");
    NotFound(s, INVALID_CURRENCY);
    assert index[0] == index[..3][0] && index[1] == index[..3][1];
    assert TryFrom(index, 0, s) == TryFrom(index, 1, s);
    assert TryFrom(index, 1, s) == TryFrom(index, 2, s);
  }

  lemma Lookup(index: Index, e: Entry, k: nat)
    requires k < |index| && index[k] == e && forall i :: 0 <= i < k ==> index[i].symbol != e.symbol
    ensures StrToVal(index, e.symbol) == e.value
  {
  }

  lemma ParseAAA(id: int)
    requires ValidValue(id)
    ensures Parse(WithAA(id), "AAA") == CurrencyPair(1, id)
  {
    var index := WithAA(id);
    FirstLetterDecides(index, "AAA");
    Lookup(index, Entry("A", 1), 2);
    Lookup(index, Entry("AA", id), 3);
    assert StartsWith("AAA", "A") && "AAA"[1..] == "AA";
    assert TrySymbol(index, index[2], "AAA") == Some(CurrencyPair(1, id));
  }

  // ---------------------------------------------------------------------------------------------------------
  // Symbols of one letter
  // ---------------------------------------------------------------------------------------------------------

  /** After the empty and the invalid one, all symbols have one letter. */
  ghost predicate Letters(index: Index) {
    && |index| >= 3 && index[..3] == WITH_A
    && (forall i :: 2 <= i < |index| ==> IsLetter(index[i]))
    && (forall i, j :: 0 <= i < j < |index| ==> index[i].symbol != index[j].symbol)
  }

  predicate IsLetter(e: Entry) {
    ValidValue(e.value) && |e.symbol| == 1 && e.symbol[0] != '/' && e.symbol[0] != '-' && e.symbol[0] != '?'
  }

  /** A letter is found at the left end, at the right end, or not at all; what it gives is the pair of the two. */
  lemma TryLetter(index: Index, e: Entry, x: Entry, y: Entry)
    requires IsLetter(e) && IsLetter(x) && IsLetter(y) && x.symbol != y.symbol
    requires StrToVal(index, x.symbol) == x.value && StrToVal(index, y.symbol) == y.value
    ensures var cp := TrySymbol(index, e, x.symbol + y.symbol);
            && (cp.Some? ==> cp.value == CurrencyPair(x.value, y.value))
            && (e.symbol == x.symbol ==> cp.Some?)
  {
    var s := x.symbol + y.symbol;
    assert s[..1] == x.symbol && s[1..] == y.symbol;
    if e.symbol[0] == x.symbol[0] {
      assert e.symbol == x.symbol && StartsWith(s, e.symbol);
    } else if e.symbol[0] == y.symbol[0] {
      assert e.symbol == y.symbol && !StartsWith(s, e.symbol) && StartsWith(s[1..], e.symbol);
    } else {
      NotFound(s, e.symbol);
    }
  }

  lemma {:induction false} TryLetters(index: Index, k: nat, at: nat, y: Entry)
    requires Letters(index) && 2 <= k <= at < |index| && IsLetter(y) && y.symbol != index[at].symbol
    requires StrToVal(index, index[at].symbol) == index[at].value && StrToVal(index, y.symbol) == y.value
    ensures TryFrom(index, k, index[at].symbol + y.symbol) == CurrencyPair(index[at].value, y.value)
    decreases at - k
  {
    TryLetter(index, index[k], index[at], y);
    if k < at {
      TryLetters(index, k + 1, at, y);
    }
  }

  lemma LettersNeverConflict(index: Index)
    requires Letters(index)
    ensures NoConflict(index)
  {
    forall x, y | x in index && y in index ensures !Conflict(index, x, y) {
      if ValidValue(x.value) && ValidValue(y.value) && x.value != y.value {
        var i :| 0 <= i < |index| && index[i] == x;
        var j :| 0 <= j < |index| && index[j] == y;
        assert index[0] == index[..3][0] && index[1] == index[..3][1];
        Lookup(index, x, i);
        Lookup(index, y, j);
        FirstLetterDecides(index, x.symbol + y.symbol);
        TryLetters(index, 2, i, y);
      }
    }
  }

  lemma ParseStale()
    ensures Parse(WITH_B, "A/AA") != CurrencyPair(1, 2)
  {
    assert "A/AA" == "A" + "/" + "AA";
    FirstSlash("A", "AA");
    assert "A/AA"[2..] == "AA";
    assert forall i :: 0 <= i < |WITH_B| ==> WITH_B[i].symbol != "AA";
    assert StrToVal(WITH_B, "AA") == INVALID;
  }

  lemma OnlyConflictAA(id: int)
    requires ValidValue(id) && id != 1
    ensures !NoConflict(WithAA(id))
    ensures forall x, y :: x in WithAA(id) && y in WithAA(id) && Conflict(WithAA(id), x, y) ==>
              Parse(WithAA(id), x.symbol + y.symbol) == CurrencyPair(1, id)
  {
    var index := WithAA(id);
    ParseAAA(id);
    assert "AA" + "A" == "AAA" && "A" + "AA" == "AAA";
    assert index[2] in index && index[3] in index;
    assert Conflict(index, Entry("AA", id), Entry("A", 1));
  }

  ghost predicate New(registry: CurrencyRegistry, value: int, symbol: string)
    reads registry
  {
    value !in registry.valToStr && forall v :: v in registry.valToStr ==> registry.valToStr[v] != symbol
  }

  /** A registration without conflict. */
  method Accept(registry: CurrencyRegistry, value: int, symbol: string, grown: Index)
    requires registry.Valid() && New(registry, value, symbol)
    requires grown == Insert(registry.strToVal, Entry(symbol, value)) && NoConflict(grown)
    modifies registry
    ensures registry.Valid() && registry.strToVal == grown
    ensures registry.valToStr == old(registry.valToStr)[value := symbol]
    ensures registry.failedIds == old(registry.failedIds) && registry.NamesKept(old(registry.nameCache))
  {
    var outcome := registry.RegisterCurrency(value, symbol);
  }

  /** A registration taken back because two symbols are understood as a pair with the new currency. */
  method Refuse(registry: CurrencyRegistry, value: int, symbol: string, grown: Index, known: int)
    requires registry.Valid() && New(registry, value, symbol) && value !in registry.failedIds
    requires known in registry.valToStr
    requires ValidValue(value) && ValidValue(known)
    requires grown == Insert(registry.strToVal, Entry(symbol, value)) && !NoConflict(grown)
    requires forall x, y :: x in grown && y in grown && Conflict(grown, x, y) ==>
               Parse(grown, x.symbol + y.symbol) == CurrencyPair(known, value)
    modifies registry
    ensures registry.Valid() && registry.strToVal == old(registry.strToVal)
    ensures registry.valToStr == old(registry.valToStr)
    ensures registry.failedIds == old(registry.failedIds) + {value} && registry.NamesKept(old(registry.nameCache))
    ensures var cp := CurrencyPair(known, value);
            cp in registry.nameCache && registry.nameCache[cp] == old(registry.valToStr[known]) + "/" + symbol
  {
    assert !registry.Known(value);
    assert Fresh(registry.valToStr[value := symbol], registry.nameCache, CurrencyPair(known, value));
    ghost var valToStr := registry.valToStr[value := symbol];
    assert Name(valToStr, CurrencyPair(known, value)) == registry.valToStr[known] + "/" + symbol;
    var outcome := registry.RegisterCurrency(value, symbol);
    RefusedAs(grown, outcome, CurrencyPair(known, value));
  }

  lemma RefusedAs(grown: Index, outcome: Outcome, cp: CurrencyPair)
    requires (outcome.InvalidPair? || outcome.Conflicting?) && Understood(grown, outcome) && cp.Valid()
    requires forall x, y :: x in grown && y in grown && Conflict(grown, x, y) ==>
              Parse(grown, x.symbol + y.symbol) == cp
    ensures outcome.Conflicting? && outcome.with == cp
  {
  }

  const NO_SYMBOLS: map<int, string> := map[NONE := "", INVALID := INVALID_CURRENCY]

  method NewRegistry() returns (registry: CurrencyRegistry)
    ensures fresh(registry) && registry.Valid() && registry.failedIds == {} && registry.strToVal == EMPTY
    ensures registry.valToStr == NO_SYMBOLS
  {
    registry := new CurrencyRegistry([]);
    assert registry.Table([], 0);
    assert forall v :: v in registry.valToStr <==> v == NONE || v == INVALID;
  }

  /** "A" gets id 1. */
  method WithFirst() returns (registry: CurrencyRegistry)
    ensures fresh(registry) && registry.Valid() && registry.failedIds == {} && registry.strToVal == WITH_A
    ensures registry.valToStr == NO_SYMBOLS[1 := "A"]
  {
    InsertA();
    registry := NewRegistry();
    Accept(registry, 1, "A", WITH_A);
  }

  ghost predicate GoesBy(registry: CurrencyRegistry, cp: CurrencyPair, name: string)
    reads registry
  {
    cp in registry.nameCache && registry.nameCache[cp] == name
  }

  lemma AAInserted(id: int)
    ensures Insert(WITH_A, Entry("AA", id)) == WithAA(id)
  {
    InsertSecond(Entry("AA", id));
    assert WITH_A + [Entry("AA", id)] == WithAA(id);
  }

  /** "AA" is refused for an id: "AA" and "A" are understood as a pair with it, whose name the report caches. */
  method RefuseAA(registry: CurrencyRegistry, id: int)
    requires registry.Valid() && registry.strToVal == WITH_A && registry.valToStr == NO_SYMBOLS[1 := "A"]
    requires ValidValue(id) && id != 1 && id !in registry.failedIds
    modifies registry
    ensures registry.Valid() && registry.strToVal == WITH_A && registry.valToStr == NO_SYMBOLS[1 := "A"]
    ensures registry.failedIds == old(registry.failedIds) + {id} && registry.NamesKept(old(registry.nameCache))
    ensures GoesBy(registry, CurrencyPair(1, id), "A/AA")
  {
    AAInserted(id);
    OnlyConflictAA(id);
    Refuse(registry, id, "AA", WithAA(id), 1);
    assert "A" + "/" + "AA" == "A/AA";
  }

  /** "B" gets id 2. */
  method AcceptB(registry: CurrencyRegistry)
    requires registry.Valid() && registry.strToVal == WITH_A && registry.valToStr == NO_SYMBOLS[1 := "A"]
    modifies registry
    ensures registry.Valid() && registry.strToVal == WITH_B
    ensures registry.valToStr == NO_SYMBOLS[1 := "A"][2 := "B"] && registry.NamesKept(old(registry.nameCache))
  {
    InsertSecond(Entry("B", 2));
    assert WITH_A + [Entry("B", 2)] == WITH_B;
    LettersNeverConflict(WITH_B);
    Accept(registry, 2, "B", WITH_B);
  }

  lemma CNeverConflicts()
    ensures NoConflict(WITH_C)
  {
    LettersNeverConflict(WITH_C);
  }

  /** "C" gets id 3. */
  method AcceptC(registry: CurrencyRegistry)
    requires registry.Valid() && registry.strToVal == WITH_B && registry.valToStr == NO_SYMBOLS[1 := "A"][2 := "B"]
    modifies registry
    ensures registry.Valid() && registry.strToVal == WITH_C
    ensures registry.valToStr == NO_SYMBOLS[1 := "A"][2 := "B"][3 := "C"]
    ensures registry.NamesKept(old(registry.nameCache))
  {
    InsertC();
    CNeverConflicts();
    Accept(registry, 3, "C", WITH_C);
  }

  /**
    A history in which a name is not parsed back.  "A" has id 1.  "AA" is refused for id 2, because "AA" and "A" are
    understood as the pair of 1 and 2, and the report of that caches this pair's name.  "B" is accepted for id 2; the
    name of the pair still is the cached one.
   */
  method StaleName() returns (name: string, symbol: string, parsed: CurrencyPair)
    ensures name == "A/AA" && symbol == "B" && parsed != CurrencyPair(1, 2)
  {
    var registry := WithFirst();
    RefuseAA(registry, 2);
    AcceptB(registry);
    name := registry.ToString(CurrencyPair(1, 2));
    symbol := registry.ToStringView(2);
    ParseStale();
    parsed := Parse(registry.strToVal, name);
  }

  /** "AA" is refused for 2 and for 3. */
  method RefuseTwice() returns (registry: CurrencyRegistry)
    ensures fresh(registry) && registry.Valid() && registry.strToVal == WITH_A
    ensures registry.valToStr == NO_SYMBOLS[1 := "A"]
    ensures GoesBy(registry, CurrencyPair(1, 2), "A/AA") && GoesBy(registry, CurrencyPair(1, 3), "A/AA")
  {
    registry := WithFirst();
    RefuseAA(registry, 2);
    RefuseAA(registry, 3);
  }

  /** Asking for both names. */
  method AskBoth(registry: CurrencyRegistry, cp: CurrencyPair, other: CurrencyPair) returns (a: string, b: string)
    requires registry.Valid() && cp.Valid() && other.Valid() && cp in registry.nameCache && other in registry.nameCache
    requires registry.HasSymbols(cp) && registry.HasSymbols(other)
    modifies registry
    ensures registry.Valid() && registry.valToStr == old(registry.valToStr)
    ensures a == old(registry.nameCache[cp]) && b == old(registry.nameCache[other])
    ensures GoesBy(registry, cp, a) && GoesBy(registry, other, b)
  {
    a := registry.ToString(cp);
    b := registry.ToString(other);
  }

  /** A history in which two pairs of one registry, (A, B) and (A, C), go by one name. */
  method SharedName() returns (registry: CurrencyRegistry, second: string, third: string)
    ensures registry.Valid() && registry.valToStr == NO_SYMBOLS[1 := "A"][2 := "B"][3 := "C"]
    ensures second == third == "A/AA"
    ensures GoesBy(registry, CurrencyPair(1, 2), second) && GoesBy(registry, CurrencyPair(1, 3), third)
  {
    registry := RefuseTwice();
    AcceptB(registry);
    AcceptC(registry);
    second, third := AskBoth(registry, CurrencyPair(1, 2), CurrencyPair(1, 3));
  }
}
