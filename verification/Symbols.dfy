/** Currency symbols and how text is taken apart into two of them (`Currency`, `CurrencyPair`). */
module Symbols {
  import opened Wrappers

  const NONE := 0
  const INVALID := 999999
  const INVALID_CURRENCY := "???"

  /** A currency is valid if it is neither empty nor invalid. */
  predicate ValidValue(value: int) {
    value != NONE && value != INVALID
  }

  datatype CurrencyPair = CurrencyPair(baseCcy: int, quoteCcy: int) {
    predicate Empty() {
      baseCcy == NONE && quoteCcy == NONE
    }

    predicate Valid() {
      ValidValue(baseCcy) && ValidValue(quoteCcy)
    }
  }

  // ---------------------------------------------------------------------------------------------------------
  // The map from symbols to values, in the alphabetical order in which it is iterated
  // ---------------------------------------------------------------------------------------------------------

  datatype Entry = Entry(symbol: string, value: int)

  type Index = seq<Entry>

  predicate Less(a: string, b: string) {
    if a == [] then b != []
    else b != [] && (a[0] < b[0] || (a[0] == b[0] && Less(a[1..], b[1..])))
  }

  lemma {:induction false} LessTransitive(a: string, b: string, c: string)
    requires Less(a, b) && Less(b, c)
    ensures Less(a, c)
  {
    if a != [] && a[0] == b[0] && b[0] == c[0] {
      LessTransitive(a[1..], b[1..], c[1..]);
    }
  }

  lemma {:induction false} LessTotal(a: string, b: string)
    ensures Less(a, b) || a == b || Less(b, a)
    ensures !(Less(a, b) && Less(b, a)) && !Less(a, a)
  {
    if a != [] && b != [] {
      if a[0] == b[0] {
        LessTotal(a[1..], b[1..]);
        assert a == [a[0]] + a[1..] && b == [b[0]] + b[1..];
      }
      LessTotal(a[1..], a[1..]);
    } else if a != [] {
      LessTotal(a[1..], a[1..]);
    }
  }

  /** Up to some place both texts are the same; there the first ends, or has the smaller character. */
  predicate DifferAt(a: string, b: string, k: nat) {
    k <= |a| && k < |b| && a[..k] == b[..k] && (k < |a| ==> a[k] < b[k])
  }

  /** The order is the alphabetical one. */
  lemma {:induction false} LessMeans(a: string, b: string)
    ensures Less(a, b) <==> exists k: nat :: DifferAt(a, b, k)
  {
    if a == [] || b == [] || a[0] < b[0] {
      assert Less(a, b) ==> DifferAt(a, b, 0);
    } else if a[0] == b[0] {
      LessMeans(a[1..], b[1..]);
      DifferLater(a, b);
    } else {
      assert forall k: nat :: DifferAt(a, b, k) && k > 0 ==> a[..k][0] == b[..k][0];
    }
  }

  lemma DifferNext(a: string, b: string, k: nat)
    requires a != [] && b != [] && a[0] == b[0]
    ensures DifferAt(a, b, k + 1) <==> DifferAt(a[1..], b[1..], k)
  {
    if k < |a| && k + 1 < |b| {
      assert a[..k + 1] == [a[0]] + a[1..][..k];
      assert b[..k + 1] == [b[0]] + b[1..][..k];
      assert a[..k + 1] == b[..k + 1] <==> a[1..][..k] == b[1..][..k] by {
        assert a[1..][..k] == a[..k + 1][1..] && b[1..][..k] == b[..k + 1][1..];
      }
    }
  }

  lemma DifferLater(a: string, b: string)
    requires a != [] && b != [] && a[0] == b[0]
    ensures (exists k: nat :: DifferAt(a, b, k)) <==> exists k: nat :: DifferAt(a[1..], b[1..], k)
  {
    if k: nat :| DifferAt(a[1..], b[1..], k) {
      DifferNext(a, b, k);
    }
    if k: nat :| DifferAt(a, b, k) {
      DifferNext(a, b, k - 1);
    }
  }

  ghost predicate Ordered(index: Index) {
    forall i, j :: 0 <= i < j < |index| ==> Less(index[i].symbol, index[j].symbol)
  }

  /** Position of the symbol; the length if it is missing. */
  function Find(index: Index, symbol: string): (k: nat)
    ensures k <= |index|
    ensures k < |index| ==> index[k].symbol == symbol
    ensures forall j :: 0 <= j < k ==> index[j].symbol != symbol
  {
    if index == [] || index[0].symbol == symbol then 0 else 1 + Find(index[1..], symbol)
  }

  /** Insertion of a symbol that is not there. */
  function Insert(index: Index, e: Entry): Index {
    if index == [] || Less(e.symbol, index[0].symbol) then [e] + index else [index[0]] + Insert(index[1..], e)
  }

  function Erase(index: Index, symbol: string): Index {
    if index == [] then []
    else if index[0].symbol == symbol then index[1..]
    else [index[0]] + Erase(index[1..], symbol)
  }

  lemma {:induction false} InsertMembers(index: Index, e: Entry, x: Entry)
    ensures x in Insert(index, e) <==> x == e || x in index
  {
    if index == [] || Less(e.symbol, index[0].symbol) {
    } else {
      InsertMembers(index[1..], e, x);
      assert x in index <==> x == index[0] || x in index[1..];
    }
  }

  lemma {:induction false} InsertOrdered(index: Index, e: Entry)
    requires Ordered(index) && forall x :: x in index ==> x.symbol != e.symbol
    ensures Ordered(Insert(index, e))
  {
    if index != [] {
      LessTotal(e.symbol, index[0].symbol);
      if Less(e.symbol, index[0].symbol) {
        forall j | 0 <= j < |index| ensures Less(e.symbol, index[j].symbol) {
          if j > 0 {
            LessTransitive(e.symbol, index[0].symbol, index[j].symbol);
          }
        }
      } else {
        var rest := Insert(index[1..], e);
        InsertOrdered(index[1..], e);
        forall j | 0 <= j < |rest| ensures Less(index[0].symbol, rest[j].symbol) {
          InsertMembers(index[1..], e, rest[j]);
          if rest[j] != e {
            var k :| 0 <= k < |index[1..]| && index[1..][k] == rest[j];
            assert index[k + 1] == rest[j];
          }
        }
      }
    }
  }

  /** Erasing what was inserted gives the map back. */
  lemma {:induction false} EraseInserted(index: Index, e: Entry)
    requires forall x :: x in index ==> x.symbol != e.symbol
    ensures Erase(Insert(index, e), e.symbol) == index
  {
    if index == [] || Less(e.symbol, index[0].symbol) {
      assert ([e] + index)[1..] == index;
    } else {
      EraseInserted(index[1..], e);
      assert ([index[0]] + Insert(index[1..], e))[1..] == Insert(index[1..], e);
    }
  }

  // ---------------------------------------------------------------------------------------------------------
  // Parsing
  // ---------------------------------------------------------------------------------------------------------

  function StrToVal(index: Index, s: string): int {
    var k := Find(index, s);
    if k < |index| then index[k].value else if s == "" then NONE else INVALID
  }

  predicate StartsWith(s: string, sub: string) {
    |sub| <= |s| && s[..|sub|] == sub
  }

  /** First occurrence of a string in another; None if there is none. */
  function FindFirst(s: string, sub: string): (p: Option<nat>)
    ensures p.Some? ==> p.value <= |s| && StartsWith(s[p.value..], sub)
  {
    if StartsWith(s, sub) then Some(0)
    else if s == [] then None
    else
      var p := FindFirst(s[1..], sub);
      if p.Some? then
        assert s[1..][p.value..] == s[p.value + 1..];
        Some(p.value + 1)
      else None
  }

  lemma {:induction false} FindFirstIsFirst(s: string, sub: string, k: nat)
    requires k <= |s| && StartsWith(s[k..], sub)
    ensures FindFirst(s, sub).Some? && FindFirst(s, sub).value <= k
  {
    if !StartsWith(s, sub) {
      assert s[k..] == s[1..][k - 1..];
      FindFirstIsFirst(s[1..], sub, k - 1);
    }
  }

  /** A symbol's value is that of the first entry with the symbol; without one, the empty text stands for none. */
  lemma StrToValMeans(index: Index, s: string)
    ensures (exists i :: 0 <= i < |index| && index[i].symbol == s) ==>
              exists i :: 0 <= i < |index| && index[i] == Entry(s, StrToVal(index, s))
                          && forall j :: 0 <= j < i ==> index[j].symbol != s
    ensures (forall i :: 0 <= i < |index| ==> index[i].symbol != s) ==>
              StrToVal(index, s) == if s == "" then NONE else INVALID
  {
    var k := Find(index, s);
    assert k < |index| ==> index[k] == Entry(s, StrToVal(index, s));
  }

  /** Both halves at a position, without the delimiter. */
  function Split(index: Index, s: string, p: nat, skip: nat): CurrencyPair
    requires p + skip <= |s|
  {
    CurrencyPair(StrToVal(index, s[..p]), StrToVal(index, s[p + skip..]))
  }

  function Delimiter(s: string): (p: Option<nat>)
    ensures p.Some? ==> p.value < |s|
  {
    var slash := FindFirst(s, "/");
    if slash.Some? then slash else FindFirst(s, "-")
  }

  /** One symbol tried at the left or the right end. */
  function TrySymbol(index: Index, e: Entry, s: string): Option<CurrencyPair> {
    if e.value == NONE then None
    else
      var p := FindFirst(s, e.symbol);
      if p.None? then None
      else
        var cp :=
          if p.value == 0 then CurrencyPair(StrToVal(index, e.symbol), StrToVal(index, s[|e.symbol|..]))
          else if p.value == |s| - |e.symbol| then
            CurrencyPair(StrToVal(index, s[..p.value]), StrToVal(index, e.symbol))
          else CurrencyPair(INVALID, INVALID);
        if cp.Valid() then Some(cp) else None
  }

  /** The symbols from position k on, tried in their order. */
  function TryFrom(index: Index, k: nat, s: string): CurrencyPair
    requires k <= |index|
    decreases |index| - k
  {
    if k == |index| then CurrencyPair(INVALID, INVALID)
    else
      var cp := TrySymbol(index, index[k], s);
      if cp.Some? then cp.value else TryFrom(index, k + 1, s)
  }

  function Parse(index: Index, s: string): CurrencyPair {
    if s == "" then CurrencyPair(NONE, NONE)
    else if |s| == 6 && Split(index, s, 3, 0).Valid() then Split(index, s, 3, 0)
    else
      var p := Delimiter(s);
      if p.Some? then Split(index, s, p.value, 1) else TryFrom(index, 0, s)
  }

  /** The text `a` + delimiter + `b`, where neither delimiter occurs before. */
  lemma DelimiterFound(a: string, c: char, b: string)
    requires c == '/' || (c == '-' && '/' !in b)
    requires '/' !in a && (c == '-' ==> '-' !in a)
    ensures Delimiter(a + [c] + b) == Some(|a|)
  {
    var s := a + [c] + b;
    FirstChar(a, c, b);
    if c == '-' {
      NoSuchChar(s, '/');
    }
  }

  lemma FirstChar(a: string, c: char, b: string)
    requires c !in a
    ensures FindFirst(a + [c] + b, [c]) == Some(|a|)
  {
    var s := a + [c] + b;
    var p := FindFirst(s, [c]);
    assert s[|a|..][..1] == [c];
    FindFirstIsFirst(s, [c], |a|);
    assert s[p.value] == s[p.value..][..1][0] == c;
    assert forall k :: 0 <= k < |a| ==> s[k] == a[k] != c;
  }

  lemma {:induction false} NoSuchChar(s: string, c: char)
    requires c !in s
    ensures FindFirst(s, [c]) == None
  {
    if s != [] {
      assert s[..1][0] == s[0] != c;
      NoSuchChar(s[1..], c);
    }
  }

  /** Six characters that are two known symbols of three are these two, whatever else they contain. */
  lemma SixCharactersSplit(index: Index, a: string, b: string)
    requires |a| == |b| == 3 && ValidValue(StrToVal(index, a)) && ValidValue(StrToVal(index, b))
    ensures Parse(index, a + b) == CurrencyPair(StrToVal(index, a), StrToVal(index, b))
  {
    assert (a + b)[..3] == a && (a + b)[3..] == b;
  }

  /** Other texts are taken apart at the first slash, or else at the first dash. */
  lemma DelimiterSplits(index: Index, a: string, c: char, b: string)
    requires c == '/' || (c == '-' && '/' !in b)
    requires '/' !in a && (c == '-' ==> '-' !in a)
    requires |a| + |b| != 5 || !Split(index, a + [c] + b, 3, 0).Valid()
    ensures Parse(index, a + [c] + b) == CurrencyPair(StrToVal(index, a), StrToVal(index, b))
  {
    var s := a + [c] + b;
    DelimiterFound(a, c, b);
    assert s[..|a|] == a && s[|a| + 1..] == b;
  }

  /** What a symbol makes of a text that begins or ends with it, and contains it nowhere before. */
  ghost predicate Makes(index: Index, e: Entry, s: string, cp: CurrencyPair) {
    && e.value != NONE && cp.Valid() && FindFirst(s, e.symbol).Some?
    && var p := FindFirst(s, e.symbol).value;
       || (p == 0 && |e.symbol| <= |s|
           && cp == CurrencyPair(StrToVal(index, e.symbol), StrToVal(index, s[|e.symbol|..])))
       || (0 < p == |s| - |e.symbol| && cp == CurrencyPair(StrToVal(index, s[..p]), StrToVal(index, e.symbol)))
  }

  ghost predicate MakesNothing(index: Index, e: Entry, s: string) {
    forall cp :: !Makes(index, e, s, cp)
  }

  /** From position `k` on, the symbol at `i` is the first that makes anything of the text, namely `cp`. */
  ghost predicate MadeAt(index: Index, k: nat, i: nat, s: string, cp: CurrencyPair) {
    && k <= i < |index| && Makes(index, index[i], s, cp)
    && forall j :: k <= j < i ==> MakesNothing(index, index[j], s)
  }

  /** What the symbols from `k` on make of a text, in their order: what the first makes that makes anything. */
  ghost predicate MadeFrom(index: Index, k: nat, s: string, cp: CurrencyPair) {
    if cp.Valid() then exists i: nat :: MadeAt(index, k, i, s, cp)
    else cp == CurrencyPair(INVALID, INVALID) && forall j :: k <= j < |index| ==> MakesNothing(index, index[j], s)
  }

  lemma TrySymbolMeans(index: Index, e: Entry, s: string)
    ensures TrySymbol(index, e, s).Some? ==> Makes(index, e, s, TrySymbol(index, e, s).value)
    ensures TrySymbol(index, e, s).None? ==> MakesNothing(index, e, s)
  {
  }

  lemma MadeLater(index: Index, k: nat, s: string, cp: CurrencyPair)
    requires k < |index| && MakesNothing(index, index[k], s) && MadeFrom(index, k + 1, s, cp)
    ensures MadeFrom(index, k, s, cp)
  {
    if cp.Valid() {
      var i: nat :| MadeAt(index, k + 1, i, s, cp);
      assert MadeAt(index, k, i, s, cp);
    }
  }

  lemma {:induction false} TryFromMeans(index: Index, k: nat, s: string)
    requires k <= |index|
    ensures MadeFrom(index, k, s, TryFrom(index, k, s))
    decreases |index| - k
  {
    if k < |index| {
      TrySymbolMeans(index, index[k], s);
      if TrySymbol(index, index[k], s).Some? {
        assert MadeAt(index, k, k, s, TryFrom(index, k, s));
      } else {
        TryFromMeans(index, k + 1, s);
        MadeLater(index, k, s, TryFrom(index, k + 1, s));
      }
    }
  }

  /** A text without delimiter is what the first symbol makes of it that makes anything, in their order. */
  lemma SymbolsTriedInOrder(index: Index, s: string)
    requires s != "" && '/' !in s && '-' !in s && (|s| != 6 || !Split(index, s, 3, 0).Valid())
    ensures MadeFrom(index, 0, s, Parse(index, s))
  {
    NoSuchChar(s, '/');
    NoSuchChar(s, '-');
    TryFromMeans(index, 0, s);
  }

  // ---------------------------------------------------------------------------------------------------------
  // Names
  // ---------------------------------------------------------------------------------------------------------

  /** The two maps of the registry are inverse to each other. */
  ghost predicate Inverse(valToStr: map<int, string>, index: Index) {
    && (forall v :: v in valToStr ==> Entry(valToStr[v], v) in index)
    && (forall x :: x in index ==> x.value in valToStr && valToStr[x.value] == x.symbol)
  }

  /** Inserting a new pair into both maps keeps them inverse and in order. */
  lemma InsertInverse(valToStr: map<int, string>, index: Index, value: int, symbol: string)
    requires Ordered(index) && Inverse(valToStr, index)
    requires value !in valToStr && forall v :: v in valToStr ==> valToStr[v] != symbol
    ensures Ordered(Insert(index, Entry(symbol, value)))
    ensures Inverse(valToStr[value := symbol], Insert(index, Entry(symbol, value)))
  {
    var e := Entry(symbol, value);
    forall x ensures x in Insert(index, e) <==> x == e || x in index {
      InsertMembers(index, e, x);
    }
    InsertOrdered(index, e);
  }

  lemma OrderedFinds(index: Index, x: Entry)
    requires Ordered(index) && x in index
    ensures StrToVal(index, x.symbol) == x.value
  {
    var k := Find(index, x.symbol);
    var i :| 0 <= i < |index| && index[i] == x;
    if k < i {
      LessTotal(index[k].symbol, index[i].symbol);
    }
  }

  lemma ValueFinds(valToStr: map<int, string>, index: Index, v: int)
    requires Ordered(index) && Inverse(valToStr, index) && v in valToStr
    ensures StrToVal(index, valToStr[v]) == v
  {
    OrderedFinds(index, Entry(valToStr[v], v));
  }

  function Name(valToStr: map<int, string>, cp: CurrencyPair): string
    requires cp.baseCcy in valToStr && cp.quoteCcy in valToStr
  {
    if cp.Empty() then "" else valToStr[cp.baseCcy] + "/" + valToStr[cp.quoteCcy]
  }

  /** Value of a string that is not the symbol of v. */
  lemma NotTheSymbol(valToStr: map<int, string>, index: Index, v: int, s: string)
    requires Inverse(valToStr, index) && v in valToStr && ValidValue(v) && s != valToStr[v]
    ensures StrToVal(index, s) != v
  {
    assert Find(index, s) < |index| ==> index[Find(index, s)] in index;
  }

  lemma SlashIsNoSymbol(valToStr: map<int, string>, index: Index, s: string)
    requires Inverse(valToStr, index) && '/' in s && forall v :: v in valToStr ==> '/' !in valToStr[v]
    ensures !ValidValue(StrToVal(index, s))
  {
    assert forall k :: 0 <= k < |index| ==> index[k] in index && index[k].symbol != s;
  }

  lemma FirstSlash(a: string, b: string)
    requires '/' !in a
    ensures FindFirst(a + "/" + b, "/") == Some(|a|)
  {
    var s := a + "/" + b;
    var p := FindFirst(s, "/");
    assert s[|a|..][..1] == "/";
    FindFirstIsFirst(s, "/", |a|);
    assert s[p.value] == s[p.value..][..1][0] == '/';
    assert forall k :: 0 <= k < |a| ==> s[k] == a[k] != '/';
  }

  lemma SlashInside(a: string, b: string)
    requires '/' in a
    ensures var p := FindFirst(a + "/" + b, "/"); p.Some? && p.value < |a|
  {
    var s := a + "/" + b;
    var k :| 0 <= k < |a| && a[k] == '/';
    assert s[k..][..1] == "/";
    FindFirstIsFirst(s, "/", k);
  }

  /**
    A pair's name is parsed back to the pair exactly if the base symbol has no slash and the name is not six
    characters long with two other symbols as its halves.
   */
  lemma NameParsesBackExactlyWhen(valToStr: map<int, string>, index: Index, cp: CurrencyPair)
    requires Ordered(index) && Inverse(valToStr, index) && cp.baseCcy in valToStr && cp.quoteCcy in valToStr
    requires cp.Valid()
    ensures var name := Name(valToStr, cp);
            Parse(index, name) == cp <==>
              '/' !in valToStr[cp.baseCcy] && !(|name| == 6 && Split(index, name, 3, 0).Valid())
  {
    var a, b := valToStr[cp.baseCcy], valToStr[cp.quoteCcy];
    var name := a + "/" + b;
    ValueFinds(valToStr, index, cp.baseCcy);
    ValueFinds(valToStr, index, cp.quoteCcy);
    if |name| == 6 && Split(index, name, 3, 0).Valid() {
      HalvesAreOthers(valToStr, index, cp, name);
    } else if '/' !in a {
      FirstSlash(a, b);
      assert name[..|a|] == a && name[|a| + 1..] == b;
    } else {
      SlashInside(a, b);
      var p := FindFirst(name, "/").value;
      assert |name[..p]| < |a|;
      NotTheSymbol(valToStr, index, cp.baseCcy, name[..p]);
    }
  }

  lemma HalvesAreOthers(valToStr: map<int, string>, index: Index, cp: CurrencyPair, name: string)
    requires Inverse(valToStr, index) && cp.Valid() && cp.baseCcy in valToStr && cp.quoteCcy in valToStr
    requires name == valToStr[cp.baseCcy] + "/" + valToStr[cp.quoteCcy] && |name| == 6
    requires Split(index, name, 3, 0).Valid()
    ensures Split(index, name, 3, 0) != cp
  {
    if |valToStr[cp.baseCcy]| == 3 {
      NotTheSymbol(valToStr, index, cp.quoteCcy, name[3..]);
    } else {
      NotTheSymbol(valToStr, index, cp.baseCcy, name[..3]);
    }
  }

  /** So if no symbol has a slash, every name is parsed back to its pair. */
  lemma NameParsesBack(valToStr: map<int, string>, index: Index, cp: CurrencyPair)
    requires Ordered(index) && Inverse(valToStr, index) && cp.baseCcy in valToStr && cp.quoteCcy in valToStr
    requires forall v :: v in valToStr ==> '/' !in valToStr[v]
    requires cp.Valid()
    ensures Parse(index, Name(valToStr, cp)) == cp
  {
    NameParsesBackExactlyWhen(valToStr, index, cp);
    var a, b := valToStr[cp.baseCcy], valToStr[cp.quoteCcy];
    var name := a + "/" + b;
    if |name| == 6 {
      if |a| < 3 {
        assert name[..3][|a|] == '/';
        SlashIsNoSymbol(valToStr, index, name[..3]);
      } else {
        assert name[3..][|a| - 3] == '/';
        SlashIsNoSymbol(valToStr, index, name[3..]);
      }
    }
  }

  /** And no other text with a slash is. */
  lemma OnlyNameParsesBack(valToStr: map<int, string>, index: Index, cp: CurrencyPair, text: string)
    requires Ordered(index) && Inverse(valToStr, index) && cp.baseCcy in valToStr && cp.quoteCcy in valToStr
    requires forall v :: v in valToStr ==> '/' !in valToStr[v]
    requires cp.Valid() && '/' in text
    ensures Parse(index, text) == cp <==> text == Name(valToStr, cp)
  {
    if text == Name(valToStr, cp) {
      NameParsesBack(valToStr, index, cp);
    } else {
      SlashParsesAtSlash(valToStr, index, text);
      OtherHalf(valToStr, index, cp, text, FindFirst(text, "/").value);
    }
  }

  /** If a text is not the name, one of its two parts is not the symbol. */
  lemma OtherHalf(valToStr: map<int, string>, index: Index, cp: CurrencyPair, text: string, p: nat)
    requires Inverse(valToStr, index) && cp.baseCcy in valToStr && cp.quoteCcy in valToStr && cp.Valid()
    requires p < |text| && StartsWith(text[p..], "/") && text != Name(valToStr, cp)
    ensures Split(index, text, p, 1) != cp
  {
    assert text[p] == text[p..][..1][0] == '/';
    assert text == text[..p] + "/" + text[p + 1..];
    if text[..p] != valToStr[cp.baseCcy] {
      NotTheSymbol(valToStr, index, cp.baseCcy, text[..p]);
    } else {
      NotTheSymbol(valToStr, index, cp.quoteCcy, text[p + 1..]);
    }
  }

  /** Without slashes in symbols, a text with a slash is taken apart there. */
  lemma SlashParsesAtSlash(valToStr: map<int, string>, index: Index, text: string)
    requires Inverse(valToStr, index) && (forall v :: v in valToStr ==> '/' !in valToStr[v]) && '/' in text
    ensures var p := FindFirst(text, "/");
            p.Some? && p.value < |text| && Parse(index, text) == Split(index, text, p.value, 1)
  {
    var k :| 0 <= k < |text| && text[k] == '/';
    assert text[k..][..1] == "/";
    FindFirstIsFirst(text, "/", k);
    if |text| == 6 {
      if k < 3 {
        assert text[..3][k] == '/';
        SlashIsNoSymbol(valToStr, index, text[..3]);
      } else {
        assert text[3..][k - 3] == '/';
        SlashIsNoSymbol(valToStr, index, text[3..]);
      }
    }
  }

  lemma FoundIsRegistered(valToStr: map<int, string>, index: Index, s: string)
    requires Inverse(valToStr, index)
    ensures ValidValue(StrToVal(index, s)) ==> StrToVal(index, s) in valToStr
  {
    assert Find(index, s) < |index| ==> index[Find(index, s)] in index;
  }

  lemma {:induction false} TriedIsRegistered(valToStr: map<int, string>, index: Index, k: nat, s: string)
    requires Inverse(valToStr, index) && k <= |index|
    ensures var cp := TryFrom(index, k, s); cp.Valid() ==> cp.baseCcy in valToStr && cp.quoteCcy in valToStr
    decreases |index| - k
  {
    if k < |index| {
      TriedIsRegistered(valToStr, index, k + 1, s);
      var e := index[k];
      var p := FindFirst(s, e.symbol);
      FoundIsRegistered(valToStr, index, e.symbol);
      if p.Some? {
        FoundIsRegistered(valToStr, index, s[|e.symbol|..]);
        FoundIsRegistered(valToStr, index, s[..p.value]);
      }
    }
  }

  /** What parsing understands is registered. */
  lemma ParsedIsRegistered(valToStr: map<int, string>, index: Index, s: string)
    requires Inverse(valToStr, index)
    ensures var cp := Parse(index, s); cp.Valid() ==> cp.baseCcy in valToStr && cp.quoteCcy in valToStr
  {
    TriedIsRegistered(valToStr, index, 0, s);
    var p := Delimiter(s);
    if |s| == 6 {
      FoundIsRegistered(valToStr, index, s[..3]);
      FoundIsRegistered(valToStr, index, s[3..]);
    }
    if p.Some? {
      FoundIsRegistered(valToStr, index, s[..p.value]);
      FoundIsRegistered(valToStr, index, s[p.value + 1..]);
    }
  }

  // ---------------------------------------------------------------------------------------------------------
  // The check of a registry
  // ---------------------------------------------------------------------------------------------------------

  /** The symbols of two currencies, put together, are not parsed as these two. */
  predicate Conflict(index: Index, x: Entry, y: Entry) {
    ValidValue(x.value) && ValidValue(y.value) && x.value != y.value
    && Parse(index, x.symbol + y.symbol) != CurrencyPair(x.value, y.value)
  }

  /** The test as it is made: by validity, and by looking the two symbols up. */
  predicate Misunderstood(index: Index, x: Entry, y: Entry) {
    ValidValue(x.value) && ValidValue(y.value) && x.value != y.value
    && var cp := Parse(index, x.symbol + y.symbol);
       (!cp.Empty() && !cp.Valid()) || cp.baseCcy != StrToVal(index, x.symbol)
       || cp.quoteCcy != StrToVal(index, y.symbol)
  }

  ghost predicate NoConflict(index: Index) {
    forall x, y :: x in index && y in index ==> !Conflict(index, x, y)
  }

  /** Symbols of three characters never conflict. */
  lemma ThreeCharactersNeverConflict(index: Index)
    requires Ordered(index) && forall x :: x in index && ValidValue(x.value) ==> |x.symbol| == 3
    ensures NoConflict(index)
  {
    forall x, y | x in index && y in index ensures !Conflict(index, x, y) {
      if ValidValue(x.value) && ValidValue(y.value) {
        OrderedFinds(index, x);
        OrderedFinds(index, y);
        var s := x.symbol + y.symbol;
        assert s[..3] == x.symbol && s[3..] == y.symbol;
      }
    }
  }

  /** A symbol with a slash conflicts with another currency, exactly unless both have three characters. */
  lemma SlashConflicts(valToStr: map<int, string>, index: Index, x: Entry, y: Entry)
    requires Ordered(index) && Inverse(valToStr, index)
    requires x in index && y in index && ValidValue(x.value) && ValidValue(y.value) && x.value != y.value
    requires '/' in x.symbol
    ensures Conflict(index, x, y) <==> !(|x.symbol| == 3 && |y.symbol| == 3)
  {
    var s := x.symbol + y.symbol;
    if |x.symbol| == 3 && |y.symbol| == 3 {
      OrderedFinds(index, x);
      OrderedFinds(index, y);
      assert s[..3] == x.symbol && s[3..] == y.symbol;
    } else {
      SlashSplits(x.symbol, y.symbol);
      NotTheSymbol(valToStr, index, x.value, s[..FindFirst(s, "/").value]);
      if |s| == 6 {
        NotTheSymbol(valToStr, index, x.value, s[..3]);
      }
    }
  }

  /** A text that begins with a symbol with a slash is taken apart within that symbol. */
  lemma SlashSplits(x: string, y: string)
    requires '/' in x
    ensures var p := FindFirst(x + y, "/"); p.Some? && p.value < |x|
  {
    var k :| 0 <= k < |x| && x[k] == '/';
    assert (x + y)[k..][..1] == "/";
    FindFirstIsFirst(x + y, "/", k);
  }

  /** In a registry without conflicts, different pairs have different names, slashes or not. */
  lemma NamesDiffer(valToStr: map<int, string>, index: Index, cp: CurrencyPair, other: CurrencyPair)
    requires Ordered(index) && Inverse(valToStr, index) && NoConflict(index)
    requires cp.Valid() && cp.baseCcy in valToStr && cp.quoteCcy in valToStr
    requires other.Valid() && other.baseCcy in valToStr && other.quoteCcy in valToStr
    requires Name(valToStr, cp) == Name(valToStr, other)
    ensures cp == other
  {
    if |valToStr[cp.baseCcy]| < |valToStr[other.baseCcy]| {
      NoLongerBase(valToStr, index, cp, other);
    } else if |valToStr[cp.baseCcy]| > |valToStr[other.baseCcy]| {
      NoLongerBase(valToStr, index, other, cp);
    } else {
      SameParts(valToStr[cp.baseCcy], valToStr[cp.quoteCcy], valToStr[other.baseCcy], valToStr[other.quoteCcy]);
      ValueFinds(valToStr, index, cp.baseCcy);
      ValueFinds(valToStr, index, cp.quoteCcy);
      ValueFinds(valToStr, index, other.baseCcy);
      ValueFinds(valToStr, index, other.quoteCcy);
    }
  }

  lemma SameParts(a: string, b: string, c: string, d: string)
    requires a + "/" + b == c + "/" + d && |a| == |c|
    ensures a == c && b == d
  {
    assert a == (a + "/" + b)[..|a|] && c == (c + "/" + d)[..|c|];
    assert b == (a + "/" + b)[|a| + 1..] && d == (c + "/" + d)[|c| + 1..];
  }

  /** The longer base symbol would have a slash, and not the length of the other. */
  lemma NoLongerBase(valToStr: map<int, string>, index: Index, cp: CurrencyPair, other: CurrencyPair)
    requires Ordered(index) && Inverse(valToStr, index) && NoConflict(index)
    requires cp.Valid() && cp.baseCcy in valToStr && cp.quoteCcy in valToStr
    requires other.Valid() && other.baseCcy in valToStr && other.quoteCcy in valToStr
    requires |valToStr[cp.baseCcy]| < |valToStr[other.baseCcy]|
    ensures Name(valToStr, cp) != Name(valToStr, other)
  {
    var a, c := valToStr[cp.baseCcy], valToStr[other.baseCcy];
    if Name(valToStr, cp) == Name(valToStr, other) {
      assert Name(valToStr, cp)[|a|] == '/' && Name(valToStr, other)[|a|] == c[|a|];
      assert '/' in c;
      assert Entry(a, cp.baseCcy) in index && Entry(c, other.baseCcy) in index;
      SlashConflicts(valToStr, index, Entry(c, other.baseCcy), Entry(a, cp.baseCcy));
    }
  }
}
