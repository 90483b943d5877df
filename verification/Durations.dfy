/** Durations in nanoseconds as text with a unit, and back (`NanosecondsToString`, `StringToNanoseconds`). */
module Durations {
  import opened Doubles

  // ---------------------------------------------------------------------------------------------------------
  // Whole numbers as text
  // ---------------------------------------------------------------------------------------------------------

  const DIGITS: string := "0123456789"

  predicate IsDigit(c: char) {
    '0' <= c <= '9'
  }

  function DigitChar(d: nat): (c: char)
    requires d < 10
    ensures IsDigit(c) && DigitValue(c) == d
  {
    DIGITS[d]
  }

  function DigitValue(c: char): nat
    requires IsDigit(c)
  {
    c as int - '0' as int
  }

  /** No more digits than needed. */
  function PrintNat(n: nat): (s: string)
    ensures s != "" && forall i :: 0 <= i < |s| ==> IsDigit(s[i])
    ensures |s| > 1 ==> s[0] != '0'
  {
    if n < 10 then [DigitChar(n)] else PrintNat(n / 10) + [DigitChar(n % 10)]
  }

  function Print(n: int): string {
    if n < 0 then "-" + PrintNat(-n) else PrintNat(n)
  }

  predicate AllDigits(s: string) {
    s != "" && forall i :: 0 <= i < |s| ==> IsDigit(s[i])
  }

  function ReadNat(s: string): nat
    requires AllDigits(s)
  {
    if |s| == 1 then DigitValue(s[0]) else 10 * ReadNat(s[..|s| - 1]) + DigitValue(s[|s| - 1])
  }

  /** Number in a text: whole numbers are read as such, any other text as the library reads it. */
  function ReadNumber(s: string, other: string -> real): real {
    if AllDigits(s) then ReadNat(s) as real
    else if s != "" && s[0] == '-' && AllDigits(s[1..]) then -(ReadNat(s[1..]) as real)
    else other(s)
  }

  lemma {:induction false} ReadPrintedNat(n: nat)
    ensures AllDigits(PrintNat(n)) && ReadNat(PrintNat(n)) == n
  {
    var s := PrintNat(n);
    if n >= 10 {
      ReadPrintedNat(n / 10);
      assert s[..|s| - 1] == PrintNat(n / 10);
    }
  }

  function TenTo(n: nat): nat {
    if n == 0 then 1 else 10 * TenTo(n - 1)
  }

  /** The digits count by their places: units at the end, before them tens, and so on. */
  lemma {:induction false} PlacesCount(s: string, t: string)
    requires AllDigits(s) && AllDigits(t)
    ensures ReadNat(s + t) == ReadNat(s) * TenTo(|t|) + ReadNat(t)
    ensures |s| == 1 ==> ReadNat(s) == s[0] as int - '0' as int
  {
    ReadNext(s + t);
    ReadNext(t);
    if |t| == 1 {
      assert (s + t)[..|s + t| - 1] == s;
    } else {
      var tens := t[..|t| - 1];
      assert (s + t)[..|s + t| - 1] == s + tens;
      PlacesCount(s, tens);
      TenTimes(ReadNat(s), TenTo(|tens|), ReadNat(tens));
    }
  }

  lemma ReadNext(s: string)
    requires AllDigits(s)
    ensures ReadNat(s) == (if |s| == 1 then 0 else 10 * ReadNat(s[..|s| - 1])) + DigitValue(s[|s| - 1])
  {
  }

  lemma TenTimes(a: int, b: int, c: int)
    ensures 10 * (a * b + c) == a * (10 * b) + 10 * c
  {
  }

  lemma Opposite(n: int)
    ensures -(n as real) == (-n) as real
  {
  }

  lemma ReadDigits(n: nat, other: string -> real)
    ensures ReadNumber(PrintNat(n), other) == n as real
  {
    ReadPrintedNat(n);
  }

  lemma ReadPrinted(n: int, other: string -> real)
    ensures ReadNumber(Print(n), other) == n as real
  {
    if n < 0 {
      ReadPrintedNat(-n);
      ReadNegative(PrintNat(-n), other);
      Opposite(-n);
    } else {
      ReadDigits(n, other);
    }
  }

  lemma ReadNegative(digits: string, other: string -> real)
    requires AllDigits(digits)
    ensures ReadNumber("-" + digits, other) == -(ReadNat(digits) as real)
  {
    var s := "-" + digits;
    assert s[0] == '-' && !IsDigit(s[0]);
    assert s[1..] == digits;
  }

  // ---------------------------------------------------------------------------------------------------------
  // Units
  // ---------------------------------------------------------------------------------------------------------

  /** Nanoseconds in a unit: ns, us, ms, s, m, h, d. */
  function Factor(unit: nat): (f: nat)
    requires unit <= 6
    ensures f > 0
  {
    match unit
    case 0 => 1
    case 1 => 1_000
    case 2 => 1_000_000
    case 3 => 1_000_000_000
    case 4 => 60_000_000_000
    case 5 => 3_600_000_000_000
    case _ => 86_400_000_000_000
  }

  function Suffix(unit: nat): (s: string)
    requires unit <= 6
    ensures 1 <= |s| <= 2
  {
    match unit
    case 0 => "ns"
    case 1 => "us"
    case 2 => "ms"
    case 3 => "s"
    case 4 => "m"
    case 5 => "h"
    case _ => "d"
  }

  /** From one unit to the next. */
  function Ratio(unit: nat): (r: nat)
    requires unit < 6
    ensures Factor(unit + 1) == r * Factor(unit) && r > 0
  {
    if unit < 3 then 1_000 else if unit < 5 then 60 else 24
  }

  /** The greatest unit, up to `top`, of which the duration is a whole number. */
  function GreatestUnit(ns: int, top: nat): (unit: nat)
    requires top <= 6
    ensures unit <= top && ns % Factor(unit) == 0
    ensures forall u :: unit < u <= top ==> ns % Factor(u) != 0
  {
    if top == 0 || ns % Factor(top) == 0 then top else GreatestUnit(ns, top - 1)
  }

  function Text(ns: int): string {
    if ns == 0 then "0"
    else
      var unit := GreatestUnit(ns, 6);
      Print(ns / Factor(unit)) + Suffix(unit)
  }

  lemma Divides(a: int, b: nat, q: int)
    requires b > 0 && a == q * b
    ensures a % b == 0 && a / b == q
  {
    assert (a / b - q) * b == -(a % b);
    var k := a / b - q;
    assert k >= 1 ==> k * b >= b;
    assert k <= -1 ==> k * b + b <= 0;
  }

  /** A multiple of a greater unit is a multiple of each smaller one. */
  lemma {:induction false} UnitsNest(ns: int, u: nat, v: nat)
    requires u <= v <= 6 && ns % Factor(v) == 0
    ensures ns % Factor(u) == 0
    decreases v - u
  {
    if u < v {
      var q := ns / Factor(v);
      assert ns == q * Factor(v);
      assert q * (Ratio(v - 1) * Factor(v - 1)) == (q * Ratio(v - 1)) * Factor(v - 1);
      Divides(ns, Factor(v - 1), q * Ratio(v - 1));
      UnitsNest(ns, u, v - 1);
    }
  }

  /** If a count of one unit is no whole number of the next, that unit is the greatest. */
  lemma StopIsGreatest(ns: int, count: int, unit: nat)
    requires unit <= 6 && ns == count * Factor(unit)
    requires unit < 6 ==> count % Ratio(unit) != 0
    ensures GreatestUnit(ns, 6) == unit && ns / Factor(unit) == count
  {
    Divides(ns, Factor(unit), count);
    var g := GreatestUnit(ns, 6);
    if unit < g {
      UnitsNest(ns, unit + 1, g);
      NextUnit(ns, count, unit);
    }
  }

  lemma NextUnit(ns: int, count: int, unit: nat)
    requires unit < 6 && ns == count * Factor(unit)
    ensures ns % Factor(unit + 1) == 0 <==> count % Ratio(unit) == 0
  {
    var f, r := Factor(unit), Ratio(unit);
    if count % r == 0 {
      var q := count / r;
      assert count == q * r;
      assert (q * r) * f == q * (r * f);
      Divides(ns, r * f, q);
    }
    if ns % (r * f) == 0 {
      var q := ns / (r * f);
      assert ns == q * (r * f) == (q * r) * f;
      Same(count, q * r, f);
      Divides(count, r, q);
    }
  }

  lemma Same(a: int, b: int, f: nat)
    requires f > 0 && a * f == b * f
    ensures a == b
  {
    assert (a - b) * f == 0;
    assert a - b >= 1 ==> (a - b) * f >= f;
    assert a - b <= -1 ==> (a - b) * f + f <= 0;
  }

  lemma Step(ns: int, count: int, unit: nat)
    requires unit < 6 && ns == count * Factor(unit) && count % Ratio(unit) == 0
    ensures ns == (count / Ratio(unit)) * Factor(unit + 1)
  {
    var q := count / Ratio(unit);
    assert count == q * Ratio(unit);
    assert (q * Ratio(unit)) * Factor(unit) == q * (Ratio(unit) * Factor(unit));
  }

  /** A count of a unit, where the count is no whole number of any greater unit. */
  ghost predicate Says(s: string, ns: int, count: int, unit: nat) {
    && unit <= 6 && s == Print(count) + Suffix(unit) && ns == count * Factor(unit)
    && forall u :: unit < u <= 6 ==> ns % Factor(u) != 0
  }

  method NanosecondsToString(nanoseconds: int) returns (s: string)
    ensures s == Text(nanoseconds)
    ensures nanoseconds == 0 ==> s == "0"
    ensures nanoseconds != 0 ==> exists count, unit: nat :: Says(s, nanoseconds, count, unit)
    ensures nanoseconds < 0 <==> s[0] == '-'
  {
    if nanoseconds == 0 {
      return "0";
    }
    var ns, unit := nanoseconds, 0;
    while unit < 3 && ns % 1_000 == 0
      invariant unit <= 3 && nanoseconds == ns * Factor(unit)
      invariant unit < 3 && ns % 1_000 != 0 ==> ns % Ratio(unit) != 0
      decreases 3 - unit
    {
      Step(nanoseconds, ns, unit);
      ns, unit := ns / 1_000, unit + 1;
    }
    while 3 <= unit < 5 && ns % 60 == 0
      invariant unit <= 5 && nanoseconds == ns * Factor(unit)
      invariant unit < 3 ==> ns % 1_000 != 0
      decreases 5 - unit
    {
      Step(nanoseconds, ns, unit);
      ns, unit := ns / 60, unit + 1;
    }
    if unit == 5 && ns % 24 == 0 {
      Step(nanoseconds, ns, unit);
      ns, unit := ns / 24, unit + 1;
    }
    StopIsGreatest(nanoseconds, ns, unit);
    s := Print(ns) + Suffix(unit);
    Said(s, nanoseconds, ns, unit);
  }

  lemma Said(s: string, ns: int, count: int, unit: nat)
    requires unit <= 6 && GreatestUnit(ns, 6) == unit && ns == count * Factor(unit) && s == Print(count) + Suffix(unit)
    ensures Says(s, ns, count, unit) && (ns < 0 <==> s[0] == '-')
  {
    PrintedSign(count);
    SameSign(count, Factor(unit));
  }

  lemma PrintedSign(n: int)
    ensures Print(n) != "" && (n < 0 <==> Print(n)[0] == '-')
  {
  }

  lemma SameSign(a: int, f: nat)
    requires f > 0
    ensures a * f < 0 <==> a < 0
  {
  }

  // ---------------------------------------------------------------------------------------------------------
  // Reading
  // ---------------------------------------------------------------------------------------------------------

  function ToUpper(c: char): char {
    if 'a' <= c <= 'z' then (c as int - 32) as char else c
  }

  /** The unit at the end of the text: its factor, and the length of the text before it. */
  function UnitOf(str: string): (r: (nat, nat))
    ensures r.1 <= |str|
  {
    var len := |str|;
    if len < 2 then (1, len)
    else
      match ToUpper(str[len - 1])
      case 'S' =>
        (match ToUpper(str[len - 2])
         case 'N' => (1, len - 2)
         case 'U' => (1_000, len - 2)
         case 'M' => (1_000_000, len - 2)
         case _ => (1_000_000_000, len - 1))
      case 'M' => (60_000_000_000, len - 1)
      case 'H' => (3_600_000_000_000, len - 1)
      case 'D' => (86_400_000_000_000, len - 1)
      case _ => (1, len)
  }

  function DropBlanks(str: string, len: nat): (r: nat)
    requires len <= |str|
    ensures r <= len
  {
    if len > 1 && str[len - 1] == ' ' then DropBlanks(str, len - 1) else len
  }

  /** Conversion of a floating-point value to an integer drops the fraction. */
  function Truncate(x: real): (r: int)
    ensures if x >= 0.0 then 0 <= r && r as real <= x < r as real + 1.0 else r <= 0 && r as real - 1.0 < x <= r as real
  {
    if x >= 0.0 then x.Floor else -((-x).Floor)
  }

  /** How the machine reads a number, and how it multiplies. */
  datatype Machine = Machine(read: string -> real, multiply: (real, real) -> real)

  function Parsed(str: string, m: Machine): int {
    var unit := UnitOf(str);
    Truncate(m.multiply(m.read(str[..DropBlanks(str, unit.1)]), unit.0 as real))
  }

  method StringToNanoseconds(str: string, m: Machine) returns (ns: int)
    ensures ns == Parsed(str, m)
  {
    var factor, len := ReadUnit(str);
    ghost var numberEnd := len;
    while len > 1 && str[len - 1] == ' '
      invariant 0 <= len <= |str| && DropBlanks(str, len) == DropBlanks(str, numberEnd)
    {
      len := len - 1;
    }
    ns := Truncate(m.multiply(m.read(str[..len]), factor as real));
  }

  /** The nested switches on the last two characters. */
  method ReadUnit(str: string) returns (factor: nat, len: nat)
    ensures (factor, len) == UnitOf(str)
  {
    factor, len := 1, |str|;
    if len >= 2 {
      var last, before := ToUpper(str[len - 1]), ToUpper(str[len - 2]);
      if last == 'S' {
        if before == 'N' {
          len := len - 2;
        } else if before == 'U' {
          factor, len := 1_000, len - 2;
        } else if before == 'M' {
          factor, len := 1_000_000, len - 2;
        } else {
          factor, len := 1_000_000_000, len - 1;
        }
      } else if last == 'M' {
        factor, len := 60_000_000_000, len - 1;
      } else if last == 'H' {
        factor, len := 3_600_000_000_000, len - 1;
      } else if last == 'D' {
        factor, len := 86_400_000_000_000, len - 1;
      }
    }
  }

  /** The units of the texts: their nanoseconds, and the letters that stand for them. */
  lemma UnitTable()
    ensures Factor(0) == 1 && Suffix(0) == "ns" && Factor(1) == 1_000 && Suffix(1) == "us"
    ensures Factor(2) == 1_000_000 && Suffix(2) == "ms" && Factor(3) == 1_000_000_000 && Suffix(3) == "s"
    ensures Factor(4) == 60 * Factor(3) && Suffix(4) == "m" && Factor(5) == 60 * Factor(4) && Suffix(5) == "h"
    ensures Factor(6) == 24 * Factor(5) && Suffix(6) == "d"
  {
  }

  predicate IsLetter(c: char, lower: char, upper: char) {
    c == lower || c == upper
  }

  /** The last one or two characters say which unit is meant, in either case; any other text counts nanoseconds. */
  lemma UnitsOfEitherCase(str: string)
    requires |str| >= 2
    ensures var a, b, n := str[|str| - 2], str[|str| - 1], |str|;
            && (IsLetter(b, 's', 'S') && IsLetter(a, 'n', 'N') ==> UnitOf(str) == (1, n - 2))
            && (IsLetter(b, 's', 'S') && IsLetter(a, 'u', 'U') ==> UnitOf(str) == (1_000, n - 2))
            && (IsLetter(b, 's', 'S') && IsLetter(a, 'm', 'M') ==> UnitOf(str) == (1_000_000, n - 2))
            && (IsLetter(b, 's', 'S') && !IsLetter(a, 'n', 'N') && !IsLetter(a, 'u', 'U') && !IsLetter(a, 'm', 'M') ==>
                  UnitOf(str) == (1_000_000_000, n - 1))
            && (IsLetter(b, 'm', 'M') ==> UnitOf(str) == (60_000_000_000, n - 1))
            && (IsLetter(b, 'h', 'H') ==> UnitOf(str) == (3_600_000_000_000, n - 1))
            && (IsLetter(b, 'd', 'D') ==> UnitOf(str) == (86_400_000_000_000, n - 1))
            && (!IsLetter(b, 's', 'S') && !IsLetter(b, 'm', 'M') && !IsLetter(b, 'h', 'H') && !IsLetter(b, 'd', 'D') ==>
                  UnitOf(str) == (1, n))
  {
  }

  /** Blanks between number and unit do not matter. */
  lemma {:induction false} BlanksSkipped(number: string, blanks: string, suffix: string)
    requires number != "" && number[|number| - 1] != ' ' && forall i :: 0 <= i < |blanks| ==> blanks[i] == ' '
    ensures DropBlanks(number + blanks + suffix, |number + blanks|) == |number|
  {
    var str := number + blanks + suffix;
    if blanks == "" {
      assert str[|number| - 1] == number[|number| - 1];
    } else {
      var fewer := blanks[..|blanks| - 1];
      assert str == number + fewer + ([' '] + suffix);
      BlanksSkipped(number, fewer, [' '] + suffix);
    }
  }

  /** A number, blanks, and a unit: the number is read, and multiplied with the unit's nanoseconds. */
  lemma NumberAndUnit(number: string, blanks: string, suffix: string, factor: nat, m: Machine)
    requires number != "" && number[|number| - 1] != ' ' && forall i :: 0 <= i < |blanks| ==> blanks[i] == ' '
    requires UnitOf(number + blanks + suffix) == (factor, |number + blanks|)
    ensures Parsed(number + blanks + suffix, m) == Truncate(m.multiply(m.read(number), factor as real))
  {
    BlanksSkipped(number, blanks, suffix);
    assert (number + blanks + suffix)[..|number|] == number;
  }

  lemma UnitOfSuffix(number: string, unit: nat)
    requires unit <= 6 && number != "" && IsDigit(number[|number| - 1])
    ensures UnitOf(number + Suffix(unit)) == (Factor(unit), |number|)
  {
    var s := number + Suffix(unit);
    assert s[|number| - 1] == number[|number| - 1];
    assert s[|s| - 1] == Suffix(unit)[|Suffix(unit)| - 1];
    if |Suffix(unit)| == 2 {
      assert s[|s| - 2] == Suffix(unit)[0];
    }
  }

  lemma PrintEndsInDigit(n: int)
    ensures Print(n) != "" && IsDigit(Print(n)[|Print(n)| - 1])
  {
  }

  lemma TruncateInteger(n: int)
    ensures Truncate(n as real) == n
  {
    assert (-n) as real == -(n as real);
  }

  lemma Untouched(number: string, suffix: string)
    requires number != "" && IsDigit(number[|number| - 1])
    ensures DropBlanks(number + suffix, |number|) == |number| && (number + suffix)[..|number|] == number
  {
    assert (number + suffix)[|number| - 1] == number[|number| - 1];
  }

  lemma WholeUnits(ns: int, f: nat)
    requires f > 0 && ns % f == 0
    ensures ns / f * f == ns
  {
  }

  /** What is made of a text whose number is read as `x`, where the product is `y`. */
  lemma ReadParts(s: string, m: Machine, factor: nat, len: nat, x: real, y: int)
    requires UnitOf(s) == (factor, len) && DropBlanks(s, len) == len
    requires m.read(s[..len]) == x && m.multiply(x, factor as real) == y as real
    ensures Parsed(s, m) == y
  {
    TruncateInteger(y);
  }

  /** The count of units in a duration's text; a zero has no unit, but nanoseconds serve as well. */
  function Count(ns: int): int {
    if ns == 0 then 0 else ns / Factor(UnitIn(ns))
  }

  function UnitIn(ns: int): (unit: nat)
    ensures unit <= 6
  {
    if ns == 0 then 0 else GreatestUnit(ns, 6)
  }

  lemma CountTimesUnit(ns: int)
    ensures Count(ns) * Factor(UnitIn(ns)) == ns
  {
    if ns != 0 {
      WholeUnits(ns, Factor(UnitIn(ns)));
    }
  }

  lemma ReadText(ns: int, m: Machine, x: real, y: int)
    requires m.read(Print(Count(ns))) == x && m.multiply(x, Factor(UnitIn(ns)) as real) == y as real
    ensures Parsed(Text(ns), m) == y
  {
    var n, unit := Count(ns), UnitIn(ns);
    if ns == 0 {
      assert "0"[..1] == "0" && Print(0) == "0";
      ReadParts("0", m, 1, 1, x, y);
    } else {
      PrintEndsInDigit(n);
      UnitOfSuffix(Print(n), unit);
      Untouched(Print(n), Suffix(unit));
      ReadParts(Print(n) + Suffix(unit), m, Factor(unit), |Print(n)|, x, y);
    }
  }

  // ---------------------------------------------------------------------------------------------------------
  // Round trip
  // ---------------------------------------------------------------------------------------------------------

  function Product(m: Machine, a: int, b: int): real {
    m.multiply(a as real, b as real)
  }

  /** The machine reads a whole number, and multiplies two doubles that are whole numbers, as `d` rounds the result. */
  ghost predicate WorksInDoubles(m: Machine, d: int -> int) {
    && Rounds(d)
    && (forall n: int :: m.read(Print(n)) == d(n) as real)
    && (forall a: int, b: int :: Representable(a) && Representable(b) ==> Product(m, a, b) == d(a * b) as real)
  }

  lemma FactorsAreRepresentable(unit: nat)
    requires unit <= 6
    ensures Representable(Factor(unit))
  {
    SmallIsRepresentable(Factor(unit));
  }

  /** What a duration's text is read as: the count is rounded, and the product once more. */
  lemma ReadInDoubles(ns: int, m: Machine, d: int -> int)
    requires WorksInDoubles(m, d)
    ensures Parsed(Text(ns), m) == d(d(Count(ns)) * Factor(UnitIn(ns)))
  {
    var n, f := Count(ns), Factor(UnitIn(ns));
    FactorsAreRepresentable(UnitIn(ns));
    assert Product(m, d(n), f) == d(d(n) * f) as real;
    ReadText(ns, m, d(n) as real, d(d(n) * f));
  }

  /** A duration is read back from its text exactly if it is a double: if it has at most 53 significant bits. */
  lemma RoundTripExactlyWhen(ns: int, m: Machine, d: int -> int)
    requires WorksInDoubles(m, d)
    ensures Parsed(Text(ns), m) == ns <==> Representable(ns)
  {
    ReadInDoubles(ns, m, d);
    CountTimesUnit(ns);
    if Representable(ns) {
      FactorIsRepresentable(Count(ns), Factor(UnitIn(ns)));
    }
  }

  /** So every duration up to 2^53 nanoseconds is. */
  lemma RoundTrip(ns: int, m: Machine, d: int -> int)
    requires WorksInDoubles(m, d) && -TWO_TO_53 <= ns <= TWO_TO_53
    ensures Parsed(Text(ns), m) == ns
  {
    SmallIsRepresentable(ns);
    RoundTripExactlyWhen(ns, m, d);
  }

  /** A machine that rounds to the nearest double, and ties to even; only texts of whole numbers matter. */
  function RoundingMachine(other: string -> real, otherProduct: (real, real) -> real): Machine {
    Machine(s => if ReadNumber(s, other).Floor as real == ReadNumber(s, other)
                 then Nearest(ReadNumber(s, other).Floor) as real else ReadNumber(s, other),
            (x: real, y: real) => if x.Floor as real == x && y.Floor as real == y
                                  then Nearest(x.Floor * y.Floor) as real else otherProduct(x, y))
  }

  lemma RoundingMachineWorks(other: string -> real, otherProduct: (real, real) -> real)
    ensures WorksInDoubles(RoundingMachine(other, otherProduct), Nearest)
  {
    var m := RoundingMachine(other, otherProduct);
    NearestRounds();
    forall n: int ensures m.read(Print(n)) == Nearest(n) as real {
      ReadPrinted(n, other);
    }
    forall a: int, b: int ensures Product(m, a, b) == Nearest(a * b) as real {
      assert (a as real).Floor == a && (b as real).Floor == b;
    }
  }

  /** An odd number of nanoseconds is rounded once; so 2^53 + 1 comes back as 2^53, by `Doubles.FirstGap`. */
  lemma OddIsRoundedOnce(ns: int, m: Machine, d: int -> int)
    requires WorksInDoubles(m, d) && ns % 2 == 1
    ensures Parsed(Text(ns), m) == d(ns)
  {
    CountOfOdd(ns);
    ReadInDoubles(ns, m, d);
    assert d(ns) * 1 == d(ns);
  }

  lemma CountOfOdd(ns: int)
    requires ns % 2 == 1
    ensures Count(ns) == ns && UnitIn(ns) == 0
  {
    StopIsGreatest(ns, ns, 0);
  }

  /** Different durations have different texts. */
  lemma TextIsUnique(a: int, b: int)
    requires Text(a) == Text(b)
    ensures a == b
  {
    ReadExactly(a);
    ReadExactly(b);
  }

  function ExactMachine(): Machine {
    Machine(s => ReadNumber(s, _ => 0.0), (x, y) => x * y)
  }

  lemma ExactMachineReads(n: int)
    ensures ExactMachine().read(Print(n)) == n as real
  {
    ReadPrinted(n, _ => 0.0);
  }

  lemma ExactMachineMultiplies(n: int, f: int)
    ensures ExactMachine().multiply(n as real, f as real) == (n * f) as real
  {
    assert n as real * f as real == (n * f) as real;
  }

  /** With exact arithmetic every text is read back. */
  lemma ReadExactly(ns: int)
    ensures Parsed(Text(ns), ExactMachine()) == ns
  {
    ExactMachineReads(Count(ns));
    ExactMachineMultiplies(Count(ns), Factor(UnitIn(ns)));
    CountTimesUnit(ns);
    ReadText(ns, ExactMachine(), Count(ns) as real, ns);
  }
}
