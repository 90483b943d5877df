/** Base64 as in section 4 of RFC 4648, on bytes; characters are given by their codes. */
module Base64 {
  type Char = bv8

  const PAD: Char := 61
  const PLUS: Char := 43
  const SLASH: Char := 47

  // ---------------------------------------------------------------------------------------------------------
  // The alphabet
  // ---------------------------------------------------------------------------------------------------------

  predicate InAlphabet(c: Char) {
    65 <= c <= 90 || 97 <= c <= 122 || 48 <= c <= 57 || c == PLUS || c == SLASH
  }

  /** Upper case, lower case, digits, plus and slash, in this order. */
  function GetChar(bin: bv8): (c: Char)
    requires bin < 64
    ensures InAlphabet(c) && ToBinary(c) == bin
  {
    if bin < 26 then bin + 65
    else if bin < 52 then bin + 71
    else if bin < 62 then bin - 4
    else if bin == 62 then PLUS
    else SLASH
  }

  function ToBinary(c: Char): (bin: bv8)
    requires InAlphabet(c)
    ensures bin < 64
  {
    if c == PLUS then 62
    else if c == SLASH then 63
    else if c <= 57 then c + 4
    else if c <= 90 then c - 65
    else c - 71
  }

  /** The characters are those of the standard's table, in its order, and padding is the equals sign. */
  lemma AlphabetIs(bin: bv8)
    requires bin < 64
    ensures bin < 26 ==> GetChar(bin) as int == 'A' as int + bin as int
    ensures 26 <= bin < 52 ==> GetChar(bin) as int == 'a' as int + bin as int - 26
    ensures 52 <= bin < 62 ==> GetChar(bin) as int == '0' as int + bin as int - 52
    ensures GetChar(62) as int == '+' as int && GetChar(63) as int == '/' as int
    ensures PAD as int == '=' as int && !InAlphabet(PAD)
  {
  }

  lemma CharOfBinary(c: Char)
    requires InAlphabet(c)
    ensures GetChar(ToBinary(c)) == c
  {
  }

  // ---------------------------------------------------------------------------------------------------------
  // Encoding
  // ---------------------------------------------------------------------------------------------------------

  function First(a: bv8): Char {
    GetChar((a & 0xFC) >> 2)
  }

  function Second(a: bv8, b: bv8): Char {
    GetChar(((a & 0x03) << 4) + ((b & 0xF0) >> 4))
  }

  function Third(b: bv8, c: bv8): Char {
    GetChar(((b & 0x0F) << 2) + ((c & 0xC0) >> 6))
  }

  function Fourth(c: bv8): Char {
    GetChar(c & 0x3F)
  }

  function Quad(a: bv8, b: bv8, c: bv8): (quad: seq<Char>)
    ensures |quad| == 4
  {
    [First(a), Second(a, b), Third(b, c), Fourth(c)]
  }

  function Encoded(bytes: seq<bv8>): seq<Char> {
    if |bytes| == 0 then []
    else if |bytes| == 1 then [First(bytes[0]), Second(bytes[0], 0), PAD, PAD]
    else if |bytes| == 2 then [First(bytes[0]), Second(bytes[0], bytes[1]), Third(bytes[1], 0), PAD]
    else Quad(bytes[0], bytes[1], bytes[2]) + Encoded(bytes[3..])
  }

  function GetEncodingSize(bytes: nat): nat {
    (bytes + 2 - (bytes + 2) % 3) / 3 * 4
  }

  function SizeByQuads(bytes: nat): nat {
    if bytes == 0 then 0 else if bytes <= 3 then 4 else 4 + SizeByQuads(bytes - 3)
  }

  lemma {:induction false} SizesAgree(bytes: nat)
    ensures SizeByQuads(bytes) == GetEncodingSize(bytes)
  {
    if bytes > 3 {
      SizesAgree(bytes - 3);
    }
  }

  lemma {:induction false} EncodedInQuads(bytes: seq<bv8>)
    ensures |Encoded(bytes)| == SizeByQuads(|bytes|)
    decreases |bytes|
  {
    if |bytes| >= 3 {
      EncodedInQuads(bytes[3..]);
    }
  }

  /** The length of the text is the one calculated beforehand. */
  lemma EncodedSize(bytes: seq<bv8>)
    ensures |Encoded(bytes)| == GetEncodingSize(|bytes|)
  {
    EncodedInQuads(bytes);
    SizesAgree(|bytes|);
  }

  lemma EncodeNext(bytes: seq<bv8>, p: nat, result: seq<Char>, all: seq<Char>)
    requires p + 3 <= |bytes| && result + Encoded(bytes[p..]) == all
    ensures result + Quad(bytes[p], bytes[p + 1], bytes[p + 2]) + Encoded(bytes[p + 3..]) == all
  {
    var rest := bytes[p..];
    assert rest[3..] == bytes[p + 3..];
    assert Encoded(rest) == Quad(rest[0], rest[1], rest[2]) + Encoded(rest[3..]);
  }

  method Encode(binary: seq<bv8>) returns (result: seq<Char>)
    ensures result == Encoded(binary)
  {
    if |binary| == 0 {
      return [];
    }
    var misaligned := |binary| % 3;
    var aligned := (|binary| - misaligned) / 3;
    result := [];
    var p, i := 0, 0;
    assert binary[0..] == binary;
    ghost var all := Encoded(binary);
    while i < aligned
      invariant i <= aligned && p == 3 * i
      invariant result + Encoded(binary[p..]) == all
    {
      EncodeNext(binary, p, result, all);
      result := result + Quad(binary[p], binary[p + 1], binary[p + 2]);
      p, i := p + 3, i + 1;
    }
    var last := EncodeRest(binary[p..]);
    result := result + last;
  }

  /** The one or two bytes left over, from a temporary buffer that ends in zeros. */
  method EncodeRest(bytes: seq<bv8>) returns (result: seq<Char>)
    requires |bytes| < 3
    ensures result == Encoded(bytes)
  {
    result := [];
    if |bytes| != 0 {
      var temp := [0, 0, 0];
      temp := temp[0 := bytes[0]];
      if |bytes| == 2 {
        temp := temp[1 := bytes[1]];
      }
      result := [First(temp[0]), Second(temp[0], temp[1]), if |bytes| == 2 then Third(temp[1], temp[2]) else PAD, PAD];
    }
  }

  // ---------------------------------------------------------------------------------------------------------
  // Decoding
  // ---------------------------------------------------------------------------------------------------------

  function Upper(first: bv8, second: bv8): bv8 {
    (first << 2) + ((second & 0x30) >> 4)
  }

  function Middle(second: bv8, third: bv8): bv8 {
    ((second & 0x0f) << 4) + ((third & 0x3c) >> 2)
  }

  function Lower(third: bv8, fourth: bv8): bv8 {
    ((third & 0x03) << 6) + fourth
  }

  /** The number of padding characters that may stand at the end. */
  function Padding(s: seq<Char>): nat {
    if |s| >= 2 && s[|s| - 1] == PAD then (if s[|s| - 2] == PAD then 2 else 1) else 0
  }

  /** What decoding accepts: whole quads of the alphabet, where the last one or two characters may be padding. */
  predicate WellFormed(s: seq<Char>) {
    && |s| % 4 == 0 && |s| > 0
    && forall i :: 0 <= i < |s| - Padding(s) ==> InAlphabet(s[i])
  }

  function DecodeQuads(s: seq<Char>): seq<bv8>
    requires WellFormed(s)
  {
    var first, second := ToBinary(s[0]), ToBinary(s[1]);
    if |s| == 4 then
      [Upper(first, second)]
      + (if s[2] == PAD then []
         else [Middle(second, ToBinary(s[2]))] + if s[3] == PAD then [] else [Lower(ToBinary(s[2]), ToBinary(s[3]))])
    else
      var third, fourth := ToBinary(s[2]), ToBinary(s[3]);
      [Upper(first, second), Middle(second, third), Lower(third, fourth)] + DecodeQuads(s[4..])
  }

  /** Text that is not accepted decodes to nothing. */
  function Decoded(s: seq<Char>): seq<bv8> {
    if WellFormed(s) then DecodeQuads(s) else []
  }

  method FindFirstNotInAlphabet(s: seq<Char>) returns (pos: nat)
    ensures pos <= |s| && (pos < |s| ==> !InAlphabet(s[pos])) && forall i :: 0 <= i < pos ==> InAlphabet(s[i])
  {
    pos := 0;
    while pos < |s| && InAlphabet(s[pos])
      invariant pos <= |s| && forall i :: 0 <= i < pos ==> InAlphabet(s[i])
    {
      pos := pos + 1;
    }
  }

  /** The safety checks. */
  method Accepts(encoded: seq<Char>) returns (ok: bool)
    ensures ok <==> WellFormed(encoded)
  {
    var length := |encoded|;
    if length % 4 != 0 || length == 0 {
      return false;
    }
    var pos := FindFirstNotInAlphabet(encoded);
    if pos != length {
      if encoded[pos] != PAD {
        return false;
      }
      if pos != length - 1 {
        if pos != length - 2 {
          return false;
        }
        if encoded[pos + 1] != PAD {
          return false;
        }
      }
    }
    return true;
  }

  method Decode(encoded: seq<Char>) returns (result: seq<bv8>)
    ensures result == Decoded(encoded)
  {
    var ok := Accepts(encoded);
    if !ok {
      return [];
    }
    var aligned := |encoded| / 4 - 1;
    result := [];
    var runner, i := 0, 0;
    assert encoded[0..] == encoded;
    while i < aligned
      invariant i <= aligned && runner == 4 * i && WellFormed(encoded[runner..])
      invariant result + DecodeQuads(encoded[runner..]) == DecodeQuads(encoded)
    {
      DecodeNext(encoded[runner..]);
      assert encoded[runner..][4..] == encoded[runner + 4..];
      var first, second := ToBinary(encoded[runner]), ToBinary(encoded[runner + 1]);
      var third, fourth := ToBinary(encoded[runner + 2]), ToBinary(encoded[runner + 3]);
      var triple := [Upper(first, second), Middle(second, third), Lower(third, fourth)];
      assert result + (triple + DecodeQuads(encoded[runner + 4..]))
          == result + triple + DecodeQuads(encoded[runner + 4..]);
      result := result + triple;
      runner, i := runner + 4, i + 1;
    }
    var last := DecodeLast(encoded[runner..]);
    result := result + last;
  }

  lemma DecodeNext(s: seq<Char>)
    requires WellFormed(s) && |s| > 4
    ensures InAlphabet(s[0]) && InAlphabet(s[1]) && InAlphabet(s[2]) && InAlphabet(s[3]) && WellFormed(s[4..])
    ensures var first, second, third, fourth := ToBinary(s[0]), ToBinary(s[1]), ToBinary(s[2]), ToBinary(s[3]);
            DecodeQuads(s) == [Upper(first, second), Middle(second, third), Lower(third, fourth)] + DecodeQuads(s[4..])
  {
  }

  /** The last quad, which might have padding. */
  method DecodeLast(quad: seq<Char>) returns (result: seq<bv8>)
    requires WellFormed(quad) && |quad| == 4
    ensures result == DecodeQuads(quad)
  {
    var second := ToBinary(quad[1]);
    result := [Upper(ToBinary(quad[0]), second)];
    if quad[2] != PAD {
      var third := ToBinary(quad[2]);
      result := result + [Middle(second, third)];
      if quad[3] != PAD {
        result := result + [Lower(third, ToBinary(quad[3]))];
      }
    }
  }

  // ---------------------------------------------------------------------------------------------------------
  // Results
  // ---------------------------------------------------------------------------------------------------------

  lemma WellFormedCons(quad: seq<Char>, rest: seq<Char>)
    requires |quad| == 4 && (forall i :: 0 <= i < 4 ==> InAlphabet(quad[i])) && WellFormed(rest)
    ensures WellFormed(quad + rest)
  {
    var s := quad + rest;
    assert Padding(s) == Padding(rest);
    forall i | 0 <= i < |s| - Padding(s) ensures InAlphabet(s[i]) {
      if i >= 4 {
        assert s[i] == rest[i - 4];
      }
    }
  }

  lemma TripleBack(a: bv8, b: bv8, c: bv8)
    ensures Upper(ToBinary(First(a)), ToBinary(Second(a, b))) == a
    ensures Middle(ToBinary(Second(a, b)), ToBinary(Third(b, c))) == b
    ensures Lower(ToBinary(Third(b, c)), ToBinary(Fourth(c))) == c
  {
  }

  lemma OneDecoded(a: bv8)
    ensures var s := [First(a), Second(a, 0), PAD, PAD]; WellFormed(s) && DecodeQuads(s) == [a]
  {
    TripleBack(a, 0, 0);
  }

  lemma TwoDecoded(a: bv8, b: bv8)
    ensures var s := [First(a), Second(a, b), Third(b, 0), PAD]; WellFormed(s) && DecodeQuads(s) == [a, b]
  {
    TripleBack(a, b, 0);
  }

  lemma ThreeDecoded(a: bv8, b: bv8, c: bv8)
    ensures WellFormed(Quad(a, b, c)) && DecodeQuads(Quad(a, b, c)) == [a, b, c]
  {
    TripleBack(a, b, c);
  }

  lemma QuadDecoded(a: bv8, b: bv8, c: bv8, rest: seq<Char>)
    requires WellFormed(rest)
    ensures WellFormed(Quad(a, b, c) + rest) && DecodeQuads(Quad(a, b, c) + rest) == [a, b, c] + DecodeQuads(rest)
  {
    WellFormedCons(Quad(a, b, c), rest);
    DecodeNext(Quad(a, b, c) + rest);
    TripleBack(a, b, c);
    assert (Quad(a, b, c) + rest)[4..] == rest;
  }

  ghost predicate ComesBack(bytes: seq<bv8>) {
    WellFormed(Encoded(bytes)) && DecodeQuads(Encoded(bytes)) == bytes
  }

  lemma OneComesBack(bytes: seq<bv8>)
    requires |bytes| == 1
    ensures ComesBack(bytes)
  {
    OneDecoded(bytes[0]);
  }

  lemma TwoComeBack(bytes: seq<bv8>)
    requires |bytes| == 2
    ensures ComesBack(bytes)
  {
    TwoDecoded(bytes[0], bytes[1]);
  }

  lemma ThreeComeBack(bytes: seq<bv8>)
    requires |bytes| == 3
    ensures ComesBack(bytes)
  {
    assert Encoded(bytes) == Quad(bytes[0], bytes[1], bytes[2]) by {
      assert Encoded(bytes) == Quad(bytes[0], bytes[1], bytes[2]) + Encoded([]);
    }
    ThreeDecoded(bytes[0], bytes[1], bytes[2]);
  }

  lemma MoreComeBack(bytes: seq<bv8>)
    requires |bytes| > 3 && ComesBack(bytes[3..])
    ensures ComesBack(bytes)
  {
    QuadText(bytes, Encoded(bytes), Encoded(bytes[3..]));
  }

  lemma QuadText(bytes: seq<bv8>, s: seq<Char>, rest: seq<Char>)
    requires |bytes| >= 3 && s == Quad(bytes[0], bytes[1], bytes[2]) + rest
    requires WellFormed(rest) && DecodeQuads(rest) == bytes[3..]
    ensures WellFormed(s) && DecodeQuads(s) == bytes
  {
    assert bytes == [bytes[0], bytes[1], bytes[2]] + bytes[3..];
    QuadDecoded(bytes[0], bytes[1], bytes[2], rest);
  }

  lemma {:induction false} AllComeBack(bytes: seq<bv8>)
    requires bytes != []
    ensures ComesBack(bytes)
    decreases |bytes|
  {
    if |bytes| == 1 {
      OneComesBack(bytes);
    } else if |bytes| == 2 {
      TwoComeBack(bytes);
    } else if |bytes| == 3 {
      ThreeComeBack(bytes);
    } else {
      AllComeBack(bytes[3..]);
      MoreComeBack(bytes);
    }
  }

  /** Every byte string is decoded to itself from its encoding, which passes the safety checks. */
  lemma RoundTrip(bytes: seq<bv8>)
    ensures Decoded(Encoded(bytes)) == bytes
    ensures bytes != [] ==> WellFormed(Encoded(bytes))
  {
    if bytes != [] {
      AllComeBack(bytes);
    }
  }

  /** The bits behind the last whole byte are zero. */
  predicate PaddingBitsZero(s: seq<Char>)
    requires WellFormed(s)
  {
    && (Padding(s) == 2 ==> ToBinary(s[|s| - 3]) & 0x0f == 0)
    && (Padding(s) == 1 ==> ToBinary(s[|s| - 2]) & 0x03 == 0)
  }

  lemma QuadBack(first: bv8, second: bv8, third: bv8, fourth: bv8)
    requires first < 64 && second < 64 && third < 64 && fourth < 64
    ensures var a, b, c := Upper(first, second), Middle(second, third), Lower(third, fourth);
            First(a) == GetChar(first) && Second(a, b) == GetChar(second)
            && Third(b, c) == GetChar(third) && Fourth(c) == GetChar(fourth)
    ensures Second(Upper(first, second), 0) == GetChar(second) <==> second & 0x0f == 0
    ensures Third(Middle(second, third), 0) == GetChar(third) <==> third & 0x03 == 0
  {
  }

  /** The four characters and the rest of a longer text come back as they do on their own. */
  lemma LongBack(s: seq<Char>)
    requires WellFormed(s) && |s| > 4
    ensures WellFormed(s[4..])
    ensures Encoded(DecodeQuads(s)) == s[..4] + Encoded(DecodeQuads(s[4..]))
  {
    DecodeNext(s);
    FourBack(s[0], s[1], s[2], s[3]);
    var first, second, third, fourth := ToBinary(s[0]), ToBinary(s[1]), ToBinary(s[2]), ToBinary(s[3]);
    EncodedCons(Upper(first, second), Middle(second, third), Lower(third, fourth), DecodeQuads(s[4..]));
    assert s[..4] == [s[0], s[1], s[2], s[3]];
  }

  lemma EncodedCons(a: bv8, b: bv8, c: bv8, rest: seq<bv8>)
    ensures Encoded([a, b, c] + rest) == Quad(a, b, c) + Encoded(rest)
  {
    assert ([a, b, c] + rest)[3..] == rest;
  }

  lemma FourBack(c0: Char, c1: Char, c2: Char, c3: Char)
    requires InAlphabet(c0) && InAlphabet(c1) && InAlphabet(c2) && InAlphabet(c3)
    ensures var first, second, third, fourth := ToBinary(c0), ToBinary(c1), ToBinary(c2), ToBinary(c3);
            var a, b, c := Upper(first, second), Middle(second, third), Lower(third, fourth);
            First(a) == c0 && Second(a, b) == c1 && Third(b, c) == c2 && Fourth(c) == c3
  {
    CharOfBinary(c0);
    CharOfBinary(c1);
    CharOfBinary(c2);
    CharOfBinary(c3);
    QuadBack(ToBinary(c0), ToBinary(c1), ToBinary(c2), ToBinary(c3));
  }

  lemma LastBack(s: seq<Char>)
    requires WellFormed(s) && |s| == 4
    ensures Encoded(DecodeQuads(s)) == s <==> PaddingBitsZero(s)
  {
    CharOfBinary(s[0]);
    CharOfBinary(s[1]);
    var first, second := ToBinary(s[0]), ToBinary(s[1]);
    if s[2] == PAD {
      QuadBack(first, second, 0, 0);
    } else if s[3] == PAD {
      CharOfBinary(s[2]);
      QuadBack(first, second, ToBinary(s[2]), 0);
    } else {
      FourBack(s[0], s[1], s[2], s[3]);
    }
  }

  lemma {:induction false} AcceptedBack(s: seq<Char>)
    requires WellFormed(s)
    ensures Encoded(DecodeQuads(s)) == s <==> PaddingBitsZero(s)
    decreases |s|
  {
    if |s| == 4 {
      LastBack(s);
    } else {
      LongBack(s);
      AcceptedBack(s[4..]);
      assert s == s[..4] + s[4..];
    }
  }

  /** Exactly the canonical texts are encoded back to themselves: nothing, or accepted ones without stray bits. */
  lemma TextRoundTrip(s: seq<Char>)
    ensures Encoded(Decoded(s)) == s <==> s == [] || (WellFormed(s) && PaddingBitsZero(s))
  {
    if WellFormed(s) {
      AcceptedBack(s);
    }
  }

  // ---------------------------------------------------------------------------------------------------------
  // The groups of 24 bits
  // ---------------------------------------------------------------------------------------------------------

  /** Three bytes as one group. */
  function OfBytes(a: bv8, b: bv8, c: bv8): bv24 {
    (a as bv24 << 16) | (b as bv24 << 8) | c as bv24
  }

  /** Four characters as one group; padding counts as zero. */
  function OfChars(c0: Char, c1: Char, c2: Char, c3: Char): bv24 {
    (SixBits(c0) << 18) | (SixBits(c1) << 12) | (SixBits(c2) << 6) | SixBits(c3)
  }

  function SixBits(c: Char): bv24 {
    if InAlphabet(c) then ToBinary(c) as bv24 else 0
  }

  /** The input in groups of three bytes, filled up with zeros. */
  function ByteGroups(bytes: seq<bv8>): seq<bv24> {
    if |bytes| == 0 then []
    else if |bytes| == 1 then [OfBytes(bytes[0], 0, 0)]
    else if |bytes| == 2 then [OfBytes(bytes[0], bytes[1], 0)]
    else [OfBytes(bytes[0], bytes[1], bytes[2])] + ByteGroups(bytes[3..])
  }

  function TextGroups(s: seq<Char>): seq<bv24>
    requires |s| % 4 == 0
  {
    if s == [] then [] else [OfChars(s[0], s[1], s[2], s[3])] + TextGroups(s[4..])
  }

  lemma SameGroup(a: bv8, b: bv8, c: bv8)
    ensures OfChars(First(a), Second(a, b), Third(b, c), Fourth(c)) == OfBytes(a, b, c)
  {
  }

  lemma SameGroupOfTwo(a: bv8, b: bv8)
    ensures OfChars(First(a), Second(a, b), Third(b, 0), PAD) == OfBytes(a, b, 0)
  {
  }

  lemma SameGroupOfOne(a: bv8)
    ensures OfChars(First(a), Second(a, 0), PAD, PAD) == OfBytes(a, 0, 0)
  {
  }

  lemma GroupsCons(s: seq<Char>, rest: seq<Char>)
    requires |s| == 4 && |rest| % 4 == 0
    ensures TextGroups(s + rest) == [OfChars(s[0], s[1], s[2], s[3])] + TextGroups(rest)
  {
    assert (s + rest)[4..] == rest;
  }

  /** The text spells the input's groups of 24 bits, six bits a character. */
  lemma {:induction false} SameGroups(bytes: seq<bv8>)
    ensures |Encoded(bytes)| % 4 == 0 && TextGroups(Encoded(bytes)) == ByteGroups(bytes)
    decreases |bytes|
  {
    if |bytes| == 1 {
      SameGroupOfOne(bytes[0]);
      GroupsCons(Encoded(bytes), []);
      assert Encoded(bytes) + [] == Encoded(bytes);
    } else if |bytes| == 2 {
      SameGroupOfTwo(bytes[0], bytes[1]);
      GroupsCons(Encoded(bytes), []);
      assert Encoded(bytes) + [] == Encoded(bytes);
    } else if |bytes| >= 3 {
      SameGroup(bytes[0], bytes[1], bytes[2]);
      SameGroups(bytes[3..]);
      GroupsCons(Quad(bytes[0], bytes[1], bytes[2]), Encoded(bytes[3..]));
    }
  }

  /** Padding tells how many bytes were missing from the last group. */
  lemma {:induction false} PaddingTells(bytes: seq<bv8>)
    ensures Padding(Encoded(bytes)) == if |bytes| % 3 == 0 then 0 else 3 - |bytes| % 3
    decreases |bytes|
  {
    if |bytes| > 3 {
      PaddingTells(bytes[3..]);
      PaddingOfRest(Quad(bytes[0], bytes[1], bytes[2]), Encoded(bytes[3..]));
      EncodedInQuads(bytes[3..]);
    } else if |bytes| == 3 {
      assert Encoded(bytes[3..]) == [];
    }
  }

  lemma PaddingOfRest(quad: seq<Char>, rest: seq<Char>)
    requires |rest| >= 2
    ensures Padding(quad + rest) == Padding(rest)
  {
  }
}
