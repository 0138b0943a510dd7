/** The text form of `bech32_internal.hpp`: 32 bytes to a Bech32 string and back (NIP-19, section
    "Bare keys and ids"). Text is a sequence of bytes in ASCII, and case is that of the C locale. */
module Bech32 {
  import opened Options
  import opened Words
  import opened Checksum
  import opened Codewords
  import opened Regrouping

  type Text = seq<byte>

  const SEPARATOR: byte := 0x31

  // ----- characters -----

  predicate IsLower(c: byte) {
    0x61 <= c <= 0x7a
  }

  predicate IsUpper(c: byte) {
    0x41 <= c <= 0x5a
  }

  function ToLower(c: byte): byte {
    if IsUpper(c) then c + 0x20 else c
  }

  function ToUpper(c: byte): byte {
    if IsLower(c) then c - 0x20 else c
  }

  /** The position of a character in "qpzry9x8gf2tvdw0s3jn54khce6mua7l". The search also finds the
      terminator of that string, at position 32. */
  function CharToValue(c: byte): Option<byte> {
    if c == 0x71 then Some(0) else if c == 0x70 then Some(1) else if c == 0x7a then Some(2)
    else if c == 0x72 then Some(3) else if c == 0x79 then Some(4) else if c == 0x39 then Some(5)
    else if c == 0x78 then Some(6) else if c == 0x38 then Some(7) else if c == 0x67 then Some(8)
    else if c == 0x66 then Some(9) else if c == 0x32 then Some(10) else if c == 0x74 then Some(11)
    else if c == 0x76 then Some(12) else if c == 0x64 then Some(13) else if c == 0x77 then Some(14)
    else if c == 0x30 then Some(15) else if c == 0x73 then Some(16) else if c == 0x33 then Some(17)
    else if c == 0x6a then Some(18) else if c == 0x6e then Some(19) else if c == 0x35 then Some(20)
    else if c == 0x34 then Some(21) else if c == 0x6b then Some(22) else if c == 0x68 then Some(23)
    else if c == 0x63 then Some(24) else if c == 0x65 then Some(25) else if c == 0x36 then Some(26)
    else if c == 0x6d then Some(27) else if c == 0x75 then Some(28) else if c == 0x61 then Some(29)
    else if c == 0x37 then Some(30) else if c == 0x6c then Some(31) else if c == 0 then Some(32) else None
  }

  /** Character v & 0x1f of the same string. */
  function ValueToChar(v: byte): byte {
    var u := v & 0x1f;
    if u == 0 then 0x71 else if u == 1 then 0x70 else if u == 2 then 0x7a
    else if u == 3 then 0x72 else if u == 4 then 0x79 else if u == 5 then 0x39
    else if u == 6 then 0x78 else if u == 7 then 0x38 else if u == 8 then 0x67
    else if u == 9 then 0x66 else if u == 10 then 0x32 else if u == 11 then 0x74
    else if u == 12 then 0x76 else if u == 13 then 0x64 else if u == 14 then 0x77
    else if u == 15 then 0x30 else if u == 16 then 0x73 else if u == 17 then 0x33
    else if u == 18 then 0x6a else if u == 19 then 0x6e else if u == 20 then 0x35
    else if u == 21 then 0x34 else if u == 22 then 0x6b else if u == 23 then 0x68
    else if u == 24 then 0x63 else if u == 25 then 0x65 else if u == 26 then 0x36
    else if u == 27 then 0x6d else if u == 28 then 0x75 else if u == 29 then 0x61
    else if u == 30 then 0x37 else 0x6c
  }

  lemma ValueOfChar0(v: byte)
    requires 0 <= v < 8
    ensures CharToValue(ValueToChar(v)) == Some(v)
    ensures ValueToChar(v) != SEPARATOR && ValueToChar(v) != 0 && !IsUpper(ValueToChar(v))
  {}

  lemma ValueOfChar8(v: byte)
    requires 8 <= v < 16
    ensures CharToValue(ValueToChar(v)) == Some(v)
    ensures ValueToChar(v) != SEPARATOR && ValueToChar(v) != 0 && !IsUpper(ValueToChar(v))
  {}

  lemma ValueOfChar16(v: byte)
    requires 16 <= v < 20
    ensures CharToValue(ValueToChar(v)) == Some(v)
    ensures ValueToChar(v) != SEPARATOR && ValueToChar(v) != 0 && !IsUpper(ValueToChar(v))
  {}

  lemma ValueOfChar20(v: byte)
    requires 20 <= v < 24
    ensures CharToValue(ValueToChar(v)) == Some(v)
    ensures ValueToChar(v) != SEPARATOR && ValueToChar(v) != 0 && !IsUpper(ValueToChar(v))
  {}

  lemma ValueOfChar24(v: byte)
    requires 24 <= v < 28
    ensures CharToValue(ValueToChar(v)) == Some(v)
    ensures ValueToChar(v) != SEPARATOR && ValueToChar(v) != 0 && !IsUpper(ValueToChar(v))
  {}

  lemma ValueOfChar28(v: byte)
    requires 28 <= v < 32
    ensures CharToValue(ValueToChar(v)) == Some(v)
    ensures ValueToChar(v) != SEPARATOR && ValueToChar(v) != 0 && !IsUpper(ValueToChar(v))
  {}

  lemma ValueOfChar(v: byte)
    requires v < 32
    ensures var c := ValueToChar(v);
            && CharToValue(c) == Some(v)
            && c != SEPARATOR && c != 0 && !IsUpper(c)
  {
    hide CharToValue, ValueToChar, IsUpper;
    if v < 8 {
      ValueOfChar0(v);
    } else if v < 16 {
      ValueOfChar8(v);
    } else if v < 20 {
      ValueOfChar16(v);
    } else if v < 24 {
      ValueOfChar20(v);
    } else if v < 28 {
      ValueOfChar24(v);
    } else {
      ValueOfChar28(v);
    }
  }

  lemma CharOfValue(c: byte)
    requires CharToValue(c).Some?
    ensures CharToValue(c).value < 32 <==> c != 0
    ensures c != 0 ==> ValueToChar(CharToValue(c).value) == c
  {}

  lemma CharsetFrom0(v: byte)
    requires 0 <= v < 8
    ensures ValueToChar(v) == "qpzry9x8gf2tvdw0s3jn54khce6mua7l"[v as int] as byte
  {
    if v == 0 {} else if v == 1 {} else if v == 2 {} else if v == 3 {}
    else if v == 4 {} else if v == 5 {} else if v == 6 {} else {}
  }

  lemma CharsetFrom8(v: byte)
    requires 8 <= v < 16
    ensures ValueToChar(v) == "qpzry9x8gf2tvdw0s3jn54khce6mua7l"[v as int] as byte
  {
    if v == 8 {} else if v == 9 {} else if v == 10 {} else if v == 11 {}
    else if v == 12 {} else if v == 13 {} else if v == 14 {} else {}
  }

  lemma CharsetFrom16(v: byte)
    requires 16 <= v < 24
    ensures ValueToChar(v) == "qpzry9x8gf2tvdw0s3jn54khce6mua7l"[v as int] as byte
  {
    if v == 16 {} else if v == 17 {} else if v == 18 {} else if v == 19 {}
    else if v == 20 {} else if v == 21 {} else if v == 22 {} else {}
  }

  lemma CharsetFrom24(v: byte)
    requires 24 <= v < 32
    ensures ValueToChar(v) == "qpzry9x8gf2tvdw0s3jn54khce6mua7l"[v as int] as byte
  {
    if v == 24 {} else if v == 25 {} else if v == 26 {} else if v == 27 {}
    else if v == 28 {} else if v == 29 {} else if v == 30 {} else {}
  }

  /** Symbol v is written as character v of the set that BIP-173 gives (section "Bech32"). */
  lemma CharsetTable(v: byte)
    requires v < 32
    ensures ValueToChar(v) == "qpzry9x8gf2tvdw0s3jn54khce6mua7l"[v as int] as byte
  {
    hide ValueToChar;
    if v < 8 {
      CharsetFrom0(v);
    } else if v < 16 {
      CharsetFrom8(v);
    } else if v < 24 {
      CharsetFrom16(v);
    } else {
      CharsetFrom24(v);
    }
  }

  /** A character is read as symbol v if and only if it is character v of that set, and as 32 if and
      only if it is NUL. */
  lemma CharsetMembers(c: byte, v: byte)
    ensures v < 32 ==> (CharToValue(c) == Some(v) <==> c == "qpzry9x8gf2tvdw0s3jn54khce6mua7l"[v as int] as byte)
    ensures v >= 32 ==> (CharToValue(c) == Some(v) <==> c == 0 && v == 32)
  {
    hide CharToValue, ValueToChar;
    if v < 32 {
      CharsetTable(v);
      ValueOfChar(v);
    }
    if CharToValue(c).Some? {
      CharOfValue(c);
    }
    NulIs32(c);
  }

  lemma NulIs32(c: byte)
    ensures c == 0 ==> CharToValue(c) == Some(32)
    ensures CharToValue(c).Some? ==> CharToValue(c).value <= 32
  {}

  /** Case is that of ASCII. */
  lemma AsciiCase(c: byte)
    ensures IsLower(c) <==> 'a' as byte <= c <= 'z' as byte
    ensures IsUpper(c) <==> 'A' as byte <= c <= 'Z' as byte
    ensures ToLower(c) == if 'A' as byte <= c <= 'Z' as byte then c - 'A' as byte + 'a' as byte else c
    ensures ToUpper(c) == if 'a' as byte <= c <= 'z' as byte then c - 'a' as byte + 'A' as byte else c
  {}

  lemma Cases(c: byte)
    ensures ToLower(c) == 0 <==> c == 0
    ensures !IsUpper(c) ==> ToLower(c) == c && ToLower(ToUpper(c)) == c
    ensures !IsLower(c) ==> ToUpper(ToLower(c)) == c
    ensures !IsUpper(ToLower(c)) && !IsLower(ToUpper(c))
  {}

  function Lower(s: Text): (r: Text)
    ensures |r| == |s|
  {
    seq(|s|, i requires 0 <= i < |s| => ToLower(s[i]))
  }

  function Upper(s: Text): (r: Text)
    ensures |r| == |s|
  {
    seq(|s|, i requires 0 <= i < |s| => ToUpper(s[i]))
  }

  predicate MixedCase(s: Text) {
    (exists i :: 0 <= i < |s| && IsLower(s[i])) && (exists i :: 0 <= i < |s| && IsUpper(s[i]))
  }

  function Chars(vs: seq<byte>): (r: Text)
    ensures |r| == |vs|
  {
    seq(|vs|, i requires 0 <= i < |vs| => ValueToChar(vs[i]))
  }

  predicate InCharset(s: Text) {
    forall i :: 0 <= i < |s| ==> CharToValue(s[i]).Some?
  }

  function Values(s: Text): (vs: seq<byte>)
    requires InCharset(s)
    ensures |vs| == |s|
  {
    seq(|s|, i requires 0 <= i < |s| => CharToValue(s[i]).value)
  }

  /** The position of the last separator, or -1: std::string::rfind('1'). */
  function LastSeparator(s: Text): (p: int)
    ensures -1 <= p < |s|
  {
    if s == [] then -1
    else if s[|s| - 1] == SEPARATOR then |s| - 1
    else LastSeparator(s[..|s| - 1])
  }

  // ----- encoding and decoding -----

  /** What the encoder writes: nothing unless it is given exactly 32 bytes. */
  function Encoded(hrp: Text, bytes: seq<byte>): Text {
    if |bytes| != 32 then []
    else match Convert(bytes, 8, 5, true)
      case None => []
      case Some(d) => hrp + [SEPARATOR] + Chars(d) + Chars(Generated(hrp, d))
  }

  datatype DecodeError =
    | Empty | Mixed | BadSeparator | WrongHrp | BadCharacter | BadChecksum | BadConversion | BadLength

  datatype Decoding = Bytes(bytes: seq<byte>) | Failed(error: DecodeError)

  /** What the decoder answers for a string in lower case. */
  function DecodedLower(n: Text, hrp: Text): Decoding {
    var sep := LastSeparator(n);
    if sep <= 0 || sep + 7 > |n| then Failed(BadSeparator)
    else if n[..sep] != hrp then Failed(WrongHrp)
    else if !InCharset(n[sep + 1..]) then Failed(BadCharacter)
    else
      var data := Values(n[sep + 1..]);
      if !Verifies(n[..sep], data) then Failed(BadChecksum)
      else match Convert(data[..|data| - 6], 5, 8, false)
        case None => Failed(BadConversion)
        case Some(bytes) => if |bytes| != 32 then Failed(BadLength) else Bytes(bytes)
  }

  /** What the decoder answers. */
  function Decoded(input: Text, hrp: Text): Decoding {
    if input == [] then Failed(Empty)
    else if MixedCase(input) then Failed(Mixed)
    else DecodedLower(Lower(input), hrp)
  }

  method EncodeBech32_32Bytes(hrp: Text, bytes32: seq<byte>) returns (result: Text)
    ensures result == Encoded(hrp, bytes32)
    ensures |bytes32| != 32 ==> result == []
  {
    hide Convert, Generated, ValueToChar;
    if |bytes32| != 32 {
      return [];
    }
    var ok, data5 := ConvertBits(bytes32, 8, 5, true, []);
    if !ok {
      return [];
    }
    var checksum := CreateChecksum(hrp, data5);
    result := hrp + [SEPARATOR];
    ghost var head := result;
    for i := 0 to |data5|
      invariant result == head + Chars(data5[..i])
    {
      result := result + [ValueToChar(data5[i])];
    }
    assert data5[..|data5|] == data5;
    head := result;
    for i := 0 to |checksum|
      invariant result == head + Chars(checksum[..i])
    {
      result := result + [ValueToChar(checksum[i])];
    }
    assert checksum[..|checksum|] == checksum;
  }

  method RFindSeparator(s: Text) returns (p: int)
    ensures p == LastSeparator(s)
  {
    p := |s| - 1;
    assert s[..|s|] == s;
    while p >= 0 && s[p] != SEPARATOR
      invariant -1 <= p < |s|
      invariant LastSeparator(s) == LastSeparator(s[..p + 1])
      decreases p
    {
      assert s[..p + 1][..p] == s[..p];
      p := p - 1;
    }
  }

  method DecodeBech32_32Bytes(input: Text, expectedHrp: Text) returns (r: Decoding)
    ensures r == Decoded(input, expectedHrp)
  {
    hide Convert, Verifies, CharToValue, LastSeparator, IsLower, IsUpper;
    if input == [] {
      return Failed(Empty);
    }
    var hasLower, hasUpper := false, false;
    for i := 0 to |input|
      invariant hasLower <==> exists k :: 0 <= k < i && IsLower(input[k])
      invariant hasUpper <==> exists k :: 0 <= k < i && IsUpper(input[k])
    {
      if IsLower(input[i]) {
        hasLower := true;
      }
      if IsUpper(input[i]) {
        hasUpper := true;
      }
    }
    if hasLower && hasUpper {
      return Failed(Mixed);
    }
    var normalized := input;
    for i := 0 to |input|
      invariant |normalized| == |input|
      invariant forall k :: 0 <= k < i ==> normalized[k] == ToLower(input[k])
      invariant forall k :: i <= k < |input| ==> normalized[k] == input[k]
    {
      normalized := normalized[i := ToLower(normalized[i])];
    }
    assert normalized == Lower(input);
    var sep := RFindSeparator(normalized);
    if sep <= 0 || sep + 7 > |normalized| {
      return Failed(BadSeparator);
    }
    var hrp := normalized[..sep];
    if hrp != expectedHrp {
      return Failed(WrongHrp);
    }
    ghost var tail := normalized[sep + 1..];
    var data: seq<byte> := [];
    for i := sep + 1 to |normalized|
      invariant |data| == i - sep - 1
      invariant forall k :: 0 <= k < |data| ==> CharToValue(tail[k]) == Some(data[k])
    {
      assert tail[i - sep - 1] == normalized[i];
      var v := CharToValue(normalized[i]);
      if v == None {
        assert !InCharset(tail);
        return Failed(BadCharacter);
      }
      data := data + [v.value];
    }
    assert InCharset(tail) && data == Values(tail);
    var verified := VerifyChecksum(hrp, data);
    if !verified {
      return Failed(BadChecksum);
    }
    data := data[..|data| - 6];
    var ok, bytes := ConvertBits(data, 5, 8, false, []);
    if !ok {
      return Failed(BadConversion);
    }
    if |bytes| != 32 {
      return Failed(BadLength);
    }
    return Bytes(bytes);
  }

  // ----- the accepted language -----

  /** A human-readable part as BIP-173 wants it: not empty, not in upper case, without NUL. */
  predicate Proper(hrp: Text) {
    hrp != [] && forall i :: 0 <= i < |hrp| ==> hrp[i] != 0 && !IsUpper(hrp[i])
  }

  lemma BytesAreNarrow(v: byte)
    ensures Narrow(v as word, 8)
    ensures Narrow(v as word, 5) <==> v < 32
  {
    var x := v as word;
    ShiftRightByFive(x);
    assert ShiftRight(x, 6) == x >> 6;
    assert ShiftRight(x, 7) == x >> 7;
  }

  lemma SymbolsAreNarrow(d: seq<byte>)
    ensures AllNarrow(d, 8)
    ensures AllNarrow(d, 5) <==> Symbols(d)
  {
    hide Narrow;
    forall i | 0 <= i < |d|
      ensures Narrow(d[i] as word, 8) && (Narrow(d[i] as word, 5) <==> d[i] < 32)
    {
      BytesAreNarrow(d[i]);
    }
  }

  lemma {:induction false} StreamLength(vs: seq<byte>, w: nat)
    ensures |Stream(vs, w)| == |vs| * w
  {
    hide Bits;
    if vs != [] {
      StreamLength(vs[..|vs| - 1], w);
      assert |vs| * w == (|vs| - 1) * w + w;
    }
  }

  /** 32 bytes make 52 symbols, which decode to the bytes again. */
  lemma PayloadOf32Bytes(bytes: seq<byte>)
    requires |bytes| == 32
    ensures var d := Convert(bytes, 8, 5, true);
            d.Some? && |d.value| == 52 && Symbols(d.value) && Convert(d.value, 5, 8, false) == Some(bytes)
  {
    hide Stream, Groups, Rest, Narrow;
    SymbolsAreNarrow(bytes);
    PadThenUnpad(bytes, 8, 5);
    var s := Stream(bytes, 8);
    var p := Padding(s, 5);
    var d := Groups(s + p, 5);
    StreamOfGroups(s + p, 5);
    PaddedHasNoRest(s, 5);
    StreamLength(bytes, 8);
    StreamLength(d, 5);
    assert Stream(d, 5) + [] == Stream(d, 5);
    SymbolsAreNarrow(d);
  }

  lemma {:induction false} LastSeparatorBefore(a: Text, tail: Text)
    requires forall i :: 0 <= i < |tail| ==> tail[i] != SEPARATOR
    ensures LastSeparator(a + [SEPARATOR] + tail) == |a|
  {
    var s := a + [SEPARATOR] + tail;
    if tail == [] {
      assert s == a + [SEPARATOR];
    } else {
      var n := |tail| - 1;
      LastSeparatorBefore(a, tail[..n]);
      assert s[..|s| - 1] == a + [SEPARATOR] + tail[..n];
    }
  }

  lemma {:induction false} LastSeparatorIs(s: Text)
    ensures var p := LastSeparator(s); p >= 0 ==> s == s[..p] + [SEPARATOR] + s[p + 1..]
  {
    if s != [] && s[|s| - 1] != SEPARATOR {
      LastSeparatorIs(s[..|s| - 1]);
    }
  }

  lemma CharsOfSymbols(d: seq<byte>)
    requires Symbols(d)
    ensures InCharset(Chars(d)) && Values(Chars(d)) == d
    ensures forall i :: 0 <= i < |d| ==> Chars(d)[i] != SEPARATOR && Chars(d)[i] != 0 && !IsUpper(Chars(d)[i])
  {
    hide ValueToChar, CharToValue, IsUpper;
    forall i | 0 <= i < |d|
      ensures CharToValue(Chars(d)[i]) == Some(d[i])
      ensures Chars(d)[i] != SEPARATOR && Chars(d)[i] != 0 && !IsUpper(Chars(d)[i])
    {
      ValueOfChar(d[i]);
    }
  }

  lemma SymbolsOfChars(s: Text)
    requires InCharset(s) && forall i :: 0 <= i < |s| ==> s[i] != 0
    ensures Symbols(Values(s)) && Chars(Values(s)) == s
  {
    hide ValueToChar, CharToValue;
    forall i | 0 <= i < |s|
      ensures Values(s)[i] < 32 && ValueToChar(Values(s)[i]) == s[i]
    {
      CharOfValue(s[i]);
    }
  }

  /** The parts of an encoded string. */
  lemma EncodedParts(hrp: Text, bytes: seq<byte>) returns (d: seq<byte>, c: seq<byte>)
    requires |bytes| == 32
    ensures Convert(bytes, 8, 5, true) == Some(d) && |d| == 52 && Symbols(d) && Convert(d, 5, 8, false) == Some(bytes)
    ensures c == Generated(hrp, d) && Symbols(c)
    ensures Encoded(hrp, bytes) == hrp + [SEPARATOR] + Chars(d + c)
  {
    hide Convert, Generated, ValueToChar;
    PayloadOf32Bytes(bytes);
    d := Convert(bytes, 8, 5, true).value;
    c := Generated(hrp, d);
    GeneratedSymbols(hrp, d);
    assert Chars(d + c) == Chars(d) + Chars(c);
  }

  lemma DecodesEncoded(hrp: Text, bytes: seq<byte>)
    requires |bytes| == 32 && hrp != []
    ensures DecodedLower(Encoded(hrp, bytes), hrp) == Bytes(bytes)
  {
    hide Convert, Generated, ValueToChar, CharToValue, Verifies, LastSeparator;
    var d, c := EncodedParts(hrp, bytes);
    var n := Encoded(hrp, bytes);
    CharsOfSymbols(d + c);
    LastSeparatorBefore(hrp, Chars(d + c));
    assert n[..|hrp|] == hrp && n[|hrp| + 1..] == Chars(d + c);
    GeneratorMeetsVerifier(hrp, d, c);
    assert (d + c)[..52] == d;
  }

  /** The parts of a string without NUL that decodes. */
  lemma DecodedParts(hrp: Text, n: Text, bytes: seq<byte>) returns (d: seq<byte>, c: seq<byte>)
    requires DecodedLower(n, hrp) == Bytes(bytes) && forall i :: 0 <= i < |n| ==> n[i] != 0
    ensures |bytes| == 32 && Convert(d, 5, 8, false) == Some(bytes)
    ensures |c| == 6 && Symbols(c) && Verifies(hrp, d + c)
    ensures n == hrp + [SEPARATOR] + Chars(d + c)
  {
    hide Convert, ValueToChar, CharToValue, Verifies, LastSeparator;
    var sep := LastSeparator(n);
    var data := Values(n[sep + 1..]);
    d, c := data[..|data| - 6], data[|data| - 6..];
    LastSeparatorIs(n);
    SymbolsOfChars(n[sep + 1..]);
    assert data == d + c;
  }

  lemma EncodesDecoded(hrp: Text, n: Text, bytes: seq<byte>)
    requires DecodedLower(n, hrp) == Bytes(bytes) && forall i :: 0 <= i < |n| ==> n[i] != 0
    ensures |bytes| == 32 && n == Encoded(hrp, bytes)
  {
    hide Convert, Generated, ValueToChar, Verifies, DecodedLower;
    var d, c := DecodedParts(hrp, n, bytes);
    GeneratorMeetsVerifier(hrp, d, c);
    UnpadThenPad(d, 5, 8);
    assert Chars(d + c) == Chars(d) + Chars(c);
  }

  lemma EncodedIsLower(hrp: Text, bytes: seq<byte>)
    requires |bytes| == 32 && Proper(hrp)
    ensures var t := Encoded(hrp, bytes);
            && |t| == |hrp| + 59
            && forall i :: 0 <= i < |t| ==> t[i] != 0 && !IsUpper(t[i])
  {
    hide Convert, Generated, ValueToChar, CharToValue;
    var d, c := EncodedParts(hrp, bytes);
    CharsOfSymbols(d + c);
  }

  /** A string and its lower-case form, when the string is not in mixed case. */
  lemma OneCase(s: Text)
    requires !MixedCase(s)
    ensures s == Lower(s) || s == Upper(Lower(s))
  {
    hide IsLower, IsUpper, ToLower, ToUpper;
    forall c
      ensures !IsUpper(c) ==> ToLower(c) == c
      ensures !IsLower(c) ==> ToUpper(ToLower(c)) == c
    {
      Cases(c);
    }
  }

  lemma CaseRoundTrip(t: Text)
    requires forall i :: 0 <= i < |t| ==> t[i] != 0 && !IsUpper(t[i])
    ensures Lower(t) == t && !MixedCase(t) && Lower(Upper(t)) == t && !MixedCase(Upper(t))
    ensures forall i :: 0 <= i < |t| ==> Upper(t)[i] != 0
  {
    hide IsLower, IsUpper, ToLower, ToUpper;
    forall i | 0 <= i < |t|
      ensures ToLower(t[i]) == t[i] && ToLower(ToUpper(t[i])) == t[i] && !IsLower(ToUpper(t[i])) && ToUpper(t[i]) != 0
    {
      Cases(t[i]);
      Cases(ToUpper(t[i]));
    }
  }

  predicate NulFree(s: Text) {
    forall i :: 0 <= i < |s| ==> s[i] != 0
  }

  /** The decoder accepts, among the strings without NUL, exactly the encoder's output and its
      all-upper-case form, and answers the bytes that were encoded. */
  lemma AcceptedLanguage(hrp: Text, s: Text, bytes: seq<byte>)
    requires Proper(hrp)
    ensures Decoded(s, hrp) == Bytes(bytes) && NulFree(s)
            <==> |bytes| == 32 && (s == Encoded(hrp, bytes) || s == Upper(Encoded(hrp, bytes)))
  {
    hide DecodedLower, Encoded, ToLower, ToUpper, IsUpper, IsLower;
    if Decoded(s, hrp) == Bytes(bytes) && NulFree(s) {
      forall i | 0 <= i < |s|
        ensures Lower(s)[i] != 0
      {
        Cases(s[i]);
      }
      EncodesDecoded(hrp, Lower(s), bytes);
      OneCase(s);
    }
    if |bytes| == 32 && (s == Encoded(hrp, bytes) || s == Upper(Encoded(hrp, bytes))) {
      EncodedIsLower(hrp, bytes);
      CaseRoundTrip(Encoded(hrp, bytes));
      DecodesEncoded(hrp, bytes);
    }
  }

  /** The text is rejected before its separator is looked for. */
  lemma EarlyRejections(hrp: Text, s: Text)
    ensures Decoded(s, hrp) == Failed(Empty) <==> s == []
    ensures Decoded(s, hrp) == Failed(Mixed) <==>
            (exists i :: 0 <= i < |s| && IsLower(s[i])) && (exists i :: 0 <= i < |s| && IsUpper(s[i]))
    ensures s != [] && !MixedCase(s) && '1' as byte !in Lower(s) ==> Decoded(s, hrp) == Failed(BadSeparator)
  {
    hide IsLower, IsUpper, ToLower, Convert, Verifies, CharToValue;
    NoSeparator(Lower(s));
  }

  lemma {:induction false} NoSeparator(n: Text)
    ensures '1' as byte !in n ==> LastSeparator(n) == -1
  {
    if n != [] {
      NoSeparator(n[..|n| - 1]);
    }
  }

  /** What a text is rejected for, split at its last separator: each error has its own cause, and the
      first of them counts. */
  lemma Rejections(hrp: Text, s: Text, a: Text, tail: Text)
    requires s != [] && !MixedCase(s) && Lower(s) == a + ['1' as byte] + tail && '1' as byte !in tail
    ensures Decoded(s, hrp) == Failed(BadSeparator) <==> a == [] || |tail| < 6
    ensures a != [] && |tail| >= 6 ==>
              && (Decoded(s, hrp) == Failed(WrongHrp) <==> a != hrp)
              && (Decoded(s, hrp) == Failed(BadCharacter) <==> a == hrp && !InCharset(tail))
    ensures a != [] && |tail| >= 6 && a == hrp && InCharset(tail) ==>
              var data := Values(tail);
              var payload := Convert(data[..|tail| - 6], 5, 8, false);
              && (Decoded(s, hrp) == Failed(BadChecksum) <==> !Verifies(hrp, data))
              && (Decoded(s, hrp) == Failed(BadConversion) <==> Verifies(hrp, data) && payload == None)
              && (Decoded(s, hrp) == Failed(BadLength) <==>
                    Verifies(hrp, data) && payload.Some? && |payload.value| != 32)
              && (Decoded(s, hrp).Bytes? ==> payload == Some(Decoded(s, hrp).bytes))
  {
    hide IsLower, IsUpper, ToLower, Convert, Verifies, CharToValue, LastSeparator, MixedCase;
    SeparatorIsOne();
    LastSeparatorBefore(a, tail);
    var n := Lower(s);
    assert n[..|a|] == a && n[|a| + 1..] == tail;
  }

  lemma SeparatorIsOne()
    ensures SEPARATOR == '1' as byte
  {}

  /** Different bytes have different encodings. */
  lemma EncodingInjective(hrp: Text, b: seq<byte>, b': seq<byte>)
    requires hrp != [] && |b| == |b'| == 32 && Encoded(hrp, b) == Encoded(hrp, b')
    ensures b == b'
  {
    hide DecodedLower, Encoded;
    DecodesEncoded(hrp, b);
    DecodesEncoded(hrp, b');
  }
}
