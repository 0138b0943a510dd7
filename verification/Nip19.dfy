/** The entry points: npub and nsec strings to hexadecimal keys and back, and the loader of private
    keys (`npub.cpp`, `nsec.cpp`, `auth_key.cpp`). */
module Nip19 {
  import opened Options
  import opened Words
  import opened Bech32

  const NPUB: Text := [0x6e, 0x70, 0x75, 0x62]
  const NSEC: Text := [0x6e, 0x73, 0x65, 0x63]

  // ----- hexadecimal -----

  function Nibble(c: byte): Option<byte> {
    if 0x30 <= c <= 0x39 then Some(c - 0x30)
    else if 0x61 <= c <= 0x66 then Some(c - 0x61 + 10)
    else if 0x41 <= c <= 0x46 then Some(c - 0x41 + 10)
    else None
  }

  function HexChar(n: byte): byte {
    if n < 10 then n + 0x30 else n - 10 + 0x61
  }

  function Hex(bytes: seq<byte>): Text {
    if bytes == [] then []
    else
      var b := bytes[|bytes| - 1];
      Hex(bytes[..|bytes| - 1]) + [HexChar(b >> 4), HexChar(b & 15)]
  }

  /** The byte that two hexadecimal digits spell. */
  function Pair(hi: byte, lo: byte): Option<byte> {
    match (Nibble(hi), Nibble(lo))
    case (Some(h), Some(l)) => Some((h << 4) | l)
    case _ => None
  }

  /** The bytes that a hexadecimal string spells, if it has an even number of digits and nothing
      else. */
  function Unhex(hex: Text): Option<seq<byte>> {
    if hex == [] then Some([])
    else if |hex| == 1 then None
    else
      var n := |hex| - 2;
      match (Unhex(hex[..n]), Pair(hex[n], hex[n + 1]))
      case (Some(bs), Some(b)) => Some(bs + [b])
      case _ => None
  }

  method BytesToHex(bytes: seq<byte>) returns (hex: Text)
    ensures hex == Hex(bytes)
  {
    hide HexChar;
    hex := [];
    for i := 0 to |bytes|
      invariant hex == Hex(bytes[..i])
    {
      assert bytes[..i + 1][..i] == bytes[..i];
      hex := hex + [HexChar(bytes[i] >> 4), HexChar(bytes[i] & 15)];
    }
    assert bytes[..|bytes|] == bytes;
  }

  lemma {:induction false} UnhexPrefix(hex: Text, k: nat)
    requires 2 * k <= |hex| && Unhex(hex[..2 * k]) == None
    ensures Unhex(hex) == None
    decreases |hex|
  {
    hide Pair;
    if 2 * k == |hex| {
      assert hex[..2 * k] == hex;
    } else if |hex| > 1 {
      if 2 * k <= |hex| - 2 {
        assert hex[..|hex| - 2][..2 * k] == hex[..2 * k];
        UnhexPrefix(hex[..|hex| - 2], k);
      } else {
        assert 2 * k == |hex| - 1;
        UnhexOdd(hex);
      }
    }
  }

  lemma {:induction false} UnhexOdd(hex: Text)
    requires |hex| % 2 == 1
    ensures Unhex(hex) == None
  {
    hide Pair;
    if |hex| > 1 {
      UnhexOdd(hex[..|hex| - 2]);
    }
  }

  lemma UnhexNext(hex: Text, k: nat)
    requires 2 * k + 2 <= |hex|
    ensures Unhex(hex[..2 * k + 2]) ==
      match (Unhex(hex[..2 * k]), Pair(hex[2 * k], hex[2 * k + 1]))
      case (Some(bs), Some(b)) => Some(bs + [b])
      case _ => None
  {
    hide Pair;
    assert hex[..2 * k + 2][..2 * k] == hex[..2 * k];
  }

  method HexToBytes(hex: Text) returns (out: seq<byte>)
    ensures out == match Unhex(hex) case Some(bs) => bs case None => []
  {
    hide Unhex, Nibble;
    if |hex| % 2 != 0 {
      UnhexOdd(hex);
      return [];
    }
    out := [];
    var k := 0;
    assert Unhex(hex[..0]) == Some([]) by {
      UnhexEmpty();
    }
    while 2 * k < |hex|
      invariant 2 * k <= |hex|
      invariant Unhex(hex[..2 * k]) == Some(out)
    {
      var hi := Nibble(hex[2 * k]);
      var lo := Nibble(hex[2 * k + 1]);
      UnhexNext(hex, k);
      if hi == None || lo == None {
        UnhexPrefix(hex, k + 1);
        return [];
      }
      out := out + [(hi.value << 4) | lo.value];
      k := k + 1;
    }
    assert hex[..|hex|] == hex;
  }

  lemma UnhexEmpty()
    ensures Unhex([]) == Some([])
  {}

  /** The loader's own conversion, which fills a fixed array. On a bad digit the array is cleared;
      on a wrong length it is not touched. */
  method HexToBytes32(hex: Text, out: array<byte>) returns (ok: bool)
    requires out.Length == 32
    modifies out
    ensures ok == (|hex| == 64 && Unhex(hex).Some?)
    ensures ok ==> out[..] == Unhex(hex).value
    ensures !ok ==> out[..] == if |hex| == 64 then seq(32, i => 0) else old(out[..])
  {
    hide Unhex, Nibble;
    if |hex| != 64 {
      return false;
    }
    assert Unhex(hex[..0]) == Some([]) by {
      UnhexEmpty();
    }
    for index := 0 to 32
      invariant Unhex(hex[..2 * index]) == Some(out[..index])
    {
      var hi := Nibble(hex[index * 2]);
      var lo := Nibble(hex[index * 2 + 1]);
      UnhexNext(hex, index);
      if hi == None || lo == None {
        UnhexPrefix(hex, index + 1);
        forall i | 0 <= i < 32 {
          out[i] := 0;
        }
        return false;
      }
      out[index] := (hi.value << 4) | lo.value;
      assert out[..index + 1] == out[..index] + [(hi.value << 4) | lo.value];
    }
    assert hex[..64] == hex && out[..32] == out[..];
    return true;
  }

  // ----- what digits mean -----

  /** The value of a digit is its place in "0123456789abcdef", in either case, and nothing else is a
      digit. */
  lemma DigitValues(c: byte, v: byte)
    ensures Nibble(c) == Some(v) <==>
            v < 16 && (c == "0123456789abcdef"[v as int] as byte || c == "0123456789ABCDEF"[v as int] as byte)
  {
    if v < 4 {
      DigitsFrom0(c, v);
    } else if v < 8 {
      DigitsFrom4(c, v);
    } else if v < 12 {
      DigitsFrom8(c, v);
    } else if v < 16 {
      DigitsFrom12(c, v);
    }
  }

  lemma DigitsFrom0(c: byte, v: byte)
    requires v < 4
    ensures Nibble(c) == Some(v) <==>
            c == "0123456789abcdef"[v as int] as byte || c == "0123456789ABCDEF"[v as int] as byte
  {
    if v == 0 {} else if v == 1 {} else if v == 2 {} else {}
  }

  lemma DigitsFrom4(c: byte, v: byte)
    requires 4 <= v < 8
    ensures Nibble(c) == Some(v) <==>
            c == "0123456789abcdef"[v as int] as byte || c == "0123456789ABCDEF"[v as int] as byte
  {
    if v == 4 {} else if v == 5 {} else if v == 6 {} else {}
  }

  lemma DigitsFrom8(c: byte, v: byte)
    requires 8 <= v < 12
    ensures Nibble(c) == Some(v) <==>
            c == "0123456789abcdef"[v as int] as byte || c == "0123456789ABCDEF"[v as int] as byte
  {
    if v == 8 {} else if v == 9 {} else if v == 10 {} else {}
  }

  lemma DigitsFrom12(c: byte, v: byte)
    requires 12 <= v < 16
    ensures Nibble(c) == Some(v) <==>
            c == "0123456789abcdef"[v as int] as byte || c == "0123456789ABCDEF"[v as int] as byte
  {
    if v == 12 {} else if v == 13 {} else if v == 14 {} else {}
  }

  /** A digit is written in lower case. */
  lemma DigitChars(v: byte)
    requires v < 16
    ensures HexChar(v) == "0123456789abcdef"[v as int] as byte
  {
    if v == 0 {} else if v == 1 {} else if v == 2 {} else if v == 3 {} else if v == 4 {} else if v == 5 {}
    else if v == 6 {} else if v == 7 {} else if v == 8 {} else if v == 9 {} else if v == 10 {} else if v == 11 {}
    else if v == 12 {} else if v == 13 {} else if v == 14 {} else {}
  }

  /** Two digits are sixteen times the first and the second. */
  lemma PairValue(hi: byte, lo: byte)
    ensures Pair(hi, lo).Some? <==> Nibble(hi).Some? && Nibble(lo).Some?
    ensures Pair(hi, lo).Some? ==> Pair(hi, lo).value as int == 16 * (Nibble(hi).value as int) + Nibble(lo).value as int
  {
    hide Nibble;
    if Nibble(hi).Some? && Nibble(lo).Some? {
      DigitValues(hi, Nibble(hi).value);
      DigitValues(lo, Nibble(lo).value);
      JoinNibbles(Nibble(hi).value, Nibble(lo).value);
    }
  }

  lemma JoinNibbles(h: byte, l: byte)
    requires h < 16 && l < 16
    ensures ((h << 4) | l) as int == 16 * (h as int) + l as int
  {}

  /** A text spells bytes if and only if it has an even number of characters, all of them digits. */
  lemma {:induction false} UnhexDomain(hex: Text)
    ensures Unhex(hex).Some? <==> |hex| % 2 == 0 && forall i :: 0 <= i < |hex| ==> Nibble(hex[i]).Some?
  {
    hide Nibble, Pair;
    if |hex| > 1 {
      var n := |hex| - 2;
      UnhexDomain(hex[..n]);
      PairValue(hex[n], hex[n + 1]);
      assert forall i :: 0 <= i < n ==> hex[..n][i] == hex[i];
      if forall i :: 0 <= i < |hex| ==> Nibble(hex[i]).Some? {
        assert forall i :: 0 <= i < n ==> Nibble(hex[..n][i]).Some?;
      } else {
        var i :| 0 <= i < |hex| && Nibble(hex[i]) == None;
        assert i < n ==> Nibble(hex[..n][i]) == None;
      }
    }
  }

  /** Byte i is what digits 2i and 2i + 1 spell. */
  lemma {:induction false} UnhexAt(hex: Text, i: nat)
    requires Unhex(hex).Some?
    ensures |hex| == 2 * |Unhex(hex).value|
    ensures i < |Unhex(hex).value| ==>
              && Nibble(hex[2 * i]).Some? && Nibble(hex[2 * i + 1]).Some?
              && Unhex(hex).value[i] as int
                 == 16 * (Nibble(hex[2 * i]).value as int) + Nibble(hex[2 * i + 1]).value as int
    decreases |hex|
  {
    hide Nibble, Pair;
    if hex != [] {
      var n := |hex| - 2;
      UnhexAt(hex[..n], i);
      PairValue(hex[n], hex[n + 1]);
    }
  }

  lemma PairOfByte(b: byte)
    ensures Pair(HexChar(b >> 4), HexChar(b & 15)) == Some(b)
  {}

  lemma ByteOfPair(hi: byte, lo: byte)
    ensures match Pair(hi, lo)
            case Some(b) => HexChar(b >> 4) == ToLower(hi) && HexChar(b & 15) == ToLower(lo)
            case None => true
  {}

  lemma HexStep(bytes: seq<byte>, b: byte)
    ensures Hex(bytes + [b]) == Hex(bytes) + [HexChar(b >> 4), HexChar(b & 15)]
  {
    hide HexChar;
    assert (bytes + [b])[..|bytes|] == bytes;
  }

  lemma UnhexStep(hex: Text, hi: byte, lo: byte, b: byte, bytes: seq<byte>)
    requires Unhex(hex) == Some(bytes) && Pair(hi, lo) == Some(b)
    ensures Unhex(hex + [hi, lo]) == Some(bytes + [b])
  {
    hide Pair;
    assert (hex + [hi, lo])[..|hex|] == hex;
  }

  lemma {:induction false} UnhexOfHex(bytes: seq<byte>)
    ensures Unhex(Hex(bytes)) == Some(bytes) && |Hex(bytes)| == 2 * |bytes|
  {
    if bytes == [] {
      UnhexEmpty();
    } else {
      hide Pair, HexChar, Unhex, Hex;
      var n := |bytes| - 1;
      var b := bytes[n];
      UnhexOfHex(bytes[..n]);
      assert bytes == bytes[..n] + [b];
      HexStep(bytes[..n], b);
      PairOfByte(b);
      UnhexStep(Hex(bytes[..n]), HexChar(b >> 4), HexChar(b & 15), b, bytes[..n]);
    }
  }

  /** What the last two digits add. */
  lemma UnhexEnd(hex: Text)
    requires Unhex(hex).Some? && hex != []
    ensures var n := |hex| - 2;
            && n >= 0 && Unhex(hex[..n]).Some? && Pair(hex[n], hex[n + 1]).Some?
            && Unhex(hex).value == Unhex(hex[..n]).value + [Pair(hex[n], hex[n + 1]).value]
  {
    hide Pair;
  }

  lemma LowerEnd(hex: Text)
    requires |hex| >= 2
    ensures var n := |hex| - 2;
            Lower(hex) == Lower(hex[..n]) + [ToLower(hex[n]), ToLower(hex[n + 1])]
  {
    hide ToLower;
  }

  lemma {:induction false} HexOfUnhex(hex: Text)
    requires Unhex(hex).Some?
    ensures Hex(Unhex(hex).value) == Lower(hex) && |hex| == 2 * |Unhex(hex).value|
  {
    if hex == [] {
      UnhexEmpty();
    } else {
      hide Pair, HexChar, ToLower, Hex, Unhex, Lower;
      UnhexEnd(hex);
      var n := |hex| - 2;
      HexOfUnhex(hex[..n]);
      ByteOfPair(hex[n], hex[n + 1]);
      HexStep(Unhex(hex[..n]).value, Pair(hex[n], hex[n + 1]).value);
      LowerEnd(hex);
    }
  }

  // ----- the entry points -----

  datatype KeyError = Decode(error: DecodeError) | NotAKey | EncodingFailed

  datatype KeyResult = Key(text: Text) | Rejected(error: KeyError)

  function HexOfKey(text: Text, hrp: Text): KeyResult {
    match Decoded(text, hrp)
    case Bytes(bytes) => Key(Hex(bytes))
    case Failed(error) => Rejected(Decode(error))
  }

  function NpubOfHex(hex: Text): KeyResult {
    match Unhex(hex)
    case None => Rejected(NotAKey)
    case Some(bytes) => if |bytes| != 32 then Rejected(NotAKey) else Key(Encoded(NPUB, bytes))
  }

  method DecodeNpubToHex(npub: Text) returns (result: KeyResult)
    ensures result == HexOfKey(npub, NPUB)
  {
    hide Decoded, Hex;
    var decoding := DecodeBech32_32Bytes(npub, NPUB);
    match decoding
    case Failed(error) => result := Rejected(Decode(error));
    case Bytes(bytes) =>
      var hex := BytesToHex(bytes);
      result := Key(hex);
  }

  method EncodeNpubFromHex(hexPubkey: Text) returns (result: KeyResult)
    ensures result == NpubOfHex(hexPubkey)
  {
    hide Encoded, Unhex;
    var bytes := HexToBytes(hexPubkey);
    if |bytes| != 32 {
      return Rejected(NotAKey);
    }
    var encoded := EncodeBech32_32Bytes(NPUB, bytes);
    EncodedIsLower(NPUB, bytes);
    if encoded == [] {
      return Rejected(EncodingFailed);
    }
    return Key(encoded);
  }

  method DecodeNsecToHex(nsec: Text) returns (result: KeyResult)
    ensures result == HexOfKey(nsec, NSEC)
  {
    hide Decoded, Hex;
    var decoding := DecodeBech32_32Bytes(nsec, NSEC);
    match decoding
    case Failed(error) => result := Rejected(Decode(error));
    case Bytes(bytes) =>
      var hex := BytesToHex(bytes);
      result := Key(hex);
  }

  /** A key has an npub string if and only if it is 64 digits. */
  lemma KeysOf64Digits(hex: Text)
    ensures NpubOfHex(hex).Key? <==> |hex| == 64 && forall i :: 0 <= i < |hex| ==> Nibble(hex[i]).Some?
    ensures !NpubOfHex(hex).Key? ==> NpubOfHex(hex) == Rejected(NotAKey)
  {
    hide Encoded, Unhex, Nibble;
    UnhexDomain(hex);
    if Unhex(hex).Some? {
      UnhexAt(hex, 0);
    }
  }

  /** A decoder's answer is passed on: the bytes in hexadecimal, or the error. */
  lemma AnswersPassOn(text: Text, hrp: Text, bytes: seq<byte>, error: DecodeError)
    ensures Decoded(text, hrp) == Bytes(bytes) ==>
              HexOfKey(text, hrp).Key? && Unhex(HexOfKey(text, hrp).text) == Some(bytes)
    ensures HexOfKey(text, hrp) == Rejected(Decode(error)) <==> Decoded(text, hrp) == Failed(error)
    ensures HexOfKey(text, hrp).Key? <==> Decoded(text, hrp).Bytes?
  {
    hide Decoded, Hex, Unhex;
    UnhexOfHex(bytes);
  }

  lemma PrefixesAreProper()
    ensures Proper(NPUB) && Proper(NSEC)
  {}

  /** Every hexadecimal key of 64 digits has an npub string, which decodes to the key in lower
      case. */
  lemma NpubRoundTrip(hex: Text)
    requires |hex| == 64 && Unhex(hex).Some?
    ensures NpubOfHex(hex).Key? && HexOfKey(NpubOfHex(hex).text, NPUB) == Key(Lower(hex))
    ensures |NpubOfHex(hex).text| == 63
  {
    hide Encoded, Decoded, Unhex, Hex, Proper;
    HexOfUnhex(hex);
    var bytes := Unhex(hex).value;
    PrefixesAreProper();
    AcceptedLanguage(NPUB, Encoded(NPUB, bytes), bytes);
    EncodedIsLower(NPUB, bytes);
  }

  /** Every string that decodes as an npub is the one its key encodes to, up to case. */
  lemma HexRoundTrip(npub: Text)
    requires NulFree(npub) && HexOfKey(npub, NPUB).Key?
    ensures NpubOfHex(HexOfKey(npub, NPUB).text) == Key(Lower(npub))
  {
    hide Encoded, Unhex, Hex, Proper, DecodedLower;
    var bytes := Decoded(npub, NPUB).bytes;
    PrefixesAreProper();
    AcceptedLanguage(NPUB, npub, bytes);
    EncodedIsLower(NPUB, bytes);
    CaseRoundTrip(Encoded(NPUB, bytes));
    UnhexOfHex(bytes);
  }

  /** A private key survives its nsec string, the decoder and the loader's own conversion. */
  lemma NsecRoundTrip(bytes: seq<byte>)
    requires |bytes| == 32
    ensures var key := HexOfKey(Encoded(NSEC, bytes), NSEC);
            key.Key? && |key.text| == 64 && Unhex(key.text) == Some(bytes)
  {
    hide Encoded, Decoded, Unhex, Hex, Proper;
    PrefixesAreProper();
    AcceptedLanguage(NSEC, Encoded(NSEC, bytes), bytes);
    EncodedIsLower(NSEC, bytes);
    UnhexOfHex(bytes);
  }
}
