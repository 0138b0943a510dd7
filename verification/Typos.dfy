/** What the checksum means for the person who types a key: three wrong characters, or any wrong
    characters within six in a row, never turn one accepted text without NUL into another. One wrong
    character never does, with NUL or without. */
module Typos {
  import opened Words
  import opened Checksum
  import opened Codewords
  import opened Distance
  import opened Regrouping
  import opened Bech32
  import opened Terminator

  /** The places where two texts differ. */
  function Typed(s: Text, t: Text): set<nat>
    requires |s| == |t|
  {
    set i: nat | i < |s| && s[i] != t[i]
  }

  /** An accepted text in lower case is its prefix and a word that verifies. */
  lemma AcceptedWord(hrp: Text, s: Text) returns (w: seq<byte>)
    requires Proper(hrp) && NulFree(s) && Decoded(s, hrp).Bytes?
    ensures |w| == 58 && Symbols(w) && Verifies(hrp, w)
    ensures Lower(s) == hrp + [SEPARATOR] + Chars(w)
  {
    hide Convert, Generated, Verifies, Decoded, Encoded, IsUpper, IsLower, ToUpper, ToLower, ValueToChar;
    var bytes := Decoded(s, hrp).bytes;
    AcceptedLanguage(hrp, s, bytes);
    EncodedIsLower(hrp, bytes);
    CaseRoundTrip(Encoded(hrp, bytes));
    var d, c := EncodedParts(hrp, bytes);
    GeneratorMeetsVerifier(hrp, d, c);
    w := d + c;
  }

  lemma CharsDiffer(v: byte, w: byte)
    requires v < 32 && w < 32
    ensures ValueToChar(v) == ValueToChar(w) <==> v == w
  {
    ValueOfChar(v);
    ValueOfChar(w);
  }

  lemma {:induction false} ShiftedCardinality(xs: set<nat>, ys: set<nat>, k: nat)
    requires forall x :: x in xs ==> x + k in ys
    ensures |xs| <= |ys|
    decreases |xs|
  {
    if x :| x in xs {
      ShiftedCardinality(xs - {x}, ys - {x + k}, k);
    }
  }

  /** The words of two accepted texts differ where the texts do. */
  lemma DifferentWords(hrp: Text, s: Text, t: Text) returns (v: seq<byte>, w: seq<byte>)
    requires Proper(hrp) && NulFree(s) && NulFree(t)
    requires Decoded(s, hrp).Bytes? && Decoded(t, hrp).Bytes?
    ensures |v| == |w| == 58 && Symbols(v) && Symbols(w) && Verifies(hrp, v) && Verifies(hrp, w)
    ensures |s| == |t| == |hrp| + 59
    ensures forall i :: 0 <= i < 58 ==> (v[i] != w[i] <==> i + |hrp| + 1 in Typed(Lower(s), Lower(t)))
    ensures v == w ==> Lower(s) == Lower(t)
  {
    hide Verifies, Decoded, ToLower, ValueToChar, Proper;
    v := AcceptedWord(hrp, s);
    w := AcceptedWord(hrp, t);
    forall i | 0 <= i < 58
      ensures v[i] != w[i] <==> i + |hrp| + 1 in Typed(Lower(s), Lower(t))
    {
      CharsDiffer(v[i], w[i]);
      assert Lower(s)[i + |hrp| + 1] == Chars(v)[i] && Lower(t)[i + |hrp| + 1] == Chars(w)[i];
    }
  }

  /** Two texts without NUL that are accepted under the same prefix are equal, case aside, or differ
      in at least four places. */
  lemma FourTypos(hrp: Text, s: Text, t: Text)
    requires Proper(hrp) && NulFree(s) && NulFree(t)
    requires Decoded(s, hrp).Bytes? && Decoded(t, hrp).Bytes? && Lower(s) != Lower(t)
    ensures |s| == |t| && |Typed(Lower(s), Lower(t))| >= 4
  {
    hide Verifies, Decoded, Lower, Proper, NulFree, Typed;
    var v, w := DifferentWords(hrp, s, t);
    MinimumDistance(hrp, v, w);
    ShiftedCardinality(Differences(v, w), Typed(Lower(s), Lower(t)), |hrp| + 1);
  }

  /** Nor do all the differences of two such texts, without NUL, lie within six characters in a row. */
  lemma SpreadTypos(hrp: Text, s: Text, t: Text, p: nat)
    requires Proper(hrp) && NulFree(s) && NulFree(t)
    requires Decoded(s, hrp).Bytes? && Decoded(t, hrp).Bytes? && Lower(s) != Lower(t)
    ensures |s| == |t| && exists i :: i in Typed(Lower(s), Lower(t)) && !(p <= i < p + 6)
  {
    hide Verifies, Decoded, Lower, Proper, NulFree, Typed;
    var v, w := DifferentWords(hrp, s, t);
    var k := |hrp| + 1;
    var i := OutsideWindow(hrp, v, w, if p > k then p - k else 0);
    assert i + |hrp| + 1 in Typed(Lower(s), Lower(t));
  }

  lemma OutsideWindow(hrp: Text, v: seq<byte>, w: seq<byte>, p: nat) returns (i: nat)
    requires |v| == |w| && Symbols(v) && Symbols(w) && Verifies(hrp, v) && Verifies(hrp, w) && v != w
    ensures i < |v| && v[i] != w[i] && !(p <= i < p + 6)
  {
    hide Verifies;
    if forall j :: 0 <= j < |v| && !(p <= j < p + 6) ==> v[j] == w[j] {
      BurstDetected(hrp, v, w, p);
      assert false;
    }
    i :| 0 <= i < |v| && v[i] != w[i] && !(p <= i < p + 6);
  }

  // ----- texts with NUL -----

  /** The symbols that the characters of an accepted text amount to make a word that verifies. */
  lemma AcceptedValues(hrp: Text, s: Text) returns (v: seq<byte>)
    requires hrp != [] && Decoded(s, hrp).Bytes?
    ensures |s| == |hrp| + 59 && Lower(s)[..|hrp| + 1] == hrp + [SEPARATOR] && InCharset(Lower(s)[|hrp| + 1..])
    ensures v == Values(Lower(s)[|hrp| + 1..]) && |v| == 58 && Readable(v)
    ensures v[0] != 32 && Symbols(Carried(v)) && Verifies(hrp, Carried(v))
  {
    hide Convert, Generated, Verifies, Decoded, Carried, Carry, Nudged, ToLower, CharToValue;
    var bytes := Decoded(s, hrp).bytes;
    AcceptedTexts(hrp, s, bytes);
    v := Values(Lower(s)[|hrp| + 1..]);
    ValuesAreReadable(Lower(s)[|hrp| + 1..]);
    PayloadOf32Bytes(bytes);
    var d, c := v[..52], v[52..];
    assert v == d + c;
    CarriedSymbols(v);
    CarriedSymbols(c);
    CarriedParts(d, c);
    GeneratorMeetsVerifier(hrp, Nudged(d, Carry(c, 0)), Carried(c));
  }

  lemma CarriedAt(v: seq<byte>, i: nat)
    requires i < |v|
    ensures Carried(v)[i] == XorByte(LowBits(v[i]), Carry(v, i + 1))
  {}

  lemma CarriedParts(d: seq<byte>, c: seq<byte>)
    requires d != [] && c != [] && Symbols(d)
    ensures Carried(d + c) == Nudged(d, Carry(c, 0)) + Carried(c)
  {
    hide XorByte, LowBits, Carried;
    forall i | 0 <= i < |d + c|
      ensures Carried(d + c)[i] == (Nudged(d, Carry(c, 0)) + Carried(c))[i]
    {
      CarriedAt(d + c, i);
      if i < |d| {
        LowBitsOf(d[i]);
        assert (d + c)[i] == d[i];
      } else {
        CarriedAt(c, i - |d|);
        assert Carry(d + c, i + 1) == Carry(c, i - |d| + 1);
      }
    }
  }

  lemma LowBitsOf(v: byte)
    ensures v < 32 ==> LowBits(v) == v && XorByte(v, 0) == v
  {}

  /** Values that differ in a single place amount to symbols that differ there or right before. */
  lemma NotOnePlace(v: seq<byte>, w: seq<byte>, i: nat)
    requires |v| == |w| && Readable(v) && Readable(w) && i < |v| && v[i] != w[i] && v[0] != 32 && w[0] != 32
    requires forall k :: 0 <= k < |v| && k != i ==> v[k] == w[k]
    ensures Carried(v) != Carried(w)
    ensures forall k :: 0 <= k < |v| && !(i - 1 <= k <= i) ==> Carried(v)[k] == Carried(w)[k]
  {
    hide XorByte, LowBits, Carried, Carry;
    CarriedAt(v, i);
    CarriedAt(w, i);
    CarryOf(v, w, i);
    if (v[i] == 32) != (w[i] == 32) {
      CarriedAt(v, i - 1);
      CarriedAt(w, i - 1);
      DifferentCarries(v[i - 1], Carry(v, i), Carry(w, i));
    } else {
      DifferentValues(v[i], w[i], Carry(v, i + 1));
    }
    forall k | 0 <= k < |v| && !(i - 1 <= k <= i)
      ensures Carried(v)[k] == Carried(w)[k]
    {
      CarriedAt(v, k);
      CarriedAt(w, k);
      SameCarry(v, w, k + 1);
    }
  }

  lemma CarryOf(v: seq<byte>, w: seq<byte>, i: nat)
    requires |v| == |w| && i < |v| && forall k :: 0 <= k < |v| && k != i ==> v[k] == w[k]
    ensures Carry(v, i + 1) == Carry(w, i + 1)
    ensures (v[i] == 32) != (w[i] == 32) ==> Carry(v, i) != Carry(w, i)
  {}

  lemma SameCarry(v: seq<byte>, w: seq<byte>, i: nat)
    requires |v| == |w| && (i < |v| ==> v[i] == w[i])
    ensures Carry(v, i) == Carry(w, i)
  {}

  lemma DifferentValues(x: byte, y: byte, u: byte)
    requires x <= 32 && y <= 32 && x != y && (x == 32) == (y == 32)
    ensures XorByte(LowBits(x), u) != XorByte(LowBits(y), u)
  {}

  lemma DifferentCarries(x: byte, t: byte, u: byte)
    requires t != u
    ensures XorByte(LowBits(x), t) != XorByte(LowBits(x), u)
  {}

  /** Any two texts that are accepted under the same prefix, with NUL or without, are equal, case
      aside, or differ in at least two places. */
  lemma TwoTypos(hrp: Text, s: Text, t: Text)
    requires hrp != [] && Decoded(s, hrp).Bytes? && Decoded(t, hrp).Bytes? && Lower(s) != Lower(t)
    ensures |s| == |t| && |Typed(Lower(s), Lower(t))| >= 2
  {
    hide Decoded, Verifies, Carried, ToLower, CharToValue, Readable;
    var v := AcceptedValues(hrp, s);
    var w := AcceptedValues(hrp, t);
    var k := |hrp| + 1;
    var a, b := Lower(s), Lower(t);
    var typed := Typed(a, b);
    assert a == a[..k] + a[k..] && b == b[..k] + b[k..];
    var i :| i in typed by { SomeTypo(a, b); }
    forall j | 0 <= j < 58
      ensures v[j] == w[j] <==> j + k !in typed
    {
      SameValue(a[j + k], b[j + k]);
    }
    if typed == {i} {
      NotOnePlace(v, w, i - k);
      BurstDetected(hrp, Carried(v), Carried(w), if i > k then i - k - 1 else 0);
      assert false;
    }
    TwoElements(typed, i);
  }

  lemma SomeTypo(a: Text, b: Text)
    requires |a| == |b| && a != b
    ensures exists i :: i in Typed(a, b)
  {
    var i :| 0 <= i < |a| && a[i] != b[i];
    assert i in Typed(a, b);
  }

  lemma SameValue(x: byte, y: byte)
    requires CharToValue(x).Some? && CharToValue(y).Some?
    ensures CharToValue(x) == CharToValue(y) <==> x == y
  {
    hide CharToValue;
    CharOfValue(x);
    CharOfValue(y);
  }

  lemma TwoElements(xs: set<nat>, i: nat)
    requires i in xs && xs != {i}
    ensures |xs| >= 2
  {
    assert xs == {i} + (xs - {i});
  }
}
