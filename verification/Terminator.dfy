/** What the decoder makes of NUL characters. The character search finds the terminator of the
    character set, so that NUL is read as the value 32, which spills into the symbol before it. This
    describes exactly which texts are accepted, with NUL or without. */
module Terminator {
  import opened Options
  import opened Words
  import opened Checksum
  import opened Codewords
  import opened Regrouping
  import opened Bech32

  /** The bit that value i spills into the value before it. */
  function Carry(c: seq<byte>, i: nat): (t: byte)
    ensures t == 0 || t == 1
  {
    if i < |c| && c[i] == 32 then 1 else 0
  }

  function LowBits(v: byte): byte {
    v & 31
  }

  /** The symbols that values up to 32 amount to. */
  function Carried(c: seq<byte>): (r: seq<byte>)
    ensures |r| == |c|
  {
    seq(|c|, i requires 0 <= i < |c| => XorByte(LowBits(c[i]), Carry(c, i + 1)))
  }

  predicate Readable(c: seq<byte>) {
    forall i :: 0 <= i < |c| ==> c[i] <= 32
  }

  lemma SmallValue(t: word, b: byte)
    requires t < 0x2000000
    ensures Step(t, b) == Xor(t << 5, b as word)
  {
    hide *;
    SmallStep(t, 0);
    StepIs(t, 0);
    StepIs(t, b);
    XorZero(Advance(t), 0);
    PlainShift(t);
  }

  lemma PlainShift(t: word)
    ensures (t << 5) ^ (0 as word) == t << 5
    ensures 0 as word == 0
  {}

  lemma SpillBits(v: byte, t: byte, u: byte)
    requires v <= 32 && t == (if v == 32 then 1 else 0) && (u == 0 || u == 1)
    ensures Xor((t as word) << 5, XorByte(v, XorByte(LowBits(v), u)) as word) == u as word
    ensures XorByte(XorByte(LowBits(v), u), XorByte(v, XorByte(LowBits(v), u))) == v
    ensures XorByte(LowBits(v), u) < 32
  {}

  lemma StepCarries(f: word, v: byte, t: byte, u: byte)
    requires v <= 32 && t == (if v == 32 then 1 else 0) && (u == 0 || u == 1)
    ensures Step(Xor(f, t as word), v) == Xor(Step(f, XorByte(LowBits(v), u)), u as word)
  {
    hide Xor, XorByte, Step, LowBits;
    var a := XorByte(LowBits(v), u);
    SpillBits(v, t, u);
    SmallValue(t as word, XorByte(v, a));
    StepAdds(f, t as word, a, XorByte(v, a));
  }

  lemma {:induction false} FeedCarries(r: word, c: seq<byte>, n: nat)
    requires n <= |c| && Readable(c)
    ensures Feed(r, c[..n]) == Xor(Feed(Xor(r, Carry(c, 0) as word), Carried(c)[..n]), Carry(c, n) as word)
  {
    hide Xor, XorByte, Step, LowBits;
    var t := Carry(c, 0) as word;
    if n == 0 {
      XorTwice(r, t);
    } else {
      var m := n - 1;
      FeedCarries(r, c, m);
      FeedNext(r, c, m);
      FeedNext(Xor(r, t), Carried(c), m);
      StepCarries(Feed(Xor(r, t), Carried(c)[..m]), c[m], Carry(c, m), Carry(c, n));
    }
  }

  lemma XorTwice(r: word, t: word)
    ensures Xor(Xor(r, t), t) == r
  {}

  lemma CarriedSymbols(c: seq<byte>)
    requires Readable(c)
    ensures Symbols(Carried(c))
  {
    hide XorByte, LowBits;
    forall i | 0 <= i < |c|
      ensures Carried(c)[i] < 32
    {
      SpillBits(c[i], if c[i] == 32 then 1 else 0, Carry(c, i + 1));
    }
  }

  /** The symbols with a bit spilled into the last of them. */
  function Nudged(d: seq<byte>, t: byte): (r: seq<byte>)
    requires d != []
    ensures |r| == |d|
  {
    d[..|d| - 1] + [XorByte(d[|d| - 1], t)]
  }

  lemma ResidueNudged(hrp: Text, d: seq<byte>, t: byte)
    requires d != [] && (t == 0 || t == 1)
    ensures Residue(hrp, Nudged(d, t)) == Xor(Residue(hrp, d), t as word)
  {
    hide Residue, Xor, XorByte, Step;
    var n := |d| - 1;
    var r := Residue(hrp, d[..n]);
    ResidueAppends(hrp, d[..n], [d[n]]);
    ResidueAppends(hrp, d[..n], [XorByte(d[n], t)]);
    assert d == d[..n] + [d[n]];
    FeedOne(r, d[n]);
    FeedOne(r, XorByte(d[n], t));
    StepAdds(r, 0, d[n], t);
    XorZero(r, 0);
    SmallValue(0, t);
    XorZero(t as word, 0);
  }

  lemma FeedOne(r: word, v: byte)
    ensures Feed(r, [v]) == Step(r, v)
  {
    assert [v][..0] == [];
  }

  /** A checksum with values up to 32 verifies if and only if the symbols it amounts to are the
      checksum for the register before it, with the bit spilled into that. When there is data, these
      are the symbols that the generator computes for the data with the bit spilled into it. */
  lemma VerifiesCarried(hrp: Text, d: seq<byte>, c: seq<byte>)
    requires |c| == 6 && Readable(c)
    ensures Verifies(hrp, d + c) <==> Carried(c) == ChecksumFrom(Xor(Residue(hrp, d), Carry(c, 0) as word))
    ensures d != [] ==>
              ChecksumFrom(Xor(Residue(hrp, d), Carry(c, 0) as word)) == Generated(hrp, Nudged(d, Carry(c, 0)))
  {
    hide Residue, Xor, Generated, Carried, Carry, Nudged, ChecksumFrom, Feed;
    var t := Carry(c, 0);
    var r := Xor(Residue(hrp, d), t as word);
    ResidueAppends(hrp, d, c);
    FeedCarries(Residue(hrp, d), c, 6);
    assert c[..6] == c && Carried(c)[..6] == Carried(c);
    assert Carry(c, 6) == 0 by { NoCarryOut(c); }
    XorZero(Feed(r, Carried(c)), 0);
    CarriedSymbols(c);
    ResidueFits(hrp, d);
    NudgedFits(Residue(hrp, d), t);
    OneChecksum(r, Carried(c));
    if d != [] {
      ResidueNudged(hrp, d, t);
      GeneratedFrom(hrp, Nudged(d, t));
    }
  }

  lemma NudgedFits(r: word, t: byte)
    requires r < 0x40000000 && t <= 1
    ensures Xor(r, t as word) < 0x40000000
  {}

  lemma NoCarryOut(c: seq<byte>)
    ensures Carry(c, |c|) == 0
  {}

  /** The texts in lower case that are accepted for some bytes: 52 characters spell the payload, and
      the last six amount to the checksum of the payload, with the bit spilled into it. */
  predicate Spells(hrp: Text, n: Text, bytes: seq<byte>) {
    && |bytes| == 32
    && |n| == |hrp| + 59
    && n[..|hrp| + 1] == hrp + [SEPARATOR]
    && InCharset(n[|hrp| + 1..])
    && var data := Values(n[|hrp| + 1..]);
       var d, c := data[..52], data[52..];
       Convert(bytes, 8, 5, true) == Some(d) && Carried(c) == Generated(hrp, Nudged(d, Carry(c, 0)))
  }

  lemma ValuesAreReadable(s: Text)
    requires InCharset(s)
    ensures Readable(Values(s))
    ensures forall i :: 0 <= i < |s| ==> s[i] != SEPARATOR
  {
    hide CharToValue;
    forall i | 0 <= i < |s|
      ensures CharToValue(s[i]).value <= 32 && s[i] != SEPARATOR
    {
      ReadableChar(s[i]);
    }
  }

  lemma ReadableChar(c: byte)
    requires CharToValue(c).Some?
    ensures CharToValue(c).value <= 32 && c != SEPARATOR
  {}

  lemma AcceptedSpells(hrp: Text, n: Text, bytes: seq<byte>)
    requires DecodedLower(n, hrp) == Bytes(bytes)
    ensures Spells(hrp, n, bytes)
  {
    hide Convert, Generated, Verifies, LastSeparator, CharToValue, Carried, Carry, Nudged;
    var sep := LastSeparator(n);
    LastSeparatorIs(n);
    var tail := n[sep + 1..];
    ValuesAreReadable(tail);
    var data := Values(tail);
    var d, c := data[..|data| - 6], data[|data| - 6..];
    UnpadThenPad(d, 5, 8);
    PayloadOf32Bytes(bytes);
    assert data == d + c;
    VerifiesCarried(hrp, d, c);
  }

  lemma SpelledIsAccepted(hrp: Text, n: Text, bytes: seq<byte>)
    requires hrp != [] && Spells(hrp, n, bytes)
    ensures DecodedLower(n, hrp) == Bytes(bytes)
  {
    hide Convert, Generated, Verifies, LastSeparator, CharToValue, Carried, Carry, Nudged;
    var tail := n[|hrp| + 1..];
    ValuesAreReadable(tail);
    LastSeparatorBefore(hrp, tail);
    assert n == hrp + [SEPARATOR] + tail;
    var data := Values(tail);
    var d, c := data[..52], data[52..];
    PayloadOf32Bytes(bytes);
    assert data == d + c;
    VerifiesCarried(hrp, d, c);
  }

  /** The decoder's language, for every text: one case, and a spelling of the bytes. */
  lemma AcceptedTexts(hrp: Text, s: Text, bytes: seq<byte>)
    requires hrp != []
    ensures Decoded(s, hrp) == Bytes(bytes) <==> !MixedCase(s) && Spells(hrp, Lower(s), bytes)
  {
    hide DecodedLower, Spells, MixedCase, ToLower;
    if Decoded(s, hrp) == Bytes(bytes) {
      AcceptedSpells(hrp, Lower(s), bytes);
    }
    if Spells(hrp, Lower(s), bytes) {
      SpelledIsAccepted(hrp, Lower(s), bytes);
      SpelledNotEmpty(hrp, Lower(s), bytes);
    }
  }

  lemma SpelledNotEmpty(hrp: Text, n: Text, bytes: seq<byte>)
    requires Spells(hrp, n, bytes)
    ensures n != []
  {}
}
