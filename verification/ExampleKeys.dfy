/** The example keys of NIP-19 (section "Examples"): what is written for them, character by character. */
module ExampleKeys {
  import opened Options
  import opened Words
  import opened Checksum
  import opened Codewords
  import opened Regrouping
  import opened RadixValues
  import opened Bech32
  import opened Nip19
  import opened ZeroKey

  predicate AsciiText(s: string) {
    forall i :: 0 <= i < |s| ==> s[i] < 128 as char
  }

  /** The bytes of a text in ASCII. */
  function Ascii(s: string): (t: Text)
    requires AsciiText(s)
    ensures |t| == |s|
  {
    seq(|s|, i requires 0 <= i < |s| => s[i] as byte)
  }

  lemma AsciiAppends(s: string, t: string)
    requires AsciiText(s) && AsciiText(t)
    ensures AsciiText(s + t) && Ascii(s + t) == Ascii(s) + Ascii(t)
  {}

  // ----- stretches of symbols -----

  /** Bytes and symbols are the same number, the symbols are written as the text, and take the register
      from one value to another. */
  predicate Matches(bytes: seq<byte>, symbols: seq<byte>, text: string, before: word, after: word) {
    && AsciiText(text)
    && 8 * |bytes| == 5 * |symbols| && Symbols(symbols)
    && Number(bytes, 8) == Number(symbols, 5)
    && Chars(symbols) == Ascii(text)
    && Feed(before, symbols) == after
  }

  lemma {:induction false} NumberAppends(vs: seq<byte>, us: seq<byte>, w: nat)
    ensures Number(vs + us, w) == Number(vs, w) * PowerOf2(w * |us|) + Number(us, w)
  {
    hide PowerOf2, Number;
    if us == [] {
      assert vs + us == vs;
      ZerothPower(w);
      NumberOfNothing(w);
    } else {
      var n := |us| - 1;
      var before, u := us[..n], us[n];
      NumberAppends(vs, before, w);
      assert vs + us == (vs + before) + [u] && us == before + [u];
      NumberSnoc(vs + before, u, w);
      NumberSnoc(before, u, w);
      PowersAdd(w * n, w);
      OneMore(w, n);
      Distributes(Number(vs, w), PowerOf2(w * n), Number(before, w), PowerOf2(w));
    }
  }

  lemma ZerothPower(w: nat)
    ensures PowerOf2(w * 0) == 1
  {}

  lemma Distributes(a: nat, p: nat, b: nat, q: nat)
    ensures (a * p + b) * q == a * (p * q) + b * q
  {
    assert (a * p) * q == a * (p * q);
  }

  lemma CharsAppend(vs: seq<byte>, us: seq<byte>)
    ensures Chars(vs + us) == Chars(vs) + Chars(us)
  {
    hide ValueToChar;
  }

  lemma MatchesAppends(bs: seq<byte>, ss: seq<byte>, text: string, before: word, between: word,
                       cs: seq<byte>, us: seq<byte>, text': string, after: word)
    requires Matches(bs, ss, text, before, between) && Matches(cs, us, text', between, after)
    ensures Matches(bs + cs, ss + us, text + text', before, after)
  {
    hide Number, Chars, Feed, Ascii, AsciiText, PowerOf2;
    NumberAppends(bs, cs, 8);
    NumberAppends(ss, us, 5);
    assert 8 * |cs| == 5 * |us|;
    CharsAppend(ss, us);
    AsciiAppends(text, text');
    FeedAppends(before, ss, us);
  }

  /** One symbol fed in. */
  function Fed(c: word, v: byte): word {
    Xor(Round(c), v as word)
  }

  function FedFour(c: word, v0: byte, v1: byte, v2: byte, v3: byte): word {
    Fed(Fed(Fed(Fed(c, v0), v1), v2), v3)
  }

  lemma FedIsStep(c: word, v: byte)
    ensures Fed(c, v) == Step(c, v)
  {
    hide Round, Step, Xor;
    StepIsRound(c, v);
  }

  lemma FourSteps(c: word, v0: byte, v1: byte, v2: byte, v3: byte)
    ensures Feed(c, [v0, v1, v2, v3]) == FedFour(c, v0, v1, v2, v3)
  {
    hide Fed, Step;
    FedIsStep(c, v0);
    FedIsStep(Fed(c, v0), v1);
    FedIsStep(Fed(Fed(c, v0), v1), v2);
    FedIsStep(Fed(Fed(Fed(c, v0), v1), v2), v3);
    EmptyFeed(c);
    var vs := [v0, v1, v2, v3];
    assert vs[..0] == [] && vs[..4] == vs;
    FeedNext(c, vs, 0);
    FeedNext(c, vs, 1);
    FeedNext(c, vs, 2);
    FeedNext(c, vs, 3);
  }

  function ThreeBytes(b0: byte, b1: byte, b2: byte): nat {
    (b0 as int * 256 + b1 as int) * 256 + b2 as int
  }

  function FiveBytes(b0: byte, b1: byte, b2: byte, b3: byte, b4: byte): nat {
    (ThreeBytes(b0, b1, b2) * 256 + b3 as int) * 256 + b4 as int
  }

  function FourSymbols(v0: byte, v1: byte, v2: byte, v3: byte): nat {
    ((v0 as int * 32 + v1 as int) * 32 + v2 as int) * 32 + v3 as int
  }

  lemma Powers()
    ensures PowerOf2(5) == 32 && PowerOf2(8) == 256 && PowerOf2(20) == 0x100000
  {
    assert PowerOf2(2) == 4;
    assert PowerOf2(4) == 16;
    assert PowerOf2(6) == 64;
    PowersAdd(5, 5);
    PowersAdd(10, 10);
  }

  lemma NumberOfFour(v0: byte, v1: byte, v2: byte, v3: byte)
    ensures Number([v0, v1, v2, v3], 5) == FourSymbols(v0, v1, v2, v3)
  {
    hide PowerOf2, Number;
    Powers();
    NumberOfNothing(5);
    NumberSnoc([], v0, 5);
    NumberSnoc([v0], v1, 5);
    NumberSnoc([v0, v1], v2, 5);
    NumberSnoc([v0, v1, v2], v3, 5);
    assert [] + [v0] == [v0] && [v0] + [v1] == [v0, v1] && [v0, v1] + [v2] == [v0, v1, v2];
    assert [v0, v1, v2] + [v3] == [v0, v1, v2, v3];
  }

  lemma NumberOfEight(s0: byte, s1: byte, s2: byte, s3: byte, s4: byte, s5: byte, s6: byte, s7: byte)
    ensures Number([s0, s1, s2, s3, s4, s5, s6, s7], 5)
            == FourSymbols(s0, s1, s2, s3) * 0x100000 + FourSymbols(s4, s5, s6, s7)
  {
    hide PowerOf2, Number, FourSymbols;
    Powers();
    NumberAppends([s0, s1, s2, s3], [s4, s5, s6, s7], 5);
    assert [s0, s1, s2, s3] + [s4, s5, s6, s7] == [s0, s1, s2, s3, s4, s5, s6, s7];
    NumberOfFour(s0, s1, s2, s3);
    NumberOfFour(s4, s5, s6, s7);
  }

  lemma NumberOfThree(b0: byte, b1: byte, b2: byte)
    ensures Number([b0, b1, b2], 8) == ThreeBytes(b0, b1, b2)
  {
    hide PowerOf2, Number;
    Powers();
    NumberOfNothing(8);
    NumberSnoc([], b0, 8);
    NumberSnoc([b0], b1, 8);
    NumberSnoc([b0, b1], b2, 8);
    assert [] + [b0] == [b0] && [b0] + [b1] == [b0, b1] && [b0, b1] + [b2] == [b0, b1, b2];
  }

  lemma NumberOfFive(b0: byte, b1: byte, b2: byte, b3: byte, b4: byte)
    ensures Number([b0, b1, b2, b3, b4], 8) == FiveBytes(b0, b1, b2, b3, b4)
  {
    hide PowerOf2, Number, ThreeBytes;
    Powers();
    NumberOfThree(b0, b1, b2);
    NumberSnoc([b0, b1, b2], b3, 8);
    NumberSnoc([b0, b1, b2, b3], b4, 8);
    assert [b0, b1, b2] + [b3] == [b0, b1, b2, b3] && [b0, b1, b2, b3] + [b4] == [b0, b1, b2, b3, b4];
  }

  /** A symbol is written as a character. */
  predicate Writes(v: byte, c: char) {
    v < 32 && c < 128 as char && ValueToChar(v) == c as byte
  }

  lemma Letters0()
    ensures Writes(0, 'q') && Writes(1, 'p') && Writes(2, 'z') && Writes(3, 'r')
  {}

  lemma Letters4()
    ensures Writes(4, 'y') && Writes(5, '9') && Writes(6, 'x') && Writes(7, '8')
  {}

  lemma Letters8()
    ensures Writes(8, 'g') && Writes(9, 'f') && Writes(10, '2') && Writes(11, 't')
  {}

  lemma Letters12()
    ensures Writes(12, 'v') && Writes(13, 'd') && Writes(14, 'w') && Writes(15, '0')
  {}

  lemma Letters16()
    ensures Writes(16, 's') && Writes(17, '3') && Writes(18, 'j') && Writes(19, 'n')
  {}

  lemma Letters20()
    ensures Writes(20, '5') && Writes(21, '4') && Writes(22, 'k') && Writes(23, 'h')
  {}

  lemma Letters24()
    ensures Writes(24, 'c') && Writes(25, 'e') && Writes(26, '6') && Writes(27, 'm')
  {}

  lemma Letters28()
    ensures Writes(28, 'u') && Writes(29, 'a') && Writes(30, '7') && Writes(31, 'l')
  {}

  lemma Letters()
    ensures Writes(0, 'q') && Writes(1, 'p') && Writes(2, 'z') && Writes(3, 'r')
    ensures Writes(4, 'y') && Writes(5, '9') && Writes(6, 'x') && Writes(7, '8')
    ensures Writes(8, 'g') && Writes(9, 'f') && Writes(10, '2') && Writes(11, 't')
    ensures Writes(12, 'v') && Writes(13, 'd') && Writes(14, 'w') && Writes(15, '0')
    ensures Writes(16, 's') && Writes(17, '3') && Writes(18, 'j') && Writes(19, 'n')
    ensures Writes(20, '5') && Writes(21, '4') && Writes(22, 'k') && Writes(23, 'h')
    ensures Writes(24, 'c') && Writes(25, 'e') && Writes(26, '6') && Writes(27, 'm')
    ensures Writes(28, 'u') && Writes(29, 'a') && Writes(30, '7') && Writes(31, 'l')
  {
    hide Writes;
    Letters0();
    Letters4();
    Letters8();
    Letters12();
    Letters16();
    Letters20();
    Letters24();
    Letters28();
  }

  /** Four symbols are written as four characters. */
  predicate Spelled(v0: byte, v1: byte, v2: byte, v3: byte, c0: char, c1: char, c2: char, c3: char) {
    Writes(v0, c0) && Writes(v1, c1) && Writes(v2, c2) && Writes(v3, c3)
  }

  lemma OneChar(v: byte, c: char)
    requires Writes(v, c)
    ensures Symbols([v]) && AsciiText([c]) && Chars([v]) == Ascii([c])
  {
    hide ValueToChar;
    assert Chars([v])[0] == Ascii([c])[0];
  }

  lemma JoinChars(vs: seq<byte>, cs: string, us: seq<byte>, ds: string)
    requires Symbols(vs) && AsciiText(cs) && Chars(vs) == Ascii(cs)
    requires Symbols(us) && AsciiText(ds) && Chars(us) == Ascii(ds)
    ensures Symbols(vs + us) && AsciiText(cs + ds) && Chars(vs + us) == Ascii(cs + ds)
  {
    hide Chars, AsciiText, Ascii;
    CharsAppend(vs, us);
    AsciiAppends(cs, ds);
  }

  lemma TwoChars(v0: byte, v1: byte, c0: char, c1: char)
    requires Writes(v0, c0) && Writes(v1, c1)
    ensures Symbols([v0, v1]) && AsciiText([c0, c1]) && Chars([v0, v1]) == Ascii([c0, c1])
  {
    hide Writes, Chars, Ascii, AsciiText, Symbols;
    OneChar(v0, c0);
    OneChar(v1, c1);
    JoinChars([v0], [c0], [v1], [c1]);
    assert [v0] + [v1] == [v0, v1] && [c0] + [c1] == [c0, c1];
  }

  lemma FourChars(v0: byte, v1: byte, v2: byte, v3: byte, c0: char, c1: char, c2: char, c3: char)
    requires Spelled(v0, v1, v2, v3, c0, c1, c2, c3)
    ensures Symbols([v0, v1, v2, v3]) && AsciiText([c0, c1, c2, c3])
    ensures Chars([v0, v1, v2, v3]) == Ascii([c0, c1, c2, c3])
  {
    hide Writes, Chars, Ascii, AsciiText, Symbols;
    TwoChars(v0, v1, c0, c1);
    TwoChars(v2, v3, c2, c3);
    JoinChars([v0, v1], [c0, c1], [v2, v3], [c2, c3]);
    assert [v0, v1] + [v2, v3] == [v0, v1, v2, v3] && [c0, c1] + [c2, c3] == [c0, c1, c2, c3];
  }

  lemma SixChars(v0: byte, v1: byte, v2: byte, v3: byte, v4: byte, v5: byte,
                 c0: char, c1: char, c2: char, c3: char, c4: char, c5: char)
    requires Spelled(v0, v1, v2, v3, c0, c1, c2, c3) && Writes(v4, c4) && Writes(v5, c5)
    ensures AsciiText([c0, c1, c2, c3, c4, c5])
    ensures Chars([v0, v1, v2, v3, v4, v5]) == Ascii([c0, c1, c2, c3, c4, c5])
  {
    hide Writes, Spelled, Chars, Ascii, AsciiText, Symbols;
    FourChars(v0, v1, v2, v3, c0, c1, c2, c3);
    TwoChars(v4, v5, c4, c5);
    JoinChars([v0, v1, v2, v3], [c0, c1, c2, c3], [v4, v5], [c4, c5]);
    assert [v0, v1, v2, v3] + [v4, v5] == [v0, v1, v2, v3, v4, v5];
    assert [c0, c1, c2, c3] + [c4, c5] == [c0, c1, c2, c3, c4, c5];
  }

  lemma EightChars(s0: byte, s1: byte, s2: byte, s3: byte, s4: byte, s5: byte, s6: byte, s7: byte,
                   c0: char, c1: char, c2: char, c3: char, c4: char, c5: char, c6: char, c7: char)
    requires Spelled(s0, s1, s2, s3, c0, c1, c2, c3) && Spelled(s4, s5, s6, s7, c4, c5, c6, c7)
    ensures Symbols([s0, s1, s2, s3, s4, s5, s6, s7]) && AsciiText([c0, c1, c2, c3, c4, c5, c6, c7])
    ensures Chars([s0, s1, s2, s3, s4, s5, s6, s7]) == Ascii([c0, c1, c2, c3, c4, c5, c6, c7])
  {
    hide Writes, Spelled, Chars, Ascii, AsciiText, Symbols;
    FourChars(s0, s1, s2, s3, c0, c1, c2, c3);
    FourChars(s4, s5, s6, s7, c4, c5, c6, c7);
    JoinChars([s0, s1, s2, s3], [c0, c1, c2, c3], [s4, s5, s6, s7], [c4, c5, c6, c7]);
    assert [s0, s1, s2, s3] + [s4, s5, s6, s7] == [s0, s1, s2, s3, s4, s5, s6, s7];
    assert [c0, c1, c2, c3] + [c4, c5, c6, c7] == [c0, c1, c2, c3, c4, c5, c6, c7];
  }

  /** Five bytes are eight symbols. */
  lemma BlockMatches(b0: byte, b1: byte, b2: byte, b3: byte, b4: byte,
                     s0: byte, s1: byte, s2: byte, s3: byte, s4: byte, s5: byte, s6: byte, s7: byte,
                     c0: char, c1: char, c2: char, c3: char, c4: char, c5: char, c6: char, c7: char,
                     before: word, between: word, after: word)
    requires FiveBytes(b0, b1, b2, b3, b4) == FourSymbols(s0, s1, s2, s3) * 0x100000 + FourSymbols(s4, s5, s6, s7)
    requires Spelled(s0, s1, s2, s3, c0, c1, c2, c3) && Spelled(s4, s5, s6, s7, c4, c5, c6, c7)
    requires FedFour(before, s0, s1, s2, s3) == between && FedFour(between, s4, s5, s6, s7) == after
    ensures Matches([b0, b1, b2, b3, b4], [s0, s1, s2, s3, s4, s5, s6, s7],
                    [c0, c1, c2, c3, c4, c5, c6, c7], before, after)
  {
    hide FiveBytes, FourSymbols, Spelled, FedFour, Number, Chars, Ascii, AsciiText, Feed, Symbols;
    var front, back, all := [s0, s1, s2, s3], [s4, s5, s6, s7], [s0, s1, s2, s3, s4, s5, s6, s7];
    assert all == front + back;
    NumberOfFive(b0, b1, b2, b3, b4);
    NumberOfEight(s0, s1, s2, s3, s4, s5, s6, s7);
    EightChars(s0, s1, s2, s3, s4, s5, s6, s7, c0, c1, c2, c3, c4, c5, c6, c7);
    FourSteps(before, s0, s1, s2, s3);
    FourSteps(between, s4, s5, s6, s7);
    FeedAppends(before, front, back);
  }

  // ----- a whole key -----

  /** 32 bytes are 48 symbols and four more, with four bits of padding; six zeros after them make the
      checksum. */
  lemma KeyIs(hrp: Text, bs: seq<byte>, b0: byte, b1: byte, ss: seq<byte>, v0: byte, v1: byte, v2: byte, v3: byte,
              text: string, c0: char, c1: char, c2: char, c3: char,
              before: word, between: word, after: word, checksum: seq<byte>)
    requires |bs| == 30 && Matches(bs, ss, text, before, between) && Residue(hrp, []) == before
    requires (b0 as int * 256 + b1 as int) * 16 == FourSymbols(v0, v1, v2, v3)
    requires Spelled(v0, v1, v2, v3, c0, c1, c2, c3) && FedFour(between, v0, v1, v2, v3) == after
    requires checksum == Unpacked(Xor(Rounds(after, 6), 1))
    ensures AsciiText(text + [c0, c1, c2, c3])
    ensures Encoded(hrp, bs + [b0, b1])
            == hrp + ['1' as byte] + Ascii(text + [c0, c1, c2, c3]) + Chars(checksum)
  {
    hide FourSymbols, Spelled, FedFour, Number, Chars, Ascii, Feed, AsciiText, Residue, Rounds, Xor, Unpacked;
    hide Convert, Generated, PowerOf2, ChecksumFrom;
    var bytes, d := bs + [b0, b1], ss + [v0, v1, v2, v3];
    FourChars(v0, v1, v2, v3, c0, c1, c2, c3);
    PayloadIs(bs, b0, b1, ss, v0, v1, v2, v3, text, before, between);
    ResidueAppends(hrp, [], d);
    assert [] + d == d;
    FeedAppends(before, ss, [v0, v1, v2, v3]);
    FourSteps(between, v0, v1, v2, v3);
    GeneratedFrom(hrp, d);
    ChecksumOf(after);
    JoinChars(ss, text, [v0, v1, v2, v3], [c0, c1, c2, c3]);
    EncodedIs(hrp, bytes, d);
  }

  lemma ChecksumOf(r: word)
    ensures ChecksumFrom(r) == Unpacked(Xor(Rounds(r, 6), 1))
  {
    hide Rounds, Feed, Unpacked, Xor;
    RoundsFeedZeros(r, 6);
  }

  lemma EncodedIs(hrp: Text, bytes: seq<byte>, d: seq<byte>)
    requires |bytes| == 32 && Convert(bytes, 8, 5, true) == Some(d)
    ensures Encoded(hrp, bytes) == hrp + ['1' as byte] + Chars(d) + Chars(Generated(hrp, d))
  {
    hide Convert, Chars, Generated;
    SeparatorIsOne();
  }

  lemma PayloadIs(bs: seq<byte>, b0: byte, b1: byte, ss: seq<byte>, v0: byte, v1: byte, v2: byte, v3: byte,
                  text: string, before: word, between: word)
    requires |bs| == 30 && Matches(bs, ss, text, before, between)
    requires (b0 as int * 256 + b1 as int) * 16 == FourSymbols(v0, v1, v2, v3) && Symbols([v0, v1, v2, v3])
    ensures Convert(bs + [b0, b1], 8, 5, true) == Some(ss + [v0, v1, v2, v3])
  {
    hide Spelled, Number, Chars, Ascii, Feed, AsciiText, Convert, PowerOf2, FourSymbols;
    var bytes, d := bs + [b0, b1], ss + [v0, v1, v2, v3];
    PayloadOf32Bytes(bytes);
    PaddedValue(bytes, 8, 5);
    var e := Convert(bytes, 8, 5, true).value;
    NumberAppends(bs, [b0, b1], 8);
    NumberAppends(ss, [v0, v1, v2, v3], 5);
    NumberOfTwo(b0, b1);
    NumberOfFour(v0, v1, v2, v3);
    MorePowers();
    SymbolsAreSmall(d);
    SymbolsAreSmall(e);
    DigitsUnique(e, d, 5);
  }

  lemma NumberOfTwo(b0: byte, b1: byte)
    ensures Number([b0, b1], 8) == b0 as int * 256 + b1 as int
  {
    hide PowerOf2, Number;
    Powers();
    NumberOfNothing(8);
    NumberSnoc([], b0, 8);
    NumberSnoc([b0], b1, 8);
    assert [] + [b0] == [b0] && [b0] + [b1] == [b0, b1];
  }

  lemma MorePowers()
    ensures PowerOf2(4) == 16 && PowerOf2(8 * 2) == 0x10000 && PowerOf2(5 * 4) == 0x100000
  {
    Powers();
    assert PowerOf2(2) == 4;
    PowersAdd(8, 8);
  }

  lemma SymbolsAreSmall(d: seq<byte>)
    requires Symbols(d)
    ensures forall i :: 0 <= i < |d| ==> d[i] as int < PowerOf2(5)
  {
    hide PowerOf2;
    Powers();
    forall i | 0 <= i < |d|
      ensures d[i] as int < 32
    {
      SmallByte(d[i]);
    }
  }

  lemma SmallByte(v: byte)
    ensures v < 32 ==> v as int < 32
  {}

  // ----- npub -----

  lemma NpubRegister0()
    ensures FedFour(0x1773adfb, 15, 25, 31, 9) == 0x75b4350
    ensures FedFour(0x75b4350, 24, 16, 21, 9) == 0x36fbdf76
  {}

  lemma NpubBlock0()
    ensures Matches([0x7e, 0x7e, 0x9c, 0x42, 0xa9], [15, 25, 31, 9, 24, 16, 21, 9], "0elfcs4f",
                    0x1773adfb, 0x36fbdf76)
  {
    hide Matches, Writes, FedFour;
    Letters();
    NpubRegister0();
    BlockMatches(0x7e, 0x7e, 0x9c, 0x42, 0xa9, 15, 25, 31, 9, 24, 16, 21, 9,
                 '0', 'e', 'l', 'f', 'c', 's', '4', 'f', 0x1773adfb, 0x75b4350, 0x36fbdf76);
  }

  lemma NpubRegister1()
    ensures FedFour(0x36fbdf76, 3, 15, 31, 15) == 0xd4a65de
    ensures FedFour(0xd4a65de, 3, 7, 29, 9) == 0x2e7bea3d
  {}

  lemma NpubBlock1()
    ensures Matches([0x1b, 0xfe, 0xf1, 0x9f, 0xa9], [3, 15, 31, 15, 3, 7, 29, 9], "r0l0r8af",
                    0x36fbdf76, 0x2e7bea3d)
  {
    hide Matches, Writes, FedFour;
    Letters();
    NpubRegister1();
    BlockMatches(0x1b, 0xfe, 0xf1, 0x9f, 0xa9, 3, 15, 31, 15, 3, 7, 29, 9,
                 'r', '0', 'l', '0', 'r', '8', 'a', 'f', 0x36fbdf76, 0xd4a65de, 0x2e7bea3d);
  }

  lemma NpubRegister2()
    ensures FedFour(0x2e7bea3d, 5, 7, 18, 31) == 0x6523aea
    ensures FedFour(0x6523aea, 27, 8, 13, 23) == 0x200f3231
  {}

  lemma NpubBlock2()
    ensures Matches([0x29, 0xe5, 0xfd, 0xa1, 0xb7], [5, 7, 18, 31, 27, 8, 13, 23], "98jlmgdh",
                    0x2e7bea3d, 0x200f3231)
  {
    hide Matches, Writes, FedFour;
    Letters();
    NpubRegister2();
    BlockMatches(0x29, 0xe5, 0xfd, 0xa1, 0xb7, 5, 7, 18, 31, 27, 8, 13, 23,
                 '9', '8', 'j', 'l', 'm', 'g', 'd', 'h', 0x2e7bea3d, 0x6523aea, 0x200f3231);
  }

  lemma NpubRegister3()
    ensures FedFour(0x200f3231, 5, 24, 7, 11) == 0x8764df5
    ensures FedFour(0x8764df5, 24, 6, 18, 12) == 0x3417e7c6
  {}

  lemma NpubBlock3()
    ensures Matches([0x2e, 0x0e, 0xbc, 0x1a, 0x4c], [5, 24, 7, 11, 24, 6, 18, 12], "9c8tcxjv",
                    0x200f3231, 0x3417e7c6)
  {
    hide Matches, Writes, FedFour;
    Letters();
    NpubRegister3();
    BlockMatches(0x2e, 0x0e, 0xbc, 0x1a, 0x4c, 5, 24, 7, 11, 24, 6, 18, 12,
                 '9', 'c', '8', 't', 'c', 'x', 'j', 'v', 0x200f3231, 0x8764df5, 0x3417e7c6);
  }

  lemma NpubRegister4()
    ensures FedFour(0x3417e7c6, 2, 5, 0, 22) == 0x124212bf
    ensures FedFour(0x124212bf, 14, 15, 17, 7) == 0x265b04a0
  {}

  lemma NpubBlock4()
    ensures Matches([0x11, 0x41, 0x67, 0x3e, 0x27], [2, 5, 0, 22, 14, 15, 17, 7], "z9qkw038",
                    0x3417e7c6, 0x265b04a0)
  {
    hide Matches, Writes, FedFour;
    Letters();
    NpubRegister4();
    BlockMatches(0x11, 0x41, 0x67, 0x3e, 0x27, 2, 5, 0, 22, 14, 15, 17, 7,
                 'z', '9', 'q', 'k', 'w', '0', '3', '8', 0x3417e7c6, 0x124212bf, 0x265b04a0);
  }

  lemma NpubRegister5()
    ensures FedFour(0x265b04a0, 18, 16, 17, 20) == 0x1feed492
    ensures FedFour(0x1feed492, 27, 1, 21, 13) == 0x157b499
  {}

  lemma NpubBlock5()
    ensures Matches([0x94, 0x23, 0x4d, 0x86, 0xad], [18, 16, 17, 20, 27, 1, 21, 13], "js35mp4d",
                    0x265b04a0, 0x157b499)
  {
    hide Matches, Writes, FedFour;
    Letters();
    NpubRegister5();
    BlockMatches(0x94, 0x23, 0x4d, 0x86, 0xad, 18, 16, 17, 20, 27, 1, 21, 13,
                 'j', 's', '3', '5', 'm', 'p', '4', 'd', 0x265b04a0, 0x1feed492, 0x157b499);
  }

  const NPUB_START: seq<byte> := [0x7e, 0x7e, 0x9c, 0x42, 0xa9]
    + [0x1b, 0xfe, 0xf1, 0x9f, 0xa9] + [0x29, 0xe5, 0xfd, 0xa1, 0xb7]
    + [0x2e, 0x0e, 0xbc, 0x1a, 0x4c] + [0x11, 0x41, 0x67, 0x3e, 0x27] + [0x94, 0x23, 0x4d, 0x86, 0xad]

  const NPUB_KEY: seq<byte> := NPUB_START + [0xdf, 0x4e]

  lemma NpubBlocks() returns (ss: seq<byte>)
    ensures Matches(NPUB_START, ss, "0elfcs4f" + "r0l0r8af" + "98jlmgdh" + "9c8tcxjv" + "z9qkw038" + "js35mp4d",
                    0x1773adfb, 0x157b499)
  {
    hide Matches;
    NpubBlock0();
    NpubBlock1();
    NpubBlock2();
    NpubBlock3();
    NpubBlock4();
    NpubBlock5();
    var bs, us, text := [0x7e, 0x7e, 0x9c, 0x42, 0xa9], [15, 25, 31, 9, 24, 16, 21, 9], "0elfcs4f";
    MatchesAppends(bs, us, text, 0x1773adfb, 0x36fbdf76,
                   [0x1b, 0xfe, 0xf1, 0x9f, 0xa9], [3, 15, 31, 15, 3, 7, 29, 9], "r0l0r8af", 0x2e7bea3d);
    bs, us, text := bs + [0x1b, 0xfe, 0xf1, 0x9f, 0xa9], us + [3, 15, 31, 15, 3, 7, 29, 9], text + "r0l0r8af";
    MatchesAppends(bs, us, text, 0x1773adfb, 0x2e7bea3d,
                   [0x29, 0xe5, 0xfd, 0xa1, 0xb7], [5, 7, 18, 31, 27, 8, 13, 23], "98jlmgdh", 0x200f3231);
    bs, us, text := bs + [0x29, 0xe5, 0xfd, 0xa1, 0xb7], us + [5, 7, 18, 31, 27, 8, 13, 23], text + "98jlmgdh";
    MatchesAppends(bs, us, text, 0x1773adfb, 0x200f3231,
                   [0x2e, 0x0e, 0xbc, 0x1a, 0x4c], [5, 24, 7, 11, 24, 6, 18, 12], "9c8tcxjv", 0x3417e7c6);
    bs, us, text := bs + [0x2e, 0x0e, 0xbc, 0x1a, 0x4c], us + [5, 24, 7, 11, 24, 6, 18, 12], text + "9c8tcxjv";
    MatchesAppends(bs, us, text, 0x1773adfb, 0x3417e7c6,
                   [0x11, 0x41, 0x67, 0x3e, 0x27], [2, 5, 0, 22, 14, 15, 17, 7], "z9qkw038", 0x265b04a0);
    bs, us, text := bs + [0x11, 0x41, 0x67, 0x3e, 0x27], us + [2, 5, 0, 22, 14, 15, 17, 7], text + "z9qkw038";
    MatchesAppends(bs, us, text, 0x1773adfb, 0x265b04a0,
                   [0x94, 0x23, 0x4d, 0x86, 0xad], [18, 16, 17, 20, 27, 1, 21, 13], "js35mp4d", 0x157b499);
    bs, us, text := bs + [0x94, 0x23, 0x4d, 0x86, 0xad], us + [18, 16, 17, 20, 27, 1, 21, 13], text + "js35mp4d";
    ss := us;
  }

  lemma NpubNumber()
    ensures (0xdf as byte as int * 256 + 0x4e as byte as int) * 16
            == FourSymbols(27, 29, 7, 0)
  {}

  lemma NpubLastRegister()
    ensures FedFour(0x157b499, 27, 29, 7, 0) == 0x18dbc70a
  {}

  lemma NpubLastRounds()
    ensures Rounds(0x18dbc70a, 6) == 0x4c90569
  {}

  lemma NpubChecksum()
    ensures Unpacked(Xor(Rounds(0x18dbc70a, 6), 1)) == [2, 12, 18, 1, 11, 8]
  {
    hide Unpacked, Rounds;
    NpubLastRounds();
    UnpackedIs(Xor(0x4c90569, 1));
  }

  lemma NpubChecksumText()
    ensures AsciiText("zvjptg") && Chars([2, 12, 18, 1, 11, 8]) == Ascii("zvjptg")
  {
    hide Writes, Chars, Ascii, AsciiText;
    Letters();
    SixChars(2, 12, 18, 1, 11, 8, 'z', 'v', 'j', 'p', 't', 'g');
  }

  lemma NpubPrefix()
    ensures AsciiText("npub1") && Ascii("npub1") == NPUB + ['1' as byte]
  {}

  /** The npub example: what is written for the key, and read back. */
  lemma NpubExample()
    ensures var data := "0elfcs4f" + "r0l0r8af" + "98jlmgdh" + "9c8tcxjv" + "z9qkw038" + "js35mp4d" + "ma8q";
            var text := "npub1" + data + "zvjptg";
            && AsciiText(text)
            && Encoded(NPUB, NPUB_KEY) == Ascii(text)
            && Decoded(Ascii(text), NPUB) == Bytes(NPUB_KEY)
  {
    hide Matches, Chars, Encoded, Decoded, Residue, Unpacked, FourSymbols, Writes, FedFour, Feed, Rounds, Round;
    hide Ascii, AsciiText;
    var ss := NpubBlocks();
    NpubNumber();
    Letters();
    NpubLastRegister();
    NpubChecksum();
    NpubChecksumText();
    PrefixResidue();
    var start := "0elfcs4f" + "r0l0r8af" + "98jlmgdh" + "9c8tcxjv" + "z9qkw038" + "js35mp4d";
    KeyIs(NPUB, NPUB_START, 0xdf, 0x4e, ss, 27, 29, 7, 0, start, 'm', 'a', '8', 'q',
          0x1773adfb, 0x157b499, 0x18dbc70a, [2, 12, 18, 1, 11, 8]);
    NpubPrefix();
    AsciiAppends("npub1", start + "ma8q");
    AsciiAppends("npub1" + (start + "ma8q"), "zvjptg");
    PrefixesAreProper();
    AcceptedLanguage(NPUB, Encoded(NPUB, NPUB_KEY), NPUB_KEY);
  }

  // ----- nsec -----

  lemma NsecRounds()
    ensures Xor(Round(Xor(Round(Xor(Round(1), 3)), 3)), 3) == 0x8c63
    ensures Xor(Round(Xor(Round(Xor(Round(0x8c63), 3)), 0)), 14) == 0x3d5bdbbc
    ensures Xor(Round(Xor(Round(Xor(Round(0x3d5bdbbc), 19)), 5)), 3) == 0x1773a3fa
  {}

  lemma ExpandedNsec()
    ensures Expanded(NSEC) == [3, 3, 3, 3, 0, 14, 19, 5, 3]
  {}

  lemma NsecResidue()
    ensures Residue(NSEC, []) == 0x1773a3fa
  {
    hide Feed, Step, Round, Xor, Expanded;
    ExpandedNsec();
    var xs := [3, 3, 3, 3, 0, 14, 19, 5, 3];
    assert xs + [] == xs[..9] == xs && xs[..0] == [];
    EmptyFeed(1);
    ThreeSteps(1, xs, 0);
    ThreeSteps(1, xs, 3);
    ThreeSteps(1, xs, 6);
    ThreeRounds(1, 3, 3, 3);
    ThreeRounds(0x8c63, 3, 0, 14);
    ThreeRounds(0x3d5bdbbc, 19, 5, 3);
    NsecRounds();
  }

  lemma NsecRegister0()
    ensures FedFour(0x1773a3fa, 12, 31, 15, 10) == 0x3a70008c
    ensures FedFour(0x3a70008c, 5, 27, 8, 1) == 0x53d74b7
  {}

  lemma NsecBlock0()
    ensures Matches([0x67, 0xde, 0xa2, 0xed, 0x01], [12, 31, 15, 10, 5, 27, 8, 1], "vl029mgp",
                    0x1773a3fa, 0x53d74b7)
  {
    hide Matches, Writes, FedFour;
    Letters();
    NsecRegister0();
    BlockMatches(0x67, 0xde, 0xa2, 0xed, 0x01, 12, 31, 15, 10, 5, 27, 8, 1,
                 'v', 'l', '0', '2', '9', 'm', 'g', 'p', 0x1773a3fa, 0x3a70008c, 0x53d74b7);
  }

  lemma NsecRegister1()
    ensures FedFour(0x53d74b7, 16, 1, 25, 13) == 0x7195b69
    ensures FedFour(0x7195b69, 12, 29, 15, 21) == 0x37ec08fe
  {}

  lemma NsecBlock1()
    ensures Matches([0x80, 0x72, 0xd6, 0x75, 0xf5], [16, 1, 25, 13, 12, 29, 15, 21], "spedva04",
                    0x53d74b7, 0x37ec08fe)
  {
    hide Matches, Writes, FedFour;
    Letters();
    NsecRegister1();
    BlockMatches(0x80, 0x72, 0xd6, 0x75, 0xf5, 16, 1, 25, 13, 12, 29, 15, 21,
                 's', 'p', 'e', 'd', 'v', 'a', '0', '4', 0x53d74b7, 0x7195b69, 0x37ec08fe);
  }

  lemma NsecRegister2()
    ensures FedFour(0x37ec08fe, 8, 5, 15, 12) == 0x235916a2
    ensures FedFour(0x235916a2, 31, 11, 22, 23) == 0xe8fdf1e
  {}

  lemma NsecBlock2()
    ensures Matches([0x41, 0x5e, 0xcf, 0xae, 0xd7], [8, 5, 15, 12, 31, 11, 22, 23], "g90vltkh",
                    0x37ec08fe, 0xe8fdf1e)
  {
    hide Matches, Writes, FedFour;
    Letters();
    NsecRegister2();
    BlockMatches(0x41, 0x5e, 0xcf, 0xae, 0xd7, 8, 5, 15, 12, 31, 11, 22, 23,
                 'g', '9', '0', 'v', 'l', 't', 'k', 'h', 0x37ec08fe, 0x235916a2, 0xe8fdf1e);
  }

  lemma NsecRegister3()
    ensures FedFour(0xe8fdf1e, 26, 9, 12, 23) == 0x2313b224
    ensures FedFour(0x2313b224, 10, 21, 15, 2) == 0x2835a4fa
  {}

  lemma NsecBlock3()
    ensures Matches([0xd2, 0x59, 0x75, 0x55, 0xe2], [26, 9, 12, 23, 10, 21, 15, 2], "6fvh240z",
                    0xe8fdf1e, 0x2835a4fa)
  {
    hide Matches, Writes, FedFour;
    Letters();
    NsecRegister3();
    BlockMatches(0xd2, 0x59, 0x75, 0x55, 0xe2, 26, 9, 12, 23, 10, 21, 15, 2,
                 '6', 'f', 'v', 'h', '2', '4', '0', 'z', 0xe8fdf1e, 0x2313b224, 0x2835a4fa);
  }

  lemma NsecRegister4()
    ensures FedFour(0x2835a4fa, 0, 11, 12, 5) == 0x18891d6a
    ensures FedFour(0x18891d6a, 22, 15, 11, 5) == 0x227ef206
  {}

  lemma NsecBlock4()
    ensures Matches([0x02, 0xd8, 0x5b, 0x3d, 0x65], [0, 11, 12, 5, 22, 15, 11, 5], "qtv9k0t9",
                    0x2835a4fa, 0x227ef206)
  {
    hide Matches, Writes, FedFour;
    Letters();
    NsecRegister4();
    BlockMatches(0x02, 0xd8, 0x5b, 0x3d, 0x65, 0, 11, 12, 5, 22, 15, 11, 5,
                 'q', 't', 'v', '9', 'k', '0', 't', '9', 0x2835a4fa, 0x18891d6a, 0x227ef206);
  }

  lemma NsecRegister5()
    ensures FedFour(0x227ef206, 29, 9, 7, 5) == 0x3dd6e635
    ensures FedFour(0x3dd6e635, 17, 20, 22, 25) == 0x3ec4e3f2
  {}

  lemma NsecBlock5()
    ensures Matches([0xea, 0x4e, 0x58, 0xd2, 0xd9], [29, 9, 7, 5, 17, 20, 22, 25], "af8935ke",
                    0x227ef206, 0x3ec4e3f2)
  {
    hide Matches, Writes, FedFour;
    Letters();
    NsecRegister5();
    BlockMatches(0xea, 0x4e, 0x58, 0xd2, 0xd9, 29, 9, 7, 5, 17, 20, 22, 25,
                 'a', 'f', '8', '9', '3', '5', 'k', 'e', 0x227ef206, 0x3dd6e635, 0x3ec4e3f2);
  }

  const NSEC_START: seq<byte> := [0x67, 0xde, 0xa2, 0xed, 0x01]
    + [0x80, 0x72, 0xd6, 0x75, 0xf5] + [0x41, 0x5e, 0xcf, 0xae, 0xd7]
    + [0xd2, 0x59, 0x75, 0x55, 0xe2] + [0x02, 0xd8, 0x5b, 0x3d, 0x65] + [0xea, 0x4e, 0x58, 0xd2, 0xd9]

  const NSEC_KEY: seq<byte> := NSEC_START + [0x2f, 0xfa]

  lemma NsecBlocks() returns (ss: seq<byte>)
    ensures Matches(NSEC_START, ss, "vl029mgp" + "spedva04" + "g90vltkh" + "6fvh240z" + "qtv9k0t9" + "af8935ke",
                    0x1773a3fa, 0x3ec4e3f2)
  {
    hide Matches;
    NsecBlock0();
    NsecBlock1();
    NsecBlock2();
    NsecBlock3();
    NsecBlock4();
    NsecBlock5();
    var bs, us, text := [0x67, 0xde, 0xa2, 0xed, 0x01], [12, 31, 15, 10, 5, 27, 8, 1], "vl029mgp";
    MatchesAppends(bs, us, text, 0x1773a3fa, 0x53d74b7,
                   [0x80, 0x72, 0xd6, 0x75, 0xf5], [16, 1, 25, 13, 12, 29, 15, 21], "spedva04", 0x37ec08fe);
    bs, us, text := bs + [0x80, 0x72, 0xd6, 0x75, 0xf5], us + [16, 1, 25, 13, 12, 29, 15, 21], text + "spedva04";
    MatchesAppends(bs, us, text, 0x1773a3fa, 0x37ec08fe,
                   [0x41, 0x5e, 0xcf, 0xae, 0xd7], [8, 5, 15, 12, 31, 11, 22, 23], "g90vltkh", 0xe8fdf1e);
    bs, us, text := bs + [0x41, 0x5e, 0xcf, 0xae, 0xd7], us + [8, 5, 15, 12, 31, 11, 22, 23], text + "g90vltkh";
    MatchesAppends(bs, us, text, 0x1773a3fa, 0xe8fdf1e,
                   [0xd2, 0x59, 0x75, 0x55, 0xe2], [26, 9, 12, 23, 10, 21, 15, 2], "6fvh240z", 0x2835a4fa);
    bs, us, text := bs + [0xd2, 0x59, 0x75, 0x55, 0xe2], us + [26, 9, 12, 23, 10, 21, 15, 2], text + "6fvh240z";
    MatchesAppends(bs, us, text, 0x1773a3fa, 0x2835a4fa,
                   [0x02, 0xd8, 0x5b, 0x3d, 0x65], [0, 11, 12, 5, 22, 15, 11, 5], "qtv9k0t9", 0x227ef206);
    bs, us, text := bs + [0x02, 0xd8, 0x5b, 0x3d, 0x65], us + [0, 11, 12, 5, 22, 15, 11, 5], text + "qtv9k0t9";
    MatchesAppends(bs, us, text, 0x1773a3fa, 0x227ef206,
                   [0xea, 0x4e, 0x58, 0xd2, 0xd9], [29, 9, 7, 5, 17, 20, 22, 25], "af8935ke", 0x3ec4e3f2);
    bs, us, text := bs + [0xea, 0x4e, 0x58, 0xd2, 0xd9], us + [29, 9, 7, 5, 17, 20, 22, 25], text + "af8935ke";
    ss := us;
  }

  lemma NsecNumber()
    ensures (0x2f as byte as int * 256 + 0xfa as byte as int) * 16
            == FourSymbols(5, 31, 29, 0)
  {}

  lemma NsecLastRegister()
    ensures FedFour(0x3ec4e3f2, 5, 31, 29, 0) == 0x75f2723
  {}

  lemma NsecLastRounds()
    ensures Rounds(0x75f2723, 6) == 0x213fa735
  {}

  lemma NsecChecksum()
    ensures Unpacked(Xor(Rounds(0x75f2723, 6), 1)) == [16, 19, 31, 9, 25, 20]
  {
    hide Unpacked, Rounds;
    NsecLastRounds();
    UnpackedIs(Xor(0x213fa735, 1));
  }

  lemma NsecChecksumText()
    ensures AsciiText("snlfe5") && Chars([16, 19, 31, 9, 25, 20]) == Ascii("snlfe5")
  {
    hide Writes, Chars, Ascii, AsciiText;
    Letters();
    SixChars(16, 19, 31, 9, 25, 20, 's', 'n', 'l', 'f', 'e', '5');
  }

  lemma NsecPrefix()
    ensures AsciiText("nsec1") && Ascii("nsec1") == NSEC + ['1' as byte]
  {}

  /** The nsec example: what is written for the key, and read back. */
  lemma NsecExample()
    ensures var data := "vl029mgp" + "spedva04" + "g90vltkh" + "6fvh240z" + "qtv9k0t9" + "af8935ke" + "9laq";
            var text := "nsec1" + data + "snlfe5";
            && AsciiText(text)
            && Encoded(NSEC, NSEC_KEY) == Ascii(text)
            && Decoded(Ascii(text), NSEC) == Bytes(NSEC_KEY)
  {
    hide Matches, Chars, Encoded, Decoded, Residue, Unpacked, FourSymbols, Writes, FedFour, Feed, Rounds, Round;
    hide Ascii, AsciiText;
    var ss := NsecBlocks();
    NsecNumber();
    Letters();
    NsecLastRegister();
    NsecChecksum();
    NsecChecksumText();
    NsecResidue();
    var start := "vl029mgp" + "spedva04" + "g90vltkh" + "6fvh240z" + "qtv9k0t9" + "af8935ke";
    KeyIs(NSEC, NSEC_START, 0x2f, 0xfa, ss, 5, 31, 29, 0, start, '9', 'l', 'a', 'q',
          0x1773a3fa, 0x3ec4e3f2, 0x75f2723, [16, 19, 31, 9, 25, 20]);
    NsecPrefix();
    AsciiAppends("nsec1", start + "9laq");
    AsciiAppends("nsec1" + (start + "9laq"), "snlfe5");
    PrefixesAreProper();
    AcceptedLanguage(NSEC, Encoded(NSEC, NSEC_KEY), NSEC_KEY);
  }
}
