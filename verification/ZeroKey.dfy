/** A worked example: the key of 32 zero bytes. Its npub string is written out, and so is a text
    with a NUL character that decodes to the same key. */
module ZeroKey {
  import opened Options
  import opened Words
  import opened Checksum
  import opened Codewords
  import opened Regrouping
  import opened Bech32
  import opened Nip19
  import opened Terminator
  import opened Typos

  /** One round of the register that feeds in the symbol zero, in closed form. */
  function Round(c: word): word {
    ((c & 0x1ffffff) << 5)
    ^ (if c & 0x2000000 != 0 then 0x3b6a57b2 else 0) ^ (if c & 0x4000000 != 0 then 0x26508e6d else 0)
    ^ (if c & 0x8000000 != 0 then 0x1ea119fa else 0) ^ (if c & 0x10000000 != 0 then 0x3d4233dd else 0)
    ^ (if c & 0x20000000 != 0 then 0x2a1462b3 else 0)
  }

  function Rounds(c: word, n: nat): word {
    if n == 0 then c else Round(Rounds(c, n - 1))
  }

  lemma RoundIsAdvance(c: word)
    ensures Round(c) == Advance(c)
  {
    hide Feedback;
    FeedbackUnrolls(Top(c));
  }

  lemma {:induction false} RoundsFeedZeros(c: word, n: nat)
    ensures Rounds(c, n) == Feed(c, Zeros(n))
  {
    hide Round, Advance;
    if n > 0 {
      assert Zeros(n)[..n - 1] == Zeros(n - 1);
      RoundsFeedZeros(c, n - 1);
      RoundIsAdvance(Rounds(c, n - 1));
      StepWithZero(Rounds(c, n - 1));
    }
  }

  lemma {:induction false} RoundsAdd(c: word, m: nat, n: nat)
    ensures Rounds(c, m + n) == Rounds(Rounds(c, m), n)
  {
    hide Round;
    if n > 0 {
      RoundsAdd(c, m, n - 1);
    }
  }

  lemma Rounds8()
    ensures Rounds(0x1773adfb, 8) == 0x2ba87548
  {}

  lemma Rounds16()
    ensures Rounds(0x2ba87548, 8) == 0x30b4a48
  {}

  lemma Rounds24()
    ensures Rounds(0x30b4a48, 8) == 0x37888726
  {}

  lemma Rounds32()
    ensures Rounds(0x37888726, 8) == 0x2debc468
  {}

  lemma Rounds40()
    ensures Rounds(0x2debc468, 8) == 0x209ca4d1
  {}

  lemma Rounds48()
    ensures Rounds(0x209ca4d1, 8) == 0x306b2606
  {}

  lemma Rounds58()
    ensures Rounds(0x306b2606, 10) == 0x40e4b78
  {}

  lemma AllRounds()
    ensures Rounds(0x1773adfb, 58) == 0x40e4b78
  {
    hide Rounds;
    Rounds8();
    Rounds16();
    Rounds24();
    Rounds32();
    Rounds40();
    Rounds48();
    Rounds58();
    RoundsAdd(0x1773adfb, 8, 50);
    RoundsAdd(0x2ba87548, 8, 42);
    RoundsAdd(0x30b4a48, 8, 34);
    RoundsAdd(0x37888726, 8, 26);
    RoundsAdd(0x2debc468, 8, 18);
    RoundsAdd(0x209ca4d1, 8, 10);
  }

  lemma StepIsRound(c: word, v: byte)
    ensures Step(c, v) == Xor(Round(c), v as word)
  {
    hide Advance, Round;
    RoundIsAdvance(c);
  }

  lemma PrefixRounds()
    ensures Xor(Round(Xor(Round(Xor(Round(1), 3)), 3)), 3) == 0x8c63
    ensures Xor(Round(Xor(Round(Xor(Round(0x8c63), 3)), 0)), 14) == 0x3d5bdbbc
    ensures Xor(Round(Xor(Round(Xor(Round(0x3d5bdbbc), 16)), 21)), 2) == 0x1773adfb
  {}

  lemma ThreeRounds(c: word, x: byte, y: byte, z: byte)
    ensures Step(Step(Step(c, x), y), z) == Xor(Round(Xor(Round(Xor(Round(c), x as word)), y as word)), z as word)
  {
    hide Step, Round, Xor;
    StepIsRound(c, x);
    StepIsRound(Step(c, x), y);
    StepIsRound(Step(Step(c, x), y), z);
  }

  lemma ExpandedNpub()
    ensures Expanded(NPUB) == [3, 3, 3, 3, 0, 14, 16, 21, 2]
  {}

  lemma PrefixResidue()
    ensures Residue(NPUB, []) == 0x1773adfb
  {
    hide Feed, Step, Round, Xor, Expanded;
    ExpandedNpub();
    var xs := [3, 3, 3, 3, 0, 14, 16, 21, 2];
    assert xs + [] == xs[..9] == xs && xs[..0] == [];
    EmptyFeed(1);
    ThreeSteps(1, xs, 0);
    ThreeSteps(1, xs, 3);
    ThreeSteps(1, xs, 6);
    ThreeRounds(1, 3, 3, 3);
    ThreeRounds(0x8c63, 3, 0, 14);
    ThreeRounds(0x3d5bdbbc, 16, 21, 2);
    PrefixRounds();
  }

  const CHECKSUM: seq<byte> := [2, 0, 28, 18, 27, 25]

  lemma ChecksumSymbols()
    ensures Unpacked(Xor(0x40e4b78, 1)) == CHECKSUM
  {
    UnpackedIs(Xor(0x40e4b78, 1));
  }

  lemma ZeroChecksum()
    ensures Generated(NPUB, Zeros(52)) == CHECKSUM
  {
    hide Feed, Residue, Unpacked, Xor;
    PrefixResidue();
    ResidueAppends(NPUB, [], Zeros(52) + Zeros(6));
    assert [] + (Zeros(52) + Zeros(6)) == Zeros(58) == Zeros(52) + Zeros(6);
    RoundsFeedZeros(0x1773adfb, 58);
    AllRounds();
    ChecksumSymbols();
  }

  lemma {:induction false} StreamOfZeros(n: nat, w: nat)
    ensures Stream(Zeros(n), w) == Clear(n * w)
  {
    hide Bits;
    if n > 0 {
      StreamOfZeros(n - 1, w);
      BitsOfZero(w);
      assert Zeros(n)[..n - 1] == Zeros(n - 1);
      assert (n - 1) * w + w == n * w;
      assert Clear(n * w) == Clear((n - 1) * w) + Clear(w);
    }
  }

  lemma ZeroPayload()
    ensures Convert(Zeros(32), 8, 5, true) == Some(Zeros(52))
  {
    hide Stream, Groups, Rest, Narrow;
    PayloadOf32Bytes(Zeros(32));
    SymbolsAreNarrow(Zeros(32));
    SymbolsAreNarrow(Zeros(51));
    SymbolsAreNarrow(Zeros(52));
    StreamOfZeros(32, 8);
    StreamOfZeros(51, 5);
    StreamOfZeros(52, 5);
    var s := Stream(Zeros(32), 8);
    assert s == Stream(Zeros(51), 5) + Clear(1);
    GroupsOfStream(Zeros(51), Clear(1), 5);
    assert s + Clear(4) == Stream(Zeros(52), 5) + [];
    GroupsOfStream(Zeros(52), [], 5);
  }

  /** npub1, 52 times q, zqujme. */
  function ZeroNpub(): Text {
    NPUB + [SEPARATOR] + seq(52, i => 0x71) + [0x7a, 0x71, 0x75, 0x6a, 0x6d, 0x65]
  }

  /** npub1, 52 times q, r, NUL, ujme. */
  function NulNpub(): Text {
    NPUB + [SEPARATOR] + seq(52, i => 0x71) + [0x72, 0, 0x75, 0x6a, 0x6d, 0x65]
  }

  /** The npub string of the zero key. */
  lemma ZeroKeyEncodes()
    ensures Encoded(NPUB, Zeros(32)) == ZeroNpub()
  {
    hide Convert, Generated;
    ZeroPayload();
    ZeroChecksum();
    assert Chars(Zeros(52)) == seq(52, i => 0x71);
  }

  /** A text with a NUL decodes to the zero key, although the encoder never writes it: the decoder's
      language is larger than the encoder's image by texts with NUL. */
  lemma NulIsAccepted()
    ensures Decoded(NulNpub(), NPUB) == Bytes(Zeros(32))
    ensures forall hrp, bytes :: Proper(hrp) && |bytes| == 32 ==>
              NulNpub() != Encoded(hrp, bytes) && NulNpub() != Upper(Encoded(hrp, bytes))
  {
    hide Convert, Generated, Decoded, Encoded, CharToValue, Proper;
    NulSpells();
    NulHasOneCase();
    AcceptedTexts(NPUB, NulNpub(), Zeros(32));
    assert NulNpub()[58] == 0;
    forall hrp, bytes | Proper(hrp) && |bytes| == 32
      ensures NulNpub() != Encoded(hrp, bytes) && NulNpub() != Upper(Encoded(hrp, bytes))
    {
      AcceptedLanguage(hrp, NulNpub(), bytes);
    }
  }

  lemma NulHasOneCase()
    ensures Lower(NulNpub()) == NulNpub() && !MixedCase(NulNpub())
  {}

  lemma NulSpells()
    ensures Spells(NPUB, NulNpub(), Zeros(32))
  {
    hide Convert, Generated;
    var n := NulNpub();
    var tail := n[5..];
    assert tail == seq(52, i => 0x71) + [0x72, 0, 0x75, 0x6a, 0x6d, 0x65];
    assert n[..5] == NPUB + [SEPARATOR];
    var data := Values(tail);
    assert data[..52] == Zeros(52);
    assert data[52..] == [3, 32, 28, 18, 27, 25];
    NulAmountsTo();
    ZeroPayload();
    ZeroChecksum();
    NudgedByNothing(Zeros(52));
  }

  lemma NulAmountsTo()
    ensures var c := [3, 32, 28, 18, 27, 25]; Carried(c) == CHECKSUM && Carry(c, 0) == 0
  {}

  lemma NudgedByNothing(d: seq<byte>)
    requires d != []
    ensures Nudged(d, 0) == d
  {}

  /** The two texts differ in two places only: without the condition on NUL, two wrong characters can
      turn one accepted text into another. */
  lemma NulTwoTypos()
    ensures Decoded(ZeroNpub(), NPUB).Bytes? && Decoded(NulNpub(), NPUB).Bytes?
    ensures Typed(Lower(ZeroNpub()), Lower(NulNpub())) == {57, 58}
  {
    hide Decoded, Encoded, Proper, CharToValue, Generated, Convert;
    ZeroKeyEncodes();
    NulIsAccepted();
    NulHasOneCase();
    PrefixesAreProper();
    EncodedIsLower(NPUB, Zeros(32));
    CaseRoundTrip(ZeroNpub());
    AcceptedLanguage(NPUB, ZeroNpub(), Zeros(32));
  }
}
