/** The shift register of the Bech32 checksum (BIP-173, section "Bech32", subsection "Checksum"): what
    `Polymod` computes, its linearity, and the 30 bits it holds. */
module Checksum {
  import opened Words

  function Gen(i: nat): word
    requires i < 5
  {
    if i == 0 then 0x3b6a57b2
    else if i == 1 then 0x26508e6d
    else if i == 2 then 0x1ea119fa
    else if i == 3 then 0x3d4233dd
    else 0x2a1462b3
  }

  /** Generator constant i when bit i of `top` is set, otherwise nothing. */
  function Selected(top: byte, i: nat): word
    requires i < 5
  {
    if Odd(ShiftRight(top as word, i)) then Gen(i) else 0
  }

  /** The sum of the first n constants that `top` selects. */
  function Feedback(top: byte, n: nat): word
    requires n <= 5
  {
    if n == 0 then 0 else Xor(Feedback(top, n - 1), Selected(top, n - 1))
  }

  /** The low five symbols, moved up by one symbol. */
  function LowPart(chk: word): word {
    (chk & 0x1ffffff) << 5
  }

  /** The symbol that leaves the register. */
  function Top(chk: word): byte {
    LowByte(chk >> 25)
  }

  /** The register after one round that feeds in the symbol zero. */
  function Advance(chk: word): word {
    Xor(LowPart(chk), Feedback(Top(chk), 5))
  }

  function Step(chk: word, v: byte): word {
    Xor(Advance(chk), v as word)
  }

  /** The register after feeding in a sequence of symbols. */
  function Feed(chk: word, values: seq<byte>): word {
    if values == [] then chk else Step(Feed(chk, values[..|values| - 1]), values[|values| - 1])
  }

  lemma StepReordered(chk: word, v: byte)
    ensures Step(chk, v) == Xor(Xor(LowPart(chk), v as word), Feedback(Top(chk), 5))
  {
    hide *;
    XorSwap(LowPart(chk), Feedback(Top(chk), 5), v as word, 0);
    XorZero(Feedback(Top(chk), 5), 0);
    XorZero(v as word, 0);
    StepIs(chk, v);
  }

  lemma StepIs(chk: word, v: byte)
    ensures Step(chk, v) == Xor(Xor(LowPart(chk), Feedback(Top(chk), 5)), v as word)
    ensures Advance(chk) == Xor(LowPart(chk), Feedback(Top(chk), 5))
  {}

  lemma EmptyFeed(c: word)
    ensures Feed(c, []) == c
  {}

  lemma FeedNext(a: word, xs: seq<byte>, k: nat)
    requires k < |xs|
    ensures Feed(a, xs[..k + 1]) == Step(Feed(a, xs[..k]), xs[k])
  {
    assert xs[..k + 1][..k] == xs[..k];
  }

  method Polymod(values: seq<byte>) returns (chk: word)
    ensures chk == Feed(1, values)
  {
    hide *;
    chk := 1;
    EmptyFeed(1);
    for k := 0 to |values|
      invariant chk == Feed(1, values[..k])
    {
      ghost var before := chk;
      var top := Top(chk);
      chk := LowPart(chk);
      chk := Xor(chk, values[k] as word);
      ghost var shifted := chk;
      XorZero(shifted, 0);
      FeedbackStep(shifted, top, 0);
      for i := 0 to 5
        invariant chk == Xor(shifted, Feedback(top, i))
      {
        if Odd(ShiftRight(top as word, i)) {
          chk := Xor(chk, Gen(i));
        }
        FeedbackStep(shifted, top, i);
      }
      StepReordered(before, values[k]);
      FeedNext(1, values, k);
    }
    assert values[..|values|] == values;
  }

  lemma FeedbackStep(w: word, top: byte, i: nat)
    requires i < 5
    ensures Feedback(top, 0) == 0
    ensures Xor(w, Feedback(top, i + 1)) ==
            if Odd(ShiftRight(top as word, i)) then Xor(Xor(w, Feedback(top, i)), Gen(i)) else Xor(w, Feedback(top, i))
  {
    hide Xor, ShiftRight, Gen;
    XorSwap(w, 0, Feedback(top, i), Selected(top, i));
    XorZero(w, 0);
    XorZero(Selected(top, i), 0);
    XorZero(Feedback(top, i), 0);
    XorZero(Xor(w, Feedback(top, i)), 0);
  }

  // ----- the register is linear -----

  lemma ByteXor(s: byte, t: byte)
    ensures XorByte(s, t) as word == Xor(s as word, t as word)
  {}

  lemma SelectedAdds(s: byte, t: byte, i: nat)
    requires i < 5
    ensures Selected(XorByte(s, t), i) == Xor(Selected(s, i), Selected(t, i))
  {
    hide ShiftRight, Gen, Xor, XorByte, Odd;
    ByteXor(s, t);
    ShiftRightAdds(s as word, t as word, i);
    HalfAdds(ShiftRight(s as word, i), ShiftRight(t as word, i));
    XorZero(Gen(i), Gen(i));
    XorZero(0, 0);
  }

  lemma {:induction false} FeedbackAdds(s: byte, t: byte, n: nat)
    requires n <= 5
    ensures Feedback(XorByte(s, t), n) == Xor(Feedback(s, n), Feedback(t, n))
  {
    if n == 0 {
      XorZero(0, 0);
    } else {
      hide Xor, XorByte, Selected;
      FeedbackAdds(s, t, n - 1);
      SelectedAdds(s, t, n - 1);
      XorSwap(Feedback(s, n - 1), Feedback(t, n - 1), Selected(s, n - 1), Selected(t, n - 1));
    }
  }

  lemma LowPartAndTopAdd(a: word, b: word)
    ensures LowPart(Xor(a, b)) == Xor(LowPart(a), LowPart(b))
    ensures Top(Xor(a, b)) == XorByte(Top(a), Top(b))
  {}

  lemma AdvanceAdds(a: word, b: word)
    ensures Advance(Xor(a, b)) == Xor(Advance(a), Advance(b))
  {
    hide *;
    LowPartAndTopAdd(a, b);
    FeedbackAdds(Top(a), Top(b), 5);
    XorSwap(LowPart(a), LowPart(b), Feedback(Top(a), 5), Feedback(Top(b), 5));
    StepIs(a, 0);
    StepIs(b, 0);
    StepIs(Xor(a, b), 0);
  }

  lemma StepAdds(a: word, b: word, v: byte, w: byte)
    ensures Step(Xor(a, b), XorByte(v, w)) == Xor(Step(a, v), Step(b, w))
  {
    hide *;
    AdvanceAdds(a, b);
    ByteXor(v, w);
    XorSwap(Advance(a), Advance(b), v as word, w as word);
    StepIs(a, v);
    StepIs(b, w);
    StepIs(Xor(a, b), XorByte(v, w));
  }

  /** The position-wise sum of two words of symbols. */
  function Sum(xs: seq<byte>, ys: seq<byte>): (zs: seq<byte>)
    requires |xs| == |ys|
    ensures |zs| == |xs|
  {
    seq(|xs|, i requires 0 <= i < |xs| => XorByte(xs[i], ys[i]))
  }

  function Zeros(n: nat): (zs: seq<byte>)
    ensures |zs| == n
  {
    seq(n, i => 0)
  }

  lemma {:induction false} FeedAdds(a: word, b: word, xs: seq<byte>, ys: seq<byte>)
    requires |xs| == |ys|
    ensures Feed(Xor(a, b), Sum(xs, ys)) == Xor(Feed(a, xs), Feed(b, ys))
  {
    hide Xor, XorByte, Step;
    if xs != [] {
      var n := |xs| - 1;
      FeedAdds(a, b, xs[..n], ys[..n]);
      assert Sum(xs, ys)[..n] == Sum(xs[..n], ys[..n]);
      StepAdds(Feed(a, xs[..n]), Feed(b, ys[..n]), xs[n], ys[n]);
    }
  }

  lemma {:induction false} FeedAppends(a: word, xs: seq<byte>, ys: seq<byte>)
    ensures Feed(a, xs + ys) == Feed(Feed(a, xs), ys)
  {
    hide Step;
    if ys == [] {
      assert xs + ys == xs;
    } else {
      var n := |ys| - 1;
      FeedAppends(a, xs, ys[..n]);
      assert (xs + ys)[..|xs| + n] == xs + ys[..n];
    }
  }

  // ----- the register holds 30 bits and a round loses none of them -----

  lemma SelectedUnrolls(top: byte, i: nat)
    requires i < 5
    ensures Selected(top, i) == if top & [1, 2, 4, 8, 16][i] != 0 then Gen(i) else 0
  {
    hide Gen;
    var x := top as word;
    assert ShiftRight(x, 1) == x >> 1;
    assert ShiftRight(x, 2) == x >> 2;
    assert ShiftRight(x, 3) == x >> 3;
    assert ShiftRight(x, 4) == x >> 4;
  }

  lemma FeedbackIsSum(top: byte)
    ensures Feedback(top, 5) ==
      Xor(Xor(Xor(Xor(Selected(top, 0), Selected(top, 1)), Selected(top, 2)), Selected(top, 3)), Selected(top, 4))
  {
    hide Xor, Selected;
    XorZero(Selected(top, 0), 0);
    assert Feedback(top, 1) == Selected(top, 0);
    assert Feedback(top, 3) == Xor(Xor(Selected(top, 0), Selected(top, 1)), Selected(top, 2));
  }

  lemma FeedbackUnrolls(top: byte)
    ensures Feedback(top, 5) ==
      (if top & 1 != 0 then 0x3b6a57b2 else 0) ^ (if top & 2 != 0 then 0x26508e6d else 0)
      ^ (if top & 4 != 0 then 0x1ea119fa else 0) ^ (if top & 8 != 0 then 0x3d4233dd else 0)
      ^ (if top & 16 != 0 then 0x2a1462b3 else 0)
  {
    hide Feedback, Selected;
    FeedbackIsSum(top);
    SelectedUnrolls(top, 0);
    SelectedUnrolls(top, 1);
    SelectedUnrolls(top, 2);
    SelectedUnrolls(top, 3);
    SelectedUnrolls(top, 4);
  }

  lemma StepFits(chk: word, v: byte)
    ensures Step(chk, v) < 0x40000000
  {
    FeedbackUnrolls(Top(chk));
  }

  lemma AdvanceInjective(a: word)
    requires a < 0x40000000 && Advance(a) == 0
    ensures a == 0
  {
    FeedbackUnrolls(Top(a));
  }

  lemma {:induction false} FeedFits(chk: word, values: seq<byte>)
    requires chk < 0x40000000
    ensures Feed(chk, values) < 0x40000000
  {
    if values != [] {
      StepFits(Feed(chk, values[..|values| - 1]), values[|values| - 1]);
    }
  }

  // ----- six symbols fill the register exactly -----

  predicate Symbols(xs: seq<byte>) {
    forall i :: 0 <= i < |xs| ==> xs[i] < 32
  }

  function Packed(c: seq<byte>): word
    requires |c| == 6
  {
    PackSix(c[0], c[1], c[2], c[3], c[4], c[5])
  }

  function PackSix(c0: byte, c1: byte, c2: byte, c3: byte, c4: byte, c5: byte): word {
    ((c0 as word) << 25) ^ ((c1 as word) << 20) ^ ((c2 as word) << 15)
    ^ ((c3 as word) << 10) ^ ((c4 as word) << 5) ^ (c5 as word)
  }

  function LowFive(p: word): byte {
    LowByte(p & 0x1f)
  }

  /** Symbol i of a register, counted from the top. */
  function Symbol(p: word, i: nat): byte
    requires i < 6
  {
    LowFive(ShiftRight(p, 5 * (5 - i)))
  }

  function Unpacked(p: word): (c: seq<byte>)
    ensures |c| == 6
  {
    seq(6, i requires 0 <= i < 6 => Symbol(p, i))
  }

  lemma SmallStep(chk: word, v: byte)
    requires chk < 0x2000000 && v < 32
    ensures Step(chk, v) == (chk << 5) ^ (v as word)
  {
    FeedbackUnrolls(Top(chk));
  }

  lemma ThreeSteps(a: word, xs: seq<byte>, k: nat)
    requires k + 2 < |xs|
    ensures Feed(a, xs[..k + 3]) == Step(Step(Step(Feed(a, xs[..k]), xs[k]), xs[k + 1]), xs[k + 2])
  {
    hide Step, Feed;
    FeedNext(a, xs, k);
    FeedNext(a, xs, k + 1);
    FeedNext(a, xs, k + 2);
  }

  lemma SixSteps(c: seq<byte>)
    requires |c| == 6
    ensures Feed(0, c) == Step(Step(Step(Step(Step(Step(0, c[0]), c[1]), c[2]), c[3]), c[4]), c[5])
  {
    hide Step;
    assert c == c[..6] && c[..0] == [];
    ThreeSteps(0, c, 0);
    ThreeSteps(0, c, 3);
  }

  lemma SmallSteps(c0: byte, c1: byte, c2: byte, c3: byte, c4: byte, c5: byte)
    requires c0 < 32 && c1 < 32 && c2 < 32 && c3 < 32 && c4 < 32 && c5 < 32
    ensures Step(Step(Step(Step(Step(Step(0, c0), c1), c2), c3), c4), c5) == PackSix(c0, c1, c2, c3, c4, c5)
  {
    hide Step;
    SmallStep(0, c0);
    SmallStep(Step(0, c0), c1);
    SmallStep(Step(Step(0, c0), c1), c2);
    SmallStep(Step(Step(Step(0, c0), c1), c2), c3);
    SmallStep(Step(Step(Step(Step(0, c0), c1), c2), c3), c4);
    SmallStep(Step(Step(Step(Step(Step(0, c0), c1), c2), c3), c4), c5);
  }

  lemma FeedSix(c: seq<byte>)
    requires |c| == 6 && Symbols(c)
    ensures Feed(0, c) == Packed(c)
  {
    hide Step, PackSix;
    SixSteps(c);
    SmallSteps(c[0], c[1], c[2], c[3], c[4], c[5]);
  }

  lemma SymbolUnrolls(p: word)
    ensures ShiftRight(p, 5) == p >> 5 && ShiftRight(p, 10) == p >> 10 && ShiftRight(p, 15) == p >> 15
    ensures ShiftRight(p, 20) == p >> 20 && ShiftRight(p, 25) == p >> 25
  {
    hide ShiftRight;
    ShiftRightTwice(p, 5, 5);
    ShiftRightTwice(p, 10, 5);
    ShiftRightTwice(p, 15, 5);
    ShiftRightTwice(p, 20, 5);
    assert ShiftRight(p, 5) == p >> 5 by { ShiftRightByFive(p); }
    assert ShiftRight(p, 10) == p >> 10 by { ShiftRightByFive(p >> 5); }
    assert ShiftRight(p, 15) == p >> 15 by { ShiftRightByFive(p >> 10); }
    assert ShiftRight(p, 20) == p >> 20 by { ShiftRightByFive(p >> 15); }
    assert ShiftRight(p, 25) == p >> 25 by { ShiftRightByFive(p >> 20); }
  }

  lemma UnpackedIs(p: word)
    ensures Unpacked(p) == [LowFive(p >> 25), LowFive(p >> 20), LowFive(p >> 15),
                            LowFive(p >> 10), LowFive(p >> 5), LowFive(p)]
  {
    hide LowFive;
    SymbolUnrolls(p);
  }

  lemma PackedUnpacked(p: word)
    requires p < 0x40000000
    ensures Packed(Unpacked(p)) == p && Symbols(Unpacked(p))
  {
    hide Unpacked;
    UnpackedIs(p);
  }

  lemma PackedInjective(c: seq<byte>, d: seq<byte>)
    requires |c| == |d| == 6 && Symbols(c) && Symbols(d) && Packed(c) == Packed(d)
    ensures c == d
  {
    hide PackSix;
    PackSixInjective(c[0], c[1], c[2], c[3], c[4], c[5], d[0], d[1], d[2], d[3], d[4], d[5]);
  }

  lemma PackSixInjective(c0: byte, c1: byte, c2: byte, c3: byte, c4: byte, c5: byte,
                         d0: byte, d1: byte, d2: byte, d3: byte, d4: byte, d5: byte)
    requires c0 < 32 && c1 < 32 && c2 < 32 && c3 < 32 && c4 < 32 && c5 < 32
    requires d0 < 32 && d1 < 32 && d2 < 32 && d3 < 32 && d4 < 32 && d5 < 32
    requires PackSix(c0, c1, c2, c3, c4, c5) == PackSix(d0, d1, d2, d3, d4, d5)
    ensures c0 == d0 && c1 == d1 && c2 == d2 && c3 == d3 && c4 == d4 && c5 == d5
  {}

  lemma UnpackedAdds(p: word, q: word)
    ensures Unpacked(Xor(p, q)) == Sum(Unpacked(p), Unpacked(q))
  {
    hide Symbol, XorByte;
    forall i | 0 <= i < 6
      ensures Symbol(Xor(p, q), i) == XorByte(Symbol(p, i), Symbol(q, i))
    {
      SymbolAdds(p, q, i);
    }
  }

  lemma SymbolAdds(p: word, q: word, i: nat)
    requires i < 6
    ensures Symbol(Xor(p, q), i) == XorByte(Symbol(p, i), Symbol(q, i))
  {
    hide ShiftRight, LowFive, Xor, XorByte;
    ShiftRightAdds(p, q, 5 * (5 - i));
    LowFiveAdds(ShiftRight(p, 5 * (5 - i)), ShiftRight(q, 5 * (5 - i)));
  }

  lemma LowFiveAdds(a: word, b: word)
    ensures LowFive(Xor(a, b)) == XorByte(LowFive(a), LowFive(b))
  {}

  /** The register shifted by one symbol, before the feedback. */
  lemma UnpackedShift(chk: word, v: byte)
    requires chk < 0x40000000 && v < 32
    ensures Unpacked(Xor(LowPart(chk), v as word)) == Unpacked(chk)[1..] + [v]
    ensures Top(chk) == Unpacked(chk)[0]
  {
    hide Unpacked;
    UnpackedIs(chk);
    UnpackedIs(Xor(LowPart(chk), v as word));
    ShiftedSymbols(chk, v);
  }

  lemma ShiftedSymbols(chk: word, v: byte)
    requires chk < 0x40000000 && v < 32
    ensures var p := Xor(LowPart(chk), v as word);
            && LowFive(p >> 25) == LowFive(chk >> 20)
            && LowFive(p >> 20) == LowFive(chk >> 15)
            && LowFive(p >> 15) == LowFive(chk >> 10)
            && LowFive(p >> 10) == LowFive(chk >> 5)
            && LowFive(p >> 5) == LowFive(chk)
            && LowFive(p) == v
            && Top(chk) == LowFive(chk >> 25)
  {}
}
