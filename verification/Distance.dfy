/** The error-detecting power of the checksum: three wrong symbols are always noticed in a word of
    up to 1023 symbols. The generator polynomial vanishes at three consecutive powers of the
    primitive element of `Gf1024`, so the values at those points of a word that verifies obey three
    linear equations. */
module Distance {
  import opened Words
  import opened Checksum
  import opened Codewords
  import opened Gf1024

  // ----- symbols as elements of the larger field -----

  /** Power i of a root of x^5 + x^3 + 1. */
  function Zeta(i: nat): Elem
    requires i < 5
  {
    if i == 0 then 0x001 else if i == 1 then 0x14d else if i == 2 then 0x283 else if i == 3 then 0x267 else 0x122
  }

  function Picked(v: byte, i: nat): Elem
    requires i < 5
  {
    if Odd(ShiftRight(v as word, i)) then Zeta(i) else 0
  }

  /** The low n bits of a symbol as an element of the larger field. */
  function EmbedLow(v: byte, n: nat): Elem
    requires n <= 5
  {
    if n == 0 then 0 else Add(EmbedLow(v, n - 1), Picked(v, n - 1))
  }

  function Embed(v: byte): Elem {
    EmbedLow(v, 5)
  }

  lemma AddNothing(a: Elem)
    ensures Add(a, 0) == a && Add(0, a) == a && Add(a, a) == 0
  {}

  lemma PickedAdds(v: byte, w: byte, i: nat)
    requires i < 5
    ensures Picked(XorByte(v, w), i) == Add(Picked(v, i), Picked(w, i))
  {
    hide ShiftRight, Zeta, Add, Odd, Xor, XorByte;
    ByteXor(v, w);
    ShiftRightAdds(v as word, w as word, i);
    HalfAdds(ShiftRight(v as word, i), ShiftRight(w as word, i));
    AddNothing(Zeta(i));
    AddNothing(0);
  }

  lemma {:induction false} EmbedLowAdds(v: byte, w: byte, n: nat)
    requires n <= 5
    ensures EmbedLow(XorByte(v, w), n) == Add(EmbedLow(v, n), EmbedLow(w, n))
  {
    if n == 0 {
      AddNothing(0);
    } else {
      hide Add, XorByte, Picked;
      EmbedLowAdds(v, w, n - 1);
      PickedAdds(v, w, n - 1);
      AddSwap(EmbedLow(v, n - 1), EmbedLow(w, n - 1), Picked(v, n - 1), Picked(w, n - 1));
    }
  }

  lemma PickedUnrolls(v: byte, i: nat)
    requires i < 5
    ensures Picked(v, i) == if v & [1, 2, 4, 8, 16][i] != 0 then Zeta(i) else 0
  {
    hide Zeta;
    var x := v as word;
    assert ShiftRight(x, 1) == x >> 1;
    assert ShiftRight(x, 2) == x >> 2;
    assert ShiftRight(x, 3) == x >> 3;
    assert ShiftRight(x, 4) == x >> 4;
  }

  lemma EmbedIsSum(v: byte)
    ensures Embed(v) == Add(Add(Add(Add(Picked(v, 0), Picked(v, 1)), Picked(v, 2)), Picked(v, 3)), Picked(v, 4))
  {
    hide Add, Picked;
    AddNothing(Picked(v, 0));
    assert EmbedLow(v, 1) == Picked(v, 0);
    assert EmbedLow(v, 5) == Add(Add(EmbedLow(v, 3), Picked(v, 3)), Picked(v, 4));
    assert EmbedLow(v, 3) == Add(Add(Picked(v, 0), Picked(v, 1)), Picked(v, 2));
  }

  lemma EmbedInjective(v: byte)
    requires v < 32 && Embed(v) == 0
    ensures v == 0
  {
    hide Embed, Picked;
    EmbedIsSum(v);
    PickedUnrolls(v, 0);
    PickedUnrolls(v, 1);
    PickedUnrolls(v, 2);
    PickedUnrolls(v, 3);
    PickedUnrolls(v, 4);
  }

  // ----- values of polynomials at the roots of the generator -----

  /** Multiplies by power 997 + m of the primitive element, which is 1 + x^2 + x^3 for m = 0. */
  function Root(m: nat, y: Elem): Elem {
    Power(m, Add(Add(y, Power(2, y)), Power(3, y)))
  }

  function RootPower(m: nat, k: nat, y: Elem): Elem {
    if k == 0 then y else Root(m, RootPower(m, k - 1, y))
  }

  /** The value of a polynomial of symbols, highest coefficient first, at power 997 + m. */
  function Value(m: nat, xs: seq<byte>): Elem {
    if xs == [] then 0 else Horner(m, Value(m, xs[..|xs| - 1]), xs[|xs| - 1])
  }

  function Horner(m: nat, y: Elem, v: byte): Elem {
    Add(Root(m, y), Embed(v))
  }

  lemma RootAdds(m: nat, y: Elem, z: Elem)
    ensures Root(m, Add(y, z)) == Add(Root(m, y), Root(m, z))
  {
    hide Add, Power;
    PowerAdds(2, y, z);
    PowerAdds(3, y, z);
    AddSwap(y, z, Power(2, y), Power(2, z));
    AddSwap(Add(y, Power(2, y)), Add(z, Power(2, z)), Power(3, y), Power(3, z));
    PowerAdds(m, Add(Add(y, Power(2, y)), Power(3, y)), Add(Add(z, Power(2, z)), Power(3, z)));
  }

  lemma EmbedAdds(v: byte, w: byte)
    ensures Embed(XorByte(v, w)) == Add(Embed(v), Embed(w))
  {
    EmbedLowAdds(v, w, 5);
  }

  lemma HornerAdds(m: nat, y: Elem, z: Elem, v: byte, w: byte)
    ensures Horner(m, Add(y, z), XorByte(v, w)) == Add(Horner(m, y, v), Horner(m, z, w))
  {
    hide Add, Root, XorByte, Embed;
    RootAdds(m, y, z);
    EmbedAdds(v, w);
    AddSwap(Root(m, y), Root(m, z), Embed(v), Embed(w));
  }

  lemma {:induction false} ValueAdds(m: nat, xs: seq<byte>, ys: seq<byte>)
    requires |xs| == |ys|
    ensures Value(m, Sum(xs, ys)) == Add(Value(m, xs), Value(m, ys))
  {
    hide Add, XorByte, Horner;
    if xs == [] {
      AddNothing(0);
    } else {
      var n := |xs| - 1;
      ValueAdds(m, xs[..n], ys[..n]);
      assert Sum(xs, ys)[..n] == Sum(xs[..n], ys[..n]);
      HornerAdds(m, Value(m, xs[..n]), Value(m, ys[..n]), xs[n], ys[n]);
    }
  }

  lemma RootZero(m: nat)
    ensures Root(m, 0) == 0 && Horner(m, 0, 0) == 0
  {
    PowerZero(2);
    PowerZero(3);
    PowerZero(m);
    assert Embed(0) == 0 by {
      EmbedIsSum(0);
    }
  }

  lemma {:induction false} ValueOfZeros(m: nat, n: nat)
    ensures Value(m, Zeros(n)) == 0
  {
    if n > 0 {
      hide Horner;
      assert Zeros(n)[..n - 1] == Zeros(n - 1);
      ValueOfZeros(m, n - 1);
      RootZero(m);
    }
  }

  lemma HornerWithZero(m: nat, y: Elem)
    ensures Horner(m, y, 0) == Root(m, y)
    ensures y == 0 ==> forall v :: Horner(m, y, v) == Embed(v)
  {
    hide Root;
    RootZero(m);
    EmbedIsSum(0);
    forall v
      ensures Add(0, Embed(v)) == Embed(v)
    {
      AddNothing(Embed(v));
    }
    AddNothing(Root(m, y));
  }

  /** The value of a word is the value without symbol i plus the contribution of that symbol. */
  lemma {:induction false} ValueWithout(m: nat, xs: seq<byte>, i: nat)
    requires i < |xs|
    ensures Value(m, xs) == Add(Value(m, xs[i := 0]), RootPower(m, |xs| - 1 - i, Embed(xs[i])))
  {
    hide Add, Root, Horner, Embed;
    var n := |xs| - 1;
    if i == n {
      assert xs[i := 0][..n] == xs[..n];
      HornerSplits(m, Value(m, xs[..n]), xs[n]);
    } else {
      ValueWithout(m, xs[..n], i);
      assert xs[i := 0][..n] == xs[..n][i := 0];
      HornerPeels(m, Value(m, xs[..n][i := 0]), RootPower(m, n - 1 - i, Embed(xs[i])), xs[n]);
    }
  }

  lemma HornerSplits(m: nat, y: Elem, v: byte)
    ensures Horner(m, y, v) == Add(Horner(m, y, 0), Embed(v))
  {
    hide Root, Embed, Add;
    HornerWithZero(m, y);
  }

  lemma HornerPeels(m: nat, y: Elem, z: Elem, v: byte)
    ensures Horner(m, Add(y, z), v) == Add(Horner(m, y, v), Root(m, z))
  {
    hide Add, Root, Embed;
    RootAdds(m, y, z);
    AddSwap(Root(m, y), Root(m, z), Embed(v), 0);
    AddNothing(Embed(v));
    AddNothing(Root(m, z));
  }

  // ----- the register computes values -----

  function Horner6(m: nat, s0: byte, s1: byte, s2: byte, s3: byte, s4: byte, s5: byte): Elem {
    Horner(m, Horner(m, Horner(m, Horner(m, Horner(m, Horner(m, 0, s0), s1), s2), s3), s4), s5)
  }

  lemma ValueNext(m: nat, xs: seq<byte>, k: nat)
    requires k < |xs|
    ensures Value(m, xs[..k + 1]) == Horner(m, Value(m, xs[..k]), xs[k])
  {
    assert xs[..k + 1][..k] == xs[..k];
  }

  lemma ValueNext3(m: nat, xs: seq<byte>, k: nat)
    requires k + 2 < |xs|
    ensures Value(m, xs[..k + 3]) == Horner(m, Horner(m, Horner(m, Value(m, xs[..k]), xs[k]), xs[k + 1]), xs[k + 2])
  {
    hide Horner, Value;
    ValueNext(m, xs, k);
    ValueNext(m, xs, k + 1);
    ValueNext(m, xs, k + 2);
  }

  lemma ValueOfSix(m: nat, xs: seq<byte>)
    requires |xs| == 6
    ensures Value(m, xs) == Horner6(m, xs[0], xs[1], xs[2], xs[3], xs[4], xs[5])
  {
    hide Horner;
    assert xs == xs[..6] && xs[..0] == [];
    ValueNext3(m, xs, 0);
    ValueNext3(m, xs, 3);
  }

  function EmbedBits(v: byte): Elem {
    (if v & 1 != 0 then 0x001 else 0) ^ (if v & 2 != 0 then 0x14d else 0) ^ (if v & 4 != 0 then 0x283 else 0)
    ^ (if v & 8 != 0 then 0x267 else 0) ^ (if v & 16 != 0 then 0x122 else 0)
  }

  lemma EmbedUnrolls(v: byte)
    ensures Embed(v) == EmbedBits(v)
  {
    hide Embed, Picked;
    EmbedIsSum(v);
    PickedUnrolls(v, 0);
    PickedUnrolls(v, 1);
    PickedUnrolls(v, 2);
    PickedUnrolls(v, 3);
    PickedUnrolls(v, 4);
  }

  function RootBits(m: nat, y: Elem): Elem {
    var y2 := Times(Times(y));
    var z := Add(Add(y, y2), Times(y2));
    if m == 0 then z else if m == 1 then Times(z) else Times(Times(z))
  }

  function HornerBits(m: nat, y: Elem, v: byte): Elem {
    Add(RootBits(m, y), EmbedBits(v))
  }

  function Horner6Bits(m: nat, s0: byte, s1: byte, s2: byte, s3: byte, s4: byte, s5: byte): Elem {
    HornerBits(m, HornerBits(m, HornerBits(m, HornerBits(m, HornerBits(m, HornerBits(m, 0, s0), s1), s2), s3), s4), s5)
  }

  function Root6Bits(m: nat, y: Elem): Elem {
    RootBits(m, RootBits(m, RootBits(m, RootBits(m, RootBits(m, RootBits(m, y))))))
  }

  lemma SmallPower(y: Elem)
    ensures Power(0, y) == y && Power(1, y) == Times(y) && Power(2, y) == Times(Times(y))
    ensures Power(3, y) == Times(Times(Times(y)))
  {
    hide Times;
    assert Power(1, y) == Times(y);
    assert Power(2, y) == Times(Times(y));
  }

  lemma RootUnrolls(m: nat, y: Elem)
    requires m < 3
    ensures Root(m, y) == RootBits(m, y)
  {
    hide Times, Add, Power;
    SmallPower(y);
    SmallPower(Add(Add(y, Power(2, y)), Power(3, y)));
  }

  lemma HornerUnrolls(m: nat, y: Elem, v: byte)
    requires m < 3
    ensures Horner(m, y, v) == HornerBits(m, y, v)
  {
    hide Root, RootBits, Embed, EmbedBits, Add;
    RootUnrolls(m, y);
    EmbedUnrolls(v);
  }

  lemma Horner6Unrolls(m: nat, s0: byte, s1: byte, s2: byte, s3: byte, s4: byte, s5: byte)
    requires m < 3
    ensures Horner6(m, s0, s1, s2, s3, s4, s5) == Horner6Bits(m, s0, s1, s2, s3, s4, s5)
  {
    hide Horner, HornerBits;
    forall y, v
      ensures Horner(m, y, v) == HornerBits(m, y, v)
    {
      HornerUnrolls(m, y, v);
    }
  }

  lemma RootPower6(m: nat, y: Elem)
    requires m < 3
    ensures RootPower(m, 6, y) == Root6Bits(m, y)
  {
    hide Root, RootBits;
    assert RootPower(m, 1, y) == Root(m, y);
    assert RootPower(m, 3, y) == Root(m, Root(m, Root(m, y)));
    assert RootPower(m, 5, y) == Root(m, Root(m, RootPower(m, 3, y)));
    forall z
      ensures Root(m, z) == RootBits(m, z)
    {
      RootUnrolls(m, z);
    }
  }

  lemma GenBits(m: nat, i: nat)
    requires m < 3 && i < 5
    ensures Horner6Bits(m, LowFive(Gen(i) >> 25), LowFive(Gen(i) >> 20),
                        LowFive(Gen(i) >> 15), LowFive(Gen(i) >> 10),
                        LowFive(Gen(i) >> 5), LowFive(Gen(i)))
            == Root6Bits(m, Zeta(i))
  {
    if m == 0 {
      if i == 0 {} else if i == 1 {} else if i == 2 {} else if i == 3 {} else {}
    } else if m == 1 {
      if i == 0 {} else if i == 1 {} else if i == 2 {} else if i == 3 {} else {}
    } else {
      if i == 0 {} else if i == 1 {} else if i == 2 {} else if i == 3 {} else {}
    }
  }

  /** The generator vanishes at the three roots: feeding a symbol back is multiplying it by the
      sixth power of the root. */
  lemma ValueOfGen(m: nat, i: nat)
    requires m < 3 && i < 5
    ensures Value(m, Unpacked(Gen(i))) == RootPower(m, 6, Zeta(i))
  {
    hide Value, Unpacked, Gen, Zeta, Horner6, Horner6Bits, Root6Bits, RootPower;
    UnpackedIs(Gen(i));
    var xs := Unpacked(Gen(i));
    ValueOfSix(m, xs);
    Horner6Unrolls(m, xs[0], xs[1], xs[2], xs[3], xs[4], xs[5]);
    RootPower6(m, Zeta(i));
    GenBits(m, i);
  }

  lemma {:induction false} RootPowerAdds(m: nat, k: nat, y: Elem, z: Elem)
    ensures RootPower(m, k, Add(y, z)) == Add(RootPower(m, k, y), RootPower(m, k, z))
  {
    hide Add, Root;
    if k > 0 {
      RootPowerAdds(m, k - 1, y, z);
      RootAdds(m, RootPower(m, k - 1, y), RootPower(m, k - 1, z));
    }
  }

  lemma {:induction false} RootPowerZero(m: nat, k: nat)
    ensures RootPower(m, k, 0) == 0
  {
    hide Root;
    if k > 0 {
      RootPowerZero(m, k - 1);
      RootZero(m);
    }
  }

  lemma {:induction false} ValueOfFeedback(m: nat, top: byte, n: nat)
    requires m < 3 && n <= 5
    ensures Value(m, Unpacked(Feedback(top, n))) == RootPower(m, 6, EmbedLow(top, n))
  {
    hide Value, Unpacked, Xor, Add, Gen, Zeta, RootPower, ShiftRight;
    RootPowerZero(m, 6);
    ValueOfNoFeedback(m);
    if n > 0 {
      ValueOfFeedback(m, top, n - 1);
      UnpackedAdds(Feedback(top, n - 1), Selected(top, n - 1));
      ValueAdds(m, Unpacked(Feedback(top, n - 1)), Unpacked(Selected(top, n - 1)));
      RootPowerAdds(m, 6, EmbedLow(top, n - 1), Picked(top, n - 1));
      ValueOfGen(m, n - 1);
    }
  }

  lemma ValueOfNoFeedback(m: nat)
    ensures Value(m, Unpacked(0)) == 0
  {
    hide Value;
    UnpackedIs(0);
    assert Unpacked(0) == Zeros(6);
    ValueOfZeros(m, 6);
  }

  /** The leading symbol contributes its own power of the root. */
  lemma ValueLeading(m: nat, xs: seq<byte>)
    requires xs != []
    ensures Value(m, xs) == Add(Value(m, xs[1..]), RootPower(m, |xs| - 1, Embed(xs[0])))
  {
    hide Add, RootPower, Embed;
    ValueWithout(m, xs, 0);
    assert xs[0 := 0] == [0] + xs[1..];
    ValueSkipsZero(m, xs[1..]);
  }

  lemma {:induction false} ValueSkipsZero(m: nat, xs: seq<byte>)
    ensures Value(m, [0] + xs) == Value(m, xs)
  {
    hide Horner;
    var n := |xs|;
    if n == 0 {
      assert Value(m, [0]) == Horner(m, 0, 0);
      RootZero(m);
    } else {
      ValueSkipsZero(m, xs[..n - 1]);
      assert ([0] + xs)[..n] == [0] + xs[..n - 1];
    }
  }

  /** One round of the register is one step of Horner's rule at each of the three roots. */
  lemma ValueOfStep(m: nat, chk: word, v: byte)
    requires m < 3 && chk < 0x40000000 && v < 32
    ensures Value(m, Unpacked(Step(chk, v))) == Horner(m, Value(m, Unpacked(chk)), v)
  {
    hide Value, Unpacked, Xor, Add, Step, Feedback, RootPower, Horner, LowPart, Top, Embed;
    var s := Unpacked(chk);
    StepReordered(chk, v);
    UnpackedShift(chk, v);
    UnpackedAdds(Xor(LowPart(chk), v as word), Feedback(Top(chk), 5));
    ValueAdds(m, s[1..] + [v], Unpacked(Feedback(s[0], 5)));
    ValueOfFeedback(m, s[0], 5);
    assert Embed(s[0]) == EmbedLow(s[0], 5) by {
      EmbedIs(s[0]);
    }
    ValueLeading(m, s + [v]);
    assert (s + [v])[1..] == s[1..] + [v];
    assert (s + [v])[..6] == s && (s + [v])[..7] == s + [v];
    ValueNext(m, s + [v], 6);
  }

  lemma EmbedIs(v: byte)
    ensures Embed(v) == EmbedLow(v, 5)
  {}

  lemma {:induction false} FeedKeepsValue(m: nat, xs: seq<byte>)
    requires m < 3 && Symbols(xs)
    ensures Value(m, Unpacked(Feed(0, xs))) == Value(m, xs)
  {
    hide Unpacked, Step, Horner;
    if xs == [] {
      ValueOfNoFeedback(m);
    } else {
      var n := |xs| - 1;
      FeedKeepsValue(m, xs[..n]);
      FeedFits(0, xs[..n]);
      ValueOfStep(m, Feed(0, xs[..n]), xs[n]);
    }
  }

  // ----- three errors -----

  lemma RootIs(m: nat, y: Elem)
    ensures Root(m, y) == Power(m, Root(0, y))
    ensures Root(m, y) == Power(m, Add(Add(y, Power(2, y)), Power(3, y)))
  {}

  /** The root multiplies like the primitive element, so powers of the latter can be moved out. */
  lemma RootOfPower(n: nat, y: Elem)
    ensures Root(0, Power(n, y)) == Power(n, Root(0, y))
  {
    hide *;
    RootIs(0, Power(n, y));
    RootIs(0, y);
    SmallPower(Add(Add(y, Power(2, y)), Power(3, y)));
    SmallPower(Add(Add(Power(n, y), Power(2, Power(n, y))), Power(3, Power(n, y))));
    PowersCommute(2, n, y);
    PowersCommute(3, n, y);
    PowerAdds(n, y, Power(2, y));
    PowerAdds(n, Add(y, Power(2, y)), Power(3, y));
  }

  lemma {:induction false} RootPowerSplits(m: nat, k: nat, y: Elem)
    ensures RootPower(m, k, y) == Power(m * k, RootPower(0, k, y))
  {
    hide Root, Power;
    if k == 0 {
      SmallPower(y);
      assert m * k == 0;
    } else {
      var z := RootPower(0, k - 1, y);
      RootPowerSplits(m, k - 1, y);
      RootIs(m, Power(m * (k - 1), z));
      RootOfPower(m * (k - 1), z);
      PowerPower(m, m * (k - 1), Root(0, z));
      assert m + m * (k - 1) == m * k;
    }
  }

  lemma RootInjective(y: Elem)
    requires Root(0, y) == 0
    ensures y == 0
  {
    hide Root;
    RootUnrolls(0, y);
  }

  lemma {:induction false} RootPowerInjective(k: nat, y: Elem)
    requires RootPower(0, k, y) == 0
    ensures y == 0
  {
    hide Root;
    if k > 0 {
      RootInjective(RootPower(0, k - 1, y));
      RootPowerInjective(k - 1, y);
    }
  }

  /** A word that is zero outside three positions has three contributions. */
  lemma ValueOfThree(m: nat, xs: seq<byte>, i: nat, j: nat, k: nat)
    requires i < j < k < |xs|
    requires forall t :: 0 <= t < |xs| && t != i && t != j && t != k ==> xs[t] == 0
    ensures Value(m, xs) == Add(Add(RootPower(m, |xs| - 1 - i, Embed(xs[i])), RootPower(m, |xs| - 1 - j, Embed(xs[j]))),
                                RootPower(m, |xs| - 1 - k, Embed(xs[k])))
  {
    hide Add, RootPower, Embed, Value;
    var ys := xs[k := 0];
    var zs := ys[j := 0];
    ValueWithout(m, xs, k);
    ValueWithout(m, ys, j);
    ValueWithout(m, zs, i);
    assert zs[i := 0] == Zeros(|xs|);
    ValueOfZeros(m, |xs|);
    AddNothing(RootPower(m, |xs| - 1 - i, Embed(xs[i])));
  }

  /** A word that leaves the zero register at zero has value zero at the three roots. */
  lemma ZeroValue(m: nat, xs: seq<byte>)
    requires m < 3 && Symbols(xs) && Feed(0, xs) == 0
    ensures Value(m, xs) == 0
  {
    FeedKeepsValue(m, xs);
    ValueOfNoFeedback(m);
  }

  /** The equation that root m imposes on a word with three symbols. */
  lemma Equation(m: nat, xs: seq<byte>, i: nat, j: nat, k: nat)
    requires m < 3 && i < j < k < |xs| && Symbols(xs) && Feed(0, xs) == 0
    requires forall t :: 0 <= t < |xs| && t != i && t != j && t != k ==> xs[t] == 0
    ensures var n := |xs| - 1;
            Add(Add(Power(m * (n - i), RootPower(0, n - i, Embed(xs[i]))),
                    Power(m * (n - j), RootPower(0, n - j, Embed(xs[j])))),
                Power(m * (n - k), RootPower(0, n - k, Embed(xs[k])))) == 0
  {
    hide Add, RootPower, Embed, Value, Feed, Power;
    var n := |xs| - 1;
    ZeroValue(m, xs);
    ValueOfThree(m, xs, i, j, k);
    RootPowerSplits(m, n - i, Embed(xs[i]));
    RootPowerSplits(m, n - j, Embed(xs[j]));
    RootPowerSplits(m, n - k, Embed(xs[k]));
  }

  lemma ThreeErrors(xs: seq<byte>, i: nat, j: nat, k: nat)
    requires i < j < k < |xs| <= 1023 && Symbols(xs) && Feed(0, xs) == 0
    requires forall t :: 0 <= t < |xs| && t != i && t != j && t != k ==> xs[t] == 0
    ensures xs[i] == 0 && xs[j] == 0 && xs[k] == 0
  {
    hide Add, RootPower, Embed, Value, Feed, Power;
    var n := |xs| - 1;
    var a := RootPower(0, n - i, Embed(xs[i]));
    var b := RootPower(0, n - j, Embed(xs[j]));
    var c := RootPower(0, n - k, Embed(xs[k]));
    Equation(0, xs, i, j, k);
    Equation(1, xs, i, j, k);
    Equation(2, xs, i, j, k);
    assert 0 * (n - i) == 0 && 0 * (n - j) == 0 && 0 * (n - k) == 0;
    SmallPower(a);
    SmallPower(b);
    SmallPower(c);
    var r, u, v := n - k, k - i, k - j;
    assert 1 * (n - i) == r + u && 1 * (n - j) == r + v && 1 * (n - k) == r;
    assert 2 * (n - i) == 2 * r + 2 * u && 2 * (n - j) == 2 * r + 2 * v && 2 * (n - k) == 2 * r;
    ThreeTerms(r, u, v, a, b, c);
    RootPowerInjective(n - i, Embed(xs[i]));
    RootPowerInjective(n - j, Embed(xs[j]));
    RootPowerInjective(n - k, Embed(xs[k]));
    EmbedInjective(xs[i]);
    EmbedInjective(xs[j]);
    EmbedInjective(xs[k]);
  }

  /** Of two different words of up to 1023 symbols that agree outside three positions, at most one
      verifies. */
  lemma ThreeErrorsDetected(hrp: seq<byte>, d: seq<byte>, e: seq<byte>, i: nat, j: nat, k: nat)
    requires |d| == |e| <= 1023 && Symbols(d) && Symbols(e)
    requires i < j < k < |d|
    requires forall t :: 0 <= t < |d| && t != i && t != j && t != k ==> d[t] == e[t]
    requires Verifies(hrp, d) && Verifies(hrp, e)
    ensures d == e
  {
    hide Sum, Verifies, Feed;
    var s := Sum(d, e);
    forall t | 0 <= t < |d|
      ensures s[t] < 32 && (s[t] == 0 <==> d[t] == e[t])
    {
      SumOfWords(d, e, t);
    }
    DifferenceFeedsToZero(hrp, d, e);
    ThreeErrors(s, i, j, k);
  }

  /** The positions at which two words differ. */
  function Differences(d: seq<byte>, e: seq<byte>): set<nat>
    requires |d| == |e|
  {
    set t: nat | t < |d| && d[t] != e[t]
  }

  /** A set of at most three positions below n extends to one of exactly three. */
  lemma Extended(s: set<nat>, n: nat) returns (u: set<nat>)
    requires |s| <= 3 <= n && forall t :: t in s ==> t < n
    ensures s <= u && |u| == 3 && forall t :: t in u ==> t < n
  {
    u := s;
    while |u| < 3
      invariant s <= u && |u| <= 3 && forall t :: t in u ==> t < n
      decreases 3 - |u|
    {
      var first: set<nat> := {0, 1, 2};
      var x: nat := if 0 !in u then 0 else if 1 !in u then 1 else 2;
      assert x !in u by {
        if first <= u {
          CardinalityOfSubset(first, u);
        }
      }
      u := u + {x};
    }
  }

  lemma ThreeElements(u: set<nat>) returns (a: nat, b: nat, c: nat)
    requires |u| == 3
    ensures a != b && b != c && c != a && a in u && b in u && c in u
    ensures forall t :: t in u ==> t == a || t == b || t == c
  {
    a :| a in u;
    var v: set<nat> := u - {a};
    assert |v| == 2;
    b :| b in v;
    var w: set<nat> := v - {b};
    assert |w| == 1;
    c :| c in w;
    assert |w - {c}| == 0;
    assert u == {a, b, c} by {
      assert w == {c} + (w - {c}) && v == {b} + w && u == {a} + v;
    }
  }

  /** At most three positions below n lie among three increasing positions below n. */
  lemma Covered(s: set<nat>, n: nat) returns (i: nat, j: nat, k: nat)
    requires |s| <= 3 <= n && forall t :: t in s ==> t < n
    ensures i < j < k < n && forall t :: t in s ==> t == i || t == j || t == k
  {
    var u := Extended(s, n);
    var a, b, c := ThreeElements(u);
    i := if a < b && a < c then a else if b < c then b else c;
    k := if a > b && a > c then a else if b > c then b else c;
    j := if a != i && a != k then a else if b != i && b != k then b else c;
  }

  lemma {:induction false} CardinalityOfSubset(s: set<nat>, u: set<nat>)
    requires s <= u
    ensures |s| <= |u|
    decreases |s|
  {
    if x :| x in s {
      CardinalityOfSubset(s - {x}, u - {x});
    }
  }

  /** Two different words of up to 1023 symbols that both verify differ in at least four places. */
  lemma MinimumDistance(hrp: seq<byte>, d: seq<byte>, e: seq<byte>)
    requires |d| == |e| <= 1023 && Symbols(d) && Symbols(e)
    requires Verifies(hrp, d) && Verifies(hrp, e) && d != e
    ensures |Differences(d, e)| >= 4
  {
    hide Verifies;
    if |d| <= 6 {
      BurstDetected(hrp, d, e, 0);
    } else if |Differences(d, e)| <= 3 {
      var i, j, k := Covered(Differences(d, e), |d|);
      assert forall t: nat :: t < |d| && d[t] != e[t] ==> t in Differences(d, e);
      ThreeErrorsDetected(hrp, d, e, i, j, k);
    }
  }
}
