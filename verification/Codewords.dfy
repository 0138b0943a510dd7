/** The checksum generator and the verifier of `bech32_internal.hpp`, and the errors that the
    verifier never misses. */
module Codewords {
  import opened Words
  import opened Checksum

  /** The value of c >> 5 for a signed char c, as an unsigned byte. */
  function High(c: byte): byte {
    if c < 0x80 then c >> 5 else (c >> 5) | 0xf8
  }

  function Expanded(hrp: seq<byte>): seq<byte> {
    seq(|hrp|, i requires 0 <= i < |hrp| => High(hrp[i])) + [0]
    + seq(|hrp|, i requires 0 <= i < |hrp| => hrp[i] & 31)
  }

  /** The expansion of a prefix: for each character the part above its low five bits, extended by the
      sign, then a zero, then the low five bits. */
  lemma ExpandedParts(hrp: seq<byte>, i: nat)
    requires i < |hrp|
    ensures |Expanded(hrp)| == 2 * |hrp| + 1 && Expanded(hrp)[|hrp|] == 0
    ensures var c, high, low := hrp[i] as int, Expanded(hrp)[i] as int, Expanded(hrp)[|hrp| + 1 + i] as int;
            && 0 <= low < 32
            && (c < 128 ==> c == 32 * high + low)
            && (c >= 128 ==> c - 256 == 32 * (high - 256) + low)
  {
    hide High;
    CharParts(hrp[i]);
  }

  lemma CharParts(c: byte)
    ensures 0 <= (c & 31) as int < 32
    ensures (c as int) < 128 ==> c as int == 32 * (High(c) as int) + (c & 31) as int
    ensures c as int >= 128 ==> c as int - 256 == 32 * (High(c) as int - 256) + (c & 31) as int
  {}

  method HrpExpand(hrp: seq<byte>) returns (out: seq<byte>)
    ensures out == Expanded(hrp)
  {
    out := [];
    for i := 0 to |hrp|
      invariant out == seq(i, j requires 0 <= j < i => High(hrp[j]))
    {
      out := out + [High(hrp[i])];
    }
    out := out + [0];
    ghost var head := out;
    for i := 0 to |hrp|
      invariant out == head + seq(i, j requires 0 <= j < i => hrp[j] & 31)
    {
      out := out + [hrp[i] & 31];
    }
  }

  /** The register after the human-readable part and the symbols. */
  function Residue(hrp: seq<byte>, data: seq<byte>): word {
    Feed(1, Expanded(hrp) + data)
  }

  /** What `VerifyChecksum` decides. */
  predicate Verifies(hrp: seq<byte>, data: seq<byte>) {
    Residue(hrp, data) == 1
  }

  method VerifyChecksum(hrp: seq<byte>, data: seq<byte>) returns (ok: bool)
    ensures ok == Verifies(hrp, data)
  {
    var values := HrpExpand(hrp);
    values := values + data;
    var chk := Polymod(values);
    ok := chk == 1;
  }

  /** The six symbols that `CreateChecksum` computes. */
  function Generated(hrp: seq<byte>, data: seq<byte>): (c: seq<byte>)
    ensures |c| == 6
  {
    Unpacked(Xor(Residue(hrp, data + Zeros(6)), 1))
  }

  method CreateChecksum(hrp: seq<byte>, data: seq<byte>) returns (checksum: seq<byte>)
    ensures checksum == Generated(hrp, data)
  {
    hide Feed, Symbol;
    var values := HrpExpand(hrp);
    values := values + data;
    for i := 0 to 6
      invariant values == Expanded(hrp) + data + Zeros(i)
    {
      values := values + [0];
    }
    assert values == Expanded(hrp) + (data + Zeros(6));
    var poly := Polymod(values);
    poly := Xor(poly, 1);
    checksum := seq(6, i => 0);
    for i := 0 to 6
      invariant |checksum| == 6
      invariant forall j :: 0 <= j < i ==> checksum[j] == Symbol(poly, j)
    {
      checksum := checksum[i := Symbol(poly, i)];
    }
  }

  lemma ResidueAppends(hrp: seq<byte>, d: seq<byte>, c: seq<byte>)
    ensures Residue(hrp, d + c) == Feed(Residue(hrp, d), c)
  {
    assert Expanded(hrp) + (d + c) == (Expanded(hrp) + d) + c;
    FeedAppends(1, Expanded(hrp) + d, c);
  }

  /** Six symbols are added to what six zeros make of the register. */
  lemma FeedOfSix(r: word, c: seq<byte>)
    requires |c| == 6 && Symbols(c)
    ensures Feed(r, c) == Xor(Feed(r, Zeros(6)), Packed(c))
  {
    hide Xor, Feed, Packed;
    SumWithZeros(c);
    XorZero(r, 0);
    FeedAdds(r, 0, Zeros(6), c);
    FeedSix(c);
  }

  lemma SumWithZeros(c: seq<byte>)
    ensures Sum(Zeros(|c|), c) == c
  {}

  lemma ResidueFits(hrp: seq<byte>, d: seq<byte>)
    ensures Residue(hrp, d) < 0x40000000
  {
    FeedFits(1, Expanded(hrp) + d);
  }

  lemma XorMoves(r: word, p: word)
    ensures Xor(r, p) == 1 <==> p == Xor(r, 1)
  {
    hide Xor;
    XorAssociates(r, r, p);
    XorAssociates(r, r, 1);
    XorZero(r, r);
    XorZero(p, 0);
    XorZero(1, 0);
  }

  lemma XorOneFits(r: word)
    requires r < 0x40000000
    ensures Xor(r, 1) < 0x40000000
  {}

  /** The six symbols that take a register to 1. */
  function ChecksumFrom(r: word): (c: seq<byte>)
    ensures |c| == 6
  {
    Unpacked(Xor(Feed(r, Zeros(6)), 1))
  }

  lemma OneChecksum(r: word, c: seq<byte>)
    requires r < 0x40000000 && |c| == 6 && Symbols(c)
    ensures Feed(r, c) == 1 <==> c == ChecksumFrom(r)
  {
    hide Xor, Feed, Packed, Unpacked;
    var z := Feed(r, Zeros(6));
    FeedOfSix(r, c);
    XorMoves(z, Packed(c));
    FeedFits(r, Zeros(6));
    XorOneFits(z);
    PackedUnpacked(Xor(z, 1));
    if Packed(c) == Xor(z, 1) {
      PackedInjective(c, ChecksumFrom(r));
    }
  }

  lemma GeneratedFrom(hrp: seq<byte>, d: seq<byte>)
    ensures Generated(hrp, d) == ChecksumFrom(Residue(hrp, d))
  {
    hide Residue, Feed, Unpacked;
    ResidueAppends(hrp, d, Zeros(6));
  }

  /** The verifier accepts exactly the checksum that the generator computes. */
  lemma GeneratorMeetsVerifier(hrp: seq<byte>, d: seq<byte>, c: seq<byte>)
    requires |c| == 6 && Symbols(c)
    ensures Verifies(hrp, d + c) <==> c == Generated(hrp, d)
  {
    hide Residue, Feed, ChecksumFrom, Generated;
    ResidueAppends(hrp, d, c);
    ResidueFits(hrp, d);
    OneChecksum(Residue(hrp, d), c);
    GeneratedFrom(hrp, d);
  }

  lemma GeneratedSymbols(hrp: seq<byte>, d: seq<byte>)
    ensures Symbols(Generated(hrp, d))
  {
    ResidueFits(hrp, d + Zeros(6));
    XorOneFits(Residue(hrp, d + Zeros(6)));
    PackedUnpacked(Xor(Residue(hrp, d + Zeros(6)), 1));
  }

  // ----- errors -----

  /** Two words that both verify differ by a word that leaves the zero register at zero. */
  lemma DifferenceFeedsToZero(hrp: seq<byte>, d: seq<byte>, e: seq<byte>)
    requires |d| == |e| && Verifies(hrp, d) && Verifies(hrp, e)
    ensures Feed(0, Sum(d, e)) == 0
  {
    hide Xor, Feed;
    var r := Residue(hrp, []);
    ResidueAppends(hrp, [], d);
    ResidueAppends(hrp, [], e);
    assert [] + d == d && [] + e == e;
    FeedAdds(r, r, d, e);
    XorZero(r, r);
    XorZero(1, 1);
  }

  lemma {:induction false} FeedZeros(n: nat)
    ensures Feed(0, Zeros(n)) == 0
  {
    if n > 0 {
      assert Zeros(n)[..n - 1] == Zeros(n - 1);
      FeedZeros(n - 1);
      FeedbackUnrolls(0);
    }
  }

  lemma {:induction false} ZerosInjective(chk: word, n: nat)
    requires chk < 0x40000000 && Feed(chk, Zeros(n)) == 0
    ensures chk == 0
  {
    if n > 0 {
      hide Advance;
      assert Zeros(n)[..n - 1] == Zeros(n - 1);
      var before := Feed(chk, Zeros(n - 1));
      StepWithZero(before);
      FeedFits(chk, Zeros(n - 1));
      AdvanceInjective(before);
      ZerosInjective(chk, n - 1);
    }
  }

  lemma StepWithZero(chk: word)
    ensures Step(chk, 0) == Advance(chk)
  {
    hide Advance;
  }

  /** A window of at most six non-zero symbols, followed by any number of zeros, is detected. */
  lemma WindowDetected(p: nat, w: seq<byte>, n: nat)
    requires |w| <= 6 && Symbols(w) && Feed(0, Zeros(p) + w + Zeros(n)) == 0
    ensures w == Zeros(|w|)
  {
    hide Feed;
    FeedAppends(0, Zeros(p) + w, Zeros(n));
    FeedAppends(0, Zeros(p), w);
    FeedZeros(p);
    FeedFits(0, w);
    ZerosInjective(Feed(0, w), n);
    var six := Zeros(6 - |w|) + w;
    FeedAppends(0, Zeros(6 - |w|), w);
    FeedZeros(6 - |w|);
    FeedSix(six);
    FeedSix(Zeros(6));
    FeedZeros(6);
    PackedInjective(six, Zeros(6));
    assert w == six[6 - |w|..];
  }

  lemma SumOfWords(d: seq<byte>, e: seq<byte>, i: nat)
    requires i < |d| == |e|
    ensures Sum(d, e)[i] == 0 <==> d[i] == e[i]
    ensures d[i] < 32 && e[i] < 32 ==> Sum(d, e)[i] < 32
  {
    XorByteIsZero(d[i], e[i]);
  }

  lemma XorByteIsZero(a: byte, b: byte)
    ensures XorByte(a, b) == 0 <==> a == b
    ensures a < 32 && b < 32 ==> XorByte(a, b) < 32
  {}

  lemma WindowOfSum(d: seq<byte>, e: seq<byte>, p: nat, q: nat)
    requires |d| == |e| && p <= q <= |d|
    requires forall i :: 0 <= i < |d| && !(p <= i < q) ==> d[i] == e[i]
    ensures Sum(d, e) == Zeros(p) + Sum(d, e)[p..q] + Zeros(|d| - q)
  {
    hide Sum;
    forall i | 0 <= i < |d|
      ensures Sum(d, e)[i] == 0 <==> d[i] == e[i]
    {
      SumOfWords(d, e, i);
    }
  }

  /** Burst detection: of two different words of any length that agree outside a window of six
      consecutive symbols, at most one verifies. */
  lemma BurstDetected(hrp: seq<byte>, d: seq<byte>, e: seq<byte>, p: nat)
    requires |d| == |e|
    requires forall i :: 0 <= i < |d| && !(p <= i < p + 6) ==> d[i] == e[i]
    requires forall i :: p <= i < |d| && i < p + 6 ==> d[i] < 32 && e[i] < 32
    requires Verifies(hrp, d) && Verifies(hrp, e)
    ensures d == e
  {
    hide Sum, Verifies, Feed;
    if p < |d| {
      var q := if p + 6 <= |d| then p + 6 else |d|;
      var w := Sum(d, e)[p..q];
      DifferenceFeedsToZero(hrp, d, e);
      WindowOfSum(d, e, p, q);
      forall k | 0 <= k < |w|
        ensures w[k] < 32 && (w[k] == 0 <==> d[p + k] == e[p + k])
      {
        SumOfWords(d, e, p + k);
      }
      WindowDetected(p, w, |d| - q);
      forall i | p <= i < q
        ensures d[i] == e[i]
      {
        var k := i - p;
        assert w[k] == 0;
      }
    }
  }
}
