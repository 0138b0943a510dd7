/** What `Polymod` computes, in the terms of BIP-173: the remainder of a polynomial over the field
    with 32 elements modulo the generator polynomial. */
module Remainder {
  import opened Words
  import opened Checksum

  // ----- the field with 32 elements -----

  /** Multiplies by the root of x^5 + x^3 + 1. */
  function Alpha(y: byte): byte {
    XorByte((y << 1) & 0x1f, if y & 0x10 != 0 then 0x09 else 0)
  }

  function AlphaPower(n: nat, y: byte): byte {
    if n == 0 then y else Alpha(AlphaPower(n - 1, y))
  }

  function Term(a: byte, b: byte, i: nat): byte {
    if Odd(ShiftRight(a as word, i)) then AlphaPower(i, b) else 0
  }

  /** The product of the low n bits of a with b. */
  function ProductLow(a: byte, b: byte, n: nat): byte {
    if n == 0 then 0 else XorByte(ProductLow(a, b, n - 1), Term(a, b, n - 1))
  }

  /** The product in the field with 32 elements. */
  function Product(a: byte, b: byte): byte {
    ProductLow(a, b, 5)
  }

  // ----- polynomials, highest coefficient first -----

  function Scaled(c: byte, g: seq<byte>): (r: seq<byte>)
    ensures |r| == |g|
  {
    seq(|g|, i requires 0 <= i < |g| => Product(c, g[i]))
  }

  /** The product of two polynomials, row by row. */
  function PolynomialProduct(q: seq<byte>, g: seq<byte>): (r: seq<byte>)
    requires g != []
    ensures |r| == |q| + |g| - 1
  {
    if q == [] then Zeros(|g| - 1)
    else
      var n := |q| - 1;
      Sum(PolynomialProduct(q[..n], g) + [0], Zeros(n) + Scaled(q[n], g))
  }

  /** x^6 + 29 x^5 + 22 x^4 + 20 x^3 + 21 x^2 + 29 x + 18. */
  const GENERATOR: seq<byte> := [1, 29, 22, 20, 21, 29, 18]

  /** q and r are quotient and remainder of p modulo g. */
  predicate Divides(p: seq<byte>, g: seq<byte>, q: seq<byte>, r: seq<byte>)
    requires g != []
  {
    && |r| == |g| - 1
    && |q| + |r| == |p|
    && p == Sum(PolynomialProduct(q, g), Zeros(|q|) + r)
  }

  // ----- arithmetic -----

  lemma XorByteAssociates(a: byte, b: byte, c: byte)
    ensures XorByte(XorByte(a, b), c) == XorByte(a, XorByte(b, c))
  {}

  lemma XorByteCommutes(a: byte, b: byte)
    ensures XorByte(a, b) == XorByte(b, a)
  {}

  lemma XorByteSwap(a: byte, b: byte, c: byte, d: byte)
    ensures XorByte(XorByte(a, b), XorByte(c, d)) == XorByte(XorByte(a, c), XorByte(b, d))
  {
    hide XorByte;
    XorByteAssociates(a, b, XorByte(c, d));
    XorByteAssociates(b, c, d);
    XorByteCommutes(b, c);
    XorByteAssociates(c, b, d);
    XorByteAssociates(a, c, XorByte(b, d));
  }

  lemma XorByteZero(a: byte, b: byte)
    ensures XorByte(a, 0) == a && XorByte(0, a) == a && XorByte(a, b) == XorByte(b, a)
    ensures XorByte(a, b) == 0 <==> a == b
    ensures XorByte(XorByte(a, b), b) == a
    ensures a < 32 && b < 32 ==> XorByte(a, b) < 32
  {}

  lemma AlphaFits(y: byte)
    requires y < 32
    ensures Alpha(y) < 32
  {}

  lemma {:induction false} AlphaPowerFits(n: nat, y: byte)
    requires y < 32
    ensures AlphaPower(n, y) < 32
  {
    if n > 0 {
      hide Alpha;
      AlphaPowerFits(n - 1, y);
      AlphaFits(AlphaPower(n - 1, y));
    }
  }

  lemma {:induction false} ProductLowFits(a: byte, b: byte, n: nat)
    requires b < 32
    ensures ProductLow(a, b, n) < 32
  {
    hide XorByte, ShiftRight, Odd, AlphaPower;
    if n > 0 {
      ProductLowFits(a, b, n - 1);
      AlphaPowerFits(n - 1, b);
      XorByteZero(ProductLow(a, b, n - 1), Term(a, b, n - 1));
    }
  }

  lemma TermAdds(a: byte, c: byte, b: byte, i: nat)
    ensures Term(XorByte(a, c), b, i) == XorByte(Term(a, b, i), Term(c, b, i))
  {
    hide ShiftRight, Odd, Xor, XorByte, AlphaPower;
    ByteXor(a, c);
    ShiftRightAdds(a as word, c as word, i);
    HalfAdds(ShiftRight(a as word, i), ShiftRight(c as word, i));
    XorByteZero(AlphaPower(i, b), AlphaPower(i, b));
    XorByteZero(0, 0);
  }

  lemma {:induction false} ProductLowAdds(a: byte, c: byte, b: byte, n: nat)
    ensures ProductLow(XorByte(a, c), b, n) == XorByte(ProductLow(a, b, n), ProductLow(c, b, n))
  {
    hide XorByte, Term;
    if n == 0 {
      XorByteZero(0, 0);
    } else {
      ProductLowAdds(a, c, b, n - 1);
      TermAdds(a, c, b, n - 1);
      XorByteSwap(ProductLow(a, b, n - 1), ProductLow(c, b, n - 1), Term(a, b, n - 1), Term(c, b, n - 1));
    }
  }

  lemma ProductIsSum(a: byte, b: byte)
    ensures Product(a, b) ==
            XorByte(XorByte(XorByte(XorByte(Term(a, b, 0), Term(a, b, 1)), Term(a, b, 2)), Term(a, b, 3)),
                    Term(a, b, 4))
  {
    hide XorByte, Term;
    XorByteZero(Term(a, b, 0), 0);
    assert ProductLow(a, b, 1) == Term(a, b, 0);
    assert ProductLow(a, b, 3) == XorByte(XorByte(Term(a, b, 0), Term(a, b, 1)), Term(a, b, 2));
    assert ProductLow(a, b, 5) == XorByte(XorByte(ProductLow(a, b, 3), Term(a, b, 3)), Term(a, b, 4));
  }

  lemma TermUnrolls(a: byte, b: byte)
    ensures Term(a, b, 0) == (if a & 1 != 0 then b else 0)
    ensures Term(a, b, 1) == (if a & 2 != 0 then Alpha(b) else 0)
    ensures Term(a, b, 2) == (if a & 4 != 0 then Alpha(Alpha(b)) else 0)
    ensures Term(a, b, 3) == (if a & 8 != 0 then Alpha(Alpha(Alpha(b))) else 0)
    ensures Term(a, b, 4) == (if a & 16 != 0 then Alpha(Alpha(Alpha(Alpha(b)))) else 0)
  {
    hide Alpha;
    var x := a as word;
    assert ShiftRight(x, 1) == x >> 1;
    assert ShiftRight(x, 2) == x >> 2;
    assert ShiftRight(x, 3) == x >> 3;
    assert ShiftRight(x, 4) == x >> 4;
    assert AlphaPower(1, b) == Alpha(b);
    assert AlphaPower(2, b) == Alpha(Alpha(b));
    assert AlphaPower(3, b) == Alpha(Alpha(Alpha(b)));
    assert AlphaPower(4, b) == Alpha(Alpha(Alpha(Alpha(b))));
  }

  lemma ProductWithOne(a: byte)
    requires a < 32
    ensures Product(a, 1) == a
  {
    hide Product, Term;
    ProductIsSum(a, 1);
    TermUnrolls(a, 1);
  }

  // ----- the constants of `Polymod` -----

  function Tail(j: nat): byte
    requires j < 6
  {
    GENERATOR[j + 1]
  }

  lemma AlphaPowerUnrolls(y: byte)
    ensures AlphaPower(0, y) == y && AlphaPower(1, y) == Alpha(y) && AlphaPower(2, y) == Alpha(Alpha(y))
    ensures AlphaPower(3, y) == Alpha(Alpha(Alpha(y))) && AlphaPower(4, y) == Alpha(Alpha(Alpha(Alpha(y))))
  {
    hide Alpha;
    assert AlphaPower(1, y) == Alpha(y);
    assert AlphaPower(2, y) == Alpha(Alpha(y));
    assert AlphaPower(3, y) == Alpha(Alpha(Alpha(y)));
  }

  /** Constant i of `Polymod` is the generator without its leading coefficient, times alpha to the i. */
  lemma GenIsScaled(i: nat, j: nat)
    requires i < 5 && j < 6
    ensures Unpacked(Gen(i))[j] == AlphaPower(i, Tail(j))
  {
    hide Unpacked, AlphaPower;
    UnpackedIs(Gen(i));
    AlphaPowerUnrolls(Tail(j));
    if i == 0 {
      if j == 0 {} else if j == 1 {} else if j == 2 {} else if j == 3 {} else if j == 4 {} else {}
    } else if i == 1 {
      if j == 0 {} else if j == 1 {} else if j == 2 {} else if j == 3 {} else if j == 4 {} else {}
    } else if i == 2 {
      if j == 0 {} else if j == 1 {} else if j == 2 {} else if j == 3 {} else if j == 4 {} else {}
    } else if i == 3 {
      if j == 0 {} else if j == 1 {} else if j == 2 {} else if j == 3 {} else if j == 4 {} else {}
    } else {
      if j == 0 {} else if j == 1 {} else if j == 2 {} else if j == 3 {} else if j == 4 {} else {}
    }
  }

  lemma {:induction false} FeedbackIsScaled(top: byte, n: nat, j: nat)
    requires n <= 5 && j < 6
    ensures Unpacked(Feedback(top, n))[j] == ProductLow(top, Tail(j), n)
  {
    hide Unpacked, Xor, XorByte, Gen, Tail, ShiftRight, Odd, AlphaPower;
    if n == 0 {
      UnpackedZero(j);
    } else {
      FeedbackIsScaled(top, n - 1, j);
      UnpackedAdds(Feedback(top, n - 1), Selected(top, n - 1));
      GenIsScaled(n - 1, j);
      UnpackedZero(j);
    }
  }

  lemma UnpackedZero(j: nat)
    requires j < 6
    ensures Unpacked(0)[j] == 0
  {
    hide Unpacked;
    UnpackedIs(0);
  }

  // ----- division -----

  /** The symbols that leave the register: the quotient. */
  function Quotient(values: seq<byte>): (q: seq<byte>)
    ensures |q| == |values|
  {
    if values == [] then []
    else
      var n := |values| - 1;
      Quotient(values[..n]) + [Top(Feed(1, values[..n]))]
  }

  /** The polynomial with coefficients 1 and then the symbols, written with enough leading zeros. */
  function Dividend(values: seq<byte>): (p: seq<byte>)
    ensures |p| == |values| + 6
  {
    Zeros(5) + [1] + values
  }

  lemma TopFits(chk: word)
    requires chk < 0x40000000
    ensures Top(chk) < 32
  {}

  lemma StepSymbols(chk: word, v: byte, j: nat)
    requires chk < 0x40000000 && v < 32 && j < 6
    ensures Top(chk) == Unpacked(chk)[0]
    ensures Unpacked(Step(chk, v))[j] ==
            XorByte(if j < 5 then Unpacked(chk)[j + 1] else v, Product(Top(chk), Tail(j)))
  {
    hide Unpacked, Xor, XorByte, Step, LowPart, Top, Feedback, Tail;
    StepReordered(chk, v);
    UnpackedShift(chk, v);
    UnpackedAdds(Xor(LowPart(chk), v as word), Feedback(Top(chk), 5));
    FeedbackIsScaled(Top(chk), 5, j);
  }

  /** One more symbol: the row of the new quotient symbol cancels the leading register symbol. */
  lemma DivisionStep(values: seq<byte>, q: seq<byte>, chk: word, v: byte)
    requires chk < 0x40000000 && v < 32 && |q| == |values|
    requires Divides(Dividend(values), GENERATOR, q, Unpacked(chk))
    ensures Divides(Dividend(values + [v]), GENERATOR, q + [Top(chk)], Unpacked(Step(chk, v)))
  {
    hide Unpacked, XorByte, Step, Top, Product, PolynomialProduct;
    var n := |q|;
    var t := Top(chk);
    var old' := PolynomialProduct(q, GENERATOR);
    var new' := PolynomialProduct(q + [t], GENERATOR);
    assert new' == Sum(old' + [0], Zeros(n) + Scaled(t, GENERATOR)) by {
      ProductSnoc(q, t, GENERATOR);
    }
    var p, p' := Dividend(values), Dividend(values + [v]);
    var r := Unpacked(Step(chk, v));
    var s := Sum(new', Zeros(n + 1) + r);
    TopFits(chk);
    ProductWithOne(t);
    assert forall i :: 0 <= i < |p| ==> p'[i] == p[i];
    forall i | 0 <= i < |p'|
      ensures s[i] == p'[i]
    {
      if i < n {
        XorByteZero(old'[i], 0);
        assert s[i] == p[i];
      } else if i == n {
        StepSymbols(chk, v, 0);
        XorByteZero(XorByte(old'[i], t), 0);
        assert new'[i] == XorByte(old'[i], Product(t, 1));
        assert p[i] == XorByte(old'[i], Unpacked(chk)[0]);
      } else {
        var j := i - n - 1;
        StepSymbols(chk, v, j);
        var o := if j < 5 then old'[i] else 0;
        var x := if j < 5 then Unpacked(chk)[j + 1] else v;
        var y := Product(t, Tail(j));
        assert new'[i] == XorByte(o, y);
        assert p'[i] == XorByte(o, x) by {
          XorByteZero(v, 0);
          if j < 5 {
            assert p[i] == XorByte(old'[i], (Zeros(n) + Unpacked(chk))[i]);
          }
        }
        XorByteSwap(o, y, x, y);
        XorByteZero(y, y);
        XorByteZero(XorByte(o, x), 0);
      }
    }
    assert s == p';
  }

  lemma ProductSnoc(q: seq<byte>, t: byte, g: seq<byte>)
    requires g != []
    ensures PolynomialProduct(q + [t], g) == Sum(PolynomialProduct(q, g) + [0], Zeros(|q|) + Scaled(t, g))
  {
    hide Sum, Scaled;
    assert (q + [t])[..|q|] == q;
  }

  /** `Polymod` divides: its result is the remainder of the dividend modulo the generator. */
  lemma {:induction false} PolymodDivides(values: seq<byte>)
    requires Symbols(values)
    ensures Divides(Dividend(values), GENERATOR, Quotient(values), Unpacked(Feed(1, values)))
  {
    hide Divides, Unpacked, Step, Top;
    if values == [] {
      DivisionOfOne();
    } else {
      var n := |values| - 1;
      PolymodDivides(values[..n]);
      FeedFits(1, values[..n]);
      DivisionStep(values[..n], Quotient(values[..n]), Feed(1, values[..n]), values[n]);
      assert values[..n] + [values[n]] == values;
    }
  }

  lemma DivisionOfOne()
    ensures Divides(Dividend([]), GENERATOR, [], Unpacked(1))
  {
    hide Unpacked;
    UnpackedIs(1);
  }

  // ----- the remainder is unique -----

  lemma SumSwap(a: seq<byte>, b: seq<byte>, c: seq<byte>, d: seq<byte>)
    requires |a| == |b| == |c| == |d|
    ensures Sum(Sum(a, b), Sum(c, d)) == Sum(Sum(a, c), Sum(b, d))
  {
    hide XorByte;
    forall i | 0 <= i < |a|
      ensures Sum(Sum(a, b), Sum(c, d))[i] == Sum(Sum(a, c), Sum(b, d))[i]
    {
      XorByteSwap(a[i], b[i], c[i], d[i]);
    }
  }

  lemma RowAdds(n: nat, s: byte, t: byte, g: seq<byte>)
    ensures Zeros(n) + Scaled(XorByte(s, t), g) == Sum(Zeros(n) + Scaled(s, g), Zeros(n) + Scaled(t, g))
  {
    hide XorByte, ProductLow;
    XorByteZero(0, 0);
    forall i | 0 <= i < |g|
      ensures Product(XorByte(s, t), g[i]) == XorByte(Product(s, g[i]), Product(t, g[i]))
    {
      ProductLowAdds(s, t, g[i], 5);
    }
  }

  lemma {:induction false} PolynomialProductAdds(p: seq<byte>, q: seq<byte>, g: seq<byte>)
    requires |p| == |q| && g != []
    ensures PolynomialProduct(Sum(p, q), g) == Sum(PolynomialProduct(p, g), PolynomialProduct(q, g))
  {
    if p == [] {
      XorByteZero(0, 0);
      assert Sum(p, q) == [];
      assert Sum(Zeros(|g| - 1), Zeros(|g| - 1)) == Zeros(|g| - 1);
    } else {
      hide XorByte, Scaled;
      var n := |p| - 1;
      PolynomialProductAdds(p[..n], q[..n], g);
      assert Sum(p, q)[..n] == Sum(p[..n], q[..n]);
      var x, y := PolynomialProduct(p[..n], g), PolynomialProduct(q[..n], g);
      XorByteZero(0, 0);
      assert Sum(x, y) + [0] == Sum(x + [0], y + [0]);
      RowAdds(n, p[n], q[n], g);
      SumSwap(x + [0], y + [0], Zeros(n) + Scaled(p[n], g), Zeros(n) + Scaled(q[n], g));
    }
  }

  /** Below the first non-zero coefficient nothing can cancel it. */
  lemma {:induction false} LeadingCoefficient(q: seq<byte>, g: seq<byte>, p: nat)
    requires p < |q| && Symbols(q) && g != [] && g[0] == 1
    requires forall i :: 0 <= i < p ==> q[i] == 0
    ensures PolynomialProduct(q, g)[p] == q[p]
  {
    hide XorByte, Product;
    var n := |q| - 1;
    ProductWithOne(q[n]);
    if p == n {
      assert q[..n] == Zeros(n);
      ProductOfZeros(n, g);
      var row := PolynomialProduct(q[..n], g) + [0];
      assert row == Zeros(|row|);
      XorByteZero(q[n], 0);
    } else {
      LeadingCoefficient(q[..n], g, p);
      XorByteZero(q[p], 0);
    }
  }

  lemma {:induction false} ProductOfZeros(n: nat, g: seq<byte>)
    requires g != []
    ensures PolynomialProduct(Zeros(n), g) == Zeros(n + |g| - 1)
  {
    if n > 0 {
      hide XorByte, Product;
      assert Zeros(n)[..n - 1] == Zeros(n - 1);
      ProductOfZeros(n - 1, g);
      forall i | 0 <= i < |g|
        ensures Product(0, g[i]) == 0
      {
        ProductOfZero(g[i]);
      }
      XorByteZero(0, 0);
      assert Scaled(0, g) == Zeros(|g|);
    }
  }

  lemma ProductOfZero(b: byte)
    ensures Product(0, b) == 0
  {
    hide Product, Term;
    ProductIsSum(0, b);
    TermUnrolls(0, b);
  }

  /** Only the zero polynomial of lower degree is a multiple of the divisor. */
  lemma {:induction false} OnlyZeroCancels(q: seq<byte>, r: seq<byte>, g: seq<byte>, p: nat)
    requires g != [] && g[0] == 1 && |r| == |g| - 1 && Symbols(q) && p <= |q|
    requires Sum(PolynomialProduct(q, g), Zeros(|q|) + r) == Zeros(|q| + |r|)
    ensures forall i :: 0 <= i < p ==> q[i] == 0
  {
    if p > 0 {
      hide XorByte, PolynomialProduct;
      OnlyZeroCancels(q, r, g, p - 1);
      LeadingCoefficient(q, g, p - 1);
      XorByteZero(q[p - 1], 0);
      assert Sum(PolynomialProduct(q, g), Zeros(|q|) + r)[p - 1] == 0;
    }
  }

  lemma SumIsZero(a: seq<byte>, b: seq<byte>)
    requires |a| == |b|
    ensures Sum(a, b) == Zeros(|a|) <==> a == b
  {
    hide XorByte;
    forall i | 0 <= i < |a|
      ensures Sum(a, b)[i] == 0 <==> a[i] == b[i]
    {
      XorByteZero(a[i], b[i]);
    }
    if Sum(a, b) == Zeros(|a|) {
      forall i | 0 <= i < |a|
        ensures a[i] == b[i]
      {
        assert Sum(a, b)[i] == 0;
      }
    }
  }

  lemma SymbolsAdd(a: seq<byte>, b: seq<byte>)
    requires |a| == |b| && Symbols(a) && Symbols(b)
    ensures Symbols(Sum(a, b))
  {
    hide XorByte;
    forall i | 0 <= i < |a|
      ensures Sum(a, b)[i] < 32
    {
      XorByteZero(a[i], b[i]);
    }
  }

  lemma DivisionUnique(p: seq<byte>, g: seq<byte>, q: seq<byte>, r: seq<byte>, q': seq<byte>, r': seq<byte>)
    requires g != [] && g[0] == 1 && Symbols(q) && Symbols(q')
    requires Divides(p, g, q, r) && Divides(p, g, q', r')
    ensures q == q' && r == r'
  {
    hide XorByte, PolynomialProduct, Sum;
    var n := |q|;
    var x, x' := PolynomialProduct(q, g), PolynomialProduct(q', g);
    var dq, dr := Sum(q, q'), Sum(r, r');
    PolynomialProductAdds(q, q', g);
    assert Zeros(n) + dr == Sum(Zeros(n) + r, Zeros(n) + r') by {
      ZerosThenSum(n, r, r');
    }
    SumSwap(x, Zeros(n) + r, x', Zeros(n) + r');
    SumIsZero(p, p);
    SymbolsAdd(q, q');
    OnlyZeroCancels(dq, dr, g, n);
    assert dq == Zeros(n);
    SumIsZero(q, q');
    SumIsZero(x, x);
    SumIsZero(Zeros(n) + r, Zeros(n) + r');
    ZeroPlus(Zeros(n) + dr);
    assert r == (Zeros(n) + r)[n..] && r' == (Zeros(n) + r')[n..];
  }

  lemma ZerosThenSum(n: nat, r: seq<byte>, s: seq<byte>)
    requires |r| == |s|
    ensures Zeros(n) + Sum(r, s) == Sum(Zeros(n) + r, Zeros(n) + s)
  {
    hide XorByte;
    XorByteZero(0, 0);
  }

  lemma ZeroPlus(a: seq<byte>)
    ensures Sum(Zeros(|a|), a) == a
  {
    hide XorByte;
    forall i | 0 <= i < |a|
      ensures Sum(Zeros(|a|), a)[i] == a[i]
    {
      XorByteZero(a[i], 0);
    }
  }

  lemma {:induction false} QuotientSymbols(values: seq<byte>)
    ensures Symbols(Quotient(values))
  {
    hide Top, Step;
    if values != [] {
      var n := |values| - 1;
      QuotientSymbols(values[..n]);
      FeedFits(1, values[..n]);
      TopFits(Feed(1, values[..n]));
    }
  }

  /** The register after `Polymod` is the remainder, and the only one. */
  lemma PolymodIsRemainder(values: seq<byte>, q: seq<byte>, r: seq<byte>)
    requires Symbols(values) && Symbols(q)
    ensures Divides(Dividend(values), GENERATOR, q, r) <==> q == Quotient(values) && r == Unpacked(Feed(1, values))
  {
    hide Divides, Unpacked, Feed;
    PolymodDivides(values);
    QuotientSymbols(values);
    if Divides(Dividend(values), GENERATOR, q, r) {
      DivisionUnique(Dividend(values), GENERATOR, q, r, Quotient(values), Unpacked(Feed(1, values)));
    }
  }
}
