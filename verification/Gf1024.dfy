/** The field with 1024 elements, as far as the distance of the checksum code needs it. An element
    is a ten-bit word, `Add` is its addition and `Times` multiplies by one primitive element; the
    proofs need no other multiplication than by powers of that element. */
module Gf1024 {
  type Elem = bv10

  function Add(y: Elem, z: Elem): Elem {
    y ^ z
  }

  /** Multiplies by the primitive element, a root of x^10 + x^9 + x^5 + x^2 + 1. */
  function Times(y: Elem): Elem {
    Add(Raised(y), Overflow(y))
  }

  function Raised(y: Elem): Elem {
    y << 1
  }

  function Overflow(y: Elem): Elem {
    if y & 0x200 != 0 then 0x225 else 0
  }

  /** Multiplies n times by the primitive element. */
  function Power(n: nat, y: Elem): Elem {
    if n == 0 then y else Times(Power(n - 1, y))
  }

  lemma AddAssociates(a: Elem, b: Elem, c: Elem)
    ensures Add(Add(a, b), c) == Add(a, Add(b, c))
  {}

  lemma AddCommutes(a: Elem, b: Elem)
    ensures Add(a, b) == Add(b, a)
  {}

  lemma AddSwap(a: Elem, b: Elem, c: Elem, d: Elem)
    ensures Add(Add(a, b), Add(c, d)) == Add(Add(a, c), Add(b, d))
  {
    hide Add;
    AddAssociates(a, b, Add(c, d));
    AddAssociates(b, c, d);
    AddCommutes(b, c);
    AddAssociates(c, b, d);
    AddAssociates(a, c, Add(b, d));
  }

  lemma PartsAdd(y: Elem, z: Elem)
    ensures Raised(Add(y, z)) == Add(Raised(y), Raised(z))
    ensures Overflow(Add(y, z)) == Add(Overflow(y), Overflow(z))
  {}

  lemma TimesAdds(y: Elem, z: Elem)
    ensures Times(Add(y, z)) == Add(Times(y), Times(z))
  {
    hide Add, Raised, Overflow;
    PartsAdd(y, z);
    AddSwap(Raised(y), Raised(z), Overflow(y), Overflow(z));
  }

  lemma TimesInjective(y: Elem)
    requires Times(y) == 0
    ensures y == 0
  {}

  lemma AddZero(y: Elem, z: Elem)
    ensures Add(y, z) == 0 <==> y == z
  {}

  lemma {:induction false} PowerAdds(n: nat, y: Elem, z: Elem)
    ensures Power(n, Add(y, z)) == Add(Power(n, y), Power(n, z))
  {
    hide Add, Times;
    if n > 0 {
      PowerAdds(n - 1, y, z);
      TimesAdds(Power(n - 1, y), Power(n - 1, z));
    }
  }

  lemma {:induction false} PowerPower(m: nat, n: nat, y: Elem)
    ensures Power(m, Power(n, y)) == Power(m + n, y)
  {
    hide Times;
    if m > 0 {
      PowerPower(m - 1, n, y);
    }
  }

  lemma PowersCommute(m: nat, n: nat, y: Elem)
    ensures Power(m, Power(n, y)) == Power(n, Power(m, y)) == Power(m + n, y)
  {
    PowerPower(m, n, y);
    PowerPower(n, m, y);
  }

  lemma {:induction false} PowerZero(n: nat)
    ensures Power(n, 0) == 0
  {
    if n > 0 {
      PowerZero(n - 1);
    }
  }

  lemma {:induction false} PowerInjective(n: nat, y: Elem, z: Elem)
    requires Power(n, y) == Power(n, z)
    ensures y == z
  {
    hide Times, Add;
    if n > 0 {
      var p, q := Power(n - 1, y), Power(n - 1, z);
      TimesAdds(p, q);
      AddZero(Times(p), Times(q));
      TimesInjective(Add(p, q));
      AddZero(p, q);
      PowerInjective(n - 1, y, z);
    }
  }

  // ----- multiplying by a power is multiplying by one element -----

  function Lowest(c: Elem, v: Elem): Elem {
    if v & 1 != 0 then c else 0
  }

  /** The product of c and v, by Horner's rule on the bits of v. */
  function Multiplied(c: Elem, v: Elem): Elem
    decreases v
  {
    if v == 0 then 0 else Add(Lowest(c, v), Times(Multiplied(c, v >> 1)))
  }

  lemma MultipliedStep(c: Elem, v: Elem)
    ensures Multiplied(c, v) == Add(Lowest(c, v), Times(Multiplied(c, v >> 1)))
  {}

  lemma SplitLowest(v: Elem)
    ensures v == Add(v & 1, Times(v >> 1))
  {}

  lemma PowerOfLowest(n: nat, v: Elem)
    ensures Power(n, v & 1) == Lowest(Power(n, 1), v)
  {
    PowerZero(n);
    assert v & 1 == 0 || v & 1 == 1;
  }

  lemma {:induction false} PowerIsMultiplied(n: nat, v: Elem)
    ensures Power(n, v) == Multiplied(Power(n, 1), v)
    decreases v
  {
    PowerZero(n);
    if v != 0 {
      hide Add, Times, Multiplied, Lowest, Power;
      PowerIsMultiplied(n, v >> 1);
      SplitLowest(v);
      PowerAdds(n, v & 1, Times(v >> 1));
      PowerOfLowest(n, v);
      PowerOfTimes(n, v >> 1);
      MultipliedStep(Power(n, 1), v);
    }
  }

  lemma PowerOfTimes(n: nat, v: Elem)
    ensures Power(n, Times(v)) == Times(Power(n, v))
  {
    PowersCommute(n, 1, v);
  }

  /** `Multiplied` with its ten steps written out. */
  function Unrolled(c: Elem, v: Elem): Elem {
    var p9 := Lowest(c, v >> 9);
    var p8 := Add(Lowest(c, v >> 8), Times(p9));
    var p7 := Add(Lowest(c, v >> 7), Times(p8));
    var p6 := Add(Lowest(c, v >> 6), Times(p7));
    var p5 := Add(Lowest(c, v >> 5), Times(p6));
    var p4 := Add(Lowest(c, v >> 4), Times(p5));
    var p3 := Add(Lowest(c, v >> 3), Times(p4));
    var p2 := Add(Lowest(c, v >> 2), Times(p3));
    var p1 := Add(Lowest(c, v >> 1), Times(p2));
    Add(Lowest(c, v), Times(p1))
  }

  lemma MultipliedUnrolls(c: Elem, v: Elem)
    ensures Multiplied(c, v) == Unrolled(c, v)
  {
    assert Multiplied(c, v >> 9) == Lowest(c, v >> 9) by {
      assert (v >> 9) >> 1 == 0;
      assert Add(Lowest(c, v >> 9), Times(0)) == Lowest(c, v >> 9);
      MultipliedStep(c, v >> 9);
    }
    hide Add, Times, Lowest, Multiplied;
    MultipliedStep(c, v);
    assert (v >> 1) >> 1 == v >> 2; MultipliedStep(c, v >> 1);
    assert (v >> 2) >> 1 == v >> 3; MultipliedStep(c, v >> 2);
    assert (v >> 3) >> 1 == v >> 4; MultipliedStep(c, v >> 3);
    assert (v >> 4) >> 1 == v >> 5; MultipliedStep(c, v >> 4);
    assert (v >> 5) >> 1 == v >> 6; MultipliedStep(c, v >> 5);
    assert (v >> 6) >> 1 == v >> 7; MultipliedStep(c, v >> 6);
    assert (v >> 7) >> 1 == v >> 8; MultipliedStep(c, v >> 7);
    assert (v >> 8) >> 1 == v >> 9; MultipliedStep(c, v >> 8);
  }

  // ----- the primitive element has order 1023 -----

  lemma PowersOfOne(m: nat, n: nat)
    ensures Power(m + n, 1) == Unrolled(Power(m, 1), Power(n, 1))
  {
    PowerPower(m, n, 1);
    PowerIsMultiplied(m, Power(n, 1));
    MultipliedUnrolls(Power(m, 1), Power(n, 1));
  }

  lemma Power11()
    ensures Power(11, 1) == 0x26f
  {
    assert Power(4, 1) == 0x10;
    assert Power(8, 1) == 0x100;
    assert Power(11, 1) == Times(Times(Times(Power(8, 1))));
  }

  lemma Power9()
    ensures Power(9, 1) == 0x200
  {
    assert Power(4, 1) == 0x10;
    assert Power(8, 1) == 0x100;
  }

  lemma Power22()
    ensures Power(22, 1) == 0x02f
  {
    hide Power;
    Power11();
    PowersOfOne(11, 11);
  }

  lemma Power31()
    ensures Power(31, 1) == 0x132
  {
    hide Power;
    Power22();
    Power9();
    PowersOfOne(22, 9);
  }

  lemma Power33()
    ensures Power(33, 1) == 0x2ed
  {
    hide Power;
    Power22();
    Power11();
    PowersOfOne(22, 11);
  }

  lemma Power62()
    ensures Power(62, 1) == 0x308
  {
    hide Power;
    Power31();
    PowersOfOne(31, 31);
  }

  lemma Power93()
    ensures Power(93, 1) == 0x0d9
  {
    hide Power;
    Power62();
    Power31();
    PowersOfOne(62, 31);
  }

  lemma Power124()
    ensures Power(124, 1) == 0x0cd
  {
    hide Power;
    Power62();
    PowersOfOne(62, 62);
  }

  lemma Power248()
    ensures Power(248, 1) == 0x329
  {
    hide Power;
    Power124();
    PowersOfOne(124, 124);
  }

  lemma Power341()
    ensures Power(341, 1) == 0x096
  {
    hide Power;
    Power248();
    Power93();
    PowersOfOne(248, 93);
  }

  lemma Power682()
    ensures Power(682, 1) == 0x097
  {
    hide Power;
    Power341();
    PowersOfOne(341, 341);
  }

  lemma Power1023()
    ensures Power(1023, 1) == 0x001
  {
    hide Power;
    Power682();
    Power341();
    PowersOfOne(682, 341);
  }

  lemma Fixed33(v: Elem)
    requires Unrolled(0x2ed, v) == v
    ensures v == 0
  {}

  lemma Fixed93(v: Elem)
    requires Unrolled(0x0d9, v) == v
    ensures v == 0
  {}

  lemma Fixed341(v: Elem)
    requires Unrolled(0x096, v) == v
    ensures v == 0
  {}

  lemma NoFixed33(v: Elem)
    requires Power(33, v) == v
    ensures v == 0
  {
    hide *;
    Power33();
    PowerIsMultiplied(33, v);
    MultipliedUnrolls(Power(33, 1), v);
    Fixed33(v);
  }

  lemma NoFixed93(v: Elem)
    requires Power(93, v) == v
    ensures v == 0
  {
    hide *;
    Power93();
    PowerIsMultiplied(93, v);
    MultipliedUnrolls(Power(93, 1), v);
    Fixed93(v);
  }

  lemma NoFixed341(v: Elem)
    requires Power(341, v) == v
    ensures v == 0
  {
    hide *;
    Power341();
    PowerIsMultiplied(341, v);
    MultipliedUnrolls(Power(341, 1), v);
    Fixed341(v);
  }

  /** None of the three largest proper divisors of 1023 fixes a non-zero element. */
  lemma NoFixedPoint(v: Elem, n: nat)
    requires n == 33 || n == 93 || n == 341
    requires Power(n, v) == v
    ensures v == 0
  {
    hide Power;
    if n == 33 {
      NoFixed33(v);
    } else if n == 93 {
      NoFixed93(v);
    } else {
      NoFixed341(v);
    }
  }

  lemma {:induction false} MultipliedByOne(v: Elem)
    ensures Multiplied(1, v) == v
    decreases v
  {
    if v != 0 {
      hide Add, Times, Multiplied;
      MultipliedByOne(v >> 1);
      MultipliedStep(1, v);
      SplitLowest(v);
      assert Lowest(1, v) == v & 1;
    }
  }

  lemma FullOrbit(v: Elem)
    ensures Power(1023, v) == v
  {
    hide Power, Multiplied;
    Power1023();
    PowerIsMultiplied(1023, v);
    MultipliedByOne(v);
  }

  lemma {:induction false} Multiple(n: nat, k: nat, v: Elem)
    requires Power(n, v) == v
    ensures Power(n * k, v) == v
  {
    if k > 0 {
      Multiple(n, k - 1, v);
      PowerPower(n, n * (k - 1), v);
      assert n + n * (k - 1) == n * k;
    }
  }

  lemma Division(n: nat) returns (q: nat, r: nat)
    requires n > 0
    ensures r + n * q == 1023 && r < n && r == 1023 % n
  {
    q, r := 1023 / n, 1023 % n;
  }

  lemma SmallCofactor(n: nat, q: nat)
    requires n >= 32 && n * q == 1023
    ensures q < 32
  {
    assert n * q >= 32 * q;
  }

  /** Every divisor of 1023 = 3 * 11 * 31 other than 1023 divides 341, 93 or 33. */
  lemma Divisors(n: nat) returns (m: nat, k: nat)
    requires 0 < n < 1023 && 1023 % n == 0
    ensures m == n * k && (m == 33 || m == 93 || m == 341)
  {
    var q := 1023 / n;
    assert n * q == 1023;
    if n < 32 {
      assert n == 1 || n == 2 || n == 3 || n == 4 || n == 5 || n == 6 || n == 7 || n == 8 || n == 9 || n == 10
          || n == 11 || n == 12 || n == 13 || n == 14 || n == 15 || n == 16 || n == 17 || n == 18 || n == 19 || n == 20
          || n == 21 || n == 22 || n == 23 || n == 24 || n == 25 || n == 26 || n == 27 || n == 28 || n == 29 || n == 30
          || n == 31;
    } else {
      SmallCofactor(n, q);
      assert q == 0 || q == 1 || q == 2 || q == 3 || q == 4 || q == 5 || q == 6 || q == 7 || q == 8 || q == 9 || q == 10
          || q == 11 || q == 12 || q == 13 || q == 14 || q == 15 || q == 16 || q == 17 || q == 18 || q == 19 || q == 20
          || q == 21 || q == 22 || q == 23 || q == 24 || q == 25 || q == 26 || q == 27 || q == 28 || q == 29 || q == 30
          || q == 31;
    }
    m := if n == 1 || n == 3 || n == 11 || n == 33 then 33 else if n == 31 || n == 93 then 93 else 341;
    k := if n == 1 then 33 else if n == 3 then 11 else if n == 11 then 3 else if n == 31 then 3 else 1;
  }

  /** Fewer than 1023 multiplications move every non-zero element. */
  lemma {:induction false} ShorterOrbit(n: nat, v: Elem)
    requires 0 < n < 1023 && Power(n, v) == v
    ensures v == 0
    decreases n
  {
    hide *;
    var q, r := Division(n);
    if r == 0 {
      var m, k := Divisors(n);
      Multiple(n, k, v);
      NoFixedPoint(v, m);
    } else {
      Multiple(n, q, v);
      FullOrbit(v);
      PowerPower(r, n * q, v);
      ShorterOrbit(r, v);
    }
  }

  /** A non-zero element comes back after 1023 multiplications and not before. */
  lemma OrderIs1023(n: nat, v: Elem)
    requires 0 < n <= 1023 && v != 0
    ensures Power(n, v) == v <==> n == 1023
  {
    hide Power;
    FullOrbit(v);
    if n < 1023 && Power(n, v) == v {
      ShorterOrbit(n, v);
      assert false;
    }
  }

  // ----- three unknowns, three equations -----

  lemma Eliminate(a: Elem, b: Elem, c: Elem, pa: Elem, qb: Elem, ppa: Elem, qqb: Elem, pqa: Elem, qa: Elem)
    requires Add(Add(a, b), c) == 0 && Add(Add(pa, qb), c) == 0 && Add(Add(ppa, qqb), c) == 0
    requires Add(pqa, qa) == Add(qqb, qb)
    ensures Add(ppa, pqa) == Add(pa, qa)
  {}

  lemma Balance(a: Elem, b: Elem, c: Elem, pa: Elem, qb: Elem)
    requires Add(Add(a, b), c) == 0 && Add(Add(pa, qb), c) == 0
    ensures Add(pa, a) == Add(qb, b)
  {}

  lemma PowerAddsThree(n: nat, x: Elem, y: Elem, z: Elem)
    requires Add(Add(Power(n, x), Power(n, y)), Power(n, z)) == 0
    ensures Add(Add(x, y), z) == 0
  {
    hide Add, Power;
    PowerAdds(n, x, y);
    PowerAdds(n, Add(x, y), z);
    PowerZero(n);
    PowerInjective(n, Add(Add(x, y), z), 0);
  }

  /** The case with the lowest exponent zero. */
  lemma ThreeTermsFromZero(p: nat, q: nat, a: Elem, b: Elem, c: Elem)
    requires 0 < q < p < 1023
    requires Add(Add(a, b), c) == 0
    requires Add(Add(Power(p, a), Power(q, b)), c) == 0
    requires Add(Add(Power(2 * p, a), Power(2 * q, b)), c) == 0
    ensures a == 0 && b == 0 && c == 0
  {
    hide Add, Power;
    var w := Add(Power(p, a), Power(q, a));
    assert Power(p, w) == w by {
      Balance(a, b, c, Power(p, a), Power(q, b));
      PowerAdds(q, Power(p, a), a);
      PowerAdds(q, Power(q, b), b);
      PowersCommute(p, q, a);
      PowersCommute(q, q, b);
      Eliminate(a, b, c, Power(p, a), Power(q, b), Power(2 * p, a), Power(2 * q, b), Power(p + q, a), Power(q, a));
      PowerAdds(p, Power(p, a), Power(q, a));
      PowersCommute(p, p, a);
    }
    ShorterOrbit(p, w);
    AddZero(Power(p, a), Power(q, a));
    PowersCommute(q, p - q, a);
    PowerInjective(q, Power(p - q, a), a);
    ShorterOrbit(p - q, a);
    assert b == 0 && c == 0 by {
      PowerZero(p);
      assert Add(0, b) == b && Add(b, c) == 0 && Add(0, Power(q, b)) == Power(q, b) && Add(Power(q, b), c) == 0 by {
        LeadingZero(a, b, c);
        LeadingZero(Power(p, a), Power(q, b), c);
      }
      AddZero(b, c);
      AddZero(Power(q, b), c);
      ShorterOrbit(q, b);
    }
  }

  lemma LeadingZero(x: Elem, y: Elem, z: Elem)
    requires x == 0 && Add(Add(x, y), z) == 0
    ensures Add(0, y) == y && Add(y, z) == 0
  {}

  /** Three scaled powers of distinct exponents r + u, r + v and r, whose sums vanish together with
      those of no and of twice the exponents, are all zero. */
  lemma ThreeTerms(r: nat, u: nat, v: nat, a: Elem, b: Elem, c: Elem)
    requires 0 < v < u < 1023
    requires Add(Add(a, b), c) == 0
    requires Add(Add(Power(r + u, a), Power(r + v, b)), Power(r, c)) == 0
    requires Add(Add(Power(2 * r + 2 * u, a), Power(2 * r + 2 * v, b)), Power(2 * r, c)) == 0
    ensures a == 0 && b == 0 && c == 0
  {
    hide Add, Power;
    PowerPower(r, u, a);
    PowerPower(r, v, b);
    PowerAddsThree(r, Power(u, a), Power(v, b), c);
    PowerPower(2 * r, 2 * u, a);
    PowerPower(2 * r, 2 * v, b);
    PowerAddsThree(2 * r, Power(2 * u, a), Power(2 * v, b), c);
    ThreeTermsFromZero(u, v, a, b, c);
  }
}
