/** Unsigned 32-bit words. A shift by a variable amount is a repeated shift by one bit. */
module Words {
  type byte = bv8
  type word = bv32

  function Xor(a: word, b: word): word {
    a ^ b
  }

  function And(a: word, b: word): word {
    a & b
  }

  function Or(a: word, b: word): word {
    a | b
  }

  function XorByte(a: byte, b: byte): byte {
    a ^ b
  }

  function Double(x: word): word {
    x << 1
  }

  function Half(x: word): word {
    x >> 1
  }

  function ShiftLeft(x: word, n: nat): word {
    if n == 0 then x else Double(ShiftLeft(x, n - 1))
  }

  function ShiftRight(x: word, n: nat): word {
    if n == 0 then x else Half(ShiftRight(x, n - 1))
  }

  /** The conversion static_cast<std::uint8_t>. */
  function LowByte(x: word): byte {
    (x & 0xff) as byte
  }

  predicate Odd(x: word) {
    x & 1 != 0
  }

  lemma XorAssociates(a: word, b: word, c: word)
    ensures Xor(Xor(a, b), c) == Xor(a, Xor(b, c))
  {}

  lemma XorCommutes(a: word, b: word)
    ensures Xor(a, b) == Xor(b, a)
  {}

  lemma XorSwap(a: word, b: word, c: word, d: word)
    ensures Xor(Xor(a, b), Xor(c, d)) == Xor(Xor(a, c), Xor(b, d))
  {
    hide Xor;
    XorAssociates(a, b, Xor(c, d));
    XorAssociates(b, c, d);
    XorCommutes(b, c);
    XorAssociates(c, b, d);
    XorAssociates(a, c, Xor(b, d));
  }

  lemma XorUnit(a: word)
    ensures Xor(a, 0) == a && Xor(a, a) == 0
  {}

  lemma XorZero(a: word, b: word)
    ensures Xor(a, 0) == a && Xor(0, a) == a && Xor(a, b) == Xor(b, a)
    ensures Xor(a, b) == 0 <==> a == b
  {
    hide Xor;
    XorUnit(a);
    XorUnit(b);
    XorCommutes(a, 0);
    XorCommutes(b, 0);
    XorCommutes(a, b);
    XorAssociates(a, a, b);
  }

  lemma HalfAdds(a: word, b: word)
    ensures Half(Xor(a, b)) == Xor(Half(a), Half(b))
    ensures Odd(Xor(a, b)) == (Odd(a) != Odd(b))
  {}

  lemma {:induction false} ShiftRightAdds(a: word, b: word, n: nat)
    ensures ShiftRight(Xor(a, b), n) == Xor(ShiftRight(a, n), ShiftRight(b, n))
  {
    hide Xor, Half;
    if n > 0 {
      ShiftRightAdds(a, b, n - 1);
      HalfAdds(ShiftRight(a, n - 1), ShiftRight(b, n - 1));
    }
  }

  lemma {:induction false} ShiftRightTwice(x: word, m: nat, n: nat)
    ensures ShiftRight(ShiftRight(x, m), n) == ShiftRight(x, m + n)
  {
    hide Half;
    if n > 0 {
      ShiftRightTwice(x, m, n - 1);
    }
  }

  lemma ShiftRightByFive(x: word)
    ensures ShiftRight(x, 5) == x >> 5
  {
    assert ShiftRight(x, 1) == x >> 1;
    assert ShiftRight(x, 2) == x >> 2;
    assert ShiftRight(x, 3) == x >> 3;
    assert ShiftRight(x, 4) == x >> 4;
  }
}
