/** `ConvertBits`: regrouping a stream of bits from symbols of one width into symbols of another. */
module Regrouping {
  import opened Words
  import opened Options

  // ----- numbers and their bits -----

  /** The low n bits of x, highest first. */
  function Bits(x: word, n: nat): (s: seq<bool>)
    ensures |s| == n
  {
    if n == 0 then [] else Bits(Half(x), n - 1) + [Odd(x)]
  }

  function Append(y: word, b: bool): word {
    Or(Double(y), if b then 1 else 0)
  }

  function FromBits(s: seq<bool>): word {
    if s == [] then 0 else Append(FromBits(s[..|s| - 1]), s[|s| - 1])
  }

  /** x needs at most n bits. */
  predicate Narrow(x: word, n: nat) {
    ShiftRight(x, n) == 0
  }

  /** The mask ((1 << n) - 1). */
  function Mask(n: nat): word {
    ShiftLeft(1, n) - 1
  }

  function PowerOfTwo(n: nat): word {
    if n == 0 then 0x1 else if n == 1 then 0x2 else if n == 2 then 0x4 else if n == 3 then 0x8
    else if n == 4 then 0x10 else if n == 5 then 0x20 else if n == 6 then 0x40 else if n == 7 then 0x80
    else if n == 8 then 0x100 else if n == 9 then 0x200 else if n == 10 then 0x400 else if n == 11 then 0x800
    else if n == 12 then 0x1000 else if n == 13 then 0x2000 else if n == 14 then 0x4000 else 0x8000
  }

  lemma PowerDoubles(n: nat)
    requires 0 < n <= 15
    ensures PowerOfTwo(n) == Double(PowerOfTwo(n - 1)) && PowerOfTwo(n - 1) <= 0x4000
  {}

  lemma {:induction false} ShiftLeftOne(n: nat)
    requires n <= 15
    ensures ShiftLeft(1, n) == PowerOfTwo(n)
  {
    if n == 0 {
    } else {
      hide Double, PowerOfTwo;
      ShiftLeftOne(n - 1);
      PowerDoubles(n);
    }
  }

  lemma MaskStep(n: nat)
    requires 0 < n <= 15
    ensures Half(Mask(n)) == Mask(n - 1) && Odd(Mask(n)) && Mask(n) <= 0x7fff
  {
    ShiftLeftOne(n);
    ShiftLeftOne(n - 1);
  }

  lemma AndHalf(x: word, y: word)
    ensures Half(And(x, y)) == And(Half(x), Half(y))
    ensures Odd(And(x, y)) <==> Odd(x) && Odd(y)
  {}

  /** Masking keeps the bits it covers. */
  lemma {:induction false} MaskedBits(x: word, n: nat, k: nat)
    requires k <= n <= 15
    ensures Bits(And(x, Mask(n)), k) == Bits(x, k)
    decreases k
  {
    hide Half, Odd, And, Mask;
    if k > 0 {
      AndHalf(x, Mask(n));
      MaskStep(n);
      MaskedBits(Half(x), n - 1, k - 1);
    }
  }

  /** The bits above the low n, followed by the low n. */
  lemma {:induction false} BitsSplit(x: word, m: nat, n: nat)
    ensures Bits(x, m + n) == Bits(ShiftRight(x, n), m) + Bits(x, n)
    decreases n
  {
    hide Half, Odd, Bits, ShiftRight;
    ShiftRightOnce(x);
    if n == 0 {
      NoBits(x);
      assert Bits(x, m) + [] == Bits(x, m);
    } else {
      BitsSplit(Half(x), m, n - 1);
      ShiftRightTwice(x, 1, n - 1);
      BitsStep(x, m + n);
      BitsStep(x, n);
    }
  }

  lemma NoBits(x: word)
    ensures Bits(x, 0) == []
  {}

  lemma ShiftRightOnce(x: word)
    ensures ShiftRight(x, 1) == Half(x) && ShiftRight(x, 0) == x
  {
    hide Half;
  }

  lemma OrHalf(y: word, v: word, j: nat)
    requires j <= 14
    ensures And(Half(Or(Double(y), v)), Mask(j)) == And(Or(y, Half(v)), Mask(j))
    ensures Odd(Or(Double(y), v)) == Odd(v)
  {
    if j == 0 {
      ShiftLeftOne(0);
    } else {
      MaskStep(j);
    }
    hide Mask;
  }

  lemma OrZero(a: word)
    ensures Or(a, 0) == a
  {}

  lemma BitsStep(x: word, n: nat)
    requires n > 0
    ensures Bits(x, n) == Bits(Half(x), n - 1) + [Odd(x)]
  {}

  lemma PushStart(a: word, v: word, m: nat, n: nat)
    requires Narrow(v, n)
    ensures n == 0 ==> v == 0 && ShiftLeft(a, 0) == a && Bits(v, 0) == []
    ensures n > 0 ==> Narrow(Half(v), n - 1) && ShiftLeft(a, n) == Double(ShiftLeft(a, n - 1))
  {
    hide Half, Double, Odd;
    if n > 0 {
      ShiftRightTwice(v, 1, n - 1);
      ShiftRightOnce(v);
    }
  }

  /** Shifting a symbol in appends its bits. */
  lemma {:induction false} BitsPush(a: word, v: word, m: nat, n: nat)
    requires m + n <= 15 && Narrow(v, n)
    ensures Bits(Or(ShiftLeft(a, n), v), m + n) == Bits(a, m) + Bits(v, n)
    decreases n
  {
    hide Half, Double, Odd, Or, And, Mask, Bits, ShiftLeft, Narrow;
    PushStart(a, v, m, n);
    if n == 0 {
      OrZero(a);
    } else {
      var y := ShiftLeft(a, n - 1);
      BitsStep(Or(Double(y), v), m + n);
      BitsStep(v, n);
      var j := m + n - 1;
      BitsPush(a, Half(v), m, n - 1);
      OrHalf(y, v, j);
      MaskedBits(Half(Or(Double(y), v)), j, j);
      MaskedBits(Or(y, Half(v)), j, j);
    }
  }

  lemma AppendFacts(y: word, b: bool)
    requires y < 0x80000000
    ensures Half(Append(y, b)) == y && Odd(Append(y, b)) == b
  {}

  lemma HalfAppend(x: word)
    ensures Append(Half(x), Odd(x)) == x
  {}

  lemma AppendBound(y: word, b: bool, p: word)
    requires Below(y, p) && p <= 0x4000
    ensures Below(Append(y, b), Double(p))
  {}

  predicate Below(y: word, p: word) {
    y < p
  }

  lemma {:induction false} FromBitsBound(s: seq<bool>)
    requires |s| <= 15
    ensures Below(FromBits(s), PowerOfTwo(|s|))
  {
    if s == [] {
    } else {
      hide Append, Double, Below, PowerOfTwo;
      var n := |s| - 1;
      FromBitsBound(s[..n]);
      PowerDoubles(n + 1);
      AppendBound(FromBits(s[..n]), s[n], PowerOfTwo(n));
    }
  }

  lemma BoundOfEight(s: seq<bool>)
    requires |s| <= 8
    ensures FromBits(s) <= 0xff
  {
    hide FromBits;
    FromBitsBound(s);
  }

  /** Reading bits as a number and writing them out again gives the bits back. */
  lemma {:induction false} BitsOfFromBits(s: seq<bool>)
    requires |s| <= 8
    ensures Bits(FromBits(s), |s|) == s && Narrow(FromBits(s), |s|)
  {
    hide Half, Odd, Append;
    if s != [] {
      var n := |s| - 1;
      var y := FromBits(s[..n]);
      BitsOfFromBits(s[..n]);
      BoundOfEight(s[..n]);
      AppendFacts(y, s[n]);
      ShiftRightTwice(FromBits(s), 1, n);
      ShiftRightOnce(FromBits(s));
    }
  }

  /** A number that needs at most n bits is the number that its n bits spell. */
  lemma {:induction false} FromBitsOfBits(x: word, n: nat)
    requires Narrow(x, n)
    ensures FromBits(Bits(x, n)) == x
    decreases n
  {
    hide Half, Odd, Append;
    if n > 0 {
      ShiftRightTwice(x, 1, n - 1);
      ShiftRightOnce(x);
      FromBitsOfBits(Half(x), n - 1);
      HalfAppend(x);
      assert Bits(x, n)[..n - 1] == Bits(Half(x), n - 1);
    }
  }

  lemma {:induction false} MaskNarrow(x: word, n: nat)
    requires n <= 15
    ensures Narrow(And(x, Mask(n)), n)
    decreases n
  {
    hide Half, Odd, And, Mask;
    if n == 0 {
      MaskZero(x);
    } else {
      AndHalf(x, Mask(n));
      MaskStep(n);
      MaskNarrow(Half(x), n - 1);
      ShiftRightTwice(And(x, Mask(n)), 1, n - 1);
      ShiftRightOnce(And(x, Mask(n)));
    }
  }

  lemma MaskZero(x: word)
    ensures And(x, Mask(0)) == 0
  {
    ShiftLeftOne(0);
  }

  lemma PowerSmall(n: nat)
    requires n <= 8
    ensures 1 <= PowerOfTwo(n) <= 0x100
  {}

  lemma AndSmall(x: word, p: word)
    requires 1 <= p <= 0x100
    ensures And(x, p - 1) <= 0xff
  {}

  lemma MaskOfByte(x: word, n: nat)
    requires n <= 8
    ensures LowByte(And(x, Mask(n))) as word == And(x, Mask(n))
  {
    hide PowerOfTwo, And, LowByte, ShiftLeft;
    ShiftLeftOne(n);
    PowerSmall(n);
    AndSmall(x, PowerOfTwo(n));
    WordOfByte(And(x, Mask(n)));
  }

  // ----- streams of bits -----

  predicate AllNarrow(vs: seq<byte>, w: nat) {
    forall i :: 0 <= i < |vs| ==> Narrow(vs[i] as word, w)
  }

  /** The concatenated bits of symbols of width w. */
  function Stream(vs: seq<byte>, w: nat): seq<bool> {
    if vs == [] then [] else Stream(vs[..|vs| - 1], w) + Bits(vs[|vs| - 1] as word, w)
  }

  /** The whole groups of w bits at the front of a stream, as symbols. */
  function Groups(s: seq<bool>, w: nat): seq<byte>
    requires w > 0
  {
    if |s| < w then [] else [LowByte(FromBits(s[..w]))] + Groups(s[w..], w)
  }

  /** The bits that are left when all whole groups of w bits are taken away. */
  function Rest(s: seq<bool>, w: nat): (r: seq<bool>)
    requires w > 0
    ensures |r| < w
  {
    if |s| < w then s else Rest(s[w..], w)
  }

  function Clear(n: nat): (s: seq<bool>)
    ensures |s| == n
  {
    seq(n, i => false)
  }

  /** The zero bits that complete the last group of w bits. */
  function Padding(s: seq<bool>, w: nat): (p: seq<bool>)
    requires w > 0
    ensures |p| < w
  {
    var r := Rest(s, w);
    if r == [] then [] else Clear(w - |r|)
  }

  /** Regroups symbols of width `from` into symbols of width `to`: it fails on a symbol that is too
      wide and, when the last group may not be padded, on leftover bits that make a whole symbol
      or that are not all zero. */
  function Convert(input: seq<byte>, from: nat, to: nat, pad: bool): Option<seq<byte>>
    requires 0 < to
  {
    var s := Stream(input, from);
    var r := Rest(s, to);
    if !AllNarrow(input, from) then None
    else if pad then Some(Groups(s + Padding(s, to), to))
    else if |r| >= from || r != Clear(|r|) then None
    else Some(Groups(s, to))
  }

  lemma StreamSnoc(vs: seq<byte>, v: byte, w: nat)
    ensures Stream(vs + [v], w) == Stream(vs, w) + Bits(v as word, w)
  {
    assert (vs + [v])[..|vs|] == vs;
  }

  lemma Associative(a: seq<bool>, b: seq<bool>, c: seq<bool>)
    ensures (a + b) + c == a + (b + c)
  {}

  lemma {:induction false} StreamAppends(us: seq<byte>, vs: seq<byte>, w: nat)
    ensures Stream(us + vs, w) == Stream(us, w) + Stream(vs, w)
  {
    hide Bits;
    if vs == [] {
      assert us + vs == us;
    } else {
      var n := |vs| - 1;
      StreamAppends(us, vs[..n], w);
      assert us + vs == (us + vs[..n]) + [vs[n]];
      StreamSnoc(us + vs[..n], vs[n], w);
      Associative(Stream(us, w), Stream(vs[..n], w), Bits(vs[n] as word, w));
    }
  }

  lemma StreamCons(v: byte, vs: seq<byte>, w: nat)
    ensures Stream([v] + vs, w) == Bits(v as word, w) + Stream(vs, w)
  {
    hide Bits, Stream;
    StreamAppends([v], vs, w);
    StreamSnoc([], v, w);
    assert [] + [v] == [v];
    EmptyStream(w);
    assert [] + Bits(v as word, w) == Bits(v as word, w);
  }

  lemma EmptyStream(w: nat)
    ensures Stream([], w) == []
  {}

  /** Taking groups of a stream gives the symbols back, and the groups and the rest of what follows. */
  lemma {:induction false} GroupsAfterStream(vs: seq<byte>, r: seq<bool>, w: nat)
    requires 0 < w && AllNarrow(vs, w)
    ensures Groups(Stream(vs, w) + r, w) == vs + Groups(r, w) && Rest(Stream(vs, w) + r, w) == Rest(r, w)
  {
    hide Bits, LowByte, FromBits, Stream, Groups, Rest;
    var s := Stream(vs, w) + r;
    if vs == [] {
      EmptyStream(w);
      assert s == r;
    } else {
      var v := vs[0];
      assert vs == [v] + vs[1..];
      StreamCons(v, vs[1..], w);
      GroupsAfterStream(vs[1..], r, w);
      GroupsStep(s, w);
      assert s[..w] == Bits(v as word, w);
      assert s[w..] == Stream(vs[1..], w) + r;
      FromBitsOfBits(v as word, w);
      ByteOfWord(v);
    }
  }

  lemma GroupsOfStream(vs: seq<byte>, r: seq<bool>, w: nat)
    requires 0 < w && |r| < w && AllNarrow(vs, w)
    ensures Groups(Stream(vs, w) + r, w) == vs && Rest(Stream(vs, w) + r, w) == r
  {
    GroupsAfterStream(vs, r, w);
    GroupsEnd(r, w);
  }

  lemma ByteOfWord(v: byte)
    ensures LowByte(v as word) == v
  {}

  lemma WordOfByte(x: word)
    requires x <= 0xff
    ensures LowByte(x) as word == x
  {}

  /** The groups and the rest make up the stream. */
  lemma GroupsStep(s: seq<bool>, w: nat)
    requires 0 < w <= |s|
    ensures Groups(s, w) == [LowByte(FromBits(s[..w]))] + Groups(s[w..], w) && Rest(s, w) == Rest(s[w..], w)
    ensures s == s[..w] + s[w..]
  {
    hide LowByte, FromBits;
  }

  lemma GroupsEnd(s: seq<bool>, w: nat)
    requires |s| < w
    ensures Groups(s, w) == [] && Rest(s, w) == s
  {}

  lemma NarrowCons(v: byte, vs: seq<byte>, w: nat)
    requires Narrow(v as word, w) && AllNarrow(vs, w)
    ensures AllNarrow([v] + vs, w)
  {
    hide Narrow;
  }

  lemma {:induction false} StreamOfGroups(s: seq<bool>, w: nat)
    requires 0 < w <= 8
    ensures Stream(Groups(s, w), w) + Rest(s, w) == s && AllNarrow(Groups(s, w), w)
    decreases |s|
  {
    if |s| < w {
      GroupsEnd(s, w);
      EmptyStream(w);
    } else {
      hide *;
      var g := LowByte(FromBits(s[..w]));
      var gs := Groups(s[w..], w);
      StreamOfGroups(s[w..], w);
      GroupsStep(s, w);
      OneGroup(s[..w]);
      StreamCons(g, gs, w);
      Associative(s[..w], Stream(gs, w), Rest(s[w..], w));
      NarrowCons(g, gs, w);
    }
  }

  lemma OneGroup(s: seq<bool>)
    requires |s| <= 8
    ensures Bits(LowByte(FromBits(s)) as word, |s|) == s && Narrow(LowByte(FromBits(s)) as word, |s|)
  {
    hide LowByte, FromBits, Narrow, Bits;
    BitsOfFromBits(s);
    BoundOfEight(s);
    WordOfByte(FromBits(s));
  }

  // ----- the loop -----

  /** The invariant of the loop: the symbols written and the bits held are the bits read. */
  predicate Accounts(out: seq<byte>, to: nat, acc: word, bits: nat, read: seq<bool>) {
    AllNarrow(out, to) && Stream(out, to) + Bits(acc, bits) == read
  }

  /** Appends the symbols to what the caller's vector already holds. */
  method ConvertBits(input: seq<byte>, from: nat, to: nat, pad: bool, held: seq<byte>)
    returns (ok: bool, out: seq<byte>)
    requires 0 < from <= 8 && 0 < to <= 8
    ensures ok == Convert(input, from, to, pad).Some?
    ensures ok ==> out == held + Convert(input, from, to, pad).value
    ensures held <= out
  {
    hide *;
    out := held;
    ghost var written: seq<byte> := [];
    var acc: word := 0;
    var bits: nat := 0;
    var maxv := Mask(to);
    var maxAcc := Mask(from + to - 1);
    NothingRead(from, to);
    for i := 0 to |input|
      invariant bits < to
      invariant out == held + written
      invariant AllNarrow(input[..i], from)
      invariant Accounts(written, to, acc, bits, Stream(input[..i], from))
    {
      var value := input[i];
      if ShiftRight(value as word, from) != 0 {
        TooWide(input, from, to, pad, i);
        return false, out;
      }
      SymbolRead(input, i, written, from, to, acc, bits);
      acc := And(Or(ShiftLeft(acc, from), value as word), maxAcc);
      bits := bits + from;
      while bits >= to
        invariant bits <= from + to - 1
        invariant out == held + written
        invariant Accounts(written, to, acc, bits, Stream(input[..i + 1], from))
      {
        bits := bits - to;
        GroupWritten(written, to, acc, bits, Stream(input[..i + 1], from));
        out := out + [LowByte(And(ShiftRight(acc, bits), maxv))];
        written := written + [LowByte(And(ShiftRight(acc, bits), maxv))];
      }
    }
    var last := LowByte(And(ShiftLeft(acc, to - bits), maxv));
    AllRead(input, from, to, written, acc, bits);
    if pad {
      if bits > 0 {
        out := out + [last];
      }
    } else if bits >= from || last != 0 {
      return false, out;
    }
    return true, out;
  }

  lemma NothingRead(from: nat, to: nat)
    ensures forall input: seq<byte> :: AllNarrow(input[..0], from) && Accounts([], to, 0, 0, Stream(input[..0], from))
  {
    EmptyStream(to);
    EmptyStream(from);
    assert forall input: seq<byte> :: input[..0] == [];
    assert Bits(0, 0) == [];
  }

  lemma TooWide(input: seq<byte>, from: nat, to: nat, pad: bool, i: nat)
    requires 0 < to && i < |input| && ShiftRight(input[i] as word, from) != 0
    ensures Convert(input, from, to, pad) == None
  {
    hide ShiftRight;
    assert !Narrow(input[i] as word, from);
  }

  lemma SymbolRead(input: seq<byte>, i: nat, out: seq<byte>, from: nat, to: nat, acc: word, bits: nat)
    requires 0 < from <= 8 && 0 < to <= 8 && i < |input| && bits < to
    requires AllNarrow(input[..i], from) && ShiftRight(input[i] as word, from) == 0
    requires Accounts(out, to, acc, bits, Stream(input[..i], from))
    ensures AllNarrow(input[..i + 1], from)
    ensures Accounts(out, to, And(Or(ShiftLeft(acc, from), input[i] as word), Mask(from + to - 1)), bits + from,
                     Stream(input[..i + 1], from))
  {
    hide ShiftRight, ShiftLeft, And, Or, Mask, Bits, Stream;
    var value := input[i] as word;
    BitsPush(acc, value, bits, from);
    MaskedBits(Or(ShiftLeft(acc, from), value), from + to - 1, bits + from);
    assert input[..i + 1] == input[..i] + [input[i]];
    StreamSnoc(input[..i], input[i], from);
    Associative(Stream(out, to), Bits(acc, bits), Bits(value, from));
  }

  lemma GroupWritten(out: seq<byte>, to: nat, acc: word, bits: nat, read: seq<bool>)
    requires to <= 8 && Accounts(out, to, acc, bits + to, read)
    ensures Accounts(out + [LowByte(And(ShiftRight(acc, bits), Mask(to)))], to, acc, bits, read)
  {
    hide LowByte, ShiftRight, And, Mask, Bits, Stream, Narrow;
    var g := LowByte(And(ShiftRight(acc, bits), Mask(to)));
    GroupOf(ShiftRight(acc, bits), to);
    BitsSplit(acc, to, bits);
    StreamSnoc(out, g, to);
    Associative(Stream(out, to), Bits(g as word, to), Bits(acc, bits));
  }

  /** At the end the bits held are the rest of the stream, and the group made of them is the padded
      last group. */
  lemma AllRead(input: seq<byte>, from: nat, to: nat, out: seq<byte>, acc: word, bits: nat)
    requires 0 < from <= 8 && bits < to <= 8
    requires AllNarrow(input[..|input|], from) && Accounts(out, to, acc, bits, Stream(input[..|input|], from))
    ensures var last := LowByte(And(ShiftLeft(acc, to - bits), Mask(to)));
            && Convert(input, from, to, true) == Some(if bits > 0 then out + [last] else out)
            && Convert(input, from, to, false) == if bits >= from || last != 0 then None else Some(out)
  {
    hide LowByte, ShiftLeft, And, Mask, Bits, Stream, Narrow, Groups, Rest, Clear;
    var last := LowByte(And(ShiftLeft(acc, to - bits), Mask(to)));
    var s := Stream(input, from);
    assert input[..|input|] == input;
    GroupsOfStream(out, Bits(acc, bits), to);
    LastGroup(acc, bits, to);
    if bits > 0 {
      StreamSnoc(out, last, to);
      Associative(Stream(out, to), Bits(acc, bits), Clear(to - bits));
      assert Stream(out + [last], to) + [] == s + Padding(s, to);
      GroupsOfStream(out + [last], [], to);
    } else {
      assert s + [] == s;
    }
  }

  lemma GroupOf(x: word, n: nat)
    requires n <= 8
    ensures var g := LowByte(And(x, Mask(n)));
            Bits(g as word, n) == Bits(x, n) && Narrow(g as word, n)
  {
    hide LowByte, And, Mask;
    MaskOfByte(x, n);
    MaskedBits(x, n, n);
    MaskNarrow(x, n);
  }

  lemma HalfOfZero()
    ensures Half(0) == 0 && !Odd(0)
  {}

  lemma {:induction false} BitsOfZero(n: nat)
    ensures Bits(0, n) == Clear(n) && Narrow(0, n)
  {
    hide Half, Odd;
    if n > 0 {
      BitsOfZero(n - 1);
      HalfOfZero();
    }
  }

  lemma ZeroByBits(g: byte, n: nat)
    requires Narrow(g as word, n)
    ensures g == 0 <==> Bits(g as word, n) == Clear(n)
  {
    hide Bits, FromBits, Narrow;
    BitsOfZero(n);
    FromBitsOfBits(g as word, n);
    FromBitsOfBits(0, n);
  }

  lemma ClearParts(s: seq<bool>, n: nat)
    ensures s + Clear(n) == Clear(|s| + n) <==> s == Clear(|s|)
  {
    if s + Clear(n) == Clear(|s| + n) {
      assert s == (s + Clear(n))[..|s|];
    }
  }

  /** The held bits, moved to the top of a group, with zeros below them. */
  lemma LastGroup(acc: word, bits: nat, to: nat)
    requires bits < to <= 8
    ensures var g := LowByte(And(ShiftLeft(acc, to - bits), Mask(to)));
            && Narrow(g as word, to)
            && Bits(g as word, to) == Bits(acc, bits) + Clear(to - bits)
            && (g == 0 <==> Bits(acc, bits) == Clear(bits))
  {
    hide LowByte, And, Mask, Or, ShiftLeft, Bits, Narrow, Clear;
    var x := ShiftLeft(acc, to - bits);
    GroupOf(x, to);
    BitsOfZero(to - bits);
    BitsPush(acc, 0, bits, to - bits);
    OrZero(x);
    ZeroByBits(LowByte(And(x, Mask(to))), to);
    ClearParts(Bits(acc, bits), to - bits);
  }

  // ----- the two directions undo each other -----

  lemma {:induction false} PaddedHasNoRest(s: seq<bool>, w: nat)
    requires 0 < w
    ensures Rest(s + Padding(s, w), w) == []
    decreases |s|
  {
    hide Groups;
    var p := Padding(s, w);
    if |s| < w {
      if s != [] {
        assert |s + p| == w;
        assert (s + p)[w..] == [];
      }
    } else {
      PaddedHasNoRest(s[w..], w);
      assert (s + p)[w..] == s[w..] + p;
    }
  }

  lemma {:induction false} CompletingIsPadding(u: seq<bool>, r: seq<bool>, w: nat)
    requires |r| < w && Rest(u + r, w) == []
    ensures |Padding(u, w)| == |r|
    decreases |u|
  {
    hide Groups;
    if |u| >= w {
      assert (u + r)[w..] == u[w..] + r;
      CompletingIsPadding(u[w..], r, w);
    } else if |u + r| >= w {
      assert |(u + r)[w..]| < w;
    }
  }

  /** Regrouping with padding and then back returns the symbols exactly when the padding is
      shorter than one of them. */
  lemma PadThenUnpad(input: seq<byte>, from: nat, to: nat)
    requires 0 < from <= 8 && 0 < to <= 8 && AllNarrow(input, from)
    ensures var there := Convert(input, from, to, true);
            && there.Some?
            && (Convert(there.value, to, from, false) == Some(input) <==> |Padding(Stream(input, from), to)| < from)
  {
    hide Bits, Narrow, Stream, Groups, Rest, Clear;
    var s := Stream(input, from);
    var p := Padding(s, to);
    var out := Groups(s + p, to);
    StreamOfGroups(s + p, to);
    PaddedHasNoRest(s, to);
    assert Stream(out, to) == s + p by {
      assert Stream(out, to) + [] == Stream(out, to);
    }
    GroupsAfterStream(input, p, from);
    if |p| < from {
      GroupsEnd(p, from);
      PaddingIsClear(s, to);
      assert input + [] == input;
    } else {
      GroupsStep(p, from);
    }
  }

  lemma PaddingIsClear(s: seq<bool>, w: nat)
    requires 0 < w
    ensures Padding(s, w) == Clear(|Padding(s, w)|)
  {
    hide Rest;
  }

  /** Whenever regrouping without padding succeeds, regrouping back with padding returns the
      original symbols: the padding bits carry no information. */
  lemma UnpadThenPad(input: seq<byte>, from: nat, to: nat)
    requires 0 < from <= 8 && 0 < to <= 8
    requires Convert(input, from, to, false).Some?
    ensures Convert(Convert(input, from, to, false).value, to, from, true) == Some(input)
  {
    hide Bits, Narrow, Stream, Groups, Rest, Clear;
    var s := Stream(input, from);
    var r := Rest(s, to);
    var out := Groups(s, to);
    StreamOfGroups(s, to);
    var u := Stream(out, to);
    assert s + [] == s;
    GroupsOfStream(input, [], from);
    CompletingIsPadding(u, r, from);
    PaddingIsClear(u, from);
  }
}
