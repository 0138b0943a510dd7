/** What `ConvertBits` means in numbers: symbols of a width are the digits of a number, the most
    significant first, and regrouping keeps that number up to the padding. */
module RadixValues {
  import opened Words
  import opened Regrouping

  function PowerOf2(n: nat): (p: nat)
    ensures p > 0
  {
    if n == 0 then 1 else 2 * PowerOf2(n - 1)
  }

  /** The number with these digits in base 2^w. */
  function Number(vs: seq<byte>, w: nat): nat {
    if vs == [] then 0 else Number(vs[..|vs| - 1], w) * PowerOf2(w) + vs[|vs| - 1] as int
  }

  /** The number with these binary digits. */
  function BitsValue(s: seq<bool>): nat {
    if s == [] then 0 else 2 * BitsValue(s[..|s| - 1]) + (if s[|s| - 1] then 1 else 0)
  }

  lemma {:induction false} PowersAdd(m: nat, n: nat)
    ensures PowerOf2(m + n) == PowerOf2(m) * PowerOf2(n)
  {
    if n > 0 {
      PowersAdd(m, n - 1);
      assert PowerOf2(m) * (2 * PowerOf2(n - 1)) == 2 * (PowerOf2(m) * PowerOf2(n - 1));
    }
  }

  lemma {:induction false} BitsValueAppends(s: seq<bool>, t: seq<bool>)
    ensures BitsValue(s + t) == BitsValue(s) * PowerOf2(|t|) + BitsValue(t)
  {
    if t == [] {
      assert s + t == s;
    } else {
      var n := |t| - 1;
      BitsValueAppends(s, t[..n]);
      assert (s + t)[..|s + t| - 1] == s + t[..n];
      assert BitsValue(s) * (2 * PowerOf2(n)) == 2 * (BitsValue(s) * PowerOf2(n));
    }
  }

  lemma {:induction false} BitsValueBound(s: seq<bool>)
    ensures BitsValue(s) < PowerOf2(|s|)
    ensures BitsValue(s) == 0 <==> s == Clear(|s|)
  {
    if s != [] {
      var n := |s| - 1;
      BitsValueBound(s[..n]);
      assert s == s[..n] + [s[n]];
      assert Clear(|s|)[..n] == Clear(n);
    }
  }

  // ----- bytes as numbers -----

  lemma HalveByte(v: byte)
    ensures v as int == 2 * ((v >> 1) as int) + (if Odd(v as word) then 1 else 0)
    ensures Half(v as word) == (v >> 1) as word
  {
    HalveByteInts(v);
  }

  lemma HalveByteInts(v: byte)
    ensures v as int == 2 * ((v >> 1) as int) + (v & 1) as int
    ensures (v & 1) as int == if v & 1 != 0 then 1 else 0
  {}

  /** A byte needs at most n bits if and only if it is below 2^n. */
  lemma {:induction false} NarrowIsSmall(v: byte, n: nat)
    ensures Narrow(v as word, n) <==> v as int < PowerOf2(n)
    decreases n
  {
    hide Half, Odd, ShiftRight;
    if n == 0 {
      NarrowZero(v);
    } else {
      HalveByte(v);
      NarrowIsSmall(v >> 1, n - 1);
      ShiftRightTwice(v as word, 1, n - 1);
      ShiftRightOnce(v as word);
    }
  }

  lemma NarrowZero(v: byte)
    ensures Narrow(v as word, 0) <==> v as int < 1
  {}

  lemma {:induction false} BitsValueOfByte(v: byte, n: nat)
    requires Narrow(v as word, n)
    ensures BitsValue(Bits(v as word, n)) == v as int
    decreases n
  {
    hide Half, Odd, ShiftRight, Bits;
    if n == 0 {
      NarrowZero(v);
      NoBits(v as word);
    } else {
      HalveByte(v);
      ShiftRightTwice(v as word, 1, n - 1);
      ShiftRightOnce(v as word);
      BitsValueOfByte(v >> 1, n - 1);
      BitsValueStep(v as word, n);
    }
  }

  lemma BitsValueStep(x: word, n: nat)
    requires n > 0
    ensures BitsValue(Bits(x, n)) == 2 * BitsValue(Bits(Half(x), n - 1)) + (if Odd(x) then 1 else 0)
  {
    hide Half, Odd, Bits, BitsValue;
    BitsStep(x, n);
    BitsValueAppends(Bits(Half(x), n - 1), [Odd(x)]);
    OneBit(Odd(x));
  }

  lemma OneBit(b: bool)
    ensures BitsValue([b]) == if b then 1 else 0
    ensures PowerOf2(1) == 2
  {
    assert [b][..0] == [];
  }

  lemma NumberOfNothing(w: nat)
    ensures Number([], w) == 0
  {}

  lemma NumberSnoc(vs: seq<byte>, v: byte, w: nat)
    ensures Number(vs + [v], w) == Number(vs, w) * PowerOf2(w) + v as int
  {
    assert (vs + [v])[..|vs|] == vs;
  }

  /** The bits of symbols spell the number of which they are the digits. */
  lemma {:induction false} StreamValue(vs: seq<byte>, w: nat)
    requires AllNarrow(vs, w)
    ensures BitsValue(Stream(vs, w)) == Number(vs, w) && |Stream(vs, w)| == |vs| * w
  {
    hide *;
    if vs == [] {
      EmptyStream(w);
      NumberOfNothing(w);
      NoBitsValue();
    } else {
      var n := |vs| - 1;
      var before, v := vs[..n], vs[n];
      assert vs == before + [v];
      NarrowParts(before, v, w);
      StreamValue(before, w);
      StreamSnoc(before, v, w);
      NumberSnoc(before, v, w);
      BitsValueAppends(Stream(before, w), Bits(v as word, w));
      BitsValueOfByte(v, w);
      OneMore(w, n);
    }
  }

  lemma NarrowParts(vs: seq<byte>, v: byte, w: nat)
    requires AllNarrow(vs + [v], w)
    ensures AllNarrow(vs, w) && Narrow(v as word, w)
  {
    hide Narrow;
    assert forall i :: 0 <= i < |vs| ==> (vs + [v])[i] == vs[i];
    assert (vs + [v])[|vs|] == v;
  }

  lemma NoBitsValue()
    ensures BitsValue([]) == 0
  {}

  lemma AllSmall(vs: seq<byte>, w: nat)
    ensures AllNarrow(vs, w) <==> forall i :: 0 <= i < |vs| ==> vs[i] as int < PowerOf2(w)
  {
    hide Narrow;
    forall i | 0 <= i < |vs|
      ensures Narrow(vs[i] as word, w) <==> vs[i] as int < PowerOf2(w)
    {
      NarrowIsSmall(vs[i], w);
    }
  }

  // ----- regrouping -----

  /** The rest is as long as the remainder of the length, and the groups take what is before it. */
  lemma {:induction false} RestLength(s: seq<bool>, w: nat)
    requires w > 0
    ensures |Rest(s, w)| == |s| % w
    decreases |s|
  {
    if |s| >= w {
      RestLength(s[w..], w);
      LessOneGroup(|s|, w);
    }
  }

  lemma LessOneGroup(n: nat, w: nat)
    requires 0 < w <= n
    ensures (n - w) % w == n % w
  {
    var q, r := (n - w) / w, (n - w) % w;
    assert n == w * (q + 1) + r;
    RemainderIs(n, w, q + 1, r);
  }

  lemma RemainderIs(n: nat, w: nat, q: nat, r: nat)
    requires 0 < w && n == w * q + r && r < w
    ensures n % w == r
  {
    var d := n / w;
    assert n == w * d + n % w;
    Gap(w, d, q);
    Gap(w, q, d);
  }

  lemma {:induction false} Gap(w: nat, a: nat, b: nat)
    ensures a < b ==> w * b >= w * a + w
    decreases b
  {
    if a < b {
      Gap(w, a, b - 1);
      OneMore(w, b - 1);
    }
  }

  lemma OneMore(w: nat, b: nat)
    ensures w * (b + 1) == w * b + w
  {}

  /** With padding, fewer than `to` zero bits are put behind: the number is multiplied by a power of
      two, and the digits are enough for the bits that came in. */
  lemma PaddedValue(input: seq<byte>, from: nat, to: nat)
    requires 0 < to <= 8
    ensures var out := Convert(input, from, to, true);
            && (out.Some? <==> forall i :: 0 <= i < |input| ==> input[i] as int < PowerOf2(from))
            && (out.Some? ==>
                  var p := |out.value| * to - |input| * from;
                  && 0 <= p < to
                  && Number(out.value, to) == Number(input, from) * PowerOf2(p)
                  && forall i :: 0 <= i < |out.value| ==> out.value[i] as int < PowerOf2(to))
  {
    hide Stream, Groups, Rest, Narrow, Clear, AllNarrow, Number, BitsValue;
    AllSmall(input, from);
    if AllNarrow(input, from) {
      var s := Stream(input, from);
      var p := Padding(s, to);
      var out := Groups(s + p, to);
      StreamOfGroups(s + p, to);
      PaddedHasNoRest(s, to);
      assert Stream(out, to) + [] == Stream(out, to);
      PaddingIsClear(s, to);
      StreamValue(input, from);
      StreamValue(out, to);
      AllSmall(out, to);
      BitsValueAppends(s, p);
      BitsValueBound(p);
    }
  }

  /** Without padding, a rest of fewer than `to` bits is dropped, which must be shorter than an input
      symbol and zero. */
  lemma UnpaddedValue(input: seq<byte>, from: nat, to: nat)
    requires 0 < to <= 8
    ensures var out := Convert(input, from, to, false);
            var r := |input| * from % to;
            && (out.Some? <==>
                  && (forall i :: 0 <= i < |input| ==> input[i] as int < PowerOf2(from))
                  && r < from && Number(input, from) % PowerOf2(r) == 0)
            && (out.Some? ==>
                  && |out.value| * to == |input| * from - r
                  && Number(input, from) == Number(out.value, to) * PowerOf2(r)
                  && forall i :: 0 <= i < |out.value| ==> out.value[i] as int < PowerOf2(to))
  {
    hide Stream, Groups, Rest, Narrow, Clear, AllNarrow, Number, BitsValue;
    AllSmall(input, from);
    if AllNarrow(input, from) {
      var s := Stream(input, from);
      var out, rest := Groups(s, to), Rest(s, to);
      StreamOfGroups(s, to);
      RestLength(s, to);
      StreamValue(input, from);
      StreamValue(out, to);
      AllSmall(out, to);
      BitsValueAppends(Stream(out, to), rest);
      BitsValueBound(rest);
      RemainderIs(BitsValue(s), PowerOf2(|rest|), BitsValue(Stream(out, to)), BitsValue(rest));
    }
  }

  /** Digits of a base are determined by their number and their count. */
  lemma {:induction false} DigitsUnique(vs: seq<byte>, us: seq<byte>, w: nat)
    requires |vs| == |us| && Number(vs, w) == Number(us, w)
    requires forall i :: 0 <= i < |vs| ==> vs[i] as int < PowerOf2(w) && us[i] as int < PowerOf2(w)
    ensures vs == us
  {
    if vs != [] {
      hide Number, PowerOf2;
      var n := |vs| - 1;
      LastDigit(vs, w);
      LastDigit(us, w);
      SameByte(vs[n], us[n]);
      SameQuotient(Number(vs[..n], w), Number(us[..n], w), PowerOf2(w));
      DigitsUnique(vs[..n], us[..n], w);
      assert vs == vs[..n] + [vs[n]] && us == us[..n] + [us[n]];
    }
  }

  lemma LastDigit(vs: seq<byte>, w: nat)
    requires vs != [] && vs[|vs| - 1] as int < PowerOf2(w)
    ensures Number(vs, w) == Number(vs[..|vs| - 1], w) * PowerOf2(w) + vs[|vs| - 1] as int
    ensures Number(vs, w) % PowerOf2(w) == vs[|vs| - 1] as int
  {
    hide PowerOf2;
    NumberStep(vs, w);
    RemainderIs(Number(vs, w), PowerOf2(w), Number(vs[..|vs| - 1], w), vs[|vs| - 1] as int);
  }

  lemma NumberStep(vs: seq<byte>, w: nat)
    requires vs != []
    ensures Number(vs, w) == Number(vs[..|vs| - 1], w) * PowerOf2(w) + vs[|vs| - 1] as int
  {}

  lemma SameQuotient(a: nat, b: nat, p: nat)
    requires p > 0
    ensures a * p == b * p ==> a == b
  {
    Gap(p, a, b);
    Gap(p, b, a);
  }

  lemma SameByte(u: byte, v: byte)
    ensures u as int == v as int ==> u == v
  {}
}
