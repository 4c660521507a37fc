/** Integers as bytes, in the layouts of the `struct` formats the buffer uses. */
module Binary {
  type Byte = b: int | 0 <= b < 256

  datatype Endian = Little | Big

  datatype Format = U8 | I8 | U16 | I16 | U32 | I32 | U64 | I64

  function Width(f: Format): nat {
    match f
    case U8 | I8 => 1
    case U16 | I16 => 2
    case U32 | I32 => 4
    case U64 | I64 => 8
  }

  predicate Signed(f: Format) {
    f.I8? || f.I16? || f.I32? || f.I64?
  }

  /** How many values `w` bytes can tell apart. */
  function Limit(w: nat): (n: nat)
    ensures n > 0 && (w > 0 ==> n % 2 == 0)
  {
    if w == 0 then 1 else 256 * Limit(w - 1)
  }

  predicate Fits(f: Format, v: int) {
    if Signed(f) then -(Limit(Width(f)) / 2) <= v < Limit(Width(f)) / 2 else 0 <= v < Limit(Width(f))
  }

  /** The lowest byte first. */
  function Digits(v: nat, w: nat): (bs: seq<Byte>)
    ensures |bs| == w
  {
    if w == 0 then [] else [v % 256] + Digits(v / 256, w - 1)
  }

  function Value(bs: seq<Byte>): nat {
    if bs == [] then 0 else bs[0] + 256 * Value(bs[1..])
  }

  function Reverse<T>(s: seq<T>): (r: seq<T>)
    ensures |r| == |s| && forall i :: 0 <= i < |s| ==> r[i] == s[|s| - 1 - i]
  {
    if s == [] then [] else Reverse(s[1..]) + [s[0]]
  }

  function Arrange(bs: seq<Byte>, e: Endian): (r: seq<Byte>)
    ensures |r| == |bs|
  {
    if e == Little then bs else Reverse(bs)
  }

  /** `struct.pack` of one integer that fits, as two's complement. */
  function Pack(f: Format, v: int, e: Endian): (bs: seq<Byte>)
    requires Fits(f, v)
    ensures |bs| == Width(f)
  {
    Arrange(Digits(if v < 0 then v + Limit(Width(f)) else v, Width(f)), e)
  }

  /** `struct.unpack` of one integer. */
  function Unpack(f: Format, bs: seq<Byte>, e: Endian): int
    requires |bs| == Width(f)
  {
    var u := Value(Arrange(bs, e));
    if Signed(f) && u >= Limit(Width(f)) / 2 then u - Limit(Width(f)) else u
  }

  lemma {:induction false} DigitsHaveValue(v: nat, w: nat)
    requires v < Limit(w)
    ensures Value(Digits(v, w)) == v
  {
    if w > 0 {
      DigitsHaveValue(v / 256, w - 1);
      assert Digits(v, w)[1..] == Digits(v / 256, w - 1);
    }
  }

  lemma {:induction false} ValueHasDigits(bs: seq<Byte>)
    ensures Value(bs) < Limit(|bs|) && Digits(Value(bs), |bs|) == bs
  {
    if bs != [] {
      ValueHasDigits(bs[1..]);
      assert Value(bs) / 256 == Value(bs[1..]);
      assert [bs[0]] + bs[1..] == bs;
    }
  }

  lemma ArrangeTwice(bs: seq<Byte>, e: Endian)
    ensures Arrange(Arrange(bs, e), e) == bs
  {
    assert Reverse(Reverse(bs)) == bs;
  }

  /** Every integer of a format comes back from its bytes, in either byte order. */
  lemma PackThenUnpack(f: Format, v: int, e: Endian)
    requires Fits(f, v)
    ensures Unpack(f, Pack(f, v, e), e) == v
  {
    hide Arrange, Digits, Value, Limit;
    var w := Width(f);
    var u := if v < 0 then v + Limit(w) else v;
    ArrangeTwice(Digits(u, w), e);
    DigitsHaveValue(u, w);
  }

  /** Every run of bytes is the packed form of the integer it unpacks to. */
  lemma UnpackThenPack(f: Format, bs: seq<Byte>, e: Endian)
    requires |bs| == Width(f)
    ensures Fits(f, Unpack(f, bs, e)) && Pack(f, Unpack(f, bs, e), e) == bs
  {
    hide Arrange, Digits, Value, Limit;
    ArrangeTwice(bs, e);
    ValueHasDigits(Arrange(bs, e));
  }

  // ----- the bytes themselves -----

  function Pow256(i: nat): (p: nat)
    ensures p > 0
  {
    if i == 0 then 1 else 256 * Pow256(i - 1)
  }

  /** The sizes of the formats and the integers each can hold. */
  lemma FormatRanges(v: int)
    ensures Width(U8) == Width(I8) == 1 && Width(U16) == Width(I16) == 2
    ensures Width(U32) == Width(I32) == 4 && Width(U64) == Width(I64) == 8
    ensures (Fits(U8, v) <==> 0 <= v <= 0xff) && (Fits(I8, v) <==> -0x80 <= v <= 0x7f)
    ensures (Fits(U16, v) <==> 0 <= v <= 0xffff) && (Fits(I16, v) <==> -0x8000 <= v <= 0x7fff)
    ensures (Fits(U32, v) <==> 0 <= v <= 0xffff_ffff) && (Fits(I32, v) <==> -0x8000_0000 <= v <= 0x7fff_ffff)
    ensures Fits(U64, v) <==> 0 <= v <= 0xffff_ffff_ffff_ffff
    ensures Fits(I64, v) <==> -0x8000_0000_0000_0000 <= v <= 0x7fff_ffff_ffff_ffff
  {
    assert Limit(1) == 0x100;
    assert Limit(2) == 0x1_0000;
    assert Limit(3) == 0x100_0000;
    assert Limit(4) == 0x1_0000_0000;
    assert Limit(6) == 0x1_0000_0000_0000;
    assert Limit(8) == 0x1_0000_0000_0000_0000;
  }

  lemma {:induction false} LimitIsPower(w: nat)
    ensures Limit(w) == Pow256(w)
  {
    if w > 0 {
      LimitIsPower(w - 1);
    }
  }

  lemma DivideTwice(v: nat, p: nat)
    requires p > 0
    ensures v / 256 / p == v / (256 * p)
  {
    var q, r := v / 256 / p, v / 256 % p;
    var rest := 256 * r + v % 256;
    assert v == 256 * (p * q + r) + v % 256;
    assert v == 256 * p * q + rest && 0 <= rest < 256 * p by {
      assert 256 * (p * q) == 256 * p * q;
    }
    DivideIs(v, 256 * p, q, rest);
  }

  lemma DivideIs(v: nat, d: nat, q: nat, rest: nat)
    requires d > 0 && v == d * q + rest && rest < d
    ensures v / d == q
  {
    QuotientIsUnique(d, v / d, v % d, q, rest);
  }

  lemma QuotientIsUnique(d: int, q: int, r: int, s: int, t: int)
    requires d * q + r == d * s + t && 0 <= r < d && 0 <= t < d
    ensures q == s
  {
    var k := q - s;
    assert d * k == d * q - d * s;
    if k > 0 {
      Multiple(d, k);
    }
  }

  lemma {:induction false} Multiple(d: int, k: nat)
    requires d > 0 && k > 0
    ensures d * k >= d
  {
    if k > 1 {
      Multiple(d, k - 1);
      assert d * k == d * (k - 1) + d;
    }
  }

  lemma {:induction false} DigitAt(v: nat, w: nat, i: nat)
    requires i < w
    ensures Digits(v, w)[i] == v / Pow256(i) % 256
  {
    if i > 0 {
      DigitAt(v / 256, w - 1, i - 1);
      DivideTwice(v, Pow256(i - 1));
    }
  }

  /** Byte `i` counts the 256^i: the first byte of a little-endian number, the last of a big-endian one, is the
      units.  Negative numbers are written as two's complement. */
  lemma PackedBytes(f: Format, v: int, i: nat)
    requires Fits(f, v) && i < Width(f)
    ensures var u := if v < 0 then v + Pow256(Width(f)) else v;
            u >= 0 &&
            Pack(f, v, Little)[i] == u / Pow256(i) % 256 &&
            Pack(f, v, Big)[Width(f) - 1 - i] == u / Pow256(i) % 256
  {
    hide Digits, Limit, Pow256, Arrange;
    var w := Width(f);
    LimitIsPower(w);
    var u := if v < 0 then v + Limit(w) else v;
    DigitAt(u, w, i);
    ArrangeAt(Digits(u, w), i);
  }

  lemma ArrangeAt(bs: seq<Byte>, i: nat)
    requires i < |bs|
    ensures Arrange(bs, Little)[i] == bs[i] && Arrange(bs, Big)[|bs| - 1 - i] == bs[i]
  {
  }

  /** The sum of the `n` lightest bytes, each times its power of 256. */
  function Weighed(bs: seq<Byte>, e: Endian, n: nat): nat
    requires n <= |bs|
  {
    if n == 0 then 0
    else Weighed(bs, e, n - 1) + Pow256(n - 1) * if e == Little then bs[n - 1] else bs[|bs| - n]
  }

  lemma {:induction false} WeighedFirst(bs: seq<Byte>, n: nat)
    requires 0 < n <= |bs|
    ensures Weighed(bs, Little, n) == bs[0] + 256 * Weighed(bs[1..], Little, n - 1)
  {
    if n == 1 {
      assert Weighed(bs, Little, 0) == 0 && Pow256(0) == 1;
      assert Weighed(bs[1..], Little, 0) == 0;
    } else {
      WeighedFirst(bs, n - 1);
      var b, p := bs[n - 1], Pow256(n - 2);
      assert bs[1..][n - 2] == b;
      assert Pow256(n - 1) * b == 256 * (p * b);
    }
  }

  lemma {:induction false} ValueIsWeighed(bs: seq<Byte>)
    ensures Value(bs) == Weighed(bs, Little, |bs|)
  {
    if bs != [] {
      ValueIsWeighed(bs[1..]);
      WeighedFirst(bs, |bs|);
    }
  }

  lemma {:induction false} WeighedReversed(bs: seq<Byte>, n: nat)
    requires n <= |bs|
    ensures Weighed(Reverse(bs), Little, n) == Weighed(bs, Big, n)
  {
    if n > 0 {
      WeighedReversed(bs, n - 1);
      assert Reverse(bs)[n - 1] == bs[|bs| - n];
    }
  }

  /** What bytes mean as a number, in either order; a signed format counts its upper half as negative. */
  lemma UnpackedSum(f: Format, bs: seq<Byte>, e: Endian)
    requires |bs| == Width(f)
    ensures var u := Weighed(bs, e, |bs|);
            Unpack(f, bs, e) == if Signed(f) && u >= Pow256(Width(f)) / 2 then u - Pow256(Width(f)) else u
  {
    hide Value, Weighed;
    LimitIsPower(Width(f));
    ValueIsWeighed(Arrange(bs, e));
    if e == Big {
      WeighedReversed(bs, |bs|);
    }
  }
}
