/** Bit strings and the numbers they stand for.

DEFLATE packs a number into the stream starting with its least significant bit
(section 3.1.1 of RFC 1951), so a bit string is read here with its first element
as the lowest binary digit.  Shifts and masks of the program are arithmetic on
these numbers: `x >> n` is `Shr(x, n)` and `x & ((1 << n) - 1)` is `Low(x, n)`. */
module Bits {

  function Pow2(n: nat): (p: nat)
    ensures p > 0
  {
    if n == 0 then 1 else 2 * Pow2(n - 1)
  }

  // x >> n
  function Shr(x: nat, n: nat): (r: nat)
    ensures Pow2(n) * r <= x < Pow2(n) * r + Pow2(n)
  {
    DivBounds(x, Pow2(n));
    x / Pow2(n)
  }

  // x & ((1 << n) - 1)
  function Low(x: nat, n: nat): (r: nat)
    ensures r < Pow2(n) && x == r + Pow2(n) * Shr(x, n)
  {
    DivBounds(x, Pow2(n));
    x - Pow2(n) * Shr(x, n)
  }

  lemma {:induction false} DivBounds(x: nat, d: nat)
    requires d > 0
    ensures x / d >= 0 && d * (x / d) <= x < d * (x / d) + d
  {
  }

  // The number whose binary digits, lowest first, are `b`.
  function Num(b: seq<bool>): (v: nat)
    ensures v < Pow2(|b|)
  {
    if b == [] then 0 else (if b[0] then 1 else 0) + 2 * Num(b[1..])
  }

  // The `n` lowest binary digits of `v`, lowest first.
  function ToBits(v: nat, n: nat): (b: seq<bool>)
    ensures |b| == n
  {
    if n == 0 then [] else [v % 2 == 1] + ToBits(v / 2, n - 1)
  }

  function Reverse(b: seq<bool>): (r: seq<bool>)
    ensures |r| == |b|
  {
    if b == [] then [] else Reverse(b[1..]) + [b[0]]
  }

  // The bits of a byte string, in stream order.
  function ByteBits(s: seq<nat>): (b: seq<bool>)
    ensures |b| == 8 * |s|
  {
    if s == [] then [] else ToBits(s[0], 8) + ByteBits(s[1..])
  }

  lemma {:induction false} Pow2Add(a: nat, b: nat)
    ensures Pow2(a + b) == Pow2(a) * Pow2(b)
  {
    if a > 0 {
      Pow2Add(a - 1, b);
      assert Pow2(a + b) == 2 * Pow2(a - 1 + b);
    }
  }

  lemma {:induction false} Pow2Mono(a: nat, b: nat)
    requires a <= b
    ensures Pow2(a) <= Pow2(b)
  {
    if a < b {
      Pow2Mono(a, b - 1);
    }
  }

  lemma {:induction false} Pow2Strict(a: nat, b: nat)
    requires a < b
    ensures 2 * Pow2(a) <= Pow2(b)
  {
    Pow2Mono(a + 1, b);
  }

  lemma {:induction false} Pow2Values()
    ensures Pow2(1) == 2 && Pow2(2) == 4 && Pow2(3) == 8 && Pow2(4) == 16
    ensures Pow2(5) == 32 && Pow2(6) == 64 && Pow2(7) == 128 && Pow2(8) == 256
    ensures Pow2(9) == 512 && Pow2(10) == 1024 && Pow2(15) == 32768 && Pow2(16) == 65536
  {
    assert Pow2(4) == 16;
    assert Pow2(8) == 256;
    assert Pow2(12) == 4096;
    assert Pow2(14) == 16384;
  }

  // Packing and unpacking are inverse to each other.
  lemma {:induction false} ToBitsNum(b: seq<bool>)
    ensures ToBits(Num(b), |b|) == b
  {
    if b != [] {
      ToBitsNum(b[1..]);
      assert Num(b) / 2 == Num(b[1..]);
      assert b == [b[0]] + b[1..];
    }
  }

  lemma {:induction false} ShrBound(x: nat, a: nat, b: nat)
    requires x < Pow2(a + b)
    ensures Shr(x, a) < Pow2(b)
  {
    Pow2Add(a, b);
    MulCancel(Pow2(a), Shr(x, a), Pow2(b));
  }

  lemma {:induction false} MulMono(w: nat, a: nat, b: nat)
    requires a <= b
    ensures w * a <= w * b
  {
  }

  lemma {:induction false} MulCancel(w: nat, a: nat, b: nat)
    requires w * a < w * b
    ensures a < b
  {
    if b <= a {
      MulMono(w, b, a);
    }
  }

  // Shr and Low are the only way to split a number at bit n.
  lemma {:induction false} ShrLowUnique(x: nat, n: nat, lo: nat, hi: nat)
    requires lo < Pow2(n) && x == lo + Pow2(n) * hi
    ensures Shr(x, n) == hi && Low(x, n) == lo
  {
    hide Pow2;
    var q, r := Shr(x, n), Low(x, n);
    hide Shr, Low;
    if q < hi {
      MulStep(q, hi, Pow2(n));
    } else if hi < q {
      MulStep(hi, q, Pow2(n));
    }
  }

  lemma {:induction false} NumToBits(v: nat, n: nat)
    ensures Num(ToBits(v, n)) == Low(v, n)
  {
    if n > 0 {
      NumToBits(v / 2, n - 1);
      assert ToBits(v, n)[1..] == ToBits(v / 2, n - 1);
      LowHalf(v, n);
    }
  }

  lemma {:induction false} LowHalf(v: nat, n: nat)
    requires n > 0
    ensures Low(v, n) == v % 2 + 2 * Low(v / 2, n - 1)
    ensures Shr(v, n) == Shr(v / 2, n - 1)
  {
    var lo, hi := Low(v / 2, n - 1), Shr(v / 2, n - 1);
    MulAssoc(2, Pow2(n - 1), hi);
    ShrLowUnique(v, n, v % 2 + 2 * lo, hi);
  }

  lemma {:induction false} MulStep(a: int, b: int, d: int)
    requires a < b && 0 <= d
    ensures a * d + d <= b * d
  {
    assert (b - 1 - a) * d >= 0;
  }

  lemma {:induction false} NumConcat(a: seq<bool>, b: seq<bool>)
    ensures Num(a + b) == Num(a) + Pow2(|a|) * Num(b)
  {
    if a == [] {
      assert a + b == b;
    } else {
      assert (a + b)[1..] == a[1..] + b;
      NumConcat(a[1..], b);
      MulAssoc(2, Pow2(|a| - 1), Num(b));
    }
  }

  // n * u as repeated addition: a product that does not send the solver into nonlinear arithmetic.
  function Times(n: nat, u: nat): nat {
    if n == 0 then 0 else u + Times(n - 1, u)
  }

  lemma {:induction false} TimesIs(n: nat, u: nat)
    ensures Times(n, u) == n * u
  {
    if n > 0 {
      TimesIs(n - 1, u);
      assert n * u == (n - 1) * u + u;
    }
  }

  lemma {:induction false} MulAssoc(a: int, b: int, c: int)
    ensures a * (b * c) == (a * b) * c
  {
  }

  // Only the low `n` digits of a number matter to its `n`-digit string.
  lemma {:induction false} ToBitsLow(v: nat, n: nat)
    ensures ToBits(Low(v, n), n) == ToBits(v, n)
  {
    NumToBits(v, n);
    ToBitsNum(ToBits(v, n));
  }

  // Concatenating digit strings adds the numbers, the second one shifted.
  lemma {:induction false} ToBitsOfSum(lo: nat, hi: nat, a: nat, b: nat)
    requires lo < Pow2(a)
    ensures ToBits(lo + Pow2(a) * hi, a + b) == ToBits(lo, a) + ToBits(hi, b)
    decreases a
  {
    var v := lo + Pow2(a) * hi;
    if a == 0 {
      assert v == hi;
    } else {
      MulAssoc(2, Pow2(a - 1), hi);
      assert v == lo + 2 * (Pow2(a - 1) * hi);
      ToBitsOfSum(lo / 2, hi, a - 1, b);
      assert v / 2 == lo / 2 + Pow2(a - 1) * hi;
      assert ToBits(v, a + b) == [v % 2 == 1] + ToBits(v / 2, a - 1 + b);
      assert ToBits(lo, a) == [lo % 2 == 1] + ToBits(lo / 2, a - 1);
    }
  }

  lemma {:induction false} ToBitsSplit(v: nat, a: nat, b: nat)
    ensures ToBits(v, a + b) == ToBits(v, a) + ToBits(Shr(v, a), b)
  {
    ToBitsOfSum(Low(v, a), Shr(v, a), a, b);
    ToBitsLow(v, a);
  }

  lemma {:induction false} ReverseConcat(a: seq<bool>, b: seq<bool>)
    ensures Reverse(a + b) == Reverse(b) + Reverse(a)
  {
    if a == [] {
      assert a + b == b;
    } else {
      assert (a + b)[1..] == a[1..] + b;
      ReverseConcat(a[1..], b);
    }
  }

  lemma {:induction false} ReverseReverse(b: seq<bool>)
    ensures Reverse(Reverse(b)) == b
  {
    if b != [] {
      ReverseReverse(b[1..]);
      ReverseConcat(Reverse(b[1..]), [b[0]]);
      assert Reverse([b[0]]) == [b[0]];
      assert b == [b[0]] + b[1..];
    }
  }

  lemma {:induction false} ByteBitsConcat(a: seq<nat>, b: seq<nat>)
    ensures ByteBits(a + b) == ByteBits(a) + ByteBits(b)
  {
    if a == [] {
      assert a + b == b;
    } else {
      assert (a + b)[1..] == a[1..] + b;
      ByteBitsConcat(a[1..], b);
    }
  }
}
