/** Canonical Huffman codes from code lengths (section 3.2.2 of RFC 1951).

A code of length `l` is seen as the interval of all 15-bit numbers that start
with it, most significant bit first.  Codes are handed out in the order of
(length, symbol), each interval starting where the previous one ends. */
module Canonical {
  import opened Bits

  const MAX_BITS: nat := 15

  // Every code length fits the format; zero means that the symbol is not used.
  predicate LensOk(lens: seq<nat>) {
    forall i :: 0 <= i < |lens| ==> lens[i] <= MAX_BITS
  }

  // The size of the interval of a code of length `l`.
  function Width(l: nat): nat
    requires l <= MAX_BITS
  {
    if l == 0 then 0 else Pow2(MAX_BITS - l)
  }

  // How many symbols have a code of length `l`.
  function Count(lens: seq<nat>, l: nat): (c: nat)
    ensures c <= |lens|
  {
    if lens == [] then 0
    else Count(lens[..|lens| - 1], l) + (if lens[|lens| - 1] == l then 1 else 0)
  }

  // The room all codes take together; the code is complete when this is Pow2(MAX_BITS).
  function Kraft(lens: seq<nat>): nat
    requires LensOk(lens)
  {
    if lens == [] then 0
    else Kraft(lens[..|lens| - 1]) + Width(lens[|lens| - 1])
  }

  predicate Precedes(l1: nat, s1: int, l2: nat, s2: int) {
    l1 < l2 || (l1 == l2 && s1 < s2)
  }

  // The room taken by the symbols that precede (l, n) in the order of (length, symbol).
  function Before(lens: seq<nat>, l: nat, n: nat): nat
    requires LensOk(lens)
  {
    if lens == [] then 0
    else
      var t := |lens| - 1;
      Before(lens[..t], l, n) + (if Precedes(lens[t], t, l, n) then Width(lens[t]) else 0)
  }

  // Where the interval of symbol `s` starts.
  function Pos(lens: seq<nat>, s: nat): nat
    requires LensOk(lens) && s < |lens|
  {
    Before(lens, lens[s], s)
  }

  function CodeOf(lens: seq<nat>, s: nat): nat
    requires LensOk(lens) && s < |lens|
  {
    Shr(Pos(lens, s), MAX_BITS - lens[s])
  }

  // `v` as `n` digits, most significant digit first.
  function Msb(v: nat, n: nat): (b: seq<bool>)
    ensures |b| == n
  {
    Reverse(ToBits(v, n))
  }

  // The bit string of symbol `s`, in stream order.
  function CodeBits(lens: seq<nat>, s: nat): (b: seq<bool>)
    requires LensOk(lens) && s < |lens|
    ensures |b| == lens[s]
  {
    Msb(CodeOf(lens, s), lens[s])
  }

  // Not over-subscribed: the code has room for every symbol.
  predicate Fits(lens: seq<nat>) {
    LensOk(lens) && Kraft(lens) <= Pow2(MAX_BITS)
  }

  predicate Complete(lens: seq<nat>) {
    LensOk(lens) && Kraft(lens) == Pow2(MAX_BITS)
  }

  lemma {:induction false} BeforeStep(lens: seq<nat>, l: nat, n: nat, s: nat)
    requires LensOk(lens) && s < |lens|
    requires Precedes(lens[s], s, l, n)
    ensures Pos(lens, s) + Width(lens[s]) <= Before(lens, l, n)
  {
    BeforeAdds(lens, lens[s], s, l, n, s);
  }

  lemma {:induction false} BeforeAdds(lens: seq<nat>, l1: nat, n1: nat, l2: nat, n2: nat, s: nat)
    requires LensOk(lens)
    requires Precedes(l1, n1, l2, n2)
    ensures Before(lens, l1, n1) <= Before(lens, l2, n2)
    ensures s < |lens| && lens[s] == l1 && n1 == s ==>
              Before(lens, l1, n1) + Width(l1) <= Before(lens, l2, n2)
  {
    if lens != [] {
      BeforeAdds(lens[..|lens| - 1], l1, n1, l2, n2, s);
    }
  }

  lemma {:induction false} BeforeKraft(lens: seq<nat>, l: nat, n: nat)
    requires LensOk(lens)
    ensures Before(lens, l, n) <= Kraft(lens)
  {
    if lens != [] {
      BeforeKraft(lens[..|lens| - 1], l, n);
    }
  }

  lemma {:induction false} BeforeAll(lens: seq<nat>)
    requires LensOk(lens)
    ensures Before(lens, MAX_BITS + 1, 0) == Kraft(lens)
  {
    if lens != [] {
      BeforeAll(lens[..|lens| - 1]);
    }
  }

  lemma {:induction false} PosKraft(lens: seq<nat>, s: nat)
    requires LensOk(lens) && s < |lens|
    ensures Pos(lens, s) + Width(lens[s]) <= Kraft(lens)
  {
    BeforeStep(lens, MAX_BITS + 1, 0, s);
    BeforeKraft(lens, MAX_BITS + 1, 0);
  }

  // Everything before (l, n) with codes of at most `l` bits ends on a multiple of Width(l).
  lemma {:induction false} BeforeAligned(lens: seq<nat>, l: nat, n: nat) returns (k: nat)
    requires LensOk(lens) && 0 < l <= MAX_BITS
    ensures Before(lens, l, n) == Pow2(MAX_BITS - l) * k
  {
    if lens == [] {
      k := 0;
    } else {
      var t := |lens| - 1;
      k := BeforeAligned(lens[..t], l, n);
      if Precedes(lens[t], t, l, n) && lens[t] > 0 {
        Pow2Add(MAX_BITS - l, l - lens[t]);
        var j := Pow2(l - lens[t]);
        assert Pow2(MAX_BITS - l) * (k + j) == Pow2(MAX_BITS - l) * k + Pow2(MAX_BITS - l) * j;
        k := k + j;
      }
    }
  }

  lemma {:induction false} PosOfCode(lens: seq<nat>, s: nat)
    requires LensOk(lens) && s < |lens| && lens[s] > 0
    ensures Pos(lens, s) == Pow2(MAX_BITS - lens[s]) * CodeOf(lens, s)
  {
    var k := BeforeAligned(lens, lens[s], s);
    ShrLowUnique(Pos(lens, s), MAX_BITS - lens[s], 0, k);
  }

  // The code of a symbol fits its length when the lengths are not over-subscribed.
  lemma {:induction false} CodeFits(lens: seq<nat>, s: nat)
    requires Fits(lens) && s < |lens| && lens[s] > 0
    ensures CodeOf(lens, s) < Pow2(lens[s])
  {
    PosKraft(lens, s);
    ShrBound(Pos(lens, s), MAX_BITS - lens[s], lens[s]);
  }

  lemma {:induction false} MsbSplit(hi: nat, lo: nat, a: nat, b: nat)
    requires lo < Pow2(b)
    ensures Msb(lo + Pow2(b) * hi, a + b) == Msb(hi, a) + Msb(lo, b)
  {
    ToBitsOfSum(lo, hi, b, a);
    ReverseConcat(ToBits(lo, b), ToBits(hi, a));
  }

  // The number a string denotes when read most significant digit first.
  function MsbNum(b: seq<bool>): (v: nat)
    ensures v < Pow2(|b|)
  {
    Num(Reverse(b))
  }

  lemma {:induction false} MsbNumMsb(v: nat, n: nat)
    requires v < Pow2(n)
    ensures MsbNum(Msb(v, n)) == v
  {
    ReverseReverse(ToBits(v, n));
    NumToBits(v, n);
    ShrLowUnique(v, n, v, 0);
  }

  lemma {:induction false} MsbOfMsbNum(b: seq<bool>)
    ensures Msb(MsbNum(b), |b|) == b
  {
    ToBitsNum(Reverse(b));
    ReverseReverse(b);
  }

  // The first `l` digits of a number of `l + r` digits.
  lemma {:induction false} MsbPrefix(b: seq<bool>, l: nat, r: nat)
    requires |b| == l + r
    ensures Shr(MsbNum(b), r) < Pow2(l)
    ensures b[..l] == Msb(Shr(MsbNum(b), r), l)
  {
    var x := MsbNum(b);
    MsbSplit(Shr(x, r), Low(x, r), l, r);
    MsbOfMsbNum(b);
    ShrBound(x, r, l);
  }

  // A 15-bit string starts with the code of `s` exactly when its number lies in the interval of `s`.
  lemma {:induction false} PrefixIffInterval(lens: seq<nat>, s: nat, b: seq<bool>)
    requires Fits(lens) && s < |lens| && lens[s] > 0 && |b| == MAX_BITS
    ensures CodeBits(lens, s) <= b <==>
            Pos(lens, s) <= MsbNum(b) < Pos(lens, s) + Width(lens[s])
  {
    var l, r := lens[s], MAX_BITS - lens[s];
    var x, c := MsbNum(b), CodeOf(lens, s);
    MsbPrefix(b, l, r);
    PosOfCode(lens, s);
    CodeFits(lens, s);
    assert CodeBits(lens, s) <= b <==> Msb(c, l) == Msb(Shr(x, r), l);
    if Msb(c, l) == Msb(Shr(x, r), l) {
      MsbNumMsb(c, l);
      MsbNumMsb(Shr(x, r), l);
    }
    if Pow2(r) * c <= x < Pow2(r) * c + Pow2(r) {
      ShrLowUnique(x, r, x - Pow2(r) * c, c);
    }
  }

  function Zeros(n: nat): (z: seq<bool>)
    ensures |z| == n
  {
    seq(n, _ => false)
  }

  // The first 15 bits of a string that may be shorter.
  function Peek(b: seq<bool>): (p: seq<bool>)
    ensures |p| == MAX_BITS
  {
    if |b| >= MAX_BITS then b[..MAX_BITS] else b + Zeros(MAX_BITS - |b|)
  }

  // No code is a prefix of another: a string starts with at most one code.
  lemma {:induction false} PrefixFree(lens: seq<nat>, s: nat, t: nat, b: seq<bool>)
    requires Fits(lens) && s < |lens| && t < |lens| && lens[s] > 0 && lens[t] > 0
    requires CodeBits(lens, s) <= b && CodeBits(lens, t) <= b
    ensures s == t
  {
    var p := Peek(b);
    assert CodeBits(lens, s) <= p && CodeBits(lens, t) <= p;
    PrefixIffInterval(lens, s, p);
    PrefixIffInterval(lens, t, p);
    if s != t {
      if Precedes(lens[s], s, lens[t], t) {
        BeforeStep(lens, lens[t], t, s);
      } else {
        BeforeStep(lens, lens[s], s, t);
      }
    }
  }
}
