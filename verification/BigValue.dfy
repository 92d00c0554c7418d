/** What a sequence of 32-bit words stands for, the lowest word first (the x field of Bigint in dtoa.c). */
module BigValue {
  import opened Bits

  const W: nat := 0x1_0000_0000

  // ULLong: what products of two words and their carries are kept in.
  type dword = x: int | 0 <= x < 0x1_0000_0000_0000_0000

  predicate IsWords(s: seq<nat>) {
    forall i :: 0 <= i < |s| ==> s[i] < W
  }

  // The weight of word `n`.
  function Radix(n: nat): (r: nat)
    ensures r > 0
  {
    if n == 0 then 1 else W * Radix(n - 1)
  }

  function Val(s: seq<nat>): nat {
    if s == [] then 0 else Val(s[..|s| - 1]) + s[|s| - 1] * Radix(|s| - 1)
  }

  lemma {:induction false} RadixAdd(a: nat, b: nat)
    ensures Radix(a + b) == Radix(a) * Radix(b)
  {
    if a > 0 {
      RadixAdd(a - 1, b);
      MulAssoc(W, Radix(a - 1), Radix(b));
    }
  }

  lemma {:induction false} RadixMono(a: nat, b: nat)
    requires a <= b
    ensures Radix(a) <= Radix(b)
  {
    if a < b {
      RadixMono(a, b - 1);
    }
  }

  lemma {:induction false} RadixIs(n: nat)
    ensures Radix(n) == Pow2(32 * n)
  {
    if n > 0 {
      RadixIs(n - 1);
      var r := Pow2(32 * (n - 1));
      Word32();
      hide Pow2;
      Pow2Add(32, 32 * (n - 1));
    }
  }

  lemma {:induction false} Word32()
    ensures Pow2(32) == W
  {
    Pow2Values();
    Pow2Add(16, 16);
  }

  // One word more.
  lemma {:induction false} ValNext(s: seq<nat>, i: nat)
    requires i < |s|
    ensures Val(s[..i + 1]) == Val(s[..i]) + s[i] * Radix(i)
  {
    assert s[..i + 1][..i] == s[..i];
  }

  lemma {:induction false} ValBound(s: seq<nat>)
    requires IsWords(s)
    ensures Val(s) < Radix(|s|)
  {
    if s != [] {
      var n := |s| - 1;
      ValBound(s[..n]);
      MulStep(s[n], W, Radix(n));
    }
  }

  // The top word bounds the value from both sides.
  lemma {:induction false} TopBounds(s: seq<nat>)
    requires IsWords(s) && s != []
    ensures s[|s| - 1] * Radix(|s| - 1) <= Val(s) < (s[|s| - 1] + 1) * Radix(|s| - 1)
  {
    var n := |s| - 1;
    ValBound(s[..n]);
    OneUnit(s[n], Radix(n));
  }

  lemma {:induction false} OneUnit(a: int, u: int)
    ensures (a + 1) * u == a * u + u
  {
  }

  // A change of one word.
  lemma {:induction false} ValUpdate(s: seq<nat>, i: nat, v: nat)
    requires i < |s|
    ensures Val(s[i := v]) == Val(s) + (v - s[i]) * Radix(i)
  {
    var n := |s| - 1;
    if i < n {
      ValUpdate(s[..n], i, v);
      assert s[i := v][..n] == s[..n][i := v];
    } else {
      assert s[i := v][..n] == s[..n];
      Difference(v, s[i], Radix(n));
    }
  }

  lemma {:induction false} Difference(a: int, b: int, u: int)
    ensures (a - b) * u == a * u - b * u
  {
  }

  lemma {:induction false} ValZeros(s: seq<nat>)
    requires forall i :: 0 <= i < |s| ==> s[i] == 0
    ensures Val(s) == 0
  {
    if s != [] {
      ValZeros(s[..|s| - 1]);
    }
  }

  // Zeros on top change nothing.
  lemma {:induction false} ValTrim(s: seq<nat>, n: nat)
    requires n <= |s| && forall i :: n <= i < |s| ==> s[i] == 0
    ensures Val(s[..n]) == Val(s)
  {
    if n < |s| {
      ValTrim(s[..|s| - 1], n);
      assert s[..|s| - 1][..n] == s[..n];
    } else {
      assert s[..n] == s;
    }
  }

  // A value is zero just when its words are.
  lemma {:induction false} ValPositive(s: seq<nat>, i: nat)
    requires i < |s| && s[i] > 0
    ensures Val(s) >= Radix(i)
  {
    var n := |s| - 1;
    if i < n {
      ValPositive(s[..n], i);
    } else {
      MulMono(Radix(n), 1, s[n]);
    }
  }

  // The larger word decides, if the ones above it are the same.
  lemma {:induction false} ValLess(s: seq<nat>, t: seq<nat>, i: nat)
    requires IsWords(s) && IsWords(t) && |s| == |t| && i < |s| && s[i] < t[i]
    requires forall k :: i < k < |s| ==> s[k] == t[k]
    ensures Val(s) < Val(t)
  {
    hide Radix;
    var n := |s| - 1;
    if i < n {
      ValLess(s[..n], t[..n], i);
    } else {
      TopBounds(s);
      TopBounds(t);
      MulMono(Radix(n), s[n] + 1, t[n]);
    }
  }

  /** A step of a loop over the words: what is left of `y` goes into the next word. */
  lemma {:induction false} CarryStep(y: int, low: int, carry: int, i: nat)
    requires y == carry * W + low
    ensures y * Radix(i) == low * Radix(i) + carry * Radix(i + 1)
  {
    var r := Radix(i);
    assert (carry * W + low) * r == carry * W * r + low * r;
    MulAssoc(carry, W, r);
  }
}
