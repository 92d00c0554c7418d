/** Decimal digits in a buffer, and rounding to the nearest, of two to the even one (the end of dtoa in dtoa.c). */
module Rounding {
  import opened Bits

  function Pow10(n: nat): (p: nat)
    ensures p > 0
  {
    if n == 0 then 1 else 10 * Pow10(n - 1)
  }

  lemma {:induction false} Pow10Add(a: nat, b: nat)
    ensures Pow10(a + b) == Pow10(a) * Pow10(b)
  {
    if a > 0 {
      Pow10Add(a - 1, b);
      MulAssoc(10, Pow10(a - 1), Pow10(b));
    }
  }

  predicate IsDigits(d: seq<nat>) {
    forall i :: 0 <= i < |d| ==> d[i] < 10
  }

  // The number written by the digits `d`.
  function Decimal(d: seq<nat>): nat {
    if d == [] then 0 else 10 * Decimal(d[..|d| - 1]) + d[|d| - 1]
  }

  lemma {:induction false} DecimalAppend(d: seq<nat>, x: nat)
    ensures Decimal(d + [x]) == 10 * Decimal(d) + x
  {
    assert (d + [x])[..|d|] == d;
  }

  // Digits of the same kind behind `d`.
  lemma {:induction false} DecimalTail(d: seq<nat>, n: nat, x: nat)
    requires n <= |d| && x < 10 && forall i :: n <= i < |d| ==> d[i] == x
    ensures 9 * Decimal(d) == 9 * (Decimal(d[..n]) * Pow10(|d| - n)) + x * (Pow10(|d| - n) - 1)
    decreases |d|
  {
    if n < |d| {
      var m := |d| - 1;
      assert d[..m][..n] == d[..n];
      DecimalTail(d[..m], n, x);
      var p, v := Pow10(m - n), Decimal(d[..n]);
      assert v * Pow10(|d| - n) == 10 * (v * p) by { MulAssoc(v, 10, p); MulAssoc(10, v, p); }
      TailStep(x, p);
    } else {
      assert d[..n] == d;
      NoTail(Decimal(d), x);
    }
  }

  lemma {:induction false} TailStep(x: nat, p: nat)
    ensures x * (10 * p - 1) == 10 * (x * (p - 1)) + 9 * x
  {
  }

  lemma {:induction false} NoTail(v: nat, x: nat)
    ensures v * Pow10(0) == v && x * (Pow10(0) - 1) == 0
  {
  }

  lemma {:induction false} ZerosBehind(d: seq<nat>, n: nat)
    requires n <= |d| && forall i :: n <= i < |d| ==> d[i] == 0
    ensures Decimal(d[..n]) * Pow10(|d| - n) == Decimal(d)
  {
    hide Decimal, Pow10;
    DecimalTail(d, n, 0);
    assert 0 * (Pow10(|d| - n) - 1) == 0;
  }

  lemma {:induction false} NinesBehind(d: seq<nat>, n: nat)
    requires n <= |d| && forall i :: n <= i < |d| ==> d[i] == 9
    ensures (Decimal(d[..n]) + 1) * Pow10(|d| - n) == Decimal(d) + 1
  {
    hide Decimal, Pow10;
    DecimalTail(d, n, 9);
    var v, p := Decimal(d[..n]), Pow10(|d| - n);
    assert (v + 1) * p == v * p + p;
  }

  function Distance(a: int, b: int): nat {
    if a < b then b - a else a - b
  }

  /** `v` is the integer nearest to n / d; of two such the even one. */
  predicate Rounded(v: nat, n: nat, d: nat) {
    && 2 * Distance(v * d, n) <= d
    && (2 * Distance(v * d, n) == d ==> v % 2 == 0)
  }

  /** There is only one. */
  lemma {:induction false} RoundedUnique(v: nat, w: nat, n: nat, d: nat)
    requires d > 0 && Rounded(v, n, d) && Rounded(w, n, d)
    ensures v == w
  {
    if v < w {
      Nearest(v, w, n, d);
    }
    if w < v {
      Nearest(w, v, n, d);
    }
  }

  lemma {:induction false} Nearest(v: nat, w: nat, n: nat, d: nat)
    requires d > 0 && v < w && Rounded(v, n, d)
    ensures !Rounded(w, n, d)
  {
    MulStep(v, w, d);
    if v + 1 < w {
      MulStep(v + 1, w, d);
      MulStep(v, v + 1, d);
    }
  }

  // From the quotient and the remainder.
  lemma {:induction false} RoundedFrom(q: nat, r: nat, n: nat, d: nat)
    requires n == q * d + r && r < d
    ensures Rounded(if 2 * r > d || (2 * r == d && q % 2 == 1) then q + 1 else q, n, d)
  {
    assert (q + 1) * d == q * d + d;
  }

  // A common factor makes no difference.
  lemma {:induction false} RoundedScaled(v: nat, n: nat, d: nat, c: nat)
    requires c > 0
    ensures Rounded(v, c * n, c * d) <==> Rounded(v, n, d)
  {
    var e := v * d;
    assert v * (c * d) == c * e by { MulAssoc(v, c, d); MulAssoc(c, v, d); }
    assert Distance(c * e, c * n) == c * Distance(e, n) by { DistanceScaled(e, n, c); }
    var x := 2 * Distance(e, n);
    assert 2 * (c * Distance(e, n)) == c * x by { MulAssoc(c, 2, Distance(e, n)); }
    if x <= d {
      MulMono(c, x, d);
    } else {
      MulStep(d, x, c);
    }
    if c * x == c * d {
      SameFactor(c, x, d);
    }
  }

  lemma {:induction false} SameFactor(c: nat, x: nat, y: nat)
    requires c > 0 && c * x == c * y
    ensures x == y
  {
    if x < y {
      MulStep(x, y, c);
    }
    if y < x {
      MulStep(y, x, c);
    }
  }

  lemma {:induction false} DistanceScaled(a: nat, b: nat, c: nat)
    ensures Distance(c * a, c * b) == c * Distance(a, b)
  {
    if a < b {
      MulMono(c, a, b);
    } else {
      MulMono(c, b, a);
    }
  }

  /** roundoff: one more in the last place; nines become the end of the number. */
  method RoundOff(s: array<nat>, n: nat) returns (n1: nat, up: nat)
    requires 1 <= n <= s.Length && IsDigits(s[..n]) && s[0] > 0
    modifies s
    ensures 1 <= n1 <= n && IsDigits(s[..n1]) && s[0] > 0 && s[n1 - 1] > 0 && up <= 1
    ensures Decimal(s[..n1]) * Pow10(n + up - n1) == old(Decimal(s[..n])) + 1
  {
    hide Decimal, Pow10;
    ghost var d := s[..n];
    var p := n - 1;
    while s[p] == 9
      invariant p < n && forall i :: p < i < n ==> s[i] == 9
      decreases p
    {
      if p == 0 {
        NinesBehind(d, 0);
        AllNines(n);
        assert d[..0] == [];
        s[0] := 1;
        assert s[..1] == [1];
        return 1, 1;
      }
      p := p - 1;
    }
    NinesBehind(d, p + 1);
    assert d[..p + 1] == d[..p] + [d[p]];
    DecimalAppend(d[..p], d[p]);
    DecimalAppend(d[..p], d[p] + 1);
    s[p] := s[p] + 1;
    assert s[..p + 1] == d[..p] + [d[p] + 1];
    return p + 1, 0;
  }

  lemma {:induction false} AllNines(n: nat)
    ensures Decimal([]) == 0 && Decimal([1]) == 1 && 1 * Pow10(n) == Pow10(n) && (0 + 1) * Pow10(n) == Pow10(n)
  {
    DecimalAppend([], 1);
    assert [] + [1] == [1];
  }

  /** Zeros at the end are dropped. */
  method TrimZeros(s: array<nat>, n: nat) returns (n1: nat)
    requires 1 <= n <= s.Length && IsDigits(s[..n]) && s[0] > 0
    ensures 1 <= n1 <= n && IsDigits(s[..n1]) && s[n1 - 1] > 0
    ensures Decimal(s[..n1]) * Pow10(n - n1) == Decimal(s[..n])
  {
    hide Decimal, Pow10;
    var p := n - 1;
    while s[p] == 0
      invariant p < n && forall i :: p < i < n ==> s[i] == 0
      decreases p
    {
      p := p - 1;
    }
    n1 := p + 1;
    ZerosBehind(s[..n], n1);
    assert s[..n][..n1] == s[..n1];
  }
}
