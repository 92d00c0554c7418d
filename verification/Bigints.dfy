/** Multiprecision integers in arrays of words (dtoa.c): multadd, lshift, cmp and diff. */
module Bigints {
  import opened Bits
  import opened BigValue

  class Bigint {
    const k: nat
    const x: array<nat>
    var sign: nat
    var wds: nat

    /** Balloc: room for 2^k words, with whatever they held before. */
    constructor (k: nat)
      ensures this.k == k && fresh(x) && Valid() && sign == 0 && wds == 0
    {
      this.k := k;
      x := new nat[Pow2(k)];
      sign := 0;
      wds := 0;
    }

    ghost predicate Valid()
      reads this, x
    {
      wds <= x.Length == Pow2(k) && IsWords(x[..wds])
    }

    ghost function Value(): nat
      reads this, x
      requires Valid()
    {
      Val(x[..wds])
    }

    // No zero on top; zero itself may have one word or none.
    ghost predicate Normal()
      reads this, x
    {
      Valid() && (wds <= 1 || x[wds - 1] != 0)
    }
  }

  lemma {:induction false} MulWord(m: nat, xi: nat, carry: nat, low: nat, carry1: nat, i: nat, v: nat, p: nat, a: nat)
    requires xi * m + carry == carry1 * W + low && v + carry * Radix(i) == m * p + a
    ensures v + low * Radix(i) + carry1 * Radix(i + 1) == m * (p + xi * Radix(i)) + a
  {
    hide Radix;
    var r := Radix(i);
    CarryStep(xi * m + carry, low, carry1, i);
    assert (xi * m + carry) * r == xi * m * r + carry * r by { Sum(xi * m, carry, r); }
    MulAssoc(m, xi, r);
    assert m * (p + xi * r) == m * p + m * (xi * r) by { SumRight(m, p, xi * r); }
  }

  lemma {:induction false} Sum(a: int, b: int, u: int)
    ensures (a + b) * u == a * u + b * u
  {
  }

  lemma {:induction false} SumRight(u: int, a: int, b: int)
    ensures u * (a + b) == u * a + u * b
  {
  }

  // What a product of two words and two words more fits into.
  lemma {:induction false} TwoWords(a: nat, b: nat, c: nat, d: nat)
    requires a < W && b < W && c < W && d < W
    ensures a * b + c + d < W * W
  {
    MulMono(a, b, W - 1);
  }

  lemma {:induction false} CarryBound(y: nat, w: nat)
    requires y < w * W && w > 0
    ensures y / W < w
  {
  }

  // The next word is still the old one.
  lemma {:induction false} FirstLeft(x: array<nat>, s: seq<nat>, i: nat, wds: nat)
    requires i < wds <= x.Length && |s| == wds && x[i..wds] == s[i..]
    ensures x[i] == s[i]
  {
    assert x[i] == x[i..wds][0] && s[i] == s[i..][0];
  }

  /** The loop of multadd: the words times `m`, with a carry. */
  method MulWords(x: array<nat>, wds: nat, m: nat, a: nat) returns (carry: nat)
    requires 1 <= wds <= x.Length && IsWords(x[..wds]) && m < W && a < W
    modifies x
    ensures IsWords(x[..wds]) && carry < W
    ensures Val(x[..wds]) + carry * Radix(wds) == m * old(Val(x[..wds])) + a
    ensures carry == 0 && m > 0 && old(x[wds - 1]) > 0 ==> x[wds - 1] > 0
  {
    hide Radix, Val;
    ghost var s := x[..wds];
    carry := a;
    ValNone();
    assert x[..0] == [] && s[..0] == [];
    for i := 0 to wds
      invariant IsWords(x[..i]) && x[i..wds] == s[i..] && carry < W
      invariant Val(x[..i]) + carry * Radix(i) == m * Val(s[..i]) + a
      invariant i > 0 && carry == 0 && m > 0 && s[i - 1] > 0 ==> x[i - 1] > 0
    {
      FirstLeft(x, s, i, wds);
      ghost var front := x[..i];
      TwoWords(x[i], m, carry, 0);
      var y: dword := x[i] * m + carry;
      CarryBound(y, W);
      NotLost(x[i], m, carry);
      MulWord(m, x[i], carry, y % W, y / W, i, Val(front), Val(s[..i]), a);
      ValNext(s, i);
      carry := y / W;
      x[i] := y % W;
      assert x[..i + 1] == front + [y % W];
      assert x[i + 1..wds] == s[i + 1..];
      ValAppend(front, y % W);
    }
    assert s[..wds] == s;
  }

  lemma {:induction false} NotLost(a: nat, m: nat, c: nat)
    ensures a > 0 && m > 0 && (a * m + c) / W == 0 ==> (a * m + c) % W > 0
  {
  }

  lemma {:induction false} ValNone()
    ensures Val([]) == 0 && Radix(0) == 1
  {
  }

  lemma {:induction false} ValAppend(s: seq<nat>, v: nat)
    ensures Val(s + [v]) == Val(s) + v * Radix(|s|)
  {
    assert (s + [v])[..|s|] == s;
  }

  // Room for one word more: a copy, if need be.
  method Grown(b: Bigint) returns (r: Bigint)
    requires b.Valid() && b.wds >= 1
    ensures r.Valid() && r.wds == b.wds < r.x.Length && r.x[..r.wds] == b.x[..b.wds]
    ensures r == b || (fresh(r) && fresh(r.x))
  {
    hide IsWords;
    r := b;
    if b.wds >= b.x.Length {
      r := new Bigint(b.k + 1);
      r.sign, r.wds := b.sign, b.wds;
      for i := 0 to b.wds
        invariant r.wds == b.wds && r.x.Length == 2 * b.x.Length && r.x[..i] == b.x[..i]
      {
        r.x[i] := b.x[i];
      }
    }
  }

  /** multadd: the value becomes m times what it was, and `a` more; the number may move to a larger place. */
  method Multadd(b: Bigint, m: nat, a: nat) returns (r: Bigint)
    requires b.Valid() && b.wds >= 1 && m < 0x8000_0000 && a < 0x8000_0000
    modifies b, b.x
    ensures r.Valid() && r.wds >= 1 && (r == b || (fresh(r) && fresh(r.x)))
    ensures r.Value() == m * old(b.Value()) + a
    ensures old(b.Normal()) && m > 0 ==> r.Normal()
  {
    hide Radix, Val, IsWords;
    var carry := MulWords(b.x, b.wds, m, a);
    r := b;
    ZeroTimes(b.wds);
    if carry > 0 {
      r := Grown(b);
      ghost var s := r.x[..r.wds];
      ValAppend(s, carry);
      WordsAppend(s, carry);
      r.x[r.wds] := carry;
      r.wds := r.wds + 1;
      assert r.x[..r.wds] == s + [carry];
    }
  }

  lemma {:induction false} ZeroTimes(n: nat)
    ensures 0 * Radix(n) == 0
  {
  }

  lemma {:induction false} WordsAppend(s: seq<nat>, v: nat)
    requires IsWords(s) && v < W
    ensures IsWords(s + [v])
  {
  }

  // Where the words of two numbers differ, looked for from the top.
  method TopDifference(a: array<nat>, b: array<nat>, n: nat) returns (i: nat)
    requires 1 <= n <= a.Length && n <= b.Length
    ensures i < n && forall k :: i < k < n ==> a[k] == b[k]
    ensures i == 0 || a[i] != b[i]
  {
    i := n - 1;
    while a[i] == b[i]
      invariant i < n && forall k :: i < k < n ==> a[k] == b[k]
      decreases i
    {
      if i == 0 {
        break;
      }
      i := i - 1;
    }
  }

  /** cmp: the sign tells how the values compare, unless both are zero and written differently. */
  method Cmp(a: Bigint, b: Bigint) returns (r: int)
    requires a.Normal() && b.Normal() && (a.wds == b.wds ==> a.wds >= 1)
    ensures (r < 0 <==> a.Value() < b.Value()) && (r > 0 <==> a.Value() > b.Value()) <==>
            !(a.Value() == 0 == b.Value() && a.wds != b.wds)
    ensures r == 0 ==> a.wds == b.wds && a.x[..a.wds] == b.x[..b.wds]
  {
    hide Radix, Val;
    ghost var s, t := a.x[..a.wds], b.x[..b.wds];
    r := a.wds - b.wds;
    if r != 0 {
      LongerLarger(s, t);
      LongerLarger(t, s);
      return;
    }
    var i := TopDifference(a.x, b.x, a.wds);
    if a.x[i] == b.x[i] {
      assert s == t;
      return 0;
    }
    r := if a.x[i] < b.x[i] then -1 else 1;
    if a.x[i] < b.x[i] {
      ValLess(s, t, i);
    } else {
      ValLess(t, s, i);
    }
  }

  // Of two numbers the longer one is larger; only zeros of one word and of none are the same.
  lemma {:induction false} LongerLarger(s: seq<nat>, t: seq<nat>)
    requires IsWords(s) && IsWords(t) && (|t| <= 1 || t[|t| - 1] != 0)
    ensures |s| < |t| ==> Val(s) <= Val(t) && (Val(s) == Val(t) ==> Val(s) == 0)
    ensures |s| < |t| && |t| > 1 ==> Val(s) < Val(t)
  {
    hide Radix, Val;
    if |s| < |t| {
      ValNone();
      ValBound(s);
      if |t| > 1 {
        RadixMono(|s|, |t| - 1);
        TopBounds(t);
        MulMono(Radix(|t| - 1), 1, t[|t| - 1]);
      }
    }
  }
}
