/** Differences and shifts of multiprecision integers (diff and lshift of dtoa.c). */
module BigShift {
  import opened Bits
  import opened BigValue
  import opened Bigints

  lemma {:induction false} BorrowStep(y: int, low: int, borrow: int, i: nat)
    requires y == low - borrow * W
    ensures y * Radix(i) == low * Radix(i) - borrow * Radix(i + 1)
  {
    CarryStep(y, low, -borrow, i);
    Negative(borrow, Radix(i + 1));
  }

  lemma {:induction false} Negative(a: int, u: int)
    ensures (-a) * u == -(a * u)
  {
  }

  lemma {:induction false} SubWord(ai: int, bi: int, borrow: int, low: nat, borrow1: int, i: nat, v: int, p: int, q: int)
    requires ai - bi - borrow == low - borrow1 * W && v == p - q + borrow * Radix(i)
    ensures v + low * Radix(i) == p + ai * Radix(i) - (q + bi * Radix(i)) + borrow1 * Radix(i + 1)
  {
    hide Radix;
    var r := Radix(i);
    BorrowStep(ai - bi - borrow, low, borrow1, i);
    Difference(ai - bi, borrow, r);
    Difference(ai, bi, r);
  }

  /** The loops of diff: word by word with a borrow. */
  method SubWords(xa: array<nat>, wa: nat, xb: array<nat>, wb: nat, xc: array<nat>)
    requires 1 <= wb <= wa <= xa.Length && wb <= xb.Length && wa <= xc.Length && xc != xa && xc != xb
    requires IsWords(xa[..wa]) && IsWords(xb[..wb]) && Val(xb[..wb]) <= Val(xa[..wa])
    modifies xc
    ensures IsWords(xc[..wa]) && Val(xc[..wa]) == Val(xa[..wa]) - Val(xb[..wb])
  {
    hide Radix, Val;
    ghost var s, t := xa[..wa], xb[..wb];
    var borrow := 0;
    ValNone();
    assert xc[..0] == [] && s[..0] == [] && t[..0] == [];
    NoUnits(0);
    for i := 0 to wb
      invariant IsWords(xc[..i]) && 0 <= borrow <= 1
      invariant Val(xc[..i]) == Val(s[..i]) - Val(t[..i]) + borrow * Radix(i)
    {
      borrow := SubStep(xc, xa[i], xb[i], borrow, i, s, Val(t[..i]));
      ValNext(t, i);
    }
    assert t[..wb] == t;
    for i := wb to wa
      invariant IsWords(xc[..i]) && 0 <= borrow <= 1
      invariant Val(xc[..i]) == Val(s[..i]) - Val(t) + borrow * Radix(i)
    {
      borrow := SubStep(xc, xa[i], 0, borrow, i, s, Val(t));
      NoUnits(i);
    }
    assert s[..wa] == s;
    ValBound(xc[..wa]);
    NoUnits(wa);
  }

  lemma {:induction false} NoUnits(i: nat)
    ensures 0 * Radix(i) == 0 && 1 * Radix(i) == Radix(i)
  {
  }

  method SubStep(xc: array<nat>, ai: nat, bi: nat, borrow: nat, i: nat, ghost s: seq<nat>, ghost q: int) returns (borrow1: nat)
    requires i < xc.Length && i < |s| && s[i] == ai < W && bi < W && borrow <= 1 && IsWords(xc[..i])
    requires Val(xc[..i]) == Val(s[..i]) - q + borrow * Radix(i)
    modifies xc
    ensures IsWords(xc[..i + 1]) && borrow1 <= 1
    ensures Val(xc[..i + 1]) == Val(s[..i + 1]) - (q + bi * Radix(i)) + borrow1 * Radix(i + 1)
  {
    hide Radix, Val;
    ghost var front := xc[..i];
    var y := ai - bi - borrow;
    borrow1 := if y < 0 then 1 else 0;
    y := if y < 0 then y + W else y;
    xc[i] := y;
    assert xc[..i + 1] == front + [y];
    ValAppend(front, y);
    ValNext(s, i);
    SubWord(ai, bi, borrow, y, borrow1, i, Val(front), Val(s[..i]), q);
  }

  // Zeros on top are dropped, down to `least` words.
  method Trim(x: array<nat>, w: nat, least: nat) returns (n: nat)
    requires least <= w <= x.Length
    ensures least <= n <= w && Val(x[..n]) == Val(x[..w])
    ensures n == least || x[n - 1] != 0
    ensures forall i :: n <= i < w ==> x[i] == 0
  {
    hide Radix, Val;
    n := w;
    while n > least && x[n - 1] == 0
      invariant least <= n <= w && forall i :: n <= i < w ==> x[i] == 0
    {
      n := n - 1;
    }
    assert x[..w][..n] == x[..n];
    ValTrim(x[..w], n);
  }

  // The smaller number from the larger one.
  method Subtract(m: Bigint, n: Bigint, sign: nat) returns (c: Bigint)
    requires m.Normal() && n.Normal() && m.wds >= 1 && n.wds >= 1 && n.Value() < m.Value()
    ensures c.Normal() && fresh(c) && fresh(c.x) && c.sign == sign && c.Value() == m.Value() - n.Value()
  {
    hide Radix, Val, Pow2, IsWords;
    LongerFirst(m, n);
    c := new Bigint(m.k);
    c.sign := sign;
    SubWords(m.x, m.wds, n.x, n.wds, c.x);
    ghost var t := c.x[..m.wds];
    var w := Trim(c.x, m.wds, 0);
    c.wds := w;
    WordsPrefix(t, w);
    assert t[..w] == c.x[..w];
  }

  lemma {:induction false} WordsPrefix(s: seq<nat>, n: nat)
    requires IsWords(s) && n <= |s|
    ensures IsWords(s[..n])
  {
  }

  // One word or less for zero.
  lemma {:induction false} LongPositive(b: Bigint)
    requires b.Normal() && b.wds >= 2
    ensures b.Value() > 0
  {
    hide Radix, Val;
    ValPositive(b.x[..b.wds], b.wds - 1);
  }

  /** diff: the distance of two numbers, and its sign. */
  method Diff(a: Bigint, b: Bigint) returns (c: Bigint)
    requires a.Normal() && b.Normal() && a.wds >= 1 && b.wds >= 1
    ensures c.Normal() && fresh(c) && fresh(c.x)
    ensures c.sign == (if a.Value() < b.Value() then 1 else 0)
    ensures c.Value() == if a.Value() < b.Value() then b.Value() - a.Value() else a.Value() - b.Value()
  {
    hide Radix, Val, Pow2, IsWords;
    if a.wds >= 2 {
      LongPositive(a);
    }
    if b.wds >= 2 {
      LongPositive(b);
    }
    var i := Cmp(a, b);
    if i == 0 {
      c := Zero();
    } else if i < 0 {
      c := Subtract(b, a, 1);
    } else {
      c := Subtract(a, b, 0);
    }
  }

  method Zero() returns (c: Bigint)
    ensures c.Normal() && fresh(c) && fresh(c.x) && c.sign == 0 && c.Value() == 0
  {
    c := new Bigint(0);
    c.wds, c.x[0] := 1, 0;
    ValZeros(c.x[..1]);
  }

  lemma {:induction false} LongerFirst(m: Bigint, n: Bigint)
    requires m.Normal() && n.Normal() && m.wds >= 1 && n.wds >= 1 && n.Value() < m.Value()
    ensures n.wds <= m.wds
  {
    hide Radix, Val;
    LongerLarger(m.x[..m.wds], n.x[..n.wds]);
  }

  // The two parts of a shifted word.
  lemma {:induction false} ShiftedWord(x: nat, k: nat, z: nat)
    requires x < W && 0 < k < 32 && z < Pow2(k)
    ensures (Pow2(k) * x) % W + z < W && Shr(x, 32 - k) < Pow2(k)
    ensures Pow2(k) * x + z == Shr(x, 32 - k) * W + ((Pow2(k) * x) % W + z)
    ensures (Pow2(k) * x) % W == 0 && Shr(x, 32 - k) == 0 ==> x == 0
  {
    Word32();
    hide Pow2, Shr, Low;
    var j := 32 - k;
    var hi, lo := Shr(x, j), Low(x, j);
    Pow2Add(k, j);
    ShrBound(x, j, k);
    MulAssoc(Pow2(k), Pow2(j), hi);
    SumRight(Pow2(k), lo, Pow2(j) * hi);
    MulStep(lo, Pow2(j), Pow2(k));
    assert Pow2(k) * x == Pow2(k) * lo + W * hi;
    Remainder(Pow2(k) * lo, hi);
    if x > 0 && hi == 0 {
      MulMono(Pow2(k), 1, lo);
    }
  }

  lemma {:induction false} Remainder(r: nat, q: nat)
    requires r < W
    ensures (r + W * q) % W == r
  {
  }

  lemma {:induction false} ShiftStep(u: nat, x: nat, z: nat, low: nat, z1: nat, i: nat, n: nat, v: nat, p: nat)
    requires u * x + z == z1 * W + low && v + z * Radix(n + i) == u * p * Radix(n)
    ensures v + low * Radix(n + i) + z1 * Radix(n + i + 1) == u * (p + x * Radix(i)) * Radix(n)
  {
    hide Radix;
    var r := Radix(n + i);
    CarryStep(u * x + z, low, z1, n + i);
    Sum(u * x, z, r);
    RadixAdd(i, n);
    assert u * x * r == u * (x * Radix(i)) * Radix(n) by {
      MulAssoc(u * x, Radix(i), Radix(n));
      MulAssoc(u, x, Radix(i));
    }
    SumRight(u, p, x * Radix(i));
    Sum(u * p, u * (x * Radix(i)), Radix(n));
  }

  /** The loop of lshift within the words: `k` bits up, into the words from `n` on. */
  method ShiftWords(x: array<nat>, wds: nat, k: nat, x1: array<nat>, n: nat) returns (z: nat)
    requires 1 <= wds <= x.Length && n + wds <= x1.Length && x != x1 && 0 < k < 32 && IsWords(x[..wds])
    requires forall j :: 0 <= j < n ==> x1[j] == 0
    modifies x1
    ensures IsWords(x1[..n + wds]) && z < W && (z == 0 && x[wds - 1] > 0 ==> x1[n + wds - 1] > 0)
    ensures Val(x1[..n + wds]) + z * Radix(n + wds) == Pow2(k) * Val(x[..wds]) * Radix(n)
  {
    Word32();
    hide Radix, Val, Pow2, Shr, Low;
    Pow2Strict(k, 32);
    ghost var s := x[..wds];
    z := 0;
    ShiftNone(x1[..n], s, n, k);
    for i := 0 to wds
      invariant IsWords(x1[..n + i]) && z < Pow2(k)
      invariant Val(x1[..n + i]) + z * Radix(n + i) == Pow2(k) * Val(s[..i]) * Radix(n)
      invariant i > 0 && z == 0 && x[i - 1] > 0 ==> x1[n + i - 1] > 0
    {
      ghost var front := x1[..n + i];
      ShiftedWord(x[i], k, z);
      var low := (Pow2(k) * x[i]) % W + z;
      x1[n + i] := low;
      ShiftStep(Pow2(k), x[i], z, low, Shr(x[i], 32 - k), i, n, Val(front), Val(s[..i]));
      z := Shr(x[i], 32 - k);
      assert x1[..n + i + 1] == front + [low];
      ValAppend(front, low);
      ValNext(s, i);
    }
    assert s[..wds] == s;
  }

  lemma {:induction false} ShiftNone(front: seq<nat>, s: seq<nat>, n: nat, k: nat)
    requires |front| == n && forall j :: 0 <= j < n ==> front[j] == 0
    ensures IsWords(front) && Val(front) + 0 * Radix(n) == Pow2(k) * Val(s[..0]) * Radix(n)
  {
    ValZeros(front);
    assert s[..0] == [];
  }

  // Whole words up.
  method CopyWords(x: array<nat>, wds: nat, x1: array<nat>, n: nat)
    requires 1 <= wds <= x.Length && n + wds <= x1.Length && x != x1 && IsWords(x[..wds])
    requires forall j :: 0 <= j < n ==> x1[j] == 0
    modifies x1
    ensures IsWords(x1[..n + wds]) && x1[n + wds - 1] == x[wds - 1]
    ensures Val(x1[..n + wds]) == Val(x[..wds]) * Radix(n)
  {
    hide Radix, Val, Pow2;
    ghost var s := x[..wds];
    ShiftNone(x1[..n], s, n, 0);
    OneTimes(Val(s[..0]), n);
    for i := 0 to wds
      invariant IsWords(x1[..n + i]) && Val(x1[..n + i]) == Val(s[..i]) * Radix(n)
      invariant i > 0 ==> x1[n + i - 1] == x[i - 1]
    {
      ghost var front := x1[..n + i];
      x1[n + i] := x[i];
      assert x1[..n + i + 1] == front + [x[i]];
      ValAppend(front, x[i]);
      ValNext(s, i);
      Sum(Val(s[..i]), x[i] * Radix(i), Radix(n));
      RadixAdd(i, n);
      MulAssoc(x[i], Radix(i), Radix(n));
    }
    assert s[..wds] == s;
  }

  lemma {:induction false} OneTimes(v: nat, n: nat)
    ensures Pow2(0) * v * Radix(n) == v * Radix(n) && 0 * Radix(n) == 0
  {
  }

  // The size of the result of lshift.
  method Room(k: nat, n1: nat) returns (k1: nat)
    ensures n1 <= Pow2(k1) && k <= k1
  {
    k1 := k;
    var i := Pow2(k);
    while n1 > i
      invariant i == Pow2(k1) && k <= k1
      decreases n1 - i
    {
      k1 := k1 + 1;
      i := 2 * i;
    }
  }

  // A word on top.
  method StoreTop(x: array<nat>, n: nat, z: nat)
    requires n < x.Length && IsWords(x[..n]) && z < W
    modifies x
    ensures x[..n] == old(x[..n]) && x[n] == z && IsWords(x[..n + 1])
    ensures Val(x[..n + 1]) == Val(x[..n]) + z * Radix(n) && 0 * Radix(n) == 0
  {
    hide Radix, Val, IsWords;
    ghost var s := x[..n];
    x[n] := z;
    assert x[..n + 1] == s + [z];
    ValAppend(s, z);
    WordsAppend(s, z);
    ZeroTimes(n);
  }

  // The words of `b` moved up, behind `k / 32` zeros; how many words that makes.
  method MoveUp(b: Bigint, k: nat, x1: array<nat>) returns (w: nat)
    requires b.Normal() && b.wds >= 1 && b.x != x1 && k / 32 + b.wds < x1.Length
    requires forall j :: 0 <= j < k / 32 ==> x1[j] == 0
    modifies x1
    ensures 1 <= w <= x1.Length && IsWords(x1[..w]) && Val(x1[..w]) == Pow2(k) * b.Value()
    ensures b.Value() > 0 ==> x1[w - 1] > 0
  {
    hide Radix, Val, Pow2, Shr, Low, IsWords;
    var n := k / 32;
    WholeShift(b.Value(), k);
    TopPositive(b);
    w := n + b.wds;
    if k % 32 != 0 {
      var z := ShiftWords(b.x, b.wds, k % 32, x1, n);
      StoreTop(x1, w, z);
      if z != 0 {
        w := w + 1;
      }
    } else {
      CopyWords(b.x, b.wds, x1, n);
    }
  }

  /** lshift: multiply by 2^k. */
  method Lshift(b: Bigint, k: nat) returns (r: Bigint)
    requires b.Normal() && b.wds >= 1
    ensures r.Valid() && fresh(r) && fresh(r.x) && r.wds >= 1
    ensures r.Value() == Pow2(k) * b.Value()
    ensures b.Value() > 0 ==> r.Normal()
  {
    hide Radix, Val, Pow2, IsWords;
    var n := k / 32;
    var k1 := Room(b.k, n + b.wds + 1);
    r := new Bigint(k1);
    for i := 0 to n
      invariant forall j :: 0 <= j < i ==> r.x[j] == 0
    {
      r.x[i] := 0;
    }
    var w := MoveUp(b, k, r.x);
    r.wds := w;
  }

  lemma {:induction false} WholeShift(v: nat, k: nat)
    ensures Pow2(k) * v == Pow2(k % 32) * v * Radix(k / 32)
    ensures k % 32 == 0 ==> Pow2(k) * v == v * Radix(k / 32)
  {
    hide Radix;
    assert Pow2(0) == 1;
    hide Pow2;
    Pow2Add(k % 32, 32 * (k / 32));
    RadixIs(k / 32);
    var p, r := Pow2(k % 32), Radix(k / 32);
    MulAssoc(p, r, v);
    MulAssoc(p, v, r);
  }

  // The top word of a positive number is not zero.
  lemma {:induction false} TopPositive(b: Bigint)
    requires b.Normal() && b.wds >= 1
    ensures b.Value() > 0 ==> b.x[b.wds - 1] > 0
  {
    if b.wds == 1 && b.x[0] == 0 {
      ValZeros(b.x[..1]);
    }
  }
}
