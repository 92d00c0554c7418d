/** Products of multiprecision integers, and powers of five from a growing list (mult and pow5mult of dtoa.c). */
module BigProduct {
  import opened Bits
  import opened BigValue
  import opened Bigints
  import opened BigShift

  // One word of the product: `v` is the value so far, before word n is written.
  lemma {:induction false} ProductStep(ai: nat, y: nat, ci: nat, carry: nat, low: nat, carry1: nat, i: nat, j: nat,
                                       v: nat, v0: nat, p: nat)
    requires ai * y + ci + carry == carry1 * W + low
    requires v + carry * Radix(j + i) == v0 + y * p * Radix(j)
    ensures v + (low - ci) * Radix(j + i) + carry1 * Radix(j + i + 1) == v0 + y * (p + ai * Radix(i)) * Radix(j)
  {
    hide Radix;
    var r := Radix(j + i);
    CarryStep(ai * y + ci + carry, low, carry1, j + i);
    Difference(low, ci, r);
    Sum(ai * y + ci, carry, r);
    Sum(ai * y, ci, r);
    RadixAdd(i, j);
    SumRight(y, p, ai * Radix(i));
    Sum(y * p, y * (ai * Radix(i)), Radix(j));
    MulAssoc(y, ai, Radix(i));
    MulAssoc(y * ai, Radix(i), Radix(j));
  }

  lemma {:induction false} NothingYet(y: nat, j: nat)
    ensures y * 0 * Radix(j) == 0 && 0 * Radix(j) == 0
  {
  }

  /** The inner loop of mult: adds y * a to the words of `c` from word `j` on. */
  method AddProduct(x: array<nat>, wa: nat, y: nat, c: array<nat>, j: nat, wc: nat)
    requires 1 <= wa <= x.Length && j + wa < wc <= c.Length && x != c && y < W
    requires IsWords(x[..wa]) && IsWords(c[..wc]) && c[j + wa] == 0
    modifies c
    ensures IsWords(c[..wc]) && forall k :: j + wa < k < wc ==> c[k] == old(c[k])
    ensures Val(c[..wc]) == old(Val(c[..wc])) + y * Val(x[..wa]) * Radix(j)
  {
    hide Radix, Val;
    ghost var s, v0 := x[..wa], Val(c[..wc]);
    var carry: nat := 0;
    ValNone();
    assert s[..0] == [];
    NothingYet(y, j);
    for i := 0 to wa
      invariant carry < W && IsWords(c[..wc])
      invariant forall k :: j + i <= k < wc ==> c[k] == old(c[k])
      invariant Val(c[..wc]) + carry * Radix(j + i) == v0 + y * Val(s[..i]) * Radix(j)
    {
      ghost var t := c[..wc];
      assert t[j + i] < W;
      TwoWords(x[i], y, c[j + i], carry);
      var z: dword := x[i] * y + c[j + i] + carry;
      CarryBound(z, W);
      ProductStep(x[i], y, c[j + i], carry, z % W, z / W, i, j, Val(t), v0, Val(s[..i]));
      ValUpdate(t, j + i, z % W);
      ValNext(s, i);
      carry := z / W;
      c[j + i] := z % W;
      assert c[..wc] == t[j + i := z % W];
    }
    assert s[..wa] == s;
    ghost var t := c[..wc];
    ValUpdate(t, j + wa, carry);
    c[j + wa] := carry;
    assert c[..wc] == t[j + wa := carry];
  }

  /** The outer loop of mult, over the words of `b`. */
  method Products(x: array<nat>, wa: nat, xb: array<nat>, wb: nat, c: array<nat>)
    requires wb <= wa <= x.Length && wb <= xb.Length && wa + wb <= c.Length && x != c && xb != c
    requires IsWords(x[..wa]) && IsWords(xb[..wb]) && forall k :: 0 <= k < wa + wb ==> c[k] == 0
    modifies c
    ensures IsWords(c[..wa + wb]) && Val(c[..wa + wb]) == Val(x[..wa]) * Val(xb[..wb])
  {
    hide Radix, Val;
    ghost var t := xb[..wb];
    ghost var va := Val(x[..wa]);
    ValZeros(c[..wa + wb]);
    ValNone();
    assert t[..0] == [];
    for j := 0 to wb
      invariant IsWords(c[..wa + wb]) && forall k :: j + wa <= k < wa + wb ==> c[k] == 0
      invariant Val(c[..wa + wb]) == va * Val(t[..j])
    {
      var y := xb[j];
      if y != 0 {
        AddProduct(x, wa, y, c, j, wa + wb);
      }
      ValNext(t, j);
      OneRow(va, Val(t[..j]), y, j);
    }
    assert t[..wb] == t;
  }

  lemma {:induction false} OneRow(va: nat, p: nat, y: nat, j: nat)
    ensures va * (p + y * Radix(j)) == va * p + y * va * Radix(j)
  {
    hide Radix;
    SumRight(va, p, y * Radix(j));
    MulAssoc(va, y, Radix(j));
  }

  /** mult: the product, in a new number. */
  method Mult(a: Bigint, b: Bigint) returns (c: Bigint)
    requires a.Valid() && b.Valid()
    ensures c.Normal() && fresh(c) && fresh(c.x) && c.Value() == a.Value() * b.Value()
    ensures c.Value() > 0 ==> c.wds >= 1
  {
    hide Radix, Val, Pow2, IsWords;
    if a.wds < b.wds {
      c := MultLonger(b, a);
    } else {
      c := MultLonger(a, b);
    }
  }

  method MultLonger(a: Bigint, b: Bigint) returns (c: Bigint)
    requires a.Valid() && b.Valid() && b.wds <= a.wds
    ensures c.Normal() && fresh(c) && fresh(c.x) && c.Value() == a.Value() * b.Value()
    ensures c.Value() > 0 ==> c.wds >= 1
  {
    hide Radix, Val, IsWords;
    var wc := a.wds + b.wds;
    c := new Bigint(if wc > a.x.Length then a.k + 1 else a.k);
    for i := 0 to wc
      invariant forall j :: 0 <= j < i ==> c.x[j] == 0
    {
      c.x[i] := 0;
    }
    Products(a.x, a.wds, b.x, b.wds, c.x);
    ghost var t := c.x[..wc];
    var w := Trim(c.x, wc, 0);
    WordsPrefix(t, w);
    c.wds := w;
    assert t[..w] == c.x[..w];
    ValNone();
    assert w == 0 ==> c.x[..w] == [];
  }
}
