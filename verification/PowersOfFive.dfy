/** Powers of five from a list that grows when it is needed (pow5mult of dtoa.c). */
module PowersOfFive {
  import opened Bits
  import opened BigValue
  import opened Bigints
  import opened BigProduct

  function Pow5(n: nat): (p: nat)
    ensures p > 0
  {
    if n == 0 then 1 else 5 * Pow5(n - 1)
  }

  lemma {:induction false} Pow5Add(a: nat, b: nat)
    ensures Pow5(a + b) == Pow5(a) * Pow5(b)
  {
    if a > 0 {
      Pow5Add(a - 1, b);
      MulAssoc(5, Pow5(a - 1), Pow5(b));
    }
  }

  // The i-th power in the list: 5^(4 * 2^i).
  function Listed(i: nat): nat {
    Pow5(4 * Pow2(i))
  }

  lemma {:induction false} SmallPowers()
    ensures Pow5(0) == 1 && Pow5(1) == 5 && Pow5(2) == 25 && Pow5(3) == 125 && Listed(0) == 625
  {
    assert Pow5(4) == 625;
  }

  lemma {:induction false} NextListed(i: nat)
    ensures Listed(i + 1) == Listed(i) * Listed(i)
  {
    hide Pow5;
    Pow5Add(4 * Pow2(i), 4 * Pow2(i));
  }

  // What is left of the exponent, in units of the i-th power.
  function Left(i: nat, k: nat): nat {
    Pow5(4 * Pow2(i) * k)
  }

  lemma {:induction false} LeftStep(i: nat, k: nat)
    ensures Left(i, k) == (if k % 2 == 1 then Listed(i) else 1) * Left(i + 1, k / 2)
    ensures Left(i, 0) == 1
  {
    SmallPowers();
    hide Pow5;
    var p := 4 * Pow2(i);
    assert 4 * Pow2(i + 1) == 2 * p;
    hide Pow2;
    assert p * k == p * (k % 2) + 2 * p * (k / 2) by {
      SumRight(p, k % 2, 2 * (k / 2));
      MulAssoc(p, 2, k / 2);
    }
    Pow5Add(p * (k % 2), 2 * p * (k / 2));
    assert p * 0 == 0 && p * 1 == p;
  }

  lemma {:induction false} LeftTurn(v: nat, i: nat, k: nat)
    ensures v * Left(i, k) == (if k % 2 == 1 then v * Listed(i) else v) * Left(i + 1, k / 2)
    ensures k / 2 == 0 ==> v * Left(i, k) == if k % 2 == 1 then v * Listed(i) else v
  {
    hide Pow2, Pow5, Left, Listed;
    LeftStep(i, k);
    LeftStep(i + 1, 0);
    MulAssoc(v, Listed(i), Left(i + 1, k / 2));
  }

  lemma {:induction false} LeftAll(k: nat)
    ensures Pow5(k) == Pow5(k % 4) * Left(0, k / 4)
  {
    assert Pow2(0) == 1;
    hide Pow2, Pow5;
    Pow5Add(k % 4, 4 * (k / 4));
  }

  class PowerList {
    var p5s: seq<Bigint>

    constructor ()
      ensures Valid() && p5s == []
    {
      p5s := [];
    }

    ghost predicate Valid()
      reads this, p5s, set b | b in p5s :: b.x
    {
      forall i :: 0 <= i < |p5s| ==> p5s[i].Normal() && p5s[i].wds >= 1 && p5s[i].Value() == Listed(i)
    }

    ghost predicate Apart(b: Bigint)
      reads this
    {
      forall q :: q in p5s ==> q != b && q.x != b.x
    }

    // The first power is made when it is needed.
    method First()
      requires Valid()
      modifies this
      ensures Valid() && |p5s| > 0 && old(p5s) <= p5s
      ensures forall q :: q in p5s && q !in old(p5s) ==> fresh(q) && fresh(q.x)
    {
      hide Val, Radix, Pow2, Pow5, Listed, IsWords;
      if p5s == [] {
        var p := I2b(625);
        SmallPowers();
        p5s := [p];
      }
    }

    // The power behind the i-th one.
    method Next(i: nat)
      requires Valid() && i < |p5s|
      modifies this
      ensures Valid() && i + 1 < |p5s| && old(p5s) <= p5s
      ensures forall q :: q in p5s && q !in old(p5s) ==> fresh(q) && fresh(q.x)
    {
      hide Val, Radix, Pow2, Pow5, Listed, IsWords;
      if i + 1 == |p5s| {
        var p := Mult(p5s[i], p5s[i]);
        NextListed(i);
        ListedPositive(i + 1);
        p5s := p5s + [p];
      }
    }

    /** pow5mult: multiply by 5^k. */
    method Pow5mult(b: Bigint, k: nat) returns (r: Bigint)
      requires Valid() && b.Normal() && b.wds >= 1 && Apart(b)
      modifies this, b, b.x
      ensures Valid() && old(p5s) <= p5s && r.Normal() && (r == b || (fresh(r) && fresh(r.x)))
      ensures r.Value() == Pow5(k) * old(b.Value())
    {
      hide Val, Radix, Pow2, Pow5, Listed, Left, IsWords;
      LeftAll(k);
      ghost var v := b.Value();
      r := Small(b, k % 4);
      if k / 4 != 0 {
        r := ListMult(r, k / 4);
      } else {
        LeftStep(0, 0);
      }
      Regroup(Left(0, k / 4), Pow5(k % 4), v);
    }

    // Less than four factors, at once.
    method Small(b: Bigint, i: nat) returns (r: Bigint)
      requires Valid() && b.Normal() && b.wds >= 1 && Apart(b) && i < 4
      modifies b, b.x
      ensures Valid() && r.Normal() && r.wds >= 1 && (r == b || (fresh(r) && fresh(r.x))) && r.Value() == Pow5(i) * old(b.Value())
    {
      hide Val, Radix, Pow2, Pow5, Listed, IsWords;
      SmallPowers();
      r := b;
      if i != 0 {
        r := Multadd(b, [5, 25, 125][i - 1], 0);
      }
    }

    // The loop over the digits of the exponent.
    method ListMult(b: Bigint, exponent: nat) returns (r: Bigint)
      requires Valid() && b.Normal() && b.wds >= 1 && Apart(b) && exponent > 0
      modifies this
      ensures Valid() && old(p5s) <= p5s && r.Normal() && (r == b || (fresh(r) && fresh(r.x)))
      ensures r.Value() == Left(0, exponent) * b.Value()
    {
      hide Val, Radix, Pow2, Pow5, Listed, Left, IsWords;
      First();
      r := b;
      ghost var goal := Left(0, exponent) * b.Value();
      var k, i := exponent, 0;
      while true
        invariant Valid() && old(p5s) <= p5s && 0 <= i < |p5s| && k > 0
        invariant r.Normal() && (r == b || (fresh(r) && fresh(r.x)))
        invariant r.Value() * Left(i, k) == goal
        decreases k
      {
        LeftTurn(r.Value(), i, k);
        if k % 2 == 1 {
          r := Mult(r, p5s[i]);
        }
        k := k / 2;
        if k == 0 {
          break;
        }
        Next(i);
        i := i + 1;
      }
    }
  }

  lemma {:induction false} Regroup(a: nat, b: nat, v: nat)
    ensures a * (b * v) == (b * a) * v
  {
    MulAssoc(a, b, v);
  }

  lemma {:induction false} ListedPositive(i: nat)
    ensures Listed(i) > 0
  {
  }

  // i2b
  method I2b(i: nat) returns (b: Bigint)
    requires i < W
    ensures b.Normal() && fresh(b) && fresh(b.x) && b.wds == 1 && b.Value() == i
  {
    b := new Bigint(1);
    b.x[0], b.wds := i, 1;
    hide Radix, Val;
    ValNone();
    ValAppend([], i);
    assert b.x[..1] == [] + [i];
  }
}
