/** Exclusive or on numbers, the addition of the rolling hash and of the CRC. */
module ExclusiveOr {
  import opened Bits

  // Bitwise exclusive or.
  function Xor(a: nat, b: nat): nat {
    if a == 0 && b == 0 then 0
    else (if a % 2 == b % 2 then 0 else 1) + 2 * Xor(a / 2, b / 2)
  }

  lemma {:induction false} XorZero(a: nat)
    ensures Xor(a, 0) == a && Xor(0, a) == a
  {
    if a > 0 {
      XorZero(a / 2);
    }
  }

  lemma {:induction false} XorAssoc(a: nat, b: nat, c: nat)
    ensures Xor(Xor(a, b), c) == Xor(a, Xor(b, c))
  {
    if a > 0 || b > 0 || c > 0 {
      XorAssoc(a / 2, b / 2, c / 2);
      XorHalves(a, b);
      XorHalves(b, c);
      XorHalves(Xor(a, b), c);
      XorHalves(a, Xor(b, c));
      XorDigits(Xor(Xor(a, b), c), Xor(a, Xor(b, c)));
    }
  }

  lemma {:induction false} XorHalves(a: nat, b: nat)
    ensures Xor(a, b) / 2 == Xor(a / 2, b / 2) && Xor(a, b) % 2 == if a % 2 == b % 2 then 0 else 1
  {
  }

  lemma {:induction false} XorDigits(x: nat, y: nat)
    requires x / 2 == y / 2 && x % 2 == y % 2
    ensures x == y
  {
  }

  lemma {:induction false} XorSelf(a: nat)
    ensures Xor(a, a) == 0
  {
    if a > 0 {
      XorSelf(a / 2);
    }
  }

  // What was combined with a known number can be told.
  lemma {:induction false} XorCancel(t: nat, x: nat, y: nat)
    requires Xor(t, x) == Xor(t, y)
    ensures x == y
  {
    XorAssoc(t, t, x);
    XorAssoc(t, t, y);
    XorSelf(t);
    XorZero(x);
    XorZero(y);
  }

  lemma {:induction false} XorLow(a: nat, b: nat, n: nat)
    ensures Low(Xor(a, b), n) == Xor(Low(a, n), Low(b, n))
  {
    if n == 0 {
      LowZero(a);
      LowZero(b);
      LowZero(Xor(a, b));
    } else {
      XorLow(a / 2, b / 2, n - 1);
      LowHalf(a, n);
      LowHalf(b, n);
      LowHalf(Xor(a, b), n);
      XorHalves(a, b);
      XorHalves(Low(a, n), Low(b, n));
      XorDigits(Low(Xor(a, b), n), Xor(Low(a, n), Low(b, n)));
    }
  }

  lemma {:induction false} LowZero(a: nat)
    ensures Low(a, 0) == 0
  {
  }

  lemma {:induction false} XorShift(a: nat, b: nat, k: nat)
    ensures Xor(Pow2(k) * a, Pow2(k) * b) == Pow2(k) * Xor(a, b)
  {
    if k > 0 {
      XorShift(a, b, k - 1);
      var p := Pow2(k - 1);
      hide Pow2;
      assert Pow2(k) == 2 * p by { Doubles(k); }
      MulAssoc(2, p, a);
      MulAssoc(2, p, b);
      MulAssoc(2, p, Xor(a, b));
      XorDouble(p * a, p * b);
    }
  }

  lemma {:induction false} Doubles(k: nat)
    requires k > 0
    ensures Pow2(k) == 2 * Pow2(k - 1)
  {
  }

  lemma {:induction false} XorDouble(x: nat, y: nat)
    ensures Xor(2 * x, 2 * y) == 2 * Xor(x, y)
  {
    if x > 0 || y > 0 {
      assert 2 * x / 2 == x && 2 * y / 2 == y;
    }
  }

  lemma {:induction false} XorComm(a: nat, b: nat)
    ensures Xor(a, b) == Xor(b, a)
  {
    if a > 0 || b > 0 {
      XorComm(a / 2, b / 2);
    }
  }

  // The sum of four, in another order.
  lemma {:induction false} XorFour(a: nat, b: nat, c: nat, d: nat)
    ensures Xor(Xor(a, b), Xor(c, d)) == Xor(Xor(a, c), Xor(b, d))
  {
    hide Xor;
    XorAssoc(a, b, Xor(c, d));
    XorAssoc(b, c, d);
    XorComm(b, c);
    XorAssoc(c, b, d);
    XorAssoc(a, c, Xor(b, d));
  }

  lemma {:induction false} XorShr(a: nat, b: nat, n: nat)
    ensures Shr(Xor(a, b), n) == Xor(Shr(a, n), Shr(b, n))
  {
    if n > 0 {
      XorShr(a / 2, b / 2, n - 1);
      LowHalf(a, n);
      LowHalf(b, n);
      LowHalf(Xor(a, b), n);
      XorHalves(a, b);
    }
  }

  lemma {:induction false} XorBound(a: nat, b: nat, n: nat)
    requires a < Pow2(n) && b < Pow2(n)
    ensures Xor(a, b) < Pow2(n)
  {
    if n > 0 {
      XorBound(a / 2, b / 2, n - 1);
      XorHalves(a, b);
    }
  }

  // Numbers without common digits add up.
  lemma {:induction false} XorJoin(lo: nat, hi: nat, n: nat)
    requires lo < Pow2(n)
    ensures Xor(lo, Pow2(n) * hi) == lo + Pow2(n) * hi
  {
    hide Xor;
    if n == 0 {
      XorZero(hi);
    } else {
      Doubles(n);
      XorJoin(lo / 2, hi, n - 1);
      MulAssoc(2, Pow2(n - 1), hi);
      XorHalves(lo, Pow2(n) * hi);
    }
  }

  // Exclusive or with ones only is the complement.
  lemma {:induction false} XorOnes(a: nat, n: nat)
    requires a < Pow2(n)
    ensures Xor(a, Pow2(n) - 1) == Pow2(n) - 1 - a
  {
    if n > 0 {
      XorOnes(a / 2, n - 1);
      XorHalves(a, Pow2(n) - 1);
    }
  }
}
