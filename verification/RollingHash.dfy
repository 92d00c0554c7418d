/** The rolling hash of deflate (UPDATE_HASH in deflate.c): it depends on the last three bytes only,
and tells the third of them when the first two are known. */
module RollingHash {
  import opened Bits
  import opened BitWriter
  import opened ExclusiveOr

  // The sizes of the hash: `bits` wide, shifted by `shift`, so that three shifts push a byte out.
  predicate HashOk(shift: nat, bits: nat) {
    8 <= bits <= 16 && bits <= 3 * shift && shift <= bits
  }

  // UPDATE_HASH
  function Update(shift: nat, bits: nat, h: nat, c: nat): (r: nat)
    ensures r < Pow2(bits)
  {
    Low(Xor(Pow2(shift) * h, c), bits)
  }

  function Hash3(shift: nat, bits: nat, b0: nat, b1: nat, b2: nat): (r: nat)
    ensures r < Pow2(bits)
  {
    Update(shift, bits, Update(shift, bits, Update(shift, bits, 0, b0), b1), b2)
  }

  // The part of the old hash that stays.
  function Shifted(shift: nat, bits: nat, h: nat): nat {
    Low(Pow2(shift) * h, bits)
  }

  lemma {:induction false} UpdateParts(shift: nat, bits: nat, h: nat, c: nat)
    ensures Update(shift, bits, h, c) == Xor(Shifted(shift, bits, h), Low(c, bits))
  {
    XorLow(Pow2(shift) * h, c, bits);
  }

  lemma {:induction false} ShiftedXor(shift: nat, bits: nat, a: nat, b: nat)
    ensures Shifted(shift, bits, Xor(a, b)) == Xor(Shifted(shift, bits, a), Shifted(shift, bits, b))
  {
    hide Pow2, Xor, Low;
    XorShift(a, b, shift);
    XorLow(Pow2(shift) * a, Pow2(shift) * b, bits);
  }

  // Low digits of a multiple depend on low digits only.
  lemma {:induction false} LowOfMultiple(p: nat, x: nat, n: nat)
    ensures Low(p * Low(x, n), n) == Low(p * x, n)
  {
    hide Pow2, Low, Shr;
    var lo, hi := Low(x, n), Shr(x, n);
    var y := p * lo;
    var u := Pow2(n);
    assert p * x == p * lo + p * (u * hi);
    MulAssoc(p, u, hi);
    MulAssoc(u, p, hi);
    assert p * x == Low(y, n) + u * Shr(y, n) + u * (p * hi);
    assert u * Shr(y, n) + u * (p * hi) == u * (Shr(y, n) + p * hi);
    ShrLowUnique(p * x, n, Low(y, n), Shr(y, n) + p * hi);
  }

  lemma {:induction false} ShiftedTwice(shift: nat, bits: nat, h: nat)
    ensures Shifted(shift, bits, Shifted(shift, bits, h)) == Low(Pow2(shift) * (Pow2(shift) * h), bits)
  {
    LowOfMultiple(Pow2(shift), Pow2(shift) * h, bits);
  }

  // Three shifts leave nothing.
  lemma {:induction false} ShiftedOut(shift: nat, bits: nat, h: nat)
    requires bits <= 3 * shift
    ensures Shifted(shift, bits, Shifted(shift, bits, Shifted(shift, bits, h))) == 0
  {
    hide Low, Shr;
    var p := Pow2(shift);
    ShiftedTwice(shift, bits, h);
    LowOfMultiple(p, p * (p * h), bits);
    Pow2Add(shift, shift);
    Pow2Add(2 * shift, shift);
    Pow2Add(bits, 3 * shift - bits);
    hide Pow2, Shifted;
    var q := Pow2(3 * shift - bits);
    MulAssoc(p, p, h);
    MulAssoc(p, p * p, h);
    assert p * (p * (p * h)) == p * p * p * h;
    MulAssoc(Pow2(bits), q, h);
    ShrLowUnique(p * (p * (p * h)), bits, 0, q * h);
  }

  // After three updates the hash is made of what each byte adds.
  lemma {:induction false} ThreeUpdates(shift: nat, bits: nat, h: nat, b0: nat, b1: nat, b2: nat)
    requires HashOk(shift, bits)
    ensures Update(shift, bits, Update(shift, bits, Update(shift, bits, h, b0), b1), b2) ==
            Xor(Xor(Shifted(shift, bits, Shifted(shift, bits, Low(b0, bits))), Shifted(shift, bits, Low(b1, bits))), Low(b2, bits))
  {
    hide Update, Low, Shifted, Xor;
    var c0, c1 := Low(b0, bits), Low(b1, bits);
    var s := Shifted(shift, bits, h);
    var ss := Shifted(shift, bits, s);
    var u := Update(shift, bits, h, b0);
    var v := Update(shift, bits, u, b1);
    UpdateParts(shift, bits, h, b0);
    UpdateParts(shift, bits, u, b1);
    UpdateParts(shift, bits, v, b2);
    ShiftedXor(shift, bits, s, c0);
    ShiftedXor(shift, bits, Xor(ss, Shifted(shift, bits, c0)), c1);
    ShiftedXor(shift, bits, ss, Shifted(shift, bits, c0));
    ShiftedOut(shift, bits, h);
    XorZero(Shifted(shift, bits, Shifted(shift, bits, c0)));
  }

  lemma {:induction false} ShiftedLow(shift: nat, bits: nat, b: nat)
    ensures Shifted(shift, bits, Low(b, bits)) == Low(Pow2(shift) * b, bits)
    ensures Shifted(shift, bits, Shifted(shift, bits, Low(b, bits))) == Low(Pow2(2 * shift) * b, bits)
  {
    hide Low, Pow2;
    var p := Pow2(shift);
    LowOfMultiple(p, b, bits);
    ShiftedTwice(shift, bits, Low(b, bits));
    Pow2Add(shift, shift);
    MulAssoc(p, p, Low(b, bits));
    LowOfMultiple(p * p, b, bits);
  }

  /** The hash of three bytes: each is shifted once more for every byte that follows. */
  lemma {:induction false} HashIs(shift: nat, bits: nat, b0: nat, b1: nat, b2: nat)
    requires HashOk(shift, bits)
    ensures Hash3(shift, bits, b0, b1, b2) == Low(Xor(Xor(Pow2(2 * shift) * b0, Pow2(shift) * b1), b2), bits)
  {
    hide Update, Xor, Low, Shifted, Pow2;
    ThreeUpdates(shift, bits, 0, b0, b1, b2);
    ShiftedLow(shift, bits, b0);
    ShiftedLow(shift, bits, b1);
    XorLow(Pow2(2 * shift) * b0, Pow2(shift) * b1, bits);
    XorLow(Xor(Pow2(2 * shift) * b0, Pow2(shift) * b1), b2, bits);
  }

  /** The hash does not depend on what came before the last three bytes. */
  lemma {:induction false} LastThree(shift: nat, bits: nat, h: nat, b0: nat, b1: nat, b2: nat)
    requires HashOk(shift, bits)
    ensures Update(shift, bits, Update(shift, bits, Update(shift, bits, h, b0), b1), b2) == Hash3(shift, bits, b0, b1, b2)
  {
    hide Update;
    ThreeUpdates(shift, bits, h, b0, b1, b2);
    ThreeUpdates(shift, bits, 0, b0, b1, b2);
  }

  /** Of two strings with the same hash that agree in two bytes the third bytes agree, too. */
  lemma {:induction false} ThirdByte(shift: nat, bits: nat, b0: nat, b1: nat, x: nat, y: nat)
    requires HashOk(shift, bits) && x < 256 && y < 256
    requires Hash3(shift, bits, b0, b1, x) == Hash3(shift, bits, b0, b1, y)
    ensures x == y
  {
    hide Update, Shifted, Xor, Low;
    ThreeUpdates(shift, bits, 0, b0, b1, x);
    ThreeUpdates(shift, bits, 0, b0, b1, y);
    XorCancel(Xor(Shifted(shift, bits, Shifted(shift, bits, Low(b0, bits))), Shifted(shift, bits, Low(b1, bits))), Low(x, bits), Low(y, bits));
    assert Pow2(8) == 256;
    hide Pow2;
    Pow2Mono(8, bits);
    LowFits(x, bits);
    LowFits(y, bits);
  }

  /** The hash register is ready for a string that starts with these two bytes. */
  ghost predicate Primed(shift: nat, bits: nat, h: nat, b0: nat, b1: nat) {
    forall c: nat :: Update(shift, bits, h, c) == Hash3(shift, bits, b0, b1, c)
  }

  // The register moves on with the string.
  lemma {:induction false} PrimedNext(shift: nat, bits: nat, h: nat, b0: nat, b1: nat, b2: nat)
    requires HashOk(shift, bits) && Primed(shift, bits, h, b0, b1)
    ensures Update(shift, bits, h, b2) == Hash3(shift, bits, b0, b1, b2)
    ensures Primed(shift, bits, Update(shift, bits, h, b2), b1, b2)
  {
    hide Update;
    var u := Update(shift, bits, 0, b0);
    forall c: nat
      ensures Update(shift, bits, Update(shift, bits, h, b2), c) == Hash3(shift, bits, b1, b2, c)
    {
      LastThree(shift, bits, u, b1, b2, c);
    }
  }

  // Starting over: the first byte itself, updated with the second.
  lemma {:induction false} PrimedStart(shift: nat, bits: nat, b0: nat, b1: nat)
    requires HashOk(shift, bits) && b0 < 256
    ensures Primed(shift, bits, Update(shift, bits, b0, b1), b0, b1)
  {
    assert Pow2(8) == 256;
    hide Pow2, Low, Xor;
    Pow2Mono(8, bits);
    LowFits(b0, bits);
    XorZero(b0);
    assert Pow2(shift) * 0 == 0;
    assert Update(shift, bits, 0, b0) == b0;
  }
}
