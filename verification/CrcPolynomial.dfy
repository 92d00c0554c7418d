/** What the CRC means (the comment above make_crc_table in crc32.c): the remainder of a division of
polynomials over two elements. A number stands for the polynomial with its digits as coefficients. */
module CrcPolynomial {
  import opened Bits
  import opened ExclusiveOr
  import opened CrcRegister

  // The polynomial of CRC-32 with its leading digit.
  const DIVISOR: nat := 0x1_04c1_1db7

  /** Its terms, as the source lists them, and x^32; the word in the program has the term x^e in its digit 31 - e. */
  lemma {:induction false} Terms()
    ensures DIVISOR == Pow2(32) + Pow2(0) + Pow2(1) + Pow2(2) + Pow2(4) + Pow2(5) + Pow2(7) + Pow2(8) +
                       Pow2(10) + Pow2(11) + Pow2(12) + Pow2(16) + Pow2(22) + Pow2(23) + Pow2(26)
    ensures POLY == Pow2(31 - 0) + Pow2(31 - 1) + Pow2(31 - 2) + Pow2(31 - 4) + Pow2(31 - 5) + Pow2(31 - 7) + Pow2(31 - 8) +
                    Pow2(31 - 10) + Pow2(31 - 11) + Pow2(31 - 12) + Pow2(31 - 16) + Pow2(31 - 22) + Pow2(31 - 23) + Pow2(31 - 26)
  {
    AllPowers();
    hide Pow2;
  }

  lemma {:induction false} AllPowers()
    ensures Pow2(0) == 1 && Pow2(1) == 2 && Pow2(2) == 4 && Pow2(3) == 8 && Pow2(4) == 16 && Pow2(5) == 32 && Pow2(6) == 64 && Pow2(7) == 128
    ensures Pow2(8) == 256 && Pow2(9) == 512 && Pow2(10) == 1024 && Pow2(11) == 2048 && Pow2(12) == 4096 && Pow2(13) == 8192
    ensures Pow2(14) == 0x4000 && Pow2(15) == 0x8000 && Pow2(16) == 0x1_0000 && Pow2(17) == 0x2_0000 && Pow2(18) == 0x4_0000
    ensures Pow2(19) == 0x8_0000 && Pow2(20) == 0x10_0000 && Pow2(21) == 0x20_0000 && Pow2(22) == 0x40_0000 && Pow2(23) == 0x80_0000
    ensures Pow2(24) == 0x100_0000 && Pow2(25) == 0x200_0000 && Pow2(26) == 0x400_0000 && Pow2(27) == 0x800_0000 && Pow2(28) == 0x1000_0000
    ensures Pow2(29) == 0x2000_0000 && Pow2(30) == 0x4000_0000 && Pow2(31) == 0x8000_0000 && Pow2(32) == 0x1_0000_0000
  {
    assert Pow2(8) == 256 && Pow2(16) == 0x1_0000 && Pow2(24) == 0x100_0000;
  }

  // The product of two polynomials.
  function Mul(a: nat, b: nat): nat {
    if a == 0 then 0 else Xor(if a % 2 == 1 then b else 0, 2 * Mul(a / 2, b))
  }

  // The polynomial of a message: its first bit is the coefficient of the highest power.
  function Message(b: seq<bool>): nat {
    if b == [] then 0 else 2 * Message(b[..|b| - 1]) + if b[|b| - 1] then 1 else 0
  }

  // The register keeps the highest power in its lowest digit.
  function Flip(c: nat, n: nat): (r: nat)
    ensures r < Pow2(n)
    decreases n, c
  {
    if n == 0 then 0 else (if c % 2 == 1 then Pow2(n - 1) else 0) + Flip(c / 2, n - 1)
  }

  lemma {:induction false} FlipXor(a: nat, b: nat, n: nat)
    ensures Flip(Xor(a, b), n) == Xor(Flip(a, n), Flip(b, n))
    decreases n
  {
    hide Xor;
    if n == 0 {
      XorZero(0);
    } else {
      FlipXor(a / 2, b / 2, n - 1);
      XorHalves(a, b);
      FlipDigit(a, n);
      FlipDigit(b, n);
      FlipDigit(Xor(a, b), n);
      var p, x, y := Pow2(n - 1), Flip(a / 2, n - 1), Flip(b / 2, n - 1);
      XorFour(x, p * (a % 2), y, p * (b % 2));
      XorShift(a % 2, b % 2, n - 1);
      BitXor(a % 2, b % 2);
    }
  }

  lemma {:induction false} BitXor(x: nat, y: nat)
    requires x < 2 && y < 2
    ensures Xor(x, y) == if x == y then 0 else 1
  {
  }

  lemma {:induction false} FlipDigit(c: nat, n: nat)
    requires n > 0
    ensures Flip(c, n) == Xor(Flip(c / 2, n - 1), Pow2(n - 1) * (c % 2))
  {
    hide Xor;
    XorJoin(Flip(c / 2, n - 1), c % 2, n - 1);
  }

  // A leading zero.
  lemma {:induction false} FlipTop(c: nat, n: nat)
    requires c < Pow2(n)
    ensures Flip(c, n + 1) == 2 * Flip(c, n)
    decreases n
  {
    if n > 0 {
      FlipTop(c / 2, n - 1);
    } else {
      assert Flip(c / 2, 0) == 0;
    }
  }

  lemma {:induction false} FlipSplit(lo: nat, hi: nat, a: nat, b: nat)
    requires lo < Pow2(a)
    ensures Flip(lo + Pow2(a) * hi, a + b) == Pow2(b) * Flip(lo, a) + Flip(hi, b)
    decreases a
  {
    if a > 0 {
      MulAssoc(2, Pow2(a - 1), hi);
      var c := lo + Pow2(a) * hi;
      assert c / 2 == lo / 2 + Pow2(a - 1) * hi && c % 2 == lo % 2;
      FlipSplit(lo / 2, hi, a - 1, b);
      Pow2Add(b, a - 1);
      Distribute(Pow2(b), Pow2(a - 1), Flip(lo / 2, a - 1));
    } else {
      OneTimes(hi);
    }
  }

  lemma {:induction false} Distribute(p: nat, x: nat, y: nat)
    ensures p * (x + y) == p * x + p * y
  {
  }

  lemma {:induction false} OneTimes(x: nat)
    ensures Pow2(0) * x == x
  {
  }

  lemma {:induction false} FlipStep(c: nat, n: nat)
    requires n > 0
    ensures Flip(c, n) == (if c % 2 == 1 then Pow2(n - 1) else 0) + Flip(c / 2, n - 1)
    ensures Flip(c, 0) == 0
  {
  }

  lemma {:induction false} FlipNibble(c: nat)
    requires c < 16
    ensures Flip(c, 4) == 8 * (c % 2) + 4 * (c / 2 % 2) + 2 * (c / 4 % 2) + c / 8
  {
    hide Flip;
    FlipStep(c, 4);
    FlipStep(c / 2, 3);
    FlipStep(c / 2 / 2, 2);
    FlipStep(c / 2 / 2 / 2, 1);
    FlipStep(0, 1);
  }

  lemma {:induction false} FlipByte(lo: nat, hi: nat)
    requires lo < 16 && hi < 16
    ensures Flip(lo + 16 * hi, 8) == 16 * Flip(lo, 4) + Flip(hi, 4)
  {
    hide Flip;
    assert Pow2(4) == 16 by { Pow2Values(); }
    FlipSplit(lo, hi, 4, 4);
  }

  lemma {:induction false} FlipBytes()
    ensures Flip(0x20, 8) == 0x04 && Flip(0x83, 8) == 0xc1 && Flip(0xb8, 8) == 0x1d && Flip(0xed, 8) == 0xb7
  {
    hide Flip;
    FlipByte(0x0, 0x2);
    FlipByte(0x3, 0x8);
    FlipByte(0x8, 0xb);
    FlipByte(0xd, 0xe);
    FlipNibble(0x0);
    FlipNibble(0x2);
    FlipNibble(0x3);
    FlipNibble(0x8);
    FlipNibble(0xb);
    FlipNibble(0xd);
    FlipNibble(0xe);
  }

  lemma {:induction false} FlipPoly()
    ensures Flip(POLY, 32) == 0x04c1_1db7
  {
    hide Flip, Pow2;
    WordBits();
    FlipBytes();
    FlipSplit(0xb8, 0xed, 8, 8);
    FlipSplit(0x83, 0xedb8, 8, 16);
    FlipSplit(0x20, 0xedb883, 8, 24);
  }

  // A step of the register multiplies by x and reduces.
  lemma {:induction false} FlipShift(d: nat)
    requires d < U32
    ensures Xor(if d % 2 == 1 then DIVISOR else 0, Flip(Shift1(d), 32)) == 2 * Flip(d, 32)
  {
    hide Xor, Flip, Pow2;
    WordBits();
    var e := d / 2;
    HalfWord(d);
    FlipTop(e, 31);
    FlipFirst(d);
    if d % 2 == 1 {
      FlipPoly();
      FlipXor(POLY, e, 32);
      var low, top := Flip(POLY, 32), Flip(e, 32);
      XorJoin(low, 1, 32);
      XorComm(low, U32);
      XorAssoc(U32, low, Xor(low, top));
      XorAssoc(low, low, top);
      XorSelf(low);
      XorZero(top);
      XorJoin(top, 1, 32);
      XorComm(top, U32);
    } else {
      XorZero(Flip(e, 32));
    }
  }

  lemma {:induction false} HalfWord(d: nat)
    requires d < U32
    ensures d / 2 < Pow2(31) && 2 * Pow2(31) == U32
  {
    WordBits();
    hide Pow2;
    Pow2Strict(31, 32);
    Pow2Add(1, 31);
    assert Pow2(1) == 2 by { Pow2Values(); }
  }

  lemma {:induction false} FlipFirst(d: nat)
    ensures Flip(d, 32) == (if d % 2 == 1 then Pow2(31) else 0) + Flip(d / 2, 31)
  {
  }

  // The register after one bit more of the message.
  lemma {:induction false} FlipFeed(r: nat, bit: nat)
    requires r < U32 && bit < 2
    ensures var d := Xor(r, bit);
            Xor(if d % 2 == 1 then DIVISOR else 0, Flip(Shift1(d), 32)) == Xor(2 * Flip(r, 32), U32 * bit)
  {
    hide Xor, Flip, Shift1, Pow2;
    WordBits();
    XorBound(r, bit, 32);
    FlipShift(Xor(r, bit));
    FlipXor(r, bit, 32);
    HalfWord(bit);
    assert Flip(bit, 32) == Pow2(31) * bit by { FlipBit(bit); }
    XorDouble(Flip(r, 32), Pow2(31) * bit);
  }

  lemma {:induction false} FlipBit(bit: nat)
    requires bit < 2
    ensures Flip(bit, 32) == Pow2(31) * bit
  {
    hide Pow2;
    FlipFirst(bit);
    FlipZero(31);
  }

  lemma {:induction false} FlipZero(n: nat)
    ensures Flip(0, n) == 0
  {
    if n > 0 {
      FlipZero(n - 1);
    }
  }

  lemma {:induction false} MulStep2(q: nat, odd: bool)
    ensures Mul(2 * q + (if odd then 1 else 0), DIVISOR) == Xor(if odd then DIVISOR else 0, 2 * Mul(q, DIVISOR))
  {
    hide Xor;
    assert (2 * q + (if odd then 1 else 0)) / 2 == q;
    if q == 0 && !odd {
      XorZero(0);
    }
  }

  /** The register is the remainder of the message, moved up by 32 powers, with the first register on top of it. */
  lemma {:induction false} Remainder(c: nat, b: seq<bool>) returns (q: nat)
    requires c < U32
    ensures Flip(Feed(c, b), 32) < U32
    ensures Xor(Mul(q, DIVISOR), Flip(Feed(c, b), 32)) == Xor(U32 * Message(b), Pow2(|b|) * Flip(c, 32))
  {
    hide Xor, Shift1, Mul, Flip;
    WordBits();
    if b == [] {
      q := 0;
      MulZero();
      XorZero(Flip(c, 32));
    } else {
      var front, last := b[..|b| - 1], if b[|b| - 1] then 1 else 0;
      var q0 := Remainder(c, front);
      FeedLast(c, b);
      FeedBound(c, front);
      var r := Feed(c, front);
      FlipFeed(r, last);
      var odd := Xor(r, last) % 2 == 1;
      q := 2 * q0 + if odd then 1 else 0;
      MulStep2(q0, odd);
      RemainderStep(if odd then DIVISOR else 0, Mul(q0, DIVISOR), Flip(Feed(c, b), 32), Flip(r, 32), last,
                    Message(front), Pow2(|front|), Flip(c, 32));
      MulAssoc(2, Pow2(|front|), Flip(c, 32));
    }
  }

  lemma {:induction false} RemainderStep(o: nat, m: nat, f1: nat, f: nat, last: nat, msg: nat, p: nat, c: nat)
    requires Xor(m, f) == Xor(U32 * msg, p * c) && Xor(o, f1) == Xor(2 * f, U32 * last) && last < 2
    ensures Xor(Xor(o, 2 * m), f1) == Xor(U32 * (2 * msg + last), 2 * (p * c))
  {
    hide Xor;
    WordBits();
    hide Pow2;
    XorComm(o, 2 * m);
    XorAssoc(2 * m, o, f1);
    XorAssoc(2 * m, 2 * f, U32 * last);
    XorDouble(m, f);
    XorDouble(U32 * msg, p * c);
    var t := U32 * last;
    XorAssoc(2 * (U32 * msg), 2 * (p * c), t);
    XorComm(2 * (p * c), t);
    XorAssoc(2 * (U32 * msg), t, 2 * (p * c));
    XorShift(2 * msg, last, 32);
    assert Xor(2 * msg, last) == 2 * msg + last by { LastBit(msg, last); }
  }

  lemma {:induction false} LastBit(msg: nat, last: nat)
    requires last < 2
    ensures Xor(2 * msg, last) == 2 * msg + last
  {
    hide Xor;
    assert Pow2(1) == 2;
    XorJoin(last, msg, 1);
    XorComm(last, 2 * msg);
  }

  lemma {:induction false} MulZero()
    ensures Mul(0, DIVISOR) == 0
  {
  }

  lemma {:induction false} FeedLast(c: nat, b: seq<bool>)
    requires b != []
    ensures Feed(c, b) == Shift1(Xor(Feed(c, b[..|b| - 1]), if b[|b| - 1] then 1 else 0))
  {
    hide Xor, Shift1;
    assert b == b[..|b| - 1] + [b[|b| - 1]];
    FeedConcat(c, b[..|b| - 1], [b[|b| - 1]]);
  }

  lemma {:induction false} FeedBound(c: nat, b: seq<bool>)
    requires c < U32
    ensures Feed(c, b) < U32
    decreases |b|
  {
    hide Xor, Shift1;
    if b != [] {
      var bit := if b[0] then 1 else 0;
      WordBits();
      XorBound(c, bit, 32);
      Shift1Bound(Xor(c, bit));
      FeedBound(Shift1(Xor(c, bit)), b[1..]);
    }
  }

  // A leading digit stays.
  lemma {:induction false} XorLeading(a: nat, b: nat, n: nat)
    requires a < Pow2(n) <= b < 2 * Pow2(n)
    ensures Pow2(n) <= Xor(a, b) < 2 * Pow2(n)
  {
    hide Xor;
    var low: nat := b - Pow2(n);
    XorJoin(low, 1, n);
    XorAssoc(a, low, Pow2(n) * 1);
    XorBound(a, low, n);
    XorJoin(Xor(a, low), 1, n);
  }

  lemma {:induction false} MulLarge(q: nat, k: nat)
    requires Pow2(k) <= q < 2 * Pow2(k)
    ensures Pow2(32 + k) <= Mul(q, DIVISOR) < 2 * Pow2(32 + k)
  {
    hide Xor;
    WordBits();
    if k == 0 {
      assert Mul(0, DIVISOR) == 0;
      XorZero(DIVISOR);
    } else {
      MulLarge(q / 2, k - 1);
      Pow2Mono(33, 32 + k);
      XorLeading(if q % 2 == 1 then DIVISOR else 0, 2 * Mul(q / 2, DIVISOR), 32 + k);
    }
  }

  lemma {:induction false} Leading(q: nat) returns (k: nat)
    requires q > 0
    ensures Pow2(k) <= q < 2 * Pow2(k)
  {
    k := 0;
    if q > 1 {
      k := Leading(q / 2);
      k := k + 1;
    }
  }

  lemma {:induction false} MulXor(a: nat, b: nat)
    ensures Mul(Xor(a, b), DIVISOR) == Xor(Mul(a, DIVISOR), Mul(b, DIVISOR))
    decreases a + b
  {
    hide Xor;
    XorZero(0);
    if a > 0 || b > 0 {
      MulXor(a / 2, b / 2);
      XorHalves(a, b);
      MulDigit(a);
      MulDigit(b);
      MulDigit(Xor(a, b));
      var x, y := if a % 2 == 1 then DIVISOR else 0, if b % 2 == 1 then DIVISOR else 0;
      XorFour(x, 2 * Mul(a / 2, DIVISOR), y, 2 * Mul(b / 2, DIVISOR));
      XorDouble(Mul(a / 2, DIVISOR), Mul(b / 2, DIVISOR));
      XorSelf(DIVISOR);
      XorZero(DIVISOR);
    }
  }

  lemma {:induction false} MulDigit(a: nat)
    ensures Mul(a, DIVISOR) == Xor(if a % 2 == 1 then DIVISOR else 0, 2 * Mul(a / 2, DIVISOR))
  {
    if a == 0 {
      XorZero(0);
    }
  }

  /** There is only one remainder below x^32. */
  lemma {:induction false} RemainderUnique(q1: nat, r1: nat, q2: nat, r2: nat)
    requires r1 < U32 && r2 < U32 && Xor(Mul(q1, DIVISOR), r1) == Xor(Mul(q2, DIVISOR), r2)
    ensures r1 == r2
  {
    hide Xor, Mul, Pow2;
    WordBits();
    var m1, m2 := Mul(q1, DIVISOR), Mul(q2, DIVISOR);
    MulXor(q1, q2);
    XorFour(m1, r1, m2, r2);
    XorSelf(Xor(m1, r1));
    XorEqual(Xor(m1, m2), Xor(r1, r2));
    XorBound(r1, r2, 32);
    if Xor(q1, q2) > 0 {
      var k := Leading(Xor(q1, q2));
      MulLarge(Xor(q1, q2), k);
      Pow2Mono(32, 32 + k);
      assert false;
    }
    MulZero();
    XorEqual(r1, r2);
  }

  lemma {:induction false} XorEqual(a: nat, b: nat)
    requires Xor(a, b) == 0
    ensures a == b
  {
    XorSelf(a);
    XorCancel(a, a, b);
  }
}
