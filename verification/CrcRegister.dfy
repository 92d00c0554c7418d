/** The register of CRC-32 (crc32.c): what the tables and the word-at-a-time step compute. */
module CrcRegister {
  import opened Bits
  import opened ExclusiveOr
  import opened Tokens

  const POLY: nat := 0xedb88320
  const U32: nat := 0x1_0000_0000
  const ONES: nat := 0xffff_ffff

  // One step of the register: the bit shifted out brings the polynomial in.
  function Shift1(c: nat): nat {
    if c % 2 == 1 then Xor(POLY, c / 2) else c / 2
  }

  function Shifts(c: nat, n: nat): nat
    decreases n
  {
    if n == 0 then c else Shifts(Shift1(c), n - 1)
  }

  /** The reference: the register takes one bit at a time (section 8 of RFC 1952). */
  function Feed(c: nat, b: seq<bool>): nat
    decreases |b|
  {
    if b == [] then c else Feed(Shift1(Xor(c, if b[0] then 1 else 0)), b[1..])
  }

  /** The checksum `crc` of what came before, continued over the bytes `s`. */
  function Crc32(crc: nat, s: seq<nat>): nat {
    Xor(Feed(Xor(crc, ONES), ByteBits(s)), ONES)
  }

  lemma {:induction false} WordBits()
    ensures Pow2(32) == U32 && Pow2(24) == 0x100_0000 && Pow2(16) == 0x1_0000 && Pow2(8) == 256
  {
    Pow2Values();
    Pow2Add(8, 16);
    Pow2Add(16, 16);
  }

  lemma {:induction false} Shift1Xor(a: nat, b: nat)
    ensures Shift1(Xor(a, b)) == Xor(Shift1(a), Shift1(b))
  {
    hide Xor;
    var p, x, y := POLY, a / 2, b / 2;
    XorHalves(a, b);
    XorFour(p, x, p, y);
    XorSelf(p);
    XorZero(Xor(x, y));
    XorAssoc(p, x, y);
    XorComm(p, x);
    XorAssoc(x, p, y);
  }

  /** The register is linear. */
  lemma {:induction false} ShiftsXor(a: nat, b: nat, n: nat)
    ensures Shifts(Xor(a, b), n) == Xor(Shifts(a, n), Shifts(b, n))
    decreases n
  {
    hide Xor, Shift1;
    if n > 0 {
      Shift1Xor(a, b);
      ShiftsXor(Shift1(a), Shift1(b), n - 1);
    }
  }

  lemma {:induction false} ShiftsAdd(c: nat, m: nat, n: nat)
    ensures Shifts(c, m + n) == Shifts(Shifts(c, m), n)
    decreases m
  {
    hide Shift1;
    if m > 0 {
      ShiftsAdd(Shift1(c), m - 1, n);
    }
  }

  lemma {:induction false} Shift1Bound(c: nat)
    requires c < U32
    ensures Shift1(c) < U32
  {
    hide Xor;
    WordBits();
    if c % 2 == 1 {
      XorBound(POLY, c / 2, 32);
    }
  }

  lemma {:induction false} ShiftsBound(c: nat, n: nat)
    requires c < U32
    ensures Shifts(c, n) < U32
    decreases n
  {
    hide Shift1;
    if n > 0 {
      Shift1Bound(c);
      ShiftsBound(Shift1(c), n - 1);
    }
  }

  // Zeros fall out without effect.
  lemma {:induction false} ShiftsZeros(a: nat, n: nat, m: nat)
    requires n <= m
    ensures Shifts(Pow2(n) * a, m) == Shifts(a, m - n)
  {
    if n > 0 {
      MulAssoc(2, Pow2(n - 1), a);
      assert Shift1(Pow2(n) * a) == Pow2(n - 1) * a;
      ShiftsZeros(a, n - 1, m - 1);
    }
  }

  lemma {:induction false} ShiftsZero(n: nat)
    ensures Shifts(0, n) == 0
  {
    if n > 0 {
      ShiftsZero(n - 1);
    }
  }

  // The last eight bits of the register and the others go their own ways.
  lemma {:induction false} Peel(c: nat, n: nat)
    requires n >= 8
    ensures Shifts(c, n) == Xor(Shifts(c % 256, n), Shifts(c / 256, n - 8))
  {
    hide Xor, Shifts, Pow2;
    WordBits();
    XorJoin(c % 256, c / 256, 8);
    ShiftsXor(c % 256, 256 * (c / 256), n);
    ShiftsZeros(c / 256, 8, n);
  }

  /** Bits may be taken one at a time or all at once. */
  lemma {:induction false} FeedWhole(c: nat, b: seq<bool>)
    ensures Feed(c, b) == Shifts(Xor(c, Num(b)), |b|)
    decreases |b|
  {
    hide Xor, Shift1;
    if b == [] {
      XorZero(c);
    } else {
      var bit, more := if b[0] then 1 else 0, Num(b[1..]);
      FeedWhole(Shift1(Xor(c, bit)), b[1..]);
      WholeStep(c, bit, more);
    }
  }

  lemma {:induction false} WholeStep(c: nat, bit: nat, more: nat)
    requires bit < 2
    ensures Xor(Shift1(Xor(c, bit)), more) == Shift1(Xor(c, bit + 2 * more))
  {
    hide Xor, Shift1;
    assert Pow2(1) == 2;
    XorJoin(bit, more, 1);
    XorAssoc(c, bit, 2 * more);
    Shift1Xor(Xor(c, bit), 2 * more);
    assert Shift1(2 * more) == more by { ShiftEven(more); }
  }

  lemma {:induction false} ShiftEven(x: nat)
    ensures Shift1(2 * x) == x
  {
  }

  lemma {:induction false} FeedConcat(c: nat, a: seq<bool>, b: seq<bool>)
    ensures Feed(c, a + b) == Feed(Feed(c, a), b)
    decreases |a|
  {
    hide Xor, Shift1;
    if a == [] {
      assert a + b == b;
    } else {
      assert (a + b)[0] == a[0] && (a + b)[1..] == a[1..] + b;
      FeedConcat(Shift1(Xor(c, if a[0] then 1 else 0)), a[1..], b);
    }
  }

  // A byte of the input, with the table of `Shifts(n, 8)`.
  lemma {:induction false} ByteStep(c: nat, x: nat)
    requires c < U32 && x < 256
    ensures Feed(c, ByteBits([x])) == Xor(Shifts(Xor(c, x) % 256, 8), c / 256) < U32
  {
    hide Xor, Shifts, Feed, ToBits, Num, Pow2;
    WordBits();
    OneByte(x);
    FeedWhole(c, ByteBits([x]));
    Peel(Xor(c, x), 8);
    XorShr(c, x, 8);
    XorZero(c / 256);
    XorBound(c, x, 32);
    ShiftsBound(Xor(c, x), 8);
    NoShifts(Xor(c, x) / 256);
  }

  lemma {:induction false} NoShifts(c: nat)
    ensures Shifts(c, 0) == c
  {
  }

  lemma {:induction false} OneByte(x: nat)
    requires x < 256
    ensures Num(ByteBits([x])) == x && |ByteBits([x])| == 8
  {
    hide ToBits, Num, Pow2;
    WordBits();
    assert ByteBits([x]) == ToBits(x, 8) + [] == ToBits(x, 8);
    NumToBits(x, 8);
    ShrLowUnique(x, 8, x, 0);
  }

  // Four bytes as they lie in a word, the first one lowest.
  function Word(s: seq<nat>): nat
    requires |s| == 4
  {
    s[0] + 256 * s[1] + 0x1_0000 * s[2] + 0x100_0000 * s[3]
  }

  lemma {:induction false} WordNum(s: seq<nat>)
    requires |s| == 4 && IsBytes(s)
    ensures Num(ByteBits(s)) == Word(s) < U32 && |ByteBits(s)| == 32
  {
    hide ByteBits, Num, Pow2;
    WordBits();
    assert s == [s[0]] + ([s[1]] + ([s[2]] + [s[3]]));
    ByteBitsConcat([s[0]], [s[1]] + ([s[2]] + [s[3]]));
    ByteBitsConcat([s[1]], [s[2]] + [s[3]]);
    ByteBitsConcat([s[2]], [s[3]]);
    OneByte(s[0]);
    OneByte(s[1]);
    OneByte(s[2]);
    OneByte(s[3]);
    NumConcat(ByteBits([s[0]]), ByteBits([s[1]] + ([s[2]] + [s[3]])));
    NumConcat(ByteBits([s[1]]), ByteBits([s[2]] + [s[3]]));
    NumConcat(ByteBits([s[2]]), ByteBits([s[3]]));
  }

  /** A word of the input at once, with the tables of `Shifts(n, 32)` to `Shifts(n, 8)`. */
  lemma {:induction false} WordStep(c: nat, s: seq<nat>)
    requires c < U32 && |s| == 4 && IsBytes(s)
    ensures var d := Xor(c, Word(s));
            Feed(c, ByteBits(s)) ==
            Xor(Xor(Xor(Shifts(d % 256, 32), Shifts(d / 256 % 256, 24)), Shifts(d / 0x1_0000 % 256, 16)), Shifts(d / 0x100_0000, 8)) < U32
            && d < U32
  {
    hide Xor, Shifts, Feed, ToBits, ByteBits, Num, Pow2, Word;
    WordBits();
    WordNum(s);
    FeedWhole(c, ByteBits(s));
    XorBound(c, Word(s), 32);
    var d := Xor(c, Word(s));
    ShiftsBound(d, 32);
    FourPeels(d);
  }

  lemma {:induction false} FourPeels(d: nat)
    requires d < U32
    ensures Shifts(d, 32) ==
            Xor(Xor(Xor(Shifts(d % 256, 32), Shifts(d / 256 % 256, 24)), Shifts(d / 0x1_0000 % 256, 16)), Shifts(d / 0x100_0000, 8))
  {
    hide Xor, Shifts;
    var d1, d2, d3 := d / 256, d / 0x1_0000, d / 0x100_0000;
    assert d1 / 256 == d2 && d2 / 256 == d3;
    Peel(d, 32);
    Peel(d1, 24);
    Peel(d2, 16);
    var a, b, e, f := Shifts(d % 256, 32), Shifts(d1 % 256, 24), Shifts(d2 % 256, 16), Shifts(d3, 8);
    XorAssoc(b, e, f);
    XorAssoc(a, b, Xor(e, f));
    XorAssoc(Xor(a, b), e, f);
  }
}
