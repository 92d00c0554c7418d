/** Where the parts of a block stand and which numbers they hold: the figures of RFC 1951 that both sides go by. */
module Layout {
  import opened Bits
  import opened Canonical
  import opened TableCells
  import opened FixedCodes
  import opened Tokens
  import opened Symbols
  import opened Tally
  import opened BlockMachine
  import opened BitWriter
  import opened CodeRuns
  import opened BlockData
  import opened BlockHeader
  import opened Blocks

  /** The lengths a length code stands for: from the ninth on, four codes share a number of extra bits. */
  lemma {:induction false} LengthFormula(c: nat)
    requires c < 29
    ensures if c < 8 then LBASE[c] == 3 + c && LEXT[c] == 16
            else if c == 28 then LBASE[c] == MAX_MATCH == 258 && LEXT[c] == 16
            else LBASE[c] == 3 + (4 + c % 4) * Pow2(c / 4 - 1) && LEXT[c] == 16 + (c / 4 - 1)
  {
    SmallPowers();
    hide Pow2, DBASE, DEXT;
  }

  /** The distances a distance code stands for: from the fifth on, two codes share a number of extra bits. */
  lemma {:induction false} DistFormula(c: nat)
    requires c < 30
    ensures if c < 4 then DBASE[c] == 1 + c && DEXT[c] == 16
            else DBASE[c] == 1 + (2 + c % 2) * Pow2(c / 2 - 1) && DEXT[c] == 16 + (c / 2 - 1)
  {
    SmallPowers();
    hide Pow2, LBASE, LEXT, EXTRA_DBITS, EXTRA_LBITS, ORDER;
  }

  /** The farthest distance is the size of the greatest window. */
  lemma {:induction false} FarthestIs()
    ensures DBASE[29] + Pow2(DEXT[29] - 16) - 1 == WINDOW == Pow2(15)
  {
    SmallPowers();
    Pow2Values();
    hide Pow2, LBASE, LEXT;
  }

  /** How many lengths a repeat code may stand for. */
  lemma {:induction false} RepeatRange(s: nat, n: nat)
    requires 16 <= s < 19
    ensures RepeatBase(s) <= n < RepeatBase(s) + Pow2(RepeatBits(s)) <==>
            if s == 16 then 3 <= n <= 6 else if s == 17 then 3 <= n <= 10 else 11 <= n <= 138
  {
    Pow2Values();
    hide Pow2;
  }

  /** The three codes: literals, the end of the block and as many lengths as there are length codes; the distances; and the
      code length code, whose symbols below the repeats are the lengths of the first two, and whose own lengths are sent in three bits. */
  lemma {:induction false} CodesAre()
    ensures LitDesc().elems == 256 + 1 + 29 && LitDesc().base == 257 && DistDesc().elems == 30 && DistDesc().base == 0
    ensures LitDesc().max_length == DistDesc().max_length == REP_3_6 - 1 && BlDesc().elems == REPZ_11_138 + 1 == 19
    ensures BlDesc().max_length == Pow2(3) - 1
    ensures Repeat(8, 144) + Repeat(9, 112) + Repeat(7, 24) + Repeat(8, 8) == LitDesc().stree && DistDesc().stree == Repeat(5, 30)
  {
    Pow2Values();
    hide Pow2;
  }

  // How many of `n` symbols from `at` on, of length `w`, precede symbol `m` of length `l`.
  function Ahead(at: nat, w: nat, n: nat, l: nat, m: nat): nat {
    if w < l then n else if w > l || m <= at then 0 else if m - at < n then m - at else n
  }

  lemma {:induction false} BeforeRepeat(a: seq<nat>, w: nat, n: nat, l: nat, m: nat)
    requires LensOk(a) && w <= MAX_BITS
    ensures Before(a + Repeat(w, n), l, m) == Before(a, l, m) + Ahead(|a|, w, n, l, m) * Width(w)
  {
    hide Width;
    if n == 0 {
      assert a + Repeat(w, 0) == a;
    } else {
      var b := a + Repeat(w, n);
      assert b[..|b| - 1] == a + Repeat(w, n - 1);
      BeforeRepeat(a, w, n - 1, l, m);
      OneMoreTimes(Ahead(|a|, w, n - 1, l, m), Width(w));
    }
  }

  lemma {:induction false} BeforeFixed(l: nat, m: nat)
    ensures Before(FixedLit(), l, m) ==
            128 * Ahead(0, 8, 144, l, m) + 64 * Ahead(144, 9, 112, l, m) + 256 * Ahead(256, 7, 24, l, m) + 128 * Ahead(280, 8, 8, l, m)
  {
    assert Width(8) == 128 && Width(9) == 64 && Width(7) == 256 by { Pow2Values(); }
    assert Before([], l, m) == 0;
    hide Before, Width, Ahead;
    assert [] + Repeat(8, 144) == Repeat(8, 144);
    BeforeRepeat([], 8, 144, l, m);
    BeforeRepeat(Repeat(8, 144), 9, 112, l, m);
    BeforeRepeat(Repeat(8, 144) + Repeat(9, 112), 7, 24, l, m);
    BeforeRepeat(Repeat(8, 144) + Repeat(9, 112) + Repeat(7, 24), 8, 8, l, m);
  }

  // `v` and `n` are the code of a number of 15 bits.
  lemma {:induction false} CodeAt(lens: seq<nat>, s: nat, v: nat)
    requires LensOk(lens) && s < |lens| && Pos(lens, s) == v * Pow2(MAX_BITS - lens[s])
    ensures CodeBits(lens, s) == Msb(v, lens[s])
  {
    hide Before, Pow2;
    ShrLowUnique(Pos(lens, s), MAX_BITS - lens[s], 0, v);
  }

  /** The codes of the literals and lengths in a fixed block (the table of section 3.2.6 of RFC 1951). */
  lemma {:induction false} FixedCodeIs(s: nat)
    requires s < 288
    ensures CodeBits(FixedLit(), s) ==
            if s < 144 then Msb(0x30 + s, 8)
            else if s < 256 then Msb(0x190 + (s - 144), 9)
            else if s < 280 then Msb(s - 256, 7)
            else Msb(0xC0 + (s - 280), 8)
  {
    BeforeFixed(FixedLit()[s], s);
    Pow2Values();
    hide Before, Pow2;
    CodeAt(FixedLit(), s, if s < 144 then 0x30 + s else if s < 256 then 0x190 + (s - 144) else if s < 280 then s - 256 else 0xC0 + (s - 280));
  }

  /** The codes of the distances are the numbers themselves. */
  lemma {:induction false} FixedDistIs(s: nat)
    requires s < 32
    ensures CodeBits(FixedDist(), s) == Msb(s, 5)
  {
    Pow2Values();
    assert Before([], 5, s) == 0;
    hide Before, Pow2;
    assert [] + Repeat(5, 32) == FixedDist();
    BeforeRepeat([], 5, 32, 5, s);
    CodeAt(FixedDist(), s, s);
  }

  // The digits of a number and of what it lacks to the greatest one.
  lemma {:induction false} ComplementBits(v: nat, n: nat, i: nat)
    requires v < Pow2(n) && i < n
    ensures ToBits(Pow2(n) - 1 - v, n)[i] != ToBits(v, n)[i]
    decreases n
  {
    if i > 0 {
      assert (Pow2(n) - 1 - v) / 2 == Pow2(n - 1) - 1 - v / 2;
      ComplementBits(v / 2, n - 1, i - 1);
    }
  }

  lemma {:induction false} ThreeDigits(v: nat)
    ensures ToBits(v, 3) == [v % 2 == 1, v / 2 % 2 == 1, v / 4 % 2 == 1]
  {
    assert ToBits(v, 3) == [v % 2 == 1] + ToBits(v / 2, 2);
    assert ToBits(v / 2, 2) == [v / 2 % 2 == 1] + ToBits(v / 2 / 2, 1);
    assert ToBits(v / 2 / 2, 1) == [v / 2 / 2 % 2 == 1] + ToBits(v / 2 / 2 / 2, 0);
  }

  /** How a block starts: with one bit for the last block and two for its kind, the lower one first. */
  lemma {:induction false} StartLayout(b: Block, last: bool, pos: nat)
    requires BlockOk(b)
    ensures var s := BlockString(b, last, pos);
            |s| >= 3 && s[0] == last && s[1] == b.FixedBlock? && s[2] == b.DynBlock?
  {
    hide EncodesAll, HeaderOk, BlockBits, HeaderBits, ByteBits;
    var kind := if b.StoredBlock? then 0 else if b.FixedBlock? then 1 else 2;
    var v := 2 * kind + (if last then 1 else 0);
    ThreeDigits(v);
    assert TypeBits(kind, last) <= BlockString(b, last, pos);
  }

  lemma {:induction false} StoredParts(n: nat, pad: nat, last: bool, bytes: seq<nat>, s: seq<bool>)
    requires n < 65536 && s == TypeBits(0, last) + Zeros(pad) + ToBits(n, 16) + ToBits(65535 - n, 16) + ByteBits(bytes)
    ensures var at := 3 + pad;
            && (forall i :: 3 <= i < at ==> !s[i]) && s[at..at + 16] == ToBits(n, 16) && s[at + 16..at + 32] == ToBits(65535 - n, 16)
            && s[at + 32..] == ByteBits(bytes)
  {
    hide ByteBits, ToBits;
    var at := 3 + pad;
    assert forall i :: 3 <= i < at ==> s[i] == Zeros(pad)[i - 3];
  }

  /** A stored block goes on at the next byte with its length, the length with all digits the other way, and the bytes. */
  lemma {:induction false} StoredLayout(b: Block, last: bool, pos: nat)
    requires BlockOk(b) && b.StoredBlock?
    ensures var s, at := BlockString(b, last, pos), 3 + Padding(pos + 3);
            && (pos + at) % 8 == 0 && |s| == at + 32 + 8 * |b.bytes|
            && (forall i :: 3 <= i < at ==> !s[i]) && Num(s[at..at + 16]) == |b.bytes|
            && (forall i :: at <= i < at + 16 ==> s[i + 16] != s[i]) && s[at + 32..] == ByteBits(b.bytes)
  {
    var s, at, n := BlockString(b, last, pos), 3 + Padding(pos + 3), |b.bytes|;
    StoredParts(n, Padding(pos + 3), last, b.bytes, s);
    assert (pos + at) % 8 == 0;
    hide *;
    LengthTwice(n);
    forall i | at <= i < at + 16
      ensures s[i + 16] != s[i]
    {
      assert s[i] == s[at..at + 16][i - at] && s[i + 16] == s[at + 16..at + 32][i - at];
    }
  }

  lemma {:induction false} LengthTwice(n: nat)
    requires n < 65536
    ensures Num(ToBits(n, 16)) == n && forall i :: 0 <= i < 16 ==> ToBits(65535 - n, 16)[i] != ToBits(n, 16)[i]
  {
    assert Pow2(16) == 65536 by { Pow2Values(); }
    hide Pow2, ToBits, Num;
    NumBack(n, 16);
    forall i | 0 <= i < 16
      ensures ToBits(65535 - n, 16)[i] != ToBits(n, 16)[i]
    {
      ComplementBits(n, 16, i);
    }
  }

  lemma {:induction false} ThreeAt(v: seq<nat>, i: nat)
    requires i < |v| && v[i] < 8
    ensures |ThreeBits(v)| == 3 * |v| && Num(ThreeBits(v)[3 * i..3 * i + 3]) == v[i]
  {
    if i > 0 {
      ThreeAt(v[1..], i - 1);
      assert ThreeBits(v)[3 * i..3 * i + 3] == ThreeBits(v[1..])[3 * i - 3..3 * i];
    } else {
      ThreeTotal(v);
      assert ThreeBits(v)[..3] == ToBits(v[0], 3);
      assert Pow2(3) == 8;
      NumBack(v[0], 3);
    }
  }

  lemma {:induction false} ThreeTotal(v: seq<nat>)
    ensures |ThreeBits(v)| == 3 * |v|
  {
    if v != [] {
      ThreeTotal(v[1..]);
    }
  }

  lemma {:induction false} ThreeFields(x: seq<bool>, y: seq<bool>, z: seq<bool>)
    requires |x| == 5 && |y| == 5 && |z| == 4
    ensures (x + y + z)[..5] == x && (x + y + z)[5..10] == y && (x + y + z)[10..14] == z
  {
  }

  lemma {:induction false} NumBack(v: nat, n: nat)
    requires v < Pow2(n)
    ensures Num(ToBits(v, n)) == v
  {
    NumToBits(v, n);
    ShrLowUnique(v, n, v, 0);
  }

  lemma {:induction false} CountsLayout(h: Header)
    requires HeaderOk(h)
    ensures var s := CountsBits(h);
            |s| == 14 && Num(s[..5]) == |h.lit| - 257 && Num(s[5..10]) == |h.dist| - 1 && Num(s[10..14]) == h.blcodes - 4
  {
    hide Pow2, ToBits, Num, Sendable, RunCodes, LensOk;
    ThreeCounts(|h.lit| - 257, |h.dist| - 1, h.blcodes - 4);
  }

  lemma {:induction false} ThreeCounts(a: nat, b: nat, c: nat)
    requires a < 32 && b < 32 && c < 16
    ensures var s := ToBits(a, 5) + ToBits(b, 5) + ToBits(c, 4); Num(s[..5]) == a && Num(s[5..10]) == b && Num(s[10..14]) == c
  {
    assert Pow2(5) == 32 && Pow2(4) == 16;
    hide Pow2, ToBits, Num;
    NumBack(a, 5);
    NumBack(b, 5);
    NumBack(c, 4);
    ThreeFields(ToBits(a, 5), ToBits(b, 5), ToBits(c, 4));
  }

  // What stands at place `i` of the lengths of the code length code.
  lemma {:induction false} LengthAt(h: Header, i: nat)
    requires HeaderOk(h) && i < h.blcodes
    ensures |ThreeBits(Ordered(h.cl, h.blcodes))| == 3 * h.blcodes && SentFor(i) < 19
    ensures Num(ThreeBits(Ordered(h.cl, h.blcodes))[3 * i..3 * i + 3]) == h.cl[SentFor(i)]
  {
    OrderIs(i);
    RankIs(i);
    hide Sendable, RunCodes, SentFor, Rank, ORDER, Num, ThreeBits;
    ThreeAt(Ordered(h.cl, h.blcodes), i);
  }

  /** The header of a dynamic block: three counts of 5, 5 and 4 bits, and then three bits for each length of the code length code. */
  lemma {:induction false} HeaderLayout(h: Header, i: nat)
    requires HeaderOk(h) && i < h.blcodes
    ensures var s := HeaderBits(h);
            && |s| >= 14 + 3 * h.blcodes
            && Num(s[..5]) == |h.lit| - 257 && Num(s[5..10]) == |h.dist| - 1 && Num(s[10..14]) == h.blcodes - 4
            && SentFor(i) < 19 && Num(s[14 + 3 * i..17 + 3 * i]) == h.cl[SentFor(i)]
  {
    CountsLayout(h);
    LengthAt(h, i);
    hide *;
    HeaderParts(h, i);
  }

  lemma {:induction false} HeaderParts(h: Header, i: nat)
    requires HeaderOk(h) && i < h.blcodes && |CountsBits(h)| == 14 && |ThreeBits(Ordered(h.cl, h.blcodes))| == 3 * h.blcodes
    ensures var s, c := HeaderBits(h), CountsBits(h);
            && |s| >= 14 + 3 * h.blcodes && s[..5] == c[..5] && s[5..10] == c[5..10] && s[10..14] == c[10..14]
            && s[14 + 3 * i..17 + 3 * i] == ThreeBits(Ordered(h.cl, h.blcodes))[3 * i..3 * i + 3]
  {
    hide CountsBits, ThreeBits, Ordered, RunsBits, Sendable, RunCodes;
  }
}
