/** The symbols and extra bits of a match (section 3.2.5 of RFC 1951): the tables of
deflate (tr_static_init in trees.c) agree with those of inflate (inftrees.c). */
module Symbols {
  import opened Bits
  import opened Canonical
  import opened TableCells
  import opened Tokens

  const LITERALS: nat := 256
  const END_BLOCK: nat := 256
  const LENGTH_CODES: nat := 29
  const L_CODES: nat := 286
  const D_CODES: nat := 30
  const BL_CODES: nat := 19

  const EXTRA_LBITS: seq<nat> := [0, 0, 0, 0, 0, 0, 0, 0, 1, 1, 1, 1, 2, 2, 2, 2, 3, 3, 3, 3, 4, 4, 4, 4, 5, 5, 5, 5, 0]
  const EXTRA_DBITS: seq<nat> := [0, 0, 0, 0, 1, 1, 2, 2, 3, 3, 4, 4, 5, 5, 6, 6, 7, 7, 8, 8, 9, 9, 10, 10, 11, 11, 12, 12, 13, 13]

  // The first value of code `c`, when each code takes 2^extra values.
  function Base(extra: seq<nat>, c: nat): nat
    requires c <= |extra|
  {
    if c == 0 then 0 else Base(extra, c - 1) + Pow2(extra[c - 1])
  }

  // The code below `n` whose values include `x`.
  function CodeFor(extra: seq<nat>, n: nat, x: nat): (c: nat)
    requires 0 < n <= |extra|
    ensures c < n
  {
    if n == 1 || Base(extra, n - 1) <= x then n - 1 else CodeFor(extra, n - 1, x)
  }

  lemma {:induction false} CodeForRange(extra: seq<nat>, n: nat, x: nat)
    requires 0 < n <= |extra|
    ensures var c := CodeFor(extra, n, x); Base(extra, c) <= x && (c + 1 < n ==> x < Base(extra, c + 1))
  {
    if n > 1 && x < Base(extra, n - 1) {
      CodeForRange(extra, n - 1, x);
    }
  }

  /** _length_code: the length 258 has a code of its own. */
  function LengthCode(lc: nat): (c: nat)
    ensures c < LENGTH_CODES
  {
    if lc == 255 then 28 else CodeFor(EXTRA_LBITS, |EXTRA_LBITS| - 1, lc)
  }

  /** base_length; the entry of the last code is never used. */
  function BaseLength(c: nat): nat
    requires c < LENGTH_CODES
  {
    if c == 28 then 0 else Base(EXTRA_LBITS, c)
  }

  /** d_code, for a distance less one. */
  function DistCode(d: nat): (c: nat)
    ensures c < D_CODES
  {
    CodeFor(EXTRA_DBITS, |EXTRA_DBITS|, d)
  }

  function BaseDist(c: nat): nat
    requires c < D_CODES
  {
    Base(EXTRA_DBITS, c)
  }

  lemma {:induction false} LengthGap(c: nat)
    requires c < 28
    ensures LEXT[c] == 16 + EXTRA_LBITS[c]
    ensures c < 27 ==> LBASE[c + 1] == LBASE[c] + Pow2(EXTRA_LBITS[c])
    ensures c == 27 ==> LBASE[c] + Pow2(EXTRA_LBITS[c]) == 259
  {
    hide Pow2, DBASE, DEXT, EXTRA_DBITS;
    SmallPowers();
  }

  // The powers that occur in the tables.
  lemma {:induction false} SmallPowers()
    ensures Pow2(0) == 1 && Pow2(1) == 2 && Pow2(2) == 4 && Pow2(3) == 8 && Pow2(4) == 16 && Pow2(5) == 32 && Pow2(6) == 64
    ensures Pow2(7) == 128 && Pow2(8) == 256 && Pow2(9) == 512 && Pow2(10) == 1024 && Pow2(11) == 2048 && Pow2(12) == 4096
    ensures Pow2(13) == 8192
  {
    Pow2Values();
    assert Pow2(11) == 2048 && Pow2(12) == 4096 && Pow2(13) == 8192;
  }

  lemma {:induction false} LengthBases(c: nat)
    requires c < 28
    ensures LBASE[c] == MIN_MATCH + Base(EXTRA_LBITS, c)
  {
    if c > 0 {
      LengthBases(c - 1);
      LengthGap(c - 1);
    }
  }

  lemma {:induction false} DistExtra(c: nat)
    requires c < 30
    ensures DEXT[c] == 16 + EXTRA_DBITS[c]
  {
    hide Pow2, LBASE, LEXT, EXTRA_LBITS, DBASE;
  }

  lemma {:induction false} DistGap(c: nat)
    requires c < 30
    ensures c < 29 ==> DBASE[c + 1] == DBASE[c] + Pow2(EXTRA_DBITS[c])
    ensures c == 29 ==> DBASE[c] + Pow2(EXTRA_DBITS[c]) == WINDOW + 1
  {
    hide Pow2, LBASE, LEXT, EXTRA_LBITS, DEXT;
    SmallPowers();
  }

  lemma {:induction false} DistZero()
    ensures DBASE[0] == 1 && |EXTRA_DBITS| == 30 && |DBASE| == 32
  {
  }

  lemma {:induction false} DistBases(c: nat)
    requires c < 30
    ensures DBASE[c] == 1 + Base(EXTRA_DBITS, c)
  {
    hide Pow2, DBASE, DEXT, EXTRA_DBITS;
    DistZero();
    if c > 0 {
      DistBases(c - 1);
      DistGap(c - 1);
    }
  }

  /** The length code and extra bits of deflate are those inflate reads a length from. */
  lemma {:induction false} LengthAgrees(lc: nat)
    requires lc < 256
    ensures var c := LengthCode(lc);
            && LEXT[c] == 16 + EXTRA_LBITS[c]
            && (EXTRA_LBITS[c] == 0 ==> LBASE[c] == lc + MIN_MATCH)
            && (EXTRA_LBITS[c] > 0 ==>
                  && BaseLength(c) <= lc < BaseLength(c) + Pow2(EXTRA_LBITS[c])
                  && LBASE[c] + (lc - BaseLength(c)) == lc + MIN_MATCH)
  {
    var c := LengthCode(lc);
    if c < 28 {
      CodeForRange(EXTRA_LBITS, |EXTRA_LBITS| - 1, lc);
      hide CodeFor;
      LengthBases(c);
      LengthGap(c);
      if c < 27 {
        LengthBases(c + 1);
      }
    }
  }

  /** The distance code and extra bits of deflate are those inflate reads a distance from. */
  lemma {:induction false} DistAgrees(d: nat)
    requires d < WINDOW
    ensures var c := DistCode(d);
            && DEXT[c] == 16 + EXTRA_DBITS[c]
            && BaseDist(c) <= d < BaseDist(c) + Pow2(EXTRA_DBITS[c])
            && DBASE[c] + (d - BaseDist(c)) == d + 1
  {
    hide Pow2, LBASE, LEXT, EXTRA_LBITS, DBASE, DEXT;
    var c := DistCode(d);
    DistExtra(c);
    CodeForRange(EXTRA_DBITS, |EXTRA_DBITS|, d);
    hide CodeFor;
    DistBases(c);
    DistGap(c);
    if c < 29 {
      DistBases(c + 1);
    }
  }
}
