/** Writing the blocks of a deflate stream (trees.c). */
module BlockWriter {
  import opened Bits
  import opened Canonical
  import opened Tokens
  import opened Symbols
  import opened BlockMachine
  import opened BlockData
  import opened BitWriter
  import opened GenCodes
  import opened CodeRuns
  import opened BlockHeader
  import opened Blocks

  // The token recorded by _tr_tally: a literal has distance 0, a length is stored less MIN_MATCH.
  function TokenOf(dist: nat, lc: nat): Token {
    if dist == 0 then Literal(lc) else Match(dist, lc + MIN_MATCH)
  }

  function TokensOf(d_buf: seq<nat>, l_buf: seq<nat>, n: nat): (ts: seq<Token>)
    requires n <= |d_buf| && n <= |l_buf|
    ensures |ts| == n
  {
    seq(n, i requires 0 <= i < n => TokenOf(d_buf[i], l_buf[i]))
  }

  // Send one code and the extra bits that follow it.
  method SendCodeExtra(w: BitBuffer, fc: array<nat>, dl: array<nat>, c: nat, v: nat, n: nat, ghost lens: seq<nat>)
    requires w.Valid() && Holds(lens, fc[..], dl[..]) && c < |lens| && lens[c] > 0
    requires v < Pow2(n) && n <= 16
    modifies w
    ensures w.Valid() && w.Stream() == old(w.Stream()) + (CodeBits(lens, c) + ToBits(v, n))
  {
    hide CodeBits, Pow2, Holds, BitBuffer.Stream, BitBuffer.Valid;
    SendCode(w, fc, dl, c, lens);
    assert n == 0 ==> ToBits(v, n) == [];
    if n != 0 {
      w.SendBits(v, n);
    }
  }

  // The code of a length and its extra bits.
  method SendLength(w: BitBuffer, lc: nat, lit_fc: array<nat>, lit_dl: array<nat>, ghost c: Codes)
    requires w.Valid() && Holds(c.lit, lit_fc[..], lit_dl[..])
    requires lc + 3 <= MAX_MATCH && Has(c.lit, 257 + LengthCode(lc))
    modifies w
    ensures w.Valid() && w.Stream() == old(w.Stream()) + LengthBits(c, lc + 3)
  {
    hide CodeBits, Pow2, Holds, BitBuffer.Stream, BitBuffer.Valid, LengthCode, BaseLength, LengthBits;
    var code := LengthCode(lc);
    var v: nat, extra := 0, EXTRA_LBITS[code];
    ghost var x := LengthParts(c, lc + 3, code);
    if extra != 0 {
      LengthAgrees(lc);
      v := lc - BaseLength(code);
    }
    SendCodeExtra(w, lit_fc, lit_dl, code + LITERALS + 1, v, extra, c.lit);
  }

  // The code of a distance and its extra bits.
  method SendDist(w: BitBuffer, dist: nat, dist_fc: array<nat>, dist_dl: array<nat>, ghost c: Codes)
    requires w.Valid() && Holds(c.dist, dist_fc[..], dist_dl[..])
    requires 1 <= dist <= WINDOW && Has(c.dist, DistCode(dist - 1))
    modifies w
    ensures w.Valid() && w.Stream() == old(w.Stream()) + DistBits(c, dist)
  {
    hide CodeBits, Pow2, Holds, BitBuffer.Stream, BitBuffer.Valid, DistCode, BaseDist, DistBits;
    var code := DistCode(dist - 1);
    ghost var y := DistParts(c, dist, code);
    DistAgrees(dist - 1);
    SendCodeExtra(w, dist_fc, dist_dl, code, dist - 1 - BaseDist(code), EXTRA_DBITS[code], c.dist);
  }

  /** Send one literal or match. */
  method SendToken(w: BitBuffer, dist: nat, lc: nat, lit_fc: array<nat>, lit_dl: array<nat>,
                   dist_fc: array<nat>, dist_dl: array<nat>, ghost c: Codes)
    requires w.Valid() && Holds(c.lit, lit_fc[..], lit_dl[..]) && Holds(c.dist, dist_fc[..], dist_dl[..])
    requires Encodes(c, TokenOf(dist, lc))
    modifies w
    ensures w.Valid() && w.Stream() == old(w.Stream()) + TokenBits(c, TokenOf(dist, lc))
  {
    hide CodeBits, Holds, BitBuffer.Stream, BitBuffer.Valid, LengthCode, DistCode, LengthBits, DistBits;
    if dist == 0 {
      SendCode(w, lit_fc, lit_dl, lc, c.lit);
    } else {
      ghost var z := w.Stream();
      SendLength(w, lc, lit_fc, lit_dl, c);
      SendDist(w, dist, dist_fc, dist_dl, c);
      assert w.Stream() == z + LengthBits(c, lc + 3) + DistBits(c, dist);
    }
  }

  // The stream `s` is `z` followed by the first `n` tokens.
  ghost predicate Written(c: Codes, ts: seq<Token>, n: nat, z: seq<bool>, s: seq<bool>) {
    n <= |ts| && EncodesAll(c, ts) && EncodesAll(c, ts[..n]) && s == z + TokensBits(c, ts[..n])
  }

  lemma {:induction false} WrittenStart(c: Codes, ts: seq<Token>, z: seq<bool>)
    requires EncodesAll(c, ts)
    ensures Written(c, ts, 0, z, z) && Has(c.lit, END_BLOCK)
  {
    assert z + [] == z;
  }

  lemma {:induction false} NextToken(c: Codes, ts: seq<Token>, n: nat, z: seq<bool>, s: seq<bool>)
    requires Written(c, ts, n, z, s) && n < |ts|
    ensures Encodes(c, ts[n]) && Written(c, ts, n + 1, z, s + TokenBits(c, ts[n]))
  {
    hide Encodes, TokensBits, TokenBits;
    TokensBitsLast(c, ts, n);
    assert z + (TokensBits(c, ts[..n]) + TokenBits(c, ts[n])) == z + TokensBits(c, ts[..n]) + TokenBits(c, ts[n]);
  }

  lemma {:induction false} TokensBitsLast(c: Codes, ts: seq<Token>, n: nat)
    requires EncodesAll(c, ts) && n < |ts|
    ensures EncodesAll(c, ts[..n]) && EncodesAll(c, ts[..n + 1]) && Encodes(c, ts[n])
    ensures TokensBits(c, ts[..n + 1]) == TokensBits(c, ts[..n]) + TokenBits(c, ts[n])
  {
    hide Encodes, TokenBits;
    var t := ts[..n + 1];
    assert t[..|t| - 1] == ts[..n];
  }

  lemma {:induction false} AllWritten(c: Codes, ts: seq<Token>, z: seq<bool>, s: seq<bool>)
    requires Written(c, ts, |ts|, z, s)
    ensures Has(c.lit, END_BLOCK) && EncodesAll(c, ts)
    ensures s + CodeBits(c.lit, END_BLOCK) == z + BlockBits(c, ts)
  {
    hide Encodes, CodeBits, TokensBits;
    assert ts[..|ts|] == ts;
    assert z + TokensBits(c, ts) + CodeBits(c.lit, END_BLOCK) == z + BlockBits(c, ts);
  }

  /** Send the block data with the given codes. */
  method CompressBlock(w: BitBuffer, d_buf: array<nat>, l_buf: array<nat>, last_lit: nat,
                       lit_fc: array<nat>, lit_dl: array<nat>, dist_fc: array<nat>, dist_dl: array<nat>,
                       ghost c: Codes)
    requires w.Valid() && last_lit <= d_buf.Length && last_lit <= l_buf.Length
    requires Holds(c.lit, lit_fc[..], lit_dl[..]) && Holds(c.dist, dist_fc[..], dist_dl[..])
    requires EncodesAll(c, TokensOf(d_buf[..], l_buf[..], last_lit))
    modifies w
    ensures w.Valid()
    ensures w.Stream() == old(w.Stream()) + BlockBits(c, TokensOf(d_buf[..], l_buf[..], last_lit))
  {
    hide Encodes, EncodesAll, TokenBits, BlockBits, CodeBits, Holds, BitBuffer.Stream, BitBuffer.Valid, Written, TokenOf;
    ghost var ts, z := TokensOf(d_buf[..], l_buf[..], last_lit), w.Stream();
    WrittenStart(c, ts, z);
    var lx: nat := 0;
    while lx < last_lit
      invariant lx <= last_lit && w.Valid() && Written(c, ts, lx, z, w.Stream())
    {
      NextToken(c, ts, lx, z, w.Stream());
      SendToken(w, d_buf[lx], l_buf[lx], lit_fc, lit_dl, dist_fc, dist_dl, c);
      lx := lx + 1;
    }
    AllWritten(c, ts, z, w.Stream());
    SendCode(w, lit_fc, lit_dl, END_BLOCK, c.lit);
  }

  // Send the lengths of the code length code.
  method SendOrdered(w: BitBuffer, bl_dl: array<nat>, blcodes: nat)
    requires w.Valid() && blcodes <= 19 <= bl_dl.Length && forall s :: 0 <= s < 19 ==> bl_dl[s] < 8
    modifies w
    ensures w.Valid() && w.Stream() == old(w.Stream()) + ThreeBits(Ordered(bl_dl[..19], blcodes))
  {
    hide BitBuffer.Stream, BitBuffer.Valid, ToBits;
    ghost var z, o := w.Stream(), Ordered(bl_dl[..19], blcodes);
    assert z + [] == z;
    Pow2Values();
    hide Pow2;
    var rank: nat := 0;
    while rank < blcodes
      invariant rank <= blcodes && w.Valid()
      invariant w.Stream() == z + ThreeBits(o[..rank])
    {
      RankOfOrder(rank);
      w.SendBits(bl_dl[ORDER[rank]], 3);
      ThreeBitsConcat(o[..rank], [o[rank]]);
      assert o[..rank + 1] == o[..rank] + [o[rank]];
      assert z + (ThreeBits(o[..rank]) + ToBits(o[rank], 3)) == z + ThreeBits(o[..rank]) + ToBits(o[rank], 3);
      rank := rank + 1;
    }
    assert o[..blcodes] == o;
  }

  lemma {:induction false} ThreeBitsConcat(a: seq<nat>, b: seq<nat>)
    ensures ThreeBits(a + b) == ThreeBits(a) + ThreeBits(b)
    ensures |b| == 1 ==> ThreeBits(b) == ToBits(b[0], 3)
  {
    if a == [] {
      assert a + b == b;
    } else {
      assert (a + b)[1..] == a[1..] + b;
      ThreeBitsConcat(a[1..], b);
    }
  }

  lemma {:induction false} CountsFit(h: Header)
    requires HeaderOk(h)
    ensures 257 <= |h.lit| <= 286 && 1 <= |h.dist| <= 30 && 4 <= h.blcodes <= 19
    ensures |h.lit| - 257 < Pow2(5) && |h.dist| - 1 < Pow2(5) && h.blcodes - 4 < Pow2(4)
    ensures CountsBits(h) == ToBits(|h.lit| - 257, 5) + ToBits(|h.dist| - 1, 5) + ToBits(h.blcodes - 4, 4)
  {
    Pow2Values();
  }

  lemma {:induction false} HeaderParts(h: Header, z: seq<bool>)
    requires HeaderOk(h)
    ensures LensOk(h.lit) && LensOk(h.dist) && |h.cl| == 19 && (forall s :: 0 <= s < 19 ==> h.cl[s] < 8)
    ensures Sendable(h.cl, RunCodes(h.lit, 0, -1)) && Sendable(h.cl, RunCodes(h.dist, 0, -1))
    ensures z + CountsBits(h) + ThreeBits(Ordered(h.cl, h.blcodes)) + AllRunBits(h.cl, RunCodes(h.lit, 0, -1)) +
            AllRunBits(h.cl, RunCodes(h.dist, 0, -1)) == z + HeaderBits(h)
  {
    hide RunCodes, AllRunBits, ThreeBits, CountsBits;
  }

  method SendCounts(w: BitBuffer, lcodes: nat, dcodes: nat, blcodes: nat, ghost h: Header)
    requires w.Valid() && HeaderOk(h) && lcodes == |h.lit| && dcodes == |h.dist| && blcodes == h.blcodes
    modifies w
    ensures w.Valid() && w.Stream() == old(w.Stream()) + CountsBits(h)
  {
    hide BitBuffer.Stream, BitBuffer.Valid, ToBits, Pow2, HeaderOk, CountsBits;
    CountsFit(h);
    w.SendBits(lcodes - 257, 5);
    w.SendBits(dcodes - 1, 5);
    w.SendBits(blcodes - 4, 4);
  }

  /** The stream gets the bits of the header: counts, code length code and run-coded lengths. */
  method SendAllTrees(w: BitBuffer, lcodes: nat, dcodes: nat, blcodes: nat, lit_dl: array<nat>, dist_dl: array<nat>,
                      bl_fc: array<nat>, bl_dl: array<nat>, ghost h: Header)
    requires w.Valid() && HeaderOk(h)
    requires 0 < lcodes < lit_dl.Length && lit_dl[lcodes] == 0xffff
    requires 0 < dcodes < dist_dl.Length && dist_dl[dcodes] == 0xffff && bl_dl.Length >= 19
    requires h == Header(lit_dl[..lcodes], dist_dl[..dcodes], bl_dl[..19], blcodes)
    requires Holds(h.cl, bl_fc[..], bl_dl[..])
    modifies w
    ensures w.Valid() && w.Stream() == old(w.Stream()) + HeaderBits(h)
  {
    hide BitBuffer.Stream, BitBuffer.Valid, HeaderOk, HeaderBits, CountsBits, Holds, RunCodes, AllRunBits, ThreeBits;
    ghost var z := w.Stream();
    HeaderParts(h, z);
    SendCounts(w, lcodes, dcodes, blcodes, h);
    CountsFit(h);
    SendOrdered(w, bl_dl, blcodes);
    SendTree(w, lit_dl, lcodes - 1, bl_fc, bl_dl, h.cl);
    SendTree(w, dist_dl, dcodes - 1, bl_fc, bl_dl, h.cl);
  }

  // The type of a block.
  method SendType(w: BitBuffer, kind: nat, last: bool)
    requires w.Valid() && kind < 3
    modifies w
    ensures w.Valid() && w.Stream() == old(w.Stream()) + TypeBits(kind, last)
  {
    Pow2Values();
    hide BitBuffer.Stream, BitBuffer.Valid, Pow2, ToBits;
    w.SendBits(kind * 2 + (if last then 1 else 0), 3);
  }

  lemma {:induction false} OnePadding(n: nat, p: nat)
    requires p < 8 && (n + p) % 8 == 0
    ensures p == Padding(n)
  {
  }

  /** Send a stored block. */
  method TrStoredBlock(w: BitBuffer, buf: seq<nat>, last: bool)
    requires w.Valid() && BlockOk(StoredBlock(buf))
    modifies w
    ensures w.Valid() && w.Stream() == old(w.Stream()) + BlockString(StoredBlock(buf), last, |old(w.Stream())|)
  {
    hide BitBuffer.Stream, BitBuffer.Valid, Pow2, ToBits, ByteBits, TypeBits, Zeros, Padding;
    assert Pow2(16) == 65536 by { Pow2Values(); }
    ghost var z := w.Stream();
    SendType(w, 0, last);
    ghost var pad := w.BiWindup();
    OnePadding(|z| + 3, pad);
    w.PutAligned(|buf|);
    w.PutAligned(65535 - |buf|);
    w.PutBytes(buf);
    StoredParts(z, buf, last, pad);
  }

  lemma {:induction false} StoredParts(z: seq<bool>, buf: seq<nat>, last: bool, pad: nat)
    requires BlockOk(StoredBlock(buf)) && pad == Padding(|z| + 3)
    ensures z + TypeBits(0, last) + Zeros(pad) + ToBits(|buf|, 16) + ToBits(65535 - |buf|, 16) + ByteBits(buf) ==
            z + BlockString(StoredBlock(buf), last, |z|)
  {
    hide TypeBits, Zeros, ToBits, ByteBits, Padding;
  }
}
