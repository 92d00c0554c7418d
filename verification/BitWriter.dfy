/** The bit buffer of the deflate output (trees.c). */
module BitWriter {
  import opened Bits
  import opened Canonical
  import opened Tokens

  const BUF_SIZE: nat := 16

  lemma {:induction false} LowFits(v: nat, n: nat)
    requires v < Pow2(n)
    ensures Low(v, n) == v
  {
    ShrLowUnique(v, n, v, 0);
  }

  lemma {:induction false} Expanded(p: nat, q: nat, lo: nat, hi: nat)
    requires lo < q
    ensures p * (lo + q * hi) == p * lo + p * q * hi
    ensures p * lo + p <= p * q
  {
    assert p * (lo + q * hi) == p * lo + p * (q * hi);
    MulAssoc(p, q, hi);
    MulMono(p, lo + 1, q);
  }

  lemma {:induction false} ShrOfSum(w: nat, k: nat, v: nat, j: nat)
    requires w < Pow2(k)
    ensures Shr(w + Pow2(k) * v, k + j) == Shr(v, j)
  {
    hide *;
    var lo, hi := Low(v, j), Shr(v, j);
    Pow2Add(k, j);
    Expanded(Pow2(k), Pow2(j), lo, hi);
    ShrLowUnique(w + Pow2(k) * v, k + j, w + Pow2(k) * lo, hi);
  }

  // `v` takes the bits above the `k` bits of `w`: what falls off at the top is v >> (16 - k).
  lemma {:induction false} Overflowing(w: nat, k: nat, v: nat, n: nat)
    requires k <= 16 < k + n && n <= 16 && w < Pow2(k) && v < Pow2(n)
    ensures Low(w + Pow2(k) * v, 16) < Pow2(16)
    ensures Shr(v, 16 - k) < Pow2(k + n - 16)
    ensures ToBits(w, k) + ToBits(v, n) ==
            ToBits(Low(w + Pow2(k) * v, 16), 16) + ToBits(Shr(v, 16 - k), k + n - 16)
  {
    hide *;
    var x := w + Pow2(k) * v;
    ToBitsOfSum(w, v, k, n);
    ToBitsSplit(x, 16, k + n - 16);
    ToBitsLow(x, 16);
    ShrOfSum(w, k, v, 16 - k);
    ShrBound(v, 16 - k, k + n - 16);
  }

  // There is room for `v` above the `k` bits of `w`.
  lemma {:induction false} Fitting(w: nat, k: nat, v: nat, n: nat)
    requires w < Pow2(k) && v < Pow2(n)
    ensures w + Pow2(k) * v < Pow2(k + n)
    ensures ToBits(w + Pow2(k) * v, k + n) == ToBits(w, k) + ToBits(v, n)
  {
    hide *;
    ToBitsOfSum(w, v, k, n);
    Pow2Add(k, n);
    Expanded(Pow2(k), Pow2(n), v, 0);
  }

  lemma {:induction false} ShortBytes(w: nat)
    requires w < Pow2(16)
    ensures Low(w, 8) < 256 && Shr(w, 8) < 256
    ensures ByteBits([Low(w, 8), Shr(w, 8)]) == ToBits(w, 16)
  {
    assert Pow2(8) == 256;
    ToBitsSplit(w, 8, 8);
    ToBitsLow(w, 8);
    ShrBound(w, 8, 8);
    OneByte(Shr(w, 8));
    assert [Low(w, 8), Shr(w, 8)][1..] == [Shr(w, 8)];
  }

  lemma {:induction false} OneByte(x: nat)
    ensures ByteBits([x]) == ToBits(x, 8)
  {
    assert [x][1..] == [];
    assert ToBits(x, 8) + ByteBits([]) == ToBits(x, 8);
  }

  lemma {:induction false} ZeroBits(n: nat)
    ensures ToBits(0, n) == Zeros(n)
  {
    if n > 0 {
      ZeroBits(n - 1);
      assert Zeros(n) == [false] + Zeros(n - 1);
    }
  }

  // A number that fits `k` digits has zeros above them.
  lemma {:induction false} PaddedBits(w: nat, k: nat, n: nat)
    requires w < Pow2(k) && k <= n
    ensures ToBits(w, n) == ToBits(w, k) + Zeros(n - k)
  {
    ToBitsOfSum(w, 0, k, n - k);
    ZeroBits(n - k);
  }

  lemma {:induction false} Regroup(z: seq<bool>, a: seq<bool>, b: seq<bool>, c: seq<bool>, d: seq<bool>)
    requires a + b == c + d
    ensures z + a + b == z + c + d
  {
    assert z + a + b == z + (a + b);
    assert z + c + d == z + (c + d);
  }

  class BitBuffer {
    var pending: seq<nat>  // bytes put out
    var bi_buf: nat        // bits not yet put out, the first one lowest
    var bi_valid: nat      // how many of them there are

    ghost predicate Valid()
      reads this
    {
      IsBytes(pending) && bi_valid <= BUF_SIZE && bi_buf < Pow2(bi_valid)
    }

    // All bits sent so far.
    ghost function Stream(): (b: seq<bool>)
      reads this
    {
      ByteBits(pending) + ToBits(bi_buf, bi_valid)
    }

    constructor ()
      ensures Valid() && Stream() == []
    {
      pending, bi_buf, bi_valid := [], 0, 0;
    }

    method PutByte(x: nat)
      requires IsBytes(pending) && x < 256
      modifies this`pending
      ensures IsBytes(pending) && ByteBits(pending) == ByteBits(old(pending)) + ToBits(x, 8)
    {
      hide ByteBits, ToBits;
      OneByte(x);
      ByteBitsConcat(pending, [x]);
      pending := pending + [x];
    }

    method PutShort(w: nat)
      requires IsBytes(pending) && w < Pow2(16)
      modifies this`pending
      ensures IsBytes(pending) && ByteBits(pending) == ByteBits(old(pending)) + ToBits(w, 16)
    {
      hide Low, Shr, ByteBits, Pow2;
      ShortBytes(w);
      ByteBitsConcat(pending, [Low(w, 8), Shr(w, 8)]);
      pending := pending + [Low(w, 8), Shr(w, 8)];
    }

    // Copy whole bytes to the output, when no bits are waiting.
    method PutBytes(bytes: seq<nat>)
      requires Valid() && IsBytes(bytes) && bi_valid == 0
      modifies this`pending
      ensures Valid() && Stream() == old(Stream()) + ByteBits(bytes)
    {
      hide ByteBits, ToBits;
      ByteBitsConcat(pending, bytes);
      PaddedBits(bi_buf, 0, 0);
      pending := pending + bytes;
    }

    // Two bytes of a number, when no bits are waiting.
    method PutAligned(v: nat)
      requires Valid() && v < Pow2(16) && bi_valid == 0
      modifies this`pending
      ensures Valid() && Stream() == old(Stream()) + ToBits(v, 16)
    {
      hide ByteBits, ToBits, Pow2;
      PaddedBits(bi_buf, 0, 0);
      PutShort(v);
    }

    /** Append the `length` low bits of `value`. */
    method SendBits(value: nat, length: nat)
      requires Valid() && 0 < length <= 16 && value < Pow2(length)
      modifies this
      ensures Valid() && Stream() == old(Stream()) + ToBits(value, length)
    {
      hide Pow2, Low, Shr, ByteBits, ToBits;
      ghost var w, k, z := bi_buf, bi_valid, ByteBits(pending);
      if bi_valid > BUF_SIZE - length {
        Overflowing(w, k, value, length);
        bi_buf := Low(bi_buf + Pow2(bi_valid) * value, 16);
        PutShort(bi_buf);
        bi_buf := Shr(value, BUF_SIZE - bi_valid);
        bi_valid := bi_valid + length - BUF_SIZE;
        Regroup(z, ToBits(w, k), ToBits(value, length), ToBits(Low(w + Pow2(k) * value, 16), 16), ToBits(bi_buf, bi_valid));
      } else {
        Fitting(w, k, value, length);
        bi_buf := bi_buf + Pow2(bi_valid) * value;
        bi_valid := bi_valid + length;
      }
    }

    // Whole bytes leave the bit buffer; the stream stays the same.
    method BiFlush()
      requires Valid()
      modifies this
      ensures Valid() && Stream() == old(Stream()) && bi_valid < 8
    {
      hide ByteBits, ToBits, Pow2, Low, Shr;
      ghost var w, k, z := bi_buf, bi_valid, ByteBits(pending);
      PaddedBits(0, 0, 0);
      if bi_valid == 16 {
        PutShort(bi_buf);
        bi_buf, bi_valid := 0, 0;
        assert Stream() == z + ToBits(w, k) + [];
      } else if bi_valid >= 8 {
        FlushByte(w, k);
        PutByte(Low(bi_buf, 8));
        bi_buf := Shr(bi_buf, 8);
        bi_valid := bi_valid - 8;
        assert Stream() == z + ToBits(Low(w, 8), 8) + ToBits(Shr(w, 8), k - 8);
      }
    }

    /** The stream gets the zero bits `pad` that make whole bytes of it, all of them put out. */
    method BiWindup() returns (ghost pad: nat)
      requires Valid()
      modifies this
      ensures Valid() && pad < 8 && bi_valid == 0
      ensures Stream() == old(Stream()) + Zeros(pad) && |Stream()| % 8 == 0
      ensures Stream() == ByteBits(pending)
    {
      hide ByteBits, ToBits, Pow2, Low;
      ghost var w, k, z := bi_buf, bi_valid, ByteBits(pending);
      Pow2Values();
      pad := 0;
      if bi_valid > 8 {
        pad := 16 - k;
        Pow2Mono(k, 16);
        PaddedBits(w, k, 16);
        PutShort(bi_buf);
      } else if bi_valid > 0 {
        pad := 8 - k;
        Pow2Mono(k, 8);
        PaddedBits(w, k, 8);
        LowFits(w, 8);
        PutByte(Low(bi_buf, 8));
      } else {
        PaddedBits(w, k, 0);
      }
      bi_buf, bi_valid := 0, 0;
      PaddedBits(0, 0, 0);
      assert z + (ToBits(w, k) + Zeros(pad)) == z + ToBits(w, k) + Zeros(pad);
      assert Stream() == ByteBits(pending) + [];
    }
  }

  // A byte leaves a buffer of at least 8 bits.
  lemma {:induction false} FlushByte(w: nat, k: nat)
    requires 8 <= k && w < Pow2(k)
    ensures Low(w, 8) < 256 && Shr(w, 8) < Pow2(k - 8)
    ensures ToBits(w, k) == ToBits(Low(w, 8), 8) + ToBits(Shr(w, 8), k - 8)
  {
    Pow2Values();
    hide *;
    ToBitsSplit(w, 8, k - 8);
    ToBitsLow(w, 8);
    ShrBound(w, 8, k - 8);
  }
}
