/** The static trees of deflate (tr_static_init in trees.c). */
module StaticTrees {
  import opened Bits
  import opened Canonical
  import opened CodeCounts
  import opened FixedCodes
  import opened Tokens
  import opened Symbols
  import opened BlockMachine
  import opened BlockData
  import opened Blocks
  import opened BitWriter
  import opened GenCodes

  // Codes of one length are handed out in the order of the symbols.
  lemma {:induction false} EqualBefore(n: nat, s: nat)
    requires s <= n
    ensures Before(Repeat(5, n), 5, s) == s * Pow2(10)
  {
    var r := Repeat(5, n);
    if n > 0 {
      assert r[..n - 1] == Repeat(5, n - 1);
      EqualBefore(n - 1, if s < n then s else n - 1);
      if s == n {
        BeyondEnd(n - 1);
      }
    }
  }

  lemma {:induction false} BeyondEnd(n: nat)
    ensures Before(Repeat(5, n), 5, n + 1) == Before(Repeat(5, n), 5, n)
  {
    BeforeSucc(Repeat(5, n), 5, n);
  }

  lemma {:induction false} EqualCode(n: nat, s: nat)
    requires s < n
    ensures CodeOf(Repeat(5, n), s) == s && CodeBits(Repeat(5, n), s) == Msb(s, 5)
  {
    EqualBefore(n, s);
    hide Before, Pow2;
    ShrLowUnique(Pos(Repeat(5, n), s), 10, 0, s);
  }

  // The codes compress_block uses for a fixed block: two distance codes never occur.
  function StaticCodes(): Codes {
    Codes(false, FixedLit(), Repeat(5, D_CODES))
  }

  /** The 30 distance codes of deflate are the first of the 32 of inflate. */
  lemma {:induction false} StaticTokens(ts: seq<Token>)
    requires EncodesAll(StaticCodes(), ts)
    ensures EncodesAll(FixedBlockCodes(false), ts)
    ensures TokensBits(StaticCodes(), ts) == TokensBits(FixedBlockCodes(false), ts)
  {
    hide LengthCode, DistCode, LengthBits, FixedLit, LensOk, CodeBits;
    forall i | 0 <= i < |ts|
      ensures Encodes(FixedBlockCodes(false), ts[i])
      ensures TokenBits(StaticCodes(), ts[i]) == TokenBits(FixedBlockCodes(false), ts[i])
    {
      StaticToken(ts[i]);
    }
    if ts != [] {
      hide Encodes, TokenBits;
      StaticTokens(ts[..|ts| - 1]);
    }
  }

  lemma {:induction false} StaticToken(t: Token)
    requires Encodes(StaticCodes(), t)
    ensures Encodes(FixedBlockCodes(false), t)
    ensures TokenBits(StaticCodes(), t) == TokenBits(FixedBlockCodes(false), t)
  {
    hide LengthCode, DistCode, LengthBits, DistBits, FixedLit, FixedDist, Repeat, CodeBits, Has;
    if t.Match? {
      var k := DistCode(t.dist - 1);
      FiveBits(k);
      SameDistBits(StaticCodes(), FixedBlockCodes(false), t.dist);
      SameLengthBits(StaticCodes(), FixedBlockCodes(false), t.length);
    }
  }

  lemma {:induction false} FiveBits(k: nat)
    requires k < D_CODES
    ensures Has(FixedDist(), k) && Has(Repeat(5, D_CODES), k)
    ensures CodeBits(Repeat(5, D_CODES), k) == CodeBits(FixedDist(), k)
  {
    hide CodeBits;
    EqualCode(D_CODES, k);
    EqualCode(32, k);
  }

  lemma {:induction false} SameDistBits(a: Codes, b: Codes, d: nat)
    requires 1 <= d <= WINDOW && Has(a.dist, DistCode(d - 1)) && Has(b.dist, DistCode(d - 1))
    requires CodeBits(a.dist, DistCode(d - 1)) == CodeBits(b.dist, DistCode(d - 1))
    ensures DistBits(a, d) == DistBits(b, d)
  {
    hide DistCode, CodeBits, BaseDist;
  }

  lemma {:induction false} SameLengthBits(a: Codes, b: Codes, l: nat)
    requires MIN_MATCH <= l <= MAX_MATCH && a.lit == b.lit && Has(a.lit, 257 + LengthCode(l - 3))
    ensures LengthBits(a, l) == LengthBits(b, l)
  {
    hide LengthCode, CodeBits, BaseLength;
  }

  /** All tokens can be sent with the static trees. */
  lemma {:induction false} StaticEncodes(ts: seq<Token>)
    requires forall i :: 0 <= i < |ts| ==> InRange(ts[i])
    ensures EncodesAll(StaticCodes(), ts)
    ensures BlockBits(StaticCodes(), ts) == BlockBits(FixedBlockCodes(false), ts)
  {
    forall i | 0 <= i < |ts|
      ensures Encodes(StaticCodes(), ts[i])
    {
      StaticHas(ts[i]);
    }
    hide LengthCode, DistCode, CodeBits, Encodes, TokenBits;
    StaticTokens(ts);
  }

  lemma {:induction false} StaticHas(t: Token)
    requires InRange(t)
    ensures Encodes(StaticCodes(), t)
  {
    hide LengthCode, DistCode;
  }

  // The static literal tree is the canonical code of the fixed lengths.
  method InitStaticLit() returns (fc: array<nat>, dl: array<nat>)
    ensures fresh(fc) && fresh(dl) && fc != dl && fc.Length == dl.Length == L_CODES + 2
    ensures Holds(FixedLit(), fc[..], dl[..])
  {
    fc, dl := new nat[L_CODES + 2](_ => 0), new nat[L_CODES + 2](_ => 0);
    var bl_count := new nat[MAX_BITS + 1](_ => 0);
    hide Count, Kraft, CodeBits, Pow2;
    FillLengths(dl, bl_count);
    assert dl[..] == FixedLit();
    assert dl[..L_CODES + 1 + 1] == FixedLit();
    FixedLitFacts();
    GenCodes.GenCodes(fc, dl, L_CODES + 1, bl_count);
  }

  lemma {:induction false} CountMore(a: seq<nat>, l: nat, b: nat)
    ensures Count(a + [l], b) == Count(a, b) + if b == l then 1 else 0
  {
    assert (a + [l])[..|a|] == a;
  }

  // The first `n` lengths are set and counted.
  ghost predicate Filled(dl: seq<nat>, counts: seq<nat>, n: nat) {
    && n <= |dl| == |FixedLit()| && |counts| == MAX_BITS + 1
    && (forall i :: 0 <= i < n ==> dl[i] == FixedLit()[i])
    && (forall b :: 0 <= b <= MAX_BITS ==> counts[b] == Count(FixedLit()[..n], b))
  }

  lemma {:induction false} FillStep(dl: seq<nat>, counts: seq<nat>, n: nat)
    requires Filled(dl, counts, n) && n < |dl|
    ensures FixedLit()[n] <= MAX_BITS
    ensures Filled(dl[n := FixedLit()[n]], counts[FixedLit()[n] := counts[FixedLit()[n]] + 1], n + 1)
  {
    var l := FixedLit()[n];
    assert FixedLit()[..n + 1] == FixedLit()[..n] + [l];
    forall b | 0 <= b <= MAX_BITS
      ensures Count(FixedLit()[..n + 1], b) == Count(FixedLit()[..n], b) + if b == l then 1 else 0
    {
      CountMore(FixedLit()[..n], l, b);
    }
    hide Count, FixedLit;
  }

  // One run of equal lengths.
  method FillRun(dl: array<nat>, bl_count: array<nat>, start: nat, end: nat, len: nat) returns (n: nat)
    requires dl != bl_count && start <= end <= 288 && len <= MAX_BITS
    requires Filled(dl[..], bl_count[..], start) && forall i :: start <= i < end ==> FixedLit()[i] == len
    modifies dl, bl_count
    ensures n == end && Filled(dl[..], bl_count[..], end)
  {
    hide Filled, FixedLit;
    n := start;
    while n < end
      invariant start <= n <= end && Filled(dl[..], bl_count[..], n)
    {
      FilledSizes(dl[..], bl_count[..], n);
      FillStep(dl[..], bl_count[..], n);
      dl[n] := len;
      bl_count[len] := bl_count[len] + 1;
      n := n + 1;
    }
  }

  lemma {:induction false} FilledSizes(dl: seq<nat>, counts: seq<nat>, n: nat)
    requires Filled(dl, counts, n)
    ensures |dl| == 288 && |counts| == MAX_BITS + 1
  {
  }

  method FillLengths(dl: array<nat>, bl_count: array<nat>)
    requires dl != bl_count && dl.Length == 288 && bl_count.Length == MAX_BITS + 1
    requires forall b :: 0 <= b <= MAX_BITS ==> bl_count[b] == 0
    modifies dl, bl_count
    ensures dl[..] == FixedLit()
    ensures forall b :: 0 <= b <= MAX_BITS ==> bl_count[b] == Count(FixedLit(), b)
    ensures bl_count[0] == 0
  {
    assert Filled(dl[..], bl_count[..], 0);
    var n := FillRun(dl, bl_count, 0, 144, 8);
    n := FillRun(dl, bl_count, n, 256, 9);
    n := FillRun(dl, bl_count, n, 280, 7);
    n := FillRun(dl, bl_count, n, 288, 8);
    assert FixedLit()[..288] == FixedLit();
    NoneZero(FixedLit());
  }

  lemma {:induction false} NoneZero(lens: seq<nat>)
    requires forall i :: 0 <= i < |lens| ==> lens[i] > 0
    ensures Count(lens, 0) == 0
  {
    if lens != [] {
      NoneZero(lens[..|lens| - 1]);
    }
  }

  /** The codes of the static distance tree, all of 5 bits. */
  method InitStaticDist() returns (fc: array<nat>, dl: array<nat>)
    ensures fresh(fc) && fresh(dl) && fc != dl && fc.Length == dl.Length == D_CODES
    ensures Holds(Repeat(5, D_CODES), fc[..], dl[..])
  {
    hide CodeBits, Msb;
    fc, dl := new nat[D_CODES], new nat[D_CODES];
    var n: nat := 0;
    while n < D_CODES
      invariant n <= D_CODES
      invariant forall i :: 0 <= i < n ==> dl[i] == 5 && Coded(Repeat(5, D_CODES), i, fc[i])
    {
      EqualCode(D_CODES, n);
      dl[n] := 5;
      fc[n] := BiReverse(n, 5);
      n := n + 1;
    }
  }
}
