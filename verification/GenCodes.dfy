/** Assigning the code bit strings (gen_codes and bi_reverse in trees.c). */
module GenCodes {
  import opened Bits
  import opened Canonical
  import opened CodeOrder
  import opened CodeBlocks
  import opened CodeCounts
  import opened BitWriter

  /** The last `len` digits of the code, the lowest one first. */
  method BiReverse(code: nat, len: nat) returns (r: nat)
    requires 1 <= len
    ensures r == Num(Msb(code, len))
  {
    var res: nat, c, l := 0, code, len;
    ghost var i: nat := 0;
    while true
      invariant i + l == len && l > 0
      invariant c == Shr(code, i) && res == 2 * Num(Msb(code, i))
      decreases l
    {
      ReverseStep(code, i);
      res := res + c % 2;
      c := c / 2;
      res := res * 2;
      i, l := i + 1, l - 1;
      if l == 0 {
        break;
      }
    }
    return res / 2;
  }

  lemma {:induction false} ShrNext(v: nat, i: nat)
    ensures Shr(v, i + 1) == Shr(v, i) / 2
  {
    var s := Shr(v, i);
    var lo := Low(v, i);
    MulAssoc(Pow2(i), 2, s / 2);
    assert s == s % 2 + 2 * (s / 2);
    assert Pow2(i) * s == Pow2(i) * (s % 2) + Pow2(i) * (2 * (s / 2));
    ShrLowUnique(v, i + 1, lo + Pow2(i) * (s % 2), s / 2);
  }

  // The next lower bit becomes the first of the reversed string.
  lemma {:induction false} ReverseStep(v: nat, i: nat)
    ensures Num(Msb(v, i + 1)) == Shr(v, i) % 2 + 2 * Num(Msb(v, i))
    ensures Shr(v, i + 1) == Shr(v, i) / 2
  {
    ShrNext(v, i);
    ToBitsSplit(v, i, 1);
    var bit := ToBits(Shr(v, i), 1);
    assert bit == [Shr(v, i) % 2 == 1];
    ReverseConcat(ToBits(v, i), bit);
    assert Reverse(bit) == bit;
    NumConcat(bit, Msb(v, i));
  }

  /** The next code of each length, when the first `n` symbols have theirs. */
  ghost predicate NextCodes(lens: seq<nat>, n: nat, next: seq<nat>) {
    && LensOk(lens) && |next| == MAX_BITS + 1
    && forall l :: 0 < l <= MAX_BITS ==> CodeAt(lens, n, l, next[l])
  }

  // `c` codes of length `l` end where the first free place for symbol `n` is.
  ghost predicate CodeAt(lens: seq<nat>, n: nat, l: nat, c: nat)
    requires LensOk(lens) && 0 < l <= MAX_BITS
  {
    Times(c, Pow2(MAX_BITS - l)) == Before(lens, l, n)
  }

  lemma {:induction false} BeforeSmallest(lens: seq<nat>)
    requires LensOk(lens)
    ensures Before(lens, 1, 0) == 0
  {
    if lens != [] {
      BeforeSmallest(lens[..|lens| - 1]);
    }
  }

  // The step of the running code from one length to the next.
  lemma {:induction false} NextLength(lens: seq<nat>, l: nat, code: nat)
    requires LensOk(lens) && 0 < l < MAX_BITS && CodeAt(lens, 0, l, code)
    ensures CodeAt(lens, 0, l + 1, (code + Count(lens, l)) * 2)
  {
    var u := Pow2(MAX_BITS - (l + 1));
    BeforeLevel(lens, l);
    TimesIs(code, 2 * u);
    TimesIs((code + Count(lens, l)) * 2, u);
    Doubled(code, Count(lens, l), u);
  }

  lemma {:induction false} Doubled(a: nat, b: nat, u: nat)
    ensures (a + b) * 2 * u == a * (2 * u) + b * (2 * u)
  {
  }

  // A running code never outgrows its length.
  lemma {:induction false} CodeInRange(lens: seq<nat>, n: nat, l: nat, c: nat)
    requires Fits(lens) && 0 < l <= MAX_BITS && CodeAt(lens, n, l, c)
    ensures c <= Pow2(l) <= Pow2(MAX_BITS)
  {
    hide Pow2, Before, Kraft, Times, LensOk;
    BeforeKraft(lens, l, n);
    TimesIs(c, Pow2(MAX_BITS - l));
    Pow2Add(l, MAX_BITS - l);
    Pow2Mono(l, MAX_BITS);
    if c > Pow2(l) {
      MulStep(Pow2(l), c, Pow2(MAX_BITS - l));
    }
  }

  // The code at hand is the code of the symbol.
  lemma {:induction false} CodeNow(lens: seq<nat>, n: nat, c: nat)
    requires LensOk(lens) && n < |lens| && lens[n] > 0 && CodeAt(lens, n, lens[n], c)
    ensures c == CodeOf(lens, n)
  {
    TimesIs(c, Pow2(MAX_BITS - lens[n]));
    ShrLowUnique(Pos(lens, n), MAX_BITS - lens[n], 0, c);
  }

  lemma {:induction false} BeforeSucc(lens: seq<nat>, l: nat, n: nat)
    requires LensOk(lens)
    ensures Before(lens, l, n + 1) ==
            Before(lens, l, n) + if n < |lens| && lens[n] == l then Width(l) else 0
  {
    if lens != [] {
      BeforeSucc(lens[..|lens| - 1], l, n);
    }
  }

  // Symbol `n` has its code: its length counts on, the others stay.
  lemma {:induction false} NextSymbol(lens: seq<nat>, n: nat, next: seq<nat>)
    requires NextCodes(lens, n, next) && n < |lens|
    ensures lens[n] == 0 ==> NextCodes(lens, n + 1, next)
    ensures lens[n] > 0 ==> NextCodes(lens, n + 1, next[lens[n] := next[lens[n]] + 1])
  {
    var m := n + 1;
    forall l | 0 < l <= MAX_BITS
      ensures CodeAt(lens, m, l, if l == lens[n] then next[l] + 1 else next[l])
    {
      assert CodeAt(lens, n, l, next[l]);
      BeforeSucc(lens, l, n);
      OneMoreTime(next[l], Pow2(MAX_BITS - l));
    }
  }

  lemma {:induction false} OneMoreTime(n: nat, u: nat)
    ensures Times(n + 1, u) == Times(n, u) + u
  {
  }

  // The first codes of all lengths.
  method FirstCodes(bl_count: array<nat>, ghost lens: seq<nat>) returns (next_code: array<nat>)
    requires Fits(lens) && bl_count.Length == MAX_BITS + 1 && bl_count[0] == 0
    requires forall l :: 0 < l <= MAX_BITS ==> bl_count[l] == Count(lens, l)
    ensures fresh(next_code) && NextCodes(lens, 0, next_code[..])
  {
    hide CodeAt, Count, Low, Kraft, Pow2;
    next_code := new nat[MAX_BITS + 1](_ => 0);
    var code: nat, bits: nat := 0, 1;
    FirstCode(lens);
    while bits <= MAX_BITS
      invariant 1 <= bits <= MAX_BITS + 1
      invariant bits == 1 ==> code == 0
      invariant bits > 1 ==> CodeAt(lens, 0, bits - 1, code)
      invariant forall l :: 0 < l < bits ==> CodeAt(lens, 0, l, next_code[l])
    {
      if bits > 1 {
        NextLength(lens, bits - 1, code);
      }
      code := (code + bl_count[bits - 1]) * 2;
      CodeInRange(lens, 0, bits, code);
      assert Pow2(MAX_BITS) < Pow2(16) by { Pow2Strict(MAX_BITS, 16); }
      LowFits(code, 16);
      next_code[bits] := Low(code, 16);
      bits := bits + 1;
    }
  }

  lemma {:induction false} FirstCode(lens: seq<nat>)
    requires LensOk(lens)
    ensures CodeAt(lens, 0, 1, 0)
  {
    BeforeSmallest(lens);
  }

  // Symbol `n` holds its code, stored with its bits in stream order.
  ghost predicate Coded(lens: seq<nat>, n: nat, code: nat)
    requires LensOk(lens) && n < |lens|
  {
    code == Num(CodeBits(lens, n))
  }

  /** Generate the codes of a tree whose lengths are set. */
  method GenCodes(fc: array<nat>, dl: array<nat>, max_code: nat, bl_count: array<nat>)
    requires fc != dl && max_code < fc.Length && max_code < dl.Length
    requires Fits(dl[..max_code + 1])
    requires bl_count.Length == MAX_BITS + 1 && bl_count[0] == 0 && bl_count != fc
    requires forall l :: 0 < l <= MAX_BITS ==> bl_count[l] == Count(dl[..max_code + 1], l)
    modifies fc
    ensures forall n :: 0 <= n <= max_code && dl[n] > 0 ==> Coded(dl[..max_code + 1], n, fc[n])
    ensures forall n :: 0 <= n < fc.Length && (n > max_code || dl[n] == 0) ==> fc[n] == old(fc[n])
  {
    ghost var lens := dl[..max_code + 1];
    var next_code := FirstCodes(bl_count, lens);
    hide NextCodes, Low, Coded, Count, Kraft;
    var n: nat := 0;
    while n <= max_code
      invariant n <= max_code + 1
      invariant NextCodes(lens, n, next_code[..]) && dl[..max_code + 1] == lens
      invariant forall i :: 0 <= i < n && dl[i] > 0 ==> Coded(lens, i, fc[i])
      invariant forall i :: 0 <= i < fc.Length && (i >= n || dl[i] == 0) ==> fc[i] == old(fc[i])
    {
      ghost var next := next_code[..];
      NextParts(lens, n, next);
      NextSymbol(lens, n, next);
      var len := dl[n];
      if len != 0 {
        var code := BiReverse(next_code[len], len);
        CodeLow(lens, n, code);
        fc[n] := Low(code, 16);
        next_code[len] := next_code[len] + 1;
        assert next_code[..] == next[len := next[len] + 1];
      }
      n := n + 1;
    }
  }

  lemma {:induction false} NextParts(lens: seq<nat>, n: nat, next: seq<nat>)
    requires NextCodes(lens, n, next) && n < |lens|
    ensures |next| == MAX_BITS + 1 && lens[n] <= MAX_BITS
    ensures lens[n] > 0 ==> next[lens[n]] == CodeOf(lens, n)
  {
    if lens[n] > 0 {
      CodeNow(lens, n, next[lens[n]]);
    }
  }

  lemma {:induction false} CodeLow(lens: seq<nat>, n: nat, code: nat)
    requires LensOk(lens) && n < |lens| && 0 < lens[n] && code == Num(Msb(CodeOf(lens, n), lens[n]))
    ensures Coded(lens, n, Low(code, 16))
  {
    Pow2Mono(lens[n], 16);
    LowFits(code, 16);
  }

  /** The arrays hold the code `lens`: every used symbol has its length and its code. */
  ghost predicate Holds(lens: seq<nat>, codes: seq<nat>, lengths: seq<nat>) {
    && LensOk(lens) && |lens| <= |codes| && |lens| <= |lengths|
    && (forall s :: 0 <= s < |lens| ==> lengths[s] == lens[s])
    && (forall s :: 0 <= s < |lens| && lens[s] > 0 ==> Coded(lens, s, codes[s]))
  }

  lemma {:induction false} HeldCode(lens: seq<nat>, codes: seq<nat>, lengths: seq<nat>, c: nat)
    requires Holds(lens, codes, lengths) && c < |lens| && lens[c] > 0
    ensures c < |codes| && c < |lengths| && lengths[c] == lens[c] <= 15
    ensures codes[c] < Pow2(lens[c]) && ToBits(codes[c], lens[c]) == CodeBits(lens, c)
  {
    assert Coded(lens, c, codes[c]);
    ToBitsNum(CodeBits(lens, c));
  }

  /** Send the code of symbol `c`. */
  method SendCode(w: BitBuffer, fc: array<nat>, dl: array<nat>, c: nat, ghost lens: seq<nat>)
    requires w.Valid() && Holds(lens, fc[..], dl[..]) && c < |lens| && lens[c] > 0
    modifies w
    ensures w.Valid() && w.Stream() == old(w.Stream()) + CodeBits(lens, c)
  {
    hide *;
    HeldCode(lens, fc[..], dl[..], c);
    w.SendBits(fc[c], dl[c]);
  }
}
