/** What code lengths allow, whatever codes are chosen for them: the inequality of Kraft and McMillan, and
which sets of lengths inflate_table (inftrees.c) turns down. */
module PrefixCodes {
  import opened Bits
  import opened Canonical
  import opened CodeOrder
  import opened TableCells
  import opened DecodeTable
  import opened CodeCounts

  // Every symbol has a string of its length.
  ghost predicate Assigned(lens: seq<nat>, cs: seq<seq<bool>>) {
    |cs| == |lens| && forall s :: 0 <= s < |lens| ==> |cs[s]| == lens[s]
  }

  // No string is the beginning of another; symbols without a code have none.
  ghost predicate PrefixFreeAll(cs: seq<seq<bool>>) {
    forall s, t :: 0 <= s < t < |cs| && cs[s] != [] && cs[t] != [] ==> Incomparable(cs[s], cs[t])
  }

  // How many of the strings `p` begins with.
  function Hits(cs: seq<seq<bool>>, p: seq<bool>): nat {
    if cs == [] then 0
    else Hits(cs[..|cs| - 1], p) + if cs[|cs| - 1] != [] && cs[|cs| - 1] <= p then 1 else 0
  }

  // The same for all strings of `n` bits that begin with `q` together.
  function HitSum(cs: seq<seq<bool>>, q: seq<bool>, n: nat): nat
    requires |q| <= n
    decreases n - |q|
  {
    if |q| == n then Hits(cs, q) else HitSum(cs, q + [false], n) + HitSum(cs, q + [true], n)
  }

  // How many strings of `n` bits begin with both `c` and `q`.
  function Share(c: seq<bool>, q: seq<bool>, n: nat): nat
    requires |c| <= n && |q| <= n
  {
    if c <= q then Pow2(n - |q|) else if q <= c then Pow2(n - |c|) else 0
  }

  lemma {:induction false} ShareSplit(c: seq<bool>, q: seq<bool>, n: nat)
    requires |c| <= n && |q| < n
    ensures Share(c, q, n) == Share(c, q + [false], n) + Share(c, q + [true], n)
  {
    assert Pow2(n - |q|) == 2 * Pow2(n - |q| - 1);
    if q <= c && |q| < |c| {
      assert c[..|q| + 1] == q + [c[|q|]];
      assert q + [c[|q|]] <= c && !(q + [!c[|q|]] <= c);
      assert !(c <= q + [!c[|q|]]);
    }
  }

  lemma {:induction false} HitsMore(cs: seq<seq<bool>>, c: seq<bool>, p: seq<bool>)
    ensures Hits(cs + [c], p) == Hits(cs, p) + if c != [] && c <= p then 1 else 0
  {
    assert (cs + [c])[..|cs|] == cs;
  }

  lemma {:induction false} HitSumMore(cs: seq<seq<bool>>, c: seq<bool>, q: seq<bool>, n: nat)
    requires |c| <= n && |q| <= n
    ensures HitSum(cs + [c], q, n) == HitSum(cs, q, n) + if c == [] then 0 else Share(c, q, n)
    decreases n - |q|
  {
    if |q| == n {
      HitsMore(cs, c, q);
      assert Pow2(0) == 1;
    } else {
      HitSumMore(cs, c, q + [false], n);
      HitSumMore(cs, c, q + [true], n);
      ShareSplit(c, q, n);
    }
  }

  lemma {:induction false} NoHits(q: seq<bool>, n: nat)
    requires |q| <= n
    ensures HitSum([], q, n) == 0
    decreases n - |q|
  {
    if |q| < n {
      NoHits(q + [false], n);
      NoHits(q + [true], n);
    }
  }

  /** Counted over all strings of 15 bits, codes of these lengths hit as often as the lengths say, whatever they are. */
  lemma {:induction false} AllHits(lens: seq<nat>, cs: seq<seq<bool>>)
    requires LensOk(lens) && Assigned(lens, cs)
    ensures HitSum(cs, [], MAX_BITS) == Kraft(lens)
  {
    hide Pow2;
    if lens == [] {
      NoHits([], MAX_BITS);
    } else {
      var n := |lens| - 1;
      AllHits(lens[..n], cs[..n]);
      HitSumMore(cs[..n], cs[n], [], MAX_BITS);
      assert cs[..n] + [cs[n]] == cs;
    }
  }

  lemma {:induction false} HitOnce(cs: seq<seq<bool>>, p: seq<bool>)
    requires PrefixFreeAll(cs)
    ensures Hits(cs, p) <= 1
    ensures Hits(cs, p) == 1 ==> exists s :: 0 <= s < |cs| && cs[s] != [] && cs[s] <= p
  {
    if cs != [] {
      var n := |cs| - 1;
      assert PrefixFreeAll(cs[..n]);
      HitOnce(cs[..n], p);
      if Hits(cs[..n], p) == 1 {
        var s :| 0 <= s < |cs[..n]| && cs[..n][s] != [] && cs[..n][s] <= p;
        assert cs[s] != [] && cs[s] <= p;
        if cs[n] != [] && cs[n] <= p {
          Comparable(cs[s], cs[n], p);
        }
      }
    }
  }

  lemma {:induction false} FewHits(cs: seq<seq<bool>>, q: seq<bool>, n: nat)
    requires PrefixFreeAll(cs) && |q| <= n
    ensures HitSum(cs, q, n) <= Pow2(n - |q|)
    decreases n - |q|
  {
    if |q| == n {
      HitOnce(cs, q);
      assert Pow2(0) == 1;
    } else {
      FewHits(cs, q + [false], n);
      FewHits(cs, q + [true], n);
    }
  }

  // The canonical codes.
  function Canon(lens: seq<nat>): (cs: seq<seq<bool>>)
    requires LensOk(lens)
    ensures |cs| == |lens|
  {
    seq(|lens|, s requires 0 <= s < |lens| => CodeBits(lens, s))
  }

  lemma {:induction false} CanonFree(lens: seq<nat>)
    requires Fits(lens)
    ensures Assigned(lens, Canon(lens)) && PrefixFreeAll(Canon(lens))
  {
    hide CodeBits, Kraft, Incomparable;
    var cs := Canon(lens);
    forall s, t | 0 <= s < t < |cs| && cs[s] != [] && cs[t] != []
      ensures Incomparable(cs[s], cs[t])
    {
      CodesIncomparable(lens, s, t);
    }
  }

  // There are strings of these lengths, none of which is the beginning of another.
  ghost predicate Separable(lens: seq<nat>) {
    exists cs: seq<seq<bool>> :: Assigned(lens, cs) && PrefixFreeAll(cs)
  }

  /** Lengths are those of a prefix code if and only if they are not over-subscribed. */
  lemma {:induction false} SeparableIff(lens: seq<nat>)
    requires LensOk(lens)
    ensures Separable(lens) <==> Kraft(lens) <= Pow2(MAX_BITS)
  {
    hide Kraft, Pow2, Assigned, PrefixFreeAll;
    if Kraft(lens) <= Pow2(MAX_BITS) {
      CanonFree(lens);
    }
    if Separable(lens) {
      var cs: seq<seq<bool>> :| Assigned(lens, cs) && PrefixFreeAll(cs);
      AllHits(lens, cs);
      FewHits(cs, [], MAX_BITS);
    }
  }

  // `p` begins with no code.
  ghost predicate Unmatched(lens: seq<nat>, p: seq<bool>)
    requires LensOk(lens)
  {
    |p| == MAX_BITS && forall s :: 0 <= s < |lens| && lens[s] > 0 ==> !(CodeBits(lens, s) <= p)
  }

  // Some input begins with no code.
  ghost predicate Gap(lens: seq<nat>)
    requires LensOk(lens)
  {
    exists p: seq<bool> {:trigger Unmatched(lens, p)} :: Unmatched(lens, p)
  }

  lemma {:induction false} GapIff(lens: seq<nat>)
    requires Fits(lens)
    ensures Gap(lens) <==> Kraft(lens) < Pow2(MAX_BITS)
  {
    hide Kraft, Pow2, CodeBits, Msb, MsbNum, Pos, Width;
    if Kraft(lens) < Pow2(MAX_BITS) {
      var p := Msb(Kraft(lens), MAX_BITS);
      MsbNumMsb(Kraft(lens), MAX_BITS);
      forall s | 0 <= s < |lens| && lens[s] > 0
        ensures !(CodeBits(lens, s) <= p)
      {
        PosKraft(lens, s);
        PrefixIffInterval(lens, s, p);
      }
      assert Unmatched(lens, p);
    } else {
      forall p: seq<bool> {:trigger Unmatched(lens, p)} | |p| == MAX_BITS
        ensures !Unmatched(lens, p)
      {
        var s := SomeCode(lens, p);
      }
    }
  }

  // No symbol has a code.
  predicate NoCode(lens: seq<nat>) {
    forall s :: 0 <= s < |lens| ==> lens[s] == 0
  }

  // One symbol has a code, of one bit.
  predicate OneBit(lens: seq<nat>) {
    exists s :: 0 <= s < |lens| && lens[s] == 1 && forall t :: 0 <= t < |lens| && t != s ==> lens[t] == 0
  }

  /** The sets of lengths that are turned down, by what their codes do: two codes would have to share a string, or some
      input begins with no code, unless there is no code at all, or just one of a single bit that is no code length code. */
  ghost predicate TurnedDown(kind: CodeType, lens: seq<nat>)
    requires LensOk(lens)
  {
    !NoCode(lens) && (!Separable(lens) || (Gap(lens) && (kind == CODES || !OneBit(lens))))
  }

  lemma {:induction false} NoCodeIff(lens: seq<nat>)
    ensures NoCode(lens) <==> MaxLen(lens) == 0
  {
    hide MaxLen;
    if MaxLen(lens) > 0 {
      var i := MaxLenAttained(lens);
    } else {
      forall s | 0 <= s < |lens|
        ensures lens[s] == 0
      {
        MaxLenBound(lens, s);
      }
    }
  }

  lemma {:induction false} OneIn(lens: seq<nat>, s: nat)
    requires LensOk(lens) && s < |lens| && forall t :: 0 <= t < |lens| && t != s ==> lens[t] == 0
    ensures Kraft(lens) == Width(lens[s])
  {
    var n := |lens| - 1;
    if s < n {
      OneIn(lens[..n], s);
    } else {
      KraftOfUnused(lens[..n]);
    }
  }

  lemma {:induction false} TwoIn(lens: seq<nat>, s: nat, t: nat)
    requires LensOk(lens) && s < t < |lens|
    ensures Kraft(lens) >= Width(lens[s]) + Width(lens[t])
  {
    hide Pow2;
    var n := |lens| - 1;
    if t < n {
      TwoIn(lens[..n], s, t);
    } else {
      OneOf(lens[..n], s);
    }
  }

  lemma {:induction false} OneOf(lens: seq<nat>, s: nat)
    requires LensOk(lens) && s < |lens|
    ensures Kraft(lens) >= Width(lens[s])
  {
    if s < |lens| - 1 {
      OneOf(lens[..|lens| - 1], s);
    }
  }

  // The longest code has one bit, and there is room left: then it is the only one.
  lemma {:induction false} OneBitIff(lens: seq<nat>)
    requires LensOk(lens) && Kraft(lens) < Pow2(MAX_BITS)
    ensures OneBit(lens) <==> MaxLen(lens) == 1
  {
    hide Kraft, MaxLen;
    if MaxLen(lens) == 1 {
      var s := MaxLenAttained(lens);
      forall t | 0 <= t < |lens| && t != s
        ensures lens[t] == 0
      {
        MaxLenBound(lens, t);
        if lens[t] == 1 {
          TwoIn(lens, if s < t then s else t, if s < t then t else s);
        }
      }
    }
    if OneBit(lens) {
      var s :| 0 <= s < |lens| && lens[s] == 1 && forall t :: 0 <= t < |lens| && t != s ==> lens[t] == 0;
      MaxLenBound(lens, s);
      var i := MaxLenAttained(lens);
    }
  }

  /** The test of inflate_table in these terms. */
  lemma {:induction false} RejectedIff(kind: CodeType, lens: seq<nat>)
    requires LensOk(lens)
    ensures Rejected(kind, lens) <==> TurnedDown(kind, lens)
  {
    hide Kraft, Pow2, MaxLen, NoCode, OneBit, Separable, Gap;
    NoCodeIff(lens);
    SeparableIff(lens);
    if Kraft(lens) <= Pow2(MAX_BITS) {
      GapIff(lens);
      if Kraft(lens) < Pow2(MAX_BITS) {
        OneBitIff(lens);
      }
    }
  }
}
