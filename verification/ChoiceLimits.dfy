/** Two inputs for which _tr_flush_block (trees.c) does not take the shortest block.

Both are runs of literals, and hold for every header that the trees built for them can have. */
module ChoiceLimits {
  import opened Bits
  import opened Canonical
  import opened FixedCodes
  import opened Tokens
  import opened Symbols
  import opened BlockMachine
  import opened BlockHeader
  import opened BlockData
  import opened Blocks
  import opened CodeCounts
  import opened CodeRuns
  import HuffmanForest
  import SecondPass
  import TreeHeight
  import opened HuffmanInit
  import opened FirstPass
  import opened TreeCode
  import opened BuildTree
  import opened Tally
  import opened HeaderCost
  import opened BlTree
  import opened BlockChoice
  import opened FlushBlock

  // The bytes `xs`, all sent as literals.
  function Letters(xs: seq<nat>): (ts: seq<Token>)
    ensures |ts| == |xs|
  {
    seq(|xs|, i requires 0 <= i < |xs| => Literal(xs[i]))
  }

  lemma {:induction false} LettersFront(xs: seq<nat>)
    requires xs != []
    ensures Letters(xs)[..|xs| - 1] == Letters(xs[..|xs| - 1]) && Letters(xs)[|xs| - 1] == Literal(xs[|xs| - 1])
  {
  }

  // Each byte is counted as often as it stands in `xs`.
  lemma {:induction false} LettersUses(xs: seq<nat>, x: nat)
    requires (forall i :: 0 <= i < |xs| ==> xs[i] < 256) && x < L_CODES
    ensures LitUses(Letters(xs))[x] == multiset(xs)[x]
  {
    if xs != [] {
      var n := |xs| - 1;
      LettersUses(xs[..n], x);
      LettersFront(xs);
      assert xs == xs[..n] + [xs[n]];
    }
  }

  lemma {:induction false} LettersDist(xs: seq<nat>)
    ensures DistUses(Letters(xs)) == seq(D_CODES, _ => 0)
  {
    if xs != [] {
      LettersDist(xs[..|xs| - 1]);
      LettersFront(xs);
    }
  }

  // Literals that all have codes of `w` bits.
  lemma {:induction false} LettersBits(c: Codes, xs: seq<nat>, w: nat)
    requires EncodesAll(c, Letters(xs)) && forall i :: 0 <= i < |xs| ==> xs[i] < |c.lit| && c.lit[xs[i]] == w
    ensures |TokensBits(c, Letters(xs))| == w * |xs|
  {
    hide CodeBits, LensOk;
    if xs != [] {
      var n := |xs| - 1;
      LettersFront(xs);
      assert Letters(xs)[n] == Literal(xs[n]) && Encodes(c, Letters(xs)[n]);
      assert forall i :: 0 <= i < n ==> Letters(xs[..n])[i] == Letters(xs)[i];
      LettersBits(c, xs[..n], w);
      assert |TokenBits(c, Literal(xs[n]))| == w;
      OneMoreCode(w, n);
    }
  }

  lemma {:induction false} OneMoreCode(w: nat, n: nat)
    ensures w * (n + 1) == w * n + w
  {
  }

  lemma {:induction false} FixedLengths(x: nat)
    requires x < 257
    ensures FixedLit()[x] == if x < 144 then 8 else if x < 256 then 9 else 7
  {
  }

  // With the static trees.
  lemma {:induction false} FixedBytes(xs: seq<nat>, w: nat)
    requires BlockOk(FixedBlock(Letters(xs))) && forall i :: 0 <= i < |xs| ==> xs[i] < 256 && FixedLit()[xs[i]] == w
    ensures CodedBytes(FixedBlock(Letters(xs))) == (w * |xs| + 17) / 8
    ensures forall pos: nat :: BytesWith(FixedBlock(Letters(xs)), pos) == (pos + w * |xs| + 17) / 8
  {
    hide FixedLit, CodeBits, TypeBits, LensOk;
    var c := FixedBlockCodes(false);
    LettersBits(c, xs, w);
    FixedLengths(END_BLOCK);
    assert |BlockBits(c, Letters(xs))| == w * |xs| + 7;
    FixedString(Letters(xs));
    forall pos: nat
      ensures BytesWith(FixedBlock(Letters(xs)), pos) == (pos + w * |xs| + 17) / 8
    {
      CodedLength(FixedBlock(Letters(xs)), false, pos);
    }
  }

  lemma {:induction false} FixedString(ts: seq<Token>)
    requires BlockOk(FixedBlock(ts))
    ensures |BlockString(FixedBlock(ts), false, 0)| == 3 + |BlockBits(FixedBlockCodes(false), ts)|
  {
    hide BlockBits, TypeBits, FixedLit;
  }

  lemma {:induction false} DynString(h: Header, ts: seq<Token>)
    requires BlockOk(DynBlock(h, ts))
    ensures |BlockString(DynBlock(h, ts), false, 0)| == 3 + |HeaderBits(h)| + |BlockBits(Codes(false, h.lit, h.dist), ts)|
  {
    hide BlockBits, TypeBits, HeaderBits, HeaderOk;
  }

  lemma {:induction false} KraftMore(lens: seq<nat>, n: nat)
    requires LensOk(lens) && n < |lens|
    ensures Kraft(lens[..n + 1]) == Kraft(lens[..n]) + Width(lens[n]) && Kraft(lens[..0]) == 0
  {
    assert lens[..n + 1][..n] == lens[..n];
  }

  // Only two symbols have codes.
  lemma {:induction false} TwoWidths(lens: seq<nat>, a: nat, b: nat, n: nat)
    requires LensOk(lens) && a < b && n <= |lens| && forall x :: 0 <= x < n && x != a && x != b ==> lens[x] == 0
    ensures Kraft(lens[..n]) == (if a < n then Width(lens[a]) else 0) + if b < n then Width(lens[b]) else 0
  {
    hide Pow2, Kraft;
    if n > 0 {
      TwoWidths(lens, a, b, n - 1);
      KraftMore(lens, n - 1);
    } else {
      assert Kraft(lens[..0]) == 0 by { NoKraft(lens); }
    }
  }

  lemma {:induction false} NoKraft(lens: seq<nat>)
    requires LensOk(lens)
    ensures Kraft(lens[..0]) == 0
  {
  }

  /** Two codes that fill the space have one bit each. */
  lemma {:induction false} TwoCodes(lens: seq<nat>, a: nat, b: nat)
    requires Complete(lens) && a < b < |lens| && forall x :: 0 <= x < |lens| ==> (lens[x] > 0 <==> x == a || x == b)
    ensures lens[a] == 1 && lens[b] == 1
  {
    hide Pow2, Kraft;
    TwoWidths(lens, a, b, |lens|);
    assert lens[..|lens|] == lens;
    if lens[a] > 1 {
      Pow2Strict(MAX_BITS - lens[a], 14);
    }
    if lens[b] > 1 {
      Pow2Strict(MAX_BITS - lens[b], 14);
    }
    Pow2Mono(MAX_BITS - lens[a], 14);
    Pow2Mono(MAX_BITS - lens[b], 14);
    Pow2Strict(14, 15);
  }

  lemma {:induction false} EnoughUsed(f: seq<nat>, n: nat, a: nat, b: nat)
    requires n <= |f| && a < b < n && f[a] > 0 && f[b] > 0
    ensures Forced(UsedBelow(f, n)) == [] && Counted(f, []) == f
  {
    UsedIncreasing(f, n);
    var u := UsedBelow(f, n);
    var i :| 0 <= i < |u| && u[i] == a;
    var j :| 0 <= j < |u| && u[j] == b;
  }

  lemma {:induction false} NoneOf(f: seq<nat>, n: nat)
    requires n <= |f| && forall x :: 0 <= x < n ==> f[x] == 0
    ensures UsedBelow(f, n) == []
  {
    if n > 0 {
      NoneOf(f, n - 1);
    }
  }

  // Without matches, the distance code consists of two codes of one bit.
  lemma {:induction false} NoDistances(h: Header, xs: seq<nat>)
    requires MadeFor(h, Letters(xs)) && Complete(h.dist)
    ensures h.dist == [1, 1]
  {
    hide BuiltCode, Tight, LitFreq, Complete, FixedLit, Repeat;
    LettersDist(xs);
    OnlyForced(DistUses(Letters(xs)), Padded(h.dist, D_CODES));
    assert forall x :: 0 <= x < |h.dist| ==> h.dist[x] == Padded(h.dist, D_CODES)[x];
    assert Padded(h.dist, D_CODES)[1] > 0;
    TwoCodes(h.dist, 0, 1);
  }

  lemma {:induction false} OnlyForced(f: seq<nat>, lens: seq<nat>)
    requires BuiltCode(DistDesc(), f, lens) && |f| == D_CODES && forall x :: 0 <= x < D_CODES ==> f[x] == 0
    ensures forall x :: 0 <= x < D_CODES ==> (lens[x] > 0 <==> x == 0 || x == 1)
  {
    hide UsedBelow, SecondPass.Fair, TreeHeight.Optimal, TreeHeight.FitsLimit, Repeat;
    NoneOf(f, D_CODES);
  }

  // With two symbols or more in use, those and no others have codes.
  lemma {:induction false} UsedCodes(h: Header, xs: seq<nat>, a: nat)
    requires MadeFor(h, Letters(xs)) && a in xs && forall i :: 0 <= i < |xs| ==> xs[i] < 256
    ensures |h.lit| == 257 && forall x :: 0 <= x < |h.lit| ==> (h.lit[x] > 0 <==> x in xs || x == END_BLOCK)
  {
    hide BuiltCode, Tight, LitUses, DistUses, FixedLit, Repeat;
    var f, p := LitFreq(Letters(xs)), Padded(h.lit, L_CODES);
    forall x | 0 <= x < L_CODES
      ensures f[x] > 0 <==> x in xs || x == END_BLOCK
    {
      LettersUses(xs, x);
    }
    PlainCode(f, p, a, END_BLOCK);
    assert p[END_BLOCK] > 0;
    assert forall x :: 0 <= x < |h.lit| ==> h.lit[x] == p[x];
  }

  lemma {:induction false} PlainCode(f: seq<nat>, lens: seq<nat>, a: nat, b: nat)
    requires BuiltCode(LitDesc(), f, lens) && |f| == L_CODES && a < b < L_CODES && f[a] > 0 && f[b] > 0
    ensures forall x :: 0 <= x < L_CODES ==> (lens[x] > 0 <==> f[x] > 0)
  {
    hide UsedBelow, SecondPass.Fair, TreeHeight.Optimal, TreeHeight.FitsLimit, FixedLit;
    EnoughUsed(f, L_CODES, a, b);
  }

  lemma {:induction false} HeaderLength(h: Header)
    requires HeaderOk(h)
    ensures |HeaderBits(h)| == 14 + 3 * h.blcodes + |AllRunBits(h.cl, RunCodes(h.lit, 0, -1))| + |AllRunBits(h.cl, RunCodes(h.dist, 0, -1))|
  {
    hide RunCodes, AllRunBits, Sendable;
    ThreeBitsLength(Ordered(h.cl, h.blcodes));
  }

  // One bit at least for every run code, and 14 at most.
  lemma {:induction false} RunsWidth(cl: seq<nat>, rs: seq<RunCode>)
    requires Sendable(cl, rs) && forall s :: 0 <= s < |cl| ==> cl[s] < 8
    ensures |rs| <= |AllRunBits(cl, rs)| <= 14 * |rs|
  {
    hide CodeBits;
    if rs != [] {
      RunsWidth(cl, rs[1..]);
    }
  }

  lemma {:induction false} RunWidths(h: Header)
    requires HeaderOk(h)
    ensures |RunCodes(h.lit, 0, -1)| <= |AllRunBits(h.cl, RunCodes(h.lit, 0, -1))| <= 14 * |h.lit|
    ensures |RunCodes(h.dist, 0, -1)| <= |AllRunBits(h.cl, RunCodes(h.dist, 0, -1))| <= 14 * |h.dist|
  {
    hide RunCodes, AllRunBits, Sendable, Proper;
    RunsWidth(h.cl, RunCodes(h.lit, 0, -1));
    RunsWidth(h.cl, RunCodes(h.dist, 0, -1));
    RunsProper(h.lit, 0, -1);
    RunsProper(h.dist, 0, -1);
  }

  lemma {:induction false} MadeComplete(h: Header, ts: seq<Token>)
    requires MadeFor(h, ts)
    ensures Complete(h.lit) && Complete(h.dist)
  {
    hide BuiltCode, Tight, Complete;
  }

  // A thousand zeros.
  function ManyZeros(): (xs: seq<nat>)
    ensures |xs| == 1000 && forall i :: 0 <= i < |xs| ==> xs[i] == 0
  {
    seq(1000, _ => 0)
  }

  lemma {:induction false} ZerosDyn(h: Header)
    requires MadeFor(h, Letters(ManyZeros())) && Built(DynBlock(h, Letters(ManyZeros()))) && BlockOk(DynBlock(h, Letters(ManyZeros())))
    ensures CodedBytes(DynBlock(h, Letters(ManyZeros()))) <= 700
  {
    hide BuiltCode, Tight, Complete, Usable, RunCodes, AllRunBits, Sendable, HeaderBits, ManyZeros, MadeFor, BlockString, TokensBits, Letters;
    var xs := ManyZeros();
    var ts, c := Letters(xs), Codes(false, h.lit, h.dist);
    assert xs[0] in xs;
    UsedCodes(h, xs, 0);
    MadeComplete(h, ts);
    TwoCodes(h.lit, 0, END_BLOCK);
    LettersBits(c, xs, 1);
    assert |BlockBits(c, ts)| == 1001 by { hide CodeBits; }
    hide BlockBits;
    NoDistances(h, xs);
    HeaderLength(h);
    RunWidths(h);
    DynString(h, ts);
  }

  /** A strategy of static trees only is not shortest even for a thousand zeros. */
  lemma {:induction false} StaticNotShortest(b: Block, h: Header)
    requires var ts := Letters(ManyZeros());
             Chosen(b, h, ts, Some(ManyZeros()), 1000, true) && MadeFor(h, ts) && Built(DynBlock(h, ts))
    ensures var ts := Letters(ManyZeros());
            b == FixedBlock(ts) && BlockOk(DynBlock(h, ts)) && BlockOk(b)
            && BytesWith(DynBlock(h, ts), 0) + 300 <= BytesWith(b, 0)
  {
    hide BlockOk, BlockString, MadeFor, Built, ManyZeros, CodedBytes, BytesWith, Letters;
    ZerosDyn(h);
    FixedLengths(0);
    hide FixedLit;
    FixedBytes(ManyZeros(), 8);
    CodedAt(DynBlock(h, Letters(ManyZeros())), 0);
  }

  // Fifteen bytes, every other one from 144 on.
  function EveryOther(): (xs: seq<nat>)
    ensures |xs| == 15 && forall i :: 0 <= i < |xs| ==> xs[i] == 144 + 2 * i
  {
    seq(15, i requires 0 <= i < 15 => 144 + 2 * i)
  }

  // Positions `ps` where the lengths change belong to different run codes.
  lemma {:induction false} ManyRuns(lens: seq<nat>, i: nat, prev: int, p: nat, k: nat)
    requires i <= p && p + k <= |lens| && forall j :: p <= j < p + k - 1 ==> lens[j] != lens[j + 1]
    ensures |RunCodes(lens, i, prev)| >= k
    decreases |lens| - i
  {
    if k > 0 {
      var c := GroupAt(lens, i, prev);
      assert |Group(prev, lens[i], c)| >= 1;
      if i + c <= p {
        ManyRuns(lens, i + c, lens[i], p, k);
      } else {
        assert k > 1 ==> lens[p] != lens[p + 1];
        assert k > 1 ==> i + c <= p + 1;
        ManyRuns(lens, i + c, lens[i], i + c, if k > 0 && i + c == p + 1 then k - 1 else 0);
      }
    }
  }

  // Sixteen codes that fit have four bits on average.
  lemma {:induction false} OneWidth(l: nat)
    requires 0 < l <= MAX_BITS
    ensures 2048 * l + Width(l) >= 5 * 2048
  {
    assert Pow2(11) == 2048 && Pow2(12) == 4096 && Pow2(13) == 8192 && Pow2(14) == 16384;
  }

  lemma {:induction false} SomeWidth(d: StaticDesc, f: seq<nat>, lens: seq<nat>, n: nat)
    requires LensOk(lens) && n <= |lens| && n <= |f|
    requires forall x :: 0 <= x < n ==> f[x] <= 1 && (f[x] == 1 ==> lens[x] > 0)
    ensures 2048 * TotalBits(d, f, lens, n) + Kraft(lens[..n]) >= 5 * 2048 * Total(f, n)
  {
    hide Pow2, Kraft, Extra, Width;
    if n > 0 {
      SomeWidth(d, f, lens, n - 1);
      KraftMore(lens, n - 1);
      if f[n - 1] == 1 {
        OneWidth(lens[n - 1]);
      }
    } else {
      NoKraft(lens);
    }
  }

  // Each symbol occurs once.
  lemma {:induction false} EveryOnce(xs: seq<nat>)
    requires xs == EveryOther()
    ensures Total(LitFreq(Letters(xs)), L_CODES) == 16
    ensures forall x :: 0 <= x < L_CODES ==> LitFreq(Letters(xs))[x] <= 1 && (LitFreq(Letters(xs))[x] == 1 <==> x in xs || x == END_BLOCK)
  {
    hide LitUses, Total, EveryOther, Letters;
    LettersInRange(xs);
    UsesTotals(Letters(xs));
    TotalMore(LitUses(Letters(xs)), L_CODES, END_BLOCK);
    forall x | 0 <= x < L_CODES
      ensures LitFreq(Letters(xs))[x] <= 1 && (LitFreq(Letters(xs))[x] == 1 <==> x in xs || x == END_BLOCK)
    {
      LettersUses(xs, x);
      HuffmanForest.DistinctCount(xs, x);
    }
  }

  lemma {:induction false} LettersInRange(xs: seq<nat>)
    requires forall i :: 0 <= i < |xs| ==> xs[i] < 256
    ensures forall i :: 0 <= i < |Letters(xs)| ==> InRange(Letters(xs)[i])
  {
  }

  lemma {:induction false} PaddedKraft(lens: seq<nat>, n: nat)
    requires Complete(lens) && |lens| <= n
    ensures LensOk(Padded(lens, n)) && LensOk(Padded(lens, n)[..n]) && Kraft(Padded(lens, n)[..n]) == Pow2(MAX_BITS)
  {
    hide Pow2, Kraft;
    var p := Padded(lens, n);
    assert LensOk(p) && p[..|lens|] == lens && p[..n] == p;
    ZerosAfter(p, |lens|);
  }

  // Sixteen codes take 64 bits or more.
  lemma {:induction false} EveryOtherData(h: Header)
    requires MadeFor(h, Letters(EveryOther())) && Complete(h.lit) && Complete(h.dist)
    requires EncodesAll(Codes(false, h.lit, h.dist), Letters(EveryOther()))
    ensures |BlockBits(Codes(false, h.lit, h.dist), Letters(EveryOther()))| >= 64
  {
    hide BuiltCode, Tight, EveryOther, MadeFor, TotalBits, LitFreq, DistUses, Kraft, LensOk, Letters, Total, BlockBits, Encodes;
    var xs := EveryOther();
    var ts, c := Letters(xs), Codes(false, h.lit, h.dist);
    assert xs[0] in xs;
    UsedCodes(h, xs, 144);
    NoDistances(h, xs);
    var lit, dist, f := Padded(h.lit, L_CODES), Padded(h.dist, D_CODES), LitFreq(ts);
    EveryOnce(xs);
    PaddedKraft(h.lit, L_CODES);
    SomeWidth(LitDesc(), f, lit, L_CODES);
    BlockCost(c, ts, lit, dist);
    assert Pow2(15) == 32768 by { Pow2Values(); }
  }

  // The length 1 is sent last but one.
  lemma {:induction false} OnesSent(h: Header)
    requires HeaderOk(h) && h.dist == [1, 1]
    ensures h.blcodes >= 18
  {
    var rs := RunCodes(h.dist, 0, -1);
    assert rs[0] == RunCode(1, 1);
    assert ORDER[17] == 1;
  }

  lemma {:induction false} EveryOtherRuns(h: Header)
    requires MadeFor(h, Letters(EveryOther()))
    ensures |RunCodes(h.lit, 0, -1)| >= 10
  {
    hide MadeFor, RunCodes, EveryOther, Letters;
    var xs := EveryOther();
    assert xs[0] in xs;
    UsedCodes(h, xs, 144);
    forall j | 144 <= j < 153
      ensures h.lit[j] != h.lit[j + 1]
    {
      assert forall x :: x in xs ==> x % 2 == 0;
      assert xs[(j - 143) / 2] in xs;
    }
    ManyRuns(h.lit, 0, -1, 144, 10);
  }

  lemma {:induction false} EveryOtherDyn(h: Header)
    requires MadeFor(h, Letters(EveryOther())) && Built(DynBlock(h, Letters(EveryOther()))) && BlockOk(DynBlock(h, Letters(EveryOther())))
    ensures CodedBytes(DynBlock(h, Letters(EveryOther()))) >= 19
  {
    hide Complete, Usable, RunCodes, AllRunBits, Sendable, HeaderBits, EveryOther, MadeFor, BlockString, BlockBits, Letters;
    var xs := EveryOther();
    MadeComplete(h, Letters(xs));
    EveryOtherData(h);
    EveryOtherRuns(h);
    NoDistances(h, xs);
    OnesSent(h);
    HeaderLength(h);
    RunWidths(h);
    DynString(h, Letters(xs));
  }

  /** Fifteen bytes are stored at a byte boundary although the static trees would take a byte less, and two bytes less
      where two bits of a byte are left. */
  lemma {:induction false} StoredNotShortest(b: Block, h: Header)
    requires var ts := Letters(EveryOther());
             Chosen(b, h, ts, Some(EveryOther()), 15, false) && MadeFor(h, ts) && Built(DynBlock(h, ts))
    ensures var ts := Letters(EveryOther());
            b == StoredBlock(EveryOther()) && BlockOk(FixedBlock(ts)) && BlockOk(b)
            && BytesWith(FixedBlock(ts), 0) == 19 && BytesWith(b, 0) == 20
            && BytesWith(FixedBlock(ts), 6) == 19 && BytesWith(b, 6) == 21
  {
    hide BlockString, MadeFor, Built, EveryOther, CodedBytes, BytesWith, Letters;
    var xs := EveryOther();
    EveryOtherDyn(h);
    forall i | 0 <= i < |xs|
      ensures xs[i] < 256 && FixedLit()[xs[i]] == 9
    {
      FixedLengths(xs[i]);
    }
    assert BlockOk(StoredBlock(xs));
    hide FixedLit, BlockOk;
    FixedBytes(xs, 9);
    StoredBytes(xs, 0);
    StoredBytes(xs, 6);
  }
}
