/** The canonical code of the lengths that gen_bitlen leaves (trees.c). */
module TreeCode {
  import opened Bits
  import opened Canonical
  import opened CodeOrder
  import opened CodeBlocks
  import opened GenCodes
  import opened HuffmanBound
  import opened HuffmanForest
  import opened HuffmanInit
  import opened HuffmanTree
  import opened TreeLengths
  import opened LengthRepair
  import opened FirstPass
  import opened PassTotals
  import opened SecondPass
  import opened BitLengths

  // The leaves are the symbols below `n` that have a length.
  ghost predicate LeavesAre(dl: seq<nat>, n: nat, leaves: seq<nat>) {
    && n <= |dl| && Distinct(leaves)
    && (forall i :: 0 <= i < |leaves| ==> leaves[i] < n && dl[leaves[i]] > 0)
    && (forall x :: 0 <= x < n && dl[x] > 0 ==> x in leaves)
  }

  lemma {:induction false} DistinctSame(a: seq<nat>, b: seq<nat>)
    requires Distinct(a) && Distinct(b)
    requires forall x: nat :: x in a <==> x in b
    ensures SameNodes(a, b)
  {
    forall x: nat
      ensures Occurrences(a, x) == Occurrences(b, x)
    {
      DistinctCount(a, x);
      DistinctCount(b, x);
      assert x in a <==> x in b;
    }
    SameOccurrences(a, b);
  }

  lemma {:induction false} LeavesListed(dl: seq<nat>, n: nat, leaves: seq<nat>)
    requires LeavesAre(dl, n, leaves)
    ensures SameNodes(UsedBelow(dl, n), leaves)
  {
    UsedIncreasing(dl, n);
    hide UsedBelow;
    DistinctSame(UsedBelow(dl, n), leaves);
  }

  // The counts of the lengths, symbol by symbol.
  lemma {:induction false} CountIsHist(dl: seq<nat>, n: nat, b: nat)
    requires n <= |dl| && 0 < b < 16
    ensures Count(dl[..n], b) == Hist(UsedBelow(dl, n), dl)[b]
  {
    if n == 0 {
      assert At([], Mark(dl, b)) == [];
    } else {
      CountIsHist(dl, n - 1, b);
      assert dl[..n][..n - 1] == dl[..n - 1];
      var u, g := UsedBelow(dl, n - 1), Mark(dl, b);
      if dl[n - 1] > 0 {
        AtConcat(u, [n - 1], g);
        assert At([n - 1], g) == [g[n - 1]];
        SumOne(g[n - 1]);
      }
    }
  }

  // The room up to a length, from the counts.
  lemma {:induction false} RoomOfCounts(lens: seq<nat>, c: seq<nat>, max: nat, b: nat)
    requires LensOk(lens) && b <= max <= MAX_BITS && |c| == MAX_BITS + 1
    requires forall l :: 0 < l <= MAX_BITS ==> c[l] == Count(lens, l)
    ensures Before(lens, b + 1, 0) == Pow2(MAX_BITS - max) * CountsRoom(c, b, max)
  {
    if b == 0 {
      BeforeSmallest(lens);
    } else {
      RoomOfCounts(lens, c, max, b - 1);
      BeforeLevel(lens, b);
      Pow2Add(MAX_BITS - max, max - b);
      hide Pow2, Before, Count;
      Scaled(Pow2(MAX_BITS - max), CountsRoom(c, b - 1, max), c[b], Pow2(max - b));
    }
  }

  lemma {:induction false} Scaled(u: nat, r: nat, c: nat, w: nat)
    ensures u * (r + c * w) == u * r + c * (u * w)
  {
    assert u * (r + c * w) == u * r + u * (c * w);
    MulAssoc(u, c, w);
    MulAssoc(c, u, w);
  }

  lemma {:induction false} NoneLonger(lens: seq<nat>, max: nat)
    requires LensOk(lens) && max <= MAX_BITS && forall i :: 0 <= i < |lens| ==> lens[i] <= max
    ensures Before(lens, max + 1, 0) == Kraft(lens)
  {
    if lens != [] {
      NoneLonger(lens[..|lens| - 1], max);
    }
  }

  /** The lengths make a complete code, whose counts are at hand. */
  lemma {:induction false} SettledComplete(dl: seq<nat>, n: nat, leaves: seq<nat>, counts: seq<nat>, max: nat)
    requires Settled(dl, leaves, counts, max) && LeavesAre(dl, n, leaves)
    ensures Complete(dl[..n]) && (forall i :: 0 <= i < n ==> dl[i] <= max)
    ensures |counts| == 16 && counts[0] == 0
    ensures forall l :: 0 < l <= MAX_BITS ==> counts[l] == Count(dl[..n], l)
  {
    hide CountsRoom, Pow2, UsedBelow, Count, Kraft, SameNodes, CountsSum, Sum, Mark;
    forall i | 0 <= i < n
      ensures dl[i] <= max
    {
      if dl[i] > 0 {
        assert i in leaves;
      }
    }
    LeavesListed(dl, n, leaves);
    HistContents(UsedBelow(dl, n), leaves, dl);
    forall l | 0 < l <= MAX_BITS
      ensures counts[l] == Count(dl[..n], l)
    {
      CountIsHist(dl, n, l);
    }
    RoomOfHist(leaves, dl, max);
    RoomOfCounts(dl[..n], counts, max, max);
    NoneLonger(dl[..n], max);
    Pow2Add(MAX_BITS - max, max);
  }

  // The bits of all occurrences of the symbols below `n`.
  function TotalBits(d: StaticDesc, freq: seq<nat>, lens: seq<nat>, n: nat): nat
    requires n <= |freq| && n <= |lens|
  {
    if n == 0 then 0 else TotalBits(d, freq, lens, n - 1) + freq[n - 1] * (lens[n - 1] + Extra(d, n - 1))
  }

  // What the static tree takes for them.
  function StaticBits(d: StaticDesc, freq: seq<nat>, n: nat): nat
    requires n <= |freq| && (d.stree == [] || n <= |d.stree|)
  {
    if d.stree == [] then 0 else TotalBits(d, freq, d.stree, n)
  }

  // The sum of the first `n` entries.
  function Total(g: seq<nat>, n: nat): nat
    requires n <= |g|
  {
    if n == 0 then 0 else Total(g, n - 1) + g[n - 1]
  }

  lemma {:induction false} TotalOfUsed(dl: seq<nat>, g: seq<nat>, n: nat)
    requires n <= |dl| == |g| && forall x :: 0 <= x < n && dl[x] == 0 ==> g[x] == 0
    ensures Sum(At(UsedBelow(dl, n), g)) == Total(g, n)
  {
    if n == 0 {
      assert At([], g) == [];
    } else {
      TotalOfUsed(dl, g, n - 1);
      if dl[n - 1] > 0 {
        AtConcat(UsedBelow(dl, n - 1), [n - 1], g);
        assert At([n - 1], g) == [g[n - 1]];
        SumOne(g[n - 1]);
      }
    }
  }

  lemma {:induction false} TotalIsBits(d: StaticDesc, freq: seq<nat>, lens: seq<nat>, g: seq<nat>, n: nat)
    requires n <= |freq| && n <= |lens| && n <= |g|
    requires forall x :: 0 <= x < n ==> g[x] == freq[x] * (lens[x] + Extra(d, x))
    ensures Total(g, n) == TotalBits(d, freq, lens, n)
  {
    if n > 0 {
      TotalIsBits(d, freq, lens, g, n - 1);
    }
  }

  lemma {:induction false} TotalZero(g: seq<nat>, n: nat)
    requires n <= |g| && forall x :: 0 <= x < n ==> g[x] == 0
    ensures Total(g, n) == 0
  {
    if n > 0 {
      TotalZero(g, n - 1);
    }
  }

  lemma {:induction false} CostsOfUsed(d: StaticDesc, freq: seq<nat>, dl: seq<nat>, n: nat)
    requires |freq| == |dl| && n <= |dl| && (forall x :: 0 <= x < n ==> (freq[x] > 0 <==> dl[x] > 0))
    requires d.stree == [] || n <= |d.stree|
    ensures Sum(At(UsedBelow(dl, n), Costs(d, freq, dl))) == TotalBits(d, freq, dl, n)
    ensures Sum(At(UsedBelow(dl, n), StaticCosts(d, freq))) == StaticBits(d, freq, n)
  {
    hide Sum, At, UsedBelow, TotalBits, Total;
    TotalOfUsed(dl, Costs(d, freq, dl), n);
    TotalIsBits(d, freq, dl, Costs(d, freq, dl), n);
    TotalOfUsed(dl, StaticCosts(d, freq), n);
    if d.stree == [] {
      TotalZero(StaticCosts(d, freq), n);
    } else {
      TotalIsBits(d, freq, d.stree, StaticCosts(d, freq), n);
    }
  }

  // A symbol counted once that did not occur adds its own bits.
  lemma {:induction false} CountedBits(d: StaticDesc, freq: seq<nat>, lens: seq<nat>, n: nat, x: nat)
    requires n <= |freq| && n <= |lens| && x < |freq| && x < |lens| && freq[x] == 0
    ensures TotalBits(d, freq[x := 1], lens, n) == TotalBits(d, freq, lens, n) + if x < n then lens[x] + Extra(d, x) else 0
  {
    if n > 0 {
      CountedBits(d, freq, lens, n - 1, x);
    }
  }
}
