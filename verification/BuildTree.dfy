/** build_tree (trees.c): one Huffman code from frequencies. */
module BuildTree {
  import opened Bits
  import opened Canonical
  import opened GenCodes
  import opened HuffmanBound
  import opened HuffmanForest
  import opened Heap
  import opened HuffmanMerge
  import opened HuffmanInit
  import opened HuffmanTree
  import opened TreeLengths
  import opened LengthRepair
  import opened FirstPass
  import opened TreeHeight
  import opened PassTotals
  import opened SecondPass
  import opened BitLengths
  import opened TreeCode

  // The frequencies of the symbols as they are counted for the tree.
  function CountedFreq(f: seq<nat>, elems: nat): seq<nat>
    requires 3 <= elems <= |f|
  {
    Counted(f, Forced(UsedBelow(f, elems)))
  }

  // What a caller must keep to: the frequencies fit 16 bits even when all are added up.
  predicate FreqOk(f: seq<nat>, elems: nat) {
    3 <= elems <= |f| && 2 * elems <= |f| + 1 && Total(f, elems) + 2 < 0x10000
  }

  /** `lens` are the lengths of a code built for the frequencies `f`: within the limit, for just the symbols that
      are counted, and cheap: a less frequent symbol never has the shorter code, and no prefix code is shorter in
      total exactly if some shortest one is within the limit, as it is whenever no length reaches the limit. */
  ghost predicate BuiltCode(d: StaticDesc, f: seq<nat>, lens: seq<nat>) {
    && 3 <= d.elems <= |f| == |lens|
    && (forall x :: 0 <= x < d.elems ==> lens[x] <= d.max_length)
    && (forall x :: 0 <= x < d.elems ==> (lens[x] > 0 <==> CountedFreq(f, d.elems)[x] > 0))
    && Fair(CountedFreq(f, d.elems), lens, Leaves(f, d.elems))
    && (Optimal(CountedFreq(f, d.elems), lens, Leaves(f, d.elems)) <==>
        FitsLimit(CountedFreq(f, d.elems), Leaves(f, d.elems), d.max_length))
    && ((forall x :: 0 <= x < d.elems ==> lens[x] < d.max_length) ==>
          Optimal(CountedFreq(f, d.elems), lens, Leaves(f, d.elems)))
  }

  /** The code built for the frequencies `f`, which fills the code space. */
  ghost predicate TreeDone(d: StaticDesc, f: seq<nat>, codes: seq<nat>, lens: seq<nat>, n: nat) {
    && DescOk(d) && FreqOk(f, d.elems) && 0 < n <= d.elems <= |lens| && lens[n - 1] > 0
    && Holds(lens[..n], codes, lens) && Complete(lens[..n])
    && (forall x :: n <= x < d.elems ==> lens[x] == 0)
    && (forall x :: 0 <= x < d.elems ==> lens[x] <= d.max_length)
    && (forall x :: 0 <= x < d.elems && f[x] > 0 ==> lens[x] > 0)
    && BuiltCode(d, f, lens)
  }

  lemma {:induction false} SameUsed(f: seq<nat>, g: seq<nat>, n: nat)
    requires n <= |f| && n <= |g| && forall x :: 0 <= x < n ==> f[x] == g[x]
    ensures UsedBelow(f, n) == UsedBelow(g, n)
  {
    if n > 0 {
      SameUsed(f, g, n - 1);
    }
  }

  /** Only the symbols matter. */
  lemma {:induction false} SameCode(d: StaticDesc, f: seq<nat>, lens: seq<nat>, f1: seq<nat>, lens1: seq<nat>)
    requires BuiltCode(d, f, lens) && d.elems <= |f1| == |lens1|
    requires forall x :: 0 <= x < d.elems ==> f1[x] == f[x] && lens1[x] == lens[x]
    ensures BuiltCode(d, f1, lens1)
  {
    hide UsedBelow, Forced, LowerBound, PrefixCode, Dot;
    var n := d.elems;
    SameUsed(f, f1, n);
    LeavesFacts(f, n);
    var l := Leaves(f, n);
    assert At(l, CountedFreq(f, n)) == At(l, CountedFreq(f1, n)) && At(l, lens) == At(l, lens1);
  }

  lemma {:induction false} TotalOfCounted(f: seq<nat>, n: nat, x: nat)
    requires n <= |f| && x < |f| && f[x] == 0
    ensures Total(f[x := 1], n) == Total(f, n) + if x < n then 1 else 0
  {
    if n > 0 {
      TotalOfCounted(f, n - 1, x);
    }
  }

  lemma {:induction false} SameTotal(f: seq<nat>, g: seq<nat>, n: nat)
    requires n <= |f| && n <= |g| && forall x :: 0 <= x < n ==> f[x] == g[x]
    ensures Total(f, n) == Total(g, n)
  {
    if n > 0 {
      SameTotal(f, g, n - 1);
    }
  }

  lemma {:induction false} SameBits(d: StaticDesc, f: seq<nat>, g: seq<nat>, lens: seq<nat>, n: nat)
    requires n <= |f| && n <= |g| && n <= |lens| && forall x :: 0 <= x < n ==> f[x] == g[x]
    ensures TotalBits(d, f, lens, n) == TotalBits(d, g, lens, n)
  {
    if n > 0 {
      SameBits(d, f, g, lens, n - 1);
    }
  }

  // Symbols `xs` that did not occur, counted one by one.
  lemma {:induction false} ForcedTotals(d: StaticDesc, f: seq<nat>, lens: seq<nat>, xs: seq<nat>, n: nat)
    requires n <= |f| && n <= |lens| && Distinct(xs)
    requires forall i :: 0 <= i < |xs| ==> xs[i] < n && xs[i] < 3 && f[xs[i]] == 0
    requires forall x :: 0 <= x < 3 ==> Extra(d, x) == 0
    ensures Total(Counted(f, xs), n) == Total(f, n) + |xs|
    ensures TotalBits(d, Counted(f, xs), lens, n) == TotalBits(d, f, lens, n) + Sum(At(xs, lens))
  {
    if xs == [] {
      NoneForced(f, []);
      assert At(xs, lens) == [];
    } else {
      var k := |xs| - 1;
      var front, x := xs[..k], xs[k];
      assert front + [x] == xs;
      ForcedTotals(d, f, lens, front, n);
      CountedMore(f, front, x);
      NotCounted(f, front, x);
      TotalOfCounted(Counted(f, front), n, x);
      CountedBits(d, Counted(f, front), lens, n, x);
      AtConcat(front, [x], lens);
      assert At([x], lens) == [lens[x]];
      SumOne(lens[x]);
    }
  }

  lemma {:induction false} NotCounted(f: seq<nat>, xs: seq<nat>, x: nat)
    requires x < |f| && (forall i :: 0 <= i < |xs| ==> xs[i] < |f|) && Distinct(xs + [x])
    ensures Counted(f, xs)[x] == f[x]
  {
    forall i | 0 <= i < |xs|
      ensures xs[i] != x
    {
      assert (xs + [x])[i] == xs[i] && (xs + [x])[|xs|] == x;
    }
  }

  lemma {:induction false} ForcedFacts(f: seq<nat>, elems: nat)
    requires 3 <= elems <= |f|
    ensures var xs := Forced(UsedBelow(f, elems));
            Distinct(xs) && forall i :: 0 <= i < |xs| ==> xs[i] < 3 && f[xs[i]] == 0
    ensures Forced(UsedBelow(f, elems)) != [] ==> |Leaves(f, elems)| == 2
  {
    UsedIncreasing(f, elems);
  }

  // Two codes alone have one bit each.
  lemma {:induction false} TwoLeaves(dl: seq<nat>, leaves: seq<nat>, counts: seq<nat>, max: nat)
    requires Settled(dl, leaves, counts, max) && |leaves| == 2
    ensures dl[leaves[0]] == 1 && dl[leaves[1]] == 1
  {
    var a, b := dl[leaves[0]], dl[leaves[1]];
    RoomOfHist(leaves, dl, max);
    assert leaves == [leaves[0], leaves[1]];
    PairSum(leaves[0], leaves[1], Weight(dl, max));
    hide CountsRoom, CountsSum, Hist, Sum;
    assert Pow2(max - a) + Pow2(max - b) == Pow2(max);
    hide Pow2;
    assert Pow2(max) == 2 * Pow2(max - 1) by { Doubles(max); }
    if a > 1 {
      Pow2Strict(max - a, max - 1);
      Pow2Mono(max - b, max - 1);
    }
    if b > 1 {
      Pow2Strict(max - b, max - 1);
    }
  }

  lemma {:induction false} Doubles(n: nat)
    requires n > 0
    ensures Pow2(n) == 2 * Pow2(n - 1)
  {
  }

  lemma {:induction false} FreqParts(f: seq<nat>, elems: nat)
    requires FreqOk(f, elems)
    ensures 3 <= elems <= |f| && 2 * elems <= |f| + 1
  {
  }

  /** The symbols with their counted frequencies are ready to be merged. */
  lemma {:induction false} CountedReady(d: StaticDesc, f: seq<nat>)
    requires DescOk(d) && FreqOk(f, d.elems)
    ensures Ready(CountedFreq(f, d.elems), d.elems, Leaves(f, d.elems))
    ensures LeavesAre(CountedFreq(f, d.elems), d.elems, Leaves(f, d.elems))
  {
    hide Sum, Total, Counted, Forced, UsedBelow, Leaves;
    var xs, l, f1 := Forced(UsedBelow(f, d.elems)), Leaves(f, d.elems), CountedFreq(f, d.elems);
    ForcedFacts(f, d.elems);
    LeavesFacts(f, d.elems);
    ForcedTotals(d, f, f, xs, d.elems);
    LeavesListed(f1, d.elems, l);
    TotalOfUsed(f1, f1, d.elems);
    AtContents(UsedBelow(f1, d.elems), l, f1);
  }

  /** The lengths of the leaves are the only ones. */
  lemma {:induction false} OnlyLeaves(d: StaticDesc, f: seq<nat>, f1: seq<nat>, f2: seq<nat>, dl1: seq<nat>, dl2: seq<nat>, dl3: seq<nat>,
                                      leaves: seq<nat>, counts: seq<nat>, n: nat)
    requires DescOk(d) && LeavesAre(f1, d.elems, leaves) && Cleared(f, dl1, d.elems)
    requires |f1| == |f| && forall x :: 0 <= x < d.elems && f1[x] == 0 ==> f[x] == 0
    requires Untouched(f1, dl1, f2, dl2, d.elems, leaves) && OthersKept(dl2, dl3, d.elems, leaves)
    requires Settled(dl3, leaves, counts, d.max_length)
    requires 0 < n <= d.elems && n - 1 in leaves && forall i :: 0 <= i < |leaves| ==> leaves[i] < n
    ensures LeavesAre(dl3, n, leaves) && LeavesAre(dl3, d.elems, leaves)
    ensures dl3[n - 1] > 0 && forall x :: n <= x < d.elems ==> dl3[x] == 0
    ensures |f2| == |f1| && forall x :: 0 <= x < d.elems ==> f2[x] == f1[x] && (f2[x] > 0 <==> dl3[x] > 0)
  {
    hide CountsRoom, Hist, DescOk;
    forall x | 0 <= x < d.elems
      ensures dl3[x] > 0 <==> x in leaves
    {
      if x in leaves {
        var i :| 0 <= i < |leaves| && leaves[i] == x;
      }
    }
  }

  /** What the costs are in terms of the frequencies before counting. */
  lemma {:induction false} CostsBack(d: StaticDesc, f: seq<nat>, f2: seq<nat>, dl: seq<nat>, leaves: seq<nat>, counts: seq<nat>)
    requires DescOk(d) && FreqOk(f, d.elems) && |f2| == |dl| == |f| && leaves == Leaves(f, d.elems)
    requires LeavesAre(dl, d.elems, leaves) && Settled(dl, leaves, counts, d.max_length)
    requires forall x :: 0 <= x < d.elems ==> f2[x] == CountedFreq(f, d.elems)[x] && (f2[x] > 0 <==> dl[x] > 0)
    ensures var xs := Forced(UsedBelow(f, d.elems));
            && Sum(At(leaves, Costs(d, f2, dl))) - |xs| == TotalBits(d, f, dl, d.elems)
            && Sum(At(leaves, StaticCosts(d, f2))) - StaticLens(d.stree, xs) == StaticBits(d, f, d.elems)
  {
    hide Sum, Counted, Forced, UsedBelow, Leaves, Settled, TotalBits;
    var xs, f1 := Forced(UsedBelow(f, d.elems)), CountedFreq(f, d.elems);
    ForcedFacts(f, d.elems);
    LeavesListed(dl, d.elems, leaves);
    CostsOfUsed(d, f2, dl, d.elems);
    AtContents(UsedBelow(dl, d.elems), leaves, Costs(d, f2, dl));
    AtContents(UsedBelow(dl, d.elems), leaves, StaticCosts(d, f2));
    SameBits(d, f2, f1, dl, d.elems);
    ForcedTotals(d, f, dl, xs, d.elems);
    ForcedLengths(f, d.elems, dl, leaves, counts, d.max_length);
    if d.stree != [] {
      SameBits(d, f2, f1, d.stree, d.elems);
      ForcedTotals(d, f, d.stree, xs, d.elems);
    }
  }

  lemma {:induction false} ForcedLengths(f: seq<nat>, elems: nat, dl: seq<nat>, leaves: seq<nat>, counts: seq<nat>, max: nat)
    requires 3 <= elems <= |f| && elems <= |dl| && leaves == Leaves(f, elems) && Settled(dl, leaves, counts, max)
    ensures Sum(At(Forced(UsedBelow(f, elems)), dl)) == |Forced(UsedBelow(f, elems))|
  {
    hide UsedBelow, Sum, Settled;
    var u := UsedBelow(f, elems);
    var xs := Forced(u);
    ForcedFacts(f, elems);
    if xs == [] {
      assert At(xs, dl) == [];
      SumOne(0);
      EmptySum();
    } else {
      TwoLeaves(dl, leaves, counts, max);
      forall i | 0 <= i < |xs|
        ensures dl[xs[i]] == 1
      {
        assert leaves[|u| + i] == xs[i];
      }
      if |xs| == 1 {
        assert At(xs, dl) == [1];
        SumOne(1);
      } else {
        assert xs == [xs[0], xs[1]];
        PairSum(xs[0], xs[1], dl);
      }
    }
  }

  lemma {:induction false} EmptySum()
    ensures Sum([]) == 0
  {
  }

  // The nodes made do not matter to the symbols.
  lemma {:induction false} SameFair(f: seq<nat>, g: seq<nat>, dl: seq<nat>, elems: nat, leaves: seq<nat>, max: nat)
    requires Fair(f, dl, leaves) && |g| == |f| && elems <= |f| && forall x :: 0 <= x < elems ==> f[x] == g[x]
    requires forall i :: 0 <= i < |leaves| ==> leaves[i] < elems
    ensures Fair(g, dl, leaves) && (Optimal(f, dl, leaves) <==> Optimal(g, dl, leaves))
    ensures FitsLimit(f, leaves, max) <==> FitsLimit(g, leaves, max)
  {
    hide LowerBound, PrefixCode, Dot;
    assert At(leaves, f) == At(leaves, g);
  }

  lemma {:induction false} AllBelow(dl: seq<nat>, elems: nat, leaves: seq<nat>, max: nat)
    requires elems <= |dl| && forall i :: 0 <= i < |leaves| ==> leaves[i] < elems
    ensures (forall x :: 0 <= x < elems ==> dl[x] < max) ==> Below(dl, leaves, max)
  {
  }

  lemma {:induction false} Prefixed(lens: seq<nat>, codes: seq<nat>, n: nat)
    requires n <= |lens| && n <= |codes| && LensOk(lens[..n])
    requires forall s :: 0 <= s < n && lens[s] > 0 ==> Coded(lens[..n], s, codes[s])
    ensures Holds(lens[..n], codes, lens)
  {
  }

  /** The code and its cost, from what the steps of build_tree promise. */
  lemma {:induction false} TreeFinish(d: StaticDesc, f: seq<nat>, f2: seq<nat>, dl1: seq<nat>, dl2: seq<nat>, dl3: seq<nat>,
                                      codes: seq<nat>, leaves: seq<nat>, counts: seq<nat>, n: nat,
                                      opt: int, stat: int)
    requires DescOk(d) && FreqOk(f, d.elems) && leaves == Leaves(f, d.elems) && Cleared(f, dl1, d.elems)
    requires Untouched(CountedFreq(f, d.elems), dl1, f2, dl2, d.elems, leaves)
    requires GoodLengths(d, f2, dl2, dl3, leaves, counts, opt, stat)
    requires 0 < n <= d.elems && n - 1 in leaves && forall i :: 0 <= i < |leaves| ==> leaves[i] < n
    ensures n <= |dl3| && Fits(dl3[..n]) && |counts| == 16 && counts[0] == 0
    ensures forall l :: 0 < l <= MAX_BITS ==> counts[l] == Count(dl3[..n], l)
    ensures n <= |codes| && (forall s :: 0 <= s < n && dl3[s] > 0 ==> Coded(dl3[..n], s, codes[s])) ==>
              TreeDone(d, f, codes, dl3, n)
    ensures var xs := Forced(UsedBelow(f, d.elems));
            && opt - |xs| == TotalBits(d, f, dl3, d.elems)
            && stat - StaticLens(d.stree, xs) == StaticBits(d, f, d.elems)
  {
    hide Sum, Forced, UsedBelow, Leaves, Settled, TotalBits, Fair, Optimal, Coded, FitsLimit, Below, Kraft, Count, FreqOk, Holds,
         Untouched, OthersKept, Cleared, Total, Pow2, StaticLens, StaticBits, LensOk, LeavesAre;
    FreqParts(f, d.elems);
    var f1 := CountedFreq(f, d.elems);
    CountedReady(d, f);
    CountedKeeps(f, d.elems);
    OnlyLeaves(d, f, f1, f2, dl1, dl2, dl3, leaves, counts, n);
    SettledComplete(dl3, n, leaves, counts, d.max_length);
    SettledComplete(dl3, d.elems, leaves, counts, d.max_length);
    CostsBack(d, f, f2, dl3, leaves, counts);
    CompleteFits(dl3[..n]);
    LeavesBelow(f1, d.elems, leaves);
    SameFair(f2, f1, dl3, d.elems, leaves, d.max_length);
    AllBelow(dl3, d.elems, leaves, d.max_length);
    if n <= |codes| && (forall s :: 0 <= s < n && dl3[s] > 0 ==> Coded(dl3[..n], s, codes[s])) {
      Prefixed(dl3, codes, n);
    }
  }

  lemma {:induction false} LeavesBelow(f: seq<nat>, n: nat, leaves: seq<nat>)
    requires LeavesAre(f, n, leaves)
    ensures n <= |f| && forall i :: 0 <= i < |leaves| ==> leaves[i] < n
  {
  }

  lemma {:induction false} CompleteFits(lens: seq<nat>)
    requires Complete(lens)
    ensures Fits(lens) && LensOk(lens)
  {
  }

  lemma {:induction false} CountedKeeps(f: seq<nat>, elems: nat)
    requires FreqOk(f, elems)
    ensures |CountedFreq(f, elems)| == |f| && elems <= |f|
    ensures forall x :: 0 <= x < elems && CountedFreq(f, elems)[x] == 0 ==> f[x] == 0
    ensures forall x :: 0 <= x < elems && f[x] > 0 ==> CountedFreq(f, elems)[x] > 0
  {
  }

  /** One tree of the block is done: its codes fill the code space, and opt_len and static_len have grown by
      exactly what its symbols take.  The code is optimal whenever an optimal one is within the limit. */
  method BuildTree(s: TreeState, fc: array<nat>, dl: array<nat>, d: StaticDesc) returns (max_code: nat)
    requires s.Valid() && Apart(s, fc, dl) && DescOk(d) && fc.Length == dl.Length <= HEAP_SIZE
    requires FreqOk(fc[..], d.elems)
    modifies s, s.heap, s.depth, s.bl_count, fc, dl
    ensures TreeDone(d, old(fc[..]), fc[..], dl[..], max_code + 1)
    ensures s.opt_len == old(s.opt_len) + TotalBits(d, old(fc[..]), dl[..], d.elems)
    ensures s.static_len == old(s.static_len) + StaticBits(d, old(fc[..]), d.elems)
  {
    hide Leaves, UsedBelow, Forced, Counted, Cleared, Ready, Built, Untouched, GoodLengths, TreeDone, FreqOk, DescOk,
         LeavesAre, StaticLens, TotalBits, StaticBits, Coded, Fits, Count, Active, Flat;
    ghost var f := fc[..];
    FreqParts(f, d.elems);
    DescElems(d);
    var first := CollectUsed(s, fc, dl, d.elems);
    ghost var dl1 := dl[..];
    CountedReady(d, f);
    var max := ForceTwo(s, fc, dl, d.stree, d.elems, first);
    ghost var leaves := Leaves(f, d.elems);
    ReadyFacts(CountedFreq(f, d.elems), d.elems, leaves, max);
    max_code := max;
    ghost var ms := MakeTree(s, fc, dl, d.elems, leaves);
    ghost var f2, dl2, o, t := fc[..], dl[..], s.opt_len, s.static_len;
    GenBitlen(s, fc, dl, d, max_code, leaves, ms);
    ghost var dl3, opt, stat := dl[..], s.opt_len - o, s.static_len - t;
    TreeFinish(d, f, f2, dl1, dl2, dl3, f2, leaves, s.bl_count[..], max_code + 1, opt, stat);
    GenCodes.GenCodes(fc, dl, max_code, s.bl_count);
    TreeFinish(d, f, f2, dl1, dl2, dl3, fc[..], leaves, s.bl_count[..], max_code + 1, opt, stat);
  }

  lemma {:induction false} DescElems(d: StaticDesc)
    requires DescOk(d)
    ensures 3 <= d.elems <= 286 && (d.stree == [] || d.elems <= |d.stree|)
  {
  }

  lemma {:induction false} ReadyFacts(f: seq<nat>, elems: nat, leaves: seq<nat>, max: int)
    requires Ready(f, elems, leaves) && max in leaves && forall i :: 0 <= i < |leaves| ==> leaves[i] <= max
    ensures max < elems && |leaves| <= elems && forall i :: 0 <= i < |leaves| ==> leaves[i] < max + 1
    ensures forall x :: x in leaves ==> x <= max
  {
  }
}
