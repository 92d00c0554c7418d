/** gen_bitlen (trees.c): the code lengths of a tree, within the limit. */
module BitLengths {
  import opened Bits
  import opened HuffmanBound
  import opened HuffmanForest
  import opened HuffmanMerge
  import opened HuffmanInit
  import opened HuffmanTree
  import opened TreeLengths
  import opened LengthRepair
  import opened FirstPass
  import opened TreeHeight
  import opened PassTotals
  import opened SecondPass

  /** In an optimal code a less frequent symbol never has the shorter code. */
  lemma {:induction false} OptimalFair(freq: seq<nat>, dl: seq<nat>, leaves: seq<nat>, max: nat)
    requires Optimal(freq, dl, leaves) && forall j :: 0 <= j < |leaves| ==> dl[leaves[j]] <= max
    requires Sum(At(leaves, Weight(dl, max))) <= Pow2(max)
    ensures Fair(freq, dl, leaves)
  {
    IsPrefixCode(dl, leaves, max);
    var w, l := At(leaves, freq), At(leaves, dl);
    hide PrefixCode, Dot, Sum, Pow2, Weight;
    forall i, k | 0 <= i < |leaves| && 0 <= k < |leaves| && freq[leaves[i]] < freq[leaves[k]]
      ensures dl[leaves[i]] >= dl[leaves[k]]
    {
      if dl[leaves[i]] < dl[leaves[k]] {
        assert w[i] < w[k] && l[i] < l[k];
        Exchange(w, l, max, k, i);
      }
    }
  }

  // The symbols that are no leaves keep what they have.
  ghost predicate OthersKept(dl0: seq<nat>, dl: seq<nat>, elems: nat, leaves: seq<nat>) {
    |dl0| == |dl| && elems <= |dl| && forall x :: 0 <= x < elems && x !in leaves ==> dl[x] == dl0[x]
  }

  lemma {:induction false} PassedOthers(d: StaticDesc, freq: seq<nat>, dl0: seq<nat>, dl: seq<nat>, leaves: seq<nat>,
                                        ms: seq<Pair>, counts: seq<nat>, opt: int, stat: int, overflow: int)
    requires Passing(d, freq, dl0, dl, leaves, ms, 0, counts, opt, stat, overflow)
    ensures OthersKept(dl0, dl, d.elems, leaves)
  {
    hide Children, Spanning;
    SonsDistinct(d.elems, leaves, ms);
    var c := Children(ms);
    forall x | 0 <= x < d.elems && x !in leaves
      ensures x !in c
    {
      forall j | 0 <= j < |c|
        ensures c[j] != x
      {
      }
    }
  }

  lemma {:induction false} HistAbove(ids: seq<nat>, dl: seq<nat>, max: nat)
    requires forall j :: 0 <= j < |ids| ==> ids[j] < |dl| && dl[ids[j]] <= max
    ensures forall b :: max < b < 16 ==> Hist(ids, dl)[b] == 0
  {
    forall b | max < b < 16
      ensures Hist(ids, dl)[b] == 0
    {
      ZeroSum(At(ids, Mark(dl, b)));
    }
  }

  // Before the second pass nothing is dealt.
  lemma {:induction false} RedoStart(d: StaticDesc, freq: seq<nat>, dl0: seq<nat>, dl: seq<nat>, leaves: seq<nat>,
                                     ms: seq<Pair>, counts0: seq<nat>, counts: seq<nat>, opt: int, stat: int, overflow: int)
    requires Passing(d, freq, dl0, dl, leaves, ms, 0, counts0, opt, stat, overflow) && |leaves| <= d.elems
    requires Overfull(counts, d.max_length, |leaves|, 0) && |counts| == 16
    requires forall b :: d.max_length < b < 16 ==> counts[b] == counts0[b]
    ensures Redoing(d, freq, dl0, dl, counts, leaves, ms, 0, d.max_length, counts[d.max_length], opt)
  {
    hide Spanning, Passing, Depths, Costs, Children, Settled;
    PassedDepths(d, freq, dl0, dl, leaves, ms, counts0, opt, stat, overflow);
    PassedSums(d, freq, dl0, dl, leaves, ms, counts0, opt, stat, overflow);
    PassedRoom(d, freq, dl0, dl, leaves, ms, counts0, opt, stat, overflow);
    PassedOthers(d, freq, dl0, dl, leaves, ms, counts0, opt, stat, overflow);
    PassedSize(d, freq, dl0, dl, leaves, ms, counts0, opt, stat, overflow);
    HistAbove(leaves, dl, d.max_length);
    DealStart(dl, counts, Children(ms), d.elems, d.max_length);
  }

  lemma {:induction false} PassedSize(d: StaticDesc, freq: seq<nat>, dl0: seq<nat>, dl: seq<nat>, leaves: seq<nat>,
                                      ms: seq<Pair>, counts: seq<nat>, opt: int, stat: int, overflow: int)
    requires Passing(d, freq, dl0, dl, leaves, ms, 0, counts, opt, stat, overflow)
    ensures d.elems + |ms| <= |dl| == |dl0| && 0 < d.max_length < 16
  {
  }

  // No code has the greatest length.
  ghost predicate Below(dl: seq<nat>, leaves: seq<nat>, max: nat) {
    forall i :: 0 <= i < |leaves| ==> leaves[i] < |dl| && dl[leaves[i]] < max
  }

  lemma {:induction false} NotBelow(dl: seq<nat>, leaves: seq<nat>, counts: seq<nat>, max: nat)
    requires Settled(dl, leaves, counts, max) && counts[max] > 0
    ensures !Below(dl, leaves, max)
  {
    hide CountsRoom, CountsSum, Pow2;
    if Below(dl, leaves, max) {
      ZeroSum(At(leaves, Mark(dl, max)));
    }
  }

  /** What gen_bitlen promises about the lengths `dl` and their counts. */
  ghost predicate GoodLengths(d: StaticDesc, freq: seq<nat>, dl0: seq<nat>, dl: seq<nat>, leaves: seq<nat>,
                              counts: seq<nat>, opt: int, stat: int) {
    && |freq| == |dl| && (forall i :: 0 <= i < |leaves| ==> leaves[i] < |dl|)
    && Settled(dl, leaves, counts, d.max_length)
    && Fair(freq, dl, leaves)
    && (Optimal(freq, dl, leaves) <==> FitsLimit(freq, leaves, d.max_length))
    && (Below(dl, leaves, d.max_length) ==> Optimal(freq, dl, leaves))
    && opt == Sum(At(leaves, Costs(d, freq, dl))) && stat == Sum(At(leaves, StaticCosts(d, freq)))
    && OthersKept(dl0, dl, d.elems, leaves)
  }

  lemma {:induction false} UncutGood(d: StaticDesc, freq: seq<nat>, depth: seq<nat>, dl0: seq<nat>, dl: seq<nat>, leaves: seq<nat>,
                                     ms: seq<Pair>, counts: seq<nat>, opt: int, stat: int)
    requires Passing(d, freq, dl0, dl, leaves, ms, 0, counts, opt, stat, 0) && |leaves| <= d.elems
    requires Cheapest(freq, depth, d.elems, leaves, ms) && Fathers(freq, d.elems, ms)
    ensures GoodLengths(d, freq, dl0, dl, leaves, counts, opt, stat)
  {
    hide Spanning, Passing, Depths, Costs, StaticCosts, Hist, Cheapest, Fathers, Optimal, FitsLimit, Fair, OthersKept, Pow2, Weight, CountsRoom;
    PassedDepths(d, freq, dl0, dl, leaves, ms, counts, opt, stat, 0);
    PassedSums(d, freq, dl0, dl, leaves, ms, counts, opt, stat, 0);
    PassedRoom(d, freq, dl0, dl, leaves, ms, counts, opt, stat, 0);
    PassedOthers(d, freq, dl0, dl, leaves, ms, counts, opt, stat, 0);
    UncutOptimal(freq, depth, dl, d.elems, leaves, ms, d.max_length);
    RoomOfHist(leaves, dl, d.max_length);
    OptimalFair(freq, dl, leaves, d.max_length);
    OptimalFits(freq, dl, leaves, d.max_length);
  }

  lemma {:induction false} RedoneGood(d: StaticDesc, freq: seq<nat>, dl0: seq<nat>, dl: seq<nat>, leaves: seq<nat>,
                                      ms: seq<Pair>, counts: seq<nat>, j: nat, opt: int, stat: int)
    requires Redoing(d, freq, dl0, dl, counts, leaves, ms, j, 0, 0, opt) && Ordered(freq, Children(ms), [])
    requires Overfull(counts, d.max_length, |leaves|, 0) && counts[d.max_length] > 0 && !FitsLimit(freq, leaves, d.max_length)
    requires stat == Sum(At(leaves, StaticCosts(d, freq)))
    ensures GoodLengths(d, freq, dl0, dl, leaves, counts, opt, stat)
  {
    hide Spanning, Children, Costs, StaticCosts, CountsRoom, CountsSum, Pow2, FitsLimit, Optimal, Ordered, Falling, Dealing, SameNodes;
    DealtCounts(dl, counts, Children(ms), d.elems, j, d.max_length);
    DealtOut(dl, counts, d.elems, leaves, ms, j, d.max_length);
    var q := LeavesIn(Children(ms), d.elems, 2 * |ms|);
    HistContents(q, leaves, dl);
    LeavesOrdered(freq, Children(ms), d.elems, 2 * |ms|);
    DealtFair(freq, dl, q, leaves);
    assert SameNodes(leaves, q) by { Flip(q, leaves); }
    SameMembers(leaves, q);
    forall i | 0 <= i < |leaves|
      ensures 0 < dl[leaves[i]] <= d.max_length
    {
      var a :| 0 <= a < |q| && q[a] == leaves[i];
    }
    assert Settled(dl, leaves, counts, d.max_length);
    NotBelow(dl, leaves, counts, d.max_length);
    RedoneNotOptimal(freq, dl, leaves, counts, d.max_length);
  }

  lemma {:induction false} RedoneNotOptimal(freq: seq<nat>, dl: seq<nat>, leaves: seq<nat>, counts: seq<nat>, max: nat)
    requires Settled(dl, leaves, counts, max) && !FitsLimit(freq, leaves, max)
    ensures !Optimal(freq, dl, leaves)
  {
    hide FitsLimit, Optimal, Pow2, Weight, CountsRoom, Hist;
    RoomOfHist(leaves, dl, max);
    if Optimal(freq, dl, leaves) {
      OptimalFits(freq, dl, leaves, max);
    }
  }

  lemma {:induction false} DealtCounts(dl: seq<nat>, counts: seq<nat>, c: seq<nat>, elems: nat, j: nat, max: nat)
    requires Dealing(dl, counts, c, elems, j, max, 0, 0)
    ensures |counts| == 16 && max < 16
  {
  }

  lemma {:induction false} Flip(a: seq<nat>, b: seq<nat>)
    requires SameNodes(a, b)
    ensures SameNodes(b, a)
  {
  }

  // Before the repair: how much is over, and what the tree says about it.
  lemma {:induction false} Passed(d: StaticDesc, freq: seq<nat>, depth: seq<nat>, dl0: seq<nat>, dl: seq<nat>, h: seq<nat>, leaves: seq<nat>,
                                  ms: seq<Pair>, counts: seq<nat>, opt: int, stat: int, overflow: int)
    requires Passing(d, freq, dl0, dl, leaves, ms, 0, counts, opt, stat, overflow) && |leaves| <= d.elems
    requires Built(freq, depth, dl0, h, d.elems, leaves, ms)
    ensures overflow == 0 ==> GoodLengths(d, freq, dl0, dl, leaves, counts, opt, stat)
    ensures overflow > 0 ==> !FitsLimit(freq, leaves, d.max_length) && overflow % 2 == 0
    ensures Overfull(counts, d.max_length, |leaves|, overflow / 2) && overflow >= 0
    ensures Laid(h, ms) && Ordered(freq, Children(ms), [])
    ensures |freq| == |dl| && (forall i :: 0 <= i < |leaves| ==> leaves[i] < |freq|)
    ensures stat == Sum(At(leaves, StaticCosts(d, freq)))
  {
    hide Spanning, Passing, Depths, Costs, StaticCosts, Cheapest, Fathers, Settled, Ordered, Laid, Dads, GoodLengths, FitsLimit, Grown;
    PassedRoom(d, freq, dl0, dl, leaves, ms, counts, opt, stat, overflow);
    PassedSums(d, freq, dl0, dl, leaves, ms, counts, opt, stat, overflow);
    PassedDepths(d, freq, dl0, dl, leaves, ms, counts, opt, stat, overflow);
    PassedSize(d, freq, dl0, dl, leaves, ms, counts, opt, stat, overflow);
    if overflow > 0 {
      CutNotFitting(freq, depth, dl, d.elems, leaves, ms, d.max_length);
    } else {
      UncutGood(d, freq, depth, dl0, dl, leaves, ms, counts, opt, stat);
    }
  }

  /** The leaves of the tree get lengths that fill the code space within the limit, fair by frequency, and the best
      possible exactly if any optimal code is within the limit. */
  method GenBitlen(s: TreeState, fc: array<nat>, dl: array<nat>, d: StaticDesc, max_code: nat,
                   ghost leaves: seq<nat>, ghost ms: seq<Pair>)
    requires s.Valid() && Apart(s, fc, dl) && DescOk(d) && |leaves| <= d.elems
    requires Built(fc[..], s.depth[..], dl[..], s.heap[..], d.elems, leaves, ms) && s.heap_max == HEAP_SIZE - 1 - 2 * |ms|
    requires max_code < d.elems && forall x :: x in leaves ==> x <= max_code
    modifies s, s.bl_count, dl
    ensures GoodLengths(d, fc[..], old(dl[..]), dl[..], leaves, s.bl_count[..],
                        s.opt_len - old(s.opt_len), s.static_len - old(s.static_len))
  {
    hide Built, Passing, GoodLengths, DescOk, FitsLimit, Overfull, Redoing, Laid, Ordered, Children, StaticCosts, Sum, At;
    ghost var f, dl0, h := fc[..], dl[..], s.heap[..];
    ghost var o, t := s.opt_len, s.static_len;
    DescMax(d);
    var overflow := AssignDepths(s, fc, dl, d, max_code, leaves, ms);
    ghost var dl1, counts, opt, stat := dl[..], s.bl_count[..], s.opt_len - o, s.static_len - t;
    Passed(d, f, s.depth[..], dl0, dl1, h, leaves, ms, counts, opt, stat, overflow);
    if overflow == 0 {
      return;
    }
    RepairCounts(s.bl_count, d.max_length, overflow, |leaves|);
    RedoStart(d, f, dl0, dl1, leaves, ms, counts, s.bl_count[..], opt, stat, overflow);
    ghost var j := DealLengths(s, fc, dl, max_code, d.max_length, d, dl0, leaves, ms, opt);
    OverfullZero(s.bl_count[..], d.max_length, |leaves|);
    RedoneGood(d, f, dl0, dl[..], leaves, ms, s.bl_count[..], j, s.opt_len - o, stat);
  }

  lemma {:induction false} DescMax(d: StaticDesc)
    requires DescOk(d)
    ensures 0 < d.max_length < 16
  {
  }

  lemma {:induction false} OverfullZero(c: seq<nat>, max: nat, leaves: nat)
    requires Overfull(c, max, leaves, 0)
    ensures c[0] == 0
  {
  }
}
