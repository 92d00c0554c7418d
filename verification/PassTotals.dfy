/** What the first pass of gen_bitlen (trees.c) has counted when it is over. */
module PassTotals {
  import opened Bits
  import opened HuffmanBound
  import opened HuffmanForest
  import opened HuffmanMerge
  import opened HuffmanTree
  import opened TreeLengths
  import opened LengthRepair
  import opened FirstPass

  // How many of the nodes `ids` have each length.
  function Hist(ids: seq<nat>, dl: seq<nat>): (r: seq<nat>)
    requires forall j :: 0 <= j < |ids| ==> ids[j] < |dl|
    ensures |r| == 16
  {
    seq(16, b requires 0 <= b < 16 => Sum(At(ids, Mark(dl, b))))
  }

  lemma {:induction false} SumOne(v: nat)
    ensures Sum([v]) == v
  {
    assert [v][..0] == [];
  }

  lemma {:induction false} HistMore(ids: seq<nat>, x: nat, dl: seq<nat>)
    requires x < |dl| && dl[x] < 16 && forall j :: 0 <= j < |ids| ==> ids[j] < |dl|
    ensures forall j :: 0 <= j < |ids + [x]| ==> (ids + [x])[j] < |dl|
    ensures Hist(ids + [x], dl) == Hist(ids, dl)[dl[x] := Hist(ids, dl)[dl[x]] + 1]
  {
    forall b | 0 <= b < 16
      ensures Sum(At(ids + [x], Mark(dl, b))) == Sum(At(ids, Mark(dl, b))) + if b == dl[x] then 1 else 0
    {
      AtConcat(ids, [x], Mark(dl, b));
      assert At([x], Mark(dl, b)) == [Mark(dl, b)[x]];
      SumOne(Mark(dl, b)[x]);
    }
  }

  lemma {:induction false} RoomWithOne(ids: seq<nat>, x: nat, dl: seq<nat>, max: nat)
    requires 0 < max < 16 && x < |dl| && 0 < dl[x] <= max && forall j :: 0 <= j < |ids| ==> ids[j] < |dl|
    ensures forall j :: 0 <= j < |ids + [x]| ==> (ids + [x])[j] < |dl|
    ensures CountsRoom(Hist(ids + [x], dl), max, max) == CountsRoom(Hist(ids, dl), max, max) + Pow2(max - dl[x])
    ensures CountsSum(Hist(ids + [x], dl), max) == CountsSum(Hist(ids, dl), max) + 1
    ensures Hist(ids + [x], dl)[0] == Hist(ids, dl)[0]
  {
    hide Hist, Pow2, CountsRoom, CountsSum;
    HistMore(ids, x, dl);
    var h := Hist(ids, dl);
    RoomOfChange(h, max, max, dl[x], h[dl[x]] + 1);
    OneMoreCode(h[dl[x]], Pow2(max - dl[x]));
  }

  lemma {:induction false} WeightMore(ids: seq<nat>, x: nat, dl: seq<nat>, max: nat)
    requires x < |dl| && dl[x] <= max && forall j :: 0 <= j < |ids| ==> ids[j] < |dl|
    ensures forall j :: 0 <= j < |ids + [x]| ==> (ids + [x])[j] < |dl|
    ensures Sum(At(ids + [x], Weight(dl, max))) == Sum(At(ids, Weight(dl, max))) + Pow2(max - dl[x])
  {
    hide Pow2, Sum;
    AtConcat(ids, [x], Weight(dl, max));
    assert At([x], Weight(dl, max)) == [Pow2(max - dl[x])];
    SumOne(Pow2(max - dl[x]));
  }

  lemma {:induction false} RoomOfNone(dl: seq<nat>, max: nat)
    requires 0 < max < 16
    ensures CountsRoom(Hist([], dl), max, max) == Sum(At([], Weight(dl, max))) && CountsSum(Hist([], dl), max) == 0
    ensures Hist([], dl)[0] == 0
  {
    assert At([], Weight(dl, max)) == [];
    forall b | 0 <= b < 16
      ensures Hist([], dl)[b] == 0
    {
      assert At([], Mark(dl, b)) == [];
    }
    NoShorter(Hist([], dl), max - 1, max);
  }

  // Lengths from 1 to `max` take the room their counts say.
  lemma {:induction false} RoomOfHist(ids: seq<nat>, dl: seq<nat>, max: nat)
    requires 0 < max < 16 && forall j :: 0 <= j < |ids| ==> ids[j] < |dl| && 0 < dl[ids[j]] <= max
    ensures CountsRoom(Hist(ids, dl), max, max) == Sum(At(ids, Weight(dl, max)))
    ensures CountsSum(Hist(ids, dl), max) == |ids|
    ensures Hist(ids, dl)[0] == 0
  {
    hide Hist, Pow2, CountsRoom, CountsSum, Sum, At, Weight;
    if ids == [] {
      RoomOfNone(dl, max);
    } else {
      var n := |ids| - 1;
      RoomOfHist(ids[..n], dl, max);
      RoomWithOne(ids[..n], ids[n], dl, max);
      WeightMore(ids[..n], ids[n], dl, max);
      assert ids[..n] + [ids[n]] == ids;
    }
  }

  lemma {:induction false} OneMoreCode(a: nat, u: nat)
    ensures (a + 1) * u == a * u + u
  {
  }

  // Masked sums over all sons are sums over the leaves.
  lemma {:induction false} MaskedSum(elems: nat, leaves: seq<nat>, ms: seq<Pair>, g: seq<nat>)
    requires Spanning(elems, leaves, ms) && elems + |ms| <= |g|
    requires forall j :: 0 <= j < 2 * |ms| ==> Children(ms)[j] < |g|
    ensures forall j :: 0 <= j < |leaves| ==> leaves[j] < |g|
    ensures SumFrom(Children(ms), 0, Mask(g, elems)) == Sum(At(leaves, g))
  {
    hide Children, Made, SameNodes;
    var c, m, root, made := Children(ms), Mask(g, elems), [elems + |ms| - 1], Made(elems, |ms|);
    MadeSmall(elems, |ms|);
    assert c[0..] == c;
    AtConcat(c, root, m);
    AtContents(c + root, leaves + made, m);
    AtConcat(leaves, made, m);
    assert At(leaves, m) == At(leaves, g);
    ZeroSum(At(made, m));
    ZeroSum(At(root, m));
  }

  lemma {:induction false} MadeSmall(elems: nat, k: nat)
    ensures forall j :: 0 <= j < k ==> elems <= Made(elems, k)[j] < elems + k
  {
  }

  lemma {:induction false} ZeroSum(s: seq<nat>)
    requires forall i :: 0 <= i < |s| ==> s[i] == 0
    ensures Sum(s) == 0
  {
    if s != [] {
      ZeroSum(s[..|s| - 1]);
    }
  }

  // Both sons of each capped node are over the limit.
  lemma {:induction false} OverTotal(dl: seq<nat>, elems: nat, k: nat, n: nat, max: nat)
    requires k <= n && elems + n <= |dl|
    ensures OverFrom(dl, elems, 2 * k, 2 * n, max) == 2 * (MadeAt(dl, elems, n, max) - MadeAt(dl, elems, k, max))
    decreases n - k
  {
    if k < n {
      OverTotal(dl, elems, k + 1, n, max);
      assert (2 * k + 1) / 2 == k;
      assert OverFrom(dl, elems, 2 * k + 1, 2 * n, max) ==
             OverFrom(dl, elems, 2 * (k + 1), 2 * n, max) + if dl[elems + k] == max then 1 else 0;
    }
  }

  /** The lengths `dl` of the leaves make a complete code, and `counts` counts them. */
  ghost predicate Settled(dl: seq<nat>, leaves: seq<nat>, counts: seq<nat>, max: nat) {
    && 0 < max < 16 && (forall j :: 0 <= j < |leaves| ==> leaves[j] < |dl| && 0 < dl[leaves[j]] <= max)
    && counts == Hist(leaves, dl) && CountsRoom(counts, max, max) == Pow2(max)
  }

  // The two sons of each node, one level below it.
  lemma {:induction false} SonDepths(d: StaticDesc, freq: seq<nat>, dl0: seq<nat>, dl: seq<nat>, leaves: seq<nat>,
                                     ms: seq<Pair>, counts: seq<nat>, opt: int, stat: int, overflow: int)
    requires Passing(d, freq, dl0, dl, leaves, ms, 0, counts, opt, stat, overflow)
    ensures |ms| > 0 && Depths(dl, d.elems, ms, d.max_length) && Spanning(d.elems, leaves, ms)
    ensures Counted1(d, freq, dl, Children(ms), 0, counts, opt, stat, overflow)
  {
    hide Counted1, Spanning, Children, MadeAt, DescOk;
    var c := Children(ms);
    forall i | 0 <= i < |ms|
      ensures ms[i].n == c[2 * i] && ms[i].m == c[2 * i + 1]
    {
      SonsListed(ms, i);
    }
    forall i | 0 <= i < |ms|
      ensures dl[ms[i].n] == Cap(dl[d.elems + i] + 1, d.max_length) && dl[ms[i].m] == Cap(dl[d.elems + i] + 1, d.max_length)
      ensures ms[i].n < d.elems + i && ms[i].m < d.elems + i
    {
      assert (2 * i) / 2 == i && (2 * i + 1) / 2 == i;
    }
  }

  lemma {:induction false} PassedDepths(d: StaticDesc, freq: seq<nat>, dl0: seq<nat>, dl: seq<nat>, leaves: seq<nat>,
                                        ms: seq<Pair>, counts: seq<nat>, opt: int, stat: int, overflow: int)
    requires Passing(d, freq, dl0, dl, leaves, ms, 0, counts, opt, stat, overflow)
    ensures |ms| > 0 && Depths(dl, d.elems, ms, d.max_length) && Spanning(d.elems, leaves, ms) && |freq| == |dl|
    ensures overflow == 2 * MadeAt(dl, d.elems, |ms|, d.max_length)
  {
    hide Counted1, Spanning, MadeAt, Passing;
    SonDepths(d, freq, dl0, dl, leaves, ms, counts, opt, stat, overflow);
    OverTotal(dl, d.elems, 0, |ms|, d.max_length);
    CountedOver(d, freq, dl, Children(ms), counts, opt, stat, overflow);
  }

  lemma {:induction false} CountedOver(d: StaticDesc, freq: seq<nat>, dl: seq<nat>, c: seq<nat>, counts: seq<nat>,
                                       opt: int, stat: int, overflow: int)
    requires Counted1(d, freq, dl, c, 0, counts, opt, stat, overflow)
    ensures |freq| == |dl| && d.elems + (|c| + 1) / 2 <= |dl| && overflow == OverFrom(dl, d.elems, 0, |c|, d.max_length)
  {
  }

  /** The counts and costs are those of the leaves. */
  lemma {:induction false} PassedSums(d: StaticDesc, freq: seq<nat>, dl0: seq<nat>, dl: seq<nat>, leaves: seq<nat>,
                                      ms: seq<Pair>, counts: seq<nat>, opt: int, stat: int, overflow: int)
    requires Passing(d, freq, dl0, dl, leaves, ms, 0, counts, opt, stat, overflow)
    ensures |freq| == |dl| && forall j :: 0 <= j < |leaves| ==> leaves[j] < |dl|
    ensures counts == Hist(leaves, dl)
    ensures opt == Sum(At(leaves, Costs(d, freq, dl))) && stat == Sum(At(leaves, StaticCosts(d, freq)))
  {
    hide Spanning, Descending, Children, SumFrom;
    PassedDepths(d, freq, dl0, dl, leaves, ms, counts, opt, stat, overflow);
    MaskedSum(d.elems, leaves, ms, Costs(d, freq, dl));
    MaskedSum(d.elems, leaves, ms, StaticCosts(d, freq));
    forall b | 0 <= b < 16
      ensures SumFrom(Children(ms), 0, Mask(Mark(dl, b), d.elems)) == Sum(At(leaves, Mark(dl, b)))
    {
      MaskedSum(d.elems, leaves, ms, Mark(dl, b));
    }
    hide Depths, Costs, StaticCosts, Mask, Mark;
  }

  lemma {:induction false} LeafLengths(dl: seq<nat>, elems: nat, leaves: seq<nat>, ms: seq<Pair>, max: nat)
    requires Depths(dl, elems, ms, max) && Spanning(elems, leaves, ms) && max > 0
    ensures forall j :: 0 <= j < |leaves| ==> leaves[j] < |dl| && 0 < dl[leaves[j]] <= max
  {
    hide Depths, Made;
    SpanningLeaves(elems, leaves, ms);
    forall j | 0 <= j < |leaves|
      ensures leaves[j] < |dl| && 0 < dl[leaves[j]] <= max
    {
      assert (leaves + Made(elems, |ms|))[j] == leaves[j];
      DepthsBounded(dl, elems, leaves, ms, max, leaves[j]);
    }
  }

  /** What the first pass leaves: a complete code, or an overfull one that can be repaired. */
  lemma {:induction false} PassedRoom(d: StaticDesc, freq: seq<nat>, dl0: seq<nat>, dl: seq<nat>, leaves: seq<nat>,
                                      ms: seq<Pair>, counts: seq<nat>, opt: int, stat: int, overflow: int)
    requires Passing(d, freq, dl0, dl, leaves, ms, 0, counts, opt, stat, overflow) && |leaves| <= d.elems
    ensures overflow % 2 == 0 && overflow >= 0
    ensures Overfull(counts, d.max_length, |leaves|, overflow / 2)
    ensures overflow == 0 ==> Settled(dl, leaves, counts, d.max_length)
    ensures forall j :: 0 <= j < |leaves| ==> leaves[j] < |dl| && 0 < dl[leaves[j]] <= d.max_length
  {
    hide Spanning, Depths, Passing, CountsRoom, CountsSum, Pow2, DescOk, Weight, Sum, At, MadeAt;
    PassedDesc(d, freq, dl0, dl, leaves, ms, counts, opt, stat, overflow);
    PassedDepths(d, freq, dl0, dl, leaves, ms, counts, opt, stat, overflow);
    PassedSums(d, freq, dl0, dl, leaves, ms, counts, opt, stat, overflow);
    LeafLengths(dl, d.elems, leaves, ms, d.max_length);
    RoomOfHist(leaves, dl, d.max_length);
    LeavesRoom(dl, d.elems, leaves, ms, d.max_length);
    LeavesAtMax(dl, d.elems, leaves, ms, d.max_length);
    if overflow > 0 {
      CappedHangs(dl, d.elems, leaves, ms, d.max_length);
    }
  }

  lemma {:induction false} PassedDesc(d: StaticDesc, freq: seq<nat>, dl0: seq<nat>, dl: seq<nat>, leaves: seq<nat>,
                                      ms: seq<Pair>, counts: seq<nat>, opt: int, stat: int, overflow: int)
    requires Passing(d, freq, dl0, dl, leaves, ms, 0, counts, opt, stat, overflow)
    ensures 0 < d.max_length <= 15 && d.elems <= Pow2(d.max_length)
  {
  }
}
