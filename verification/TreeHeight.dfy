/** How the height of a Huffman tree tells whether an optimal code fits a limit on its lengths.

Of equal frequencies the lower tree is merged first (smaller in trees.c), and so the
tree is as low as any optimal code allows: gen_bitlen cuts it only where it must. */
module TreeHeight {
  import opened Bits
  import opened HuffmanBound
  import opened HuffmanForest
  import opened HuffmanMerge
  import opened HuffmanTree
  import opened TreeLengths
  import opened FirstPass

  /** No prefix code at all for the symbols `leaves` is shorter in total. */
  ghost predicate Optimal(freq: seq<nat>, dl: seq<nat>, leaves: seq<nat>) {
    && |freq| == |dl| && (forall i :: 0 <= i < |leaves| ==> leaves[i] < |dl|)
    && LowerBound(At(leaves, freq), Dot(At(leaves, freq), At(leaves, dl)))
  }

  /** Among the shortest prefix codes for the symbols `leaves` there is one without lengths above `max`. */
  ghost predicate FitsLimit(freq: seq<nat>, leaves: seq<nat>, max: nat) {
    && (forall i :: 0 <= i < |leaves| ==> leaves[i] < |freq|)
    && exists lens: seq<nat> :: |lens| == |leaves| && PrefixCode(lens, max) && LowerBound(At(leaves, freq), Dot(At(leaves, freq), lens))
  }

  lemma {:induction false} DotIsSum(ids: seq<nat>, freq: seq<nat>, dl: seq<nat>)
    requires |freq| == |dl| && forall j :: 0 <= j < |ids| ==> ids[j] < |dl|
    ensures Dot(At(ids, freq), At(ids, dl)) == Sum(At(ids, Product(freq, dl)))
  {
    if ids != [] {
      var n := |ids| - 1;
      DotIsSum(ids[..n], freq, dl);
      assert At(ids, freq)[..n] == At(ids[..n], freq);
      assert At(ids, dl)[..n] == At(ids[..n], dl);
      assert At(ids, Product(freq, dl))[..n] == At(ids[..n], Product(freq, dl));
    }
  }

  lemma {:induction false} RoomIsSum(ids: seq<nat>, dl: seq<nat>, max: nat)
    requires forall j :: 0 <= j < |ids| ==> ids[j] < |dl| && dl[ids[j]] <= max
    ensures Room(At(ids, dl), max) == Sum(At(ids, Weight(dl, max)))
  {
    if ids != [] {
      var n := |ids| - 1;
      RoomIsSum(ids[..n], dl, max);
      assert At(ids, dl)[..n] == At(ids[..n], dl);
      assert At(ids, Weight(dl, max))[..n] == At(ids[..n], Weight(dl, max));
    }
  }

  // Lengths that fill no more than the space are those of a prefix code.
  lemma {:induction false} IsPrefixCode(dl: seq<nat>, leaves: seq<nat>, max: nat)
    requires forall j :: 0 <= j < |leaves| ==> leaves[j] < |dl| && dl[leaves[j]] <= max
    requires Sum(At(leaves, Weight(dl, max))) <= Pow2(max)
    ensures PrefixCode(At(leaves, dl), max)
  {
    RoomIsSum(leaves, dl, max);
  }

  // Optimal lengths within the limit are a witness.
  lemma {:induction false} OptimalFits(freq: seq<nat>, dl: seq<nat>, leaves: seq<nat>, max: nat)
    requires Optimal(freq, dl, leaves) && forall j :: 0 <= j < |leaves| ==> dl[leaves[j]] <= max
    requires Sum(At(leaves, Weight(dl, max))) <= Pow2(max)
    ensures FitsLimit(freq, leaves, max)
  {
    hide LowerBound, PrefixCode, Sum, Pow2, Dot;
    IsPrefixCode(dl, leaves, max);
  }

  // Every node is as far below the root as its own tree leaves room for.
  lemma {:induction false} DepthAndHeight(dl: seq<nat>, depth: seq<nat>, elems: nat, leaves: seq<nat>, ms: seq<Pair>, max: nat, i: nat)
    requires Depths(dl, elems, ms, max) && Grown(depth, elems, leaves, ms) && Spanning(elems, leaves, ms) && i < |ms|
    ensures dl[elems + i] + depth[elems + i] <= depth[elems + |ms| - 1]
    decreases |ms| - i
  {
    hide Spanning, Made;
    if i < |ms| - 1 {
      MadeListed(elems, leaves, |ms|, i);
      var j := SonOrRoot(elems, leaves, ms, elems + i);
      assert i < j;
      DepthAndHeight(dl, depth, elems, leaves, ms, max, j);
    }
  }

  lemma {:induction false} NoneAt(dl: seq<nat>, elems: nat, k: nat, l: nat)
    requires elems + k <= |dl| && forall x :: elems <= x < elems + k ==> dl[x] != l
    ensures MadeAt(dl, elems, k, l) == 0
  {
    if k > 0 {
      NoneAt(dl, elems, k - 1, l);
    }
  }

  /** Nothing is cut from a tree that is no higher than the limit. */
  lemma {:induction false} LowUncut(dl: seq<nat>, depth: seq<nat>, elems: nat, leaves: seq<nat>, ms: seq<Pair>, max: nat)
    requires Depths(dl, elems, ms, max) && Grown(depth, elems, leaves, ms) && Spanning(elems, leaves, ms)
    requires depth[elems + |ms| - 1] <= max
    ensures MadeAt(dl, elems, |ms|, max) == 0
  {
    hide Spanning;
    forall x | elems <= x < elems + |ms|
      ensures dl[x] != max
    {
      var i := x - elems;
      DepthAndHeight(dl, depth, elems, leaves, ms, max, i);
      assert depth[elems + i] == Over(depth[ms[i].n], depth[ms[i].m]);
    }
    NoneAt(dl, elems, |ms|, max);
  }

  lemma {:induction false} OtherSons(elems: nat, leaves: seq<nat>, ms: seq<Pair>, i: nat, k: nat)
    requires Spanning(elems, leaves, ms) && i < |ms| && k < |ms| && i != k
    ensures ms[i].n != ms[k].n && ms[i].n != ms[k].m && ms[i].m != ms[k].n && ms[i].m != ms[k].m
  {
    hide Spanning, Children;
    SonsDistinct(elems, leaves, ms);
    SonsListed(ms, i);
    SonsListed(ms, k);
    var c := Children(ms);
    assert c[2 * i] != c[2 * k] && c[2 * i] != c[2 * k + 1] && c[2 * i + 1] != c[2 * k] && c[2 * i + 1] != c[2 * k + 1];
  }

  // Give the sons of all nodes made by the k-th merge and later ones their lengths.
  lemma {:induction false} LayOut(depth: seq<nat>, elems: nat, leaves: seq<nat>, ms: seq<Pair>, max: nat, size: nat, k: nat)
    returns (g: seq<nat>)
    requires Spanning(elems, leaves, ms) && Grown(depth, elems, leaves, ms) && 0 < |ms| && elems + |ms| <= size && k <= |ms|
    ensures |g| == size && g[elems + |ms| - 1] == 0
    ensures forall i :: k <= i < |ms| ==>
              g[ms[i].n] == Cap(g[elems + i] + 1, max) && g[ms[i].m] == Cap(g[elems + i] + 1, max)
    decreases |ms| - k
  {
    hide Spanning;
    if k == |ms| {
      g := seq(size, _ => 0);
    } else {
      var g0 := LayOut(depth, elems, leaves, ms, max, size, k + 1);
      var l := Cap(g0[elems + k] + 1, max);
      g := g0[ms[k].n := l][ms[k].m := l];
      forall i | k < i < |ms|
        ensures g[ms[i].n] == Cap(g[elems + i] + 1, max) && g[ms[i].m] == Cap(g[elems + i] + 1, max)
      {
        OtherSons(elems, leaves, ms, i, k);
      }
    }
  }

  /** The tree itself is a prefix code that costs what the merges did. */
  lemma {:induction false} OwnLengths(freq: seq<nat>, depth: seq<nat>, elems: nat, leaves: seq<nat>, ms: seq<Pair>) returns (lens: seq<nat>, m: nat)
    requires Spanning(elems, leaves, ms) && Grown(depth, elems, leaves, ms) && Fathers(freq, elems, ms) && 0 < |ms|
    requires forall i :: 0 <= i < |leaves| ==> leaves[i] < |freq|
    ensures |lens| == |leaves| && PrefixCode(lens, m) && Dot(At(leaves, freq), lens) == Merged(freq, elems, |ms|)
  {
    hide Spanning, Made, Weight, Sum, PrefixCode, Merged;
    m := depth[elems + |ms| - 1];
    FathersRoom(freq, elems, ms);
    var g := LayOut(depth, elems, leaves, ms, m, |freq|, 0);
    assert Depths(g, elems, ms, m);
    hide Grown, Fathers, Depths;
    LowUncut(g, depth, elems, leaves, ms, m);
    LeavesCost(freq, g, elems, leaves, ms, m);
    DotIsSum(leaves, freq, g);
    LeavesRoom(g, elems, leaves, ms, m);
    forall j | 0 <= j < |leaves|
      ensures g[leaves[j]] <= m
    {
      assert (leaves + Made(elems, |ms|))[j] == leaves[j];
      DepthsBounded(g, elems, leaves, ms, m, leaves[j]);
    }
    IsPrefixCode(g, leaves, m);
    lens := At(leaves, g);
  }

  lemma {:induction false} LeavesFlat(depth: seq<nat>, elems: nat, leaves: seq<nat>, ms: seq<Pair>)
    requires Grown(depth, elems, leaves, ms)
    ensures elems + |ms| <= |depth| && forall i :: 0 <= i < |leaves| ==> leaves[i] < |depth| && At(leaves, depth)[i] == 0
  {
  }

  /** If any optimal code fits the limit, the tree is no higher than that. */
  lemma {:induction false} FitsLow(freq: seq<nat>, depth: seq<nat>, elems: nat, leaves: seq<nat>, ms: seq<Pair>, max: nat)
    requires Spanning(elems, leaves, ms) && Grown(depth, elems, leaves, ms) && Fathers(freq, elems, ms)
    requires Cheapest(freq, depth, elems, leaves, ms) && FitsLimit(freq, leaves, max)
    ensures depth[elems + |ms| - 1] <= max
  {
    hide Spanning, Grown, Fathers, Merged, Dot, Room;
    LeavesFlat(depth, elems, leaves, ms);
    var w, h := At(leaves, freq), depth[elems + |ms| - 1];
    var lens: seq<nat> :| |lens| == |leaves| && PrefixCode(lens, max) && LowerBound(w, Dot(w, lens));
    var tree, m := OwnLengths(freq, depth, elems, leaves, ms);
    assert Dot(w, lens) <= Dot(w, tree);
    assert !Within(At(leaves, depth), lens, h);
    var i :| 0 <= i < |lens| && lens[i] + At(leaves, depth)[i] >= h;
  }

  /** A tree that is cut had to be: no optimal code fits the limit. */
  lemma {:induction false} CutNotFitting(freq: seq<nat>, depth: seq<nat>, dl: seq<nat>, elems: nat, leaves: seq<nat>, ms: seq<Pair>, max: nat)
    requires Spanning(elems, leaves, ms) && Grown(depth, elems, leaves, ms) && Fathers(freq, elems, ms)
    requires Cheapest(freq, depth, elems, leaves, ms) && Depths(dl, elems, ms, max) && MadeAt(dl, elems, |ms|, max) > 0
    ensures !FitsLimit(freq, leaves, max)
  {
    hide Spanning, Grown, Fathers, Cheapest, Depths, FitsLimit;
    if FitsLimit(freq, leaves, max) {
      FitsLow(freq, depth, elems, leaves, ms, max);
      LowUncut(dl, depth, elems, leaves, ms, max);
    }
  }

  /** The lengths of an uncut tree are optimal. */
  lemma {:induction false} UncutOptimal(freq: seq<nat>, depth: seq<nat>, dl: seq<nat>, elems: nat, leaves: seq<nat>, ms: seq<Pair>, max: nat)
    requires Depths(dl, elems, ms, max) && Spanning(elems, leaves, ms) && Fathers(freq, elems, ms) && |freq| == |dl|
    requires Cheapest(freq, depth, elems, leaves, ms) && MadeAt(dl, elems, |ms|, max) == 0
    ensures Optimal(freq, dl, leaves)
  {
    hide Spanning, Fathers, Depths, LowerBound, TallBound;
    LeavesCost(freq, dl, elems, leaves, ms, max);
    DotIsSum(leaves, freq, dl);
    TallIsLower(At(leaves, freq), At(leaves, depth), Merged(freq, elems, |ms|), depth[elems + |ms| - 1]);
  }
}
