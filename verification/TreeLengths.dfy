/** Code lengths from the depths of a tree (gen_bitlen in trees.c).

The length of a node is one more than that of its father, but no more than `max`.
The identities here say what the lengths of the leaves add up to. */
module TreeLengths {
  import opened Bits
  import opened HuffmanBound
  import opened HuffmanForest
  import opened HuffmanMerge
  import opened HuffmanTree

  function Cap(l: nat, max: nat): nat {
    if l > max then max else l
  }

  // Every node below the root has the length its father gives it.
  ghost predicate Depths(dl: seq<nat>, elems: nat, ms: seq<Pair>, max: nat) {
    && elems + |ms| <= |dl| && |ms| > 0 && dl[elems + |ms| - 1] == 0
    && forall i :: 0 <= i < |ms| ==>
         && ms[i].n < elems + i && ms[i].m < elems + i
         && dl[ms[i].n] == Cap(dl[elems + i] + 1, max) && dl[ms[i].m] == Cap(dl[elems + i] + 1, max)
  }

  // How many of the first `k` nodes made satisfy len == l.
  function MadeAt(dl: seq<nat>, elems: nat, k: nat, l: nat): (q: nat)
    requires elems + k <= |dl|
    ensures q <= k
  {
    if k == 0 then 0 else MadeAt(dl, elems, k - 1, l) + if dl[elems + k - 1] == l then 1 else 0
  }

  // What a node of each length takes of 2^max.
  function Weight(dl: seq<nat>, max: nat): (r: seq<nat>)
    ensures |r| == |dl|
  {
    seq(|dl|, x requires 0 <= x < |dl| => if dl[x] <= max then Pow2(max - dl[x]) else 0)
  }

  function Product(freq: seq<nat>, dl: seq<nat>): (r: seq<nat>)
    requires |freq| == |dl|
    ensures |r| == |dl|
  {
    seq(|dl|, x requires 0 <= x < |dl| => freq[x] * dl[x])
  }

  // Marks the nodes of length `l`.
  function Mark(dl: seq<nat>, l: nat): (r: seq<nat>)
    ensures |r| == |dl|
  {
    seq(|dl|, x requires 0 <= x < |dl| => if dl[x] == l then 1 else 0)
  }

  lemma {:induction false} SumConcat(a: seq<nat>, b: seq<nat>)
    ensures Sum(a + b) == Sum(a) + Sum(b)
  {
    if b == [] {
      assert a + b == a;
    } else {
      assert (a + b)[..|a| + |b| - 1] == a + b[..|b| - 1];
      SumConcat(a, b[..|b| - 1]);
    }
  }

  lemma {:induction false} AtConcat(a: seq<nat>, b: seq<nat>, g: seq<nat>)
    requires forall i :: 0 <= i < |a| ==> a[i] < |g|
    requires forall i :: 0 <= i < |b| ==> b[i] < |g|
    ensures forall i :: 0 <= i < |a + b| ==> (a + b)[i] < |g|
    ensures At(a + b, g) == At(a, g) + At(b, g)
    ensures Sum(At(a + b, g)) == Sum(At(a, g)) + Sum(At(b, g))
  {
    assert At(a + b, g) == At(a, g) + At(b, g);
    SumConcat(At(a, g), At(b, g));
  }

  // What the sons of node i have together.
  function Sons(ms: seq<Pair>, g: seq<nat>, i: nat): nat
    requires i < |ms| && ms[i].n < |g| && ms[i].m < |g|
  {
    g[ms[i].n] + g[ms[i].m]
  }

  /** If the sons of every node have `a[i]` together, all sons have the sum of `a`. */
  lemma {:induction false} SonsSum(ms: seq<Pair>, g: seq<nat>, a: seq<nat>)
    requires |a| == |ms| && forall i :: 0 <= i < |ms| ==> ms[i].n < |g| && ms[i].m < |g|
    requires forall i :: 0 <= i < |ms| ==> a[i] == Sons(ms, g, i)
    ensures forall i :: 0 <= i < 2 * |ms| ==> Children(ms)[i] < |g|
    ensures Sum(At(Children(ms), g)) == Sum(a)
  {
    if ms != [] {
      var k := |ms| - 1;
      forall i | 0 <= i < k
        ensures a[..k][i] == Sons(ms[..k], g, i)
      {
        assert a[i] == Sons(ms, g, i);
      }
      SonsSum(ms[..k], g, a[..k]);
      var p := [ms[k].n, ms[k].m];
      AtConcat(Children(ms[..k]), p, g);
      PairSum(ms[k].n, ms[k].m, g);
      assert a[k] == Sons(ms, g, k);
    } else {
      assert At(Children(ms), g) == [];
    }
  }

  lemma {:induction false} PairSum(n: nat, m: nat, g: seq<nat>)
    requires n < |g| && m < |g|
    ensures Sum(At([n, m], g)) == g[n] + g[m]
  {
    SumPair(g, n, m, []);
    assert [n, m] + [] == [n, m] && At([], g) == [];
  }

  /** The leaves and the nodes made have together what the sons and the root have. */
  lemma {:induction false} WholeTree(elems: nat, leaves: seq<nat>, ms: seq<Pair>, g: seq<nat>, a: seq<nat>)
    requires Spanning(elems, leaves, ms) && elems + |ms| <= |g| && |a| == |ms|
    requires forall i :: 0 <= i < |ms| ==> ms[i].n < |g| && ms[i].m < |g|
    requires forall i :: 0 <= i < |ms| ==> a[i] == Sons(ms, g, i)
    ensures Sum(a) + g[elems + |ms| - 1] == Sum(At(leaves, g)) + Sum(At(Made(elems, |ms|), g))
  {
    hide Children, Made, Sons;
    var root := [elems + |ms| - 1];
    SonsSum(ms, g, a);
    AtConcat(Children(ms), root, g);
    assert At(root, g) == [g[root[0]]] && Sum([g[root[0]]]) == Sum([]) + g[root[0]];
    AtContents(Children(ms) + root, leaves + Made(elems, |ms|), g);
    AtConcat(leaves, Made(elems, |ms|), g);
  }

  // Sums over the nodes made, one by one.
  lemma {:induction false} MadeSum(elems: nat, k: nat, g: seq<nat>)
    requires elems + k < |g|
    ensures Sum(At(Made(elems, k + 1), g)) == Sum(At(Made(elems, k), g)) + g[elems + k]
  {
    assert At(Made(elems, k + 1), g)[..k] == At(Made(elems, k), g);
  }

  // The sums of two sequences that differ by a third.
  lemma {:induction false} SumOfSums(a: seq<nat>, b: seq<nat>, c: seq<nat>)
    requires |a| == |b| == |c| && forall i :: 0 <= i < |a| ==> a[i] == b[i] + c[i]
    ensures Sum(a) == Sum(b) + Sum(c)
  {
    if a != [] {
      SumOfSums(a[..|a| - 1], b[..|a| - 1], c[..|a| - 1]);
    }
  }

  lemma {:induction false} MadeAtSum(dl: seq<nat>, elems: nat, k: nat, l: nat)
    requires elems + k <= |dl|
    ensures Sum(At(Made(elems, k), Mark(dl, l))) == MadeAt(dl, elems, k, l)
  {
    if k > 0 {
      MadeAtSum(dl, elems, k - 1, l);
      MadeSum(elems, k - 1, Mark(dl, l));
    } else {
      assert At(Made(elems, 0), Mark(dl, l)) == [];
    }
  }

  lemma {:induction false} WeightHalves(l: nat, max: nat)
    requires l <= max
    ensures l < max ==> Pow2(max - (l + 1)) + Pow2(max - (l + 1)) == Pow2(max - l)
    ensures Pow2(0) == 1
  {
  }

  lemma {:induction false} SonsWeight(dl: seq<nat>, elems: nat, ms: seq<Pair>, max: nat, i: nat)
    requires Depths(dl, elems, ms, max) && i < |ms| && dl[elems + i] <= max
    ensures Sons(ms, Weight(dl, max), i) == Weight(dl, max)[elems + i] + Mark(dl, max)[elems + i]
  {
    WeightHalves(dl[elems + i], max);
  }

  // No node is longer than `max`.
  lemma {:induction false} DepthsBounded(dl: seq<nat>, elems: nat, leaves: seq<nat>, ms: seq<Pair>, max: nat, x: nat)
    requires Depths(dl, elems, ms, max) && Spanning(elems, leaves, ms) && x in leaves + Made(elems, |ms|)
    ensures x < |dl| && dl[x] <= max
    ensures x != elems + |ms| - 1 && max > 0 ==> dl[x] > 0
  {
    var i := SonOrRoot(elems, leaves, ms, x);
  }

  lemma {:induction false} SpanningNodes(elems: nat, leaves: seq<nat>, ms: seq<Pair>)
    requires Spanning(elems, leaves, ms)
    ensures SameNodes(leaves + Made(elems, |ms|), Children(ms) + [elems + |ms| - 1])
  {
    hide Children, Made;
  }

  lemma {:induction false} SonOrRoot(elems: nat, leaves: seq<nat>, ms: seq<Pair>, x: nat) returns (i: nat)
    requires Spanning(elems, leaves, ms) && x in leaves + Made(elems, |ms|)
    ensures x == elems + |ms| - 1 || (i < |ms| && (x == ms[i].n || x == ms[i].m))
  {
    hide SameNodes, Children, Made;
    i := 0;
    var l, c := leaves + Made(elems, |ms|), Children(ms) + [elems + |ms| - 1];
    SpanningNodes(elems, leaves, ms);
    SameMembers(l, c);
    var p :| 0 <= p < |l| && l[p] == x;
    var j :| 0 <= j < |c| && c[j] == x;
    if j < 2 * |ms| {
      SonsListed(ms, j / 2);
      assert c[j] == Children(ms)[j];
      i := j / 2;
    }
  }

  function MadeValues(elems: nat, k: nat, g: seq<nat>): (r: seq<nat>)
    requires elems + k <= |g|
    ensures |r| == k && forall i :: 0 <= i < k ==> r[i] == g[elems + i]
  {
    g[elems..elems + k]
  }

  lemma {:induction false} MadeValuesAt(elems: nat, k: nat, g: seq<nat>)
    requires elems + k <= |g|
    ensures At(Made(elems, k), g) == MadeValues(elems, k, g)
  {
  }

  // The weight of each pair of sons: that of the node made of them, and one more for a capped node.
  lemma {:induction false} SonsRoom(dl: seq<nat>, elems: nat, leaves: seq<nat>, ms: seq<Pair>, max: nat)
    returns (a: seq<nat>)
    requires Depths(dl, elems, ms, max) && Spanning(elems, leaves, ms)
    ensures |a| == |ms| && forall i :: 0 <= i < |ms| ==> ms[i].n < |dl| && ms[i].m < |dl| && a[i] == Sons(ms, Weight(dl, max), i)
    ensures Sum(a) == Sum(MadeValues(elems, |ms|, Weight(dl, max))) + Sum(MadeValues(elems, |ms|, Mark(dl, max)))
  {
    hide Spanning, Made, Pow2, Weight, Mark, Sons, Sum;
    var b, c := MadeValues(elems, |ms|, Weight(dl, max)), MadeValues(elems, |ms|, Mark(dl, max));
    a := seq(|ms|, i requires 0 <= i < |ms| => b[i] + c[i]);
    forall i | 0 <= i < |ms|
      ensures ms[i].n < |dl| && ms[i].m < |dl| && a[i] == Sons(ms, Weight(dl, max), i)
    {
      MadeListed(elems, leaves, |ms|, i);
      DepthsBounded(dl, elems, leaves, ms, max, elems + i);
      SonsWeight(dl, elems, ms, max, i);
    }
    SumOfSums(a, b, c);
  }

  lemma {:induction false} RootWeight(dl: seq<nat>, elems: nat, ms: seq<Pair>, max: nat)
    requires Depths(dl, elems, ms, max)
    ensures Weight(dl, max)[elems + |ms| - 1] == Pow2(max)
  {
    hide Pow2;
  }

  /** The room of the leaves: each capped node that is not a leaf adds one. */
  lemma {:induction false} LeavesRoom(dl: seq<nat>, elems: nat, leaves: seq<nat>, ms: seq<Pair>, max: nat)
    requires Depths(dl, elems, ms, max) && Spanning(elems, leaves, ms)
    ensures Sum(At(leaves, Weight(dl, max))) == Pow2(max) + MadeAt(dl, elems, |ms|, max)
  {
    hide Spanning, Made, Pow2, Weight, Mark, Sons, Sum, MadeValues, At;
    var w, k := Weight(dl, max), |ms|;
    var a := SonsRoom(dl, elems, leaves, ms, max);
    SpanningLeaves(elems, leaves, ms);
    WholeTree(elems, leaves, ms, w, a);
    MadeValuesAt(elems, k, w);
    MadeValuesAt(elems, k, Mark(dl, max));
    MadeAtSum(dl, elems, k, max);
    RootWeight(dl, elems, ms, max);
  }

  lemma {:induction false} SpanningLeaves(elems: nat, leaves: seq<nat>, ms: seq<Pair>)
    requires Spanning(elems, leaves, ms)
    ensures |leaves| == |ms| + 1 && forall i :: 0 <= i < |leaves| ==> leaves[i] < elems
  {
  }

  lemma {:induction false} MadeListed(elems: nat, leaves: seq<nat>, k: nat, i: nat)
    requires i < k
    ensures elems + i in leaves + Made(elems, k)
  {
    assert (leaves + Made(elems, k))[|leaves| + i] == elems + i;
  }

  lemma {:induction false} SonsCost(f1: nat, f2: nat, l: nat)
    ensures f1 * (l + 1) + f2 * (l + 1) == (f1 + f2) * l + (f1 + f2)
  {
  }

  /** Without capping, the total length of the leaves is what the merges cost. */
  lemma {:induction false} LeavesCost(freq: seq<nat>, dl: seq<nat>, elems: nat, leaves: seq<nat>, ms: seq<Pair>, max: nat)
    requires Depths(dl, elems, ms, max) && Spanning(elems, leaves, ms) && Fathers(freq, elems, ms) && |freq| == |dl|
    requires MadeAt(dl, elems, |ms|, max) == 0
    ensures Sum(At(leaves, Product(freq, dl))) == Merged(freq, elems, |ms|)
  {
    hide Spanning, Made;
    var p, k := Product(freq, dl), |ms|;
    var b, c := MadeValues(elems, k, p), MadeValues(elems, k, freq);
    var a := seq(k, i requires 0 <= i < k => b[i] + c[i]);
    forall i | 0 <= i < k
      ensures a[i] == Sons(ms, p, i)
    {
      MadeListed(elems, leaves, k, i);
      DepthsBounded(dl, elems, leaves, ms, max, elems + i);
      NoneMade(dl, elems, k, max, i);
      SonsCost(freq[ms[i].n], freq[ms[i].m], dl[elems + i]);
    }
    SpanningLeaves(elems, leaves, ms);
    SumOfSums(a, b, c);
    WholeTree(elems, leaves, ms, p, a);
    MadeValuesAt(elems, k, p);
    MadeValuesAt(elems, k, freq);
    assert p[elems + k - 1] == freq[elems + k - 1] * 0;
  }

  lemma {:induction false} NoneMade(dl: seq<nat>, elems: nat, k: nat, l: nat, i: nat)
    requires elems + k <= |dl| && i < k && MadeAt(dl, elems, k, l) == 0
    ensures dl[elems + i] != l
  {
    if i < k - 1 {
      NoneMade(dl, elems, k - 1, l, i);
    }
  }

  /** How many leaves have the greatest length, in terms of the nodes made. */
  lemma {:induction false} LeavesAtMax(dl: seq<nat>, elems: nat, leaves: seq<nat>, ms: seq<Pair>, max: nat)
    requires Depths(dl, elems, ms, max) && Spanning(elems, leaves, ms) && max > 0
    ensures Sum(At(leaves, Mark(dl, max))) == MadeAt(dl, elems, |ms|, max) + 2 * MadeAt(dl, elems, |ms|, max - 1)
  {
    hide Spanning, Made, Sum, At, MadeAt;
    var g, k := Mark(dl, max), |ms|;
    var b, c := MadeValues(elems, k, g), MadeValues(elems, k, Mark(dl, max - 1));
    var h := seq(k, i requires 0 <= i < k => b[i] + c[i]);
    var a := seq(k, i requires 0 <= i < k => h[i] + h[i]);
    forall i | 0 <= i < k
      ensures a[i] == Sons(ms, g, i)
    {
      MadeListed(elems, leaves, k, i);
      DepthsBounded(dl, elems, leaves, ms, max, elems + i);
    }
    SpanningLeaves(elems, leaves, ms);
    SumOfSums(h, b, c);
    SumOfSums(a, h, h);
    WholeTree(elems, leaves, ms, g, a);
    MadeValuesAt(elems, k, g);
    MadeValuesAt(elems, k, Mark(dl, max - 1));
    MadeAtSum(dl, elems, k, max);
    MadeAtSum(dl, elems, k, max - 1);
    assert g[elems + k - 1] == 0;
  }

  lemma {:induction false} LastMade(dl: seq<nat>, elems: nat, k: nat, l: nat) returns (i: nat)
    requires elems + k <= |dl| && MadeAt(dl, elems, k, l) > 0
    ensures i < k && dl[elems + i] == l && forall x :: elems + i < x < elems + k ==> dl[x] != l
  {
    i := k - 1;
    if dl[elems + k - 1] != l {
      i := LastMade(dl, elems, k - 1, l);
    }
  }

  /** A capped node hangs, some levels up, under one that is not capped. */
  lemma {:induction false} CappedHangs(dl: seq<nat>, elems: nat, leaves: seq<nat>, ms: seq<Pair>, max: nat)
    requires Depths(dl, elems, ms, max) && Spanning(elems, leaves, ms) && max > 0
    requires MadeAt(dl, elems, |ms|, max) > 0
    ensures MadeAt(dl, elems, |ms|, max - 1) > 0
  {
    hide Spanning, Made;
    var i := LastMade(dl, elems, |ms|, max);
    MadeListed(elems, leaves, |ms|, i);
    var j := SonOrRoot(elems, leaves, ms, elems + i);
    assert i < j;
    MadeListed(elems, leaves, |ms|, j);
    DepthsBounded(dl, elems, leaves, ms, max, elems + j);
    if MadeAt(dl, elems, |ms|, max - 1) == 0 {
      NoneMade(dl, elems, |ms|, max - 1, j);
    }
  }
}
