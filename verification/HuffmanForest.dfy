/** The forest of a Huffman construction while its trees are merged (build_tree in trees.c).

Nodes below `elems` are symbols, node elems + i is made by the i-th merge.  The
trees still to be merged have their roots in `active`. */
module HuffmanForest {
  import opened Bits
  import opened Heap
  import opened HuffmanBound

  // One merge: `n` was the least node and `m` the next.
  datatype Pair = Pair(n: nat, m: nat)

  // The entries of `g` for the nodes `ids`.
  function At(ids: seq<nat>, g: seq<nat>): (r: seq<nat>)
    requires forall j :: 0 <= j < |ids| ==> ids[j] < |g|
    ensures |r| == |ids|
  {
    seq(|ids|, j requires 0 <= j < |ids| => g[ids[j]])
  }

  function Sum(s: seq<nat>): nat {
    if s == [] then 0 else Sum(s[..|s| - 1]) + s[|s| - 1]
  }

  lemma {:induction false} SumWithout(s: seq<nat>, i: nat)
    requires i < |s|
    ensures Sum(s) == Sum(Without(s, i)) + s[i]
  {
    var n := |s| - 1;
    if i < n {
      SumWithout(s[..n], i);
      assert Without(s, i)[..n - 1] == Without(s[..n], i);
    } else {
      assert Without(s, i) == s[..n];
    }
  }

  // Reordering nodes reorders their entries.
  lemma {:induction false} AtContents(a: seq<nat>, b: seq<nat>, g: seq<nat>)
    requires SameNodes(a, b)
    requires forall j :: 0 <= j < |a| ==> a[j] < |g|
    ensures forall j :: 0 <= j < |b| ==> b[j] < |g|
    ensures multiset(At(a, g)) == multiset(At(b, g)) && Sum(At(a, g)) == Sum(At(b, g))
    decreases |a|
  {
    SameSize(a, b);
    forall j | 0 <= j < |b|
      ensures b[j] < |g|
    {
      assert b[j] in multiset(a);
    }
    if a == [] {
      assert At(a, g) == At(b, g) == [];
    } else {
      var n := |a| - 1;
      assert a[n] in multiset(b);
      var i :| 0 <= i < |b| && b[i] == a[n];
      WithoutContents(a, n);
      WithoutContents(b, i);
      AtContents(Without(a, n), Without(b, i), g);
      WithoutAt(a, g, n);
      WithoutAt(b, g, i);
    }
  }

  lemma {:induction false} WithoutAt(a: seq<nat>, g: seq<nat>, i: nat)
    requires i < |a| && forall j :: 0 <= j < |a| ==> a[j] < |g|
    ensures forall j :: 0 <= j < |a| - 1 ==> Without(a, i)[j] < |g|
    ensures multiset(At(a, g)) == multiset(At(Without(a, i), g)) + multiset{g[a[i]]}
    ensures Sum(At(a, g)) == Sum(At(Without(a, i), g)) + g[a[i]]
  {
    assert At(Without(a, i), g) == Without(At(a, g), i);
    WithoutContents(At(a, g), i);
    SumWithout(At(a, g), i);
    assert At(a, g)[i] == g[a[i]];
    assert g[a[i]] in multiset(At(a, g));
  }

  // The nodes merged, in the order of their merging.
  function Children(ms: seq<Pair>): (r: seq<nat>)
    ensures |r| == 2 * |ms|
  {
    if ms == [] then [] else Children(ms[..|ms| - 1]) + [ms[|ms| - 1].n, ms[|ms| - 1].m]
  }

  // The nodes made by the first `k` merges.
  function Made(elems: nat, k: nat): (r: seq<nat>)
    ensures |r| == k && forall i :: 0 <= i < k ==> r[i] == elems + i
  {
    seq(k, i requires 0 <= i < k => elems + i)
  }

  ghost predicate Distinct(s: seq<nat>) {
    forall i, j :: 0 <= i < j < |s| ==> s[i] != s[j]
  }

  /** Every symbol and every node made is a son or an active root, and only one of them. */
  ghost predicate Forest(freq: seq<nat>, elems: nat, leaves: seq<nat>, ms: seq<Pair>, active: seq<nat>) {
    && Distinct(leaves) && (forall i :: 0 <= i < |leaves| ==> leaves[i] < elems)
    && SameNodes(Children(ms) + active, leaves + Made(elems, |ms|))
    && Fathers(freq, elems, ms)
  }

  ghost predicate SameNodes(a: seq<nat>, b: seq<nat>) {
    multiset(a) == multiset(b)
  }

  lemma {:induction false} SameMembers(a: seq<nat>, b: seq<nat>)
    requires SameNodes(a, b)
    ensures forall i :: 0 <= i < |a| ==> a[i] in b
  {
    forall i | 0 <= i < |a|
      ensures a[i] in b
    {
      assert a[i] in multiset(a);
    }
  }

  lemma {:induction false} SameDistinct(a: seq<nat>, b: seq<nat>)
    requires SameNodes(a, b) && Distinct(b)
    ensures Distinct(a)
  {
    forall x: nat
      ensures multiset(a)[x] <= 1
    {
      DistinctCount(b, x);
    }
    CountDistinct(a);
  }

  // Every node made is as frequent as its two sons together, which were there before it.
  ghost predicate Fathers(freq: seq<nat>, elems: nat, ms: seq<Pair>) {
    && elems + |ms| <= |freq|
    && forall i :: 0 <= i < |ms| ==>
         ms[i].n < elems + i && ms[i].m < elems + i && freq[elems + i] == freq[ms[i].n] + freq[ms[i].m]
  }

  lemma {:induction false} FathersStep(freq: seq<nat>, elems: nat, ms: seq<Pair>, n: nat, m: nat, v: nat)
    requires Fathers(freq, elems, ms) && elems + |ms| < |freq|
    requires n < elems + |ms| && m < elems + |ms| && v == freq[n] + freq[m]
    ensures Fathers(freq[elems + |ms| := v], elems, ms + [Pair(n, m)])
  {
  }

  /** Symbols are trees of height 0, and every tree made is one higher than the higher of its sons. */
  ghost predicate Grown(depth: seq<nat>, elems: nat, leaves: seq<nat>, ms: seq<Pair>) {
    && elems + |ms| <= |depth| && (forall i :: 0 <= i < |leaves| ==> leaves[i] < elems && depth[leaves[i]] == 0)
    && forall i :: 0 <= i < |ms| ==>
         && ms[i].n < elems + i && ms[i].m < elems + i
         && depth[elems + i] == Over(depth[ms[i].n], depth[ms[i].m])
  }

  lemma {:induction false} GrownStep(depth: seq<nat>, elems: nat, leaves: seq<nat>, ms: seq<Pair>, n: nat, m: nat)
    requires Grown(depth, elems, leaves, ms) && elems + |ms| < |depth| && n < elems + |ms| && m < elems + |ms|
    ensures Grown(depth[elems + |ms| := Over(depth[n], depth[m])], elems, leaves, ms + [Pair(n, m)])
  {
  }

  lemma {:induction false} DistinctCount(s: seq<nat>, x: nat)
    requires Distinct(s)
    ensures multiset(s)[x] <= 1
  {
    if s != [] {
      var n := |s| - 1;
      assert s == s[..n] + [s[n]];
      DistinctCount(s[..n], x);
      if x == s[n] {
        assert forall i :: 0 <= i < n ==> s[..n][i] != x;
        assert x !in s[..n];
      }
    }
  }

  lemma {:induction false} CountDistinct(s: seq<nat>)
    requires forall x: nat :: multiset(s)[x] <= 1
    ensures Distinct(s)
  {
    forall i, j | 0 <= i < j < |s|
      ensures s[i] != s[j]
    {
      assert s == s[..i] + [s[i]] + s[i + 1..j] + [s[j]] + s[j + 1..];
      assert multiset(s)[s[i]] <= 1;
    }
  }

  lemma {:induction false} FathersRoom(freq: seq<nat>, elems: nat, ms: seq<Pair>)
    requires Fathers(freq, elems, ms)
    ensures elems + |ms| <= |freq|
  {
  }

  // No node stands twice among the sons and the active roots.
  lemma {:induction false} NodesDistinct(freq: seq<nat>, elems: nat, leaves: seq<nat>, ms: seq<Pair>, active: seq<nat>)
    requires Forest(freq, elems, leaves, ms, active)
    ensures Distinct(Children(ms) + active)
    ensures forall i :: 0 <= i < |active| ==> active[i] < elems + |ms| && active[i] < |freq|
    ensures elems + |ms| <= |freq|
  {
    hide SameNodes, Children, Fathers;
    FathersRoom(freq, elems, ms);
    var all, l := Children(ms) + active, leaves + Made(elems, |ms|);
    assert Distinct(l);
    SameDistinct(all, l);
    SameMembers(all, l);
    forall i | 0 <= i < |all|
      ensures all[i] < elems + |ms|
    {
      assert all[i] in l;
    }
    assert forall i :: 0 <= i < |active| ==> active[i] == all[|Children(ms)| + i];
  }

  lemma {:induction false} ChildrenMore(ms: seq<Pair>, p: Pair)
    ensures Children(ms + [p]) == Children(ms) + [p.n, p.m]
  {
    assert (ms + [p])[..|ms|] == ms;
  }

  // The active nodes are `n`, `m` and `rest` before a merge, and `rest` and the new node after it.
  lemma {:induction false} ForestStep(freq: seq<nat>, elems: nat, leaves: seq<nat>, ms: seq<Pair>, active: seq<nat>,
                                      n: nat, m: nat, rest: seq<nat>, active1: seq<nat>, v: nat)
    requires Forest(freq, elems, leaves, ms, active) && elems + |ms| < |freq|
    requires SameNodes(active, [n, m] + rest)
    requires SameNodes(active1, rest + [elems + |ms|])
    requires n < elems + |ms| && m < elems + |ms| && v == freq[n] + freq[m]
    ensures Forest(freq[elems + |ms| := v], elems, leaves, ms + [Pair(n, m)], active1)
  {
    hide SameNodes, Children, Made, Fathers;
    FathersStep(freq, elems, ms, n, m, v);
    ChildrenMore(ms, Pair(n, m));
    ForestContents(Children(ms), active, n, m, rest, elems + |ms|, active1, leaves, Made(elems, |ms|));
    MadeMore(elems, |ms|);
  }

  lemma {:induction false} MadeMore(elems: nat, k: nat)
    ensures Made(elems, k + 1) == Made(elems, k) + [elems + k]
  {
  }

  lemma {:induction false} ForestContents(sons: seq<nat>, active: seq<nat>, n: nat, m: nat, rest: seq<nat>,
                                          node: nat, active1: seq<nat>, leaves: seq<nat>, made: seq<nat>)
    requires SameNodes(active, [n, m] + rest) && SameNodes(active1, rest + [node])
    requires SameNodes(sons + active, leaves + made)
    ensures SameNodes(sons + [n, m] + active1, leaves + (made + [node]))
  {
    assert multiset([n, m] + rest) == multiset([n, m]) + multiset(rest);
    assert multiset(rest + [node]) == multiset(rest) + multiset([node]);
    assert multiset(sons + [n, m] + active1) == multiset(sons) + multiset([n, m]) + multiset(active1);
    assert multiset(sons + active) == multiset(sons) + multiset(active);
    assert multiset(leaves + (made + [node])) == multiset(leaves) + multiset(made) + multiset([node]);
    assert multiset(leaves + made) == multiset(leaves) + multiset(made);
  }

  // The nodes have been merged in the order of their frequencies, and no active node is below them.
  ghost predicate Ordered(freq: seq<nat>, sons: seq<nat>, active: seq<nat>) {
    && (forall j :: 0 <= j < |sons| ==> sons[j] < |freq|)
    && (forall i, j :: 0 <= i <= j < |sons| ==> freq[sons[i]] <= freq[sons[j]])
    && (forall i, j :: 0 <= i < |sons| && 0 <= j < |active| ==>
          active[j] < |freq| && freq[sons[i]] <= freq[active[j]])
  }

  lemma {:induction false} OrderedStep(freq: seq<nat>, sons: seq<nat>, active: seq<nat>, n: nat, m: nat,
                                       rest: seq<nat>, active1: seq<nat>, node: nat, v: nat)
    requires Ordered(freq, sons, active) && node < |freq| && n < |freq| && m < |freq|
    requires SameNodes(active, [n, m] + rest) && SameNodes(active1, rest + [node])
    requires freq[n] <= freq[m] && forall x :: x in rest ==> x < |freq| && freq[m] <= freq[x]
    requires node != n && node != m && node !in rest && node !in sons && v == freq[n] + freq[m]
    ensures Ordered(freq[node := v], sons + [n, m], active1)
  {
    var f, s := freq[node := v], sons + [n, m];
    assert SameNodes([n, m] + rest, active);
    SameMembers([n, m] + rest, active);
    SameMembers(active1, rest + [node]);
    assert ([n, m] + rest)[0] == n && ([n, m] + rest)[1] == m;
    hide SameNodes;
    assert forall j :: 0 <= j < |sons| ==> sons[j] in sons;
    forall i, j | 0 <= i <= j < |s|
      ensures s[i] < |f| && s[j] < |f| && f[s[i]] <= f[s[j]]
    {
      if j < |sons| {
        assert s[i] == sons[i] && s[j] == sons[j];
      } else if i < |sons| {
        assert s[i] == sons[i] && (s[j] == n || s[j] == m);
      }
    }
    forall i, j | 0 <= i < |s| && 0 <= j < |active1|
      ensures active1[j] < |f| && f[s[i]] <= f[active1[j]]
    {
      var x := active1[j];
      assert x in active1;
      if i < |sons| {
        assert s[i] == sons[i] && freq[sons[i]] <= freq[m];
      }
      if x != node {
        assert x in rest;
      }
    }
  }

  // What the merges have cost so far.
  function Merged(freq: seq<nat>, elems: nat, k: nat): nat
    requires elems + k <= |freq|
  {
    Sum(At(Made(elems, k), freq))
  }

  // Where the last of `a` stands in `b`.
  lemma {:induction false} Position(a: seq<nat>, b: seq<nat>) returns (i: nat)
    requires SameNodes(a, b) && a != []
    ensures i < |b| && b[i] == a[|a| - 1] && SameNodes(a[..|a| - 1], Without(b, i))
  {
    var n := |a| - 1;
    assert a[n] in multiset(a);
    assert a[n] in multiset(b);
    i :| 0 <= i < |b| && b[i] == a[n];
    WithoutContents(a, n);
    WithoutContents(b, i);
    assert Without(a, n) == a[..n];
  }

  lemma {:induction false} NodesBelow(a: seq<nat>, b: seq<nat>, n: nat)
    requires SameNodes(a, b) && forall j :: 0 <= j < |a| ==> a[j] < n
    ensures |a| == |b| && forall j :: 0 <= j < |b| ==> b[j] < n
  {
    SameSize(a, b);
    forall j | 0 <= j < |b|
      ensures b[j] < n
    {
      assert b[j] in multiset(a);
    }
  }

  lemma {:induction false} DotPlaced(b: seq<nat>, f: seq<nat>, lens: seq<nat>, i: nat)
    requires |lens| == |b| && i < |b| && forall j :: 0 <= j < |b| ==> b[j] < |f|
    ensures forall j :: 0 <= j < |b| - 1 ==> Without(b, i)[j] < |f|
    ensures Dot(At(b, f), lens) == Dot(At(Without(b, i), f), Without(lens, i)) + f[b[i]] * lens[i]
  {
    DotWithout(At(b, f), lens, i);
    assert Without(At(b, f), i) == At(Without(b, i), f);
  }

  lemma {:induction false} DotLast(a: seq<nat>, f: seq<nat>, r: seq<nat>, l: nat)
    requires |a| == |r| + 1 && forall j :: 0 <= j < |a| ==> a[j] < |f|
    ensures Dot(At(a, f), r + [l]) == Dot(At(a[..|r|], f), r) + f[a[|r|]] * l
  {
    DotMore(At(a, f), r, l);
    assert At(a, f)[..|r|] == At(a[..|r|], f);
  }

  lemma {:induction false} WithinPlaced(a: seq<nat>, b: seq<nat>, d: seq<nat>, lens: seq<nat>, i: nat, r: seq<nat>, e: nat)
    requires |lens| == |b| && i < |b| && |a| == |r| + 1 && b[i] == a[|r|]
    requires forall j :: 0 <= j < |b| ==> b[j] < |d|
    requires forall j :: 0 <= j < |a| ==> a[j] < |d|
    requires Within(At(Without(b, i), d), Without(lens, i), e) ==> Within(At(a[..|r|], d), r, e)
    ensures Within(At(b, d), lens, e) ==> Within(At(a, d), r + [lens[i]], e)
  {
    if Within(At(b, d), lens, e) {
      assert lens[i] + At(b, d)[i] < e;
      forall j | 0 <= j < |b| - 1
        ensures Without(lens, i)[j] + At(Without(b, i), d)[j] < e
      {
        var k := if j < i then j else j + 1;
        assert lens[k] + At(b, d)[k] < e;
      }
      forall j | 0 <= j < |a|
        ensures (r + [lens[i]])[j] + At(a, d)[j] < e
      {
        if j < |r| {
          assert r[j] + At(a[..|r|], d)[j] < e;
        }
      }
    }
  }

  // The same nodes in another order: the lengths can follow them.
  lemma {:induction false} Reorder(a: seq<nat>, b: seq<nat>, f: seq<nat>, d: seq<nat>, lens: seq<nat>, m: nat, e: nat) returns (r: seq<nat>)
    requires SameNodes(a, b) && |lens| == |b| && |f| <= |d|
    requires forall j :: 0 <= j < |a| ==> a[j] < |f|
    requires forall j :: 0 <= j < |b| ==> b[j] < |f|
    requires forall j :: 0 <= j < |lens| ==> lens[j] <= m
    ensures |r| == |a| && (forall j :: 0 <= j < |r| ==> r[j] <= m)
    ensures Room(r, m) == Room(lens, m) && Dot(At(a, f), r) == Dot(At(b, f), lens)
    ensures Within(At(b, d), lens, e) ==> Within(At(a, d), r, e)
    decreases |a|
  {
    hide Room, Dot, Pow2, Within, SameNodes;
    NodesBelow(a, b, |f|);
    r := [];
    if a != [] {
      var n := |a| - 1;
      var i := Position(a, b);
      RoomWithout(lens, m, i);
      DotPlaced(b, f, lens, i);
      r := Reorder(a[..n], Without(b, i), f, d, Without(lens, i), m, e);
      WithinPlaced(a, b, d, lens, i, r, e);
      RoomMore(r, m, lens[i]);
      DotLast(a, f, r, lens[i]);
      r := r + [lens[i]];
    } else {
      assert lens == [] && b == [];
    }
  }

  lemma {:induction false} TallReordered(a: seq<nat>, b: seq<nat>, f: seq<nat>, d: seq<nat>, c: nat, e: nat)
    requires SameNodes(a, b) && |f| <= |d|
    requires forall j :: 0 <= j < |a| ==> a[j] < |f|
    ensures forall j :: 0 <= j < |b| ==> b[j] < |f|
    ensures TallBound(At(a, f), At(a, d), c, e) ==> TallBound(At(b, f), At(b, d), c, e)
  {
    hide Room, Dot, Within, SameNodes;
    NodesBelow(a, b, |f|);
    if TallBound(At(a, f), At(a, d), c, e) {
      forall lens: seq<nat>, m: nat | |lens| == |b| && PrefixCode(lens, m)
        ensures c <= Dot(At(b, f), lens) && (Within(At(b, d), lens, e) ==> c < Dot(At(b, f), lens))
      {
        var r := Reorder(a, b, f, d, lens, m, e);
        assert PrefixCode(r, m);
      }
    }
  }

  /** A bound for the active trees gives one for the symbols. */
  ghost predicate Bounding(freq: seq<nat>, depth: seq<nat>, elems: nat, leaves: seq<nat>, k: nat, active: seq<nat>) {
    && elems + k <= |freq| <= |depth| && (forall i :: 0 <= i < |leaves| ==> leaves[i] < elems)
    && (forall i :: 0 <= i < |active| ==> active[i] < |freq|)
    && forall c: nat, e: nat :: TallBound(At(active, freq), At(active, depth), c, e) ==>
         TallBound(At(leaves, freq), At(leaves, depth), c + Merged(freq, elems, k), e)
  }

  // The nodes `rest` and `m` are no smaller than `n`.
  ghost predicate Least(freq: seq<nat>, depth: seq<nat>, n: nat, m: nat, rest: seq<nat>) {
    && n < |freq| <= |depth| && m < |freq| && Smaller(freq, depth, n, m)
    && forall i :: 0 <= i < |rest| ==> rest[i] < |freq| && Smaller(freq, depth, m, rest[i])
  }

  lemma {:induction false} LeastLast(freq: seq<nat>, depth: seq<nat>, n: nat, m: nat, rest: seq<nat>)
    requires Least(freq, depth, n, m, rest)
    ensures forall i :: 0 <= i < |rest + [m, n]| ==> (rest + [m, n])[i] < |freq|
    ensures LastLeast(At(rest + [m, n], freq), At(rest + [m, n], depth))
  {
    var a, k := rest + [m, n], |rest|;
    var w, d := At(a, freq), At(a, depth);
    forall i | 0 <= i < k
      ensures Smaller(w, d, k, i)
    {
      assert a[i] == rest[i];
    }
    assert Smaller(w, d, k + 1, k);
  }

  lemma {:induction false} MergeNodes(freq: seq<nat>, depth: seq<nat>, n: nat, m: nat, rest: seq<nat>, node: nat, c: nat, e: nat)
    requires Least(freq, depth, n, m, rest) && node < |freq| && node !in rest
    ensures (forall i :: 0 <= i < |rest + [node]| ==> (rest + [node])[i] < |freq|)
            && (forall i :: 0 <= i < |rest + [m, n]| ==> (rest + [m, n])[i] < |freq|)
    ensures var v := freq[n] + freq[m];
            var f, d := freq[node := v], depth[node := Over(depth[n], depth[m])];
            TallBound(At(rest + [node], f), At(rest + [node], d), c, e) ==>
              TallBound(At(rest + [m, n], freq), At(rest + [m, n], depth), c + v, e)
  {
    hide TallBound, LastLeast;
    LeastLast(freq, depth, n, m, rest);
    var v := freq[n] + freq[m];
    var f, d := freq[node := v], depth[node := Over(depth[n], depth[m])];
    var a, k := rest + [m, n], |rest|;
    var w, h := At(a, freq), At(a, depth);
    assert |w| - 2 == k && w[k] == freq[m] && w[k + 1] == freq[n] && h[k] == depth[m] && h[k + 1] == depth[n];
    assert At(rest + [node], f) == w[..k] + [v];
    assert At(rest + [node], d) == h[..k] + [Over(depth[m], depth[n])];
    if TallBound(At(rest + [node], f), At(rest + [node], d), c, e) {
      MergeBound(w, h, c, e);
    }
  }

  lemma {:induction false} BoundingStep(freq: seq<nat>, depth: seq<nat>, elems: nat, leaves: seq<nat>, k: nat, active: seq<nat>,
                                        n: nat, m: nat, rest: seq<nat>, active1: seq<nat>)
    requires Bounding(freq, depth, elems, leaves, k, active) && elems + k < |freq|
    requires n < elems + k && m < elems + k && (forall i :: 0 <= i < |rest| ==> rest[i] < elems + k)
    requires SameNodes(active, [n, m] + rest)
    requires SameNodes(active1, rest + [elems + k])
    requires Least(freq, depth, n, m, rest)
    ensures Bounding(freq[elems + k := freq[n] + freq[m]], depth[elems + k := Over(depth[n], depth[m])], elems, leaves, k + 1, active1)
  {
    hide Merged, TallBound, SameNodes, Least;
    var v, node := freq[n] + freq[m], elems + k;
    var f, d := freq[node := v], depth[node := Over(depth[n], depth[m])];
    assert At(leaves, f) == At(leaves, freq) && At(leaves, d) == At(leaves, depth);
    MergedStep(freq, elems, k, v);
    RestContents(n, m, rest, active);
    SameSwapped(active1, rest + [node]);
    NodesBelow(rest + [node], active1, |freq|);
    forall c: nat, e: nat | TallBound(At(active1, f), At(active1, d), c, e)
      ensures TallBound(At(leaves, f), At(leaves, d), c + Merged(f, elems, k + 1), e)
    {
      TallReordered(active1, rest + [node], f, d, c, e);
      MergeNodes(freq, depth, n, m, rest, node, c, e);
      TallReordered(rest + [m, n], active, freq, depth, c + v, e);
      assert c + v + Merged(freq, elems, k) == c + Merged(f, elems, k + 1);
    }
  }

  lemma {:induction false} SameSwapped(a: seq<nat>, b: seq<nat>)
    requires SameNodes(a, b)
    ensures SameNodes(b, a)
  {
  }

  lemma {:induction false} RestContents(n: nat, m: nat, rest: seq<nat>, active: seq<nat>)
    requires SameNodes(active, [n, m] + rest)
    ensures SameNodes(rest + [m, n], active)
  {
    assert multiset([n, m] + rest) == multiset([n, m]) + multiset(rest);
    assert multiset(rest + [m, n]) == multiset(rest) + multiset([m, n]);
  }

  lemma {:induction false} MergedStep(freq: seq<nat>, elems: nat, k: nat, v: nat)
    requires elems + k < |freq|
    ensures Merged(freq[elems + k := v], elems, k + 1) == Merged(freq, elems, k) + v
  {
    var f := freq[elems + k := v];
    assert At(Made(elems, k + 1), f)[..k] == At(Made(elems, k), freq);
  }
}
