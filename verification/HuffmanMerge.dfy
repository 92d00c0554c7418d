/** Building the tree: the two least nodes are merged until one is left (build_tree in trees.c). */
module HuffmanMerge {
  import opened Bits
  import opened HuffmanBound
  import opened HuffmanForest
  import opened Heap

  const HEAP_SIZE: nat := 573

  // The heap after its root is taken out and the last node has gone in its place.
  lemma {:induction false} RootTaken(h: seq<nat>, len: nat, h1: seq<nat>)
    requires 2 <= len < |h| && SameContents(h[1 := h[len]], h1, len - 1)
    ensures SameNodes(Active(h, len), [h[1]] + Active(h1, len - 1))
    ensures h1[len..] == h[len..]
  {
    var g := h[1 := h[len]];
    assert Active(h, len) == [h[1]] + h[2..len] + [h[len]];
    assert g[1..len] == [h[len]] + h[2..len];
    assert multiset(Active(h1, len - 1)) == multiset([h[len]] + h[2..len]);
    assert g[len..] == h[len..];
  }

  lemma {:induction false} RootReplaced(h: seq<nat>, len: nat, node: nat, h1: seq<nat>)
    requires 1 <= len < |h| && SameContents(h[1 := node], h1, len)
    ensures SameNodes(Active(h1, len), Active(h, len)[1..] + [node])
    ensures h1[len + 1..] == h[len + 1..]
  {
    var g := h[1 := node];
    assert g[1..len + 1] == [node] + h[2..len + 1];
    assert Active(h, len)[1..] == h[2..len + 1];
    assert g[len + 1..] == h[len + 1..];
  }

  /** Take the least node out of the heap of `heap_len` nodes. */
  method PqRemove(heap: array<nat>, heap_len: nat, freq: array<nat>, depth: array<nat>) returns (top: nat)
    requires heap != freq && heap != depth && 2 <= heap_len < heap.Length
    requires HeapFrom(freq[..], depth[..], heap[..], heap_len, 1)
    modifies heap
    ensures HeapFrom(freq[..], depth[..], heap[..], heap_len - 1, 1)
    ensures SameNodes(old(Active(heap[..], heap_len)), [top] + Active(heap[..], heap_len - 1))
    ensures top < freq.Length <= depth.Length
    ensures forall i :: 1 <= i <= heap_len - 1 ==> heap[i] < freq.Length && Smaller(freq[..], depth[..], top, heap[i])
    ensures heap[heap_len..] == old(heap[heap_len..])
  {
    ghost var h := heap[..];
    top := heap[1];
    RootLeast(freq[..], depth[..], h, heap_len, heap_len);
    NewRoot(freq[..], depth[..], h, heap_len, h[heap_len], heap_len - 1);
    heap[1] := heap[heap_len];
    assert heap[..] == h[1 := h[heap_len]];
    hide HeapFrom, SameContents, SameNodes, Smaller, Active;
    PqDownHeap(heap, heap_len - 1, freq, depth, 1);
    RootTaken(h, heap_len, heap[..]);
    LeastTaken(freq[..], depth[..], h, heap_len, Active(heap[..], heap_len - 1));
    LeastInHeap(freq[..], depth[..], heap[..], heap_len - 1, top);
  }

  lemma {:induction false} LeastInHeap(freq: seq<nat>, depth: seq<nat>, h: seq<nat>, len: nat, top: nat)
    requires len < |h| && top < |freq| <= |depth|
    requires forall i :: 0 <= i < len ==> Active(h, len)[i] < |freq| && Smaller(freq, depth, top, Active(h, len)[i])
    ensures forall i :: 1 <= i <= len ==> h[i] < |freq| && Smaller(freq, depth, top, h[i])
  {
    hide Smaller;
    forall i | 1 <= i <= len
      ensures h[i] < |freq| && Smaller(freq, depth, top, h[i])
    {
      assert Active(h, len)[i - 1] == h[i];
    }
  }

  lemma {:induction false} LeastTaken(freq: seq<nat>, depth: seq<nat>, h: seq<nat>, len: nat, a: seq<nat>)
    requires HeapFrom(freq, depth, h, len, 1) && 1 <= len < |h|
    requires SameNodes(Active(h, len), [h[1]] + a)
    ensures h[1] < |freq| <= |depth|
    ensures forall i :: 0 <= i < |a| ==> a[i] < |freq| && Smaller(freq, depth, h[1], a[i])
  {
    assert SameNodes([h[1]] + a, Active(h, len));
    SameMembers([h[1]] + a, Active(h, len));
    hide SameNodes, HeapFrom;
    RootLeast(freq, depth, h, len, 1);
    forall i | 0 <= i < |a|
      ensures a[i] < |freq| && Smaller(freq, depth, h[1], a[i])
    {
      assert ([h[1]] + a)[i + 1] == a[i];
      assert a[i] in Active(h, len);
      var j :| 0 <= j < len && Active(h, len)[j] == a[i];
      RootLeast(freq, depth, h, len, j + 1);
    }
  }

  // The merged nodes lie at the end of the heap array, the first ones last.
  ghost predicate Laid(h: seq<nat>, ms: seq<Pair>) {
    && 2 * |ms| < |h| == HEAP_SIZE
    && forall i :: 0 <= i < |ms| ==>
         h[HEAP_SIZE - 1 - 2 * i] == ms[i].n && h[HEAP_SIZE - 2 - 2 * i] == ms[i].m
  }

  // Sons know their fathers.
  ghost predicate Dads(dl: seq<nat>, elems: nat, ms: seq<Pair>) {
    forall i :: 0 <= i < |ms| ==>
      ms[i].n < |dl| && ms[i].m < |dl| && dl[ms[i].n] == elems + i && dl[ms[i].m] == elems + i
  }

  // The heap of `len` nodes and the merges so far.
  ghost predicate Merging(freq: seq<nat>, depth: seq<nat>, h: seq<nat>, len: nat, dl: seq<nat>,
                          elems: nat, leaves: seq<nat>, ms: seq<Pair>) {
    && |dl| == |freq| && |h| == HEAP_SIZE && elems <= 286 && 2 * elems <= |freq| + 1
    && len + |ms| == |leaves| <= elems && 1 <= len
    && HeapFrom(freq, depth, h, len, 1)
    && Forest(freq, elems, leaves, ms, Active(h, len))
    && Ordered(freq, Children(ms), Active(h, len))
    && Bounding(freq, depth, elems, leaves, |ms|, Active(h, len))
    && Laid(h, ms) && Dads(dl, elems, ms)
    && TotalFits(freq, Active(h, len))
    && Grown(depth, elems, leaves, ms) && Positive(freq, leaves)
  }

  // All these symbols occur.
  ghost predicate Positive(freq: seq<nat>, leaves: seq<nat>) {
    forall i :: 0 <= i < |leaves| ==> leaves[i] < |freq| && freq[leaves[i]] > 0
  }

  lemma {:induction false} SonKnown(freq: seq<nat>, elems: nat, leaves: seq<nat>, ms: seq<Pair>, active: seq<nat>, i: nat)
    requires Forest(freq, elems, leaves, ms, active) && i < |ms|
    ensures ms[i].n in leaves || elems <= ms[i].n < elems + i
    ensures ms[i].m in leaves || elems <= ms[i].m < elems + i
  {
    hide SameNodes, Children;
    var l, c := leaves + Made(elems, |ms|), Children(ms) + active;
    SameMembers(c, l);
    SonsListed(ms, i);
    assert c[2 * i] == ms[i].n && c[2 * i + 1] == ms[i].m;
  }

  // Sons are no more frequent than trees that are merged later.
  lemma {:induction false} SonsLater(freq: seq<nat>, ms: seq<Pair>, active: seq<nat>, j: nat, i: nat)
    requires Ordered(freq, Children(ms), active) && j < i < |ms|
    ensures ms[i].n < |freq| && ms[i].m < |freq| && ms[j].n < |freq| && ms[j].m < |freq|
    ensures freq[ms[j].n] <= freq[ms[i].n] && freq[ms[j].m] <= freq[ms[i].n]
    ensures freq[ms[j].n] <= freq[ms[i].m] && freq[ms[j].m] <= freq[ms[i].m]
  {
    hide Children;
    SonsListed(ms, i);
    SonsListed(ms, j);
    var c := Children(ms);
    assert freq[c[2 * j]] <= freq[c[2 * i]] && freq[c[2 * j + 1]] <= freq[c[2 * i]];
    assert freq[c[2 * j]] <= freq[c[2 * i + 1]] && freq[c[2 * j + 1]] <= freq[c[2 * i + 1]];
  }

  /** A tree weighs twice as much for every two levels: the sons of its higher son are merged before both its sons. */
  lemma {:induction false} TallWeighs(freq: seq<nat>, depth: seq<nat>, elems: nat, leaves: seq<nat>, ms: seq<Pair>,
                                      active: seq<nat>, x: nat)
    requires Forest(freq, elems, leaves, ms, active) && Ordered(freq, Children(ms), active)
    requires Grown(depth, elems, leaves, ms) && Positive(freq, leaves)
    requires x in leaves || elems <= x < elems + |ms|
    ensures x < |freq| && x < |depth| && Pow2(depth[x] / 2) <= freq[x]
    decreases x
  {
    hide Ordered, SameNodes, Children, Made;
    assert Pow2(0) == 1;
    if x >= elems {
      var i := x - elems;
      SonKnown(freq, elems, leaves, ms, active, i);
      var a := if depth[ms[i].n] >= depth[ms[i].m] then ms[i].n else ms[i].m;
      if a >= elems {
        var j := a - elems;
        SonKnown(freq, elems, leaves, ms, active, j);
        var c := if depth[ms[j].n] >= depth[ms[j].m] then ms[j].n else ms[j].m;
        TallWeighs(freq, depth, elems, leaves, ms, active, c);
        SonsLater(freq, ms, active, j, i);
        assert depth[x] == depth[c] + 2 && Pow2(depth[c] / 2 + 1) == 2 * Pow2(depth[c] / 2);
      }
    }
  }

  // Trees of frequencies that fit 16 bits are lower than 32, and so their heights fit 8 bits.
  lemma {:induction false} HeightFits(freq: seq<nat>, depth: seq<nat>, elems: nat, leaves: seq<nat>, ms: seq<Pair>,
                                      active: seq<nat>, i: nat)
    requires Forest(freq, elems, leaves, ms, active) && Ordered(freq, Children(ms), active)
    requires Grown(depth, elems, leaves, ms) && Positive(freq, leaves) && TotalFits(freq, active) && i < |active|
    ensures active[i] < |depth| && depth[active[i]] < 32
  {
    hide Ordered, SameNodes, Children, Sum, Made, Grown;
    var x, l, c := active[i], leaves + Made(elems, |ms|), Children(ms) + active;
    SameMembers(c, l);
    assert c[|Children(ms)| + i] == x;
    MadeInterval(elems, |ms|);
    TallWeighs(freq, depth, elems, leaves, ms, active, x);
    SumWithout(At(active, freq), i);
    hide At, Forest, Positive, TotalFits;
    if depth[x] >= 32 {
      Pow2Mono(16, depth[x] / 2);
      Pow2Add(8, 8);
    }
  }

  lemma {:induction false} MadeInterval(elems: nat, k: nat)
    ensures forall x :: x in Made(elems, k) ==> elems <= x < elems + k
  {
  }

  // Frequencies are kept in 16 bits.
  ghost predicate TotalFits(freq: seq<nat>, active: seq<nat>) {
    && (forall i :: 0 <= i < |active| ==> active[i] < |freq|)
    && Sum(At(active, freq)) < 0x10000
  }

  lemma {:induction false} TotalStep(freq: seq<nat>, active: seq<nat>, n: nat, m: nat, rest: seq<nat>,
                                     active1: seq<nat>, node: nat)
    requires TotalFits(freq, active) && node < |freq| && n < |freq| && m < |freq|
    requires SameNodes(active, [n, m] + rest) && SameNodes(active1, rest + [node])
    requires node !in rest && forall i :: 0 <= i < |rest| ==> rest[i] < |freq|
    ensures freq[n] + freq[m] < 0x10000
    ensures TotalFits(freq[node := freq[n] + freq[m]], active1)
  {
    var f := freq[node := freq[n] + freq[m]];
    AtContents(active, [n, m] + rest, freq);
    AtContents(rest + [node], active1, f);
    SumPair(freq, n, m, rest);
    assert At(rest, f) == At(rest, freq);
    assert At(rest + [node], f)[..|rest|] == At(rest, f);
  }

  lemma {:induction false} SumPair(g: seq<nat>, n: nat, m: nat, rest: seq<nat>)
    requires n < |g| && m < |g| && forall i :: 0 <= i < |rest| ==> rest[i] < |g|
    ensures Sum(At([n, m] + rest, g)) == g[n] + g[m] + Sum(At(rest, g))
  {
    var a := At([n, m] + rest, g);
    SumWithout(a, 0);
    SumWithout(Without(a, 0), 0);
    assert Without(Without(a, 0), 0) == At(rest, g);
  }

  // Node `n` is taken out, leaving `h1` with `m` at the root.
  ghost predicate Taken(freq: seq<nat>, depth: seq<nat>, h: seq<nat>, len: nat, h1: seq<nat>, n: nat) {
    && 2 <= len < |h| == |h1|
    && HeapFrom(freq, depth, h1, len - 1, 1) && h1[len..] == h[len..]
    && SameNodes(Active(h, len), [n] + Active(h1, len - 1))
    && n < |freq| <= |depth| && (forall i :: 1 <= i <= len - 1 ==> h1[i] < |freq| && Smaller(freq, depth, n, h1[i]))
  }

  // What is known of the two least nodes and the others.
  lemma {:induction false} TwoLeast(freq: seq<nat>, depth: seq<nat>, h: seq<nat>, len: nat, dl: seq<nat>, elems: nat,
                                    leaves: seq<nat>, ms: seq<Pair>, h1: seq<nat>, n: nat, m: nat, rest: seq<nat>, node: nat)
    requires Merging(freq, depth, h, len, dl, elems, leaves, ms) && Taken(freq, depth, h, len, h1, n)
    requires m == h1[1] && rest == Active(h1, len - 1)[1..] && node == elems + |ms|
    ensures node < |freq| && n < node && m < node && forall i :: 0 <= i < |rest| ==> rest[i] < node
    ensures SameNodes(Active(h, len), [n, m] + rest)
    ensures Least(freq, depth, n, m, rest)
    ensures Distinct(Children(ms) + Active(h, len))
    ensures |freq| <= |depth|
  {
    hide Forest, Ordered, Bounding, Laid, Dads, TotalFits, Grown, Positive;
    assert [n] + Active(h1, len - 1) == [n, m] + rest;
    NodesDistinct(freq, elems, leaves, ms, Active(h, len));
    assert SameNodes([n, m] + rest, Active(h, len));
    SameMembers([n, m] + rest, Active(h, len));
    hide SameNodes, Active, Children;
    assert ([n, m] + rest)[0] == n && ([n, m] + rest)[1] == m;
    assert n in Active(h, len) && m in Active(h, len);
    forall i | 0 <= i < |rest|
      ensures rest[i] < node && rest[i] < |freq| && Smaller(freq, depth, m, rest[i])
    {
      assert ([n, m] + rest)[i + 2] == rest[i];
      assert rest[i] in Active(h, len);
      RootLeast(freq, depth, h1, len - 1, i + 2);
    }
  }

  lemma {:induction false} LaidStep(h: seq<nat>, ms: seq<Pair>, len: nat, h1: seq<nat>, n: nat, m: nat, h4: seq<nat>, node: nat)
    requires Laid(h, ms) && |h| == |h1| == |h4|
    requires 2 <= len && len + 2 * |ms| < HEAP_SIZE - 1 && h1[len..] == h[len..]
    requires h4[len..] == h1[HEAP_SIZE - 1 - 2 * |ms| := n][HEAP_SIZE - 2 - 2 * |ms| := m][1 := node][len..]
    ensures Laid(h4, ms + [Pair(n, m)])
  {
    var h2 := h1[HEAP_SIZE - 1 - 2 * |ms| := n][HEAP_SIZE - 2 - 2 * |ms| := m][1 := node];
    forall j | len <= j < HEAP_SIZE
      ensures h4[j] == if j == HEAP_SIZE - 1 - 2 * |ms| then n else if j == HEAP_SIZE - 2 - 2 * |ms| then m else h[j]
    {
      assert h4[len..][j - len] == h2[len..][j - len] == h2[j];
      assert h1[len..][j - len] == h[len..][j - len];
    }
  }

  lemma {:induction false} DadsStep(dl: seq<nat>, elems: nat, ms: seq<Pair>, n: nat, m: nat)
    requires Dads(dl, elems, ms) && n < |dl| && m < |dl|
    requires n !in Children(ms) && m !in Children(ms)
    ensures Dads(dl[n := elems + |ms|][m := elems + |ms|], elems, ms + [Pair(n, m)])
  {
    forall i | 0 <= i < |ms|
      ensures ms[i].n in Children(ms) && ms[i].m in Children(ms)
    {
      SonsListed(ms, i);
    }
  }

  lemma {:induction false} SonsListed(ms: seq<Pair>, i: nat)
    requires i < |ms|
    ensures Children(ms)[2 * i] == ms[i].n && Children(ms)[2 * i + 1] == ms[i].m
  {
    if i < |ms| - 1 {
      SonsListed(ms[..|ms| - 1], i);
    }
  }

  lemma {:induction false} NotSons(sons: seq<nat>, active: seq<nat>, n: nat, m: nat, rest: seq<nat>)
    requires Distinct(sons + active) && SameNodes(active, [n, m] + rest)
    ensures n !in sons && m !in sons
  {
    assert SameNodes([n, m] + rest, active);
    SameMembers([n, m] + rest, active);
    hide SameNodes;
    assert ([n, m] + rest)[0] == n && ([n, m] + rest)[1] == m;
    forall x | x in active
      ensures x !in sons
    {
      var j :| 0 <= j < |active| && active[j] == x;
      forall i | 0 <= i < |sons|
        ensures sons[i] != x
      {
        assert (sons + active)[i] == sons[i] && (sons + active)[|sons| + j] == x;
      }
    }
  }

  lemma {:induction false} NodeIsNew(freq: seq<nat>, elems: nat, leaves: seq<nat>, ms: seq<Pair>, active: seq<nat>)
    requires Forest(freq, elems, leaves, ms, active)
    ensures elems + |ms| !in Children(ms)
  {
    hide Children;
    var l := leaves + Made(elems, |ms|);
    SameMembers(Children(ms) + active, l);
    forall i | 0 <= i < |Children(ms)|
      ensures Children(ms)[i] < elems + |ms|
    {
      assert (Children(ms) + active)[i] == Children(ms)[i];
      assert (Children(ms) + active)[i] in l;
    }
  }

  /** One merge keeps all that is known of the merging. */
  lemma {:induction false} MergingStep(freq: seq<nat>, depth: seq<nat>, h: seq<nat>, len: nat, dl: seq<nat>, elems: nat,
                                       leaves: seq<nat>, ms: seq<Pair>, h1: seq<nat>, n: nat, m: nat, node: nat,
                                       v: nat, x: nat, h4: seq<nat>)
    requires Merging(freq, depth, h, len, dl, elems, leaves, ms) && Taken(freq, depth, h, len, h1, n)
    requires m == h1[1] && node == elems + |ms| < |freq| && n < |freq| && m < |freq| && v == freq[n] + freq[m]
    requires |freq| <= |depth| && x == Over(depth[n], depth[m])
    requires len + 2 * |ms| < HEAP_SIZE - 1
    requires HeapFrom(freq[node := v], depth[node := x], h4, len - 1, 1) && |h4| == HEAP_SIZE
    requires SameContents(h1[HEAP_SIZE - 1 - 2 * |ms| := n][HEAP_SIZE - 2 - 2 * |ms| := m][1 := node], h4, len - 1)
    ensures Merging(freq[node := v], depth[node := x], h4, len - 1, dl[n := node][m := node], elems, leaves, ms + [Pair(n, m)])
  {
    hide SameNodes, Forest, Ordered, Bounding, Laid, Dads, TotalFits, Children, HeapFrom, SameContents, Active, Grown, Positive, Least;
    var h2 := h1[HEAP_SIZE - 1 - 2 * |ms| := n][HEAP_SIZE - 2 - 2 * |ms| := m];
    var a, rest, a1 := Active(h, len), Active(h1, len - 1)[1..], Active(h4, len - 1);
    TwoLeast(freq, depth, h, len, dl, elems, leaves, ms, h1, n, m, rest, node);
    RootReplaced(h2, len - 1, node, h4);
    SameActive(h1, h2, len - 1);
    ForestStep(freq, elems, leaves, ms, a, n, m, rest, a1, v);
    NodeIsNew(freq, elems, leaves, ms, a);
    LeastKeys(freq, depth, n, m, rest);
    OrderedStep(freq, Children(ms), a, n, m, rest, a1, node, v);
    ChildrenMore(ms, Pair(n, m));
    BoundingStep(freq, depth, elems, leaves, |ms|, a, n, m, rest, a1);
    GrownStep(depth, elems, leaves, ms, n, m);
    StillPositive(freq, elems, leaves, ms, a, node, v);
    TotalStep(freq, a, n, m, rest, a1, node);
    LaidStep(h, ms, len, h1, n, m, h4, node);
    NotSons(Children(ms), a, n, m, rest);
    DadsStep(dl, elems, ms, n, m);
  }

  lemma {:induction false} LeastKeys(freq: seq<nat>, depth: seq<nat>, n: nat, m: nat, rest: seq<nat>)
    requires Least(freq, depth, n, m, rest)
    ensures freq[n] <= freq[m] && forall x :: x in rest ==> x < |freq| && freq[m] <= freq[x]
  {
    forall x | x in rest
      ensures x < |freq| && freq[m] <= freq[x]
    {
      var i :| 0 <= i < |rest| && rest[i] == x;
    }
  }

  lemma {:induction false} StillPositive(freq: seq<nat>, elems: nat, leaves: seq<nat>, ms: seq<Pair>, active: seq<nat>, node: nat, v: nat)
    requires Forest(freq, elems, leaves, ms, active) && Positive(freq, leaves) && elems <= node < |freq|
    ensures Positive(freq[node := v], leaves)
  {
  }

  lemma {:induction false} SameActive(h: seq<nat>, g: seq<nat>, len: nat)
    requires |h| == |g| && len < |h| && forall i :: 1 <= i <= len ==> h[i] == g[i]
    ensures Active(h, len) == Active(g, len)
  {
  }

  // The heap after the new node is put at its root, before that is moved down.
  lemma {:induction false} NodeAtRoot(freq: seq<nat>, depth: seq<nat>, h: seq<nat>, len: nat, dl: seq<nat>, elems: nat,
                                      leaves: seq<nat>, ms: seq<Pair>, h1: seq<nat>, n: nat, node: nat, v: nat, x: nat)
    requires Merging(freq, depth, h, len, dl, elems, leaves, ms) && Taken(freq, depth, h, len, h1, n)
    requires node == elems + |ms| && len + 2 * |ms| < HEAP_SIZE - 1
    ensures node < |freq| && node < |depth| && n < |freq| && h1[1] < |freq| && |h1| == HEAP_SIZE
    ensures HeapFrom(freq[node := v], depth[node := x],
                     h1[HEAP_SIZE - 1 - 2 * |ms| := n][HEAP_SIZE - 2 - 2 * |ms| := h1[1]][1 := node], len - 1, 2)
    ensures freq[n] + freq[h1[1]] < 0x10000 && depth[n] < 32 && depth[h1[1]] < 32
  {
    hide SameNodes, Forest, Ordered, Bounding, Laid, Dads, TotalFits, Children, HeapFrom, SameContents, Grown, Positive, Least;
    var rest := Active(h1, len - 1)[1..];
    TwoLeast(freq, depth, h, len, dl, elems, leaves, ms, h1, n, h1[1], rest, node);
    LowTrees(freq, depth, elems, leaves, ms, Active(h, len), n, h1[1], rest);
    TotalPair(freq, Active(h, len), n, h1[1], rest);
    var h2 := h1[HEAP_SIZE - 1 - 2 * |ms| := n][HEAP_SIZE - 2 - 2 * |ms| := h1[1]];
    var f, d := freq[node := v], depth[node := x];
    forall i | 1 <= i <= len - 1
      ensures h1[i] != node && h1[i] < |freq|
    {
      assert i > 1 ==> h1[i] == rest[i - 2];
    }
    OtherKeys(freq, depth, f, d, h1, len - 1);
    SamePrefix(f, d, h1, h2, len - 1);
    NewRoot(f, d, h2, len - 1, node, len - 1);
  }

  lemma {:induction false} LowTrees(freq: seq<nat>, depth: seq<nat>, elems: nat, leaves: seq<nat>, ms: seq<Pair>,
                                    active: seq<nat>, n: nat, m: nat, rest: seq<nat>)
    requires Forest(freq, elems, leaves, ms, active) && Ordered(freq, Children(ms), active)
    requires Grown(depth, elems, leaves, ms) && Positive(freq, leaves) && TotalFits(freq, active)
    requires SameNodes(active, [n, m] + rest)
    ensures n < |depth| && m < |depth| && depth[n] < 32 && depth[m] < 32
  {
    hide Forest, Ordered, Grown, Positive, TotalFits, Children;
    assert SameNodes([n, m] + rest, active);
    SameMembers([n, m] + rest, active);
    hide SameNodes;
    assert ([n, m] + rest)[0] == n && ([n, m] + rest)[1] == m;
    var i :| 0 <= i < |active| && active[i] == n;
    var j :| 0 <= j < |active| && active[j] == m;
    HeightFits(freq, depth, elems, leaves, ms, active, i);
    HeightFits(freq, depth, elems, leaves, ms, active, j);
  }

  lemma {:induction false} TotalPair(freq: seq<nat>, active: seq<nat>, n: nat, m: nat, rest: seq<nat>)
    requires TotalFits(freq, active) && n < |freq| && m < |freq|
    requires SameNodes(active, [n, m] + rest) && forall i :: 0 <= i < |rest| ==> rest[i] < |freq|
    ensures freq[n] + freq[m] < 0x10000
  {
    AtContents(active, [n, m] + rest, freq);
    SumPair(freq, n, m, rest);
  }

  lemma {:induction false} SamePrefix(freq: seq<nat>, depth: seq<nat>, h: seq<nat>, g: seq<nat>, len: nat)
    requires HeapFrom(freq, depth, h, len, 1) && |g| == |h| && forall i :: 1 <= i <= len ==> g[i] == h[i]
    ensures HeapFrom(freq, depth, g, len, 1)
  {
    forall i | 1 <= i <= len
      ensures Father(freq, depth, g, len, i)
    {
      assert Father(freq, depth, h, len, i);
    }
  }

  lemma {:induction false} RoomToMerge(freq: seq<nat>, depth: seq<nat>, h: seq<nat>, len: nat, dl: seq<nat>, elems: nat,
                                       leaves: seq<nat>, ms: seq<Pair>)
    requires Merging(freq, depth, h, len, dl, elems, leaves, ms)
    ensures len >= 2 ==> len + 2 * |ms| < HEAP_SIZE - 1
    ensures |h| == HEAP_SIZE && len + |ms| == |leaves| && 1 <= len && HeapFrom(freq, depth, h, len, 1)
    ensures |dl| == |freq| && len < |h|
  {
    hide Forest, Ordered, Bounding, Laid, Dads, TotalFits, HeapFrom, Grown, Positive;
  }

  /** Merge the two least nodes into `node`. */
  method MergeLeast(heap: array<nat>, heap_len: nat, heap_max: nat, freq: array<nat>, depth: array<nat>, dl: array<nat>,
                    node: nat, ghost elems: nat, ghost leaves: seq<nat>, ghost ms: seq<Pair>)
    returns (ghost p: Pair)
    requires heap != freq && heap != depth && heap != dl && freq != depth && freq != dl && depth != dl
    requires Merging(freq[..], depth[..], heap[..], heap_len, dl[..], elems, leaves, ms)
    requires 2 <= heap_len && node == elems + |ms| && heap_max + 2 * |ms| == HEAP_SIZE
    modifies heap, freq, depth, dl
    ensures Merging(freq[..], depth[..], heap[..], heap_len - 1, dl[..], elems, leaves, ms + [p])
    ensures forall x :: 0 <= x < freq.Length && x != node ==> freq[x] == old(freq[x])
    ensures forall x :: 0 <= x < dl.Length && x != p.n && x != p.m ==> dl[x] == old(dl[x])
  {
    hide *;
    ghost var f, d, h, dads := freq[..], depth[..], heap[..], dl[..];
    RoomToMerge(f, d, h, heap_len, dads, elems, leaves, ms);
    var n := PqRemove(heap, heap_len, freq, depth);
    ghost var h1 := heap[..];
    IsTaken(f, d, h, heap_len, h1, n);
    var m := heap[1];
    ghost var v, x := f[n] + f[m], Over(d[n], d[m]);
    NodeAtRoot(f, d, h, heap_len, dads, elems, leaves, ms, h1, n, node, v, x);
    heap[heap_max - 1] := n;
    heap[heap_max - 2] := m;
    freq[node] := (freq[n] + freq[m]) % 0x10000;
    depth[node] := ((if depth[n] >= depth[m] then depth[n] else depth[m]) + 1) % 256;
    dl[n] := node;
    dl[m] := node;
    heap[1] := node;
    ghost var dads1: seq<nat> := dads[n := node];
    ghost var h2: seq<nat> := h1[heap_max - 1 := n];
    h2 := h2[heap_max - 2 := m];
    assert freq[..] == f[node := v] && dl[..] == dads1[m := node];
    assert heap[..] == h2[1 := node];
    OverSmall(d[n], d[m]);
    assert depth[..] == d[node := x];
    PqDownHeap(heap, heap_len - 1, freq, depth, 1);
    MergingStep(f, d, h, heap_len, dads, elems, leaves, ms, h1, n, m, node, v, x, heap[..]);
    p := Pair(n, m);
  }

  lemma {:induction false} OverSmall(a: nat, b: nat)
    requires a < 32 && b < 32
    ensures Over(a, b) == ((if a >= b then a else b) + 1) % 256
  {
  }

  lemma {:induction false} IsTaken(freq: seq<nat>, depth: seq<nat>, h: seq<nat>, len: nat, h1: seq<nat>, n: nat)
    requires 2 <= len < |h| == |h1|
    requires HeapFrom(freq, depth, h1, len - 1, 1) && h1[len..] == h[len..]
    requires SameNodes(Active(h, len), [n] + Active(h1, len - 1))
    requires n < |freq| <= |depth| && forall i :: 1 <= i <= len - 1 ==> h1[i] < |freq| && Smaller(freq, depth, n, h1[i])
    ensures Taken(freq, depth, h, len, h1, n)
    ensures n < |freq| && h1[1] < |freq| <= |depth|
  {
    assert h1[1] < |freq|;
  }
}
