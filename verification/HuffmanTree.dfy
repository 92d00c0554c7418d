/** The finished tree (build_tree in trees.c). */
module HuffmanTree {
  import opened Bits
  import opened HuffmanBound
  import opened HuffmanForest
  import opened Heap
  import opened HuffmanMerge
  import opened HuffmanInit

  // The symbols `leaves` with their frequencies, before any merge.
  ghost predicate Ready(freq: seq<nat>, elems: nat, leaves: seq<nat>) {
    && elems <= 286 && 2 * elems <= |freq| + 1 && 2 <= |leaves| <= elems && Distinct(leaves)
    && (forall i :: 0 <= i < |leaves| ==> leaves[i] < elems)
    && TotalFits(freq, leaves) && Positive(freq, leaves)
  }

  // All leaves hang in one tree.
  ghost predicate Built(freq: seq<nat>, depth: seq<nat>, dl: seq<nat>, h: seq<nat>, elems: nat, leaves: seq<nat>, ms: seq<Pair>) {
    && Spanning(elems, leaves, ms)
    && Fathers(freq, elems, ms) && |freq| == |dl|
    && Ordered(freq, Children(ms), [])
    && Cheapest(freq, depth, elems, leaves, ms) && Grown(depth, elems, leaves, ms)
    && Laid(h, ms) && h[HEAP_SIZE - 1 - 2 * |ms|] == elems + |ms| - 1
    && Dads(dl, elems, ms)
  }

  ghost predicate Spanning(elems: nat, leaves: seq<nat>, ms: seq<Pair>) {
    && |ms| + 1 == |leaves| && |ms| > 0 && Distinct(leaves) && (forall i :: 0 <= i < |leaves| ==> leaves[i] < elems)
    && SameNodes(Children(ms) + [elems + |ms| - 1], leaves + Made(elems, |ms|))
  }

  /** No prefix code for the symbols is cheaper than the merges were, and those as cheap reach the height of the tree. */
  ghost predicate Cheapest(freq: seq<nat>, depth: seq<nat>, elems: nat, leaves: seq<nat>, ms: seq<Pair>) {
    && 0 < |ms| && elems + |ms| <= |freq| <= |depth| && (forall i :: 0 <= i < |leaves| ==> leaves[i] < elems)
    && TallBound(At(leaves, freq), At(leaves, depth), Merged(freq, elems, |ms|), depth[elems + |ms| - 1])
  }

  // No symbol that is not a leaf, and no node, is touched.
  ghost predicate Untouched(freq0: seq<nat>, dl0: seq<nat>, freq: seq<nat>, dl: seq<nat>, elems: nat, leaves: seq<nat>) {
    && |freq| == |freq0| && |dl| == |dl0| && elems <= |freq| && elems <= |dl|
    && (forall x :: 0 <= x < elems ==> freq[x] == freq0[x])
    && (forall x :: 0 <= x < elems && x !in leaves ==> dl[x] == dl0[x])
  }

  lemma {:induction false} SameLeaves(h: seq<nat>, g: seq<nat>, len: nat)
    requires SameContents(h, g, len)
    ensures SameNodes(Active(h, len), Active(g, len))
  {
  }

  lemma {:induction false} MergingStart(freq: seq<nat>, depth: seq<nat>, h: seq<nat>, len: nat, dl: seq<nat>,
                                        elems: nat, leaves: seq<nat>)
    requires Ready(freq, elems, leaves) && |h| == HEAP_SIZE && len == |leaves| && |dl| == |freq|
    requires HeapFrom(freq, depth, h, len, 1) && SameNodes(leaves, Active(h, len)) && Flat(depth, leaves)
    ensures Merging(freq, depth, h, len, dl, elems, leaves, [])
  {
    hide HeapFrom, Active, Bounding;
    HeapDepths(freq, depth, h, len);
    var a := Active(h, len);
    AtContents(leaves, a, freq);
    assert [] + a == a && leaves + [] == leaves && Children([]) == [] && Made(elems, 0) == [];
    assert SameNodes(Children([]) + a, leaves + Made(elems, 0));
    assert SameNodes(a, leaves);
    BoundingStart(freq, depth, elems, leaves, a);
  }

  lemma {:induction false} BoundingStart(freq: seq<nat>, depth: seq<nat>, elems: nat, leaves: seq<nat>, a: seq<nat>)
    requires SameNodes(a, leaves) && elems <= |freq| <= |depth| && (forall i :: 0 <= i < |a| ==> a[i] < |freq|)
    requires forall i :: 0 <= i < |leaves| ==> leaves[i] < elems
    ensures Bounding(freq, depth, elems, leaves, 0, a)
  {
    hide TallBound, SameNodes;
    NothingMerged(freq, elems);
    forall c: nat, e: nat | TallBound(At(a, freq), At(a, depth), c, e)
      ensures TallBound(At(leaves, freq), At(leaves, depth), c + Merged(freq, elems, 0), e)
    {
      TallReordered(a, leaves, freq, depth, c, e);
    }
  }

  lemma {:induction false} HeapDepths(freq: seq<nat>, depth: seq<nat>, h: seq<nat>, len: nat)
    requires HeapFrom(freq, depth, h, len, 1)
    ensures |freq| <= |depth| && len < |h|
  {
  }

  lemma {:induction false} NothingMerged(freq: seq<nat>, elems: nat)
    requires elems <= |freq|
    ensures Merged(freq, elems, 0) == 0
  {
    assert At(Made(elems, 0), freq) == [];
  }

  /** When one root is left, the tree is done. */
  lemma {:induction false} MergingEnd(freq: seq<nat>, depth: seq<nat>, h: seq<nat>, dl: seq<nat>,
                                      elems: nat, leaves: seq<nat>, ms: seq<Pair>)
    requires Merging(freq, depth, h, 1, dl, elems, leaves, ms) && |leaves| >= 2
    ensures h[1] == elems + |ms| - 1
    ensures |h| == HEAP_SIZE && 1 < HEAP_SIZE - 1 - 2 * |ms|
    ensures Built(freq, depth, dl, h[HEAP_SIZE - 1 - 2 * |ms| := h[1]], elems, leaves, ms)
  {
    hide HeapFrom, Laid, Dads, TotalFits, TallBound, SameNodes, Children, Merged, Grown, Positive;
    var a := Active(h, 1);
    LastRoot(freq, elems, leaves, ms, a);
    assert a == [h[1]];
    assert TallBound(At(a, freq), At(a, depth), 0, depth[h[1]]) by {
      SingleBound(freq[h[1]], depth[h[1]]);
      assert At(a, freq) == [freq[h[1]]] && At(a, depth) == [depth[h[1]]];
    }
    LaidRoot(h, ms, h[1]);
  }

  lemma {:induction false} LaidRoot(h: seq<nat>, ms: seq<Pair>, x: nat)
    requires Laid(h, ms)
    ensures Laid(h[HEAP_SIZE - 1 - 2 * |ms| := x], ms)
  {
  }

  lemma {:induction false} LastRoot(freq: seq<nat>, elems: nat, leaves: seq<nat>, ms: seq<Pair>, active: seq<nat>)
    requires Forest(freq, elems, leaves, ms, active) && |active| == 1 && |ms| > 0
    ensures active[0] == elems + |ms| - 1
  {
    var l, r := leaves + Made(elems, |ms|), elems + |ms| - 1;
    assert l[|leaves| + |ms| - 1] == r;
    assert SameNodes(l, Children(ms) + active);
    SameMembers(l, Children(ms) + active);
    hide SameNodes;
    var i :| 0 <= i < |Children(ms) + active| && (Children(ms) + active)[i] == r;
    if i < 2 * |ms| {
      SonsListed(ms, i / 2);
      assert i == 2 * (i / 2) || i == 2 * (i / 2) + 1;
    }
  }

  // Only nodes that have been merged have had their fields overwritten.
  ghost predicate OnlySons(freq0: seq<nat>, dl0: seq<nat>, freq: seq<nat>, dl: seq<nat>, elems: nat, sons: seq<nat>) {
    && |freq| == |freq0| && |dl| == |dl0| && elems <= |freq| && elems <= |dl|
    && (forall x :: 0 <= x < elems ==> freq[x] == freq0[x])
    && (forall x :: 0 <= x < |dl| && x !in sons ==> dl[x] == dl0[x])
  }

  lemma {:induction false} OnlySonsStep(freq0: seq<nat>, dl0: seq<nat>, freq: seq<nat>, dl: seq<nat>, elems: nat,
                                        ms: seq<Pair>, p: Pair, freq1: seq<nat>, dl1: seq<nat>, node: nat)
    requires OnlySons(freq0, dl0, freq, dl, elems, Children(ms)) && node >= elems
    requires |freq1| == |freq| && forall x :: 0 <= x < |freq| && x != node ==> freq1[x] == freq[x]
    requires |dl1| == |dl| && forall x :: 0 <= x < |dl| && x != p.n && x != p.m ==> dl1[x] == dl[x]
    ensures OnlySons(freq0, dl0, freq1, dl1, elems, Children(ms + [p]))
  {
    ChildrenMore(ms, p);
    var c := Children(ms);
    assert (c + [p.n, p.m])[|c|] == p.n && (c + [p.n, p.m])[|c| + 1] == p.m;
    forall x | 0 <= x < |dl| && x !in c + [p.n, p.m]
      ensures dl1[x] == dl0[x]
    {
      assert x !in c && x != p.n && x != p.m;
    }
  }

  lemma {:induction false} OnlySonsEnd(freq0: seq<nat>, dl0: seq<nat>, freq: seq<nat>, dl: seq<nat>, elems: nat,
                                       leaves: seq<nat>, ms: seq<Pair>, x: nat)
    requires OnlySons(freq0, dl0, freq, dl, elems, Children(ms))
    requires SameNodes(Children(ms) + [x], leaves + Made(elems, |ms|))
    ensures Untouched(freq0, dl0, freq, dl, elems, leaves)
  {
    hide Children;
    SameMembers(Children(ms) + [x], leaves + Made(elems, |ms|));
    forall y | y in Children(ms)
      ensures y in leaves || y >= elems
    {
      var i :| 0 <= i < |Children(ms)| && Children(ms)[i] == y;
      assert (Children(ms) + [x])[i] == y;
      assert y in leaves + Made(elems, |ms|);
    }
  }

  /** Make a heap of the nodes in heap[1..heap_len]. */
  method Heapify(heap: array<nat>, heap_len: nat, freq: array<nat>, depth: array<nat>)
    requires heap != freq && heap != depth && freq.Length <= depth.Length
    requires Nodes(heap[..], heap_len, freq.Length)
    modifies heap
    ensures HeapFrom(freq[..], depth[..], heap[..], heap_len, 1)
    ensures SameContents(old(heap[..]), heap[..], heap_len)
  {
    ghost var h0 := heap[..];
    var n := heap_len / 2;
    LeavesAreHeaps(freq[..], depth[..], h0, heap_len);
    hide HeapFrom, SameContents;
    while n >= 1
      invariant 0 <= n <= heap_len / 2
      invariant HeapFrom(freq[..], depth[..], heap[..], heap_len, n + 1)
      invariant SameContents(h0, heap[..], heap_len)
    {
      ghost var h := heap[..];
      PqDownHeap(heap, heap_len, freq, depth, n);
      SameTrans(h0, h, heap[..], heap_len);
      n := n - 1;
    }
  }

  lemma {:induction false} LeavesAreHeaps(freq: seq<nat>, depth: seq<nat>, h: seq<nat>, len: nat)
    requires |freq| <= |depth| && Nodes(h, len, |freq|)
    ensures HeapFrom(freq, depth, h, len, len / 2 + 1) && SameContents(h, h, len)
  {
  }

  lemma {:induction false} SameTrans(a: seq<nat>, b: seq<nat>, c: seq<nat>, len: nat)
    requires SameContents(a, b, len) && SameContents(b, c, len)
    ensures SameContents(a, c, len)
  {
  }

  // The merging so far, and what it has left alone.
  ghost predicate Underway(freq0: seq<nat>, dl0: seq<nat>, freq: seq<nat>, depth: seq<nat>, h: seq<nat>, len: nat,
                           dl: seq<nat>, elems: nat, leaves: seq<nat>, ms: seq<Pair>) {
    Merging(freq, depth, h, len, dl, elems, leaves, ms) && OnlySons(freq0, dl0, freq, dl, elems, Children(ms))
  }

  lemma {:induction false} UnderwayStart(freq: seq<nat>, depth: seq<nat>, h0: seq<nat>, h: seq<nat>, len: nat, dl: seq<nat>,
                                         elems: nat, leaves: seq<nat>)
    requires Ready(freq, elems, leaves) && |h0| == HEAP_SIZE && len == |leaves| && |dl| == |freq|
    requires HeapFrom(freq, depth, h, len, 1) && Active(h0, len) == leaves && SameContents(h0, h, len) && Flat(depth, leaves)
    ensures Underway(freq, dl, freq, depth, h, len, dl, elems, leaves, [])
  {
    hide HeapFrom, Active, Merging, Children;
    SameLeaves(h0, h, len);
    MergingStart(freq, depth, h, len, dl, elems, leaves);
    OnlySonsStart(freq, dl, elems, leaves);
  }

  method MergeNext(heap: array<nat>, heap_len: nat, heap_max: nat, freq: array<nat>, depth: array<nat>, dl: array<nat>,
                   node: nat, ghost elems: nat, ghost leaves: seq<nat>, ghost ms: seq<Pair>,
                   ghost freq0: seq<nat>, ghost dl0: seq<nat>)
    returns (ghost p: Pair)
    requires heap != freq && heap != depth && heap != dl && freq != depth && freq != dl && depth != dl
    requires Underway(freq0, dl0, freq[..], depth[..], heap[..], heap_len, dl[..], elems, leaves, ms)
    requires 2 <= heap_len && node == elems + |ms| && heap_max + 2 * |ms| == HEAP_SIZE
    modifies heap, freq, depth, dl
    ensures Underway(freq0, dl0, freq[..], depth[..], heap[..], heap_len - 1, dl[..], elems, leaves, ms + [p])
  {
    hide Merging, OnlySons, Children;
    ghost var f, d := freq[..], dl[..];
    p := MergeLeast(heap, heap_len, heap_max, freq, depth, dl, node, elems, leaves, ms);
    OnlySonsStep(freq0, dl0, f, d, elems, ms, p, freq[..], dl[..], node);
  }

  lemma {:induction false} UnderwayRoom(freq0: seq<nat>, dl0: seq<nat>, freq: seq<nat>, depth: seq<nat>, h: seq<nat>,
                                        len: nat, dl: seq<nat>, elems: nat, leaves: seq<nat>, ms: seq<Pair>)
    requires Underway(freq0, dl0, freq, depth, h, len, dl, elems, leaves, ms)
    ensures len + |ms| == |leaves| <= 286 && 1 <= len && |h| == HEAP_SIZE
  {
    hide OnlySons, Children, Forest, Ordered, Bounding, Laid, Dads, TotalFits, HeapFrom, Grown, Positive;
  }

  lemma {:induction false} UnderwayEnd(freq0: seq<nat>, dl0: seq<nat>, freq: seq<nat>, depth: seq<nat>, h: seq<nat>,
                                       dl: seq<nat>, elems: nat, leaves: seq<nat>, ms: seq<Pair>)
    requires Underway(freq0, dl0, freq, depth, h, 1, dl, elems, leaves, ms) && |leaves| >= 2
    ensures |h| == HEAP_SIZE && 1 < HEAP_SIZE - 1 - 2 * |ms|
    ensures Built(freq, depth, dl, h[HEAP_SIZE - 1 - 2 * |ms| := h[1]], elems, leaves, ms)
    ensures Untouched(freq0, dl0, freq, dl, elems, leaves)
  {
    hide OnlySons, Children, Merging, Built, Untouched, SameNodes;
    MergingEnd(freq, depth, h, dl, elems, leaves, ms);
    BuiltSpans(freq, depth, dl, h[HEAP_SIZE - 1 - 2 * |ms| := h[1]], elems, leaves, ms);
    OnlySonsEnd(freq0, dl0, freq, dl, elems, leaves, ms, elems + |ms| - 1);
  }

  // Combine the two least frequent nodes until one is left.
  method MergeAll(s: TreeState, fc: array<nat>, dl: array<nat>, elems: nat, ghost leaves: seq<nat>)
    returns (ghost ms: seq<Pair>)
    requires s.Valid() && Apart(s, fc, dl) && 2 <= s.heap_len && s.heap_max == HEAP_SIZE
    requires Underway(fc[..], dl[..], fc[..], s.depth[..], s.heap[..], s.heap_len, dl[..], elems, leaves, [])
    modifies s, s.heap, s.depth, fc, dl
    ensures Underway(old(fc[..]), old(dl[..]), fc[..], s.depth[..], s.heap[..], 1, dl[..], elems, leaves, ms)
    ensures s.heap_max + 2 * |ms| == HEAP_SIZE
    ensures s.opt_len == old(s.opt_len) && s.static_len == old(s.static_len)
  {
    hide Underway;
    ghost var f0, dl0 := fc[..], dl[..];
    var node := elems;
    ms := [];
    while true
      invariant 2 <= s.heap_len && node == elems + |ms| && s.heap_max + 2 * |ms| == HEAP_SIZE
      invariant Underway(f0, dl0, fc[..], s.depth[..], s.heap[..], s.heap_len, dl[..], elems, leaves, ms)
      invariant s.opt_len == old(s.opt_len) && s.static_len == old(s.static_len)
      decreases s.heap_len
    {
      UnderwayRoom(f0, dl0, fc[..], s.depth[..], s.heap[..], s.heap_len, dl[..], elems, leaves, ms);
      ghost var p := MergeNext(s.heap, s.heap_len, s.heap_max, fc, s.depth, dl, node, elems, leaves, ms, f0, dl0);
      s.heap_len := s.heap_len - 1;
      s.heap_max := s.heap_max - 2;
      node := node + 1;
      ms := ms + [p];
      if s.heap_len < 2 {
        break;
      }
    }
  }

  /** Combine the two least frequent nodes until one is left, which becomes the root. */
  method MakeTree(s: TreeState, fc: array<nat>, dl: array<nat>, elems: nat, ghost leaves: seq<nat>)
    returns (ghost ms: seq<Pair>)
    requires s.Valid() && Apart(s, fc, dl) && fc.Length == dl.Length <= HEAP_SIZE
    requires Ready(fc[..], elems, leaves) && s.heap_max == HEAP_SIZE
    requires s.heap_len == |leaves| && Active(s.heap[..], s.heap_len) == leaves && Flat(s.depth[..], leaves)
    modifies s, s.heap, s.depth, fc, dl
    ensures Built(fc[..], s.depth[..], dl[..], s.heap[..], elems, leaves, ms)
    ensures s.heap_max + 2 * |ms| + 1 == HEAP_SIZE
    ensures s.opt_len == old(s.opt_len) && s.static_len == old(s.static_len)
    ensures Untouched(old(fc[..]), old(dl[..]), fc[..], dl[..], elems, leaves)
  {
    hide Active, Underway, Ready, Built, Untouched, Flat;
    ghost var f0, dl0 := fc[..], dl[..];
    MakeHeap(s, fc, elems, leaves, dl0);
    ms := MergeAll(s, fc, dl, elems, leaves);
    UnderwayEnd(f0, dl0, fc[..], s.depth[..], s.heap[..], dl[..], elems, leaves, ms);
    PutRoot(s, |ms|);
  }

  // The leaves become a heap, with no merges yet.
  method MakeHeap(s: TreeState, fc: array<nat>, ghost elems: nat, ghost leaves: seq<nat>, ghost dl: seq<nat>)
    requires s.Valid() && fc != s.heap && fc.Length == |dl| <= HEAP_SIZE
    requires Ready(fc[..], elems, leaves) && s.heap_len == |leaves| && Active(s.heap[..], s.heap_len) == leaves && Flat(s.depth[..], leaves)
    modifies s.heap
    ensures Underway(fc[..], dl, fc[..], s.depth[..], s.heap[..], s.heap_len, dl, elems, leaves, [])
    ensures |leaves| >= 2
  {
    hide HeapFrom, SameContents, Active, Underway, Ready, Flat;
    ghost var h0 := s.heap[..];
    LeavesInHeap(fc[..], h0, s.heap_len, elems, leaves);
    Heapify(s.heap, s.heap_len, fc, s.depth);
    UnderwayStart(fc[..], s.depth[..], h0, s.heap[..], s.heap_len, dl, elems, leaves);
  }

  // The root goes to the end of the heap array, too.
  method PutRoot(s: TreeState, ghost k: nat)
    requires s.Valid() && s.heap_max + 2 * k == HEAP_SIZE && s.heap_max > 1
    modifies s, s.heap
    ensures s.heap_max == old(s.heap_max) - 1 && s.opt_len == old(s.opt_len) && s.static_len == old(s.static_len)
    ensures s.heap[..] == old(s.heap[..])[HEAP_SIZE - 1 - 2 * k := old(s.heap[1])]
  {
    s.heap_max := s.heap_max - 1;
    s.heap[s.heap_max] := s.heap[1];
  }

  lemma {:induction false} LeavesInHeap(freq: seq<nat>, h: seq<nat>, len: nat, elems: nat, leaves: seq<nat>)
    requires Ready(freq, elems, leaves) && |h| == HEAP_SIZE && len == |leaves| && Active(h, len) == leaves
    ensures Nodes(h, len, |freq|) && 2 <= len <= elems <= 286 && elems <= |freq|
  {
    forall i | 1 <= i <= len
      ensures h[i] < |freq|
    {
      assert leaves[i - 1] == h[i];
    }
  }

  lemma {:induction false} OnlySonsStart(freq: seq<nat>, dl: seq<nat>, elems: nat, leaves: seq<nat>)
    requires elems <= |freq| && elems <= |dl|
    ensures OnlySons(freq, dl, freq, dl, elems, Children([]))
  {
  }

  lemma {:induction false} BuiltSpans(freq: seq<nat>, depth: seq<nat>, dl: seq<nat>, h: seq<nat>, elems: nat, leaves: seq<nat>, ms: seq<Pair>)
    requires Built(freq, depth, dl, h, elems, leaves, ms)
    ensures |ms| > 0 && |ms| + 1 == |leaves|
    ensures SameNodes(Children(ms) + [elems + |ms| - 1], leaves + Made(elems, |ms|))
  {
  }
}
