/** The priority queue of Huffman nodes (pqdownheap in trees.c). */
module Heap {

  // Less frequent, or as frequent and no deeper.
  predicate Smaller(freq: seq<nat>, depth: seq<nat>, n: nat, m: nat)
    requires n < |freq| && m < |freq| && n < |depth| && m < |depth|
  {
    freq[n] < freq[m] || (freq[n] == freq[m] && depth[n] <= depth[m])
  }

  // All of heap[1..len] are nodes.
  ghost predicate Nodes(h: seq<nat>, len: nat, size: nat) {
    len < |h| && forall i :: 1 <= i <= len ==> h[i] < size
  }

  // Node `i` of the heap is no greater than its sons.
  ghost predicate Father(freq: seq<nat>, depth: seq<nat>, h: seq<nat>, len: nat, i: nat)
    requires |freq| <= |depth| && Nodes(h, len, |freq|) && 1 <= i <= len
  {
    && (2 * i <= len ==> Smaller(freq, depth, h[i], h[2 * i]))
    && (2 * i + 1 <= len ==> Smaller(freq, depth, h[i], h[2 * i + 1]))
  }

  // heap[k..len] consists of heaps.
  ghost predicate HeapFrom(freq: seq<nat>, depth: seq<nat>, h: seq<nat>, len: nat, k: nat) {
    && |freq| <= |depth| && Nodes(h, len, |freq|)
    && forall i :: 1 <= i <= len && k <= i ==> Father(freq, depth, h, len, i)
  }

  // As `HeapFrom`, with `v` in the hole at `k` not yet settled.
  ghost predicate Sifting(freq: seq<nat>, depth: seq<nat>, h: seq<nat>, len: nat, k0: nat, k: nat) {
    && |freq| <= |depth| && Nodes(h, len, |freq|) && 1 <= k0 <= k <= len
    && (forall i :: k0 <= i <= len && i != k ==> Father(freq, depth, h, len, i))
    && (k0 <= k / 2 && 2 * k <= len ==> Smaller(freq, depth, h[k / 2], h[2 * k]))
    && (k0 <= k / 2 && 2 * k + 1 <= len ==> Smaller(freq, depth, h[k / 2], h[2 * k + 1]))
  }

  function Swap(h: seq<nat>, i: nat, j: nat): seq<nat>
    requires i < |h| && j < |h|
  {
    h[i := h[j]][j := h[i]]
  }

  ghost predicate SameContents(g: seq<nat>, h: seq<nat>, len: nat) {
    && |g| == |h| && len < |h| && h[0] == g[0] && h[len + 1..] == g[len + 1..]
    && multiset(h[1..len + 1]) == multiset(g[1..len + 1])
  }

  // One step down: the smaller son moves up, and the hole takes its place.
  lemma {:induction false} SiftDown(freq: seq<nat>, depth: seq<nat>, h: seq<nat>, len: nat, k0: nat, k: nat, j: nat)
    requires Sifting(freq, depth, h, len, k0, k) && (j == 2 * k || j == 2 * k + 1) && j <= len
    requires j == 2 * k && 2 * k + 1 <= len ==> Smaller(freq, depth, h[2 * k], h[2 * k + 1])
    requires j == 2 * k + 1 ==> Smaller(freq, depth, h[j], h[2 * k])
    requires Smaller(freq, depth, h[j], h[k])
    ensures Sifting(freq, depth, Swap(h, k, j), len, k0, j)
  {
    var g := Swap(h, k, j);
    assert Father(freq, depth, h, len, j);
    forall i | k0 <= i <= len && i != j
      ensures Father(freq, depth, g, len, i)
    {
      if i != k {
        assert Father(freq, depth, h, len, i);
      }
    }
  }

  lemma {:induction false} SwapContents(g: seq<nat>, h: seq<nat>, len: nat, i: nat, j: nat)
    requires SameContents(g, h, len) && 1 <= i <= len && 1 <= j <= len
    ensures SameContents(g, Swap(h, i, j), len)
  {
    assert Swap(h, i, j)[1..len + 1] == Swap(h[1..len + 1], i - 1, j - 1);
  }

  lemma {:induction false} SiftDone(freq: seq<nat>, depth: seq<nat>, h: seq<nat>, len: nat, k0: nat, k: nat)
    requires Sifting(freq, depth, h, len, k0, k) && Father(freq, depth, h, len, k)
    ensures HeapFrom(freq, depth, h, len, k0)
  {
  }

  lemma {:induction false} StartSifting(freq: seq<nat>, depth: seq<nat>, h: seq<nat>, len: nat, k: nat)
    requires 1 <= k <= len && HeapFrom(freq, depth, h, len, k + 1)
    ensures Sifting(freq, depth, h, len, k, k) && SameContents(h, h, len)
  {
  }

  lemma {:induction false} SiftBounds(freq: seq<nat>, depth: seq<nat>, h: seq<nat>, len: nat, k0: nat, k: nat, i: nat)
    requires Sifting(freq, depth, h, len, k0, k) && 1 <= i <= len
    ensures len < |h| && h[i] < |freq| <= |depth|
  {
  }

  /** A heap below node `start` becomes a heap from there on, with the same nodes. */
  method PqDownHeap(heap: array<nat>, heap_len: nat, freq: array<nat>, depth: array<nat>, start: nat)
    requires heap != freq && heap != depth && 1 <= start <= heap_len
    requires HeapFrom(freq[..], depth[..], heap[..], heap_len, start + 1)
    modifies heap
    ensures HeapFrom(freq[..], depth[..], heap[..], heap_len, start)
    ensures SameContents(old(heap[..]), heap[..], heap_len)
  {
    hide SameContents, Sifting, HeapFrom;
    ghost var h0, h := heap[..], heap[..];        // h: the heap with v in its place
    StartSifting(freq[..], depth[..], h, heap_len, start);
    SiftBounds(freq[..], depth[..], h, heap_len, start, start, start);
    var k, v, j := start, heap[start], start * 2;
    while j <= heap_len
      invariant 1 <= k <= heap_len < heap.Length && j == 2 * k
      invariant Sifting(freq[..], depth[..], h, heap_len, start, k)
      invariant SameContents(h0, h, heap_len)
      invariant |h| == heap.Length && h[k] == v && forall i :: 0 <= i < heap.Length && i != k ==> heap[i] == h[i]
      decreases heap_len - k
    {
      SiftBounds(freq[..], depth[..], h, heap_len, start, k, k);
      SiftBounds(freq[..], depth[..], h, heap_len, start, k, j);
      if j < heap_len {
        SiftBounds(freq[..], depth[..], h, heap_len, start, k, j + 1);
        if Smaller(freq[..], depth[..], heap[j + 1], heap[j]) {
          j := j + 1;
        }
      }
      if Smaller(freq[..], depth[..], v, heap[j]) {
        break;
      }
      SiftDown(freq[..], depth[..], h, heap_len, start, k, j);
      SwapContents(h0, h, heap_len, k, j);
      heap[k] := heap[j];
      h := Swap(h, k, j);
      k := j;
      j := j * 2;
    }
    heap[k] := v;
    assert heap[..] == h;
    NodesOf(freq[..], depth[..], h, heap_len, start, k);
    SiftDone(freq[..], depth[..], h, heap_len, start, k);
  }

  lemma {:induction false} NodesOf(freq: seq<nat>, depth: seq<nat>, h: seq<nat>, len: nat, k0: nat, k: nat)
    requires Sifting(freq, depth, h, len, k0, k)
    ensures |freq| <= |depth| && Nodes(h, len, |freq|)
  {
  }

  // The root of a heap is a least node.
  lemma {:induction false} RootLeast(freq: seq<nat>, depth: seq<nat>, h: seq<nat>, len: nat, i: nat)
    requires HeapFrom(freq, depth, h, len, 1) && 1 <= i <= len
    ensures h[1] < |freq| && h[i] < |freq| <= |depth| && Smaller(freq, depth, h[1], h[i])
    decreases i
  {
    if i > 1 {
      RootLeast(freq, depth, h, len, i / 2);
      assert Father(freq, depth, h, len, i / 2);
      assert i == 2 * (i / 2) || i == 2 * (i / 2) + 1;
    }
  }

  // With another root, or one node less, the sub-heaps below the root stay heaps.
  lemma {:induction false} NewRoot(freq: seq<nat>, depth: seq<nat>, h: seq<nat>, len: nat, v: nat, len1: nat)
    requires HeapFrom(freq, depth, h, len, 1) && 1 <= len1 <= len && v < |freq|
    ensures HeapFrom(freq, depth, h[1 := v], len1, 2)
  {
    var g := h[1 := v];
    forall i | 2 <= i <= len1
      ensures Father(freq, depth, g, len1, i)
    {
      assert Father(freq, depth, h, len, i);
    }
  }

  // The keys of nodes outside the heap do not matter.
  lemma {:induction false} OtherKeys(freq: seq<nat>, depth: seq<nat>, freq1: seq<nat>, depth1: seq<nat>, h: seq<nat>, len: nat)
    requires HeapFrom(freq, depth, h, len, 1) && |freq1| == |freq| && |depth1| == |depth|
    requires forall i :: 1 <= i <= len ==> freq1[h[i]] == freq[h[i]] && depth1[h[i]] == depth[h[i]]
    ensures HeapFrom(freq1, depth1, h, len, 1)
  {
    forall i | 1 <= i <= len
      ensures Father(freq1, depth1, h, len, i)
    {
      assert Father(freq, depth, h, len, i);
    }
  }

  // The nodes in the heap.
  function Active(h: seq<nat>, len: nat): (r: seq<nat>)
    requires len < |h|
    ensures |r| == len && forall i :: 0 <= i < len ==> r[i] == h[i + 1]
  {
    h[1..len + 1]
  }
}
