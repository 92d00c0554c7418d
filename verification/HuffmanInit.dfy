/** The first steps of build_tree (trees.c): collect the used symbols, make sure that there
are two, and make a heap of them. */
module HuffmanInit {
  import opened Bits
  import opened HuffmanBound
  import opened HuffmanForest
  import opened Heap
  import opened HuffmanMerge

  // The symbols below `n` that occur, in increasing order.
  function UsedBelow(freq: seq<nat>, n: nat): (r: seq<nat>)
    requires n <= |freq|
    ensures |r| <= n && forall i :: 0 <= i < |r| ==> r[i] < n && freq[r[i]] > 0
  {
    if n == 0 then []
    else if freq[n - 1] > 0 then UsedBelow(freq, n - 1) + [n - 1]
    else UsedBelow(freq, n - 1)
  }

  lemma {:induction false} UsedIncreasing(freq: seq<nat>, n: nat)
    requires n <= |freq|
    ensures forall i, j :: 0 <= i < j < |UsedBelow(freq, n)| ==> UsedBelow(freq, n)[i] < UsedBelow(freq, n)[j]
    ensures forall s :: 0 <= s < n && freq[s] > 0 ==> s in UsedBelow(freq, n)
  {
    if n > 0 {
      UsedIncreasing(freq, n - 1);
      if freq[n - 1] > 0 {
        assert UsedBelow(freq, n)[|UsedBelow(freq, n - 1)|] == n - 1;
      }
    }
  }

  // The symbols that are given a code although they do not occur, so that there are two codes.
  function Forced(used: seq<nat>): (r: seq<nat>)
    ensures |used| + |r| >= 2 && |r| <= 2 && (forall i :: 0 <= i < |r| ==> r[i] < 3)
  {
    if |used| >= 2 then []
    else if |used| == 1 then [if used[0] < 2 then used[0] + 1 else 0]
    else [0, 1]
  }

  function Leaves(freq: seq<nat>, elems: nat): seq<nat>
    requires elems <= |freq|
  {
    UsedBelow(freq, elems) + Forced(UsedBelow(freq, elems))
  }

  // The frequencies with the forced symbols counted once.
  function Counted(freq: seq<nat>, forced: seq<nat>): (r: seq<nat>)
    requires forall i :: 0 <= i < |forced| ==> forced[i] < |freq|
    ensures |r| == |freq|
  {
    seq(|freq|, i requires 0 <= i < |freq| => if i in forced then 1 else freq[i])
  }

  lemma {:induction false} LeavesFacts(freq: seq<nat>, elems: nat)
    requires 3 <= elems <= |freq|
    ensures var l, f := Leaves(freq, elems), Counted(freq, Forced(UsedBelow(freq, elems)));
            && 2 <= |l| <= elems && Distinct(l) && (forall i :: 0 <= i < |l| ==> l[i] < elems && f[l[i]] > 0)
            && (forall s :: 0 <= s < elems ==> (s in l <==> f[s] > 0))
  {
    UsedIncreasing(freq, elems);
    var u := UsedBelow(freq, elems);
    var l := Leaves(freq, elems);
    assert forall i :: 0 <= i < |u| ==> l[i] == u[i];
  }

  // The fields of deflate_state that build_tree works on.
  class TreeState {
    const heap: array<nat>
    const depth: array<nat>
    const bl_count: array<nat>
    var heap_len: nat
    var heap_max: nat
    var opt_len: int
    var static_len: int

    ghost predicate Valid()
      reads this
    {
      && heap != depth && heap != bl_count && depth != bl_count
      && heap.Length == HEAP_SIZE && depth.Length == HEAP_SIZE && bl_count.Length == 16
    }

    constructor ()
      ensures Valid() && fresh(heap) && fresh(depth) && fresh(bl_count) && opt_len == 0 && static_len == 0
    {
      heap := new nat[HEAP_SIZE](_ => 0);
      depth := new nat[HEAP_SIZE](_ => 0);
      bl_count := new nat[16](_ => 0);
      heap_len, heap_max, opt_len, static_len := 0, HEAP_SIZE, 0, 0;
    }
  }

  // The arrays of a tree are its own.
  predicate Apart(s: TreeState, fc: array<nat>, dl: array<nat>) {
    && fc != dl && fc != s.heap && fc != s.depth && fc != s.bl_count
    && dl != s.heap && dl != s.depth && dl != s.bl_count
  }

  // The unused symbols below `n` have no length.
  ghost predicate Cleared(freq: seq<nat>, lens: seq<nat>, n: nat) {
    n <= |freq| && n <= |lens| && forall i :: 0 <= i < n && freq[i] == 0 ==> lens[i] == 0
  }

  // The nodes are trees of height 0.
  ghost predicate Flat(depth: seq<nat>, nodes: seq<nat>) {
    forall i :: 0 <= i < |nodes| ==> nodes[i] < |depth| && depth[nodes[i]] == 0
  }

  lemma {:induction false} FlatMore(depth: seq<nat>, nodes: seq<nat>, x: nat)
    requires Flat(depth, nodes) && x < |depth|
    ensures Flat(depth[x := 0], nodes + [x])
  {
  }

  /** Put the used symbols into the heap array. */
  method CollectUsed(s: TreeState, fc: array<nat>, dl: array<nat>, elems: nat) returns (max_code: int)
    requires s.Valid() && Apart(s, fc, dl) && elems <= 286 && elems <= fc.Length && elems <= dl.Length
    modifies s, s.heap, s.depth, dl
    ensures s.heap_max == HEAP_SIZE && s.opt_len == old(s.opt_len) && s.static_len == old(s.static_len)
    ensures s.heap_len <= elems && Active(s.heap[..], s.heap_len) == UsedBelow(fc[..], elems)
    ensures max_code == if s.heap_len == 0 then -1 else s.heap[s.heap_len]
    ensures Cleared(fc[..], dl[..], elems) && Flat(s.depth[..], UsedBelow(fc[..], elems))
  {
    hide Flat, UsedBelow, Cleared;
    NoneUsedBelow(fc[..]);
    NoneFlat(s.depth[..]);
    NoneCleared(fc[..], dl[..]);
    s.heap_len, s.heap_max := 0, HEAP_SIZE;
    max_code := -1;
    var n: nat := 0;
    while n < elems
      invariant n <= elems && s.heap_len <= n && s.heap_max == HEAP_SIZE
      invariant s.opt_len == old(s.opt_len) && s.static_len == old(s.static_len)
      invariant fc[..] == old(fc[..])
      invariant Active(s.heap[..], s.heap_len) == UsedBelow(fc[..], n)
      invariant max_code == if s.heap_len == 0 then -1 else s.heap[s.heap_len]
      invariant Cleared(fc[..], dl[..], n) && Flat(s.depth[..], UsedBelow(fc[..], n))
    {
      UsedMore(fc[..], n);
      ClearedMore(fc[..], dl[..], n);
      if fc[n] != 0 {
        ghost var h, len := s.heap[..], s.heap_len;
        FlatMore(s.depth[..], UsedBelow(fc[..], n), n);
        s.heap_len := s.heap_len + 1;
        s.heap[s.heap_len] := n;
        max_code := n;
        ghost var depth := s.depth[..];
        s.depth[n] := 0;
        assert s.depth[..] == depth[n := 0];
        assert Active(s.heap[..], len + 1) == Active(h, len) + [n];
      } else {
        ghost var lens := dl[..];
        dl[n] := 0;
        assert dl[..] == lens[n := 0];
      }
      n := n + 1;
    }
  }

  lemma {:induction false} NoneCleared(freq: seq<nat>, lens: seq<nat>)
    ensures Cleared(freq, lens, 0)
  {
  }

  lemma {:induction false} ClearedMore(freq: seq<nat>, lens: seq<nat>, n: nat)
    requires Cleared(freq, lens, n) && n < |freq| && n < |lens|
    ensures freq[n] > 0 ==> Cleared(freq, lens, n + 1)
    ensures Cleared(freq, lens[n := 0], n + 1)
  {
  }

  lemma {:induction false} NoneUsedBelow(freq: seq<nat>)
    ensures UsedBelow(freq, 0) == []
  {
  }

  lemma {:induction false} UsedMore(freq: seq<nat>, n: nat)
    requires n < |freq|
    ensures UsedBelow(freq, n + 1) == UsedBelow(freq, n) + if freq[n] > 0 then [n] else []
  {
  }

  lemma {:induction false} NoneFlat(depth: seq<nat>)
    ensures Flat(depth, [])
  {
  }

  // What the static tree spends on the symbols `ids`; no static tree spends nothing.
  function StaticLens(stree: seq<nat>, ids: seq<nat>): nat
    requires stree == [] || forall i :: 0 <= i < |ids| ==> ids[i] < |stree|
  {
    if stree == [] then 0 else Sum(At(ids, stree))
  }

  lemma {:induction false} CountedMore(freq: seq<nat>, forced: seq<nat>, x: nat)
    requires x < |freq| && forall i :: 0 <= i < |forced| ==> forced[i] < |freq|
    ensures forall i :: 0 <= i < |forced + [x]| ==> (forced + [x])[i] < |freq|
    ensures Counted(freq, forced + [x]) == Counted(freq, forced)[x := 1]
  {
  }

  lemma {:induction false} StaticMore(stree: seq<nat>, ids: seq<nat>, x: nat)
    requires stree == [] || (x < |stree| && forall i :: 0 <= i < |ids| ==> ids[i] < |stree|)
    ensures StaticLens(stree, ids + [x]) == StaticLens(stree, ids) + if stree == [] then 0 else stree[x]
  {
    if stree != [] {
      assert At(ids + [x], stree)[..|ids|] == At(ids, stree);
    }
  }

  /** `i` symbols have been forced: `active` are the symbols in use, `c` their frequencies,
      `stat` what the static tree spends on those forced, `max_code` the last symbol. */
  ghost predicate Forcing(f: seq<nat>, elems: nat, stree: seq<nat>, i: nat, active: seq<nat>, c: seq<nat>,
                          stat: int, max_code: int)
  {
    && 3 <= elems <= |f| && (stree == [] || elems <= |stree|)
    && var u := UsedBelow(f, elems);
    && i <= |Forced(u)|
    && active == u + Forced(u)[..i] && c == Counted(f, Forced(u)[..i])
    && stat == StaticLens(stree, Forced(u)[..i])
    && (max_code == if |active| == 0 then -1 else if i == 0 then u[|u| - 1]
                    else if u == [] then i - 1 else if u[0] < 2 then u[0] + 1 else u[0])
  }

  lemma {:induction false} ForcingStart(f: seq<nat>, elems: nat, stree: seq<nat>, active: seq<nat>, max_code: int)
    requires 3 <= elems <= |f| && (stree == [] || elems <= |stree|) && active == UsedBelow(f, elems)
    requires max_code == if |active| == 0 then -1 else active[|active| - 1]
    ensures Forcing(f, elems, stree, 0, active, f, 0, max_code)
  {
    NoneForced(f, stree);
    assert active + Forced(active)[..0] == active;
  }

  lemma {:induction false} ForcingStep(f: seq<nat>, elems: nat, stree: seq<nat>, i: nat, active: seq<nat>, c: seq<nat>,
                                       stat: int, max_code: int, node: nat)
    requires Forcing(f, elems, stree, i, active, c, stat, max_code) && |active| < 2
    requires node == if max_code < 2 then max_code + 1 else 0
    ensures node < |c| && node < elems
    ensures Forcing(f, elems, stree, i + 1, active + [node], c[node := 1],
                    stat + (if stree == [] then 0 else stree[node]), if max_code < 2 then max_code + 1 else max_code)
  {
    var u := UsedBelow(f, elems);
    assert u == [] || |u| == 1;
    assert i < |Forced(u)| && Forced(u)[i] == node;
    assert Forced(u)[..i + 1] == Forced(u)[..i] + [node];
    CountedMore(f, Forced(u)[..i], node);
    StaticMore(stree, Forced(u)[..i], node);
  }

  lemma {:induction false} ForcingEnd(f: seq<nat>, elems: nat, stree: seq<nat>, i: nat, active: seq<nat>, c: seq<nat>,
                                      stat: int, max_code: int)
    requires Forcing(f, elems, stree, i, active, c, stat, max_code) && |active| >= 2
    ensures i == |Forced(UsedBelow(f, elems))| && active == Leaves(f, elems)
    ensures c == Counted(f, Forced(UsedBelow(f, elems))) && stat == StaticLens(stree, Forced(UsedBelow(f, elems)))
    ensures 0 <= max_code && max_code in Leaves(f, elems)
    ensures forall j :: 0 <= j < |Leaves(f, elems)| ==> Leaves(f, elems)[j] <= max_code
  {
    var u := UsedBelow(f, elems);
    assert Forced(u)[..|Forced(u)|] == Forced(u);
    LastLeaf(f, elems, u, max_code);
  }

  // One more symbol gets a code although it does not occur.
  method ForceOne(s: TreeState, fc: array<nat>, dl: array<nat>, stree: seq<nat>, elems: nat, max0: int,
                  ghost f: seq<nat>, ghost i: nat, ghost stat0: int)
    returns (max_code: int, ghost stat: int)
    requires s.Valid() && Apart(s, fc, dl) && s.heap_len < 2 && elems <= 286
    requires Forcing(f, elems, stree, i, Active(s.heap[..], s.heap_len), fc[..], stat0, max0)
    requires Flat(s.depth[..], Active(s.heap[..], s.heap_len))
    modifies s, s.heap, s.depth, fc
    ensures s.heap_len == old(s.heap_len) + 1 && s.heap_max == old(s.heap_max)
    ensures Flat(s.depth[..], Active(s.heap[..], s.heap_len))
    ensures Forcing(f, elems, stree, i + 1, Active(s.heap[..], s.heap_len), fc[..], stat, max_code)
    ensures s.opt_len == old(s.opt_len) - 1 && s.static_len - old(s.static_len) == stat0 - stat
  {
    ghost var h, c, len := s.heap[..], fc[..], s.heap_len;
    var node: nat := if max0 < 2 then MaxNext(f, elems, stree, i, Active(h, len), c, stat0, max0); max0 + 1 else 0;
    ForcingStep(f, elems, stree, i, Active(h, len), c, stat0, max0, node);
    ForcingTree(f, elems, stree, i, Active(h, len), c, stat0, max0);
    hide Forcing;
    ghost var depth := s.depth[..];
    FlatMore(depth, Active(h, len), node);
    max_code := if max0 < 2 then node else max0;
    s.heap_len := s.heap_len + 1;
    s.heap[s.heap_len] := node;
    fc[node] := 1;
    s.depth[node] := 0;
    s.opt_len := s.opt_len - 1;
    if stree != [] {
      s.static_len := s.static_len - stree[node];
    }
    stat := stat0 + (if stree == [] then 0 else stree[node]);
    assert fc[..] == c[node := 1] && s.depth[..] == depth[node := 0];
    assert Active(s.heap[..], s.heap_len) == Active(h, len) + [node];
  }

  lemma {:induction false} MaxNext(f: seq<nat>, elems: nat, stree: seq<nat>, i: nat, active: seq<nat>, c: seq<nat>,
                                   stat: int, max_code: int)
    requires Forcing(f, elems, stree, i, active, c, stat, max_code)
    ensures max_code >= -1
  {
  }

  lemma {:induction false} ForcingTree(f: seq<nat>, elems: nat, stree: seq<nat>, i: nat, active: seq<nat>, c: seq<nat>,
                                       stat: int, max_code: int)
    requires Forcing(f, elems, stree, i, active, c, stat, max_code)
    ensures stree == [] || elems <= |stree|
  {
  }

  /** The heap has two leaves or more: unused symbols are counted once where fewer are used. */
  method ForceTwo(s: TreeState, fc: array<nat>, dl: array<nat>, stree: seq<nat>, elems: nat, start: int)
    returns (max_code: int)
    requires s.Valid() && Apart(s, fc, dl) && 3 <= elems <= 286 && elems <= fc.Length
    requires stree == [] || elems <= |stree|
    requires s.heap_len <= elems && Active(s.heap[..], s.heap_len) == UsedBelow(fc[..], elems)
    requires start == if s.heap_len == 0 then -1 else s.heap[s.heap_len]
    requires Flat(s.depth[..], UsedBelow(fc[..], elems))
    modifies s, s.heap, s.depth, fc
    ensures s.heap_len <= elems && s.heap_max == old(s.heap_max)
    ensures Active(s.heap[..], s.heap_len) == Leaves(old(fc[..]), elems) && Flat(s.depth[..], Leaves(old(fc[..]), elems))
    ensures var forced := Forced(UsedBelow(old(fc[..]), elems));
            && fc[..] == Counted(old(fc[..]), forced)
            && s.opt_len == old(s.opt_len) - |forced|
            && s.static_len == old(s.static_len) - StaticLens(stree, forced)
    ensures 0 <= max_code && max_code in Leaves(old(fc[..]), elems)
    ensures forall i :: 0 <= i < |Leaves(old(fc[..]), elems)| ==> Leaves(old(fc[..]), elems)[i] <= max_code
  {
    ghost var f := fc[..];
    ghost var i: nat, stat: int := 0, 0;
    max_code := start;
    ForcingStart(f, elems, stree, Active(s.heap[..], s.heap_len), max_code);
    hide Forcing, Counted, StaticLens, UsedBelow, Forced, Leaves, Active, Flat;
    while s.heap_len < 2
      invariant s.heap_len <= elems && s.heap_max == old(s.heap_max) && Flat(s.depth[..], Active(s.heap[..], s.heap_len))
      invariant Forcing(f, elems, stree, i, Active(s.heap[..], s.heap_len), fc[..], stat, max_code)
      invariant s.opt_len == old(s.opt_len) - i && s.static_len == old(s.static_len) - stat
    {
      max_code, stat := ForceOne(s, fc, dl, stree, elems, max_code, f, i, stat);
      i := i + 1;
    }
    ForcingEnd(f, elems, stree, i, Active(s.heap[..], s.heap_len), fc[..], stat, max_code);
  }

  lemma {:induction false} NoneForced(f: seq<nat>, stree: seq<nat>)
    ensures Counted(f, []) == f && StaticLens(stree, []) == 0
  {
    assert At([], stree) == [];
  }

  lemma {:induction false} LastLeaf(f: seq<nat>, elems: nat, u: seq<nat>, max_code: int)
    requires elems <= |f| && u == UsedBelow(f, elems)
    requires max_code == if |u| >= 2 then u[|u| - 1] else if u == [] then 1 else if u[0] < 2 then u[0] + 1 else u[0]
    ensures 0 <= max_code && max_code in Leaves(f, elems)
    ensures forall i :: 0 <= i < |Leaves(f, elems)| ==> Leaves(f, elems)[i] <= max_code
  {
    hide UsedBelow;
    UsedIncreasing(f, elems);
    var l := Leaves(f, elems);
    if |u| >= 2 {
      assert l[|u| - 1] == max_code;
    } else if u == [] {
      assert l[1] == 1;
    } else if u[0] < 2 {
      assert l[1] == max_code;
    } else {
      assert l[0] == max_code;
    }
  }
}
