/** The first pass of gen_bitlen (trees.c): lengths from the depths in the tree. */
module FirstPass {
  import opened Bits
  import opened HuffmanBound
  import opened HuffmanForest
  import opened HuffmanMerge
  import opened HuffmanTree
  import opened TreeLengths
  import opened HuffmanInit

  /** The symbols `elems`, the extra bits of those from `base` on, the greatest length allowed,
      and the lengths of the static tree, if there is one. */
  datatype StaticDesc = StaticDesc(stree: seq<nat>, extra: seq<nat>, base: nat, elems: nat, max_length: nat)

  predicate DescOk(d: StaticDesc) {
    && 3 <= d.elems <= 286 && d.elems <= d.base + |d.extra| && (d.stree == [] || d.elems <= |d.stree|)
    && 0 < d.max_length <= 15 && d.elems <= Pow2(d.max_length)
    && (forall n :: 0 <= n < 3 ==> Extra(d, n) == 0)
  }

  // The extra bits of a symbol.
  function Extra(d: StaticDesc, n: nat): nat {
    if n >= d.base && n - d.base < |d.extra| then d.extra[n - d.base] else 0
  }

  // `g` for symbols, nothing for other nodes.
  function Mask(g: seq<nat>, elems: nat): (r: seq<nat>)
    ensures |r| == |g|
  {
    seq(|g|, x requires 0 <= x < |g| => if x < elems then g[x] else 0)
  }

  // What each symbol costs with the lengths `dl`, and with the static tree.
  function Costs(d: StaticDesc, freq: seq<nat>, dl: seq<nat>): (r: seq<nat>)
    requires |freq| == |dl|
    ensures |r| == |dl|
  {
    seq(|dl|, x requires 0 <= x < |dl| => freq[x] * (dl[x] + Extra(d, x)))
  }

  function StaticCosts(d: StaticDesc, freq: seq<nat>): (r: seq<nat>)
    ensures |r| == |freq|
  {
    seq(|freq|, x requires 0 <= x < |freq| => if x < |d.stree| then freq[x] * (d.stree[x] + Extra(d, x)) else 0)
  }

  // What the sons from the t-th on have in `g`.
  function SumFrom(c: seq<nat>, t: nat, g: seq<nat>): nat
    requires t <= |c| && forall j :: 0 <= j < |c| ==> c[j] < |g|
  {
    Sum(At(c[t..], g))
  }

  lemma {:induction false} SumFromStep(c: seq<nat>, t: nat, g: seq<nat>)
    requires 0 < t <= |c| && forall j :: 0 <= j < |c| ==> c[j] < |g|
    ensures SumFrom(c, t - 1, g) == g[c[t - 1]] + SumFrom(c, t, g)
  {
    assert c[t - 1..] == [c[t - 1]] + c[t..];
    AtConcat([c[t - 1]], c[t..], g);
    var a := At([c[t - 1]], g);
    assert a == [g[c[t - 1]]] && a[..0] == [];
  }

  lemma {:induction false} SumFromSame(c: seq<nat>, t: nat, g: seq<nat>, g1: seq<nat>)
    requires t <= |c| && |g| == |g1| && forall j :: 0 <= j < |c| ==> c[j] < |g|
    requires forall j :: t <= j < |c| ==> g[c[j]] == g1[c[j]]
    ensures SumFrom(c, t, g) == SumFrom(c, t, g1)
  {
    assert At(c[t..], g) == At(c[t..], g1);
  }

  // The sons `c`, the last ones first, get their lengths; those before the t-th still know their fathers.
  ghost predicate Descending(dl0: seq<nat>, dl: seq<nat>, elems: nat, c: seq<nat>, max: nat, t: nat) {
    && |dl| == |dl0| && |c| > 0 && elems + (|c| + 1) / 2 <= |dl| && t <= |c| && dl[elems + (|c| - 1) / 2] == 0
    && (forall j :: 0 <= j < |c| ==> c[j] < elems + j / 2)
    && (forall j :: t <= j < |c| ==> dl[c[j]] == Cap(dl[elems + j / 2] + 1, max))
    && (forall j :: 0 <= j < t ==> dl[c[j]] == elems + j / 2)
    && (forall x :: 0 <= x < elems && x !in c ==> dl[x] == dl0[x])
  }

  lemma {:induction false} DescendStep(dl0: seq<nat>, dl: seq<nat>, elems: nat, c: seq<nat>, max: nat, t: nat)
    requires Descending(dl0, dl, elems, c, max, t) && 0 < t && Distinct(c)
    ensures var n := c[t - 1];
            && n < |dl| && dl[n] == elems + (t - 1) / 2 < |dl|
            && Descending(dl0, dl[n := Cap(dl[dl[n]] + 1, max)], elems, c, max, t - 1)
  {
    var n := c[t - 1];
    assert n in c;
    var dl1 := dl[n := Cap(dl[dl[n]] + 1, max)];
    forall j | t - 1 <= j < |c|
      ensures dl1[c[j]] == Cap(dl1[elems + j / 2] + 1, max)
    {
      assert n < elems + (t - 1) / 2 <= elems + j / 2;
      assert j >= t ==> c[j] != n;
    }
    forall j | 0 <= j < t - 1
      ensures dl1[c[j]] == elems + j / 2
    {
      assert c[j] != n;
    }
  }

  // How many sons from the t-th on would be longer than `max`.
  function OverFrom(dl: seq<nat>, elems: nat, t: nat, n: nat, max: nat): nat
    requires t <= n && elems + (n + 1) / 2 <= |dl|
    decreases n - t
  {
    if t == n then 0 else OverFrom(dl, elems, t + 1, n, max) + if dl[elems + t / 2] == max then 1 else 0
  }

  /** What the pass has counted when the sons from the t-th on have their lengths. */
  ghost predicate Counted1(d: StaticDesc, freq: seq<nat>, dl: seq<nat>, c: seq<nat>, t: nat,
                           counts: seq<nat>, opt: int, stat: int, overflow: int) {
    && |freq| == |dl| && t <= |c| && (forall j :: 0 <= j < |c| ==> c[j] < |dl|) && |counts| == 16
    && (forall b :: 0 <= b < 16 ==> counts[b] == SumFrom(c, t, Mask(Mark(dl, b), d.elems)))
    && opt == SumFrom(c, t, Mask(Costs(d, freq, dl), d.elems))
    && stat == SumFrom(c, t, Mask(StaticCosts(d, freq), d.elems))
    && d.elems + (|c| + 1) / 2 <= |dl| && overflow == OverFrom(dl, d.elems, t, |c|, d.max_length)
  }

  // Only the node that gets its length makes a difference.
  lemma {:induction false} SumAfter(c: seq<nat>, t: nat, g: seq<nat>, g1: seq<nat>)
    requires 0 < t <= |c| && |g| == |g1| && Distinct(c) && forall j :: 0 <= j < |c| ==> c[j] < |g|
    requires forall x :: 0 <= x < |g| && x != c[t - 1] ==> g1[x] == g[x]
    ensures SumFrom(c, t - 1, g1) == SumFrom(c, t, g) + g1[c[t - 1]]
  {
    SumFromStep(c, t, g1);
    SumFromSame(c, t, g, g1);
  }

  lemma {:induction false} OverSame(dl: seq<nat>, dl1: seq<nat>, elems: nat, t: nat, n: nat, max: nat)
    requires t <= n && elems + (n + 1) / 2 <= |dl| == |dl1|
    requires forall x :: elems + t / 2 <= x < |dl| ==> dl1[x] == dl[x]
    ensures OverFrom(dl1, elems, t, n, max) == OverFrom(dl, elems, t, n, max)
    decreases n - t
  {
    if t < n {
      OverSame(dl, dl1, elems, t + 1, n, max);
    }
  }

  // The change of one count when the son before the t-th gets its length.
  lemma {:induction false} MarkStep(dl: seq<nat>, c: seq<nat>, t: nat, elems: nat, bits: nat, b: nat)
    requires 0 < t <= |c| && Distinct(c) && forall j :: 0 <= j < |c| ==> c[j] < |dl|
    ensures var n := c[t - 1]; var dl1 := dl[n := bits];
            SumFrom(c, t - 1, Mask(Mark(dl1, b), elems)) ==
            SumFrom(c, t, Mask(Mark(dl, b), elems)) + if n < elems && b == bits then 1 else 0
  {
    var n := c[t - 1];
    var dl1 := dl[n := bits];
    SumAfter(c, t, Mask(Mark(dl, b), elems), Mask(Mark(dl1, b), elems));
  }

  lemma {:induction false} CostStep(d: StaticDesc, freq: seq<nat>, dl: seq<nat>, c: seq<nat>, t: nat, bits: nat)
    requires 0 < t <= |c| && Distinct(c) && |freq| == |dl| && forall j :: 0 <= j < |c| ==> c[j] < |dl|
    ensures var n := c[t - 1]; var dl1 := dl[n := bits];
            && SumFrom(c, t - 1, Mask(Costs(d, freq, dl1), d.elems)) ==
               SumFrom(c, t, Mask(Costs(d, freq, dl), d.elems)) +
               (if n < d.elems then freq[n] * (bits + Extra(d, n)) else 0)
            && SumFrom(c, t - 1, Mask(StaticCosts(d, freq), d.elems)) ==
               SumFrom(c, t, Mask(StaticCosts(d, freq), d.elems)) + if n < d.elems then StaticCosts(d, freq)[n] else 0
  {
    var n := c[t - 1];
    var dl1 := dl[n := bits];
    SumAfter(c, t, Mask(Costs(d, freq, dl), d.elems), Mask(Costs(d, freq, dl1), d.elems));
    SumFromStep(c, t, Mask(StaticCosts(d, freq), d.elems));
  }

  lemma {:induction false} CountStep(d: StaticDesc, freq: seq<nat>, dl: seq<nat>, c: seq<nat>, t: nat, counts: seq<nat>,
                                     opt: int, stat: int, overflow: int, n: nat, bits: nat, capped: bool)
    requires Counted1(d, freq, dl, c, t, counts, opt, stat, overflow) && Distinct(c)
    requires 0 < t && n == c[t - 1] < d.elems + (t - 1) / 2 && bits < 16
    requires capped <==> dl[d.elems + (t - 1) / 2] == d.max_length
    ensures n < d.elems ==>
              Counted1(d, freq, dl[n := bits], c, t - 1, counts[bits := counts[bits] + 1],
                       opt + freq[n] * (bits + Extra(d, n)), stat + StaticCosts(d, freq)[n],
                       overflow + if capped then 1 else 0)
    ensures n >= d.elems ==>
              Counted1(d, freq, dl[n := bits], c, t - 1, counts, opt, stat, overflow + if capped then 1 else 0)
  {
    hide SumFrom;
    var dl1 := dl[n := bits];
    forall b | 0 <= b < 16
      ensures SumFrom(c, t - 1, Mask(Mark(dl1, b), d.elems)) ==
              SumFrom(c, t, Mask(Mark(dl, b), d.elems)) + if n < d.elems && b == bits then 1 else 0
    {
      MarkStep(dl, c, t, d.elems, bits, b);
    }
    CostStep(d, freq, dl, c, t, bits);
    OverSame(dl, dl1, d.elems, t - 1, |c|, d.max_length);
    hide Mask, Mark, Costs, StaticCosts;
  }

  lemma {:induction false} DadBounded(dl0: seq<nat>, dl: seq<nat>, elems: nat, leaves: seq<nat>, ms: seq<Pair>, max: nat, t: nat)
    requires Spanning(elems, leaves, ms) && Descending(dl0, dl, elems, Children(ms), max, t) && 0 < t
    ensures dl[elems + (t - 1) / 2] <= max
  {
    var i := (t - 1) / 2;
    var l, c := leaves + Made(elems, |ms|), Children(ms) + [elems + |ms| - 1];
    assert SameNodes(l, c);
    SameMembers(l, c);
    hide SameNodes, Children;
    assert l[|leaves| + i] == elems + i;
    var j :| 0 <= j < |c| && c[j] == elems + i;
    if j < 2 * |ms| {
      assert c[j] == Children(ms)[j];
      assert j >= t;
    }
  }

  /** What the tree and the sums look like during the pass. */
  ghost predicate Passing(d: StaticDesc, freq: seq<nat>, dl0: seq<nat>, dl: seq<nat>, leaves: seq<nat>, ms: seq<Pair>,
                          t: nat, counts: seq<nat>, opt: int, stat: int, overflow: int) {
    && Spanning(d.elems, leaves, ms) && DescOk(d)
    && Descending(dl0, dl, d.elems, Children(ms), d.max_length, t)
    && Counted1(d, freq, dl, Children(ms), t, counts, opt, stat, overflow)
  }

  lemma {:induction false} SonsDistinct(elems: nat, leaves: seq<nat>, ms: seq<Pair>)
    requires Spanning(elems, leaves, ms)
    ensures Distinct(Children(ms))
    ensures forall j :: 0 <= j < 2 * |ms| && Children(ms)[j] < elems ==> Children(ms)[j] in leaves
  {
    hide SameNodes, Children;
    var c := Children(ms) + [elems + |ms| - 1];
    SameDistinct(c, leaves + Made(elems, |ms|));
    SameMembers(c, leaves + Made(elems, |ms|));
    assert forall j :: 0 <= j < 2 * |ms| ==> Children(ms)[j] == c[j];
  }

  lemma {:induction false} PassStep(d: StaticDesc, freq: seq<nat>, dl0: seq<nat>, dl: seq<nat>, leaves: seq<nat>, ms: seq<Pair>,
                                    t: nat, counts: seq<nat>, opt: int, stat: int, overflow: int, n: nat, bits: nat, capped: bool)
    requires Passing(d, freq, dl0, dl, leaves, ms, t, counts, opt, stat, overflow)
    requires 0 < t <= 2 * |ms| && n == Children(ms)[t - 1] && n < |dl| && dl[n] < |dl|
    requires capped <==> dl[dl[n]] + 1 > d.max_length
    requires bits == if capped then d.max_length else dl[dl[n]] + 1
    ensures n < |freq| && |counts| == 16 && bits < 16 && (n < d.elems ==> n in leaves)
    ensures n < d.elems ==>
              Passing(d, freq, dl0, dl[n := bits], leaves, ms, t - 1, counts[bits := counts[bits] + 1],
                      opt + freq[n] * (bits + Extra(d, n)), stat + StaticCosts(d, freq)[n],
                      overflow + if capped then 1 else 0)
    ensures n >= d.elems ==>
              Passing(d, freq, dl0, dl[n := bits], leaves, ms, t - 1, counts, opt, stat, overflow + if capped then 1 else 0)
  {
    hide Children, Spanning, Counted1, StaticCosts;
    SonsDistinct(d.elems, leaves, ms);
    DadBounded(dl0, dl, d.elems, leaves, ms, d.max_length, t);
    DescendStep(dl0, dl, d.elems, Children(ms), d.max_length, t);
    hide Descending;
    CountStep(d, freq, dl, Children(ms), t, counts, opt, stat, overflow, n, bits, capped);
    CountedShape(d, freq, dl, Children(ms), t, counts, opt, stat, overflow);
  }

  lemma {:induction false} CountedShape(d: StaticDesc, freq: seq<nat>, dl: seq<nat>, c: seq<nat>, t: nat, counts: seq<nat>,
                                        opt: int, stat: int, overflow: int)
    requires Counted1(d, freq, dl, c, t, counts, opt, stat, overflow)
    ensures |freq| == |dl| && |counts| == 16
  {
  }

  lemma {:induction false} LaidNode(h: seq<nat>, ms: seq<Pair>, j: nat)
    requires Laid(h, ms) && j < 2 * |ms|
    ensures h[HEAP_SIZE - 1 - j] == Children(ms)[j]
  {
    SonsListed(ms, j / 2);
    assert j == 2 * (j / 2) || j == 2 * (j / 2) + 1;
  }

  lemma {:induction false} PassingSon(d: StaticDesc, freq: seq<nat>, dl0: seq<nat>, dl: seq<nat>, leaves: seq<nat>, ms: seq<Pair>,
                                      t: nat, counts: seq<nat>, opt: int, stat: int, overflow: int, n: nat)
    requires Passing(d, freq, dl0, dl, leaves, ms, t, counts, opt, stat, overflow)
    requires 0 < t <= 2 * |ms| && n == Children(ms)[t - 1]
    ensures n < |dl| && dl[n] < |dl|
  {
    hide Children, Spanning, Counted1;
    SonsDistinct(d.elems, leaves, ms);
    DescendStep(dl0, dl, d.elems, Children(ms), d.max_length, t);
  }

  // The pass begins: the root has length 0, and nothing is counted.
  lemma {:induction false} PassStart(d: StaticDesc, freq: seq<nat>, depth: seq<nat>, dl: seq<nat>, h: seq<nat>, leaves: seq<nat>, ms: seq<Pair>)
    requires Built(freq, depth, dl, h, d.elems, leaves, ms) && DescOk(d)
    ensures d.elems + |ms| - 1 < |dl|
    ensures Passing(d, freq, dl, dl[d.elems + |ms| - 1 := 0], leaves, ms, 2 * |ms|, seq(16, _ => 0), 0, 0, 0)
  {
    hide Ordered, Cheapest, Grown, Laid, SameNodes, Children;
    var dl1, c, root := dl[d.elems + |ms| - 1 := 0], Children(ms), d.elems + |ms| - 1;
    forall j | 0 <= j < |c|
      ensures c[j] < d.elems + j / 2 && dl1[c[j]] == d.elems + j / 2
    {
      SonsListed(ms, j / 2);
      assert j == 2 * (j / 2) || j == 2 * (j / 2) + 1;
    }
    NothingSummed(c);
  }

  lemma {:induction false} NothingSummed(c: seq<nat>)
    ensures forall g: seq<nat> | forall j :: 0 <= j < |c| ==> c[j] < |g| :: SumFrom(c, |c|, g) == 0
  {
    forall g: seq<nat> | forall j :: 0 <= j < |c| ==> c[j] < |g|
      ensures SumFrom(c, |c|, g) == 0
    {
      assert At(c[|c|..], g) == [];
    }
  }

  /** Every node gets the length its father gives it, cut at the limit; leaves are counted and their cost added. */
  method AssignDepths(s: TreeState, fc: array<nat>, dl: array<nat>, d: StaticDesc, max_code: nat,
                      ghost leaves: seq<nat>, ghost ms: seq<Pair>)
    returns (overflow: nat)
    requires s.Valid() && Apart(s, fc, dl) && DescOk(d)
    requires Built(fc[..], s.depth[..], dl[..], s.heap[..], d.elems, leaves, ms) && s.heap_max == HEAP_SIZE - 1 - 2 * |ms|
    requires max_code < d.elems && forall x :: x in leaves ==> x <= max_code
    modifies s, s.bl_count, dl
    ensures Passing(d, fc[..], old(dl[..]), dl[..], leaves, ms, 0, s.bl_count[..],
                    s.opt_len - old(s.opt_len), s.static_len - old(s.static_len), overflow)
  {
    hide Built, Passing, Children, Laid, DescOk, StaticCosts;
    ghost var dl0, f, h0 := dl[..], fc[..], s.heap[..];
    BuiltLaid(f, s.depth[..], dl0, h0, d.elems, leaves, ms);
    PassStart(d, f, s.depth[..], dl0, h0, leaves, ms);
    var bits := 0;
    while bits <= 15
      invariant 0 <= bits <= 16
      invariant forall b :: 0 <= b < bits ==> s.bl_count[b] == 0
      invariant dl[..] == dl0 && s.heap[..] == h0 && s.heap_max == old(s.heap_max)
      invariant s.opt_len == old(s.opt_len) && s.static_len == old(s.static_len)
    {
      s.bl_count[bits] := 0;
      bits := bits + 1;
    }
    dl[s.heap[s.heap_max]] := 0;
    assert s.bl_count[..] == seq(16, _ => 0);
    var h := s.heap_max + 1;
    overflow := 0;
    ghost var t := 2 * |ms|;
    while h < HEAP_SIZE
      invariant h + t == HEAP_SIZE && 0 <= t <= 2 * |ms| && s.heap[..] == h0 && fc[..] == f
      invariant Passing(d, f, dl0, dl[..], leaves, ms, t, s.bl_count[..],
                        s.opt_len - old(s.opt_len), s.static_len - old(s.static_len), overflow)
    {
      LaidNode(h0, ms, t - 1);
      ghost var o, st := s.opt_len - old(s.opt_len), s.static_len - old(s.static_len);
      overflow := AssignDepth(s, fc, dl, d, max_code, h, overflow, leaves, ms, dl0, t, o, st);
      h, t := h + 1, t - 1;
    }
  }

  lemma {:induction false} BuiltLaid(freq: seq<nat>, depth: seq<nat>, dl: seq<nat>, h: seq<nat>, elems: nat, leaves: seq<nat>, ms: seq<Pair>)
    requires Built(freq, depth, dl, h, elems, leaves, ms)
    ensures Laid(h, ms) && h[HEAP_SIZE - 1 - 2 * |ms|] == elems + |ms| - 1 && elems + |ms| <= |dl| == |freq|
  {
  }

  // One node gets its length.
  method AssignDepth(s: TreeState, fc: array<nat>, dl: array<nat>, d: StaticDesc, max_code: nat, h: nat, over0: nat,
                     ghost leaves: seq<nat>, ghost ms: seq<Pair>, ghost dl0: seq<nat>, ghost t: nat, ghost opt: int, ghost stat: int)
    returns (overflow: nat)
    requires s.Valid() && Apart(s, fc, dl) && max_code < d.elems && forall x :: x in leaves ==> x <= max_code
    requires Passing(d, fc[..], dl0, dl[..], leaves, ms, t, s.bl_count[..], opt, stat, over0)
    requires 0 < t <= 2 * |ms| && h < HEAP_SIZE && s.heap[h] == Children(ms)[t - 1]
    modifies s, s.bl_count, dl
    ensures Passing(d, fc[..], dl0, dl[..], leaves, ms, t - 1, s.bl_count[..],
                    opt + s.opt_len - old(s.opt_len), stat + s.static_len - old(s.static_len), overflow)
    ensures s.heap_max == old(s.heap_max)
  {
    hide Passing, Children, DescOk, Extra, StaticCosts;
    ghost var f, l, counts := fc[..], dl[..], s.bl_count[..];
    var n := s.heap[h];
    PassingSon(d, f, dl0, l, leaves, ms, t, counts, opt, stat, over0, n);
    PassingDesc(d, f, dl0, l, leaves, ms, t, counts, opt, stat, over0);
    var bits: nat := dl[dl[n]] + 1;
    overflow := over0;
    ghost var capped := bits > d.max_length;
    if bits > d.max_length {
      bits := d.max_length;
      overflow := overflow + 1;
    }
    PassStep(d, f, dl0, l, leaves, ms, t, counts, opt, stat, over0, n, bits, capped);
    dl[n] := bits;
    assert dl[..] == l[n := bits];
    if n <= max_code {
      CountLeaf(s, fc, d, n, bits);
    }
  }

  // A leaf is counted and its cost added.
  method CountLeaf(s: TreeState, fc: array<nat>, d: StaticDesc, n: nat, bits: nat)
    requires s.Valid() && fc != s.bl_count && n < fc.Length && bits < 16
    requires n < d.elems <= d.base + |d.extra| && (d.stree == [] || d.elems <= |d.stree|)
    modifies s, s.bl_count
    ensures s.heap_max == old(s.heap_max)
    ensures s.bl_count[..] == old(s.bl_count[..])[bits := old(s.bl_count[bits]) + 1]
    ensures s.opt_len == old(s.opt_len) + fc[n] * (bits + Extra(d, n))
    ensures s.static_len == old(s.static_len) + StaticCosts(d, fc[..])[n]
  {
    s.bl_count[bits] := s.bl_count[bits] + 1;
    var xbits: nat := 0;
    if n >= d.base {
      xbits := d.extra[n - d.base];
    }
    var f := fc[n];
    s.opt_len := s.opt_len + f * (bits + xbits);
    if d.stree != [] {
      s.static_len := s.static_len + f * (d.stree[n] + xbits);
    }
  }

  lemma {:induction false} PassingDesc(d: StaticDesc, freq: seq<nat>, dl0: seq<nat>, dl: seq<nat>, leaves: seq<nat>, ms: seq<Pair>,
                                       t: nat, counts: seq<nat>, opt: int, stat: int, overflow: int)
    requires Passing(d, freq, dl0, dl, leaves, ms, t, counts, opt, stat, overflow)
    ensures d.elems <= d.base + |d.extra| && (d.stree == [] || d.elems <= |d.stree|)
    ensures forall x :: x in leaves ==> x < d.elems
  {
  }
}
