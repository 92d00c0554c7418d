/** The second pass of gen_bitlen (trees.c): the repaired counts are dealt out again, the
greatest lengths to the least frequent symbols. */
module SecondPass {
  import opened Bits
  import opened HuffmanBound
  import opened HuffmanForest
  import opened HuffmanMerge
  import opened HuffmanInit
  import opened HuffmanTree
  import opened TreeLengths
  import opened LengthRepair
  import opened FirstPass
  import opened PassTotals

  // The leaves among the first `j` sons.
  function LeavesIn(c: seq<nat>, elems: nat, j: nat): (r: seq<nat>)
    requires j <= |c|
    ensures |r| <= j && forall i :: 0 <= i < |r| ==> r[i] < elems && r[i] in c
  {
    if j == 0 then []
    else if c[j - 1] < elems then LeavesIn(c, elems, j - 1) + [c[j - 1]]
    else LeavesIn(c, elems, j - 1)
  }

  // The lengths of `q` do not grow.
  ghost predicate Falling(q: seq<nat>, dl: seq<nat>) {
    && (forall i :: 0 <= i < |q| ==> q[i] < |dl|)
    && forall i, k :: 0 <= i <= k < |q| ==> dl[q[i]] >= dl[q[k]]
  }

  /** The leaves among the first `j` sons have their lengths again: of each length above
      `bits` as many as `counts` says, of `bits` all but `n`. */
  ghost predicate Dealing(dl: seq<nat>, counts: seq<nat>, c: seq<nat>, elems: nat, j: nat, max: nat, bits: nat, n: nat) {
    && j <= |c| && |counts| == 16 && bits <= max < 16 && n <= counts[bits]
    && Falling(LeavesIn(c, elems, j), dl)
    && (forall i :: 0 <= i < |LeavesIn(c, elems, j)| ==> bits <= dl[LeavesIn(c, elems, j)[i]] <= max)
    && forall b :: 0 <= b < 16 ==>
         Hist(LeavesIn(c, elems, j), dl)[b] == if b > bits then counts[b] else if b == bits then counts[b] - n else 0
  }

  lemma {:induction false} HistSame(ids: seq<nat>, dl: seq<nat>, dl1: seq<nat>)
    requires |dl| == |dl1| && forall j :: 0 <= j < |ids| ==> ids[j] < |dl| && dl1[ids[j]] == dl[ids[j]]
    ensures Hist(ids, dl1) == Hist(ids, dl)
  {
    forall b | 0 <= b < 16
      ensures Hist(ids, dl1)[b] == Hist(ids, dl)[b]
    {
      assert At(ids, Mark(dl1, b)) == At(ids, Mark(dl, b));
    }
  }

  lemma {:induction false} LeavesBefore(c: seq<nat>, elems: nat, j: nat, x: nat)
    requires j <= |c| && forall k :: 0 <= k < j ==> c[k] != x
    ensures x !in LeavesIn(c, elems, j)
  {
    if j > 0 {
      LeavesBefore(c, elems, j - 1, x);
    }
  }

  // A leaf gets the length at hand.
  lemma {:induction false} DealOne(dl: seq<nat>, counts: seq<nat>, c: seq<nat>, elems: nat, j: nat, max: nat, bits: nat, n: nat)
    requires Dealing(dl, counts, c, elems, j, max, bits, n) && n > 0 && j < |c| && c[j] < elems && c[j] < |dl| && Distinct(c)
    ensures Dealing(dl[c[j] := bits], counts, c, elems, j + 1, max, bits, n - 1)
  {
    var q, dl1 := LeavesIn(c, elems, j), dl[c[j] := bits];
    LeavesBefore(c, elems, j, c[j]);
    assert LeavesIn(c, elems, j + 1) == q + [c[j]];
    HistSame(q, dl, dl1);
    HistMore(q, c[j], dl1);
    hide LeavesIn, Hist;
  }

  lemma {:induction false} DealNode(dl: seq<nat>, counts: seq<nat>, c: seq<nat>, elems: nat, j: nat, max: nat, bits: nat, n: nat)
    requires Dealing(dl, counts, c, elems, j, max, bits, n) && j < |c| && c[j] >= elems
    ensures Dealing(dl, counts, c, elems, j + 1, max, bits, n)
  {
    assert LeavesIn(c, elems, j + 1) == LeavesIn(c, elems, j);
  }

  lemma {:induction false} DealNext(dl: seq<nat>, counts: seq<nat>, c: seq<nat>, elems: nat, j: nat, max: nat, bits: nat)
    requires Dealing(dl, counts, c, elems, j, max, bits, 0) && bits > 0
    ensures Dealing(dl, counts, c, elems, j, max, bits - 1, counts[bits - 1])
  {
    hide LeavesIn, Hist;
  }

  lemma {:induction false} DealStart(dl: seq<nat>, counts: seq<nat>, c: seq<nat>, elems: nat, max: nat)
    requires |counts| == 16 && max < 16 && forall b :: max < b < 16 ==> counts[b] == 0
    ensures Dealing(dl, counts, c, elems, 0, max, max, counts[max])
  {
    forall b | 0 <= b < 16
      ensures Hist([], dl)[b] == 0
    {
      assert At([], Mark(dl, b)) == [];
    }
  }

  function Occurrences(s: seq<nat>, x: nat): nat {
    multiset(s)[x]
  }

  lemma {:induction false} LeavesContents(c: seq<nat>, elems: nat, j: nat, x: nat)
    requires j <= |c|
    ensures Occurrences(LeavesIn(c, elems, j), x) == if x < elems then Occurrences(c[..j], x) else 0
  {
    if j > 0 {
      LeavesContents(c, elems, j - 1, x);
      assert c[..j] == c[..j - 1] + [c[j - 1]];
    }
  }

  lemma {:induction false} SameOccurrences(a: seq<nat>, b: seq<nat>)
    ensures SameNodes(a, b) <==> forall x: nat :: Occurrences(a, x) == Occurrences(b, x)
  {
    if forall x: nat :: Occurrences(a, x) == Occurrences(b, x) {
      forall x: nat
        ensures multiset(a)[x] == Occurrences(b, x)
      {
        assert Occurrences(a, x) == Occurrences(b, x);
      }
    }
  }

  lemma {:induction false} OccurrencesOf(a: seq<nat>, b: seq<nat>, x: nat)
    ensures Occurrences(a + b, x) == Occurrences(a, x) + Occurrences(b, x)
    ensures x !in a ==> Occurrences(a, x) == 0
  {
  }

  /** All leaves are found among the sons. */
  lemma {:induction false} AllLeaves(elems: nat, leaves: seq<nat>, ms: seq<Pair>)
    requires Spanning(elems, leaves, ms)
    ensures SameNodes(LeavesIn(Children(ms), elems, 2 * |ms|), leaves)
  {
    hide LeavesIn, Children, Occurrences, SameNodes;
    var c, made, root := Children(ms), Made(elems, |ms|), [elems + |ms| - 1];
    var q := LeavesIn(c, elems, |c|);
    MadeSmall(elems, |ms|);
    assert c[..|c|] == c;
    SameOccurrences(c + root, leaves + made);
    forall x: nat
      ensures Occurrences(q, x) == Occurrences(leaves, x)
    {
      LeavesContents(c, elems, |c|, x);
      OccurrencesOf(c, root, x);
      OccurrencesOf(leaves, made, x);
      OccurrencesOf(made, [], x);
      OccurrencesOf(root, [], x);
    }
    SameOccurrences(q, leaves);
  }

  // The counts of a histogram add up to the number of nodes.
  lemma {:induction false} HistTotal(ids: seq<nat>, dl: seq<nat>, max: nat)
    requires 0 < max < 16 && forall j :: 0 <= j < |ids| ==> ids[j] < |dl| && 0 < dl[ids[j]] <= max
    ensures CountsSum(Hist(ids, dl), max) == |ids|
  {
    RoomOfHist(ids, dl, max);
  }

  lemma {:induction false} CountsSumSplit(h: seq<nat>, counts: seq<nat>, bits: nat, n: nat, m: nat)
    requires |h| == |counts| == 16 && m < 16 && 0 < bits < 16 && n <= counts[bits]
    requires forall b :: 0 <= b < 16 ==> h[b] == if b > bits then counts[b] else if b == bits then counts[b] - n else 0
    ensures CountsSum(h, m) + (if m >= bits then n else 0) + CountsSum(counts, if m < bits then m else bits - 1) ==
            CountsSum(counts, m)
  {
    if m > 0 {
      CountsSumSplit(h, counts, bits, n, m - 1);
    } else {
      assert CountsSum(counts, 0) == 0;
    }
  }

  /** While lengths are left to deal out, leaves are left, too. */
  lemma {:induction false} LeafLeft(dl: seq<nat>, counts: seq<nat>, elems: nat, leaves: seq<nat>, ms: seq<Pair>,
                                    j: nat, max: nat, bits: nat, n: nat)
    requires Spanning(elems, leaves, ms) && Dealing(dl, counts, Children(ms), elems, j, max, bits, n)
    requires 0 < bits && CountsSum(counts, max) == |leaves|
    ensures |LeavesIn(Children(ms), elems, j)| + n + CountsSum(counts, bits - 1) == |leaves|
    ensures n > 0 ==> j < 2 * |ms|
  {
    hide Children, Spanning, Hist;
    var c := Children(ms);
    var q := LeavesIn(c, elems, j);
    HistTotal(q, dl, max);
    CountsSumSplit(Hist(q, dl), counts, bits, n, max);
    AllLeaves(elems, leaves, ms);
    SameSize(LeavesIn(c, elems, 2 * |ms|), leaves);
    if j == 2 * |ms| {
      assert |q| == |leaves|;
    }
  }

  // One leaf with another length changes a sum over the leaves in one place.
  lemma {:induction false} SumChange(ids: seq<nat>, k: nat, g: seq<nat>, g1: seq<nat>)
    requires k < |ids| && Distinct(ids) && |g| == |g1| && forall j :: 0 <= j < |ids| ==> ids[j] < |g|
    requires forall x :: 0 <= x < |g| && x != ids[k] ==> g1[x] == g[x]
    ensures Sum(At(ids, g1)) + g[ids[k]] == Sum(At(ids, g)) + g1[ids[k]]
  {
    var r := Without(ids, k);
    WithoutAt(ids, g, k);
    WithoutAt(ids, g1, k);
    assert At(r, g) == At(r, g1);
  }

  lemma {:induction false} CostChange(d: StaticDesc, freq: seq<nat>, dl: seq<nat>, leaves: seq<nat>, x: nat, bits: nat)
    requires Distinct(leaves) && |freq| == |dl| && (forall j :: 0 <= j < |leaves| ==> leaves[j] < |dl|) && x in leaves
    ensures x < |dl|
    ensures Sum(At(leaves, Costs(d, freq, dl[x := bits]))) ==
            Sum(At(leaves, Costs(d, freq, dl))) + (bits - dl[x]) * freq[x]
  {
    var k :| 0 <= k < |leaves| && leaves[k] == x;
    SumChange(leaves, k, Costs(d, freq, dl), Costs(d, freq, dl[x := bits]));
    Difference(freq[x], bits, dl[x], Extra(d, x));
  }

  lemma {:induction false} Difference(f: nat, a: nat, b: nat, e: nat)
    ensures f * (a + e) == f * (b + e) + (a - b) * f
  {
  }

  /** Dealing goes on: the tree, the counts, the lengths and the cost agree. */
  ghost predicate Redoing(d: StaticDesc, freq: seq<nat>, dl0: seq<nat>, dl: seq<nat>, counts: seq<nat>, leaves: seq<nat>,
                          ms: seq<Pair>, j: nat, bits: nat, n: nat, opt: int) {
    && Spanning(d.elems, leaves, ms) && |freq| == |dl| == |dl0| && d.elems + |ms| <= |dl|
    && Dealing(dl, counts, Children(ms), d.elems, j, d.max_length, bits, n)
    && CountsSum(counts, d.max_length) == |leaves| && (forall i :: 0 <= i < |leaves| ==> leaves[i] < |dl|)
    && opt == Sum(At(leaves, Costs(d, freq, dl)))
    && (forall x :: 0 <= x < d.elems && x !in leaves ==> dl[x] == dl0[x])
  }

  lemma {:induction false} RedoStep(d: StaticDesc, freq: seq<nat>, dl0: seq<nat>, dl: seq<nat>, counts: seq<nat>,
                                    leaves: seq<nat>, ms: seq<Pair>, j: nat, bits: nat, n: nat, opt: int, m: nat)
    requires Redoing(d, freq, dl0, dl, counts, leaves, ms, j, bits, n, opt) && bits > 0 && n > 0
    requires j < 2 * |ms| && m == Children(ms)[j]
    ensures m < |dl| && (m < d.elems ==> m in leaves)
    ensures m < d.elems ==>
              Redoing(d, freq, dl0, dl[m := bits], counts, leaves, ms, j + 1, bits, n - 1, opt + (bits - dl[m]) * freq[m])
    ensures m >= d.elems ==> Redoing(d, freq, dl0, dl, counts, leaves, ms, j + 1, bits, n, opt)
  {
    hide Spanning, Dealing, Children, CountsSum, Sum, At, Costs;
    SonsDistinct(d.elems, leaves, ms);
    SonsSmall(d.elems, leaves, ms);
    if m < d.elems {
      LeavesApart(d.elems, leaves, ms);
      CostChange(d, freq, dl, leaves, m, bits);
      DealOne(dl, counts, Children(ms), d.elems, j, d.max_length, bits, n);
    } else {
      DealNode(dl, counts, Children(ms), d.elems, j, d.max_length, bits, n);
    }
  }

  lemma {:induction false} LeavesApart(elems: nat, leaves: seq<nat>, ms: seq<Pair>)
    requires Spanning(elems, leaves, ms)
    ensures Distinct(leaves)
  {
  }

  lemma {:induction false} SonsSmall(elems: nat, leaves: seq<nat>, ms: seq<Pair>)
    requires Spanning(elems, leaves, ms)
    ensures forall j :: 0 <= j < 2 * |ms| ==> Children(ms)[j] < elems + |ms|
  {
    hide Children;
    var c, l := Children(ms) + [elems + |ms| - 1], leaves + Made(elems, |ms|);
    SameMembers(c, l);
    forall j | 0 <= j < 2 * |ms|
      ensures Children(ms)[j] < elems + |ms|
    {
      assert c[j] == Children(ms)[j] && c[j] in l;
    }
  }

  lemma {:induction false} RedoNext(d: StaticDesc, freq: seq<nat>, dl0: seq<nat>, dl: seq<nat>, counts: seq<nat>,
                                    leaves: seq<nat>, ms: seq<Pair>, j: nat, bits: nat, opt: int)
    requires Redoing(d, freq, dl0, dl, counts, leaves, ms, j, bits, 0, opt) && bits > 0
    ensures |counts| == 16 && bits < 16
    ensures Redoing(d, freq, dl0, dl, counts, leaves, ms, j, bits - 1, counts[bits - 1], opt)
  {
    DealNext(dl, counts, Children(ms), d.elems, j, d.max_length, bits);
  }

  lemma {:induction false} RedoLeft(d: StaticDesc, freq: seq<nat>, dl0: seq<nat>, dl: seq<nat>, counts: seq<nat>,
                                    leaves: seq<nat>, ms: seq<Pair>, j: nat, bits: nat, n: nat, opt: int)
    requires Redoing(d, freq, dl0, dl, counts, leaves, ms, j, bits, n, opt) && bits > 0 && n > 0
    ensures j < 2 * |ms|
  {
    hide Spanning, Dealing, Children, CountsSum;
    LeafLeft(dl, counts, d.elems, leaves, ms, j, d.max_length, bits, n);
  }

  // The next son of the list from the end of the heap array.
  method DealSon(s: TreeState, fc: array<nat>, dl: array<nat>, max_code: nat, h: nat, bits: nat, n: nat,
                 ghost d: StaticDesc, ghost dl0: seq<nat>, ghost leaves: seq<nat>, ghost ms: seq<Pair>, ghost j: nat,
                 ghost opt: int)
    returns (left: nat)
    requires s.Valid() && Apart(s, fc, dl) && max_code < d.elems && forall x :: x in leaves ==> x <= max_code
    requires Redoing(d, fc[..], dl0, dl[..], s.bl_count[..], leaves, ms, j, bits, n, opt) && bits > 0 && n > 0
    requires j < 2 * |ms| && h < HEAP_SIZE && s.heap[h] == Children(ms)[j]
    modifies s, dl
    ensures Redoing(d, fc[..], dl0, dl[..], s.bl_count[..], leaves, ms, j + 1, bits, left, opt + s.opt_len - old(s.opt_len))
    ensures s.static_len == old(s.static_len) && left <= n
  {
    hide Redoing, Children;
    var m := s.heap[h];
    left := n;
    ghost var l := dl[..];
    RedoStep(d, fc[..], dl0, l, s.bl_count[..], leaves, ms, j, bits, n, opt, m);
    RedoSizes(d, fc[..], dl0, l, s.bl_count[..], leaves, ms, j, bits, n, opt);
    if m > max_code {
      return;
    }
    if dl[m] != bits {
      s.opt_len := s.opt_len + (bits - dl[m]) * fc[m];
      dl[m] := bits;
    }
    assert dl[..] == l[m := bits];
    left := left - 1;
  }

  lemma {:induction false} RedoSizes(d: StaticDesc, freq: seq<nat>, dl0: seq<nat>, dl: seq<nat>, counts: seq<nat>,
                                     leaves: seq<nat>, ms: seq<Pair>, j: nat, bits: nat, n: nat, opt: int)
    requires Redoing(d, freq, dl0, dl, counts, leaves, ms, j, bits, n, opt)
    ensures |freq| == |dl| && |counts| == 16 && bits < 16 && forall x :: x in leaves ==> x < d.elems
  {
  }

  /** The counted lengths are dealt out again, the longest ones to the least frequent symbols. */
  method DealLengths(s: TreeState, fc: array<nat>, dl: array<nat>, max_code: nat, max_length: nat,
                     ghost d: StaticDesc, ghost dl0: seq<nat>, ghost leaves: seq<nat>, ghost ms: seq<Pair>, ghost opt: int)
    returns (ghost j: nat)
    requires s.Valid() && Apart(s, fc, dl) && max_code < d.elems && forall x :: x in leaves ==> x <= max_code
    requires d.max_length == max_length < 16 && Laid(s.heap[..], ms)
    requires Redoing(d, fc[..], dl0, dl[..], s.bl_count[..], leaves, ms, 0, max_length, s.bl_count[max_length], opt)
    modifies s, dl
    ensures Redoing(d, fc[..], dl0, dl[..], s.bl_count[..], leaves, ms, j, 0, s.bl_count[0], opt + s.opt_len - old(s.opt_len))
    ensures s.static_len == old(s.static_len)
  {
    hide Redoing, Children, Laid;
    ghost var f, counts, heap := fc[..], s.bl_count[..], s.heap[..];
    j := 0;
    var h, bits := HEAP_SIZE, max_length;
    while bits != 0
      invariant 0 <= bits <= max_length && h + j == HEAP_SIZE && s.static_len == old(s.static_len)
      invariant Redoing(d, f, dl0, dl[..], counts, leaves, ms, j, bits, s.bl_count[bits], opt + s.opt_len - old(s.opt_len))
    {
      var n := s.bl_count[bits];
      while n != 0
        invariant h + j == HEAP_SIZE && s.static_len == old(s.static_len)
        invariant Redoing(d, f, dl0, dl[..], counts, leaves, ms, j, bits, n, opt + s.opt_len - old(s.opt_len))
        decreases h
      {
        RedoLeft(d, f, dl0, dl[..], counts, leaves, ms, j, bits, n, opt + s.opt_len - old(s.opt_len));
        LaidNode(heap, ms, j);
        LaidSize(heap, ms);
        h := h - 1;
        n := DealSon(s, fc, dl, max_code, h, bits, n, d, dl0, leaves, ms, j, opt + s.opt_len - old(s.opt_len));
        j := j + 1;
      }
      RedoNext(d, f, dl0, dl[..], counts, leaves, ms, j, bits, opt + s.opt_len - old(s.opt_len));
      bits := bits - 1;
    }
  }

  lemma {:induction false} LaidSize(h: seq<nat>, ms: seq<Pair>)
    requires Laid(h, ms)
    ensures 2 * |ms| < HEAP_SIZE
  {
  }

  lemma {:induction false} NoneOfLength(ids: seq<nat>, dl: seq<nat>, b: nat)
    requires b < 16 && (forall j :: 0 <= j < |ids| ==> ids[j] < |dl|) && Hist(ids, dl)[b] == 0
    ensures forall j :: 0 <= j < |ids| ==> dl[ids[j]] != b
  {
    forall j | 0 <= j < |ids|
      ensures dl[ids[j]] != b
    {
      SumWithout(At(ids, Mark(dl, b)), j);
    }
  }

  lemma {:induction false} LeavesPrefix(c: seq<nat>, elems: nat, i: nat, j: nat)
    requires i <= j <= |c|
    ensures LeavesIn(c, elems, i) <= LeavesIn(c, elems, j)
  {
    if i < j {
      LeavesPrefix(c, elems, i, j - 1);
    }
  }

  /** All lengths are dealt: they are what the counts say, and none is over the limit. */
  lemma {:induction false} DealtOut(dl: seq<nat>, counts: seq<nat>, elems: nat, leaves: seq<nat>, ms: seq<Pair>,
                                    j: nat, max: nat)
    requires |counts| == 16 && counts[0] == 0
    requires Spanning(elems, leaves, ms) && Dealing(dl, counts, Children(ms), elems, j, max, 0, 0)
    requires CountsSum(counts, max) == |leaves| && max > 0
    ensures var q := LeavesIn(Children(ms), elems, 2 * |ms|);
            && Falling(q, dl) && Hist(q, dl) == counts && SameNodes(q, leaves)
            && (forall i :: 0 <= i < |q| ==> 0 < dl[q[i]] <= max)
  {
    hide Children, Spanning, Hist;
    var c := Children(ms);
    var q := LeavesIn(c, elems, j);
    NoneOfLength(q, dl, 0);
    HistTotal(q, dl, max);
    assert Hist(q, dl) == counts;
    AllLeaves(elems, leaves, ms);
    SameSize(LeavesIn(c, elems, 2 * |ms|), leaves);
    LeavesPrefix(c, elems, j, 2 * |ms|);
    assert q == LeavesIn(c, elems, 2 * |ms|);
  }

  lemma {:induction false} HistContents(a: seq<nat>, b: seq<nat>, dl: seq<nat>)
    requires SameNodes(a, b) && forall j :: 0 <= j < |a| ==> a[j] < |dl|
    ensures forall j :: 0 <= j < |b| ==> b[j] < |dl|
    ensures Hist(a, dl) == Hist(b, dl)
  {
    hide SameNodes;
    AtContents(a, b, dl);
    forall l | 0 <= l < 16
      ensures Sum(At(a, Mark(dl, l))) == Sum(At(b, Mark(dl, l)))
    {
      AtContents(a, b, Mark(dl, l));
    }
  }

  // A less frequent symbol never has the shorter code.
  ghost predicate Fair(freq: seq<nat>, dl: seq<nat>, leaves: seq<nat>) {
    && |freq| == |dl| && (forall i :: 0 <= i < |leaves| ==> leaves[i] < |dl|)
    && forall i, k :: 0 <= i < |leaves| && 0 <= k < |leaves| && freq[leaves[i]] < freq[leaves[k]] ==>
         dl[leaves[i]] >= dl[leaves[k]]
  }

  lemma {:induction false} LeavesOrdered(freq: seq<nat>, c: seq<nat>, elems: nat, j: nat)
    requires Ordered(freq, c, []) && j <= |c|
    ensures forall i, k :: 0 <= i <= k < |LeavesIn(c, elems, j)| ==>
              && LeavesIn(c, elems, j)[i] < |freq| && LeavesIn(c, elems, j)[k] < |freq|
              && freq[LeavesIn(c, elems, j)[i]] <= freq[LeavesIn(c, elems, j)[k]]
    ensures j < |c| ==> forall i :: 0 <= i < |LeavesIn(c, elems, j)| ==> freq[LeavesIn(c, elems, j)[i]] <= freq[c[j]]
  {
    if j > 0 {
      LeavesOrdered(freq, c, elems, j - 1);
    }
  }

  lemma {:induction false} DealtFair(freq: seq<nat>, dl: seq<nat>, q: seq<nat>, leaves: seq<nat>)
    requires Falling(q, dl) && SameNodes(q, leaves) && |freq| == |dl|
    requires forall i, k :: 0 <= i <= k < |q| ==> freq[q[i]] <= freq[q[k]]
    ensures Fair(freq, dl, leaves)
  {
    assert SameNodes(leaves, q);
    SameMembers(leaves, q);
    hide SameNodes;
    forall i, k | 0 <= i < |leaves| && 0 <= k < |leaves| && freq[leaves[i]] < freq[leaves[k]]
      ensures dl[leaves[i]] >= dl[leaves[k]]
    {
      var a :| 0 <= a < |q| && q[a] == leaves[i];
      var b :| 0 <= b < |q| && q[b] == leaves[k];
      assert a <= b;
    }
  }
}
