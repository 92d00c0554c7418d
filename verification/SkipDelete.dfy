/** slDeleteNode, slDelete and slDeleteByRank of skiplist.c. */
module SkipDelete {
  import opened SkipKeys
  import opened SkipLinks
  import opened SkipList
  import opened SkipInsert

  // The nodes without the one behind node `pos`.
  ghost function Without(nodes: seq<Node>, pos: nat): (r: seq<Node>)
    requires pos + 1 < |nodes|
    ensures |r| == |nodes| - 1
    ensures forall p :: 0 <= p < |r| ==> r[p] == nodes[Shifted(p, pos)]
  {
    nodes[..pos + 1] + nodes[pos + 2..]
  }

  // What becomes of a link when the node behind node `pos`, with link `xf` over `xs` places, is taken out.
  ghost predicate Unlinked(hs: seq<nat>, level: nat, pos: nat, xf: seq<Node?>, xs: seq<nat>, p: nat, i: nat,
                           f: Node?, s: nat, f1: Node?, s1: nat)
    requires pos + 1 < |hs| && hs[0] > i && |xf| == |xs| == hs[pos + 1]
  {
    if p != Prev(hs, pos, i) || i >= level then f1 == f && s1 == s
    else if hs[pos + 1] > i then f1 == xf[i] && s1 + 1 == s + xs[i]
    else f1 == f && s1 + 1 == s
  }

  // The link of update[i] leads to the node to be deleted if that node takes part in level `i`.
  lemma {:induction false} PointsTo(nodes: seq<Node>, hs: seq<nat>, level: nat, pos: nat, i: nat, f: Node?, s: nat)
    requires pos + 1 < |hs| == |nodes| && hs[0] > i && Distinct(nodes)
    requires LinkOk(nodes, hs, level, Prev(hs, pos, i), i, f, s)
    ensures f == nodes[pos + 1] <==> hs[pos + 1] > i
    ensures i < level ==> s > 0
  {
    hide Next, Prev;
    var r := Prev(hs, pos, i);
    PrevSpans(hs, pos, i);
    if hs[pos + 1] > i {
      NextIs(hs, r, i, pos + 1);
    }
  }

  /** All links are right again. */
  lemma {:induction false} KeptLink(nodes: seq<Node>, hs: seq<nat>, level: nat, pos: nat, xf: seq<Node?>, xs: seq<nat>, p: nat, i: nat,
                                    f: Node?, s: nat, f1: Node?, s1: nat)
    requires pos + 1 < |hs| == |nodes| && hs[0] > i && p + 1 < |hs| && hs[Shifted(p, pos)] > i && |xf| == |xs| == hs[pos + 1] <= level
    requires LinkOk(nodes, hs, level, Shifted(p, pos), i, f, s)
    requires hs[pos + 1] > i ==> LinkOk(nodes, hs, level, pos + 1, i, xf[i], xs[i])
    requires i >= level ==> p == 0 && Next(hs, 0, i) == |hs|
    requires Unlinked(hs, level, pos, xf, xs, Shifted(p, pos), i, f, s, f1, s1)
    ensures LinkOk(Without(nodes, pos), Shrunk(hs, pos), level, p, i, f1, s1)
  {
    hide Next, Prev, Shrunk, Grown, Without;
    var h := Shrunk(hs, pos);
    GrowBack(hs, pos);
    SamePrev(hs, h, pos, i);
    GrownNext(h, pos, hs[pos + 1], p, i);
    PrevSpans(h, pos, i);
    if hs[pos + 1] > i {
      NewNext(h, pos, hs[pos + 1], i);
    }
    TargetKept(nodes, pos, Next(h, p, i));
  }

  lemma {:induction false} TargetKept(nodes: seq<Node>, pos: nat, q: nat)
    requires pos + 1 < |nodes|
    ensures q <= pos ==> Target(Without(nodes, pos), q) == Target(nodes, q)
    ensures q > pos ==> Target(Without(nodes, pos), q) == Target(nodes, q + 1)
  {
  }

  ghost predicate NodeUnlinked(hs: seq<nat>, level: nat, pos: nat, xf: seq<Node?>, xs: seq<nat>, p: nat,
                               f: seq<Node?>, s: seq<nat>, f1: seq<Node?>, s1: seq<nat>) {
    && pos + 1 < |hs| && p < |hs| && hs[0] >= hs[p] && |xf| == |xs| == hs[pos + 1] && |f| == |s| == |f1| == |s1| == hs[p]
    && forall i :: 0 <= i < hs[p] ==> Unlinked(hs, level, pos, xf, xs, p, i, f[i], s[i], f1[i], s1[i])
  }

  // One level more is unlinked.
  lemma {:induction false} UnlinkLevel(hs: seq<nat>, k: nat, pos: nat, xf: seq<Node?>, xs: seq<nat>, p: nat,
                                       f: seq<Node?>, s: seq<nat>, f1: seq<Node?>, s1: seq<nat>, f2: seq<Node?>, s2: seq<nat>)
    requires NodeUnlinked(hs, k, pos, xf, xs, p, f, s, f1, s1) && k < hs[0]
    requires p != Prev(hs, pos, k) ==> f2 == f1 && s2 == s1
    requires p == Prev(hs, pos, k) && hs[pos + 1] > k ==> s1[k] + xs[k] > 0 && f2 == f1[k := xf[k]] && s2 == s1[k := s1[k] + xs[k] - 1]
    requires p == Prev(hs, pos, k) && hs[pos + 1] <= k ==> s1[k] > 0 && f2 == f1 && s2 == s1[k := s1[k] - 1]
    ensures NodeUnlinked(hs, k + 1, pos, xf, xs, p, f, s, f2, s2)
  {
    hide Prev;
  }

  // Level `k` is not yet changed.
  lemma {:induction false} NotYet(hs: seq<nat>, k: nat, pos: nat, xf: seq<Node?>, xs: seq<nat>, p: nat,
                                  f: seq<Node?>, s: seq<nat>, f1: seq<Node?>, s1: seq<nat>)
    requires NodeUnlinked(hs, k, pos, xf, xs, p, f, s, f1, s1)
    ensures |f| == |s| == |f1| == |s1| == hs[p]
    ensures k < hs[p] ==> f1[k] == f[k] && s1[k] == s[k]
    ensures p > pos ==> f1 == f && s1 == s
  {
    hide Prev;
    if k < hs[p] {
      assert Unlinked(hs, k, pos, xf, xs, p, k, f[k], s[k], f1[k], s1[k]);
    }
    if p > pos {
      forall i | 0 <= i < hs[p]
        ensures f1[i] == f[i] && s1[i] == s[i]
      {
        assert Unlinked(hs, k, pos, xf, xs, p, i, f[i], s[i], f1[i], s1[i]);
      }
    }
  }

  lemma {:induction false} NothingUnlinked(nodes: seq<Node>, hs: seq<nat>, level: nat, update: seq<Node>, rank: seq<nat>, pos: nat,
                                           f0: seq<seq<Node?>>, s0: seq<seq<nat>>)
    requires Place(nodes, hs, level, update, rank, pos, f0, s0) && pos + 1 < |hs|
    ensures |hs| == |nodes| == |f0| == |s0| && hs[pos + 1] <= level <= MAX_LEVEL
    ensures forall p :: 0 <= p < |nodes| ==> NodeUnlinked(hs, 0, pos, f0[pos + 1], s0[pos + 1], p, f0[p], s0[p], f0[p], s0[p])
  {
    hide LinkOk, Prev;
    forall p | 0 <= p < |nodes|
      ensures NodeUnlinked(hs, 0, pos, f0[pos + 1], s0[pos + 1], p, f0[p], s0[p], f0[p], s0[p])
    {
      assert LinksOk(nodes, hs, level, p, f0[p], s0[p]) && LinksOk(nodes, hs, level, pos + 1, f0[pos + 1], s0[pos + 1]);
    }
  }

  // In the end all links are right.
  lemma {:induction false} AllUnlinked(nodes: seq<Node>, hs: seq<nat>, level: nat, pos: nat, p: nat, xf: seq<Node?>, xs: seq<nat>,
                                       f: seq<Node?>, s: seq<nat>, f1: seq<Node?>, s1: seq<nat>)
    requires pos + 1 < |hs| == |nodes| && p + 1 < |hs| && Heights(hs, level) && LinksOk(nodes, hs, level, Shifted(p, pos), f, s)
    requires LinksOk(nodes, hs, level, pos + 1, xf, xs) && NodeUnlinked(hs, level, pos, xf, xs, Shifted(p, pos), f, s, f1, s1)
    ensures LinksOk(Without(nodes, pos), Shrunk(hs, pos), level, p, f1, s1)
  {
    hide Prev, Next, LinkOk, Unlinked, Without;
    var q := Shifted(p, pos);
    forall i | 0 <= i < hs[q]
      ensures LinkOk(Without(nodes, pos), Shrunk(hs, pos), level, p, i, f1[i], s1[i])
    {
      if i >= level {
        NoNext(hs, level, i);
      }
      KeptLink(nodes, hs, level, pos, xf, xs, p, i, f[i], s[i], f1[i], s1[i]);
    }
  }

  /** The loop of slDeleteNode over the levels. */
  method UnlinkNode(x: Node, level: nat, update: seq<Node>, ghost rank: seq<nat>, ghost pos: nat,
                    ghost nodes: seq<Node>, ghost hs: seq<nat>, ghost f0: seq<seq<Node?>>, ghost s0: seq<seq<nat>>)
    requires Place(nodes, hs, level, update, rank, pos, f0, s0) && f0 == Forwards(nodes) && s0 == Spans(nodes)
    requires pos + 1 < |hs| == |nodes| && x == nodes[pos + 1]
    modifies nodes
    ensures forall p :: 0 <= p < |nodes| ==> nodes[p].backward == old(nodes[p].backward)
    ensures |f0| == |s0| == |nodes|
    ensures forall p :: 0 <= p < |nodes| ==> NodeUnlinked(hs, level, pos, f0[pos + 1], s0[pos + 1], p, f0[p], s0[p], nodes[p].forward, nodes[p].span)
  {
    hide Next, Prev, LinkOk, Unlinked, NodeUnlinked, Place;
    NothingUnlinked(nodes, hs, level, update, rank, pos, f0, s0);
    var i: nat := 0;
    while i < level
      invariant i <= level
      invariant forall p :: 0 <= p < |nodes| ==> nodes[p].backward == old(nodes[p].backward)
      invariant forall p :: 0 <= p < |nodes| ==> NodeUnlinked(hs, i, pos, f0[pos + 1], s0[pos + 1], p, f0[p], s0[p], nodes[p].forward, nodes[p].span)
    {
      UnlinkAt(x, level, i, update, rank, pos, nodes, hs, f0, s0);
      i := i + 1;
    }
  }

  // The span of update[i] and the link of the node to be deleted, before the level is changed.
  lemma {:induction false} PlaceSpan(nodes: seq<Node>, hs: seq<nat>, level: nat, update: seq<Node>, rank: seq<nat>, pos: nat,
                                     f0: seq<seq<Node?>>, s0: seq<seq<nat>>, i: nat)
    requires Place(nodes, hs, level, update, rank, pos, f0, s0) && i < level && pos + 1 < |hs|
    ensures |hs| == |nodes| == |f0| == |s0| && hs[0] == MAX_LEVEL >= level && |update| == MAX_LEVEL
    ensures var r := Prev(hs, pos, i);
            && update[i] == nodes[r] && |f0[r]| == |s0[r]| == hs[r] && s0[r][i] > 0 && (f0[r][i] == nodes[pos + 1] <==> hs[pos + 1] > i)
    ensures |f0[pos + 1]| == |s0[pos + 1]| == hs[pos + 1]
  {
    hide Prev, LinkOk;
    PlaceAt(nodes, hs, level, update, rank, pos, f0, s0, i);
    var r := Prev(hs, pos, i);
    PointsTo(nodes, hs, level, pos, i, f0[r][i], s0[r][i]);
    assert LinksOk(nodes, hs, level, pos + 1, f0[pos + 1], s0[pos + 1]);
  }

  method UnlinkAt(x: Node, level: nat, i: nat, update: seq<Node>, ghost rank: seq<nat>, ghost pos: nat,
                  ghost nodes: seq<Node>, ghost hs: seq<nat>, ghost f0: seq<seq<Node?>>, ghost s0: seq<seq<nat>>)
    requires Place(nodes, hs, level, update, rank, pos, f0, s0) && i < level && pos + 1 < |hs| == |nodes| == |f0| == |s0| && x == nodes[pos + 1]
    requires forall p :: 0 <= p < |nodes| ==> NodeUnlinked(hs, i, pos, f0[pos + 1], s0[pos + 1], p, f0[p], s0[p], nodes[p].forward, nodes[p].span)
    modifies nodes
    ensures forall p :: 0 <= p < |nodes| ==> nodes[p].backward == old(nodes[p].backward)
    ensures forall p :: 0 <= p < |nodes| ==> NodeUnlinked(hs, i + 1, pos, f0[pos + 1], s0[pos + 1], p, f0[p], s0[p], nodes[p].forward, nodes[p].span)
  {
    hide Next, Prev, LinkOk, Unlinked, NodeUnlinked, Place;
    PlaceSpan(nodes, hs, level, update, rank, pos, f0, s0, i);
    ghost var r, xf, xs := Prev(hs, pos, i), f0[pos + 1], s0[pos + 1];
    NotYet(hs, i, pos, xf, xs, r, f0[r], s0[r], nodes[r].forward, nodes[r].span);
    NotYet(hs, i, pos, xf, xs, pos + 1, xf, xs, nodes[pos + 1].forward, nodes[pos + 1].span);
    label Before:
    var u := update[i];
    if u.forward[i] == x {
      u.span := u.span[i := u.span[i] + x.span[i] - 1];
      u.forward := u.forward[i := x.forward[i]];
    } else {
      u.span := u.span[i := u.span[i] - 1];
    }
    forall p | 0 <= p < |nodes|
      ensures NodeUnlinked(hs, i + 1, pos, xf, xs, p, f0[p], s0[p], nodes[p].forward, nodes[p].span)
    {
      OthersDiffer(nodes, hs, level, update, rank, pos, f0, s0, p, r);
      UnlinkLevel(hs, i, pos, xf, xs, p, f0[p], s0[p], old@Before(nodes[p].forward), old@Before(nodes[p].span), nodes[p].forward, nodes[p].span);
    }
  }

  // All nodes that stay are linked right after the loop.
  lemma {:induction false} WithoutLinks(nodes: seq<Node>, hs: seq<nat>, level: nat, update: seq<Node>, rank: seq<nat>, pos: nat,
                                        f0: seq<seq<Node?>>, s0: seq<seq<nat>>)
    requires Place(nodes, hs, level, update, rank, pos, f0, s0) && pos + 1 < |hs| == |nodes| == |f0| == |s0|
    requires forall p :: 0 <= p < |nodes| ==> NodeUnlinked(hs, level, pos, f0[pos + 1], s0[pos + 1], p, f0[p], s0[p], nodes[p].forward, nodes[p].span)
    ensures var n := Without(nodes, pos); forall p :: 0 <= p < |n| ==> NodeOk(n, Shrunk(hs, pos), level, p)
    ensures nodes[pos + 1].forward == f0[pos + 1] && LinksOk(nodes, hs, level, pos + 1, f0[pos + 1], s0[pos + 1])
  {
    hide NodeUnlinked, LinkOk, LinksOk, Next, Prev, Distinct, UpdateOk, RanksOk, Shrunk;
    var n, h := Without(nodes, pos), Shrunk(hs, pos);
    forall p | 0 <= p < |n|
      ensures NodeOk(n, h, level, p)
    {
      var q := Shifted(p, pos);
      AllUnlinked(nodes, hs, level, pos, p, f0[pos + 1], s0[pos + 1], f0[q], s0[q], nodes[q].forward, nodes[q].span);
      LinksNode(n, h, level, p);
    }
    NotYet(hs, level, pos, f0[pos + 1], s0[pos + 1], pos + 1, f0[pos + 1], s0[pos + 1], nodes[pos + 1].forward, nodes[pos + 1].span);
  }

  // The node behind the one to be deleted.
  lemma {:induction false} NodeBehind(nodes: seq<Node>, hs: seq<nat>, level: nat, p: nat, f: seq<Node?>, s: seq<nat>)
    requires |nodes| == |hs| && p < |hs| && Heights(hs, level) && LinksOk(nodes, hs, level, p, f, s)
    ensures |f| > 0 && f[0] == Target(nodes, p + 1)
  {
    hide Next;
    LowestNext(hs, level, p);
    assert LinkOk(nodes, hs, level, p, 0, f[0], s[0]);
  }

  // Set the backward link over the deleted node, or the tail.
  method UnlinkBack(sl: List, x: Node, ghost pos: nat)
    requires Distinct(sl.nodes) && pos + 1 < |sl.nodes| && x == sl.nodes[pos + 1] && Mirrored(sl.nodes)
    requires |x.forward| > 0 && x.forward[0] == Target(sl.nodes, pos + 2)
    requires sl.tail == sl.nodes[|sl.nodes| - 1]
    modifies sl`tail, sl.nodes
    ensures forall p :: 0 <= p < |sl.nodes| ==> sl.nodes[p].forward == old(sl.nodes[p].forward) && sl.nodes[p].span == old(sl.nodes[p].span)
    ensures var n := Without(sl.nodes, pos); Mirrored(n) && sl.tail == if |n| == 1 then null else n[|n| - 1]
  {
    if x.forward[0] != null {
      x.forward[0].backward := x.backward;
    } else {
      sl.tail := x.backward;
    }
  }

  // The first part of slDeleteNode.
  method LinkOut(sl: List, x: Node, update: seq<Node>, ghost pos: nat)
    requires sl.Linked() && UpdateOk(sl.nodes, sl.hs, sl.level, update, pos) && pos + 1 < |sl.nodes| && x == sl.nodes[pos + 1]
    modifies sl`tail, sl.nodes
    ensures |sl.hs| == |sl.nodes|
    ensures var n := Without(sl.nodes, pos); forall p :: 0 <= p < |n| ==> NodeOk(n, Shrunk(sl.hs, pos), sl.level, p)
    ensures var n := Without(sl.nodes, pos); Mirrored(n) && sl.tail == if |n| == 1 then null else n[|n| - 1]
  {
    hide Sorted, Elements, Holds, CompareObj, Next, Prev, LinkOk, Unlinked, NodeUnlinked, Place, Heights, Distinct, NodeOk, LinksOk,
         Shrunk, UpdateOk, RanksOk, Without;
    ghost var rank := RanksFor(sl, update, pos);
    PlaceNow(sl, update, rank, pos);
    ghost var nodes, hs, level, f0, s0 := sl.nodes, sl.hs, sl.level, Forwards(sl.nodes), Spans(sl.nodes);
    UnlinkNode(x, sl.level, update, rank, pos, nodes, hs, f0, s0);
    WithoutLinks(nodes, hs, level, update, rank, pos, f0, s0);
    NodeBehind(nodes, hs, level, pos + 1, f0[pos + 1], s0[pos + 1]);
    UnlinkBack(sl, x, pos);
    WithoutLinks(nodes, hs, level, update, rank, pos, f0, s0);
  }

  // The ranks that belong to the update nodes; slDelete does not keep them.
  ghost function RanksFor(sl: List, update: seq<Node>, pos: nat): (rank: seq<nat>)
    reads sl, sl.nodes
    requires sl.Linked() && UpdateOk(sl.nodes, sl.hs, sl.level, update, pos)
    ensures RanksOk(sl.hs, sl.level, rank, pos) && rank[0] == pos
  {
    LowestPrev(sl, pos);
    ListParts(sl);
    var hs := sl.hs;
    seq(MAX_LEVEL, i requires 0 <= i < MAX_LEVEL => Prev(hs, pos, i))
  }

  lemma {:induction false} ShrunkHeights(hs: seq<nat>, level: nat, pos: nat)
    requires Heights(hs, level) && pos + 1 < |hs|
    ensures Heights(Shrunk(hs, pos), level)
  {
  }

  lemma {:induction false} WithoutElements(nodes: seq<Node>, keys: seq<Key>, pos: nat)
    requires Elements(nodes, keys) && pos + 1 < |nodes|
    ensures Elements(Without(nodes, pos), Cut(keys, pos, pos + 1)) && Without(nodes, pos)[0] == nodes[0]
  {
    hide Holds;
    var n, ks := Without(nodes, pos), Cut(keys, pos, pos + 1);
    forall p | 0 < p < |n|
      ensures Holds(n[p], ks[p - 1])
    {
      var q := Shifted(p, pos);
      assert n[p] == nodes[q] && ks[p - 1] == keys[q - 1];
    }
  }

  lemma {:induction false} WithoutDistinct(nodes: seq<Node>, pos: nat)
    requires Distinct(nodes) && pos + 1 < |nodes|
    ensures Distinct(Without(nodes, pos))
    ensures forall n :: n in Without(nodes, pos) ==> n in nodes
  {
  }

  lemma {:induction false} WithoutUpdate(nodes: seq<Node>, hs: seq<nat>, level: nat, update: seq<Node>, pos: nat)
    requires UpdateOk(nodes, hs, level, update, pos) && pos + 1 < |hs|
    ensures UpdateOk(Without(nodes, pos), Shrunk(hs, pos), level, update, pos)
  {
    hide Prev, Shrunk, Without, Shifted;
    GrowBack(hs, pos);
    forall i | 0 <= i < level
      ensures update[i] == Without(nodes, pos)[Prev(Shrunk(hs, pos), pos, i)]
    {
      SamePrev(hs, Shrunk(hs, pos), pos, i);
      WithoutFront(nodes, pos, Prev(hs, pos, i));
    }
  }

  lemma {:induction false} WithoutFront(nodes: seq<Node>, pos: nat, p: nat)
    requires pos + 1 < |nodes| && p <= pos
    ensures Without(nodes, pos)[p] == nodes[p]
  {
  }

  // One level less, if only the header takes part in the highest.
  lemma {:induction false} LowerLevel(sl: List)
    requires sl.Linked() && sl.level > 1
    ensures |sl.header.forward| == MAX_LEVEL >= sl.level
    ensures sl.header.forward[sl.level - 1] == null <==> !Used(sl.hs, sl.level)
    ensures !Used(sl.hs, sl.level) ==>
              var l := sl.level - 1;
              Heights(sl.hs, l) && forall p :: 0 <= p < |sl.nodes| ==> NodeOk(sl.nodes, sl.hs, l, p)
  {
    hide Next, Sorted, Elements, Distinct;
    ListParts(sl);
    LinkAt(sl, 0, sl.level - 1);
    if !Used(sl.hs, sl.level) {
      var l := sl.level - 1;
      forall p | 0 <= p < |sl.nodes|
        ensures NodeOk(sl.nodes, sl.hs, l, p)
      {
        assert NodeOk(sl.nodes, sl.hs, sl.level, p);
        NodeLowered(sl.nodes, sl.hs, sl.level, p);
      }
    }
  }

  lemma {:induction false} NodeLowered(nodes: seq<Node>, hs: seq<nat>, level: nat, p: nat)
    requires NodeOk(nodes, hs, level, p) && level > 0
    ensures NodeOk(nodes, hs, level - 1, p)
  {
    hide Next;
    forall i | 0 <= i < hs[p]
      ensures LinkOk(nodes, hs, level - 1, p, i, nodes[p].forward[i], nodes[p].span[i])
    {
      assert LinkOk(nodes, hs, level, p, i, nodes[p].forward[i], nodes[p].span[i]);
    }
  }

  // The last loop of slDeleteNode.
  method LowerLevels(sl: List)
    requires sl.Linked()
    modifies sl`level
    ensures sl.Valid() && sl.level <= old(sl.level)
  {
    hide Sorted, Elements, Holds, Next, NodeOk, Heights, Distinct, Mirrored, Used;
    ListParts(sl);
    while sl.level > 1 && HeaderTop(sl) == null
      invariant sl.Linked() && sl.level <= old(sl.level)
      decreases sl.level
    {
      LowerLevel(sl);
      sl.level := sl.level - 1;
    }
    if sl.level > 1 {
      LowerLevel(sl);
    } else {
      LowestUsed(sl.hs, sl.level);
    }
  }

  lemma {:induction false} LowestUsed(hs: seq<nat>, level: nat)
    requires level <= 1
    ensures Used(hs, level)
  {
  }

  function HeaderTop(sl: List): Node?
    reads sl, sl.header
  {
    if 0 < sl.level <= |sl.header.forward| then sl.header.forward[sl.level - 1] else null
  }

  /** slDeleteNode: the node goes, the others stay linked, and the same update nodes serve for the node behind it. */
  method SlDeleteNode(sl: List, x: Node, update: seq<Node>, ghost pos: nat)
    requires sl.Linked() && UpdateOk(sl.nodes, sl.hs, sl.level, update, pos) && pos + 1 < |sl.nodes| && x == sl.nodes[pos + 1]
    modifies sl, sl.nodes
    ensures sl.Valid() && pos < |old(sl.keys)| && sl.keys == Cut(old(sl.keys), pos, pos + 1) && sl.nodes == Without(old(sl.nodes), pos)
    ensures UpdateOk(sl.nodes, sl.hs, sl.level, update, pos) && pos + 1 < |old(sl.hs)| && sl.hs == Shrunk(old(sl.hs), pos)
  {
    hide Sorted, Elements, Holds, Next, Prev, NodeOk, Heights, Distinct, Mirrored, Used, Shrunk, Without, UpdateOk;
    ListParts(sl);
    ghost var nodes, hs, keys, level := sl.nodes, sl.hs, sl.keys, sl.level;
    LinkOut(sl, x, update, pos);
    WithoutElements(nodes, keys, pos);
    WithoutDistinct(nodes, pos);
    WithoutUpdate(nodes, hs, level, update, pos);
    ShrunkHeights(hs, level, pos);
    CutSorted(keys, pos, pos + 1);
    sl.nodes, sl.hs, sl.keys := Without(nodes, pos), Shrunk(hs, pos), Cut(keys, pos, pos + 1);
    sl.length := sl.length - 1;
    LowerLevels(sl);
    FewerLevels(sl.nodes, sl.hs, level, sl.level, update, pos);
  }

  lemma {:induction false} FewerLevels(nodes: seq<Node>, hs: seq<nat>, level: nat, level1: nat, update: seq<Node>, pos: nat)
    requires UpdateOk(nodes, hs, level, update, pos) && level1 <= level
    ensures UpdateOk(nodes, hs, level1, update, pos)
  {
    hide Prev;
  }

  // The element behind the position of a key is that key, or the key is not there.
  lemma {:induction false} KeyAt(keys: seq<Key>, k: Key, pos: nat)
    requires Sorted(keys) && Splits(keys, k, pos)
    ensures k in keys <==> pos < |keys| && keys[pos] == k
  {
    hide Less;
    if k in keys {
      var j :| 0 <= j < |keys| && keys[j] == k;
      LessTotal(k, k);
    }
  }

  // The node behind the update nodes.
  lemma {:induction false} Candidate(sl: List, update: seq<Node>, pos: nat)
    requires sl.Linked() && UpdateOk(sl.nodes, sl.hs, sl.level, update, pos)
    ensures |update| == MAX_LEVEL && update[0] == Target(sl.nodes, pos) && |update[0].forward| > 0
    ensures update[0].forward[0] == Target(sl.nodes, pos + 1)
  {
    hide Next, Prev, Sorted, Elements, Distinct;
    ListParts(sl);
    LowestPrev(sl, pos);
    LinkAt(sl, pos, 0);
    LowestNext(sl.hs, sl.level, pos);
  }

  /** slDelete: the key goes if it is there, and nothing else. */
  method SlDelete(sl: List, score: real, obj: seq<nat>) returns (deleted: bool, ghost pos: nat)
    requires sl.Valid()
    modifies sl, sl.nodes
    ensures sl.Valid() && (deleted <==> Key(score, obj) in old(sl.keys))
    ensures deleted ==> pos < |old(sl.keys)| && old(sl.keys)[pos] == Key(score, obj) && sl.keys == Cut(old(sl.keys), pos, pos + 1)
    ensures deleted ==> pos + 1 < |old(sl.hs)| && sl.hs == Shrunk(old(sl.hs), pos)
    ensures !deleted ==> sl.keys == old(sl.keys) && sl.nodes == old(sl.nodes) && sl.hs == old(sl.hs)
    ensures forall n :: n in sl.nodes ==> n in old(sl.nodes)
  {
    hide Sorted, Elements, Next, Prev, NodeOk, Heights, Distinct, Mirrored, Used, Without, UpdateOk, RanksOk, Splits, CompareObj;
    var k := Key(score, obj);
    ListParts(sl);
    pos := SplitAt(sl.keys, k);
    var update, _ := FindUpdate(sl, k, pos);
    Candidate(sl, update, pos);
    PosBound(sl.keys, k, pos);
    KeyAt(sl.keys, k, pos);
    var x := update[0].forward[0];
    if x != null {
      ElementAt(sl, pos + 1);
      CompareZero(x.obj.bytes, obj);
      if score == x.score && EqualObj(x.obj.bytes, obj) {
        WithoutDistinct(sl.nodes, pos);
        SlDeleteNode(sl, x, update, pos);
        return true, pos;
      }
    }
    deleted := false;
  }

  function Min(a: nat, b: nat): nat {
    if a < b then a else b
  }

  // Where slDeleteByRank begins: behind how many elements, and how many it takes.
  function CutStart(start: nat, n: nat): nat {
    if start == 0 then 0 else Min(start - 1, n)
  }

  function CutEnd(start: nat, end: nat, n: nat): (r: nat)
    ensures CutStart(start, n) <= r && (CutStart(start, n) <= n ==> r <= n)
  {
    var e, s := Min(end, n), CutStart(start, n);
    if s < e then e else s
  }

  // The first loop of slDeleteByRank at one level: pass the nodes whose rank is below `start`.
  method AdvanceRank(sl: List, start: nat, ghost pos: nat, i: nat, x0: Node, r0: nat) returns (x: Node, r: nat)
    requires sl.Linked() && i < sl.level && pos == CutStart(start, |sl.keys|)
    requires r0 < |sl.nodes| && x0 == sl.nodes[r0] && sl.hs[r0] > i && r0 <= pos
    ensures r < |sl.nodes| && x == sl.nodes[r] && sl.hs[r] > i && r <= pos < Next(sl.hs, r, i) && pos < |sl.hs|
  {
    hide Sorted, Distinct, NodeOk, Next, Elements, Holds, Mirrored, Heights;
    ListParts(sl);
    x, r := x0, r0;
    while true
      invariant r < |sl.nodes| && x == sl.nodes[r] && sl.hs[r] > i && r <= pos < |sl.hs|
      decreases |sl.nodes| - r
    {
      LinkAt(sl, r, i);
      var y := x.forward[i];
      if y == null || r + x.span[i] >= start {
        break;
      }
      r := r + x.span[i];
      x := y;
    }
  }

  // The first loop of slDeleteByRank.
  method FindUpdateByRank(sl: List, start: nat, ghost pos: nat) returns (update: seq<Node>, traversed: nat)
    requires sl.Linked() && pos == CutStart(start, |sl.keys|)
    ensures UpdateOk(sl.nodes, sl.hs, sl.level, update, pos) && traversed == pos
  {
    hide Sorted, Distinct, NodeOk, Next, Prev, Elements, Holds, Mirrored;
    ListParts(sl);
    update := seq(MAX_LEVEL, _ => sl.header);
    var x, r: nat, i: nat := sl.header, 0, sl.level;
    while i > 0
      invariant i <= sl.level && |update| == MAX_LEVEL
      invariant r < |sl.nodes| && x == sl.nodes[r] && (i > 0 ==> sl.hs[r] > i - 1) && r <= pos < |sl.hs|
      invariant forall j :: i <= j < sl.level ==> update[j] == sl.nodes[Prev(sl.hs, pos, j)]
      invariant i == 0 ==> r == pos
    {
      i := i - 1;
      x, r := AdvanceRank(sl, start, pos, i, x, r);
      update := update[i := x];
      PrevIs(sl.hs, pos, i, r);
      if i == 0 {
        LowestPrev(sl, pos);
      }
    }
    traversed := r;
  }

  // The members of some of the keys, in order.
  function Members(keys: seq<Key>): (r: seq<seq<nat>>)
    ensures |r| == |keys|
  {
    seq(|keys|, i requires 0 <= i < |keys| => keys[i].member)
  }

  lemma {:induction false} CutMore(keys: seq<Key>, i: nat, j: nat)
    requires i <= j < |keys|
    ensures Cut(Cut(keys, i, j), i, i + 1) == Cut(keys, i, j + 1)
    ensures Cut(keys, i, j)[i] == keys[j]
    ensures Members(keys[i..j]) + [keys[j].member] == Members(keys[i..j + 1])
  {
  }

  /** slDeleteByRank: the elements whose ranks lie in the range go, one by one, all with the update nodes found
      for the first of them; the members are handed out in order. */
  method SlDeleteByRank(sl: List, start: nat, end: nat) returns (removed: nat, called: seq<seq<nat>>)
    requires sl.Valid()
    modifies sl, sl.nodes
    ensures sl.Valid() && forall n :: n in sl.nodes ==> n in old(sl.nodes)
    ensures var n := |old(sl.keys)|; var i, j := CutStart(start, n), CutEnd(start, end, n);
            && i <= j <= n && sl.keys == Cut(old(sl.keys), i, j)
            && removed == j - i && called == Members(old(sl.keys)[i..j])
  {
    hide Sorted, Elements, Next, Prev, NodeOk, Heights, Distinct, Mirrored, Used, Without, UpdateOk, Cut, Members;
    ListParts(sl);
    ghost var keys, pos := sl.keys, CutStart(start, |sl.keys|);
    var update, traversed := FindUpdateByRank(sl, start, pos);
    traversed := traversed + 1;
    Candidate(sl, update, pos);
    var x := update[0].forward[0];
    removed, called := 0, [];
    CutNothing(keys, pos);
    while x != null && traversed <= end
      invariant pos + removed <= |keys| && traversed == pos + removed + 1
      invariant sl.Valid() && UpdateOk(sl.nodes, sl.hs, sl.level, update, pos) && sl.keys == Cut(keys, pos, pos + removed)
      invariant x == Target(sl.nodes, pos + 1) && (removed > 0 ==> pos + removed <= end)
      invariant called == Members(keys[pos..pos + removed])
      invariant forall p :: 0 <= p < |sl.nodes| ==> sl.nodes[p] in old(sl.nodes)
      decreases |keys| - removed
    {
      CutSize(keys, pos, pos + removed);
      NextToDelete(sl, pos);
      var next := x.forward[0];
      CutMore(keys, pos, pos + removed);
      WithoutDistinct(sl.nodes, pos);
      WithoutTarget(sl.nodes, pos);
      SlDeleteNode(sl, x, update, pos);
      called := called + [x.obj.bytes];
      removed := removed + 1;
      traversed := traversed + 1;
      x := next;
    }
    CutSize(keys, pos, pos + removed);
    ListParts(sl);
  }

  lemma {:induction false} CutNothing(keys: seq<Key>, i: nat)
    requires i <= |keys|
    ensures Cut(keys, i, i) == keys && Members(keys[i..i]) == []
  {
  }

  lemma {:induction false} CutSize(keys: seq<Key>, i: nat, j: nat)
    requires i <= j <= |keys|
    ensures |Cut(keys, i, j)| == |keys| - (j - i)
  {
  }

  // The node to be deleted next.
  lemma {:induction false} NextToDelete(sl: List, pos: nat)
    requires sl.Linked() && pos + 1 < |sl.nodes|
    ensures pos < |sl.keys| && sl.nodes[pos + 1].obj == Obj(sl.keys[pos].member)
    ensures |sl.nodes[pos + 1].forward| > 0 && sl.nodes[pos + 1].forward[0] == Target(sl.nodes, pos + 2)
  {
    hide Next, Sorted, Distinct;
    ListParts(sl);
    ElementAt(sl, pos + 1);
    LinkAt(sl, pos + 1, 0);
    LowestNext(sl.hs, sl.level, pos + 1);
  }

  lemma {:induction false} WithoutTarget(nodes: seq<Node>, pos: nat)
    requires pos + 1 < |nodes|
    ensures Target(Without(nodes, pos), pos + 1) == Target(nodes, pos + 2)
  {
  }
}
