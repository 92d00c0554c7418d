/** slInsert of skiplist.c. */
module SkipInsert {
  import opened SkipKeys
  import opened SkipLinks
  import opened SkipList

  // The nodes with `x` behind node `pos`.
  ghost function With(nodes: seq<Node>, pos: nat, x: Node): (r: seq<Node>)
    requires pos < |nodes|
    ensures |r| == |nodes| + 1
  {
    nodes[..pos + 1] + [x] + nodes[pos + 1..]
  }

  // A node behind the new one moves up.
  function Shifted(p: nat, pos: nat): nat {
    if p <= pos then p else p + 1
  }

  // What becomes of a link when a node of height `lv` is put behind node `pos`.
  ghost predicate Relinked(hs: seq<nat>, level: nat, pos: nat, lv: nat, x: Node, p: nat, i: nat, f: Node?, s: nat, f1: Node?, s1: nat)
    requires pos < |hs| && hs[0] > i
  {
    if p != Prev(hs, pos, i) then f1 == f && s1 == s
    else if i < lv then f1 == x && s1 == pos - p + 1
    else f1 == f && s1 == if i < level then s + 1 else s
  }

  /** All links are right again. */
  lemma {:induction false} OldLink(nodes: seq<Node>, hs: seq<nat>, level: nat, pos: nat, lv: nat, x: Node, p: nat, i: nat,
                                   f: Node?, s: nat, f1: Node?, s1: nat)
    requires pos < |hs| && hs[0] > i && LinkOk(nodes, hs, level, p, i, f, s) && hs[p] > i && lv <= level
    requires i >= level ==> p == 0 && Next(hs, 0, i) == |hs|
    requires Relinked(hs, level, pos, lv, x, p, i, f, s, f1, s1)
    ensures LinkOk(With(nodes, pos, x), Grown(hs, pos, lv), level, Shifted(p, pos), i, f1, s1)
  {
    hide Next, Prev;
    GrownNext(hs, pos, lv, p, i);
    PrevSpans(hs, pos, i);
    TargetMoved(nodes, pos, x, Next(hs, p, i));
  }

  lemma {:induction false} TargetMoved(nodes: seq<Node>, pos: nat, x: Node, q: nat)
    requires pos < |nodes|
    ensures q <= pos ==> Target(With(nodes, pos, x), q) == Target(nodes, q)
    ensures q > pos ==> Target(With(nodes, pos, x), q + 1) == Target(nodes, q)
    ensures Target(With(nodes, pos, x), pos + 1) == x
  {
  }

  lemma {:induction false} NewLink(nodes: seq<Node>, hs: seq<nat>, level: nat, pos: nat, lv: nat, x: Node, i: nat, f: Node?, s: nat)
    requires pos < |hs| && hs[0] > i && LinkOk(nodes, hs, level, Prev(hs, pos, i), i, f, s) && i < lv <= level
    ensures s + Prev(hs, pos, i) >= pos
    ensures LinkOk(With(nodes, pos, x), Grown(hs, pos, lv), level, pos + 1, i, f, s + Prev(hs, pos, i) - pos)
  {
    hide Next, Prev;
    NewNext(hs, pos, lv, i);
    PrevSpans(hs, pos, i);
    TargetMoved(nodes, pos, x, Next(hs, Prev(hs, pos, i), i));
  }

  // Above `level` only the header takes part.
  lemma {:induction false} NoNext(hs: seq<nat>, level: nat, i: nat)
    requires Heights(hs, level) && level <= i
    ensures Next(hs, 0, i) == |hs|
    ensures i < MAX_LEVEL ==> forall pos :: 0 <= pos < |hs| ==> Prev(hs, pos, i) == 0
  {
    hide Next, Prev;
    NextIs(hs, 0, i, |hs|);
    if i < MAX_LEVEL {
      forall pos | 0 <= pos < |hs|
        ensures Prev(hs, pos, i) == 0
      {
        PrevIs(hs, pos, i, 0);
      }
    }
  }

  // The links of the header at its new levels.
  lemma {:induction false} HeaderRaised(nodes: seq<Node>, hs: seq<nat>, level: nat, lv: nat, i: nat, f: Node?, s: nat, s1: nat)
    requires Heights(hs, level) && level <= lv && LinkOk(nodes, hs, level, 0, i, f, s)
    requires if level <= i < lv then s1 == |hs| - 1 else s1 == s
    ensures LinkOk(nodes, hs, lv, 0, i, f, s1)
  {
    hide Next;
    if level <= i {
      NoNext(hs, level, i);
    }
  }

  lemma {:induction false} NodeRaised(nodes: seq<Node>, hs: seq<nat>, level: nat, lv: nat, p: nat)
    requires 0 < p && NodeOk(nodes, hs, level, p)
    ensures NodeOk(nodes, hs, lv, p)
  {
    hide Next;
    forall i | 0 <= i < hs[p]
      ensures LinkOk(nodes, hs, lv, p, i, nodes[p].forward[i], nodes[p].span[i])
    {
      assert LinkOk(nodes, hs, level, p, i, nodes[p].forward[i], nodes[p].span[i]);
    }
  }

  lemma {:induction false} RaisedUpdate(nodes: seq<Node>, hs: seq<nat>, level: nat, lv: nat, update: seq<Node>, rank: seq<nat>, pos: nat)
    requires Heights(hs, level) && |nodes| == |hs| && pos < |hs| && level <= lv <= MAX_LEVEL && |update| == |rank| == MAX_LEVEL
    requires forall j :: 0 <= j < level ==> update[j] == nodes[Prev(hs, pos, j)] && rank[j] == Prev(hs, pos, j)
    requires forall j :: level <= j < lv ==> update[j] == nodes[0] && rank[j] == 0
    ensures UpdateOk(nodes, hs, lv, update, pos) && RanksOk(hs, lv, rank, pos)
    ensures Heights(hs, lv)
  {
    hide Prev, Next;
    forall j | level <= j < lv
      ensures Prev(hs, pos, j) == 0
    {
      NoNext(hs, level, j);
    }
  }

  // The levels the new node needs: the header spans the whole list in them.
  method RaiseLevel(sl: List, lv: nat, update0: seq<Node>, rank0: seq<nat>, ghost pos: nat) returns (update: seq<Node>, rank: seq<nat>)
    requires sl.Linked() && UpdateOk(sl.nodes, sl.hs, sl.level, update0, pos) && RanksOk(sl.hs, sl.level, rank0, pos) && lv <= MAX_LEVEL
    modifies sl`level, sl.header`span
    ensures sl.Linked() && sl.level == (if lv > old(sl.level) then lv else old(sl.level))
    ensures UpdateOk(sl.nodes, sl.hs, sl.level, update, pos) && RanksOk(sl.hs, sl.level, rank, pos) && rank[0] == rank0[0]
  {
    hide Sorted, Elements, Holds, CompareObj, Next, Prev, LinkOk, Heights;
    ListParts(sl);
    update, rank := update0, rank0;
    assert NodeOk(sl.nodes, sl.hs, sl.level, 0);
    if lv > sl.level {
      var i: nat := sl.level;
      while i < lv
        invariant sl.level <= i <= lv && |update| == |rank| == MAX_LEVEL && |sl.header.span| == MAX_LEVEL && sl.level == old(sl.level)
        invariant forall j :: 0 <= j < MAX_LEVEL ==> sl.header.span[j] == if sl.level <= j < i then sl.length else old(sl.header.span)[j]
        invariant forall j :: 0 <= j < sl.level ==> update[j] == update0[j] && rank[j] == rank0[j]
        invariant forall j :: sl.level <= j < i ==> update[j] == sl.header && rank[j] == 0
      {
        rank := rank[i := 0];
        update := update[i := sl.header];
        sl.header.span := sl.header.span[i := sl.length];
        i := i + 1;
      }
      ghost var nodes, hs, level := sl.nodes, sl.hs, sl.level;
      sl.level := lv;
      forall j | 0 <= j < MAX_LEVEL
        ensures LinkOk(nodes, hs, lv, 0, j, sl.header.forward[j], sl.header.span[j])
      {
        HeaderRaised(nodes, hs, level, lv, j, sl.header.forward[j], old(sl.header.span)[j], sl.header.span[j]);
      }
      forall p | 0 < p < |nodes|
        ensures NodeOk(nodes, hs, lv, p)
      {
        assert old(NodeOk(nodes, hs, level, p));
        NodeRaised(nodes, hs, level, lv, p);
      }
      RaisedUpdate(nodes, hs, level, lv, update, rank, pos);
    }
  }

  // The links of all nodes at one time.
  ghost function Forwards(nodes: seq<Node>): (r: seq<seq<Node?>>)
    reads nodes
    ensures |r| == |nodes| && forall p :: 0 <= p < |nodes| ==> r[p] == nodes[p].forward
  {
    seq(|nodes|, p requires 0 <= p < |nodes| reads nodes => nodes[p].forward)
  }

  ghost function Spans(nodes: seq<Node>): (r: seq<seq<nat>>)
    reads nodes
    ensures |r| == |nodes| && forall p :: 0 <= p < |nodes| ==> r[p] == nodes[p].span
  {
    seq(|nodes|, p requires 0 <= p < |nodes| reads nodes => nodes[p].span)
  }

  ghost predicate LinksOk(nodes: seq<Node>, hs: seq<nat>, level: nat, p: nat, f: seq<Node?>, s: seq<nat>) {
    && p < |hs| && |f| == |s| == hs[p]
    && forall i :: 0 <= i < hs[p] ==> LinkOk(nodes, hs, level, p, i, f[i], s[i])
  }

  // What has become of the links of node `p`.
  ghost predicate NodeRelinked(hs: seq<nat>, level: nat, pos: nat, lv: nat, x: Node, p: nat, f: seq<Node?>, s: seq<nat>, f1: seq<Node?>, s1: seq<nat>) {
    && pos < |hs| && p < |hs| && hs[0] >= hs[p] && |f| == |s| == |f1| == |s1| == hs[p]
    && forall i :: 0 <= i < hs[p] ==> Relinked(hs, level, pos, lv, x, p, i, f[i], s[i], f1[i], s1[i])
  }

  lemma {:induction false} NothingRelinked(hs: seq<nat>, pos: nat, x: Node, p: nat, f: seq<Node?>, s: seq<nat>)
    requires pos < |hs| && p < |hs| && hs[0] >= hs[p] && |f| == |s| == hs[p]
    ensures NodeRelinked(hs, 0, pos, 0, x, p, f, s, f, s)
  {
    hide Prev;
  }

  // One level more is relinked.
  lemma {:induction false} RelinkLevel(hs: seq<nat>, pos: nat, k: nat, x: Node, p: nat, f: seq<Node?>, s: seq<nat>,
                                       f1: seq<Node?>, s1: seq<nat>, f2: seq<Node?>, s2: seq<nat>)
    requires NodeRelinked(hs, k, pos, k, x, p, f, s, f1, s1) && k < hs[0]
    requires if p == Prev(hs, pos, k) then f2 == f1[k := x] && s2 == s1[k := pos - p + 1] else f2 == f1 && s2 == s1
    ensures NodeRelinked(hs, k + 1, pos, k + 1, x, p, f, s, f2, s2)
  {
    hide Prev;
  }

  // One level more, above the new node, is spanned farther.
  lemma {:induction false} WidenLevel(hs: seq<nat>, pos: nat, k: nat, lv: nat, x: Node, p: nat, f: seq<Node?>, s: seq<nat>,
                                      f1: seq<Node?>, s1: seq<nat>, f2: seq<Node?>, s2: seq<nat>)
    requires NodeRelinked(hs, k, pos, lv, x, p, f, s, f1, s1) && lv <= k < hs[0]
    requires f2 == f1 && (if p == Prev(hs, pos, k) then s2 == s1[k := s1[k] + 1] else s2 == s1)
    ensures NodeRelinked(hs, k + 1, pos, lv, x, p, f, s, f2, s2)
  {
    hide Prev;
  }

  // In the end all links are right.
  lemma {:induction false} AllRelinked(nodes: seq<Node>, hs: seq<nat>, level: nat, pos: nat, lv: nat, x: Node, p: nat,
                                       f: seq<Node?>, s: seq<nat>, f1: seq<Node?>, s1: seq<nat>)
    requires Heights(hs, level) && LinksOk(nodes, hs, level, p, f, s) && lv <= level
    requires NodeRelinked(hs, level, pos, lv, x, p, f, s, f1, s1)
    ensures |nodes| == |hs| ==> LinksOk(With(nodes, pos, x), Grown(hs, pos, lv), level, Shifted(p, pos), f1, s1)
  {
    hide Prev, Next, LinkOk, Relinked;
    if |nodes| == |hs| {
      forall i | 0 <= i < hs[p]
        ensures LinkOk(With(nodes, pos, x), Grown(hs, pos, lv), level, Shifted(p, pos), i, f1[i], s1[i])
      {
        if i >= level {
          NoNext(hs, level, i);
        }
        OldLink(nodes, hs, level, pos, lv, x, p, i, f[i], s[i], f1[i], s1[i]);
      }
    }
  }

  // What is known while the new node is linked: the list as it was, and where the node belongs.
  ghost predicate Place(nodes: seq<Node>, hs: seq<nat>, level: nat, update: seq<Node>, rank: seq<nat>, pos: nat,
                        f0: seq<seq<Node?>>, s0: seq<seq<nat>>) {
    && Distinct(nodes) && |f0| == |s0| == |nodes| == |hs| && Heights(hs, level)
    && UpdateOk(nodes, hs, level, update, pos) && RanksOk(hs, level, rank, pos) && rank[0] == pos
    && forall p :: 0 <= p < |nodes| ==> LinksOk(nodes, hs, level, p, f0[p], s0[p])
  }

  // The link that the new node takes over at level `i`.
  lemma {:induction false} Untouched(hs: seq<nat>, pos: nat, i: nat, lv: nat, x: Node, p: nat, f: seq<Node?>, s: seq<nat>, f1: seq<Node?>, s1: seq<nat>)
    requires NodeRelinked(hs, i, pos, lv, x, p, f, s, f1, s1) && lv <= i < hs[p]
    ensures |f| == |s| == |f1| == |s1| == hs[p] && f1[i] == f[i] && s1[i] == s[i]
  {
    hide Prev;
    assert Relinked(hs, i, pos, lv, x, p, i, f[i], s[i], f1[i], s1[i]);
  }

  // The part of `Place` about level `i`.
  lemma {:induction false} PlaceAt(nodes: seq<Node>, hs: seq<nat>, level: nat, update: seq<Node>, rank: seq<nat>, pos: nat,
                                   f0: seq<seq<Node?>>, s0: seq<seq<nat>>, i: nat)
    requires Place(nodes, hs, level, update, rank, pos, f0, s0) && i < level
    ensures pos < |hs| == |nodes| == |f0| == |s0| && hs[0] == MAX_LEVEL && level <= MAX_LEVEL && |update| == |rank| == MAX_LEVEL
    ensures var r := Prev(hs, pos, i);
            && update[i] == nodes[r] && rank[i] == r && rank[0] == pos
            && |f0[r]| == |s0[r]| == hs[r] && LinkOk(nodes, hs, level, r, i, f0[r][i], s0[r][i])
  {
    hide Prev, LinkOk;
    var r := Prev(hs, pos, i);
    assert LinksOk(nodes, hs, level, r, f0[r], s0[r]);
  }

  // What has become of all nodes, with `k` levels seen to and the new node in `lv` of them.
  ghost predicate Relinking(nodes: seq<Node>, hs: seq<nat>, k: nat, pos: nat, lv: nat, x: Node, f0: seq<seq<Node?>>, s0: seq<seq<nat>>)
    reads nodes
  {
    && |f0| == |s0| == |nodes|
    && forall p :: 0 <= p < |nodes| ==> NodeRelinked(hs, k, pos, lv, x, p, f0[p], s0[p], nodes[p].forward, nodes[p].span)
  }

  // The new node has `k` right links.
  ghost predicate NewLinks(nodes: seq<Node>, hs: seq<nat>, level: nat, pos: nat, lv: nat, x: Node, k: nat)
    reads x
  {
    && |x.forward| == |x.span| == lv && k <= lv && pos < |nodes| == |hs|
    && forall j :: 0 <= j < k ==> LinkOk(With(nodes, pos, x), Grown(hs, pos, lv), level, pos + 1, j, x.forward[j], x.span[j])
  }

  // One turn of the loop: the new node takes over the link of update[i].
  method LinkLevel(x: Node, lv: nat, i: nat, update: seq<Node>, rank: seq<nat>, ghost pos: nat,
                   ghost nodes: seq<Node>, ghost hs: seq<nat>, ghost level: nat, ghost f0: seq<seq<Node?>>, ghost s0: seq<seq<nat>>)
    requires Place(nodes, hs, level, update, rank, pos, f0, s0) && x !in nodes && i < lv <= level
    requires Relinking(nodes, hs, i, pos, i, x, f0, s0) && NewLinks(nodes, hs, level, pos, lv, x, i)
    modifies x`forward, x`span, nodes
    ensures forall p :: 0 <= p < |nodes| ==> nodes[p].backward == old(nodes[p].backward)
    ensures Relinking(nodes, hs, i + 1, pos, i + 1, x, f0, s0) && NewLinks(nodes, hs, level, pos, lv, x, i + 1)
  {
    hide Next, Prev, LinkOk, Relinked, NodeRelinked, With, Grown, Place;
    PlaceAt(nodes, hs, level, update, rank, pos, f0, s0, i);
    ghost var r := Prev(hs, pos, i);
    Untouched(hs, pos, i, i, x, r, f0[r], s0[r], nodes[r].forward, nodes[r].span);
    NewLink(nodes, hs, level, pos, lv, x, i, f0[r][i], s0[r][i]);
    label Before:
    var u := update[i];
    x.forward := x.forward[i := u.forward[i]];
    u.forward := u.forward[i := x];
    x.span := x.span[i := u.span[i] - (rank[0] - rank[i])];
    u.span := u.span[i := (rank[0] - rank[i]) + 1];
    forall p | 0 <= p < |nodes|
      ensures NodeRelinked(hs, i + 1, pos, i + 1, x, p, f0[p], s0[p], nodes[p].forward, nodes[p].span)
    {
      OthersDiffer(nodes, hs, level, update, rank, pos, f0, s0, p, r);
      RelinkLevel(hs, pos, i, x, p, f0[p], s0[p], old@Before(nodes[p].forward), old@Before(nodes[p].span), nodes[p].forward, nodes[p].span);
    }
  }

  lemma {:induction false} OthersDiffer(nodes: seq<Node>, hs: seq<nat>, level: nat, update: seq<Node>, rank: seq<nat>, pos: nat,
                                        f0: seq<seq<Node?>>, s0: seq<seq<nat>>, p: nat, r: nat)
    requires Place(nodes, hs, level, update, rank, pos, f0, s0) && p < |nodes| && r < |nodes|
    ensures nodes[p] == nodes[r] <==> p == r
  {
    hide UpdateOk, RanksOk, LinksOk;
  }

  /** The loop that links the new node in its levels. */
  method LinkNew(x: Node, lv: nat, update: seq<Node>, rank: seq<nat>, ghost pos: nat,
                 ghost nodes: seq<Node>, ghost hs: seq<nat>, ghost level: nat, ghost f0: seq<seq<Node?>>, ghost s0: seq<seq<nat>>)
    requires Place(nodes, hs, level, update, rank, pos, f0, s0) && f0 == Forwards(nodes) && s0 == Spans(nodes)
    requires 1 <= lv <= level && x !in nodes && |x.forward| == |x.span| == lv
    modifies x`forward, x`span, nodes
    ensures forall p :: 0 <= p < |nodes| ==> nodes[p].backward == old(nodes[p].backward)
    ensures Relinking(nodes, hs, lv, pos, lv, x, f0, s0) && NewLinks(nodes, hs, level, pos, lv, x, lv)
  {
    hide Next, Prev, LinkOk, Relinked, Relinking, NewLinks, With, Place, Grown;
    StartRelink(nodes, hs, level, update, rank, pos, f0, s0, x, lv);
    var i: nat := 0;
    while i < lv
      invariant i <= lv
      invariant forall p :: 0 <= p < |nodes| ==> nodes[p].backward == old(nodes[p].backward)
      invariant Relinking(nodes, hs, i, pos, i, x, f0, s0) && NewLinks(nodes, hs, level, pos, lv, x, i)
    {
      LinkLevel(x, lv, i, update, rank, pos, nodes, hs, level, f0, s0);
      i := i + 1;
    }
  }

  lemma {:induction false} StartRelink(nodes: seq<Node>, hs: seq<nat>, level: nat, update: seq<Node>, rank: seq<nat>, pos: nat,
                                       f0: seq<seq<Node?>>, s0: seq<seq<nat>>, x: Node, lv: nat)
    requires Place(nodes, hs, level, update, rank, pos, f0, s0) && f0 == Forwards(nodes) && s0 == Spans(nodes)
    requires |x.forward| == |x.span| == lv
    ensures Relinking(nodes, hs, 0, pos, 0, x, f0, s0) && NewLinks(nodes, hs, level, pos, lv, x, 0)
  {
    hide LinkOk, Relinked, NodeRelinked, Distinct;
    forall p | 0 <= p < |nodes|
      ensures NodeRelinked(hs, 0, pos, 0, x, p, f0[p], s0[p], nodes[p].forward, nodes[p].span)
    {
      assert LinksOk(nodes, hs, level, p, f0[p], s0[p]);
      NothingRelinked(hs, pos, x, p, f0[p], s0[p]);
    }
  }

  lemma {:induction false} PlaceSizes(nodes: seq<Node>, hs: seq<nat>, level: nat, update: seq<Node>, rank: seq<nat>, pos: nat,
                                      f0: seq<seq<Node?>>, s0: seq<seq<nat>>)
    requires Place(nodes, hs, level, update, rank, pos, f0, s0)
    ensures pos < |hs| == |nodes| == |f0| == |s0| && hs[0] == MAX_LEVEL && 1 <= level <= MAX_LEVEL && |update| == |rank| == MAX_LEVEL
  {
    hide LinksOk;
  }

  /** The loop over the levels above the new node. */
  method WidenAbove(lv: nat, level: nat, update: seq<Node>, ghost rank: seq<nat>, ghost x: Node, ghost pos: nat,
                    ghost nodes: seq<Node>, ghost hs: seq<nat>, ghost f0: seq<seq<Node?>>, ghost s0: seq<seq<nat>>)
    requires Place(nodes, hs, level, update, rank, pos, f0, s0) && lv <= level && Relinking(nodes, hs, lv, pos, lv, x, f0, s0)
    modifies nodes
    ensures forall p :: 0 <= p < |nodes| ==> nodes[p].backward == old(nodes[p].backward)
    ensures Relinking(nodes, hs, level, pos, lv, x, f0, s0)
  {
    hide Next, Prev, LinkOk, Relinked, Relinking, Place;
    PlaceSizes(nodes, hs, level, update, rank, pos, f0, s0);
    var i: nat := lv;
    while i < level
      invariant lv <= i <= level
      invariant forall p :: 0 <= p < |nodes| ==> nodes[p].backward == old(nodes[p].backward)
      invariant Relinking(nodes, hs, i, pos, lv, x, f0, s0)
    {
      WidenAt(i, lv, level, update, rank, x, pos, nodes, hs, f0, s0);
      i := i + 1;
    }
  }

  method WidenAt(i: nat, ghost lv: nat, ghost level: nat, update: seq<Node>, ghost rank: seq<nat>, ghost x: Node, ghost pos: nat,
                 ghost nodes: seq<Node>, ghost hs: seq<nat>, ghost f0: seq<seq<Node?>>, ghost s0: seq<seq<nat>>)
    requires Place(nodes, hs, level, update, rank, pos, f0, s0) && lv <= i < level && Relinking(nodes, hs, i, pos, lv, x, f0, s0)
    requires |update| == MAX_LEVEL >= level
    modifies nodes
    ensures forall p :: 0 <= p < |nodes| ==> nodes[p].backward == old(nodes[p].backward)
    ensures Relinking(nodes, hs, i + 1, pos, lv, x, f0, s0)
  {
    hide Next, Prev, LinkOk, Relinked, NodeRelinked, Place;
    PlaceAt(nodes, hs, level, update, rank, pos, f0, s0, i);
    ghost var r := Prev(hs, pos, i);
    Untouched(hs, pos, i, lv, x, r, f0[r], s0[r], nodes[r].forward, nodes[r].span);
    label Before:
    var u := update[i];
    u.span := u.span[i := u.span[i] + 1];
    forall p | 0 <= p < |nodes|
      ensures NodeRelinked(hs, i + 1, pos, lv, x, p, f0[p], s0[p], nodes[p].forward, nodes[p].span)
    {
      OthersDiffer(nodes, hs, level, update, rank, pos, f0, s0, p, r);
      WidenLevel(hs, pos, i, lv, x, p, f0[p], s0[p], old@Before(nodes[p].forward), old@Before(nodes[p].span), nodes[p].forward, nodes[p].span);
    }
  }

  lemma {:induction false} LowestNext(hs: seq<nat>, level: nat, p: nat)
    requires Heights(hs, level) && p < |hs|
    ensures Next(hs, p, 0) == p + 1
  {
    NextIs(hs, p, 0, p + 1);
  }

  lemma {:induction false} GrownHeights(hs: seq<nat>, level: nat, pos: nat, lv: nat)
    requires Heights(hs, level) && 1 <= lv <= level && pos < |hs|
    ensures Heights(Grown(hs, pos, lv), level)
  {
  }

  // The levels are still no more than needed.
  lemma {:induction false} GrownUsed(hs: seq<nat>, level0: nat, level: nat, pos: nat, lv: nat)
    requires Heights(hs, level0) && Used(hs, level0) && pos < |hs| && 1 <= lv <= MAX_LEVEL && level == if lv > level0 then lv else level0
    ensures Used(Grown(hs, pos, lv), level)
  {
    hide Next, Prev;
    if level > 1 {
      var h := Grown(hs, pos, lv);
      var n := Next(h, 0, level - 1);
      if lv == level {
        assert h[pos + 1] == lv;
      } else {
        GrownNext(hs, pos, lv, 0, level - 1);
      }
    }
  }

  lemma {:induction false} WithElements(nodes: seq<Node>, keys: seq<Key>, pos: nat, x: Node, k: Key)
    requires Elements(nodes, keys) && pos < |nodes| && Holds(x, k)
    ensures Elements(With(nodes, pos, x), Put(keys, k, pos))
  {
    hide Holds;
    var n, ks := With(nodes, pos, x), Put(keys, k, pos);
    forall p | 0 < p < |n|
      ensures Holds(n[p], ks[p - 1])
    {
      if p > pos + 1 {
        assert n[p] == nodes[p - 1] && ks[p - 1] == keys[p - 2];
        assert Holds(nodes[p - 1], keys[p - 2]);
      } else if p <= pos {
        assert Holds(nodes[p], keys[p - 1]);
      }
    }
  }

  lemma {:induction false} WithDistinct(nodes: seq<Node>, pos: nat, x: Node)
    requires Distinct(nodes) && pos < |nodes| && x !in nodes
    ensures Distinct(With(nodes, pos, x))
  {
  }

  // Set the backward links, and the tail.
  method LinkBack(sl: List, x: Node, update0: Node, ghost pos: nat)
    requires Distinct(sl.nodes) && x !in sl.nodes && pos < |sl.nodes| && sl.nodes[0] == sl.header && update0 == sl.nodes[pos]
    requires |x.forward| > 0 && x.forward[0] == Target(sl.nodes, pos + 1) && Mirrored(sl.nodes)
    requires sl.tail == if |sl.nodes| == 1 then null else sl.nodes[|sl.nodes| - 1]
    modifies sl`tail, x`backward, sl.nodes
    ensures forall p :: 0 <= p < |sl.nodes| ==> sl.nodes[p].forward == old(sl.nodes[p].forward) && sl.nodes[p].span == old(sl.nodes[p].span)
    ensures Mirrored(With(sl.nodes, pos, x)) && sl.tail == With(sl.nodes, pos, x)[|sl.nodes|]
  {
    x.backward := if update0 == sl.header then null else update0;
    if x.forward[0] != null {
      x.forward[0].backward := x;
    } else {
      sl.tail := x;
    }
  }

  lemma {:induction false} PlaceNow(sl: List, update: seq<Node>, rank: seq<nat>, pos: nat)
    requires sl.Linked() && UpdateOk(sl.nodes, sl.hs, sl.level, update, pos) && RanksOk(sl.hs, sl.level, rank, pos) && rank[0] == pos
    ensures Place(sl.nodes, sl.hs, sl.level, update, rank, pos, Forwards(sl.nodes), Spans(sl.nodes))
    ensures |sl.nodes| == |sl.hs| == |sl.keys| + 1 && pos <= |sl.keys|
    ensures update[0] == sl.nodes[pos]
  {
    hide Sorted, Elements, LinkOk, Next, Prev, Distinct;
    ListParts(sl);
    LowestPrev(sl, pos);
    forall p | 0 <= p < |sl.nodes|
      ensures LinksOk(sl.nodes, sl.hs, sl.level, p, Forwards(sl.nodes)[p], Spans(sl.nodes)[p])
    {
      assert NodeOk(sl.nodes, sl.hs, sl.level, p);
    }
  }

  lemma {:induction false} NewLinksOk(nodes: seq<Node>, hs: seq<nat>, level: nat, pos: nat, lv: nat, x: Node)
    requires NewLinks(nodes, hs, level, pos, lv, x, lv)
    ensures LinksOk(With(nodes, pos, x), Grown(hs, pos, lv), level, pos + 1, x.forward, x.span)
  {
    hide LinkOk;
  }

  // All nodes are linked right after the two loops.
  lemma {:induction false} WithLinks(nodes: seq<Node>, hs: seq<nat>, level: nat, update: seq<Node>, rank: seq<nat>, pos: nat,
                                     f0: seq<seq<Node?>>, s0: seq<seq<nat>>, lv: nat, x: Node)
    requires Place(nodes, hs, level, update, rank, pos, f0, s0) && 1 <= lv <= level
    requires Relinking(nodes, hs, level, pos, lv, x, f0, s0) && NewLinks(nodes, hs, level, pos, lv, x, lv)
    ensures var n := With(nodes, pos, x); forall p :: 0 <= p < |n| ==> NodeOk(n, Grown(hs, pos, lv), level, p)
  {
    hide NodeRelinked, LinkOk, LinksOk, Next, Prev, Distinct;
    var n, h := With(nodes, pos, x), Grown(hs, pos, lv);
    NewLinksOk(nodes, hs, level, pos, lv, x);
    forall p | 0 <= p < |n|
      ensures LinksOk(n, h, level, p, n[p].forward, n[p].span)
    {
      if p != pos + 1 {
        var q := if p <= pos then p else p - 1;
        assert n[p] == nodes[q] && NodeRelinked(hs, level, pos, lv, x, q, f0[q], s0[q], nodes[q].forward, nodes[q].span);
        AllRelinked(nodes, hs, level, pos, lv, x, q, f0[q], s0[q], nodes[q].forward, nodes[q].span);
      }
    }
    forall p | 0 <= p < |n|
      ensures NodeOk(n, h, level, p)
    {
      LinksNode(n, h, level, p);
    }
  }

  lemma {:induction false} LinksNode(nodes: seq<Node>, hs: seq<nat>, level: nat, p: nat)
    requires |nodes| == |hs| && p < |nodes| && LinksOk(nodes, hs, level, p, nodes[p].forward, nodes[p].span)
    ensures NodeOk(nodes, hs, level, p)
  {
    hide LinkOk;
  }

  // The new node's neighbour, in the old numbering.
  lemma {:induction false} NewNeighbour(nodes: seq<Node>, hs: seq<nat>, level: nat, pos: nat, lv: nat, x: Node)
    requires Heights(hs, level) && 1 <= lv <= level && NewLinks(nodes, hs, level, pos, lv, x, lv)
    ensures pos < |nodes| && |x.forward| > 0 && x.forward[0] == Target(nodes, pos + 1)
  {
    hide Next, Heights;
    GrownHeights(hs, level, pos, lv);
    LowestNext(Grown(hs, pos, lv), level, pos + 1);
    TargetMoved(nodes, pos, x, pos + 1);
    assert LinkOk(With(nodes, pos, x), Grown(hs, pos, lv), level, pos + 1, 0, x.forward[0], x.span[0]);
  }

  // The two loops over the levels.
  method LinkForward(x: Node, lv: nat, level: nat, update: seq<Node>, rank: seq<nat>, ghost pos: nat,
                     ghost nodes: seq<Node>, ghost hs: seq<nat>, ghost f0: seq<seq<Node?>>, ghost s0: seq<seq<nat>>)
    requires Place(nodes, hs, level, update, rank, pos, f0, s0) && f0 == Forwards(nodes) && s0 == Spans(nodes)
    requires 1 <= lv <= level && x !in nodes && |x.forward| == |x.span| == lv && Mirrored(nodes)
    modifies x`forward, x`span, nodes
    ensures Mirrored(nodes) && Relinking(nodes, hs, level, pos, lv, x, f0, s0) && NewLinks(nodes, hs, level, pos, lv, x, lv)
  {
    hide Relinking, NewLinks, Place, With, Grown;
    LinkNew(x, lv, update, rank, pos, nodes, hs, level, f0, s0);
    WidenAbove(lv, level, update, rank, x, pos, nodes, hs, f0, s0);
  }

  // Setting the backward links leaves the others alone.
  method LinkBackToo(sl: List, x: Node, ghost lv: nat, update0: Node, ghost pos: nat, ghost f0: seq<seq<Node?>>, ghost s0: seq<seq<nat>>)
    requires Distinct(sl.nodes) && x !in sl.nodes && pos < |sl.nodes| && sl.nodes[0] == sl.header && update0 == sl.nodes[pos]
    requires |x.forward| > 0 && x.forward[0] == Target(sl.nodes, pos + 1) && Mirrored(sl.nodes)
    requires sl.tail == if |sl.nodes| == 1 then null else sl.nodes[|sl.nodes| - 1]
    requires Relinking(sl.nodes, sl.hs, sl.level, pos, lv, x, f0, s0) && NewLinks(sl.nodes, sl.hs, sl.level, pos, lv, x, lv)
    modifies sl`tail, x`backward, sl.nodes
    ensures Mirrored(With(sl.nodes, pos, x)) && sl.tail == With(sl.nodes, pos, x)[|sl.nodes|]
    ensures Relinking(sl.nodes, sl.hs, sl.level, pos, lv, x, f0, s0) && NewLinks(sl.nodes, sl.hs, sl.level, pos, lv, x, lv)
  {
    hide Mirrored, Distinct, NodeRelinked, LinkOk, With, Grown;
    LinkBack(sl, x, update0, pos);
  }

  // Link the new node forward and backward.
  method LinkIn(sl: List, x: Node, lv: nat, update: seq<Node>, rank: seq<nat>, ghost pos: nat)
    requires sl.Linked() && UpdateOk(sl.nodes, sl.hs, sl.level, update, pos) && RanksOk(sl.hs, sl.level, rank, pos) && rank[0] == pos
    requires 1 <= lv <= sl.level && x !in sl.nodes && |x.forward| == |x.span| == lv
    modifies sl`tail, x, sl.nodes
    ensures pos < |sl.nodes| == |sl.hs|
    ensures var n := With(sl.nodes, pos, x); forall p :: 0 <= p < |n| ==> NodeOk(n, Grown(sl.hs, pos, lv), sl.level, p)
    ensures Mirrored(With(sl.nodes, pos, x)) && sl.tail == With(sl.nodes, pos, x)[|sl.nodes|]
  {
    hide Sorted, Elements, Holds, CompareObj, Next, Prev, LinkOk, Relinked, NodeRelinked, Place, Heights, Distinct, NodeOk, LinksOk,
         With, Grown, UpdateOk, RanksOk, Relinking, NewLinks, Mirrored, Target;
    PlaceNow(sl, update, rank, pos);
    ghost var nodes, hs, level, f0, s0 := sl.nodes, sl.hs, sl.level, Forwards(sl.nodes), Spans(sl.nodes);
    PlaceSizes(nodes, hs, level, update, rank, pos, f0, s0);
    LinkForward(x, lv, sl.level, update, rank, pos, nodes, hs, f0, s0);
    NewNeighbour(nodes, hs, level, pos, lv, x);
    LinkBackToo(sl, x, lv, update[0], pos, f0, s0);
    WithLinks(nodes, hs, level, update, rank, pos, f0, s0, lv, x);
  }

  // The second half of slInsert.
  method InsertNode(sl: List, x: Node, lv: nat, update: seq<Node>, rank: seq<nat>, ghost pos: nat, ghost k: Key)
    requires sl.Linked() && UpdateOk(sl.nodes, sl.hs, sl.level, update, pos) && RanksOk(sl.hs, sl.level, rank, pos) && rank[0] == pos
    requires 1 <= lv <= sl.level && x !in sl.nodes && |x.forward| == |x.span| == lv && Holds(x, k)
    requires Splits(sl.keys, k, pos) && k !in sl.keys
    modifies sl, x, sl.nodes
    ensures sl.Linked() && sl.level == old(sl.level) && pos < |old(sl.hs)| && sl.hs == Grown(old(sl.hs), pos, lv)
    ensures sl.keys == Put(old(sl.keys), k, pos) && sl.nodes == With(old(sl.nodes), pos, x)
  {
    hide Sorted, Elements, Holds, CompareObj, Next, Prev, LinkOk, Heights, Distinct, Splits, NodeOk,
         With, Grown, Put, UpdateOk, RanksOk, Mirrored, Less;
    ghost var nodes, hs, keys, level := sl.nodes, sl.hs, sl.keys, sl.level;
    ListParts(sl);
    LinkIn(sl, x, lv, update, rank, pos);
    WithElements(nodes, keys, pos, x, k);
    WithDistinct(nodes, pos, x);
    PutSorted(keys, k, pos);
    GrownHeights(hs, level, pos, lv);
    PutSizes(nodes, keys, pos, x, k);
    sl.nodes, sl.hs, sl.keys := With(nodes, pos, x), Grown(hs, pos, lv), Put(keys, k, pos);
    sl.length := sl.length + 1;
  }

  lemma {:induction false} PutSizes(nodes: seq<Node>, keys: seq<Key>, pos: nat, x: Node, k: Key)
    requires |nodes| == |keys| + 1 && pos <= |keys|
    ensures |Put(keys, k, pos)| == |keys| + 1 && With(nodes, pos, x)[0] == nodes[0]
    ensures forall n :: n in With(nodes, pos, x) ==> n == x || n in nodes
  {
  }

  /** slInsert: the key is put in its place, whatever the number of levels of its node. */
  method SlInsert(sl: List, score: real, obj: seq<nat>, lv: nat) returns (ghost pos: nat)
    requires sl.Valid() && 1 <= lv <= MAX_LEVEL && Key(score, obj) !in sl.keys
    modifies sl, sl.nodes
    ensures sl.Valid() && Splits(old(sl.keys), Key(score, obj), pos) && sl.keys == Put(old(sl.keys), Key(score, obj), pos)
    ensures pos < |old(sl.hs)| && sl.hs == Grown(old(sl.hs), pos, lv)
    ensures forall n :: n in sl.nodes ==> n in old(sl.nodes) || fresh(n)
  {
    hide Sorted, Elements, CompareObj, Next, Prev, LinkOk, Relinked, NodeRelinked, Place, Heights, Distinct, Splits, NodeOk, LinksOk,
         With, Grown, Put, UpdateOk, RanksOk, Mirrored, Less;
    ListParts(sl);
    var k := Key(score, obj);
    ghost var level0 := sl.level;
    pos := SplitAt(sl.keys, k);
    var update, rank := FindUpdate(sl, k, pos);
    update, rank := RaiseLevel(sl, lv, update, rank, pos);
    var x := new Node(lv, score, Obj(obj));
    ghost var nodes, keys, hs, level := sl.nodes, sl.keys, sl.hs, sl.level;
    PosBound(keys, k, pos);
    InsertNode(sl, x, lv, update, rank, pos, k);
    PutSizes(nodes, keys, pos, x, k);
    GrownUsed(hs, level0, level, pos, lv);
  }
}
