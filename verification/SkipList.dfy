/** The skip list of skiplist.c: nodes linked at up to 32 levels stand for one sorted sequence. */
module SkipList {
  import opened SkipKeys
  import opened SkipLinks

  // A pointer to the bytes of a member.
  datatype Obj = Null | Obj(bytes: seq<nat>)

  class Node {
    const score: real
    const obj: Obj  // the header has none
    var backward: Node?
    var forward: seq<Node?>      // level[i].forward
    var span: seq<nat>           // level[i].span

    // slCreateNode
    constructor (level: nat, score: real, obj: Obj)
      ensures this.score == score && this.obj == obj && backward == null
      ensures forward == seq(level, _ => null) && span == seq(level, _ => 0)
    {
      this.score, this.obj, backward := score, obj, null;
      forward, span := seq(level, _ => null), seq(level, _ => 0);
    }
  }

  function Target(nodes: seq<Node>, q: nat): Node? {
    if q < |nodes| then nodes[q] else null
  }

  // Where a link of level `i` of node `p` leads, and how far.
  ghost predicate LinkOk(nodes: seq<Node>, hs: seq<nat>, level: nat, p: nat, i: nat, f: Node?, s: nat) {
    && p < |hs| == |nodes|
    && f == Target(nodes, Next(hs, p, i)) && (0 < p || i < level ==> s == Reach(Next(hs, p, i), |hs|) - p)
  }

  ghost predicate NodeOk(nodes: seq<Node>, hs: seq<nat>, level: nat, p: nat)
    reads nodes
  {
    && p < |hs| == |nodes| && |nodes[p].forward| == |nodes[p].span| == hs[p]
    && forall i :: 0 <= i < hs[p] ==> LinkOk(nodes, hs, level, p, i, nodes[p].forward[i], nodes[p].span[i])
  }

  ghost predicate Distinct(nodes: seq<Node>) {
    forall p, q :: 0 <= p < q < |nodes| ==> nodes[p] != nodes[q]
  }

  // The header takes part in all levels, the others in up to `level` of them.
  ghost predicate Heights(hs: seq<nat>, level: nat) {
    && |hs| > 0 && hs[0] == MAX_LEVEL && 1 <= level <= MAX_LEVEL
    && (forall p :: 0 < p < |hs| ==> 1 <= hs[p] <= level)
  }

  // There are no more levels than needed.
  ghost predicate Used(hs: seq<nat>, level: nat) {
    level > 1 ==> |hs| > 0 && Next(hs, 0, level - 1) < |hs|
  }

  ghost predicate Holds(n: Node, k: Key) {
    n.score == k.score && n.obj == Obj(k.member)
  }

  ghost predicate Elements(nodes: seq<Node>, keys: seq<Key>) {
    |nodes| == |keys| + 1 && nodes[0].obj == Null && forall p :: 0 < p < |nodes| ==> Holds(nodes[p], keys[p - 1])
  }

  // The backward links mirror the lowest level.
  ghost predicate Mirrored(nodes: seq<Node>)
    reads nodes
  {
    forall p :: 0 < p < |nodes| ==> nodes[p].backward == if p == 1 then null else nodes[p - 1]
  }

  class List {
    const header: Node
    var tail: Node?
    var length: nat
    var level: nat
    ghost var nodes: seq<Node>  // the header and the elements in order
    ghost var hs: seq<nat>      // how many levels each of them takes part in
    ghost var keys: seq<Key>    // what the list stands for

    ghost predicate Shape()
      reads this
    {
      && |nodes| == |hs| && Heights(hs, level) && Elements(nodes, keys) && nodes[0] == header
      && Distinct(nodes) && Sorted(keys)
    }

    // Each level is a sublist of the one below, every span is a difference of positions, and the
    // backward links and the tail mirror the lowest level.
    ghost predicate Linked()
      reads this, nodes
    {
      && Shape() && (forall p :: 0 <= p < |nodes| ==> NodeOk(nodes, hs, level, p)) && Mirrored(nodes)
      && length == |keys| && tail == if |keys| == 0 then null else nodes[|keys|]
    }

    ghost predicate Valid()
      reads this, nodes
    {
      Linked() && Used(hs, level)
    }

    // slCreate
    constructor ()
      ensures Valid() && keys == [] && fresh(nodes)
    {
      header := new Node(MAX_LEVEL, 0.0, Null);
      tail, length, level := null, 0, 1;
      nodes, hs, keys := [header], [MAX_LEVEL], [];
      new;
    }
  }

  // One link, from the invariant.
  lemma {:induction false} LinkAt(sl: List, p: nat, i: nat)
    requires sl.Linked() && p < |sl.nodes| && i < sl.hs[p]
    ensures |sl.nodes[p].forward| == |sl.nodes[p].span| == sl.hs[p] && p < |sl.hs|
    ensures LinkOk(sl.nodes, sl.hs, sl.level, p, i, sl.nodes[p].forward[i], sl.nodes[p].span[i])
  {
    hide LinkOk;
    assert NodeOk(sl.nodes, sl.hs, sl.level, p);
  }

  lemma {:induction false} ElementAt(sl: List, p: nat)
    requires sl.Shape() && 0 < p < |sl.nodes|
    ensures |sl.nodes| == |sl.keys| + 1 && Holds(sl.nodes[p], sl.keys[p - 1])
  {
  }

  // update[i] is the last node up to `pos` in level `i`, and rank[i] its rank.
  ghost predicate UpdateOk(nodes: seq<Node>, hs: seq<nat>, level: nat, update: seq<Node>, pos: nat) {
    && |update| == MAX_LEVEL && pos < |hs| == |nodes| && hs[0] == MAX_LEVEL && level <= MAX_LEVEL
    && forall i :: 0 <= i < level ==> update[i] == nodes[Prev(hs, pos, i)]
  }

  ghost predicate RanksOk(hs: seq<nat>, level: nat, rank: seq<nat>, pos: nat) {
    && |rank| == MAX_LEVEL && pos < |hs| && hs[0] == MAX_LEVEL && level <= MAX_LEVEL
    && forall i :: 0 <= i < level ==> rank[i] == Prev(hs, pos, i)
  }

  // The node comes before the key.
  predicate Before(x: Node, k: Key) {
    x.obj.Obj? && (x.score < k.score || (x.score == k.score && CompareObj(x.obj.bytes, k.member) < 0))
  }

  /** The first loop of slInsert and slDelete: the nodes after which the key belongs, and their ranks. */
  method FindUpdate(sl: List, k: Key, ghost pos: nat) returns (update: seq<Node>, rank: seq<nat>)
    requires sl.Linked() && Splits(sl.keys, k, pos)
    ensures UpdateOk(sl.nodes, sl.hs, sl.level, update, pos) && RanksOk(sl.hs, sl.level, rank, pos) && rank[0] == pos
  {
    hide Sorted, Distinct, Splits, NodeOk, Next, Prev, Elements, Holds, CompareObj, Mirrored;
    PosBound(sl.keys, k, pos);
    ListParts(sl);
    update, rank := seq(MAX_LEVEL, _ => sl.header), seq(MAX_LEVEL, _ => 0);
    var x, r: nat, i: nat := sl.header, 0, sl.level;
    while i > 0
      invariant i <= sl.level && |update| == |rank| == MAX_LEVEL
      invariant r < |sl.nodes| && x == sl.nodes[r] && (i > 0 ==> sl.hs[r] > i - 1) && r <= pos < |sl.hs|
      invariant forall j :: i <= j < sl.level ==> update[j] == sl.nodes[Prev(sl.hs, pos, j)] && rank[j] == Prev(sl.hs, pos, j)
      invariant i == 0 ==> rank[0] == pos
    {
      i := i - 1;
      x, r := Advance(sl, k, pos, i, x, r);
      update, rank := update[i := x], rank[i := r];
      PrevIs(sl.hs, pos, i, r);
      if i == 0 {
        LowestPrev(sl, pos);
      }
    }
  }

  lemma {:induction false} ListParts(sl: List)
    requires sl.Linked()
    ensures |sl.nodes| == |sl.hs| == |sl.keys| + 1 && sl.nodes[0] == sl.header && sl.hs[0] == MAX_LEVEL && 1 <= sl.level <= MAX_LEVEL
  {
  }

  // Every node takes part in the lowest level.
  lemma {:induction false} LowestPrev(sl: List, pos: nat)
    requires sl.Shape() && pos < |sl.hs|
    ensures Prev(sl.hs, pos, 0) == pos
  {
  }

  // Whether the node behind `r` is passed.
  lemma {:induction false} Passed(sl: List, k: Key, pos: nat, p: nat)
    requires sl.Shape() && Splits(sl.keys, k, pos) && 0 < p < |sl.nodes|
    ensures Before(sl.nodes[p], k) <==> p <= pos
  {
    hide Less, CompareObj;
    ElementAt(sl, p);
    assert Less(sl.keys[p - 1], k) <==> p - 1 < pos;
    BeforeLess(sl.nodes[p], sl.keys[p - 1], k);
  }

  lemma {:induction false} BeforeLess(x: Node, a: Key, k: Key)
    requires Holds(x, a)
    ensures Before(x, k) <==> Less(a, k)
  {
    hide CompareObj;
  }

  // Go forward in level `i` while the next node comes before the key, adding up the spans.
  method Advance(sl: List, k: Key, ghost pos: nat, i: nat, x0: Node, r0: nat) returns (x: Node, r: nat)
    requires sl.Linked() && Splits(sl.keys, k, pos) && i < sl.level
    requires r0 < |sl.nodes| && x0 == sl.nodes[r0] && sl.hs[r0] > i && r0 <= pos
    ensures r < |sl.nodes| && x == sl.nodes[r] && sl.hs[r] > i && r <= pos < Next(sl.hs, r, i) && pos < |sl.hs|
  {
    hide Sorted, Distinct, Splits, NodeOk, Next, Elements, Holds, CompareObj, Mirrored, Before, Heights;
    PosBound(sl.keys, k, pos);
    ListParts(sl);
    x, r := x0, r0;
    while true
      invariant r < |sl.nodes| && x == sl.nodes[r] && sl.hs[r] > i && r <= pos < |sl.hs|
      decreases |sl.nodes| - r
    {
      LinkAt(sl, r, i);
      var y := x.forward[i];
      if y == null {
        break;
      }
      Passed(sl, k, pos, Next(sl.hs, r, i));
      if !Before(y, k) {
        break;
      }
      r := r + x.span[i];
      x := y;
    }
  }

  lemma {:induction false} PosBound(keys: seq<Key>, k: Key, pos: nat)
    requires Splits(keys, k, pos)
    ensures pos <= |keys|
  {
  }
}
