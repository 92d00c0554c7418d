/** The queries of skiplist.c, and the range loops of lua-skiplist.c. */
module SkipQueries {
  import opened SkipKeys
  import opened SkipLinks
  import opened SkipList
  import opened SkipInsert
  import opened SkipDelete

  // The first `pos` keys are at most `k`, the others are not.
  ghost predicate SplitsUp(keys: seq<Key>, k: Key, pos: nat) {
    && pos <= |keys|
    && (forall j :: 0 <= j < pos ==> !Less(k, keys[j]))
    && (forall j :: pos <= j < |keys| ==> Less(k, keys[j]))
  }

  lemma {:induction false} SplitUpAt(keys: seq<Key>, k: Key) returns (pos: nat)
    requires Sorted(keys)
    ensures SplitsUp(keys, k, pos)
    ensures k in keys ==> pos > 0 && keys[pos - 1] == k
  {
    hide Less;
    var at := SplitAt(keys, k);
    KeyAt(keys, k, at);
    pos := if k in keys then at + 1 else at;
    forall j | 0 <= j < |keys|
      ensures Less(k, keys[j]) <==> pos <= j
    {
      LessTotal(k, keys[j]);
    }
  }

  // The node is not behind the key.
  predicate NotAfter(x: Node, k: Key) {
    x.obj.Obj? && (x.score < k.score || (x.score == k.score && CompareObj(x.obj.bytes, k.member) <= 0))
  }

  lemma {:induction false} PassedUp(sl: List, k: Key, pos: nat, p: nat)
    requires sl.Shape() && SplitsUp(sl.keys, k, pos) && 0 < p < |sl.nodes|
    ensures NotAfter(sl.nodes[p], k) <==> p <= pos
  {
    hide Less, CompareObj;
    ElementAt(sl, p);
    assert Less(k, sl.keys[p - 1]) <==> pos <= p - 1;
    NotAfterLess(sl.nodes[p], sl.keys[p - 1], k);
  }

  lemma {:induction false} NotAfterLess(x: Node, a: Key, k: Key)
    requires Holds(x, a)
    ensures NotAfter(x, k) <==> !Less(k, a)
  {
    hide CompareObj;
    CompareSwap(a.member, k.member);
  }

  // slGetRank, at one level.
  method AdvanceKey(sl: List, k: Key, ghost pos: nat, i: nat, x0: Node, r0: nat) returns (x: Node, r: nat)
    requires sl.Linked() && SplitsUp(sl.keys, k, pos) && i < sl.level
    requires r0 < |sl.nodes| && x0 == sl.nodes[r0] && sl.hs[r0] > i && r0 <= pos
    ensures r < |sl.nodes| && x == sl.nodes[r] && sl.hs[r] > i && r <= pos < Next(sl.hs, r, i) && pos < |sl.hs|
  {
    hide Sorted, Distinct, SplitsUp, NodeOk, Next, Elements, Holds, CompareObj, Mirrored, NotAfter, Heights;
    UpBound(sl.keys, k, pos);
    ListParts(sl);
    x, r := x0, r0;
    while true
      invariant r < |sl.nodes| && x == sl.nodes[r] && sl.hs[r] > i && r <= pos < |sl.hs|
      decreases |sl.nodes| - r
    {
      LinkAt(sl, r, i);
      var y := x.forward[i];
      if y == null {
        break;
      }
      PassedUp(sl, k, pos, Next(sl.hs, r, i));
      if !NotAfter(y, k) {
        break;
      }
      r := r + x.span[i];
      x := y;
    }
  }

  lemma {:induction false} UpBound(keys: seq<Key>, k: Key, pos: nat)
    requires SplitsUp(keys, k, pos)
    ensures pos <= |keys|
  {
  }

  ghost predicate UniqueMembers(keys: seq<Key>) {
    forall i, j :: 0 <= i < j < |keys| ==> keys[i].member != keys[j].member
  }

  // The member stands at rank `r`, not behind its place with the given score.
  ghost predicate MemberAt(keys: seq<Key>, k: Key, r: nat) {
    0 < r <= |keys| && keys[r - 1].member == k.member && !Less(k, keys[r - 1])
  }

  /** slGetRank: the rank of a member with its own score, and 0 for a member that is not there.  With a wrong
      score it may be 0 or the rank, but never the rank of another member. */
  method SlGetRank(sl: List, score: real, o: seq<nat>) returns (rank: nat)
    requires sl.Valid()
    ensures rank > 0 ==> MemberAt(sl.keys, Key(score, o), rank)
    ensures UniqueMembers(sl.keys) && Key(score, o) in sl.keys ==> rank > 0 && sl.keys[rank - 1] == Key(score, o)
    ensures (forall j :: 0 <= j < |sl.keys| ==> sl.keys[j].member != o) ==> rank == 0
    ensures rank == 0 ==> forall j :: 0 <= j < |sl.keys| && sl.keys[j].member == o ==> sl.keys[j].score != score
  {
    hide Sorted, Elements, Next, Prev, NodeOk, Heights, Distinct, Mirrored, Used, SplitsUp, CompareObj;
    var k := Key(score, o);
    ListParts(sl);
    ghost var pos := SplitUpAt(sl.keys, k);
    UpBound(sl.keys, k, pos);
    rank := 0;
    var x, i: nat := sl.header, sl.level;
    while i > 0
      invariant i <= sl.level && rank < |sl.nodes| && x == sl.nodes[rank] && (i > 0 ==> sl.hs[rank] > i - 1) && rank <= pos < |sl.hs|
      invariant i == 0 ==> rank == pos && !NodeIs(x, o)
    {
      i := i - 1;
      x, rank := AdvanceKey(sl, k, pos, i, x, rank);
      HeaderIs(sl, rank);
      if NodeIs(x, o) {
        RankFound(sl, k, pos, rank);
        return rank;
      }
      PrevIs(sl.hs, pos, i, rank);
      if i == 0 {
        LowestPrev(sl, pos);
      }
    }
    RankMissed(sl, k, pos);
    rank := 0;
  }

  // The node holds the member `o`; the header holds none.
  predicate NodeIs(x: Node, o: seq<nat>) {
    x.obj.Obj? && EqualObj(x.obj.bytes, o)
  }

  // Only the header has no object.
  lemma {:induction false} HeaderIs(sl: List, p: nat)
    requires sl.Shape() && p < |sl.nodes|
    ensures sl.nodes[p].obj.Obj? <==> p > 0
  {
    if p > 0 {
      ElementAt(sl, p);
    }
  }

  lemma {:induction false} RankFound(sl: List, k: Key, pos: nat, r: nat)
    requires sl.Shape() && SplitsUp(sl.keys, k, pos) && 0 < r < |sl.nodes| && r <= pos && NodeIs(sl.nodes[r], k.member)
    ensures MemberAt(sl.keys, k, r)
    ensures UniqueMembers(sl.keys) && k in sl.keys ==> sl.keys[r - 1] == k
  {
    hide Sorted, Less, CompareObj;
    ElementAt(sl, r);
    CompareZero(sl.nodes[r].obj.bytes, k.member);
  }

  lemma {:induction false} RankMissed(sl: List, k: Key, pos: nat)
    requires sl.Shape() && SplitsUp(sl.keys, k, pos) && pos < |sl.nodes| && !NodeIs(sl.nodes[pos], k.member)
    requires k in sl.keys ==> pos > 0 && sl.keys[pos - 1] == k
    ensures k !in sl.keys
    ensures forall j :: 0 <= j < |sl.keys| && sl.keys[j].member == k.member ==> sl.keys[j].score != k.score
  {
    hide Sorted, Less, CompareObj;
    if k in sl.keys {
      ElementAt(sl, pos);
      CompareZero(sl.nodes[pos].obj.bytes, k.member);
    }
    forall j | 0 <= j < |sl.keys| && sl.keys[j].member == k.member
      ensures sl.keys[j].score != k.score
    {
      assert sl.keys[j] in sl.keys;
    }
  }

  /** slGetNodeByRank: the node of that rank, if there is one; it inverts slGetRank. */
  method SlGetNodeByRank(sl: List, rank: nat) returns (node: Node?)
    requires sl.Valid()
    ensures node == (if 1 <= rank <= |sl.keys| then Target(sl.nodes, rank) else null)
    ensures 1 <= rank <= |sl.keys| ==> node != null && Holds(node, sl.keys[rank - 1])
  {
    hide Sorted, Elements, Next, Prev, NodeOk, Heights, Distinct, Mirrored, Used, Holds;
    ListParts(sl);
    if rank == 0 || rank > sl.length {
      return null;
    }
    ElementAt(sl, rank);
    var x, traversed: nat, i: nat := sl.header, 0, sl.level;
    while i > 0 && traversed != rank
      invariant i <= sl.level && traversed < |sl.nodes| && x == sl.nodes[traversed] && (i > 0 ==> sl.hs[traversed] > i - 1) && traversed <= rank
      invariant i == 0 ==> traversed == rank
    {
      i := i - 1;
      StartOfRank(rank, |sl.keys|);
      x, traversed := AdvanceRank(sl, rank + 1, rank, i, x, traversed);  // (traversed + span) <= rank
      PrevIs(sl.hs, rank, i, traversed);
      if i == 0 {
        LowestPrev(sl, rank);
      }
    }
    node := if traversed == rank then x else null;
  }

  lemma {:induction false} StartOfRank(rank: nat, n: nat)
    requires 1 <= rank <= n
    ensures CutStart(rank + 1, n) == rank
  {
  }

  // How many keys have scores below, or up to, the bound.
  ghost predicate BelowScore(keys: seq<Key>, min: real, pos: nat) {
    && pos <= |keys|
    && (forall j :: 0 <= j < pos ==> keys[j].score < min)
    && (forall j :: pos <= j < |keys| ==> keys[j].score >= min)
  }

  ghost predicate UpToScore(keys: seq<Key>, max: real, pos: nat) {
    && pos <= |keys|
    && (forall j :: 0 <= j < pos ==> keys[j].score <= max)
    && (forall j :: pos <= j < |keys| ==> keys[j].score > max)
  }

  lemma {:induction false} ScoreBounds(keys: seq<Key>, min: real, max: real) returns (lo: nat, hi: nat)
    requires Sorted(keys)
    ensures BelowScore(keys, min, lo) && UpToScore(keys, max, hi)
    ensures min <= max ==> lo <= hi
  {
    lo, hi := 0, 0;
    while lo < |keys| && keys[lo].score < min
      invariant lo <= |keys| && forall j :: 0 <= j < lo ==> keys[j].score < min
    {
      lo := lo + 1;
    }
    while hi < |keys| && keys[hi].score <= max
      invariant hi <= |keys| && forall j :: 0 <= j < hi ==> keys[j].score <= max
    {
      hi := hi + 1;
    }
    ScoresRise(keys);
  }

  lemma {:induction false} ScoresRise(keys: seq<Key>)
    requires Sorted(keys)
    ensures forall i, j :: 0 <= i <= j < |keys| ==> keys[i].score <= keys[j].score
  {
    hide CompareObj;
    forall i, j | 0 <= i <= j < |keys|
      ensures keys[i].score <= keys[j].score
    {
      if i < j {
        assert Less(keys[i], keys[j]);
      }
    }
  }

  // Some element may lie in the range.
  ghost predicate Touches(keys: seq<Key>, min: real, max: real) {
    min <= max && |keys| > 0 && keys[|keys| - 1].score >= min && keys[0].score <= max
  }

  /** slIsInRange */
  method SlIsInRange(sl: List, min: real, max: real) returns (r: bool)
    requires sl.Valid()
    ensures r <==> Touches(sl.keys, min, max)
  {
    hide Sorted, NodeOk, Heights, Distinct, Mirrored, Used, Next;
    ListParts(sl);
    if min > max {
      return false;
    }
    var x := sl.tail;
    if |sl.keys| > 0 {
      ElementAt(sl, |sl.keys|);
      ElementAt(sl, 1);
    }
    if x == null || x.score < min {
      return false;
    }
    LinkAt(sl, 0, 0);
    LowestNext(sl.hs, sl.level, 0);
    x := sl.header.forward[0];
    if x == null || x.score > max {
      return false;
    }
    return true;
  }

  // Go forward in level `i` while the score is out of range; up to the range, or to its end.
  method AdvanceScore(sl: List, bound: real, upTo: bool, ghost pos: nat, i: nat, x0: Node, ghost r0: nat) returns (x: Node, ghost r: nat)
    requires sl.Linked() && i < sl.level && if upTo then UpToScore(sl.keys, bound, pos) else BelowScore(sl.keys, bound, pos)
    requires r0 < |sl.nodes| && x0 == sl.nodes[r0] && sl.hs[r0] > i && r0 <= pos
    ensures r < |sl.nodes| && x == sl.nodes[r] && sl.hs[r] > i && r <= pos < Next(sl.hs, r, i) && pos < |sl.hs|
  {
    hide Sorted, Distinct, NodeOk, Next, Elements, Mirrored, Heights;
    ListParts(sl);
    x, r := x0, r0;
    while true
      invariant r < |sl.nodes| && x == sl.nodes[r] && sl.hs[r] > i && r <= pos < |sl.hs|
      decreases |sl.nodes| - r
    {
      LinkAt(sl, r, i);
      var y := x.forward[i];
      if y == null {
        break;
      }
      ElementAt(sl, Next(sl.hs, r, i));
      if if upTo then y.score > bound else y.score >= bound {
        break;
      }
      r := Next(sl.hs, r, i);
      x := y;
    }
  }

  // The last node below, or up to, the bound.
  method LastBefore(sl: List, bound: real, upTo: bool, ghost pos: nat) returns (x: Node)
    requires sl.Linked() && if upTo then UpToScore(sl.keys, bound, pos) else BelowScore(sl.keys, bound, pos)
    ensures pos < |sl.nodes| && x == sl.nodes[pos]
  {
    hide Sorted, Distinct, NodeOk, Next, Prev, Elements, Mirrored, UpToScore, BelowScore;
    x := sl.header;
    ghost var r: nat := 0;
    ListParts(sl);
    ScorePos(sl.keys, bound, upTo, pos);
    var i: nat := sl.level;
    while i > 0
      invariant i <= sl.level && r < |sl.nodes| && x == sl.nodes[r] && (i > 0 ==> sl.hs[r] > i - 1) && r <= pos < |sl.hs|
      invariant i == 0 ==> r == pos
    {
      i := i - 1;
      x, r := AdvanceScore(sl, bound, upTo, pos, i, x, r);
      PrevIs(sl.hs, pos, i, r);
      if i == 0 {
        LowestPrev(sl, pos);
      }
    }
  }

  lemma {:induction false} ScorePos(keys: seq<Key>, bound: real, upTo: bool, pos: nat)
    requires if upTo then UpToScore(keys, bound, pos) else BelowScore(keys, bound, pos)
    ensures pos <= |keys|
  {
  }

  lemma {:induction false} Behind(sl: List, p: nat)
    requires sl.Linked() && p < |sl.nodes|
    ensures |sl.nodes[p].forward| > 0 && sl.nodes[p].forward[0] == Target(sl.nodes, p + 1)
  {
    hide Next, Sorted, Distinct, Elements;
    ListParts(sl);
    LinkAt(sl, p, 0);
    LowestNext(sl.hs, sl.level, p);
  }

  /** slFirstInRange: the first element that is not below the range, which may lie above it. */
  method SlFirstInRange(sl: List, min: real, max: real) returns (x: Node?, ghost pos: nat)
    requires sl.Valid()
    ensures BelowScore(sl.keys, min, pos) && (x != null <==> Touches(sl.keys, min, max))
    ensures x != null ==> pos < |sl.keys| && x == Target(sl.nodes, pos + 1)
  {
    hide Sorted, NodeOk, Heights, Distinct, Mirrored, Used, Next, Elements;
    ghost var hi;
    pos, hi := ScoreBounds(sl.keys, min, max);
    ListParts(sl);
    var inRange := SlIsInRange(sl, min, max);
    if !inRange {
      return null, pos;
    }
    x := LastBefore(sl, min, false, pos);
    Behind(sl, pos);
    x := x.forward[0];
  }

  /** slLastInRange: the last element that is not above the range, which may lie below it. */
  method SlLastInRange(sl: List, min: real, max: real) returns (x: Node?, ghost pos: nat)
    requires sl.Valid()
    ensures UpToScore(sl.keys, max, pos) && (x != null <==> Touches(sl.keys, min, max))
    ensures x != null ==> 0 < pos <= |sl.keys| && x == Target(sl.nodes, pos)
  {
    hide Sorted, NodeOk, Heights, Distinct, Mirrored, Used, Next, Elements;
    ghost var lo;
    lo, pos := ScoreBounds(sl.keys, min, max);
    ListParts(sl);
    var inRange := SlIsInRange(sl, min, max);
    if !inRange {
      return null, pos;
    }
    x := LastBefore(sl, max, true, pos);
  }

  function Backwards(s: seq<Key>): (r: seq<Key>)
    ensures |r| == |s| && forall i :: 0 <= i < |s| ==> r[i] == s[|s| - 1 - i]
  {
    seq(|s|, i requires 0 <= i < |s| => s[|s| - 1 - i])
  }

  // The elements with scores in the range.
  function InScore(keys: seq<Key>, min: real, max: real): seq<Key> {
    if keys == [] then [] else
      (if min <= keys[0].score <= max then [keys[0]] else []) + InScore(keys[1..], min, max)
  }

  lemma {:induction false} InScoreParts(a: seq<Key>, b: seq<Key>, min: real, max: real)
    ensures InScore(a + b, min, max) == InScore(a, min, max) + InScore(b, min, max)
  {
    if a == [] {
      assert a + b == b;
    } else {
      assert (a + b)[1..] == a[1..] + b;
      InScoreParts(a[1..], b, min, max);
    }
  }

  lemma {:induction false} InScoreAll(a: seq<Key>, min: real, max: real)
    requires forall j :: 0 <= j < |a| ==> min <= a[j].score <= max
    ensures InScore(a, min, max) == a
  {
    if a != [] {
      InScoreAll(a[1..], min, max);
      assert a == [a[0]] + a[1..];
    }
  }

  lemma {:induction false} InScoreNone(a: seq<Key>, min: real, max: real)
    requires forall j :: 0 <= j < |a| ==> a[j].score < min || a[j].score > max
    ensures InScore(a, min, max) == []
  {
    if a != [] {
      InScoreNone(a[1..], min, max);
    }
  }

  /** In a sorted list the elements in a range are a slice. */
  lemma {:induction false} InScoreSlice(keys: seq<Key>, min: real, max: real, lo: nat, hi: nat)
    requires BelowScore(keys, min, lo) && UpToScore(keys, max, hi) && lo <= hi
    ensures InScore(keys, min, max) == keys[lo..hi]
  {
    hide InScore;
    var a, b, c := keys[..lo], keys[lo..hi], keys[hi..];
    assert keys == a + (b + c);
    InScoreParts(a, b + c, min, max);
    InScoreParts(b, c, min, max);
    InScoreNone(a, min, max);
    InScoreAll(b, min, max);
    InScoreNone(c, min, max);
  }

  // Nothing is in a range that is not touched.
  lemma {:induction false} Untouching(keys: seq<Key>, min: real, max: real)
    requires Sorted(keys) && !Touches(keys, min, max)
    ensures InScore(keys, min, max) == []
  {
    hide InScore;
    ScoresRise(keys);
    InScoreNone(keys, min, max);
  }

  // The neighbours of a node in the lowest level.
  lemma {:induction false} Neighbours(sl: List, p: nat)
    requires sl.Linked() && 0 < p < |sl.nodes|
    ensures |sl.nodes[p].forward| > 0 && sl.nodes[p].forward[0] == Target(sl.nodes, p + 1)
    ensures sl.nodes[p].backward == if p == 1 then null else sl.nodes[p - 1]
    ensures |sl.nodes| == |sl.keys| + 1 && Holds(sl.nodes[p], sl.keys[p - 1])
  {
    hide Next, Sorted, Distinct, Elements;
    ListParts(sl);
    ElementAt(sl, p);
    Behind(sl, p);
  }

  // What a loop over `count` elements from rank `r` collects, in either direction.
  function Collected(keys: seq<Key>, r: nat, count: nat, reverse: bool): (s: seq<Key>)
    requires 1 <= r <= |keys|
  {
    if reverse then Backwards(keys[if count <= r then r - count else 0..r])
    else keys[r - 1..if r - 1 + count <= |keys| then r - 1 + count else |keys|]
  }

  lemma {:induction false} CollectedAt(keys: seq<Key>, r: nat, n: nat, reverse: bool)
    requires 1 <= r <= |keys| && if reverse then n <= r else r - 1 + n <= |keys|
    ensures |Collected(keys, r, n, reverse)| == n
    ensures forall i :: 0 <= i < n ==> Collected(keys, r, n, reverse)[i] == keys[if reverse then r - 1 - i else r - 1 + i]
  {
  }

  lemma {:induction false} CollectOne(keys: seq<Key>, r: nat, n: nat, reverse: bool)
    requires 1 <= r <= |keys| && if reverse then n < r else r + n <= |keys|
    ensures Members(Collected(keys, r, n, reverse)) + [keys[if reverse then r - 1 - n else r - 1 + n].member] ==
            Members(Collected(keys, r, n + 1, reverse))
    ensures |Members(Collected(keys, r, n, reverse))| == n
  {
    hide Collected;
    CollectedAt(keys, r, n, reverse);
    CollectedAt(keys, r, n + 1, reverse);
  }

  lemma {:induction false} CollectAll(keys: seq<Key>, r: nat, n: nat, m: nat, reverse: bool)
    requires 1 <= r <= |keys| && n <= m && if reverse then n == r else r - 1 + n == |keys|
    ensures Collected(keys, r, n, reverse) == Collected(keys, r, m, reverse)
  {
  }

  lemma {:induction false} CollectNone(keys: seq<Key>, r: nat, reverse: bool)
    requires 1 <= r <= |keys|
    ensures Members(Collected(keys, r, 0, reverse)) == []
  {
  }

  // The elements with ranks from `r1` to `r2`, as far as there are any, in that order.
  function Asked(keys: seq<Key>, r1: nat, r2: nat): seq<Key> {
    var low, high := if r1 <= r2 then r1 else r2, if r1 <= r2 then r2 else r1;
    var part := keys[Min(if low > 0 then low - 1 else 0, |keys|)..Min(high, |keys|)];
    if r1 <= r2 then part else Backwards(part)
  }

  // The first rank is one of `n`, or no rank of the range is.
  predicate Starts(n: nat, r1: nat, r2: nat) {
    || 1 <= r1 <= n || n == 0
    || (r1 == 0 && r2 == 0) || (r1 > n && r2 > n)
  }

  // What is left of a number in an int of 32 bits.
  function Truncated(n: nat): (r: int)
    ensures r <= n
  {
    var low := n % 0x1_0000_0000;
    if low < 0x8000_0000 then low else low - 0x1_0000_0000
  }

  function RangeLength(r1: nat, r2: nat): nat {
    if r1 > r2 then r1 - r2 + 1 else r2 - r1 + 1
  }

  /** The loop of _get_rank_range: the members asked for, all of them exactly if the range starts within the list and
      its length, as it is left in an int, is not less than their number; anyhow the first ones. */
  method GetRankRange(sl: List, r1: nat, r2: nat) returns (out: seq<seq<nat>>)
    requires sl.Valid()
    ensures out == Members(Asked(sl.keys, r1, r2)) <==>
              Starts(|sl.keys|, r1, r2) && |Asked(sl.keys, r1, r2)| <= Max(Truncated(RangeLength(r1, r2)), 0)
    ensures out <= Members(Asked(sl.keys, r1, r2))
  {
    hide Sorted, NodeOk, Heights, Distinct, Mirrored, Used, Next, Elements, Collected, Members, Asked, Truncated;
    var reverse := r1 > r2;
    var rangelen := Truncated(if reverse then r1 - r2 + 1 else r2 - r1 + 1);
    var node := SlGetNodeByRank(sl, r1);
    out := [];
    ghost var p: nat := r1;
    ListParts(sl);
    if 1 <= r1 <= |sl.keys| {
      CollectNone(sl.keys, r1, reverse);
    }
    while node != null && |out| < rangelen
      invariant |out| <= Max(rangelen, 0)
      invariant 1 <= r1 <= |sl.keys| ==> out == Members(Collected(sl.keys, r1, |out|, reverse))
      invariant if 1 <= r1 <= |sl.keys| then (if reverse then p + |out| == r1 else p == r1 + |out|) else node == null && out == []
      invariant 1 <= r1 <= |sl.keys| ==> p <= |sl.keys| + 1 && node == if p == 0 then null else Target(sl.nodes, p)
      decreases rangelen - |out|
    {
      Neighbours(sl, p);
      CollectOne(sl.keys, r1, |out|, reverse);
      out := out + [node.obj.bytes];
      node := if reverse then node.backward else node.forward[0];
      p := if reverse then p - 1 else p + 1;
    }
    if 1 <= r1 <= |sl.keys| {
      ghost var n := Max(rangelen, 0);
      if node == null && |out| < n {
        CollectAll(sl.keys, r1, |out|, n, reverse);
      }
      AskedTruncated(sl.keys, r1, r2);
    } else {
      NotStarted(sl.keys, r1, r2);
    }
  }

  function Max(a: int, b: int): int {
    if a < b then b else a
  }

  lemma {:induction false} NotStarted(keys: seq<Key>, r1: nat, r2: nat)
    requires !(1 <= r1 <= |keys|)
    ensures [] == Members(Asked(keys, r1, r2)) <==> Starts(|keys|, r1, r2)
    ensures Starts(|keys|, r1, r2) ==> Asked(keys, r1, r2) == []
  {
    assert |Members(Asked(keys, r1, r2))| == |Asked(keys, r1, r2)|;
    hide Members;
  }

  lemma {:induction false} CollectedIs(keys: seq<Key>, r1: nat, r2: nat)
    requires 1 <= r1 <= |keys|
    ensures Collected(keys, r1, RangeLength(r1, r2), r1 > r2) == Asked(keys, r1, r2)
  {
  }

  lemma {:induction false} CollectedFewer(keys: seq<Key>, r: nat, n: nat, m: nat, reverse: bool)
    requires 1 <= r <= |keys| && n <= m
    ensures Collected(keys, r, n, reverse) <= Collected(keys, r, m, reverse)
    ensures |Collected(keys, r, n, reverse)| <= n
    ensures n < m ==> |Collected(keys, r, n, reverse)| == n || Collected(keys, r, n, reverse) == Collected(keys, r, m, reverse)
  {
    hide Backwards;
    if reverse {
      BackwardsFewer(keys, if n <= r then r - n else 0, if m <= r then r - m else 0, r);
    }
  }

  lemma {:induction false} BackwardsFewer(keys: seq<Key>, i: nat, j: nat, r: nat)
    requires j <= i <= r <= |keys|
    ensures Backwards(keys[i..r]) <= Backwards(keys[j..r]) && |Backwards(keys[i..r])| == r - i
  {
    hide Backwards;
    assert Backwards(keys[j..r])[..r - i] == Backwards(keys[i..r]);
  }

  lemma {:induction false} AskedTruncated(keys: seq<Key>, r1: nat, r2: nat)
    requires 1 <= r1 <= |keys|
    ensures var n: nat := Max(Truncated(RangeLength(r1, r2)), 0); var out := Members(Collected(keys, r1, n, r1 > r2));
            out <= Members(Asked(keys, r1, r2)) && (out == Members(Asked(keys, r1, r2)) <==> |Asked(keys, r1, r2)| <= n)
  {
    hide Collected, Asked, Truncated;
    var len := RangeLength(r1, r2);
    var n: nat := Max(Truncated(len), 0);
    CollectedIs(keys, r1, r2);
    CollectedFewer(keys, r1, n, len, r1 > r2);
  }

  /** A range that is not longer than an int can tell is handed out as a whole. */
  lemma {:induction false} ShortRange(keys: seq<Key>, r1: nat, r2: nat)
    requires RangeLength(r1, r2) < 0x8000_0000
    ensures |Asked(keys, r1, r2)| <= Max(Truncated(RangeLength(r1, r2)), 0)
  {
  }

  /** One that is longer may be handed out as nothing. */
  lemma {:induction false} LongRange(k: Key)
    ensures |Asked([k], 1, 0x8000_0000)| > Max(Truncated(RangeLength(1, 0x8000_0000)), 0)
  {
  }

  /** Ranks 10 to 1 of five elements are not handed out, although five of them exist, nor are ranks 0 to 3. */
  lemma {:induction false} StartOutside(keys: seq<Key>)
    requires |keys| == 5
    ensures Asked(keys, 10, 1) == Backwards(keys) && Asked(keys, 0, 3) == keys[..3]
    ensures !Starts(|keys|, 10, 1) && !Starts(|keys|, 0, 3)
  {
    assert keys[0..5] == keys;
  }

  // An element in order, forward or backward.
  lemma {:induction false} OneMore(keys: seq<Key>, lo: nat, p: nat, hi: nat)
    requires lo < p <= hi <= |keys|
    ensures Members(keys[lo..p - 1]) + [keys[p - 1].member] == Members(keys[lo..p])
    ensures Members(Backwards(keys[p..hi])) + [keys[p - 1].member] == Members(Backwards(keys[p - 1..hi]))
  {
  }

  lemma {:induction false} NoMembers(keys: seq<Key>, p: nat)
    requires p <= |keys|
    ensures Members(keys[p..p]) == [] && Members(Backwards(keys[p..p])) == [] && Members([]) == [] && Backwards([]) == []
  {
  }

  // A node is in the range up to, or down to, its other end.
  lemma {:induction false} InRange(keys: seq<Key>, min: real, max: real, lo: nat, hi: nat, p: nat)
    requires BelowScore(keys, min, lo) && UpToScore(keys, max, hi) && 0 < p <= |keys|
    ensures keys[p - 1].score > max <==> p > hi
    ensures keys[p - 1].score < min <==> p <= lo
  {
  }

  lemma {:induction false} SameBelow(keys: seq<Key>, min: real, a: nat, b: nat)
    requires BelowScore(keys, min, a) && BelowScore(keys, min, b)
    ensures a == b
  {
    assert a < |keys| ==> keys[a].score >= min;
    assert b < |keys| ==> keys[b].score >= min;
  }

  lemma {:induction false} SameUpTo(keys: seq<Key>, max: real, a: nat, b: nat)
    requires UpToScore(keys, max, a) && UpToScore(keys, max, b)
    ensures a == b
  {
    assert a < |keys| ==> keys[a].score > max;
    assert b < |keys| ==> keys[b].score > max;
  }

  // What the loop of _get_score_range has collected when it stands at node `p`.
  ghost predicate CollectedTo(sl: List, reverse: bool, lo: nat, hi: nat, node: Node?, p: nat, out: seq<seq<nat>>)
    reads sl
  {
    && 0 < p < |sl.nodes| == |sl.keys| + 1 && hi <= |sl.keys| && node == sl.nodes[p]
    && if reverse then lo <= p <= hi && out == Members(Backwards(sl.keys[p..hi])) else lo < p <= hi + 1 && out == Members(sl.keys[lo..p - 1])
  }

  // One turn of the loop.
  lemma {:induction false} CollectNext(sl: List, min: real, max: real, lo: nat, hi: nat, reverse: bool, node: Node, p: nat, out: seq<seq<nat>>)
    requires sl.Linked() && BelowScore(sl.keys, min, lo) && UpToScore(sl.keys, max, hi) && lo <= hi
    requires CollectedTo(sl, reverse, lo, hi, node, p, out)
    ensures node.obj.Obj? && |node.forward| > 0
    ensures var out1 := out + [node.obj.bytes];
            var node1 := if reverse then node.backward else node.forward[0];
            (if reverse then node.score >= min else node.score <= max) ==>
              if node1 == null then out1 == Members(if reverse then Backwards(sl.keys[lo..hi]) else sl.keys[lo..hi])
              else CollectedTo(sl, reverse, lo, hi, node1, if reverse then p - 1 else p + 1, out1)
    ensures (if reverse then node.score < min else node.score > max) ==>
              out == Members(if reverse then Backwards(sl.keys[lo..hi]) else sl.keys[lo..hi])
  {
    hide Sorted, Elements, Members, Backwards, BelowScore, UpToScore, Distinct, NodeOk, Next, Heights, Mirrored;
    Neighbours(sl, p);
    InRange(sl.keys, min, max, lo, hi, p);
    if lo < p <= hi {
      OneMore(sl.keys, lo, p, hi);
    }
  }

  /** _get_score_range: the members whose scores lie between the two, rising from `s1` or falling from it. */
  method GetScoreRange(sl: List, s1: real, s2: real) returns (out: seq<seq<nat>>)
    requires sl.Valid()
    ensures out == Members(if s1 <= s2 then InScore(sl.keys, s1, s2) else Backwards(InScore(sl.keys, s2, s1)))
  {
    hide Sorted, NodeOk, Heights, Distinct, Mirrored, Used, Next, Elements, Members, Backwards, InScore, BelowScore, UpToScore, Touches;
    ListParts(sl);
    var reverse := s1 > s2;
    ghost var min, max := if reverse then s2 else s1, if reverse then s1 else s2;
    ghost var lo, hi := ScoreBounds(sl.keys, min, max);
    ScorePos(sl.keys, max, true, hi);
    InScoreSlice(sl.keys, min, max, lo, hi);
    var node: Node?;
    ghost var at, p: nat;
    if reverse {
      node, at := SlLastInRange(sl, s2, s1);
      SameUpTo(sl.keys, max, hi, at);
      p := hi;
    } else {
      node, at := SlFirstInRange(sl, s1, s2);
      SameBelow(sl.keys, min, lo, at);
      p := lo + 1;
    }
    out := [];
    NoMembers(sl.keys, lo);
    NoMembers(sl.keys, hi);
    if node == null {
      Untouching(sl.keys, min, max);
    }
    while node != null
      invariant if node == null then out == Members(if reverse then Backwards(sl.keys[lo..hi]) else sl.keys[lo..hi])
                else CollectedTo(sl, reverse, lo, hi, node, p, out)
      decreases if node == null then 0 else if reverse then p else |sl.nodes| - p
    {
      CollectNext(sl, min, max, lo, hi, reverse, node, p, out);
      if if reverse then node.score < s2 else node.score > s2 {
        break;
      }
      out := out + [node.obj.bytes];
      node := if reverse then node.backward else node.forward[0];
      p := if reverse then p - 1 else p + 1;
    }
  }
}
