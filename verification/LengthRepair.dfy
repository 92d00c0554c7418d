/** Bringing overlong codes within the limit (the second part of gen_bitlen in trees.c). */
module LengthRepair {
  import opened Bits

  // The room of `c[b]` codes of each length b from 1 to `n`, of 2^max.
  function CountsRoom(c: seq<nat>, n: nat, max: nat): nat
    requires n <= max < |c|
  {
    if n == 0 then 0 else CountsRoom(c, n - 1, max) + c[n] * Pow2(max - n)
  }

  function CountsSum(c: seq<nat>, n: nat): nat
    requires n < |c|
  {
    if n == 0 then 0 else CountsSum(c, n - 1) + c[n]
  }

  lemma {:induction false} RoomOfChange(c: seq<nat>, n: nat, max: nat, i: nat, v: nat)
    requires n <= max < |c| && 1 <= i < |c|
    ensures CountsRoom(c[i := v], n, max) + (if i <= n then c[i] * Pow2(max - i) else 0) ==
            CountsRoom(c, n, max) + if i <= n then v * Pow2(max - i) else 0
    ensures CountsSum(c[i := v], n) + (if i <= n then c[i] else 0) == CountsSum(c, n) + if i <= n then v else 0
  {
    if n > 0 {
      RoomOfChange(c, n - 1, max, i, v);
    }
  }

  // When no code is shorter than `max`, each takes one.
  lemma {:induction false} OnlyLongest(c: seq<nat>, max: nat)
    requires 0 < max < |c| && forall b :: 1 <= b < max ==> c[b] == 0
    ensures CountsRoom(c, max, max) == CountsSum(c, max) == c[max]
  {
    NoShorter(c, max - 1, max);
    assert Pow2(0) == 1;
  }

  lemma {:induction false} NoShorter(c: seq<nat>, n: nat, max: nat)
    requires n < max < |c| && forall b :: 1 <= b <= n ==> c[b] == 0
    ensures CountsRoom(c, n, max) == CountsSum(c, n) == 0
  {
    if n > 0 {
      NoShorter(c, n - 1, max);
    }
  }

  /** `c` counts `leaves` codes that take `over` too much, and enough of them have length `max`. */
  ghost predicate Overfull(c: seq<nat>, max: nat, leaves: nat, over: nat) {
    && 0 < max < |c| && c[0] == 0
    && CountsRoom(c, max, max) == Pow2(max) + over
    && CountsSum(c, max) == leaves <= Pow2(max)
    && (over > 0 ==> c[max] > over)
  }

  // There is a leaf to move down.
  lemma {:induction false} ShorterLeaf(c: seq<nat>, max: nat, leaves: nat, over: nat)
    requires Overfull(c, max, leaves, over) && over > 0
    ensures !forall b :: 1 <= b < max ==> c[b] == 0
  {
    if forall b :: 1 <= b < max ==> c[b] == 0 {
      OnlyLongest(c, max);
    }
  }

  // A leaf of length `b` moves down and takes an overflowing one as its brother.
  function MovedDown(c: seq<nat>, b: nat, max: nat): (r: seq<nat>)
    requires 1 <= b < max < |c| && c[b] > 0 && c[max] > 0
  {
    var c1 := c[b := c[b] - 1];
    var c2 := c1[b + 1 := c1[b + 1] + 2];
    c2[max := c2[max] - 1]
  }

  lemma {:induction false} MoveDown(c: seq<nat>, b: nat, max: nat, leaves: nat, over: nat)
    requires Overfull(c, max, leaves, over) && over > 0 && 1 <= b < max && c[b] > 0
    ensures Overfull(MovedDown(c, b, max), max, leaves, over - 1)
  {
    hide CountsRoom, CountsSum;
    var c1 := c[b := c[b] - 1];
    var c2 := c1[b + 1 := c1[b + 1] + 2];
    RoomOfChange(c, max, max, b, c[b] - 1);
    RoomOfChange(c1, max, max, b + 1, c1[b + 1] + 2);
    RoomOfChange(c2, max, max, max, c2[max] - 1);
    assert Pow2(0) == 1 && Pow2(max - b) == 2 * Pow2(max - (b + 1));
    hide Pow2;
    OneLess(c[b], Pow2(max - b));
    TwoMore(c1[b + 1], Pow2(max - (b + 1)));
  }

  lemma {:induction false} OneLess(a: nat, u: nat)
    requires a > 0
    ensures (a - 1) * u + u == a * u
  {
  }

  lemma {:induction false} TwoMore(a: nat, u: nat)
    ensures (a + 2) * u == a * u + 2 * u
  {
  }

  // How many more codes the leaves longer than `j`, up to `n`, can take in.
  function SpareUpTo(c: seq<nat>, j: nat, n: nat, max: nat): (r: nat)
    requires n <= max < |c|
  {
    if n <= j then 0 else SpareUpTo(c, j, n - 1, max) + c[n] * (Pow2(max - n) - 1)
  }

  /** How many overlong codes the leaves longer than `j` can take in: one of length b makes room for a tree of 2^(max - b)
      codes of length `max`. */
  function Spare(c: seq<nat>, j: nat, max: nat): nat
    requires 0 < max < |c|
  {
    SpareUpTo(c, j, max - 1, max)
  }

  // What all leaves up to `n` can take in.
  function Slack(c: seq<nat>, n: nat, max: nat): int
    requires n <= max < |c|
  {
    CountsRoom(c, n, max) - CountsSum(c, n)
  }

  lemma {:induction false} SpareIs(c: seq<nat>, j: nat, n: nat, max: nat)
    requires j <= n <= max < |c|
    ensures SpareUpTo(c, j, n, max) == Slack(c, n, max) - Slack(c, j, max)
  {
    if j < n {
      SpareIs(c, j, n - 1, max);
      OneLessTimes(c[n], Pow2(max - n));
    }
  }

  lemma {:induction false} OneLessTimes(a: nat, u: nat)
    ensures a * (u - 1) == a * u - a
  {
  }

  // Leaves longer than `j` can take something in, if there are any.
  lemma {:induction false} SpareNone(c: seq<nat>, j: nat, n: nat, max: nat)
    requires n < max < |c|
    ensures SpareUpTo(c, j, n, max) == 0 <==> forall b :: j < b <= n ==> c[b] == 0
  {
    if n > j {
      SpareNone(c, j, n - 1, max);
      Pow2Mono(1, max - n);
      Positive(c[n], Pow2(max - n) - 1);
    }
  }

  lemma {:induction false} Positive(a: nat, u: nat)
    requires u > 0
    ensures a * u == 0 <==> a == 0
  {
  }

  lemma {:induction false} SlackOfMove(c: seq<nat>, b: nat, max: nat, j: nat)
    requires 1 <= b < max < |c| && c[b] > 0 && c[max] > 0 && j < max
    ensures var c1 := MovedDown(c, b, max);
            if b <= j then Slack(c1, j, max) < Slack(c, j, max) else c1[..j + 1] == c[..j + 1] && Slack(c1, j, max) == Slack(c, j, max)
  {
    hide CountsRoom, CountsSum;
    var c1 := c[b := c[b] - 1];
    var c2 := c1[b + 1 := c1[b + 1] + 2];
    RoomOfChange(c, j, max, b, c[b] - 1);
    RoomOfChange(c1, j, max, b + 1, c1[b + 1] + 2);
    RoomOfChange(c2, j, max, max, c2[max] - 1);
    Pow2Mono(1, max - b);
    assert Pow2(max - b) == 2 * Pow2(max - (b + 1));
    hide Pow2;
    OneLess(c[b], Pow2(max - b));
    TwoMore(c1[b + 1], Pow2(max - (b + 1)));
  }

  // After `m` moves: the lengths up to `j` are as before if the longer leaves can take in that much, and only then.
  ghost predicate Kept(c0: seq<nat>, c: seq<nat>, m: nat, max: nat, j: nat)
    requires j < max < |c0| && |c| == |c0|
  {
    if m <= Spare(c0, j, max) then c[..j + 1] == c0[..j + 1] else Slack(c, j, max) < Slack(c0, j, max)
  }

  ghost predicate AllKept(c0: seq<nat>, c: seq<nat>, m: nat, max: nat)
    requires max < |c0| && |c| == |c0|
  {
    forall j :: 0 <= j < max ==> Kept(c0, c, m, max, j)
  }

  lemma {:induction false} SlackSame(c0: seq<nat>, c: seq<nat>, j: nat, max: nat)
    requires j <= max < |c0| && |c| == |c0| && c[..j + 1] == c0[..j + 1]
    ensures Slack(c, j, max) == Slack(c0, j, max)
  {
    if j > 0 {
      assert c[..j] == c[..j + 1][..j] && c0[..j] == c0[..j + 1][..j] && c[j] == c[..j + 1][j] && c0[j] == c0[..j + 1][j];
      SlackSame(c0, c, j - 1, max);
    }
  }

  // All leaves together.
  lemma {:induction false} SlackTotal(c: seq<nat>, max: nat, leaves: nat, over: nat)
    requires Overfull(c, max, leaves, over)
    ensures Slack(c, max - 1, max) == Pow2(max) + over - leaves
  {
    assert Pow2(0) == 1;
  }

  lemma {:induction false} MoveKeeps(c0: seq<nat>, c: seq<nat>, b: nat, max: nat, leaves: nat, over0: nat, over: nat, j: nat)
    requires Overfull(c0, max, leaves, over0) && Overfull(c, max, leaves, over) && 0 < over <= over0 && |c| == |c0|
    requires 1 <= b < max && c[b] > 0 && (forall i :: b < i < max ==> c[i] == 0) && j < max
    requires Kept(c0, c, over0 - over, max, j)
    ensures c[max] > 0 && Kept(c0, MovedDown(c, b, max), over0 - over + 1, max, j)
  {
    OverfullMax(c, max, leaves, over);
    SlackOfMove(c, b, max, j);
    SlackTotal(c0, max, leaves, over0);
    SlackTotal(c, max, leaves, over);
    SpareIs(c0, j, max - 1, max);
    SpareIs(c, j, max - 1, max);
    SpareNone(c, j, max - 1, max);
    hide Slack, Spare, Overfull, MovedDown;
    if over0 - over <= Spare(c0, j, max) {
      SlackSame(c0, c, j, max);
    }
  }

  lemma {:induction false} MoveKeepsAll(c0: seq<nat>, c: seq<nat>, b: nat, max: nat, leaves: nat, over0: nat, over: nat)
    requires Overfull(c0, max, leaves, over0) && Overfull(c, max, leaves, over) && 0 < over <= over0 && |c| == |c0|
    requires 1 <= b < max && c[b] > 0 && forall i :: b < i < max ==> c[i] == 0
    requires AllKept(c0, c, over0 - over, max)
    ensures c[max] > 0 && AllKept(c0, MovedDown(c, b, max), over0 - over + 1, max)
  {
    OverfullMax(c, max, leaves, over);
    hide Overfull, Kept, MovedDown;
    var m: nat, d := over0 - over, MovedDown(c, b, max);
    var m1 := m + 1;
    forall j: nat | j < max
      ensures Kept(c0, d, m1, max, j)
    {
      MoveKeeps(c0, c, b, max, leaves, over0, over, j);
    }
  }

  lemma {:induction false} KeptAtFirst(c: seq<nat>, max: nat)
    requires max < |c|
    ensures AllKept(c, c, 0, max)
  {
  }

  lemma {:induction false} KeptIff(c0: seq<nat>, c: seq<nat>, m: nat, max: nat, j: nat)
    requires j < max < |c0| && |c| == |c0| && Kept(c0, c, m, max, j)
    ensures c[..j + 1] == c0[..j + 1] <==> m <= Spare(c0, j, max)
  {
    if c[..j + 1] == c0[..j + 1] {
      SlackSame(c0, c, j, max);
    }
  }

  /** Move leaves down until all codes fit; `overflow` nodes were cut to length `max`, and some leaf keeps that length. The
      codes up to a length stay as they are exactly if the leaves longer than that can take in the overlong ones. */
  method RepairCounts(bl_count: array<nat>, max: nat, overflow: int, ghost leaves: nat)
    requires overflow > 0 && overflow % 2 == 0 && max < bl_count.Length
    requires Overfull(bl_count[..], max, leaves, overflow / 2)
    modifies bl_count
    ensures Overfull(bl_count[..], max, leaves, 0) && bl_count[max] > 0
    ensures forall b :: max < b < bl_count.Length ==> bl_count[b] == old(bl_count[b])
    ensures forall j :: 0 <= j < max ==>
              (bl_count[..j + 1] == old(bl_count[..j + 1]) <==> overflow / 2 <= Spare(old(bl_count[..]), j, max))
  {
    ghost var c0 := bl_count[..];
    KeptAtFirst(c0, max);
    hide Overfull, AllKept;
    var left := overflow;
    while true
      invariant left > 0 && left % 2 == 0
      invariant Overfull(bl_count[..], max, leaves, left / 2) && left <= overflow
      invariant forall b :: max < b < bl_count.Length ==> bl_count[b] == old(bl_count[b])
      invariant AllKept(c0, bl_count[..], overflow / 2 - left / 2, max)
      decreases left
    {
      MoveOne(bl_count, max, leaves, left / 2, c0, overflow / 2);
      left := left - 2;
      if left <= 0 {
        break;
      }
    }
    AllKeptIff(c0, bl_count[..], overflow / 2, max);
  }

  lemma {:induction false} AllKeptIff(c0: seq<nat>, c: seq<nat>, m: nat, max: nat)
    requires max < |c0| && |c| == |c0| && AllKept(c0, c, m, max)
    ensures forall j :: 0 <= j < max ==> (c[..j + 1] == c0[..j + 1] <==> m <= Spare(c0, j, max))
  {
    hide Kept;
    forall j | 0 <= j < max
      ensures c[..j + 1] == c0[..j + 1] <==> m <= Spare(c0, j, max)
    {
      KeptIff(c0, c, m, max, j);
    }
  }

  /** Move down the longest leaf that is shorter than `max`. */
  method MoveOne(bl_count: array<nat>, max: nat, ghost leaves: nat, ghost over: nat, ghost c0: seq<nat>, ghost over0: nat)
    requires max < bl_count.Length && over > 0 && Overfull(bl_count[..], max, leaves, over)
    requires |c0| == bl_count.Length && over <= over0 && Overfull(c0, max, leaves, over0)
    requires AllKept(c0, bl_count[..], over0 - over, max)
    modifies bl_count
    ensures AllKept(c0, bl_count[..], over0 - over + 1, max)
    ensures Overfull(bl_count[..], max, leaves, over - 1) && bl_count[max] > over - 1
    ensures forall b :: max < b < bl_count.Length ==> bl_count[b] == old(bl_count[b])
  {
    ghost var c := bl_count[..];
    ShorterLeaf(c, max, leaves, over);
    OverfullMax(c, max, leaves, over);
    hide Overfull, AllKept;
    var bits: int := max - 1;
    while bl_count[bits] == 0
      invariant 1 <= bits < max && bl_count[..] == c
      invariant forall b :: bits < b < max ==> c[b] == 0
      decreases bits
    {
      bits := bits - 1;
    }
    MoveDown(c, bits, max, leaves, over);
    MoveKeepsAll(c0, c, bits, max, leaves, over0, over);
    bl_count[bits] := bl_count[bits] - 1;
    bl_count[bits + 1] := bl_count[bits + 1] + 2;
    bl_count[max] := bl_count[max] - 1;
    assert bl_count[..] == MovedDown(c, bits, max);
  }

  lemma {:induction false} OverfullMax(c: seq<nat>, max: nat, leaves: nat, over: nat)
    requires Overfull(c, max, leaves, over)
    ensures 0 < max < |c| && (over > 0 ==> c[max] > over)
  {
  }
}
