/** The code space cut into blocks of codes that share their first `root` bits.

Codes longer than `root` bits are kept in sub-tables, one for each block, and
the sub-table of a block needs as many index bits as its longest code has left. */
module CodeBlocks {
  import opened Bits
  import opened Canonical
  import opened CodeOrder

  // The block a symbol lies in: the first `root` digits of its position.
  function Block(lens: seq<nat>, root: nat, s: nat): (p: nat)
    requires LensOk(lens) && s < |lens| && root <= MAX_BITS
  {
    Shr(Pos(lens, s), MAX_BITS - root)
  }

  lemma {:induction false} BlockPrefix(lens: seq<nat>, root: nat, s: nat)
    requires Fits(lens) && s < |lens| && root <= lens[s] && lens[s] > 0
    ensures Block(lens, root, s) < Pow2(root)
    ensures CodeBits(lens, s)[..root] == Msb(Block(lens, root, s), root)
  {
    PosKraft(lens, s);
    hide Msb, MsbNum, Pow2, Pos, Kraft, CodeBits;
    var x := Pos(lens, s);
    var b := Msb(x, MAX_BITS);
    WidthPositive(lens[s]);
    MsbNumMsb(x, MAX_BITS);
    PrefixIffInterval(lens, s, b);
    MsbPrefix(b, root, MAX_BITS - root);
    assert CodeBits(lens, s)[..root] == b[..root];
  }

  lemma {:induction false} WidthPositive(l: nat)
    requires 0 < l <= MAX_BITS
    ensures Width(l) > 0
  {
  }

  // Two long codes start with the same `root` bits exactly when they lie in the same block.
  lemma {:induction false} SameBlock(lens: seq<nat>, root: nat, s: nat, t: nat)
    requires Fits(lens) && s < |lens| && t < |lens| && root <= lens[s] && root <= lens[t]
    requires lens[s] > 0 && lens[t] > 0
    ensures Block(lens, root, s) == Block(lens, root, t) <==>
            CodeBits(lens, s)[..root] == CodeBits(lens, t)[..root]
  {
    BlockPrefix(lens, root, s);
    BlockPrefix(lens, root, t);
    MsbNumMsb(Block(lens, root, s), root);
    MsbNumMsb(Block(lens, root, t), root);
  }

  lemma {:induction false} ShrMono(x: nat, y: nat, n: nat)
    requires x <= y
    ensures Shr(x, n) <= Shr(y, n)
  {
    if Shr(x, n) > Shr(y, n) {
      MulStep(Shr(y, n), Shr(x, n), Pow2(n));
    }
  }

  // Positions grow along the sorted list.
  lemma {:induction false} PosGrows(lens: seq<nat>, j: nat, k: nat)
    requires LensOk(lens) && j <= k < |SortedSyms(lens)|
    ensures SortedSyms(lens)[j] < |lens| && SortedSyms(lens)[k] < |lens|
    ensures Pos(lens, SortedSyms(lens)[j]) <= Pos(lens, SortedSyms(lens)[k])
    ensures lens[SortedSyms(lens)[j]] <= lens[SortedSyms(lens)[k]]
  {
    SymsUpToLists(lens, MAX_BITS);
    if j < k {
      PosGrows(lens, j, k - 1);
      PosNext(lens, k - 1);
    }
  }

  // Along the sorted list blocks are visited in increasing order.
  lemma {:induction false} BlockGrows(lens: seq<nat>, root: nat, j: nat, k: nat)
    requires LensOk(lens) && root <= MAX_BITS && j <= k < |SortedSyms(lens)|
    ensures SortedSyms(lens)[j] < |lens| && SortedSyms(lens)[k] < |lens|
    ensures Block(lens, root, SortedSyms(lens)[j]) <= Block(lens, root, SortedSyms(lens)[k])
  {
    PosGrows(lens, j, k);
    ShrMono(Pos(lens, SortedSyms(lens)[j]), Pos(lens, SortedSyms(lens)[k]), MAX_BITS - root);
  }

  lemma {:induction false} BeforeLast(lens: seq<nat>, l: nat)
    requires LensOk(lens) && 0 < l <= MAX_BITS && lens != []
    ensures Before(lens, l + 1, 0) - Before(lens, l, 0) ==
            Before(lens[..|lens| - 1], l + 1, 0) - Before(lens[..|lens| - 1], l, 0) +
            if lens[|lens| - 1] == l then Pow2(MAX_BITS - l) else 0
  {
    hide Pow2;
  }

  lemma {:induction false} BeforeEmpty(lens: seq<nat>, l: nat)
    requires lens == []
    ensures Before(lens, l, 0) == 0
  {
  }

  lemma {:induction false} BeforeLevel(lens: seq<nat>, l: nat)
    requires LensOk(lens) && 0 < l <= MAX_BITS
    ensures Before(lens, l + 1, 0) == Before(lens, l, 0) + Count(lens, l) * Pow2(MAX_BITS - l)
  {
    hide Pow2, Before;
    if lens == [] {
      BeforeEmpty(lens, l);
      BeforeEmpty(lens, l + 1);
    } else {
      var t := |lens| - 1;
      BeforeLevel(lens[..t], l);
      BeforeLast(lens, l);
      if lens[t] == l {
        OneMore(Pow2(MAX_BITS - l), Count(lens[..t], l));
      }
    }
  }

  // What is left of the symbols of length `l` from the k-th symbol on ends where length l + 1 begins.
  lemma {:induction false} SegmentEnd(lens: seq<nat>, l: nat, k: nat)
    requires LensOk(lens) && 0 < l <= MAX_BITS
    requires |SymsUpTo(lens, l - 1)| <= k < |SymsUpTo(lens, l)| <= |SortedSyms(lens)|
    ensures SortedSyms(lens)[k] < |lens| && lens[SortedSyms(lens)[k]] == l
    ensures Before(lens, l + 1, 0) ==
            Pos(lens, SortedSyms(lens)[k]) + (|SymsUpTo(lens, l)| - k) * Pow2(MAX_BITS - l)
    decreases |SymsUpTo(lens, l)| - k
  {
    var w := SortedSyms(lens);
    SymsUpToLists(lens, MAX_BITS);
    LengthSegment(lens, l, k);
    var s := w[k];
    if k + 1 < |SymsUpTo(lens, l)| {
      SegmentEnd(lens, l, k + 1);
      PosNext(lens, k);
      var m := |SymsUpTo(lens, l)| - (k + 1);
      assert (m + 1) * Pow2(MAX_BITS - l) == m * Pow2(MAX_BITS - l) + Pow2(MAX_BITS - l);
    } else {
      forall t | 0 <= t < |lens| && t != s && lens[t] > 0 && Precedes(lens[t], t, l + 1, 0)
        ensures Precedes(lens[t], t, l, s)
      {
        assert t in w;
        var i :| 0 <= i < |w| && w[i] == t;
        ListedLen(lens, l, i);
        ListsInjective(lens, MAX_BITS, w, i, k);
      }
      BeforeNext(lens, l, s, l + 1, 0);
    }
  }

  // The first symbol of length `l` starts where the shorter codes end.
  lemma {:induction false} FirstOfLength(lens: seq<nat>, l: nat) returns (s: nat)
    requires LensOk(lens) && 0 < l <= MAX_BITS && Count(lens, l) > 0
    ensures s < |lens| && lens[s] == l && Pos(lens, s) == Before(lens, l, 0)
  {
    var k := |SymsUpTo(lens, l - 1)|;
    SymsUpToPrefix(lens, l, MAX_BITS);
    assert |SymsUpTo(lens, l)| == k + Count(lens, l);
    SegmentEnd(lens, l, k);
    BeforeLevel(lens, l);
    s := SortedSyms(lens)[k];
  }

  // When a long code is the first one in its block, it starts the block.
  lemma {:induction false} BlockStart(lens: seq<nat>, root: nat, k: nat)
    requires LensOk(lens) && root <= MAX_BITS && k + 1 < |SortedSyms(lens)|
    requires SortedSyms(lens)[k] < |lens| && SortedSyms(lens)[k + 1] < |lens|
    requires lens[SortedSyms(lens)[k]] > 0
    requires lens[SortedSyms(lens)[k]] <= root ||
             Block(lens, root, SortedSyms(lens)[k]) != Block(lens, root, SortedSyms(lens)[k + 1])
    ensures Pos(lens, SortedSyms(lens)[k + 1]) ==
            Pow2(MAX_BITS - root) * Block(lens, root, SortedSyms(lens)[k + 1])
  {
    hide *;
    var s, t := SortedSyms(lens)[k], SortedSyms(lens)[k + 1];
    var l := lens[s];
    var c := CodeOf(lens, s);
    PosSuccessor(lens, k);
    if l <= root {
      CoarseUnits(c + 1, l, root);
      assert Pos(lens, t) == Pow2(MAX_BITS - root) * Shr(Pos(lens, t), MAX_BITS - root);
    } else {
      FineUnits(c, l, root);
    }
    IsBlock(lens, root, s);
    IsBlock(lens, root, t);
  }

  lemma {:induction false} IsBlock(lens: seq<nat>, root: nat, s: nat)
    requires LensOk(lens) && s < |lens| && root <= MAX_BITS
    ensures Block(lens, root, s) == Shr(Pos(lens, s), MAX_BITS - root)
  {
  }

  // A code and the one after it, as multiples of the width of the first.
  lemma {:induction false} PosSuccessor(lens: seq<nat>, k: nat)
    requires LensOk(lens) && k + 1 < |SortedSyms(lens)|
    requires SortedSyms(lens)[k] < |lens| && SortedSyms(lens)[k + 1] < |lens|
    requires lens[SortedSyms(lens)[k]] > 0
    ensures lens[SortedSyms(lens)[k]] <= MAX_BITS
    ensures Pos(lens, SortedSyms(lens)[k]) ==
            Pow2(MAX_BITS - lens[SortedSyms(lens)[k]]) * CodeOf(lens, SortedSyms(lens)[k])
    ensures Pos(lens, SortedSyms(lens)[k + 1]) ==
            Pow2(MAX_BITS - lens[SortedSyms(lens)[k]]) * (CodeOf(lens, SortedSyms(lens)[k]) + 1)
  {
    hide SortedSyms, Pow2, CodeOf;
    var s := SortedSyms(lens)[k];
    PosNext(lens, k);
    PosOfCode(lens, s);
    OneMore(Pow2(MAX_BITS - lens[s]), CodeOf(lens, s));
  }

  lemma {:induction false} OneMore(v: nat, c: nat)
    ensures v * (c + 1) == v * c + v
  {
  }

  lemma {:induction false} CoarseUnits(c: nat, l: nat, root: nat)
    requires l <= root <= MAX_BITS
    ensures Pow2(MAX_BITS - l) * c == Pow2(MAX_BITS - root) * Shr(Pow2(MAX_BITS - l) * c, MAX_BITS - root)
  {
    hide Pow2, Shr, Low;
    Pow2Add(MAX_BITS - root, root - l);
    MulAssoc(Pow2(MAX_BITS - root), Pow2(root - l), c);
    ShrLowUnique(Pow2(MAX_BITS - l) * c, MAX_BITS - root, 0, Pow2(root - l) * c);
  }

  lemma {:induction false} FineUnits(c: nat, l: nat, root: nat)
    requires root < l <= MAX_BITS
    ensures Shr(Pow2(MAX_BITS - l) * (c + 1), MAX_BITS - root) == Shr(Pow2(MAX_BITS - l) * c, MAX_BITS - root) ||
            Pow2(MAX_BITS - l) * (c + 1) ==
            Pow2(MAX_BITS - root) * Shr(Pow2(MAX_BITS - l) * (c + 1), MAX_BITS - root)
  {
    Pow2Add(MAX_BITS - l, l - root);
    NextBlock(Pow2(MAX_BITS - l), Pow2(l - root), c, MAX_BITS - root);
  }

  lemma {:induction false} Divide(x: nat, f: nat) returns (q: nat, r: nat)
    requires f > 0
    ensures x == f * q + r && r < f
  {
    DivBounds(x, f);
    q, r := x / f, x - f * (x / f);
  }

  lemma {:induction false} NextBlock(v: nat, f: nat, c: nat, n: nat)
    requires v > 0 && f > 0 && v * f == Pow2(n)
    ensures Shr(v * (c + 1), n) == Shr(v * c, n) || v * (c + 1) == Pow2(n) * Shr(v * (c + 1), n)
  {
    var q, r := Divide(c + 1, f);
    Regroup(v, f, q, r);
    MulMono(v, r + 1, f);
    assert v * (r + 1) == v * r + v;
    ShrLowUnique(v * (c + 1), n, v * r, q);
    if r > 0 {
      assert v * (c + 1) == v * c + v;
      MulMono(v, 1, r);
      ShrLowUnique(v * c, n, v * r - v, q);
    }
  }

  lemma {:induction false} Regroup(v: nat, f: nat, q: nat, r: nat)
    ensures v * (f * q + r) == v * f * q + v * r
  {
    MulAssoc(v, f, q);
    assert v * (f * q + r) == v * (f * q) + v * r;
  }

  // The index bits the sub-table of block `p` needs, zero when no code there is longer than `root`.
  function SubBits(lens: seq<nat>, root: nat, p: nat, n: nat): (b: nat)
    requires LensOk(lens) && root <= MAX_BITS && n <= |lens|
    ensures b <= MAX_BITS - root
  {
    if n == 0 then 0
    else
      var b := SubBits(lens, root, p, n - 1);
      var l := lens[n - 1];
      if l > root + b && Block(lens, root, n - 1) == p then l - root else b
  }

  lemma {:induction false} SubBitsBound(lens: seq<nat>, root: nat, p: nat, n: nat, t: nat)
    requires LensOk(lens) && root <= MAX_BITS && t < n <= |lens|
    requires lens[t] > root && Block(lens, root, t) == p
    ensures lens[t] <= root + SubBits(lens, root, p, n)
  {
    if t < n - 1 {
      SubBitsBound(lens, root, p, n - 1, t);
    }
  }

  lemma {:induction false} SubBitsAttained(lens: seq<nat>, root: nat, p: nat, n: nat) returns (t: nat)
    requires LensOk(lens) && root <= MAX_BITS && n <= |lens|
    requires SubBits(lens, root, p, n) > 0
    ensures t < n && lens[t] == root + SubBits(lens, root, p, n) && Block(lens, root, t) == p
  {
    t := n - 1;
    if SubBits(lens, root, p, n) == SubBits(lens, root, p, n - 1) {
      t := SubBitsAttained(lens, root, p, n - 1);
    }
  }

  // The room of the sub-tables of the first `n` blocks.
  function SubRoom(lens: seq<nat>, root: nat, n: nat): nat
    requires LensOk(lens) && root <= MAX_BITS
  {
    if n == 0 then 0
    else
      var b := SubBits(lens, root, n - 1, |lens|);
      SubRoom(lens, root, n - 1) + (if b == 0 then 0 else Pow2(b))
  }

  // How many entries a decoding table with `root` root bits has.
  function TableSize(lens: seq<nat>, root: nat): nat
    requires LensOk(lens) && root <= MAX_BITS
  {
    Pow2(root) + SubRoom(lens, root, Pow2(root))
  }

  lemma {:induction false} SubRoomSame(lens: seq<nat>, root: nat, a: nat, b: nat)
    requires LensOk(lens) && root <= MAX_BITS && a <= b
    requires forall p :: a <= p < b ==> SubBits(lens, root, p, |lens|) == 0
    ensures SubRoom(lens, root, a) == SubRoom(lens, root, b)
  {
    if a < b {
      SubRoomSame(lens, root, a, b - 1);
      assert SubBits(lens, root, b - 1, |lens|) == 0;
    }
  }

  lemma {:induction false} SubRoomMono(lens: seq<nat>, root: nat, a: nat, b: nat)
    requires LensOk(lens) && root <= MAX_BITS && a <= b
    ensures SubRoom(lens, root, a) <= SubRoom(lens, root, b)
  {
    if a < b {
      SubRoomMono(lens, root, a, b - 1);
    }
  }
}
