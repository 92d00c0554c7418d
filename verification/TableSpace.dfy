/** How many entries the decoding table of a complete code can need (ENOUGH_LENS and ENOUGH_DISTS in inftrees.h).

Codes are handed out by length, so that the codes of a block of sub-table `p` are never shorter than those before it.
Walking along them, the room of the sub-tables grows by no more than the number of codes and the growth of 2^l - l. */
module TableSpace {
  import opened Bits
  import opened Canonical
  import opened CodeOrder
  import opened CodeBlocks

  // Where the k-th code in code order starts, or all codes end.
  function StartOf(lens: seq<nat>, k: nat): nat
    requires LensOk(lens) && k <= |SortedSyms(lens)|
    requires k < |SortedSyms(lens)| ==> SortedSyms(lens)[k] < |lens|
  {
    if k < |SortedSyms(lens)| then Pos(lens, SortedSyms(lens)[k]) else Kraft(lens)
  }

  lemma {:induction false} Listed(lens: seq<nat>, k: nat)
    requires LensOk(lens) && k < |SortedSyms(lens)|
    ensures SortedSyms(lens)[k] < |lens| && 0 < lens[SortedSyms(lens)[k]] <= MAX_BITS
  {
    SymsUpToLists(lens, MAX_BITS);
  }

  // The length of the k-th code in code order.
  function LenOf(lens: seq<nat>, k: nat): (l: nat)
    requires LensOk(lens) && k < |SortedSyms(lens)|
    ensures 0 < l <= MAX_BITS
  {
    Listed(lens, k);
    lens[SortedSyms(lens)[k]]
  }

  // One code further.
  lemma {:induction false} StartNext(lens: seq<nat>, k: nat)
    requires LensOk(lens) && k < |SortedSyms(lens)|
    ensures SortedSyms(lens)[k] < |lens| && (k + 1 < |SortedSyms(lens)| ==> SortedSyms(lens)[k + 1] < |lens|)
    ensures StartOf(lens, k + 1) == StartOf(lens, k) + Pow2(MAX_BITS - LenOf(lens, k))
    ensures k + 1 < |SortedSyms(lens)| ==> LenOf(lens, k) <= LenOf(lens, k + 1)
  {
    hide SortedSyms, Pow2;
    Listed(lens, k);
    if k + 1 < |SortedSyms(lens)| {
      Listed(lens, k + 1);
      PosNext(lens, k);
    } else {
      PosLast(lens);
    }
  }

  lemma {:induction false} StartFirst(lens: seq<nat>)
    requires Complete(lens)
    ensures SortedSyms(lens) != [] && SortedSyms(lens)[0] < |lens| && StartOf(lens, 0) == 0
  {
    hide SortedSyms, Pow2;
    if SortedSyms(lens) == [] {
      KraftZero(lens);
    } else {
      PosFirst(lens);
    }
  }

  // A code starts, and ends, at a multiple of its width.
  lemma {:induction false} StartUnits(lens: seq<nat>, k: nat) returns (c: nat)
    requires LensOk(lens) && k < |SortedSyms(lens)|
    ensures SortedSyms(lens)[k] < |lens| && StartOf(lens, k) == Pow2(MAX_BITS - LenOf(lens, k)) * c
  {
    hide SortedSyms, Pow2, CodeOf;
    Listed(lens, k);
    var s := SortedSyms(lens)[k];
    PosOfCode(lens, s);
    c := CodeOf(lens, s);
  }

  lemma {:induction false} Growing(lens: seq<nat>, k: nat)
    requires LensOk(lens) && k < |SortedSyms(lens)|
    ensures SortedSyms(lens)[k] < |lens| && (k + 1 < |SortedSyms(lens)| ==> SortedSyms(lens)[k + 1] < |lens|)
    ensures StartOf(lens, k) < StartOf(lens, k + 1) <= Kraft(lens)
  {
    hide SortedSyms, Pow2;
    StartNext(lens, k);
    if k + 1 < |SortedSyms(lens)| {
      PosKraft(lens, SortedSyms(lens)[k + 1]);
    }
  }

  lemma {:induction false} MultipleLeft(u: nat, c: nat, m: nat)
    requires u * (c + 1) < u * m
    ensures u * m - u * (c + 1) >= u
  {
    MulCancel(u, c + 1, m);
    MulMono(u, c + 2, m);
    assert u * (c + 2) == u * (c + 1) + u;
  }

  lemma {:induction false} OneMoreUnit(u: nat, c: nat)
    ensures u * (c + 1) == u * c + u
  {
  }

  /** Room that `k` codes leave is no less than 2^-k of all, if there is any. */
  lemma {:induction false} LeftOver(lens: seq<nat>, k: nat)
    requires Complete(lens) && k <= |SortedSyms(lens)| && k <= MAX_BITS
    requires k < |SortedSyms(lens)| ==> SortedSyms(lens)[k] < |lens|
    requires StartOf(lens, k) < Pow2(MAX_BITS)
    ensures StartOf(lens, k) + Pow2(MAX_BITS - k) <= Pow2(MAX_BITS)
  {
    hide SortedSyms, Pow2, StartOf;
    if k == 0 {
      StartFirst(lens);
    } else {
      Listed(lens, k - 1);
      Growing(lens, k - 1);
      LeftOver(lens, k - 1);
      var l := LenOf(lens, k - 1);
      var c := StartUnits(lens, k - 1);
      StartNext(lens, k - 1);
      Pow2Add(MAX_BITS - l, l);
      OneMoreUnit(Pow2(MAX_BITS - l), c);
      MultipleLeft(Pow2(MAX_BITS - l), c, Pow2(l));
      if l <= k {
        Pow2Mono(MAX_BITS - k, MAX_BITS - l);
      } else {
        Pow2Mono(MAX_BITS - l, MAX_BITS - k);
        Pow2Strict(MAX_BITS - k, MAX_BITS - (k - 1));
      }
    }
  }

  // The codes of at most `root` bits come first.
  lemma {:induction false} LongFrom(lens: seq<nat>, root: nat, k: nat)
    requires LensOk(lens) && root <= MAX_BITS && k < |SortedSyms(lens)|
    ensures |SymsUpTo(lens, root)| <= k <==> LenOf(lens, k) > root
  {
    hide SortedSyms, SymsUpTo;
    ListedLen(lens, root, k);
  }

  lemma {:induction false} AtEnd(lens: seq<nat>)
    requires LensOk(lens)
    ensures StartOf(lens, |SortedSyms(lens)|) == Kraft(lens)
  {
  }

  // Long codes take half a block each, at most.
  lemma {:induction false} LongCodes(lens: seq<nat>, root: nat, k: nat, n: nat)
    requires LensOk(lens) && root < MAX_BITS && |SymsUpTo(lens, root)| <= k && k + n == |SortedSyms(lens)|
    requires k < |SortedSyms(lens)| ==> SortedSyms(lens)[k] < |lens|
    ensures Kraft(lens) <= StartOf(lens, k) + Pow2(MAX_BITS - root - 1) * n
    decreases n
  {
    hide SortedSyms, Pow2, SymsUpTo, StartOf, Kraft;
    if n > 0 {
      StartNext(lens, k);
      LongFrom(lens, root, k);
      LongCodes(lens, root, k + 1, n - 1);
      Pow2Mono(MAX_BITS - LenOf(lens, k), MAX_BITS - root - 1);
      OneMoreUnit(Pow2(MAX_BITS - root - 1), n - 1);
    } else {
      AtEnd(lens);
    }
  }

  lemma {:induction false} AtLeastCodes(u: nat, n: nat, v: nat)
    requires v * u <= u * n && u > 0
    ensures v <= n
  {
    if n < v {
      MulStep(n, v, u);
    }
  }

  /** If there are long codes, then more of them the fewer short ones there are. */
  lemma {:induction false} ManyLong(lens: seq<nat>, root: nat)
    requires Complete(lens) && root < MAX_BITS && |SymsUpTo(lens, root)| < |SortedSyms(lens)|
    ensures |SymsUpTo(lens, root)| <= root ==>
              |SortedSyms(lens)| - |SymsUpTo(lens, root)| >= 2 * Pow2(root - |SymsUpTo(lens, root)|)
  {
    hide SortedSyms, Pow2, SymsUpTo, StartOf;
    var t := |SymsUpTo(lens, root)|;
    if t <= root {
      Listed(lens, t);
      Growing(lens, t);
      LeftOver(lens, t);
      LongCodes(lens, root, t, |SortedSyms(lens)| - t);
      Pow2Add(root + 1 - t, MAX_BITS - root - 1);
      AtLeastCodes(Pow2(MAX_BITS - root - 1), |SortedSyms(lens)| - t, Pow2(root + 1 - t));
      assert Pow2(root + 1 - t) == 2 * Pow2(root - t) by { Doubled(root - t); }
    }
  }

  lemma {:induction false} Doubled(n: nat)
    ensures Pow2(n + 1) == 2 * Pow2(n)
  {
  }

  // The block of the k-th code.
  function BlockOf(lens: seq<nat>, root: nat, k: nat): nat
    requires LensOk(lens) && root <= MAX_BITS && k < |SortedSyms(lens)|
  {
    Listed(lens, k);
    Block(lens, root, SortedSyms(lens)[k])
  }

  lemma {:induction false} InBlock(lens: seq<nat>, root: nat, k: nat, p: nat)
    requires LensOk(lens) && root <= MAX_BITS && k < |SortedSyms(lens)| && SortedSyms(lens)[k] < |lens|
    requires Pow2(MAX_BITS - root) * p <= StartOf(lens, k) < Pow2(MAX_BITS - root) * (p + 1)
    ensures BlockOf(lens, root, k) == p
  {
    hide SortedSyms, Pow2, Pos;
    var u := Pow2(MAX_BITS - root);
    OneMoreUnit(u, p);
    ShrLowUnique(StartOf(lens, k), MAX_BITS - root, StartOf(lens, k) - u * p, p);
  }

  lemma {:induction false} InOwnBlock(lens: seq<nat>, root: nat, k: nat)
    requires LensOk(lens) && root <= MAX_BITS && k < |SortedSyms(lens)| && SortedSyms(lens)[k] < |lens|
    ensures Pow2(MAX_BITS - root) * BlockOf(lens, root, k) <= StartOf(lens, k)
  {
    hide SortedSyms, Pow2, Pos;
  }

  /** The first `j` codes have been walked past, `t` of them short ones: the last one lies in block `p`, has `l` bits more
      than the root, and leaves room for `f` more of its kind in the block. */
  ghost predicate Walked(lens: seq<nat>, root: nat, t: nat, j: nat, p: nat, l: nat, f: nat)
    requires LensOk(lens) && root < MAX_BITS && j <= |SortedSyms(lens)|
    requires j < |SortedSyms(lens)| ==> SortedSyms(lens)[j] < |lens|
  {
    && t < j && p == BlockOf(lens, root, j - 1) && LenOf(lens, j - 1) == root + l && l > 0
    && Pow2(MAX_BITS - root) * (p + 1) == StartOf(lens, j) + f * Pow2(MAX_BITS - root - l)
    && SubRoom(lens, root, p) + l + 1 <= j - t + f
  }

  // No sub-table is needed before the first long code.
  lemma {:induction false} NoRoomBefore(lens: seq<nat>, root: nat, t: nat)
    requires LensOk(lens) && root < MAX_BITS && t == |SymsUpTo(lens, root)| < |SortedSyms(lens)|
    ensures SubRoom(lens, root, BlockOf(lens, root, t)) == 0
  {
    hide SortedSyms, SymsUpTo, Pow2, Pos, Block, SubRoom;
    var p := BlockOf(lens, root, t);
    forall q | 0 <= q < p
      ensures SubBits(lens, root, q, |lens|) == 0
    {
      if SubBits(lens, root, q, |lens|) > 0 {
        var x := SubBitsAttained(lens, root, q, |lens|);
        var i := IndexOf(lens, x);
        LongFrom(lens, root, i);
        BlockGrows(lens, root, t, i);
      }
    }
    SubRoomSame(lens, root, 0, p);
    NoBlocks(lens, root);
  }

  lemma {:induction false} NoBlocks(lens: seq<nat>, root: nat)
    requires LensOk(lens) && root <= MAX_BITS
    ensures SubRoom(lens, root, 0) == 0
  {
  }

  lemma {:induction false} IndexOf(lens: seq<nat>, x: nat) returns (i: nat)
    requires LensOk(lens) && x < |lens| && lens[x] > 0
    ensures i < |SortedSyms(lens)| && SortedSyms(lens)[i] == x
  {
    SymsUpToLists(lens, MAX_BITS);
    i :| 0 <= i < |SortedSyms(lens)| && SortedSyms(lens)[i] == x;
  }

  lemma {:induction false} StartAligned(lens: seq<nat>, root: nat, t: nat)
    requires Complete(lens) && root < MAX_BITS && t == |SymsUpTo(lens, root)| < |SortedSyms(lens)| && SortedSyms(lens)[t] < |lens|
    ensures StartOf(lens, t) == Pow2(MAX_BITS - root) * BlockOf(lens, root, t)
  {
    hide SortedSyms, SymsUpTo, Pow2, Block, StartOf;
    if t == 0 {
      StartFirst(lens);
      assert Pow2(MAX_BITS - root) * 0 == 0;
      InBlock(lens, root, 0, 0);
    } else {
      LongFrom(lens, root, t - 1);
      LongFrom(lens, root, t);
      Listed(lens, t - 1);
      BlockStart(lens, root, t - 1);
      AtStart(lens, t);
    }
  }

  lemma {:induction false} AtStart(lens: seq<nat>, k: nat)
    requires LensOk(lens) && k < |SortedSyms(lens)| && SortedSyms(lens)[k] < |lens|
    ensures StartOf(lens, k) == Pos(lens, SortedSyms(lens)[k])
  {
  }

  lemma {:induction false} BlockUnits(root: nat, l: nat, p: nat)
    requires root + l <= MAX_BITS
    ensures Pow2(MAX_BITS - root) * (p + 1) == Pow2(MAX_BITS - root) * p + Pow2(l) * Pow2(MAX_BITS - root - l)
  {
    hide Pow2;
    OneMoreUnit(Pow2(MAX_BITS - root), p);
    Pow2Add(l, MAX_BITS - root - l);
  }

  lemma {:induction false} LessOne(a: nat, u: nat)
    requires a > 0
    ensures (a - 1) * u + u == a * u
  {
  }

  // 2^l - l grows.
  lemma {:induction false} Growth(a: nat, b: nat)
    requires a <= b
    ensures Pow2(a) + b <= Pow2(b) + a
  {
    if a < b {
      Growth(a, b - 1);
      Pow2Positive(b - 1);
    }
  }

  lemma {:induction false} Pow2Positive(n: nat)
    ensures Pow2(n) >= 1
  {
  }

  lemma {:induction false} WalkStart(lens: seq<nat>, root: nat, t: nat) returns (p: nat, l: nat, f: nat)
    requires Complete(lens) && root < MAX_BITS && t == |SymsUpTo(lens, root)| < |SortedSyms(lens)|
    requires t + 1 < |SortedSyms(lens)| ==> SortedSyms(lens)[t + 1] < |lens|
    ensures Walked(lens, root, t, t + 1, p, l, f)
  {
    hide SortedSyms, SymsUpTo, Pow2, StartOf, Block;
    Listed(lens, t);
    LongFrom(lens, root, t);
    p, l := BlockOf(lens, root, t), LenOf(lens, t) - root;
    f := Pow2(l) - 1;
    StartAligned(lens, root, t);
    StartNext(lens, t);
    BlockUnits(root, l, p);
    LessOne(Pow2(l), Pow2(MAX_BITS - root - l));
    NoRoomBefore(lens, root, t);
    Growth(1, l);
    assert Pow2(1) == 2 by { Doubled(0); assert Pow2(0) == 1 by { Unit(); } }
  }

  lemma {:induction false} Unit()
    ensures Pow2(0) == 1
  {
  }

  // A code in the same block.
  lemma {:induction false} WalkWithin(lens: seq<nat>, root: nat, t: nat, j: nat, p: nat, l: nat, f: nat) returns (l1: nat, f1: nat)
    requires Complete(lens) && root < MAX_BITS && j < |SortedSyms(lens)| && SortedSyms(lens)[j] < |lens|
    requires j + 1 < |SortedSyms(lens)| ==> SortedSyms(lens)[j + 1] < |lens|
    requires Walked(lens, root, t, j, p, l, f) && f > 0
    ensures Walked(lens, root, t, j + 1, p, l1, f1)
  {
    hide SortedSyms, SymsUpTo, Pow2, StartOf, Block, SubRoom;
    var k := j - 1;
    Listed(lens, k);
    StartNext(lens, k);
    StartNext(lens, j);
    l1 := LenOf(lens, j) - root;
    InOwnBlock(lens, root, k);
    Growing(lens, k);
    LessOne(f, Pow2(MAX_BITS - root - l));
    InBlock(lens, root, j, p);
    Pow2Add(l1 - l, MAX_BITS - root - l1);
    MulAssoc(f, Pow2(l1 - l), Pow2(MAX_BITS - root - l1));
    var g := f * Pow2(l1 - l);
    Pow2Positive(l1 - l);
    MulMono(f, 1, Pow2(l1 - l));
    f1 := g - 1;
    LessOne(g, Pow2(MAX_BITS - root - l1));
    Growth(0, l1 - l);
    Unit();
    MoreUnits(f, Pow2(l1 - l), l1 - l);
  }

  lemma {:induction false} MoreUnits(f: nat, u: nat, d: nat)
    requires f > 0 && 1 + d <= u
    ensures f + d <= f * u
  {
    MulMono(f, 1 + d, u);
    assert f * (1 + d) == f + f * d;
    MulStep(0, f, d);
  }

  // The longest code of a block that is full.
  lemma {:induction false} BlockFull(lens: seq<nat>, root: nat, t: nat, j: nat, p: nat, l: nat, f: nat)
    requires Complete(lens) && root < MAX_BITS && j <= |SortedSyms(lens)|
    requires j < |SortedSyms(lens)| ==> SortedSyms(lens)[j] < |lens|
    requires Walked(lens, root, t, j, p, l, f) && (j < |SortedSyms(lens)| ==> BlockOf(lens, root, j) > p)
    ensures SubBits(lens, root, p, |lens|) == l
  {
    hide SortedSyms, SymsUpTo, Pow2, StartOf, Block, SubRoom;
    Listed(lens, j - 1);
    SubBitsBound(lens, root, p, |lens|, SortedSyms(lens)[j - 1]);
    var x := SubBitsAttained(lens, root, p, |lens|);
    var i := IndexOf(lens, x);
    if i < j {
      PosGrows(lens, i, j - 1);
    } else {
      BlockGrows(lens, root, j, i);
    }
  }

  lemma {:induction false} RoomNext(lens: seq<nat>, root: nat, p: nat)
    requires LensOk(lens) && root <= MAX_BITS && SubBits(lens, root, p, |lens|) > 0
    ensures SubRoom(lens, root, p + 1) == SubRoom(lens, root, p) + Pow2(SubBits(lens, root, p, |lens|))
  {
  }

  // The first code of the next block.
  lemma {:induction false} WalkAcross(lens: seq<nat>, root: nat, t: nat, j: nat, p: nat, l: nat) returns (l1: nat, f1: nat)
    requires Complete(lens) && root < MAX_BITS && j < |SortedSyms(lens)| && SortedSyms(lens)[j] < |lens|
    requires j + 1 < |SortedSyms(lens)| ==> SortedSyms(lens)[j + 1] < |lens|
    requires Walked(lens, root, t, j, p, l, 0)
    ensures Walked(lens, root, t, j + 1, p + 1, l1, f1)
  {
    hide SortedSyms, SymsUpTo, Pow2, StartOf, Block, SubRoom;
    var k := j - 1;
    Listed(lens, k);
    StartNext(lens, k);
    StartNext(lens, j);
    l1 := LenOf(lens, j) - root;
    OneMoreUnit(Pow2(MAX_BITS - root), p + 1);
    Pow2Positive(MAX_BITS - root);
    InBlock(lens, root, j, p + 1);
    BlockFull(lens, root, t, j, p, l, 0);
    RoomNext(lens, root, p);
    f1 := Pow2(l1) - 1;
    BlockUnits(root, l1, p + 1);
    LessOne(Pow2(l1), Pow2(MAX_BITS - root - l1));
    Growth(l, l1);
  }

  lemma {:induction false} WalkTo(lens: seq<nat>, root: nat, t: nat, j: nat) returns (p: nat, l: nat, f: nat)
    requires Complete(lens) && root < MAX_BITS && t == |SymsUpTo(lens, root)| < j <= |SortedSyms(lens)|
    requires j < |SortedSyms(lens)| ==> SortedSyms(lens)[j] < |lens|
    ensures Walked(lens, root, t, j, p, l, f)
  {
    hide SortedSyms, SymsUpTo, Walked;
    if j == t + 1 {
      p, l, f := WalkStart(lens, root, t);
    } else {
      Listed(lens, j - 1);
      p, l, f := WalkTo(lens, root, t, j - 1);
      if f > 0 {
        l, f := WalkWithin(lens, root, t, j - 1, p, l, f);
      } else {
        l, f := WalkAcross(lens, root, t, j - 1, p, l);
        p := p + 1;
      }
    }
  }

  lemma {:induction false} RoomEven(lens: seq<nat>, root: nat, n: nat)
    requires LensOk(lens) && root <= MAX_BITS
    ensures SubRoom(lens, root, n) % 2 == 0
  {
    hide Block;
    if n > 0 {
      RoomEven(lens, root, n - 1);
    }
  }

  lemma {:induction false} NoLongRoom(lens: seq<nat>, root: nat, n: nat)
    requires LensOk(lens) && root <= MAX_BITS && forall s :: 0 <= s < |lens| ==> lens[s] <= root
    ensures SubRoom(lens, root, n) == 0
  {
    hide Block;
    forall q | 0 <= q < n
      ensures SubBits(lens, root, q, |lens|) == 0
    {
      if SubBits(lens, root, q, |lens|) > 0 {
        var x := SubBitsAttained(lens, root, q, |lens|);
      }
    }
    SubRoomSame(lens, root, 0, n);
  }

  /** The room of all sub-tables: one for each long code, and what 2^l - l grows to. */
  lemma {:induction false} RoomBound(lens: seq<nat>, root: nat)
    requires Complete(lens) && root < MAX_BITS && |SymsUpTo(lens, root)| < |SortedSyms(lens)|
    ensures var l := MAX_BITS - root;
            SubRoom(lens, root, Pow2(root)) + l + 1 <= |SortedSyms(lens)| - |SymsUpTo(lens, root)| + Pow2(l)
  {
    hide SortedSyms, SymsUpTo, Pow2, StartOf, Block, SubRoom, Kraft;
    var n, t := |SortedSyms(lens)|, |SymsUpTo(lens, root)|;
    var p, l, f := WalkTo(lens, root, t, n);
    AtEnd(lens);
    LastBlock(lens, root, n - 1);
    Pow2Add(root, MAX_BITS - root);
    LastFull(Pow2(MAX_BITS - root), p, Pow2(root), f, Pow2(MAX_BITS - root - l));
    BlockFull(lens, root, t, n, p, l, f);
    RoomNext(lens, root, p);
    Growth(l, MAX_BITS - root);
  }

  lemma {:induction false} LastBlock(lens: seq<nat>, root: nat, k: nat)
    requires Complete(lens) && root <= MAX_BITS && k < |SortedSyms(lens)| && LenOf(lens, k) >= root
    ensures BlockOf(lens, root, k) < Pow2(root)
  {
    hide SortedSyms, Pow2, Block, Kraft;
    Listed(lens, k);
    BlockPrefix(lens, root, SortedSyms(lens)[k]);
  }

  lemma {:induction false} LastFull(u: nat, p: nat, m: nat, f: nat, v: nat)
    requires p < m && u * (p + 1) == m * u + f * v && v > 0
    ensures f == 0 && (u > 0 ==> p + 1 == m)
  {
    MulMono(u, p + 1, m);
    if f > 0 {
      MulMono(v, 1, f);
    }
    if p + 1 < m && u > 0 {
      MulStep(p + 1, m, u);
    }
  }

  lemma {:induction false} UsedLast(lens: seq<nat>, m: nat)
    requires lens != []
    ensures |SymsUpTo(lens, m)| <= |SymsUpTo(lens[..|lens| - 1], m)| + if 0 < lens[|lens| - 1] <= m then 1 else 0
  {
    if m > 0 {
      UsedLast(lens, m - 1);
    }
  }

  // There are no more codes than symbols.
  lemma {:induction false} FewUsed(lens: seq<nat>, m: nat)
    ensures |SymsUpTo(lens, m)| <= |lens|
  {
    if lens == [] {
      NoneUpTo(m);
    } else {
      UsedLast(lens, m);
      FewUsed(lens[..|lens| - 1], m);
    }
  }

  lemma {:induction false} FewCodes(lens: seq<nat>)
    ensures |SortedSyms(lens)| <= |lens|
  {
    FewUsed(lens, MAX_BITS);
  }

  lemma {:induction false} NoneUpTo(m: nat)
    ensures SymsUpTo([], m) == []
  {
    if m > 0 {
      NoneUpTo(m - 1);
    }
  }

  lemma {:induction false} NoShorter(lens: seq<nat>, root: nat)
    requires LensOk(lens) && root <= MAX_BITS && |SymsUpTo(lens, root)| >= |SortedSyms(lens)|
    ensures forall s :: 0 <= s < |lens| ==> lens[s] <= root
  {
    hide SortedSyms, SymsUpTo;
    forall s | 0 <= s < |lens|
      ensures lens[s] <= root
    {
      if lens[s] > root {
        var i := IndexOf(lens, s);
        LongFrom(lens, root, i);
      }
    }
  }

  /** A complete code of at most 286 symbols needs 852 entries at most behind a root of 9 bits. */
  lemma {:induction false} LenSpace(lens: seq<nat>)
    requires Complete(lens) && |lens| <= 286
    ensures TableSize(lens, 9) <= 852
  {
    hide SortedSyms, SymsUpTo, SubRoom;
    FewCodes(lens);
    RoomEven(lens, 9, Pow2(9));
    var t, n := |SymsUpTo(lens, 9)|, |SortedSyms(lens)|;
    Pow2Values();
    hide Pow2;
    if t < n {
      RoomBound(lens, 9);
      ManyLong(lens, 9);
      if t < 2 {
        Pow2Mono(8, 9 - t);
      }
    } else {
      NoShorter(lens, 9);
      NoLongRoom(lens, 9, Pow2(9));
    }
  }

  /** One of at most 30 symbols needs 592 entries at most behind a root of 6 bits. */
  lemma {:induction false} DistSpace(lens: seq<nat>)
    requires Complete(lens) && |lens| <= 30
    ensures TableSize(lens, 6) <= 592
  {
    hide SortedSyms, SymsUpTo, SubRoom;
    FewCodes(lens);
    RoomEven(lens, 6, Pow2(6));
    var t, n := |SymsUpTo(lens, 6)|, |SortedSyms(lens)|;
    Pow2Values();
    hide Pow2;
    if t < n {
      RoomBound(lens, 6);
      ManyLong(lens, 6);
      if t < 3 {
        Pow2Mono(4, 6 - t);
      }
    } else {
      NoShorter(lens, 6);
      NoLongRoom(lens, 6, Pow2(6));
    }
  }
}
