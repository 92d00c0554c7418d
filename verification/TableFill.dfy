/** What one turn of the main loop of inflate_table does: entering a code, opening a sub-table. */
module TableFill {
  import opened Bits
  import opened Canonical
  import opened CodeOrder
  import opened CodeBlocks
  import opened TableCells
  import opened DecodeTable
  import opened CodeCounts

  // Where the codes shorter than `m` end, or symbol `s` itself when it is of length `m`.
  ghost function Reached(lens: seq<nat>, s: nat, m: nat): nat
    requires LensOk(lens) && s < |lens|
  {
    if m == lens[s] then Pos(lens, s) else Before(lens, m, 0)
  }

  // When the block of `s` ends among the codes of length root + curr, that is its longest length.
  lemma {:induction false} BlockDepth(lens: seq<nat>, root: nat, s: nat, curr: nat, end: nat)
    requires LensOk(lens) && s < |lens| && root < lens[s] <= root + curr <= MAX_BITS
    requires Pos(lens, s) == BlockAt(root, Block(lens, root, s))
    requires end == Pos(lens, s) + Pow2(MAX_BITS - root)
    requires Reached(lens, s, root + curr) < end <= Before(lens, root + curr + 1, 0)
    ensures curr == SubBits(lens, root, Block(lens, root, s), |lens|)
  {
    var p, m := Block(lens, root, s), root + curr;
    TimesIs(p, Pow2(MAX_BITS - root));
    var b := SubBits(lens, root, p, |lens|);
    // the depth is reached
    var t := s;
    if m != lens[s] {
      BeforeLevel(lens, m);
      PosBelow(lens, s, m);
      t := FirstInBlock(lens, root, s, m, end);
    }
    SubBitsBound(lens, root, p, |lens|, t);
    // and not exceeded
    var u := SubBitsAttained(lens, root, p, |lens|);
    if lens[u] > m {
      PosAbove(lens, u, m + 1);
    }
  }

  lemma {:induction false} PosBelow(lens: seq<nat>, s: nat, m: nat)
    requires LensOk(lens) && s < |lens| && lens[s] < m
    ensures Pos(lens, s) <= Before(lens, m, 0)
  {
    BeforeAdds(lens, lens[s], s, m, 0, |lens|);
  }

  lemma {:induction false} PosAbove(lens: seq<nat>, u: nat, m: nat)
    requires LensOk(lens) && u < |lens| && m <= lens[u]
    ensures Before(lens, m, 0) <= Pos(lens, u)
  {
    if m < lens[u] || u > 0 {
      BeforeAdds(lens, m, 0, lens[u], u, |lens|);
    }
  }

  lemma {:induction false} FirstInBlock(lens: seq<nat>, root: nat, s: nat, m: nat, end: nat) returns (t: nat)
    requires LensOk(lens) && s < |lens| && root < m <= MAX_BITS && Count(lens, m) > 0
    requires end == Pow2(MAX_BITS - root) * Block(lens, root, s) + Pow2(MAX_BITS - root)
    requires Pow2(MAX_BITS - root) * Block(lens, root, s) <= Before(lens, m, 0) < end
    ensures t < |lens| && lens[t] == m && Block(lens, root, t) == Block(lens, root, s)
  {
    t := FirstOfLength(lens, m);
    var v, p := Pow2(MAX_BITS - root), Block(lens, root, s);
    ShrLowUnique(Pos(lens, t), MAX_BITS - root, Pos(lens, t) - v * p, p);
  }

  /** The k-th symbol is next, its code has `len` bits, and `count` says how many
      codes of `len` bits and of each greater length are still to come. */
  ghost predicate Current(lens: seq<nat>, count: seq<nat>, k: nat, len: nat) {
    && 0 < len <= MAX_BITS && |count| == MAX_BITS + 1
    && |SymsUpTo(lens, len - 1)| <= k < |SymsUpTo(lens, len)| <= |SortedSyms(lens)|
    && SortedSyms(lens)[k] < |lens| && lens[SortedSyms(lens)[k]] == len
    && count[len] == |SymsUpTo(lens, len)| - k
    && forall m :: len < m <= MAX_BITS ==> count[m] == Count(lens, m)
  }

  // The room `n` codes of length `m` take.
  ghost function Room(n: nat, m: nat): nat
    requires m <= MAX_BITS
  {
    Times(n, Pow2(MAX_BITS - m))
  }

  // Where block `p` starts.
  ghost function BlockAt(root: nat, p: nat): nat
    requires root <= MAX_BITS
  {
    Times(p, Pow2(MAX_BITS - root))
  }

  // The block of `s` ends at `end`, and before length `m` there is room for `left` codes of that length.
  ghost predicate Open(lens: seq<nat>, s: nat, m: nat, left: int, end: nat)
    requires LensOk(lens) && s < |lens| && m <= MAX_BITS
  {
    left > 0 && Reached(lens, s, m) + Room(left, m) == end
  }

  // One length of the look-ahead.
  lemma {:induction false} LookStep(lens: seq<nat>, count: seq<nat>, k: nat, len: nat, m: nat, left: int, end: nat)
    requires LensOk(lens) && Current(lens, count, k, len) && len <= m < MAX_BITS
    requires Open(lens, SortedSyms(lens)[k], m, left, end)
    ensures Reached(lens, SortedSyms(lens)[k], m) < end
    ensures left <= count[m] ==> end <= Before(lens, m + 1, 0)
    ensures left > count[m] ==> Open(lens, SortedSyms(lens)[k], m + 1, (left - count[m]) * 2, end)
  {
    var u, v, c := Pow2(MAX_BITS - m), Pow2(MAX_BITS - (m + 1)), count[m];
    LookAhead(lens, count, k, len, m);
    TimesIs(left, u);
    if left <= c {
      MulMono(u, left, c);
    } else {
      Distribute(left, c, u);
      HalfUnit(left - c, u, v);
      TimesIs((left - c) * 2, v);
    }
  }

  /** Look ahead in the length counts to size the sub-table for the block that the
      k-th symbol starts: its index bits reach to the longest code of the block. */
  method SubTableBits(count: array<nat>, len: nat, max: nat, root: nat,
                      ghost lens: seq<nat>, ghost k: nat) returns (curr: nat)
    requires Complete(lens) && Current(lens, count[..], k, len)
    requires max == MaxLen(lens) && 0 < root < len <= max <= MAX_BITS
    requires Pos(lens, SortedSyms(lens)[k]) == BlockAt(root, Block(lens, root, SortedSyms(lens)[k]))
    ensures curr == SubBits(lens, root, Block(lens, root, SortedSyms(lens)[k]), |lens|)
    ensures len <= root + curr <= MAX_BITS
  {
    hide Kraft, Block, BlockAt, SubBits;
    ghost var C, s := count[..], SortedSyms(lens)[k];
    ghost var end := Pos(lens, s) + Pow2(MAX_BITS - root);
    curr := len - root;
    var left: int := Pow2(curr);
    StartRoom(lens, s, len, root);
    while curr + root < max
      invariant len <= root + curr <= max
      invariant Open(lens, s, root + curr, left, end)
    {
      LookStep(lens, C, k, len, root + curr, left, end);
      left := left - count[curr + root];
      if left <= 0 {
        BlockDepth(lens, root, s, curr, end);
        return;
      }
      curr := curr + 1;
      left := left * 2;
    }
    LastBlock(lens, root, s, max);
    StillOpen(lens, s, max, left, end);
    BlockDepth(lens, root, s, curr, end);
  }

  lemma {:induction false} StartRoom(lens: seq<nat>, s: nat, len: nat, root: nat)
    requires LensOk(lens) && s < |lens| && root <= lens[s] == len <= MAX_BITS
    ensures Open(lens, s, len, Pow2(len - root), Pos(lens, s) + Pow2(MAX_BITS - root))
  {
    TimesIs(Pow2(len - root), Pow2(MAX_BITS - len));
    Pow2Add(len - root, MAX_BITS - len);
  }

  lemma {:induction false} HalfUnit(left: int, u: nat, v: nat)
    requires u == 2 * v
    ensures (left * 2) * v == left * u
  {
    MulAssoc(left, 2, v);
  }

  // The codes of length `m` from the k-th symbol on take `c` units.
  lemma {:induction false} LookAhead(lens: seq<nat>, count: seq<nat>, k: nat, len: nat, m: nat)
    requires LensOk(lens) && Current(lens, count, k, len) && len <= m <= MAX_BITS
    ensures Before(lens, m + 1, 0) ==
            Reached(lens, SortedSyms(lens)[k], m) + count[m] * Pow2(MAX_BITS - m)
  {
    if m == len {
      SegmentEnd(lens, m, k);
    } else {
      BeforeLevel(lens, m);
    }
  }

  lemma {:induction false} StillOpen(lens: seq<nat>, s: nat, m: nat, left: int, end: nat)
    requires LensOk(lens) && s < |lens| && m <= MAX_BITS && Open(lens, s, m, left, end)
    ensures Reached(lens, s, m) < end
  {
    assert Room(left, m) > 0;
  }

  lemma {:induction false} BlockRoom(x: nat, root: nat)
    requires root <= MAX_BITS && x < Pow2(MAX_BITS)
    ensures BlockAt(root, Shr(x, MAX_BITS - root)) + Pow2(MAX_BITS - root) <= Pow2(MAX_BITS)
  {
    var v, p := Pow2(MAX_BITS - root), Shr(x, MAX_BITS - root);
    ShrBound(x, MAX_BITS - root, root);
    Pow2Add(MAX_BITS - root, root);
    TimesIs(p, v);
    FitsBelow(p, Pow2(root), v, Pow2(MAX_BITS));
  }

  lemma {:induction false} FitsBelow(p: nat, n: nat, v: nat, total: nat)
    requires p < n && v * n == total
    ensures p * v + v <= total
  {
    MulStep(p, n, v);
  }

  lemma {:induction false} LastBlock(lens: seq<nat>, root: nat, s: nat, max: nat)
    requires Complete(lens) && s < |lens| && root <= MAX_BITS && max == MaxLen(lens)
    requires lens[s] > 0
    ensures BlockAt(root, Block(lens, root, s)) + Pow2(MAX_BITS - root) <= Before(lens, max + 1, 0)
  {
    PosKraft(lens, s);
    BlockRoom(Pos(lens, s), root);
    KraftUpToMax(lens, max);
  }

  lemma {:induction false} KraftUpToMax(lens: seq<nat>, max: nat)
    requires LensOk(lens) && MaxLen(lens) <= max
    ensures Before(lens, max + 1, 0) == Kraft(lens)
  {
    if lens != [] {
      KraftUpToMax(lens[..|lens| - 1], max);
    }
  }

  // Symbol `s` is entered.
  ghost predicate Entered(kind: CodeType, lens: seq<nat>, T: seq<Code>, root: nat,
                          next: nat, used: nat, cur: seq<bool>, s: nat)
    requires LensOk(lens) && s < |lens| <= MaxSyms(kind)
  {
    Cell(T, root, next, used, cur, CodeBits(lens, s), Here(kind, s, lens[s]),
         Here(kind, s, if lens[s] <= root then 0 else lens[s] - root))
  }

  ghost predicate Progress(kind: CodeType, lens: seq<nat>, T: seq<Code>, root: nat,
                           next: nat, used: nat, cur: seq<bool>, k: nat)
    requires LensOk(lens) && |lens| <= MaxSyms(kind)
  {
    && k <= |SortedSyms(lens)|
    && forall i :: 0 <= i < k ==>
         && SortedSyms(lens)[i] < |lens|
         && Entered(kind, lens, T, root, next, used, cur, SortedSyms(lens)[i])
  }

  lemma {:induction false} EnteredKept(kind: CodeType, lens: seq<nat>, T: seq<Code>, T1: seq<Code>, root: nat, drop: nat,
                    curr: nat, next: nat, used: nat, cur: seq<bool>, i: nat, k: nat)
    requires Fits(lens) && |lens| <= MaxSyms(kind) && i < k < |SortedSyms(lens)|
    requires SortedSyms(lens)[i] < |lens| && SortedSyms(lens)[k] < |lens|
    requires drop <= lens[SortedSyms(lens)[k]]
    requires Placed(T, root, drop, curr, next, used, cur, CodeBits(lens, SortedSyms(lens)[k]))
    requires Wrote(T, T1, next, curr, CodeBits(lens, SortedSyms(lens)[k])[drop..],
                   Here(kind, SortedSyms(lens)[k], lens[SortedSyms(lens)[k]] - drop))
    requires Entered(kind, lens, T, root, next, used, cur, SortedSyms(lens)[i])
    ensures Entered(kind, lens, T1, root, next, used, cur, SortedSyms(lens)[i])
  {
    hide Cell, Placed, Wrote, Here;
    var s, t := SortedSyms(lens)[k], SortedSyms(lens)[i];
    SymsUpToLists(lens, MAX_BITS);
    ListsInjective(lens, MAX_BITS, SortedSyms(lens), i, k);
    PosGrows(lens, i, k);
    CodesIncomparable(lens, s, t);
    CellKept(T, T1, root, drop, curr, next, used, cur,
             CodeBits(lens, s), Here(kind, s, lens[s] - drop),
             CodeBits(lens, t), Here(kind, t, lens[t]),
             Here(kind, t, if lens[t] <= root then 0 else lens[t] - root));
  }

  lemma {:induction false} EnteredNow(kind: CodeType, lens: seq<nat>, T: seq<Code>, T1: seq<Code>, root: nat, drop: nat,
                   curr: nat, next: nat, used: nat, cur: seq<bool>, s: nat)
    requires LensOk(lens) && s < |lens| <= MaxSyms(kind) && drop <= lens[s]
    requires Placed(T, root, drop, curr, next, used, cur, CodeBits(lens, s))
    requires Wrote(T, T1, next, curr, CodeBits(lens, s)[drop..], Here(kind, s, lens[s] - drop))
    ensures Entered(kind, lens, T1, root, next, used, cur, s)
  {
    hide Cell, Placed, Wrote;
    PlacedDrop(T, root, drop, curr, next, used, cur, CodeBits(lens, s));
    CellNow(T, T1, root, drop, curr, next, used, cur, CodeBits(lens, s), Here(kind, s, lens[s]),
            Here(kind, s, if lens[s] <= root then 0 else lens[s] - root));
  }

  lemma {:induction false} FillStep(kind: CodeType, lens: seq<nat>, T: seq<Code>, T1: seq<Code>, root: nat, drop: nat,
                 curr: nat, next: nat, used: nat, cur: seq<bool>, k: nat)
    requires Fits(lens) && |lens| <= MaxSyms(kind)
    requires k < |SortedSyms(lens)| && SortedSyms(lens)[k] < |lens|
    requires drop <= lens[SortedSyms(lens)[k]]
    requires Placed(T, root, drop, curr, next, used, cur, CodeBits(lens, SortedSyms(lens)[k]))
    requires Wrote(T, T1, next, curr, CodeBits(lens, SortedSyms(lens)[k])[drop..],
                   Here(kind, SortedSyms(lens)[k], lens[SortedSyms(lens)[k]] - drop))
    requires Progress(kind, lens, T, root, next, used, cur, k)
    ensures Progress(kind, lens, T1, root, next, used, cur, k + 1)
  {
    hide Entered, Placed, Wrote;
    var w := SortedSyms(lens);
    forall i | 0 <= i < k + 1
      ensures w[i] < |lens| && Entered(kind, lens, T1, root, next, used, cur, w[i])
    {
      if i < k {
        EnteredKept(kind, lens, T, T1, root, drop, curr, next, used, cur, i, k);
      } else {
        EnteredNow(kind, lens, T, T1, root, drop, curr, next, used, cur, w[k]);
      }
    }
  }

  lemma {:induction false} LinkKeeps(kind: CodeType, lens: seq<nat>, T: seq<Code>, root: nat, next: nat, used: nat,
                  cur: seq<bool>, s: nat, curr: nat, t: nat)
    requires Fits(lens) && s < |lens| <= MaxSyms(kind) && t < |lens| && root <= MAX_BITS
    requires root < lens[s] && 0 < lens[t] && next <= used && used + Pow2(curr) <= |T|
    requires lens[t] > root ==> Block(lens, root, s) != Block(lens, root, t)
    requires s != t && Pow2(root) <= |T|
    requires Entered(kind, lens, T, root, next, used, cur, t)
    ensures Entered(kind, lens, T[Num(CodeBits(lens, s)[..root]) := Code(curr, root, used)], root,
                    used, used + Pow2(curr), CodeBits(lens, s)[..root], t)
  {
    CodesIncomparable(lens, s, t);
    if lens[t] > root {
      SameBlock(lens, root, s, t);
    }
    CellLinked(T, root, next, used, cur, CodeBits(lens, s), curr, CodeBits(lens, t),
               Here(kind, t, lens[t]), Here(kind, t, if lens[t] <= root then 0 else lens[t] - root));
  }

  // A sub-table is opened for the block that symbol k + 1 starts.
  lemma {:induction false} LinkStep(kind: CodeType, lens: seq<nat>, T: seq<Code>, root: nat, next: nat, used: nat,
                 cur: seq<bool>, k: nat, curr: nat)
    requires Fits(lens) && |lens| <= MaxSyms(kind) && root <= MAX_BITS
    requires k + 1 < |SortedSyms(lens)|
    requires SortedSyms(lens)[k] < |lens| && SortedSyms(lens)[k + 1] < |lens|
    requires root < lens[SortedSyms(lens)[k + 1]]
    requires lens[SortedSyms(lens)[k]] <= root ||
             Block(lens, root, SortedSyms(lens)[k]) != Block(lens, root, SortedSyms(lens)[k + 1])
    requires Pow2(root) <= |T| && next <= used && used + Pow2(curr) <= |T|
    requires Progress(kind, lens, T, root, next, used, cur, k + 1)
    ensures var c := CodeBits(lens, SortedSyms(lens)[k + 1]);
            Progress(kind, lens, T[Num(c[..root]) := Code(curr, root, used)], root,
                     used, used + Pow2(curr), c[..root], k + 1)
  {
    hide Here, Short, Long;
    var w := SortedSyms(lens);
    SymsUpToLists(lens, MAX_BITS);
    var s := w[k + 1];
    var c := CodeBits(lens, s);
    var T1 := T[Num(c[..root]) := Code(curr, root, used)];
    forall i | 0 <= i < k + 1
      ensures w[i] < |lens| && Entered(kind, lens, T1, root, used, used + Pow2(curr), c[..root], w[i])
    {
      ListsInjective(lens, MAX_BITS, w, i, k + 1);
      assert Entered(kind, lens, T, root, next, used, cur, w[i]);
      OtherBlock(lens, root, i, k);
      LinkKeeps(kind, lens, T, root, next, used, cur, s, curr, w[i]);
    }
  }

  // Nothing before the first code of a block lies in it, apart from codes that are not long.
  lemma {:induction false} OtherBlock(lens: seq<nat>, root: nat, i: nat, k: nat)
    requires LensOk(lens) && root <= MAX_BITS && i <= k && k + 1 < |SortedSyms(lens)|
    requires SortedSyms(lens)[i] < |lens| && SortedSyms(lens)[k] < |lens| && SortedSyms(lens)[k + 1] < |lens|
    requires lens[SortedSyms(lens)[k]] <= root ||
             Block(lens, root, SortedSyms(lens)[k]) != Block(lens, root, SortedSyms(lens)[k + 1])
    ensures lens[SortedSyms(lens)[i]] > root ==>
              Block(lens, root, SortedSyms(lens)[i]) != Block(lens, root, SortedSyms(lens)[k + 1])
  {
    PosGrows(lens, i, k);
    BlockGrows(lens, root, i, k);
    BlockGrows(lens, root, k, k + 1);
  }

  lemma {:induction false} NextCode(lens: seq<nat>, k: nat)
    requires LensOk(lens) && k + 1 < |SortedSyms(lens)|
    requires SortedSyms(lens)[k] < |lens| && SortedSyms(lens)[k + 1] < |lens|
    requires lens[SortedSyms(lens)[k]] > 0
    ensures var s, t := SortedSyms(lens)[k], SortedSyms(lens)[k + 1];
            && lens[s] <= lens[t]
            && CodeOf(lens, t) == Pow2(lens[t] - lens[s]) * (CodeOf(lens, s) + 1)
  {
    var s, t := SortedSyms(lens)[k], SortedSyms(lens)[k + 1];
    PosNext(lens, k);
    PosOfCode(lens, s);
    PosOfCode(lens, t);
    CodeGrows(CodeOf(lens, s), CodeOf(lens, t), lens[s], lens[t] - lens[s]);
  }

  // Zeros appended to a code do not change its number.
  lemma {:induction false} NumPadded(c: nat, l: nat, d: nat)
    ensures Num(Msb(Pow2(d) * c, l + d)) == Num(Msb(c, l))
  {
    MsbSplit(c, 0, l, d);
    MsbZero(d);
    NumConcat(Msb(c, l), Msb(0, d));
  }

  // The increment takes the code of a symbol to the code of the next one.
  lemma {:induction false} HuffNext(lens: seq<nat>, k: nat)
    requires LensOk(lens) && k + 1 < |SortedSyms(lens)|
    requires SortedSyms(lens)[k] < |lens| && SortedSyms(lens)[k + 1] < |lens|
    requires lens[SortedSyms(lens)[k]] > 0
    ensures Num(BackInc(CodeBits(lens, SortedSyms(lens)[k]))) == Num(CodeBits(lens, SortedSyms(lens)[k + 1]))
  {
    hide Pow2;
    var s, t := SortedSyms(lens)[k], SortedSyms(lens)[k + 1];
    NextCode(lens, k);
    BackIncMsb(CodeOf(lens, s), lens[s]);
    NumPadded(CodeOf(lens, s) + 1, lens[s], lens[t] - lens[s]);
  }

  lemma {:induction false} MsbZero(d: nat)
    ensures Num(Msb(0, d)) == 0
  {
    if d > 0 {
      MsbLast(0, d);
      MsbZero(d - 1);
      NumConcat(Msb(0, d - 1), [false]);
    }
  }

  lemma {:induction false} CodeGrows(a: nat, b: nat, l: nat, d: nat)
    requires l + d <= MAX_BITS
    requires Pow2(MAX_BITS - (l + d)) * b == Pow2(MAX_BITS - l) * a + Pow2(MAX_BITS - l)
    ensures b == Pow2(d) * (a + 1)
  {
    var u := Pow2(MAX_BITS - (l + d));
    Pow2Add(MAX_BITS - (l + d), d);
    assert Pow2(MAX_BITS - l) == u * Pow2(d);
    MulAssoc(u, Pow2(d), a + 1);
    assert u * Pow2(d) * a + u * Pow2(d) == u * Pow2(d) * (a + 1);
    Cancel(u, b, Pow2(d) * (a + 1));
  }

  lemma {:induction false} Cancel(u: nat, a: nat, b: nat)
    requires u > 0 && u * a == u * b
    ensures a == b
  {
    if a < b {
      MulStep(a, b, u);
    } else if b < a {
      MulStep(b, a, u);
    }
  }

  lemma {:induction false} LastCode(lens: seq<nat>, s: nat)
    requires Complete(lens) && s < |lens| && lens[s] > 0
    requires Pos(lens, s) + Width(lens[s]) == Kraft(lens)
    ensures CodeOf(lens, s) + 1 == Pow2(lens[s])
  {
    PosOfCode(lens, s);
    Pow2Add(MAX_BITS - lens[s], lens[s]);
    UnitsLeft(Pow2(MAX_BITS - lens[s]), CodeOf(lens, s), Pow2(lens[s]), Pow2(MAX_BITS));
  }

  lemma {:induction false} UnitsLeft(u: nat, c: nat, p: nat, total: nat)
    requires u > 0 && u * c + u == total && u * p == total
    ensures c + 1 == p
  {
    assert u * (c + 1) == u * c + u;
    Cancel(u, p, c + 1);
  }

  lemma {:induction false} MsbWrap(l: nat)
    ensures Num(Msb(Pow2(l), l)) == 0
  {
    ShrLowUnique(Pow2(l), l, 0, 1);
    ToBitsLow(Pow2(l), l);
    MsbZero(l);
  }

  // After the last code of a complete set the increment comes back to zero.
  lemma {:induction false} HuffLast(lens: seq<nat>, k: nat)
    requires Complete(lens) && k + 1 == |SortedSyms(lens)| && SortedSyms(lens)[k] < |lens|
    requires lens[SortedSyms(lens)[k]] > 0
    ensures Num(BackInc(CodeBits(lens, SortedSyms(lens)[k]))) == 0
  {
    hide Pow2;
    PosLast(lens);
    var s := SortedSyms(lens)[k];
    LastCode(lens, s);
    BackIncMsb(CodeOf(lens, s), lens[s]);
    MsbWrap(lens[s]);
  }

  // Dropping the root bits of a code from its number.
  lemma {:induction false} DropRoot(c: seq<bool>, d: nat)
    requires d <= |c|
    ensures Shr(Num(c), d) == Num(c[d..]) && Low(Num(c), d) == Num(c[..d])
    ensures ToBits(Shr(Num(c), d), |c| - d) == c[d..]
  {
    assert c == c[..d] + c[d..];
    NumConcat(c[..d], c[d..]);
    ShrLowUnique(Num(c), d, Num(c[..d]), Num(c[d..]));
    ToBitsNum(c[d..]);
  }

  // Replicate, seen from the start of the whole table.
  method FillEntries(table: array<Code>, start: nat, next: nat, v: nat, a: nat, curr: nat, here: Code)
    requires a <= curr && v < Pow2(a)
    requires start + next + Pow2(curr) <= table.Length
    modifies table
    ensures Wrote(old(table[start..]), table[start..], next, curr, ToBits(v, a), here)
    ensures table[..start] == old(table[..start])
  {
    ghost var T := table[start..];
    ghost var at, size := start + next, Pow2(curr);
    Replicate(table, start + next, v, a, curr, here);
    ghost var T1 := table[start..];
    assert table[..at][..start] == table[..start];
    assert T1[..next] == table[..at][start..] == T[..next];
    assert T1[next + size..] == table[at + size..] == T[next + size..];
    forall q: seq<bool> {:trigger Num(q)} | |q| == curr
      ensures T1[next + Num(q)] == if ToBits(v, a) <= q then here else T[next + Num(q)]
    {
      assert T1[next + Num(q)] == table[at..at + size][Num(q)];
    }
  }
}
