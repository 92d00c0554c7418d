/** inflate_table (inftrees.c): the decoding table of a set of code lengths. */
module Inftrees {
  import opened Bits
  import opened Canonical
  import opened CodeOrder
  import opened CodeBlocks
  import opened TableCells
  import opened DecodeTable
  import opened CodeCounts
  import opened PrefixCodes
  import opened TableFill

  /** `T`, with `root` root bits, decodes the code `lens`: every used symbol is found
      under its code, and where no code applies the entry is invalid. */
  ghost predicate TableFor(kind: CodeType, lens: seq<nat>, T: seq<Code>, root: nat)
    requires LensOk(lens) && |lens| <= MaxSyms(kind)
  {
    && 0 < root <= MAX_BITS && Pow2(root) <= |T|
    && (forall s :: 0 <= s < |lens| && lens[s] > 0 ==>
          if lens[s] <= root then Short(T, root, CodeBits(lens, s), Here(kind, s, lens[s]))
          else Long(T, root, |T|, CodeBits(lens, s), Here(kind, s, lens[s] - root)))
    && (!Complete(lens) ==> root == 1 && NoOther(lens, T))
  }

  // With at most one code, of one bit, the other slots are invalid.
  ghost predicate NoOther(lens: seq<nat>, T: seq<Code>)
    requires LensOk(lens)
  {
    && (forall s :: 0 <= s < |lens| ==> lens[s] <= 1)
    && forall p: seq<bool> {:trigger Num(p)} :: |p| == 1 && Num(p) < |T| ==>
         (exists s :: 0 <= s < |lens| && lens[s] > 0 && CodeBits(lens, s) <= p) || T[Num(p)] == INVALID
  }

  // The table is set up for symbol `s`, and the first `k` symbols are entered.
  ghost predicate Ready(kind: CodeType, lens: seq<nat>, T: seq<Code>, root: nat, s: nat, k: nat,
                        next: nat, curr: nat, drop: nat, low: int, used: nat, cur: seq<bool>)
  {
    && Fits(lens) && |lens| <= MaxSyms(kind) && 0 < root <= MAX_BITS && s < |lens|
    && Placed(T, root, drop, curr, next, used, cur, CodeBits(lens, s))
    && Progress(kind, lens, T, root, next, used, cur, k)
    && |cur| == root && low == (if drop == 0 then -1 else Num(cur))
    && Sized(lens, root, s, drop, curr, used)
    && !TooLarge(kind, used)
  }

  // The state of the main loop before the code of symbol number `sym` is entered.
  ghost predicate Filling(kind: CodeType, lens: seq<nat>, T: seq<Code>, root: nat, count: seq<nat>,
                          sym: nat, len: nat, huff: nat, next: nat, curr: nat, drop: nat, low: int,
                          used: nat, cur: seq<bool>)
  {
    && LensOk(lens) && Current(lens, count, sym, len)
    && huff == Num(CodeBits(lens, SortedSyms(lens)[sym]))
    && Ready(kind, lens, T, root, SortedSyms(lens)[sym], sym, next, curr, drop, low, used, cur)
  }

  // The sub-tables so far have the sizes their blocks need.
  ghost predicate Sized(lens: seq<nat>, root: nat, s: nat, drop: nat, curr: nat, used: nat)
    requires LensOk(lens) && root <= MAX_BITS && s < |lens|
  {
    var n := if drop == 0 then 0 else Block(lens, root, s) + 1;
    && used == Pow2(root) + SubRoom(lens, root, n)
    && (drop > 0 ==> curr == SubBits(lens, root, Block(lens, root, s), |lens|))
  }

  // Between the block of one symbol and that of the next no block needs a sub-table.
  lemma {:induction false} GapEmpty(lens: seq<nat>, root: nat, k: nat, p: nat)
    requires LensOk(lens) && root <= MAX_BITS && k < |SortedSyms(lens)| && SortedSyms(lens)[k] < |lens|
    requires lens[SortedSyms(lens)[k]] <= root || Block(lens, root, SortedSyms(lens)[k]) < p
    requires k + 1 < |SortedSyms(lens)| ==>
               SortedSyms(lens)[k + 1] < |lens| && p < Block(lens, root, SortedSyms(lens)[k + 1])
    ensures SubBits(lens, root, p, |lens|) == 0
  {
    if SubBits(lens, root, p, |lens|) > 0 {
      var t := SubBitsAttained(lens, root, p, |lens|);
      SymsUpToLists(lens, MAX_BITS);
      assert t in SortedSyms(lens);
      var i :| 0 <= i < |SortedSyms(lens)| && SortedSyms(lens)[i] == t;
      if i <= k {
        PosGrows(lens, i, k);
        BlockGrows(lens, root, i, k);
      } else {
        BlockGrows(lens, root, k + 1, i);
      }
    }
  }

  lemma {:induction false} SizedLink(lens: seq<nat>, root: nat, k: nat, drop: nat, curr: nat, used: nat, curr1: nat)
    requires LensOk(lens) && root <= MAX_BITS && k + 1 < |SortedSyms(lens)|
    requires SortedSyms(lens)[k] < |lens| && SortedSyms(lens)[k + 1] < |lens|
    requires Sized(lens, root, SortedSyms(lens)[k], drop, curr, used)
    requires drop == if lens[SortedSyms(lens)[k]] <= root then 0 else root
    requires drop > 0 ==> Block(lens, root, SortedSyms(lens)[k]) != Block(lens, root, SortedSyms(lens)[k + 1])
    requires curr1 == SubBits(lens, root, Block(lens, root, SortedSyms(lens)[k + 1]), |lens|)
    requires curr1 > 0 && root > 0
    ensures Sized(lens, root, SortedSyms(lens)[k + 1], root, curr1, used + Pow2(curr1))
  {
    var s, t := SortedSyms(lens)[k], SortedSyms(lens)[k + 1];
    var a := if drop == 0 then 0 else Block(lens, root, s) + 1;
    var b := Block(lens, root, t);
    BlockGrows(lens, root, k, k + 1);
    forall p | a <= p < b
      ensures SubBits(lens, root, p, |lens|) == 0
    {
      GapEmpty(lens, root, k, p);
    }
    SubRoomSame(lens, root, a, b);
  }

  lemma {:induction false} SizedEnd(lens: seq<nat>, root: nat, k: nat, drop: nat, curr: nat, used: nat)
    requires Fits(lens) && 0 < root <= MAX_BITS && k + 1 == |SortedSyms(lens)|
    requires SortedSyms(lens)[k] < |lens| && lens[SortedSyms(lens)[k]] > 0
    requires Sized(lens, root, SortedSyms(lens)[k], drop, curr, used)
    requires drop == if lens[SortedSyms(lens)[k]] <= root then 0 else root
    ensures used == TableSize(lens, root)
  {
    var s := SortedSyms(lens)[k];
    var a := if drop == 0 then 0 else Block(lens, root, s) + 1;
    PosKraft(lens, s);
    ShrBound(Pos(lens, s), MAX_BITS - root, root);
    forall p | a <= p < Pow2(root)
      ensures SubBits(lens, root, p, |lens|) == 0
    {
      GapEmpty(lens, root, k, p);
    }
    SubRoomSame(lens, root, a, Pow2(root));
  }

  lemma {:induction false} SizedPart(lens: seq<nat>, root: nat, s: nat, drop: nat, curr: nat, used: nat)
    requires Fits(lens) && root <= MAX_BITS && s < |lens| && lens[s] > 0
    requires Sized(lens, root, s, drop, curr, used)
    ensures used <= TableSize(lens, root)
  {
    PosKraft(lens, s);
    ShrBound(Pos(lens, s), MAX_BITS - root, root);
    SubRoomMono(lens, root, if drop == 0 then 0 else Block(lens, root, s) + 1, Pow2(root));
  }

  // The counts after the code of symbol number `k` is entered, while codes of its length remain.
  lemma {:induction false} CurrentSame(lens: seq<nat>, count: seq<nat>, k: nat, len: nat)
    requires Current(lens, count, k, len) && count[len] > 1
    ensures k + 1 < |SortedSyms(lens)|
    ensures Current(lens, count[len := count[len] - 1], k + 1, len)
  {
    LengthSegment(lens, len, k + 1);
  }

  // After the last code of a length the list goes on with the next length in use.
  lemma {:induction false} NextSegment(lens: seq<nat>, k: nat, len: nat)
    requires len <= MAX_BITS && k == |SymsUpTo(lens, len)| < |SortedSyms(lens)|
    ensures SortedSyms(lens)[k] < |lens|
    ensures len < lens[SortedSyms(lens)[k]] <= MAX_BITS
    ensures |SymsUpTo(lens, lens[SortedSyms(lens)[k]] - 1)| == k
    ensures k < |SymsUpTo(lens, lens[SortedSyms(lens)[k]])| <= |SortedSyms(lens)|
  {
    ListedLen(lens, len, k);
    ListedLen(lens, MAX_BITS, k);
    var m := lens[SortedSyms(lens)[k]];
    ListedLen(lens, m - 1, k);
    ListedLen(lens, m, k);
    SymsUpToPrefix(lens, len, m - 1);
    SymsUpToPrefix(lens, m, MAX_BITS);
  }

  lemma {:induction false} SegmentSize(lens: seq<nat>, m: nat)
    requires m > 0
    ensures |SymsUpTo(lens, m)| == |SymsUpTo(lens, m - 1)| + Count(lens, m)
  {
  }

  // The counts after the last code of a length is entered.
  lemma {:induction false} CurrentNext(lens: seq<nat>, count: seq<nat>, k: nat, len: nat)
    requires Current(lens, count, k, len) && count[len] == 1
    requires k + 1 < |SortedSyms(lens)|
    ensures SortedSyms(lens)[k + 1] < |lens|
    ensures Current(lens, count[len := 0], k + 1, lens[SortedSyms(lens)[k + 1]])
  {
    hide SortedSyms, SymsUpTo, Count;
    SegmentSize(lens, len);
    NextSegment(lens, k + 1, len);
    SegmentSize(lens, lens[SortedSyms(lens)[k + 1]]);
  }

  // The list ends with the codes of the greatest length.
  lemma {:induction false} ListEnd(lens: seq<nat>, count: seq<nat>, k: nat, len: nat)
    requires LensOk(lens) && Current(lens, count, k, len) && count[len] == 1
    ensures len <= MaxLen(lens)
    ensures len < MaxLen(lens) <==> k + 1 < |SortedSyms(lens)|
  {
    var w := SortedSyms(lens);
    SymsUpToLists(lens, MAX_BITS);
    MaxLenBound(lens, w[k]);
    if k + 1 < |w| {
      ListedLen(lens, len, k + 1);
      MaxLenBound(lens, w[k + 1]);
    }
    if len < MaxLen(lens) {
      var t := MaxLenAttained(lens);
      assert t in w;
      var i :| 0 <= i < |w| && w[i] == t;
      ListedLen(lens, len, i);
    }
  }

  // The sub-table in use serves the next symbol too, or no sub-table is in use yet.
  lemma {:induction false} PlacedSame(lens: seq<nat>, T: seq<Code>, root: nat, k: nat, drop: nat, curr: nat,
                   next: nat, used: nat, cur: seq<bool>)
    requires Fits(lens) && 0 < root <= MAX_BITS && k + 1 < |SortedSyms(lens)|
    requires SortedSyms(lens)[k] < |lens| && SortedSyms(lens)[k + 1] < |lens|
    requires lens[SortedSyms(lens)[k]] > 0 && |cur| == root
    requires Placed(T, root, drop, curr, next, used, cur, CodeBits(lens, SortedSyms(lens)[k]))
    requires Sized(lens, root, SortedSyms(lens)[k], drop, curr, used)
    requires lens[SortedSyms(lens)[k + 1]] > root ==>
               drop > 0 && CodeBits(lens, SortedSyms(lens)[k + 1])[..root] == cur
    ensures Placed(T, root, drop, curr, next, used, cur, CodeBits(lens, SortedSyms(lens)[k + 1]))
    ensures Sized(lens, root, SortedSyms(lens)[k + 1], drop, curr, used)
  {
    var s, t := SortedSyms(lens)[k], SortedSyms(lens)[k + 1];
    PosGrows(lens, k, k + 1);
    if lens[t] > root {
      SameBlock(lens, root, s, t);
      SubBitsBound(lens, root, Block(lens, root, t), |lens|, t);
    }
  }

  lemma {:induction false} PlacedLink(T: seq<Code>, root: nat, next: nat, used: nat, curr: nat, c: seq<bool>)
    requires root < |c| <= root + curr && 0 < curr < 16 && Pow2(root) <= used && used + Pow2(curr) <= |T|
    ensures Placed(T[Num(c[..root]) := Code(curr, root, used)], root, root, curr, used, used + Pow2(curr),
                   c[..root], c)
  {
  }

  lemma {:induction false} PlacedAfter(T: seq<Code>, T1: seq<Code>, root: nat, drop: nat, curr: nat, next: nat, used: nat,
                    cur: seq<bool>, c: seq<bool>, here: Code)
    requires Placed(T, root, drop, curr, next, used, cur, c) && drop <= |c| && |cur| == root
    requires Wrote(T, T1, next, curr, c[drop..], here)
    ensures Placed(T1, root, drop, curr, next, used, cur, c)
  {
    if |c| > root {
      assert T1[Num(cur)] == T1[..next][Num(cur)] == T[..next][Num(cur)] == T[Num(cur)];
    }
  }

  lemma {:induction false} EnterStep(kind: CodeType, lens: seq<nat>, T: seq<Code>, T1: seq<Code>, root: nat, k: nat,
                  next: nat, curr: nat, drop: nat, low: int, used: nat, cur: seq<bool>)
    requires k < |SortedSyms(lens)| && SortedSyms(lens)[k] < |lens|
    requires Ready(kind, lens, T, root, SortedSyms(lens)[k], k, next, curr, drop, low, used, cur)
    requires drop <= lens[SortedSyms(lens)[k]]
    requires Wrote(T, T1, next, curr, CodeBits(lens, SortedSyms(lens)[k])[drop..],
                   Here(kind, SortedSyms(lens)[k], lens[SortedSyms(lens)[k]] - drop))
    ensures Ready(kind, lens, T1, root, SortedSyms(lens)[k], k + 1, next, curr, drop, low, used, cur)
  {
    hide Placed, Wrote, Progress, Sized, Here, SortedSyms;
    var s := SortedSyms(lens)[k];
    FillStep(kind, lens, T, T1, root, drop, curr, next, used, cur, k);
    PlacedAfter(T, T1, root, drop, curr, next, used, cur, CodeBits(lens, s), Here(kind, s, lens[s] - drop));
  }

  // The next symbol goes to the table in use.
  lemma {:induction false} StayStep(kind: CodeType, lens: seq<nat>, T: seq<Code>, root: nat, k: nat,
                 next: nat, curr: nat, drop: nat, low: int, used: nat, cur: seq<bool>)
    requires k + 1 < |SortedSyms(lens)|
    requires SortedSyms(lens)[k] < |lens| && SortedSyms(lens)[k + 1] < |lens|
    requires lens[SortedSyms(lens)[k]] > 0
    requires Ready(kind, lens, T, root, SortedSyms(lens)[k], k + 1, next, curr, drop, low, used, cur)
    requires lens[SortedSyms(lens)[k + 1]] <= root ||
             Num(CodeBits(lens, SortedSyms(lens)[k + 1])[..root]) == low
    ensures Ready(kind, lens, T, root, SortedSyms(lens)[k + 1], k + 1, next, curr, drop, low, used, cur)
  {
    hide Placed, Progress, Sized, SortedSyms;
    var t := SortedSyms(lens)[k + 1];
    if lens[t] > root {
      NumInjective(CodeBits(lens, t)[..root], cur);
    }
    PlacedSame(lens, T, root, k, drop, curr, next, used, cur);
  }

  // The next symbol opens a sub-table.
  lemma {:induction false} OpenStep(kind: CodeType, lens: seq<nat>, T: seq<Code>, root: nat, k: nat,
                 next: nat, curr: nat, drop: nat, low: int, used: nat, cur: seq<bool>,
                 t: nat, c: seq<bool>, curr1: nat)
    requires k + 1 < |SortedSyms(lens)|
    requires SortedSyms(lens)[k] < |lens| && SortedSyms(lens)[k + 1] == t < |lens|
    requires Ready(kind, lens, T, root, SortedSyms(lens)[k], k + 1, next, curr, drop, low, used, cur)
    requires root < lens[t] && c == CodeBits(lens, t) && Num(c[..root]) != low
    requires curr1 == SubBits(lens, root, Block(lens, root, t), |lens|)
    requires lens[t] <= root + curr1 <= MAX_BITS
    requires used + Pow2(curr1) <= |T| && !TooLarge(kind, used + Pow2(curr1))
    ensures Num(c[..root]) < |T|
    ensures Ready(kind, lens, T[Num(c[..root]) := Code(curr1, root, used)], root, t, k + 1,
                  used, curr1, root, Num(c[..root]), used + Pow2(curr1), c[..root])
  {
    hide SortedSyms, Placed, Progress, Sized, Block, SubBits;
    var s := SortedSyms(lens)[k];
    NewBlock(lens, root, k, drop, curr, next, used, cur, T);
    UsedRoom(T, root, drop, curr, next, used, cur, CodeBits(lens, s));
    LinkStep(kind, lens, T, root, next, used, cur, k, curr1);
    PlacedLink(T, root, next, used, curr1, c);
    SizedLink(lens, root, k, drop, curr, used, curr1);
  }

  lemma {:induction false} UsedRoom(T: seq<Code>, root: nat, drop: nat, curr: nat, next: nat, used: nat,
                 cur: seq<bool>, c: seq<bool>)
    requires Placed(T, root, drop, curr, next, used, cur, c)
    ensures next <= used <= |T| && Pow2(root) <= used
    ensures drop == if |c| <= root then 0 else root
  {
  }

  lemma {:induction false} NewBlock(lens: seq<nat>, root: nat, k: nat, drop: nat, curr: nat, next: nat, used: nat,
                 cur: seq<bool>, T: seq<Code>)
    requires Fits(lens) && 0 < root <= MAX_BITS && k + 1 < |SortedSyms(lens)|
    requires SortedSyms(lens)[k] < |lens| && SortedSyms(lens)[k + 1] < |lens|
    requires root < lens[SortedSyms(lens)[k + 1]]
    requires Placed(T, root, drop, curr, next, used, cur, CodeBits(lens, SortedSyms(lens)[k]))
    requires drop > 0 ==> Num(CodeBits(lens, SortedSyms(lens)[k + 1])[..root]) != Num(cur)
    ensures lens[SortedSyms(lens)[k]] <= root ||
            Block(lens, root, SortedSyms(lens)[k]) != Block(lens, root, SortedSyms(lens)[k + 1])
  {
    if lens[SortedSyms(lens)[k]] > root {
      SameBlock(lens, root, SortedSyms(lens)[k], SortedSyms(lens)[k + 1]);
    }
  }

  // The first symbol of the list is set up in the root table.
  lemma {:induction false} StartFilling(kind: CodeType, lens: seq<nat>, T: seq<Code>, root: nat, count: seq<nat>, min: nat)
    requires Fits(lens) && |lens| <= MaxSyms(kind) && MaxLen(lens) > 0 && min == MinLen(lens)
    requires |count| == MAX_BITS + 1 && forall l :: 0 <= l <= MAX_BITS ==> count[l] == Count(lens, l)
    requires min <= root <= MAX_BITS && Pow2(root) <= |T| && !TooLarge(kind, Pow2(root))
    ensures Filling(kind, lens, T, root, count, 0, min, 0, 0, root, 0, -1, Pow2(root), Zeros(root))
  {
    var i := MaxLenAttained(lens);
    SymsUpToLists(lens, MAX_BITS);
    assert i in SortedSyms(lens);
    FirstLength(lens, min);
    PosFirst(lens);
    var s := SortedSyms(lens)[0];
    PosOfCode(lens, s);
    MulZero(Pow2(MAX_BITS - lens[s]), CodeOf(lens, s));
    MsbZero(lens[s]);
  }

  // The list starts with the codes of the least length.
  lemma {:induction false} FirstLength(lens: seq<nat>, min: nat)
    requires LensOk(lens) && SortedSyms(lens) != [] && min == MinLen(lens)
    ensures 0 < min <= MAX_BITS && SortedSyms(lens)[0] < |lens| && lens[SortedSyms(lens)[0]] == min
    ensures |SymsUpTo(lens, min - 1)| == 0 && 0 < |SymsUpTo(lens, min)| <= |SortedSyms(lens)|
    ensures |SymsUpTo(lens, min)| == Count(lens, min)
  {
    hide SymsUpTo, Count;
    var w := SortedSyms(lens);
    SymsUpToLists(lens, MAX_BITS);
    MinLenBound(lens, w[0]);
    var j := MinLenAttained(lens);
    assert j in w;
    var i :| 0 <= i < |w| && w[i] == j;
    PosGrows(lens, 0, i);
    ListedLen(lens, min - 1, 0);
    ListedLen(lens, min, 0);
    SymsUpToPrefix(lens, min, MAX_BITS);
    SegmentSize(lens, min);
  }

  // Everything is entered: the table is the one for the code.
  lemma {:induction false} AllEntered(kind: CodeType, lens: seq<nat>, T: seq<Code>, root: nat, used: nat, next: nat, cur: seq<bool>)
    requires Fits(lens) && |lens| <= MaxSyms(kind) && 0 < root <= MAX_BITS
    requires Pow2(root) <= used <= |T| && next <= used
    requires Progress(kind, lens, T, root, next, used, cur, |SortedSyms(lens)|)
    ensures forall s :: 0 <= s < |lens| && lens[s] > 0 ==>
              if lens[s] <= root then Short(T[..used], root, CodeBits(lens, s), Here(kind, s, lens[s]))
              else Long(T[..used], root, used, CodeBits(lens, s), Here(kind, s, lens[s] - root))
  {
    hide Pow2, CodeBits, Here, SymsUpTo, Short, Long;
    SymsUpToLists(lens, MAX_BITS);
    forall s | 0 <= s < |lens| && lens[s] > 0
      ensures if lens[s] <= root then Short(T[..used], root, CodeBits(lens, s), Here(kind, s, lens[s]))
              else Long(T[..used], root, used, CodeBits(lens, s), Here(kind, s, lens[s] - root))
    {
      assert s in SortedSyms(lens);
      var i :| 0 <= i < |SortedSyms(lens)| && SortedSyms(lens)[i] == s;
      assert Entered(kind, lens, T, root, next, used, cur, s);
      if lens[s] <= root {
        ShortCut(T, root, used, CodeBits(lens, s), Here(kind, s, lens[s]));
      } else {
        LongCut(T, root, next, used, cur, CodeBits(lens, s), Here(kind, s, lens[s] - root));
      }
    }
  }

  lemma {:induction false} ShortCut(T: seq<Code>, root: nat, used: nat, c: seq<bool>, here: Code)
    requires Short(T, root, c, here) && Pow2(root) <= used <= |T|
    ensures Short(T[..used], root, c, here)
  {
    ShortAside(T, T[..used] + T[used..], root, used, c, here);
  }

  lemma {:induction false} LongCut(T: seq<Code>, root: nat, next: nat, used: nat, cur: seq<bool>, c: seq<bool>, here: Code)
    requires root < |c|
    requires Long(T, root, next, c, here) || (c[..root] == cur && Long(T, root, used, c, here))
    requires next <= used <= |T|
    ensures Long(T[..used], root, used, c, here)
  {
    if Long(T, root, next, c, here) {
      LongRaise(T, root, next, used, c, here);
    }
    var e := T[Num(c[..root])];
    forall q: seq<bool> {:trigger Num(q)} | |q| == e.op && c[root..] <= q
      ensures T[..used][e.val + Num(q)] == here
    {
    }
  }

  // Enter the code of symbol number `k` and increment it.
  method EnterCode(kind: CodeType, lens: seq<nat>, table: array<Code>, start: nat, root: nat,
                   sym: nat, len: nat, huff: nat, next: nat, curr: nat, drop: nat,
                   ghost k: nat, ghost low: int, ghost used: nat, ghost cur: seq<bool>) returns (huff1: nat)
    requires LensOk(lens) && |lens| <= MaxSyms(kind) && start <= table.Length
    requires k < |SortedSyms(lens)| && sym == SortedSyms(lens)[k] < |lens| && len == lens[sym] > 0
    requires huff == Num(CodeBits(lens, sym))
    requires Ready(kind, lens, table[start..], root, sym, k, next, curr, drop, low, used, cur)
    modifies table
    ensures Ready(kind, lens, table[start..], root, sym, k + 1, next, curr, drop, low, used, cur)
    ensures huff1 == Num(BackInc(CodeBits(lens, sym)))
    ensures table[..start] == old(table[..start])
  {
    hide *;
    ghost var T, c := table[start..], CodeBits(lens, sym);
    ReadyRoom(kind, lens, T, root, sym, k, next, curr, drop, low, used, cur);
    DropRoot(c, drop);
    ToBitsNum(c);
    var here := Here(kind, sym, len - drop);
    FillEntries(table, start, next, Shr(huff, drop), len - drop, curr, here);
    EnterStep(kind, lens, T, table[start..], root, k, next, curr, drop, low, used, cur);
    huff1 := BackwardIncrement(huff, len);
  }

  lemma {:induction false} ReadyRoom(kind: CodeType, lens: seq<nat>, T: seq<Code>, root: nat, s: nat, k: nat,
                  next: nat, curr: nat, drop: nat, low: int, used: nat, cur: seq<bool>)
    requires LensOk(lens) && s < |lens|
    requires Ready(kind, lens, T, root, s, k, next, curr, drop, low, used, cur)
    ensures drop <= lens[s] && lens[s] - drop <= curr && next + Pow2(curr) <= |T|
    ensures drop <= |CodeBits(lens, s)|
  {
    hide Progress, Sized;
    TableRoom(T, root, drop, curr, next, used, cur, CodeBits(lens, s));
  }

  lemma {:induction false} TableRoom(T: seq<Code>, root: nat, drop: nat, curr: nat, next: nat, used: nat,
                  cur: seq<bool>, c: seq<bool>)
    requires Placed(T, root, drop, curr, next, used, cur, c)
    ensures drop <= |c| && |c| - drop <= curr && next + Pow2(curr) <= |T|
  {
  }

  // What the table in use and the next code say about opening a sub-table.
  lemma {:induction false} BeforeOpen(kind: CodeType, lens: seq<nat>, T: seq<Code>, root: nat, count: seq<nat>, k: nat, len: nat,
                   next: nat, curr: nat, drop: nat, low: int, used: nat, cur: seq<bool>, t: nat)
    requires LensOk(lens) && Current(lens, count, k + 1, len)
    requires SortedSyms(lens)[k] < |lens| && t == SortedSyms(lens)[k + 1] && lens[SortedSyms(lens)[k]] > 0
    requires Ready(kind, lens, T, root, SortedSyms(lens)[k], k + 1, next, curr, drop, low, used, cur)
    requires root < len && Num(CodeBits(lens, t)[..root]) != low
    ensures Pos(lens, t) == BlockAt(root, Block(lens, root, t))
    ensures used <= |T| && Num(CodeBits(lens, t)[..root]) < |T|
    ensures Sized(lens, root, SortedSyms(lens)[k], drop, curr, used)
    ensures drop == if lens[SortedSyms(lens)[k]] <= root then 0 else root
    ensures drop > 0 ==> Block(lens, root, SortedSyms(lens)[k]) != Block(lens, root, t)
    ensures drop == 0 || drop == root
    ensures len <= MaxLen(lens) <= MAX_BITS
  {
    hide SortedSyms, Sized, Progress, Placed, Pow2, Block, CodeBits, Num, Pos, SymsUpTo, MaxLen;
    UsedRoom(T, root, drop, curr, next, used, cur, CodeBits(lens, SortedSyms(lens)[k]));
    NewBlock(lens, root, k, drop, curr, next, used, cur, T);
    BlockAtStart(lens, root, k);
    MaxLenBound(lens, t);
    var i := MaxLenAttained(lens);
  }

  lemma {:induction false} BlockAtStart(lens: seq<nat>, root: nat, k: nat)
    requires LensOk(lens) && root <= MAX_BITS && k + 1 < |SortedSyms(lens)|
    requires SortedSyms(lens)[k] < |lens| && SortedSyms(lens)[k + 1] < |lens|
    requires lens[SortedSyms(lens)[k]] > 0
    requires lens[SortedSyms(lens)[k]] <= root ||
             Block(lens, root, SortedSyms(lens)[k]) != Block(lens, root, SortedSyms(lens)[k + 1])
    ensures Pos(lens, SortedSyms(lens)[k + 1]) == BlockAt(root, Block(lens, root, SortedSyms(lens)[k + 1]))
  {
    hide Pow2, SortedSyms, Pos, Block, Times;
    BlockStart(lens, root, k);
    TimesIs(Block(lens, root, SortedSyms(lens)[k + 1]), Pow2(MAX_BITS - root));
  }

  // A sub-table that does not fit means that the whole table does not.
  lemma {:induction false} Overflow(kind: CodeType, lens: seq<nat>, root: nat, k: nat, drop: nat, curr: nat, used: nat, curr1: nat)
    requires Fits(lens) && 0 < root <= MAX_BITS && k + 1 < |SortedSyms(lens)|
    requires SortedSyms(lens)[k] < |lens| && SortedSyms(lens)[k + 1] < |lens|
    requires Sized(lens, root, SortedSyms(lens)[k], drop, curr, used)
    requires drop == if lens[SortedSyms(lens)[k]] <= root then 0 else root
    requires drop > 0 ==> Block(lens, root, SortedSyms(lens)[k]) != Block(lens, root, SortedSyms(lens)[k + 1])
    requires curr1 == SubBits(lens, root, Block(lens, root, SortedSyms(lens)[k + 1]), |lens|) > 0
    requires lens[SortedSyms(lens)[k + 1]] > 0
    requires TooLarge(kind, used + Pow2(curr1))
    ensures TooLarge(kind, TableSize(lens, root))
  {
    hide SortedSyms, Sized, SubBits, Block;
    SizedLink(lens, root, k, drop, curr, used, curr1);
    SizedPart(lens, root, SortedSyms(lens)[k + 1], root, curr1, used + Pow2(curr1));
  }

  predicate HasRoom(kind: CodeType, room: nat) {
    match kind
    case CODES => true
    case LENS => ENOUGH_LENS <= room
    case DISTS => ENOUGH_DISTS <= room
  }

  // There is room for the sub-tables, if there are any.
  ghost predicate Enough(kind: CodeType, lens: seq<nat>, root: nat, room: nat) {
    && HasRoom(kind, room)
    && ((LensOk(lens) && Complete(lens) && kind != CODES) || root == MaxLen(lens))
  }

  lemma {:induction false} EnoughForLong(kind: CodeType, lens: seq<nat>, root: nat, room: nat)
    requires Enough(kind, lens, root, room) && root < MaxLen(lens)
    ensures HasRoom(kind, room) && LensOk(lens) && Complete(lens) && kind != CODES
  {
  }

  lemma {:induction false} IsOutgrown(kind: CodeType, lens: seq<nat>, root: nat)
    requires LensOk(lens) && root <= MAX_BITS && TooLarge(kind, TableSize(lens, root))
    ensures Outgrown(kind, lens, root)
  {
  }

  lemma {:induction false} InRoom(kind: CodeType, room: nat, used: nat)
    requires kind != CODES && HasRoom(kind, room) && !TooLarge(kind, used)
    ensures used <= room
  {
  }

  // Symbol number `k` is entered, `huff` is the code of the next symbol `t`, of `len` bits.
  ghost predicate Between(kind: CodeType, lens: seq<nat>, T: seq<Code>, root: nat, count: seq<nat>,
                          k: nat, t: nat, len: nat, huff: nat,
                          next: nat, curr: nat, drop: nat, low: int, used: nat, cur: seq<bool>)
  {
    && LensOk(lens) && Current(lens, count, k + 1, len)
    && SortedSyms(lens)[k] < |lens| && lens[SortedSyms(lens)[k]] > 0 && t == SortedSyms(lens)[k + 1]
    && Ready(kind, lens, T, root, SortedSyms(lens)[k], k + 1, next, curr, drop, low, used, cur)
    && huff == Num(CodeBits(lens, t))
  }

  lemma {:induction false} BetweenParts(kind: CodeType, lens: seq<nat>, T: seq<Code>, root: nat, count: seq<nat>,
                     k: nat, t: nat, len: nat, huff: nat,
                     next: nat, curr: nat, drop: nat, low: int, used: nat, cur: seq<bool>)
    requires Between(kind, lens, T, root, count, k, t, len, huff, next, curr, drop, low, used, cur)
    ensures Fits(lens) && 0 < root <= MAX_BITS && Current(lens, count, k + 1, len)
    ensures k + 1 < |SortedSyms(lens)| && t == SortedSyms(lens)[k + 1]
    ensures SortedSyms(lens)[k] < |lens| && lens[SortedSyms(lens)[k]] > 0
    ensures Ready(kind, lens, T, root, SortedSyms(lens)[k], k + 1, next, curr, drop, low, used, cur)
    ensures t < |lens| && lens[t] == len && huff == Num(CodeBits(lens, t))
    ensures root < len ==> Low(huff, root) == Num(CodeBits(lens, t)[..root])
  {
    NextRoot(CodeBits(lens, t), root);
  }

  lemma {:induction false} LinkedStep(kind: CodeType, lens: seq<nat>, T: seq<Code>, root: nat, count: seq<nat>,
                   k: nat, t: nat, len: nat, huff: nat,
                   next: nat, curr: nat, drop: nat, low: int, used: nat, cur: seq<bool>, curr1: nat)
    requires Between(kind, lens, T, root, count, k, t, len, huff, next, curr, drop, low, used, cur)
    requires root < len && Low(huff, root) != low
    requires t < |lens| && curr1 == SubBits(lens, root, Block(lens, root, t), |lens|)
    requires len <= root + curr1 <= MAX_BITS
    requires used + Pow2(curr1) <= |T| && !TooLarge(kind, used + Pow2(curr1))
    ensures Low(huff, root) < |T| && root < |CodeBits(lens, t)|
    ensures Filling(kind, lens, T[Low(huff, root) := Code(curr1, root, used)], root, count, k + 1, len, huff,
                    used, curr1, root, Low(huff, root), used + Pow2(curr1), CodeBits(lens, t)[..root])
  {
    hide *;
    BetweenParts(kind, lens, T, root, count, k, t, len, huff, next, curr, drop, low, used, cur);
    OpenStep(kind, lens, T, root, k, next, curr, drop, low, used, cur, t, CodeBits(lens, t), curr1);
    MakeFilling(kind, lens, T[Low(huff, root) := Code(curr1, root, used)], root, count, k + 1, len, huff,
                used, curr1, root, Low(huff, root), used + Pow2(curr1), CodeBits(lens, t)[..root]);
  }

  lemma {:induction false} MakeFilling(kind: CodeType, lens: seq<nat>, T: seq<Code>, root: nat, count: seq<nat>,
                    sym: nat, len: nat, huff: nat, next: nat, curr: nat, drop: nat, low: int,
                    used: nat, cur: seq<bool>)
    requires LensOk(lens) && Current(lens, count, sym, len)
    requires huff == Num(CodeBits(lens, SortedSyms(lens)[sym]))
    requires Ready(kind, lens, T, root, SortedSyms(lens)[sym], sym, next, curr, drop, low, used, cur)
    ensures Filling(kind, lens, T, root, count, sym, len, huff, next, curr, drop, low, used, cur)
  {
  }

  lemma {:induction false} StayedStep(kind: CodeType, lens: seq<nat>, T: seq<Code>, root: nat, count: seq<nat>,
                   k: nat, t: nat, len: nat, huff: nat,
                   next: nat, curr: nat, drop: nat, low: int, used: nat, cur: seq<bool>)
    requires Between(kind, lens, T, root, count, k, t, len, huff, next, curr, drop, low, used, cur)
    requires len <= root || Low(huff, root) == low
    ensures Filling(kind, lens, T, root, count, k + 1, len, huff, next, curr, drop, low, used, cur)
  {
    hide *;
    BetweenParts(kind, lens, T, root, count, k, t, len, huff, next, curr, drop, low, used, cur);
    StayStep(kind, lens, T, root, k, next, curr, drop, low, used, cur);
    MakeFilling(kind, lens, T, root, count, k + 1, len, huff, next, curr, drop, low, used, cur);
  }

  // The counts and the code after the increment, when the list goes on.
  lemma {:induction false} GoOn(kind: CodeType, lens: seq<nat>, T: seq<Code>, root: nat, count: seq<nat>, count1: seq<nat>,
             k: nat, s: nat, len: nat, len1: nat, huff: nat,
             next: nat, curr: nat, drop: nat, low: int, used: nat, cur: seq<bool>)
    requires LensOk(lens) && Current(lens, count, k, len) && s == SortedSyms(lens)[k]
    requires Ready(kind, lens, T, root, s, k + 1, next, curr, drop, low, used, cur)
    requires huff == Num(BackInc(CodeBits(lens, s)))
    requires k + 1 < |SortedSyms(lens)| && Current(lens, count1, k + 1, len1)
    ensures Between(kind, lens, T, root, count1, k, SortedSyms(lens)[k + 1], len1, huff,
                    next, curr, drop, low, used, cur)
  {
    hide Ready, CodeBits, SortedSyms, Num, BackInc;
    HuffNext(lens, k);
  }

  lemma {:induction false} FillingParts(kind: CodeType, lens: seq<nat>, T: seq<Code>, root: nat, count: seq<nat>,
                     sym: nat, len: nat, huff: nat, next: nat, curr: nat, drop: nat, low: int,
                     used: nat, cur: seq<bool>)
    requires Filling(kind, lens, T, root, count, sym, len, huff, next, curr, drop, low, used, cur)
    ensures Fits(lens) && |lens| <= MaxSyms(kind) && 0 < root <= MAX_BITS && Current(lens, count, sym, len)
    ensures sym < |SortedSyms(lens)| && SortedSyms(lens)[sym] < |lens| && lens[SortedSyms(lens)[sym]] == len > 0
    ensures huff == Num(CodeBits(lens, SortedSyms(lens)[sym])) && |count| == MAX_BITS + 1 && count[len] > 0
    ensures Ready(kind, lens, T, root, SortedSyms(lens)[sym], sym, next, curr, drop, low, used, cur)
    ensures drop <= len && len <= MAX_BITS
  {
    TableRoom(T, root, drop, curr, next, used, cur, CodeBits(lens, SortedSyms(lens)[sym]));
  }

  lemma {:induction false} NeedsTable(kind: CodeType, lens: seq<nat>, T: seq<Code>, root: nat, count: seq<nat>,
                   k: nat, t: nat, len: nat, huff: nat,
                   next: nat, curr: nat, drop: nat, low: int, used: nat, cur: seq<bool>)
    requires Between(kind, lens, T, root, count, k, t, len, huff, next, curr, drop, low, used, cur)
    requires root < len && Low(huff, root) != low
    ensures Fits(lens) && 0 < root < len <= MaxLen(lens) <= MAX_BITS && t < |lens| && lens[t] == len
    ensures Current(lens, count, k + 1, len) && SortedSyms(lens)[k + 1] == t
    ensures Pos(lens, t) == BlockAt(root, Block(lens, root, t))
  {
    hide *;
    BetweenParts(kind, lens, T, root, count, k, t, len, huff, next, curr, drop, low, used, cur);
    BeforeOpen(kind, lens, T, root, count, k, len, next, curr, drop, low, used, cur, t);
  }

  lemma {:induction false} OverflowStep(kind: CodeType, lens: seq<nat>, T: seq<Code>, root: nat, count: seq<nat>,
                     k: nat, t: nat, len: nat, huff: nat,
                     next: nat, curr: nat, drop: nat, low: int, used: nat, cur: seq<bool>, curr1: nat)
    requires Between(kind, lens, T, root, count, k, t, len, huff, next, curr, drop, low, used, cur)
    requires root < len && Low(huff, root) != low
    requires LensOk(lens) && t < |lens| && root <= MAX_BITS
    requires curr1 == SubBits(lens, root, Block(lens, root, t), |lens|) > 0
    requires TooLarge(kind, used + Pow2(curr1))
    ensures TooLarge(kind, TableSize(lens, root))
  {
    hide *;
    BetweenParts(kind, lens, T, root, count, k, t, len, huff, next, curr, drop, low, used, cur);
    BeforeOpen(kind, lens, T, root, count, k, len, next, curr, drop, low, used, cur, t);
    Overflow(kind, lens, root, k, drop, curr, used, curr1);
  }

  // Size a new sub-table for symbol number k + 1, unless the whole table outgrows its space.
  method SizeTable(kind: CodeType, lens: seq<nat>, root: nat,
                   count: array<nat>, len: nat, max: nat, huff: nat, used: nat, ghost T: seq<Code>,
                   ghost next: nat, ghost curr0: nat, ghost drop: nat, ghost low: int,
                   ghost k: nat, ghost t: nat, ghost cur: seq<bool>)
    returns (full: bool, curr: nat, ghost cur1: seq<bool>)
    requires max == MaxLen(lens)
    requires Between(kind, lens, T, root, count[..], k, t, len, huff, next, curr0, drop, low, used, cur)
    requires root < len && Low(huff, root) != low
    requires Enough(kind, lens, root, |T|)
    ensures full ==> Outgrown(kind, lens, root)
    ensures !full ==> Low(huff, root) < |T|
    ensures !full ==> Filling(kind, lens, T[Low(huff, root) := Code(curr, root, used)], root, count[..],
                              k + 1, len, huff, used, curr, root, Low(huff, root), used + Pow2(curr), cur1)
  {
    hide *;
    NeedsTable(kind, lens, T, root, count[..], k, t, len, huff, next, curr0, drop, low, used, cur);
    EnoughForLong(kind, lens, root, |T|);
    curr := SubTableBits(count, len, max, root, lens, k + 1);
    full := TooLarge(kind, used + Pow2(curr));
    cur1 := cur;
    if full {
      OverflowStep(kind, lens, T, root, count[..], k, t, len, huff, next, curr0, drop, low, used, cur, curr);
      IsOutgrown(kind, lens, root);
    } else {
      InRoom(kind, |T|, used + Pow2(curr));
      LinkedStep(kind, lens, T, root, count[..], k, t, len, huff, next, curr0, drop, low, used, cur, curr);
      cur1 := CodeBits(lens, t)[..root];
    }
  }

  lemma {:induction false} NextRoot(c: seq<bool>, root: nat)
    ensures root < |c| ==> Low(Num(c), root) == Num(c[..root])
  {
    if root < |c| {
      DropRoot(c, root);
    }
  }

  // Before the last code is entered there is more to come unless the greatest length is used up.
  lemma {:induction false} CountDown(lens: seq<nat>, count: seq<nat>, k: nat, len: nat)
    requires LensOk(lens) && Current(lens, count, k, len)
    ensures |count| == MAX_BITS + 1 && count[len] > 0 && k < |SortedSyms(lens)|
    ensures count[len] > 1 ==> k + 1 < |SortedSyms(lens)| && Current(lens, count[len := count[len] - 1], k + 1, len)
    ensures count[len] == 1 ==> (len == MaxLen(lens) <==> k + 1 == |SortedSyms(lens)|)
    ensures count[len] == 1 && k + 1 < |SortedSyms(lens)| ==>
              && SortedSyms(lens)[k + 1] < |lens|
              && Current(lens, count[len := 0], k + 1, lens[SortedSyms(lens)[k + 1]])
  {
    hide SortedSyms, SymsUpTo, Count, MaxLen;
    if count[len] > 1 {
      CurrentSame(lens, count, k, len);
    } else {
      ListEnd(lens, count, k, len);
      if k + 1 < |SortedSyms(lens)| {
        CurrentNext(lens, count, k, len);
      }
    }
  }

  // The state of the loop once everything is entered.
  ghost predicate Finished(kind: CodeType, lens: seq<nat>, T: seq<Code>, root: nat, len: nat, huff: nat,
                           next: nat, curr: nat, drop: nat, low: int, used: nat, cur: seq<bool>)
  {
    && LensOk(lens) && 0 < |SortedSyms(lens)| && SortedSyms(lens)[|SortedSyms(lens)| - 1] < |lens|
    && len == lens[SortedSyms(lens)[|SortedSyms(lens)| - 1]] > 0
    && huff == Num(BackInc(CodeBits(lens, SortedSyms(lens)[|SortedSyms(lens)| - 1])))
    && Ready(kind, lens, T, root, SortedSyms(lens)[|SortedSyms(lens)| - 1], |SortedSyms(lens)|,
             next, curr, drop, low, used, cur)
  }

  lemma {:induction false} MakeFinished(kind: CodeType, lens: seq<nat>, T: seq<Code>, root: nat, k: nat, len: nat, huff: nat,
                     next: nat, curr: nat, drop: nat, low: int, used: nat, cur: seq<bool>)
    requires LensOk(lens) && k + 1 == |SortedSyms(lens)| && SortedSyms(lens)[k] < |lens|
    requires len == lens[SortedSyms(lens)[k]] > 0 && huff == Num(BackInc(CodeBits(lens, SortedSyms(lens)[k])))
    requires Ready(kind, lens, T, root, SortedSyms(lens)[k], k + 1, next, curr, drop, low, used, cur)
    ensures Finished(kind, lens, T, root, len, huff, next, curr, drop, low, used, cur)
  {
  }

  // The registers of the main loop.
  datatype Regs = Regs(sym: nat, len: nat, huff: nat, next: nat, curr: nat, drop: nat, low: int, used: nat)

  ghost predicate Running(kind: CodeType, lens: seq<nat>, T: seq<Code>, root: nat, count: seq<nat>,
                          r: Regs, cur: seq<bool>)
  {
    Filling(kind, lens, T, root, count, r.sym, r.len, r.huff, r.next, r.curr, r.drop, r.low, r.used, cur)
  }

  ghost predicate Done(kind: CodeType, lens: seq<nat>, T: seq<Code>, root: nat, r: Regs, cur: seq<bool>)
  {
    Finished(kind, lens, T, root, r.len, r.huff, r.next, r.curr, r.drop, r.low, r.used, cur)
  }

  lemma {:induction false} MakeRunning(kind: CodeType, lens: seq<nat>, T: seq<Code>, root: nat, count: seq<nat>,
                    r: Regs, cur: seq<bool>)
    requires Filling(kind, lens, T, root, count, r.sym, r.len, r.huff, r.next, r.curr, r.drop, r.low, r.used, cur)
    ensures Running(kind, lens, T, root, count, r, cur)
  {
  }

  // Set up the table for symbol number k + 1: a new sub-table if it needs one.
  method SetUp(kind: CodeType, lens: seq<nat>, table: array<Code>, start: nat, root: nat,
               count: array<nat>, max: nat, r0: Regs, ghost k: nat, ghost t: nat, ghost cur0: seq<bool>)
    returns (full: bool, r: Regs, ghost cur: seq<bool>)
    requires start <= table.Length && max == MaxLen(lens) && r0.sym == k + 1
    requires Between(kind, lens, table[start..], root, count[..], k, t, r0.len, r0.huff,
                     r0.next, r0.curr, r0.drop, r0.low, r0.used, cur0)
    requires Enough(kind, lens, root, table.Length - start)
    modifies table
    ensures full ==> Outgrown(kind, lens, root)
    ensures !full ==> Running(kind, lens, table[start..], root, count[..], r, cur) && r.sym == k + 1
    ensures table[..start] == old(table[..start])
  {
    hide *;
    var Regs(sym, len, huff, next, curr, drop, low, used) := r0;
    ghost var T := table[start..];
    if len > root && Low(huff, root) != low {
      full, curr, cur := SizeTable(kind, lens, root, count, len, max, huff, used, T,
                                   next, curr, drop, low, k, t, cur0);
      r := Regs(sym, len, huff, used, curr, root, Low(huff, root), used + Pow2(curr));
      if !full {
        table[start + Low(huff, root)] := Code(curr, root, used);
        assert table[start..] == T[Low(huff, root) := Code(curr, root, used)];
        MakeRunning(kind, lens, table[start..], root, count[..], r, cur);
      }
    } else {
      StayedStep(kind, lens, T, root, count[..], k, t, len, huff, next, curr, drop, low, used, cur0);
      r, full, cur := r0, false, cur0;
      MakeRunning(kind, lens, table[start..], root, count[..], r, cur);
    }
  }

  lemma {:induction false} RunningParts(kind: CodeType, lens: seq<nat>, T: seq<Code>, root: nat, count: seq<nat>,
                     r: Regs, cur: seq<bool>, w: seq<nat>, max: nat)
    requires Running(kind, lens, T, root, count, r, cur) && w == SortedSyms(lens) && max == MaxLen(lens)
    ensures LensOk(lens) && |lens| <= MaxSyms(kind) && Current(lens, count, r.sym, r.len)
    ensures r.sym < |w| && w[r.sym] < |lens| && lens[w[r.sym]] == r.len
    ensures r.huff == Num(CodeBits(lens, w[r.sym])) && 0 < r.len < |count| && count[r.len] > 0
    ensures Ready(kind, lens, T, root, w[r.sym], r.sym, r.next, r.curr, r.drop, r.low, r.used, cur)
    ensures count[r.len] == 1 ==> (r.len == max <==> r.sym + 1 == |w|)
    ensures r.sym + 1 < |w| ==> w[r.sym + 1] < |lens|
    ensures r.sym + 1 < |w| ==>
              Current(lens, count[r.len := count[r.len] - 1], r.sym + 1,
                      if count[r.len] == 1 then lens[w[r.sym + 1]] else r.len)
    ensures count[r.len] > 1 ==> r.sym + 1 < |w|
  {
    FillingParts(kind, lens, T, root, count, r.sym, r.len, r.huff, r.next, r.curr, r.drop, r.low, r.used, cur);
    CountDown(lens, count, r.sym, r.len);
  }

  lemma {:induction false} MakeDone(kind: CodeType, lens: seq<nat>, T: seq<Code>, root: nat, k: nat, w: seq<nat>,
                 r: Regs, cur: seq<bool>)
    requires LensOk(lens) && w == SortedSyms(lens) && k + 1 == |w| && w[k] < |lens|
    requires r.len == lens[w[k]] > 0 && r.huff == Num(BackInc(CodeBits(lens, w[k])))
    requires Ready(kind, lens, T, root, w[k], k + 1, r.next, r.curr, r.drop, r.low, r.used, cur)
    ensures Done(kind, lens, T, root, r, cur)
  {
    hide *;
    MakeFinished(kind, lens, T, root, k, r.len, r.huff, r.next, r.curr, r.drop, r.low, r.used, cur);
    DoneIs(kind, lens, T, root, r, cur);
  }

  lemma {:induction false} DoneIs(kind: CodeType, lens: seq<nat>, T: seq<Code>, root: nat, r: Regs, cur: seq<bool>)
    requires Finished(kind, lens, T, root, r.len, r.huff, r.next, r.curr, r.drop, r.low, r.used, cur)
    ensures Done(kind, lens, T, root, r, cur)
  {
  }

  // Enter the current code and step to the next symbol, unless it was the last one.
  method EnterNext(kind: CodeType, lens: seq<nat>, table: array<Code>, start: nat, root: nat,
                   count: array<nat>, work: array<nat>, max: nat, r0: Regs,
                   ghost cur: seq<bool>, ghost w: seq<nat>)
    returns (done: bool, r: Regs)
    requires start <= table.Length && work != count && w == SortedSyms(lens)
    requires Running(kind, lens, table[start..], root, count[..], r0, cur)
    requires work[..] == w && max == MaxLen(lens)
    modifies table, count
    ensures done ==> Done(kind, lens, table[start..], root, r, cur)
    ensures !done ==> r.sym == r0.sym + 1 < |w| &&
                      Between(kind, lens, table[start..], root, count[..], r0.sym, w[r.sym], r.len, r.huff,
                              r.next, r.curr, r.drop, r.low, r.used, cur)
    ensures table[..start] == old(table[..start])
  {
    hide *;
    var Regs(sym, len, huff, next, curr, drop, low, used) := r0;
    ghost var k, C := sym, count[..];
    RunningParts(kind, lens, table[start..], root, C, r0, cur, w, max);
    huff := EnterCode(kind, lens, table, start, root, work[sym], len, huff, next, curr, drop, k, low, used, cur);
    sym := sym + 1;
    count[len] := count[len] - 1;
    assert count[..] == C[len := C[len] - 1];
    done := false;
    if count[len] == 0 {
      if len == max {
        r, done := Regs(sym, len, huff, next, curr, drop, low, used), true;
        MakeDone(kind, lens, table[start..], root, k, w, r, cur);
        return;
      }
      len := lens[work[sym]];
    }
    GoOn(kind, lens, table[start..], root, C, count[..], k, w[k], r0.len, len, huff, next, curr, drop, low, used, cur);
    r := Regs(sym, len, huff, next, curr, drop, low, used);
  }

  /** The main loop: all codes are entered in order, sub-tables are opened as needed;
      `full` when the table outgrows its space. */
  method FillTable(kind: CodeType, lens: seq<nat>, table: array<Code>, start: nat, root: nat,
                   count: array<nat>, work: array<nat>, max: nat, min: nat)
    returns (full: bool, r: Regs, ghost cur: seq<bool>)
    requires start <= table.Length && work != count
    requires Filling(kind, lens, table[start..], root, count[..], 0, min, 0, 0, root, 0, -1, Pow2(root), Zeros(root))
    requires work[..] == SortedSyms(lens) && max == MaxLen(lens)
    requires Enough(kind, lens, root, table.Length - start)
    modifies table, count
    ensures full ==> Outgrown(kind, lens, root)
    ensures !full ==> Done(kind, lens, table[start..], root, r, cur)
    ensures table[..start] == old(table[..start])
  {
    ghost var w := SortedSyms(lens);
    hide *;
    r := Regs(0, min, 0, 0, root, 0, -1, Pow2(root));
    cur := Zeros(root);
    full := false;
    MakeRunning(kind, lens, table[start..], root, count[..], r, cur);
    while true
      invariant Running(kind, lens, table[start..], root, count[..], r, cur)
      invariant work[..] == w && table[..start] == old(table[..start])
      decreases |w| - r.sym
    {
      var done;
      ghost var k := r.sym;
      done, r := EnterNext(kind, lens, table, start, root, count, work, max, r, cur, w);
      if done {
        return;
      }
      full, r, cur := SetUp(kind, lens, table, start, root, count, max, r, k, w[r.sym], cur);
      if full {
        return;
      }
    }
  }

  // An incomplete set that passes has one code, a single zero bit.
  lemma {:induction false} SingleCode(lens: seq<nat>)
    requires Fits(lens) && !Complete(lens) && MaxLen(lens) == 1
    ensures |SortedSyms(lens)| == 1 && SortedSyms(lens)[0] < |lens| && lens[SortedSyms(lens)[0]] == 1
    ensures CodeBits(lens, SortedSyms(lens)[0]) == [false]
  {
    var w := SortedSyms(lens);
    SymsUpToLists(lens, MAX_BITS);
    var i := MaxLenAttained(lens);
    assert i in w;
    PosFirst(lens);
    MaxLenBound(lens, w[0]);
    PosOfCode(lens, w[0]);
    MulZero(Pow2(MAX_BITS - 1), CodeOf(lens, w[0]));
    MsbLast(0, 1);
    if |w| > 1 {
      PosNext(lens, 0);
      MaxLenBound(lens, w[1]);
      PosKraft(lens, w[1]);
    }
  }

  lemma {:induction false} FinishComplete(kind: CodeType, lens: seq<nat>, T: seq<Code>, root: nat, r: Regs, cur: seq<bool>)
    requires Done(kind, lens, T, root, r, cur) && Complete(lens)
    ensures r.huff == 0 && |lens| <= MaxSyms(kind)
    ensures r.used == TableSize(lens, root) <= |T| && !TooLarge(kind, r.used)
    ensures TableFor(kind, lens, T[..r.used], root)
  {
    hide SortedSyms, Sized, Progress, TableSize, Placed, BackInc, Num, CodeBits, Short, Long, Pow2, Here;
    var k := |SortedSyms(lens)| - 1;
    HuffLast(lens, k);
    UsedRoom(T, root, r.drop, r.curr, r.next, r.used, cur, CodeBits(lens, SortedSyms(lens)[k]));
    SizedEnd(lens, root, k, r.drop, r.curr, r.used);
    AllEntered(kind, lens, T, root, r.used, r.next, cur);
  }

  lemma {:induction false} FinishSingle(kind: CodeType, lens: seq<nat>, T: seq<Code>, root: nat, r: Regs, cur: seq<bool>)
    requires Done(kind, lens, T, root, r, cur) && !Complete(lens) && MaxLen(lens) == 1 && root == 1
    ensures r.huff == 1 && r.len == 1 && r.drop == 0 && r.next == 0 && |lens| <= MaxSyms(kind)
    ensures r.used == TableSize(lens, root) == 2 <= |T| && !TooLarge(kind, r.used)
    ensures TableFor(kind, lens, T[1 := INVALID][..2], root)
  {
    SingleCode(lens);
    var s := SortedSyms(lens)[0];
    assert BackInc([false]) == [true];
    SizedEnd(lens, root, 0, r.drop, r.curr, r.used);
    AllEntered(kind, lens, T, root, r.used, r.next, cur);
    SingleTable(kind, lens, T[..2], s);
    assert T[1 := INVALID][..2] == T[..2][1 := INVALID];
  }

  lemma {:induction false} OneBitStrings(p: seq<bool>)
    requires |p| == 1
    ensures [false] <= p ==> Num(p) == 0
    ensures !([false] <= p) ==> Num(p) == 1
  {
    assert p == [p[0]];
  }

  lemma {:induction false} OnlySymbol(lens: seq<nat>, s: nat, t: nat)
    requires LensOk(lens) && MaxLen(lens) == 1 && SortedSyms(lens) == [s] && t < |lens|
    ensures lens[t] <= 1 && (lens[t] > 0 ==> t == s)
  {
    MaxLenBound(lens, t);
    SymsUpToLists(lens, MAX_BITS);
    if lens[t] > 0 {
      assert t in SortedSyms(lens);
    }
  }

  lemma {:induction false} SingleTable(kind: CodeType, lens: seq<nat>, T: seq<Code>, s: nat)
    requires LensOk(lens) && |lens| <= MaxSyms(kind) && |T| == 2 && !Complete(lens) && MaxLen(lens) == 1
    requires s < |lens| && lens[s] == 1 && CodeBits(lens, s) == [false] && SortedSyms(lens) == [s]
    requires Short(T, 1, CodeBits(lens, s), Here(kind, s, 1))
    ensures TableFor(kind, lens, T[1 := INVALID], 1)
  {
    var T1 := T[1 := INVALID];
    forall t | 0 <= t < |lens|
      ensures lens[t] <= 1 && (lens[t] > 0 ==> t == s)
    {
      OnlySymbol(lens, s, t);
    }
    hide Num, MaxLen, SortedSyms, CodeBits, Here, Complete;
    assert Pow2(1) == 2;
    forall p: seq<bool> {:trigger Num(p)} | |p| == 1
      ensures [false] <= p ==> T1[Num(p)] == Here(kind, s, 1)
      ensures !([false] <= p) ==> T1[Num(p)] == INVALID
    {
      OneBitStrings(p);
    }
  }

  lemma {:induction false} EmptyTable(kind: CodeType, lens: seq<nat>)
    requires LensOk(lens) && |lens| <= MaxSyms(kind) && MaxLen(lens) == 0
    ensures TableFor(kind, lens, [INVALID, INVALID], 1)
  {
    forall t | 0 <= t < |lens|
      ensures lens[t] == 0
    {
      MaxLenBound(lens, t);
    }
    KraftOfUnused(lens);
    assert Pow2(1) == 2;
  }

  // What the lengths say about the root of the table.
  lemma {:induction false} RootFacts(kind: CodeType, lens: seq<nat>, req: nat, root: nat)
    requires LensOk(lens) && MaxLen(lens) > 0 && 0 < req <= MAX_BITS && root == RootBits(lens, req)
    requires !Rejected(kind, lens) && (kind == CODES ==> MaxLen(lens) <= req)
    ensures Fits(lens) && MinLen(lens) <= root <= MaxLen(lens) <= MAX_BITS && 0 < root
    ensures !Complete(lens) ==> MaxLen(lens) == 1 && root == 1
    ensures kind == CODES ==> root == MaxLen(lens)
  {
    MinAtMostMax(lens);
  }

  lemma {:induction false} RootTooLarge(kind: CodeType, lens: seq<nat>, root: nat)
    requires LensOk(lens) && root <= MAX_BITS && TooLarge(kind, Pow2(root))
    ensures Outgrown(kind, lens, root)
  {
  }

  lemma {:induction false} NotOutgrown(kind: CodeType, lens: seq<nat>, root: nat)
    requires LensOk(lens) && root <= MAX_BITS && !TooLarge(kind, TableSize(lens, root))
    ensures !Outgrown(kind, lens, root)
  {
  }

  // The lengths have passed the checks: sort the symbols and enter their codes.
  method BuildTable(kind: CodeType, lens: seq<nat>, table: array<Code>, start: nat, root: nat,
                    count: array<nat>, max: nat, min: nat)
    returns (ret: int, size: nat)
    requires Fits(lens) && |lens| <= MaxSyms(kind) && count.Length == MAX_BITS + 1
    requires forall l :: 0 <= l <= MAX_BITS ==> count[l] == Count(lens, l)
    requires max == MaxLen(lens) > 0 && min == MinLen(lens) && min <= root <= max <= MAX_BITS && 0 < root
    requires !Complete(lens) ==> max == 1
    requires kind == CODES ==> root == max
    requires start <= table.Length && HasRoom(kind, table.Length - start)
    requires kind == CODES ==> Pow2(root) <= table.Length - start
    modifies table, count
    ensures ret == 1 <==> Outgrown(kind, lens, root)
    ensures ret == 0 || ret == 1
    ensures ret == 0 ==> size == TableSize(lens, root) && start + size <= table.Length
    ensures ret == 0 ==> TableFor(kind, lens, table[start..start + size], root)
    ensures table[..start] == old(table[..start])
  {
    hide *;
    FitsOk(lens);
    var work := SortSymbols(lens, count);
    if TooLarge(kind, Pow2(root)) {
      RootTooLarge(kind, lens, root);
      return 1, 0;
    }
    if kind != CODES {
      InRoom(kind, table.Length - start, Pow2(root));
    }
    StartFilling(kind, lens, table[start..], root, count[..], min);
    IsEnough(kind, lens, root, table.Length - start);
    var full, r;
    ghost var cur;
    full, r, cur := FillTable(kind, lens, table, start, root, count, work, max, min);
    if full {
      return 1, 0;
    }
    Finish(kind, lens, table[start..], root, r, cur);
    ghost var T := table[start..];
    if r.huff != 0 {
      table[start + (r.next + r.huff)] := Code(64, r.len - r.drop, 0);
      assert table[start..] == T[r.next + r.huff := Code(64, r.len - r.drop, 0)];
    }
    assert table[start..start + r.used] == table[start..][..r.used];
    ret, size := 0, r.used;
  }

  lemma {:induction false} FitsOk(lens: seq<nat>)
    requires Fits(lens)
    ensures LensOk(lens)
  {
  }

  lemma {:induction false} IsEnough(kind: CodeType, lens: seq<nat>, root: nat, room: nat)
    requires LensOk(lens) && HasRoom(kind, room)
    requires !Complete(lens) || kind == CODES ==> root == MaxLen(lens)
    ensures Enough(kind, lens, root, room)
  {
  }

  // What is left to do after the main loop.
  lemma {:induction false} Finish(kind: CodeType, lens: seq<nat>, T: seq<Code>, root: nat, r: Regs, cur: seq<bool>)
    requires Done(kind, lens, T, root, r, cur) && LensOk(lens) && 0 < root <= MAX_BITS
    requires !Complete(lens) ==> MaxLen(lens) == 1 && root == 1
    ensures r.used == TableSize(lens, root) <= |T| && |lens| <= MaxSyms(kind)
    ensures !Outgrown(kind, lens, root)
    ensures r.huff == 0 ==> TableFor(kind, lens, T[..r.used], root)
    ensures r.huff != 0 ==> r.drop <= r.len && r.next + r.huff < |T|
    ensures r.huff != 0 ==>
              TableFor(kind, lens, T[r.next + r.huff := Code(64, r.len - r.drop, 0)][..r.used], root)
  {
    hide Done, TableFor, TableSize, MaxLen, TooLarge, Outgrown;
    if Complete(lens) {
      FinishComplete(kind, lens, T, root, r, cur);
    } else {
      FinishSingle(kind, lens, T, root, r, cur);
    }
    NotOutgrown(kind, lens, root);
  }

  /** Count the lengths, bound them and the root, and check them. */
  method PlanTable(kind: CodeType, lens: seq<nat>, req: nat)
    returns (count: array<nat>, max: nat, min: nat, root: nat, ok: bool)
    requires LensOk(lens) && 0 < req <= MAX_BITS
    ensures fresh(count) && count.Length == MAX_BITS + 1
    ensures forall l :: 0 <= l <= MAX_BITS ==> count[l] == Count(lens, l)
    ensures max == MaxLen(lens) <= MAX_BITS && (max > 0 ==> min == MinLen(lens) && root == RootBits(lens, req))
    ensures ok <==> !Rejected(kind, lens)
  {
    hide Pow2, Kraft, MaxLen, MinLen;
    count := CountLengths(lens);
    root := req;
    max := FindMax(count, lens);
    if root > max {
      root := max;
    }
    if max == 0 {
      min, ok := 0, true;
      return;
    }
    min := FindMin(count, max, lens);
    if root < min {
      root := min;
    }
    var left := CheckLeft(count, lens);
    ok := !(left < 0 || (left > 0 && (kind == CODES || max != 1)));
  }

  /** The decoding table of the code `lens`, written to `table` from `start` on.
      `ret` is -1 for a set of lengths that is turned down, 1 for a table that does
      not fit its space, and 0 otherwise; then the table has `size` entries, `root`
      root bits, and decodes the code. */
  method InflateTable(kind: CodeType, lens: seq<nat>, table: array<Code>, start: nat, req: nat)
    returns (ret: int, size: nat, root: nat)
    requires LensOk(lens) && |lens| <= MaxSyms(kind) && 0 < req <= MAX_BITS
    requires kind == CODES ==> MaxLen(lens) <= req
    requires start + Pow2(req) <= table.Length && HasRoom(kind, table.Length - start)
    modifies table
    ensures ret == -1 <==> Rejected(kind, lens)
    ensures ret == -1 <==> TurnedDown(kind, lens)
    ensures ret == 1 <==> !Rejected(kind, lens) && MaxLen(lens) > 0 && Outgrown(kind, lens, RootBits(lens, req))
    ensures ret == 0 || ret == 1 || ret == -1
    ensures ret == 0 ==> root == RootBits(lens, req) && start + size <= table.Length
    ensures ret == 0 ==> TableFor(kind, lens, table[start..start + size], root)
    ensures ret == 0 && MaxLen(lens) > 0 ==> size == TableSize(lens, root)
    ensures table[..start] == old(table[..start])
  {
    hide *;
    TwoSlots(req);
    EmptyPlan(kind, lens, req);
    RejectedIff(kind, lens);
    var count, max, min, ok;
    count, max, min, root, ok := PlanTable(kind, lens, req);
    if max == 0 {
      table[start] := INVALID;
      table[start + 1] := INVALID;
      assert table[start..start + 2] == [INVALID, INVALID];
      return 0, 2, 1;
    }
    if !ok {
      return -1, 0, root;
    }
    RootFacts(kind, lens, req, root);
    if kind == CODES {
      Pow2Mono(root, req);
    }
    ret, size := BuildTable(kind, lens, table, start, root, count, max, min);
  }

  lemma {:induction false} TwoSlots(req: nat)
    requires 0 < req
    ensures Pow2(req) >= 2
  {
    Pow2Mono(1, req);
  }

  lemma {:induction false} EmptyPlan(kind: CodeType, lens: seq<nat>, req: nat)
    requires LensOk(lens) && |lens| <= MaxSyms(kind)
    ensures MaxLen(lens) == 0 ==>
              !Rejected(kind, lens) && RootBits(lens, req) == 1 && TableFor(kind, lens, [INVALID, INVALID], 1)
  {
    if MaxLen(lens) == 0 {
      EmptyTable(kind, lens);
    }
  }
}
