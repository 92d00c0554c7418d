/** inflate_table never runs out of the space it is given for a code of deflate (inftrees.c, inftrees.h). */
module EnoughSpace {
  import opened Bits
  import opened Canonical
  import opened CodeOrder
  import opened CodeBlocks
  import opened TableCells
  import opened CodeCounts
  import opened TableSpace
  import opened PrefixCodes

  // A literal or distance code that a stream may have: one that fills the code space, or a single code of one bit, or no
  // distance code at all.
  predicate Decodable(kind: CodeType, lens: seq<nat>) {
    kind != CODES && (Complete(lens) || OneBit(lens) || (kind == DISTS && NoCode(lens)))
  }

  // How many symbols there may be, and how many bits of root are asked for.
  predicate Asked(kind: CodeType, lens: seq<nat>, req: nat) {
    match kind
    case CODES => false
    case LENS => |lens| <= 286 && req == 9
    case DISTS => |lens| <= 30 && req == 6
  }

  lemma {:induction false} NoneShort(lens: seq<nat>, m: nat)
    requires forall s :: 0 <= s < |lens| ==> lens[s] == 0 || lens[s] > m
    ensures SymsUpTo(lens, m) == []
  {
    if m > 0 {
      NoneShort(lens, m - 1);
      NoneOfLen(lens, m);
    }
  }

  lemma {:induction false} NoneOfLen(lens: seq<nat>, l: nat)
    requires forall s :: 0 <= s < |lens| ==> lens[s] != l
    ensures SymsOfLen(lens, l) == []
  {
    if lens != [] {
      NoneOfLen(lens[..|lens| - 1], l);
    }
  }

  // So few symbols cannot all have codes longer than the root.
  lemma {:induction false} SomeShort(kind: CodeType, lens: seq<nat>, req: nat)
    requires Complete(lens) && Asked(kind, lens, req)
    ensures 0 < MinLen(lens) <= req && 0 < MaxLen(lens) <= MAX_BITS
  {
    hide SortedSyms, SymsUpTo, MaxLen, MinLen, Pow2, Kraft;
    if MaxLen(lens) == 0 {
      NoCodeIff(lens);
      KraftOfUnused(lens);
    }
    MinAtMostMax(lens);
    assert Pow2(6) == 64 && Pow2(9) == 512 by { Pow2Values(); }
    if MinLen(lens) > req {
      forall s | 0 <= s < |lens|
        ensures lens[s] == 0 || lens[s] > req
      {
        if lens[s] > 0 {
          MinLenBound(lens, s);
        }
      }
      NoneShort(lens, req);
      FewCodes(lens);
      StartFirst(lens);
      ManyLong(lens, req);
    }
  }

  lemma {:induction false} ShortTable(lens: seq<nat>, root: nat)
    requires LensOk(lens) && MaxLen(lens) <= root <= MAX_BITS
    ensures TableSize(lens, root) == Pow2(root)
  {
    hide MaxLen, SubRoom, Pow2;
    forall s | 0 <= s < |lens|
      ensures lens[s] <= root
    {
      MaxLenBound(lens, s);
    }
    NoLongRoom(lens, root, Pow2(root));
  }

  lemma {:induction false} CompleteSpace(kind: CodeType, lens: seq<nat>, req: nat)
    requires Complete(lens) && Asked(kind, lens, req)
    ensures !Outgrown(kind, lens, RootBits(lens, req))
  {
    hide MaxLen, MinLen, Pow2, Kraft, TableSize;
    SomeShort(kind, lens, req);
    MinAtMostMax(lens);
    assert Pow2(6) == 64 && Pow2(9) == 512 by { Pow2Values(); }
    var root := RootBits(lens, req);
    if root == req {
      if kind.LENS? {
        LenSpace(lens);
      } else {
        DistSpace(lens);
      }
    } else {
      ShortTable(lens, root);
      Pow2Mono(root, req);
    }
  }

  lemma {:induction false} OneBitSpace(lens: seq<nat>)
    requires OneBit(lens) && LensOk(lens)
    ensures MaxLen(lens) == 1 && Kraft(lens) < Pow2(MAX_BITS)
    ensures forall req: nat | req > 0 :: RootBits(lens, req) == 1 && TableSize(lens, 1) == 2
  {
    hide MaxLen, MinLen, Kraft, Pow2, TableSize;
    var s :| 0 <= s < |lens| && lens[s] == 1 && forall t :: 0 <= t < |lens| && t != s ==> lens[t] == 0;
    OneIn(lens, s);
    Pow2Strict(MAX_BITS - 1, MAX_BITS);
    OneBitIff(lens);
    MinAtMostMax(lens);
    ShortTable(lens, 1);
    assert Pow2(1) == 2 by { Pow2Values(); }
  }

  /** Every literal or distance code a stream may have is taken, and its table has room. */
  lemma {:induction false} AlwaysRoom(kind: CodeType, lens: seq<nat>, req: nat)
    requires LensOk(lens) && Decodable(kind, lens) && Asked(kind, lens, req)
    ensures !Rejected(kind, lens) && (MaxLen(lens) > 0 ==> !Outgrown(kind, lens, RootBits(lens, req)))
  {
    hide MaxLen, MinLen, Kraft, Pow2, TableSize, OneBit, NoCode, RootBits;
    if Complete(lens) {
      CompleteSpace(kind, lens, req);
    } else if OneBit(lens) {
      OneBitSpace(lens);
    } else {
      NoCodeIff(lens);
    }
  }
}
