/** What the header of a dynamic block costs (build_bl_tree in trees.c). */
module HeaderCost {
  import opened Bits
  import opened Canonical
  import opened TableCells
  import opened CodeCounts
  import opened Tokens
  import opened Symbols
  import opened BlockMachine
  import opened CodeRuns
  import opened GenCodes
  import opened BlockHeader
  import opened FirstPass
  import opened TreeCode
  import opened BuildTree
  import opened Tally

  // Every repeat code repeats at least as often as its base says.
  predicate Proper(r: RunCode) {
    r.sym < 16 || (r.sym < 19 && RepeatBase(r.sym) <= r.count)
  }

  lemma {:induction false} GroupProper(prev: int, len: nat, c: nat)
    requires 0 < c <= MaxCount(prev, len) && len < 16
    ensures forall i :: 0 <= i < |Group(prev, len, c)| ==> Proper(Group(prev, len, c)[i])
    ensures |Group(prev, len, c)| <= c
  {
  }

  lemma {:induction false} RunsProper(lens: seq<nat>, i: nat, prev: int)
    requires i <= |lens| && LensOk(lens)
    ensures forall k :: 0 <= k < |RunCodes(lens, i, prev)| ==> Proper(RunCodes(lens, i, prev)[k])
    ensures |RunCodes(lens, i, prev)| <= |lens| - i
    decreases |lens| - i
  {
    if i < |lens| {
      var c := GroupAt(lens, i, prev);
      GroupProper(prev, lens[i], c);
      RunsProper(lens, i + c, lens[i]);
      hide Group, RunLen, GroupAt;
    }
  }

  // How often each symbol is used.
  function UsesSeq(rs: seq<RunCode>): (f: seq<nat>)
    ensures |f| == BL_CODES
  {
    seq(BL_CODES, s requires 0 <= s < BL_CODES => Uses(rs, s))
  }

  lemma {:induction false} UsesFirst(rs: seq<RunCode>)
    requires rs != [] && rs[0].sym < BL_CODES
    ensures UsesSeq(rs) == UsesSeq(rs[1..])[rs[0].sym := UsesSeq(rs[1..])[rs[0].sym] + 1]
  {
  }

  lemma {:induction false} OneRunCost(cl: seq<nat>, r: RunCode)
    requires LensOk(cl) && r.sym < |cl| && Proper(r) && r.sym < BL_CODES
    ensures |RunBits(cl, r)| == cl[r.sym] + Extra(BlDesc(), r.sym)
  {
    hide CodeBits;
  }

  /** What the run codes take is what the uses of their symbols add up to. */
  lemma {:induction false} RunsCost(cl: seq<nat>, rs: seq<RunCode>)
    requires Sendable(cl, rs) && |cl| == BL_CODES && forall k :: 0 <= k < |rs| ==> Proper(rs[k])
    ensures |AllRunBits(cl, rs)| == TotalBits(BlDesc(), UsesSeq(rs), cl, BL_CODES)
  {
    if rs == [] {
      NoUses(BlDesc(), cl, BL_CODES, BL_CODES);
      assert UsesSeq(rs) == seq(BL_CODES, _ => 0);
    } else {
      hide TotalBits, Extra, RunBits, BlDesc, Proper, LensOk, UsesSeq;
      RunsCost(cl, rs[1..]);
      UsesFirst(rs);
      OneRunCost(cl, rs[0]);
      OneMoreUse(BlDesc(), UsesSeq(rs[1..]), cl, BL_CODES, rs[0].sym);
    }
  }

  lemma {:induction false} UsesTotal(rs: seq<RunCode>)
    requires forall k :: 0 <= k < |rs| ==> rs[k].sym < BL_CODES
    ensures Total(UsesSeq(rs), BL_CODES) == |rs|
  {
    if rs == [] {
      TotalZero(UsesSeq(rs), BL_CODES);
    } else {
      hide Total, UsesSeq;
      UsesTotal(rs[1..]);
      UsesFirst(rs);
      TotalMore(UsesSeq(rs[1..]), BL_CODES, rs[0].sym);
    }
  }

  lemma {:induction false} TotalMore(f: seq<nat>, n: nat, x: nat)
    requires x < n <= |f|
    ensures Total(f[x := f[x] + 1], n) == Total(f, n) + 1
  {
    if x < n - 1 {
      TotalMore(f, n - 1, x);
    } else {
      SameTotal(f[x := f[x] + 1], f, n - 1);
    }
  }

  /** When some length is not zero, some length goes out as itself. */
  lemma {:induction false} SomeLength(lens: seq<nat>, i: nat, prev: int, j: nat) returns (k: nat)
    requires LensOk(lens) && i <= j < |lens| && lens[j] > 0 && prev <= 0
    ensures k < |RunCodes(lens, i, prev)| && 1 <= RunCodes(lens, i, prev)[k].sym <= 15
    decreases |lens| - i
  {
    var c := GroupAt(lens, i, prev);
    var g := Group(prev, lens[i], c);
    if lens[i] > 0 {
      k := 0;
      assert g[0].sym == lens[i];
    } else {
      assert j >= i + c;
      k := SomeLength(lens, i + c, 0, j);
      k := k + |g|;
    }
  }

  lemma {:induction false} ThreeBitsLength(v: seq<nat>)
    ensures |ThreeBits(v)| == 3 * |v|
  {
    if v != [] {
      ThreeBitsLength(v[1..]);
    }
  }

  // Symbols without a code at the end change nothing for the others.
  lemma {:induction false} ZerosAfter(lens: seq<nat>, n: nat)
    requires n <= |lens| && LensOk(lens) && forall i :: n <= i < |lens| ==> lens[i] == 0
    ensures Kraft(lens) == Kraft(lens[..n]) && MaxLen(lens) == MaxLen(lens[..n])
    ensures forall l, s :: Before(lens, l, s) == Before(lens[..n], l, s)
  {
    if n < |lens| {
      ZerosAfter(lens[..|lens| - 1], n);
      assert lens[..|lens| - 1][..n] == lens[..n];
    } else {
      assert lens[..n] == lens;
    }
  }

  lemma {:induction false} HoldsPadded(lens: seq<nat>, n: nat, codes: seq<nat>, lengths: seq<nat>)
    requires n <= |lens| <= |codes| && |lens| <= |lengths| && lens == lengths[..|lens|]
    requires LensOk(lens) && (forall i :: n <= i < |lens| ==> lens[i] == 0)
    requires Holds(lens[..n], codes, lengths)
    ensures Holds(lens, codes, lengths)
  {
    ZerosAfter(lens, n);
    hide Before;
    forall s | 0 <= s < |lens| && lens[s] > 0
      ensures Coded(lens, s, codes[s])
    {
      assert Coded(lens[..n], s, codes[s]);
    }
  }
}
