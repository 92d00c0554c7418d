/** The code for the code lengths (build_bl_tree in trees.c). */
module BlTree {
  import opened Bits
  import opened Canonical
  import opened TableCells
  import opened CodeCounts
  import opened Tokens
  import opened Symbols
  import opened BlockMachine
  import opened GenCodes
  import opened CodeRuns
  import opened BlockHeader
  import opened HuffmanInit
  import opened FirstPass
  import opened TreeHeight
  import opened TreeCode
  import opened BuildTree
  import opened BitLengths
  import opened SecondPass
  import opened Tally
  import opened HeaderCost

  // The run codes of both trees.
  function BothRuns(lit: seq<nat>, dist: seq<nat>): seq<RunCode> {
    RunCodes(lit, 0, -1) + RunCodes(dist, 0, -1)
  }

  predicate TreesOk(lit: seq<nat>, dist: seq<nat>) {
    && LensOk(lit) && LensOk(dist) && 257 <= |lit| <= L_CODES && 1 <= |dist| <= D_CODES && lit[END_BLOCK] > 0
  }

  lemma {:induction false} BothProper(lit: seq<nat>, dist: seq<nat>)
    requires TreesOk(lit, dist)
    ensures forall k :: 0 <= k < |BothRuns(lit, dist)| ==> Proper(BothRuns(lit, dist)[k])
    ensures |BothRuns(lit, dist)| <= |lit| + |dist|
  {
    hide RunCodes, Proper;
    RunsProper(lit, 0, -1);
    RunsProper(dist, 0, -1);
  }

  lemma {:induction false} BothUses(lit: seq<nat>, dist: seq<nat>, f0: seq<nat>, f1: seq<nat>, f2: seq<nat>)
    requires |f0| >= BL_CODES && forall s :: 0 <= s < BL_CODES ==> f0[s] == 0
    requires Tallied(f0, f1, RunCodes(lit, 0, -1)) && Tallied(f1, f2, RunCodes(dist, 0, -1))
    ensures |f2| == |f0| && forall s :: 0 <= s < BL_CODES ==> f2[s] == UsesSeq(BothRuns(lit, dist))[s]
  {
    hide RunCodes, Uses;
    forall s | 0 <= s < BL_CODES
      ensures f2[s] == UsesSeq(BothRuns(lit, dist))[s]
    {
      UsesConcat(RunCodes(lit, 0, -1), RunCodes(dist, 0, -1), s);
    }
  }

  lemma {:induction false} BothFreqOk(lit: seq<nat>, dist: seq<nat>, f: seq<nat>)
    requires TreesOk(lit, dist) && |f| == 2 * BL_CODES + 1
    requires forall s :: 0 <= s < BL_CODES ==> f[s] == UsesSeq(BothRuns(lit, dist))[s]
    ensures FreqOk(f, BL_CODES)
  {
    hide BothRuns, UsesSeq, Total;
    BothProper(lit, dist);
    ProperSyms(BothRuns(lit, dist));
    UsesTotal(BothRuns(lit, dist));
    SameTotal(f, UsesSeq(BothRuns(lit, dist)), BL_CODES);
  }

  lemma {:induction false} ProperSyms(rs: seq<RunCode>)
    requires forall k :: 0 <= k < |rs| ==> Proper(rs[k])
    ensures forall k :: 0 <= k < |rs| ==> rs[k].sym < BL_CODES
  {
  }

  /** The code length code can send all run codes. */
  lemma {:induction false} BothSendable(lit: seq<nat>, dist: seq<nat>, f: seq<nat>, codes: seq<nat>, lens: seq<nat>, n: nat)
    requires TreesOk(lit, dist) && |f| >= BL_CODES
    requires forall s :: 0 <= s < BL_CODES ==> f[s] == UsesSeq(BothRuns(lit, dist))[s]
    requires TreeDone(BlDesc(), f, codes, lens, n)
    ensures |lens| >= BL_CODES && Sendable(lens[..BL_CODES], BothRuns(lit, dist))
    ensures forall s :: 0 <= s < BL_CODES ==> lens[s] < 8
  {
    hide BothRuns, Holds, Complete, BuiltCode, FreqOk;
    BothProper(lit, dist);
    var rs := BothRuns(lit, dist);
    ProperSyms(rs);
    forall i | 0 <= i < |rs|
      ensures rs[i].sym < BL_CODES && lens[rs[i].sym] > 0
    {
      UsedSym(rs, i);
      assert f[rs[i].sym] == Uses(rs, rs[i].sym);
    }
  }

  lemma {:induction false} CompletePadded(lens: seq<nat>, n: nat, codes: seq<nat>, lengths: seq<nat>)
    requires n <= |lens| <= |codes| && |lens| <= |lengths| && lens == lengths[..|lens|]
    requires (forall i :: n <= i < |lens| ==> lens[i] == 0) && (forall i :: 0 <= i < |lens| ==> lens[i] <= 7)
    requires Holds(lens[..n], codes, lengths) && Complete(lens[..n]) && |lens| == BL_CODES
    ensures Holds(lens, codes, lengths) && Usable(CODES, lens)
  {
    ZerosAfter(lens, n);
    HoldsPadded(lens, n, codes, lengths);
  }

  lemma {:induction false} HeaderMade(lit: seq<nat>, dist: seq<nat>, cl: seq<nat>, blcodes: nat)
    requires TreesOk(lit, dist) && |cl| == BL_CODES && (forall s :: 0 <= s < BL_CODES ==> cl[s] < 8)
    requires Sendable(cl, BothRuns(lit, dist)) && 4 <= blcodes <= BL_CODES
    requires forall i :: blcodes <= i < BL_CODES ==> cl[ORDER[i]] == 0
    ensures HeaderOk(Header(lit, dist, cl, blcodes))
    ensures |HeaderBits(Header(lit, dist, cl, blcodes))| ==
            14 + 3 * blcodes + TotalBits(BlDesc(), UsesSeq(BothRuns(lit, dist)), cl, BL_CODES)
  {
    hide RunCodes, AllRunBits, TotalBits, UsesSeq, BlDesc, Proper;
    BothProper(lit, dist);
    var a, b := RunCodes(lit, 0, -1), RunCodes(dist, 0, -1);
    SendableBoth(cl, a, b);
    AllRunBitsConcat(cl, a, b);
    RunsCost(cl, a + b);
    ThreeBitsLength(Ordered(cl, blcodes));
    hide Sendable;
  }

  lemma {:induction false} SendableBoth(cl: seq<nat>, a: seq<RunCode>, b: seq<RunCode>)
    requires Sendable(cl, a + b)
    ensures Sendable(cl, a) && Sendable(cl, b)
  {
    assert forall i :: 0 <= i < |a| ==> (a + b)[i] == a[i];
    assert forall i :: 0 <= i < |b| ==> (a + b)[|a| + i] == b[i];
  }

  /** Some length from 1 to 15 is used, so that enough code length codes are sent. */
  lemma {:induction false} SomeBlCode(lit: seq<nat>, dist: seq<nat>, cl: seq<nat>) returns (i: nat)
    requires TreesOk(lit, dist) && |cl| == BL_CODES && Sendable(cl, BothRuns(lit, dist))
    ensures 3 < i < BL_CODES && ORDER[i] < BL_CODES && cl[ORDER[i]] > 0
  {
    var k := SomeLength(lit, 0, -1, END_BLOCK);
    hide RunCodes;
    var s := BothRuns(lit, dist)[k].sym;
    i := Rank(s);
  }

  /** The code length code of the header is built for the runs of its two sets of lengths, and no more of it is
      sent than must be. */
  ghost predicate Tight(h: Header) {
    && |h.cl| == BL_CODES && 0 < h.blcodes <= BL_CODES && BuiltCode(BlDesc(), UsesSeq(BothRuns(h.lit, h.dist)), h.cl)
    && ORDER[h.blcodes - 1] < BL_CODES && h.cl[ORDER[h.blcodes - 1]] > 0
    && forall i :: h.blcodes <= i < BL_CODES ==> ORDER[i] < BL_CODES && h.cl[ORDER[i]] == 0
  }

  // The index of the last code length code to send.
  method LastBlCode(bl_dl: array<nat>, ghost lit: seq<nat>, ghost dist: seq<nat>) returns (max_blindex: nat)
    requires bl_dl.Length >= BL_CODES && TreesOk(lit, dist) && Sendable(bl_dl[..BL_CODES], BothRuns(lit, dist))
    ensures 3 <= max_blindex < BL_CODES && ORDER[max_blindex] < BL_CODES && bl_dl[ORDER[max_blindex]] > 0
    ensures forall i :: max_blindex < i < BL_CODES ==> ORDER[i] < BL_CODES && bl_dl[ORDER[i]] == 0
  {
    hide Sendable, TreesOk, BothRuns;
    ghost var w := SomeBlCode(lit, dist, bl_dl[..BL_CODES]);
    max_blindex := BL_CODES - 1;
    RankOfOrder(max_blindex);
    while max_blindex >= 3
      invariant w <= max_blindex < BL_CODES
      invariant forall i :: max_blindex < i < BL_CODES ==> ORDER[i] < BL_CODES && bl_dl[ORDER[i]] == 0
    {
      RankOfOrder(max_blindex);
      if bl_dl[ORDER[max_blindex]] != 0 {
        break;
      }
      max_blindex := max_blindex - 1;
    }
  }

  /** The code length code is made from the runs of both sets of lengths; opt_len grows by the exact bits of the
      header `h`. */
  method BuildBlTree(s: TreeState, l_dl: array<nat>, l_max: nat, d_dl: array<nat>, d_max: nat,
                     bl_fc: array<nat>, bl_dl: array<nat>)
    returns (max_blindex: nat, ghost h: Header)
    requires s.Valid() && Apart(s, bl_fc, bl_dl) && Apart(s, l_dl, d_dl)
    requires l_dl != bl_fc && l_dl != bl_dl && d_dl != bl_fc && d_dl != bl_dl
    requires bl_fc.Length == bl_dl.Length == 2 * BL_CODES + 1 && forall i :: 0 <= i < BL_CODES ==> bl_fc[i] == 0
    requires l_max + 1 < l_dl.Length && d_max + 1 < d_dl.Length && TreesOk(l_dl[..l_max + 1], d_dl[..d_max + 1])
    modifies s, s.heap, s.depth, s.bl_count, l_dl, d_dl, bl_fc, bl_dl
    ensures l_dl[..] == old(l_dl[..])[l_max + 1 := 0xffff] && d_dl[..] == old(d_dl[..])[d_max + 1 := 0xffff]
    ensures h == Header(old(l_dl[..l_max + 1]), old(d_dl[..d_max + 1]), bl_dl[..BL_CODES], max_blindex + 1)
    ensures HeaderOk(h) && Holds(h.cl, bl_fc[..], bl_dl[..]) && Usable(CODES, h.cl) && Tight(h)
    ensures s.opt_len == old(s.opt_len) + |HeaderBits(h)| && s.static_len == old(s.static_len)
  {
    hide Tallied, RunCodes, FreqOk, TreeDone, UsesSeq, Sendable, HeaderOk, HeaderBits, Holds, Usable, TotalBits, StaticBits,
         Total, LensOk, DescOk, Complete, BothRuns, BuiltCode;
    ghost var lit, dist, f0 := l_dl[..l_max + 1], d_dl[..d_max + 1], bl_fc[..];
    TreesLens(lit, dist);
    ScanTree(l_dl, l_max, bl_fc);
    ghost var f1 := bl_fc[..];
    ScanTree(d_dl, d_max, bl_fc);
    ghost var f2 := bl_fc[..];
    BothUses(lit, dist, f0, f1, f2);
    BothFreqOk(lit, dist, f2);
    DescsOk();
    var bl_max;
    bl_max := BuildTree.BuildTree(s, bl_fc, bl_dl, BlDesc());
    ghost var codes, lens := bl_fc[..], bl_dl[..];
    BothSendable(lit, dist, f2, codes, lens, bl_max + 1);
    BlCodes(f2, codes, lens, bl_max + 1);
    max_blindex := LastBlCode(bl_dl, lit, dist);
    s.opt_len := s.opt_len + (3 * (max_blindex + 1) + 5 + 5 + 4);
    ghost var cl := lens[..BL_CODES];
    HeaderMade(lit, dist, cl, max_blindex + 1);
    BlBits(f2, UsesSeq(BothRuns(lit, dist)), lens);
    h := Header(lit, dist, cl, max_blindex + 1);
    BlBuiltCode(f2, UsesSeq(BothRuns(lit, dist)), codes, lens, bl_max + 1);
    assert Tight(h);
  }

  lemma {:induction false} BlBuiltCode(f: seq<nat>, g: seq<nat>, codes: seq<nat>, lens: seq<nat>, n: nat)
    requires TreeDone(BlDesc(), f, codes, lens, n) && |f| >= BL_CODES && |lens| >= BL_CODES && |g| == BL_CODES
    requires forall s :: 0 <= s < BL_CODES ==> f[s] == g[s]
    ensures BuiltCode(BlDesc(), g, lens[..BL_CODES])
  {
    hide BuiltCode, Holds, Complete, FreqOk;
    SameCode(BlDesc(), f, lens, g, lens[..BL_CODES]);
  }

  lemma {:induction false} TreesLens(lit: seq<nat>, dist: seq<nat>)
    requires TreesOk(lit, dist)
    ensures LensOk(lit) && LensOk(dist)
  {
  }

  lemma {:induction false} BlCodes(f: seq<nat>, codes: seq<nat>, lens: seq<nat>, n: nat)
    requires TreeDone(BlDesc(), f, codes, lens, n) && |codes| >= BL_CODES
    ensures |lens| >= BL_CODES
    ensures Holds(lens[..BL_CODES], codes, lens) && Usable(CODES, lens[..BL_CODES])
  {
    hide Holds, Complete, Usable, FreqOk, BuiltCode;
    var cl := lens[..BL_CODES];
    assert cl[..n] == lens[..n];
    CompletePadded(cl, n, codes, lens);
  }

  lemma {:induction false} BlBits(f: seq<nat>, g: seq<nat>, lens: seq<nat>)
    requires |f| >= BL_CODES && |g| >= BL_CODES && |lens| >= BL_CODES
    requires forall s :: 0 <= s < BL_CODES ==> f[s] == g[s]
    ensures TotalBits(BlDesc(), f, lens, BL_CODES) == TotalBits(BlDesc(), g, lens[..BL_CODES], BL_CODES)
    ensures StaticBits(BlDesc(), f, BL_CODES) == 0
  {
    hide TotalBits;
    SameBits(BlDesc(), f, g, lens, BL_CODES);
    SameLens(BlDesc(), g, lens, lens[..BL_CODES], BL_CODES);
  }

  lemma {:induction false} SameLens(d: StaticDesc, f: seq<nat>, a: seq<nat>, b: seq<nat>, n: nat)
    requires n <= |f| && n <= |a| && n <= |b| && forall x :: 0 <= x < n ==> a[x] == b[x]
    ensures TotalBits(d, f, a, n) == TotalBits(d, f, b, n)
  {
    if n > 0 {
      SameLens(d, f, a, b, n - 1);
    }
  }
}
