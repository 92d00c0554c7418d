/** The current block: tallying its tokens and writing it out (_tr_tally and
_tr_flush_block in trees.c). */
module FlushBlock {
  import opened Bits
  import opened Canonical
  import opened TableCells
  import opened CodeCounts
  import opened FixedCodes
  import opened Tokens
  import opened Symbols
  import opened BlockMachine
  import opened BitWriter
  import opened GenCodes
  import opened CodeRuns
  import opened BlockData
  import opened BlockHeader
  import opened BlockWriter
  import opened Blocks
  import opened HuffmanInit
  import opened HuffmanMerge
  import opened FirstPass
  import opened TreeHeight
  import opened TreeCode
  import opened BuildTree
  import opened BitLengths
  import opened SecondPass
  import opened Tally
  import opened HeaderCost
  import opened BlTree
  import opened StaticTrees
  import opened BlockChoice

  // One half of the three trees; nothing is counted but the end of the block.
  method NewTrees() returns (l: array<nat>, d: array<nat>, bl: array<nat>)
    ensures fresh(l) && fresh(d) && fresh(bl) && l != d && l != bl && d != bl
    ensures l.Length == HEAP_SIZE && d.Length == 2 * D_CODES + 1 && bl.Length == 2 * BL_CODES + 1 && Counts(l[..], d[..], bl[..], [])
  {
    hide Counts;
    l, d, bl := new nat[HEAP_SIZE](_ => 0), new nat[2 * D_CODES + 1](_ => 0), new nat[2 * BL_CODES + 1](_ => 0);
    l[END_BLOCK] := 1;
    NothingCounted(l[..], d[..], bl[..]);
  }

  // Both halves of the three trees.
  method AllTrees() returns (lf: array<nat>, df: array<nat>, bf: array<nat>, ll: array<nat>, dl: array<nat>, bl: array<nat>)
    ensures fresh({lf, df, bf, ll, dl, bl}) && lf != ll && df != dl && bf != bl
    ensures Differ(lf, ll, df, dl) && Differ(lf, ll, bf, bl) && Differ(df, dl, bf, bl)
    ensures lf.Length == ll.Length == HEAP_SIZE && df.Length == dl.Length == 2 * D_CODES + 1 && bf.Length == bl.Length == 2 * BL_CODES + 1
    ensures Counts(lf[..], df[..], bf[..], [])
  {
    hide Counts;
    ll, dl, bl := NewTrees();
    lf, df, bf := NewTrees();
  }

  // All arrays of the dynamic trees and of the tokens.
  method AllArrays(lit_bufsize: nat)
    returns (lf: array<nat>, df: array<nat>, bf: array<nat>, ll: array<nat>, dl: array<nat>, bl: array<nat>, db: array<nat>, lb: array<nat>)
    ensures fresh({lf, df, bf, ll, dl, bl, db, lb}) && OwnArrays(lf, df, bf, ll, dl, bl, db, lb)
    ensures db.Length == lit_bufsize && Counts(lf[..], df[..], bf[..], [])
  {
    hide Counts;
    db, lb := new nat[lit_bufsize], new nat[lit_bufsize];
    lf, df, bf, ll, dl, bl := AllTrees();
  }

  predicate OwnArrays(lf: array<nat>, df: array<nat>, bf: array<nat>, ll: array<nat>, dl: array<nat>, bl: array<nat>, db: array<nat>, lb: array<nat>) {
    && lf != ll && df != dl && bf != bl && db != lb
    && Differ(lf, ll, df, dl) && Differ(lf, ll, bf, bl) && Differ(df, dl, bf, bl)
    && Differ(lf, ll, db, lb) && Differ(df, dl, db, lb) && Differ(bf, bl, db, lb)
    && lf.Length == ll.Length == HEAP_SIZE && df.Length == dl.Length == 2 * D_CODES + 1 && bf.Length == bl.Length == 2 * BL_CODES + 1
    && db.Length == lb.Length
  }

  // The tables of the static trees.
  method StaticTables() returns (lf: array<nat>, ll: array<nat>, df: array<nat>, dl: array<nat>)
    ensures fresh({lf, ll, df, dl}) && lf != ll && df != dl && Differ(lf, ll, df, dl)
    ensures Holds(FixedLit(), lf[..], ll[..]) && Holds(Repeat(5, D_CODES), df[..], dl[..])
  {
    hide Holds, FixedLit, Repeat;
    lf, ll := InitStaticLit();
    df, dl := InitStaticDist();
  }

  // The lengths `s` of the first symbols, and none for the others.
  function Padded(s: seq<nat>, n: nat): (r: seq<nat>)
    requires |s| <= n
    ensures |r| == n
  {
    s + seq(n - |s|, _ => 0)
  }

  /** The header describes the trees built for the tokens, up to their last code. */
  ghost predicate MadeFor(h: Header, ts: seq<Token>) {
    && 0 < |h.lit| <= L_CODES && 0 < |h.dist| <= D_CODES && h.lit[|h.lit| - 1] > 0 && h.dist[|h.dist| - 1] > 0
    && BuiltCode(LitDesc(), LitFreq(ts), Padded(h.lit, L_CODES)) && BuiltCode(DistDesc(), DistUses(ts), Padded(h.dist, D_CODES))
    && Tight(h) && Complete(h.lit) && Complete(h.dist)
  }

  lemma {:induction false} HeaderFor(h: Header, l: seq<nat>, d: seq<nat>, bl: seq<nat>, ts: seq<Token>, lc: seq<nat>, ll: seq<nat>, nl: nat,
                                     dc: seq<nat>, dl: seq<nat>, nd: nat)
    requires Counts(l, d, bl, ts)
    requires TreeDone(LitDesc(), l, lc, ll, nl) && TreeDone(DistDesc(), d, dc, dl, nd)
    requires nl <= |ll| && nd <= |dl| && h.lit == ll[..nl] && h.dist == dl[..nd] && Tight(h)
    ensures MadeFor(h, ts)
  {
    hide BuiltCode, Holds, Complete, FreqOk, DescOk, Tight, LitUses, DistUses, FixedLit, Repeat;
    assert forall s :: 0 <= s < L_CODES ==> l[s] == l[..L_CODES][s];
    assert forall s :: 0 <= s < D_CODES ==> d[s] == d[..D_CODES][s];
    SameCode(LitDesc(), l, ll, LitFreq(ts), Padded(h.lit, L_CODES));
    SameCode(DistDesc(), d, dl, DistUses(ts), Padded(h.dist, D_CODES));
  }

  /** The state of the block being collected (deflate_state in deflate.h). */
  class BlockState {
    const trees: TreeState
    const w: BitBuffer
    const l_fc: array<nat>       // dyn_ltree: frequencies or codes, and fathers or lengths
    const l_dl: array<nat>
    const d_fc: array<nat>       // dyn_dtree
    const d_dl: array<nat>
    const bl_fc: array<nat>      // bl_tree
    const bl_dl: array<nat>
    const d_buf: array<nat>      // distances of the tokens
    const l_buf: array<nat>      // literals, or lengths less MIN_MATCH
    const sl_fc: array<nat>      // static_ltree
    const sl_dl: array<nat>
    const sd_fc: array<nat>      // static_dtree
    const sd_dl: array<nat>
    var last_lit: nat

    // The arrays are different objects of the right sizes.
    ghost predicate Shape()
      reads this
    {
      && Apart(trees, l_fc, l_dl) && Apart(trees, d_fc, d_dl) && Apart(trees, bl_fc, bl_dl)
      && Apart(trees, d_buf, l_buf) && Apart(trees, sl_fc, sl_dl) && Apart(trees, sd_fc, sd_dl)
      && Differ(l_fc, l_dl, d_fc, d_dl) && Differ(l_fc, l_dl, bl_fc, bl_dl) && Differ(d_fc, d_dl, bl_fc, bl_dl)
      && Differ(l_fc, l_dl, d_buf, l_buf) && Differ(d_fc, d_dl, d_buf, l_buf) && Differ(bl_fc, bl_dl, d_buf, l_buf)
      && Differ(l_fc, l_dl, sl_fc, sl_dl) && Differ(d_fc, d_dl, sl_fc, sl_dl) && Differ(bl_fc, bl_dl, sl_fc, sl_dl)
      && Differ(l_fc, l_dl, sd_fc, sd_dl) && Differ(d_fc, d_dl, sd_fc, sd_dl) && Differ(bl_fc, bl_dl, sd_fc, sd_dl)
      && Differ(d_buf, l_buf, sl_fc, sl_dl) && Differ(d_buf, l_buf, sd_fc, sd_dl)
      && l_fc.Length == l_dl.Length == HEAP_SIZE && d_fc.Length == d_dl.Length == 2 * D_CODES + 1
      && bl_fc.Length == bl_dl.Length == 2 * BL_CODES + 1
      && d_buf.Length == l_buf.Length && 1 < d_buf.Length <= 0x8000
    }

    // The tokens of the block.
    ghost function Ts(): seq<Token>
      reads this, d_buf, l_buf
      requires last_lit <= d_buf.Length && last_lit <= l_buf.Length
    {
      TokensOf(d_buf[..], l_buf[..], last_lit)
    }

    ghost predicate Valid()
      reads this, trees, w, l_fc, d_fc, bl_fc, d_buf, l_buf, sl_fc, sl_dl, sd_fc, sd_dl
    {
      && Shape() && trees.Valid() && w.Valid() && last_lit < d_buf.Length
      && Counts(l_fc[..], d_fc[..], bl_fc[..], Ts())
      && trees.opt_len == 0 && trees.static_len == 0
      && Holds(FixedLit(), sl_fc[..], sl_dl[..]) && Holds(Repeat(5, D_CODES), sd_fc[..], sd_dl[..])
    }

    constructor (lit_bufsize: nat)
      requires 1 < lit_bufsize <= 0x8000
      ensures Valid() && last_lit == 0 && Ts() == [] && d_buf.Length == lit_bufsize && w.Stream() == []
      ensures fresh({w, trees, trees.heap, trees.depth, trees.bl_count, sl_fc, sl_dl, sd_fc, sd_dl, l_fc, l_dl, d_fc, d_dl, bl_fc, bl_dl,
                     d_buf, l_buf})
    {
      hide Counts, Holds, FixedLit, Repeat, Pow2, IsBytes, BitBuffer.Stream, BitBuffer.Valid, TokensOf, ByteBits, ToBits;
      w := new BitBuffer();
      var lf, df, bf, ll, dl, bl, db, lb := AllArrays(lit_bufsize);
      l_fc, d_fc, bl_fc, l_dl, d_dl, bl_dl, d_buf, l_buf := lf, df, bf, ll, dl, bl, db, lb;
      var slf, sld, sdf, sdd := StaticTables();
      sl_fc, sl_dl, sd_fc, sd_dl := slf, sld, sdf, sdd;
      trees := new TreeState();
      last_lit := 0;
      new;
      assert Shape();
      EmptyTokens(d_buf[..], l_buf[..]);
    }

    /** Save a literal, or a match and its frequency counts; true when the block must be flushed. */
    method TrTally(dist: nat, lc: nat) returns (full: bool)
      requires Valid() && last_lit + 1 < d_buf.Length && InRange(TokenOf(dist, lc))
      modifies this`last_lit, d_buf, l_buf, l_fc, d_fc
      ensures Valid() && Ts() == old(Ts()) + [TokenOf(dist, lc)]
      ensures full <==> last_lit == d_buf.Length - 1
    {
      hide Counts, Holds, LengthCode, DistCode;
      ghost var l, d, ts, t := l_fc[..], d_fc[..], Ts(), TokenOf(dist, lc);
      CountsMore(l, d, bl_fc[..], ts, t);
      d_buf[last_lit] := dist;
      l_buf[last_lit] := lc;
      last_lit := last_lit + 1;
      assert Ts() == ts + [t];
      if dist == 0 {
        l_fc[lc] := l_fc[lc] + 1;
      } else {
        var k, j := LengthCode(lc) + LITERALS + 1, DistCode(dist - 1);
        l_fc[k] := l_fc[k] + 1;
        d_fc[j] := d_fc[j] + 1;
      }
      full := last_lit == d_buf.Length - 1;
    }

    /** Build the three trees of the block.  The lengths opt_len and static_len are then exactly
        the bits of the block with these trees, and with the static ones. */
    method BuildTrees() returns (l_max: nat, d_max: nat, max_blindex: nat, ghost h: Header)
      requires Valid()
      modifies trees, trees.heap, trees.depth, trees.bl_count, l_fc, l_dl, d_fc, d_dl, bl_fc, bl_dl
      ensures Ts() == old(Ts()) && trees.Valid()
      ensures Sending(h, Ts(), l_fc[..], l_dl[..], d_fc[..], d_dl[..], bl_fc[..], bl_dl[..], l_max, d_max, max_blindex)
      ensures MadeFor(h, Ts())
      ensures trees.opt_len == |HeaderBits(h)| + |BlockBits(Codes(false, h.lit, h.dist), Ts())|
      ensures EncodesAll(StaticCodes(), Ts()) && trees.static_len == |BlockBits(StaticCodes(), Ts())|
    {
      hide Counts, Holds, FreqOk, DescOk, TreeDone, TotalBits, StaticBits, TreesOk, EncodesAll, BlockBits, HeaderBits,
           HeaderOk, Usable, Sending, LensOk, LitDesc, DistDesc, BitBuffer.Valid, MadeFor, Tight;
      ghost var l, d, bl, ts := l_fc[..], d_fc[..], bl_fc[..], Ts();
      TokensFew(d_buf[..], l_buf[..], last_lit);
      CountsFreqOk(l, d, bl, ts);
      CountsZero(l, d, bl, ts);
      StaticMade(l, d, bl, ts);
      DescsOk();
      DescSizes();
      l_max := BuildTree.BuildTree(trees, l_fc, l_dl, LitDesc());
      ghost var lc, ll := l_fc[..], l_dl[..];
      d_max := BuildTree.BuildTree(trees, d_fc, d_dl, DistDesc());
      ghost var dc, dl := d_fc[..], d_dl[..];
      CodesMade(l, d, bl, ts, lc, ll, l_max + 1, dc, dl, d_max + 1);
      DoneSize(LitDesc(), l, lc, ll, l_max + 1);
      DoneSize(DistDesc(), d, dc, dl, d_max + 1);
      max_blindex, h := BuildBlTree(trees, l_dl, l_max, d_dl, d_max, bl_fc, bl_dl);
      HeaderFor(h, l, d, bl, ts, lc, ll, l_max + 1, dc, dl, d_max + 1);
      SendingIs(h, ts, lc, ll, l_dl[..], dc, dl, d_dl[..], bl_fc[..], bl_dl[..], l_max, d_max, max_blindex);
    }

    // Initialize a new block.
    method InitBlock()
      requires Shape()
      modifies this`last_lit, trees, l_fc, d_fc, bl_fc
      ensures last_lit == 0 && trees.opt_len == 0 && trees.static_len == 0
      ensures Counts(l_fc[..], d_fc[..], bl_fc[..], [])
    {
      var n := 0;
      while n < L_CODES
        invariant 0 <= n <= L_CODES && forall i :: 0 <= i < n ==> l_fc[i] == 0
      {
        l_fc[n] := 0;
        n := n + 1;
      }
      n := 0;
      while n < D_CODES
        invariant 0 <= n <= D_CODES && forall i :: 0 <= i < n ==> d_fc[i] == 0
        invariant forall i :: 0 <= i < L_CODES ==> l_fc[i] == 0
      {
        d_fc[n] := 0;
        n := n + 1;
      }
      n := 0;
      while n < BL_CODES
        invariant 0 <= n <= BL_CODES && forall i :: 0 <= i < n ==> bl_fc[i] == 0
        invariant forall i :: 0 <= i < L_CODES ==> l_fc[i] == 0
        invariant forall i :: 0 <= i < D_CODES ==> d_fc[i] == 0
      {
        bl_fc[n] := 0;
        n := n + 1;
      }
      l_fc[END_BLOCK] := 1;
      trees.opt_len, trees.static_len, last_lit := 0, 0, 0;
      NothingCounted(l_fc[..], d_fc[..], bl_fc[..]);
    }

    // Write the block with the dynamic trees.
    method SendDynamic(last: bool, l_max: nat, d_max: nat, max_blindex: nat, ghost h: Header)
      requires Shape() && w.Valid() && last_lit <= d_buf.Length
      requires Sending(h, Ts(), l_fc[..], l_dl[..], d_fc[..], d_dl[..], bl_fc[..], bl_dl[..], l_max, d_max, max_blindex)
      modifies w
      ensures w.Valid() && BlockOk(DynBlock(h, Ts()))
      ensures w.Stream() == old(w.Stream()) + BlockString(DynBlock(h, Ts()), last, |old(w.Stream())|)
    {
      hide BitBuffer.Stream, BitBuffer.Valid, HeaderOk, EncodesAll, Holds, Complete, HeaderBits, BlockBits, TypeBits;
      ghost var z, ts := w.Stream(), Ts();
      HeaderNotEmpty(h);
      SendType(w, 2, last);
      SendAllTrees(w, l_max + 1, d_max + 1, max_blindex + 1, l_dl, d_dl, bl_fc, bl_dl, h);
      CompressBlock(w, d_buf, l_buf, last_lit, l_fc, l_dl, d_fc, d_dl, Codes(false, h.lit, h.dist));
      assert z + TypeBits(2, last) + HeaderBits(h) + BlockBits(Codes(false, h.lit, h.dist), ts) ==
             z + BlockString(DynBlock(h, ts), last, |z|);
    }

    // Write the block with the static trees.
    method SendFixed(last: bool)
      requires Shape() && w.Valid() && last_lit <= d_buf.Length && EncodesAll(StaticCodes(), Ts())
      requires Holds(FixedLit(), sl_fc[..], sl_dl[..]) && Holds(Repeat(5, D_CODES), sd_fc[..], sd_dl[..])
      modifies w
      ensures w.Valid() && BlockOk(FixedBlock(Ts()))
      ensures w.Stream() == old(w.Stream()) + BlockString(FixedBlock(Ts()), last, |old(w.Stream())|)
      ensures |w.Stream()| == |old(w.Stream())| + 3 + |BlockBits(StaticCodes(), Ts())|
    {
      hide BitBuffer.Stream, BitBuffer.Valid, EncodesAll, Holds, BlockBits, TypeBits, FixedLit, Repeat;
      ghost var z, ts := w.Stream(), Ts();
      SameStatic(ts);
      SendType(w, 1, last);
      CompressBlock(w, d_buf, l_buf, last_lit, sl_fc, sl_dl, sd_fc, sd_dl, StaticCodes());
      assert z + TypeBits(1, last) + BlockBits(StaticCodes(), ts) == z + BlockString(FixedBlock(ts), last, |z|);
    }

    /** One of the three kinds of blocks is appended to the stream, by the rule in BlockChoice: it stands for the
        tokens collected, or for the bytes given, and its trees are those built for the tokens. */
    method TrFlushBlock(buf: Option<seq<nat>>, stored_len: nat, last: bool, level: nat, fixed: bool)
      returns (ghost b: Block, ghost h: Header)
      requires Valid()
      requires buf.Some? ==> |buf.value| == stored_len && BlockOk(StoredBlock(buf.value))
      requires level == 0 ==> buf.Some?
      modifies this`last_lit, trees, trees.heap, trees.depth, trees.bl_count, w,
               l_fc, l_dl, d_fc, d_dl, bl_fc, bl_dl
      ensures Valid() && Ts() == []
      ensures BlockOk(b) && Built(b)
      ensures if b.StoredBlock? then buf == Some(b.bytes) else b.ts == old(Ts())
      ensures w.Stream() == old(w.Stream()) + BlockString(b, last, |old(w.Stream())|) +
                            Zeros(if last then Padding(|old(w.Stream())| + |BlockString(b, last, |old(w.Stream())|)|) else 0)
      ensures last ==> w.Stream() == ByteBits(w.pending)
      ensures level == 0 ==> b.StoredBlock?
      ensures level > 0 ==> Chosen(b, h, old(Ts()), buf, stored_len, fixed) && MadeFor(h, old(Ts())) && Built(DynBlock(h, old(Ts())))
      ensures level > 0 ==> InTrees(h, l_dl[..], d_dl[..], bl_dl[..])
    {
      hide BitBuffer.Stream, BitBuffer.Valid, Counts, Holds, EncodesAll, BlockOk, BlockString, BlockBits, HeaderBits, Usable, Complete, Sending,
           Zeros, Padding, FixedLit, Repeat, ByteBits, MadeFor, InTrees, Built;
      ghost var ts, z := Ts(), w.Stream();
      var opt_lenb, static_lenb := stored_len + 5, stored_len + 5;
      var l_max: nat, d_max: nat, max_blindex: nat := 0, 0, 0;
      h := Header([], [], [], 0);
      if level > 0 {
        l_max, d_max, max_blindex, h := BuildTrees();
        SendingCost(h, ts, l_fc[..], l_dl[..], d_fc[..], d_dl[..], bl_fc[..], bl_dl[..], l_max, d_max, max_blindex, false);
        StaticCost(ts);
        opt_lenb := (trees.opt_len + 3 + 7) / 8;
        static_lenb := (trees.static_len + 3 + 7) / 8;
        assert opt_lenb == CodedBytes(DynBlock(h, ts)) && static_lenb == CodedBytes(FixedBlock(ts));
        if static_lenb <= opt_lenb {
          opt_lenb := static_lenb;
        }
      }
      if buf.Some? && stored_len + 4 <= opt_lenb {
        TrStoredBlock(w, buf.value, last);
        b := StoredBlock(buf.value);
        OtherBuilt(b);
      } else if fixed || static_lenb == opt_lenb {
        SendFixed(last);
        b := FixedBlock(ts);
        OtherBuilt(b);
      } else {
        SendDynamic(last, l_max, d_max, max_blindex, h);
        b := DynBlock(h, ts);
      }
      InitBlock();
      EmptyTokens(d_buf[..], l_buf[..]);
      NoZeros(w.Stream());
      if last {
        ghost var s1 := w.Stream();
        ghost var pad := w.BiWindup();
        OnePadding(|s1|, pad);
      }
    }
  }

  lemma {:induction false} NothingCounted(l: seq<nat>, d: seq<nat>, bl: seq<nat>)
    requires |l| >= L_CODES && |d| >= D_CODES && |bl| >= BL_CODES
    requires forall i :: 0 <= i < L_CODES ==> l[i] == if i == END_BLOCK then 1 else 0
    requires forall i :: 0 <= i < D_CODES ==> d[i] == 0
    requires forall i :: 0 <= i < BL_CODES ==> bl[i] == 0
    ensures Counts(l, d, bl, [])
  {
  }

  predicate Differ(a: array<nat>, b: array<nat>, c: array<nat>, d: array<nat>) {
    a != c && a != d && b != c && b != d
  }

  // The frequencies count the tokens and the end of the block.
  ghost predicate Counts(l: seq<nat>, d: seq<nat>, bl: seq<nat>, ts: seq<Token>) {
    && |l| >= L_CODES && |d| >= D_CODES && |bl| >= BL_CODES
    && l[..L_CODES] == LitFreq(ts) && d[..D_CODES] == DistUses(ts)
    && (forall s :: 0 <= s < BL_CODES ==> bl[s] == 0)
    && (forall i :: 0 <= i < |ts| ==> InRange(ts[i]))
  }

  lemma {:induction false} UsesTotals(ts: seq<Token>)
    requires forall i :: 0 <= i < |ts| ==> InRange(ts[i])
    ensures Total(LitUses(ts), L_CODES) == |ts| && Total(DistUses(ts), D_CODES) <= |ts|
  {
    hide LitUses, DistUses, Total, LitSym, DistSym;
    if ts == [] {
      NoneUsed();
    } else {
      UsesLast(ts);
      LitSymRange(ts[|ts| - 1]);
      var front := ts[..|ts| - 1];
      assert forall i :: 0 <= i < |front| ==> front[i] == ts[i];
      UsesTotals(front);
      TotalMore(LitUses(front), L_CODES, LitSym(ts[|ts| - 1]));
      TotalMore(DistUses(front), D_CODES, DistSym(ts[|ts| - 1]));
    }
  }

  lemma {:induction false} NoneUsed()
    ensures Total(LitUses([]), L_CODES) == 0 && Total(DistUses([]), D_CODES) == 0
  {
    TotalZero(LitUses([]), L_CODES);
    TotalZero(DistUses([]), D_CODES);
  }

  /** The frequencies are fit for build_tree. */
  lemma {:induction false} CountsFreqOk(l: seq<nat>, d: seq<nat>, bl: seq<nat>, ts: seq<Token>)
    requires Counts(l, d, bl, ts) && |ts| < 0x8000 && |l| == HEAP_SIZE && |d| == 2 * D_CODES + 1
    ensures FreqOk(l, L_CODES) && FreqOk(d, D_CODES)
  {
    hide LitUses, DistUses, Total;
    UsesTotals(ts);
    TotalMore(LitUses(ts), L_CODES, END_BLOCK);
    SameTotal(l, LitFreq(ts), L_CODES);
    SameTotal(d, DistUses(ts), D_CODES);
  }

  /** The two trees can send the block, at the cost they were built with. */
  lemma {:induction false} CodesMade(l: seq<nat>, d: seq<nat>, bl: seq<nat>, ts: seq<Token>, lc: seq<nat>, ll: seq<nat>, nl: nat,
                                     dc: seq<nat>, dl: seq<nat>, nd: nat)
    requires Counts(l, d, bl, ts)
    requires TreeDone(LitDesc(), l, lc, ll, nl) && TreeDone(DistDesc(), d, dc, dl, nd)
    ensures nl <= |ll| && nd <= |dl| && TreesOk(ll[..nl], dl[..nd])
    ensures Complete(ll[..nl]) && Complete(dl[..nd]) && EncodesAll(Codes(false, ll[..nl], dl[..nd]), ts)
    ensures |BlockBits(Codes(false, ll[..nl], dl[..nd]), ts)| ==
            TotalBits(LitDesc(), l, ll, L_CODES) + TotalBits(DistDesc(), d, dl, D_CODES)
  {
    hide LitUses, DistUses, TotalBits, Holds, BuiltCode, FreqOk, DescOk, Kraft, BlockBits, Encodes, FixedLit, Repeat, Extra;
    var c := Codes(false, ll[..nl], dl[..nd]);
    forall s | 0 <= s < L_CODES && LitFreq(ts)[s] > 0
      ensures s < nl && ll[s] > 0
    {
      assert l[s] == LitFreq(ts)[s];
    }
    forall s | 0 <= s < D_CODES && DistUses(ts)[s] > 0
      ensures s < nd && dl[s] > 0
    {
      assert d[s] == DistUses(ts)[s];
    }
    assert LitFreq(ts)[END_BLOCK] > 0;
    UsedEncodes(c, ts);
    BlockCost(c, ts, ll, dl);
    SameBits(LitDesc(), l, LitFreq(ts), ll, L_CODES);
    SameBits(DistDesc(), d, DistUses(ts), dl, D_CODES);
  }

  /** The static trees can, too. */
  lemma {:induction false} StaticMade(l: seq<nat>, d: seq<nat>, bl: seq<nat>, ts: seq<Token>)
    requires Counts(l, d, bl, ts)
    ensures EncodesAll(StaticCodes(), ts) && EncodesAll(FixedBlockCodes(false), ts)
    ensures BlockBits(StaticCodes(), ts) == BlockBits(FixedBlockCodes(false), ts)
    ensures |BlockBits(StaticCodes(), ts)| == StaticBits(LitDesc(), l, L_CODES) + StaticBits(DistDesc(), d, D_CODES)
  {
    hide LitUses, DistUses, TotalBits, BlockBits, FixedLit, Extra, Encodes;
    StaticEncodes(ts);
    StaticTokens(ts);
    BlockCost(StaticCodes(), ts, FixedLit(), Repeat(5, D_CODES));
    SameBits(LitDesc(), l, LitFreq(ts), FixedLit(), L_CODES);
    SameBits(DistDesc(), d, DistUses(ts), Repeat(5, D_CODES), D_CODES);
  }

  // One more token is counted.
  lemma {:induction false} CountsMore(l: seq<nat>, d: seq<nat>, bl: seq<nat>, ts: seq<Token>, t: Token)
    requires Counts(l, d, bl, ts) && InRange(t)
    ensures LitSym(t) < |l| && DistSym(t) < |d|
    ensures Counts(l[LitSym(t) := l[LitSym(t)] + 1], if t.Match? then d[DistSym(t) := d[DistSym(t)] + 1] else d, bl, ts + [t])
  {
    hide LitUses, DistUses, LitSym, DistSym;
    LitSymRange(t);
    UsesLast(ts + [t]);
    assert (ts + [t])[..|ts|] == ts;
    var x, l1 := LitSym(t), l[LitSym(t) := l[LitSym(t)] + 1];
    forall s | 0 <= s < L_CODES
      ensures l1[s] == LitFreq(ts + [t])[s]
    {
      assert l[..L_CODES][s] == LitFreq(ts)[s];
    }
    assert l1[..L_CODES] == LitFreq(ts + [t]);
    if t.Match? {
      var d1 := d[DistSym(t) := d[DistSym(t)] + 1];
      forall s | 0 <= s < D_CODES
        ensures d1[s] == DistUses(ts + [t])[s]
      {
        assert d[..D_CODES][s] == DistUses(ts)[s];
      }
      assert d1[..D_CODES] == DistUses(ts + [t]);
    }
  }

  lemma {:induction false} TokensFew(d_buf: seq<nat>, l_buf: seq<nat>, n: nat)
    requires n <= |d_buf| && n <= |l_buf|
    ensures |TokensOf(d_buf, l_buf, n)| == n
  {
  }

  lemma {:induction false} CountsZero(l: seq<nat>, d: seq<nat>, bl: seq<nat>, ts: seq<Token>)
    requires Counts(l, d, bl, ts)
    ensures |bl| >= BL_CODES && forall s :: 0 <= s < BL_CODES ==> bl[s] == 0
  {
  }

  lemma {:induction false} DescSizes()
    ensures LitDesc().elems == L_CODES && DistDesc().elems == D_CODES
  {
  }

  lemma {:induction false} DoneSize(d: StaticDesc, f: seq<nat>, codes: seq<nat>, lens: seq<nat>, n: nat)
    requires TreeDone(d, f, codes, lens, n)
    ensures 0 < n <= d.elems && n <= |lens| && Holds(lens[..n], codes, lens)
  {
  }

  // The trees hold the codes of the header, ready to be sent.
  ghost predicate Sending(h: Header, ts: seq<Token>, lc: seq<nat>, ll: seq<nat>, dc: seq<nat>, dl: seq<nat>,
                          bc: seq<nat>, bl: seq<nat>, l_max: nat, d_max: nat, max_blindex: nat) {
    && HeaderOk(h) && Usable(CODES, h.cl) && Complete(h.lit) && Complete(h.dist) && EncodesAll(Codes(false, h.lit, h.dist), ts)
    && l_max + 1 < |ll| && ll[l_max + 1] == 0xffff && d_max + 1 < |dl| && dl[d_max + 1] == 0xffff && |bl| >= BL_CODES
    && h == Header(ll[..l_max + 1], dl[..d_max + 1], bl[..BL_CODES], max_blindex + 1)
    && Holds(h.lit, lc, ll) && Holds(h.dist, dc, dl) && Holds(h.cl, bc, bl)
  }

  // The header is made of the lengths in the trees.
  ghost predicate InTrees(h: Header, ll: seq<nat>, dl: seq<nat>, bl: seq<nat>) {
    && |h.lit| <= |ll| && h.lit == ll[..|h.lit|] && |h.dist| <= |dl| && h.dist == dl[..|h.dist|]
    && |h.cl| <= |bl| && h.cl == bl[..|h.cl|]
  }

  lemma {:induction false} OtherBuilt(b: Block)
    requires !b.DynBlock?
    ensures Built(b)
  {
  }

  lemma {:induction false} StaticCost(ts: seq<Token>)
    requires EncodesAll(StaticCodes(), ts)
    ensures BlockOk(FixedBlock(ts)) && |BlockString(FixedBlock(ts), false, 0)| == 3 + |BlockBits(StaticCodes(), ts)|
  {
    hide EncodesAll, BlockBits, TypeBits, FixedLit, Repeat;
    SameStatic(ts);
  }

  lemma {:induction false} HoldsGuarded(lens: seq<nat>, codes: seq<nat>, lengths: seq<nat>, n: nat, v: nat)
    requires Holds(lens, codes, lengths) && |lens| <= n < |lengths|
    ensures Holds(lens, codes, lengths[n := v])
  {
  }

  lemma {:induction false} SendingIs(h: Header, ts: seq<Token>, lc: seq<nat>, ll0: seq<nat>, ll: seq<nat>, dc: seq<nat>, dl0: seq<nat>,
                                     dl: seq<nat>, bc: seq<nat>, bl: seq<nat>, l_max: nat, d_max: nat, max_blindex: nat)
    requires HeaderOk(h) && Usable(CODES, h.cl) && Complete(h.lit) && Complete(h.dist)
    requires l_max + 1 < |ll0| && d_max + 1 < |dl0| && |bl| >= BL_CODES
    requires ll == ll0[l_max + 1 := 0xffff] && dl == dl0[d_max + 1 := 0xffff]
    requires h == Header(ll0[..l_max + 1], dl0[..d_max + 1], bl[..BL_CODES], max_blindex + 1)
    requires Holds(h.lit, lc, ll0) && Holds(h.dist, dc, dl0) && Holds(h.cl, bc, bl)
    requires EncodesAll(Codes(false, h.lit, h.dist), ts)
    ensures Sending(h, ts, lc, ll, dc, dl, bc, bl, l_max, d_max, max_blindex)
  {
    hide Holds, HeaderOk, Usable, EncodesAll, Complete;
    HoldsGuarded(h.lit, lc, ll0, l_max + 1, 0xffff);
    HoldsGuarded(h.dist, dc, dl0, d_max + 1, 0xffff);
    assert ll[..l_max + 1] == ll0[..l_max + 1] && dl[..d_max + 1] == dl0[..d_max + 1];
  }

  lemma {:induction false} HeaderNotEmpty(h: Header)
    requires HeaderOk(h)
    ensures |h.lit| > 0 && |h.dist| > 0
  {
  }

  lemma {:induction false} SameStatic(ts: seq<Token>)
    requires EncodesAll(StaticCodes(), ts)
    ensures EncodesAll(FixedBlockCodes(false), ts)
    ensures BlockBits(StaticCodes(), ts) == BlockBits(FixedBlockCodes(false), ts)
  {
    hide LengthCode, DistCode, CodeBits, Encodes, TokenBits;
    StaticTokens(ts);
  }

  lemma {:induction false} EmptyTokens(d_buf: seq<nat>, l_buf: seq<nat>)
    ensures TokensOf(d_buf, l_buf, 0) == []
  {
  }

  lemma {:induction false} NoZeros(z: seq<bool>)
    ensures z + Zeros(0) == z
  {
  }

  lemma {:induction false} SendingCost(h: Header, ts: seq<Token>, lc: seq<nat>, ll: seq<nat>, dc: seq<nat>, dl: seq<nat>,
                                       bc: seq<nat>, bl: seq<nat>, l_max: nat, d_max: nat, max_blindex: nat, last: bool)
    requires Sending(h, ts, lc, ll, dc, dl, bc, bl, l_max, d_max, max_blindex)
    ensures BlockOk(DynBlock(h, ts)) && Built(DynBlock(h, ts)) && HeaderOk(h) && EncodesAll(Codes(false, h.lit, h.dist), ts)
    ensures InTrees(h, ll, dl, bl)
    ensures |BlockString(DynBlock(h, ts), last, 0)| == 3 + |HeaderBits(h)| + |BlockBits(Codes(false, h.lit, h.dist), ts)|
  {
    hide HeaderOk, EncodesAll, HeaderBits, BlockBits, TypeBits, Usable, Complete, Holds;
  }
}
