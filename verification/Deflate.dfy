/** The compressor of deflate.c: the matcher, the block being collected and the blocks written. */
module Deflate {
  import opened Bits
  import opened Canonical
  import opened TableCells
  import opened Tokens
  import opened Matches
  import opened Finder
  import opened BlockMachine
  import opened BitWriter
  import opened BlockData
  import opened BlockHeader
  import opened BlockWriter
  import opened Blocks
  import opened Streams
  import opened FlushBlock
  import opened BlockChoice
  import opened StaticTrees
  import opened FillWindow
  import opened Parsing

  /** The blocks written stand for the input before `start`, and the tokens collected for the
      input from there to `e`. */
  ghost predicate Kept(ts: seq<Token>, stream: seq<bool>, done: seq<Block>, input: seq<nat>, start: int, e: nat) {
    && 0 <= start <= e && Recorded(done, stream, input, start) && Covers(ts, input[..start], input, e)
  }

  ghost predicate Recorded(done: seq<Block>, stream: seq<bool>, input: seq<nat>, n: nat) {
    && n <= |input| && Sendings(done) && AllSensible(done)
    && StreamBits(done) == stream && Output(done) == input[..n]
  }

  // No match lies farther back than `maxDist`.
  ghost predicate Near(ts: seq<Token>, maxDist: nat) {
    forall i :: 0 <= i < |ts| && ts[i].Match? ==> ts[i].dist <= maxDist
  }

  ghost predicate AllNear(done: seq<Block>, maxDist: nat) {
    forall i :: 0 <= i < |done| && !done[i].StoredBlock? ==> Near(done[i].ts, maxDist)
  }

  // The stream is complete and stands for all of the input, with no distance above `maxDist`.
  ghost predicate Completed(done: seq<Block>, bytes: seq<nat>, input: seq<nat>, maxDist: nat) {
    && AllNear(done, maxDist) && done != [] && Sendings(done) && AllSensible(done)
    && FinalBits(done) == ByteBits(bytes) && Output(done) == input && IsBytes(bytes)
  }

  // All tokens of some blocks.
  function Flat(parsed: seq<seq<Token>>): seq<Token> {
    if parsed == [] then [] else Flat(parsed[..|parsed| - 1]) + parsed[|parsed| - 1]
  }

  /** The block was chosen by the rule for these tokens, with the trees built for them; its bytes, if they were at hand,
      were as many as the tokens stand for. */
  ghost predicate ByRule(b: Block, ts: seq<Token>, fixed: bool) {
    exists h: Header, buf: Option<seq<nat>> ::
      Chosen(b, h, ts, buf, Size(ts), fixed) && MadeFor(h, ts) && (buf.Some? ==> |buf.value| == Size(ts))
  }

  /** All tokens so far: those of each block written, whether it was sent as tokens or as bytes, and those collected. A block
      ends when the buffer of `size` tokens is full but for one. */
  ghost predicate Segments(done: seq<Block>, parsed: seq<seq<Token>>, ts: seq<Token>, toks: seq<Token>, size: nat, fixed: bool) {
    && |parsed| == |done| && toks == Flat(parsed) + ts
    && forall i :: 0 <= i < |done| ==> ByRule(done[i], parsed[i], fixed) && |parsed[i]| == size - 1
  }

  /** All tokens of a complete stream; the last block may be shorter. */
  ghost predicate AllSegments(done: seq<Block>, parsed: seq<seq<Token>>, toks: seq<Token>, size: nat, fixed: bool) {
    && |parsed| == |done| > 0 && toks == Flat(parsed)
    && forall i :: 0 <= i < |done| ==>
         ByRule(done[i], parsed[i], fixed) && |parsed[i]| < size && (i < |done| - 1 ==> |parsed[i]| == size - 1)
  }

  lemma {:induction false} SegmentsToken(done: seq<Block>, parsed: seq<seq<Token>>, ts: seq<Token>, toks: seq<Token>, t: Token, size: nat, fixed: bool)
    requires Segments(done, parsed, ts, toks, size, fixed)
    ensures Segments(done, parsed, ts + [t], toks + [t], size, fixed)
  {
    hide ByRule;
    assert Flat(parsed) + ts + [t] == Flat(parsed) + (ts + [t]);
  }

  lemma {:induction false} SegmentsBlock(done: seq<Block>, parsed: seq<seq<Token>>, ts: seq<Token>, toks: seq<Token>, b: Block, size: nat, fixed: bool)
    requires Segments(done, parsed, ts, toks, size, fixed) && ByRule(b, ts, fixed) && |ts| < size
    ensures |ts| == size - 1 ==> Segments(done + [b], parsed + [ts], [], toks, size, fixed)
    ensures AllSegments(done + [b], parsed + [ts], toks, size, fixed)
  {
    hide ByRule;
    assert (parsed + [ts])[..|parsed|] == parsed;
    assert Flat(parsed + [ts]) + [] == toks;
  }

  // The tokens stand for as many bytes as they should.
  lemma {:induction false} ExpandSize(ts: seq<Token>, hist: seq<nat>)
    requires TokensOk(ts, hist)
    ensures |Expand(ts, hist)| == |hist| + Size(ts)
  {
    if ts != [] {
      var front, t := ts[..|ts| - 1], ts[|ts| - 1];
      assert front + [t] == ts;
      FrontOk(front, t, hist);
      ExpandSize(front, hist);
    }
  }

  lemma {:induction false} FrontOk(ts: seq<Token>, t: Token, hist: seq<nat>)
    requires TokensOk(ts + [t], hist)
    ensures TokensOk(ts, hist) && TokenOk(t, Expand(ts, hist)) && Expand(ts + [t], hist) == Denoted(t, Expand(ts, hist))
  {
    if ts == [] {
      assert ts + [t] == [t] && [t][1..] == [];
    } else {
      assert (ts + [t])[0] == ts[0] && (ts + [t])[1..] == ts[1..] + [t];
      FrontOk(ts[1..], t, Denoted(ts[0], hist));
    }
  }

  lemma {:induction false} Ruled(b: Block, h: Header, ts: seq<Token>, buf: Option<seq<nat>>, n: nat, fixed: bool)
    requires Chosen(b, h, ts, buf, n, fixed) && MadeFor(h, ts) && n == Size(ts) && (buf.Some? ==> |buf.value| == n)
    ensures ByRule(b, ts, fixed)
  {
    hide Chosen, MadeFor, Size;
  }

  lemma {:induction false} KeptSize(ts: seq<Token>, stream: seq<bool>, done: seq<Block>, input: seq<nat>, start: int, e: nat)
    requires Kept(ts, stream, done, input, start, e)
    ensures Size(ts) == e - start
  {
    hide Recorded, TokensOk, Expand, Size;
    ExpandSize(ts, input[..start]);
  }

  lemma {:induction false} KeptLiteral(ts: seq<Token>, stream: seq<bool>, done: seq<Block>, input: seq<nat>, start: int, e: nat)
    requires Kept(ts, stream, done, input, start, e) && e < |input| && input[e] < 256
    ensures Kept(ts + [Literal(input[e])], stream, done, input, start, e + 1)
  {
    hide Covers, Recorded;
    CoverLiteral(ts, input[..start], input, e);
  }

  lemma {:induction false} KeptMatch(ts: seq<Token>, stream: seq<bool>, done: seq<Block>, input: seq<nat>, start: int, e: nat, dist: nat, len: nat)
    requires Kept(ts, stream, done, input, start, e) && MatchOk(input, e, dist, len) && dist <= WINDOW && MIN_MATCH <= len <= MAX_MATCH
    ensures Kept(ts + [Match(dist, len)], stream, done, input, start, e + len)
  {
    hide Recorded, MatchOk, TokensOk, Expand;
    CoverMatch(ts, input[..start], input, e, dist, len);
  }

  lemma {:induction false} KeptMore(ts: seq<Token>, stream: seq<bool>, done: seq<Block>, input: seq<nat>, start: int, e: nat, input1: seq<nat>)
    requires Kept(ts, stream, done, input, start, e) && input <= input1
    ensures Kept(ts, stream, done, input1, start, e)
  {
    hide Sendings, AllSensible, StreamBits, Output;
    var more := input1[|input|..];
    assert input + more == input1;
    CoverMore(ts, input[..start], input, e, more);
    assert input1[..start] == input[..start];
  }

  lemma {:induction false} NearBlock(b: Block, buf: Option<seq<nat>>, ts: seq<Token>, done: seq<Block>, maxDist: nat)
    requires Block1(b, buf, ts) && Near(ts, maxDist) && AllNear(done, maxDist)
    ensures AllNear(done + [b], maxDist)
  {
    hide BlockOk, Built;
  }

  lemma {:induction false} NoneNear(ts: seq<Token>, maxDist: nat)
    ensures |ts| == 0 ==> Near(ts, maxDist)
  {
  }

  // The stream with one more block; the last one is padded.
  ghost function Sent(b: Block, last: bool, stream: seq<bool>): seq<bool>
    requires BlockOk(b)
  {
    var z := BlockString(b, last, |stream|);
    stream + z + Zeros(if last then Padding(|stream| + |z|) else 0)
  }

  // What the block just written stands for.
  ghost predicate Block1(b: Block, buf: Option<seq<nat>>, ts: seq<Token>) {
    BlockOk(b) && Built(b) && if b.StoredBlock? then buf == Some(b.bytes) else b.ts == ts
  }

  lemma {:induction false} BlockMeans(b: Block, buf: Option<seq<nat>>, ts: seq<Token>, stream: seq<bool>, done: seq<Block>,
                                      input: seq<nat>, start: int, e: nat)
    requires Kept(ts, stream, done, input, start, e) && Block1(b, buf, ts) && (buf.Some? ==> buf.value == input[start..e])
    ensures Sensible(b, Output(done)) && After(b, Output(done)) == input[..e]
  {
    hide BlockOk, Built, AllSensible, Sendings, StreamBits, Output;
    if b.StoredBlock? {
      assert input[..start] + input[start..e] == input[..e];
    }
  }

  lemma {:induction false} KeptBlock(b: Block, buf: Option<seq<nat>>, ts: seq<Token>, stream: seq<bool>, done: seq<Block>,
                                     input: seq<nat>, start: int, e: nat)
    requires Kept(ts, stream, done, input, start, e) && Block1(b, buf, ts) && (buf.Some? ==> buf.value == input[start..e])
    ensures Kept([], Sent(b, false, stream), done + [b], input, e, e)
    ensures e == |input| ==>
              Sendings(done + [b]) && AllSensible(done + [b]) && Output(done + [b]) == input && FinalBits(done + [b]) == Sent(b, true, stream)
  {
    hide BlockOk, Built, Sensible, After, BlockString, AllSensible, Sendings, StreamBits, Output, FinalBits;
    BlockMeans(b, buf, ts, stream, done, input, start, e);
    Longer(done, b);
    assert TokensOk([], input[..e]) && Expand([], input[..e]) == input[..e];
    assert e == |input| ==> input[..e] == input;
    NoZeros(stream + BlockString(b, false, |stream|));
  }

  lemma {:induction false} KeptBounds(ts: seq<Token>, stream: seq<bool>, done: seq<Block>, input: seq<nat>, start: int, e: nat)
    requires Kept(ts, stream, done, input, start, e)
    ensures 0 <= start <= e <= |input|
  {
  }

  lemma {:induction false} BufferSizes(b: BlockState)
    requires b.Valid()
    ensures b.last_lit < b.d_buf.Length == b.l_buf.Length && 1 < b.d_buf.Length && b.last_lit < 0x8000 && IsBytes(b.w.pending)
    ensures |b.Ts()| == b.last_lit
  {
  }

  lemma {:induction false} StoredOk(bytes: seq<nat>)
    requires IsBytes(bytes) && |bytes| < 65536
    ensures BlockOk(StoredBlock(bytes))
  {
  }

  // A part of the window in terms of the input.
  lemma {:induction false} WindowPart(w: seq<nat>, input: seq<nat>, base: nat, end: nat, i: nat, j: nat)
    requires end <= |w| && base + end == |input| && w[..end] == input[base..] && i <= j <= end && IsBytes(input)
    ensures w[i..j] == input[base + i..base + j] && IsBytes(w[i..j])
  {
    assert w[i..j] == w[..end][i..j];
  }

  lemma {:induction false} NothingKept()
    ensures Kept([], [], [], [], 0, 0)
  {
  }

  lemma {:induction false} BufSizes(mem_level: nat)
    requires 1 <= mem_level <= 9
    ensures 1 < Pow2(mem_level + 6) <= 0x8000
  {
    assert Pow2(7) == 128 && Pow2(15) == 32768 by { Pow2Values(); }
    hide Pow2;
    Pow2Mono(7, mem_level + 6);
    Pow2Mono(mem_level + 6, 15);
  }

  // The block that ends at strstart, if it is still in the window, is short enough to be stored.
  ghost predicate Storable(f: MatchFinder)
    reads f
  {
    f.block_start >= 0 ==> f.strstart - f.block_start < 65536
  }

  // The objects of the block.
  ghost function Parts(b: BlockState): set<object> {
    {b, b.trees, b.w, b.trees.heap, b.trees.depth, b.trees.bl_count, b.l_fc, b.l_dl, b.d_fc, b.d_dl, b.bl_fc, b.bl_dl,
     b.d_buf, b.l_buf, b.sl_fc, b.sl_dl, b.sd_fc, b.sd_dl}
  }

  ghost predicate Clear(f: MatchFinder, b: BlockState) {
    f.window !in Parts(b) && f.prev !in Parts(b) && f.head !in Parts(b)
  }

  // A matcher and a block that share nothing.
  method NewParts(w_bits: nat, mem_level: nat, good: nat, lazy: nat, nice: nat, chain: nat) returns (m: MatchFinder, t: BlockState)
    requires 9 <= w_bits <= 15 && 1 <= mem_level <= 9 && chain >= 4 && nice <= MAX_MATCH
    ensures m.Valid() && m.Hashed() && m.input == [] && m.source == [] && m.strstart == 0 && m.lookahead == 0 && m.base == 0 && m.ins == {}
    ensures m.wsize == Pow2(w_bits) && m.block_start == 0 && t.Valid() && t.last_lit == 0 && 1 < t.d_buf.Length == t.l_buf.Length
    ensures t.Ts() == [] && t.w.Stream() == [] && Clear(m, t)
    ensures fresh(m) && fresh(m.window) && fresh(m.prev) && fresh(m.head) && fresh(Parts(t))
  {
    hide BlockState.Valid, Pow2, BitBuffer.Stream, MatchFinder.Index, MatchFinder.Data;
    m := new MatchFinder(w_bits, mem_level, good, lazy, nice, chain);
    BufSizes(mem_level);
    t := new BlockState(Pow2(mem_level + 6));
    BufferSizes(t);
  }

  class Compressor {
    const f: MatchFinder
    const b: BlockState
    const level: nat
    const fixed: bool      // Z_FIXED
    const filtered: bool   // Z_FILTERED
    var match_length: nat
    var prev_length: nat
    var prev_match: nat
    var match_available: bool
    ghost var done: seq<Block>
    ghost var parsed: seq<seq<Token>>   // the tokens of each block
    ghost var toks: seq<Token>          // all tokens
    ghost var looks: map<nat, Look>     // what was found at the positions of the input

    /** deflateInit2_, for a raw stream. */
    constructor (w_bits: nat, mem_level: nat, level: nat, fixed: bool, filtered: bool, good: nat, lazy: nat, nice: nat, chain: nat)
      requires 9 <= w_bits <= 15 && 1 <= mem_level <= 9 && level > 0 && chain >= 4 && nice <= MAX_MATCH
      ensures f.Valid() && f.Hashed() && f.input == [] && f.source == [] && f.strstart == 0 && f.lookahead == 0 && f.base == 0 && f.ins == {}
      ensures Core(0) && Room() && match_length == prev_length == MIN_MATCH - 1 && !match_available
      ensures f.wsize == Pow2(w_bits) && f.block_start == 0 && b.last_lit == 0 && toks == [] && looks == map[]
      ensures fresh(f) && fresh(f.window) && fresh(f.prev) && fresh(f.head) && fresh(Parts(b))
    {
      hide BlockState.Valid, Pow2, Parts, BitBuffer.Stream, MatchFinder.Index, MatchFinder.Data;
      var m, t := NewParts(w_bits, mem_level, good, lazy, nice, chain);
      f, b := m, t;
      this.level, this.fixed, this.filtered := level, fixed, filtered;
      match_length, prev_length, prev_match, match_available := MIN_MATCH - 1, MIN_MATCH - 1, 0, false;
      done, parsed, toks, looks := [], [], [], map[];
      new;
      NothingKept();
    }

    /** All input before `e` has been turned into blocks and tokens. */
    ghost predicate Core(e: nat)
      reads this, f, b, b.trees, b.w, b.l_fc, b.d_fc, b.bl_fc, b.d_buf, b.l_buf, b.sl_fc, b.sl_dl, b.sd_fc, b.sd_dl
    {
      && Clear(f, b) && b.Valid() && 0 < level && 512 <= f.wsize <= WINDOW
      && Near(b.Ts(), f.MaxDist()) && AllNear(done, f.MaxDist())
      && Kept(b.Ts(), b.w.Stream(), done, f.input, f.base + f.block_start, e)
      && Segments(done, parsed, b.Ts(), toks, b.d_buf.Length, fixed)
    }

    // There is room for one more token.
    ghost predicate Room()
      reads b
    {
      b.last_lit + 1 < b.d_buf.Length
    }

    // _tr_tally_lit
    method TallyLit(lit: nat, ghost e: nat) returns (bflush: bool)
      requires Core(e) && Room() && e < |f.input| && lit == f.input[e] && lit < 256
      modifies this`toks, b`last_lit, b.d_buf, b.l_buf, b.l_fc, b.d_fc
      ensures Core(e + 1) && (bflush <==> !Room()) && b.last_lit == old(b.last_lit) + 1
      ensures toks == old(toks) + [Literal(lit)]
    {
      hide BlockState.Valid, Kept, Parts, BitBuffer.Stream, Segments;
      BufferSizes(b);
      SegmentsToken(done, parsed, b.Ts(), toks, Literal(lit), b.d_buf.Length, fixed);
      toks := toks + [Literal(lit)];
      KeptLiteral(b.Ts(), b.w.Stream(), done, f.input, f.base + f.block_start, e);
      bflush := b.TrTally(0, lit);
    }

    // _tr_tally_dist
    method TallyDist(dist: nat, length: nat, ghost e: nat) returns (bflush: bool)
      requires Core(e) && Room() && MatchOk(f.input, e, dist, length + MIN_MATCH) && dist <= f.MaxDist() && length + MIN_MATCH <= MAX_MATCH
      modifies this`toks, b`last_lit, b.d_buf, b.l_buf, b.l_fc, b.d_fc
      ensures Core(e + length + MIN_MATCH) && (bflush <==> !Room())
      ensures toks == old(toks) + [Match(dist, length + MIN_MATCH)]
    {
      hide BlockState.Valid, Kept, Parts, BitBuffer.Stream, Segments;
      BufferSizes(b);
      SegmentsToken(done, parsed, b.Ts(), toks, Match(dist, length + MIN_MATCH), b.d_buf.Length, fixed);
      toks := toks + [Match(dist, length + MIN_MATCH)];
      KeptMatch(b.Ts(), b.w.Stream(), done, f.input, f.base + f.block_start, e, dist, length + MIN_MATCH);
      bflush := b.TrTally(dist, length);
    }

    // The call of _tr_flush_block in FLUSH_BLOCK_ONLY.
    method WriteBlock(last: bool) returns (ghost blk: Block, ghost h: Header, ghost buf: Option<seq<nat>>)
      requires f.Sizes() && f.Data() && f.block_start <= f.strstart <= f.end && Storable(f) && b.Valid() && 0 < level
      modifies b`last_lit, b.trees, b.trees.heap, b.trees.depth, b.trees.bl_count, b.w,
               b.l_fc, b.l_dl, b.d_fc, b.d_dl, b.bl_fc, b.bl_dl
      ensures b.Valid() && b.last_lit == 0 && b.last_lit <= b.d_buf.Length && b.last_lit <= b.l_buf.Length && b.Ts() == []
      ensures Block1(blk, buf, old(b.Ts())) && (buf.Some? <==> f.block_start >= 0)
      ensures Chosen(blk, h, old(b.Ts()), buf, f.strstart - f.block_start, fixed) && MadeFor(h, old(b.Ts()))
      ensures buf.Some? ==> 0 <= f.base + f.block_start && buf.value == f.input[f.base + f.block_start..f.base + f.strstart]
      ensures b.w.Stream() == Sent(blk, last, old(b.w.Stream())) && (last ==> b.w.Stream() == ByteBits(b.w.pending))
    {
      hide BlockState.Valid, Parts, BitBuffer.Stream, Blocks.BlockOk, BlockString, Zeros, Padding, IsBytes, ByteBits,
           Built, EncodesAll, BlockBits, Chosen, MadeFor, InTrees;
      BufferSizes(b);
      if f.block_start >= 0 {
        WindowPart(f.window[..], f.input, f.base, f.end, f.block_start, f.strstart);
        StoredOk(f.window[f.block_start..f.strstart]);
        assert f.window[..][f.block_start..f.strstart] == f.window[f.block_start..f.strstart];
      }
      var part := if f.block_start >= 0 then Some(f.window[f.block_start..f.strstart]) else None;
      blk, h := b.TrFlushBlock(part, f.strstart - f.block_start, last, level, fixed);
      buf := part;
    }

    /** FLUSH_BLOCK_ONLY: flush the current block. */
    method FlushBlock(last: bool)
      requires f.Sizes() && f.Data() && f.strstart <= f.end && Storable(f) && Core(f.base + f.strstart) && (!last ==> !Room())
      modifies f`block_start, this`done, this`parsed, b`last_lit, b.trees, b.trees.heap, b.trees.depth, b.trees.bl_count, b.w,
               b.l_fc, b.l_dl, b.d_fc, b.d_dl, b.bl_fc, b.bl_dl
      ensures !last ==> Core(f.base + f.strstart) && Room() && b.last_lit == 0 && f.block_start == f.strstart
      ensures last && f.strstart == f.end ==> Completed(done, b.w.pending, f.input, f.MaxDist()) && AllSegments(done, parsed, toks, b.d_buf.Length, fixed)
    {
      hide Segments, AllSegments, ByRule, Size, Chosen, MadeFor, BlockState.Valid, Kept, Parts, BitBuffer.Stream, BlockString, IsBytes, ByteBits, FinalBits,
           Output, Sendings, AllSensible, Block1, Sent, Near, AllNear;
      BufferSizes(b);
      ghost var ts, stream, start, e := b.Ts(), b.w.Stream(), f.base + f.block_start, f.base + f.strstart;
      KeptBounds(ts, stream, done, f.input, start, e);
      KeptSize(ts, stream, done, f.input, start, e);
      ghost var blk, h, buf := WriteBlock(last);
      Ruled(blk, h, ts, buf, e - start, fixed);
      KeptBlock(blk, buf, ts, stream, done, f.input, start, e);
      NearBlock(blk, buf, ts, done, f.MaxDist());
      SegmentsBlock(done, parsed, ts, toks, blk, b.d_buf.Length, fixed);
      BufferSizes(b);
      NoneNear(b.Ts(), f.MaxDist());
      done, parsed := done + [blk], parsed + [ts];
      f.block_start := f.strstart;
    }
  }

  method SetLength(c: Compressor, len: nat, ghost e: nat)
    requires c.Core(e)
    modifies c`match_length
    ensures c.match_length == len && c.Core(e)
  {
    hide BlockState.Valid, Kept, BitBuffer.Stream, Near, AllNear, Parts, Segments, ByRule;
    c.match_length := len;
  }

  // What was found at a position.
  ghost method Note(c: Compressor, p: nat, look: Look, e: nat)
    requires c.Core(e)
    modifies c`looks
    ensures c.looks == old(c.looks)[p := look] && c.Core(e)
  {
    hide BlockState.Valid, Kept, BitBuffer.Stream, Near, AllNear, Parts, Segments, ByRule;
    c.looks := c.looks[p := look];
  }

  // Every token of the block stands for one byte.
  ghost predicate OneToOne(c: Compressor)
    reads c.f, c.b
  {
    c.f.strstart - c.f.block_start == c.b.last_lit
  }

  // All the compressor may change.
  ghost function Repr(c: Compressor): set<object> {
    {c, c.f, c.f.window, c.f.prev, c.f.head} + Parts(c.b)
  }

  // The position of the current string in the input, the whole input, and how much of it is left.
  ghost function Pos(c: Compressor): nat
    reads c.f
  {
    c.f.base + c.f.strstart
  }

  ghost function All(c: Compressor): seq<nat>
    reads c.f
  {
    c.f.input + c.f.source
  }

  ghost function Left(c: Compressor): nat
    reads c.f
  {
    |c.f.source| + c.f.lookahead
  }

  lemma {:induction false} InputSeen(c: Compressor)
    requires c.f.Valid()
    ensures Pos(c) + c.f.lookahead == |c.f.input| <= |All(c)| && (c.f.source == [] ==> All(c) == c.f.input)
  {
    hide MatchFinder.Index, IsBytes;
  }

  datatype Outcome = NeedMore | FinishStarted | FinishDone

  // How a turn of the compressing loop ends: with another turn, a return, or the end of the input.
  datatype Turn = Again | Wait | Finish

  ghost predicate TurnEnd(c: Compressor, t: Turn, finish: bool, left: nat)
    reads c.f
  {
    match t
    case Again => Left(c) < left
    case Wait => Left(c) < left || (!finish && c.f.source == [] && Left(c) == left)
    case Finish => finish && Left(c) == 0 && left == 0 && Storable(c.f)
  }

  /** What a call promises: it stopped for want of input or of room for output, having used the input up
      or some of it; or the stream is complete. */
  ghost predicate CallEnd(c: Compressor, r: Outcome, finish: bool, all: seq<nat>, left: nat)
    reads c, c.f, c.b.w
  {
    && All(c) == all && 512 <= c.f.wsize
    && if r.NeedMore? then Left(c) < left || (!finish && c.f.source == [] && Left(c) == left)
       else finish && Completed(c.done, c.b.w.pending, all, c.f.MaxDist()) && AllSegments(c.done, c.parsed, c.toks, c.b.d_buf.Length, c.fixed)
  }

  // fill_window; the blocks and tokens stand for the same part of the input.
  method Fill(c: Compressor, ghost e: nat)
    requires c.f.Valid() && c.f.lookahead < MIN_LOOKAHEAD && c.Core(e)
    modifies c.f, c.f.window, c.f.head, c.f.prev
    ensures c.f.Valid() && c.Core(e) && Pos(c) == old(Pos(c)) && All(c) == old(All(c)) && Left(c) == old(Left(c))
    ensures Sub32(c.f.strstart, c.f.match_start) == Sub32(old(c.f.strstart), old(c.f.match_start)) && old(c.f.input) <= c.f.input
    ensures c.f.lookahead >= MIN_LOOKAHEAD || c.f.source == []
    ensures SameStrings(old(c.f.base), old(c.f.ins), c.f.base, c.f.ins)
    ensures c.f.lookahead >= old(c.f.lookahead) && c.f.strstart + MIN_LOOKAHEAD < 2 * c.f.wsize
    ensures c.f.strstart == old(c.f.strstart) || c.f.strstart >= c.f.MaxDist()
    ensures old(c.f.Hashed()) ==> c.f.Hashed()
    ensures old(OneToOne(c)) ==> OneToOne(c)
  {
    hide BlockState.Valid, Kept, BitBuffer.Stream, Sub32, MatchFinder.Hashed, MatchFinder.Index, IsBytes;
    BufferSizes(c.b);
    ghost var start, input := c.f.base + c.f.block_start, c.f.input;
    ghost var ts, stream := c.b.Ts(), c.b.w.Stream();
    FillWindow.FillWindow(c.f);
    KeptMore(ts, stream, c.done, input, start, e, c.f.input);
  }

  // There is at least `need` lookahead then, or no input left to come.
  method Feed(c: Compressor, need: nat, finish: bool, ghost e: nat) returns (t: Turn)
    requires c.f.Valid() && c.Core(e) && 0 < need <= MIN_LOOKAHEAD
    modifies c.f, c.f.window, c.f.head, c.f.prev
    ensures c.f.Valid() && c.Core(e) && Pos(c) == old(Pos(c)) && All(c) == old(All(c)) && Left(c) == old(Left(c))
    ensures Sub32(c.f.strstart, c.f.match_start) == Sub32(old(c.f.strstart), old(c.f.match_start)) && old(c.f.input) <= c.f.input
    ensures SameStrings(old(c.f.base), old(c.f.ins), c.f.base, c.f.ins)
    ensures c.f.lookahead >= old(c.f.lookahead) && (old(c.f.Hashed()) ==> c.f.Hashed())
    ensures c.f.strstart == old(c.f.strstart) || c.f.strstart >= c.f.MaxDist()
    ensures old(OneToOne(c)) ==> OneToOne(c)
    ensures if t.Again? then c.f.lookahead > 0 && c.f.strstart + need <= 2 * c.f.wsize && (c.f.lookahead >= need || (finish && c.f.source == []))
            else TurnEnd(c, t, finish, old(Left(c)))
  {
    hide BlockState.Valid, Kept, BitBuffer.Stream, Sub32, MatchFinder.Hashed, MatchFinder.Index, IsBytes;
    if c.f.lookahead < need {
      Fill(c, e);
      if c.f.lookahead < need && !finish {
        return Wait;
      }
      if c.f.lookahead == 0 {
        return Finish;
      }
    }
    t := Again;
  }

  // FLUSH_BLOCK, if a block is to be flushed: wait when there is no more room for output.
  method FlushIf(c: Compressor, bflush: bool) returns (t: Turn)
    requires c.f.Sizes() && c.f.Data() && c.f.strstart <= c.f.end && c.Core(Pos(c)) && (bflush <==> !c.Room()) && Storable(c.f)
    modifies c.f`block_start, c`done, c`parsed, c.b`last_lit, c.b.trees, c.b.trees.heap, c.b.trees.depth, c.b.trees.bl_count, c.b.w,
             c.b.l_fc, c.b.l_dl, c.b.d_fc, c.b.d_dl, c.b.bl_fc, c.b.bl_dl
    ensures c.Core(Pos(c)) && c.Room() && !t.Finish?
    ensures old(c.f.Valid()) ==> c.f.Valid()
    ensures old(c.f.Hashed()) ==> c.f.Hashed()
    ensures old(OneToOne(c)) ==> OneToOne(c)
  {
    hide BlockState.Valid, Kept, BitBuffer.Stream, IsBytes, Segments, AllSegments, ByRule, Near, AllNear;
    t := Again;
    if bflush {
      c.FlushBlock(false);
      var full: bool := *;  // avail_out == 0
      t := if full then Wait else Again;
    }
  }

  // All input is used up: flush the last block.
  method LastBlock(c: Compressor) returns (r: Outcome)
    requires c.f.Valid() && c.Core(Pos(c)) && Storable(c.f) && Left(c) == 0
    modifies Repr(c)
    ensures !r.NeedMore? && All(c) == old(All(c)) && Completed(c.done, c.b.w.pending, All(c), c.f.MaxDist())
    ensures AllSegments(c.done, c.parsed, c.toks, c.b.d_buf.Length, c.fixed) && c.toks == old(c.toks) && c.looks == old(c.looks)
  {
    hide BlockState.Valid, Kept, BitBuffer.Stream, Completed, MatchFinder.Index, IsBytes, Segments, AllSegments, ByRule, Near, AllNear;
    c.FlushBlock(true);
    assert c.f.input + c.f.source == c.f.input;
    var full: bool := *;  // avail_out == 0
    r := if full then FinishStarted else FinishDone;
  }
}
