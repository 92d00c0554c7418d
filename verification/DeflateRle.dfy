/** deflate_rle and deflate_huff of deflate.c: runs of a byte, or literals only. */
module DeflateRle {
  import opened Bits
  import opened Tokens
  import opened RollingHash
  import opened HashChains
  import opened Matches
  import opened Finder
  import opened BitWriter
  import opened FlushBlock
  import opened Deflate
  import opened DeflateFast
  import MatchSearch
  import opened Parsing

  // The hash table is not kept up.
  ghost predicate RunReady(c: Compressor)
    reads c, c.f, c.f.window, c.f.prev, c.f.head, c.b, c.b.trees, c.b.w, c.b.l_fc, c.b.d_fc, c.b.bl_fc, c.b.d_buf, c.b.l_buf,
          c.b.sl_fc, c.b.sl_dl, c.b.sd_fc, c.b.sd_dl
  {
    c.f.Valid() && c.Core(Pos(c)) && c.Room()
  }

  // The first `n` bytes of the string at `i` equal the byte before it.
  ghost predicate SameBytes(w: seq<nat>, i: nat, n: nat)
    requires 0 < i && i + n <= |w|
  {
    forall k :: i <= k < i + n ==> w[k] == w[i - 1]
  }

  lemma {:induction false} RunMatch(w: seq<nat>, input: seq<nat>, base: nat, end: nat, i: nat, n: nat)
    requires 0 < i && i + n <= end <= |w| && base + end == |input| && w[..end] == input[base..] && SameBytes(w, i, n)
    ensures MatchOk(input, base + i, 1, n)
  {
    forall k | base + i <= k < base + i + n
      ensures input[k] == input[k - 1]
    {
      assert w[..end][k - base] == input[base..][k - base] && w[..end][k - base - 1] == input[base..][k - base - 1];
      assert w[k - base] == w[i - 1] && (k > base + i ==> w[k - base - 1] == w[i - 1]);
    }
  }

  /** The length of the run of the byte before the current string, or 0 for less than MIN_MATCH. */
  method RunLength(f: MatchFinder) returns (len: nat)
    requires f.Sizes() && f.Data() && f.end == f.strstart + f.lookahead && f.strstart + MAX_MATCH < 2 * f.wsize
    ensures len == 0 || (MIN_MATCH <= len <= MAX_MATCH && len <= f.lookahead && 0 < f.strstart && SameBytes(f.window[..], f.strstart, len))
    ensures len == 0 ==> f.lookahead < MIN_MATCH || f.strstart == 0 || !SameBytes(f.window[..], f.strstart, MIN_MATCH)
    ensures 0 < len < MAX_MATCH && len < f.lookahead ==> !SameBytes(f.window[..], f.strstart, len + 1)
  {
    hide IsBytes, HashOk, Pow2;
    len := 0;
    if f.lookahead >= MIN_MATCH && f.strstart > 0 {
      ghost var w := f.window[..];
      var scan := f.strstart;
      var prev := f.window[scan - 1];
      assert SameBytes(w, scan, MIN_MATCH) ==> w[scan] == prev && w[scan + 1] == prev && w[scan + 2] == prev;
      if prev == f.window[scan] && prev == f.window[scan + 1] && prev == f.window[scan + 2] {
        len := 3;
        while len < MAX_MATCH && prev == f.window[scan + len]
          invariant 3 <= len <= MAX_MATCH && SameBytes(w, scan, len)
        {
          len := len + 1;
        }
        assert len < MAX_MATCH ==> w[scan + len] != w[scan - 1];
        if len > f.lookahead {
          len := f.lookahead;
        }
      }
    }
  }

  // The run in terms of all input.
  lemma {:induction false} RunIs(w: seq<nat>, input: seq<nat>, all: seq<nat>, base: nat, end: nat, i: nat, len: nat)
    requires i + MAX_MATCH < |w| && i < end <= |w| && base + end == |input| && w[..end] == input[base..] && input <= all
    requires all == input || i + MAX_MATCH <= end
    requires len == 0 || (MIN_MATCH <= len <= MAX_MATCH && i + len <= end && 0 < i && SameBytes(w, i, len))
    requires len == 0 ==> end - i < MIN_MATCH || i == 0 || !SameBytes(w, i, MIN_MATCH)
    requires 0 < len < MAX_MATCH && i + len < end ==> !SameBytes(w, i, len + 1)
    requires i > 0 || base == 0
    ensures RunToken(all, base + i) == if len > 0 then Match(1, len) else Literal(input[base + i])
  {
    hide SameBytes;
    var p := base + i;
    if i > 0 {
      var most := MatchSearch.Min(MAX_MATCH, |all| - p);
      if len > 0 {
        LongRun(w, input, all, base, end, i, len, most);
      } else {
        ShortRun(w, input, all, base, end, i, most);
      }
    }
  }

  // A run that ends.
  lemma {:induction false} LongRun(w: seq<nat>, input: seq<nat>, all: seq<nat>, base: nat, end: nat, i: nat, len: nat, most: nat)
    requires 0 < i && i + most <= end <= |w| && base + end == |input| && w[..end] == input[base..] && input <= all
    requires len <= most && SameBytes(w, i, len) && (len < most ==> !SameBytes(w, i, len + 1))
    ensures MatchSearch.Shared(all, base + i - 1, base + i, 0, most) == len
  {
    var n := MatchSearch.Shared(all, base + i - 1, base + i, 0, most);
    hide MatchSearch.Shared, MatchSearch.SameByte;
    SharedRun(w, input, all, base, end, i, n, base + i - 1, base + i);
    if n < most {
      SharedEnd(w, input, all, base, end, i, n);
    }
  }

  lemma {:induction false} ShortRun(w: seq<nat>, input: seq<nat>, all: seq<nat>, base: nat, end: nat, i: nat, most: nat)
    requires 0 < i && i + most <= end <= |w| && base + end == |input| && w[..end] == input[base..] && input <= all
    requires most >= MIN_MATCH ==> !SameBytes(w, i, MIN_MATCH)
    ensures MatchSearch.Shared(all, base + i - 1, base + i, 0, most) < MIN_MATCH
  {
    var n := MatchSearch.Shared(all, base + i - 1, base + i, 0, most);
    hide MatchSearch.Shared, MatchSearch.SameByte;
    SharedRun(w, input, all, base, end, i, n, base + i - 1, base + i);
  }

  lemma {:induction false} SharedRun(w: seq<nat>, input: seq<nat>, all: seq<nat>, base: nat, end: nat, i: nat, n: nat, q: nat, p: nat)
    requires 0 < i && i + n <= end <= |w| && base + end == |input| && w[..end] == input[base..] && input <= all
    requires p == base + i == q + 1 && forall j :: 0 <= j < n ==> MatchSearch.SameByte(all, q, p, j)
    ensures SameBytes(w, i, n)
  {
    if n > 0 {
      SharedRun(w, input, all, base, end, i, n - 1, q, p);
      InWindow(w, input, all, base, end, i + n - 1);
      InWindow(w, input, all, base, end, i + n - 2);
      assert MatchSearch.SameByte(all, q, p, n - 1);
    }
  }

  lemma {:induction false} SharedEnd(w: seq<nat>, input: seq<nat>, all: seq<nat>, base: nat, end: nat, i: nat, n: nat)
    requires 0 < i && i + n < end <= |w| && base + end == |input| && w[..end] == input[base..] && input <= all
    requires SameBytes(w, i, n) && !MatchSearch.SameByte(all, base + i - 1, base + i, n)
    ensures !SameBytes(w, i, n + 1)
  {
    InWindow(w, input, all, base, end, i + n);
    InWindow(w, input, all, base, end, i + n - 1);
  }

  lemma {:induction false} InWindow(w: seq<nat>, input: seq<nat>, all: seq<nat>, base: nat, end: nat, j: nat)
    requires j < end <= |w| && base + end == |input| && w[..end] == input[base..] && input <= all
    ensures w[j] == all[base + j]
  {
    assert w[..end][j] == input[base..][j];
  }

  // Strings inserted earlier stay below a later position.
  lemma {:induction false} IndexLater(f: MatchFinder, top: nat)
    requires f.Index(f.strstart) && f.strstart <= top
    ensures f.Index(top)
  {
  }

  // Tally a match at distance one.
  method TakeRun(c: Compressor, len: nat) returns (bflush: bool)
    requires RunReady(c) && MIN_MATCH <= len <= MAX_MATCH && len <= c.f.lookahead && MatchOk(c.f.input, Pos(c), 1, len)
    modifies c.f`strstart, c.f`lookahead, c`toks, c.b`last_lit, c.b.d_buf, c.b.l_buf, c.b.l_fc, c.b.d_fc
    ensures c.f.Valid() && c.Core(Pos(c)) && (bflush <==> !c.Room())
    ensures Left(c) + len == old(Left(c)) && c.f.strstart == old(c.f.strstart) + len && c.toks == old(c.toks) + [Match(1, len)]
  {
    hide BlockState.Valid, Kept, BitBuffer.Stream, Chains, IsBytes, MatchOk, HashOk, Pow2;
    IndexLater(c.f, c.f.strstart + len);
    bflush := c.TallyDist(1, len - MIN_MATCH, Pos(c));
    c.f.lookahead := c.f.lookahead - len;
    c.f.strstart := c.f.strstart + len;
  }

  // The run at the current string, as the input has it.
  method FindRun(f: MatchFinder, ghost all: seq<nat>) returns (len: nat)
    requires f.Sizes() && f.Data() && f.end == f.strstart + f.lookahead && f.strstart + MAX_MATCH < 2 * f.wsize && f.lookahead > 0
    requires (f.strstart > 0 || f.base == 0) && f.input <= all && (f.lookahead > MAX_MATCH || all == f.input)
    ensures len > 0 ==> MIN_MATCH <= len <= MAX_MATCH && len <= f.lookahead && MatchOk(f.input, f.base + f.strstart, 1, len)
    ensures f.base + f.strstart < |f.input|
    ensures RunToken(all, f.base + f.strstart) == if len > 0 then Match(1, len) else Literal(f.input[f.base + f.strstart])
  {
    hide IsBytes, HashOk, Pow2, SameBytes, RunToken, MatchOk;
    len := RunLength(f);
    RunIs(f.window[..], f.input, all, f.base, f.end, f.strstart, len);
    if len > 0 {
      RunMatch(f.window[..], f.input, f.base, f.end, f.strstart, len);
    }
  }

  // Emit a match of the run at distance one, if there is one, else a literal.
  method RleStep(c: Compressor, ghost all: seq<nat>) returns (bflush: bool)
    requires all == All(c)
    requires RunReady(c) && c.f.lookahead > 0 && c.f.strstart + MAX_MATCH < 2 * c.f.wsize && (c.f.strstart > 0 || c.f.base == 0)
    requires c.f.lookahead > MAX_MATCH || c.f.source == []
    modifies c`match_length, c.f`strstart, c.f`lookahead, c`toks, c.b`last_lit, c.b.d_buf, c.b.l_buf, c.b.l_fc, c.b.d_fc
    ensures c.f.Valid() && c.Core(Pos(c)) && (bflush <==> !c.Room()) && Storable(c.f)
    ensures Left(c) < old(Left(c)) && c.f.strstart > 0
    ensures old(Pos(c)) < |all| && c.toks == old(c.toks) + [RunToken(all, old(Pos(c)))] && Pos(c) == old(Pos(c)) + Size([RunToken(all, old(Pos(c)))])
  {
    hide BlockState.Valid, Kept, BitBuffer.Stream, Chains, IsBytes, MatchOk, HashOk, Pow2, SameBytes, Segments, AllSegments, Near, AllNear, RunToken, Size,
         MatchFinder.Index, Compressor.Core, MatchFinder.Data;
    var len := FindRun(c.f, all);
    SetLength(c, len, Pos(c));
    SizeOne(RunToken(all, Pos(c)));
    if c.match_length >= MIN_MATCH {
      bflush := TakeRun(c, c.match_length);
      SetLength(c, 0, Pos(c));
    } else {
      bflush := LiteralStep(c);
    }
  }

  // Tally the current byte as a literal; the hash is left alone.
  method LiteralStep(c: Compressor) returns (bflush: bool)
    requires RunReady(c) && c.f.lookahead > 0
    modifies c.f`strstart, c.f`lookahead, c`toks, c.b`last_lit, c.b.d_buf, c.b.l_buf, c.b.l_fc, c.b.d_fc
    ensures c.f.Valid() && c.Core(Pos(c)) && (bflush <==> !c.Room()) && Left(c) + 1 == old(Left(c)) && c.f.strstart == old(c.f.strstart) + 1
    ensures c.b.last_lit == old(c.b.last_lit) + 1 && old(Pos(c)) < |c.f.input| && c.toks == old(c.toks) + [Literal(c.f.input[old(Pos(c))])]
  {
    hide BlockState.Valid, Kept, BitBuffer.Stream, Chains, IsBytes, HashOk, Pow2;
    InputByte(c.f.window[..], c.f.input, c.f.base, c.f.end, c.f.strstart);
    bflush := c.TallyLit(c.f.window[c.f.strstart], Pos(c));
    c.f.lookahead := c.f.lookahead - 1;
    c.f.strstart := c.f.strstart + 1;
  }

  lemma {:induction false} SizeOne(t: Token)
    ensures Size([t]) == match t case Literal(_) => 1 case Match(_, l) => l
  {
    assert [t][..0] == [] && Size([]) == 0;
  }

  // The tokens so far are the runs and literals of the input before the position.
  ghost predicate RunParse(c: Compressor)
    reads c, c.f
  {
    Runs(All(c), c.toks) && Size(c.toks) == Pos(c) && (c.f.strstart > 0 || c.f.base == 0)
  }

  lemma {:induction false} RunParsed(all: seq<nat>, ts: seq<Token>, p: nat)
    requires Runs(all, ts) && Size(ts) == p < |all|
    ensures var t := RunToken(all, p); Runs(all, ts + [t]) && Size(ts + [t]) == p + Size([t])
    ensures (ts + [RunToken(all, p)])[..|ts|] == ts
  {
    hide RunToken;
    RunsMore(all, ts);
    SizeMore(ts, RunToken(all, p));
    SizeOne(RunToken(all, p));
  }

  lemma {:induction false} EarlyNext(ts: seq<Token>, t: Token, n: nat)
    ensures Size(ts) + MAX_MATCH <= n ==> EarlyEnd(ts + [t], n)
  {
    assert (ts + [t])[..|ts|] == ts;
  }

  // One turn of the loop of deflate_rle.
  method RleTurn(c: Compressor, finish: bool) returns (t: Turn)
    requires RunReady(c) && RunParse(c)
    modifies Repr(c)
    ensures RunReady(c) && All(c) == old(All(c)) && TurnEnd(c, t, finish, old(Left(c)))
    ensures RunParse(c) && (!finish && old(EarlyEnd(c.toks, |All(c)|)) ==> EarlyEnd(c.toks, |All(c)|))
  {
    hide BlockState.Valid, Kept, BitBuffer.Stream, Chains, IsBytes, HashOk, Pow2, Completed, Compressor.Core, Runs, RunToken, Size, EarlyEnd,
         MatchFinder.Index;
    t := Feed(c, MAX_MATCH + 1, finish, Pos(c));
    if t.Again? {
      var bflush := RleMove(c, All(c));
      t := FlushIf(c, bflush);
    }
  }

  // A step, and what it does to the tokens.
  method RleMove(c: Compressor, ghost all: seq<nat>) returns (bflush: bool)
    requires all == All(c) && RunReady(c) && RunParse(c) && c.f.lookahead > 0 && c.f.strstart + MAX_MATCH < 2 * c.f.wsize
    requires c.f.lookahead > MAX_MATCH || c.f.source == []
    modifies c`match_length, c.f`strstart, c.f`lookahead, c`toks, c.b`last_lit, c.b.d_buf, c.b.l_buf, c.b.l_fc, c.b.d_fc
    ensures c.f.Valid() && c.Core(Pos(c)) && (bflush <==> !c.Room()) && Storable(c.f) && Left(c) < old(Left(c)) && RunParse(c)
    ensures old(c.f.lookahead) > MAX_MATCH ==> EarlyEnd(c.toks, |all|)
  {
    hide Compressor.Core, MatchFinder.Index, Runs, RunToken, Size, EarlyEnd, MatchFinder.Data;
    ghost var p, ts := Pos(c), c.toks;
    InputSeen(c);
    bflush := RleStep(c, all);
    RunParsed(all, ts, p);
    EarlyNext(ts, RunToken(all, p), |all|);
  }

  /** deflate_rle: the tokens and blocks stand for the input, whenever it stops; with Z_FINISH and room for
      output the stream is complete. A match is taken just where there is a run, and is as long as that. */
  method DeflateRle(c: Compressor, finish: bool) returns (r: Outcome)
    requires RunReady(c) && RunParse(c)
    modifies Repr(c)
    ensures r.NeedMore? ==> RunReady(c) && RunParse(c) && (!finish && old(EarlyEnd(c.toks, |All(c)|)) ==> EarlyEnd(c.toks, |All(c)|))
    ensures CallEnd(c, r, finish, old(All(c)), old(Left(c)))
    ensures Runs(All(c), c.toks) && (!r.NeedMore? ==> Size(c.toks) == |All(c)|)
  {
    hide BlockState.Valid, Kept, BitBuffer.Stream, Chains, IsBytes, HashOk, Pow2, Completed, Runs, Size, EarlyEnd, Segments, AllSegments;
    var t := Again;
    while t.Again?
      invariant RunReady(c) && All(c) == old(All(c)) && Left(c) <= old(Left(c))
      invariant RunParse(c) && (!finish && old(EarlyEnd(c.toks, |All(c)|)) ==> EarlyEnd(c.toks, |All(c)|))
      invariant t.Wait? ==> TurnEnd(c, t, finish, old(Left(c)))
      invariant t.Finish? ==> TurnEnd(c, t, finish, 0)
      decreases t.Again?, Left(c)
    {
      t := RleTurn(c, finish);
    }
    if t.Wait? {
      return NeedMore;
    }
    InputSeen(c);
    r := LastBlock(c);
  }

  // The tokens so far are the bytes of the input before the position.
  ghost predicate HuffParse(c: Compressor)
    reads c, c.f
  {
    Plain(All(c), c.toks) && |c.toks| == Pos(c)
  }

  method HuffStep(c: Compressor, ghost all: seq<nat>) returns (bflush: bool)
    requires all == All(c) && RunReady(c) && OneToOne(c) && HuffParse(c) && c.f.lookahead > 0
    modifies c`match_length, c.f`strstart, c.f`lookahead, c`toks, c.b`last_lit, c.b.d_buf, c.b.l_buf, c.b.l_fc, c.b.d_fc
    ensures c.f.Valid() && c.Core(Pos(c)) && (bflush <==> !c.Room()) && Storable(c.f) && OneToOne(c) && HuffParse(c)
    ensures Left(c) < old(Left(c))
  {
    hide BlockState.Valid, Kept, BitBuffer.Stream, Chains, IsBytes, HashOk, Pow2, Compressor.Core, MatchFinder.Index;
    RunBuffer(c);
    InputSeen(c);
    SetLength(c, 0, Pos(c));
    bflush := LiteralStep(c);
  }

  lemma {:induction false} RunBuffer(c: Compressor)
    requires RunReady(c)
    ensures c.b.last_lit < 0x8000
  {
    hide Kept, BitBuffer.Stream, MatchFinder.Index, Near, AllNear, Segments, AllSegments;
    BufferSizes(c.b);
  }

  // One turn of the loop of deflate_huff.
  method HuffTurn(c: Compressor, finish: bool) returns (t: Turn)
    requires RunReady(c) && OneToOne(c) && HuffParse(c)
    modifies Repr(c)
    ensures RunReady(c) && All(c) == old(All(c)) && TurnEnd(c, t, finish, old(Left(c))) && OneToOne(c) && HuffParse(c)
  {
    hide BlockState.Valid, Kept, BitBuffer.Stream, Chains, IsBytes, HashOk, Pow2, Completed, Compressor.Core, Plain, MatchFinder.Index;
    t := Feed(c, 1, finish, Pos(c));
    if t.Again? {
      var bflush := HuffStep(c, All(c));
      t := FlushIf(c, bflush);
    }
  }

  /** deflate_huff: the tokens and blocks stand for the input, whenever it stops; with Z_FINISH and room for
      output the stream is complete. Every byte is a literal. */
  method DeflateHuff(c: Compressor, finish: bool) returns (r: Outcome)
    requires RunReady(c) && OneToOne(c) && HuffParse(c)
    modifies Repr(c)
    ensures r.NeedMore? ==> RunReady(c) && OneToOne(c) && HuffParse(c)
    ensures CallEnd(c, r, finish, old(All(c)), old(Left(c)))
    ensures Plain(All(c), c.toks) && (!r.NeedMore? ==> |c.toks| == |All(c)|)
  {
    hide BlockState.Valid, Kept, BitBuffer.Stream, Chains, IsBytes, HashOk, Pow2, Completed, Plain, Segments, AllSegments;
    var t := Again;
    while t.Again?
      invariant RunReady(c) && OneToOne(c) && HuffParse(c) && All(c) == old(All(c)) && Left(c) <= old(Left(c))
      invariant t.Wait? ==> TurnEnd(c, t, finish, old(Left(c)))
      invariant t.Finish? ==> TurnEnd(c, t, finish, 0)
      decreases t.Again?, Left(c)
    {
      t := HuffTurn(c, finish);
    }
    if t.Wait? {
      return NeedMore;
    }
    InputSeen(c);
    r := LastBlock(c);
  }
}
