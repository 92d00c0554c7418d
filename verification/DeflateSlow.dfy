/** deflate_slow of deflate.c: a match waits for the next position, where a better one may replace it. */
module DeflateSlow {
  import opened Bits
  import opened Tokens
  import opened RollingHash
  import opened HashChains
  import opened Matches
  import opened Finder
  import opened LongestMatch
  import MatchSearch
  import opened ChainSearch
  import opened Parsing
  import opened BitWriter
  import opened FlushBlock
  import opened Deflate
  import opened DeflateFast

  const TOO_FAR: nat := 4096

  /** The match found one position earlier, which may have left the window since: its start may have
      wrapped round, its distance is still right. */
  ghost predicate Pending(input: seq<nat>, pos: nat, dist: nat, len: nat, maxDist: nat) {
    0 < pos && 2 <= dist <= maxDist + 1 && len <= MAX_MATCH && MatchOk(input, pos - 1, dist - 1, len)
  }

  // Where the next token starts: one byte back while a decision is pending.
  ghost function Emitted(c: Compressor): int
    reads c, c.f
  {
    Pos(c) - if c.match_available then 1 else 0
  }

  ghost predicate SlowReady(c: Compressor)
    reads c, c.f, c.f.window, c.f.prev, c.f.head, c.b, c.b.trees, c.b.w, c.b.l_fc, c.b.d_fc, c.b.bl_fc, c.b.d_buf, c.b.l_buf,
          c.b.sl_fc, c.b.sl_dl, c.b.sd_fc, c.b.sd_dl
  {
    && c.f.Valid() && c.f.Hashed() && c.Room() && 2 <= c.match_length <= MAX_MATCH
    && (c.match_available ==> 0 < c.f.strstart) && c.Core(Emitted(c))
    && (c.match_length >= MIN_MATCH ==>
          c.match_available && Pending(c.f.input, Pos(c), Sub32(c.f.strstart, c.f.match_start), c.match_length, c.f.MaxDist()))
  }

  // The current string is inserted, and the match found for it, if it is longer than the last one, is real.
  ghost predicate Decided(c: Compressor)
    reads c, c.f, c.f.window, c.f.prev, c.f.head
  {
    && c.f.Sizes() && c.f.Data() && c.f.Index(c.f.strstart + 1) && (c.f.lookahead >= MIN_MATCH ==> c.f.Ready(c.f.strstart + 1))
    && c.f.end == c.f.strstart + c.f.lookahead && c.f.match_start < U32 && c.f.lookahead > 0
    && 2 <= c.match_length <= MAX_MATCH && (c.match_length > c.prev_length && c.match_length >= MIN_MATCH ==> Matching(c.f, c.match_length))
  }

  // What was found is better than the match before just if the input has something better to offer.
  ghost predicate Improved(f: MatchFinder, r: (nat, nat), len: nat, prev_length: nat)
    reads f
  {
    && f.strstart < U32 && f.match_start < U32
    && (len > prev_length <==> r.0 > prev_length) && (len > prev_length ==> r == (len, Sub32(f.strstart, f.match_start)))
  }

  // Discard a match that is too short for its distance, or for Z_FILTERED.
  method Discard(f: MatchFinder, len0: nat, prev_length: nat, filtered: bool, ghost all: seq<nat>, ghost v: Level) returns (len: nat)
    requires f.wsize >= 512 && f.base + f.strstart < |all| && f.strstart < U32 && f.match_start < U32 && 2 <= prev_length && prev_length < f.max_lazy
    requires v == Level(KnobsOf(f), f.max_lazy, filtered) && 2 <= len0 && (len0 > prev_length ==> f.match_start < f.strstart)
    requires Answer(f, MatchSearch.LongestAt(all, KnobsOf(f), {}, f.base, f.base + f.strstart, prev_length), len0, prev_length)
    ensures len == len0 || len == MIN_MATCH - 1
    ensures Improved(f, Better(all, v, f.base, f.base + f.strstart, prev_length), len, prev_length)
  {
    hide MatchSearch.LongestAt;
    len := len0;
    if len <= 5 && (filtered || (len == MIN_MATCH && Sub32(f.strstart, f.match_start) > TOO_FAR)) {
      len := MIN_MATCH - 1;
    }
  }

  // Insert the current string and find a match that is longer than the last one.
  method FindBetter(f: MatchFinder, prev_length: nat, filtered: bool, ghost all: seq<nat>, ghost v: Level) returns (len: nat)
    requires f.Valid() && f.Hashed() && f.lookahead > 0 && f.strstart + MIN_LOOKAHEAD <= 2 * f.wsize && 2 <= prev_length <= MAX_MATCH
    requires Entered(f, {}, f.strstart) && Sees(f, all) && f.base + f.strstart < |all| && v == Level(KnobsOf(f), f.max_lazy, filtered)
    modifies f`ins_h, f`ins, f`match_start, f.prev, f.head
    ensures f.Sizes() && f.Data() && f.Index(f.strstart + 1) && f.match_start < U32 && 2 <= len <= MAX_MATCH
    ensures f.lookahead >= MIN_MATCH ==> f.Ready(f.strstart + 1)
    ensures len > prev_length && len >= MIN_MATCH ==> Matching(f, len)
    ensures Entered(f, {}, f.strstart + 1) && Improved(f, Better(all, v, f.base, f.base + f.strstart, prev_length), len, prev_length)
  {
    hide Primed, LongestMatch.Found, Chains, IsBytes, MatchOk, LinkOk, HashOk, Pow2, Sub32, Previous, Strings, MatchSearch.LongestAt;
    SmallPosition(f);
    var hash_head := InsertCurrent(f, all, {});
    len := MIN_MATCH - 1;
    if hash_head != 0 && prev_length < f.max_lazy {
      LinkedBelow(f, hash_head);
      if f.strstart - hash_head <= f.MaxDist() {
        var len0 := FindLongest(f, hash_head, prev_length, all, {});
        len := Discard(f, len0, prev_length, filtered, all, v);
        return;
      }
    }
    if prev_length < f.max_lazy {
      NothingFound(f, all, {}, hash_head, prev_length);
    }
    NothingBetter(f, all, v, prev_length);
  }

  lemma {:induction false} SmallPosition(f: MatchFinder)
    requires f.Valid() && f.strstart + MIN_LOOKAHEAD <= 2 * f.wsize
    ensures f.strstart < 65536
  {
    hide Chains, IsBytes, HashOk, Pow2;
  }

  lemma {:induction false} NothingBetter(f: MatchFinder, all: seq<nat>, v: Level, prev_length: nat)
    requires f.wsize >= 512 && f.base + f.strstart < |all| && v.k == KnobsOf(f) && v.lazy == f.max_lazy && 2 <= prev_length
    requires prev_length < f.max_lazy ==>
               MatchSearch.LongestAt(all, KnobsOf(f), {}, f.base, f.base + f.strstart, prev_length) == (prev_length, 0)
    ensures Better(all, v, f.base, f.base + f.strstart, prev_length) == (MIN_MATCH - 1, 0)
  {
    hide MatchSearch.LongestAt;
  }

  /** Find the longest match of the current string, discarding those not longer than the last one. */
  method FindLazy(c: Compressor, ghost all: seq<nat>)
    requires c.f.Valid() && c.f.Hashed() && c.f.lookahead > 0 && c.f.strstart + MIN_LOOKAHEAD <= 2 * c.f.wsize
    requires 2 <= c.match_length <= MAX_MATCH
    requires Entered(c.f, {}, c.f.strstart) && Sees(c.f, all) && Pos(c) < |all|
    modifies c`match_length, c`prev_length, c`prev_match, c.f`ins_h, c.f`ins, c.f`match_start, c.f.prev, c.f.head
    ensures Decided(c) && c.prev_length == old(c.match_length) && c.prev_match == old(c.f.match_start)
    ensures Entered(c.f, {}, c.f.strstart + 1) && Improved(c.f, Better(all, LevelOf(c), c.f.base, Pos(c), c.prev_length), c.match_length, c.prev_length)
  {
    hide Primed, Chains, IsBytes, MatchOk, LinkOk, HashOk, Pow2, Strings, Improved, Better;
    c.prev_length, c.prev_match := c.match_length, c.f.match_start;
    c.match_length := FindBetter(c.f, c.prev_length, c.filtered, all, LevelOf(c));
  }

  // The distance of the last match, computed with unsigned numbers.
  lemma {:induction false} LastDistance(strstart: nat, prev_match: nat)
    requires 0 < strstart < U32 && prev_match < U32 && Sub32(strstart, prev_match) >= 2
    ensures Sub32(strstart - 1, prev_match) == Sub32(strstart, prev_match) - 1
  {
  }

  // Insert the strings of the match that do not reach beyond the input.
  method InsertLazy(f: MatchFinder, n: nat, max_insert: nat)
    requires f.Sizes() && f.Data() && f.Index(f.strstart + 1) && n > 0 && max_insert + MIN_MATCH == f.end
    requires f.strstart <= max_insert ==> f.Ready(f.strstart + 1)
    requires Entered(f, {}, f.strstart + 1)
    modifies f`ins_h, f`ins, f`strstart, f.prev, f.head
    ensures f.Sizes() && f.Data() && f.Index(f.strstart) && (f.strstart <= max_insert ==> f.Ready(f.strstart))
    ensures f.strstart == old(f.strstart) + n + 1 && Entered(f, {}, f.strstart)
  {
    hide Primed, Chains, IsBytes, LinkOk, HashOk, Pow2, Previous, Strings;
    var left := n;
    while left != 0
      invariant f.Sizes() && f.Data() && f.Index(f.strstart + 1)
      invariant f.strstart <= max_insert ==> f.Ready(f.strstart + 1)
      invariant f.strstart + left == old(f.strstart) + n && Entered(f, {}, f.strstart + 1)
    {
      f.strstart := f.strstart + 1;
      if f.strstart <= max_insert {
        InsertOne(f, {});
      } else {
        EnteredPast(f, {}, f.strstart);
      }
      left := left - 1;
    }
    f.strstart := f.strstart + 1;
  }

  // Go on behind the match that started one position earlier.
  method PassLazy(f: MatchFinder, prev_length: nat, max_insert: nat)
    requires f.Sizes() && f.Data() && f.Index(f.strstart + 1) && (f.lookahead >= MIN_MATCH ==> f.Ready(f.strstart + 1))
    requires f.end == f.strstart + f.lookahead == max_insert + MIN_MATCH && f.match_start < U32
    requires MIN_MATCH <= prev_length <= f.lookahead + 1 && Entered(f, {}, f.strstart + 1)
    modifies f`ins_h, f`ins, f`strstart, f`lookahead, f.prev, f.head
    ensures f.Valid() && f.Hashed() && f.strstart == old(f.strstart) + prev_length - 1 && f.lookahead == old(f.lookahead) - (prev_length - 1)
    ensures Entered(f, {}, f.strstart)
  {
    hide Primed, Chains, IsBytes, HashOk, Pow2, Strings;
    f.lookahead := f.lookahead - (prev_length - 1);
    InsertLazy(f, prev_length - 2, max_insert);
  }

  // Tally the match found one position earlier.
  method TallyPending(c: Compressor) returns (bflush: bool)
    requires c.Room() && 0 < c.f.strstart < U32 && c.Core(Pos(c) - 1) && MIN_MATCH <= c.prev_length && c.prev_match < U32 && c.f.Sizes()
    requires Pending(c.f.input, Pos(c), Sub32(c.f.strstart, c.prev_match), c.prev_length, c.f.MaxDist())
    modifies c`toks, c.b`last_lit, c.b.d_buf, c.b.l_buf, c.b.l_fc, c.b.d_fc
    ensures c.Core(Pos(c) - 1 + c.prev_length) && (bflush <==> !c.Room())
    ensures Sub32(c.f.strstart, c.prev_match) > 0 && c.toks == old(c.toks) + [Match(Sub32(c.f.strstart, c.prev_match) - 1, c.prev_length)]
  {
    hide BlockState.Valid, Kept, BitBuffer.Stream, MatchOk, HashOk, Pow2, Sub32;
    LastDistance(c.f.strstart, c.prev_match);
    PendingRoom(c.f.input, Pos(c), Sub32(c.f.strstart, c.prev_match), c.prev_length, c.f.MaxDist());
    bflush := c.TallyDist(Sub32(c.f.strstart - 1, c.prev_match), c.prev_length - MIN_MATCH, Pos(c) - 1);
  }

  /** Adopt the match found one position earlier. */
  method AdoptLast(c: Compressor) returns (bflush: bool)
    requires Decided(c) && c.Room() && 0 < c.f.strstart && c.Core(Pos(c) - 1) && MIN_MATCH <= c.prev_length && c.prev_match < U32
    requires c.f.strstart < U32 && Pending(c.f.input, Pos(c), Sub32(c.f.strstart, c.prev_match), c.prev_length, c.f.MaxDist())
    requires Entered(c.f, {}, c.f.strstart + 1)
    modifies c`match_length, c`prev_length, c`match_available, c.f`ins_h, c.f`ins, c.f`strstart, c.f`lookahead, c.f.prev, c.f.head,
             c`toks, c.b`last_lit, c.b.d_buf, c.b.l_buf, c.b.l_fc, c.b.d_fc
    ensures c.f.Valid() && c.f.Hashed() && c.Core(Pos(c)) && (bflush <==> !c.Room()) && !c.match_available && c.match_length == MIN_MATCH - 1
    ensures Left(c) < old(Left(c)) && c.f.strstart < old(c.f.strstart) + MAX_MATCH && Entered(c.f, {}, c.f.strstart)
    ensures Left(c) + Pos(c) == old(Left(c) + Pos(c)) && Pos(c) + 1 == old(Pos(c)) + old(c.prev_length)
    ensures old(Sub32(c.f.strstart, c.prev_match)) > 0 && c.toks == old(c.toks) + [Match(old(Sub32(c.f.strstart, c.prev_match)) - 1, old(c.prev_length))]
  {
    hide BlockState.Valid, Kept, BitBuffer.Stream, Primed, Chains, IsBytes, MatchOk, HashOk, Pow2, Sub32, Near, AllNear, Matching, Segments, AllSegments, Strings;
    PendingRoom(c.f.input, Pos(c), Sub32(c.f.strstart, c.prev_match), c.prev_length, c.f.MaxDist());
    bflush := TallyPending(c);
    PassPending(c);
  }

  // Go on behind the match, with nothing pending.
  method PassPending(c: Compressor)
    requires Decided(c) && 0 < c.f.strstart && c.Core(Pos(c) - 1 + c.prev_length) && MIN_MATCH <= c.prev_length <= c.f.lookahead + 1
    requires Entered(c.f, {}, c.f.strstart + 1)
    modifies c`match_length, c`prev_length, c`match_available, c.f`ins_h, c.f`ins, c.f`strstart, c.f`lookahead, c.f.prev, c.f.head
    ensures c.f.Valid() && c.f.Hashed() && c.Core(Pos(c)) && !c.match_available && c.match_length == MIN_MATCH - 1
    ensures Left(c) + old(c.prev_length) == old(Left(c)) + 1 && c.f.strstart + 1 == old(c.f.strstart) + old(c.prev_length)
    ensures Entered(c.f, {}, c.f.strstart)
  {
    hide BlockState.Valid, Kept, BitBuffer.Stream, Primed, Chains, IsBytes, MatchOk, HashOk, Pow2, Near, AllNear, Matching, Segments, AllSegments, Strings;
    var max_insert := c.f.strstart + c.f.lookahead - MIN_MATCH;
    PassLazy(c.f, c.prev_length, max_insert);
    ForgetMatch(c, Pos(c));
  }

  method ForgetMatch(c: Compressor, ghost e: nat)
    requires c.Core(e)
    modifies c`match_length, c`prev_length, c`match_available
    ensures c.Core(e) && !c.match_available && c.match_length == MIN_MATCH - 1
  {
    hide BlockState.Valid, Kept, BitBuffer.Stream, Near, AllNear, Parts;
    c.prev_length := 0;
    c.match_available := false;
    c.match_length := MIN_MATCH - 1;
  }

  lemma {:induction false} PendingRoom(input: seq<nat>, pos: nat, dist: nat, len: nat, maxDist: nat)
    requires Pending(input, pos, dist, len, maxDist)
    ensures pos - 1 + len <= |input| && 0 < pos && 2 <= dist <= maxDist + 1 && len <= MAX_MATCH && MatchOk(input, pos - 1, dist - 1, len)
  {
  }

  lemma {:induction false} PendingMore(input: seq<nat>, input1: seq<nat>, pos: nat, dist: nat, len: nat, maxDist: nat)
    requires Pending(input, pos, dist, len, maxDist) && input <= input1
    ensures Pending(input1, pos, dist, len, maxDist)
  {
    hide MatchOk;
    assert input1 == input + input1[|input|..];
    MatchLater(input, input1[|input|..], pos - 1, dist - 1, len);
  }

  // Tally the byte before the current string.
  method TallyLast(c: Compressor) returns (bflush: bool)
    requires c.f.Sizes() && c.f.Data() && 0 < c.f.strstart <= c.f.end && c.Room() && c.Core(Pos(c) - 1)
    modifies c`toks, c.b`last_lit, c.b.d_buf, c.b.l_buf, c.b.l_fc, c.b.d_fc
    ensures c.Core(Pos(c)) && (bflush <==> !c.Room()) && 0 < Pos(c) <= |c.f.input| && c.toks == old(c.toks) + [Literal(c.f.input[Pos(c) - 1])]
  {
    hide BlockState.Valid, Kept, BitBuffer.Stream, IsBytes, HashOk, Pow2;
    InputByte(c.f.window[..], c.f.input, c.f.base, c.f.end, c.f.strstart - 1);
    bflush := c.TallyLit(c.f.window[c.f.strstart - 1], Pos(c) - 1);
  }

  /** All tokens so far are those of lazy evaluation, and the hash table has all strings. */
  ghost predicate LazyParse(c: Compressor)
    reads c, c.f
  {
    && 512 <= c.f.wsize && c.f.strstart < U32 && c.f.match_start < U32
    && LazyState(All(c), LevelOf(c), c.looks, c.toks, Pos(c), c.match_available, c.match_length, Sub32(c.f.strstart, c.f.match_start))
    && Around(c, c.f.strstart)
  }

  // Where the window is, and what was inserted.
  ghost predicate Around(c: Compressor, top: nat)
    reads c, c.f
  {
    && Entered(c.f, {}, top) && (c.f.base == 0 || (c.f.wsize >= 512 && c.f.strstart >= c.f.MaxDist()))
    && (c.f.source == [] || c.f.lookahead >= MIN_MATCH || Pos(c) == 0)
  }

  /** The same after the search at the current position. */
  ghost predicate LazyFound(c: Compressor, all: seq<nat>)
    reads c, c.f
  {
    && 512 <= c.f.wsize && c.f.strstart < U32 && c.f.match_start < U32 && c.prev_match < U32 && Around(c, c.f.strstart + 1) && Sees(c.f, all)
    && all == All(c)
    && LazyChoosing(all, LevelOf(c), c.looks, c.toks, Pos(c), c.match_available, c.prev_length, Sub32(c.f.strstart, c.prev_match),
                    c.match_length, Sub32(c.f.strstart, c.f.match_start))
  }

  // Between the search and the token: the stream stands for the input as far as there are tokens.
  ghost predicate Chosen1(c: Compressor)
    reads c, c.f, c.f.window, c.f.prev, c.f.head, c.b, c.b.trees, c.b.w, c.b.l_fc, c.b.d_fc, c.b.bl_fc, c.b.d_buf, c.b.l_buf,
          c.b.sl_fc, c.b.sl_dl, c.b.sd_fc, c.b.sd_dl
  {
    && (c.match_available ==> 0 < c.f.strstart) && Decided(c) && c.Room() && c.Core(Emitted(c)) && c.f.strstart + MIN_LOOKAHEAD <= 2 * c.f.wsize <= 65536 && c.prev_length <= MAX_MATCH
    && (c.prev_length >= MIN_MATCH ==>
          c.match_available && c.prev_match < U32 && c.f.strstart < U32 &&
          Pending(c.f.input, Pos(c), Sub32(c.f.strstart, c.prev_match), c.prev_length, c.f.MaxDist()))
  }

  // Search at the current position; what was found is real.
  method LookReal(c: Compressor, ghost all: seq<nat>)
    requires SlowReady(c) && c.f.lookahead > 0 && c.f.strstart + MIN_LOOKAHEAD <= 2 * c.f.wsize
    requires Entered(c.f, {}, c.f.strstart) && Sees(c.f, all) && Pos(c) < |all|
    modifies c`match_length, c`prev_length, c`prev_match, c.f`ins_h, c.f`ins, c.f`match_start, c.f.prev, c.f.head
    ensures Chosen1(c) && c.prev_length == old(c.match_length) && c.prev_match == old(c.f.match_start)
    ensures Entered(c.f, {}, c.f.strstart + 1) && Improved(c.f, Better(all, LevelOf(c), c.f.base, Pos(c), c.prev_length), c.match_length, c.prev_length)
  {
    hide BlockState.Valid, Kept, BitBuffer.Stream, Primed, Chains, IsBytes, MatchOk, HashOk, Pow2, Sub32, Pending, Near, AllNear, Segments, AllSegments, Strings,
         Improved, Better;
    SmallWindow(c);
    FindLazy(c, all);
  }

  // Search at the current position.
  method LookAhead(c: Compressor, ghost all: seq<nat>)
    requires SlowReady(c) && LazyParse(c) && all == All(c) && c.f.lookahead > 0 && c.f.strstart + MIN_LOOKAHEAD <= 2 * c.f.wsize && Sees(c.f, all)
    modifies c`match_length, c`prev_length, c`prev_match, c`looks, c.f`ins_h, c.f`ins, c.f`match_start, c.f.prev, c.f.head
    ensures Chosen1(c) && LazyFound(c, all)
    ensures forall p :: p in c.looks ==> p in old(c.looks) || p == Pos(c)
  {
    hide BlockState.Valid, MatchFinder.Data, MatchFinder.Index, MatchFinder.Ready, MatchFinder.Hashed, Compressor.Core, Sub32, Pending, Strings,
         LazyState, LazyChoosing, Improved, Better, FoundAt, Matching, HashOk, Pow2;
    SlowSeen(c);
    ghost var looks, v, avail := c.looks, LevelOf(c), c.match_available;
    ghost var len, dist := c.match_length, Sub32(c.f.strstart, c.f.match_start);
    LookReal(c, all);
    ghost var r := Better(all, v, c.f.base, Pos(c), c.prev_length);
    FoundNow(c, all, v, r);
    LazySearched(all, v, looks, c.toks, Pos(c), avail, len, dist, Look(c.f.base, r.0, r.1), c.match_length, Sub32(c.f.strstart, c.f.match_start));
    Note(c, Pos(c), Look(c.f.base, r.0, r.1), Emitted(c));
  }

  lemma {:induction false} FoundNow(c: Compressor, all: seq<nat>, v: Level, r: (nat, nat))
    requires c.f.wsize >= 512 && v == LevelOf(c) && Pos(c) < |all| && (c.f.base == 0 || c.f.strstart >= c.f.MaxDist())
    requires r == Better(all, v, c.f.base, Pos(c), c.prev_length) && Improved(c.f, r, c.match_length, c.prev_length)
    ensures FoundAt(all, v, Pos(c), c.prev_length, Look(c.f.base, r.0, r.1)) && c.f.strstart < U32 && c.f.match_start < U32
    ensures (c.match_length > c.prev_length <==> r.0 > c.prev_length)
    ensures c.match_length > c.prev_length ==> r == (c.match_length, Sub32(c.f.strstart, c.f.match_start))
  {
    hide Better, Sub32;
  }

  lemma {:induction false} SmallWindow(c: Compressor)
    requires c.f.Sizes()
    ensures 2 * c.f.wsize <= 65536
  {
    hide HashOk, Pow2;
  }

  // Go on to the next position, with a decision to be made there.
  method Postpone(c: Compressor)
    requires Decided(c) && c.Core(Pos(c)) && c.Room() && !(c.prev_length >= MIN_MATCH && c.match_length <= c.prev_length)
    modifies c`match_available, c.f`strstart, c.f`lookahead
    ensures SlowReady(c) && Left(c) + 1 == old(Left(c)) && c.match_available && c.f.strstart == old(c.f.strstart) + 1
  {
    hide BlockState.Valid, Kept, BitBuffer.Stream, Primed, Chains, IsBytes, MatchOk, HashOk, Pow2, Segments, AllSegments, Near, AllNear;
    c.match_available := true;
    c.f.strstart := c.f.strstart + 1;
    c.f.lookahead := c.f.lookahead - 1;
  }

  // Output the match of the previous step.
  method EmitMatch(c: Compressor, ghost all: seq<nat>) returns (t: Turn)
    requires Chosen1(c) && LazyFound(c, all) && MIN_MATCH <= c.prev_length && c.match_length <= c.prev_length
    modifies Repr(c)
    ensures SlowReady(c) && All(c) == all && Left(c) < old(Left(c)) && !t.Finish? && LazyParse(c) && c.looks == old(c.looks)
    ensures c.f.input == old(c.f.input) && Left(c) + Pos(c) == old(Left(c) + Pos(c)) && Pos(c) <= old(Pos(c)) + MAX_MATCH && c.f.source == old(c.f.source)
  {
    hide BlockState.Valid, BitBuffer.Stream, Sub32, Pending, Decided, Compressor.Core, MatchFinder.Index, MatchFinder.Data, HashOk, Strings,
         LazyState, LazyChoosing, FoundAt;
    ghost var ts, pos, prev_len, prev_dist := c.toks, Pos(c), c.prev_length, Sub32(c.f.strstart, c.prev_match);
    LazyMatched(all, LevelOf(c), c.looks, ts, pos, c.match_available, prev_len, prev_dist, c.match_length, Sub32(c.f.strstart, c.f.match_start));
    var bflush := AdoptLast(c);
    AnyDistance(all, LevelOf(c), c.looks, c.toks, Pos(c), Sub32(c.f.strstart, c.f.match_start));
    t := FlushPlain(c, bflush, all);
  }

  // Without a match waiting the distance is of no account.
  lemma {:induction false} AnyDistance(all: seq<nat>, v: Level, looks: map<nat, Look>, ts: seq<Token>, pos: nat, dist: nat)
    requires LazyState(all, v, looks, ts, pos, false, MIN_MATCH - 1, 0)
    ensures LazyState(all, v, looks, ts, pos, false, MIN_MATCH - 1, dist)
  {
    hide FoundAt;
  }

  // FLUSH_BLOCK with nothing pending.
  method FlushPlain(c: Compressor, bflush: bool, ghost all: seq<nat>) returns (t: Turn)
    requires c.f.Valid() && c.f.Hashed() && c.Core(Pos(c)) && (bflush <==> !c.Room()) && !c.match_available && c.match_length == MIN_MATCH - 1
    requires c.f.strstart < 65536 && LazyParse(c)
    modifies c.f`block_start, c`done, c`parsed, c.b`last_lit, c.b.trees, c.b.trees.heap, c.b.trees.depth, c.b.trees.bl_count, c.b.w,
             c.b.l_fc, c.b.l_dl, c.b.d_fc, c.b.d_dl, c.b.bl_fc, c.b.bl_dl
    ensures SlowReady(c) && !t.Finish? && LazyParse(c)
  {
    hide BlockState.Valid, BitBuffer.Stream, Compressor.Core, MatchFinder.Index, MatchFinder.Data, HashOk, Strings, LazyState, Sub32;
    InWindowStill(c);
    t := FlushIf(c, bflush);
  }

  // Tally the previous byte, and flush the block if it is full.
  method EmitLast(c: Compressor)
    requires Chosen1(c) && c.match_available
    modifies c`toks, c.f`block_start, c`done, c`parsed, c.b`last_lit, c.b.trees, c.b.trees.heap, c.b.trees.depth, c.b.trees.bl_count, c.b.w,
             c.b.l_fc, c.b.l_dl, c.b.d_fc, c.b.d_dl, c.b.bl_fc, c.b.bl_dl, c.b.d_buf, c.b.l_buf
    ensures Decided(c) && c.Core(Pos(c)) && c.Room()
    ensures 0 < Pos(c) <= |c.f.input| && c.toks == old(c.toks) + [Literal(c.f.input[Pos(c) - 1])]
  {
    hide BlockState.Valid, Kept, BitBuffer.Stream, Primed, Chains, IsBytes, MatchOk, HashOk, Pow2, Sub32, Pending, Segments, AllSegments, Near, AllNear;
    var bflush := TallyLast(c);
    FlushLiteral(c, bflush);
  }

  // Output a single literal for the previous position.
  method EmitLiteral(c: Compressor, ghost all: seq<nat>) returns (t: Turn)
    requires Chosen1(c) && LazyFound(c, all) && c.match_available && !(c.prev_length >= MIN_MATCH && c.match_length <= c.prev_length)
    modifies Repr(c)
    ensures SlowReady(c) && All(c) == all && Left(c) < old(Left(c)) && !t.Finish? && LazyParse(c) && c.looks == old(c.looks)
    ensures c.f.input == old(c.f.input) && Left(c) + Pos(c) == old(Left(c) + Pos(c)) && Pos(c) <= old(Pos(c)) + MAX_MATCH && c.f.source == old(c.f.source)
  {
    hide BlockState.Valid, MatchFinder.Data, MatchFinder.Index, MatchFinder.Ready, MatchFinder.Hashed, Compressor.Core, Sub32, Pending, Strings,
         LazyState, LazyChoosing, FoundAt, HashOk, Pow2, MatchOk, Chosen1, Decided, SlowReady;
    ghost var v, looks, ts, pos, prev_len, prev_dist := LevelOf(c), c.looks, c.toks, Pos(c), c.prev_length, Sub32(c.f.strstart, c.prev_match);
    ghost var len, dist := c.match_length, Sub32(c.f.strstart, c.f.match_start);
    ChosenSeen(c);
    WaitingLeast(all, v, looks, ts, pos, prev_len, prev_dist, len, dist);
    LazyLiteral(all, v, looks, ts, pos, prev_len, prev_dist, len, dist);
    EmitLast(c);
    Postpone(c);
    LaterDistance(c, all, v, looks, len, dist);
    var full: bool := *;  // avail_out == 0
    t := if full then Wait else Again;
  }

  lemma {:induction false} WaitingLeast(all: seq<nat>, v: Level, looks: map<nat, Look>, ts: seq<Token>, pos: nat, prev_len: nat, prev_dist: nat,
                                        len: nat, dist: nat)
    requires LazyChoosing(all, v, looks, ts, pos, true, prev_len, prev_dist, len, dist)
    ensures prev_len >= MIN_MATCH - 1
  {
    hide FoundAt, Lazy, Waiting;
    WaitingSome(ts, looks, all, v);
    FoundLeast(all, v, pos - 1, Waiting(ts, looks), looks[pos - 1]);
  }

  lemma {:induction false} ChosenSeen(c: Compressor)
    requires Chosen1(c)
    ensures Pos(c) + c.f.lookahead == |c.f.input| && c.f.lookahead > 0 && (c.match_available ==> 0 < c.f.strstart) && c.f.strstart < 65535
    ensures !(c.prev_length >= MIN_MATCH && c.match_length <= c.prev_length) && c.match_length >= MIN_MATCH ==> c.f.match_start < c.f.strstart
  {
    hide Chains, IsBytes, MatchOk, HashOk, Pow2, Compressor.Core, Pending;
  }

  lemma {:induction false} LaterDistance(c: Compressor, all: seq<nat>, v: Level, looks: map<nat, Look>, len: nat, dist: nat)
    requires 0 < c.f.strstart < U32 && c.f.match_start < U32 && dist == Sub32(c.f.strstart - 1, c.f.match_start) && 0 < Pos(c)
    requires LazyState(all, v, looks, c.toks, Pos(c), true, len, dist + 1) && (len >= MIN_MATCH ==> c.f.match_start < c.f.strstart)
    ensures LazyState(all, v, looks, c.toks, Pos(c), true, len, Sub32(c.f.strstart, c.f.match_start))
  {
  }

  // FLUSH_BLOCK_ONLY behind a literal, while the match found at the current position is kept in mind.
  method FlushLiteral(c: Compressor, bflush: bool)
    requires Decided(c) && c.Core(Pos(c)) && (bflush <==> !c.Room()) && Storable(c.f)
    modifies c.f`block_start, c`done, c`parsed, c.b`last_lit, c.b.trees, c.b.trees.heap, c.b.trees.depth, c.b.trees.bl_count, c.b.w,
             c.b.l_fc, c.b.l_dl, c.b.d_fc, c.b.d_dl, c.b.bl_fc, c.b.bl_dl
    ensures Decided(c) && c.Core(Pos(c)) && c.Room()
  {
    hide BlockState.Valid, Kept, BitBuffer.Stream, Primed, Chains, IsBytes, MatchOk, HashOk, Pow2, Segments, AllSegments, ByRule, Near, AllNear, FoundAt, Strings;
    if bflush {
      c.FlushBlock(false);
    }
  }

  // The first byte, or the first one behind a match, waits.
  method WaitFirst(c: Compressor, ghost all: seq<nat>)
    requires Chosen1(c) && LazyFound(c, all) && !c.match_available
    modifies c`match_available, c.f`strstart, c.f`lookahead
    ensures SlowReady(c) && All(c) == all && Left(c) < old(Left(c)) && LazyParse(c)
    ensures Left(c) + Pos(c) == old(Left(c) + Pos(c)) && Pos(c) <= old(Pos(c)) + MAX_MATCH
  {
    hide BlockState.Valid, Kept, BitBuffer.Stream, Primed, Chains, IsBytes, MatchOk, HashOk, Pow2, Sub32, Pending, Segments, AllSegments, Near, AllNear, Strings,
         LazyState, LazyChoosing, FoundAt, Compressor.Core;
    ghost var v, looks, pos, len, dist := LevelOf(c), c.looks, Pos(c), c.match_length, Sub32(c.f.strstart, c.f.match_start);
    LazyWaits(all, v, looks, c.toks, pos, c.prev_length, Sub32(c.f.strstart, c.prev_match), len, dist);
    FirstShort(all, v, looks, c.toks, pos, c.prev_length, Sub32(c.f.strstart, c.prev_match), len, dist);
    Postpone(c);
    LaterDistance(c, all, v, looks, len, dist);
  }

  lemma {:induction false} FirstShort(all: seq<nat>, v: Level, looks: map<nat, Look>, ts: seq<Token>, pos: nat, prev_len: nat, prev_dist: nat,
                                      len: nat, dist: nat)
    requires LazyChoosing(all, v, looks, ts, pos, false, prev_len, prev_dist, len, dist)
    ensures prev_len == MIN_MATCH - 1
  {
    hide FoundAt;
  }

  // Match, literal, or a decision put off to the next position.
  method SlowStep(c: Compressor, ghost all: seq<nat>) returns (t: Turn)
    requires SlowReady(c) && LazyParse(c) && all == All(c) && c.f.lookahead > 0 && c.f.strstart + MIN_LOOKAHEAD <= 2 * c.f.wsize && Sees(c.f, all)
    modifies Repr(c)
    ensures SlowReady(c) && All(c) == all && Left(c) < old(Left(c)) && !t.Finish? && LazyParse(c)
    ensures old(c.f.lookahead) >= MIN_LOOKAHEAD && old(Open(c)) ==> Open(c)
  {
    hide SlowReady, LazyParse, Chosen1, LazyFound, Sees, Compressor.Core, MatchFinder.Data, MatchFinder.Index, MatchFinder.Hashed, Decided, Early;
    ghost var looks, pos, n := c.looks, Pos(c), |c.f.input|;
    SlowSeen(c);
    LookAhead(c, all);
    EarlyMore(looks, c.looks, pos, n);
    t := Again;
    if c.prev_length >= MIN_MATCH && c.match_length <= c.prev_length {
      t := EmitMatch(c, all);
    } else if c.match_available {
      t := EmitLiteral(c, all);
    } else {
      WaitFirst(c, all);
    }
    SlowSeen(c);
  }

  lemma {:induction false} SlowSeen(c: Compressor)
    requires SlowReady(c)
    ensures Pos(c) + c.f.lookahead == |c.f.input|
  {
    hide BlockState.Valid, Kept, BitBuffer.Stream, Primed, Chains, IsBytes, MatchOk, HashOk, Pow2, Sub32, Pending, Compressor.Core;
  }

  lemma {:induction false} EarlyMore(looks: map<nat, Look>, looks1: map<nat, Look>, pos: nat, n: nat)
    requires forall p :: p in looks1 ==> p in looks || p == pos
    ensures Early(looks, n) && pos + MAX_MATCH + 1 <= n ==> Early(looks1, n)
  {
  }

  // Enough lookahead, with all that is known of the tokens.
  method SlowFeed(c: Compressor, finish: bool) returns (t: Turn)
    requires SlowReady(c) && LazyParse(c)
    modifies c.f, c.f.window, c.f.head, c.f.prev
    ensures SlowReady(c) && All(c) == old(All(c)) && Left(c) == old(Left(c)) && LazyParse(c) && (old(Open(c)) ==> Open(c))
    ensures if t.Again? then c.f.lookahead > 0 && c.f.strstart + MIN_LOOKAHEAD <= 2 * c.f.wsize && Sees(c.f, All(c)) && (c.f.lookahead >= MIN_LOOKAHEAD || finish)
            else TurnEnd(c, t, finish, old(Left(c)))
  {
    hide BlockState.Valid, Kept, BitBuffer.Stream, Primed, Chains, IsBytes, MatchOk, HashOk, Pow2, Sub32, Pending, Segments, AllSegments, Near, AllNear, Strings,
         LazyState, FillWindow.SameStrings, Compressor.Core;
    ghost var input, base0, ins0, top0, look0 := c.f.input, c.f.base, c.f.ins, c.f.strstart, c.f.lookahead;
    InputSeen(c);
    t := Feed(c, MIN_LOOKAHEAD, finish, Emitted(c));
    InputSeen(c);
    SmallWindow(c);
    StringsKept(base0, ins0, |input|, top0, c.f.base, c.f.ins, |c.f.input|, c.f.strstart, {});
    if c.match_length >= MIN_MATCH {
      PendingMore(input, c.f.input, Pos(c), Sub32(c.f.strstart, c.f.match_start), c.match_length, c.f.MaxDist());
    }
  }

  // One turn of the loop of deflate_slow.
  method SlowTurn(c: Compressor, finish: bool) returns (t: Turn)
    requires SlowReady(c) && LazyParse(c)
    modifies Repr(c)
    ensures SlowReady(c) && All(c) == old(All(c)) && TurnEnd(c, t, finish, old(Left(c)))
    ensures LazyParse(c) && (!finish && old(Open(c)) ==> Open(c))
  {
    hide SlowReady, LazyParse, Sees, Open, MatchFinder.Data, MatchFinder.Index, MatchFinder.Hashed, Compressor.Core;
    t := SlowFeed(c, finish);
    if t.Again? {
      t := SlowStep(c, All(c));
    }
  }

  /** deflate_slow: the tokens and blocks stand for the input, but for one byte while a decision is
      pending, whenever it stops; with Z_FINISH and room for output the stream is complete. The tokens are those of lazy
      evaluation: a match gives way to a better one found one position further on, and to nothing else. */
  method DeflateSlow(c: Compressor, finish: bool) returns (r: Outcome)
    requires SlowReady(c) && LazyParse(c)
    modifies Repr(c)
    ensures r.NeedMore? ==> SlowReady(c) && LazyParse(c) && (!finish && old(Open(c)) ==> Open(c))
    ensures CallEnd(c, r, finish, old(All(c)), old(Left(c)))
    ensures c.f.wsize >= 512 && Lazy(All(c), LevelOf(c), c.looks, c.toks) && (!r.NeedMore? ==> Size(c.toks) == |All(c)|)
  {
    hide BlockState.Valid, Kept, BitBuffer.Stream, Primed, Chains, IsBytes, MatchOk, HashOk, Pow2, Sub32, Pending, Completed, Near, AllNear, Segments, AllSegments,
         LazyParse, Lazy, Open, Size;
    var t := Again;
    while t.Again?
      invariant SlowReady(c) && All(c) == old(All(c)) && Left(c) <= old(Left(c)) && LazyParse(c) && (!finish && old(Open(c)) ==> Open(c))
      invariant t.Wait? ==> TurnEnd(c, t, finish, old(Left(c)))
      invariant t.Finish? ==> TurnEnd(c, t, finish, 0)
      decreases t.Again?, Left(c)
    {
      t := SlowTurn(c, finish);
    }
    LazyHolds(c);
    if t.Wait? {
      return NeedMore;
    }
    r := EndSlow(c);
  }

  lemma {:induction false} LazyHolds(c: Compressor)
    requires LazyParse(c)
    ensures c.f.wsize >= 512 && Lazy(All(c), LevelOf(c), c.looks, c.toks)
  {
    hide Lazy, FoundAt;
  }

  // The last byte may still be pending; then the last block.
  method EndSlow(c: Compressor) returns (r: Outcome)
    requires SlowReady(c) && Storable(c.f) && Left(c) == 0 && LazyParse(c)
    modifies Repr(c)
    ensures !r.NeedMore? && All(c) == old(All(c)) && Completed(c.done, c.b.w.pending, All(c), c.f.MaxDist())
    ensures AllSegments(c.done, c.parsed, c.toks, c.b.d_buf.Length, c.fixed)
    ensures c.f.wsize >= 512 && Lazy(All(c), LevelOf(c), c.looks, c.toks) && Size(c.toks) == |All(c)|
  {
    hide BlockState.Valid, Kept, BitBuffer.Stream, Primed, Chains, IsBytes, MatchOk, HashOk, Pow2, Sub32, Pending, Completed, Near, AllNear, Segments, AllSegments,
         Lazy, FoundAt, Size, Waiting;
    InputSeen(c);
    ghost var ts, len, dist := c.toks, c.match_length, Sub32(c.f.strstart, c.f.match_start);
    if c.match_available {
      LazyEnds(All(c), LevelOf(c), c.looks, ts, len, dist);
      var _ := TallyLast(c);
      c.match_available := false;
    }
    r := LastBlock(c);
  }
}
