/** deflate_fast of deflate.c: every match is taken as soon as it is found. */
module DeflateFast {
  import opened Bits
  import opened Tokens
  import opened RollingHash
  import opened HashChains
  import opened Matches
  import opened Finder
  import opened LongestMatch
  import MatchSearch
  import opened ChainSearch
  import opened Parsing
  import FillWindow
  import opened BitWriter
  import opened FlushBlock
  import opened Deflate

  // Between two steps no match is pending.
  ghost predicate FastReady(c: Compressor)
    reads c, c.f, c.f.window, c.f.prev, c.f.head, c.b, c.b.trees, c.b.w, c.b.l_fc, c.b.d_fc, c.b.bl_fc, c.b.d_buf, c.b.l_buf,
          c.b.sl_fc, c.b.sl_dl, c.b.sd_fc, c.b.sd_dl
  {
    && c.f.Valid() && c.f.Hashed() && c.Core(Pos(c)) && c.Room()
    && c.match_length < MIN_MATCH && c.prev_length == MIN_MATCH - 1
  }

  // The strings before `top` are in the hash table, but for those in `out`; at the end of the input that matters no more.
  ghost predicate Indexed(f: MatchFinder, all: seq<nat>, out: set<nat>, top: nat)
    reads f
  {
    Entered(f, out, top) || (f.lookahead < MIN_MATCH && f.input == all && top > 0)
  }

  // Insert the current string.
  method InsertCurrent(f: MatchFinder, ghost all: seq<nat>, ghost out: set<nat>) returns (hash_head: nat)
    requires f.Valid() && f.Hashed() && f.lookahead > 0
    requires Indexed(f, all, out, f.strstart) && Sees(f, all) && f.base + f.strstart !in out
    modifies f`ins_h, f`ins, f.prev, f.head
    ensures f.Sizes() && f.Data() && f.Index(f.strstart + 1) && Indexed(f, all, out, f.strstart + 1)
    ensures f.lookahead >= MIN_MATCH ==>
              f.Ready(f.strstart + 1) && f.Linked(f.strstart, hash_head) && Entered(f, out, f.strstart + 1) &&
              Previous(hash_head, f.strstart, f.shift, f.bits, f.input, f.base, f.ins)
    ensures f.lookahead < MIN_MATCH ==> hash_head == 0
    ensures old(Entered(f, out, f.strstart)) ==> Entered(f, out, f.strstart + 1)
  {
    hide Primed, Chains, IsBytes, LinkOk, HashOk, Pow2, Previous;
    ghost var ins := f.ins;
    hash_head := 0;
    if f.lookahead >= MIN_MATCH {
      hash_head := f.InsertString(f.strstart);
      EnteredNext(f, out, f.strstart, ins);
    } else if Entered(f, out, f.strstart) {
      EnteredNext(f, out, f.strstart, ins);
    }
  }

  // Insert the current string and look for a match of it.
  method FindMatch(f: MatchFinder, match_length: nat, prev_length: nat, ghost all: seq<nat>, ghost out: set<nat>) returns (len: nat)
    requires f.Valid() && f.Hashed() && f.lookahead > 0 && f.strstart + MIN_LOOKAHEAD <= 2 * f.wsize
    requires match_length < MIN_MATCH && prev_length == MIN_MATCH - 1
    requires Indexed(f, all, out, f.strstart) && Sees(f, all) && f.base + f.strstart !in out && f.base + f.strstart < |all|
    modifies f`ins_h, f`ins, f`match_start, f.prev, f.head
    ensures f.Sizes() && f.Data() && f.Index(f.strstart + 1) && f.match_start < U32
    ensures f.lookahead >= MIN_MATCH ==> f.Ready(f.strstart + 1)
    ensures len >= MIN_MATCH ==> Matching(f, len)
    ensures Indexed(f, all, out, f.strstart + 1) && Answer(f, MatchSearch.LongestAt(all, KnobsOf(f), out, f.base, f.base + f.strstart, 2), len, 2)
  {
    hide Primed, LongestMatch.Found, Chains, IsBytes, MatchOk, LinkOk, HashOk, Pow2, Previous, Strings, MatchSearch.LongestAt;
    var hash_head := InsertCurrent(f, all, out);
    len := match_length;
    if hash_head != 0 {
      LinkedBelow(f, hash_head);
      if f.strstart - hash_head <= f.MaxDist() {
        len := FindLongest(f, hash_head, prev_length, all, out);
        return;
      }
    }
    NothingFound(f, all, out, hash_head, 2);
  }

  lemma {:induction false} NothingFound(f: MatchFinder, all: seq<nat>, out: set<nat>, q: nat, len: nat)
    requires f.Sizes() && f.Data() && f.end == f.strstart + f.lookahead && Sees(f, all) && f.base + f.strstart < |all|
    requires f.lookahead >= MIN_MATCH ==>
               f.Linked(f.strstart, q) && Entered(f, out, f.strstart + 1) && Previous(q, f.strstart, f.shift, f.bits, f.input, f.base, f.ins) &&
               (q == 0 || f.strstart - q > f.MaxDist())
    ensures MatchSearch.LongestAt(all, KnobsOf(f), out, f.base, f.base + f.strstart, len) == (len, 0)
  {
    hide Chains, IsBytes, LinkOk, HashOk, Pow2, Previous, Entered, MatchSearch.LongestAt;
    if f.lookahead >= MIN_MATCH {
      NoneFound(f, all, out, q, len);
    } else {
      AtEndNone(all, KnobsOf(f), out, f.base, f.base + f.strstart, len);
    }
  }

  lemma {:induction false} AtEndNone(all: seq<nat>, k: MatchSearch.Knobs, out: set<nat>, base: nat, p: nat, len: nat)
    requires base <= p < |all| && |all| - p < MIN_MATCH
    ensures MatchSearch.LongestAt(all, k, out, base, p, len) == (len, 0)
  {
  }

  lemma {:induction false} LinkedBelow(f: MatchFinder, q: nat)
    requires f.Linked(f.strstart, q) && q != 0
    ensures q < f.strstart
  {
  }

  // match_start leads to a match of the current string.
  ghost predicate Matching(f: MatchFinder, len: nat)
    reads f
  {
    && f.match_start < f.strstart && f.wsize >= 512 && f.strstart - f.match_start <= f.MaxDist() && len <= MAX_MATCH && len <= f.lookahead
    && MatchOk(f.input, f.base + f.strstart, f.strstart - f.match_start, len)
  }

  // Insert the strings of a match after the first one.
  method InsertMatch(f: MatchFinder, match_length: nat, ghost out: set<nat>)
    requires f.Sizes() && f.Data() && f.Index(f.strstart + 1) && f.Ready(f.strstart + 1)
    requires match_length > 0 && f.strstart + match_length + MIN_MATCH < f.end + 1
    requires Entered(f, out, f.strstart + 1) && forall q :: q in out ==> q <= f.base + f.strstart
    modifies f`ins_h, f`ins, f`strstart, f.prev, f.head
    ensures f.Sizes() && f.Data() && f.Index(f.strstart) && f.Ready(f.strstart) && f.strstart == old(f.strstart) + match_length + 1
    ensures Entered(f, out, f.strstart)
  {
    hide Primed, Chains, IsBytes, LinkOk, HashOk, Pow2, Previous, Strings;
    var left := match_length;
    while left != 0
      invariant f.Sizes() && f.Data() && f.Index(f.strstart + 1) && f.Ready(f.strstart + 1)
      invariant f.strstart + left == old(f.strstart) + match_length && Entered(f, out, f.strstart + 1)
    {
      f.strstart := f.strstart + 1;
      InsertOne(f, out);
      left := left - 1;
    }
    f.strstart := f.strstart + 1;
  }

  method InsertOne(f: MatchFinder, ghost out: set<nat>)
    requires f.Sizes() && f.Data() && f.Index(f.strstart) && f.Ready(f.strstart) && f.strstart + 2 < f.end
    requires Entered(f, out, f.strstart) && f.base + f.strstart !in out
    modifies f`ins_h, f`ins, f.prev, f.head
    ensures f.Sizes() && f.Data() && f.Index(f.strstart + 1) && f.Ready(f.strstart + 1) && Entered(f, out, f.strstart + 1)
  {
    hide Primed, Chains, IsBytes, LinkOk, HashOk, Pow2, Previous;
    ghost var ins := f.ins;
    var _ := f.InsertString(f.strstart);
    EnteredNext(f, out, f.strstart, ins);
  }

  // Skip a match without inserting its strings.
  method SkipMatch(f: MatchFinder, match_length: nat)
    requires f.Sizes() && f.Data() && f.Index(f.strstart + 1) && match_length > 0 && f.strstart + match_length + 1 < f.window.Length
    modifies f`ins_h, f`strstart
    ensures f.Sizes() && f.Data() && f.Index(f.strstart) && f.Ready(f.strstart) && f.strstart == old(f.strstart) + match_length
  {
    hide Primed, Chains, HashOk, Pow2;
    f.strstart := f.strstart + match_length;
    FillWindow.StartHash(f, f.strstart);
  }

  // The positions left out once a match is passed.
  ghost predicate OutBehind(f: MatchFinder, match_length: nat, out: set<nat>, out1: set<nat>)
    reads f
  {
    && (forall q :: q in out ==> q < f.base + f.strstart)
    && if match_length > f.max_lazy then forall q: nat :: q in out1 <==> q in out || f.base + f.strstart < q < f.base + f.strstart + match_length
       else out1 == out
  }

  /** Tally the match that was found, insert its strings if there are not too many of them, and go on behind it. */
  method TakeMatch(c: Compressor, ghost all: seq<nat>, ghost out: set<nat>, ghost out1: set<nat>) returns (bflush: bool)
    requires c.f.Sizes() && c.f.Data() && c.f.Index(c.f.strstart + 1) && c.f.Ready(c.f.strstart + 1) && c.f.match_start < U32
    requires c.f.end == c.f.strstart + c.f.lookahead && c.f.strstart + MIN_LOOKAHEAD <= 2 * c.f.wsize
    requires c.Core(Pos(c)) && c.Room() && MIN_MATCH <= c.match_length && Matching(c.f, c.match_length)
    requires Entered(c.f, out, c.f.strstart + 1) && Sees(c.f, all) && OutBehind(c.f, c.match_length, out, out1)
    modifies c`match_length, c.f`ins_h, c.f`ins, c.f`strstart, c.f`lookahead, c.f.prev, c.f.head,
             c`toks, c.b`last_lit, c.b.d_buf, c.b.l_buf, c.b.l_fc, c.b.d_fc
    ensures c.f.Valid() && c.f.Hashed() && c.Core(Pos(c)) && (bflush <==> !c.Room()) && c.match_length == 0
    ensures Left(c) + old(c.match_length) == old(Left(c)) && c.f.strstart == old(c.f.strstart) + old(c.match_length)
    ensures c.toks == old(c.toks) + [Match(old(c.f.strstart - c.f.match_start), old(c.match_length))]
    ensures Indexed(c.f, all, out1, c.f.strstart)
  {
    hide BlockState.Valid, Kept, BitBuffer.Stream, Primed, Chains, IsBytes, MatchOk, HashOk, Pow2, Segments, AllSegments, OutBehind, Strings;
    bflush := c.TallyDist(c.f.strstart - c.f.match_start, c.match_length - MIN_MATCH, Pos(c));
    PassMatch(c.f, c.match_length, all, out, out1);
    c.match_length := 0;
  }

  method PassMatch(f: MatchFinder, match_length: nat, ghost all: seq<nat>, ghost out: set<nat>, ghost out1: set<nat>)
    requires f.Sizes() && f.Data() && f.Index(f.strstart + 1) && f.Ready(f.strstart + 1) && f.match_start < U32
    requires f.end == f.strstart + f.lookahead && f.strstart + MIN_LOOKAHEAD <= 2 * f.wsize
    requires MIN_MATCH <= match_length <= f.lookahead && match_length <= MAX_MATCH
    requires Entered(f, out, f.strstart + 1) && Sees(f, all) && OutBehind(f, match_length, out, out1)
    modifies f`ins_h, f`ins, f`strstart, f`lookahead, f.prev, f.head
    ensures f.Valid() && f.Hashed() && f.strstart == old(f.strstart) + match_length && f.lookahead == old(f.lookahead) - match_length
    ensures Indexed(f, all, out1, f.strstart)
  {
    hide Primed, Chains, IsBytes, HashOk, Pow2, Strings;
    f.lookahead := f.lookahead - match_length;
    if match_length <= f.max_lazy && f.lookahead >= MIN_MATCH {
      InsertMatch(f, match_length - 1, out);
    } else {
      if match_length > f.max_lazy {
        StringsSkipped(f.ins, f.base, |f.input|, out, f.strstart, match_length, out1);
      }
      SkipMatch(f, match_length);
    }
  }

  // Tally a literal and go on behind it.
  method TakeLiteral(c: Compressor) returns (bflush: bool)
    requires c.f.Sizes() && c.f.Data() && c.f.Index(c.f.strstart + 1) && (c.f.lookahead >= MIN_MATCH ==> c.f.Ready(c.f.strstart + 1))
    requires c.f.end == c.f.strstart + c.f.lookahead && c.f.match_start < U32 && c.f.lookahead > 0
    requires c.Core(Pos(c)) && c.Room()
    modifies c.f`strstart, c.f`lookahead, c`toks, c.b`last_lit, c.b.d_buf, c.b.l_buf, c.b.l_fc, c.b.d_fc
    ensures c.f.Valid() && c.f.Hashed() && c.Core(Pos(c)) && (bflush <==> !c.Room()) && Left(c) + 1 == old(Left(c))
    ensures c.f.strstart == old(c.f.strstart) + 1 && old(Pos(c)) < |c.f.input| && c.toks == old(c.toks) + [Literal(c.f.input[old(Pos(c))])]
  {
    hide BlockState.Valid, Kept, BitBuffer.Stream, Primed, Chains, IsBytes, HashOk, Pow2;
    InputByte(c.f.window[..], c.f.input, c.f.base, c.f.end, c.f.strstart);
    bflush := c.TallyLit(c.f.window[c.f.strstart], Pos(c));
    c.f.lookahead := c.f.lookahead - 1;
    c.f.strstart := c.f.strstart + 1;
  }

  // One byte of the window in terms of the input.
  lemma {:induction false} InputByte(w: seq<nat>, input: seq<nat>, base: nat, end: nat, i: nat)
    requires end <= |w| && base + end == |input| && w[..end] == input[base..] && i < end && IsBytes(w)
    ensures w[i] == input[base + i] && w[i] < 256
  {
    assert w[..end][i] == input[base..][i];
  }

  // The parameters of the level.
  function LevelOf(c: Compressor): Level
    requires c.f.wsize >= 512
  {
    Level(KnobsOf(c.f), c.f.max_lazy, c.filtered)
  }

  // Take the match of `len` bytes if it is long enough, or else a literal.
  method TakeToken(c: Compressor, ghost all: seq<nat>, ghost out: set<nat>, ghost out1: set<nat>) returns (bflush: bool)
    requires c.f.Sizes() && c.f.Data() && c.f.Index(c.f.strstart + 1) && (c.f.lookahead >= MIN_MATCH ==> c.f.Ready(c.f.strstart + 1))
    requires c.f.end == c.f.strstart + c.f.lookahead && c.f.match_start < U32 && c.f.lookahead > 0 && c.f.strstart + MIN_LOOKAHEAD <= 2 * c.f.wsize
    requires c.Core(Pos(c)) && c.Room() && (c.match_length >= MIN_MATCH ==> Matching(c.f, c.match_length)) && Sees(c.f, all)
    requires Indexed(c.f, all, out, c.f.strstart + 1) && if c.match_length >= MIN_MATCH then OutBehind(c.f, c.match_length, out, out1) else out1 == out
    modifies c`match_length, c.f`ins_h, c.f`ins, c.f`strstart, c.f`lookahead, c.f.prev, c.f.head,
             c`toks, c.b`last_lit, c.b.d_buf, c.b.l_buf, c.b.l_fc, c.b.d_fc
    ensures c.f.Valid() && c.f.Hashed() && c.Core(Pos(c)) && (bflush <==> !c.Room()) && c.match_length < MIN_MATCH
    ensures Indexed(c.f, all, out1, c.f.strstart) && old(Pos(c)) < |c.f.input| <= |all| && Left(c) + Pos(c) == old(Left(c) + Pos(c)) && old(Pos(c)) < Pos(c) <= old(Pos(c)) + MAX_MATCH
    ensures c.toks == old(c.toks) + [if old(c.match_length) >= MIN_MATCH then Match(old(c.f.strstart - c.f.match_start), old(c.match_length))
                                     else Literal(all[old(Pos(c))])]
    ensures Pos(c) == old(Pos(c)) + if old(c.match_length) >= MIN_MATCH then old(c.match_length) else 1
  {
    hide Compressor.Core, BlockState.Valid, Kept, BitBuffer.Stream, Primed, Chains, IsBytes, HashOk, Pow2, OutBehind, Strings, MatchOk;
    if c.match_length >= MIN_MATCH {
      bflush := TakeMatch(c, all, out, out1);
    } else {
      bflush := TakeLiteral(c);
    }
  }

  /** All tokens so far are those of the greedy choice, and the hash table is as they left it. */
  ghost predicate GreedyParse(c: Compressor)
    reads c, c.f
  {
    && 512 <= c.f.wsize && Greedy(All(c), LevelOf(c), c.looks, c.toks) && Size(c.toks) == Pos(c)
    && (forall p :: p in c.looks ==> p < Pos(c)) && (c.f.base == 0 || c.f.strstart >= c.f.MaxDist())
    && Indexed(c.f, All(c), LeftOut(c.toks, c.f.max_lazy), c.f.strstart)
    && (c.f.source == [] || c.f.lookahead >= MIN_MATCH || Pos(c) == 0)
  }

  // There was enough input so far, and more may come.
  ghost predicate Open(c: Compressor)
    reads c, c.f
  {
    Early(c.looks, |c.f.input|) && (c.f.lookahead >= MIN_MATCH || Pos(c) == 0)
  }

  // Look for a match; nothing is tallied yet.
  method FindFor(c: Compressor, ghost all: seq<nat>, ghost out: set<nat>)
    requires c.f.Valid() && c.f.Hashed() && c.Core(Pos(c)) && c.f.lookahead > 0 && c.f.strstart + MIN_LOOKAHEAD <= 2 * c.f.wsize
    requires c.match_length < MIN_MATCH && c.prev_length == MIN_MATCH - 1
    requires Indexed(c.f, all, out, c.f.strstart) && Sees(c.f, all) && Pos(c) !in out && Pos(c) < |all|
    modifies c`match_length, c.f`ins_h, c.f`ins, c.f`match_start, c.f.prev, c.f.head
    ensures c.Core(Pos(c)) && c.f.Sizes() && c.f.Data() && c.f.Index(c.f.strstart + 1) && c.f.match_start < U32
    ensures c.f.lookahead >= MIN_MATCH ==> c.f.Ready(c.f.strstart + 1)
    ensures c.match_length >= MIN_MATCH ==> Matching(c.f, c.match_length)
    ensures Indexed(c.f, all, out, c.f.strstart + 1)
    ensures Answer(c.f, MatchSearch.LongestAt(all, KnobsOf(c.f), out, c.f.base, Pos(c), 2), c.match_length, 2)
  {
    hide BlockState.Valid, Kept, BitBuffer.Stream, Primed, Chains, IsBytes, HashOk, Pow2, Segments, AllSegments, Near, AllNear, Indexed, Answer, Sees,
         MatchSearch.LongestAt, Matching, MatchFinder.Data, MatchFinder.Ready;
    var len := FindMatch(c.f, c.match_length, c.prev_length, all, out);
    SetLength(c, len, Pos(c));
  }

  // One turn of the loop of deflate_fast, once there is something to compress.
  method FastStep(c: Compressor, ghost all: seq<nat>) returns (bflush: bool)
    requires FastReady(c) && GreedyParse(c) && all == All(c) && c.f.lookahead > 0 && c.f.strstart + MIN_LOOKAHEAD <= 2 * c.f.wsize
    requires Sees(c.f, all)
    modifies c`match_length, c`looks, c.f`ins_h, c.f`ins, c.f`match_start, c.f`strstart, c.f`lookahead, c.f.prev, c.f.head,
             c`toks, c.b`last_lit, c.b.d_buf, c.b.l_buf, c.b.l_fc, c.b.d_fc
    ensures c.f.Valid() && c.f.Hashed() && c.Core(Pos(c)) && (bflush <==> !c.Room()) && c.match_length < MIN_MATCH
    ensures Left(c) < old(Left(c)) && c.f.strstart < 65536
    ensures GreedyParse(c) && (old(c.f.lookahead) >= MIN_LOOKAHEAD && old(Open(c)) ==> Open(c))
  {
    hide Compressor.Core, BlockState.Valid, Kept, BitBuffer.Stream, Primed, Chains, IsBytes, HashOk, Pow2, Indexed, Answer,
         MatchSearch.LongestAt, Matching, MatchFinder.Data, MatchFinder.Index, MatchFinder.Ready, LeftOut, Greedy, OutBehind, GreedyToken, Strings, MatchFinder.Hashed, Size, Near, AllNear;
    ghost var p, ts, v, base, n := Pos(c), c.toks, LevelOf(c), c.f.base, c.f.lookahead;
    ghost var out := LeftOut(ts, v.lazy);
    InputSeen(c);
    InWindowStill(c);
    ghost var t := GreedyToken(all, v.k, out, base, p);
    ghost var out1 := LeftOut(ts + [t], v.lazy);
    FindFor(c, all, out);
    TokenFound(c, all, v, out, t);
    OutIs(c.f, ts, t, c.match_length, out, out1);
    bflush := TakeToken(c, all, out, out1);
    ghost var r := MatchSearch.LongestAt(all, v.k, out, base, p, 2);
    Note(c, p, Look(base, r.0, r.1), Pos(c));
    GreedyChosen(all, v, out, base, p);
    GreedyMore(all, v, old(c.looks), ts, Look(base, r.0, r.1), t);
    SizeMore(ts, t);
  }

  lemma {:induction false} TokenFound(c: Compressor, all: seq<nat>, v: Level, out: set<nat>, t: Token)
    requires c.f.wsize >= 512 && v == LevelOf(c) && Pos(c) < |all| && t == GreedyToken(all, v.k, out, c.f.base, Pos(c))
    requires Answer(c.f, MatchSearch.LongestAt(all, v.k, out, c.f.base, Pos(c), 2), c.match_length, 2)
    requires c.match_length >= MIN_MATCH ==> Matching(c.f, c.match_length)
    ensures t == if c.match_length >= MIN_MATCH then Match(c.f.strstart - c.f.match_start, c.match_length) else Literal(all[Pos(c)])
    ensures c.match_length >= MIN_MATCH ==> c.f.match_start <= c.f.strstart
  {
    hide MatchSearch.LongestAt, MatchOk;
  }

  lemma {:induction false} OutIs(f: MatchFinder, ts: seq<Token>, t: Token, len: nat, out: set<nat>, out1: set<nat>)
    requires out == LeftOut(ts, f.max_lazy) && out1 == LeftOut(ts + [t], f.max_lazy) && Size(ts) == f.base + f.strstart
    requires if len >= MIN_MATCH then t.Match? && t.length == len else t.Literal?
    ensures if len >= MIN_MATCH then OutBehind(f, len, out, out1) else out1 == out
  {
    hide LeftOut;
    LeftOutMore(ts, t, f.max_lazy);
  }

  // More input in the window.
  lemma {:induction false} IndexedKept(f: MatchFinder, all: seq<nat>, out: set<nat>, base0: nat, ins0: set<nat>, input0: seq<nat>, top0: nat, look0: nat)
    requires Strings(ins0, base0, |input0|, out, top0) || (look0 < MIN_MATCH && input0 == all && top0 > 0)
    requires FillWindow.SameStrings(base0, ins0, f.base, f.ins) && f.base + f.strstart == base0 + top0 && input0 <= f.input <= all
    requires base0 + top0 + look0 == |input0| && f.base + f.strstart + f.lookahead == |f.input| && (top0 > 0 ==> f.strstart > 0)
    requires input0 == all || look0 >= MIN_MATCH || base0 + top0 == 0
    ensures Indexed(f, all, out, f.strstart)
  {
    hide Strings, FillWindow.SameStrings;
    if Strings(ins0, base0, |input0|, out, top0) {
      StringsKept(base0, ins0, |input0|, top0, f.base, f.ins, |f.input|, f.strstart, out);
    }
  }

  // One turn of the loop of deflate_fast.
  method FastTurn(c: Compressor, finish: bool) returns (t: Turn)
    requires FastReady(c) && GreedyParse(c)
    modifies Repr(c)
    ensures FastReady(c) && All(c) == old(All(c)) && TurnEnd(c, t, finish, old(Left(c)))
    ensures GreedyParse(c) && (!finish && old(Open(c)) ==> Open(c))
  {
    hide BlockState.Valid, Kept, BitBuffer.Stream, Primed, Chains, IsBytes, HashOk, Pow2, Completed, Compressor.Core, GreedyParse, Open, Sees,
         MatchFinder.Index, MatchFinder.Data, MatchFinder.Hashed;
    t := FastFeed(c, finish);
    if t.Again? {
      var bflush := FastStep(c, All(c));
      t := FlushGreedy(c, bflush);
    }
  }

  // FLUSH_BLOCK; the tokens stay as they are.
  method FlushGreedy(c: Compressor, bflush: bool) returns (t: Turn)
    requires c.f.Valid() && c.f.Hashed() && c.Core(Pos(c)) && (bflush <==> !c.Room()) && GreedyParse(c) && c.f.strstart < 65536
    modifies c.f`block_start, c`done, c`parsed, c.b`last_lit, c.b.trees, c.b.trees.heap, c.b.trees.depth, c.b.trees.bl_count, c.b.w,
             c.b.l_fc, c.b.l_dl, c.b.d_fc, c.b.d_dl, c.b.bl_fc, c.b.bl_dl
    ensures c.f.Valid() && c.f.Hashed() && c.Core(Pos(c)) && c.Room() && !t.Finish? && GreedyParse(c) && (old(Open(c)) ==> Open(c))
  {
    hide Compressor.Core, Greedy, LeftOut, Strings, Size, MatchFinder.Index, Primed, IsBytes;
    InWindowStill(c);
    t := FlushIf(c, bflush);
  }

  lemma {:induction false} InWindowStill(c: Compressor)
    requires c.f.Valid()
    ensures c.f.strstart <= c.f.end && 2 * c.f.wsize <= 65536
  {
    hide Chains, HashOk, Pow2, IsBytes;
  }

  // Enough lookahead, with all that is known of the tokens.
  method FastFeed(c: Compressor, finish: bool) returns (t: Turn)
    requires FastReady(c) && GreedyParse(c)
    modifies c.f, c.f.window, c.f.head, c.f.prev
    ensures FastReady(c) && All(c) == old(All(c)) && Left(c) == old(Left(c)) && GreedyParse(c) && (old(Open(c)) ==> Open(c))
    ensures if t.Again? then c.f.lookahead > 0 && c.f.strstart + MIN_LOOKAHEAD <= 2 * c.f.wsize && Sees(c.f, All(c)) && (c.f.lookahead >= MIN_LOOKAHEAD || finish)
            else TurnEnd(c, t, finish, old(Left(c)))
  {
    hide BlockState.Valid, Kept, BitBuffer.Stream, Primed, Chains, IsBytes, HashOk, Pow2, Compressor.Core, Greedy, LeftOut, FillWindow.SameStrings, Strings;
    ghost var base0, ins0, input0, top0, look0, out := c.f.base, c.f.ins, c.f.input, c.f.strstart, c.f.lookahead, LeftOut(c.toks, c.f.max_lazy);
    InputSeen(c);
    t := Feed(c, MIN_LOOKAHEAD, finish, Pos(c));
    InputSeen(c);
    IndexedKept(c.f, All(c), out, base0, ins0, input0, top0, look0);
  }

  /** deflate_fast: the tokens and blocks stand for the input, whenever it stops; with Z_FINISH and room for
      output the stream is complete. A match is taken wherever one is found, and is the one the input has to offer. */
  method DeflateFast(c: Compressor, finish: bool) returns (r: Outcome)
    requires FastReady(c) && GreedyParse(c)
    modifies Repr(c)
    ensures r.NeedMore? ==> FastReady(c) && GreedyParse(c) && (!finish && old(Open(c)) ==> Open(c))
    ensures CallEnd(c, r, finish, old(All(c)), old(Left(c)))
    ensures c.f.wsize >= 512 && Greedy(All(c), LevelOf(c), c.looks, c.toks) && (!r.NeedMore? ==> Size(c.toks) == |All(c)|)
  {
    hide BlockState.Valid, Kept, BitBuffer.Stream, Primed, Chains, IsBytes, HashOk, Pow2, Completed, Greedy, LeftOut, Indexed, Open, Segments, AllSegments, Size;
    var t := Again;
    while t.Again?
      invariant FastReady(c) && All(c) == old(All(c)) && Left(c) <= old(Left(c)) && GreedyParse(c) && (!finish && old(Open(c)) ==> Open(c))
      invariant t.Wait? ==> TurnEnd(c, t, finish, old(Left(c)))
      invariant t.Finish? ==> TurnEnd(c, t, finish, 0)
      decreases t.Again?, Left(c)
    {
      t := FastTurn(c, finish);
    }
    if t.Wait? {
      return NeedMore;
    }
    InputSeen(c);
    r := LastBlock(c);
  }
}
