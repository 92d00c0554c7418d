/** From bytes to bytes: what deflate makes of an input that arrives in parts, inflate turns back
into the input, whatever parts it is given. */
module RoundTrip {
  import opened Bits
  import opened Canonical
  import opened TableCells
  import opened FixedCodes
  import opened Tokens
  import HashChains
  import opened Finder
  import opened BlockMachine
  import opened BitWriter
  import opened Blocks
  import opened Streams
  import opened FlushBlock
  import opened Deflate
  import opened Parsing
  import opened MatchSearch
  import ChainSearch
  import DeflateFast
  import DeflateSlow
  import DeflateRle
  import opened Window
  import opened InflateState
  import opened Inflate
  import opened Chunking

  datatype Strategy = FAST | SLOW | RLE | HUFF

  // The compressor can be called.
  ghost predicate Ready(c: Compressor, how: Strategy)
    reads c, c.f, c.f.window, c.f.prev, c.f.head, c.b, c.b.trees, c.b.w, c.b.l_fc, c.b.d_fc, c.b.bl_fc, c.b.d_buf, c.b.l_buf,
          c.b.sl_fc, c.b.sl_dl, c.b.sd_fc, c.b.sd_dl
  {
    match how
    case FAST => DeflateFast.FastReady(c) && DeflateFast.GreedyParse(c)
    case SLOW => DeflateSlow.SlowReady(c) && DeflateSlow.LazyParse(c)
    case RLE => DeflateRle.RunReady(c) && DeflateRle.RunParse(c)
    case HUFF => DeflateRle.RunReady(c) && OneToOne(c) && DeflateRle.HuffParse(c)
  }

  /** The tokens are those of the strategy: the greedy choice, lazy evaluation, runs, or literals. */
  ghost predicate CutBy(how: Strategy, all: seq<nat>, v: Level, looks: map<nat, Look>, toks: seq<Token>) {
    match how
    case FAST => Greedy(all, v, looks, toks)
    case SLOW => Lazy(all, v, looks, toks)
    case RLE => Runs(all, toks)
    case HUFF => Plain(all, toks)
  }

  // More input may come: so far there was enough.
  ghost predicate Unfinished(c: Compressor, how: Strategy)
    reads c, c.f
  {
    match how
    case FAST => DeflateFast.Open(c)
    case SLOW => DeflateFast.Open(c)
    case RLE => EarlyEnd(c.toks, |All(c)|)
    case HUFF => true
  }

  // A new compressor can be called.
  lemma {:induction false} NewReady(c: Compressor, how: Strategy)
    requires c.f.Valid() && c.f.Hashed() && c.f.base == 0 && c.f.strstart == 0 && c.f.block_start == 0 && c.b.last_lit == 0 && c.Core(0) && c.Room()
    requires c.match_length == c.prev_length == MIN_MATCH - 1 && !c.match_available
    requires c.toks == [] && c.looks == map[] && c.f.ins == {} && c.f.source == []
    ensures Ready(c, how) && Unfinished(c, how)
  {
    hide BlockState.Valid, Kept, BitBuffer.Stream, Segments, AllSegments;
    SmallWindow(c);
  }

  lemma {:induction false} SmallWindow(c: Compressor)
    requires c.f.Valid()
    ensures 512 <= c.f.wsize <= 32768 && c.f.match_start < U32 && c.f.nice_match <= MAX_MATCH
  {
    hide MatchFinder.Index, MatchFinder.Data;
  }

  // configuration_table[level].func, or the strategy.
  method Call(c: Compressor, how: Strategy, finish: bool) returns (r: Outcome)
    requires Ready(c, how)
    modifies Repr(c)
    ensures r.NeedMore? ==> Ready(c, how) && (!finish && old(Unfinished(c, how)) ==> Unfinished(c, how))
    ensures CallEnd(c, r, finish, old(All(c)), old(Deflate.Left(c)))
    ensures c.f.wsize >= 512 && CutBy(how, All(c), DeflateFast.LevelOf(c), c.looks, c.toks) && (!r.NeedMore? ==> Size(c.toks) == |All(c)|)
  {
    hide DeflateFast.FastReady, DeflateSlow.SlowReady, DeflateRle.RunReady, CallEnd, DeflateFast.GreedyParse, DeflateSlow.LazyParse,
         DeflateRle.RunParse, DeflateRle.HuffParse, Greedy, Lazy, Runs, Plain, DeflateFast.Open, EarlyEnd, Size;
    ReadySize(c, how);
    match how {
      case FAST => r := DeflateFast.DeflateFast(c, finish);
      case SLOW => r := DeflateSlow.DeflateSlow(c, finish);
      case RLE => r := DeflateRle.DeflateRle(c, finish);
      case HUFF => r := DeflateRle.DeflateHuff(c, finish);
        PlainSize(All(c), c.toks);
    }
  }

  lemma {:induction false} PlainSize(all: seq<nat>, ts: seq<Token>)
    requires Plain(all, ts)
    ensures Size(ts) == |ts|
  {
    if ts != [] {
      PlainSize(all, ts[..|ts| - 1]);
    }
  }

  lemma {:induction false} ReadySize(c: Compressor, how: Strategy)
    requires Ready(c, how)
    ensures 512 <= c.f.wsize
  {
    hide BlockState.Valid, Kept, BitBuffer.Stream;
  }

  // More input at hand.
  method GiveInput(c: Compressor, how: Strategy, part: seq<nat>)
    requires Ready(c, how) && Unfinished(c, how) && IsBytes(part)
    modifies c.f`source
    ensures Ready(c, how) && Unfinished(c, how) && All(c) == old(All(c)) + part
  {
    hide BlockState.Valid, Kept, BitBuffer.Stream, Segments, AllSegments, Greedy, Lazy, Runs, Plain, FoundAt, ChainSearch.Strings, LeftOut, Size, Waiting,
         HashChains.Chains, LazyState, EarlyEnd;
    LaterTokens(c, how, part);
    assert c.f.input + (c.f.source + part) == c.f.input + c.f.source + part;
    c.f.source := c.f.source + part;
  }

  // The tokens stay those of the strategy.
  lemma {:induction false} LaterTokens(c: Compressor, how: Strategy, part: seq<nat>)
    requires Ready(c, how) && Unfinished(c, how)
    ensures how.FAST? ==> Greedy(All(c) + part, DeflateFast.LevelOf(c), c.looks, c.toks)
    ensures how.SLOW? ==> LazyState(All(c) + part, DeflateFast.LevelOf(c), c.looks, c.toks, Deflate.Pos(c), c.match_available, c.match_length,
                                    Sub32(c.f.strstart, c.f.match_start))
    ensures how.RLE? ==> Runs(All(c) + part, c.toks) && EarlyEnd(c.toks, |All(c) + part|)
    ensures how.HUFF? ==> Plain(All(c) + part, c.toks)
  {
    hide BlockState.Valid, Kept, BitBuffer.Stream, Segments, AllSegments, Greedy, Lazy, Runs, FoundAt, ChainSearch.Strings, LeftOut, Size, Waiting, MatchFinder.Index;
    var all := All(c);
    SmallWindow(c);
    match how {
      case FAST =>
        EarlyLonger(c.looks, |c.f.input|, |all|);
        GreedyLater(all, all + part, DeflateFast.LevelOf(c), c.looks, c.toks);
      case SLOW =>
        EarlyLonger(c.looks, |c.f.input|, |all|);
        LazyStateLater(all, all + part, DeflateFast.LevelOf(c), c.looks, c.toks, Deflate.Pos(c), c.match_available, c.match_length,
                       Sub32(c.f.strstart, c.f.match_start));
      case RLE => RunsLater(all, all + part, c.toks);
      case HUFF =>
    }
  }

  lemma {:induction false} EarlyLonger(looks: map<nat, Look>, n: nat, m: nat)
    requires Early(looks, n) && n <= m
    ensures Early(looks, m)
  {
  }

  lemma {:induction false} LazyStateLater(all: seq<nat>, all1: seq<nat>, v: Level, looks: map<nat, Look>, ts: seq<Token>, pos: nat, avail: bool,
                                          len: nat, dist: nat)
    requires LazyState(all, v, looks, ts, pos, avail, len, dist) && all <= all1 && Early(looks, |all|) && v.k.nice <= MAX_MATCH
    ensures LazyState(all1, v, looks, ts, pos, avail, len, dist)
  {
    hide FoundAt, Lazy, Waiting, Size;
    LazyLater(all, all1, v, looks, ts);
    if avail {
      FoundLater(all, all1, v, pos - 1, Waiting(ts, looks), looks[pos - 1]);
    }
  }

  /** Any number of calls with some input each, and calls with Z_FINISH until the stream is complete:
      its blocks stand for all of the input, and their tokens are those of the strategy, whether a block was sent as
      tokens or stored. */
  method Compress(c: Compressor, how: Strategy, parts: seq<seq<nat>>) returns (bytes: seq<nat>)
    requires Ready(c, how) && Unfinished(c, how) && All(c) == [] && forall i :: 0 <= i < |parts| ==> IsBytes(parts[i])
    modifies Repr(c)
    ensures c.f.wsize >= 512 && Completed(c.done, bytes, Join(parts), c.f.MaxDist())
    ensures CutBy(how, Join(parts), DeflateFast.LevelOf(c), c.looks, c.toks) && Size(c.toks) == |Join(parts)|
    ensures AllSegments(c.done, c.parsed, c.toks, c.b.d_buf.Length, c.fixed)
  {
    hide Ready, Completed, IsBytes, Unfinished, CutBy, Segments, AllSegments, Size;
    ReadySize(c, how);
    var i: nat := 0;
    while i < |parts|
      invariant i <= |parts| && Ready(c, how) && Unfinished(c, how) && All(c) == Join(parts[..i])
    {
      assert parts[..i + 1][..i] == parts[..i];
      GiveInput(c, how, parts[i]);
      var _ := Call(c, how, false);
      i := i + 1;
    }
    assert parts[..|parts|] == parts;
    var r := NeedMore;
    while r.NeedMore?
      invariant All(c) == Join(parts)
      invariant if r.NeedMore? then Ready(c, how)
                else Completed(c.done, c.b.w.pending, Join(parts), c.f.MaxDist()) && AllSegments(c.done, c.parsed, c.toks, c.b.d_buf.Length, c.fixed) &&
                     CutBy(how, Join(parts), DeflateFast.LevelOf(c), c.looks, c.toks) && Size(c.toks) == |Join(parts)|
      decreases r.NeedMore?, Deflate.Left(c)
    {
      r := Call(c, how, true);
    }
    bytes := c.b.w.pending;
  }

  /** What inflate makes of a complete stream, whatever parts and room it is given: never an error, at any time a
      beginning of the input, and all of it, with all the stream read, if the last call has room for more. */
  method Restore(s: Inflater, parts: seq<seq<nat>>, rooms: seq<nat>, finish: bool, ghost done: seq<Block>, ghost input: seq<nat>, ghost maxDist: nat)
    returns (rest: seq<nat>, output: seq<nat>)
    requires Idle(s) && s.before == [] && s.Held() == [] && s.View() == TypeDo(false)
    requires |rooms| == |parts| && forall i :: 0 <= i < |parts| ==> IsBytes(parts[i])
    requires Completed(done, Join(parts), input, maxDist)
    modifies s, s.lens, s.codes, s.window, s.window.data
    ensures Idle(s) && s.before == output
    ensures output <= input && !s.mode.BAD?
    ensures |parts| > 0 && rooms[|rooms| - 1] > |input| ==> output == input && s.mode.DONE? && rest == []
  {
    hide Idle, Completed, Ended, Inflater.View, Reaches, ByteBits, Step, IsBytes, Join;
    IdleShape(s);
    assert [] + ByteBits(Join(parts)) == ByteBits(Join(parts));
    assert Resting(s, Join(parts)) == Start(ByteBits(Join(parts)));
    var room;
    rest, output, room := Session(s, parts, rooms, finish);
    IdleShape(s);
    assert [] + output == output;
    Decoded(done, Join(parts), input, maxDist, Resting(s, rest));
    BadView(s);
    if |parts| > 0 && rooms[|rooms| - 1] > |input| {
      EndNone(s, rest);
      NothingLeft(s, rest);
    }
  }

  lemma {:induction false} EndNone(s: Inflater, rest: seq<nat>)
    requires Ended(s, rest)
    ensures s.Shape() && Next(Resting(s, rest)).None?
  {
    hide Step, Reaches;
  }

  // No bit left is no byte left.
  lemma {:induction false} NothingLeft(s: Inflater, rest: seq<nat>)
    requires s.Shape() && Resting(s, rest).bits == []
    ensures rest == []
  {
    hide Inflater.View;
  }

  lemma {:induction false} BadView(s: Inflater)
    requires s.Shape()
    ensures s.mode.BAD? <==> s.View() == Bad
    ensures s.mode.DONE? <==> s.View() == Done
  {
  }

  /** A machine that has read some of a complete stream. */
  lemma {:induction false} Decoded(done: seq<Block>, bytes: seq<nat>, input: seq<nat>, maxDist: nat, d: Conf)
    requires Completed(done, bytes, input, maxDist) && Reaches(Start(ByteBits(bytes)), d)
    ensures ConfOk(d) && d.hist <= input && d.mode != Bad && (Next(d).None? ==> d == Conf(Done, [], input))
  {
    hide Reaches, ByteBits, AllSensible, Sendings, FinalBits, Output;
    StreamRoundTrip(done);
    DoneEnds(input, done);
    OutputGrows(Start(ByteBits(bytes)), d, Conf(Done, [], input));
    if d.mode == Bad {
      BadEnds(d);
    }
    if Next(d).None? {
      OneEnd(Start(ByteBits(bytes)), d, Conf(Done, [], input));
    }
  }

  lemma {:induction false} DoneEnds(input: seq<nat>, done: seq<Block>)
    requires Sendings(done) && AllSensible(done) && Output(done) == input
    ensures ConfOk(Conf(Done, [], input)) && Next(Conf(Done, [], input)).None?
  {
    hide Sendings, AllSensible, Output;
    OutputBytes(done);
  }

  lemma {:induction false} BadEnds(d: Conf)
    requires ConfOk(d) && d.mode == Bad
    ensures Next(d).None?
  {
  }

  // A machine at its start.
  lemma {:induction false} NewIdle(s: Inflater)
    requires s.Valid() && s.before == [] && s.put == 0 && s.bits == 0 && s.mode == TYPEDO && !s.last
    ensures Idle(s) && s.Held() == [] && s.View() == TypeDo(false)
  {
    hide TableFits, SlidingWindow.Holds, Step, ModeOk;
  }

  lemma {:induction false} JoinTwo(a: seq<nat>, b: seq<nat>)
    ensures Join([a, b]) == a + b
  {
    assert [a, b][..1] == [a] && [a][..0] == [];
    assert Join([a]) == Join([]) + a == a;
  }

  lemma {:induction false} CompletedBytes(done: seq<Block>, bytes: seq<nat>, input: seq<nat>, maxDist: nat, n: nat)
    requires Completed(done, bytes, input, maxDist) && n <= |bytes|
    ensures IsBytes(bytes[..n]) && IsBytes(bytes[n..]) && bytes[..n] + bytes[n..] == bytes
  {
    hide AllNear, Sendings, AllSensible, FinalBits, Output;
  }

  // How far back a match may lie in a window of `w_bits`.
  function Farthest(w_bits: nat): nat {
    if Pow2(w_bits) > MIN_LOOKAHEAD then Pow2(w_bits) - MIN_LOOKAHEAD else 0
  }

  // A stream from a new compressor, set up in any way.
  method Deflated(parts: seq<seq<nat>>, how: Strategy, w_bits: nat, mem_level: nat, level: nat, fixed: bool, filtered: bool,
                  good: nat, lazy: nat, nice: nat, chain: nat)
    returns (bytes: seq<nat>, ghost done: seq<Block>)
    requires forall i :: 0 <= i < |parts| ==> IsBytes(parts[i])
    requires 9 <= w_bits <= 15 && 1 <= mem_level <= 9 && level > 0 && chain >= 4 && nice <= MAX_MATCH
    ensures Completed(done, bytes, Join(parts), Farthest(w_bits))
  {
    hide Completed, Ready, IsBytes, BlockState.Valid, Kept, Pow2, Join, Compressor.Core, AllSegments, CutBy, Size;
    var c := new Compressor(w_bits, mem_level, level, fixed, filtered, good, lazy, nice, chain);
    NewReady(c, how);
    ReadySize(c, how);
    assert c.f.input + c.f.source == [];
    bytes := Compress(c, how, parts);
    done := c.done;
  }

  // A stream read by a new decompressor, in two parts; the first call may find any room.
  method Inflated(bytes: seq<nat>, cut: nat, room: nat, enough: nat, ghost done: seq<Block>, ghost input: seq<nat>, ghost maxDist: nat)
    returns (output: seq<nat>)
    requires Completed(done, bytes, input, maxDist) && enough > |input|
    ensures output == input
  {
    hide Completed, IsBytes, TableFits, Join, Step, Ended, Idle, FixedLit, FixedDist, Inflater.View;
    var lenfix, distfix := FixedTables();
    var s := new Inflater(lenfix, distfix);
    NewIdle(s);
    var n := if cut < |bytes| then cut else |bytes|;
    CompletedBytes(done, bytes, input, maxDist, n);
    JoinTwo(bytes[..n], bytes[n..]);
    var _, out := Restore(s, [bytes[..n], bytes[n..]], [room, enough], false, done, input, maxDist);
    output := out;
  }

  /** From the input to the stream and back: whatever way the input arrives and however the compressor is set up, the
      bytes are a complete stream for it, and wherever they are cut on their way, the input comes back. */
  method ThereAndBack(parts: seq<seq<nat>>, how: Strategy, w_bits: nat, mem_level: nat, level: nat, fixed: bool, filtered: bool,
                      good: nat, lazy: nat, nice: nat, chain: nat, cut: nat, room: nat)
    returns (bytes: seq<nat>, output: seq<nat>, ghost done: seq<Block>)
    requires forall i :: 0 <= i < |parts| ==> IsBytes(parts[i])
    requires 9 <= w_bits <= 15 && 1 <= mem_level <= 9 && level > 0 && chain >= 4 && nice <= MAX_MATCH
    ensures Completed(done, bytes, Join(parts), Farthest(w_bits))
    ensures output == Join(parts)
  {
    hide Completed, IsBytes, Join;
    bytes, done := Deflated(parts, how, w_bits, mem_level, level, fixed, filtered, good, lazy, nice, chain);
    output := Inflated(bytes, cut, room, |Join(parts)| + 1, done, Join(parts), Farthest(w_bits));
  }
}
