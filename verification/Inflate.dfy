/** inflate (inflate.c): as many steps of the block machine as the buffers allow. */
module Inflate {
  import opened Bits
  import opened Canonical
  import opened TableCells
  import opened Tokens
  import opened FixedCodes
  import opened BlockMachine
  import opened Window
  import opened InflateState
  import opened InflateBlocks
  import opened InflateLengths
  import opened InflateData
  import opened InflateCopy
  import opened InflateFast

  const Z_OK: int := 0
  const Z_STREAM_END: int := 1
  const Z_DATA_ERROR: int := -3
  const Z_BUF_ERROR: int := -5

  // The order in which modes follow each other without taking bits or writing bytes.
  function Rank(m: Op): nat {
    match m
    case LENLENS => 7
    case CODELENS => 6
    case LEN => 5
    case LENEXT => 4
    case DIST => 3
    case DISTEXT => 2
    case MATCH => 1
    case COPY => 3
    case TYPEDO => 2
    case STORED => 1
    case TABLE => 1
    case LIT => 1
    case DONE => 0
    case BAD => 0
  }

  // What is left to take and to write.
  ghost function Left(s: Inflater): nat
    reads s
    requires s.next <= |s.input| && s.put <= s.output.Length
  {
    |s.Ahead()| + (s.output.Length - s.put)
  }

  // The call must end: it waits for input, or for room for output.
  ghost predicate Blocked(s: Inflater)
    reads s, s.output, s.lens, s.window
  {
    Starved(s) || Full(s)
  }

  lemma {:induction false} LessLeft(s: Inflater, c0: Conf, before: seq<nat>, put: nat)
    requires s.Shape() && s.Regs() && Reaches(c0, s.Now()) && |c0.hist| == |s.before| + put
    ensures |s.Ahead()| <= |c0.bits| && put <= s.put
  {
    hide Run;
    var n :| Run(c0, n, s.Now());
    RunOk(c0, n, s.Now());
  }

  predicate InHeader(m: Op) {
    m.TYPEDO? || m.STORED? || m.COPY? || m.TABLE? || m.LENLENS? || m.CODELENS?
  }

  // A state that reads a header or a stored block.
  method StepHeader(s: Inflater) returns (go: bool)
    requires s.Valid() && InHeader(s.mode)
    modifies s, s.lens, s.codes, s.output
    ensures s.Valid() && Reaches(old(s.Now()), s.Now())
    ensures s.input == old(s.input) && s.output == old(s.output) && s.before == old(s.before)
    ensures go ==> Left(s) < old(Left(s)) || (Left(s) <= old(Left(s)) && Rank(s.mode) < Rank(old(s.mode)))
    ensures !go ==> Blocked(s)
  {
    hide Step, ModeOk, TableFits, SlidingWindow.Holds, Inflater.Slack, Inflater.Tables, Inflater.FixedOk, Inflater.View, Reaches,
         Starved, ToBits, ByteBits, IsBytes;
    ghost var c0, put0 := s.Now(), s.put;
    match s.mode {
      case TYPEDO => go := DoTypedo(s);
      case STORED => go := DoStored(s);
      case COPY => go := DoCopy(s);
      case TABLE => go := DoTable(s);
      case LENLENS => go := DoLenlens(s);
      case CODELENS => go := DoCodelens(s);
    }
    LessLeft(s, c0, s.before, put0);
  }

  // A state that reads symbols or writes bytes.
  method StepData(s: Inflater) returns (go: bool)
    requires s.Valid() && DataMode(s.mode)
    modifies s, s.lens, s.codes, s.output
    ensures s.Valid() && Reaches(old(s.Now()), s.Now())
    ensures s.input == old(s.input) && s.output == old(s.output) && s.before == old(s.before)
    ensures go ==> Left(s) < old(Left(s)) || (Left(s) <= old(Left(s)) && Rank(s.mode) < Rank(old(s.mode)))
    ensures !go ==> Blocked(s)
  {
    hide Step, ModeOk, TableFits, SlidingWindow.Holds, Inflater.Slack, Inflater.Tables, Inflater.FixedOk, Inflater.View, Reaches,
         Starved, ToBits, ByteBits, IsBytes;
    ghost var c0, put0 := s.Now(), s.put;
    match s.mode {
      case LEN =>
        if |s.input| - s.next >= 6 && s.output.Length - s.put >= MAX_MATCH {
          InflateFast.InflateFast(s);
          go := true;
        } else {
          go := DoLenSlow(s);
        }
      case LENEXT => go := DoLenext(s);
      case DIST => go := DoDist(s);
      case DISTEXT => go := DoDistext(s);
      case MATCH => go := DoMatch(s);
      case LIT => go := DoLit(s);
    }
    LessLeft(s, c0, s.before, put0);
  }

  /** One state of the machine; `go` unless the call must end. */
  method InflateStep(s: Inflater) returns (go: bool)
    requires s.Valid() && !s.mode.DONE? && !s.mode.BAD?
    modifies s, s.lens, s.codes, s.output
    ensures s.Valid() && Reaches(old(s.Now()), s.Now())
    ensures s.input == old(s.input) && s.output == old(s.output) && s.before == old(s.before)
    ensures go ==> Left(s) < old(Left(s)) || (Left(s) <= old(Left(s)) && Rank(s.mode) < Rank(old(s.mode)))
    ensures !go ==> Blocked(s)
  {
    hide Reaches, Inflater.Valid, Inflater.View, Blocked, Left, Rank;
    if InHeader(s.mode) {
      go := StepHeader(s);
    } else {
      go := StepData(s);
    }
  }

  // Steps until the call must end or the stream has ended.
  method InflateLoop(s: Inflater)
    requires s.Valid()
    modifies s, s.lens, s.codes, s.output
    ensures s.Valid() && Reaches(old(s.Now()), s.Now())
    ensures s.input == old(s.input) && s.output == old(s.output) && s.before == old(s.before)
    ensures s.mode.DONE? || s.mode.BAD? || Blocked(s)
    ensures old(s.mode.DONE? || s.mode.BAD?) ==> s.put == old(s.put)
  {
    hide Step, ModeOk, TableFits, SlidingWindow.Holds, Inflater.Slack, Inflater.Tables, Inflater.FixedOk, Inflater.View, Reaches,
         Blocked, ToBits, ByteBits, IsBytes;
    ghost var c0 := s.Now();
    StayValid(s);
    var go := true;
    while go && !s.mode.DONE? && !s.mode.BAD?
      invariant s.Valid() && Reaches(c0, s.Now())
      invariant s.input == old(s.input) && s.output == old(s.output) && s.before == old(s.before)
      invariant !go ==> Blocked(s)
      invariant old(s.mode.DONE? || s.mode.BAD?) ==> s.put == old(s.put) && s.mode == old(s.mode)
      decreases go, Left(s), Rank(s.mode)
    {
      ghost var c1 := s.Now();
      go := InflateStep(s);
      ReachesJoin(c0, c1, s.Now());
    }
  }

  // Between calls all output belongs to the history.
  ghost predicate Idle(s: Inflater)
    reads s, s.output, s.lens, s.codes, s.lenfix, s.distfix, s.lencode, s.distcode, s.window, s.window.data
  {
    s.Valid() && s.put == 0
  }

  /** The state between calls as the machine sees it, with `more` bytes of input to come. */
  ghost function Resting(s: Inflater, more: seq<nat>): Conf
    reads s, s.lens, s.window
    requires s.Shape()
  {
    Conf(s.View(), s.Held() + ByteBits(more), s.before)
  }

  // The call stopped because it had to: for want of input or of room.
  ghost predicate Stopped(s: Inflater, rest: seq<nat>, room: nat)
    reads s, s.lens, s.window
    requires s.Shape()
  {
    || s.mode.DONE? || s.mode.BAD?
    || (rest == [] && ConfOk(Resting(s, [])) && Next(Resting(s, [])).None?)
    || (room == 0 && (s.mode.COPY? || s.mode.MATCH? || s.mode.LIT?))
  }

  // New input for the next call.
  method SetInput(s: Inflater, input: seq<nat>)
    requires Idle(s) && IsBytes(input)
    modifies s`input, s`next
    ensures Idle(s) && s.input == input && s.next == 0 && Resting(s, input) == old(Resting(s, input))
  {
    hide TableFits, SlidingWindow.Holds, Step, ModeOk, Inflater.View, ToBits, ByteBits, FixedLit, FixedDist, IsBytes, Pow2;
    ViewOf(s);
    s.input, s.next := input, 0;
    ViewOf(s);
  }

  // New room for output.
  method SetOutput(s: Inflater, output: array<nat>)
    requires Idle(s) && s.next == 0 && output != s.lens && output != s.window.data
    modifies s`output, s`put
    ensures s.Valid() && s.output == output && s.put == 0 && s.Now() == old(Resting(s, s.input))
  {
    hide TableFits, SlidingWindow.Holds, Step, ModeOk, Inflater.View, ToBits, ByteBits, FixedLit, FixedDist, IsBytes, Pow2;
    ViewOf(s);
    assert s.output[..0] == [] && s.before + [] == s.before;
    s.output, s.put := output, 0;
    ViewOf(s);
    assert s.output[..0] == [] && s.before + [] == s.before && s.input[0..] == s.input;
  }

  // The window follows the output, unless it will not be needed.
  method FollowOutput(s: Inflater, finish: bool)
    requires s.Valid()
    requires s.mode.DONE? || s.mode.BAD? || s.window.Holds(s.before)
    requires s.window.wsize == 0 && s.put > 0 ==> s.window.Holds(s.before)
    modifies s.window, s.window.data
    ensures s.window.Holds(s.Hist()) || ((s.mode.DONE? || s.mode.BAD?) && s.window.wsize == 0)
  {
    hide TableFits, SlidingWindow.Holds, Step, ModeOk, Inflater.View, ToBits, ByteBits, FixedLit, FixedDist, IsBytes;
    var out := s.put;
    if s.window.wsize > 0 || (out > 0 && !s.mode.BAD? && (!s.mode.DONE? || !finish)) {
      assert s.output[out - out..out] == s.output[..out];
      s.window.UpdateWindow(s.output, out, out, s.before);
    } else {
      NotUpdated(s, out);
    }
  }

  // The output of the call joins the history.
  method Leave(s: Inflater, finish: bool)
    requires s.Valid()
    requires s.mode.DONE? || s.mode.BAD? || s.window.Holds(s.before)
    requires s.window.wsize == 0 && s.put > 0 ==> s.window.Holds(s.before)
    modifies s`before, s`put, s.window, s.window.data
    ensures Idle(s) && s.before == old(s.Hist())
    ensures Resting(s, s.input[s.next..]) == old(s.Now())
  {
    hide TableFits, SlidingWindow.Holds, Step, ModeOk, Inflater.View, ToBits, ByteBits, FixedLit, FixedDist, IsBytes;
    ViewOf(s);
    FollowOutput(s, finish);
    NextCall(s);
  }

  // The output of the call becomes part of the history.
  method NextCall(s: Inflater)
    requires s.Shape() && s.Regs() && s.FixedOk() && s.Tables() && IsBytes(s.Hist()) && ModeOk(s.View()) && s.Slack() && (s.mode.COPY? ==> s.bits == 0)
    requires s.window.Holds(s.Hist()) || ((s.mode.DONE? || s.mode.BAD?) && s.window.wsize == 0)
    modifies s`before, s`put
    ensures Idle(s) && s.before == old(s.Hist()) && Resting(s, s.input[s.next..]) == old(s.Now())
  {
    hide TableFits, SlidingWindow.Holds, Step, ModeOk, Inflater.View, ToBits, ByteBits, FixedLit, FixedDist, IsBytes;
    ViewOf(s);
    ghost var h := s.Hist();
    s.before := h;
    s.put := 0;
    assert s.output[..0] == [] && h + [] == h;
    ViewOf(s);
  }

  // Without an update there is nothing new, or nothing to come.
  lemma {:induction false} NotUpdated(s: Inflater, out: nat)
    requires s.Valid() && s.window.wsize == 0 && out == s.put
    ensures out == 0 ==> s.Hist() == s.before
  {
    assert s.output[..0] == [];
    assert s.before + [] == s.before;
  }

  /** One call of inflate: the machine runs on over the bits held and the new input, until the
      stream ends or fails, more input is needed, or the output buffer is full. */
  method Inflate(s: Inflater, input: seq<nat>, output: array<nat>, finish: bool)
    returns (ret: int, consumed: nat, produced: nat)
    requires Idle(s) && IsBytes(input) && output != s.lens && output != s.window.data
    modifies s, s.lens, s.codes, s.window, s.window.data, output
    ensures Idle(s) && consumed <= |input| && produced <= output.Length
    ensures s.before == old(s.before) + output[..produced]
    ensures Reaches(old(Resting(s, input)), Resting(s, input[consumed..]))
    ensures Stopped(s, input[consumed..], output.Length - produced)
    ensures ret == Z_STREAM_END <==> s.mode.DONE?
    ensures ret == Z_DATA_ERROR <==> s.mode.BAD?
    ensures ret == Z_BUF_ERROR <==> !s.mode.DONE? && !s.mode.BAD? && (finish || consumed + produced == 0)
    ensures ret == Z_OK || ret == Z_STREAM_END || ret == Z_DATA_ERROR || ret == Z_BUF_ERROR
  {
    hide TableFits, SlidingWindow.Holds, Step, ModeOk, Inflater.View, ToBits, ByteBits, FixedLit, FixedDist, IsBytes, Reaches;
    SetInput(s, input);
    SetOutput(s, output);
    assert s.mode.DONE? || s.mode.BAD? || s.window.Holds(s.before);
    InflateLoop(s);
    consumed, produced := s.next, s.put;
    Leave(s, finish);
    ret := if s.mode.DONE? then Z_STREAM_END else if s.mode.BAD? then Z_DATA_ERROR else Z_OK;
    if ((consumed == 0 && produced == 0) || finish) && ret == Z_OK {
      ret := Z_BUF_ERROR;
    }
  }
}
