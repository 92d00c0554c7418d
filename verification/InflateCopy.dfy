/** The states of inflate that write literals and copy matches (LIT and MATCH in inflate.c). */
module InflateCopy {
  import opened Bits
  import opened Canonical
  import opened TableCells
  import opened CodeCounts
  import opened Tokens
  import opened FixedCodes
  import opened BlockMachine
  import opened RunReader
  import opened Window
  import opened InflateState
  import opened InflateBlocks
  import opened InflateData

  // Where a match with `length` bytes to go stands.
  function Matching(c: Codes, length: nat, offset: nat): Mode {
    if length == 0 then Len(c) else MatchCopy(c, length, offset)
  }

  lemma {:induction false} CopyMove(c: Codes, length: nat, offset: nat, a: seq<bool>, h: seq<nat>)
    requires CodesOk(c) && IsBytes(h) && length > 0 && 0 < offset <= |h| && offset <= WINDOW
    ensures IsBytes(h + [h[|h| - offset]])
    ensures Reaches(Conf(Matching(c, length, offset), a, h), Conf(Matching(c, length - 1, offset), a, h + [h[|h| - offset]]))
  {
    hide CodesOk;
    var mv := Move(Matching(c, length - 1, offset), 0, [h[|h| - offset]]);
    assert DataMove(MatchCopy(c, length, offset), a, h) == Some(mv);
    assert a[0..] == a;
    DataStep(MatchCopy(c, length, offset), a, h, mv);
  }

  lemma {:induction false} MatchingOk(c: Codes, length: nat, offset: nat)
    requires CodesOk(c) && 0 < offset <= WINDOW
    ensures ModeOk(Matching(c, length, offset))
  {
  }

  /** The copy so far: `i` bytes of the match have been written. */
  ghost predicate Copying(s: Inflater, c0: Conf, c: Codes, length: nat, offset: nat, i: nat)
    reads s, s.output
  {
    && s.put <= s.output.Length && i <= length && IsBytes(s.Hist())
    && Reaches(c0, Conf(Matching(c, length - i, offset), c0.bits, s.Hist()))
  }

  lemma {:induction false} CopyingStart(s: Inflater, c0: Conf, c: Codes, length: nat, offset: nat)
    requires s.put <= s.output.Length && IsBytes(s.Hist()) && CodesOk(c) && 0 < offset <= WINDOW
    requires c0 == Conf(Matching(c, length, offset), c0.bits, s.Hist())
    ensures Copying(s, c0, c, length, offset, 0)
  {
    hide CodesOk, Matching;
    MatchingOk(c, length, offset);
    NoStep(c0);
  }

  // One byte of a match.
  method PutMatchByte(s: Inflater, x: nat, ghost c0: Conf, ghost c: Codes, ghost length: nat, ghost offset: nat, ghost i: nat)
    requires s.output != s.lens && s.put < s.output.Length && i < length && CodesOk(c) && 0 < offset <= |s.Hist()| && offset <= WINDOW
    requires Copying(s, c0, c, length, offset, i) && x == s.Hist()[|s.Hist()| - offset]
    modifies s`put, s.output
    ensures s.put == old(s.put) + 1 && Copying(s, c0, c, length, offset, i + 1)
    ensures s.output[..s.put] == old(s.output[..s.put]) + [x] && s.Hist() == old(s.Hist()) + [x]
  {
    hide CodesOk, Matching, Reaches, IsBytes;
    ghost var h, o := s.Hist(), s.output[..s.put];
    CopyMove(c, length - i, offset, c0.bits, h);
    s.output[s.put] := x;
    s.put := s.put + 1;
    assert s.output[..s.put] == o + [x];
    assert s.before + (o + [x]) == h + [x];
    ReachesJoin(c0, Conf(Matching(c, length - i, offset), c0.bits, h),
                Conf(Matching(c, length - i - 1, offset), c0.bits, h + [x]));
  }

  /** Copy `n` bytes of the match from the window. */
  method CopyFromWindow(s: Inflater, from: nat, n: nat, ghost c0: Conf, ghost c: Codes, ghost length: nat, ghost offset: nat, ghost i: nat)
    requires s.output != s.lens && s.output != s.window.data && s.put + n <= s.output.Length
    requires CodesOk(c) && 0 < offset <= |s.Hist()| && offset <= WINDOW
    requires Copying(s, c0, c, length, offset, i) && i + n <= length
    requires from + n <= s.window.data.Length && |s.Hist()| - offset + n <= |s.before|
    requires s.window.data[from..from + n] == s.before[|s.Hist()| - offset..|s.Hist()| - offset + n]
    modifies s`put, s.output
    ensures s.put == old(s.put) + n && Copying(s, c0, c, length, offset, i + n)
    ensures s.output[..old(s.put)] == old(s.output[..s.put])
  {
    hide CodesOk, Matching, Reaches, IsBytes, Copying;
    ghost var at, p := |s.Hist()| - offset, s.put;
    ghost var w := s.window.data[from..from + n];
    var k: nat := 0;
    while k < n
      invariant k <= n && s.put == p + k && Copying(s, c0, c, length, offset, i + k)
      invariant s.output[..p] == old(s.output[..s.put])
    {
      assert s.window.data[from + k] == w[k] == s.before[at + k];
      assert s.Hist()[at + k] == s.before[at + k];
      ghost var o := s.output[..s.put];
      PutMatchByte(s, s.window.data[from + k], c0, c, length, offset, i + k);
      assert s.output[..p] == s.output[..s.put][..p] == o[..p];
      k := k + 1;
    }
  }

  /** Copy `n` bytes of the match from the output, which may run into what it writes. */
  method CopyFromOutput(s: Inflater, n: nat, offset: nat, ghost c0: Conf, ghost c: Codes, ghost length: nat, ghost i: nat)
    requires s.output != s.lens && CodesOk(c) && 0 < offset <= s.put && offset <= WINDOW
    requires Copying(s, c0, c, length, offset, i) && i + n <= length && s.put + n <= s.output.Length
    modifies s`put, s.output
    ensures s.put == old(s.put) + n && Copying(s, c0, c, length, offset, i + n)
    ensures s.output[..old(s.put)] == old(s.output[..s.put])
  {
    hide CodesOk, Matching, Reaches, IsBytes, Copying;
    ghost var p := s.put;
    var k: nat := 0;
    while k < n
      invariant k <= n && s.put == p + k && Copying(s, c0, c, length, offset, i + k)
      invariant s.output[..p] == old(s.output[..s.put])
    {
      ghost var o := s.output[..s.put];
      assert o[s.put - offset] == s.output[s.put - offset];
      assert s.Hist()[|s.Hist()| - offset] == o[s.put - offset];
      PutMatchByte(s, s.output[s.put - offset], c0, c, length, offset, i + k);
      assert s.output[..p] == s.output[..s.put][..p] == o[..p];
      k := k + 1;
    }
  }

  // Where a byte of the window lies that is `back` bytes before the end of its history, and how many follow it.
  function WindowFrom(wsize: nat, next: nat, back: nat): nat
    requires back <= next || back - next <= wsize
  {
    if back > next then wsize - (back - next) else next - back
  }

  function WindowRun(next: nat, back: nat): nat {
    if back > next then back - next else back
  }

  /** A piece of the window is the piece of the history it stands for. */
  lemma {:induction false} WindowPiece(data: seq<nat>, wsize: nat, next: nat, have: nat, hist: seq<nat>, back: nat, n: nat)
    requires Recent(data, wsize, next, have, hist) && wsize > 0 && 0 < back <= have && n <= WindowRun(next, back)
    ensures back <= |hist| && WindowFrom(wsize, next, back) + n <= |data|
    ensures data[WindowFrom(wsize, next, back)..WindowFrom(wsize, next, back) + n] == hist[|hist| - back..|hist| - back + n]
  {
    LastPiece(hist, have, back, n);
    RingPiece(data, wsize, next, have, back, n);
  }

  lemma {:induction false} LastPiece(hist: seq<nat>, have: nat, back: nat, n: nat)
    requires n <= back <= have <= |hist|
    ensures LastN(hist, have)[have - back..have - back + n] == hist[|hist| - back..|hist| - back + n]
  {
  }

  lemma {:induction false} RingPiece(data: seq<nat>, wsize: nat, next: nat, have: nat, back: nat, n: nat)
    requires wsize == |data| && next < wsize && 0 < back <= have <= wsize && (have < wsize ==> next == have)
    requires n <= WindowRun(next, back)
    ensures n <= back && WindowFrom(wsize, next, back) + n <= |data|
    ensures Latest(data, next, have)[have - back..have - back + n] ==
            data[WindowFrom(wsize, next, back)..WindowFrom(wsize, next, back) + n]
  {
    var ring, i := Latest(data, next, have), have - back;
    if have == wsize && back > next {
      FrontPiece(data[next..], data[..next], i, n);
    } else if have == wsize {
      BackPiece(data[next..], data[..next], i, n);
    }
  }

  lemma {:induction false} FrontPiece(a: seq<nat>, b: seq<nat>, i: nat, n: nat)
    requires i + n <= |a|
    ensures (a + b)[i..i + n] == a[i..i + n]
  {
  }

  lemma {:induction false} BackPiece(a: seq<nat>, b: seq<nat>, i: nat, n: nat)
    requires |a| <= i && i + n <= |a| + |b|
    ensures (a + b)[i..i + n] == b[i - |a|..i - |a| + n]
  {
  }

  lemma {:induction false} HaveOf(w: SlidingWindow, hist: seq<nat>)
    requires w.Holds(hist)
    ensures w.whave == Min(WINDOW, |hist|) && w.wsize <= WINDOW && w.data.Length == WINDOW
    ensures w.whave > 0 ==> w.wsize > 0 && w.wnext < w.wsize && Recent(w.data[..], w.wsize, w.wnext, w.whave, hist)
  {
  }

  // Copy from the window what lies in one piece there, from `back` bytes before the output on.
  method CopyPiece(s: Inflater, back: nat, n: nat, ghost c0: Conf, ghost c: Codes, ghost length: nat, ghost offset: nat, ghost i: nat)
    requires s.output != s.lens && s.output != s.window.data && s.put + n <= s.output.Length && s.window.Holds(s.before)
    requires CodesOk(c) && 0 < back && offset == s.put + back && offset <= |s.Hist()| && offset <= WINDOW
    requires Copying(s, c0, c, length, offset, i) && i + n <= length && n <= WindowRun(s.window.wnext, back)
    modifies s`put, s.output
    ensures s.put == old(s.put) + n && Copying(s, c0, c, length, offset, i + n)
    ensures s.output[..old(s.put)] == old(s.output[..s.put])
  {
    hide Copying, CodesOk, IsBytes, Recent, SlidingWindow.Holds;
    HaveOf(s.window, s.before);
    WindowPiece(s.window.data[..], s.window.wsize, s.window.wnext, s.window.whave, s.before, back, n);
    CopyFromWindow(s, WindowFrom(s.window.wsize, s.window.wnext, back), n, c0, c, length, offset, i);
  }

  /** LIT: write a literal. */
  method DoLit(s: Inflater) returns (go: bool)
    requires s.Valid() && s.mode.LIT?
    modifies s`put, s`mode, s.output
    ensures s.Valid() && Reaches(old(s.Now()), s.Now())
    ensures if go then s.mode.LEN? && s.put == old(s.put) + 1 else Full(s)
    ensures s.output[..old(s.put)] == old(s.output[..s.put]) && s.put >= old(s.put)
  {
    hide Step, ToBits, ByteBits, SlidingWindow.Holds, Reaches, Pow2, Num, TableFits, FixedLit, FixedDist,
         Inflater.View, DataMove, CodesOk;
    ViewOf(s);
    ValidDecoding(s);
    go := s.put < s.output.Length;
    if !go {
      Stay(s);
      return;
    }
    WriteLit(s);
  }

  lemma {:induction false} LitMove(c: Codes, x: nat, a: seq<bool>, h: seq<nat>)
    requires CodesOk(c) && IsBytes(h) && x < 256
    ensures IsBytes(h + [x]) && Reaches(Conf(Lit(c, x), a, h), Conf(Len(c), a, h + [x]))
  {
    hide CodesOk;
    assert a[0..] == a;
    DataStep(Lit(c, x), a, h, Move(Len(c), 0, [x]));
  }

  method WriteLit(s: Inflater)
    requires s.Valid() && s.mode.LIT? && s.put < s.output.Length
    modifies s`put, s`mode, s.output
    ensures s.Valid() && Reaches(old(s.Now()), s.Now()) && s.mode.LEN? && s.put == old(s.put) + 1
    ensures s.output[..old(s.put)] == old(s.output[..s.put])
  {
    hide Step, ToBits, ByteBits, SlidingWindow.Holds, Reaches, Pow2, Num, TableFits, FixedLit, FixedDist,
         Inflater.View, DataMove, CodesOk, IsBytes;
    ViewOf(s);
    ValidDecoding(s);
    LitBits(s);
    ghost var c, a, h, o := Codes(s.last, s.lit, s.dist), s.Ahead(), s.Hist(), s.output[..s.put];
    LitMove(c, s.length, a, h);
    s.output[s.put] := s.length;
    s.put := s.put + 1;
    s.mode := LEN;
    assert s.output[..s.put] == o + [s.length];
    assert s.before + (o + [s.length]) == h + [s.length];
    ViewOf(s);
    SettleData(s);
  }

  lemma {:induction false} LitBits(s: Inflater)
    requires s.Valid() && s.mode.LIT?
    ensures s.bits < 8 && s.length < 256 && CodesOk(Codes(s.last, s.lit, s.dist))
  {
    hide TableFits, SlidingWindow.Holds, Usable, Find;
  }

  lemma {:induction false} TooFarMove(c: Codes, length: nat, offset: nat, a: seq<bool>, h: seq<nat>)
    requires CodesOk(c) && IsBytes(h) && length > 0 && 0 < offset <= WINDOW && offset > |h|
    ensures Reaches(Conf(MatchCopy(c, length, offset), a, h), Conf(Bad, a, h))
  {
    hide CodesOk;
    assert a[0..] == a && h + [] == h;
    DataStep(MatchCopy(c, length, offset), a, h, Move(Bad, 0, []));
  }

  lemma {:induction false} MatchFacts(s: Inflater)
    requires s.Valid() && s.mode.MATCH?
    ensures s.bits < 8 && s.length > 0 && 0 < s.offset <= WINDOW && CodesOk(Codes(s.last, s.lit, s.dist))
  {
    hide TableFits, SlidingWindow.Holds, Usable, Find;
    if s.bits >= 8 {
      NeedMet(s.View(), s.Held(), s.Hist());
    }
  }

  // The distance is too far when it goes beyond the window.
  lemma {:induction false} TooFar(put: nat, offset: nat, have: nat, before: nat)
    requires have == Min(WINDOW, before) && offset <= WINDOW
    ensures (offset > put && offset - put > have) <==> offset > before + put
  {
  }

  // As much of the match as is in one place and has room.
  method CopyMatch(s: Inflater, ghost c0: Conf, ghost c: Codes) returns (n: nat)
    requires InBlock(s) && s.put < s.output.Length && c == Codes(s.last, s.lit, s.dist) && s.length > 0
    requires 0 < s.offset <= |s.Hist()| && s.offset <= WINDOW && Copying(s, c0, c, s.length, s.offset, 0)
    modifies s`put, s.output
    ensures 0 < n <= s.length && s.put == old(s.put) + n && Copying(s, c0, c, s.length, s.offset, n)
    ensures s.output[..old(s.put)] == old(s.output[..s.put])
  {
    hide Copying, CodesOk, BlockTables, Inflater.FixedOk, IsBytes, Recent, SlidingWindow.Holds, Pow2;
    var copy := s.length;
    if s.offset > s.put {
      var back := s.offset - s.put;
      copy := WindowRun(s.window.wnext, back);
      if copy > s.length {
        copy := s.length;
      }
      if copy > s.output.Length - s.put {
        copy := s.output.Length - s.put;
      }
      CopyPiece(s, back, copy, c0, c, s.length, s.offset, 0);
    } else {
      if copy > s.output.Length - s.put {
        copy := s.output.Length - s.put;
      }
      CopyFromOutput(s, copy, s.offset, c0, c, s.length, 0);
    }
    n := copy;
  }

  lemma {:induction false} CopiedSome(s: Inflater, c0: Conf, c: Codes, length: nat, offset: nat, n: nat)
    requires Copying(s, c0, c, length, offset, n)
    ensures n <= length && s.put <= s.output.Length && IsBytes(s.Hist())
    ensures Reaches(c0, Conf(Matching(c, length - n, offset), c0.bits, s.Hist()))
  {
  }

  // The distance goes too far back.
  method RefuseFar(s: Inflater)
    requires s.Valid() && s.mode.MATCH? && s.offset > |s.Hist()|
    modifies s`mode
    ensures s.Valid() && Reaches(old(s.Now()), s.Now()) && s.mode.BAD?
  {
    hide Step, ToBits, ByteBits, SlidingWindow.Holds, Reaches, Pow2, Num, TableFits, FixedLit, FixedDist,
         Inflater.View, DataMove, CodesOk, IsBytes;
    ViewOf(s);
    ValidDecoding(s);
    MatchFacts(s);
    TooFarMove(Codes(s.last, s.lit, s.dist), s.length, s.offset, s.Ahead(), s.Hist());
    s.mode := BAD;
    ViewOf(s);
    SettleData(s);
  }

  // `n` bytes of the match have been copied.
  method EndCopy(s: Inflater, n: nat)
    requires InBlock(s) && s.mode.MATCH? && n <= s.length && s.bits < 8 && 0 < s.offset <= WINDOW
    modifies s`mode, s`length
    ensures s.Valid() && s.View() == Matching(Codes(s.last, s.lit, s.dist), old(s.length) - n, s.offset)
  {
    hide Step, ToBits, ByteBits, SlidingWindow.Holds, Pow2, Num, TableFits, FixedLit, FixedDist,
         Inflater.View, CodesOk, IsBytes, ModeOk;
    MatchingOk(Codes(s.last, s.lit, s.dist), s.length - n, s.offset);
    s.length := s.length - n;
    if s.length == 0 {
      s.mode := LEN;
    }
    ViewOf(s);
    SettleData(s);
  }

  // A match to be copied, as seen by the copying methods.
  lemma {:induction false} MatchStart(s: Inflater)
    requires s.Valid() && s.mode.MATCH?
    ensures InBlock(s) && s.bits < 8 && s.length > 0 && 0 < s.offset <= WINDOW
    ensures s.offset <= |s.Hist()| ==> Copying(s, s.Now(), Codes(s.last, s.lit, s.dist), s.length, s.offset, 0)
    ensures s.Now() == Conf(Matching(Codes(s.last, s.lit, s.dist), s.length, s.offset), s.Ahead(), s.Hist())
  {
    hide Step, ToBits, ByteBits, SlidingWindow.Holds, Reaches, Pow2, Num, TableFits, FixedLit, FixedDist,
         Inflater.View, DataMove, CodesOk, IsBytes, Copying;
    ViewOf(s);
    ValidDecoding(s);
    MatchFacts(s);
    if s.offset <= |s.Hist()| {
      CopyingStart(s, s.Now(), Codes(s.last, s.lit, s.dist), s.length, s.offset);
    }
  }

  // Copy what can be copied, and go on.
  method CopyPart(s: Inflater)
    requires s.Valid() && s.mode.MATCH? && s.offset <= |s.Hist()| && s.put < s.output.Length
    modifies s`put, s`mode, s`length, s.output
    ensures s.Valid() && Reaches(old(s.Now()), s.Now()) && s.put > old(s.put)
    ensures s.output[..old(s.put)] == old(s.output[..s.put])
  {
    hide Step, ToBits, ByteBits, SlidingWindow.Holds, Reaches, Pow2, Num, TableFits, FixedLit, FixedDist,
         Inflater.View, Inflater.Valid, DataMove, CodesOk, IsBytes, Copying, ModeOk;
    MatchStart(s);
    ghost var c, c0 := Codes(s.last, s.lit, s.dist), s.Now();
    var n := CopyMatch(s, c0, c);
    CopiedSome(s, c0, c, s.length, s.offset, n);
    EndCopy(s, n);
  }

  lemma {:induction false} FarFacts(s: Inflater)
    requires s.Valid() && s.mode.MATCH?
    ensures (s.offset > s.put && s.offset - s.put > s.window.whave) <==> s.offset > |s.Hist()|
  {
    hide Step, SlidingWindow.Holds, TableFits, Inflater.View, CodesOk, IsBytes;
    MatchFacts(s);
    ValidDecoding(s);
    HaveOf(s.window, s.before);
    TooFar(s.put, s.offset, s.window.whave, |s.before|);
  }

  /** MATCH: copy as much of the match as there is room for, from the window or the output. */
  method DoMatch(s: Inflater) returns (go: bool)
    requires s.Valid() && s.mode.MATCH?
    modifies s`put, s`mode, s`length, s.output
    ensures s.Valid() && Reaches(old(s.Now()), s.Now())
    ensures if go then s.mode.BAD? || s.put > old(s.put) else Full(s)
    ensures s.output[..old(s.put)] == old(s.output[..s.put]) && s.put >= old(s.put)
  {
    hide Reaches, Inflater.FixedOk, Inflater.Tables, Inflater.Slack, Inflater.View, SlidingWindow.Holds, IsBytes, ModeOk, Step;
    FarFacts(s);
    go := s.put < s.output.Length;
    if !go {
      StayPut(s);
    } else if s.offset > s.put && s.offset - s.put > s.window.whave {
      RefuseFar(s);
    } else {
      CopyPart(s);
    }
  }
}
