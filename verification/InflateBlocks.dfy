/** The states of inflate that start a block or copy stored data (TYPEDO, STORED, COPY and
TABLE in inflate.c). */
module InflateBlocks {
  import opened Bits
  import opened Canonical
  import opened TableCells
  import opened CodeCounts
  import opened Inftrees
  import opened FixedCodes
  import opened Tokens
  import opened BlockMachine
  import opened RunReader
  import opened Blocks
  import opened Window
  import opened InflateState

  // A step of the machine, as a run.
  lemma {:induction false} StepRun(m: Mode, ahead: seq<bool>, hist: seq<nat>, mv: Move)
    requires ModeOk(m) && IsBytes(hist) && Step(m, ahead, hist) == Some(mv)
    ensures ModeOk(mv.mode) && IsBytes(hist + mv.out) && mv.used <= |ahead|
    ensures Reaches(Conf(m, ahead, hist), Conf(mv.mode, ahead[mv.used..], hist + mv.out))
  {
    hide Step, ModeOk;
    OneStep(Conf(m, ahead, hist), Conf(mv.mode, ahead[mv.used..], hist + mv.out));
  }

  // The call must end for want of input.
  ghost predicate Starved(s: Inflater)
    reads s, s.output, s.lens, s.window
  {
    && s.Shape() && s.Regs() && s.next == |s.input| && ConfOk(s.Now()) && Next(s.Now()).None?
  }

  lemma {:induction false} StarvedNow(s: Inflater)
    requires s.Shape() && s.Regs() && s.next == |s.input| && ModeOk(s.View()) && IsBytes(s.Hist())
    requires Step(s.View(), s.Held(), s.Hist()).None?
    ensures Starved(s)
  {
    hide Step, ModeOk;
    assert s.input[s.next..] == [];
    assert s.Held() + [] == s.Held();
  }

  // What a mode needs besides symbols.
  function Need(m: Mode): nat {
    match m
    case TypeDo(last) => if last then 0 else 3
    case Stored(_) => 32
    case Copy(_, left) => if left == 0 then 0 else 8
    case Table(_) => 14
    case LenLens(_, _, _, ncode, have) => if |have| < ncode then 3 else 0
    case LenExt(_, _, extra) => extra
    case DistExt(_, _, _, extra) => extra
    case _ => 0
  }

  predicate Needs(m: Mode) {
    m.TypeDo? || m.Stored? || m.Copy? || m.Table? || m.LenLens? || m.LenExt? || m.DistExt? || m.MatchCopy? || m.Lit?
  }

  lemma {:induction false} NeedMet(m: Mode, b: seq<bool>, hist: seq<nat>)
    requires ModeOk(m) && IsBytes(hist) && Needs(m) && |b| >= Need(m)
    ensures Step(m, b, hist).Some?
  {
    hide Rejected, Usable;
  }

  lemma {:induction false} NeedUnmet(m: Mode, b: seq<bool>, hist: seq<nat>)
    requires ModeOk(m) && IsBytes(hist) && Needs(m) && |b| < Need(m) && (m.Stored? ==> |b| % 8 == 0)
    ensures Step(m, b, hist).None?
  {
    hide Rejected, Usable;
  }

  // Few bits are held when they would be enough.
  lemma {:induction false} SlackBits(s: Inflater)
    requires s.Shape() && s.Regs() && IsBytes(s.Hist()) && ModeOk(s.View()) && s.Slack() && Needs(s.View())
    ensures s.bits < 8 || s.bits < Need(s.View())
  {
    hide Step, ModeOk;
    if s.bits >= Need(s.View()) {
      NeedMet(s.View(), s.Held(), s.Hist());
    }
  }

  lemma {:induction false} SlackFew(s: Inflater)
    requires s.Shape() && s.Regs() && IsBytes(s.Hist()) && ModeOk(s.View()) && s.bits < 8
    ensures s.Slack()
  {
  }

  // While bits are missing, holding them all is no slack.
  lemma {:induction false} SlackWaiting(s: Inflater)
    requires s.Shape() && s.Regs() && IsBytes(s.Hist()) && ModeOk(s.View()) && Needs(s.View())
    requires s.bits < Need(s.View()) && (s.mode.STORED? ==> s.bits % 8 == 0) && s.next == |s.input|
    ensures s.Slack() && Starved(s)
  {
    hide Step, ModeOk;
    NeedUnmet(s.View(), s.Held(), s.Hist());
    StarvedNow(s);
  }

  lemma {:induction false} Stay(s: Inflater)
    requires s.Shape() && s.Regs() && ConfOk(s.Now())
    ensures Reaches(s.Now(), s.Now())
  {
    NoStep(s.Now());
  }

  lemma {:induction false} StayPut(s: Inflater)
    requires s.Valid()
    ensures Reaches(s.Now(), s.Now())
  {
    hide Step, ModeOk, TableFits, SlidingWindow.Holds, Reaches;
    Stay(s);
  }

  lemma {:induction false} TypeMove(last: bool, a: seq<bool>, l: nat, kind: nat)
    requires |a| >= 3 && l == Num(a[..1]) && kind == Num(a[1..][..2])
    ensures BlockMove(TypeDo(last), a) ==
            Some(if last then Move(Done, |a| % 8, []) else Move(TypeEntry(l, kind), 3, []))
  {
    assert a[1..][..2] == a[1..3] && a[..1] == [a[0]];
    assert Num([a[0]]) == if a[0] then 1 else 0;
  }

  lemma {:induction false} AheadRest(s: Inflater)
    requires s.Regs()
    ensures |s.Ahead()| % 8 == s.bits % 8
  {
  }

  // All is well again, with few bits held, in a mode that needs no tables but the fixed ones.
  lemma {:induction false} Settle(s: Inflater)
    requires s.Shape() && s.Regs() && s.FixedOk() && IsBytes(s.Hist()) && s.bits < 8
    requires s.mode.TYPEDO? || s.mode.STORED? || s.mode.COPY? || s.mode.TABLE? || s.mode.DONE? || s.mode.BAD?
    requires s.window.Holds(s.before)
    requires s.mode.COPY? ==> s.bits == 0
    ensures s.Valid()
  {
    hide TableFits, Step, SlidingWindow.Holds;
  }

  // TYPEDO after the last block.
  method EndStream(s: Inflater)
    requires s.Valid() && s.mode.TYPEDO? && s.last
    modifies s`hold, s`bits, s`mode
    ensures s.Valid() && Reaches(old(s.Now()), s.Now()) && s.mode.DONE?
  {
    hide Step, ToBits, ByteBits, Inflater.Slack, TableFits, FixedLit, FixedDist, SlidingWindow.Holds, Reaches, Pow2, Num,
         IsBytes, Inflater.View, ModeOk;
    ghost var a, h := s.Ahead(), s.Hist();
    ViewOf(s);
    SlackBits(s);
    AheadRest(s);
    ByteEnd(s, a, h);
    var v := s.TakeBits(s.bits % 8);
    s.mode := DONE;
    ViewOf(s);
    Settle(s);
  }

  // TYPEDO before a block.
  method StartBlock(s: Inflater) returns (go: bool)
    requires s.Valid() && s.mode.TYPEDO? && !s.last
    modifies s`hold, s`bits, s`next, s`mode, s`last, s`lencode, s`lenbits, s`distcode, s`distoff, s`distbits, s`lit, s`dist
    ensures s.Valid() && Reaches(old(s.Now()), s.Now())
    ensures if go then |s.Ahead()| < |old(s.Ahead())| else Starved(s)
  {
    hide Step, ToBits, ByteBits, Inflater.Slack, SlidingWindow.Holds, Reaches, Pow2, Num, TableFits, FixedLit, FixedDist,
         IsBytes, Inflater.View, ModeOk, Starved, BlockMove;
    ghost var a, h := s.Ahead(), s.Hist();
    ViewOf(s);
    SlackBits(s);
    go := s.NeedBits(3);
    ViewOf(s);
    if !go {
      ModeFree(s.View());
      SlackWaiting(s);
      Stay(s);
      return;
    }
    ReadBlockType(s);
  }

  // The three bits are there.
  method ReadBlockType(s: Inflater)
    requires s.Shape() && s.Regs() && s.FixedOk() && IsBytes(s.Hist()) && s.window.Holds(s.before)
    requires s.mode.TYPEDO? && !s.last && 3 <= s.bits < 11
    modifies s`hold, s`bits, s`mode, s`last, s`lencode, s`lenbits, s`distcode, s`distoff, s`distbits, s`lit, s`dist
    ensures s.Valid() && Reaches(old(s.Now()), s.Now()) && |s.Ahead()| < |old(s.Ahead())|
  {
    hide Step, ToBits, ByteBits, Inflater.Slack, SlidingWindow.Holds, Reaches, Pow2, Num, TableFits, FixedLit, FixedDist,
         IsBytes, Inflater.View, ModeOk, Starved, BlockMove;
    ghost var a, h := s.Ahead(), s.Hist();
    ViewOf(s);
    var l := s.TakeBits(1);
    var kind := s.TakeBits(2);
    TypeMove(false, a, l, kind);
    EnterType(s, l, kind);
    TypeMode(l, kind);
    BlockStep(TypeDo(false), a, h, s.View(), 3);
    SettleType(s);
  }

  // The mode that a block type leads to.
  function TypeEntry(l: nat, kind: nat): Mode {
    if kind == 0 then Stored(l == 1)
    else if kind == 1 then Len(Codes(l == 1, FixedLit(), FixedDist()))
    else if kind == 2 then Table(l == 1)
    else Bad
  }

  lemma {:induction false} TypeMode(l: nat, kind: nat)
    ensures ModeOk(TypeEntry(l, kind))
  {
    FixedUsable();
    hide FixedLit, FixedDist, Rejected;
  }

  lemma {:induction false} SettleType(s: Inflater)
    requires s.Shape() && s.Regs() && s.FixedOk() && s.Tables() && IsBytes(s.Hist()) && s.window.Holds(s.before) && s.bits < 8
    requires ModeOk(s.View()) && !s.mode.COPY?
    ensures s.Valid()
  {
    hide TableFits, SlidingWindow.Holds, Step, ModeOk;
    SlackFew(s);
  }

  // fixedtables
  method UseFixed(s: Inflater)
    requires s.FixedOk()
    modifies s`lencode, s`lenbits, s`distcode, s`distoff, s`distbits, s`lit, s`dist
    ensures s.lit == FixedLit() && s.dist == FixedDist() && TableFits(LENS, s.lit, s.lencode[..], s.lenbits)
    ensures s.distoff <= s.distcode.Length && TableFits(DISTS, s.dist, s.distcode[s.distoff..], s.distbits)
  {
    hide TableFits, FixedLit, FixedDist;
    s.lencode, s.lenbits, s.distcode, s.distoff, s.distbits := s.lenfix, 9, s.distfix, 0, 5;
    s.lit, s.dist := FixedLit(), FixedDist();
    assert s.distfix[0..] == s.distfix[..];
  }

  // The field values of the mode after a block type.
  method EnterType(s: Inflater, l: nat, kind: nat)
    requires s.Shape() && s.mode.TYPEDO? && s.FixedOk()
    modifies s`mode, s`last, s`lencode, s`lenbits, s`distcode, s`distoff, s`distbits, s`lit, s`dist
    ensures s.Shape() && s.FixedOk() && s.Tables() && s.View() == TypeEntry(l, kind)
    ensures !s.mode.COPY?
  {
    hide TableFits, FixedLit, FixedDist;
    s.last := l == 1;
    if kind == 0 {
      s.mode := STORED;
    } else if kind == 1 {
      UseFixed(s);
      s.mode := LEN;
    } else if kind == 2 {
      s.mode := TABLE;
    } else {
      s.mode := BAD;
    }
  }

  /** TYPEDO: read the type of a block, or finish after the last one. */
  method DoTypedo(s: Inflater) returns (go: bool)
    requires s.Valid() && s.mode.TYPEDO?
    modifies s`hold, s`bits, s`next, s`mode, s`last, s`lencode, s`lenbits, s`distcode, s`distoff, s`distbits, s`lit, s`dist
    ensures s.Valid() && Reaches(old(s.Now()), s.Now())
    ensures if go then s.mode.DONE? || |s.Ahead()| < |old(s.Ahead())| else Starved(s)
  {
    hide Reaches, Starved, Step, ModeOk, TableFits, SlidingWindow.Holds;
    go := true;
    if s.last {
      EndStream(s);
    } else {
      go := StartBlock(s);
    }
  }

  lemma {:induction false} ByteEnd(s: Inflater, a: seq<bool>, h: seq<nat>)
    requires IsBytes(h)
    ensures Reaches(Conf(TypeDo(true), a, h), Conf(Done, a[|a| % 8..], h))
  {
    assert h + [] == h;
    StepRun(TypeDo(true), a, h, Move(Done, |a| % 8, []));
  }

  lemma {:induction false} BlockStep(m: Mode, a: seq<bool>, h: seq<nat>, m1: Mode, used: nat)
    requires (m.TypeDo? || m.Stored? || m.Copy? || m.Table?) && IsBytes(h)
    requires BlockMove(m, a) == Some(Move(m1, used, []))
    ensures ModeOk(m1) && used <= |a| && Reaches(Conf(m, a, h), Conf(m1, a[used..], h))
  {
    hide BlockMove, ModeOk;
    assert h + [] == h;
    ModeFree(m);
    StepRun(m, a, h, Move(m1, used, []));
  }

  lemma {:induction false} ModeFree(m: Mode)
    requires m.TypeDo? || m.Stored? || m.Copy? || m.Table?
    ensures ModeOk(m)
  {
  }

  // Aligning the bits of a stored block.
  lemma {:induction false} AlignRun(last: bool, a: seq<bool>, h: seq<nat>)
    requires IsBytes(h)
    ensures Reaches(Conf(Stored(last), a, h), Conf(Stored(last), a[|a| % 8..], h))
  {
    if |a| % 8 > 0 {
      BlockStep(Stored(last), a, h, Stored(last), |a| % 8);
    } else {
      assert a[0..] == a;
      NoStep(Conf(Stored(last), a, h));
    }
  }

  lemma {:induction false} StoredMove(last: bool, a: seq<bool>, lo: nat, hi: nat)
    requires |a| % 8 == 0 && |a| >= 32 && lo == Num(a[..16]) && hi == Num(a[16..32])
    ensures BlockMove(Stored(last), a) == Some(if lo != 65535 - hi then Move(Bad, 0, []) else Move(Copy(last, lo), 32, []))
  {
  }

  // The two halves of 32 bits held.
  lemma {:induction false} Halves(hold: nat, bits: nat, rest: seq<bool>)
    requires bits == 32 && hold < Pow2(bits)
    ensures Low(hold, 16) == Num((ToBits(hold, bits) + rest)[..16])
    ensures Shr(hold, 16) == Num((ToBits(hold, bits) + rest)[16..32])
    ensures (ToBits(hold, bits) + rest)[32..] == rest && Shr(hold, 16) < 65536 && Low(hold, 16) < 65536
  {
    Pow2Values();
    hide Pow2;
    ToBitsSplit(hold, 16, 16);
    NumToBits(hold, 16);
    ShrBound(hold, 16, 16);
    IndexString(Shr(hold, 16), 16);
    var b := ToBits(hold, bits) + rest;
    assert b[..16] == ToBits(hold, 16) && b[16..32] == ToBits(Shr(hold, 16), 16);
  }

  // The lengths of a stored block are at hand.
  method ReadStoredLengths(s: Inflater)
    requires s.Shape() && s.Regs() && s.FixedOk() && IsBytes(s.Hist()) && s.window.Holds(s.before)
    requires s.mode.STORED? && s.bits == 32
    modifies s`hold, s`bits, s`mode, s`length
    ensures s.Valid() && Reaches(old(s.Now()), s.Now()) && (s.mode.BAD? || |s.Ahead()| < |old(s.Ahead())|)
  {
    hide Step, ToBits, ByteBits, Inflater.Slack, SlidingWindow.Holds, Reaches, Pow2, Num, TableFits, FixedLit, FixedDist,
         IsBytes, Inflater.View, ModeOk, Starved, BlockMove;
    ghost var a, h := s.Ahead(), s.Hist();
    ViewOf(s);
    AheadRest(s);
    Halves(s.hold, s.bits, ByteBits(s.input[s.next..]));
    var lo, hi := Low(s.hold, 16), Shr(s.hold, 16);
    StoredMove(s.last, a, lo, hi);
    if lo != 65535 - hi {
      s.mode := BAD;
      ViewOf(s);
      assert a[0..] == a;
      BlockStep(Stored(s.last), a, h, Bad, 0);
      SlackBad(s);
    } else {
      s.length := lo;
      s.hold, s.bits := 0, 0;
      s.mode := COPY;
      ViewOf(s);
      NoneHeld(s.hold, ByteBits(s.input[s.next..]));
      PowPositive(0);
      BlockStep(Stored(s.last), a, h, Copy(s.last, lo), 32);
      Settle(s);
    }
  }

  lemma {:induction false} NoneHeld(h: nat, rest: seq<bool>)
    ensures ToBits(h, 0) + rest == rest
  {
  }

  lemma {:induction false} PowPositive(n: nat)
    ensures 0 < Pow2(n)
  {
  }

  lemma {:induction false} SlackBad(s: Inflater)
    requires s.Shape() && s.Regs() && IsBytes(s.Hist()) && s.mode.BAD?
    ensures ModeOk(s.View()) && s.Slack()
  {
  }

  /** STORED: go to the byte boundary and read the length twice. */
  method DoStored(s: Inflater) returns (go: bool)
    requires s.Valid() && s.mode.STORED?
    modifies s`hold, s`bits, s`next, s`mode, s`length
    ensures s.Valid() && Reaches(old(s.Now()), s.Now())
    ensures if go then s.mode.BAD? || |s.Ahead()| < |old(s.Ahead())| else Starved(s)
  {
    hide Step, ToBits, ByteBits, Inflater.Slack, SlidingWindow.Holds, Reaches, Pow2, Num, TableFits, FixedLit, FixedDist,
         IsBytes, Inflater.View, ModeOk, Starved;
    ghost var a, h, c0 := s.Ahead(), s.Hist(), s.Now();
    ViewOf(s);
    SlackBits(s);
    AlignRun(s.last, a, h);
    AheadRest(s);
    var v := s.TakeBits(s.bits % 8);
    go := s.NeedBits(32);
    ViewOf(s);
    ghost var c1 := s.Now();
    if !go {
      ModeFree(s.View());
      SlackWaiting(s);
      return;
    }
    ReadStoredLengths(s);
    ReachesJoin(c0, c1, s.Now());
  }

  lemma {:induction false} CopyRun(last: bool, left: nat, bytes: seq<nat>, rest: seq<bool>, hist: seq<nat>)
    requires IsBytes(bytes) && IsBytes(hist) && |bytes| <= left
    ensures IsBytes(hist + bytes)
    ensures Reaches(Conf(Copy(last, left), ByteBits(bytes) + rest, hist), Conf(Copy(last, left - |bytes|), rest, hist + bytes))
    decreases |bytes|
  {
    hide Reaches, ToBits, Num;
    var c := Conf(Copy(last, left), ByteBits(bytes) + rest, hist);
    if bytes == [] {
      assert c.bits == rest && hist + bytes == hist;
      NoStep(c);
    } else {
      var t := ByteBits(bytes[1..]) + rest;
      assert c.bits == ToBits(bytes[0], 8) + t;
      ReadByte(bytes[0], t);
      var d := Conf(Copy(last, left - 1), t, hist + [bytes[0]]);
      OneStep(c, d);
      CopyRun(last, left - 1, bytes[1..], rest, hist + [bytes[0]]);
      assert hist + [bytes[0]] + bytes[1..] == hist + bytes;
      ReachesJoin(c, d, Conf(Copy(last, left - |bytes|), rest, hist + bytes));
    }
  }

  // The call must end because the output buffer is full.
  ghost predicate Full(s: Inflater)
    reads s
  {
    s.put == s.output.Length && (s.mode.COPY? || s.mode.MATCH? || s.mode.LIT?)
  }

  // Copy bytes of input to the output.
  method CopyInput(s: Inflater, n: nat)
    requires s.Shape() && s.next + n <= |s.input| && s.put + n <= s.output.Length
    modifies s`next, s`put, s.output
    ensures s.next == old(s.next) + n && s.put == old(s.put) + n
    ensures s.output[..s.put] == old(s.output[..s.put]) + s.input[old(s.next)..s.next]
  {
    var i: nat := 0;
    ghost var o := s.output[..s.put];
    while i < n
      invariant i <= n && s.next == old(s.next) && s.put == old(s.put)
      invariant s.output[..s.put + i] == o + s.input[s.next..s.next + i]
    {
      s.output[s.put + i] := s.input[s.next + i];
      assert s.output[..s.put + i + 1] == s.output[..s.put + i] + [s.input[s.next + i]];
      i := i + 1;
    }
    s.next, s.put := s.next + n, s.put + n;
  }

  lemma {:induction false} BytesPart(s: seq<nat>, i: nat, j: nat)
    requires IsBytes(s) && i <= j <= |s|
    ensures IsBytes(s[i..j]) && ByteBits(s[i..]) == ByteBits(s[i..j]) + ByteBits(s[j..])
  {
    assert s[i..] == s[i..j] + s[j..];
    ByteBitsConcat(s[i..j], s[j..]);
  }

  /** COPY: as much of a stored block as there is input and room for. */
  method DoCopy(s: Inflater) returns (go: bool)
    requires s.Valid() && s.mode.COPY?
    modifies s`next, s`put, s`mode, s`length, s.output
    ensures s.Valid() && Reaches(old(s.Now()), s.Now())
    ensures !go ==> Starved(s) || Full(s)
    ensures go ==> s.mode.TYPEDO? || s.put > old(s.put)
    ensures s.output[..old(s.put)] == old(s.output[..s.put]) && s.put >= old(s.put)
  {
    hide Step, ToBits, ByteBits, Inflater.Slack, SlidingWindow.Holds, Reaches, Pow2, Num, TableFits, FixedLit, FixedDist,
         IsBytes, Inflater.View, ModeOk, Starved, BlockMove;
    ghost var a, h, c0 := s.Ahead(), s.Hist(), s.Now();
    ViewOf(s);
    var copy := s.length;
    go := true;
    if copy == 0 {
      s.mode := TYPEDO;
      ViewOf(s);
      CopyEnd(s.last, a, h);
      Settle(s);
      return;
    }
    if copy > |s.input| - s.next {
      copy := |s.input| - s.next;
    }
    if copy > s.output.Length - s.put {
      copy := s.output.Length - s.put;
    }
    if copy == 0 {
      Stay(s);
      if s.next == |s.input| {
        ModeFree(s.View());
        SlackWaiting(s);
      }
      return false;
    }
    CopySome(s, copy);
  }

  lemma {:induction false} CopyEnd(last: bool, a: seq<bool>, h: seq<nat>)
    requires IsBytes(h)
    ensures Reaches(Conf(Copy(last, 0), a, h), Conf(TypeDo(last), a, h))
  {
    assert a[0..] == a;
    BlockStep(Copy(last, 0), a, h, TypeDo(last), 0);
  }

  method CopySome(s: Inflater, copy: nat)
    requires s.Valid() && s.mode.COPY? && 0 < copy <= s.length
    requires s.next + copy <= |s.input| && s.put + copy <= s.output.Length
    modifies s`next, s`put, s`length, s.output
    ensures s.Valid() && Reaches(old(s.Now()), s.Now()) && s.put == old(s.put) + copy
    ensures s.output[..old(s.put)] == old(s.output[..s.put])
  {
    hide Step, ToBits, ByteBits, Inflater.Slack, SlidingWindow.Holds, Reaches, Pow2, Num, TableFits, FixedLit, FixedDist,
         IsBytes, Inflater.View, ModeOk, Starved, BlockMove;
    ghost var h, i, n := s.Hist(), s.next, s.next + copy;
    ViewOf(s);
    BytesPart(s.input, i, n);
    NoneHeld(s.hold, ByteBits(s.input[i..]));
    NoneHeld(s.hold, ByteBits(s.input[n..]));
    CopyRun(s.last, s.length, s.input[i..n], ByteBits(s.input[n..]), h);
    ghost var o := s.output[..s.put];
    CopyInput(s, copy);
    s.length := s.length - copy;
    ViewOf(s);
    assert s.before + (o + s.input[i..n]) == h + s.input[i..n];
    Settle(s);
  }

  lemma {:induction false} TableMove(last: bool, a: seq<bool>, x: nat, y: nat, z: nat)
    requires |a| >= 14 && x == Num(a[..5]) && y == Num(a[5..][..5]) && z == Num(a[5..][5..][..4])
    ensures a[5..][5..][4..] == a[14..]
    ensures BlockMove(Table(last), a) ==
            Some(Move(if 257 + x > 286 || 1 + y > 30 then Bad else LenLens(last, 257 + x, 1 + y, 4 + z, []), 14, []))
  {
    assert a[5..][..5] == a[5..10] && a[5..][5..][..4] == a[10..14];
  }

  /** TABLE: read how many lengths of each kind follow. */
  method DoTable(s: Inflater) returns (go: bool)
    requires s.Valid() && s.mode.TABLE?
    modifies s`hold, s`bits, s`next, s`mode, s`nlen, s`ndist, s`ncode, s`have
    ensures s.Valid() && Reaches(old(s.Now()), s.Now())
    ensures if go then |s.Ahead()| < |old(s.Ahead())| else Starved(s)
  {
    hide Step, ToBits, ByteBits, Inflater.Slack, SlidingWindow.Holds, Reaches, Pow2, Num, TableFits, FixedLit, FixedDist,
         IsBytes, Inflater.View, ModeOk, Starved;
    ViewOf(s);
    SlackBits(s);
    go := s.NeedBits(14);
    ViewOf(s);
    if !go {
      ModeFree(s.View());
      SlackWaiting(s);
      Stay(s);
      return;
    }
    ReadTable(s);
  }

  // The three counts of a header.
  method TakeCounts(s: Inflater) returns (x: nat, y: nat, z: nat)
    requires s.Regs() && 14 <= s.bits
    modifies s`hold, s`bits
    ensures s.Regs() && s.bits == old(s.bits) - 14 && s.Ahead() == old(s.Ahead())[14..] && |old(s.Ahead())| >= 14
    ensures BlockMove(Table(s.last), old(s.Ahead())) ==
            Some(Move(if 257 + x > 286 || 1 + y > 30 then Bad else LenLens(s.last, 257 + x, 1 + y, 4 + z, []), 14, []))
  {
    hide ToBits, ByteBits, Pow2, Num, BlockMove;
    ghost var a := s.Ahead();
    x := s.TakeBits(5);
    y := s.TakeBits(5);
    z := s.TakeBits(4);
    TableMove(s.last, a, x, y, z);
  }

  // The counts of a header are taken over, or refused.
  method NoteCounts(s: Inflater, x: nat, y: nat, z: nat)
    requires s.Shape() && s.Regs() && s.FixedOk() && IsBytes(s.Hist()) && s.window.Holds(s.before) && s.mode.TABLE?
    modifies s`mode, s`nlen, s`ndist, s`ncode, s`have
    ensures s.Shape() && s.Regs() && s.FixedOk() && s.Tables() && s.Hist() == old(s.Hist()) && s.window.Holds(s.before)
    ensures s.Ahead() == old(s.Ahead()) && (s.mode.BAD? || s.mode.LENLENS?)
    ensures s.View() == if 257 + x > 286 || 1 + y > 30 then Bad else LenLens(s.last, 257 + x, 1 + y, 4 + z, [])
  {
    hide ToBits, ByteBits, SlidingWindow.Holds, Pow2, TableFits, FixedLit, FixedDist, IsBytes, ModeOk, Inflater.View;
    s.nlen, s.ndist, s.ncode := x + 257, y + 1, z + 4;
    if s.nlen > 286 || s.ndist > 30 {
      s.mode := BAD;
    } else {
      s.have := 0;
      s.mode := LENLENS;
    }
    ViewOf(s);
  }

  method ReadTable(s: Inflater)
    requires s.Shape() && s.Regs() && s.FixedOk() && IsBytes(s.Hist()) && s.window.Holds(s.before)
    requires s.mode.TABLE? && 14 <= s.bits < 22
    modifies s`hold, s`bits, s`mode, s`nlen, s`ndist, s`ncode, s`have
    ensures s.Valid() && Reaches(old(s.Now()), s.Now()) && |s.Ahead()| < |old(s.Ahead())|
  {
    hide Step, ToBits, ByteBits, Inflater.Slack, SlidingWindow.Holds, Reaches, Pow2, Num, TableFits, FixedLit, FixedDist,
         IsBytes, Inflater.View, ModeOk, Starved, BlockMove;
    ghost var a, h := s.Ahead(), s.Hist();
    ViewOf(s);
    var x, y, z := TakeCounts(s);
    NoteCounts(s, x, y, z);
    BlockStep(Table(s.last), a, h, s.View(), 14);
    SlackFew(s);
  }
}
