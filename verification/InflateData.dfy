/** The states of inflate that decode literals and matches (LEN to LIT in inflate.c). */
module InflateData {
  import opened Bits
  import opened Canonical
  import opened TableCells
  import opened CodeCounts
  import opened Inftrees
  import opened FixedCodes
  import opened Tokens
  import opened BlockMachine
  import opened RunReader
  import opened Lookup
  import opened Window
  import opened InflateState
  import opened Decoding
  import opened InflateBlocks

  // What a literal or length entry leads to.
  function LenEntry(c: Codes, e: Code): Mode {
    if e.op == 0 then Lit(c, e.val)
    else if e.op / 32 % 2 == 1 then TypeDo(c.last)
    else if e.op / 64 % 2 == 1 then Bad
    else LenExt(c, e.val, e.op % 16)
  }

  function DistEntry(c: Codes, length: nat, e: Code): Mode {
    if e.op / 64 % 2 == 1 then Bad else DistExt(c, length, e.val, e.op % 16)
  }

  lemma {:induction false} LenEntryIs(c: Codes, sym: nat, n: nat)
    requires CodesOk(c) && sym < 288
    ensures LenEntry(c, Here(LENS, sym, n)) == AfterLit(c, sym) && LenEntry(c, INVALID) == Bad
    ensures Here(LENS, sym, n).bits == n
  {
    hide CodesOk;
  }

  lemma {:induction false} DistEntryIs(c: Codes, length: nat, sym: nat, n: nat)
    requires CodesOk(c) && sym < 32 && length > 0
    ensures DistEntry(c, length, Here(DISTS, sym, n)) == AfterDist(c, length, sym) && DistEntry(c, length, INVALID) == Bad
    ensures Here(DISTS, sym, n).bits == n
  {
    hide CodesOk;
  }

  lemma {:induction false} DataStep(m: Mode, a: seq<bool>, h: seq<nat>, mv: Move)
    requires (m.Len? || m.LenExt? || m.Dist? || m.DistExt? || m.MatchCopy? || m.Lit?) && ModeOk(m) && IsBytes(h)
    requires DataMove(m, a, h) == Some(mv)
    ensures ModeOk(mv.mode) && mv.used <= |a| && IsBytes(h + mv.out)
    ensures Reaches(Conf(m, a, h), Conf(mv.mode, a[mv.used..], h + mv.out))
  {
    hide DataMove, ModeOk;
    StepRun(m, a, h, mv);
  }

  // Few bits stay behind a symbol.
  lemma {:induction false} SymbolSlack(kind: CodeType, l: seq<nat>, held0: seq<bool>, held1: seq<bool>, drop: nat, e: Code)
    requires Usable(kind, l) && held0 <= held1 && Pulled(l, |held0|, held1) && (|held0| < 8 || Find(l, held0) == More)
    requires Resolved(kind, l, held1, drop, e) && drop + e.bits <= |held1|
    ensures |held1| < drop + e.bits + 8
  {
    hide Here, Rejected;
    assert |held0| == |held1| ==> held0 == held1;
    HereOf(kind, l, held1, drop, e);
    if |held1| >= drop + e.bits + 8 {
      var p := held1[..|held1| - 8];
      if Find(l, held1).Sym? {
        assert Starts(l, Find(l, held1).s, p);
        FindIs(kind, l, Find(l, held1).s, p);
      } else {
        NonePrefix(l, p, held1);
      }
    }
  }

  lemma {:induction false} NonePrefix(l: seq<nat>, p: seq<bool>, held: seq<bool>)
    requires LensOk(l) && Find(l, held) == NoCode && p <= held && p != []
    ensures Find(l, p) == NoCode
  {
    if s: nat :| Starts(l, s, p) {
      assert Starts(l, s, held);
    }
  }

  lemma {:induction false} HereOf(kind: CodeType, l: seq<nat>, held: seq<bool>, drop: nat, e: Code)
    requires LensOk(l) && |l| <= MaxSyms(kind) && Resolved(kind, l, held, drop, e) && drop + e.bits <= |held|
    ensures Find(l, held).Sym? ==> Find(l, held).s < |l| && l[Find(l, held).s] == drop + e.bits > 0
    ensures Find(l, held).Sym? ==> e == Here(kind, Find(l, held).s, e.bits)
    ensures !Find(l, held).Sym? ==> Find(l, held) == NoCode && drop == 0 && e == INVALID && e.bits == 1
  {
  }

  lemma {:induction false} FoundAhead(kind: CodeType, l: seq<nat>, held: seq<bool>, a: seq<bool>)
    requires Usable(kind, l) && held <= a && Find(l, held) != More
    ensures Find(l, a) == Find(l, held)
  {
    FindMore(kind, l, held, a[|held|..]);
    assert held + a[|held|..] == a;
  }

  // The step of LEN, from the entry found.
  lemma {:induction false} LenMove(c: Codes, held: seq<bool>, a: seq<bool>, h: seq<nat>, drop: nat, e: Code)
    requires CodesOk(c) && IsBytes(h) && held <= a && LensOk(c.lit) && |c.lit| <= 288
    requires Resolved(LENS, c.lit, held, drop, e) && drop + e.bits <= |held|
    ensures DataMove(Len(c), a, h) == Some(Move(LenEntry(c, e), drop + e.bits, []))
  {
    hide Here, Rejected, LenEntry, AfterLit, Find;
    HereOf(LENS, c.lit, held, drop, e);
    FoundAhead(LENS, c.lit, held, a);
    if Find(c.lit, held).Sym? {
      LenEntryIs(c, Find(c.lit, held).s, e.bits);
    } else {
      LenEntryIs(c, 0, 0);
    }
  }

  lemma {:induction false} DistMove(c: Codes, length: nat, held: seq<bool>, a: seq<bool>, h: seq<nat>, drop: nat, e: Code)
    requires CodesOk(c) && IsBytes(h) && held <= a && LensOk(c.dist) && |c.dist| <= 32 && length > 0
    requires Resolved(DISTS, c.dist, held, drop, e) && drop + e.bits <= |held|
    ensures DataMove(Dist(c, length), a, h) == Some(Move(DistEntry(c, length, e), drop + e.bits, []))
  {
    hide Here, Rejected, DistEntry, AfterDist, Find;
    HereOf(DISTS, c.dist, held, drop, e);
    FoundAhead(DISTS, c.dist, held, a);
    if Find(c.dist, held).Sym? {
      DistEntryIs(c, length, Find(c.dist, held).s, e.bits);
    } else {
      DistEntryIs(c, length, 0, 0);
    }
  }

  // What holds while a block is being decoded.
  ghost predicate InBlock(s: Inflater)
    reads s, s.output, s.lens, s.lenfix, s.distfix, s.lencode, s.distcode, s.window, s.window.data
  {
    && s.Shape() && s.Regs() && s.FixedOk() && IsBytes(s.Hist()) && s.window.Holds(s.before)
    && CodesOk(Codes(s.last, s.lit, s.dist)) && BlockTables(s)
  }

  ghost predicate BlockTables(s: Inflater)
    reads s, s.lencode, s.distcode
  {
    && TableFits(LENS, s.lit, s.lencode[..], s.lenbits)
    && s.distoff <= s.distcode.Length && TableFits(DISTS, s.dist, s.distcode[s.distoff..], s.distbits)
  }

  predicate DataMode(m: Op) {
    m.LEN? || m.LENEXT? || m.DIST? || m.DISTEXT? || m.MATCH? || m.LIT?
  }

  lemma {:induction false} ValidDecoding(s: Inflater)
    requires s.Valid() && DataMode(s.mode)
    ensures InBlock(s)
  {
    hide TableFits, SlidingWindow.Holds, Usable, Step;
  }

  // Well again in any mode, with few bits held.
  lemma {:induction false} SettleData(s: Inflater)
    requires InBlock(s) && s.bits < 8 && ModeOk(s.View())
    requires DataMode(s.mode) || s.mode.TYPEDO? || s.mode.BAD?
    ensures s.Valid()
  {
    hide TableFits, SlidingWindow.Holds, Usable, Step;
  }

  lemma {:induction false} LitOk(c: Codes)
    requires CodesOk(c)
    ensures LensOk(c.lit) && |c.lit| <= 288 && LensOk(c.dist) && |c.dist| <= 32
    ensures Usable(LENS, c.lit) && Usable(DISTS, c.dist)
  {
  }

  lemma {:induction false} WaitingLen(s: Inflater)
    requires s.Shape() && s.Regs() && IsBytes(s.Hist()) && ModeOk(s.View()) && s.mode.LEN?
    requires s.next == |s.input| && Find(s.lit, s.Held()) == More
    ensures s.Slack() && Starved(s)
  {
    hide Find, Usable;
    StarvedNow(s);
  }

  lemma {:induction false} LenSlack(s: Inflater)
    requires s.Shape() && s.Regs() && IsBytes(s.Hist()) && ModeOk(s.View()) && s.mode.LEN? && s.Slack()
    ensures s.bits < 8 || Find(s.lit, s.Held()) == More
  {
    hide Find, Usable;
  }

  // The field values of the mode after a literal or length entry.
  method EnterLen(s: Inflater, here: Code)
    requires s.Shape() && s.mode.LEN?
    modifies s`mode, s`length, s`extra
    ensures s.Shape() && s.View() == LenEntry(Codes(s.last, s.lit, s.dist), here)
    ensures s.mode.LIT? || s.mode.TYPEDO? || s.mode.BAD? || s.mode.LENEXT?
  {
    s.length := here.val;
    if here.op == 0 {
      s.mode := LIT;
    } else if here.op / 32 % 2 == 1 {
      s.mode := TYPEDO;
    } else if here.op / 64 % 2 == 1 {
      s.mode := BAD;
    } else {
      s.extra := here.op % 16;
      s.mode := LENEXT;
    }
  }

  // A symbol that was found in the literal code.
  lemma {:induction false} FoundLen(s: Inflater, held0: seq<bool>, here: Code, drop: nat)
    requires InBlock(s) && s.mode.LEN? && held0 <= s.Held() && Pulled(s.lit, |held0|, s.Held())
    requires |held0| < 8 || Find(s.lit, held0) == More
    requires LensOk(s.lit) && |s.lit| <= 288 && drop + here.bits <= s.bits && Resolved(LENS, s.lit, s.Held(), drop, here)
    ensures LenFound(s, here, drop)
  {
    hide ToBits, ByteBits, SlidingWindow.Holds, Pow2, TableFits, FixedLit, FixedDist, IsBytes, DataMove, Find, Pulled, Resolved,
         LenEntry, CodesOk, LensOk;
    var c := Codes(s.last, s.lit, s.dist);
    LitOk(c);
    LenMove(c, s.Held(), s.Ahead(), s.Hist(), drop, here);
    SymbolSlack(LENS, s.lit, held0, s.Held(), drop, here);
    HereOf(LENS, s.lit, s.Held(), drop, here);
  }

  // Find the entry of the next literal or length symbol.
  method LookLen(s: Inflater) returns (go: bool, here: Code, drop: nat)
    requires s.Valid() && s.mode.LEN?
    modifies s`hold, s`bits, s`next
    ensures s.Shape() && s.Regs() && s.Now() == old(s.Now())
    ensures go ==> LenFound(s, here, drop)
    ensures !go ==> s.Valid() && Starved(s)
  {
    hide Step, ToBits, ByteBits, Inflater.Slack, SlidingWindow.Holds, Pow2, Num, TableFits, FixedLit, FixedDist,
         IsBytes, Inflater.View, Starved, DataMove, Find, Pulled, Resolved, LenEntry, CodesOk, LensOk, LenFound;
    ViewOf(s);
    ValidDecoding(s);
    LenSlack(s);
    ghost var held0 := s.Held();
    LitOk(Codes(s.last, s.lit, s.dist));
    assert s.lencode[0..] == s.lencode[..];
    go, here, drop := FindSymbol(s, LENS, s.lencode, 0, s.lenbits, s.lit);
    ViewOf(s);
    if !go {
      WaitingLen(s);
      Stay(s);
      return;
    }
    FoundLen(s, held0, here, drop);
  }

  // The entry tells the next step; few bits stay behind it.
  ghost predicate LenFound(s: Inflater, here: Code, drop: nat)
    reads s, s.output, s.lens, s.lenfix, s.distfix, s.lencode, s.distcode, s.window, s.window.data
  {
    var c := Codes(s.last, s.lit, s.dist);
    && InBlock(s) && s.mode.LEN? && 0 < drop + here.bits <= s.bits < drop + here.bits + 8
    && DataMove(Len(c), s.Ahead(), s.Hist()) == Some(Move(LenEntry(c, here), drop + here.bits, []))
  }

  // Take its bits and enter the next state.
  method TakeLen(s: Inflater, here: Code, drop: nat)
    requires LenFound(s, here, drop)
    modifies s`hold, s`bits, s`mode, s`length, s`extra
    ensures s.Valid() && Reaches(old(s.Now()), s.Now())
    ensures s.mode.LIT? || s.mode.TYPEDO? || s.mode.BAD? || s.mode.LENEXT?
    ensures |s.Ahead()| < |old(s.Ahead())|
  {
    hide Step, ToBits, ByteBits, Inflater.Slack, SlidingWindow.Holds, Reaches, Pow2, Num, TableFits, FixedLit, FixedDist,
         IsBytes, Inflater.View, DataMove, LenEntry, CodesOk, LensOk;
    ViewOf(s);
    ghost var c, a, h := Codes(s.last, s.lit, s.dist), s.Ahead(), s.Hist();
    TakeSymbol(s, drop, here.bits);
    assert h + [] == h;
    DataStep(Len(c), a, h, Move(LenEntry(c, here), drop + here.bits, []));
    SettleLen(s, here);
  }

  method SettleLen(s: Inflater, here: Code)
    requires InBlock(s) && s.mode.LEN? && s.bits < 8 && ModeOk(LenEntry(Codes(s.last, s.lit, s.dist), here))
    modifies s`mode, s`length, s`extra
    ensures s.Valid() && s.View() == LenEntry(Codes(s.last, s.lit, s.dist), here)
    ensures s.mode.LIT? || s.mode.TYPEDO? || s.mode.BAD? || s.mode.LENEXT?
  {
    hide Step, ToBits, ByteBits, SlidingWindow.Holds, Pow2, TableFits, FixedLit, FixedDist,
         IsBytes, Inflater.View, LenEntry, CodesOk, LensOk, ModeOk;
    EnterLen(s, here);
    SettleData(s);
  }

  /** LEN, the slow way: decode one literal or length symbol. */
  method DoLenSlow(s: Inflater) returns (go: bool)
    requires s.Valid() && s.mode.LEN?
    modifies s`hold, s`bits, s`next, s`mode, s`length, s`extra
    ensures s.Valid() && Reaches(old(s.Now()), s.Now())
    ensures if go then s.mode.LIT? || s.mode.TYPEDO? || s.mode.BAD? || s.mode.LENEXT? else Starved(s)
    ensures go ==> |s.Ahead()| < |old(s.Ahead())|
  {
    hide Reaches, Starved, LenFound, Inflater.Valid, Inflater.View;
    var here, drop;
    go, here, drop := LookLen(s);
    if go {
      TakeLen(s, here, drop);
    } else {
      StayPut(s);
    }
  }

  // Drop the bits of a symbol: those of the link, and those of the entry.
  method TakeSymbol(s: Inflater, drop: nat, n: nat)
    requires s.Regs() && drop + n <= s.bits
    modifies s`hold, s`bits
    ensures s.Regs() && s.bits == old(s.bits) - (drop + n) && s.Ahead() == old(s.Ahead())[drop + n..]
  {
    hide ToBits, ByteBits, Pow2, Num;
    ghost var a := s.Ahead();
    var v := s.TakeBits(drop);
    v := s.TakeBits(n);
    assert a[drop..][n..] == a[drop + n..];
  }

  lemma {:induction false} ExtMove(m: Mode, a: seq<bool>, h: seq<nat>, v: nat)
    requires (m.LenExt? || m.DistExt?) && ModeOk(m) && IsBytes(h) && |a| >= m.extra && v == Num(a[..m.extra])
    ensures DataMove(m, a, h) ==
            Some(Move(if m.LenExt? then Dist(m.codes, m.length + v) else MatchCopy(m.codes, m.length, m.offset + v), m.extra, []))
  {
  }

  // The extra bits of a length or a distance, none if there are none.
  method TakeExtra(s: Inflater) returns (ok: bool, v: nat)
    requires s.Regs() && s.extra < 16 && (s.bits < 8 || s.bits < s.extra)
    modifies s`hold, s`bits, s`next
    ensures s.Regs()
    ensures ok ==> s.bits < 8 && |old(s.Ahead())| >= s.extra && v == Num(old(s.Ahead())[..s.extra]) && s.Ahead() == old(s.Ahead())[s.extra..]
    ensures !ok ==> s.next == |s.input| && s.bits < s.extra && s.Ahead() == old(s.Ahead())
  {
    hide ToBits, ByteBits, Pow2;
    ok, v := true, 0;
    ghost var a := s.Ahead();
    assert a[..0] == [] && a[0..] == a;
    if s.extra != 0 {
      ok := s.NeedBits(s.extra);
      if ok {
        v := s.TakeBits(s.extra);
      }
    }
  }

  // What the extra bits lead to.
  function ExtEntry(m: Mode, v: nat): Mode
    requires m.LenExt? || m.DistExt?
  {
    if m.LenExt? then Dist(m.codes, m.length + v) else MatchCopy(m.codes, m.length, m.offset + v)
  }

  // Read the extra bits; the step they make is known then.
  method LookExtra(s: Inflater) returns (go: bool, v: nat)
    requires s.Valid() && (s.mode.LENEXT? || s.mode.DISTEXT?)
    modifies s`hold, s`bits, s`next
    ensures s.Shape() && s.Regs() && s.View() == old(s.View()) && (s.View().LenExt? || s.View().DistExt?)
    ensures go ==> InBlock(s) && s.bits < 8 && ModeOk(ExtEntry(s.View(), v))
    ensures go ==> Reaches(old(s.Now()), Conf(ExtEntry(s.View(), v), s.Ahead(), s.Hist())) && |s.Ahead()| <= |old(s.Ahead())|
    ensures !go ==> s.Valid() && Starved(s) && s.Now() == old(s.Now())
  {
    hide Step, ToBits, ByteBits, Inflater.Slack, SlidingWindow.Holds, Reaches, Pow2, Num, TableFits, FixedLit, FixedDist,
         IsBytes, Inflater.View, Starved, DataMove, CodesOk;
    ViewOf(s);
    ValidDecoding(s);
    SlackBits(s);
    ghost var m, a, h := s.View(), s.Ahead(), s.Hist();
    go, v := TakeExtra(s);
    ViewOf(s);
    if !go {
      SlackWaiting(s);
      return;
    }
    ExtMove(m, a, h, v);
    assert h + [] == h;
    DataStep(m, a, h, Move(ExtEntry(m, v), m.extra, []));
  }

  /** LENEXT: add the extra bits to the length. */
  method DoLenext(s: Inflater) returns (go: bool)
    requires s.Valid() && s.mode.LENEXT?
    modifies s`hold, s`bits, s`next, s`mode, s`length
    ensures s.Valid() && Reaches(old(s.Now()), s.Now())
    ensures if go then s.mode.DIST? else Starved(s)
    ensures |s.Ahead()| <= |old(s.Ahead())|
  {
    hide Step, ToBits, ByteBits, Inflater.Slack, SlidingWindow.Holds, Reaches, Pow2, Num, TableFits, FixedLit, FixedDist,
         IsBytes, Inflater.View, Starved, CodesOk, ModeOk;
    ViewOf(s);
    var v;
    go, v := LookExtra(s);
    if go {
      s.length := s.length + v;
      s.mode := DIST;
      ViewOf(s);
      SettleData(s);
    } else {
      StayPut(s);
    }
  }

  /** DISTEXT: add the extra bits to the distance. */
  method DoDistext(s: Inflater) returns (go: bool)
    requires s.Valid() && s.mode.DISTEXT?
    modifies s`hold, s`bits, s`next, s`mode, s`offset
    ensures s.Valid() && Reaches(old(s.Now()), s.Now())
    ensures if go then s.mode.MATCH? else Starved(s)
    ensures |s.Ahead()| <= |old(s.Ahead())|
  {
    hide Step, ToBits, ByteBits, Inflater.Slack, SlidingWindow.Holds, Reaches, Pow2, Num, TableFits, FixedLit, FixedDist,
         IsBytes, Inflater.View, Starved, CodesOk, ModeOk;
    ViewOf(s);
    var v;
    go, v := LookExtra(s);
    if go {
      s.offset := s.offset + v;
      s.mode := MATCH;
      ViewOf(s);
      SettleData(s);
    } else {
      StayPut(s);
    }
  }

  lemma {:induction false} WaitingDist(s: Inflater)
    requires s.Shape() && s.Regs() && IsBytes(s.Hist()) && ModeOk(s.View()) && s.mode.DIST?
    requires s.next == |s.input| && Find(s.dist, s.Held()) == More
    ensures s.Slack() && Starved(s)
  {
    hide Find, Usable;
    StarvedNow(s);
  }

  lemma {:induction false} DistSlack(s: Inflater)
    requires s.Shape() && s.Regs() && IsBytes(s.Hist()) && ModeOk(s.View()) && s.mode.DIST? && s.Slack()
    ensures s.bits < 8 || Find(s.dist, s.Held()) == More
  {
    hide Find, Usable;
  }

  // The field values of the mode after a distance entry.
  method EnterDist(s: Inflater, here: Code)
    requires s.Shape() && s.mode.DIST?
    modifies s`mode, s`offset, s`extra
    ensures s.Shape() && s.View() == DistEntry(Codes(s.last, s.lit, s.dist), s.length, here)
    ensures s.mode.BAD? || s.mode.DISTEXT?
  {
    if here.op / 64 % 2 == 1 {
      s.mode := BAD;
    } else {
      s.offset := here.val;
      s.extra := here.op % 16;
      s.mode := DISTEXT;
    }
  }

  // Find the entry of the next distance symbol.
  method LookDist(s: Inflater) returns (go: bool, here: Code, drop: nat)
    requires s.Valid() && s.mode.DIST?
    modifies s`hold, s`bits, s`next
    ensures s.Shape() && s.Regs() && s.Now() == old(s.Now())
    ensures go ==> DistFound(s, here, drop)
    ensures !go ==> s.Valid() && Starved(s)
  {
    hide Step, ToBits, ByteBits, Inflater.Slack, SlidingWindow.Holds, Pow2, Num, TableFits, FixedLit, FixedDist,
         IsBytes, Inflater.View, Starved, DataMove, Find, Pulled, Resolved, DistEntry, CodesOk, LensOk;
    ViewOf(s);
    ValidDecoding(s);
    DistSlack(s);
    ghost var c, held0, h := Codes(s.last, s.lit, s.dist), s.Held(), s.Hist();
    LitOk(c);
    go, here, drop := FindSymbol(s, DISTS, s.distcode, s.distoff, s.distbits, s.dist);
    ViewOf(s);
    if !go {
      WaitingDist(s);
      Stay(s);
      return;
    }
    DistLooked(s, held0, drop, here);
  }

  lemma {:induction false} DistLooked(s: Inflater, held0: seq<bool>, drop: nat, here: Code)
    requires InBlock(s) && s.mode.DIST? && ModeOk(s.View()) && LensOk(s.dist) && |s.dist| <= 32
    requires held0 <= s.Held() && Pulled(s.dist, |held0|, s.Held()) && (|held0| < 8 || Find(s.dist, held0) == More)
    requires drop + here.bits <= s.bits && Resolved(DISTS, s.dist, s.Held(), drop, here)
    ensures DistFound(s, here, drop)
  {
    hide Step, ToBits, ByteBits, SlidingWindow.Holds, Pow2, Num, TableFits, FixedLit, FixedDist,
         IsBytes, Inflater.View, DataMove, Find, Pulled, Resolved, DistEntry, LensOk;
    ViewOf(s);
    LengthPositive(s.View());
    DistMove(Codes(s.last, s.lit, s.dist), s.length, s.Held(), s.Ahead(), s.Hist(), drop, here);
    SymbolSlack(DISTS, s.dist, held0, s.Held(), drop, here);
  }

  ghost predicate DistFound(s: Inflater, here: Code, drop: nat)
    reads s, s.output, s.lens, s.lenfix, s.distfix, s.lencode, s.distcode, s.window, s.window.data
  {
    var c := Codes(s.last, s.lit, s.dist);
    && InBlock(s) && s.mode.DIST? && s.length > 0 && drop + here.bits <= s.bits < drop + here.bits + 8
    && DataMove(Dist(c, s.length), s.Ahead(), s.Hist()) == Some(Move(DistEntry(c, s.length, here), drop + here.bits, []))
  }

  method TakeDist(s: Inflater, here: Code, drop: nat)
    requires DistFound(s, here, drop)
    modifies s`hold, s`bits, s`mode, s`offset, s`extra
    ensures s.Valid() && Reaches(old(s.Now()), s.Now())
    ensures s.mode.BAD? || s.mode.DISTEXT?
    ensures |s.Ahead()| <= |old(s.Ahead())|
  {
    hide Step, ToBits, ByteBits, Inflater.Slack, SlidingWindow.Holds, Reaches, Pow2, Num, TableFits, FixedLit, FixedDist,
         IsBytes, Inflater.View, DataMove, DistEntry, CodesOk, LensOk;
    ViewOf(s);
    ghost var c, a, h := Codes(s.last, s.lit, s.dist), s.Ahead(), s.Hist();
    TakeSymbol(s, drop, here.bits);
    assert h + [] == h;
    DataStep(Dist(c, s.length), a, h, Move(DistEntry(c, s.length, here), drop + here.bits, []));
    SettleDist(s, here);
  }

  method SettleDist(s: Inflater, here: Code)
    requires InBlock(s) && s.mode.DIST? && s.bits < 8 && ModeOk(DistEntry(Codes(s.last, s.lit, s.dist), s.length, here))
    modifies s`mode, s`offset, s`extra
    ensures s.Valid() && s.View() == DistEntry(Codes(s.last, s.lit, s.dist), s.length, here) && (s.mode.BAD? || s.mode.DISTEXT?)
  {
    hide Step, ToBits, ByteBits, SlidingWindow.Holds, Pow2, TableFits, FixedLit, FixedDist,
         IsBytes, Inflater.View, DistEntry, CodesOk, LensOk, ModeOk;
    EnterDist(s, here);
    SettleData(s);
  }

  /** DIST: decode a distance symbol. */
  method DoDist(s: Inflater) returns (go: bool)
    requires s.Valid() && s.mode.DIST?
    modifies s`hold, s`bits, s`next, s`mode, s`offset, s`extra
    ensures s.Valid() && Reaches(old(s.Now()), s.Now())
    ensures if go then s.mode.BAD? || s.mode.DISTEXT? else Starved(s)
    ensures |s.Ahead()| <= |old(s.Ahead())|
  {
    hide Reaches, Starved, DistFound, Inflater.Valid, Inflater.View;
    var here, drop;
    go, here, drop := LookDist(s);
    if go {
      TakeDist(s, here, drop);
    } else {
      StayPut(s);
    }
  }

  lemma {:induction false} LengthPositive(m: Mode)
    requires m.Dist? && ModeOk(m)
    ensures m.length > 0
  {
  }
}
