/** The states of inflate that read the code lengths of a dynamic block (LENLENS and CODELENS
in inflate.c). */
module InflateLengths {
  import opened Bits
  import opened Canonical
  import opened TableCells
  import opened CodeBlocks
  import opened CodeCounts
  import opened Inftrees
  import opened FixedCodes
  import opened Tokens
  import opened BlockMachine
  import opened RunReader
  import opened BlockHeader
  import opened Lookup
  import opened Window
  import opened InflateState
  import opened Decoding
  import opened InflateBlocks

  lemma {:induction false} LengthsStep(m: Mode, a: seq<bool>, h: seq<nat>, m1: Mode, used: nat)
    requires (m.LenLens? || m.CodeLens?) && ModeOk(m) && IsBytes(h)
    requires LengthsMove(m, a) == Some(Move(m1, used, []))
    ensures ModeOk(m1) && used <= |a| && Reaches(Conf(m, a, h), Conf(m1, a[used..], h))
  {
    hide LengthsMove, ModeOk;
    assert h + [] == h;
    StepRun(m, a, h, Move(m1, used, []));
  }

  lemma {:induction false} LenLensMove(m: Mode, a: seq<bool>, v: nat)
    requires m.LenLens? && ModeOk(m) && |m.have| < m.ncode && |a| >= 3 && v == Num(a[..3])
    ensures LengthsMove(m, a) == Some(Move(m.(have := m.have + [v]), 3, [])) && v < 8
  {
    assert Pow2(3) == 8;
  }

  lemma {:induction false} OrderedMore(l: seq<nat>, n: nat, v: nat)
    requires |l| == 19 && n < 19
    ensures ORDER[n] < 19 && Ordered(l[ORDER[n] := v], n + 1) == Ordered(l, n) + [v]
  {
    RankOfOrder(n);
    var l1 := l[ORDER[n] := v];
    forall i | 0 <= i < n
      ensures ORDER[i] < 19 && l1[ORDER[i]] == l[ORDER[i]]
    {
      RankOfOrder(i);
    }
  }

  // The numbers of `n` groups of three bits.
  function Threes(a: seq<bool>, n: nat): (v: seq<nat>)
    requires 3 * n <= |a|
    ensures |v| == n
  {
    seq(n, i requires 0 <= i < n => Num(a[3 * i..3 * i + 3]))
  }

  lemma {:induction false} ThreesMore(a: seq<bool>, n: nat)
    requires 3 * n + 3 <= |a|
    ensures Threes(a, n + 1) == Threes(a, n) + [Num(a[3 * n..][..3])]
  {
    assert a[3 * n..][..3] == a[3 * n..3 * n + 3];
  }

  lemma {:induction false} NoThrees(have: seq<nat>, a: seq<bool>)
    ensures have + Threes(a, 0) == have && a[0..] == a
  {
  }

  lemma {:induction false} ThreesNext(have: seq<nat>, a: seq<bool>, n: nat)
    requires 3 * n + 3 <= |a|
    ensures have + Threes(a, n) + [Num(a[3 * n..][..3])] == have + Threes(a, n + 1)
    ensures a[3 * n..][3..] == a[3 * (n + 1)..]
  {
    hide Threes, Num;
    ThreesMore(a, n);
  }

  // One length of the code length code.
  method ReadLenLen(s: Inflater) returns (ok: bool)
    requires s.Valid() && s.mode.LENLENS? && s.have < s.ncode
    modifies s`hold, s`bits, s`next, s`have, s.lens
    ensures s.Valid() && Reaches(old(s.Now()), s.Now()) && s.mode.LENLENS?
    ensures if ok then s.have == old(s.have) + 1 && s.have <= s.ncode else Starved(s)
    ensures ok ==> |old(s.Ahead())| >= 3 && s.Ahead() == old(s.Ahead())[3..] && s.LensSent() == old(s.LensSent()) + [Num(old(s.Ahead())[..3])]
  {
    hide Step, ToBits, ByteBits, Inflater.Slack, SlidingWindow.Holds, Reaches, Pow2, Num, TableFits, FixedLit, FixedDist,
         IsBytes, Inflater.View, Starved, LengthsMove, Ordered;
    ViewOf(s);
    SlackBits(s);
    ok := s.NeedBits(3);
    ViewOf(s);
    if !ok {
      SlackWaiting(s);
      Stay(s);
      return;
    }
    StoreLenLen(s);
  }

  // Store a length whose bits are at hand.
  method StoreLenLen(s: Inflater)
    requires s.Shape() && s.Regs() && s.FixedOk() && IsBytes(s.Hist()) && ModeOk(s.View()) && s.window.Holds(s.before)
    requires s.mode.LENLENS? && s.have < s.ncode <= 19 && 3 <= s.bits < 11
    modifies s`hold, s`bits, s`have, s.lens
    ensures s.Valid() && Reaches(old(s.Now()), s.Now()) && s.have == old(s.have) + 1
    ensures |old(s.Ahead())| >= 3 && s.Ahead() == old(s.Ahead())[3..] && s.LensSent() == old(s.LensSent()) + [Num(old(s.Ahead())[..3])]
  {
    hide Step, ToBits, ByteBits, Inflater.Slack, SlidingWindow.Holds, Reaches, Pow2, Num, TableFits, FixedLit, FixedDist,
         IsBytes, Inflater.View, LengthsMove, Ordered;
    ViewOf(s);
    ghost var a, h, m := s.Ahead(), s.Hist(), s.View();
    var v := s.TakeBits(3);
    LenLensMove(m, a, v);
    ViewOf(s);
    PutLenLen(s, v);
    LengthsStep(m, a, h, s.View(), 3);
    SlackFew(s);
  }

  // Put a length in its place.
  method PutLenLen(s: Inflater, v: nat)
    requires s.Shape() && s.mode.LENLENS? && s.have < s.ncode <= 19
    modifies s`have, s.lens
    ensures s.Shape() && s.have == old(s.have) + 1
    ensures s.View().LenLens? && old(s.View()).LenLens? && s.View() == old(s.View()).(have := old(s.View().have) + [v])
    ensures s.LensSent() == old(s.LensSent()) + [v]
  {
    hide Inflater.View, Ordered;
    ViewOf(s);
    ghost var l := s.lens[..19];
    OrderedMore(l, s.have, v);
    s.lens[ORDER[s.have]] := v;
    assert s.lens[..19] == l[ORDER[s.have] := v];
    s.have := s.have + 1;
    ViewOf(s);
  }

  // The lengths that were not sent are zero.
  method FillLenLens(s: Inflater)
    requires s.Shape() && s.have <= 19
    modifies s.lens, s`have
    ensures s.have == 19 && s.lens[..19] == Spread(Ordered(old(s.lens[..19]), old(s.have)))
    ensures s.lens[19..] == old(s.lens[19..])
  {
    ghost var l0, n := s.lens[..19], s.have;
    while s.have < 19
      invariant n <= s.have <= 19 && s.lens[19..] == old(s.lens[19..])
      invariant forall i :: 0 <= i < 19 ==> ORDER[i] < 19 && s.lens[ORDER[i]] == if n <= i < s.have then 0 else l0[ORDER[i]]
    {
      RankOfOrder(s.have);
      forall i | 0 <= i < 19
        ensures ORDER[i] == ORDER[s.have] ==> i == s.have
      {
        RankOfOrder(i);
      }
      s.lens[ORDER[s.have]] := 0;
      s.have := s.have + 1;
    }
    assert forall i :: 0 <= i < 19 ==> ORDER[Rank(i)] == i;
    assert s.lens[..19] == Spread(Ordered(l0, n));
  }

  lemma {:induction false} AllSentMove(m: Mode, a: seq<bool>)
    requires m.LenLens? && ModeOk(m) && |m.have| == m.ncode
    ensures LensOk(Spread(m.have)) && MaxLen(Spread(m.have)) <= 7
    ensures LengthsMove(m, a) ==
            Some(Move(if Rejected(CODES, Spread(m.have)) then Bad else CodeLens(m.last, m.nlen, m.ndist, Spread(m.have), []), 0, []))
  {
    hide Rejected;
    if MaxLen(Spread(m.have)) > 0 {
      var i := MaxLenAttained(Spread(m.have));
    }
  }

  lemma {:induction false} RootOfShort(l: seq<nat>)
    requires LensOk(l) && MaxLen(l) <= 7
    ensures MaxLen(l) <= RootBits(l, 7)
    ensures !Outgrown(CODES, l, RootBits(l, 7))
  {
  }

  lemma {:induction false} SevenBits()
    ensures Pow2(7) == 128
  {
  }

  // The table of the code length code.
  method MakeLengthTable(s: Inflater) returns (ok: bool)
    requires s.Shape() && LensOk(s.lens[..19]) && MaxLen(s.lens[..19]) <= 7
    modifies s`lencode, s`lenbits, s`cl, s.codes
    ensures ok <==> !Rejected(CODES, s.lens[..19])
    ensures ok ==> s.cl == s.lens[..19] && TableFits(CODES, s.cl, s.lencode[..], s.lenbits) && MaxLen(s.cl) <= s.lenbits
    ensures s.lencode == s.codes
  {
    hide TableFor, Rejected, Outgrown, MaxLen, RootBits, Pow2, LensOk;
    ghost var l := s.lens[..19];
    SevenBits();
    RootOfShort(l);
    s.lencode, s.lenbits := s.codes, 7;
    var ret, size, root := InflateTable(CODES, s.lens[..19], s.codes, 0, s.lenbits);
    ok := ret == 0;
    if ok {
      s.lenbits := root;
      s.cl := l;
      assert s.codes[0..0 + size] == s.codes[..][..size];
      FitsWider(CODES, l, s.codes[..], size, root);
    }
  }

  // All lengths of the code length code are there.
  method FinishLenLens(s: Inflater)
    requires s.Valid() && s.mode.LENLENS? && s.have == s.ncode
    modifies s`mode, s`have, s`lencode, s`lenbits, s`cl, s.lens, s.codes
    ensures s.Valid() && Reaches(old(s.Now()), s.Now()) && (s.mode.BAD? || (s.mode.CODELENS? && s.have == 0))
    ensures s.Ahead() == old(s.Ahead()) && (s.mode.CODELENS? ==> s.cl == Spread(old(s.LensSent())))
  {
    hide Step, ToBits, ByteBits, Inflater.Slack, SlidingWindow.Holds, Reaches, Pow2, Num, TableFits, FixedLit, FixedDist,
         IsBytes, Inflater.View, Starved, LengthsMove, Ordered, Rejected, MaxLen, LensOk, Usable;
    ViewOf(s);
    LenLensSlack(s);
    ghost var a, h, m := s.Ahead(), s.Hist(), s.View();
    AllSentMove(m, a);
    FillLenLens(s);
    var ok := MakeLengthTable(s);
    assert a[0..] == a;
    LengthsStep(m, a, h, if ok then CodeLens(m.last, m.nlen, m.ndist, s.cl, []) else Bad, 0);
    EnterLengths(s, ok);
  }

  // Go on to the code lengths, if their table could be made.
  method EnterLengths(s: Inflater, ok: bool)
    requires s.Shape() && s.Regs() && s.FixedOk() && IsBytes(s.Hist()) && s.window.Holds(s.before) && s.bits < 8
    requires ok ==> TableFits(CODES, s.cl, s.lencode[..], s.lenbits) && MaxLen(s.cl) <= s.lenbits
    requires ok ==> ModeOk(CodeLens(s.last, s.nlen, s.ndist, s.cl, []))
    modifies s`mode, s`have
    ensures s.Valid() && (s.mode.BAD? || (s.mode.CODELENS? && s.have == 0))
    ensures s.View() == (if ok then CodeLens(s.last, s.nlen, s.ndist, s.cl, []) else Bad) && (s.mode.CODELENS? ==> ok)
  {
    hide Step, ToBits, ByteBits, Inflater.Slack, SlidingWindow.Holds, Pow2, Num, TableFits, FixedLit, FixedDist,
         IsBytes, Inflater.View, MaxLen, ModeOk;
    BadOk();
    if ok {
      s.have := 0;
      s.mode := CODELENS;
    } else {
      s.mode := BAD;
    }
    assert s.lens[..0] == [];
    ViewOf(s);
    SlackFew(s);
  }

  lemma {:induction false} BadOk()
    ensures ModeOk(Bad)
  {
  }

  lemma {:induction false} LenLensSlack(s: Inflater)
    requires s.Valid() && s.mode.LENLENS? && s.have == s.ncode
    ensures s.bits < 8 && ModeOk(s.View()) && s.View().LenLens?
  {
    hide Rejected, Usable, Find, TableFits, SlidingWindow.Holds, FixedLit, FixedDist, Step, Ordered, IsBytes;
    SlackBits(s);
  }

  /** LENLENS: read the lengths of the code length code and make its table. The lengths that were there before and
      those of the next bits, three for each, go to the symbols in their order; the others have none. */
  method DoLenlens(s: Inflater) returns (go: bool)
    requires s.Valid() && s.mode.LENLENS?
    modifies s`hold, s`bits, s`next, s`mode, s`have, s`lencode, s`lenbits, s`cl, s.lens, s.codes
    ensures s.Valid() && Reaches(old(s.Now()), s.Now())
    ensures if go then s.mode.BAD? || (s.mode.CODELENS? && s.have == 0) else Starved(s)
    ensures go ==> var n := old(s.ncode - s.have);
                   && 0 <= n && 3 * n <= |old(s.Ahead())| && s.Ahead() == old(s.Ahead())[3 * n..]
                   && var sent := old(s.LensSent()) + Threes(old(s.Ahead()), n);
                      s.mode.CODELENS? ==>
                        |s.cl| == 19 && forall i :: 0 <= i < 19 ==> SentFor(i) < 19 && s.cl[SentFor(i)] == if i < |sent| then sent[i] else 0
  {
    hide Step, ModeOk, TableFits, SlidingWindow.Holds, Inflater.Slack, Inflater.Tables, Inflater.FixedOk, Inflater.View, Reaches,
         Starved, ToBits, ByteBits, IsBytes, Num, SentFor, Spread, Ordered, Threes;
    ghost var c0, a, have, n: nat := s.Now(), s.Ahead(), s.LensSent(), 0;
    StayValid(s);
    NoThrees(have, a);
    while s.have < s.ncode
      invariant s.Valid() && s.mode.LENLENS? && s.have <= s.ncode == old(s.ncode) && Reaches(c0, s.Now())
      invariant s.have == old(s.have) + n && 3 * n <= |a| && s.Ahead() == a[3 * n..] && s.LensSent() == have + Threes(a, n)
      decreases s.ncode - s.have
    {
      ghost var c1 := s.Now();
      go := ReadLenLen(s);
      ReachesJoin(c0, c1, s.Now());
      if !go {
        return;
      }
      ThreesNext(have, a, n);
      n := n + 1;
    }
    ghost var c1 := s.Now();
    SpreadIs(s.LensSent());
    FinishLenLens(s);
    ReachesJoin(c0, c1, s.Now());
    go := true;
  }

  lemma {:induction false} StayValid(s: Inflater)
    requires s.Valid()
    ensures Reaches(s.Now(), s.Now())
    ensures s.mode.LENLENS? ==> s.have <= s.ncode
    ensures s.mode.CODELENS? ==> s.have <= s.nlen + s.ndist
  {
    hide Step, Usable, TableFits, SlidingWindow.Holds, CodesOk, Reaches;
    Stay(s);
  }

  // What an entry of the code length table stands for: a symbol with its length, or a zero for a missing code.
  lemma {:induction false} LengthEntry(cl: seq<nat>, T: seq<Code>, root: nat, held: seq<bool>, e: Code)
    requires AtRoot(CODES, cl, T, root, held, e) && MaxLen(cl) <= root && e.bits <= |held|
    ensures LensOk(cl) && |cl| <= 19
    ensures (Find(cl, held) == Sym(e.val) && e.val < |cl| && cl[e.val] == e.bits > 0) ||
            (Find(cl, held) == NoCode && e.val == 0 && e.bits == 1)
  {
    hide TableFor, Rejected, Find, Padded;
    NoLinks(CODES, cl, T, root, held);
    RootEntry(CODES, cl, T, root, held);
    FindLength(cl, held);
  }

  lemma {:induction false} FindLength(cl: seq<nat>, held: seq<bool>)
    requires LensOk(cl)
    ensures Find(cl, held).Sym? ==> Find(cl, held).s < |cl| && cl[Find(cl, held).s] > 0
  {
  }

  lemma {:induction false} HeldFound(cl: seq<nat>, held: seq<bool>, a: seq<bool>)
    requires Usable(CODES, cl) && held <= a && Find(cl, held) != More
    ensures Find(cl, a) == Find(cl, held)
  {
    FindMore(CODES, cl, held, a[|held|..]);
    assert held + a[|held|..] == a;
  }

  // One code length is read: few bits stay behind.
  lemma {:induction false} LengthSlack(cl: seq<nat>, held0: seq<bool>, held1: seq<bool>, e: Code)
    requires Usable(CODES, cl) && held0 <= held1 && Pulled(cl, |held0|, held1)
    requires |held0| < 8 || Find(cl, held0) == More
    requires (Find(cl, held1) == Sym(e.val) && e.val < |cl| && cl[e.val] == e.bits) || (Find(cl, held1) == NoCode && e.bits == 1)
    ensures |held1| < e.bits + 8
  {
    assert |held0| == |held1| ==> held0 == held1;
    if |held1| >= e.bits + 8 {
      var p := held1[..|held1| - 8];
      if Find(cl, held1).Sym? {
        assert CodeBits(cl, e.val) <= p;
        FindIs(CODES, cl, e.val, p);
      } else {
        NoCodePrefix(cl, p, held1);
      }
    }
  }

  lemma {:induction false} NoCodePrefix(cl: seq<nat>, p: seq<bool>, held: seq<bool>)
    requires LensOk(cl) && Find(cl, held) == NoCode && p <= held && p != []
    ensures Find(cl, p) == NoCode
  {
    if s: nat :| Starts(cl, s, p) {
      assert Starts(cl, s, held);
    }
  }

  lemma {:induction false} PlainMove(m: Mode, a: seq<bool>, v: nat, n: nat)
    requires m.CodeLens? && ModeOk(m) && |m.lens| < m.nlen + m.ndist && v < 16
    requires (Find(m.cl, a) == Sym(v) && v < |m.cl| && m.cl[v] == n) || (Find(m.cl, a) == NoCode && v == 0 && n == 1)
    ensures LengthsMove(m, a) == Some(Move(m.(lens := m.lens + [v]), n, []))
  {
    hide Rejected, Find;
  }

  // The held bits of a waiting state do not make a symbol.
  lemma {:induction false} WaitingLength(m: Mode, held: seq<bool>, h: seq<nat>)
    requires m.CodeLens? && ModeOk(m) && IsBytes(h) && |m.lens| < m.nlen + m.ndist
    requires |held| < 8 || Step(m, held, h).None?
    ensures |held| < 8 || Find(m.cl, held) == More || (Find(m.cl, held).Sym? && 16 <= Find(m.cl, held).s < 19 &&
              |held| < m.cl[Find(m.cl, held).s] + RepeatBits(Find(m.cl, held).s))
  {
    hide Rejected, Find;
  }

  // Between the lookup of a code length symbol and its use.
  ghost predicate Looked(s: Inflater, here: Code, held0: seq<bool>)
    reads s, s.output, s.lens, s.codes, s.lenfix, s.distfix, s.lencode, s.distcode, s.window, s.window.data
  {
    && s.Shape() && s.Regs() && s.FixedOk() && s.Tables() && IsBytes(s.Hist()) && ModeOk(s.View()) && s.window.Holds(s.before)
    && s.mode.CODELENS? && s.have < s.nlen + s.ndist
    && held0 <= s.Held() && Pulled(s.cl, |held0|, s.Held())
    && (|held0| < 8 || Step(s.View(), held0, s.Hist()).None?)
    && here.bits <= s.bits && AtRoot(CODES, s.cl, s.lencode[..], s.lenbits, s.Held(), here)
  }

  lemma {:induction false} LookedEntry(s: Inflater, here: Code, held0: seq<bool>)
    requires Looked(s, here, held0)
    ensures (Find(s.cl, s.Ahead()) == Sym(here.val) && here.val < |s.cl| && s.cl[here.val] == here.bits > 0) ||
            (Find(s.cl, s.Ahead()) == NoCode && here.val == 0 && here.bits == 1)
    ensures here.val < 16 ==> s.bits < here.bits + 8
    ensures here.val >= 16 ==> here.val < 19
    ensures here.val >= 16 ==> s.bits < here.bits + 8 || s.bits < here.bits + RepeatBits(here.val)
  {
    hide TableFor, Rejected, Find, SlidingWindow.Holds, Padded, Step;
    LengthEntry(s.cl, s.lencode[..], s.lenbits, s.Held(), here);
    HeldFound(s.cl, s.Held(), s.Ahead());
    WaitingLength(s.View(), held0, s.Hist());
    if |held0| >= 8 && Find(s.cl, held0) != More {
      HeldFound(s.cl, held0, s.Held());
      if |held0| == s.bits {
        assert held0 == s.Held();
      } else {
        LongerFound(s.cl, held0, s.Held());
      }
    } else {
      LengthSlack(s.cl, held0, s.Held(), here);
    }
  }

  lemma {:induction false} LongerFound(cl: seq<nat>, held0: seq<bool>, held1: seq<bool>)
    requires Usable(CODES, cl) && held0 <= held1 && Pulled(cl, |held0|, held1) && |held0| < |held1|
    ensures Find(cl, held0) == More
  {
    if Find(cl, held0) != More {
      var p := held1[..|held1| - 8];
      assert held0 <= p;
      HeldFound(cl, held0, p);
    }
  }

  // One length more.
  method StoreLength(s: Inflater, v: nat)
    requires s.Shape() && s.Regs() && s.FixedOk() && s.Tables() && IsBytes(s.Hist()) && s.window.Holds(s.before)
    requires s.mode.CODELENS? && s.have < s.nlen + s.ndist && s.nlen + s.ndist <= 316 && v < 16
    modifies s`have, s.lens
    ensures s.Shape() && s.Regs() && s.FixedOk() && s.Tables() && s.Hist() == old(s.Hist()) && s.window.Holds(s.before)
    ensures s.Ahead() == old(s.Ahead()) && s.have == old(s.have) + 1
    ensures old(s.View()).CodeLens? && s.View() == old(s.View()).(lens := old(s.View()).lens + [v])
  {
    hide ToBits, ByteBits, SlidingWindow.Holds, Pow2, TableFits, FixedLit, FixedDist, IsBytes, ModeOk, Inflater.View;
    ViewOf(s);
    ghost var l := s.lens[..s.have];
    s.lens[s.have] := v;
    s.have := s.have + 1;
    assert s.lens[..s.have] == l + [v];
    ViewOf(s);
  }

  // A code length that stands for itself.
  method PlainLength(s: Inflater, here: Code, ghost held0: seq<bool>)
    requires Looked(s, here, held0) && here.val < 16
    modifies s`hold, s`bits, s`have, s.lens
    ensures s.Valid() && Reaches(old(s.Now()), s.Now()) && s.mode.CODELENS? && s.have == old(s.have) + 1
  {
    hide Step, ToBits, ByteBits, Inflater.Slack, SlidingWindow.Holds, Reaches, Pow2, Num, TableFits, FixedLit, FixedDist,
         IsBytes, Inflater.View, Starved, LengthsMove, Find, Pulled, AtRoot;
    ViewOf(s);
    LookedEntry(s, here, held0);
    ghost var a, h, m := s.Ahead(), s.Hist(), s.View();
    PlainMove(m, a, here.val, here.bits);
    var v := s.TakeBits(here.bits);
    ViewOf(s);
    StoreLength(s, here.val);
    LengthsStep(m, a, h, s.View(), here.bits);
    SlackFew(s);
  }

  lemma {:induction false} RepeatUnmet(m: Mode, held: seq<bool>, h: seq<nat>)
    requires m.CodeLens? && ModeOk(m) && IsBytes(h) && |m.lens| < m.nlen + m.ndist
    requires Find(m.cl, held).Sym? && 16 <= Find(m.cl, held).s < 19
    requires |held| < m.cl[Find(m.cl, held).s] + RepeatBits(Find(m.cl, held).s)
    ensures Step(m, held, h).None?
  {
    hide Find, Rejected;
  }

  // What a repeat code does to the lengths.
  function Repeated(m: Mode, sym: nat, count: nat): Mode
    requires m.CodeLens?
  {
    if |m.lens| + count > m.nlen + m.ndist then Bad
    else m.(lens := m.lens + Repeat(if sym == 16 && m.lens != [] then m.lens[|m.lens| - 1] else 0, count))
  }

  lemma {:induction false} RepeatedMove(m: Mode, a: seq<bool>, sym: nat, n: nat, x: nat)
    requires m.CodeLens? && ModeOk(m) && |m.lens| < m.nlen + m.ndist && 16 <= sym < 19
    requires Find(m.cl, a) == Sym(sym) && m.cl[sym] == n && |a| >= n + RepeatBits(sym)
    requires x == Num(a[n..][..RepeatBits(sym)])
    ensures sym == 16 && m.lens == [] ==> LengthsMove(m, a) == Some(Move(Bad, n, []))
    ensures !(sym == 16 && m.lens == []) ==>
              LengthsMove(m, a) == Some(Move(Repeated(m, sym, RepeatBase(sym) + x), n + RepeatBits(sym), []))
    ensures a[n..][RepeatBits(sym)..] == a[n + RepeatBits(sym)..]
  {
    hide Find, Rejected;
    assert a[n..][..RepeatBits(sym)] == a[n..n + RepeatBits(sym)];
  }

  // Store a repeated length.
  method StoreRun(s: Inflater, len: nat, count: nat)
    requires s.Shape() && s.mode.CODELENS? && s.have + count <= 316
    modifies s`have, s.lens
    ensures s.have == old(s.have) + count && s.lens[..s.have] == old(s.lens[..s.have]) + Repeat(len, count)
  {
    ghost var l, n := s.lens[..s.have], s.have;
    var copy := count;
    while copy > 0
      invariant 0 <= copy <= count && s.have + copy == n + count
      invariant s.lens[..s.have] == l + Repeat(len, count - copy)
    {
      s.lens[s.have] := len;
      s.have := s.have + 1;
      copy := copy - 1;
      assert s.lens[..s.have] == l + Repeat(len, count - copy);
    }
  }

  // A repeat code is at hand, with the bits of its count.
  ghost predicate RepeatAt(s: Inflater, sym: nat, n: nat)
    reads s, s.output, s.lens, s.codes, s.lenfix, s.distfix, s.lencode, s.distcode, s.window, s.window.data
  {
    && s.Shape() && s.Regs() && s.FixedOk() && s.Tables() && IsBytes(s.Hist()) && ModeOk(s.View()) && s.window.Holds(s.before)
    && s.mode.CODELENS? && s.have < s.nlen + s.ndist && 16 <= sym < 19
    && Find(s.cl, s.Ahead()) == Sym(sym) && sym < |s.cl| && s.cl[sym] == n
    && n + RepeatBits(sym) <= s.bits < n + RepeatBits(sym) + 8
  }

  // There is nothing to repeat.
  method RefuseRepeat(s: Inflater, n: nat)
    requires RepeatAt(s, 16, n) && s.have == 0
    modifies s`hold, s`bits, s`mode
    ensures s.Valid() && Reaches(old(s.Now()), s.Now()) && s.mode.BAD?
  {
    hide Step, ToBits, ByteBits, Inflater.Slack, SlidingWindow.Holds, Reaches, Pow2, Num, TableFits, FixedLit, FixedDist,
         IsBytes, Inflater.View, LengthsMove, Find;
    ViewOf(s);
    ghost var a, h, m := s.Ahead(), s.Hist(), s.View();
    RepeatedMove(m, a, 16, n, Num(a[n..][..2]));
    var v := s.TakeBits(n);
    s.mode := BAD;
    ViewOf(s);
    LengthsStep(m, a, h, Bad, n);
    SlackBad(s);
  }

  // Read the count; the step it makes is known then.
  method ReadCount(s: Inflater, sym: nat, n: nat) returns (copy: nat)
    requires RepeatAt(s, sym, n) && !(sym == 16 && s.have == 0)
    modifies s`hold, s`bits
    ensures s.Shape() && s.Regs() && s.bits < 8 && s.Hist() == old(s.Hist()) && copy > 0
    ensures s.View() == old(s.View()) && s.View().CodeLens? && ModeOk(Repeated(s.View(), sym, copy))
    ensures Reaches(old(s.Now()), Conf(Repeated(s.View(), sym, copy), s.Ahead(), s.Hist()))
  {
    hide Step, ToBits, ByteBits, Inflater.Slack, SlidingWindow.Holds, Reaches, Pow2, Num, TableFits, FixedLit, FixedDist,
         IsBytes, Inflater.View, LengthsMove, Find, Repeated;
    ViewOf(s);
    ghost var a, h, m := s.Ahead(), s.Hist(), s.View();
    RepeatedMove(m, a, sym, n, Num(a[n..][..RepeatBits(sym)]));
    var v := s.TakeBits(n);
    copy := TakeCount(s, sym);
    ViewOf(s);
    LengthsStep(m, a, h, Repeated(m, sym, copy), n + RepeatBits(sym));
  }

  // Repeat the last length, or a zero.
  method StoreRepeat(s: Inflater, sym: nat, copy: nat)
    requires s.Shape() && s.Regs() && s.FixedOk() && s.Tables() && IsBytes(s.Hist()) && s.window.Holds(s.before) && s.bits < 8
    requires s.mode.CODELENS? && s.have < s.nlen + s.ndist <= 316 && 16 <= sym < 19 && !(sym == 16 && s.have == 0) && copy > 0
    requires s.View().CodeLens? && ModeOk(Repeated(s.View(), sym, copy))
    modifies s`have, s`mode, s.lens
    ensures s.Valid() && s.Now() == old(Conf(Repeated(s.View(), sym, copy), s.Ahead(), s.Hist()))
    ensures s.mode.BAD? || (s.mode.CODELENS? && s.have > old(s.have))
  {
    hide Step, ToBits, ByteBits, Inflater.Slack, SlidingWindow.Holds, Pow2, Num, TableFits, FixedLit, FixedDist,
         IsBytes, Inflater.View, ModeOk;
    ViewOf(s);
    var len := 0;
    if sym == 16 {
      len := s.lens[s.have - 1];
    }
    if s.have + copy > s.nlen + s.ndist {
      s.mode := BAD;
    } else {
      StoreRun(s, len, copy);
    }
    ViewOf(s);
    SlackFew(s);
  }

  // A repeat code, when its count is there.
  method ApplyRepeat(s: Inflater, sym: nat, n: nat)
    requires RepeatAt(s, sym, n)
    modifies s`hold, s`bits, s`have, s`mode, s.lens
    ensures s.Valid() && Reaches(old(s.Now()), s.Now())
    ensures s.mode.BAD? || (s.mode.CODELENS? && s.have > old(s.have))
  {
    hide Step, ToBits, ByteBits, Inflater.Slack, SlidingWindow.Holds, Reaches, Pow2, Num, TableFits, FixedLit, FixedDist,
         IsBytes, Inflater.View, LengthsMove, Find, Repeated, Inflater.Valid, ModeOk;
    SentFew(s, sym, n);
    if sym == 16 && s.have == 0 {
      RefuseRepeat(s, n);
    } else {
      var copy := ReadCount(s, sym, n);
      StoreRepeat(s, sym, copy);
    }
  }

  lemma {:induction false} SentFew(s: Inflater, sym: nat, n: nat)
    requires RepeatAt(s, sym, n)
    ensures s.nlen + s.ndist <= 316
  {
    hide Step, TableFits, SlidingWindow.Holds, Find, Usable, LensOk;
  }

  // The count of a repeat code.
  method TakeCount(s: Inflater, sym: nat) returns (copy: nat)
    requires s.Regs() && 16 <= sym < 19 && RepeatBits(sym) <= s.bits
    modifies s`hold, s`bits
    ensures s.Regs() && s.bits == old(s.bits) - RepeatBits(sym)
    ensures s.Ahead() == old(s.Ahead())[RepeatBits(sym)..]
    ensures copy == RepeatBase(sym) + Num(old(s.Ahead())[..RepeatBits(sym)])
  {
    hide ToBits, ByteBits, Pow2, Num;
    var v;
    if sym == 16 {
      v := s.TakeBits(2);
      copy := 3 + v;
    } else if sym == 17 {
      v := s.TakeBits(3);
      copy := 3 + v;
    } else {
      v := s.TakeBits(7);
      copy := 11 + v;
    }
  }

  // A repeat code, with the bits of its count still to come.
  method RepeatLength(s: Inflater, here: Code, ghost held0: seq<bool>) returns (ok: bool)
    requires Looked(s, here, held0) && here.val >= 16
    modifies s`hold, s`bits, s`next, s`have, s`mode, s.lens
    ensures s.Valid() && Reaches(old(s.Now()), s.Now())
    ensures if ok then s.mode.BAD? || (s.mode.CODELENS? && s.have > old(s.have)) else Starved(s) && s.mode.CODELENS?
  {
    hide Step, ToBits, ByteBits, Inflater.Slack, SlidingWindow.Holds, Reaches, Pow2, Num, TableFits, FixedLit, FixedDist,
         IsBytes, Inflater.View, Starved, LengthsMove, Find, Pulled, AtRoot;
    ViewOf(s);
    LookedEntry(s, here, held0);
    ok := s.NeedBits(here.bits + RepeatBits(here.val));
    ViewOf(s);
    if !ok {
      WaitingRepeat(s, here.val, here.bits);
      Stay(s);
      return;
    }
    ApplyRepeat(s, here.val, here.bits);
  }

  lemma {:induction false} WaitingRepeat(s: Inflater, sym: nat, n: nat)
    requires s.Shape() && s.Regs() && IsBytes(s.Hist()) && ModeOk(s.View()) && s.mode.CODELENS? && s.have < s.nlen + s.ndist
    requires s.next == |s.input| && Find(s.cl, s.Ahead()) == Sym(sym) && sym < |s.cl| && s.cl[sym] == n && 16 <= sym < 19
    requires s.bits < n + RepeatBits(sym)
    ensures s.Slack() && Starved(s)
  {
    hide Find, Rejected, Step;
    assert s.input[s.next..] == [] && s.Held() + [] == s.Held();
    RepeatUnmet(s.View(), s.Held(), s.Hist());
    StarvedNow(s);
  }

  lemma {:induction false} WaitingSymbol(s: Inflater)
    requires s.Shape() && s.Regs() && IsBytes(s.Hist()) && ModeOk(s.View()) && s.mode.CODELENS? && s.have < s.nlen + s.ndist
    requires s.next == |s.input| && Find(s.cl, s.Held()) == More
    ensures s.Slack() && Starved(s)
  {
    hide Find, Rejected;
    StarvedNow(s);
  }

  /** One code of the code length alphabet. */
  method ReadLength(s: Inflater) returns (ok: bool)
    requires s.Valid() && s.mode.CODELENS? && s.have < s.nlen + s.ndist
    modifies s`hold, s`bits, s`next, s`have, s`mode, s.lens
    ensures s.Valid() && Reaches(old(s.Now()), s.Now())
    ensures if ok then s.mode.BAD? || (s.mode.CODELENS? && s.have > old(s.have)) else Starved(s) && s.mode.CODELENS?
  {
    hide Step, ToBits, ByteBits, SlidingWindow.Holds, Reaches, Pow2, Num, TableFits, FixedLit, FixedDist,
         IsBytes, Inflater.View, Starved, LengthsMove, Find, Pulled, AtRoot, LensOk;
    ViewOf(s);
    ghost var held0, m := s.Held(), s.View();
    ClOk(m);
    var here: Code;
    assert s.lencode[0..] == s.lencode[..];
    ok, here := FindEntry(s, CODES, s.lencode, 0, s.lenbits, s.cl);
    ViewOf(s);
    if !ok {
      WaitingSymbol(s);
      Stay(s);
      return;
    }
    if here.val < 16 {
      PlainLength(s, here, held0);
    } else {
      ok := RepeatLength(s, here, held0);
    }
  }

  lemma {:induction false} ClOk(m: Mode)
    requires m.CodeLens? && ModeOk(m)
    ensures LensOk(m.cl) && |m.lens| <= m.nlen + m.ndist
  {
  }

  lemma {:induction false} TableBits()
    ensures Pow2(9) == 512 && Pow2(6) == 64
  {
    Pow2Values();
  }

  lemma {:induction false} BuiltSize(kind: CodeType, l: seq<nat>, req: nat, size: nat)
    requires kind != CODES && LensOk(l) && 0 < req <= MAX_BITS && !Unbuildable(kind, l, req)
    requires MaxLen(l) > 0 ==> RootBits(l, req) <= MAX_BITS && size == TableSize(l, RootBits(l, req))
    ensures MaxLen(l) > 0 ==> size <= if kind == LENS then ENOUGH_LENS else ENOUGH_DISTS
  {
  }

  lemma {:induction false} RootInRange(l: seq<nat>, req: nat)
    requires LensOk(l) && 0 < req <= MAX_BITS
    ensures RootBits(l, req) <= MAX_BITS
  {
    if MaxLen(l) > 0 {
      MinAtMostMax(l);
    }
  }

  lemma {:induction false} Unbuilt(kind: CodeType, l: seq<nat>, req: nat, ret: int)
    requires LensOk(l) && |l| <= MaxSyms(kind)
    requires ret == -1 <==> Rejected(kind, l)
    requires ret == 1 <==> !Rejected(kind, l) && MaxLen(l) > 0 && Outgrown(kind, l, RootBits(l, req))
    requires ret == 0 || ret == 1 || ret == -1
    ensures ret == 0 <==> !Unbuildable(kind, l, req)
    ensures ret == 0 ==> Usable(kind, l)
  {
  }

  // One of the two tables of a dynamic block, at `start` of the codes.
  method MakeTable(kind: CodeType, l: seq<nat>, codes: array<Code>, start: nat, req: nat) returns (ok: bool, size: nat, root: nat)
    requires kind != CODES && LensOk(l) && |l| <= MaxSyms(kind) && 0 < req <= MAX_BITS
    requires start + Pow2(req) <= codes.Length && HasRoom(kind, codes.Length - start)
    modifies codes
    ensures ok <==> !Unbuildable(kind, l, req)
    ensures ok ==> start + size <= codes.Length && TableFits(kind, l, codes[start..start + size], root)
    ensures ok && kind == LENS && MaxLen(l) > 0 ==> size <= ENOUGH_LENS
    ensures codes[..start] == old(codes[..start])
  {
    hide TableFor, Rejected, Outgrown, MaxLen, MinLen, RootBits, Pow2, LensOk, HasRoom, TableSize, Unbuildable;
    var ret;
    ret, size, root := InflateTable(kind, l, codes, start, req);
    ok := ret == 0;
    Unbuilt(kind, l, req, ret);
    RootInRange(l, req);
    if ok {
      BuiltSize(kind, l, req, size);
    }
  }

  lemma {:induction false} DistRoom(size: nat)
    requires size <= ENOUGH_LENS
    ensures size + Pow2(6) <= ENOUGH && HasRoom(DISTS, ENOUGH - size)
  {
    TableBits();
  }

  lemma {:induction false} LitUsed(lit: seq<nat>)
    requires |lit| >= 257 && lit[256] > 0
    ensures MaxLen(lit) > 0
  {
    MaxLenBound(lit, 256);
  }

  // Both tables of a dynamic block.
  method MakeTables(s: Inflater) returns (ok: bool)
    requires s.Shape() && 257 <= s.nlen <= 286 && 1 <= s.ndist <= 30 && LensOk(s.lens[..s.nlen + s.ndist])
    modifies s`lencode, s`lenbits, s`distcode, s`distoff, s`distbits, s`lit, s`dist, s.codes
    ensures ok <==> TablesMade(s.last, s.lens[..s.nlen + s.ndist], s.nlen) != Bad
    ensures ok ==> s.lit == s.lens[..s.nlen] && s.dist == s.lens[s.nlen..s.nlen + s.ndist]
    ensures ok ==> TablesMade(s.last, s.lens[..s.nlen + s.ndist], s.nlen) == Len(Codes(s.last, s.lit, s.dist))
    ensures ok ==> BothTables(s)
    ensures ok || s.lencode == s.codes
  {
    hide TableFits, Unbuildable, HasRoom, MaxLen, Pow2, LensOk;
    LensOfBoth(s.lens[..s.nlen + s.ndist], s.lens[..], s.nlen, s.ndist);
    s.lencode := s.codes;
    if s.lens[256] == 0 {
      return false;
    }
    var size;
    ok, size := MakeLitTable(s);
    if ok {
      ok := MakeDistTable(s, size, s.lens[s.nlen..s.nlen + s.ndist]);
    }
  }

  lemma {:induction false} LensOfBoth(l: seq<nat>, all: seq<nat>, nlen: nat, ndist: nat)
    requires 257 <= nlen <= 286 && ndist <= 30 && nlen + ndist <= |all| && l == all[..nlen + ndist] && LensOk(l)
    ensures l[..nlen] == all[..nlen] && l[nlen..] == all[nlen..nlen + ndist] && l[256] == all[256]
    ensures LensOk(all[..nlen]) && LensOk(all[nlen..nlen + ndist])
  {
    assert l[..nlen] == all[..nlen] && l[nlen..] == all[nlen..nlen + ndist];
  }

  method MakeLitTable(s: Inflater) returns (ok: bool, size: nat)
    requires s.Shape() && 257 <= s.nlen <= 286 && LensOk(s.lens[..s.nlen]) && s.lens[256] > 0
    modifies s`lencode, s`lenbits, s`lit, s.codes
    ensures s.lencode == s.codes && (ok <==> !Unbuildable(LENS, s.lens[..s.nlen], 9))
    ensures ok ==> s.lit == s.lens[..s.nlen] && size <= ENOUGH_LENS && TableFits(LENS, s.lit, s.codes[..size], s.lenbits)
  {
    hide TableFits, Unbuildable, HasRoom, MaxLen, Pow2, LensOk;
    LitUsed(s.lens[..s.nlen]);
    TableBits();
    LensRoom();
    s.lencode, s.lenbits, s.lit := s.codes, 9, s.lens[..s.nlen];
    var root;
    ok, size, root := MakeTable(LENS, s.lens[..s.nlen], s.codes, 0, s.lenbits);
    if ok {
      s.lenbits := root;
      assert s.codes[0..0 + size] == s.codes[..size];
    }
  }

  // The tables of the block are there.
  ghost predicate BothTables(s: Inflater)
    reads s, s.lencode, s.distcode
  {
    && TableFits(LENS, s.lit, s.lencode[..], s.lenbits)
    && s.distoff <= s.distcode.Length && TableFits(DISTS, s.dist, s.distcode[s.distoff..], s.distbits)
  }

  method MakeDistTable(s: Inflater, size: nat, ghost l: seq<nat>) returns (ok: bool)
    requires s.Shape() && 1 <= s.ndist <= 30 && s.nlen + s.ndist <= 316 && LensOk(l) && l == s.lens[s.nlen..s.nlen + s.ndist]
    requires s.lencode == s.codes && size <= ENOUGH_LENS && TableFits(LENS, s.lit, s.codes[..size], s.lenbits)
    modifies s`distcode, s`distoff, s`distbits, s`dist, s.codes
    ensures ok <==> !Unbuildable(DISTS, l, 6)
    ensures ok ==> s.dist == l && BothTables(s)
  {
    hide TableFits, Unbuildable, HasRoom, MaxLen, Pow2, LensOk;
    DistRoom(size);
    s.distcode, s.distoff, s.distbits := s.codes, size, 6;
    s.dist := s.lens[s.nlen..s.nlen + s.ndist];
    var dsize, root;
    ok, dsize, root := MakeTable(DISTS, s.lens[s.nlen..s.nlen + s.ndist], s.codes, size, s.distbits);
    if ok {
      s.distbits := root;
      FitsWider(LENS, s.lit, s.codes[..], size, s.lenbits);
      assert s.codes[size..][..dsize] == s.codes[size..size + dsize];
      FitsWider(DISTS, s.dist, s.codes[size..], dsize, root);
    }
  }

  lemma {:induction false} LensRoom()
    ensures HasRoom(LENS, ENOUGH)
  {
  }

  lemma {:induction false} AllLengthsMove(m: Mode, a: seq<bool>)
    requires m.CodeLens? && ModeOk(m) && |m.lens| == m.nlen + m.ndist
    ensures LensOk(m.lens) && 257 <= m.nlen <= 286 && 1 <= m.ndist <= 30
    ensures LengthsMove(m, a) == Some(Move(TablesMade(m.last, m.lens, m.nlen), 0, []))
    ensures Step(m, a, []).Some?
  {
    hide Rejected, TablesMade, Find, Unbuildable;
  }

  // All code lengths are there: make the tables of the block.
  method FinishCodelens(s: Inflater)
    requires s.Valid() && s.mode.CODELENS? && s.have == s.nlen + s.ndist
    modifies s`mode, s`lencode, s`lenbits, s`distcode, s`distoff, s`distbits, s`lit, s`dist, s.codes
    ensures s.Valid() && Reaches(old(s.Now()), s.Now()) && (s.mode.BAD? || s.mode.LEN?)
  {
    hide Step, ToBits, ByteBits, Inflater.Slack, SlidingWindow.Holds, Reaches, Pow2, Num, TableFits, FixedLit, FixedDist,
         IsBytes, Inflater.View, Starved, LengthsMove, TablesMade, LensOk, ModeOk, BothTables;
    ViewOf(s);
    CodeLensSlack(s);
    ghost var a, h, m := s.Ahead(), s.Hist(), s.View();
    AllLengthsMove(m, a);
    var ok := MakeTables(s);
    assert a[0..] == a;
    LengthsStep(m, a, h, TablesMade(m.last, m.lens, m.nlen), 0);
    EnterBlock(s, ok);
  }

  // Go on to the data of the block, if its tables could be made.
  method EnterBlock(s: Inflater, ok: bool)
    requires s.Shape() && s.Regs() && s.FixedOk() && IsBytes(s.Hist()) && s.window.Holds(s.before) && s.bits < 8
    requires ok ==> BothTables(s) && ModeOk(Len(Codes(s.last, s.lit, s.dist)))
    modifies s`mode
    ensures s.Valid() && s.View() == (if ok then Len(Codes(s.last, s.lit, s.dist)) else Bad) && (s.mode.BAD? || s.mode.LEN?)
  {
    hide Step, ToBits, ByteBits, Inflater.Slack, SlidingWindow.Holds, Pow2, Num, TableFits, FixedLit, FixedDist,
         IsBytes, Inflater.View, CodesOk;
    s.mode := if ok then LEN else BAD;
    ViewOf(s);
    SlackFew(s);
  }

  lemma {:induction false} CodeLensSlack(s: Inflater)
    requires s.Valid() && s.mode.CODELENS? && s.have == s.nlen + s.ndist
    ensures s.bits < 8 && ModeOk(s.View())
  {
    hide Rejected, Usable, Find, TableFits, SlidingWindow.Holds, TablesMade;
  }

  /** CODELENS: read the code lengths and make the tables. */
  method DoCodelens(s: Inflater) returns (go: bool)
    requires s.Valid() && s.mode.CODELENS?
    modifies s`hold, s`bits, s`next, s`mode, s`have, s`lencode, s`lenbits, s`distcode, s`distoff, s`distbits, s`lit, s`dist,
             s.lens, s.codes
    ensures s.Valid() && Reaches(old(s.Now()), s.Now())
    ensures if go then s.mode.BAD? || s.mode.LEN? else Starved(s)
  {
    hide Step, ModeOk, TableFits, SlidingWindow.Holds, Inflater.Slack, Inflater.Tables, Inflater.FixedOk, Inflater.View, Reaches,
         Starved, ToBits, ByteBits, IsBytes;
    ghost var c0 := s.Now();
    StayValid(s);
    while s.have < s.nlen + s.ndist
      invariant s.Valid() && s.mode.CODELENS? && Reaches(c0, s.Now())
      decreases s.nlen + s.ndist - s.have
    {
      ghost var c1 := s.Now();
      go := ReadLength(s);
      ReachesJoin(c0, c1, s.Now());
      if !go || s.mode.BAD? {
        return;
      }
    }
    StayValid(s);
    ghost var c1 := s.Now();
    FinishCodelens(s);
    ReachesJoin(c0, c1, s.Now());
    go := true;
  }
}
