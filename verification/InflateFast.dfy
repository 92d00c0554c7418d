/** The fast path of inflate (inffast.c): whole symbols are decoded without looking at the
ends of the buffers, and what was read too much is given back. */
module InflateFast {
  import opened Bits
  import opened Canonical
  import opened TableCells
  import opened CodeCounts
  import CodeOrder
  import opened Inftrees
  import opened FixedCodes
  import opened Tokens
  import opened BlockMachine
  import opened BitWriter
  import opened RunReader
  import opened Lookup
  import opened Window
  import opened InflateState
  import opened Decoding
  import opened InflateBlocks
  import opened InflateData
  import opened InflateCopy

  /** The accumulator holds what is left, after `used` bits, of the bits `held0` it held when
      `start` bytes of input had been taken and of those taken since. */
  ghost predicate Fed(s: Inflater, held0: seq<bool>, start: nat, used: nat)
    reads s
  {
    && start <= s.next <= |s.input| && used <= |held0| + 8 * (s.next - start)
    && s.Held() == (held0 + ByteBits(s.input[start..s.next]))[used..]
  }

  lemma {:induction false} FedStart(s: Inflater)
    requires s.next <= |s.input|
    ensures Fed(s, s.Held(), s.next, 0)
  {
    assert s.input[s.next..s.next] == [];
    assert s.Held() + [] == s.Held();
  }

  lemma {:induction false} FedMore(held0: seq<bool>, input: seq<nat>, start: nat, next: nat, used: nat, held: seq<bool>)
    requires start <= next < |input| && used <= |held0| + 8 * (next - start)
    requires held == (held0 + ByteBits(input[start..next]))[used..]
    ensures held + ToBits(input[next], 8) == (held0 + ByteBits(input[start..next + 1]))[used..]
  {
    assert input[start..next + 1] == input[start..next] + [input[next]];
    ByteBitsConcat(input[start..next], [input[next]]);
    OneByte(input[next]);
  }

  // One byte, known to be there.
  method FastByte(s: Inflater, ghost held0: seq<bool>, ghost start: nat, ghost used: nat)
    requires s.Regs() && s.bits <= 24 && s.next < |s.input| && Fed(s, held0, start, used)
    modifies s`hold, s`bits, s`next
    ensures s.Regs() && s.Ahead() == old(s.Ahead()) && s.bits == old(s.bits) + 8 && s.next == old(s.next) + 1
    ensures Fed(s, held0, start, used) && old(s.Held()) <= s.Held()
  {
    hide ByteBits, Pow2;
    ghost var x, rest := s.input[s.next], s.input[s.next + 1..];
    PulledBits(s.hold, s.bits, x, rest);
    FedMore(held0, s.input, start, s.next, used, s.Held());
    var ok := s.PullByte();
  }

  // Make sure of 15 bits.
  method FastFill(s: Inflater, ghost held0: seq<bool>, ghost start: nat, ghost used: nat)
    requires s.Regs() && s.bits <= 30 && (s.bits < 15 ==> s.next + 2 <= |s.input|) && Fed(s, held0, start, used)
    modifies s`hold, s`bits, s`next
    ensures s.Regs() && s.Ahead() == old(s.Ahead()) && 15 <= s.bits <= 30
    ensures if old(s.bits) < 15 then s.bits == old(s.bits) + 16 && s.next == old(s.next) + 2
            else s.bits == old(s.bits) && s.next == old(s.next)
    ensures Fed(s, held0, start, used) && old(s.Held()) <= s.Held()
  {
    hide ByteBits, ToBits, Pow2;
    if s.bits < 15 {
      FastByte(s, held0, start, used);
      FastByte(s, held0, start, used);
    }
  }

  // Take bits that are there.
  method FastTake(s: Inflater, n: nat, ghost held0: seq<bool>, ghost start: nat, ghost used: nat) returns (v: nat)
    requires s.Regs() && n <= s.bits && Fed(s, held0, start, used)
    modifies s`hold, s`bits
    ensures s.Regs() && s.bits == old(s.bits) - n && s.Ahead() == old(s.Ahead())[n..]
    ensures v == Num(old(s.Ahead())[..n]) && Fed(s, held0, start, used + n) && s.Held() == old(s.Held())[n..]
  {
    hide ByteBits, ToBits, Pow2, Num;
    ghost var z := held0 + ByteBits(s.input[start..s.next]);
    v := s.TakeBits(n);
    assert z[used..][n..] == z[used + n..];
  }

  // With 15 bits every code is complete.
  lemma {:induction false} EnoughBits(kind: CodeType, l: seq<nat>, held: seq<bool>)
    requires Usable(kind, l) && |held| >= 15
    ensures Find(l, held) != More
  {
    hide Rejected, CodeBits, Kraft;
    if Complete(l) {
      var s := CodeOrder.SomeCode(l, held[..15]);
      assert Starts(l, s, held);
    }
  }

  // Links and symbols differ in their operations.
  lemma {:induction false} LinkOps(kind: CodeType, l: seq<nat>, T: seq<Code>, root: nat, held: seq<bool>, e: Code)
    requires AtRoot(kind, l, T, root, held, e) && e.bits <= |held| && e.op != 0 && e.op / 16 % 2 == 0 && e.op / 64 % 2 == 0
    ensures IsLink(e)
  {
    hide TableFor, Rejected, Find, Padded;
    RootEntry(kind, l, T, root, held);
    if !IsLink(e) {
      HereOf(kind, l, held, 0, e);
      SymbolOps(kind, if Find(l, held).Sym? then Find(l, held).s else 0, e.bits);
    }
  }

  lemma {:induction false} NotLinkOps(e: Code)
    requires e.op == 0 || e.op / 16 % 2 == 1 || e.op / 64 % 2 == 1
    ensures !IsLink(e)
  {
  }

  lemma {:induction false} LextRange(i: nat)
    requires i < 31
    ensures |LEXT| == 31 && if i < 29 then 16 <= LEXT[i] <= 21 else LEXT[i] == if i == 29 then 77 else 202
  {
  }

  lemma {:induction false} DextRange(i: nat)
    requires i < 32
    ensures |DEXT| == 32 && if i < 30 then 16 <= DEXT[i] <= 29 else DEXT[i] == 64
  {
  }

  lemma {:induction false} SymbolOps(kind: CodeType, sym: nat, n: nat)
    requires sym < MaxSyms(kind)
    ensures var op := Here(kind, sym, n).op; op == 0 || op / 16 % 2 == 1 || op / 64 % 2 == 1
    ensures INVALID.op / 64 % 2 == 1
  {
    hide LEXT, DEXT, LBASE, DBASE;
    if kind == LENS && sym > 256 {
      LextRange(sym - 257);
    } else if kind == DISTS {
      DextRange(sym);
    }
  }

  // The entry behind a link, whose bits are dropped.
  method FastLink(s: Inflater, kind: CodeType, table: array<Code>, off: nat, root: nat, ghost l: seq<nat>, link: Code,
                  ghost held0: seq<bool>, ghost start: nat, ghost used: nat)
    returns (here: Code)
    requires s.Regs() && s.bits >= 15 && off <= table.Length && link.bits <= 15
    requires AtRoot(kind, l, table[off..], root, s.Held(), link) && IsLink(link)
    requires LensOk(l) && |l| <= MaxSyms(kind) && Fed(s, held0, start, used)
    modifies s`hold, s`bits
    ensures s.Regs() && link.bits == root && root + here.bits <= 15 && s.bits == old(s.bits) - root
    ensures s.Ahead() == old(s.Ahead())[root..] && Fed(s, held0, start, used + root)
    ensures Resolved(kind, l, old(s.Held()), root, here) && !IsLink(here)
  {
    hide TableFits, AtRoot, Find, Pow2, LensOk, Low, Shr, Resolved, ByteBits, ToBits, Num, Here, Fed;
    ghost var T, h, n := table[off..], s.hold, s.bits;
    LinkBits(kind, l, T, root, s.Held(), link);
    SubTableIndex(kind, l, T, root, h, n, link);
    LowOfShr(h, root, link.op);
    var v := FastTake(s, link.bits, held0, start, used);
    DroppedHold(h, n, root, s.hold, s.bits);
    here := table[off + (link.val + Low(s.hold, link.op))];
  }

  // The accumulator after a drop, as a number.
  lemma {:induction false} DroppedHold(h: nat, n: nat, root: nat, h1: nat, n1: nat)
    requires h < Pow2(n) && root <= n && h1 < Pow2(n1) && n1 == n - root && ToBits(h1, n1) == ToBits(h, n)[root..]
    ensures h1 == Shr(h, root)
  {
    hide Pow2, ToBits, Shr;
    DroppedBits(h, n, root);
    IndexString(h1, n1);
    IndexString(Shr(h, root), n1);
  }

  /** Decode a symbol: the link, if there is one, and the entry are dropped from the accumulator. */
  method FastSymbol(s: Inflater, kind: CodeType, table: array<Code>, off: nat, root: nat, ghost l: seq<nat>,
                    ghost held0: seq<bool>, ghost start: nat, ghost used: nat)
    returns (here: Code, ghost drop: nat)
    requires s.Regs() && s.bits >= 15 && off <= table.Length && TableFits(kind, l, table[off..], root)
    requires LensOk(l) && |l| <= MaxSyms(kind) && Fed(s, held0, start, used)
    modifies s`hold, s`bits
    ensures s.Regs() && drop + here.bits <= 15 && s.bits == old(s.bits) - (drop + here.bits)
    ensures s.Ahead() == old(s.Ahead())[drop + here.bits..] && Fed(s, held0, start, used + drop + here.bits)
    ensures Resolved(kind, l, old(s.Held()), drop, here) && !IsLink(here)
  {
    hide TableFits, AtRoot, Find, Pow2, LensOk, Low, Resolved, ByteBits, ToBits, Num, Here, Fed;
    ghost var T, a, held := table[off..], s.Ahead(), s.Held();
    RootIndex(kind, l, T, root, s.hold, s.bits);
    here := table[off + Low(s.hold, root)];
    drop := 0;
    assert a[0..] == a;
    if here.op != 0 && here.op / 16 % 2 == 0 && here.op / 64 % 2 == 0 {
      LinkOps(kind, l, T, root, held, here);
      here := FastLink(s, kind, table, off, root, l, here, held0, start, used);
      drop := root;
    } else {
      NotLinkOps(here);
      RootResolved(kind, l, T, root, held, here);
    }
    var v := FastTake(s, here.bits, held0, start, used + drop);
    assert a[drop..][here.bits..] == a[drop + here.bits..];
  }

  lemma {:induction false} LongestOf(sym: nat, n: nat)
    requires 257 <= sym < 286
    ensures var e := Here(LENS, sym, n); e.val + Pow2(e.op % 16) <= MAX_MATCH + 1 && e.op % 16 <= 5 && e.val > 0
  {
    Pow2Values();
    assert Pow2(0) == 1;
    hide Pow2;
  }

  lemma {:induction false} FarthestHere(sym: nat, n: nat)
    requires sym < 30
    ensures var e := Here(DISTS, sym, n); e.val + Pow2(e.op % 16) <= WINDOW + 1 && e.op % 16 <= 13 && e.val > 0
  {
    Pow2Values();
    assert Pow2(11) == 2048 && Pow2(12) == 4096 && Pow2(13) == 8192 && Pow2(0) == 1;
    hide Pow2;
  }

  // What the operation of a literal or length entry says.
  lemma {:induction false} LenOps(l: seq<nat>, held: seq<bool>, drop: nat, e: Code)
    requires LensOk(l) && |l| <= 288 && Resolved(LENS, l, held, drop, e) && drop + e.bits <= |held|
    ensures e.op == 0 ==> e.val < 256
    ensures e.op / 16 % 2 == 1 ==> e.op / 32 % 2 == 0 && e.op / 64 % 2 == 0 && e.op != 0
    ensures e.op / 16 % 2 == 1 ==> e.val + Pow2(e.op % 16) <= MAX_MATCH + 1 && e.op % 16 <= 5 && e.val > 0
    ensures e.op / 16 % 2 == 0 && e.op != 0 ==> e.op / 32 % 2 == 1 || e.op / 64 % 2 == 1
  {
    hide Here, Find, Pow2;
    HereOf(LENS, l, held, drop, e);
    if Find(l, held).Sym? {
      LenOp(Find(l, held).s, e.bits);
      if 257 <= Find(l, held).s < 286 {
        LongestOf(Find(l, held).s, e.bits);
      }
    }
  }

  lemma {:induction false} LenOp(sym: nat, n: nat)
    requires sym < 288
    ensures var e := Here(LENS, sym, n);
            if sym < 256 then e.op == 0 && e.val == sym
            else if sym < 286 && sym != 256 then e.op / 16 % 2 == 1 && e.op / 32 % 2 == 0 && e.op / 64 % 2 == 0
            else e.op != 0 && e.op / 16 % 2 == 0 && (e.op / 32 % 2 == 1 || e.op / 64 % 2 == 1)
  {
  }

  // What the operation of a distance entry says.
  lemma {:induction false} DistOps(l: seq<nat>, held: seq<bool>, drop: nat, e: Code)
    requires LensOk(l) && |l| <= 32 && Resolved(DISTS, l, held, drop, e) && drop + e.bits <= |held|
    ensures e.op / 16 % 2 == 1 ==> e.op / 64 % 2 == 0
    ensures e.op / 16 % 2 == 1 ==> e.val + Pow2(e.op % 16) <= WINDOW + 1 && e.op % 16 <= 13 && e.val > 0
    ensures e.op / 16 % 2 == 0 ==> e.op / 64 % 2 == 1
  {
    hide Here, Find, Pow2;
    HereOf(DISTS, l, held, drop, e);
    if Find(l, held).Sym? {
      DistOp(Find(l, held).s, e.bits);
      if Find(l, held).s < 30 {
        FarthestHere(Find(l, held).s, e.bits);
      }
    }
  }

  lemma {:induction false} DistOp(sym: nat, n: nat)
    requires sym < 32
    ensures var op := Here(DISTS, sym, n).op;
            if sym < 30 then op / 16 % 2 == 1 && op / 64 % 2 == 0 else op / 16 % 2 == 0 && op / 64 % 2 == 1
  {
    hide DEXT, DBASE;
    DextRange(sym);
  }

  /** The fast path has come to mode `m` from `c0`. */
  ghost predicate Gone(s: Inflater, c0: Conf, m: Mode, held0: seq<bool>, start: nat, used: nat)
    reads s, s.output, s.lens, s.lenfix, s.distfix, s.lencode, s.distcode, s.window, s.window.data
  {
    && InBlock(s) && ModeOk(m) && Fed(s, held0, start, used)
    && Reaches(c0, Conf(m, s.Ahead(), s.Hist()))
  }

  // Bytes taken and bits used balance.
  lemma {:induction false} FedBalance(s: Inflater, held0: seq<bool>, start: nat, used: nat)
    requires Fed(s, held0, start, used)
    ensures s.bits == |held0| + 8 * (s.next - start) - used
  {
  }

  lemma {:induction false} GoneOn(s: Inflater, c0: Conf, m: Mode, m1: Mode, a: seq<bool>, h: seq<nat>)
    requires s.Shape() && s.Regs()
    requires Reaches(c0, Conf(m, a, h)) && Reaches(Conf(m, a, h), Conf(m1, s.Ahead(), s.Hist()))
    ensures Reaches(c0, Conf(m1, s.Ahead(), s.Hist()))
  {
    hide Reaches;
    ReachesJoin(c0, Conf(m, a, h), Conf(m1, s.Ahead(), s.Hist()));
  }

  // A symbol that was not there before is longer than what was.
  lemma {:induction false} NewSymbol(kind: CodeType, l: seq<nat>, held: seq<bool>, more: seq<bool>, drop: nat, e: Code)
    requires Usable(kind, l) && held <= more && Find(l, held) == More
    requires Resolved(kind, l, more, drop, e) && drop + e.bits <= |more|
    ensures drop + e.bits > |held|
  {
    hide Here, Rejected;
    HereOf(kind, l, more, drop, e);
    if drop + e.bits <= |held| {
      if Find(l, more).Sym? {
        assert Starts(l, Find(l, more).s, held);
        FindIs(kind, l, Find(l, more).s, held);
      } else {
        NonePrefix(l, held, more);
      }
    }
  }

  // The literal or length symbol of one iteration.
  method FastLen(s: Inflater, ghost c0: Conf, ghost c: Codes, ghost held0: seq<bool>, ghost start: nat, ghost used: nat)
    returns (here: Code, ghost used1: nat)
    requires Gone(s, c0, Len(c), held0, start, used) && c == Codes(s.last, s.lit, s.dist)
    requires s.bits <= 30 && s.next + 2 <= |s.input|
    modifies s`hold, s`bits, s`next
    ensures Gone(s, c0, LenEntry(c, here), held0, start, used1) && s.bits <= 30
    ensures old(s.next) <= s.next <= old(s.next) + 2
    ensures used < used1 <= used + 15 && (Find(c.lit, old(s.Held())) == More ==> used1 - used > |old(s.Held())|)
    ensures here.op == 0 ==> here.val < 256
    ensures here.op / 16 % 2 == 1 ==> here.op / 32 % 2 == 0 && here.op / 64 % 2 == 0 && here.op != 0
    ensures here.op / 16 % 2 == 1 ==> here.val + Pow2(here.op % 16) <= MAX_MATCH + 1 && here.op % 16 <= 5 && here.val > 0
    ensures here.op / 16 % 2 == 0 && here.op != 0 ==> here.op / 32 % 2 == 1 || here.op / 64 % 2 == 1
    ensures s.Hist() == old(s.Hist())
  {
    hide TableFits, Find, Pow2, LensOk, Resolved, ByteBits, ToBits, Num, Fed, LenEntry, CodesOk, IsBytes, SlidingWindow.Holds,
         Reaches, ModeOk, DataMove, Usable, FixedLit, FixedDist;
    LitOk(c);
    ghost var held, h := s.Held(), s.Hist();
    FastFill(s, held0, start, used);
    ghost var full, a := s.Held(), s.Ahead();
    assert s.lencode[0..] == s.lencode[..];
    ghost var drop;
    here, drop := FastSymbol(s, LENS, s.lencode, 0, s.lenbits, s.lit, held0, start, used);
    used1 := used + drop + here.bits;
    LenOps(s.lit, full, drop, here);
    EntryBits(LENS, s.lit, full, drop, here);
    if Find(c.lit, held) == More {
      NewSymbol(LENS, s.lit, held, full, drop, here);
    }
    LenMove(c, full, a, h, drop, here);
    assert h + [] == h;
    LenModeOk(c);
    DataStep(Len(c), a, h, Move(LenEntry(c, here), drop + here.bits, []));
    GoneOn(s, c0, Len(c), LenEntry(c, here), a, h);
  }

  lemma {:induction false} LenModeOk(c: Codes)
    requires CodesOk(c)
    ensures ModeOk(Len(c))
  {
  }

  lemma {:induction false} EntryBits(kind: CodeType, l: seq<nat>, held: seq<bool>, drop: nat, e: Code)
    requires LensOk(l) && |l| <= MaxSyms(kind) && Resolved(kind, l, held, drop, e) && drop + e.bits <= |held|
    ensures drop + e.bits > 0
  {
    hide Here, Find;
    HereOf(kind, l, held, drop, e);
  }

  // One more byte if fewer than `n` bits are held.
  method FastMore(s: Inflater, n: nat, ghost held0: seq<bool>, ghost start: nat, ghost used: nat)
    requires s.Regs() && s.bits <= 30 && n <= 13 && (s.bits < n ==> s.next < |s.input|) && Fed(s, held0, start, used)
    modifies s`hold, s`bits, s`next
    ensures s.Regs() && s.Ahead() == old(s.Ahead()) && s.bits <= 30 && Fed(s, held0, start, used)
    ensures if old(s.bits) < n then s.bits == old(s.bits) + 8 && s.next == old(s.next) + 1
            else s.bits == old(s.bits) && s.next == old(s.next)
  {
    hide ByteBits, ToBits, Pow2;
    if s.bits < n {
      FastByte(s, held0, start, used);
    }
  }

  // The extra bits of a length.
  method FastLenExtra(s: Inflater, len: nat, n: nat, ghost c0: Conf, ghost c: Codes, ghost held0: seq<bool>, ghost start: nat, ghost used: nat)
    returns (r: nat)
    requires Gone(s, c0, LenExt(c, len, n), held0, start, used) && c == Codes(s.last, s.lit, s.dist)
    requires s.bits <= 30 && n <= 5 && (s.bits < n ==> s.next < |s.input|)
    modifies s`hold, s`bits, s`next
    ensures Gone(s, c0, Dist(c, r), held0, start, used + n) && s.bits <= 30 && len <= r < len + Pow2(n)
    ensures s.next == old(s.next) + (if old(s.bits) < n then 1 else 0)
    ensures s.Hist() == old(s.Hist())
  {
    hide TableFits, Find, Pow2, ByteBits, ToBits, Num, Fed, CodesOk, IsBytes, SlidingWindow.Holds,
         Reaches, ModeOk, DataMove, Usable, FixedLit, FixedDist;
    ghost var h, a := s.Hist(), s.Ahead();
    r := len;
    assert a[..0] == [] && a[0..] == a;
    EmptyNum();
    PowPositive(n);
    if n != 0 {
      FastMore(s, n, held0, start, used);
      var v := FastTake(s, n, held0, start, used);
      NumBound(a[..n]);
      r := len + v;
    }
    LenExtStep(c, len, n, a, h, r - len);
    GoneOn(s, c0, LenExt(c, len, n), Dist(c, r), a, h);
  }

  lemma {:induction false} NumBound(b: seq<bool>)
    ensures Num(b) < Pow2(|b|)
  {
  }

  lemma {:induction false} EmptyNum()
    ensures Num([]) == 0
  {
  }

  lemma {:induction false} LenExtStep(c: Codes, len: nat, n: nat, a: seq<bool>, h: seq<nat>, v: nat)
    requires ModeOk(LenExt(c, len, n)) && IsBytes(h) && |a| >= n && v == Num(a[..n])
    ensures ModeOk(Dist(c, len + v)) && Reaches(Conf(LenExt(c, len, n), a, h), Conf(Dist(c, len + v), a[n..], h))
  {
    hide CodesOk, Num;
    ExtMove(LenExt(c, len, n), a, h, v);
    assert h + [] == h;
    DataStep(LenExt(c, len, n), a, h, Move(Dist(c, len + v), n, []));
  }

  lemma {:induction false} DistExtStep(c: Codes, len: nat, dist: nat, n: nat, a: seq<bool>, h: seq<nat>, v: nat)
    requires ModeOk(DistExt(c, len, dist, n)) && IsBytes(h) && |a| >= n && v == Num(a[..n])
    ensures ModeOk(MatchCopy(c, len, dist + v))
    ensures Reaches(Conf(DistExt(c, len, dist, n), a, h), Conf(MatchCopy(c, len, dist + v), a[n..], h))
  {
    hide CodesOk, Num;
    ExtMove(DistExt(c, len, dist, n), a, h, v);
    assert h + [] == h;
    DataStep(DistExt(c, len, dist, n), a, h, Move(MatchCopy(c, len, dist + v), n, []));
  }

  // The distance symbol of one iteration.
  method FastDist(s: Inflater, len: nat, ghost c0: Conf, ghost c: Codes, ghost held0: seq<bool>, ghost start: nat, ghost used: nat)
    returns (here: Code, ghost used1: nat)
    requires Gone(s, c0, Dist(c, len), held0, start, used) && c == Codes(s.last, s.lit, s.dist)
    requires s.bits <= 30 && (s.bits < 15 ==> s.next + 2 <= |s.input|)
    modifies s`hold, s`bits, s`next
    ensures Gone(s, c0, DistEntry(c, len, here), held0, start, used1) && s.bits <= 30
    ensures s.next == old(s.next) + (if old(s.bits) < 15 then 2 else 0)
    ensures used < used1 <= used + 15
    ensures here.op / 16 % 2 == 1 ==> here.op / 64 % 2 == 0
    ensures here.op / 16 % 2 == 1 ==> here.val + Pow2(here.op % 16) <= WINDOW + 1 && here.op % 16 <= 13 && here.val > 0
    ensures here.op / 16 % 2 == 0 ==> here.op / 64 % 2 == 1
    ensures s.Hist() == old(s.Hist())
  {
    hide TableFits, Find, Pow2, LensOk, Resolved, ByteBits, ToBits, Num, Fed, DistEntry, CodesOk, IsBytes, SlidingWindow.Holds,
         Reaches, DataMove, Usable, FixedLit, FixedDist;
    LitOk(c);
    ghost var h := s.Hist();
    FastFill(s, held0, start, used);
    ghost var full, a := s.Held(), s.Ahead();
    ghost var drop;
    here, drop := FastSymbol(s, DISTS, s.distcode, s.distoff, s.distbits, s.dist, held0, start, used);
    used1 := used + drop + here.bits;
    DistOps(s.dist, full, drop, here);
    EntryBits(DISTS, s.dist, full, drop, here);
    DistMove(c, len, full, a, h, drop, here);
    assert h + [] == h;
    DataStep(Dist(c, len), a, h, Move(DistEntry(c, len, here), drop + here.bits, []));
    GoneOn(s, c0, Dist(c, len), DistEntry(c, len, here), a, h);
  }

  // The extra bits of a distance.
  method FastDistExtra(s: Inflater, len: nat, dist: nat, n: nat, ghost c0: Conf, ghost c: Codes, ghost held0: seq<bool>,
                       ghost start: nat, ghost used: nat)
    returns (r: nat)
    requires Gone(s, c0, DistExt(c, len, dist, n), held0, start, used) && c == Codes(s.last, s.lit, s.dist)
    requires s.bits <= 30 && n <= 13 && (s.bits < n ==> s.next < |s.input|) && (s.bits + 8 < n ==> s.next + 1 < |s.input|)
    modifies s`hold, s`bits, s`next
    ensures Gone(s, c0, MatchCopy(c, len, r), held0, start, used + n) && s.bits <= 30 && dist <= r < dist + Pow2(n)
    ensures s.next == old(s.next) + (if old(s.bits) + 8 < n then 2 else if old(s.bits) < n then 1 else 0)
    ensures s.Hist() == old(s.Hist())
  {
    hide TableFits, Find, Pow2, ByteBits, ToBits, Num, Fed, CodesOk, IsBytes, SlidingWindow.Holds,
         Reaches, ModeOk, DataMove, Usable, FixedLit, FixedDist;
    ghost var h, a := s.Hist(), s.Ahead();
    r := dist;
    assert a[..0] == [] && a[0..] == a;
    EmptyNum();
    PowPositive(n);
    if n != 0 {
      FastMore(s, n, held0, start, used);
      FastMore(s, n, held0, start, used);
      var v := FastTake(s, n, held0, start, used);
      NumBound(a[..n]);
      r := dist + v;
    }
    DistExtStep(c, len, dist, n, a, h, r - dist);
    GoneOn(s, c0, DistExt(c, len, dist, n), MatchCopy(c, len, r), a, h);
  }

  // What lies before the start of a window that has wrapped round has been copied; copy on from its start.
  method FastWrapped(s: Inflater, len: nat, dist: nat, run: nat, ghost c1: Conf, ghost c: Codes) returns (run1: nat)
    requires InBlock(s) && c == Codes(s.last, s.lit, s.dist) && run <= len && s.put + (len - run) <= s.output.Length
    requires 0 < dist <= |s.Hist()| && dist <= WINDOW && Copying(s, c1, c, len, dist, run)
    requires s.window.wnext == 0 || dist == s.put + s.window.wnext
    modifies s`put, s.output
    ensures run <= run1 <= len && s.put == old(s.put) + (run1 - run) && Copying(s, c1, c, len, dist, run1)
    ensures s.output[..old(s.put)] == old(s.output[..s.put]) && (run1 < len && s.window.wnext > 0 ==> dist <= s.put)
  {
    hide Copying, CodesOk, BlockTables, Inflater.FixedOk, IsBytes, Recent, SlidingWindow.Holds, Pow2;
    var wnext := s.window.wnext;
    run1 := run;
    if wnext > 0 {
      var n := if wnext < len - run then wnext else len - run;
      CopyPiece(s, wnext, n, c1, c, len, dist, run);
      run1 := run + n;
    }
  }

  // Copy the rest of a match from the window, in at most two pieces, and then from the output.
  method FastFromWindow(s: Inflater, len: nat, dist: nat, ghost c1: Conf, ghost c: Codes)
    requires InBlock(s) && c == Codes(s.last, s.lit, s.dist) && s.put + len <= s.output.Length && len > 0
    requires s.put < dist <= |s.Hist()| && dist <= WINDOW && Copying(s, c1, c, len, dist, 0)
    modifies s`put, s.output
    ensures s.put == old(s.put) + len && Copying(s, c1, c, len, dist, len)
    ensures s.output[..old(s.put)] == old(s.output[..s.put])
  {
    hide Copying, CodesOk, TableFits, FixedLit, FixedDist, IsBytes, Recent, SlidingWindow.Holds, Pow2;
    ghost var p := s.put;
    var op := dist - s.put;
    var wnext := s.window.wnext;
    var run := WindowRun(wnext, op);
    if run > len {
      run := len;
    }
    CopyPiece(s, op, run, c1, c, len, dist, 0);
    ghost var q := s.put;
    CopiedSome(s, c1, c, len, dist, run);
    if run < len {
      FastRest(s, len, dist, run, op > wnext, c1, c);
      assert s.output[..p] == s.output[..q][..p];
    }
  }

  // Copy the part of a match behind the first piece of the window.
  method FastRest(s: Inflater, len: nat, dist: nat, run: nat, wrapped: bool, ghost c1: Conf, ghost c: Codes)
    requires InBlock(s) && c == Codes(s.last, s.lit, s.dist) && run < len && s.put + (len - run) <= s.output.Length
    requires 0 < dist <= |s.Hist()| && dist <= WINDOW && Copying(s, c1, c, len, dist, run)
    requires if wrapped then dist == s.put + s.window.wnext else dist <= s.put
    modifies s`put, s.output
    ensures s.put == old(s.put) + (len - run) && Copying(s, c1, c, len, dist, len)
    ensures s.output[..old(s.put)] == old(s.output[..s.put])
  {
    hide Copying, CodesOk, BlockTables, Inflater.FixedOk, IsBytes, Recent, SlidingWindow.Holds, Pow2;
    ghost var p := s.put;
    var done := run;
    if wrapped {
      done := FastWrapped(s, len, dist, run, c1, c);
    }
    ghost var q := s.put;
    if done < len {
      CopyFromOutput(s, len - done, dist, c1, c, len, done);
      assert s.output[..p] == s.output[..q][..p];
    }
  }

  /** The copy of one iteration: from the window as far as the distance goes back there. */
  method FastCopy(s: Inflater, len: nat, dist: nat, ghost c0: Conf, ghost c: Codes, ghost held0: seq<bool>, ghost start: nat, ghost used: nat)
    returns (ok: bool)
    requires Gone(s, c0, MatchCopy(c, len, dist), held0, start, used) && c == Codes(s.last, s.lit, s.dist)
    requires len <= MAX_MATCH && s.put + MAX_MATCH <= s.output.Length
    modifies s`put, s.output
    ensures Gone(s, c0, if ok then Len(c) else Bad, held0, start, used)
    ensures s.put == old(s.put) + (if ok then len else 0) && s.output[..old(s.put)] == old(s.output[..s.put])
  {
    hide Copying, Recent, SlidingWindow.Holds, Pow2, Reaches, IsBytes, CodesOk, ToBits, ByteBits, TableFits,
         FixedLit, FixedDist;
    HaveOf(s.window, s.before);
    TooFar(s.put, dist, s.window.whave, |s.before|);
    ghost var a, h := s.Ahead(), s.Hist();
    ghost var c1 := Conf(MatchCopy(c, len, dist), a, h);
    ok := !(dist > s.put && dist - s.put > s.window.whave);
    if !ok {
      TooFarMove(c, len, dist, a, h);
      GoneOn(s, c0, MatchCopy(c, len, dist), Bad, a, h);
      return;
    }
    CopyingStart(s, c1, c, len, dist);
    if dist > s.put {
      FastFromWindow(s, len, dist, c1, c);
    } else {
      CopyFromOutput(s, len, dist, c1, c, len, 0);
    }
    CopiedSome(s, c1, c, len, dist, len);
    LenModeOk(c);
    GoneOn(s, c0, MatchCopy(c, len, dist), Len(c), a, h);
  }

  // The rest of an iteration after a length symbol.
  method FastMatch(s: Inflater, here: Code, ghost c0: Conf, ghost c: Codes, ghost held0: seq<bool>, ghost start: nat, ghost used: nat,
                   ghost b0: nat, ghost n0: nat, ghost used0: nat)
    returns (m: Op, ghost used1: nat)
    requires Gone(s, c0, LenExt(c, here.val, here.op % 16), held0, start, used) && c == Codes(s.last, s.lit, s.dist)
    requires here.val + Pow2(here.op % 16) <= MAX_MATCH + 1 && here.op % 16 <= 5
    requires s.put + MAX_MATCH <= s.output.Length && s.bits <= 30
    requires n0 <= s.next <= n0 + 2 && n0 + 6 <= |s.input| && start <= n0 && b0 == |held0| + 8 * (n0 - start) - used0 <= 30
    requires used0 <= used <= used0 + 15
    modifies s`hold, s`bits, s`next, s`put, s.output
    ensures m.LEN? || m.BAD?
    ensures Gone(s, c0, if m.LEN? then Len(c) else Bad, held0, start, used1) && used1 >= used && s.bits <= 30
    ensures s.next <= n0 + 6 && old(s.put) <= s.put <= old(s.put) + MAX_MATCH
    ensures s.output[..old(s.put)] == old(s.output[..s.put])
  {
    hide Gone, Fed, Reaches, CodesOk, Pow2, DistEntry, BlockTables, IsBytes;
    FedBalance2(s, c0, LenExt(c, here.val, here.op % 16), held0, start, used);
    used1 := used + here.op % 16;
    var len := FastLenExtra(s, here.val, here.op % 16, c0, c, held0, start, used);
    FedBalance2(s, c0, Dist(c, len), held0, start, used1);
    var e;
    e, used1 := FastDist(s, len, c0, c, held0, start, used1);
    FedBalance2(s, c0, DistEntry(c, len, e), held0, start, used1);
    DistEntryCases(c, len, e);
    if e.op / 16 % 2 == 0 {
      return BAD, used1;
    }
    var dist := FastDistExtra(s, len, e.val, e.op % 16, c0, c, held0, start, used1);
    used1 := used1 + e.op % 16;
    var ok := FastCopy(s, len, dist, c0, c, held0, start, used1);
    m := if ok then LEN else BAD;
  }

  lemma {:induction false} DistEntryCases(c: Codes, len: nat, e: Code)
    requires e.op / 16 % 2 == 1 ==> e.op / 64 % 2 == 0
    requires e.op / 16 % 2 == 0 ==> e.op / 64 % 2 == 1
    ensures DistEntry(c, len, e) == if e.op / 16 % 2 == 1 then DistExt(c, len, e.val, e.op % 16) else Bad
  {
  }

  lemma {:induction false} FedBalance2(s: Inflater, c0: Conf, m: Mode, held0: seq<bool>, start: nat, used: nat)
    requires Gone(s, c0, m, held0, start, used)
    ensures s.Shape() && s.Regs() && start <= s.next && s.bits == |held0| + 8 * (s.next - start) - used
  {
    FedBalance(s, held0, start, used);
  }

  // Write a literal on the fast path.
  method FastLiteral(s: Inflater, x: nat, ghost c0: Conf, ghost c: Codes, ghost held0: seq<bool>, ghost start: nat, ghost used: nat)
    requires Gone(s, c0, Lit(c, x), held0, start, used) && c == Codes(s.last, s.lit, s.dist) && x < 256 && s.put < s.output.Length
    modifies s`put, s.output
    ensures Gone(s, c0, Len(c), held0, start, used) && s.put == old(s.put) + 1
    ensures s.output[..old(s.put)] == old(s.output[..s.put])
  {
    hide Reaches, IsBytes, CodesOk, ToBits, ByteBits, TableFits, FixedLit, FixedDist, SlidingWindow.Holds, Pow2;
    ghost var a, h, o := s.Ahead(), s.Hist(), s.output[..s.put];
    LitMove(c, x, a, h);
    s.output[s.put] := x;
    s.put := s.put + 1;
    assert s.output[..s.put] == o + [x];
    assert s.before + (o + [x]) == h + [x];
    GoneOn(s, c0, Lit(c, x), Len(c), a, h);
  }

  // Where the fast path stands in terms of the machine.
  function FastMode(m: Op, c: Codes): Mode {
    if m.LEN? then Len(c) else if m.TYPEDO? then TypeDo(c.last) else Bad
  }

  /** One iteration of the fast path: it takes at most six bytes and writes at most 258. */
  method FastStep(s: Inflater, ghost c0: Conf, ghost c: Codes, ghost held0: seq<bool>, ghost start: nat, ghost used: nat)
    returns (m: Op, ghost used1: nat)
    requires Gone(s, c0, Len(c), held0, start, used) && c == Codes(s.last, s.lit, s.dist)
    requires s.next + 6 <= |s.input| && s.put + MAX_MATCH <= s.output.Length && s.bits <= 30
    modifies s`hold, s`bits, s`next, s`put, s.output
    ensures m.LEN? || m.TYPEDO? || m.BAD?
    ensures Gone(s, c0, FastMode(m, c), held0, start, used1) && s.bits <= 30
    ensures used1 > used && (Find(c.lit, old(s.Held())) == More ==> used1 - used > |old(s.Held())|)
    ensures s.next <= old(s.next) + 6 && old(s.put) <= s.put <= old(s.put) + MAX_MATCH
    ensures s.output[..old(s.put)] == old(s.output[..s.put])
  {
    hide Gone, Fed, Reaches, CodesOk, Pow2, BlockTables, IsBytes, Find, LensOk;
    ghost var b0, n0, z := s.bits, s.next, s.Held();
    GoneShape(s, c0, Len(c), held0, start, used);
    FedBalance2(s, c0, Len(c), held0, start, used);
    var here;
    here, used1 := FastLen(s, c0, c, held0, start, used);
    FedBalance2(s, c0, LenEntry(c, here), held0, start, used1);
    if here.op == 0 {
      FastLiteral(s, here.val, c0, c, held0, start, used1);
      m := LEN;
    } else if here.op / 16 % 2 == 1 {
      ghost var used2;
      m, used2 := FastMatch(s, here, c0, c, held0, start, used1, b0, n0, used);
      used1 := used2;
    } else if here.op / 32 % 2 == 1 {
      m := TYPEDO;
    } else {
      m := BAD;
    }
  }

  lemma {:induction false} GoneShape(s: Inflater, c0: Conf, m: Mode, held0: seq<bool>, start: nat, used: nat)
    requires Gone(s, c0, m, held0, start, used)
    ensures s.Shape() && s.Regs() && LensOk(s.lit)
  {
  }

  // Whole bytes at the end of the bits held are the last bytes taken.
  lemma {:induction false} TailBytes(held0: seq<bool>, taken: seq<nat>, used: nat, k: nat)
    requires k <= |taken| && used <= |held0| + 8 * (|taken| - k)
    ensures (held0 + ByteBits(taken))[used..] == (held0 + ByteBits(taken[..|taken| - k]))[used..] + ByteBits(taken[|taken| - k..])
  {
    var j := |taken| - k;
    assert taken == taken[..j] + taken[j..];
    ByteBitsConcat(taken[..j], taken[j..]);
    assert held0 + ByteBits(taken) == held0 + ByteBits(taken[..j]) + ByteBits(taken[j..]);
  }

  lemma {:induction false} GiveBack(s: Inflater, held0: seq<bool>, start: nat, used: nat)
    requires s.Regs() && Fed(s, held0, start, used) && |held0| < used + 8
    ensures s.bits / 8 <= s.next - start
    ensures s.Held() == s.Held()[..s.bits % 8] + ByteBits(s.input[s.next - s.bits / 8..s.next])
    ensures s.Ahead() == s.Held()[..s.bits % 8] + ByteBits(s.input[s.next - s.bits / 8..])
  {
    hide ToBits, ByteBits, Pow2, IsBytes;
    var k := s.bits / 8;
    var taken := s.input[start..s.next];
    FedBalance(s, held0, start, used);
    TailBytes(held0, taken, used, k);
    assert taken[|taken| - k..] == s.input[s.next - k..s.next];
    assert s.input[s.next - k..] == s.input[s.next - k..s.next] + s.input[s.next..];
    ByteBitsConcat(s.input[s.next - k..s.next], s.input[s.next..]);
  }

  // The low bits of the accumulator.
  lemma {:induction false} LowBits(h: nat, n: nat, k: nat)
    requires k <= n
    ensures Low(h, k) < Pow2(k) && ToBits(Low(h, k), k) == ToBits(h, n)[..k]
  {
    ToBitsSplit(h, k, n - k);
    ToBitsLow(h, k);
  }

  /** Return unused bytes; fewer than 8 bits stay in the accumulator. */
  method ReturnBytes(s: Inflater, ghost held0: seq<bool>, ghost start: nat, ghost used: nat)
    requires s.Regs() && Fed(s, held0, start, used) && |held0| < used + 8
    modifies s`hold, s`bits, s`next
    ensures s.Regs() && s.bits < 8 && s.Ahead() == old(s.Ahead()) && s.next >= start
  {
    hide ToBits, ByteBits, Pow2, Low, Fed;
    GiveBack(s, held0, start, used);
    FedStarts(s, held0, start, used);
    LowBits(s.hold, s.bits, s.bits % 8);
    var len := s.bits / 8;
    s.next := s.next - len;
    s.bits := s.bits - len * 8;
    s.hold := Low(s.hold, s.bits);
  }

  lemma {:induction false} FedStarts(s: Inflater, held0: seq<bool>, start: nat, used: nat)
    requires Fed(s, held0, start, used)
    ensures start <= s.next <= |s.input|
  {
  }

  lemma {:induction false} FastStart(s: Inflater, c: Codes)
    requires s.Valid() && s.mode.LEN? && c == Codes(s.last, s.lit, s.dist)
    ensures Gone(s, s.Now(), Len(c), s.Held(), s.next, 0) && s.bits <= 14 && (s.bits < 8 || Find(c.lit, s.Held()) == More)
    ensures LensOk(c.lit)
  {
    hide Step, TableFits, SlidingWindow.Holds, Reaches, FixedLit, FixedDist, Find, Rejected;
    ViewOf(s);
    ValidDecoding(s);
    LenSlack(s);
    FedStart(s);
    Stay(s);
    if s.bits > 14 {
      EnoughBits(LENS, c.lit, s.Held());
    }
  }

  lemma {:induction false} FastEnd(s: Inflater, c0: Conf, c: Codes, m: Op)
    requires InBlock(s) && ModeOk(FastMode(m, c)) && c == Codes(s.last, s.lit, s.dist) && s.bits < 8
    requires (m.LEN? || m.TYPEDO? || m.BAD?) && s.mode == m
    requires Reaches(c0, Conf(FastMode(m, c), s.Ahead(), s.Hist()))
    ensures s.Valid() && Reaches(c0, s.Now())
  {
    hide Step, TableFits, SlidingWindow.Holds, Reaches, FixedLit, FixedDist, Usable;
    ViewOf(s);
    SettleData(s);
  }

  lemma {:induction false} GoneParts(s: Inflater, c0: Conf, m: Mode, held0: seq<bool>, start: nat, used: nat)
    requires Gone(s, c0, m, held0, start, used)
    ensures InBlock(s) && ModeOk(m) && Fed(s, held0, start, used) && Reaches(c0, Conf(m, s.Ahead(), s.Hist()))
    ensures |s.Ahead()| + used == |held0| + 8 * (|s.input| - start)
  {
    FedBalance(s, held0, start, used);
  }

  // Where the loop of the fast path stands.
  ghost predicate FastAt(s: Inflater, m: Op, c0: Conf, c: Codes, held0: seq<bool>, start: nat, used: nat)
    reads s, s.output, s.lens, s.lenfix, s.distfix, s.lencode, s.distcode, s.window, s.window.data
  {
    && (m.LEN? || m.TYPEDO? || m.BAD?) && c == Codes(s.last, s.lit, s.dist)
    && Gone(s, c0, FastMode(m, c), held0, start, used) && s.bits <= 30 && used > 0 && |held0| < used + 8
    && s.Shape() && s.next <= |s.input| && s.put <= s.output.Length
  }

  // The first iteration.
  method FastFirst(s: Inflater) returns (m: Op, ghost used: nat)
    requires s.Valid() && s.mode.LEN? && s.next + 6 <= |s.input| && s.put + MAX_MATCH <= s.output.Length
    modifies s`hold, s`bits, s`next, s`put, s.output
    ensures FastAt(s, m, old(s.Now()), Codes(s.last, s.lit, s.dist), old(s.Held()), old(s.next), used)
    ensures s.put >= old(s.put) && s.output[..old(s.put)] == old(s.output[..s.put])
  {
    hide Inflater.Slack, Gone, Fed, Reaches, CodesOk, Pow2, IsBytes, Find, LensOk, TableFits, SlidingWindow.Holds, Step,
         FixedLit, FixedDist, Inflater.View, ToBits, ByteBits, FastMode;
    ghost var c, c0, held0, start := Codes(s.last, s.lit, s.dist), s.Now(), s.Held(), s.next;
    FastStart(s, c);
    m, used := FastStep(s, c0, c, held0, start, 0);
    FastShape(s, c0, FastMode(m, c), held0, start, used);
  }

  lemma {:induction false} FastShape(s: Inflater, c0: Conf, m: Mode, held0: seq<bool>, start: nat, used: nat)
    requires Gone(s, c0, m, held0, start, used)
    ensures s.Shape() && s.Regs()
  {
    hide Fed, Reaches, CodesOk, Pow2, IsBytes, TableFits, SlidingWindow.Holds, ModeOk;
  }

  // One more iteration.
  method FastNext(s: Inflater, ghost c0: Conf, ghost c: Codes, ghost held0: seq<bool>, ghost start: nat, ghost used: nat)
    returns (m: Op, ghost used1: nat)
    requires FastAt(s, LEN, c0, c, held0, start, used) && s.next + 6 <= |s.input| && s.put + MAX_MATCH <= s.output.Length
    modifies s`hold, s`bits, s`next, s`put, s.output
    ensures FastAt(s, m, c0, c, held0, start, used1) && used < used1 <= |held0| + 8 * (|s.input| - start)
    ensures s.put >= old(s.put) && s.output[..old(s.put)] == old(s.output[..s.put])
  {
    hide Gone, Fed, Reaches, CodesOk, Pow2, IsBytes, Find, LensOk, TableFits, SlidingWindow.Holds, FixedLit, FixedDist, FastMode;
    LenFastMode(c);
    m, used1 := FastStep(s, c0, c, held0, start, used);
    GoneParts(s, c0, FastMode(m, c), held0, start, used1);
    FastShape(s, c0, FastMode(m, c), held0, start, used1);
  }

  // Give unused bytes back and leave the fast path.
  method FastLeave(s: Inflater, m: Op, ghost c0: Conf, ghost c: Codes, ghost held0: seq<bool>, ghost start: nat, ghost used: nat)
    requires FastAt(s, m, c0, c, held0, start, used)
    modifies s`hold, s`bits, s`next, s`mode
    ensures s.Valid() && Reaches(c0, s.Now()) && s.bits < 8 && s.mode == m
    ensures |s.Ahead()| + used == |held0| + 8 * (|s.input| - start)
  {
    hide Inflater.Slack, Gone, Fed, Reaches, CodesOk, Pow2, IsBytes, TableFits, SlidingWindow.Holds,
         FixedLit, FixedDist, Inflater.View, ToBits, ByteBits, FastMode;
    GoneParts(s, c0, FastMode(m, c), held0, start, used);
    ReturnBytes(s, held0, start, used);
    s.mode := m;
    FastEnd(s, c0, c, m);
  }

  lemma {:induction false} AheadLength(s: Inflater)
    requires s.next <= |s.input|
    ensures |s.Ahead()| == s.bits + 8 * (|s.input| - s.next) && |s.Held()| == s.bits
  {
  }

  /** inflate_fast: decode symbols while there are six bytes of input and room for a whole match. */
  method InflateFast(s: Inflater)
    requires s.Valid() && s.mode.LEN? && s.next + 6 <= |s.input| && s.put + MAX_MATCH <= s.output.Length
    modifies s`hold, s`bits, s`next, s`mode, s`put, s.output
    ensures s.Valid() && Reaches(old(s.Now()), s.Now()) && s.bits < 8
    ensures s.mode.LEN? || s.mode.TYPEDO? || s.mode.BAD?
    ensures |s.Ahead()| < |old(s.Ahead())| && s.put >= old(s.put)
    ensures s.output[..old(s.put)] == old(s.output[..s.put])
  {
    hide Inflater.Valid, Gone, Fed, Reaches, CodesOk, Pow2, IsBytes, Find, LensOk, TableFits, SlidingWindow.Holds, Step,
         FixedLit, FixedDist, Inflater.View, ToBits, ByteBits, FastMode;
    ValidShape(s);
    ghost var c, c0, held0, start := Codes(s.last, s.lit, s.dist), s.Now(), s.Held(), s.next;
    AheadLength(s);
    ghost var p := s.put;
    ghost var used: nat;
    var m: Op;
    m, used := FastFirst(s);
    while m.LEN? && s.next + 6 <= |s.input| && s.put + MAX_MATCH <= s.output.Length
      invariant FastAt(s, m, c0, c, held0, start, used)
      invariant p <= s.put && s.output[..p] == old(s.output[..s.put])
      decreases |held0| + 8 * (|s.input| - start) - used
    {
      ghost var q := s.put;
      m, used := FastNext(s, c0, c, held0, start, used);
      assert s.output[..p] == s.output[..q][..p];
    }
    FastLeave(s, m, c0, c, held0, start, used);
  }

  lemma {:induction false} LenFastMode(c: Codes)
    ensures FastMode(LEN, c) == Len(c)
  {
  }
}
