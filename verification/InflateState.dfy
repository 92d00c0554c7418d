/** The state of inflate between and within calls (inflate.h), and its bit accumulator. */
module InflateState {
  import opened Bits
  import opened Canonical
  import opened TableCells
  import opened CodeCounts
  import opened DecodeTable
  import opened Inftrees
  import opened FixedCodes
  import opened Tokens
  import opened BlockMachine
  import opened BitWriter
  import opened GenCodes
  import opened Lookup
  import opened Window
  import opened BlockHeader

  datatype Op = TYPEDO | STORED | COPY | TABLE | LENLENS | CODELENS | LEN | LENEXT | DIST | DISTEXT | MATCH | LIT | DONE | BAD

  const ENOUGH: nat := ENOUGH_LENS + ENOUGH_DISTS

  class Inflater {
    // the buffers of the current call
    var input: seq<nat>
    var next: nat                 // bytes of input taken
    var output: array<nat>
    var put: nat                  // bytes of output written
    // the bit accumulator
    var hold: nat
    var bits: nat
    // the decoder
    var mode: Op
    var last: bool
    var length: nat
    var offset: nat
    var extra: nat
    var ncode: nat
    var nlen: nat
    var ndist: nat
    var have: nat
    const lens: array<nat>
    const codes: array<Code>
    const lenfix: array<Code>
    const distfix: array<Code>
    var lencode: array<Code>
    var lenbits: nat
    var distcode: array<Code>
    var distoff: nat              // where the distance table starts in its array
    var distbits: nat
    const window: SlidingWindow
    ghost var cl: seq<nat>        // the code length code in use
    ghost var lit: seq<nat>       // the literal and distance code lengths in use
    ghost var dist: seq<nat>
    ghost var before: seq<nat>    // the output of earlier calls

    /** inflateInit, for a raw stream and a window of 32K; the fixed tables are at hand. */
    constructor (lenfix: array<Code>, distfix: array<Code>)
      requires lenfix != distfix
      requires TableFits(LENS, FixedLit(), lenfix[..], 9) && TableFits(DISTS, FixedDist(), distfix[..], 5)
      ensures Valid() && before == [] && put == 0 && bits == 0 && mode == TYPEDO && !last && input == []
      ensures fresh(lens) && fresh(codes) && fresh(window) && fresh(window.data) && fresh(output)
      ensures this.lenfix == lenfix && this.distfix == distfix
    {
      hide TableFits, SlidingWindow.Holds;
      input, next, output, put := [], 0, new nat[0], 0;
      hold, bits := 0, 0;
      mode, last := TYPEDO, false;
      length, offset, extra, ncode, nlen, ndist, have := 0, 0, 0, 0, 0, 0, 0;
      lens := new nat[320](_ => 0);
      codes := new Code[ENOUGH](_ => INVALID);
      this.lenfix, this.distfix := lenfix, distfix;
      lencode, lenbits, distcode, distoff, distbits := lenfix, 9, distfix, 0, 5;
      window := new SlidingWindow();
      cl, lit, dist, before := [], [], [], [];
    }

    // The bits held, and all bits not yet taken.
    ghost function Held(): (b: seq<bool>)
      reads this
      ensures |b| == bits
    {
      ToBits(hold, bits)
    }

    ghost function Ahead(): (b: seq<bool>)
      reads this
      requires next <= |input|
    {
      Held() + ByteBits(input[next..])
    }

    ghost function Hist(): seq<nat>
      reads this, output
      requires put <= output.Length
    {
      before + output[..put]
    }

    ghost function LensSent(): seq<nat>
      reads this, lens
      requires have <= 19 && lens.Length >= 19
    {
      Ordered(lens[..19], have)
    }

    // The mode of the block machine that the fields stand for.
    ghost function View(): Mode
      reads this, lens
      requires lens.Length >= 320 && have <= 316 && (mode.LENLENS? ==> have <= 19)
    {
      var c := Codes(last, lit, dist);
      match mode
      case TYPEDO => TypeDo(last)
      case STORED => Stored(last)
      case COPY => Copy(last, length)
      case TABLE => Table(last)
      case LENLENS => LenLens(last, nlen, ndist, ncode, LensSent())
      case CODELENS => CodeLens(last, nlen, ndist, cl, lens[..have])
      case LEN => Len(c)
      case LENEXT => LenExt(c, length, extra)
      case DIST => Dist(c, length)
      case DISTEXT => DistExt(c, length, offset, extra)
      case MATCH => MatchCopy(c, length, offset)
      case LIT => Lit(c, length)
      case DONE => Done
      case BAD => Bad
    }

    // The registers are in range.
    ghost predicate Regs()
      reads this, output
    {
      && next <= |input| && IsBytes(input) && put <= output.Length
      && bits <= 32 && hold < Pow2(bits)
    }

    // The tables of the fixed codes.
    ghost predicate FixedOk()
      reads this, lenfix, distfix
    {
      TableFits(LENS, FixedLit(), lenfix[..], 9) && TableFits(DISTS, FixedDist(), distfix[..], 5)
    }

    // The tables that the mode reads are there.
    ghost predicate Tables()
      reads this, lencode, distcode
    {
      && (mode.CODELENS? ==> TableFits(CODES, cl, lencode[..], lenbits) && MaxLen(cl) <= lenbits)
      && (mode.LEN? || mode.LENEXT? || mode.DIST? || mode.DISTEXT? || mode.MATCH? || mode.LIT? ==>
            && TableFits(LENS, lit, lencode[..], lenbits)
            && distoff <= distcode.Length && TableFits(DISTS, dist, distcode[distoff..], distbits))
    }

    ghost predicate Shape()
      reads this, window
    {
      && lens.Length == 320 && codes.Length == ENOUGH
      && codes != lenfix && codes != distfix && lenfix != distfix
      && output != lens && output != window.data && lens != window.data
      && have <= 316 && (mode.LENLENS? ==> have <= 19)
    }

    ghost predicate Valid()
      reads this, output, lens, codes, lenfix, distfix, lencode, distcode, window, window.data
    {
      && Shape() && Regs() && FixedOk() && Tables()
      && IsBytes(Hist()) && ModeOk(View())
      && (window.Holds(before) || ((mode.DONE? || mode.BAD?) && window.wsize == 0))
      && Slack() && (mode.COPY? ==> bits == 0)
    }

    // Eight bits or more are held only while they are not enough to go on.
    ghost predicate Slack()
      reads this, output, lens, window
      requires Shape() && Regs() && IsBytes(Hist()) && ModeOk(View())
    {
      bits < 8 || Step(View(), Held(), Hist()).None?
    }

    /** PULLBYTE: add a byte of input to the accumulator, if there is one. */
    method PullByte() returns (ok: bool)
      requires Regs() && bits <= 24
      modifies this`hold, this`bits, this`next
      ensures Regs() && Ahead() == old(Ahead()) && old(Held()) <= Held()
      ensures ok == (old(next) < |input|) && next == old(next) + (if ok then 1 else 0)
      ensures bits == old(bits) + if ok then 8 else 0
      ensures if ok then Held() == old(Held()) + ToBits(input[old(next)], 8) else hold == old(hold)
    {
      hide ToBits, ByteBits, Pow2, Low;
      ok := next < |input|;
      if ok {
        ghost var h, b, x, rest := hold, bits, input[next], input[next + 1..];
        PulledBits(h, b, x, rest);
        assert input[next..] == [x] + rest;
        hold := hold + Pow2(bits) * input[next];
        bits := bits + 8;
        next := next + 1;
      }
    }

    /** NEEDBITS: the accumulator holds `n` bits, or all the input is in it. */
    method NeedBits(n: nat) returns (ok: bool)
      requires Regs() && (n <= 25 || (n <= 32 && bits % 8 == 0))
      modifies this`hold, this`bits, this`next
      ensures Regs() && Ahead() == old(Ahead()) && old(Held()) <= Held()
      ensures ok == (bits >= n) && (!ok ==> next == |input|)
      ensures bits == old(bits) || bits < n + 8
      ensures bits % 8 == old(bits) % 8
    {
      hide Ahead, Held, Pow2;
      ok := true;
      while bits < n
        invariant Regs() && Ahead() == old(Ahead()) && old(Held()) <= Held()
        invariant bits == old(bits) || bits < n + 8
        invariant bits % 8 == old(bits) % 8
        decreases 40 - bits
      {
        ok := PullByte();
        if !ok {
          return;
        }
      }
    }

    /** BITS and DROPBITS: take `n` bits out of the accumulator. */
    method TakeBits(n: nat) returns (v: nat)
      requires Regs() && n <= bits
      modifies this`hold, this`bits
      ensures Regs() && bits == old(bits) - n && Ahead() == old(Ahead())[n..] && Held() == old(Held())[n..]
      ensures v == Num(old(Ahead())[..n]) == Num(old(Held())[..n])
    {
      hide ToBits, ByteBits, Pow2, Low, Shr, Num;
      ghost var a := Ahead();
      DroppedBits(hold, bits, n);
      assert a[..n] == Held()[..n] && a[n..] == Held()[n..] + ByteBits(input[next..]);
      v := Low(hold, n);
      hold := Shr(hold, n);
      bits := bits - n;
    }

    ghost function Now(): Conf
      reads this, output, lens
      requires next <= |input| && put <= output.Length
      requires lens.Length >= 320 && have <= 316 && (mode.LENLENS? ==> have <= 19)
    {
      Conf(View(), Ahead(), Hist())
    }
  }

  lemma {:induction false} ValidShape(s: Inflater)
    requires s.Valid()
    ensures s.Shape() && s.Regs()
  {
    hide TableFits, SlidingWindow.Holds, Step, ModeOk;
  }

  // The code is usable and the table decodes it.
  ghost predicate TableFits(kind: CodeType, l: seq<nat>, T: seq<Code>, root: nat) {
    Usable(kind, l) && TableFor(kind, l, T, root)
  }

  lemma {:induction false} WiderShort(T: seq<Code>, n: nat, root: nat, c: seq<bool>, here: Code)
    requires n <= |T| && Short(T[..n], root, c, here)
    ensures Short(T, root, c, here)
  {
    forall p: seq<bool> {:trigger Num(p)} | |p| == root && c <= p
      ensures T[Num(p)] == here
    {
      assert T[..n][Num(p)] == here;
    }
  }

  lemma {:induction false} WiderLong(T: seq<Code>, n: nat, root: nat, c: seq<bool>, here: Code)
    requires n <= |T| && Long(T[..n], root, n, c, here)
    ensures Long(T, root, |T|, c, here)
  {
    var e := T[..n][Num(c[..root])];
    assert T[Num(c[..root])] == e;
    forall q: seq<bool> {:trigger Num(q)} | |q| == e.op && c[root..] <= q
      ensures T[e.val + Num(q)] == here
    {
      assert T[..n][e.val + Num(q)] == here;
    }
  }

  // A table may be followed by anything.
  lemma {:induction false} WiderTable(kind: CodeType, l: seq<nat>, T: seq<Code>, n: nat, root: nat)
    requires LensOk(l) && |l| <= MaxSyms(kind) && n <= |T| && TableFor(kind, l, T[..n], root)
    ensures TableFor(kind, l, T, root)
  {
    hide Here, Short, Long, CodeBits;
    forall s | 0 <= s < |l| && l[s] > 0
      ensures if l[s] <= root then Short(T, root, CodeBits(l, s), Here(kind, s, l[s]))
              else Long(T, root, |T|, CodeBits(l, s), Here(kind, s, l[s] - root))
    {
      if l[s] <= root {
        WiderShort(T, n, root, CodeBits(l, s), Here(kind, s, l[s]));
      } else {
        WiderLong(T, n, root, CodeBits(l, s), Here(kind, s, l[s] - root));
      }
    }
    assert Pow2(1) == 2;
  }

  lemma {:induction false} FitsWider(kind: CodeType, l: seq<nat>, T: seq<Code>, n: nat, root: nat)
    requires n <= |T| && TableFits(kind, l, T[..n], root)
    ensures TableFits(kind, l, T, root)
  {
    hide TableFor, Rejected;
    WiderTable(kind, l, T, n, root);
  }

  // The table of one of the fixed codes.
  method FixedTable(kind: CodeType, l: seq<nat>, room: nat, root: nat) returns (table: array<Code>)
    requires Usable(kind, l) && kind != CODES && MaxLen(l) > 0 && 0 < root <= MAX_BITS
    requires RootBits(l, root) == root && !Outgrown(kind, l, root) && Pow2(root) <= room && HasRoom(kind, room)
    ensures fresh(table) && TableFits(kind, l, table[..], root)
  {
    hide TableFor, Rejected, Outgrown, HasRoom, MaxLen, RootBits, Pow2, LensOk;
    table := new Code[room](_ => INVALID);
    assert table.Length - 0 == room;
    var ret, size, bits := InflateTable(kind, l, table, 0, root);
    assert table[0..0 + size] == table[..][..size];
    FitsWider(kind, l, table[..], size, root);
  }

  /** The fixed tables (fixedtables in inflate.c). */
  method FixedTables() returns (lenfix: array<Code>, distfix: array<Code>)
    ensures fresh(lenfix) && fresh(distfix) && lenfix != distfix
    ensures TableFits(LENS, FixedLit(), lenfix[..], 9) && TableFits(DISTS, FixedDist(), distfix[..], 5)
  {
    hide TableFits, Rejected, FixedLit, FixedDist, MaxLen, Outgrown, RootBits, Pow2;
    FixedSizes();
    FixedUsable();
    lenfix := FixedTable(LENS, FixedLit(), ENOUGH_LENS, 9);
    distfix := FixedTable(DISTS, FixedDist(), ENOUGH_DISTS, 5);
  }

  lemma {:induction false} FixedSizes()
    ensures Pow2(9) == 512 && Pow2(5) == 32
    ensures MaxLen(FixedLit()) > 0 && RootBits(FixedLit(), 9) == 9 && !Outgrown(LENS, FixedLit(), 9)
    ensures MaxLen(FixedDist()) > 0 && RootBits(FixedDist(), 5) == 5 && !Outgrown(DISTS, FixedDist(), 5)
  {
    hide FixedLit, FixedDist, MaxLen, MinLen;
    Pow2Values();
    FixedLitFacts();
    FixedDistFacts();
    MinAtMostMax(FixedLit());
    MinAtMostMax(FixedDist());
    NoSubTables(FixedLit(), 9);
    NoSubTables(FixedDist(), 5);
  }

  lemma {:induction false} PulledBits(h: nat, b: nat, x: nat, rest: seq<nat>)
    requires h < Pow2(b) && x < 256
    ensures h + Pow2(b) * x < Pow2(b + 8)
    ensures ToBits(h + Pow2(b) * x, b + 8) == ToBits(h, b) + ToBits(x, 8)
    ensures ToBits(h, b) + ByteBits([x] + rest) == ToBits(h + Pow2(b) * x, b + 8) + ByteBits(rest)
  {
    hide Pow2, ByteBits, ToBits;
    ByteRange();
    Fitting(h, b, x, 8);
    ByteBitsConcat([x], rest);
    OneByte(x);
  }

  lemma {:induction false} ByteRange()
    ensures Pow2(8) == 256
  {
  }

  lemma {:induction false} DroppedBits(h: nat, b: nat, n: nat)
    requires h < Pow2(b) && n <= b
    ensures Shr(h, n) < Pow2(b - n) && ToBits(Shr(h, n), b - n) == ToBits(h, b)[n..]
    ensures Low(h, n) == Num(ToBits(h, b)[..n])
  {
    hide Pow2;
    ToBitsSplit(h, n, b - n);
    ShrBound(h, n, b - n);
    NumToBits(h, n);
  }

  // The mode that the fields stand for, case by case.
  lemma {:induction false} ViewOf(s: Inflater)
    requires s.Shape()
    ensures s.mode.TYPEDO? ==> s.View() == TypeDo(s.last)
    ensures s.mode.STORED? ==> s.View() == Stored(s.last)
    ensures s.mode.COPY? ==> s.View() == Copy(s.last, s.length)
    ensures s.mode.TABLE? ==> s.View() == Table(s.last)
    ensures s.mode.LENLENS? ==> s.View() == LenLens(s.last, s.nlen, s.ndist, s.ncode, s.LensSent())
    ensures s.mode.CODELENS? ==> s.View() == CodeLens(s.last, s.nlen, s.ndist, s.cl, s.lens[..s.have])
    ensures s.mode.LEN? ==> s.View() == Len(Codes(s.last, s.lit, s.dist))
    ensures s.mode.LENEXT? ==> s.View() == LenExt(Codes(s.last, s.lit, s.dist), s.length, s.extra)
    ensures s.mode.DIST? ==> s.View() == Dist(Codes(s.last, s.lit, s.dist), s.length)
    ensures s.mode.DISTEXT? ==> s.View() == DistExt(Codes(s.last, s.lit, s.dist), s.length, s.offset, s.extra)
    ensures s.mode.MATCH? ==> s.View() == MatchCopy(Codes(s.last, s.lit, s.dist), s.length, s.offset)
    ensures s.mode.LIT? ==> s.View() == Lit(Codes(s.last, s.lit, s.dist), s.length)
    ensures s.mode.DONE? ==> s.View() == Done
    ensures s.mode.BAD? ==> s.View() == Bad
  {
  }
}
