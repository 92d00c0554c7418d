/** What inflate does with a raw deflate stream, as steps of a machine that sees all
remaining bits and the whole output at once.

The modes are those of inflate (inflate.h) between which a call may stop.  Every
step takes some bits, adds at most one byte to the output, and is never taken
differently when more input is at hand. */
module BlockMachine {
  import opened Bits
  import opened Canonical
  import opened CodeOrder
  import opened CodeBlocks
  import opened TableCells
  import opened CodeCounts
  import opened FixedCodes
  import opened Tokens

  datatype Option<T> = None | Some(value: T)

  // The code lengths a block of compressed data is read with.
  datatype Codes = Codes(last: bool, lit: seq<nat>, dist: seq<nat>)

  datatype Mode =
    | TypeDo(last: bool)
    | Stored(last: bool)
    | Copy(last: bool, left: nat)
    | Table(last: bool)
    | LenLens(last: bool, nlen: nat, ndist: nat, ncode: nat, have: seq<nat>)
    | CodeLens(last: bool, nlen: nat, ndist: nat, cl: seq<nat>, lens: seq<nat>)
    | Len(codes: Codes)
    | LenExt(codes: Codes, length: nat, extra: nat)
    | Dist(codes: Codes, length: nat)
    | DistExt(codes: Codes, length: nat, offset: nat, extra: nat)
    | MatchCopy(codes: Codes, length: nat, offset: nat)
    | Lit(codes: Codes, byte: nat)
    | Done
    | Bad

  // One step: the next mode, the number of bits taken and the bytes put out.
  datatype Move = Move(mode: Mode, used: nat, out: seq<nat>)

  // The machine with all the bits it may still read and all it has put out.
  datatype Conf = Conf(mode: Mode, bits: seq<bool>, hist: seq<nat>)

  const ORDER: seq<nat> := [16, 17, 18, 0, 8, 7, 9, 6, 10, 5, 11, 4, 12, 3, 13, 2, 14, 1, 15]

  // Where the length of symbol `s` stands among the code length code lengths.
  function Rank(s: nat): (i: nat)
    requires s < 19
    ensures i < 19 && ORDER[i] == s
  {
    [3, 17, 15, 13, 11, 9, 7, 5, 4, 6, 8, 10, 12, 14, 16, 18, 0, 1, 2][s]
  }

  // The symbol whose length is sent in place `i`: the repeats and zero, and then the lengths from 8 on, outwards on both sides.
  function SentFor(i: nat): nat
    requires i < 19
  {
    if i < 3 then 16 + i else if i == 3 then 0 else if i % 2 == 0 then 6 + i / 2 else (19 - i) / 2
  }

  /** The order in which the code length code is sent. */
  lemma {:induction false} OrderIs(i: nat)
    requires i < 19
    ensures |ORDER| == 19 && ORDER[i] == SentFor(i)
  {
  }

  // The code length code from the lengths sent; those not sent are zero.
  function Spread(have: seq<nat>): (cl: seq<nat>)
    ensures |cl| == 19
  {
    seq(19, s requires 0 <= s < 19 => if Rank(s) < |have| then have[Rank(s)] else 0)
  }

  lemma {:induction false} RankIs(i: nat)
    requires i < 19
    ensures SentFor(i) < 19 && Rank(SentFor(i)) == i
  {
  }

  /** Every symbol gets the length sent in its place. */
  lemma {:induction false} SpreadIs(have: seq<nat>)
    ensures forall i :: 0 <= i < 19 ==> SentFor(i) < 19 && Spread(have)[SentFor(i)] == if i < |have| then have[i] else 0
  {
    hide SentFor;
    forall i | 0 <= i < 19
      ensures SentFor(i) < 19 && Spread(have)[SentFor(i)] == if i < |have| then have[i] else 0
    {
      RankIs(i);
    }
  }

  // A set of lengths inflate_table makes a table of.
  predicate Usable(kind: CodeType, lens: seq<nat>) {
    LensOk(lens) && |lens| <= MaxSyms(kind) && !Rejected(kind, lens)
  }

  // inflate_table turns the set down, or its table does not fit.
  predicate Unbuildable(kind: CodeType, lens: seq<nat>, req: nat)
    requires LensOk(lens)
  {
    Rejected(kind, lens) || (MaxLen(lens) > 0 && Outgrown(kind, lens, RootBits(lens, req)))
  }

  // `b` starts with the code of `s`.
  predicate Starts(lens: seq<nat>, s: nat, b: seq<bool>)
    requires LensOk(lens)
  {
    s < |lens| && lens[s] > 0 && CodeBits(lens, s) <= b
  }

  datatype Found = Sym(s: nat) | NoCode | More

  // The symbol `b` starts with, if its code is all there; `NoCode` takes one bit.
  ghost function Find(lens: seq<nat>, b: seq<bool>): (f: Found)
    requires LensOk(lens)
    ensures f.Sym? ==> Starts(lens, f.s, b) && lens[f.s] <= |b|
    ensures f.NoCode? ==> |b| >= 1
  {
    if s: nat :| Starts(lens, s, b) then Sym(s)
    else if Complete(lens) || b == [] then More
    else NoCode
  }

  predicate CodesOk(c: Codes) {
    Usable(LENS, c.lit) && Usable(DISTS, c.dist)
  }

  predicate ModeOk(m: Mode) {
    match m
    case LenLens(_, nlen, ndist, ncode, have) =>
      257 <= nlen <= 286 && 1 <= ndist <= 30 && 4 <= ncode <= 19 && |have| <= ncode &&
      (forall i :: 0 <= i < |have| ==> have[i] < 8)
    case CodeLens(_, nlen, ndist, cl, lens) =>
      257 <= nlen <= 286 && 1 <= ndist <= 30 && Usable(CODES, cl) && |cl| == 19 &&
      LensOk(lens) && |lens| <= nlen + ndist
    case Len(c) => CodesOk(c)
    case LenExt(c, length, extra) => CodesOk(c) && length > 0 && extra < 16
    case Dist(c, length) => CodesOk(c) && length > 0
    case DistExt(c, length, offset, extra) =>
      CodesOk(c) && length > 0 && offset > 0 && extra < 16 && offset + Pow2(extra) <= WINDOW + 1
    case MatchCopy(c, length, offset) => CodesOk(c) && length > 0 && 0 < offset <= WINDOW
    case Lit(c, byte) => CodesOk(c) && byte < 256
    case _ => true
  }

  // The step from a mode that starts or copies a stored block, or starts any block.
  function BlockMove(m: Mode, b: seq<bool>): (r: Option<Move>)
    requires m.TypeDo? || m.Stored? || m.Copy? || m.Table?
    ensures r.Some? ==> ModeOk(r.value.mode) && r.value.used <= |b| && IsBytes(r.value.out)
  {
    match m
    case TypeDo(last) =>
      if last then Some(Move(Done, |b| % 8, []))
      else if |b| < 3 then None
      else
        var l := b[0];
        var kind := Num(b[1..3]);
        if kind == 0 then Some(Move(Stored(l), 3, []))
        else if kind == 1 then
          FixedUsable();
          Some(Move(Len(Codes(l, FixedLit(), FixedDist())), 3, []))
        else if kind == 2 then Some(Move(Table(l), 3, []))
        else Some(Move(Bad, 3, []))
    case Stored(last) =>
      if |b| % 8 > 0 then Some(Move(m, |b| % 8, []))
      else if |b| < 32 then None
      else if Num(b[..16]) != 65535 - Num(b[16..32]) then Some(Move(Bad, 0, []))
      else Some(Move(Copy(last, Num(b[..16])), 32, []))
    case Copy(last, left) =>
      if left == 0 then Some(Move(TypeDo(last), 0, []))
      else if |b| < 8 then None
      else
        assert Pow2(8) == 256;
        Some(Move(Copy(last, left - 1), 8, [Num(b[..8])]))
    case Table(last) =>
      if |b| < 14 then None
      else
        var nlen, ndist, ncode := 257 + Num(b[..5]), 1 + Num(b[5..10]), 4 + Num(b[10..14]);
        if nlen > 286 || ndist > 30 then Some(Move(Bad, 14, []))
        else
          assert Pow2(4) == 16;
          Some(Move(LenLens(last, nlen, ndist, ncode, []), 14, []))
  }

  // The step that reads one code length, or repeats one, or makes the tables.
  ghost function LengthsMove(m: Mode, b: seq<bool>): (r: Option<Move>)
    requires (m.LenLens? || m.CodeLens?) && ModeOk(m)
    ensures r.Some? ==> ModeOk(r.value.mode) && r.value.used <= |b| && r.value.out == []
  {
    match m
    case LenLens(last, nlen, ndist, ncode, have) =>
      if |have| < ncode then
        if |b| < 3 then None
        else
          assert Pow2(3) == 8;
          Some(Move(LenLens(last, nlen, ndist, ncode, have + [Num(b[..3])]), 3, []))
      else if Rejected(CODES, Spread(have)) then Some(Move(Bad, 0, []))
      else Some(Move(CodeLens(last, nlen, ndist, Spread(have), []), 0, []))
    case CodeLens(last, nlen, ndist, cl, lens) =>
      if |lens| == nlen + ndist then Some(Move(TablesMade(last, lens, nlen), 0, []))
      else
        match Find(cl, b)
        case More => None
        case NoCode => Some(Move(CodeLens(last, nlen, ndist, cl, lens + [0]), 1, []))
        case Sym(s) =>
          if s < 16 then Some(Move(CodeLens(last, nlen, ndist, cl, lens + [s]), cl[s], []))
          else RepeatMove(m, s, b)
  }

  // How many bits of repeat count follow a repeat code, and the least count.
  function RepeatBits(s: nat): nat {
    if s == 16 then 2 else if s == 17 then 3 else 7
  }

  function RepeatBase(s: nat): nat {
    if s == 18 then 11 else 3
  }

  function RepeatMove(m: Mode, s: nat, b: seq<bool>): (r: Option<Move>)
    requires m.CodeLens? && ModeOk(m) && 16 <= s < 19 && m.cl[s] <= |b|
    ensures r.Some? ==> ModeOk(r.value.mode) && r.value.used <= |b| && r.value.out == []
  {
    var CodeLens(last, nlen, ndist, cl, lens) := m;
    var at, end := cl[s], cl[s] + RepeatBits(s);
    if |b| < end then None
    else if s == 16 && lens == [] then Some(Move(Bad, at, []))
    else
      var n := RepeatBase(s) + Num(b[at..end]);
      if |lens| + n > nlen + ndist then Some(Move(Bad, end, []))
      else
        var more := Repeat(if s == 16 then lens[|lens| - 1] else 0, n);
        Some(Move(CodeLens(last, nlen, ndist, cl, lens + more), end, []))
  }

  // All lengths are known: the block needs an end-of-block code and two tables that fit.
  function TablesMade(last: bool, lens: seq<nat>, nlen: nat): (m: Mode)
    requires 257 <= nlen <= 286 && nlen <= |lens| <= nlen + 30 && LensOk(lens)
    ensures ModeOk(m)
  {
    var lit, dist := lens[..nlen], lens[nlen..];
    if lens[256] == 0 || Unbuildable(LENS, lit, 9) || Unbuildable(DISTS, dist, 6) then Bad
    else Len(Codes(last, lit, dist))
  }

  // The step that reads a part of a literal or a match, or puts out a byte.
  ghost function DataMove(m: Mode, b: seq<bool>, hist: seq<nat>): (r: Option<Move>)
    requires (m.Len? || m.LenExt? || m.Dist? || m.DistExt? || m.MatchCopy? || m.Lit?) && ModeOk(m)
    requires IsBytes(hist)
    ensures r.Some? ==> ModeOk(r.value.mode) && r.value.used <= |b| && IsBytes(r.value.out)
  {
    match m
    case Len(c) =>
      (match Find(c.lit, b)
       case More => None
       case NoCode => Some(Move(Bad, 1, []))
       case Sym(s) => Some(Move(AfterLit(c, s), c.lit[s], [])))
    case LenExt(c, length, extra) =>
      if |b| < extra then None
      else Some(Move(Dist(c, length + Num(b[..extra])), extra, []))
    case Dist(c, length) =>
      (match Find(c.dist, b)
       case More => None
       case NoCode => Some(Move(Bad, 1, []))
       case Sym(s) => Some(Move(AfterDist(c, length, s), c.dist[s], [])))
    case DistExt(c, length, offset, extra) =>
      if |b| < extra then None
      else Some(Move(MatchCopy(c, length, offset + Num(b[..extra])), extra, []))
    case MatchCopy(c, length, offset) =>
      if offset > |hist| then Some(Move(Bad, 0, []))
      else
        Some(Move(if length == 1 then Len(c) else MatchCopy(c, length - 1, offset), 0,
                  [hist[|hist| - offset]]))
    case Lit(c, byte) => Some(Move(Len(c), 0, [byte]))
  }

  function AfterLit(c: Codes, s: nat): (m: Mode)
    requires CodesOk(c) && s < 288
    ensures ModeOk(m)
  {
    if s < 256 then Lit(c, s)
    else if s == 256 then TypeDo(c.last)
    else if s < 286 then LenExt(c, LBASE[s - 257], LEXT[s - 257] - 16)
    else Bad
  }

  function AfterDist(c: Codes, length: nat, s: nat): (m: Mode)
    requires CodesOk(c) && length > 0 && s < 32
    ensures ModeOk(m)
  {
    hide LBASE, LEXT, Rejected, LensOk;
    if s < 30 then
      FarthestOf(s);
      DistExt(c, length, DBASE[s], DEXT[s] - 16)
    else Bad
  }

  // No distance is farther than the window is wide.
  lemma {:induction false} FarthestOf(s: nat)
    requires s < 30
    ensures DBASE[s] + Pow2(DEXT[s] - 16) <= WINDOW + 1
  {
    Pow2Values();
    assert Pow2(11) == 2048 && Pow2(12) == 4096 && Pow2(13) == 8192 && Pow2(0) == 1;
    hide Pow2;
  }

  ghost function Step(m: Mode, b: seq<bool>, hist: seq<nat>): (r: Option<Move>)
    requires ModeOk(m) && IsBytes(hist)
    ensures r.Some? ==> ModeOk(r.value.mode) && r.value.used <= |b| && IsBytes(r.value.out)
  {
    match m
    case Done => None
    case Bad => None
    case TypeDo(_) => BlockMove(m, b)
    case Stored(_) => BlockMove(m, b)
    case Copy(_, _) => BlockMove(m, b)
    case Table(_) => BlockMove(m, b)
    case LenLens(_, _, _, _, _) => LengthsMove(m, b)
    case CodeLens(_, _, _, _, _) => LengthsMove(m, b)
    case _ => DataMove(m, b, hist)
  }

  predicate ConfOk(c: Conf) {
    ModeOk(c.mode) && IsBytes(c.hist)
  }

  ghost function Next(c: Conf): (r: Option<Conf>)
    requires ConfOk(c)
    ensures r.Some? ==> ConfOk(r.value)
  {
    var s := Step(c.mode, c.bits, c.hist);
    if s.None? then None
    else Some(Conf(s.value.mode, c.bits[s.value.used..], c.hist + s.value.out))
  }

  // `d` is reached from `c` in `n` steps.
  ghost predicate Run(c: Conf, n: nat, d: Conf)
    requires ConfOk(c)
    decreases n
  {
    if n == 0 then c == d
    else Next(c).Some? && Run(Next(c).value, n - 1, d)
  }

  ghost predicate Reaches(c: Conf, d: Conf) {
    ConfOk(c) && exists n :: Run(c, n, d)
  }

  // With a usable code an incomplete set has but the code [false].
  lemma {:induction false} ShortCodes(kind: CodeType, lens: seq<nat>, s: nat)
    requires Usable(kind, lens) && !Complete(lens) && s < |lens|
    ensures Fits(lens) && lens[s] <= 1
  {
    MaxLenBound(lens, s);
    if MaxLen(lens) == 0 {
      KraftAllZero(lens);
    }
  }

  lemma {:induction false} KraftAllZero(lens: seq<nat>)
    requires LensOk(lens) && MaxLen(lens) == 0
    ensures Kraft(lens) == 0
  {
    forall i | 0 <= i < |lens|
      ensures lens[i] == 0
    {
      MaxLenBound(lens, i);
    }
    KraftOfUnused(lens);
  }

  lemma {:induction false} UsableFits(kind: CodeType, lens: seq<nat>)
    requires Usable(kind, lens)
    ensures Fits(lens)
  {
    if MaxLen(lens) == 0 {
      KraftAllZero(lens);
    }
  }

  // Only one symbol can be found.
  lemma {:induction false} FindIs(kind: CodeType, lens: seq<nat>, s: nat, b: seq<bool>)
    requires Usable(kind, lens) && Starts(lens, s, b)
    ensures Find(lens, b) == Sym(s)
  {
    UsableFits(kind, lens);
    var f := Find(lens, b);
    PrefixFree(lens, s, f.s, b);
  }

  // What is found stays when more input comes.
  lemma {:induction false} FindMore(kind: CodeType, lens: seq<nat>, b: seq<bool>, x: seq<bool>)
    requires Usable(kind, lens) && Find(lens, b) != More
    ensures Find(lens, b + x) == Find(lens, b)
  {
    var f := Find(lens, b);
    if f.Sym? {
      assert Starts(lens, f.s, b + x);
      FindIs(kind, lens, f.s, b + x);
    } else if s: nat :| Starts(lens, s, b + x) {
      StartsAlready(kind, lens, s, b, x);
    }
  }

  // A code of one bit is there as soon as there is a bit.
  lemma {:induction false} StartsAlready(kind: CodeType, lens: seq<nat>, s: nat, b: seq<bool>, x: seq<bool>)
    requires Usable(kind, lens) && !Complete(lens) && b != [] && Starts(lens, s, b + x)
    ensures Starts(lens, s, b)
  {
    ShortCodes(kind, lens, s);
  }

  lemma {:induction false} StepMore(m: Mode, b: seq<bool>, x: seq<bool>, hist: seq<nat>)
    requires ModeOk(m) && IsBytes(hist) && |x| % 8 == 0
    requires Step(m, b, hist).Some?
    ensures Step(m, b + x, hist) == Step(m, b, hist)
  {
    var c := b + x;
    match m
    case TypeDo(_) =>
      BlockMore(m, b, x);
    case Stored(_) =>
      BlockMore(m, b, x);
    case Copy(_, _) =>
      BlockMore(m, b, x);
    case Table(_) =>
      BlockMore(m, b, x);
    case LenLens(_, _, _, _, _) =>
      LengthsMore(m, b, x);
    case CodeLens(_, _, _, _, _) =>
      LengthsMore(m, b, x);
    case _ =>
      DataMore(m, b, x, hist);
  }

  // Bits that are there keep their place when more come.
  lemma {:induction false} SliceMore(b: seq<bool>, x: seq<bool>, i: nat, j: nat)
    requires i <= j <= |b|
    ensures (b + x)[i..j] == b[i..j]
  {
  }

  lemma {:induction false} BlockMore(m: Mode, b: seq<bool>, x: seq<bool>)
    requires (m.TypeDo? || m.Stored? || m.Copy? || m.Table?) && |x| % 8 == 0
    requires BlockMove(m, b).Some?
    ensures BlockMove(m, b + x) == BlockMove(m, b)
  {
    forall i: nat, j: nat | i <= j <= |b|
      ensures (b + x)[i..j] == b[i..j]
    {
      SliceMore(b, x, i, j);
    }
    assert |b + x| % 8 == |b| % 8;
  }

  lemma {:induction false} LengthsMore(m: Mode, b: seq<bool>, x: seq<bool>)
    requires (m.LenLens? || m.CodeLens?) && ModeOk(m)
    requires LengthsMove(m, b).Some?
    ensures LengthsMove(m, b + x) == LengthsMove(m, b)
  {
    hide Rejected, TablesMade, Find;
    forall i: nat, j: nat | i <= j <= |b|
      ensures (b + x)[i..j] == b[i..j]
    {
      SliceMore(b, x, i, j);
    }
    if m.CodeLens? && |m.lens| < m.nlen + m.ndist {
      FindMore(CODES, m.cl, b, x);
    }
  }

  lemma {:induction false} DataMore(m: Mode, b: seq<bool>, x: seq<bool>, hist: seq<nat>)
    requires (m.Len? || m.LenExt? || m.Dist? || m.DistExt? || m.MatchCopy? || m.Lit?) && ModeOk(m)
    requires IsBytes(hist)
    requires DataMove(m, b, hist).Some?
    ensures DataMove(m, b + x, hist) == DataMove(m, b, hist)
  {
    forall i: nat, j: nat | i <= j <= |b|
      ensures (b + x)[i..j] == b[i..j]
    {
      SliceMore(b, x, i, j);
    }
    if m.Len? {
      FindMore(LENS, m.codes.lit, b, x);
    } else if m.Dist? {
      FindMore(DISTS, m.codes.dist, b, x);
    }
  }

  function Plus(c: Conf, x: seq<bool>): Conf {
    Conf(c.mode, c.bits + x, c.hist)
  }

  /** A run goes the same way when more input is at hand. */
  lemma {:induction false} RunMore(c: Conf, n: nat, d: Conf, x: seq<bool>)
    requires ConfOk(c) && Run(c, n, d) && |x| % 8 == 0
    ensures Run(Plus(c, x), n, Plus(d, x))
    decreases n
  {
    hide Step, ModeOk;
    if n > 0 {
      StepMore(c.mode, c.bits, x, c.hist);
      var u := Step(c.mode, c.bits, c.hist).value.used;
      assert (c.bits + x)[u..] == c.bits[u..] + x;
      RunMore(Next(c).value, n - 1, d, x);
    }
  }

  lemma {:induction false} RunOk(c: Conf, n: nat, d: Conf)
    requires ConfOk(c) && Run(c, n, d)
    ensures ConfOk(d) && c.hist <= d.hist
    ensures |d.bits| <= |c.bits| && d.bits == c.bits[|c.bits| - |d.bits|..]
    decreases n
  {
    hide Step, ModeOk;
    if n > 0 {
      var u := Step(c.mode, c.bits, c.hist).value.used;
      RunOk(Next(c).value, n - 1, d);
      assert c.bits[u..][|c.bits| - u - |d.bits|..] == c.bits[|c.bits| - |d.bits|..];
    }
  }

  lemma {:induction false} RunJoin(c: Conf, n: nat, d: Conf, k: nat, e: Conf)
    requires ConfOk(c) && Run(c, n, d) && ConfOk(d) && Run(d, k, e)
    ensures Run(c, n + k, e)
    decreases n
  {
    hide Next, ConfOk;
    if n > 0 {
      RunJoin(Next(c).value, n - 1, d, k, e);
    }
  }

  /** Of two runs from the same place the shorter is the beginning of the longer. */
  lemma {:induction false} RunSplit(c: Conf, n: nat, d: Conf, k: nat, e: Conf)
    requires ConfOk(c) && Run(c, n, d) && Run(c, n + k, e)
    ensures ConfOk(d) && Run(d, k, e)
    decreases n
  {
    hide Next, ConfOk;
    if n > 0 {
      RunSplit(Next(c).value, n - 1, d, k, e);
    }
  }

  lemma {:induction false} ReachesJoin(c: Conf, d: Conf, e: Conf)
    requires Reaches(c, d) && Reaches(d, e)
    ensures Reaches(c, e)
  {
    var n :| Run(c, n, d);
    var k :| Run(d, k, e);
    RunJoin(c, n, d, k, e);
  }
}
