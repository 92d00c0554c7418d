/** Which streams inflate turns down, and where: the errors of the specification, and no others. */
module Refusals {
  import opened Bits
  import opened Canonical
  import opened TableCells
  import opened CodeCounts
  import opened CodeBlocks
  import opened EnoughSpace
  import opened PrefixCodes
  import opened FixedCodes
  import opened Tokens
  import opened BlockMachine

  // The input begins with the code of a symbol not below `n`, or with no code at all where there is a gap.
  ghost predicate BadSymbol(lens: seq<nat>, n: nat, b: seq<bool>)
    requires LensOk(lens)
  {
    || (exists s: nat :: s >= n && Starts(lens, s, b))
    || (b != [] && Gap(lens) && forall s: nat :: !Starts(lens, s, b))
  }

  // A repeat is at hand of which there is nothing to repeat, or that goes on for too long.
  ghost predicate BadRepeat(cl: seq<nat>, have: seq<nat>, total: nat, b: seq<bool>)
    requires LensOk(cl)
  {
    || (Starts(cl, 16, b) && |b| >= cl[16] + 2 && (have == [] || |have| + 3 + Num(b[cl[16]..cl[16] + 2]) > total))
    || (Starts(cl, 17, b) && |b| >= cl[17] + 3 && |have| + 3 + Num(b[cl[17]..cl[17] + 3]) > total)
    || (Starts(cl, 18, b) && |b| >= cl[18] + 7 && |have| + 11 + Num(b[cl[18]..cl[18] + 7]) > total)
  }

  // The code lengths have no code for the end of the block, or are turned down.
  ghost predicate BadCodes(lens: seq<nat>, nlen: nat)
    requires 257 <= nlen <= |lens| && LensOk(lens)
  {
    lens[256] == 0 || TurnedDown(LENS, lens[..nlen]) || TurnedDown(DISTS, lens[nlen..])
  }

  /** The faults of a stream: the block type 11; a stored length whose complement does not follow; more than 286 literal or 30
      distance codes; code lengths that make no code, or repeat what is not there; a code that means nothing; and a
      distance beyond the output. */
  ghost predicate Faulty(c: Conf)
    requires ConfOk(c)
  {
    var b := c.bits;
    match c.mode
    case TypeDo(last) => !last && |b| >= 3 && b[1] && b[2]
    case Stored(_) => |b| % 8 == 0 && |b| >= 32 && exists i :: 0 <= i < 16 && b[i] == b[i + 16]
    case Table(_) => |b| >= 14 && (Num(b[..5]) > 29 || Num(b[5..10]) > 29)
    case LenLens(_, _, _, ncode, have) => |have| == ncode && TurnedDown(CODES, Spread(have))
    case CodeLens(_, nlen, ndist, cl, lens) =>
      if |lens| == nlen + ndist then BadCodes(lens, nlen) else BadRepeat(cl, lens, nlen + ndist, b)
    case Len(codes) => BadSymbol(codes.lit, 286, b)
    case Dist(codes, _) => BadSymbol(codes.dist, 30, b)
    case MatchCopy(_, _, offset) => offset > |c.hist|
    case _ => false
  }

  ghost predicate Refused(c: Conf)
    requires ConfOk(c)
  {
    Next(c).Some? && Next(c).value.mode.Bad?
  }

  lemma {:induction false} TypeIff(c: Conf)
    requires ConfOk(c) && c.mode.TypeDo?
    ensures Refused(c) <==> Faulty(c)
  {
    if |c.bits| >= 3 {
      var t := c.bits[1..3];
      assert t[1..][1..] == [] && Num(t[1..]) == if t[1] then 1 else 0;
    }
  }

  // Two numbers add up to the greatest one if all their digits differ.
  lemma {:induction false} Complementary(a: seq<bool>, b: seq<bool>)
    requires |a| == |b|
    ensures Num(a) + Num(b) == Pow2(|a|) - 1 <==> forall i :: 0 <= i < |a| ==> a[i] != b[i]
  {
    if a != [] {
      Complementary(a[1..], b[1..]);
      if forall i :: 0 <= i < |a| - 1 ==> a[1..][i] != b[1..][i] {
        assert forall i :: 0 < i < |a| ==> a[i] == a[1..][i - 1] && b[i] == b[1..][i - 1];
      } else {
        var i :| 0 <= i < |a| - 1 && a[1..][i] == b[1..][i];
        assert a[i + 1] == b[i + 1];
      }
    }
  }

  lemma {:induction false} StoredIff(c: Conf)
    requires ConfOk(c) && c.mode.Stored?
    ensures Refused(c) <==> Faulty(c)
  {
    var b := c.bits;
    if |b| >= 32 {
      var x, y := b[..16], b[16..32];
      assert Pow2(16) == 65536 by { Pow2Values(); }
      hide Num, Pow2;
      Complementary(x, y);
      assert forall i :: 0 <= i < 16 ==> x[i] == b[i] && y[i] == b[i + 16];
    }
  }

  lemma {:induction false} TableIff(c: Conf)
    requires ConfOk(c) && c.mode.Table?
    ensures Refused(c) <==> Faulty(c)
  {
    hide Num;
  }

  lemma {:induction false} SpreadOk(have: seq<nat>)
    requires forall i :: 0 <= i < |have| ==> have[i] < 8
    ensures LensOk(Spread(have))
  {
  }

  lemma {:induction false} LenLensIff(c: Conf)
    requires ConfOk(c) && c.mode.LenLens?
    ensures Refused(c) <==> Faulty(c)
  {
    hide Num, Spread, Rejected, TurnedDown;
    SpreadOk(c.mode.have);
    RejectedIff(CODES, Spread(c.mode.have));
  }

  // With a usable code what is found is what the input begins with.
  lemma {:induction false} FindIff(kind: CodeType, lens: seq<nat>, b: seq<bool>)
    requires Usable(kind, lens)
    ensures forall s: nat :: Starts(lens, s, b) <==> Find(lens, b) == Sym(s)
    ensures Find(lens, b).NoCode? <==> b != [] && Gap(lens) && forall s: nat :: !Starts(lens, s, b)
  {
    hide Rejected, Gap, Starts;
    UsableFits(kind, lens);
    GapIff(lens);
    forall s: nat | Starts(lens, s, b)
      ensures Find(lens, b) == Sym(s)
    {
      FindIs(kind, lens, s, b);
    }
  }

  lemma {:induction false} BadSymbolIff(kind: CodeType, lens: seq<nat>, n: nat, b: seq<bool>)
    requires Usable(kind, lens)
    ensures BadSymbol(lens, n, b) <==> Find(lens, b).NoCode? || (Find(lens, b).Sym? && Find(lens, b).s >= n)
  {
    hide Rejected, Gap, Starts, Find, Usable;
    UsableLens(kind, lens);
    FindIff(kind, lens, b);
  }

  lemma {:induction false} UsableLens(kind: CodeType, lens: seq<nat>)
    requires Usable(kind, lens)
    ensures LensOk(lens) && |lens| <= MaxSyms(kind)
  {
    hide Rejected;
  }

  lemma {:induction false} LenIff(c: Conf)
    requires ConfOk(c) && c.mode.Len?
    ensures Refused(c) <==> Faulty(c)
  {
    hide Find, Rejected, BadSymbol;
    BadSymbolIff(LENS, c.mode.codes.lit, 286, c.bits);
  }

  lemma {:induction false} DistIff(c: Conf)
    requires ConfOk(c) && c.mode.Dist?
    ensures Refused(c) <==> Faulty(c)
  {
    hide Find, Rejected, BadSymbol;
    BadSymbolIff(DISTS, c.mode.codes.dist, 30, c.bits);
  }

  // The tables can be built for all codes that are not turned down.
  lemma {:induction false} TablesMadeIff(last: bool, lens: seq<nat>, nlen: nat)
    requires 257 <= nlen <= 286 && nlen <= |lens| <= nlen + 30 && LensOk(lens)
    ensures TablesMade(last, lens, nlen).Bad? <==> BadCodes(lens, nlen)
  {
    hide Rejected, Outgrown, RootBits, MaxLen, TurnedDown;
    var lit, dist := lens[..nlen], lens[nlen..];
    RejectedIff(LENS, lit);
    RejectedIff(DISTS, dist);
    if lens[256] > 0 {
      assert lit[256] > 0;
      RoomIfTaken(LENS, lit, 9);
      RoomIfTaken(DISTS, dist, 6);
    }
  }

  lemma {:induction false} RoomIfTaken(kind: CodeType, lens: seq<nat>, req: nat)
    requires LensOk(lens) && Asked(kind, lens, req) && (kind == LENS ==> !PrefixCodes.NoCode(lens))
    ensures Unbuildable(kind, lens, req) <==> Rejected(kind, lens)
  {
    hide Rejected, Outgrown, RootBits, MaxLen, OneBit, PrefixCodes.NoCode, Separable, Gap, Kraft;
    RejectedIff(kind, lens);
    if !Rejected(kind, lens) {
      if PrefixCodes.NoCode(lens) || OneBit(lens) {
        AlwaysRoom(kind, lens, req);
      } else {
        SeparableIff(lens);
        GapIff(lens);
        AlwaysRoom(kind, lens, req);
      }
    }
  }

  lemma {:induction false} CodeLensIff(c: Conf)
    requires ConfOk(c) && c.mode.CodeLens?
    ensures Refused(c) <==> Faulty(c)
  {
    var CodeLens(last, nlen, ndist, cl, lens) := c.mode;
    if |lens| == nlen + ndist {
      TablesMadeIff(last, lens, nlen);
    } else {
      RepeatIff(c);
    }
  }

  lemma {:induction false} RepeatIff(c: Conf)
    requires ConfOk(c) && c.mode.CodeLens? && |c.mode.lens| < c.mode.nlen + c.mode.ndist
    ensures Refused(c) <==> BadRepeat(c.mode.cl, c.mode.lens, c.mode.nlen + c.mode.ndist, c.bits)
  {
    hide Find, Rejected, Starts, Num, Gap, Repeat, RepeatMove;
    var CodeLens(last, nlen, ndist, cl, lens) := c.mode;
    FindIff(CODES, cl, c.bits);
    var f := Find(cl, c.bits);
    if f.Sym? && f.s >= 16 {
      StartsBound(cl, f.s, c.bits);
      RepeatMoveIff(c.mode, f.s, c.bits);
    } else {
      assert !Starts(cl, 16, c.bits) && !Starts(cl, 17, c.bits) && !Starts(cl, 18, c.bits);
    }
  }

  lemma {:induction false} StartsBound(lens: seq<nat>, s: nat, b: seq<bool>)
    requires LensOk(lens) && Starts(lens, s, b)
    ensures s < |lens|
  {
    hide CodeBits;
  }

  lemma {:induction false} RepeatMoveIff(m: Mode, s: nat, b: seq<bool>)
    requires m.CodeLens? && ModeOk(m) && 16 <= s < 19 && m.cl[s] <= |b|
    ensures var r, at, total := RepeatMove(m, s, b), m.cl[s], m.nlen + m.ndist;
            r.Some? && r.value.mode.Bad? <==>
            if s == 16 then |b| >= at + 2 && (m.lens == [] || |m.lens| + 3 + Num(b[at..at + 2]) > total)
            else if s == 17 then |b| >= at + 3 && |m.lens| + 3 + Num(b[at..at + 3]) > total
            else |b| >= at + 7 && |m.lens| + 11 + Num(b[at..at + 7]) > total
  {
    hide Rejected, Num, Repeat;
  }

  /** A step of the decoder turns the stream down exactly if it has one of these faults. */
  lemma {:induction false} RefusedIff(c: Conf)
    requires ConfOk(c)
    ensures Refused(c) <==> Faulty(c)
  {
    hide Faulty, Refused, ModeOk;
    match c.mode
    case TypeDo(_) => TypeIff(c);
    case Stored(_) => StoredIff(c);
    case Table(_) => TableIff(c);
    case LenLens(_, _, _, _, _) => LenLensIff(c);
    case CodeLens(_, _, _, _, _) => CodeLensIff(c);
    case Len(_) => LenIff(c);
    case Dist(_, _) => DistIff(c);
    case _ => OtherIff(c);
  }

  lemma {:induction false} OtherIff(c: Conf)
    requires ConfOk(c)
    requires c.mode.Copy? || c.mode.LenExt? || c.mode.DistExt? || c.mode.MatchCopy? || c.mode.Lit? || c.mode.Done? || c.mode.Bad?
    ensures Refused(c) <==> Faulty(c)
  {
    hide Num, Rejected;
  }
}
