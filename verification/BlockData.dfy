/** The data of a compressed block: how tokens are written (compress_block in trees.c)
and how the states from LEN to LIT of inflate read them back. */
module BlockData {
  import opened Bits
  import opened Canonical
  import opened TableCells
  import opened CodeCounts
  import opened Tokens
  import opened Symbols
  import opened BlockMachine
  import opened RunReader

  // Symbol `s` has a code.
  predicate Has(lens: seq<nat>, s: nat) {
    LensOk(lens) && s < |lens| && lens[s] > 0
  }

  predicate InRange(t: Token) {
    match t
    case Literal(b) => b < 256
    case Match(d, l) => 1 <= d <= WINDOW && MIN_MATCH <= l <= MAX_MATCH
  }

  // The codes have all symbols that `t` needs.
  predicate Encodes(c: Codes, t: Token) {
    InRange(t) &&
    match t
    case Literal(b) => Has(c.lit, b)
    case Match(d, l) => Has(c.lit, 257 + LengthCode(l - 3)) && Has(c.dist, DistCode(d - 1))
  }

  predicate EncodesAll(c: Codes, ts: seq<Token>) {
    Has(c.lit, END_BLOCK) && forall i :: 0 <= i < |ts| ==> Encodes(c, ts[i])
  }

  function LengthBits(c: Codes, l: nat): seq<bool>
    requires MIN_MATCH <= l <= MAX_MATCH && Has(c.lit, 257 + LengthCode(l - 3))
  {
    hide LengthCode, BaseLength;
    var k := LengthCode(l - 3);
    CodeBits(c.lit, 257 + k) +
    (if EXTRA_LBITS[k] == 0 || l - 3 < BaseLength(k) then [] else ToBits(l - 3 - BaseLength(k), EXTRA_LBITS[k]))
  }

  function DistBits(c: Codes, d: nat): seq<bool>
    requires 1 <= d <= WINDOW && Has(c.dist, DistCode(d - 1))
  {
    hide DistCode, BaseDist;
    var k := DistCode(d - 1);
    CodeBits(c.dist, k) + (if d - 1 < BaseDist(k) then [] else ToBits(d - 1 - BaseDist(k), EXTRA_DBITS[k]))
  }

  function TokenBits(c: Codes, t: Token): seq<bool>
    requires Encodes(c, t)
  {
    hide LengthCode, DistCode;
    match t
    case Literal(b) => CodeBits(c.lit, b)
    case Match(d, l) => LengthBits(c, l) + DistBits(c, d)
  }

  function TokensBits(c: Codes, ts: seq<Token>): seq<bool>
    requires EncodesAll(c, ts)
  {
    if ts == [] then [] else TokensBits(c, ts[..|ts| - 1]) + TokenBits(c, ts[|ts| - 1])
  }

  function BlockBits(c: Codes, ts: seq<Token>): seq<bool>
    requires EncodesAll(c, ts)
  {
    TokensBits(c, ts) + CodeBits(c.lit, END_BLOCK)
  }

  lemma {:induction false} ReadSymbol(m: Mode, kind: CodeType, lens: seq<nat>, s: nat, rest: seq<bool>)
    requires Usable(kind, lens) && Has(lens, s)
    ensures Find(lens, CodeBits(lens, s) + rest) == Sym(s)
    ensures (CodeBits(lens, s) + rest)[lens[s]..] == rest
  {
    hide CodeBits, Find, Rejected;
    FoundFirst(kind, lens, s, rest);
  }

  lemma {:induction false} ReadLit(c: Codes, s: nat, rest: seq<bool>, hist: seq<nat>)
    requires CodesOk(c) && Has(c.lit, s) && IsBytes(hist)
    ensures Reaches(Conf(Len(c), CodeBits(c.lit, s) + rest, hist), Conf(AfterLit(c, s), rest, hist))
  {
    hide CodeBits, Find, Rejected, AfterLit;
    ReadSymbol(Len(c), LENS, c.lit, s, rest);
    assert hist + [] == hist;
    OneStep(Conf(Len(c), CodeBits(c.lit, s) + rest, hist), Conf(AfterLit(c, s), rest, hist));
  }

  lemma {:induction false} ReadDistSym(c: Codes, length: nat, s: nat, rest: seq<bool>, hist: seq<nat>)
    requires CodesOk(c) && Has(c.dist, s) && IsBytes(hist) && length > 0
    ensures Reaches(Conf(Dist(c, length), CodeBits(c.dist, s) + rest, hist),
                    Conf(AfterDist(c, length, s), rest, hist))
  {
    hide CodeBits, Find, Rejected, AfterDist;
    ReadSymbol(Dist(c, length), DISTS, c.dist, s, rest);
    assert hist + [] == hist;
    OneStep(Conf(Dist(c, length), CodeBits(c.dist, s) + rest, hist), Conf(AfterDist(c, length, s), rest, hist));
  }

  lemma {:induction false} ReadExtra(v: nat, n: nat, rest: seq<bool>)
    requires v < Pow2(n)
    ensures Num((ToBits(v, n) + rest)[..n]) == v && (ToBits(v, n) + rest)[n..] == rest
  {
    CountRead(v, n, [], rest);
    assert [] + ToBits(v, n) + rest == ToBits(v, n) + rest;
  }

  // The extra bits of a length are added to its base.
  lemma {:induction false} ReadLenExt(c: Codes, base: nat, v: nat, n: nat, rest: seq<bool>, hist: seq<nat>)
    requires CodesOk(c) && base > 0 && n < 16 && v < Pow2(n) && IsBytes(hist)
    ensures Reaches(Conf(LenExt(c, base, n), ToBits(v, n) + rest, hist), Conf(Dist(c, base + v), rest, hist))
  {
    hide Usable, Pow2, ToBits, Num;
    ReadExtra(v, n, rest);
    assert hist + [] == hist;
    OneStep(Conf(LenExt(c, base, n), ToBits(v, n) + rest, hist), Conf(Dist(c, base + v), rest, hist));
  }

  lemma {:induction false} ReadDistExt(c: Codes, length: nat, base: nat, v: nat, n: nat, rest: seq<bool>, hist: seq<nat>)
    requires CodesOk(c) && length > 0 && base > 0 && n < 16 && v < Pow2(n) && IsBytes(hist)
    requires base + Pow2(n) <= WINDOW + 1
    ensures Reaches(Conf(DistExt(c, length, base, n), ToBits(v, n) + rest, hist),
                    Conf(MatchCopy(c, length, base + v), rest, hist))
  {
    hide Usable, Pow2, ToBits, Num;
    ReadExtra(v, n, rest);
    assert hist + [] == hist;
    OneStep(Conf(DistExt(c, length, base, n), ToBits(v, n) + rest, hist),
            Conf(MatchCopy(c, length, base + v), rest, hist));
  }

  // The extra bits of a length as a number, and the base they are added to.
  lemma {:induction false} NoBits(v: nat)
    ensures ToBits(v, 0) == []
  {
  }

  // The tables of base lengths and distances.
  lemma {:induction false} LengthTable(k: nat)
    requires k < 29
    ensures |EXTRA_LBITS| == 29 && |LBASE| == |LEXT| == 31 && EXTRA_LBITS[k] < 16 && LBASE[k] > 0
    ensures EXTRA_LBITS[k] == 0 ==> Pow2(EXTRA_LBITS[k]) == 1
  {
  }

  lemma {:induction false} DistTable(k: nat)
    requires k < 30
    ensures |EXTRA_DBITS| == 30 && |DBASE| == |DEXT| == 32 && EXTRA_DBITS[k] < 16 && DBASE[k] > 0
  {
  }

  lemma {:induction false} LengthParts(c: Codes, l: nat, k: nat) returns (v: nat)
    requires MIN_MATCH <= l <= MAX_MATCH && k == LengthCode(l - 3) && Has(c.lit, 257 + k)
    ensures k < LENGTH_CODES && v < Pow2(EXTRA_LBITS[k])
    ensures LBASE[k] + v == l && LEXT[k] == 16 + EXTRA_LBITS[k] && EXTRA_LBITS[k] < 16 && LBASE[k] > 0
    ensures LengthBits(c, l) == CodeBits(c.lit, 257 + k) + ToBits(v, EXTRA_LBITS[k])
  {
    hide LengthCode, CodeBits, BaseLength, Has, Pow2, LBASE, LEXT, EXTRA_LBITS, LensOk, ToBits;
    LengthTable(k);
    LengthAgrees(l - 3);
    v := l - LBASE[k];
    NoBits(v);
  }

  lemma {:induction false} DistParts(c: Codes, d: nat, k: nat) returns (v: nat)
    requires 1 <= d <= WINDOW && k == DistCode(d - 1) && Has(c.dist, k)
    ensures k < D_CODES && v < Pow2(EXTRA_DBITS[k])
    ensures DBASE[k] + v == d && DEXT[k] == 16 + EXTRA_DBITS[k] && EXTRA_DBITS[k] < 16 && DBASE[k] > 0
    ensures DBASE[k] + Pow2(EXTRA_DBITS[k]) <= WINDOW + 1
    ensures DistBits(c, d) == CodeBits(c.dist, k) + ToBits(v, EXTRA_DBITS[k])
  {
    hide DistCode, CodeBits, BaseDist, Has, Pow2, DBASE, DEXT, EXTRA_DBITS, LensOk, ToBits;
    DistTable(k);
    DistAgrees(d - 1);
    FarthestOf(k);
    v := d - DBASE[k];
  }

  lemma {:induction false} ReadLength(c: Codes, l: nat, rest: seq<bool>, hist: seq<nat>)
    requires CodesOk(c) && MIN_MATCH <= l <= MAX_MATCH && Has(c.lit, 257 + LengthCode(l - 3)) && IsBytes(hist)
    ensures Reaches(Conf(Len(c), LengthBits(c, l) + rest, hist), Conf(Dist(c, l), rest, hist))
  {
    hide Reaches, Usable, CodeBits, Pow2, ToBits, LengthBits, LengthCode;
    var k := LengthCode(l - 3);
    var v := LengthParts(c, l, k);
    var t := ToBits(v, EXTRA_LBITS[k]);
    assert LengthBits(c, l) + rest == CodeBits(c.lit, 257 + k) + (t + rest);
    ReadLit(c, 257 + k, t + rest, hist);
    ReadLenExt(c, LBASE[k], v, EXTRA_LBITS[k], rest, hist);
    ReachesJoin(Conf(Len(c), LengthBits(c, l) + rest, hist),
                Conf(LenExt(c, LBASE[k], EXTRA_LBITS[k]), t + rest, hist), Conf(Dist(c, l), rest, hist));
  }

  lemma {:induction false} ReadDist(c: Codes, length: nat, d: nat, rest: seq<bool>, hist: seq<nat>)
    requires CodesOk(c) && 1 <= d <= WINDOW && Has(c.dist, DistCode(d - 1)) && IsBytes(hist) && length > 0
    ensures Reaches(Conf(Dist(c, length), DistBits(c, d) + rest, hist), Conf(MatchCopy(c, length, d), rest, hist))
  {
    hide Reaches, Usable, CodeBits, Pow2, ToBits, DistBits, DistCode;
    var k := DistCode(d - 1);
    var v := DistParts(c, d, k);
    var t := ToBits(v, EXTRA_DBITS[k]);
    assert DistBits(c, d) + rest == CodeBits(c.dist, k) + (t + rest);
    ReadDistSym(c, length, k, t + rest, hist);
    ReadDistExt(c, length, DBASE[k], v, EXTRA_DBITS[k], rest, hist);
    ReachesJoin(Conf(Dist(c, length), DistBits(c, d) + rest, hist),
                Conf(DistExt(c, length, DBASE[k], EXTRA_DBITS[k]), t + rest, hist),
                Conf(MatchCopy(c, length, d), rest, hist));
  }

  /** The copy of a match, byte by byte. */
  lemma {:induction false} ReadCopy(c: Codes, n: nat, d: nat, rest: seq<bool>, hist: seq<nat>)
    requires CodesOk(c) && IsBytes(hist) && 0 < d <= |hist| && d <= WINDOW && n > 0
    ensures IsBytes(Copied(hist, d, n))
    ensures Reaches(Conf(MatchCopy(c, n, d), rest, hist), Conf(Len(c), rest, Copied(hist, d, n)))
    decreases n
  {
    hide Usable, Reaches;
    var next := hist + [hist[|hist| - d]];
    assert IsBytes(next);
    var mid := Conf(if n == 1 then Len(c) else MatchCopy(c, n - 1, d), rest, next);
    assert rest[0..] == rest;
    OneStep(Conf(MatchCopy(c, n, d), rest, hist), mid);
    assert Copied(hist, d, n) == Copied(next, d, n - 1);
    if n > 1 {
      ReadCopy(c, n - 1, d, rest, next);
      ReachesJoin(Conf(MatchCopy(c, n, d), rest, hist), mid, Conf(Len(c), rest, Copied(hist, d, n)));
    } else {
      assert Copied(next, d, 0) == next;
    }
  }

  lemma {:induction false} ReadLiteral(c: Codes, b: nat, rest: seq<bool>, hist: seq<nat>)
    requires CodesOk(c) && Has(c.lit, b) && b < 256 && IsBytes(hist)
    ensures Reaches(Conf(Len(c), CodeBits(c.lit, b) + rest, hist), Conf(Len(c), rest, hist + [b]))
  {
    hide Usable, Reaches, CodeBits;
    ReadLit(c, b, rest, hist);
    assert rest[0..] == rest;
    OneStep(Conf(Lit(c, b), rest, hist), Conf(Len(c), rest, hist + [b]));
    ReachesJoin(Conf(Len(c), CodeBits(c.lit, b) + rest, hist), Conf(Lit(c, b), rest, hist),
                Conf(Len(c), rest, hist + [b]));
  }

  lemma {:induction false} ReadMatch(c: Codes, t: Token, rest: seq<bool>, hist: seq<nat>)
    requires CodesOk(c) && t.Match? && Encodes(c, t) && TokenOk(t, hist) && IsBytes(hist)
    ensures IsBytes(Denoted(t, hist))
    ensures Reaches(Conf(Len(c), TokenBits(c, t) + rest, hist), Conf(Len(c), rest, Denoted(t, hist)))
  {
    hide Usable, Reaches, LengthBits, DistBits, LengthCode, DistCode, Has;
    var Match(d, l) := t;
    assert TokenBits(c, t) + rest == LengthBits(c, l) + (DistBits(c, d) + rest);
    var a := Conf(Len(c), TokenBits(c, t) + rest, hist);
    ReadLength(c, l, DistBits(c, d) + rest, hist);
    ReadDist(c, l, d, rest, hist);
    ReadCopy(c, l, d, rest, hist);
    ReachesJoin(a, Conf(Dist(c, l), DistBits(c, d) + rest, hist), Conf(MatchCopy(c, l, d), rest, hist));
    ReachesJoin(a, Conf(MatchCopy(c, l, d), rest, hist), Conf(Len(c), rest, Copied(hist, d, l)));
  }

  /** A token is read as the bytes it denotes. */
  lemma {:induction false} ReadToken(c: Codes, t: Token, rest: seq<bool>, hist: seq<nat>)
    requires CodesOk(c) && Encodes(c, t) && TokenOk(t, hist) && IsBytes(hist)
    ensures IsBytes(Denoted(t, hist))
    ensures Reaches(Conf(Len(c), TokenBits(c, t) + rest, hist), Conf(Len(c), rest, Denoted(t, hist)))
  {
    hide Usable, Reaches, LengthBits, DistBits, LengthCode, DistCode, Has;
    match t
    case Literal(b) =>
      ReadLiteral(c, b, rest, hist);
    case Match(d, l) =>
      ReadMatch(c, t, rest, hist);
  }

  lemma {:induction false} TokensSplit(ts: seq<Token>, hist: seq<nat>)
    requires ts != [] && TokensOk(ts, hist)
    ensures TokensOk(ts[..|ts| - 1], hist)
    ensures TokenOk(ts[|ts| - 1], Expand(ts[..|ts| - 1], hist))
    ensures Expand(ts, hist) == Denoted(ts[|ts| - 1], Expand(ts[..|ts| - 1], hist))
    decreases |ts|
  {
    var n := |ts| - 1;
    if n > 0 {
      TokensSplit(ts[1..], Denoted(ts[0], hist));
      assert ts[1..][..n - 1] == ts[..n][1..];
    } else {
      assert ts[..0] == [] && ts[1..] == [];
    }
  }

  lemma {:induction false} ReadTokens(c: Codes, ts: seq<Token>, rest: seq<bool>, hist: seq<nat>)
    requires CodesOk(c) && EncodesAll(c, ts) && TokensOk(ts, hist) && IsBytes(hist)
    ensures IsBytes(Expand(ts, hist))
    ensures Reaches(Conf(Len(c), TokensBits(c, ts) + rest, hist), Conf(Len(c), rest, Expand(ts, hist)))
    decreases |ts|
  {
    hide Usable, Reaches, TokenBits, Has, Encodes;
    if ts == [] {
      assert TokensBits(c, ts) + rest == rest;
      NoStep(Conf(Len(c), rest, hist));
    } else {
      var n := |ts| - 1;
      var t := ts[n];
      TokensSplit(ts, hist);
      var h := Expand(ts[..n], hist);
      assert Encodes(c, t);
      assert TokensBits(c, ts) + rest == TokensBits(c, ts[..n]) + (TokenBits(c, t) + rest);
      ReadTokens(c, ts[..n], TokenBits(c, t) + rest, hist);
      ReadToken(c, t, rest, h);
      ReachesJoin(Conf(Len(c), TokensBits(c, ts) + rest, hist), Conf(Len(c), TokenBits(c, t) + rest, h),
                  Conf(Len(c), rest, Denoted(t, h)));
    }
  }

  /** The data of a block are read as the bytes its tokens stand for; then comes the next block. */
  lemma {:induction false} ReadBlockData(c: Codes, ts: seq<Token>, rest: seq<bool>, hist: seq<nat>)
    requires CodesOk(c) && EncodesAll(c, ts) && TokensOk(ts, hist) && IsBytes(hist)
    ensures IsBytes(Expand(ts, hist))
    ensures Reaches(Conf(Len(c), BlockBits(c, ts) + rest, hist), Conf(TypeDo(c.last), rest, Expand(ts, hist)))
  {
    hide Usable, Reaches, TokensBits, CodeBits, Encodes;
    var e := CodeBits(c.lit, END_BLOCK) + rest;
    assert BlockBits(c, ts) + rest == TokensBits(c, ts) + e;
    ReadTokens(c, ts, e, hist);
    ReadLit(c, END_BLOCK, rest, Expand(ts, hist));
    ReachesJoin(Conf(Len(c), BlockBits(c, ts) + rest, hist), Conf(Len(c), e, Expand(ts, hist)),
                Conf(TypeDo(c.last), rest, Expand(ts, hist)));
  }
}
