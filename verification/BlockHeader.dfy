/** The header of a dynamic block (section 3.2.7 of RFC 1951): what send_all_trees writes
and how the states TABLE, LENLENS and CODELENS of inflate read it back. */
module BlockHeader {
  import opened Bits
  import opened Canonical
  import opened TableCells
  import opened CodeCounts
  import opened EnoughSpace
  import opened Tokens
  import opened BlockMachine
  import opened CodeRuns
  import opened RunReader
  import opened BlockData

  // The lengths of the code length code in the order they are sent.
  function Ordered(cl: seq<nat>, n: nat): (r: seq<nat>)
    requires |cl| == 19 && n <= 19
    ensures |r| == n
  {
    seq(n, i requires 0 <= i < n => cl[ORDER[i]])
  }

  function ThreeBits(v: seq<nat>): seq<bool> {
    if v == [] then [] else ToBits(v[0], 3) + ThreeBits(v[1..])
  }

  // The lengths of the literal and the distance code, and the code they are sent with.
  datatype Header = Header(lit: seq<nat>, dist: seq<nat>, cl: seq<nat>, blcodes: nat)

  predicate HeaderOk(h: Header) {
    && LensOk(h.lit) && 257 <= |h.lit| <= 286 && LensOk(h.dist) && 1 <= |h.dist| <= 30
    && |h.cl| == 19 && 4 <= h.blcodes <= 19
    && (forall s :: 0 <= s < 19 ==> h.cl[s] < 8)
    && (forall i :: h.blcodes <= i < 19 ==> h.cl[ORDER[i]] == 0)
    && Sendable(h.cl, RunCodes(h.lit, 0, -1)) && Sendable(h.cl, RunCodes(h.dist, 0, -1))
  }

  function CountsBits(h: Header): seq<bool>
    requires HeaderOk(h)
  {
    ToBits(|h.lit| - 257, 5) + ToBits(|h.dist| - 1, 5) + ToBits(h.blcodes - 4, 4)
  }

  function RunsBits(h: Header): seq<bool>
    requires HeaderOk(h)
  {
    AllRunBits(h.cl, RunCodes(h.lit, 0, -1)) + AllRunBits(h.cl, RunCodes(h.dist, 0, -1))
  }

  function HeaderBits(h: Header): seq<bool>
    requires HeaderOk(h)
  {
    CountsBits(h) + ThreeBits(Ordered(h.cl, h.blcodes)) + RunsBits(h)
  }

  lemma {:induction false} RankOfOrder(i: nat)
    requires i < 19
    ensures ORDER[i] < 19 && Rank(ORDER[i]) == i
  {
  }

  lemma {:induction false} SpreadOrdered(cl: seq<nat>, n: nat)
    requires |cl| == 19 && n <= 19
    requires forall i :: n <= i < 19 ==> cl[ORDER[i]] == 0
    ensures Spread(Ordered(cl, n)) == cl
  {
    forall s | 0 <= s < 19
      ensures Spread(Ordered(cl, n))[s] == cl[s]
    {
      assert ORDER[Rank(s)] == s;
    }
  }

  // The three counts can be read off the first bits.
  lemma {:induction false} CountsShown(h: Header, rest: seq<bool>)
    requires HeaderOk(h)
    ensures var z := CountsBits(h) + rest;
            && |z| >= 14 && z[14..] == rest
            && Num(z[..5]) == |h.lit| - 257 && Num(z[5..10]) == |h.dist| - 1 && Num(z[10..14]) == h.blcodes - 4
  {
    hide ToBits, Sendable, RunCodes, LensOk, Num;
    Pow2Values();
    hide Pow2;
    var a, b, c := ToBits(|h.lit| - 257, 5), ToBits(|h.dist| - 1, 5), ToBits(h.blcodes - 4, 4);
    CountRead(|h.lit| - 257, 5, [], b + c + rest);
    CountRead(|h.dist| - 1, 5, a, c + rest);
    CountRead(h.blcodes - 4, 4, a + b, rest);
    var z := CountsBits(h) + rest;
    assert z == [] + a + (b + c + rest) == a + b + (c + rest) == a + b + c + rest;
  }

  lemma {:induction false} ReadCounts(h: Header, last: bool, rest: seq<bool>, hist: seq<nat>)
    requires HeaderOk(h) && IsBytes(hist)
    ensures Reaches(Conf(Table(last), CountsBits(h) + rest, hist),
                    Conf(LenLens(last, |h.lit|, |h.dist|, h.blcodes, []), rest, hist))
  {
    hide Sendable, RunCodes, LensOk, Num, CountsBits;
    CountsShown(h, rest);
    assert hist + [] == hist;
    OneStep(Conf(Table(last), CountsBits(h) + rest, hist), Conf(LenLens(last, |h.lit|, |h.dist|, h.blcodes, []), rest, hist));
  }

  lemma {:induction false} ReadThree(m: Mode, x: nat, t: seq<bool>, hist: seq<nat>)
    requires m.LenLens? && ModeOk(m) && |m.have| < m.ncode && x < 8 && IsBytes(hist)
    ensures ModeOk(m.(have := m.have + [x]))
    ensures Reaches(Conf(m, ToBits(x, 3) + t, hist), Conf(m.(have := m.have + [x]), t, hist))
  {
    Pow2Values();
    hide Pow2, ToBits;
    assert ToBits(x, 3) + t == [] + ToBits(x, 3) + t;
    CountRead(x, 3, [], t);
    assert hist + [] == hist;
    OneStep(Conf(m, ToBits(x, 3) + t, hist), Conf(m.(have := m.have + [x]), t, hist));
  }

  // The lengths of the code length code are read one by one.
  lemma {:induction false} ReadOrdered(m: Mode, more: seq<nat>, rest: seq<bool>, hist: seq<nat>)
    requires m.LenLens? && ModeOk(m) && |m.have| + |more| <= m.ncode && IsBytes(hist)
    requires forall i :: 0 <= i < |more| ==> more[i] < 8
    ensures ModeOk(m.(have := m.have + more))
    ensures Reaches(Conf(m, ThreeBits(more) + rest, hist), Conf(m.(have := m.have + more), rest, hist))
    decreases |more|
  {
    hide Reaches, ToBits;
    if more == [] {
      assert m.have + more == m.have && ThreeBits(more) + rest == rest;
      NoStep(Conf(m, rest, hist));
    } else {
      var t, next := ThreeBits(more[1..]) + rest, m.(have := m.have + [more[0]]);
      assert ThreeBits(more) + rest == ToBits(more[0], 3) + t;
      ReadThree(m, more[0], t, hist);
      ReadOrdered(next, more[1..], rest, hist);
      assert next.have + more[1..] == m.have + more;
      ReachesJoin(Conf(m, ThreeBits(more) + rest, hist), Conf(next, t, hist),
                  Conf(m.(have := m.have + more), rest, hist));
    }
  }

  // The code lengths of both trees are read as one sequence.
  lemma {:induction false} ReadBothRuns(h: Header, last: bool, rest: seq<bool>, hist: seq<nat>)
    requires HeaderOk(h) && IsBytes(hist) && Usable(CODES, h.cl)
    ensures Reaches(Conf(CodeLens(last, |h.lit|, |h.dist|, h.cl, []), RunsBits(h) + rest, hist),
                    Conf(CodeLens(last, |h.lit|, |h.dist|, h.cl, h.lit + h.dist), rest, hist))
  {
    hide Usable, Reaches, AllRunBits, RunCodes, Sendable;
    var m := CodeLens(last, |h.lit|, |h.dist|, h.cl, []);
    var t := AllRunBits(h.cl, RunCodes(h.dist, 0, -1)) + rest;
    assert RunsBits(h) + rest == AllRunBits(h.cl, RunCodes(h.lit, 0, -1)) + t;
    assert [] + h.lit[0..] == h.lit && h.dist[0..] == h.dist;
    ReadRuns(m, [], h.lit, 0, -1, t, hist);
    ReadRuns(m, h.lit, h.dist, 0, -1, rest, hist);
    ReachesJoin(Reading(m, [], RunsBits(h) + rest, hist), Reading(m, h.lit, t, hist),
                Reading(m, h.lit + h.dist, rest, hist));
  }

  // Codes that fill the space, or have a single code of one bit, or no distance code, are taken.
  lemma {:induction false} TakenTables(h: Header, last: bool)
    requires HeaderOk(h)
    ensures h.lit[256] > 0 && Decodable(LENS, h.lit) && Decodable(DISTS, h.dist) ==>
              TablesMade(last, h.lit + h.dist, |h.lit|) == Len(Codes(last, h.lit, h.dist))
  {
    hide RunCodes, Sendable, Rejected, Outgrown, RootBits, MaxLen, Decodable;
    var l := h.lit + h.dist;
    assert l[..|h.lit|] == h.lit && l[|h.lit|..] == h.dist && l[256] == h.lit[256];
    if Decodable(LENS, h.lit) && Decodable(DISTS, h.dist) {
      AlwaysRoom(LENS, h.lit, 9);
      AlwaysRoom(DISTS, h.dist, 6);
    }
  }

  /** The header is read as the two codes, unless their tables cannot be built; those that a compressor may make always can. */
  lemma {:induction false} ReadHeader(h: Header, last: bool, rest: seq<bool>, hist: seq<nat>)
    requires HeaderOk(h) && IsBytes(hist) && Usable(CODES, h.cl)
    ensures Reaches(Conf(Table(last), HeaderBits(h) + rest, hist),
                    Conf(TablesMade(last, h.lit + h.dist, |h.lit|), rest, hist))
    ensures h.lit[256] > 0 && Decodable(LENS, h.lit) && Decodable(DISTS, h.dist) ==>
              TablesMade(last, h.lit + h.dist, |h.lit|) == Len(Codes(last, h.lit, h.dist))
  {
    hide Usable, Reaches, AllRunBits, RunCodes, Sendable, CountsBits, RunsBits, ThreeBits, TablesMade, Decodable;
    TakenTables(h, last);
    var o := Ordered(h.cl, h.blcodes);
    var c0 := Conf(Table(last), HeaderBits(h) + rest, hist);
    var m := LenLens(last, |h.lit|, |h.dist|, h.blcodes, []);
    assert HeaderBits(h) + rest == CountsBits(h) + (ThreeBits(o) + (RunsBits(h) + rest));
    ReadCounts(h, last, ThreeBits(o) + (RunsBits(h) + rest), hist);
    OrderedSmall(h);
    ReadOrdered(m, o, RunsBits(h) + rest, hist);
    assert [] + o == o;
    ReachesJoin(c0, Conf(m, ThreeBits(o) + (RunsBits(h) + rest), hist), Conf(m.(have := o), RunsBits(h) + rest, hist));
    var c2 := Conf(CodeLens(last, |h.lit|, |h.dist|, h.cl, []), RunsBits(h) + rest, hist);
    LensKnown(h, m.(have := o), RunsBits(h) + rest, hist);
    ReachesJoin(c0, Conf(m.(have := o), RunsBits(h) + rest, hist), c2);
    ReadBothRuns(h, last, rest, hist);
    var c3 := Conf(CodeLens(last, |h.lit|, |h.dist|, h.cl, h.lit + h.dist), rest, hist);
    ReachesJoin(c0, c2, c3);
    MakeTables(h, last, rest, hist);
    ReachesJoin(c0, c3, Conf(TablesMade(last, h.lit + h.dist, |h.lit|), rest, hist));
  }

  lemma {:induction false} OrderedSmall(h: Header)
    requires HeaderOk(h)
    ensures forall i :: 0 <= i < h.blcodes ==> Ordered(h.cl, h.blcodes)[i] < 8
  {
    hide Sendable, RunCodes;
    forall i | 0 <= i < h.blcodes
      ensures Ordered(h.cl, h.blcodes)[i] < 8
    {
      RankOfOrder(i);
    }
  }

  lemma {:induction false} LensKnown(h: Header, m: Mode, b: seq<bool>, hist: seq<nat>)
    requires HeaderOk(h) && Usable(CODES, h.cl) && IsBytes(hist)
    requires m.LenLens? && m.nlen == |h.lit| && m.ndist == |h.dist| && m.ncode == h.blcodes
    requires m.have == Ordered(h.cl, h.blcodes)
    ensures Reaches(Conf(m, b, hist), Conf(CodeLens(m.last, |h.lit|, |h.dist|, h.cl, []), b, hist))
  {
    hide Sendable, RunCodes, Rejected;
    OrderedSmall(h);
    SpreadOrdered(h.cl, h.blcodes);
    assert hist + [] == hist && b[0..] == b;
    OneStep(Conf(m, b, hist), Conf(CodeLens(m.last, |h.lit|, |h.dist|, h.cl, []), b, hist));
  }

  lemma {:induction false} MakeTables(h: Header, last: bool, b: seq<bool>, hist: seq<nat>)
    requires HeaderOk(h) && Usable(CODES, h.cl) && IsBytes(hist)
    ensures Reaches(Conf(CodeLens(last, |h.lit|, |h.dist|, h.cl, h.lit + h.dist), b, hist),
                    Conf(TablesMade(last, h.lit + h.dist, |h.lit|), b, hist))
  {
    hide Sendable, RunCodes, Rejected, TablesMade;
    assert hist + [] == hist && b[0..] == b;
    OneStep(Conf(CodeLens(last, |h.lit|, |h.dist|, h.cl, h.lit + h.dist), b, hist),
            Conf(TablesMade(last, h.lit + h.dist, |h.lit|), b, hist));
  }
}
