/** Building the constant tables of deflate (tr_static_init in trees.c). */
module StaticInit {
  import opened Bits
  import opened Canonical
  import opened CodeCounts
  import opened FixedCodes
  import opened GenCodes
  import opened Symbols

  lemma {:induction false} BaseMono(extra: seq<nat>, a: nat, b: nat)
    requires a <= b <= |extra|
    ensures Base(extra, a) <= Base(extra, b)
  {
    if a < b {
      BaseMono(extra, a, b - 1);
    }
  }

  lemma {:induction false} CodeForIs(extra: seq<nat>, n: nat, x: nat, c: nat)
    requires c < n <= |extra| && Base(extra, c) <= x < Base(extra, c + 1)
    ensures CodeFor(extra, n, x) == c
  {
    if c < n - 1 {
      BaseMono(extra, c + 1, n - 1);
      CodeForIs(extra, n - 1, x, c);
    }
  }

  // The first `n` entries of the table `codes` are right.
  ghost predicate CodesUpTo(codes: seq<nat>, extra: seq<nat>, m: nat, n: nat) {
    && 0 < m <= |extra| && n <= |codes|
    && forall x :: 0 <= x < n ==> codes[x] == CodeFor(extra, m, x)
  }

  /** Fill the values of code `code` into `table`. */
  method FillCode(table: array<nat>, extra: seq<nat>, m: nat, code: nat, start: nat) returns (end: nat)
    requires code < m <= |extra| && start == Base(extra, code)
    requires Base(extra, code + 1) <= table.Length && CodesUpTo(table[..], extra, m, start)
    modifies table
    ensures end == Base(extra, code + 1) && CodesUpTo(table[..], extra, m, end)
  {
    end := start;
    var n: nat := 0;
    assert Base(extra, code + 1) == start + Pow2(extra[code]);
    hide Base, CodeFor;
    while n < Pow2(extra[code])
      invariant n <= Pow2(extra[code]) && end == start + n
      invariant CodesUpTo(table[..], extra, m, end)
    {
      CodeForIs(extra, m, end, code);
      ghost var t := table[..];
      table[end] := code;
      assert table[..] == t[end := code];
      n, end := n + 1, end + 1;
    }
  }

  lemma {:induction false} LengthTotal()
    ensures Base(EXTRA_LBITS, 28) == 256
  {
    LengthBases(27);
    LengthGap(27);
  }

  lemma {:induction false} DistTotals()
    ensures Base(EXTRA_DBITS, 16) == 256 && Base(EXTRA_DBITS, 30) == 32768
  {
    hide Base, Pow2;
    DistBases(16);
    DistBases(29);
    DistGap(29);
    BaseNext(EXTRA_DBITS, 29);
  }

  lemma {:induction false} BaseNext(extra: seq<nat>, c: nat)
    requires c < |extra|
    ensures Base(extra, c + 1) == Base(extra, c) + Pow2(extra[c])
  {
  }

  // The first `k` bases are right.
  ghost predicate BasesUpTo(bases: seq<nat>, extra: seq<nat>, k: nat) {
    k <= |bases| && k <= |extra| && forall c :: 0 <= c < k ==> bases[c] == Base(extra, c)
  }

  /** Fill the tables for the first `k` codes. */
  method FillCodes(table: array<nat>, bases: array<nat>, extra: seq<nat>, m: nat, k: nat) returns (end: nat)
    requires k <= m <= |extra| && 0 < m && k <= bases.Length && table != bases
    requires Base(extra, k) <= table.Length
    modifies table, bases
    ensures end == Base(extra, k) && CodesUpTo(table[..], extra, m, end)
    ensures BasesUpTo(bases[..], extra, k)
    ensures bases[k..] == old(bases[k..])
  {
    end := 0;
    var code: nat := 0;
    NoBase(extra);
    hide Base, CodeFor;
    while code < k
      invariant code <= k && end == Base(extra, code)
      invariant CodesUpTo(table[..], extra, m, end)
      invariant BasesUpTo(bases[..], extra, code)
      invariant bases[k..] == old(bases[k..])
    {
      bases[code] := end;
      BaseMono(extra, code + 1, k);
      end := FillCode(table, extra, m, code, end);
      code := code + 1;
    }
  }

  /** The length tables; the length 258 gets a code of its own. */
  method InitLengths() returns (length_code: array<nat>, base_length: array<nat>)
    ensures fresh(length_code) && fresh(base_length)
    ensures length_code.Length == 256 && base_length.Length == LENGTH_CODES
    ensures forall lc :: 0 <= lc < 256 ==> length_code[lc] == LengthCode(lc)
    ensures forall c :: 0 <= c < LENGTH_CODES ==> base_length[c] == BaseLength(c)
  {
    length_code, base_length := new nat[256], new nat[LENGTH_CODES](_ => 0);
    LengthTotal();
    hide Base, CodeFor;
    assert base_length[28..][0] == 0;
    var length := FillCodes(length_code, base_length, EXTRA_LBITS, 28, LENGTH_CODES - 1);
    assert base_length[28] == base_length[28..][0];
    length_code[length - 1] := LENGTH_CODES - 1;
  }

  lemma {:induction false} NoBase(extra: seq<nat>)
    ensures Base(extra, 0) == 0
  {
  }

  // What a distance finds in the table of distance codes.
  function DistEntry(dist_code: seq<nat>, d: nat): nat
    requires |dist_code| == 512 && d < 32768
  {
    if d < 256 then dist_code[d] else dist_code[256 + d / 128]
  }

  // The distances below `n` find their codes.
  ghost predicate DistsUpTo(dist_code: seq<nat>, n: nat) {
    && |dist_code| == 512 && n <= 32768
    && forall d: nat :: d < n ==> DistEntry(dist_code, d) == DistCode(d)
  }

  // The codes above the first 16 take whole groups of 128 distances.
  method FillGroups(dist_code: array<nat>, code: nat, start: nat) returns (end: nat)
    requires 16 <= code < D_CODES && start * 128 == BaseDist(code) >= 256
    requires Base(EXTRA_DBITS, code + 1) <= 32768 && DistsUpTo(dist_code[..], start * 128)
    modifies dist_code
    ensures end * 128 == Base(EXTRA_DBITS, code + 1) && DistsUpTo(dist_code[..], end * 128)
  {
    end := start;
    var n: nat := 0;
    assert EXTRA_DBITS[code] >= 7;
    Pow2Values();
    Pow2Add(7, EXTRA_DBITS[code] - 7);
    assert Base(EXTRA_DBITS, code + 1) == start * 128 + 128 * Pow2(EXTRA_DBITS[code] - 7);
    hide Base, CodeFor, DistCode, Pow2;
    while n < Pow2(EXTRA_DBITS[code] - 7)
      invariant n <= Pow2(EXTRA_DBITS[code] - 7) && end == start + n
      invariant DistsUpTo(dist_code[..], end * 128)
    {
      ghost var t := dist_code[..];
      dist_code[256 + end] := code;
      assert dist_code[..] == t[256 + end := code];
      GroupDone(t, code, end);
      n, end := n + 1, end + 1;
    }
  }

  lemma {:induction false} GroupDone(t: seq<nat>, code: nat, j: nat)
    requires code < D_CODES && 2 <= j && DistsUpTo(t, j * 128)
    requires BaseDist(code) <= j * 128 && j * 128 + 128 <= Base(EXTRA_DBITS, code + 1) <= 32768
    ensures DistsUpTo(t[256 + j := code], j * 128 + 128)
  {
    hide Base, CodeFor;
    forall d: nat | d < j * 128 + 128
      ensures DistEntry(t[256 + j := code], d) == DistCode(d)
    {
      if d < j * 128 {
        assert DistEntry(t, d) == DistCode(d);
      } else {
        CodeForIs(EXTRA_DBITS, 30, d, code);
      }
    }
  }

  /** The distance tables: distances from 256 up are looked up by their upper bits. */
  method InitDistances() returns (dist_code: array<nat>, base_dist: array<nat>)
    ensures fresh(dist_code) && fresh(base_dist) && dist_code.Length == 512 && base_dist.Length == D_CODES
    ensures forall d :: 0 <= d < 32768 ==> DistEntry(dist_code[..], d) == DistCode(d)
    ensures forall c :: 0 <= c < D_CODES ==> base_dist[c] == BaseDist(c)
  {
    hide Base, CodeFor, DistsUpTo, DistCode, DistEntry;
    dist_code, base_dist := new nat[512], new nat[D_CODES];
    DistTotals();
    var dist := FillCodes(dist_code, base_dist, EXTRA_DBITS, 30, 16);
    NearDone(dist_code[..], dist);
    FillFar(dist_code, base_dist, dist / 128);
    AllDists(dist_code[..], base_dist[..]);
  }

  // The tables for the distances from 256 up.
  method FillFar(dist_code: array<nat>, base_dist: array<nat>, start: nat)
    requires dist_code != base_dist && base_dist.Length == D_CODES
    requires start * 128 == Base(EXTRA_DBITS, 16)
    requires DistsUpTo(dist_code[..], start * 128) && BasesUpTo(base_dist[..], EXTRA_DBITS, 16)
    modifies dist_code, base_dist
    ensures DistsUpTo(dist_code[..], 32768) && BasesUpTo(base_dist[..], EXTRA_DBITS, D_CODES)
  {
    DistTotals();
    hide Base, DistsUpTo, BasesUpTo;
    var dist: nat, code: nat := start, 16;
    while code < D_CODES
      invariant 16 <= code <= D_CODES && dist * 128 == Base(EXTRA_DBITS, code)
      invariant DistsUpTo(dist_code[..], dist * 128)
      invariant BasesUpTo(base_dist[..], EXTRA_DBITS, code)
    {
      FarCode(code);
      NextBase(base_dist[..], code, dist * 128);
      ghost var t: seq<nat>, v: nat := base_dist[..], dist * 128;
      base_dist[code] := dist * 128;
      assert base_dist[..] == t[code := v];
      dist := FillGroups(dist_code, code, dist);
      code := code + 1;
    }
  }

  lemma {:induction false} NearDone(t: seq<nat>, dist: nat)
    requires CodesUpTo(t, EXTRA_DBITS, 30, dist) && dist == 256 && |t| == 512
    ensures DistsUpTo(t, 256)
  {
    hide CodeFor;
  }

  lemma {:induction false} FarCode(code: nat)
    requires 16 <= code < D_CODES
    ensures BaseDist(code) == Base(EXTRA_DBITS, code) >= 256 && Base(EXTRA_DBITS, code + 1) <= 32768
  {
    hide Base;
    DistTotals();
    BaseMono(EXTRA_DBITS, 16, code);
    BaseMono(EXTRA_DBITS, code + 1, 30);
  }

  lemma {:induction false} NextBase(bases: seq<nat>, c: nat, v: nat)
    requires c < |bases| && c < D_CODES && BasesUpTo(bases, EXTRA_DBITS, c) && v == Base(EXTRA_DBITS, c)
    ensures BasesUpTo(bases[c := v], EXTRA_DBITS, c + 1)
  {
    hide Base;
  }

  lemma {:induction false} AllDists(t: seq<nat>, bases: seq<nat>)
    requires DistsUpTo(t, 32768) && BasesUpTo(bases, EXTRA_DBITS, D_CODES)
    ensures forall d :: 0 <= d < 32768 ==> DistEntry(t, d) == DistCode(d)
    ensures forall c :: 0 <= c < D_CODES ==> bases[c] == BaseDist(c)
  {
    hide Base, CodeFor;
  }
}
