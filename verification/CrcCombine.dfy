/** Combining two CRCs (crc32_combine_ of crc32.c): appending zeros as a matrix over bits. */
module CrcCombine {
  import opened Bits
  import opened ExclusiveOr
  import opened CrcRegister

  // The rows of `m` picked by the digits of `v`, added up.
  function MatTimes(m: seq<nat>, v: nat): nat
    requires v < Pow2(|m|)
  {
    if v == 0 then 0 else Xor(if v % 2 == 1 then m[0] else 0, MatTimes(m[1..], v / 2))
  }

  /** `m` is the operator that appends `k` zero bits. */
  ghost predicate IsOp(m: seq<nat>, k: nat) {
    |m| == 32 && forall i :: 0 <= i < 32 ==> m[i] == Shifts(Pow2(i), k)
  }

  lemma {:induction false} RowsTimes(m: seq<nat>, k: nat, j: nat, n: nat, v: nat)
    requires IsOp(m, k) && |m| == j + n && v < Pow2(n)
    ensures MatTimes(m[j..], v) == Shifts(Pow2(j) * v, k)
    decreases n
  {
    hide Xor, Shifts, Pow2;
    if v == 0 {
      ShiftsZero(k);
    } else {
      TopRow(v, n);
      assert m[j..][1..] == m[j + 1..] && m[j..][0] == m[j];
      RowsTimes(m, k, j + 1, n - 1, v / 2);
      DigitTimes(j, v);
      ShiftsXor(Pow2(j) * (v % 2), Pow2(j + 1) * (v / 2), k);
      ShiftsZero(k);
    }
  }

  lemma {:induction false} TopRow(v: nat, n: nat)
    requires 0 < v < Pow2(n)
    ensures n > 0 && v / 2 < Pow2(n - 1)
  {
  }

  lemma {:induction false} DigitTimes(j: nat, v: nat)
    ensures Pow2(j) * v == Xor(Pow2(j) * (v % 2), Pow2(j + 1) * (v / 2))
    ensures Pow2(j) * (v % 2) == if v % 2 == 1 then Pow2(j) else 0
  {
    hide Xor;
    assert v == v % 2 + 2 * (v / 2) && Pow2(1) == 2;
    XorJoin(v % 2, v / 2, 1);
    XorShift(v % 2, 2 * (v / 2), j);
    MulAssoc(Pow2(j), 2, v / 2);
  }

  /** The operator applied. */
  lemma {:induction false} OpTimes(m: seq<nat>, k: nat, v: nat)
    requires IsOp(m, k) && v < U32
    ensures v < Pow2(32) && MatTimes(m, v) == Shifts(v, k)
  {
    hide MatTimes, Shifts, Pow2;
    WordBits();
    RowsTimes(m, k, 0, 32, v);
    assert m[0..] == m;
    assert Pow2(0) * v == v by { OneTimes(v); }
  }

  lemma {:induction false} OneTimes(v: nat)
    ensures Pow2(0) * v == v
  {
  }

  lemma {:induction false} RowBound(m: seq<nat>, k: nat, i: nat)
    requires IsOp(m, k) && i < 32
    ensures Pow2(i) < U32 && m[i] < U32
  {
    hide Shifts, Pow2;
    WordBits();
    Pow2Strict(i, 32);
    ShiftsBound(Pow2(i), k);
  }

  /** gf2_matrix_times */
  method MatrixTimes(mat: array<nat>, vec: nat) returns (sum: nat)
    requires vec < Pow2(mat.Length)
    ensures sum == MatTimes(mat[..], vec)
  {
    hide Xor, Pow2;
    sum := 0;
    var v: nat, i: nat := vec, 0;
    XorZero(MatTimes(mat[..], vec));
    assert mat[0..] == mat[..];
    while v != 0
      invariant i <= mat.Length && v < Pow2(mat.Length - i)
      invariant Xor(sum, MatTimes(mat[i..], v)) == MatTimes(mat[..], vec)
      decreases v
    {
      NextRow(mat[i..], sum, v);
      if v % 2 == 1 {
        sum := Xor(sum, mat[i]);
      }
      v := v / 2;
      assert mat[i..][1..] == mat[i + 1..];
      i := i + 1;
    }
    XorZero(sum);
  }

  lemma {:induction false} NextRow(m: seq<nat>, sum: nat, v: nat)
    requires 0 < v < Pow2(|m|)
    ensures |m| > 0 && v / 2 < Pow2(|m| - 1)
    ensures Xor(sum, MatTimes(m, v)) == Xor(if v % 2 == 1 then Xor(sum, m[0]) else sum, MatTimes(m[1..], v / 2))
  {
    hide Xor;
    XorAssoc(sum, m[0], MatTimes(m[1..], v / 2));
    XorZero(MatTimes(m[1..], v / 2));
  }

  /** gf2_matrix_square: the operator for twice as many zeros. */
  method MatrixSquare(square: array<nat>, mat: array<nat>, ghost k: nat)
    requires square != mat && square.Length == 32 && IsOp(mat[..], k)
    modifies square
    ensures IsOp(square[..], 2 * k)
  {
    hide MatTimes, Shifts, Pow2;
    WordBits();
    for n := 0 to 32
      invariant forall i :: 0 <= i < n ==> square[i] == Shifts(Pow2(i), 2 * k)
    {
      RowBound(mat[..], k, n);
      OpTimes(mat[..], k, mat[n]);
      ShiftsAdd(Pow2(n), k, k);
      square[n] := MatrixTimes(mat, mat[n]);
    }
  }

  // The operator for one zero bit.
  method OneZero(odd: array<nat>)
    requires odd.Length == 32
    modifies odd
    ensures IsOp(odd[..], 1)
  {
    hide Shifts, Pow2;
    FirstRows();
    odd[0] := POLY;
    var row := 1;
    for n := 1 to 32
      invariant row == Pow2(n - 1)
      invariant forall i :: 0 <= i < n ==> odd[i] == Shifts(Pow2(i), 1)
    {
      NextOne(n);
      odd[n] := row;
      row := 2 * row;
    }
  }

  lemma {:induction false} FirstRows()
    ensures Shifts(Pow2(0), 1) == POLY && Pow2(0) == 1
  {
    XorZero(POLY);
    hide Xor;
    assert Shifts(1, 1) == Shifts(Shift1(1), 0) == Shift1(1);
  }

  lemma {:induction false} NextOne(n: nat)
    requires n > 0
    ensures Shifts(Pow2(n), 1) == Pow2(n - 1) && Pow2(n) == 2 * Pow2(n - 1)
  {
    ShiftEven(Pow2(n - 1));
    assert Shifts(Pow2(n), 1) == Shifts(Shift1(Pow2(n)), 0);
  }

  // The operators take turns: `m` appends 4 * k zeros, `m2` becomes the one for 8 * k.
  method Double(m2: array<nat>, m: array<nat>, crc: nat, len: nat, ghost k: nat) returns (r: nat)
    requires m2 != m && m2.Length == 32 && IsOp(m[..], k) && crc < U32
    modifies m2
    ensures IsOp(m2[..], 2 * k) && r < U32
    ensures Shifts(r, 4 * k * (len / 2)) == Shifts(crc, 2 * k * len)
  {
    hide MatTimes, Shifts, Pow2;
    WordBits();
    MatrixSquare(m2, m, k);
    r := crc;
    HalfLength(k, len);
    if len % 2 == 1 {
      OpTimes(m2[..], 2 * k, crc);
      ShiftsBound(crc, 2 * k);
      r := MatrixTimes(m2, crc);
      ShiftsAdd(crc, 2 * k, 4 * k * (len / 2));
    }
  }

  lemma {:induction false} HalfLength(k: nat, len: nat)
    ensures 2 * k * len == 4 * k * (len / 2) + 2 * k * (len % 2)
    ensures len % 2 == 1 ==> 2 * k * len == 2 * k + 4 * k * (len / 2)
    ensures len % 2 == 0 ==> 2 * k * len == 4 * k * (len / 2)
  {
    assert len == 2 * (len / 2) + len % 2;
    MulAssoc(2 * k, 2, len / 2);
  }

  /** The register after two parts. */
  lemma {:induction false} FeedXor(a: nat, c: nat, b: seq<bool>)
    ensures Feed(Xor(a, c), b) == Xor(Feed(a, b), Shifts(c, |b|))
  {
    hide Xor, Shifts, Feed;
    FeedWhole(Xor(a, c), b);
    FeedWhole(a, b);
    var v := Num(b);
    XorAssoc(a, c, v);
    XorComm(c, v);
    XorAssoc(a, v, c);
    ShiftsXor(Xor(a, v), c, |b|);
  }

  /** The checksum of two parts from the checksums of the parts. */
  lemma {:induction false} Combined(crc: nat, s1: seq<nat>, s2: seq<nat>)
    ensures Crc32(crc, s1 + s2) == Xor(Shifts(Crc32(crc, s1), 8 * |s2|), Crc32(0, s2))
  {
    hide Xor, Shifts, Feed, ByteBits;
    var f, b1, b2 := Xor(crc, ONES), ByteBits(s1), ByteBits(s2);
    ByteBitsConcat(s1, s2);
    FeedConcat(f, b1, b2);
    var c1 := Feed(f, b1);
    XorZero(ONES);
    // c1 is the first checksum and the ones
    XorAssoc(c1, ONES, ONES);
    XorSelf(ONES);
    XorZero(c1);
    XorComm(Crc32(crc, s1), ONES);
    FeedXor(ONES, Crc32(crc, s1), b2);
    var z := Shifts(Crc32(crc, s1), 8 * |s2|);
    XorComm(Feed(ONES, b2), z);
    XorAssoc(z, Feed(ONES, b2), ONES);
  }

  /** crc32_combine_: the checksum of the concatenation, for every length of the second part. */
  method Crc32Combine(crc1: nat, crc2: nat, len2: int) returns (r: nat)
    requires crc1 < U32 && crc2 < U32
    ensures len2 <= 0 ==> r == crc1
    ensures len2 > 0 ==> r == Xor(Shifts(crc1, 8 * len2), crc2)
    ensures forall s1, s2 :: crc1 == Crc32(0, s1) && crc2 == Crc32(0, s2) && |s2| == len2 ==> r == Crc32(0, s1 + s2)
  {
    hide Xor, Shifts, Feed, ByteBits, MatTimes, Pow2;
    forall s1, s2 | crc1 == Crc32(0, s1) && crc2 == Crc32(0, s2) && |s2| == len2
      ensures Crc32(0, s1 + s2) == if len2 <= 0 then crc1 else Xor(Shifts(crc1, 8 * len2), crc2)
    {
      Combined(0, s1, s2);
      NothingMore(s1, s2);
    }
    if len2 <= 0 {
      return crc1;
    }
    var even, odd := new nat[32], new nat[32];
    OneZero(odd);
    MatrixSquare(even, odd, 1);
    MatrixSquare(odd, even, 2);
    r := AppendZeros(even, odd, crc1, len2);
    r := Xor(r, crc2);
  }

  lemma {:induction false} NothingMore(s1: seq<nat>, s2: seq<nat>)
    ensures s2 == [] ==> Crc32(0, s1 + s2) == Crc32(0, s1)
  {
    if s2 == [] {
      assert s1 + s2 == s1;
    }
  }

  // The loop over the digits of the length, with `odd` for four zeros.
  method AppendZeros(even: array<nat>, odd: array<nat>, crc: nat, len: nat) returns (r: nat)
    requires even != odd && even.Length == 32 && IsOp(odd[..], 4) && crc < U32 && len > 0
    modifies even, odd
    ensures r == Shifts(crc, 8 * len)
  {
    hide Shifts, Pow2;
    r := crc;
    var n := len;
    ghost var k := 4;
    while true
      invariant IsOp(odd[..], k) && r < U32 && Shifts(r, 2 * k * n) == Shifts(crc, 8 * len)
      decreases n
    {
      r := Double(even, odd, r, n, k);
      n := n / 2;
      k := 2 * k;
      if n == 0 {
        break;
      }
      r := Double(odd, even, r, n, k);
      n := n / 2;
      k := 2 * k;
      if n == 0 {
        break;
      }
    }
    NoShifts(r);
  }
}
