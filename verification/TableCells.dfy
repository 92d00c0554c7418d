/** Cells of an inflate decoding table, and the small loops of inflate_table that touch them. */
module TableCells {
  import opened Bits
  import opened Canonical

  /** One entry: a literal (op 0), a link to a sub-table (op 1..15), a length or
      distance base with op - 16 extra bits, the end of block (op 96), or invalid (op 64). */
  datatype Code = Code(op: nat, bits: nat, val: nat)

  datatype CodeType = CODES | LENS | DISTS

  const ENOUGH_LENS: nat := 852
  const ENOUGH_DISTS: nat := 592

  const LBASE: seq<nat> := [3, 4, 5, 6, 7, 8, 9, 10, 11, 13, 15, 17, 19, 23, 27, 31,
                            35, 43, 51, 59, 67, 83, 99, 115, 131, 163, 195, 227, 258, 0, 0]
  const LEXT: seq<nat> := [16, 16, 16, 16, 16, 16, 16, 16, 17, 17, 17, 17, 18, 18, 18, 18,
                           19, 19, 19, 19, 20, 20, 20, 20, 21, 21, 21, 21, 16, 77, 202]
  const DBASE: seq<nat> := [1, 2, 3, 4, 5, 7, 9, 13, 17, 25, 33, 49, 65, 97, 129, 193,
                            257, 385, 513, 769, 1025, 1537, 2049, 3073, 4097, 6145,
                            8193, 12289, 16385, 24577, 0, 0]
  const DEXT: seq<nat> := [16, 16, 16, 16, 17, 17, 18, 18, 19, 19, 20, 20, 21, 21, 22, 22,
                           23, 23, 24, 24, 25, 25, 26, 26, 27, 27, 28, 28, 29, 29, 64, 64]

  // How many symbols the tables above have entries for.
  function MaxSyms(kind: CodeType): nat {
    match kind
    case CODES => 19
    case LENS => 288
    case DISTS => 32
  }

  // The table entry of symbol `sym`, whose code has `bits` bits left at this level.
  function Here(kind: CodeType, sym: nat, bits: nat): Code
    requires sym < MaxSyms(kind)
  {
    match kind
    case CODES => Code(0, bits, sym)
    case LENS =>
      if sym < 256 then Code(0, bits, sym)
      else if sym == 256 then Code(96, bits, 0)
      else Code(LEXT[sym - 257], bits, LBASE[sym - 257])
    case DISTS => Code(DEXT[sym], bits, DBASE[sym])
  }

  const INVALID: Code := Code(64, 1, 0)

  predicate IsLink(e: Code) {
    0 < e.op < 16
  }

  // The entries of symbols are never mistaken for links.
  lemma {:induction false} HereIsNoLink(kind: CodeType, sym: nat, bits: nat)
    requires sym < MaxSyms(kind)
    ensures !IsLink(Here(kind, sym, bits))
  {
  }

  /** The successor of a code when its bits are kept in reverse order: the
      last element is the lowest digit.  All ones wrap round to all zeros. */
  function BackInc(w: seq<bool>): (r: seq<bool>)
    ensures |r| == |w|
  {
    if w == [] then []
    else if w[|w| - 1] then BackInc(w[..|w| - 1]) + [false]
    else w[..|w| - 1] + [true]
  }

  lemma {:induction false} BackIncMsb(c: nat, n: nat)
    ensures BackInc(Msb(c, n)) == Msb(c + 1, n)
  {
    if n > 0 {
      hide Msb;
      var m := Msb(c / 2, n - 1);
      MsbLast(c, n);
      MsbLast(c + 1, n);
      BackIncMsb(c / 2, n - 1);
      assert Msb(c, n)[..n - 1] == m;
      if c % 2 == 1 {
        assert (c + 1) / 2 == c / 2 + 1;
      } else {
        assert (c + 1) / 2 == c / 2;
      }
    }
  }

  lemma {:induction false} MsbLast(c: nat, n: nat)
    requires n > 0
    ensures Msb(c, n) == Msb(c / 2, n - 1) + [c % 2 == 1]
  {
    assert ToBits(c, n) == [c % 2 == 1] + ToBits(c / 2, n - 1);
  }

  lemma {:induction false} NumZeros(n: nat)
    ensures Num(Zeros(n)) == 0
  {
    if n > 0 {
      assert Zeros(n)[1..] == Zeros(n - 1);
      NumZeros(n - 1);
    }
  }

  lemma {:induction false} NumAt(h: nat, n: nat, i: nat)
    requires i < n
    ensures ToBits(h, n)[i] == (Shr(h, i) % 2 == 1)
    ensures Num(ToBits(h, n)[..i]) == Low(h, i)
  {
    ToBitsSplit(h, i, n - i);
    assert ToBits(h, n)[..i] == ToBits(h, i);
    assert ToBits(h, n)[i] == ToBits(Shr(h, i), n - i)[0];
    NumToBits(h, i);
  }

  // One probe of the increment: a set digit is cleared and the carry moves on.
  lemma {:induction false} CarryOn(w: seq<bool>, j: nat, z: seq<bool>)
    requires 0 < j <= |w| && w[j - 1]
    requires BackInc(w) == BackInc(w[..j]) + z
    ensures BackInc(w) == BackInc(w[..j - 1]) + ([false] + z)
  {
    hide BackInc;
    var u := w[..j];
    assert u[..j - 1] == w[..j - 1];
    BackIncSet(u);
  }

  lemma {:induction false} BackIncSet(u: seq<bool>)
    requires u != [] && u[|u| - 1]
    ensures BackInc(u) == BackInc(u[..|u| - 1]) + [false]
  {
  }

  // The probe that ends the search sets the digit it finds clear.
  lemma {:induction false} CarryStop(w: seq<bool>, j: nat, z: seq<bool>)
    requires 0 < j <= |w| && !w[j - 1] && Num(z) == 0
    requires BackInc(w) == BackInc(w[..j]) + z
    ensures Num(BackInc(w)) == Num(w[..j - 1]) + Pow2(j - 1)
  {
    assert w[..j][..j - 1] == w[..j - 1];
    NumConcat(BackInc(w[..j]), z);
    NumConcat(w[..j - 1], [true]);
    assert Num([true]) == 1;
  }

  // The backwards increment of a `len`-bit code.
  method BackwardIncrement(huff: nat, len: nat) returns (r: nat)
    requires 0 < len && huff < Pow2(len)
    ensures r == Num(BackInc(ToBits(huff, len)))
  {
    ghost var w := ToBits(huff, len);
    var j := len;                   // the probe is bit j - 1, and no bit when j is 0
    ghost var z: seq<bool> := [];   // the digits already cleared
    assert w[..len] == w;
    while j > 0 && Shr(huff, j - 1) % 2 == 1
      invariant 0 <= j <= len
      invariant BackInc(w) == BackInc(w[..j]) + z && Num(z) == 0
    {
      NumAt(huff, len, j - 1);
      CarryOn(w, j, z);
      j, z := j - 1, [false] + z;
    }
    if j > 0 {
      NumAt(huff, len, j - 1);
      CarryStop(w, j, z);
      r := Low(huff, j - 1) + Pow2(j - 1);
    } else {
      assert BackInc(w) == z;
      r := 0;
    }
  }

  // The string whose number is `x`, when the table has `curr` index bits.
  lemma {:induction false} IndexString(x: nat, curr: nat)
    requires x < Pow2(curr)
    ensures Num(ToBits(x, curr)) == x
  {
    NumToBits(x, curr);
    ShrLowUnique(x, curr, x, 0);
  }

  // Slot `x` has the low bits `v`, and at least `m` in the bits above.
  ghost predicate Hit(x: nat, v: nat, a: nat, m: nat) {
    Low(x, a) == v && Shr(x, a) >= m
  }

  lemma {:induction false} HitStep(x: nat, v: nat, a: nat, m: nat)
    requires v < Pow2(a)
    ensures Hit(x, v, a, m) <==> Hit(x, v, a, m + 1) || x == v + Pow2(a) * m
  {
    if x == v + Pow2(a) * m {
      ShrLowUnique(x, a, v, m);
    }
  }

  lemma {:induction false} HitRange(x: nat, v: nat, a: nat, b: nat)
    requires x < Pow2(a + b)
    ensures !Hit(x, v, a, Pow2(b))
  {
    ShrBound(x, a, b);
  }

  // `T` is `T0` with `here` in every hit slot from step `m` up.
  ghost predicate Filled(T: seq<Code>, T0: seq<Code>, v: nat, a: nat, m: nat, here: Code) {
    && |T| == |T0|
    && forall x :: 0 <= x < |T| ==> T[x] == if Hit(x, v, a, m) then here else T0[x]
  }

  lemma {:induction false} FilledStart(T0: seq<Code>, v: nat, a: nat, b: nat, here: Code)
    requires |T0| == Pow2(a + b)
    ensures Filled(T0, T0, v, a, Pow2(b), here)
  {
    forall x | 0 <= x < |T0|
      ensures !Hit(x, v, a, Pow2(b))
    {
      HitRange(x, v, a, b);
    }
  }

  lemma {:induction false} FilledStep(T: seq<Code>, T0: seq<Code>, v: nat, a: nat, m: nat, here: Code)
    requires v < Pow2(a) && v + Pow2(a) * m < |T|
    requires Filled(T, T0, v, a, m + 1, here)
    ensures Filled(T[v + Pow2(a) * m := here], T0, v, a, m, here)
  {
    forall x | 0 <= x < |T|
      ensures Hit(x, v, a, m) <==> Hit(x, v, a, m + 1) || x == v + Pow2(a) * m
    {
      HitStep(x, v, a, m);
    }
  }

  lemma {:induction false} FilledEnd(T: seq<Code>, T0: seq<Code>, v: nat, a: nat, curr: nat, here: Code, q: seq<bool>)
    requires a <= curr == |q| && v < Pow2(a) && |T0| == Pow2(curr)
    requires Filled(T, T0, v, a, 0, here)
    ensures T[Num(q)] == if ToBits(v, a) <= q then here else T0[Num(q)]
  {
    SlotMatches(q, v, a);
    assert Hit(Num(q), v, a, 0) <==> Low(Num(q), a) == v;
  }

  lemma {:induction false} StepDown(incr: nat, m: nat, steps: nat, size: nat)
    requires incr * m != 0 && m <= steps && incr * steps == size
    ensures m > 0 && incr * m == incr * (m - 1) + incr
    ensures incr * m <= size
  {
    MulMono(incr, m, steps);
  }

  // The loop of `Replicate`.
  method FillSlots(table: array<Code>, next: nat, v: nat, a: nat, curr: nat, here: Code)
    requires a <= curr && v < Pow2(a)
    requires next + Pow2(curr) <= table.Length
    modifies table
    ensures Filled(table[next..next + Pow2(curr)], old(table[next..next + Pow2(curr)]), v, a, 0, here)
    ensures table[..next] == old(table[..next])
    ensures table[next + Pow2(curr)..] == old(table[next + Pow2(curr)..])
  {
    hide Filled, Hit, Pow2;
    var size, incr := Pow2(curr), Pow2(a);
    ghost var steps := Pow2(curr - a);
    ghost var T0 := table[next..next + size];
    Pow2Add(a, curr - a);
    FilledStart(T0, v, a, curr - a, here);
    var fill := size;
    ghost var m := steps;            // fill == incr * m
    while fill != 0
      invariant fill == incr * m && m <= steps
      invariant table[..next] == old(table[..next])
      invariant table[next + size..] == old(table[next + size..])
      invariant Filled(table[next..next + size], T0, v, a, m, here)
      decreases m
    {
      StepDown(incr, m, steps, size);
      fill := fill - incr;
      m := m - 1;
      ghost var T := table[next..next + size];
      FilledStep(T, T0, v, a, m, here);
      table[next + (v + fill)] := here;
      assert table[next..next + size] == T[v + fill := here];
    }
    MulZero(incr, m);
  }

  /** Copy an entry to every slot of the table of 2^curr slots at `next` whose index
      has the low `a` bits `v`; the slots are visited downwards. */
  method Replicate(table: array<Code>, next: nat, v: nat, a: nat, curr: nat, here: Code)
    requires a <= curr && v < Pow2(a)
    requires next + Pow2(curr) <= table.Length
    modifies table
    ensures forall q: seq<bool> {:trigger Num(q)} :: |q| == curr ==>
              table[next..next + Pow2(curr)][Num(q)] ==
              if ToBits(v, a) <= q then here else old(table[next..next + Pow2(curr)])[Num(q)]
    ensures table[..next] == old(table[..next])
    ensures table[next + Pow2(curr)..] == old(table[next + Pow2(curr)..])
  {
    hide Filled, Hit, Pow2, Num, ToBits;
    FillSlots(table, next, v, a, curr, here);
    ghost var T0, T := old(table[next..next + Pow2(curr)]), table[next..next + Pow2(curr)];
    forall q: seq<bool> {:trigger Num(q)} | |q| == curr
      ensures T[Num(q)] == if ToBits(v, a) <= q then here else T0[Num(q)]
    {
      FilledEnd(T, T0, v, a, curr, here, q);
    }
  }

  lemma {:induction false} MulZero(a: nat, b: nat)
    requires a > 0 && a * b == 0
    ensures b == 0
  {
    if b > 0 {
      MulMono(a, 1, b);
    }
  }

  // A slot index has the low bits `v` exactly when its string starts with the string of `v`.
  lemma {:induction false} SlotMatches(q: seq<bool>, v: nat, a: nat)
    requires a <= |q| && v < Pow2(a)
    ensures Low(Num(q), a) == v <==> ToBits(v, a) <= q
  {
    assert q == q[..a] + q[a..];
    NumConcat(q[..a], q[a..]);
    ShrLowUnique(Num(q), a, Num(q[..a]), Num(q[a..]));
    ToBitsNum(q[..a]);
    IndexString(v, a);
    assert ToBits(v, a) <= q <==> ToBits(v, a) == q[..a];
  }
}
