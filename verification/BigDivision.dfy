/** Division by a number with a large top word (hi0bits, dshift and quorem of dtoa.c). */
module BigDivision {
  import opened Bits
  import opened BigValue
  import opened Bigints
  import opened BigShift

  // `n` zeros more: the word moves up.
  lemma {:induction false} MovedUp(x: nat, y: nat, k: nat, n: nat)
    requires n <= 16 && y == Pow2(k) * x < Pow2(32 - n) && (x > 0 ==> Pow2(32 - 2 * n) <= y)
    ensures Pow2(n) * y == Pow2(k + n) * x < W && (x > 0 ==> Pow2(32 - n) <= Pow2(n) * y)
  {
    Word32();
    hide Pow2;
    Pow2Add(32 - 2 * n, n);
    Pow2Add(32 - n, n);
    Pow2Add(k, n);
    MulAssoc(Pow2(n), Pow2(k), x);
    MulStep(y, Pow2(32 - n), Pow2(n));
    if x > 0 {
      MulMono(Pow2(n), Pow2(32 - 2 * n), y);
    }
  }

  lemma {:induction false} HighPart(y: nat, u: nat)
    requires u > 0
    ensures y / u == 0 <==> y < u
  {
  }

  // A test of hi0bits: `y` is `x` moved up by `k` bits, with less than 2 * n zeros left.
  method HalfTest(x: nat, y: nat, k: nat, n: nat) returns (y1: nat, k1: nat)
    requires y == Pow2(k) * x < W && n <= 16 && (x > 0 ==> Pow2(32 - 2 * n) <= y)
    ensures k <= k1 <= k + n && y1 == Pow2(k1) * x < W && (x > 0 ==> Pow2(32 - n) <= y1)
  {
    hide Pow2;
    y1, k1 := y, k;
    HighPart(y, Pow2(32 - n));
    if y / Pow2(32 - n) == 0 {
      MovedUp(x, y, k, n);
      y1, k1 := Pow2(n) * y, k + n;
    }
  }

  /** hi0bits: how many zeros a word starts with. */
  method Hi0bits(x: nat) returns (k: nat)
    requires x < W
    ensures k <= 32 && (x == 0 <==> k == 32)
    ensures x > 0 ==> Pow2(31 - k) <= x < Pow2(32 - k)
  {
    hide Pow2;
    Word32();
    OneTime(x);
    var y;
    y, k := HalfTest(x, x, 0, 16);
    y, k := HalfTest(x, y, k, 8);
    y, k := HalfTest(x, y, k, 4);
    y, k := HalfTest(x, y, k, 2);
    LastTwo(x, k);
    if y / 0x8000_0000 == 0 {
      k := k + 1;
      if y / 0x4000_0000 % 2 == 0 {
        return 32;
      }
    }
  }

  // The last two digits tested.
  lemma {:induction false} LastTwo(x: nat, k: nat)
    requires Pow2(k) * x < W && k <= 30 && (x > 0 ==> Pow2(30) <= Pow2(k) * x)
    ensures x == 0 ==> Pow2(k) * x == 0
    ensures x > 0 && Pow2(k) * x / 0x8000_0000 != 0 ==> Pow2(31 - k) <= x < Pow2(32 - k)
    ensures x > 0 && Pow2(k) * x / 0x8000_0000 == 0 ==> Pow2(k) * x / 0x4000_0000 % 2 == 1 && Pow2(30 - k) <= x < Pow2(31 - k)
  {
    hide Pow2;
    Pow2Add(k, 1);
    assert Pow2(1) == 2 by { Pow2Values(); }
    HighPowers();
    var y := Pow2(k) * x;
    MulAssoc(2, Pow2(k), x);
    if x > 0 && y >= 0x8000_0000 {
      LeadingOne(x, k);
    } else if x > 0 {
      LeadingOne(x, k + 1);
    }
  }

  lemma {:induction false} HighPowers()
    ensures Pow2(27) == 0x800_0000 && Pow2(28) == 0x1000_0000 && Pow2(30) == 0x4000_0000 && Pow2(31) == 0x8000_0000 && Pow2(32) == W
  {
    Word32();
    hide Pow2;
    Pow2Add(1, 30);
    Pow2Add(1, 31);
    Pow2Add(4, 28);
    Pow2Add(5, 27);
    assert Pow2(1) == 2 && Pow2(4) == 16 && Pow2(5) == 32 by { Pow2Values(); }
  }

  lemma {:induction false} OneTime(x: nat)
    ensures Pow2(0) * x == x && Pow2(0) == 1
  {
  }

  lemma {:induction false} LeadingOne(x: nat, k: nat)
    requires x > 0 && Pow2(31) <= Pow2(k) * x < Pow2(32) && k <= 31
    ensures Pow2(31 - k) <= x < Pow2(32 - k)
  {
    hide Pow2;
    Pow2Add(k, 31 - k);
    Pow2Add(k, 32 - k);
    MulCancel(Pow2(k), x, Pow2(32 - k));
    if x < Pow2(31 - k) {
      MulStep(x, Pow2(31 - k), Pow2(k));
    }
  }

  // `v` has `n` digits after its leading one.
  predicate LeadsAt(v: nat, n: nat) {
    Pow2(n) <= v < Pow2(n + 1)
  }

  lemma {:induction false} LeadUp(v: nat, n: nat, k: nat)
    requires LeadsAt(v, n)
    ensures LeadsAt(Pow2(k) * v, n + k)
  {
    hide Pow2;
    Pow2Add(k, n);
    Pow2Add(k, n + 1);
    MulMono(Pow2(k), Pow2(n), v);
    MulStep(v, Pow2(n + 1), Pow2(k));
  }

  lemma {:induction false} LeadUnique(v: nat, m: nat, n: nat)
    requires LeadsAt(v, m) && LeadsAt(v, n)
    ensures m == n
  {
    hide Pow2;
    if m < n {
      Pow2Mono(m + 1, n);
    }
    if n < m {
      Pow2Mono(n + 1, m);
    }
  }

  // The leading digit of the words is that of the top word.
  lemma {:induction false} LeadOfWords(s: seq<nat>, n: nat)
    requires IsWords(s) && s != [] && LeadsAt(s[|s| - 1], n)
    ensures LeadsAt(Val(s), 32 * (|s| - 1) + n)
  {
    hide Pow2, Val, Radix;
    var w, t := 32 * (|s| - 1), s[|s| - 1];
    RadixIs(|s| - 1);
    TopBounds(s);
    LeadUp(t, n, w);
    MulMono(Pow2(w), t + 1, Pow2(n + 1));
    Pow2Add(w, n + 1);
  }

  // Where a word leads.
  lemma {:induction false} LeadOfWord(x: nat) returns (n: nat)
    requires 0 < x < W
    ensures n < 32 && LeadsAt(x, n)
  {
    Word32();
    n := 0;
    while Pow2(n + 1) <= x
      invariant Pow2(n) <= x && n < 32
      decreases 32 - n
    {
      n := n + 1;
      if n == 32 {
        assert false;
      }
    }
  }

  /** The top word of words that lead four digits below the top. */
  lemma {:induction false} TopWord(s: seq<nat>, n: nat)
    requires IsWords(s) && s != [] && s[|s| - 1] > 0 && LeadsAt(Val(s), n) && n % 32 == 27
    ensures 0x800_0000 <= s[|s| - 1] < 0x1000_0000
  {
    hide Pow2, Val;
    HighPowers();
    var m := LeadOfWord(s[|s| - 1]);
    LeadOfWords(s, m);
    LeadUnique(Val(s), n, 32 * (|s| - 1) + m);
  }

  // The divisor: its top word has four leading zeros.
  ghost predicate Divisor(s: Bigint)
    reads s, s.x
  {
    s.Normal() && s.wds >= 1 && 0x800_0000 <= s.x[s.wds - 1] < 0x1000_0000
  }

  /** dshift: how far to shift a number, beside `p2` bits, to make it a divisor. */
  method Dshift(b: Bigint, p2: nat) returns (rv: nat)
    requires b.Normal() && b.wds >= 1 && b.Value() > 0
    ensures rv < 32
    ensures exists n: nat :: LeadsAt(b.Value(), n) && (n + p2 + rv) % 32 == 27
  {
    hide Pow2, Val;
    TopPositive(b);
    var k := Hi0bits(b.x[b.wds - 1]);
    var r: int := k as int - 4;
    if p2 > 0 {
      r := r - p2;
    }
    rv := r % 32;
    LeadOfWords(b.x[..b.wds], 31 - k);
    assert LeadsAt(b.Value(), 32 * (b.wds - 1) + 31 - k);
  }

  lemma {:induction false} NoShift(v: nat)
    ensures Pow2(0) * v == v
  {
  }

  // A shift, if there is any.
  method ShiftBy(b: Bigint, k: nat) returns (r: Bigint)
    requires b.Normal() && b.wds >= 1 && b.Value() > 0
    ensures r.Normal() && r.wds >= 1 && r.Value() == Pow2(k) * b.Value() && (r == b || (fresh(r) && fresh(r.x)))
  {
    hide Pow2, Val, Radix, IsWords;
    NoShift(b.Value());
    r := b;
    if k > 0 {
      r := Lshift(b, k);
    }
  }

  lemma {:induction false} ArrangedTop(s: Bigint, v: nat, n: nat, k: nat)
    requires s.Normal() && s.wds >= 1 && LeadsAt(v, n) && s.Value() == Pow2(k) * v && v > 0 && (n + k) % 32 == 27
    ensures Divisor(s)
  {
    hide Pow2, Val, Radix;
    LeadUp(v, n, k);
    ShiftedPositive(v, k);
    TopPositive(s);
    TopWord(s.x[..s.wds], n + k);
  }

  /** What dtoa does before it divides: both numbers are shifted, until the divisor is one. */
  method Arrange(b: Bigint, s: Bigint, b2: nat, s2: nat) returns (b1: Bigint, s1: Bigint, i: nat)
    requires b.Normal() && b.wds >= 1 && s.Normal() && s.wds >= 1 && b.Value() > 0 && s.Value() > 0 && b != s && b.x != s.x
    ensures b1.Normal() && b1.wds >= 1 && Divisor(s1) && b1 != s1 && b1.x != s1.x
    ensures b1.Value() == Pow2(b2 + i) * b.Value() && s1.Value() == Pow2(s2 + i) * s.Value()
    ensures (b1 == b || (fresh(b1) && fresh(b1.x))) && (s1 == s || (fresh(s1) && fresh(s1.x))) && i < 32
  {
    hide Pow2, Val, Radix, IsWords, LeadsAt, Divisor;
    i := Dshift(s, s2);
    ghost var n: nat :| LeadsAt(s.Value(), n) && (n + s2 + i) % 32 == 27;
    b1 := ShiftBy(b, b2 + i);
    s1 := ShiftBy(s, s2 + i);
    ArrangedTop(s1, s.Value(), n, s2 + i);
  }

  lemma {:induction false} ShiftedPositive(v: nat, k: nat)
    requires v > 0
    ensures Pow2(k) * v > 0
  {
  }

  /** The quotient of the top words is right or one too small. */
  lemma {:induction false} Estimate(bt: nat, st: nat, r: nat, b: nat, s: nat, q: nat)
    requires 0x800_0000 <= st && bt < W && r > 0 && q == bt / (st + 1)
    requires bt * r <= b < (bt + 1) * r && st * r <= s < (st + 1) * r
    ensures q * s <= b < (q + 2) * s && q < W
  {
    EstimateTop(bt, st, q);
    assert q * s <= b by {
      MulMono(q, s, (st + 1) * r);
      MulAssoc(q, st + 1, r);
      MulMono(r, q * (st + 1), bt);
    }
    assert b < (q + 2) * s by {
      MulMono(r, bt + 1, (q + 2) * st);
      MulAssoc(q + 2, st, r);
      MulMono(q + 2, st * r, s);
    }
  }

  lemma {:induction false} EstimateTop(bt: nat, st: nat, q: nat)
    requires 65536 <= st && bt < W && q == bt / (st + 1)
    ensures q * (st + 1) <= bt && bt + 1 <= (q + 2) * st && q < W
  {
    DivBounds(bt, st + 1);
    assert q + 1 <= st by {
      if st <= q {
        MulMono(st + 1, st, q);
        MulMono(st, 65537, st + 1);
      }
    }
    assert (q + 2) * st == q * st + 2 * st;
    assert (st + 1) * q == q * st + q;
  }

  lemma {:induction false} QuoStep(si: int, q: int, carry: int, low: int, carry1: int, bi: int, borrow: int, y: int, borrow1: int,
                                   i: nat, v: int, p: int, t: int)
    requires si * q + carry == carry1 * W + low && bi - low - borrow == y - borrow1 * W
    requires v == p - q * t + (carry + borrow) * Radix(i)
    ensures v + y * Radix(i) == p + bi * Radix(i) - q * (t + si * Radix(i)) + (carry1 + borrow1) * Radix(i + 1)
  {
    hide Radix;
    var r := Radix(i);
    CarryStep(si * q + carry, low, carry1, i);
    BorrowStep(bi - low - borrow, y, borrow1, i);
    Difference(bi - low, borrow, r);
    Difference(bi, low, r);
    Sum(si * q, carry, r);
    Sum(carry, borrow, r);
    Sum(carry1, borrow1, Radix(i + 1));
    SumRight(q, t, si * r);
    MulAssoc(q, si, r);
  }

  /** The loops of quorem: q times the words of the divisor are subtracted in place. */
  method SubMultiple(bx: array<nat>, sx: array<nat>, n: nat, q: nat)
    requires n <= bx.Length && n <= sx.Length && bx != sx && q < W
    requires IsWords(bx[..n]) && IsWords(sx[..n]) && q * Val(sx[..n]) <= Val(bx[..n])
    modifies bx
    ensures IsWords(bx[..n]) && Val(bx[..n]) == old(Val(bx[..n])) - q * Val(sx[..n])
  {
    hide Radix, Val;
    ghost var s, t := bx[..n], sx[..n];
    var borrow: nat, carry: nat := 0, 0;
    ValNone();
    assert bx[..0] == [] && s[..0] == [] && t[..0] == [];
    NoProduct(q);
    for i := 0 to n
      invariant IsWords(bx[..i]) && bx[i..n] == s[i..] && borrow <= 1 && carry < W
      invariant Val(bx[..i]) == Val(s[..i]) - q * Val(t[..i]) + (carry + borrow) * Radix(i)
    {
      borrow, carry := SubMulStep(bx, sx[i], q, borrow, carry, i, n, s, t);
    }
    assert s[..n] == s && t[..n] == t;
    ValBound(bx[..n]);
    NoneLeft(carry + borrow, Radix(n), Val(bx[..n]));
  }

  lemma {:induction false} NoProduct(q: nat)
    ensures q * 0 == 0 && (0 + 0) * Radix(0) == 0
  {
  }

  lemma {:induction false} NoneLeft(c: nat, r: nat, v: nat)
    requires v < r
    ensures c * r <= v ==> c * r == 0
  {
    if c > 0 {
      MulMono(r, 1, c);
    }
  }

  method SubMulStep(bx: array<nat>, si: nat, q: nat, borrow: nat, carry: nat, i: nat, n: nat, ghost s: seq<nat>, ghost t: seq<nat>)
    returns (borrow1: nat, carry1: nat)
    requires i < n <= bx.Length && |s| == |t| == n && t[i] == si < W && q < W && borrow <= 1 && carry < W
    requires IsWords(s) && IsWords(bx[..i]) && bx[i..n] == s[i..]
    requires Val(bx[..i]) == Val(s[..i]) - q * Val(t[..i]) + (carry + borrow) * Radix(i)
    modifies bx
    ensures IsWords(bx[..i + 1]) && bx[i + 1..n] == s[i + 1..] && borrow1 <= 1 && carry1 < W
    ensures Val(bx[..i + 1]) == Val(s[..i + 1]) - q * Val(t[..i + 1]) + (carry1 + borrow1) * Radix(i + 1)
  {
    hide Radix, Val;
    ghost var front := bx[..i];
    assert bx[i] == bx[i..n][0] == s[i];
    TwoWords(si, q, carry, 0);
    var ys: dword := si * q + carry;
    CarryBound(ys, W);
    carry1 := ys / W;
    var y := bx[i] - ys % W - borrow;
    borrow1 := if y < 0 then 1 else 0;
    y := if y < 0 then y + W else y;
    QuoStep(si, q, carry, ys % W, carry1, bx[i], borrow, y, borrow1, i, Val(front), Val(s[..i]), Val(t[..i]));
    bx[i] := y;
    assert bx[..i + 1] == front + [y];
    assert bx[i + 1..n] == s[i + 1..];
    ValAppend(front, y);
    ValNext(s, i);
    ValNext(t, i);
  }

  // Zero can be told by the lowest word.
  ghost predicate ZeroShown(b: Bigint)
    reads b, b.x
  {
    b.Valid() && b.x.Length > 0 && (b.Value() == 0 <==> b.x[0] == 0 && b.wds <= 1)
  }

  // Zeros on top are dropped, but one word is kept if there is more than one.
  method Normalize(b: Bigint)
    requires b.Valid() && b.wds >= 1
    modifies b
    ensures b.Normal() && b.Value() == old(b.Value()) && ZeroShown(b) && b.wds <= old(b.wds)
  {
    hide Radix, Val;
    ghost var s := b.x[..b.wds];
    if b.x[b.wds - 1] == 0 {
      var n := Trim(b.x, b.wds - 1, if b.wds > 1 then 1 else 0);
      assert b.x[..b.wds - 1] == s[..b.wds - 1];
      ValTrim(s, b.wds - 1);
      WordsPrefix(s, n);
      assert s[..n] == b.x[..n];
      b.wds := n;
    }
    ShowZero(b);
  }

  lemma {:induction false} ShowZero(b: Bigint)
    requires b.Normal() && b.x.Length > 0 && (b.wds == 0 ==> b.x[0] == 0)
    ensures ZeroShown(b)
  {
    hide Radix, Val;
    ValNone();
    if b.wds == 0 {
      assert b.x[..b.wds] == [];
    } else if b.wds == 1 {
      ValAppend([], b.x[0]);
      assert b.x[..1] == [] + [b.x[0]];
    } else {
      LongPositive(b);
    }
  }

  // The correction, if the estimate was one too small.
  method Correct(b: Bigint, s: Bigint) returns (one: nat)
    requires b.Normal() && ZeroShown(b) && Divisor(s) && b.wds <= s.wds && b != s && b.x != s.x && b.Value() < 2 * s.Value()
    modifies b, b.x
    ensures b.Normal() && ZeroShown(b) && one == (if old(b.Value()) >= s.Value() then 1 else 0)
    ensures b.Value() == old(b.Value()) - one * s.Value()
  {
    hide Radix, Val, Pow2, IsWords;
    DivisorPositive(s);
    var c := Cmp(b, s);
    one := 0;
    if c >= 0 {
      SameLength(b, s);
      one := 1;
      SubMultiple(b.x, s.x, s.wds, 1);
      Normalize(b);
    }
  }

  lemma {:induction false} SameLength(b: Bigint, s: Bigint)
    requires b.Normal() && s.Normal() && s.wds >= 1 && b.wds <= s.wds && 0 < s.Value() <= b.Value()
    ensures b.wds == s.wds
  {
    hide Radix, Val;
    LongerLarger(b.x[..b.wds], s.x[..s.wds]);
  }

  // The estimate is right or one too small.
  ghost predicate Close(b: nat, s: nat, q: nat) {
    q * s <= b < (q + 2) * s
  }

  // `r` is left of `b` after `q` times `s`.
  ghost predicate Taken(b: nat, s: nat, q: nat, r: nat) {
    b == q * s + r
  }

  // The estimated multiple is subtracted.
  method TakeOff(b: Bigint, s: Bigint, q: nat)
    requires b.Normal() && ZeroShown(b) && Divisor(s) && b.wds == s.wds && b != s && b.x != s.x
    requires Close(b.Value(), s.Value(), q) && q < W
    modifies b, b.x
    ensures b.Normal() && ZeroShown(b) && b.wds <= s.wds && b.Value() < 2 * s.Value()
    ensures Taken(old(b.Value()), s.Value(), q, b.Value())
  {
    hide Radix, Val, Pow2, IsWords;
    OneMore(q, s.Value());
    if q != 0 {
      SubMultiple(b.x, s.x, s.wds, q);
      Normalize(b);
    }
  }

  /** quorem: the quotient, with at most one correction of the estimate; `b` becomes the remainder. */
  method Quorem(b: Bigint, s: Bigint) returns (q: nat)
    requires b.Normal() && b.wds >= 1 && Divisor(s) && b.wds <= s.wds && b != s && b.x != s.x
    modifies b, b.x
    ensures b.Normal() && ZeroShown(b)
    ensures s.Value() > 0 && q == old(b.Value()) / s.Value() && b.Value() == old(b.Value()) % s.Value()
  {
    hide Radix, Val, Pow2, IsWords, Close, Taken;
    ghost var vb, vs := b.Value(), s.Value();
    DivisorPositive(s);
    ShowZero(b);
    if b.wds < s.wds {
      ShorterSmaller(b, s);
      Quotient(vb, vs, 0);
      return 0;
    }
    q := Guess(b.x, s.x, s.wds);
    TakeOff(b, s, q);
    ghost var v := b.Value();
    var one := Correct(b, s);
    Corrected(vb, vs, q, v, one);
    q := q + one;
  }

  lemma {:induction false} Corrected(b: nat, s: nat, q: nat, r: nat, one: nat)
    requires s > 0 && Taken(b, s, q, r) && r < 2 * s && one == if r >= s then 1 else 0
    ensures b / s == q + one && b % s == r - one * s
  {
    OneMore(q, s);
    Quotient(b, s, q + one);
  }

  lemma {:induction false} OneMore(q: nat, v: nat)
    ensures (q + 1) * v == q * v + v && (q + 2) * v == q * v + 2 * v && 0 * v == 0 && 1 * v == v
  {
  }

  lemma {:induction false} ShorterSmaller(b: Bigint, s: Bigint)
    requires b.Normal() && s.Normal() && b.wds < s.wds && s.Value() > 0
    ensures b.Value() < s.Value()
  {
    hide Radix, Val;
    LongerLarger(b.x[..b.wds], s.x[..s.wds]);
  }

  lemma {:induction false} Quotient(b: nat, s: nat, q: nat)
    requires q * s <= b < q * s + s
    ensures b / s == q && b % s == b - q * s
  {
    DivBounds(b, s);
    if q < b / s {
      MulStep(q, b / s, s);
    }
    if b / s < q {
      MulStep(b / s, q, s);
    }
  }

  lemma {:induction false} DivisorPositive(s: Bigint)
    requires Divisor(s)
    ensures s.Value() > 0
  {
    hide Radix, Val;
    ValPositive(s.x[..s.wds], s.wds - 1);
  }

  // The estimate from the top words.
  method Guess(bx: array<nat>, sx: array<nat>, n: nat) returns (q: nat)
    requires 0 < n <= bx.Length && n <= sx.Length && IsWords(bx[..n]) && IsWords(sx[..n]) && 0x800_0000 <= sx[n - 1]
    ensures Close(Val(bx[..n]), Val(sx[..n]), q) && q < W
  {
    hide Radix, Val, IsWords;
    var bt, st := bx[n - 1], sx[n - 1];
    DivBounds(bt, st + 1);
    q := bt / (st + 1);
    EstimateWords(bx[..n], sx[..n], bt, st, q);
  }

  lemma {:induction false} EstimateWords(b: seq<nat>, s: seq<nat>, bt: nat, st: nat, q: nat)
    requires IsWords(b) && IsWords(s) && |b| == |s| && |s| > 0 && bt == b[|b| - 1] && st == s[|s| - 1]
    requires 0x800_0000 <= st && q == bt / (st + 1)
    ensures q * Val(s) <= Val(b) < (q + 2) * Val(s) && q < W
  {
    hide Radix, Val, Pow2;
    TopBounds(b);
    TopBounds(s);
    Estimate(bt, st, Radix(|s| - 1), Val(b), Val(s), q);
  }
}
