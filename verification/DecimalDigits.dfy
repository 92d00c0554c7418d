/** The decimal digits of a quotient of multiprecision integers (the digit loop of dtoa in dtoa.c, modes 2 and 3). */
module DecimalDigits {
  import opened Bits
  import opened BigValue
  import opened Bigints
  import opened BigShift
  import opened BigDivision
  import opened Rounding

  // The numerator: it can be divided by `s`, with a quotient of one digit.
  ghost predicate Ready(b: Bigint, s: Bigint)
    reads b, b.x, s, s.x
  {
    b.Normal() && b.wds >= 1 && Divisor(s) && b != s && b.x != s.x && b.Value() < 10 * s.Value()
  }

  lemma {:induction false} FitsDivisor(b: Bigint, s: Bigint)
    requires Ready(b, s)
    ensures b.wds <= s.wds
  {
    hide Val, Radix;
    var n := s.wds - 1;
    if b.wds > s.wds {
      TopBounds(s.x[..s.wds]);
      MulMono(Radix(n), s.x[n] + 1, 0x1000_0000);
      ValPositive(b.x[..b.wds], b.wds - 1);
      RadixMono(s.wds, b.wds - 1);
      NextRadix(n);
    }
  }

  lemma {:induction false} NextRadix(n: nat)
    ensures Radix(n + 1) == W * Radix(n)
  {
  }

  lemma {:induction false} SomeWord(b: Bigint)
    requires b.Valid()
    ensures b.wds == 0 ==> b.Value() == 0
  {
    if b.wds == 0 {
      assert b.x[..b.wds] == [];
    }
  }

  // The digits so far, in `d`, and what is left.
  ghost predicate Generated(d: seq<nat>, rest: nat, num: nat, den: nat) {
    && |d| >= 1 && IsDigits(d) && d[0] > 0 && rest < den
    && num * Pow10(|d| - 1) == Decimal(d) * den + rest
  }

  lemma {:induction false} FirstDigit(q: nat, rest: nat, num: nat, den: nat)
    requires den <= num < 10 * den && q == num / den && rest == num % den
    ensures Generated([q], rest, num, den)
  {
    DivBounds(num, den);
    OneDigit(num, q);
    ZeroOf(den, q);
    if q >= 10 {
      MulMono(den, 10, q);
    }
  }

  lemma {:induction false} ZeroOf(den: nat, q: nat)
    ensures q == 0 ==> den * q == 0
  {
  }

  lemma {:induction false} OneDigit(num: nat, q: nat)
    ensures Pow10(0) == 1 && num * 1 == num && Decimal([q]) == q
  {
    assert [q][..0] == [];
  }

  lemma {:induction false} NextDigit(d: seq<nat>, rest: nat, q: nat, rest1: nat, num: nat, den: nat)
    requires Generated(d, rest, num, den) && q == 10 * rest / den && rest1 == 10 * rest % den
    ensures Generated(d + [q], rest1, num, den)
    ensures rest > 0 && rest1 == 0 ==> q > 0
  {
    hide Decimal, Pow10;
    Digit(rest, den, q);
    DecimalAppend(d, q);
    var v, p := Decimal(d), Pow10(|d| - 1);
    TenTimes(|d|);
    MulAssoc(num, 10, p);
    MulAssoc(10, num, p);
    TwoTerms(v, q, den);
  }

  lemma {:induction false} Digit(rest: nat, den: nat, q: nat)
    requires rest < den && q == 10 * rest / den
    ensures q < 10 && 10 * rest == q * den + 10 * rest % den && 10 * rest % den < den
    ensures rest > 0 && 10 * rest % den == 0 ==> q > 0
  {
    DivBounds(10 * rest, den);
    if q >= 10 {
      MulMono(den, 10, q);
    }
    if q == 0 {
      assert den * q == 0;
    }
  }

  lemma {:induction false} TenTimes(n: nat)
    requires n > 0
    ensures Pow10(n) == 10 * Pow10(n - 1)
  {
  }

  lemma {:induction false} TwoTerms(v: nat, q: nat, den: nat)
    ensures (10 * v + q) * den == 10 * (v * den) + q * den
  {
  }

  lemma {:induction false} FirstPositive(d: seq<nat>, rest: nat, num: nat, den: nat)
    requires Generated(d, rest, num, den)
    ensures |d| > 0 && d[0] > 0 && IsDigits(d) && rest < den
  {
  }

  // One digit more.
  method Another(b: Bigint, s: Bigint, ghost d: seq<nat>, ghost num: nat) returns (r: Bigint, dig: nat)
    requires b.Normal() && b.wds >= 1 && b.Value() > 0 && Divisor(s) && b != s && b.x != s.x
    requires Generated(d, b.Value(), num, s.Value())
    modifies b, b.x
    ensures (r == b || (fresh(r) && fresh(r.x))) && r.Normal() && ZeroShown(r)
    ensures Divisor(s) && s.Value() == old(s.Value())
    ensures Generated(d + [dig], r.Value(), num, s.Value()) && (r.Value() == 0 ==> dig > 0)
  {
    hide Val, Radix, Pow2, IsWords, Decimal, Pow10, Generated;
    ghost var rest := b.Value();
    FirstPositive(d, rest, num, s.Value());
    r := Multadd(b, 10, 0);
    FitsDivisor(r, s);
    dig := Quorem(r, s);
    NextDigit(d, rest, dig, r.Value(), num, s.Value());
  }

  // What holds of the numbers in the loop.
  ghost predicate Going(r: Bigint, s: Bigint, buf: array<nat>)
    reads r, r.x, s, s.x
  {
    r.Normal() && ZeroShown(r) && Divisor(s) && r != s && r.x != s.x && r.x != buf && s.x != buf
  }

  // The first digit.
  method First(b: Bigint, s: Bigint, buf: array<nat>)
    requires Ready(b, s) && s.Value() <= b.Value() && 1 <= buf.Length && buf != b.x && buf != s.x
    modifies b, b.x, buf
    ensures Going(b, s, buf) && s.Value() == old(s.Value()) && buf[0] > 0
    ensures Generated(buf[..1], b.Value(), old(b.Value()), s.Value())
  {
    hide Val, Radix, Pow2, IsWords, Decimal, Pow10, Generated;
    ghost var num, den := b.Value(), s.Value();
    FitsDivisor(b, s);
    var dig := Quorem(b, s);
    buf[0] := dig;
    FirstDigit(dig, b.Value(), num, den);
    assert buf[..1] == [dig];
    FirstPositive([dig], b.Value(), num, den);
  }

  /** The digit loop: it stops when nothing is left, or after `ilim` digits. */
  method Generate(b: Bigint, s: Bigint, buf: array<nat>, ilim: nat) returns (n: nat, r: Bigint)
    requires Ready(b, s) && s.Value() <= b.Value() && 1 <= ilim <= buf.Length && buf != b.x && buf != s.x
    modifies b, b.x, buf
    ensures (r == b || (fresh(r) && fresh(r.x))) && Going(r, s, buf) && s.Value() == old(s.Value())
    ensures 1 <= n <= ilim && Generated(buf[..n], r.Value(), old(b.Value()), s.Value())
    ensures if r.Value() == 0 then buf[n - 1] > 0 else n == ilim
  {
    hide Val, Radix, Pow2, IsWords, Decimal, Pow10, Generated;
    ghost var num, den := b.Value(), s.Value();
    First(b, s, buf);
    r, n := b, 1;
    while !(r.x[0] == 0 && r.wds <= 1) && n < ilim
      invariant 1 <= n <= ilim && Going(r, s, buf) && s.Value() == den && Generated(buf[..n], r.Value(), num, den)
      invariant r == b || (fresh(r) && fresh(r.x))
      invariant r.Value() == 0 ==> buf[n - 1] > 0
      decreases ilim - n
    {
      SomeWord(r);
      ghost var d := buf[..n];
      var dig;
      r, dig := Another(r, s, d, num);
      buf[n] := dig;
      n := n + 1;
      assert buf[..n] == d + [dig];
    }
  }

  /** `d` are the digits of num / den to `places` significant places, correctly rounded, without zeros at the end;
      `up` tells that there is one digit more before the point than in the first digit of the quotient. */
  ghost predicate Printed(d: seq<nat>, up: nat, places: nat, num: nat, den: nat) {
    && places >= 1 && 1 <= |d| <= places + up && up <= 1 && IsDigits(d) && d[0] > 0 && d[|d| - 1] > 0
    && Rounded(Decimal(d) * Pow10(places + up - |d|), num * Pow10(places - 1), den)
  }

  lemma {:induction false} PrintedExact(d: seq<nat>, places: nat, num: nat, den: nat)
    requires Generated(d, 0, num, den) && |d| <= places && d[|d| - 1] > 0
    ensures Printed(d, 0, places, num, den)
  {
    hide Decimal, Pow10;
    var k := places - |d|;
    var v, p := Decimal(d), Pow10(k);
    Pow10Add(|d| - 1, k);
    MulAssoc(num, Pow10(|d| - 1), p);
    assert num * Pow10(places - 1) == v * p * den by {
      MulAssoc(v, den, p);
      MulAssoc(v, p, den);
      assert den * p == p * den;
    }
  }

  lemma {:induction false} PrintedRounded(d0: seq<nat>, d: seq<nat>, up: nat, rest: nat, num: nat, den: nat)
    requires Generated(d0, rest, num, den) && up <= 1 && 1 <= |d| <= |d0| && IsDigits(d) && d[0] > 0 && d[|d| - 1] > 0
    requires Decimal(d) * Pow10(|d0| + up - |d|) ==
             if 2 * rest > den || (2 * rest == den && d0[|d0| - 1] % 2 == 1) then Decimal(d0) + 1 else Decimal(d0)
    ensures Printed(d, up, |d0|, num, den)
  {
    LastParity(d0);
    hide Decimal, Pow10, Rounded;
    RoundedFrom(Decimal(d0), rest, num * Pow10(|d0| - 1), den);
  }

  lemma {:induction false} LastParity(d: seq<nat>)
    requires d != []
    ensures Decimal(d) % 2 == d[|d| - 1] % 2
  {
  }

  /** The rounding of the last digit: twice the rest against the divisor, and a tie to the even digit. */
  method RoundLast(r: Bigint, s: Bigint, buf: array<nat>, n: nat, ghost num: nat) returns (n1: nat, up: nat)
    requires Going(r, s, buf) && 1 <= n <= buf.Length && r.Value() > 0 && Generated(buf[..n], r.Value(), num, s.Value())
    modifies buf
    ensures n1 <= buf.Length && Printed(buf[..n1], up, n, num, s.Value())
  {
    hide Val, Radix, Pow2, IsWords, Decimal, Pow10, Printed;
    ghost var d, rest := buf[..n], r.Value();
    SomeWord(r);
    var dig := buf[n - 1];
    var b := Lshift(r, 1);
    Doubled(rest);
    DivisorPositive(s);
    var j := Cmp(b, s);
    if j > 0 || (j == 0 && dig % 2 == 1) {
      n1, up := RoundOff(buf, n);
    } else {
      n1 := TrimZeros(buf, n);
      up := 0;
    }
    PrintedRounded(d, buf[..n1], up, rest, num, s.Value());
  }

  lemma {:induction false} Doubled(v: nat)
    ensures Pow2(1) * v == 2 * v
  {
  }

  /** The digits of b / s to `ilim` significant places. */
  method Digits(b: Bigint, s: Bigint, buf: array<nat>, ilim: nat) returns (n: nat, up: nat)
    requires Ready(b, s) && s.Value() <= b.Value() && 1 <= ilim <= buf.Length && buf != b.x && buf != s.x
    modifies b, b.x, buf
    ensures n <= buf.Length && Printed(buf[..n], up, ilim, old(b.Value()), old(s.Value()))
  {
    hide Val, Radix, Pow2, IsWords, Decimal, Pow10, Generated, Printed;
    ghost var num := b.Value();
    var r;
    n, r := Generate(b, s, buf, ilim);
    if r.x[0] == 0 && r.wds <= 1 {
      up := 0;
      PrintedExact(buf[..n], ilim, num, s.Value());
      return;
    }
    n, up := RoundLast(r, s, buf, n, num);
  }
}
