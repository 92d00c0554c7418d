/** From the two numbers of a quotient to its digits (the part of dtoa in dtoa.c that works with integers, modes 2 and 3). */
module Dtoa {
  import opened Bits
  import opened BigValue
  import opened Bigints
  import opened BigShift
  import opened BigDivision
  import opened Rounding
  import opened DecimalDigits

  // The estimate of the decimal exponent is right, or one too large.
  predicate Estimated(num: nat, den: nat, check: bool) {
    num < 10 * den && den <= if check then 10 * num else num
  }

  predicate TooLarge(num: nat, den: nat, check: bool) {
    check && num < den
  }

  // The numerator for the right exponent.
  function Fixed(num: nat, den: nat, check: bool): nat {
    if TooLarge(num, den, check) then 10 * num else num
  }

  /** k_check: a quotient below one means that the estimate was too large. */
  method CheckEstimate(b: Bigint, s: Bigint, k: int, ilim: int, ilim1: int, check: bool) returns (r: Bigint, k1: int, lim: int)
    requires Ready(b, s) && Estimated(b.Value(), s.Value(), check)
    modifies b, b.x
    ensures (r == b || (fresh(r) && fresh(r.x))) && s.Value() == old(s.Value()) && Ready(r, s) && s.Value() <= r.Value()
    ensures r.Value() == old(Fixed(b.Value(), s.Value(), check))
    ensures (k1, lim) == if old(TooLarge(b.Value(), s.Value(), check)) then (k - 1, ilim1) else (k, ilim)
  {
    hide Val, Radix, Pow2, IsWords;
    r, k1, lim := b, k, ilim;
    if check {
      DivisorPositive(s);
      var c := Cmp(b, s);
      if c < 0 {
        r := Multadd(b, 10, 0);
        k1, lim := k - 1, ilim1;
      }
    }
  }

  /** No place at all: the number is rounded to nothing, or to one unit of the place before the first. */
  method NoPlaces(b: Bigint, s: Bigint, ilim: int) returns (one: bool)
    requires Ready(b, s) && ilim <= 0
    modifies s, s.x
    ensures Rounded(if one then 1 else 0, old(b.Value()), Pow10(1 - ilim) * old(s.Value()))
  {
    hide Val, Radix, Pow2, IsWords, Rounded;
    ghost var num, den := b.Value(), s.Value();
    DivisorPositive(s);
    if ilim < 0 {
      one := false;
      FarBelow(num, den, 1 - ilim);
    } else {
      var t := Multadd(s, 5, 0);
      var c := Cmp(b, t);
      one := c > 0;
      HalfUnit(num, den);
    }
  }

  lemma {:induction false} FarBelow(num: nat, den: nat, n: nat)
    requires num < 10 * den && n >= 2
    ensures Rounded(0, num, Pow10(n) * den)
  {
    var p := Pow10(n - 2);
    assert Pow10(n) == 10 * Pow10(n - 1) && Pow10(n - 1) == 10 * p;
    hide Pow10;
    MulAssoc(100, p, den);
    MulMono(100 * den, 1, p);
    assert 100 * (p * den) == (100 * den) * p by { MulAssoc(100, den, p); }
  }

  lemma {:induction false} HalfUnit(num: nat, den: nat)
    requires num < 10 * den
    ensures Rounded(if num > 5 * den then 1 else 0, num, Pow10(1) * den)
  {
    assert Pow10(1) == 10 by { assert Pow10(0) == 1; }
  }

  // How many places there are, with the decimal exponent `k` of the first.
  function Places(mode: nat, ndigits: int, k: int): int {
    if mode == 2 then (if ndigits <= 0 then 1 else ndigits) else ndigits + k + 1
  }

  /** What dtoa returns for num / den * 10^k, `num / den` between 1 and 10: the digits `d` and the position of the point. */
  ghost predicate Answer(d: seq<nat>, decpt: int, mode: nat, ndigits: int, k: int, num: nat, den: nat) {
    var places := Places(mode, ndigits, k);
    if places > 0 then
      k + 1 <= decpt && Printed(d, decpt - (k + 1), places, num, den)
    else
      || (d == [] && decpt == -ndigits && Rounded(0, num, Pow10(1 - places) * den))
      || (d == [1] && decpt == k + 2 && Rounded(1, num, Pow10(1 - places) * den))
  }

  // 10^e, as a real number.
  function Ten(e: int): (t: real)
    ensures t > 0.0
  {
    if e >= 0 then Pow10(e) as real else 1.0 / (Pow10(-e) as real)
  }

  lemma {:induction false} TenNext(e: int)
    ensures Ten(e + 1) == 10.0 * Ten(e)
  {
    if e >= 0 {
      assert Pow10(e + 1) == 10 * Pow10(e);
    } else {
      var p := Pow10(-e - 1);
      assert Pow10(-e) == 10 * p;
      assert e == -1 ==> p == 1 && Pow10(0) == 1;
      hide Pow10;
      TenthOf(p);
    }
  }

  lemma {:induction false} TenthOf(p: nat)
    requires p > 0
    ensures 1.0 / (p as real) == 10.0 * (1.0 / ((10 * p) as real))
  {
    var r := p as real;
    assert (10 * p) as real == 10.0 * r;
    Cancel(r);
  }

  lemma {:induction false} Cancel(r: real)
    requires r > 0.0
    ensures 1.0 / r == 10.0 * (1.0 / (10.0 * r))
  {
    var a, b := 1.0 / r, 1.0 / (10.0 * r);
    assert a * r == 1.0 && b * (10.0 * r) == 1.0;
    assert b * (10.0 * r) == (10.0 * b) * r;
    assert (a - 10.0 * b) * r == 0.0;
  }

  lemma {:induction false} TenPlus(e: int, n: nat)
    ensures Ten(e + n) == Pow10(n) as real * Ten(e)
    decreases n
  {
    hide Ten;
    if n == 0 {
      assert Pow10(0) == 1;
    } else {
      assert Pow10(n) == 10 * Pow10(n - 1);
      hide Pow10;
      TenPlus(e, n - 1);
      TenNext(e + (n - 1));
      TenTimes(Pow10(n - 1), Ten(e));
    }
  }

  lemma {:induction false} TenTimes(p: nat, t: real)
    ensures (10 * p) as real * t == 10.0 * (p as real * t)
  {
    var r := p as real;
    assert (10 * p) as real == 10.0 * r;
    assert 10.0 * r * t == 10.0 * (r * t);
  }

  // The number that digits with a decimal point behind the first `decpt` of them stand for.
  function Written(d: seq<nat>, decpt: int): real {
    Decimal(d) as real * Ten(decpt - |d|)
  }

  // `v` is the multiple of the unit `u` nearest to `x`; of two such the even one.
  ghost predicate NearestTo(v: real, x: real, u: real) {
    exists m: nat :: Multiple(v, m, u) && -u <= 2.0 * (v - x) <= u && (2.0 * (v - x) == u || 2.0 * (x - v) == u ==> m % 2 == 0)
  }

  predicate Multiple(v: real, m: nat, u: real) {
    v == m as real * u
  }

  // The place of the last digit: `ndigits` places behind the point, or the last of so many digits of a number with the
  // decimal exponent `k`, but at least of one.
  function LastPlace(mode: nat, ndigits: int, k: int): int {
    if mode == 3 then -ndigits else if ndigits <= 1 then k else k - (ndigits - 1)
  }

  lemma {:induction false} RoundedReal(m: nat, n: nat, den: nat, q: real)
    requires Rounded(m, n, den) && den > 0 && q * den as real == n as real
    ensures -1.0 <= 2.0 * (m as real - q) <= 1.0
    ensures 2.0 * (m as real - q) == 1.0 || 2.0 * (q - m as real) == 1.0 ==> m % 2 == 0
  {
    hide Rounded;
    var r, e, t := den as real, m as real - q, m * den - n;
    RoundedBounds(m, n, den, t);
    Product(m, den, 1.0);
    Less(m as real, q, r);
    RealBounds(t, den, e);
  }

  lemma {:induction false} RealBounds(t: int, den: nat, e: real)
    requires den > 0 && e * den as real == t as real && 0 <= 2 * t + den && 2 * t <= den
    ensures -1.0 <= 2.0 * e <= 1.0
    ensures 2.0 * e == 1.0 ==> 2 * t == den
    ensures 2.0 * e == -1.0 ==> 2 * t + den == 0
  {
    Halves(e, den as real);
  }

  lemma {:induction false} RoundedBounds(m: nat, n: nat, den: nat, t: int)
    requires Rounded(m, n, den) && t == m * den - n
    ensures 0 <= 2 * t + den && 2 * t <= den
    ensures 2 * t == den || 2 * t + den == 0 ==> m % 2 == 0
  {
  }

  lemma {:induction false} Less(a: real, b: real, r: real)
    ensures (a - b) * r == a * r - b * r
  {
  }

  lemma {:induction false} Halves(e: real, r: real)
    requires r > 0.0
    ensures 2.0 * (e * r) <= r ==> 2.0 * e <= 1.0
    ensures -r <= 2.0 * (e * r) ==> -1.0 <= 2.0 * e
    ensures 2.0 * e == 1.0 ==> 2.0 * (e * r) == r
    ensures -2.0 * e == 1.0 ==> 2.0 * (e * r) == -r
  {
    assert 2.0 * (e * r) == (2.0 * e) * r;
    if 2.0 * e > 1.0 {
      assert (2.0 * e - 1.0) * r > 0.0;
    }
    if -1.0 > 2.0 * e {
      assert (-1.0 - 2.0 * e) * r > 0.0;
    }
  }

  lemma {:induction false} Unit(m: nat, q: real, v: real, x: real, u: real)
    requires u > 0.0 && v == m as real * u && x == q * u
    requires -1.0 <= 2.0 * (m as real - q) <= 1.0 && (2.0 * (m as real - q) == 1.0 || 2.0 * (q - m as real) == 1.0 ==> m % 2 == 0)
    ensures NearestTo(v, x, u)
  {
    var e := m as real - q;
    assert v - x == e * u;
    assert Multiple(v, m, u);
    Times2(e, u);
  }

  lemma {:induction false} Sign(a: real, u: real)
    requires u > 0.0 && a >= 0.0
    ensures a * u >= 0.0 && (a * u == 0.0 ==> a == 0.0)
  {
  }

  lemma {:induction false} Times2(e: real, u: real)
    requires u > 0.0 && -1.0 <= 2.0 * e <= 1.0
    ensures -u <= 2.0 * (e * u) <= u
    ensures 2.0 * (e * u) == u ==> 2.0 * e == 1.0
    ensures 2.0 * (e * u) == -u ==> 2.0 * e == -1.0
  {
    var f := 2.0 * e;
    assert 2.0 * (e * u) == f * u;
    Sign(1.0 - f, u);
    Sign(1.0 + f, u);
    Less(1.0, f, u);
    Less(1.0, -f, u);
  }

  lemma {:induction false} SomePlaces(d: seq<nat>, decpt: int, places: int, k: int, num: nat, den: nat, q: real)
    requires places > 0 && k + 1 <= decpt && Printed(d, decpt - (k + 1), places, num, den) && den > 0 && q * den as real == num as real
    ensures NearestTo(Written(d, decpt), q * Ten(k), Ten(k + 1 - places))
  {
    hide NearestTo, Rounded, Pow10, Decimal, Ten, IsDigits;
    var n, c, u := places + decpt - (k + 1) - |d|, Pow10(places - 1), Ten(k + 1 - places);
    var m, q1 := Decimal(d) * Pow10(n), q * c as real;
    TenPlus(k + 1 - places, n);
    TenPlus(k + 1 - places, places - 1);
    Product(Decimal(d), Pow10(n), u);
    Product(num, c, 1.0);
    assert q1 * den as real == (q * den as real) * c as real;
    RoundedReal(m, num * c, den, q1);
    assert q * (c as real * u) == q1 * u;
    Unit(m, q1, Written(d, decpt), q * Ten(k), u);
  }

  lemma {:induction false} Product(a: nat, b: nat, u: real)
    ensures (a * b) as real == a as real * b as real && (a * b) as real * u == a as real * (b as real * u)
  {
    assert (a * b) as real == a as real * b as real;
  }

  lemma {:induction false} NoneLeft(d: seq<nat>, decpt: int, places: int, k: int, num: nat, den: nat, q: real)
    requires places <= 0 && den > 0 && num < 10 * den && q * den as real == num as real
    requires (d == [] && Rounded(0, num, Pow10(1 - places) * den)) || (d == [1] && decpt == k + 2 && Rounded(1, num, Pow10(1 - places) * den))
    ensures NearestTo(Written(d, decpt), q * Ten(k), Ten(k + 1 - places))
  {
    hide NearestTo, Rounded, Pow10, Ten;
    var c, u := Pow10(1 - places), Ten(k + 1 - places);
    var m := if d == [] then 0 else 1;
    var q1 := q / c as real;
    TenPlus(k, 1 - places);
    assert q1 * c as real == q;
    Product(c, den, 1.0);
    assert q1 * (c as real * den as real) == q1 * c as real * den as real;
    RoundedReal(m, num, c * den, q1);
    assert q1 * (c as real * Ten(k)) == q1 * c as real * Ten(k);
    if d == [1] {
      OnlyZero(places, num, den);
      TenNext(k);
      assert Decimal([1]) == 1 by { assert [1][..0] == []; }
    }
    Unit(m, q1, Written(d, decpt), q * Ten(k), u);
  }

  // Half a unit is reached only in the place before the first digit.
  lemma {:induction false} OnlyZero(places: int, num: nat, den: nat)
    requires places <= 0 && den > 0 && num < 10 * den && Rounded(1, num, Pow10(1 - places) * den)
    ensures places == 0
  {
    if places < 0 {
      hide Rounded;
      FarBelow(num, den, 1 - places);
      RoundedUnique(0, 1, num, Pow10(1 - places) * den);
      assert false;
    }
  }

  function Quotient(num: nat, den: nat): (q: real)
    requires den > 0
    ensures q * den as real == num as real
  {
    num as real / den as real
  }

  /** What is returned is the value num / den * 10^k, correctly rounded to its last place. */
  lemma {:induction false} AnswerNearest(d: seq<nat>, decpt: int, mode: nat, ndigits: int, k: int, num: nat, den: nat)
    requires Answer(d, decpt, mode, ndigits, k, num, den) && 0 < den && num < 10 * den && (mode == 2 || mode == 3)
    ensures NearestTo(Written(d, decpt), Quotient(num, den) * Ten(k), Ten(LastPlace(mode, ndigits, k)))
  {
    hide Rounded, Pow10, Decimal, Ten, Quotient;
    var places := Places(mode, ndigits, k);
    assert LastPlace(mode, ndigits, k) == k + 1 - places;
    if places > 0 {
      SomePlaces(d, decpt, places, k, num, den, Quotient(num, den));
    } else {
      NoneLeft(d, decpt, places, k, num, den, Quotient(num, den));
    }
  }

  // The value does not depend on the estimate.
  lemma {:induction false} FixedValue(k: int, num: nat, den: nat, check: bool)
    requires den > 0 && TooLarge(num, den, check)
    ensures Quotient(Fixed(num, den, check), den) * Ten(k - 1) == Quotient(num, den) * Ten(k)
  {
    TenNext(k - 1);
    hide Ten;
    var q, q1, r := Quotient(num, den), Quotient(10 * num, den), den as real;
    hide Quotient;
    Less(q1, 10.0 * q, r);
    assert (10.0 * q) * r == 10.0 * (q * r);
    NoDifference(q1 - 10.0 * q, r);
    assert (10.0 * q) * Ten(k - 1) == q * (10.0 * Ten(k - 1));
  }

  lemma {:induction false} NoDifference(a: real, r: real)
    requires r > 0.0 && a * r == 0.0
    ensures a == 0.0
  {
  }

  /** The digits stand for the multiple nearest to num / den * 10^k of the unit asked for. */
  ghost predicate Correct(d: seq<nat>, decpt: int, mode: nat, ndigits: int, k: int, num: nat, den: nat, check: bool)
    requires den > 0
  {
    NearestTo(Written(d, decpt), Quotient(num, den) * Ten(k), Ten(LastPlace(mode, ndigits, if check && num < den then k - 1 else k)))
  }

  lemma {:induction false} AnswerMeans(d: seq<nat>, decpt: int, mode: nat, ndigits: int, k: int, num: nat, den: nat, check: bool)
    requires Estimated(num, den, check) && den > 0 && (mode == 2 || mode == 3)
    requires Answer(d, decpt, mode, ndigits, if TooLarge(num, den, check) then k - 1 else k, Fixed(num, den, check), den)
    ensures Correct(d, decpt, mode, ndigits, k, num, den, check)
  {
    hide Answer, Ten, Quotient, Written, LastPlace;
    AnswerNearest(d, decpt, mode, ndigits, if TooLarge(num, den, check) then k - 1 else k, Fixed(num, den, check), den);
    if TooLarge(num, den, check) {
      FixedValue(k, num, den, check);
    }
  }

  /** The digits of b * 2^b2 / (s * 2^s2), for an estimate `k` of its decimal exponent. */
  method Digitize(mode: nat, ndigits: int, k: int, check: bool, b: Bigint, s: Bigint, b2: nat, s2: nat, buf: array<nat>)
    returns (n: nat, decpt: int)
    requires mode == 2 || mode == 3
    requires b.Normal() && b.wds >= 1 && s.Normal() && s.wds >= 1 && b != s && b.x != s.x && buf != b.x && buf != s.x
    requires s.Value() > 0 && b.Value() > 0 && Estimated(Pow2(b2) * b.Value(), Pow2(s2) * s.Value(), check)
    requires 1 <= buf.Length && Places(mode, ndigits, k) <= buf.Length
    modifies b, b.x, s, s.x, buf
    ensures n <= buf.Length
    ensures var num, den := old(Pow2(b2) * b.Value()), old(Pow2(s2) * s.Value());
            && Answer(buf[..n], decpt, mode, ndigits, if TooLarge(num, den, check) then k - 1 else k, Fixed(num, den, check), den)
            && Correct(buf[..n], decpt, mode, ndigits, k, num, den, check)
  {
    hide Val, Radix, Pow2, IsWords, Answer, Correct;
    ghost var num, den := Pow2(b2) * b.Value(), Pow2(s2) * s.Value();
    var b1, s1, i := Arrange(b, s, b2, s2);
    Scaled(b2, s2, i, b.Value(), s.Value(), check);
    var ilim := Places(mode, ndigits, k);
    var ilim1 := if mode == 2 then ilim else ilim - 1;
    n, decpt := Emit(b1, s1, ndigits, k, mode, ilim, ilim1, check, buf);
    AnswerScaled(buf[..n], decpt, mode, ndigits, if TooLarge(num, den, check) then k - 1 else k, Fixed(num, den, check), den, Pow2(i));
    AnswerMeans(buf[..n], decpt, mode, ndigits, k, num, den, check);
  }

  // The common factor of both numbers.
  lemma {:induction false} Scaled(b2: nat, s2: nat, i: nat, b: nat, s: nat, check: bool)
    requires Estimated(Pow2(b2) * b, Pow2(s2) * s, check)
    ensures var num, den := Pow2(b2) * b, Pow2(s2) * s;
            && Pow2(b2 + i) * b == Pow2(i) * num && Pow2(s2 + i) * s == Pow2(i) * den
            && Estimated(Pow2(i) * num, Pow2(i) * den, check)
            && (TooLarge(Pow2(i) * num, Pow2(i) * den, check) <==> TooLarge(num, den, check))
            && Fixed(Pow2(i) * num, Pow2(i) * den, check) == Pow2(i) * Fixed(num, den, check)
  {
    hide Pow2;
    var num, den, c := Pow2(b2) * b, Pow2(s2) * s, Pow2(i);
    Pow2Add(i, b2);
    Pow2Add(i, s2);
    MulAssoc(c, Pow2(b2), b);
    MulAssoc(c, Pow2(s2), s);
    Compare(c, num, den);
    Compare(c, num, 10 * den);
    Compare(c, den, 10 * num);
    MulAssoc(c, 10, den);
    MulAssoc(c, 10, num);
    MulAssoc(10, c, den);
    MulAssoc(10, c, num);
  }

  lemma {:induction false} Compare(c: nat, x: nat, y: nat)
    requires c > 0
    ensures c * x < c * y <==> x < y
    ensures c * x <= c * y <==> x <= y
  {
    if x < y {
      MulStep(x, y, c);
    } else {
      MulMono(c, y, x);
    }
    if y < x {
      MulStep(y, x, c);
    } else {
      MulMono(c, x, y);
    }
  }

  lemma {:induction false} AnswerScaled(d: seq<nat>, decpt: int, mode: nat, ndigits: int, k: int, num: nat, den: nat, c: nat)
    requires c > 0 && Answer(d, decpt, mode, ndigits, k, c * num, c * den)
    ensures Answer(d, decpt, mode, ndigits, k, num, den)
  {
    hide Rounded, Pow10, Decimal;
    var places := Places(mode, ndigits, k);
    if places > 0 {
      var up := decpt - (k + 1);
      MulAssoc(c, num, Pow10(places - 1));
      RoundedScaled(Decimal(d) * Pow10(places + up - |d|), num * Pow10(places - 1), den, c);
    } else {
      var p := Pow10(1 - places);
      assert p * (c * den) == c * (p * den) by { MulAssoc(p, c, den); MulAssoc(c, p, den); }
      RoundedScaled(0, num, p * den, c);
      RoundedScaled(1, num, p * den, c);
    }
  }

  // From the check of the estimate on.
  method Emit(b: Bigint, s: Bigint, ndigits: int, k0: int, mode: nat, lim: int, lim1: int, check: bool, buf: array<nat>)
    returns (n: nat, decpt: int)
    requires mode == 2 || mode == 3
    requires lim == Places(mode, ndigits, k0) && lim1 == Places(mode, ndigits, k0 - 1)
    requires Ready(b, s) && Estimated(b.Value(), s.Value(), check) && buf != b.x && buf != s.x
    requires 1 <= buf.Length && lim <= buf.Length
    modifies b, b.x, s, s.x, buf
    ensures n <= buf.Length
    ensures var num, den := old(b.Value()), old(s.Value());
            Answer(buf[..n], decpt, mode, ndigits, if TooLarge(num, den, check) then k0 - 1 else k0, Fixed(num, den, check), den)
  {
    hide Val, Radix, Pow2, IsWords, Printed, Rounded, Decimal, Pow10, Divisor, Estimated;
    var r, k, ilim := CheckEstimate(b, s, k0, lim, lim1, check);
    if ilim <= 0 && mode == 3 {
      var one := NoPlaces(r, s, ilim);
      if !one {
        assert buf[..0] == [];
        return 0, -1 - ndigits + 1;
      }
      buf[0] := 1;
      assert buf[..1] == [1];
      return 1, k + 1 + 1;
    }
    var up;
    n, up := Digits(r, s, buf, ilim);
    decpt := k + up + 1;
  }
}
