/** Combining two Adler-32 checksums (adler32_combine_ of adler32.c). */
module AdlerCombine {
  import opened Adler

  // The sums without a modulo.
  function Sums(a: nat, b: nat, s: seq<nat>): (nat, nat) {
    if s == [] then (a, b)
    else
      var r := Sums(a, b, s[..|s| - 1]);
      (r.0 + s[|s| - 1], r.1 + r.0 + s[|s| - 1])
  }

  lemma {:induction false} BytewiseSums(a: nat, b: nat, s: seq<nat>)
    ensures Bytewise(a, b, s) == (Sums(a, b, s).0 % BASE, Sums(a, b, s).1 % BASE)
  {
    if s != [] {
      BytewiseSums(a, b, s[..|s| - 1]);
      var r, x := Sums(a, b, s[..|s| - 1]), s[|s| - 1];
      hide Sums, Bytewise;
      ModSum(r.0, x);
      ModSum(r.1, (r.0 + x) % BASE);
      ModSum(r.0 + x, r.1);
    }
  }

  // What the first sums contribute to the last ones.
  lemma {:induction false} SumsFrom(a: nat, b: nat, s: seq<nat>)
    ensures Sums(a, b, s) == (a + Sums(0, 0, s).0, b + |s| * a + Sums(0, 0, s).1)
  {
    if s != [] {
      SumsFrom(a, b, s[..|s| - 1]);
      OneMoreTime(|s| - 1, a);
    }
  }

  lemma {:induction false} OneMoreTime(n: nat, a: nat)
    ensures (n + 1) * a == n * a + a
  {
  }

  lemma {:induction false} SumsConcat(a: nat, b: nat, s1: seq<nat>, s2: seq<nat>)
    ensures Sums(a, b, s1 + s2) == Sums(Sums(a, b, s1).0, Sums(a, b, s1).1, s2)
  {
    if s2 == [] {
      assert s1 + s2 == s1;
    } else {
      SumsConcat(a, b, s1, s2[..|s2| - 1]);
      assert (s1 + s2)[..|s1 + s2| - 1] == s1 + s2[..|s2| - 1];
    }
  }

  // The two sums of the concatenation, from the sums of the parts.
  lemma {:induction false} Joined(s1: seq<nat>, s2: seq<nat>)
    ensures Sums(1, 0, s1 + s2).0 == Sums(1, 0, s1).0 + Sums(1, 0, s2).0 - 1
    ensures Sums(1, 0, s1 + s2).1 == Sums(1, 0, s1).1 + Sums(1, 0, s2).1 + |s2| * Sums(1, 0, s1).0 - |s2|
  {
    hide Sums;
    SumsConcat(1, 0, s1, s2);
    SumsFrom(Sums(1, 0, s1).0, Sums(1, 0, s1).1, s2);
    SumsFrom(1, 0, s2);
  }

  // A number and its remainder.
  lemma {:induction false} Split(x: int) returns (k: int)
    ensures x == k * BASE + x % BASE
  {
    k := x / BASE;
  }

  lemma {:induction false} Multiple(x: int, k: int)
    ensures (x + k * BASE) % BASE == x % BASE
  {
  }

  lemma {:induction false} ModProduct(x: int, y: int)
    ensures ((x % BASE) * (y % BASE)) % BASE == (x * y) % BASE
  {
    var j := Split(x);
    var k := Split(y);
    var u, v := x % BASE, y % BASE;
    Expand(u, v, j, k, BASE);
    Multiple(u * v, j * v + k * u + j * k * BASE);
  }

  lemma {:induction false} Expand(u: int, v: int, j: int, k: int, m: int)
    ensures (j * m + u) * (k * m + v) == u * v + (j * v + k * u + j * k * m) * m
  {
    assert (j * m + u) * (k * m + v) == j * m * (k * m + v) + u * (k * m + v);
    assert j * m * (k * m + v) == j * k * m * m + j * v * m by {
      assert j * m * (k * m + v) == j * m * (k * m) + j * m * v;
      assert j * m * (k * m) == j * k * m * m;
    }
    assert u * (k * m + v) == k * u * m + u * v;
    assert (j * v + k * u + j * k * m) * m == j * v * m + k * u * m + j * k * m * m;
  }

  // The new second sum: `x * n` is the first sum times the length.
  lemma {:induction false} SecondSum(x: nat, b1: nat, b2: nat, n: nat)
    ensures ((n % BASE) * (x % BASE) % BASE + b1 % BASE + b2 % BASE + BASE - n % BASE) % BASE == (b1 + b2 + n * x - n) % BASE
  {
    ModProduct(n, x);
    var p := n * x;
    FourMods(p, b1, b2, n);
  }

  lemma {:induction false} FourMods(p: int, b1: int, b2: int, n: int)
    ensures (p % BASE + b1 % BASE + b2 % BASE + BASE - n % BASE) % BASE == (p + b1 + b2 - n) % BASE
  {
  }

  lemma {:induction false} FirstSum(a1: int, a2: int)
    ensures (a1 % BASE + a2 % BASE + BASE - 1) % BASE == (a1 + a2 - 1) % BASE
  {
  }

  /** What combining has to give is what the bytes would have given. */
  lemma {:induction false} Combined(s1: seq<nat>, s2: seq<nat>)
    ensures var r1, r2 := Bytewise(1, 0, s1), Bytewise(1, 0, s2);
            Bytewise(1, 0, s1 + s2) ==
            ((r1.0 + r2.0 + BASE - 1) % BASE, ((|s2| % BASE) * r1.0 % BASE + r1.1 + r2.1 + BASE - |s2| % BASE) % BASE)
  {
    hide Sums, Bytewise;
    var t1, t2 := Sums(1, 0, s1), Sums(1, 0, s2);
    BytewiseSums(1, 0, s1);
    BytewiseSums(1, 0, s2);
    BytewiseSums(1, 0, s1 + s2);
    Joined(s1, s2);
    FirstSum(t1.0, t2.0);
    SecondSum(t1.0, t1.1, t2.1, |s2|);
  }

  lemma {:induction false} Unpack(r: (nat, nat))
    requires r.0 < 65536 && r.1 < 65536
    ensures Lo(Pack(r)) == r.0 && Hi(Pack(r)) == r.1
  {
  }

  // What a first checksum starts from: the sums 1 and 0.
  lemma {:induction false} FromOne(s: seq<nat>)
    ensures Lo(Adler32(1, s)) == Bytewise(1, 0, s).0 && Hi(Adler32(1, s)) == Bytewise(1, 0, s).1
    ensures Adler32(1, s) == Pack(Bytewise(1, 0, s))
  {
    hide Bytewise;
    Unpack(Bytewise(1, 0, s));
  }

  // Both sums are reduced, as those of every checksum are.
  predicate Reduced(adler: nat) {
    Lo(adler) < BASE && Hi(adler) < BASE
  }

  /** adler32_combine_: the checksum of the concatenation, for every length of the second part, with no overflow
      of 32 bits; a negative length gives a number that is no checksum. */
  method Adler32Combine(adler1: nat, adler2: nat, len2: int) returns (r: word)
    requires Reduced(adler1) && Reduced(adler2)
    ensures len2 < 0 ==> r == 0xffff_ffff
    ensures forall s1, s2 :: adler1 == Adler32(1, s1) && adler2 == Adler32(1, s2) && |s2| == len2 ==> r == Adler32(1, s1 + s2)
  {
    hide Bytewise, Adler32;
    forall s1, s2 | adler1 == Adler32(1, s1) && adler2 == Adler32(1, s2) && |s2| == len2
      ensures Adler32(1, s1 + s2) ==
              Pack(((Lo(adler1) + Lo(adler2) + BASE - 1) % BASE,
                    ((len2 % BASE) * Lo(adler1) % BASE + Hi(adler1) + Hi(adler2) + BASE - len2 % BASE) % BASE))
    {
      FromOne(s1);
      FromOne(s2);
      FromOne(s1 + s2);
      Combined(s1, s2);
    }
    if len2 < 0 {
      return 0xffff_ffff;
    }
    r := Merge(adler1, adler2, len2 % BASE);
  }

  // Two subtractions for the modulo of the first sum.
  method Twice(x: word) returns (sum1: word)
    requires x < 3 * BASE
    ensures sum1 == x % BASE
  {
    sum1 := x;
    if sum1 >= BASE {
      sum1 := sum1 - BASE;
    }
    if sum1 >= BASE {
      sum1 := sum1 - BASE;
    }
  }

  // And for the second, which may be larger.
  method Thrice(x: word) returns (sum2: word)
    requires x < 4 * BASE
    ensures sum2 == x % BASE
  {
    sum2 := x;
    if sum2 >= 2 * BASE {
      sum2 := sum2 - 2 * BASE;
    }
    if sum2 >= BASE {
      sum2 := sum2 - BASE;
    }
  }

  method Merge(adler1: nat, adler2: nat, rem: word) returns (r: word)
    requires rem < BASE && Reduced(adler1) && Reduced(adler2)
    ensures r == Pack(((Lo(adler1) + Lo(adler2) + BASE - 1) % BASE,
                       (rem * Lo(adler1) % BASE + Hi(adler1) + Hi(adler2) + BASE - rem) % BASE))
  {
    hide Lo, Hi;
    var sum1: word := Lo(adler1);
    Products(rem, sum1, BASE, BASE);
    var sum2: word := rem * sum1;
    sum2 := sum2 % BASE;
    sum1 := Twice(sum1 + (Lo(adler2) + BASE - 1));
    sum2 := Thrice(sum2 + (Hi(adler1) + Hi(adler2) + BASE - rem));
    r := sum1 + 65536 * sum2;
  }
}
