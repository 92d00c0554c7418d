/** Adler-32 (adler32.c): sums with the modulo put off, and the combination of two checksums. */
module Adler {
  import opened Tokens

  const BASE: nat := 65521
  const NMAX: nat := 5552

  // What a 32-bit variable holds.
  type word = x: int | 0 <= x < 0x1_0000_0000

  predicate Divides(d: nat, n: nat) {
    1 < d < n && n % d == 0
  }

  ghost predicate IsPrime(n: nat) {
    n > 1 && forall d :: !Divides(d, n)
  }

  lemma {:induction false} NoSmallFactor(d: nat, e: nat)
    requires 1 < d < 256
    ensures d * e != BASE && e * d != BASE
  {
  }

  // One of two factors would be below 256.
  lemma {:induction false} NoFactors(d: nat, e: nat)
    requires d > 1 && e > 1
    ensures d * e != BASE
  {
    if d < 256 {
      NoSmallFactor(d, e);
    } else if e < 256 {
      NoSmallFactor(e, d);
    } else {
      Products(256, 256, d, e);
    }
  }

  /** BASE is a prime number. */
  lemma {:induction false} BasePrime()
    ensures IsPrime(BASE)
  {
    forall d: nat
      ensures !Divides(d, BASE)
    {
      var e := if d == 0 then 0 else BASE / d;
      if d > 1 && e > 1 {
        NoFactors(d, e);
      }
    }
  }

  /** It is the largest prime below 2^16. */
  lemma {:induction false} BaseLargest(p: nat)
    requires IsPrime(p) && p < 65536
    ensures p <= BASE
  {
    if p > BASE {
      var d: nat := match p
        case 65523 => 3
        case 65525 => 5
        case 65527 => 7
        case 65529 => 3
        case 65531 => 19
        case 65533 => 13
        case 65535 => 3
        case _ => 2;
      assert Divides(d, p);
      assert false;
    }
  }

  /** The reference: both sums reduced after every byte (section 2.2 of RFC 1950). */
  function Bytewise(a: nat, b: nat, s: seq<nat>): (r: (nat, nat))
    ensures r.0 < BASE && r.1 < BASE
  {
    if s == [] then (a % BASE, b % BASE)
    else
      var r := Bytewise(a, b, s[..|s| - 1]);
      var a1 := (r.0 + s[|s| - 1]) % BASE;
      (a1, (r.1 + a1) % BASE)
  }

  function Pack(r: (nat, nat)): nat {
    r.0 + 65536 * r.1
  }

  function Lo(adler: nat): nat { adler % 65536 }

  function Hi(adler: nat): nat { adler / 65536 % 65536 }

  /** The checksum `adler` of what came before, continued over the bytes `s`. */
  function Adler32(adler: nat, s: seq<nat>): nat {
    Pack(Bytewise(Lo(adler), Hi(adler), s))
  }

  predicate Congruent(x: int, y: int) {
    (x - y) % BASE == 0
  }

  // `a` and `b` are the sums after `s`, not reduced.
  ghost predicate Summed(a: int, b: int, a0: nat, b0: nat, s: seq<nat>) {
    Congruent(a, Bytewise(a0, b0, s).0) && Congruent(b, Bytewise(a0, b0, s).1)
  }

  lemma {:induction false} SummedNone(a: nat, b: nat)
    ensures Summed(a, b, a, b, [])
  {
  }

  lemma {:induction false} SummedNext(a: int, b: int, a0: nat, b0: nat, s: seq<nat>, i: nat)
    requires i < |s| && Summed(a, b, a0, b0, s[..i])
    ensures Summed(a + s[i], b + (a + s[i]), a0, b0, s[..i + 1])
  {
    hide Bytewise;
    LastByte(a0, b0, s, i);
  }

  lemma {:induction false} LastByte(a0: nat, b0: nat, s: seq<nat>, i: nat)
    requires i < |s|
    ensures var r := Bytewise(a0, b0, s[..i]);
            Bytewise(a0, b0, s[..i + 1]) == ((r.0 + s[i]) % BASE, (r.1 + (r.0 + s[i]) % BASE) % BASE)
  {
    assert s[..i + 1][..i] == s[..i];
  }

  lemma {:induction false} SummedMod(a: nat, b: nat, a0: nat, b0: nat, s: seq<nat>)
    requires Summed(a, b, a0, b0, s)
    ensures Summed(a % BASE, b % BASE, a0, b0, s) && (a % BASE, b % BASE) == Bytewise(a0, b0, s)
  {
    hide Bytewise;
  }

  // The largest second sum after `n` bytes since the last modulo.
  function Most(n: nat): nat {
    if n == 0 then 65535 else Most(n - 1) + 65535 + 255 * n
  }

  lemma {:induction false} MostIs(n: nat)
    ensures 2 * Most(n) == 131070 * (n + 1) + 255 * (n * (n + 1))
  {
    if n > 0 {
      MostIs(n - 1);
      assert n * (n + 1) == (n - 1) * n + 2 * n;
    }
  }

  lemma {:induction false} Products(a: nat, b: nat, c: nat, d: nat)
    requires a <= c && b <= d
    ensures a * b <= c * d
  {
    assert a * b <= c * b <= c * d;
  }

  /** NMAX is the largest number of bytes for which the second sum fits into 32 bits. */
  lemma {:induction false} LargestBatch(n: nat)
    ensures 255 * (n * (n + 1)) / 2 + (n + 1) * (BASE - 1) < 0x1_0000_0000 <==> n <= NMAX
  {
    if n <= NMAX {
      Products(n, n + 1, NMAX, NMAX + 1);
    } else {
      Products(NMAX + 1, NMAX + 2, n, n + 1);
    }
  }

  /** NMAX bytes do not overflow 32 bits. */
  lemma {:induction false} NoOverflow(n: nat)
    requires n <= NMAX
    ensures Most(n) < 0x1_0000_0000
  {
    hide Most;
    MostIs(n);
    Products(n, n + 1, NMAX, NMAX + 1);
  }

  // The sums after `n` bytes since the last modulo, `i` in all.
  ghost predicate Running(a: word, b: word, n: nat, a0: nat, b0: nat, s: seq<nat>, i: nat) {
    i <= |s| && a <= 65535 + 255 * n && b <= Most(n) && Summed(a, b, a0, b0, s[..i])
  }

  // DO1
  method One(a: word, b: word, s: seq<nat>, i: nat, ghost n: nat, ghost a0: nat, ghost b0: nat) returns (a1: word, b1: word)
    requires IsBytes(s) && i < |s| && n < NMAX && Running(a, b, n, a0, b0, s, i)
    ensures Running(a1, b1, n + 1, a0, b0, s, i + 1)
    ensures a1 == a + s[i] && b1 == b + a1
  {
    hide Bytewise, Summed;
    NoOverflow(n + 1);
    a1 := a + s[i];
    b1 := b + a1;
    SummedNext(a, b, a0, b0, s, i);
  }

  // DO16
  method Sixteen(a: word, b: word, s: seq<nat>, i: nat, ghost n: nat, ghost a0: nat, ghost b0: nat) returns (a1: word, b1: word)
    requires IsBytes(s) && i + 16 <= |s| && n + 16 <= NMAX && Running(a, b, n, a0, b0, s, i)
    ensures Running(a1, b1, n + 16, a0, b0, s, i + 16)
  {
    hide Bytewise, Summed, Most;
    a1, b1 := a, b;
    for k := 0 to 16
      invariant Running(a1, b1, n + k, a0, b0, s, i + k)
    {
      a1, b1 := One(a1, b1, s, i + k, n + k, a0, b0);
    }
  }

  // MOD of both sums.
  method Reduce(a: word, b: word, s: seq<nat>, i: nat, ghost n: nat, ghost a0: nat, ghost b0: nat) returns (a1: word, b1: word)
    requires Running(a, b, n, a0, b0, s, i)
    ensures Running(a1, b1, 0, a0, b0, s, i) && (a1, b1) == Bytewise(a0, b0, s[..i])
  {
    hide Bytewise, Summed;
    a1, b1 := a % BASE, b % BASE;
    SummedMod(a, b, a0, b0, s[..i]);
  }

  lemma {:induction false} OneByteOnly(a: nat, b: nat, x: nat)
    ensures Bytewise(a, b, [x]) == ((a + x) % BASE, (b + (a + x) % BASE) % BASE)
  {
    LastByte(a, b, [x], 0);
    assert [x][..1] == [x] && [x][..0] == [];
    ModSum(a, x);
    ModSum(b, (a + x) % BASE);
  }

  lemma {:induction false} ModSum(x: nat, y: nat)
    ensures (x % BASE + y) % BASE == (x + y) % BASE
  {
  }

  // One byte, with subtractions for the modulo.
  method Single(a: word, b: word, x: nat) returns (r: word)
    requires a < 65536 && b < 65536 && x < 256
    ensures r == Pack(Bytewise(a, b, [x])) <==> b + (a + x) % BASE < 2 * BASE
  {
    hide Bytewise;
    OneByteOnly(a, b, x);
    var adler, sum2 := a + x, b;
    if adler >= BASE {
      adler := adler - BASE;
    }
    sum2 := sum2 + adler;
    if sum2 >= BASE {
      sum2 := sum2 - BASE;
    }
    r := adler + 65536 * sum2;
  }

  // Fewer than 16 bytes.
  method Few(a: word, b: word, s: seq<nat>) returns (r: word)
    requires a < 65536 && b < 65536 && |s| < 16 && IsBytes(s)
    ensures r == Pack(Bytewise(a, b, s))
  {
    hide Bytewise, Summed, Most;
    var adler: word, sum2: word, i := a, b, 0;
    Start(a, b, s);
    while i < |s|
      invariant 0 <= i <= |s| && Running(adler, sum2, i, a, b, s, i)
    {
      adler, sum2 := One(adler, sum2, s, i, i, a, b);
      i := i + 1;
    }
    assert s[..|s|] == s;
    SummedMod(adler, sum2, a, b, s);
    if adler >= BASE {
      adler := adler - BASE;
    }
    sum2 := sum2 % BASE;
    r := adler + 65536 * sum2;
  }

  lemma {:induction false} Start(a: word, b: word, s: seq<nat>)
    requires a < 65536 && b < 65536
    ensures Running(a, b, 0, a, b, s, 0)
  {
    assert s[..0] == [];
    SummedNone(a, b);
  }

  // The blocks of NMAX bytes and what is left.
  method Blocks(a: word, b: word, s: seq<nat>) returns (r: word)
    requires a < 65536 && b < 65536 && 16 <= |s| && IsBytes(s)
    ensures r == Pack(Bytewise(a, b, s))
  {
    hide Bytewise, Summed, Most;
    var adler: word, sum2: word, i := a, b, 0;
    Start(a, b, s);
    while |s| - i >= NMAX
      invariant 0 <= i <= |s| && Running(adler, sum2, 0, a, b, s, i)
      invariant i > 0 ==> (adler, sum2) == Bytewise(a, b, s[..i])
    {
      ghost var start := i;
      for k := 0 to NMAX / 16
        invariant i == start + 16 * k && Running(adler, sum2, 16 * k, a, b, s, i)
      {
        adler, sum2 := Sixteen(adler, sum2, s, i, 16 * k, a, b);
        i := i + 16;
      }
      adler, sum2 := Reduce(adler, sum2, s, i, NMAX, a, b);
    }
    if i < |s| {
      adler, sum2, i := Rest(adler, sum2, s, i, a, b);
    }
    assert s[..|s|] == s;
    r := adler + 65536 * sum2;
  }

  method Rest(a: word, b: word, s: seq<nat>, from: nat, ghost a0: nat, ghost b0: nat) returns (a1: word, b1: word, i: nat)
    requires IsBytes(s) && Running(a, b, 0, a0, b0, s, from) && |s| - from < NMAX
    ensures i == |s| && (a1, b1) == Bytewise(a0, b0, s[..i])
  {
    hide Bytewise, Summed, Most;
    a1, b1, i := a, b, from;
    while |s| - i >= 16
      invariant from <= i <= |s| && Running(a1, b1, i - from, a0, b0, s, i)
    {
      a1, b1 := Sixteen(a1, b1, s, i, i - from, a0, b0);
      i := i + 16;
    }
    while i < |s|
      invariant from <= i <= |s| && Running(a1, b1, i - from, a0, b0, s, i)
    {
      a1, b1 := One(a1, b1, s, i, i - from, a0, b0);
      i := i + 1;
    }
    a1, b1 := Reduce(a1, b1, s, i, i - from, a0, b0);
  }

  /** adler32_z: the bytewise checksum, with no overflow of 32 bits on the way; only the short cut for a single byte
      needs a second sum that leaves room for one subtraction, as that of every checksum does. */
  method Adler32Z(adler: nat, buf: array?<nat>, len: nat) returns (r: word)
    requires buf != null ==> len <= buf.Length && IsBytes(buf[..len])
    requires len == 1 ==> buf != null
    ensures buf == null ==> r == 1
    ensures buf != null ==>
              (r == Adler32(adler, buf[..len]) <==> (len == 1 ==> Hi(adler) + (Lo(adler) + buf[0]) % BASE < 2 * BASE))
  {
    hide Bytewise;
    var sum2, a := Hi(adler), Lo(adler);
    if len == 1 {
      assert buf[..1] == [buf[0]];
      r := Single(a, sum2, buf[0]);
      return;
    }
    if buf == null {
      return 1;
    }
    if len < 16 {
      r := Few(a, sum2, buf[..len]);
      return;
    }
    r := Blocks(a, sum2, buf[..len]);
  }

  /** The sums of a checksum are reduced, so that every checksum can be continued. */
  lemma {:induction false} ChecksumsReduced(adler: nat, s: seq<nat>, x: nat)
    ensures Hi(Adler32(adler, s)) < BASE && Lo(Adler32(adler, s)) < BASE
    ensures Hi(Adler32(adler, s)) + (Lo(Adler32(adler, s)) + x) % BASE < 2 * BASE
  {
    hide Bytewise;
  }

  /** A number that is no checksum may be continued wrongly by a single byte. */
  lemma {:induction false} NotContinued()
    ensures Hi(0xffff_fff0) + (Lo(0xffff_fff0) + 0) % BASE >= 2 * BASE
  {
  }
}
