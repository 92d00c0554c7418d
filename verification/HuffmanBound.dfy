/** Why merging the two least weights again and again gives an optimal code.

A code is given by its lengths; `Room` is what they take of 2^M, and `Dot` is the
weighted total length.  `LowerBound(w, c)` says that no prefix code for the
weights `w` has a total below `c`.  The trees merged so far have heights `d`, too:
of two equal weights the lower tree is merged first, and so no prefix code of
total `c` makes a lower tree of them all. */
module HuffmanBound {
  import opened Bits
  import opened Heap

  function Room(lens: seq<nat>, m: nat): nat
    requires forall i :: 0 <= i < |lens| ==> lens[i] <= m
  {
    if lens == [] then 0 else Room(lens[..|lens| - 1], m) + Pow2(m - lens[|lens| - 1])
  }

  function Dot(w: seq<nat>, lens: seq<nat>): nat
    requires |w| == |lens|
  {
    if w == [] then 0
    else Dot(w[..|w| - 1], lens[..|w| - 1]) + w[|w| - 1] * lens[|w| - 1]
  }

  // The lengths of some prefix code, none above `m`.
  predicate PrefixCode(lens: seq<nat>, m: nat) {
    (forall i :: 0 <= i < |lens| ==> lens[i] <= m) && Room(lens, m) <= Pow2(m)
  }

  ghost predicate LowerBound(w: seq<nat>, c: nat) {
    forall lens: seq<nat>, m: nat :: |lens| == |w| && PrefixCode(lens, m) ==> c <= Dot(w, lens)
  }

  // With trees of heights `d` below their codes, nothing reaches level `e`.
  predicate Within(d: seq<nat>, lens: seq<nat>, e: nat) {
    |d| == |lens| && forall i :: 0 <= i < |lens| ==> lens[i] + d[i] < e
  }

  /** No prefix code for the weights `w` has a total below `c`, and those of total `c` reach level `e`. */
  ghost predicate TallBound(w: seq<nat>, d: seq<nat>, c: nat, e: nat) {
    && |d| == |w|
    && forall lens: seq<nat>, m: nat :: |lens| == |w| && PrefixCode(lens, m) ==>
         c <= Dot(w, lens) && (Within(d, lens, e) ==> c < Dot(w, lens))
  }

  lemma {:induction false} TallIsLower(w: seq<nat>, d: seq<nat>, c: nat, e: nat)
    requires TallBound(w, d, c, e)
    ensures LowerBound(w, c)
  {
    hide Dot, PrefixCode, Within;
  }

  // Lengths `b` have a smaller total than `a`, or the same and reach no further.
  predicate NoWorse(w: seq<nat>, d: seq<nat>, a: seq<nat>, b: seq<nat>, e: nat) {
    && |a| == |b| == |w| && Dot(w, b) <= Dot(w, a)
    && (Dot(w, b) == Dot(w, a) && Within(d, a, e) ==> Within(d, b, e))
  }

  lemma {:induction false} RoomUpdate(lens: seq<nat>, m: nat, i: nat, v: nat)
    requires i < |lens| && v <= m && forall j :: 0 <= j < |lens| ==> lens[j] <= m
    ensures Room(lens[i := v], m) + Pow2(m - lens[i]) == Room(lens, m) + Pow2(m - v)
  {
    var n := |lens| - 1;
    if i < n {
      RoomUpdate(lens[..n], m, i, v);
      assert lens[i := v][..n] == lens[..n][i := v];
    } else {
      assert lens[i := v][..n] == lens[..n];
    }
  }

  lemma {:induction false} DotUpdate(w: seq<nat>, lens: seq<nat>, i: nat, v: nat)
    requires |w| == |lens| && i < |lens|
    ensures Dot(w, lens[i := v]) + w[i] * lens[i] == Dot(w, lens) + w[i] * v
  {
    var n := |lens| - 1;
    if i < n {
      DotUpdate(w[..n], lens[..n], i, v);
      assert lens[i := v][..n] == lens[..n][i := v];
    } else {
      assert lens[i := v][..n] == lens[..n];
    }
  }

  function Exchanged(lens: seq<nat>, i: nat, j: nat): (r: seq<nat>)
    requires i < |lens| && j < |lens|
    ensures |r| == |lens|
  {
    lens[i := lens[j]][j := lens[i]]
  }

  lemma {:induction false} ExchangeProduct(a: nat, b: nat, x: nat, y: nat)
    requires b <= a && y <= x
    ensures a * y + b * x <= a * x + b * y
    ensures b < a && y < x ==> a * y + b * x < a * x + b * y
  {
    assert a * x == b * x + (a - b) * x;
    assert a * y == b * y + (a - b) * y;
    MulMono(a - b, y, x);
    if b < a && y < x {
      assert (a - b) * x == (a - b) * y + (a - b) * (x - y);
      MulMono(a - b, 1, x - y);
    }
  }

  // Giving the longer of two codes to the smaller weight keeps the room and does not add to the total.
  lemma {:induction false} Exchange(w: seq<nat>, lens: seq<nat>, m: nat, i: nat, j: nat)
    requires |w| == |lens| && PrefixCode(lens, m) && i < |lens| && j < |lens|
    requires w[j] <= w[i] && lens[j] <= lens[i]
    ensures PrefixCode(Exchanged(lens, i, j), m) && Dot(w, Exchanged(lens, i, j)) <= Dot(w, lens)
    ensures w[j] < w[i] && lens[j] < lens[i] ==> Dot(w, Exchanged(lens, i, j)) < Dot(w, lens)
  {
    hide Room, Dot, Pow2;
    var mid := lens[i := lens[j]];
    RoomUpdate(lens, m, i, lens[j]);
    RoomUpdate(mid, m, j, lens[i]);
    DotUpdate(w, lens, i, lens[j]);
    DotUpdate(w, mid, j, lens[i]);
    ExchangeProduct(w[i], w[j], lens[i], lens[j]);
  }

  // Giving the longer of two codes to the smaller key does no harm.
  lemma {:induction false} ExchangeKeys(w: seq<nat>, d: seq<nat>, lens: seq<nat>, m: nat, i: nat, j: nat, e: nat)
    requires |d| == |w| == |lens| && PrefixCode(lens, m) && i < |lens| && j < |lens|
    requires Smaller(w, d, j, i) && lens[j] <= lens[i]
    ensures PrefixCode(Exchanged(lens, i, j), m) && NoWorse(w, d, lens, Exchanged(lens, i, j), e)
  {
    hide PrefixCode, Dot;
    Exchange(w, lens, m, i, j);
    var r := Exchanged(lens, i, j);
    if Dot(w, r) == Dot(w, lens) && Within(d, lens, e) {
      if w[j] < w[i] {
        assert r == lens;
      }
    }
  }

  lemma {:induction false} Longest(lens: seq<nat>, n: nat) returns (i: nat)
    requires 0 < n <= |lens|
    ensures i < n && forall j :: 0 <= j < n ==> lens[j] <= lens[i]
  {
    i := 0;
    if n > 1 {
      i := Longest(lens, n - 1);
      if lens[n - 1] > lens[i] {
        i := n - 1;
      }
    }
  }

  // Lengths of at most `l` take a multiple of 2^(m - l).
  lemma {:induction false} RoomMultiple(lens: seq<nat>, m: nat, l: nat) returns (k: nat)
    requires l <= m && forall j :: 0 <= j < |lens| ==> lens[j] <= l
    ensures Room(lens, m) == Pow2(m - l) * k
    ensures k >= |lens|
  {
    k := 0;
    if lens != [] {
      var n := |lens| - 1;
      k := RoomMultiple(lens[..n], m, l);
      Pow2Add(m - l, l - lens[n]);
      assert Pow2(m - l) * (k + Pow2(l - lens[n])) == Pow2(m - l) * k + Pow2(m - l) * Pow2(l - lens[n]);
      k := k + Pow2(l - lens[n]);
    }
  }

  // The last code, if it is longer than all others, may as well be as long as the next one.
  lemma {:induction false} Shorten(lens: seq<nat>, m: nat, l: nat)
    requires |lens| > 1 && PrefixCode(lens, m) && l <= lens[|lens| - 1]
    requires forall j :: 0 <= j < |lens| - 1 ==> lens[j] <= l
    ensures PrefixCode(lens[|lens| - 1 := l], m) && l > 0
  {
    var n := |lens| - 1;
    var front := lens[..n];
    var k := RoomMultiple(front, m, l);
    assert lens[n := l][..n] == front;
    Pow2Add(m - l, l);
    hide Pow2;
    MulCancel(Pow2(m - l), k, Pow2(l));
    MulMono(Pow2(m - l), k + 1, Pow2(l));
    assert Pow2(m - l) * (k + 1) == Pow2(m - l) * k + Pow2(m - l);
    PowZero();
  }

  lemma {:induction false} PowZero()
    ensures Pow2(0) == 1
  {
  }

  // No key before the k-th is smaller than it.
  predicate Under(w: seq<nat>, d: seq<nat>, k: nat) {
    k < |w| == |d| && forall i :: 0 <= i < k ==> Smaller(w, d, k, i)
  }

  // The last two keys are least, the last one first.
  predicate LastLeast(w: seq<nat>, d: seq<nat>) {
    |d| == |w| >= 2 && Smaller(w, d, |w| - 1, |w| - 2) && Under(w, d, |w| - 2)
  }

  lemma {:induction false} LastUnder(w: seq<nat>, d: seq<nat>, i: nat)
    requires LastLeast(w, d) && i < |w|
    ensures Smaller(w, d, |w| - 1, i) && (i < |w| - 1 ==> Smaller(w, d, |w| - 2, i))
  {
    if i < |w| - 2 {
      assert Smaller(w, d, |w| - 2, i);
    }
  }

  /** The last two keys are least: bring their codes to one length, the greatest. */
  lemma {:induction false} Level(w: seq<nat>, d: seq<nat>, lens: seq<nat>, m: nat, e: nat) returns (r: seq<nat>)
    requires |w| == |lens| && LastLeast(w, d) && PrefixCode(lens, m)
    ensures |r| == |w| && PrefixCode(r, m) && NoWorse(w, d, lens, r, e)
    ensures r[|w| - 1] == r[|w| - 2] > 0
  {
    hide PrefixCode, Dot;
    var n := |w|;
    var i := Longest(lens, n);
    LastUnder(w, d, i);
    ExchangeKeys(w, d, lens, m, i, n - 1, e);
    var a := Exchanged(lens, i, n - 1);
    var j := Longest(a, n - 1);
    LastUnder(w, d, j);
    ExchangeKeys(w, d, a, m, j, n - 2, e);
    var b := Exchanged(a, j, n - 2);
    var l := b[n - 2];
    Shorten(b, m, l);
    DotUpdate(w, b, n - 1, l);
    MulMono(w[n - 1], l, b[n - 1]);
    r := b[n - 1 := l];
  }

  lemma {:induction false} MergeTotal(a: nat, b: nat, l: nat)
    requires l > 0
    ensures a * l + b * l == (a + b) * (l - 1) + (a + b)
  {
  }

  // Two codes of one length give way to one shorter code.
  lemma {:induction false} MergeCodes(w: seq<nat>, lens: seq<nat>, m: nat)
    requires |w| == |lens| >= 2 && PrefixCode(lens, m) && lens[|w| - 1] == lens[|w| - 2] > 0
    ensures var n := |w| - 2;
            var w1, l1 := w[..n] + [w[n] + w[n + 1]], lens[..n] + [lens[n] - 1];
            PrefixCode(l1, m) && Dot(w, lens) == Dot(w1, l1) + w[n] + w[n + 1]
  {
    var n := |w| - 2;
    var w1, l1 := w[..n] + [w[n] + w[n + 1]], lens[..n] + [lens[n] - 1];
    assert lens[..n + 1][..n] == lens[..n] == l1[..n] && w[..n + 1][..n] == w[..n] == w1[..n];
    MergeTotal(w[n], w[n + 1], lens[n]);
    var h := m - lens[n];
    assert Pow2(h + 1) == 2 * Pow2(h);
    assert lens[..n + 1][n] == lens[n];
    assert Room(lens[..n + 1], m) == Room(lens[..n], m) + Pow2(h);
    assert Room(l1, m) == Room(lens[..n], m) + Pow2(m - (lens[n] - 1));
    assert m - (lens[n] - 1) == h + 1;
  }

  // A tree is one higher than the higher of its sons.
  function Over(a: nat, b: nat): nat {
    (if a >= b then a else b) + 1
  }

  lemma {:induction false} MergeWithin(d: seq<nat>, lens: seq<nat>, e: nat)
    requires |lens| == |d| >= 2 && lens[|d| - 1] == lens[|d| - 2] > 0 && Within(d, lens, e)
    ensures var n := |d| - 2;
            Within(d[..n] + [Over(d[n], d[n + 1])], lens[..n] + [lens[n] - 1], e)
  {
  }

  /** Merging the two least keys: a bound for what is left gives one for the whole. */
  lemma {:induction false} MergeBound(w: seq<nat>, d: seq<nat>, c: nat, e: nat)
    requires LastLeast(w, d)
    requires var n := |w| - 2;
             TallBound(w[..n] + [w[n] + w[n + 1]], d[..n] + [Over(d[n], d[n + 1])], c, e)
    ensures TallBound(w, d, c + w[|w| - 2] + w[|w| - 1], e)
  {
    hide Dot, PrefixCode, LastLeast, Within;
    assert |d| == |w| >= 2 by { LastShape(w, d); }
    var n := |w| - 2;
    forall lens: seq<nat>, m: nat | |lens| == |w| && PrefixCode(lens, m)
      ensures c + w[n] + w[n + 1] <= Dot(w, lens)
      ensures Within(d, lens, e) ==> c + w[n] + w[n + 1] < Dot(w, lens)
    {
      var r := Level(w, d, lens, m, e);
      MergeCodes(w, r, m);
      if Within(d, r, e) {
        MergeWithin(d, r, e);
      }
    }
  }

  lemma {:induction false} LastShape(w: seq<nat>, d: seq<nat>)
    requires LastLeast(w, d)
    ensures |d| == |w| >= 2
  {
  }

  // One tree alone has no code, and is as high as it is.
  lemma {:induction false} SingleBound(x: nat, h: nat)
    ensures TallBound([x], [h], 0, h)
  {
  }

  function Without(s: seq<nat>, i: nat): (r: seq<nat>)
    requires i < |s|
    ensures |r| == |s| - 1
  {
    s[..i] + s[i + 1..]
  }

  lemma {:induction false} RoomWithout(lens: seq<nat>, m: nat, i: nat)
    requires i < |lens| && forall j :: 0 <= j < |lens| ==> lens[j] <= m
    ensures forall j :: 0 <= j < |lens| - 1 ==> Without(lens, i)[j] <= m
    ensures Room(lens, m) == Room(Without(lens, i), m) + Pow2(m - lens[i])
  {
    var n := |lens| - 1;
    if i < n {
      RoomWithout(lens[..n], m, i);
      assert Without(lens, i)[..n - 1] == Without(lens[..n], i);
    } else {
      assert Without(lens, i) == lens[..n];
    }
  }

  lemma {:induction false} DotWithout(w: seq<nat>, lens: seq<nat>, i: nat)
    requires |w| == |lens| && i < |lens|
    ensures Dot(w, lens) == Dot(Without(w, i), Without(lens, i)) + w[i] * lens[i]
  {
    var n := |lens| - 1;
    if i < n {
      DotWithout(w[..n], lens[..n], i);
      assert Without(lens, i)[..n - 1] == Without(lens[..n], i);
      assert Without(w, i)[..n - 1] == Without(w[..n], i);
    } else {
      assert Without(lens, i) == lens[..n] && Without(w, i) == w[..n];
    }
  }

  lemma {:induction false} WithoutContents(s: seq<nat>, i: nat)
    requires i < |s|
    ensures multiset(Without(s, i)) == multiset(s) - multiset{s[i]}
  {
    assert s == s[..i] + [s[i]] + s[i + 1..];
  }

  lemma {:induction false} SameSize(w: seq<nat>, v: seq<nat>)
    requires multiset(w) == multiset(v)
    ensures |w| == |v|
  {
    assert |w| == |multiset(w)| == |multiset(v)| == |v|;
  }

  lemma {:induction false} RoomMore(r: seq<nat>, m: nat, l: nat)
    requires l <= m && forall j :: 0 <= j < |r| ==> r[j] <= m
    ensures forall j :: 0 <= j < |r + [l]| ==> (r + [l])[j] <= m
    ensures Room(r + [l], m) == Room(r, m) + Pow2(m - l)
  {
    assert (r + [l])[..|r|] == r;
  }

  lemma {:induction false} DotMore(w: seq<nat>, r: seq<nat>, l: nat)
    requires |w| == |r| + 1
    ensures Dot(w, r + [l]) == Dot(w[..|r|], r) + w[|r|] * l
  {
    assert (r + [l])[..|r|] == r;
  }
}
