/** Which match longest_match of deflate.c finds, in terms of the input alone.

The strings before a position with the hash of the one there are tried from the newest on; neither the window nor
the hash table is spoken of, but for the place `base` where the window starts: the string there is never tried. */
module MatchSearch {
  import opened Bits
  import opened Tokens
  import opened RollingHash
  import opened HashChains
  import opened Matches

  // The parameters of the search: of the hash, the greatest distance, and those of the compression level.
  datatype Knobs = Knobs(shift: nat, bits: nat, maxDist: nat, good: nat, nice: nat, chain: nat)

  // The string at `q` comes before the one at `p` and has its hash.
  predicate Alike(all: seq<nat>, k: Knobs, q: nat, p: nat) {
    q < p && p + 2 < |all| && HashAt(k.shift, k.bits, all, q) == HashAt(k.shift, k.bits, all, p)
  }

  /** The strings like the one at `p` below `q` and above `low`, the newest first; those in `out` were left out of the hash table. */
  function Earlier(all: seq<nat>, k: Knobs, out: set<nat>, p: nat, q: nat, low: nat): (s: seq<nat>)
    ensures forall i :: 0 <= i < |s| ==> low < s[i] < q && s[i] !in out && Alike(all, k, s[i], p)
    decreases q
  {
    if q == 0 || q - 1 <= low then []
    else (if q - 1 !in out && Alike(all, k, q - 1, p) then [q - 1] else []) + Earlier(all, k, out, p, q - 1, low)
  }

  // The strings at `q` and `p` have the same `j`-th byte.
  predicate SameByte(all: seq<nat>, q: nat, p: nat, j: nat)
    requires q < p && p + j < |all|
  {
    all[q + j] == all[p + j]
  }

  // How many bytes the strings at `q` and `p` share, given that they share `i`, up to `n`.
  function Shared(all: seq<nat>, q: nat, p: nat, i: nat, n: nat): (r: nat)
    requires q < p && i <= n && p + n <= |all|
    ensures i <= r <= n && (forall j :: i <= j < r ==> SameByte(all, q, p, j)) && (r < n ==> !SameByte(all, q, p, r))
    decreases n - i
  {
    if i < n && SameByte(all, q, p, i) then Shared(all, q, p, i + 1, n) else i
  }

  function Min(a: nat, b: nat): nat {
    if a <= b then a else b
  }

  // The oldest string to be tried, less one.
  function Lowest(k: Knobs, base: nat, p: nat): nat
    requires base <= p
  {
    if p - base > k.maxDist then p - k.maxDist else base
  }

  // The strings tried: the newest one if it is near enough, and up to `n` in all.
  function Tried(all: seq<nat>, k: Knobs, out: set<nat>, base: nat, p: nat, n: nat): (s: seq<nat>)
    requires base <= p
    ensures forall i :: 0 <= i < |s| ==> base < s[i] < p && p - s[i] <= k.maxDist && s[i] !in out && Alike(all, k, s[i], p)
  {
    var first := Earlier(all, k, out, p, p, base);
    if n == 0 || first == [] || p - first[0] > k.maxDist then []
    else
      var others := Earlier(all, k, out, p, first[0], Lowest(k, base, p));
      [first[0]] + others[..Min(n - 1, |others|)]
  }

  /** The longest match with one of the strings `cs` that is longer than `best`, the first of equals, and its distance; a
      match of `nice` bytes ends the search. */
  function Pick(all: seq<nat>, p: nat, most: nat, nice: nat, cs: seq<nat>, best: nat, dist: nat): (r: (nat, nat))
    requires p + most <= |all| && forall i :: 0 <= i < |cs| ==> cs[i] < p
    decreases |cs|
  {
    if cs == [] then (best, dist)
    else
      var n := Shared(all, cs[0], p, 0, most);
      if n <= best then Pick(all, p, most, nice, cs[1..], best, dist)
      else if n >= nice then (n, p - cs[0])
      else Pick(all, p, most, nice, cs[1..], n, p - cs[0])
  }

  // How many strings are tried when there is a match of `len` bytes already.
  function Tries(k: Knobs, len: nat): nat {
    if len >= k.good then k.chain / 4 else k.chain
  }

  /** The longest match at `p` that is longer than `len`, and its distance; `len` if there is none. */
  function LongestAt(all: seq<nat>, k: Knobs, out: set<nat>, base: nat, p: nat, len: nat): (r: (nat, nat))
    requires base <= p < |all|
  {
    var ahead := |all| - p;
    if ahead < MIN_MATCH then (len, 0)
    else Pick(all, p, Min(MAX_MATCH, ahead), Min(k.nice, ahead), Tried(all, k, out, base, p, Tries(k, len)), len, 0)
  }

  /** What is picked is a real match, and no string tried matches for longer unless a nice match ended the search. */
  lemma {:induction false} PickBest(all: seq<nat>, p: nat, most: nat, nice: nat, cs: seq<nat>, best: nat, dist: nat)
    requires p + most <= |all| && forall i :: 0 <= i < |cs| ==> cs[i] < p
    ensures var r := Pick(all, p, most, nice, cs, best, dist);
            && r.0 >= best && (r.0 == best ==> r.1 == dist)
            && (r.0 > best ==> r.0 <= most && exists c :: c in cs && r.1 == p - c && Shared(all, c, p, 0, most) == r.0)
            && forall c :: c in cs ==> Shared(all, c, p, 0, most) <= r.0 || nice <= r.0
    decreases |cs|
  {
    if cs != [] {
      hide Shared;
      var n := Shared(all, cs[0], p, 0, most);
      PickBest(all, p, most, nice, cs[1..], if n <= best then best else n, if n <= best then dist else p - cs[0]);
      assert forall c :: c in cs ==> c == cs[0] || c in cs[1..];
      assert cs[0] in cs && forall c :: c in cs[1..] ==> c in cs;
    }
  }

  /** A match found is one of the input, not too far off, and no longer than the input goes. */
  lemma {:induction false} LongestReal(all: seq<nat>, k: Knobs, out: set<nat>, base: nat, p: nat, len: nat)
    requires base <= p < |all|
    ensures var r := LongestAt(all, k, out, base, p, len);
            && r.0 >= len && (r.0 == len ==> r.1 == 0)
            && (r.0 > len ==> r.0 <= MAX_MATCH && p + r.0 <= |all| && 0 < r.1 <= k.maxDist && r.1 <= p && MatchOk(all, p, r.1, r.0))
  {
    hide Tried, Pick, Shared, MatchOk;
    var ahead := |all| - p;
    if ahead >= MIN_MATCH {
      var cs := Tried(all, k, out, base, p, Tries(k, len));
      var most, nice := Min(MAX_MATCH, ahead), Min(k.nice, ahead);
      PickBest(all, p, most, nice, cs, len, 0);
      var r := Pick(all, p, most, nice, cs, len, 0);
      if r.0 > len {
        var c :| c in cs && r.1 == p - c && Shared(all, c, p, 0, most) == r.0;
        SharedMatch(all, c, p, most);
      }
    }
  }

  lemma {:induction false} SharedMatch(all: seq<nat>, q: nat, p: nat, n: nat)
    requires q < p && p + n <= |all|
    ensures MatchOk(all, p, p - q, Shared(all, q, p, 0, n))
  {
    var l := Shared(all, q, p, 0, n);
    hide Shared;
    forall i | p <= i < p + l
      ensures all[i] == all[i - (p - q)]
    {
      assert SameByte(all, q, p, i - p);
    }
  }

  lemma {:induction false} AlikeLater(all: seq<nat>, all1: seq<nat>, k: Knobs, q: nat, p: nat)
    requires all <= all1 && p + 2 < |all|
    ensures Alike(all1, k, q, p) <==> Alike(all, k, q, p)
  {
    hide Hash3;
  }

  lemma {:induction false} EarlierLater(all: seq<nat>, all1: seq<nat>, k: Knobs, out: set<nat>, p: nat, q: nat, low: nat)
    requires all <= all1 && p + 2 < |all|
    ensures Earlier(all1, k, out, p, q, low) == Earlier(all, k, out, p, q, low)
    decreases q
  {
    hide Alike;
    if q > 0 && q - 1 > low {
      AlikeLater(all, all1, k, q - 1, p);
      EarlierLater(all, all1, k, out, p, q - 1, low);
    }
  }

  lemma {:induction false} SharedLater(all: seq<nat>, all1: seq<nat>, q: nat, p: nat, i: nat, n: nat)
    requires all <= all1 && q < p && i <= n && p + n <= |all|
    ensures Shared(all1, q, p, i, n) == Shared(all, q, p, i, n)
    decreases n - i
  {
    if i < n && SameByte(all, q, p, i) {
      SharedLater(all, all1, q, p, i + 1, n);
    }
  }

  lemma {:induction false} PickLater(all: seq<nat>, all1: seq<nat>, p: nat, most: nat, nice: nat, cs: seq<nat>, best: nat, dist: nat)
    requires all <= all1 && p + most <= |all| && forall i :: 0 <= i < |cs| ==> cs[i] < p
    ensures Pick(all1, p, most, nice, cs, best, dist) == Pick(all, p, most, nice, cs, best, dist)
    decreases |cs|
  {
    hide Shared;
    if cs != [] {
      SharedLater(all, all1, cs[0], p, 0, most);
      var n := Shared(all, cs[0], p, 0, most);
      PickLater(all, all1, p, most, nice, cs[1..], best, dist);
      PickLater(all, all1, p, most, nice, cs[1..], n, p - cs[0]);
    }
  }

  /** What is found does not depend on input that comes later, if there is enough of it already. */
  lemma {:induction false} LongestLater(all: seq<nat>, all1: seq<nat>, k: Knobs, out: set<nat>, base: nat, p: nat, len: nat)
    requires all <= all1 && base <= p && p + MAX_MATCH <= |all| && k.nice <= MAX_MATCH
    ensures LongestAt(all1, k, out, base, p, len) == LongestAt(all, k, out, base, p, len)
  {
    hide Earlier, Pick, Alike;
    var n := Tries(k, len);
    EarlierLater(all, all1, k, out, p, p, base);
    var first := Earlier(all, k, out, p, p, base);
    if first != [] {
      EarlierLater(all, all1, k, out, p, first[0], Lowest(k, base, p));
    }
    assert Tried(all1, k, out, base, p, n) == Tried(all, k, out, base, p, n);
    PickLater(all, all1, p, MAX_MATCH, k.nice, Tried(all, k, out, base, p, n), len, 0);
  }

  lemma {:induction false} EarlierHas(all: seq<nat>, k: Knobs, out: set<nat>, p: nat, q: nat, low: nat, c: nat)
    requires low < c < q && c !in out && Alike(all, k, c, p)
    ensures c in Earlier(all, k, out, p, q, low) && |Earlier(all, k, out, p, q, low)| <= q - low
    decreases q
  {
    hide Alike;
    EarlierFew(all, k, out, p, q, low);
    if c < q - 1 {
      EarlierHas(all, k, out, p, q - 1, low, c);
    }
  }

  lemma {:induction false} EarlierFew(all: seq<nat>, k: Knobs, out: set<nat>, p: nat, q: nat, low: nat)
    ensures |Earlier(all, k, out, p, q, low)| <= if q > low then q - low else 0
    decreases q
  {
    hide Alike;
    if q > 0 && q - 1 > low {
      EarlierFew(all, k, out, p, q - 1, low);
    }
  }

  lemma {:induction false} FirstNewest(all: seq<nat>, k: Knobs, out: set<nat>, p: nat, q: nat, low: nat, c: nat)
    requires low < c < q && c !in out && Alike(all, k, c, p)
    ensures Earlier(all, k, out, p, q, low) != [] && c <= Earlier(all, k, out, p, q, low)[0]
    decreases q
  {
    hide Alike;
    if c < q - 1 {
      FirstNewest(all, k, out, p, q - 1, low, c);
    }
  }

  lemma {:induction false} AllTried(all: seq<nat>, k: Knobs, base: nat, p: nat, n: nat, c: nat)
    requires base < c < p && p - c < k.maxDist < n && Alike(all, k, c, p)
    ensures c in Tried(all, k, {}, base, p, n)
  {
    hide Alike, Earlier;
    FirstNewest(all, k, {}, p, p, base, c);
    var first := Earlier(all, k, {}, p, p, base);
    if c < first[0] {
      EarlierHas(all, k, {}, p, first[0], Lowest(k, base, p), c);
    }
  }

  /** With a search that is not cut short, no string within reach matches for longer at all. */
  lemma {:induction false} Exhaustive(all: seq<nat>, k: Knobs, base: nat, p: nat, len: nat, c: nat)
    requires base < c < p < |all| && p - c < k.maxDist < Tries(k, len) && k.nice >= MAX_MATCH
    requires MIN_MATCH - 1 <= len && HashOk(k.shift, k.bits)
    ensures Shared(all, c, p, 0, Min(MAX_MATCH, |all| - p)) <= LongestAt(all, k, {}, base, p, len).0
  {
    hide Earlier, Pick, Tried, Alike, HashOk;
    var ahead, most := |all| - p, Min(MAX_MATCH, |all| - p);
    var n := Shared(all, c, p, 0, most);
    if n > len {
      ThreeAlike(all, k, c, p, most);
      AllTried(all, k, base, p, Tries(k, len), c);
      var cs := Tried(all, k, {}, base, p, Tries(k, len));
      PickBest(all, p, most, Min(k.nice, ahead), cs, len, 0);
    } else {
      LongestReal(all, k, {}, base, p, len);
    }
  }

  lemma {:induction false} ThreeAlike(all: seq<nat>, k: Knobs, c: nat, p: nat, n: nat)
    requires c < p && p + n <= |all| && n >= MIN_MATCH && Shared(all, c, p, 0, n) >= MIN_MATCH
    ensures Alike(all, k, c, p)
  {
    hide Shared, Hash3;
    assert SameByte(all, c, p, 0) && SameByte(all, c, p, 1) && SameByte(all, c, p, 2);
  }
}
