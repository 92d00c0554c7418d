/** What a stream of literals and matches stands for. */
module Tokens {

  /** A literal byte, or the `length` bytes found `dist` bytes back (section 3.2.5 of RFC 1951). */
  datatype Token = Literal(byte: nat) | Match(dist: nat, length: nat)

  const MIN_MATCH: nat := 3
  const MAX_MATCH: nat := 258
  const WINDOW: nat := 32768

  predicate IsBytes(s: seq<nat>) {
    forall i :: 0 <= i < |s| ==> s[i] < 256
  }

  // `hist` after a copy of `n` bytes from `dist` bytes back; the copy may run into its own output.
  function Copied(hist: seq<nat>, dist: nat, n: nat): (r: seq<nat>)
    requires 0 < dist <= |hist|
    ensures |r| == |hist| + n && hist <= r
    decreases n
  {
    if n == 0 then hist
    else
      var next := hist + [hist[|hist| - dist]];
      assert hist <= next;
      Copied(next, dist, n - 1)
  }

  predicate TokenOk(t: Token, hist: seq<nat>) {
    match t
    case Literal(b) => b < 256
    case Match(d, l) => 1 <= d <= WINDOW && d <= |hist| && MIN_MATCH <= l <= MAX_MATCH
  }

  function Denoted(t: Token, hist: seq<nat>): (r: seq<nat>)
    requires TokenOk(t, hist)
    ensures hist <= r && |r| > |hist|
  {
    match t
    case Literal(b) => hist + [b]
    case Match(d, l) => Copied(hist, d, l)
  }

  // Every token refers to bytes that are there when its turn comes.
  predicate TokensOk(ts: seq<Token>, hist: seq<nat>) {
    ts == [] || (TokenOk(ts[0], hist) && TokensOk(ts[1..], Denoted(ts[0], hist)))
  }

  // `hist` followed by the bytes the tokens stand for.
  function Expand(ts: seq<Token>, hist: seq<nat>): (r: seq<nat>)
    requires TokensOk(ts, hist)
    ensures hist <= r
  {
    if ts == [] then hist else Expand(ts[1..], Denoted(ts[0], hist))
  }

  lemma {:induction false} ExpandAppend(ts: seq<Token>, t: Token, hist: seq<nat>)
    requires TokensOk(ts, hist) && TokenOk(t, Expand(ts, hist))
    ensures TokensOk(ts + [t], hist)
    ensures Expand(ts + [t], hist) == Denoted(t, Expand(ts, hist))
  {
    if ts == [] {
      assert ts + [t] == [t] && [t][1..] == [];
    } else {
      assert (ts + [t])[1..] == ts[1..] + [t];
      ExpandAppend(ts[1..], t, Denoted(ts[0], hist));
    }
  }
}
