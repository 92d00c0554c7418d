/** Matches in the input, by their distance, wherever the window may be. */
module Matches {
  import opened Tokens

  // `len` bytes at `pos` equal those `dist` bytes before them.
  ghost predicate MatchOk(input: seq<nat>, pos: nat, dist: nat, len: nat) {
    && 1 <= dist <= pos && pos + len <= |input|
    && forall k :: pos <= k < pos + len ==> input[k] == input[k - dist]
  }

  /** Copying a match goes on with the input. */
  lemma {:induction false} CopiesInput(input: seq<nat>, pos: nat, dist: nat, len: nat)
    requires MatchOk(input, pos, dist, len)
    ensures Copied(input[..pos], dist, len) == input[..pos + len]
    decreases len
  {
    if len > 0 {
      var h := input[..pos];
      assert h[|h| - dist] == input[pos - dist] == input[pos];
      assert h + [h[|h| - dist]] == input[..pos + 1];
      CopiesInput(input, pos + 1, dist, len - 1);
    }
  }

  // More input does not change a match.
  lemma {:induction false} MatchLater(input: seq<nat>, more: seq<nat>, pos: nat, dist: nat, len: nat)
    requires MatchOk(input, pos, dist, len)
    ensures MatchOk(input + more, pos, dist, len)
  {
  }

  // The tokens so far stand for the first `n` bytes of the input.
  ghost predicate Covers(ts: seq<Token>, hist: seq<nat>, input: seq<nat>, n: nat) {
    && n <= |input| && TokensOk(ts, hist) && Expand(ts, hist) == input[..n]
  }

  lemma {:induction false} CoverMatch(ts: seq<Token>, hist: seq<nat>, input: seq<nat>, n: nat, dist: nat, len: nat)
    requires Covers(ts, hist, input, n) && MatchOk(input, n, dist, len) && dist <= WINDOW && MIN_MATCH <= len <= MAX_MATCH
    ensures Covers(ts + [Match(dist, len)], hist, input, n + len)
  {
    CopiesInput(input, n, dist, len);
    ExpandAppend(ts, Match(dist, len), hist);
  }

  lemma {:induction false} CoverLiteral(ts: seq<Token>, hist: seq<nat>, input: seq<nat>, n: nat)
    requires Covers(ts, hist, input, n) && n < |input| && input[n] < 256
    ensures Covers(ts + [Literal(input[n])], hist, input, n + 1)
  {
    ExpandAppend(ts, Literal(input[n]), hist);
    assert input[..n] + [input[n]] == input[..n + 1];
  }

  lemma {:induction false} CoverMore(ts: seq<Token>, hist: seq<nat>, input: seq<nat>, n: nat, more: seq<nat>)
    requires Covers(ts, hist, input, n)
    ensures Covers(ts, hist, input + more, n)
  {
    assert (input + more)[..n] == input[..n];
  }
}
