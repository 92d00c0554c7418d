/** longest_match of deflate.c: the best of the strings on a hash chain. */
module LongestMatch {
  import opened Bits
  import opened Tokens
  import opened RollingHash
  import opened HashChains
  import opened Matches
  import opened Finder

  // Two strings of the window have the same `i`-th byte.
  predicate Same(w: seq<nat>, a: nat, b: nat, i: nat)
    requires a < b && b + i < |w|
  {
    w[a + i] == w[b + i]
  }

  ghost predicate Agree(w: seq<nat>, a: nat, b: nat, lo: nat, hi: nat)
    requires a < b && b + hi <= |w|
  {
    forall i :: lo <= i < hi ==> Same(w, a, b, i)
  }

  // How many bytes from the `k`-th on two strings of the window share, up to MAX_MATCH in all.
  function Common(w: seq<nat>, a: nat, b: nat, k: nat): (r: nat)
    requires a < b && b + MAX_MATCH < |w| && k <= MAX_MATCH
    ensures k <= r <= MAX_MATCH && Agree(w, a, b, k, r)
    ensures r < MAX_MATCH ==> !Same(w, a, b, r)
    decreases MAX_MATCH - k
  {
    if k < MAX_MATCH && Same(w, a, b, k) then Common(w, a, b, k + 1) else k
  }

  // Only one length has these properties.
  lemma {:induction false} CommonUnique(w: seq<nat>, a: nat, b: nat, r: nat)
    requires a < b && b + MAX_MATCH < |w| && r <= MAX_MATCH
    requires Agree(w, a, b, 0, r) && (r < MAX_MATCH ==> !Same(w, a, b, r))
    ensures Common(w, a, b, 0) == r
  {
    hide Common, Same;
  }

  // A candidate that improves on `best` passes the tests made first.
  lemma {:induction false} Improves(w: seq<nat>, a: nat, b: nat, best: nat)
    requires a < b && b + MAX_MATCH < |w| && 2 <= best < Common(w, a, b, 0)
    ensures w[a + best] == w[b + best] && w[a + best - 1] == w[b + best - 1] && w[a] == w[b] && w[a + 1] == w[b + 1]
  {
    hide Common;
    assert Same(w, a, b, 0) && Same(w, a, b, 1) && Same(w, a, b, best) && Same(w, a, b, best - 1);
  }

  /** The longest match among the first `chain` strings from `cur` down to `limit`, the first of
      equals, if longer than `best`; the search ends with a match of `nice` bytes. */
  ghost function Search(w: seq<nat>, prev: seq<nat>, b: nat, limit: nat, nice: nat, cur: nat, chain: nat, best: nat, start: nat): (r: (nat, nat))
    requires cur < b && b + MAX_MATCH < |w| && |w| == 2 * |prev|
    decreases chain
  {
    var n := Common(w, cur, b, 0);
    var best1, start1 := if n > best then n else best, if n > best then cur else start;
    var q := prev[Slot(cur, |prev|)];
    if !(n > best && n >= nice) && limit < q < cur && chain > 1 then Search(w, prev, b, limit, nice, q, chain - 1, best1, start1)
    else (best1, start1)
  }

  // The strings the search looks at, if no match is nice.
  ghost function Candidates(prev: seq<nat>, limit: nat, cur: nat, chain: nat): seq<nat>
    requires cur < 2 * |prev|
    decreases chain
  {
    var q := prev[Slot(cur, |prev|)];
    [cur] + if limit < q < cur && chain > 1 then Candidates(prev, limit, q, chain - 1) else []
  }

  /** Unless a nice match ends the search, none of the candidates matches for longer. */
  lemma {:induction false} SearchBest(w: seq<nat>, prev: seq<nat>, b: nat, limit: nat, nice: nat, cur: nat, chain: nat, best: nat, start: nat, c: nat)
    requires cur < b && b + MAX_MATCH < |w| && |w| == 2 * |prev|
    ensures var r := Search(w, prev, b, limit, nice, cur, chain, best, start);
            r.0 >= best && (c < b && c in Candidates(prev, limit, cur, chain) ==> Common(w, c, b, 0) <= r.0 || nice <= r.0)
    decreases chain
  {
    hide Common;
    var n := Common(w, cur, b, 0);
    var q := prev[Slot(cur, |prev|)];
    if !(n > best && n >= nice) && limit < q < cur && chain > 1 {
      SearchBest(w, prev, b, limit, nice, q, chain - 1, if n > best then n else best, if n > best then cur else start, c);
    }
  }

  lemma {:induction false} SearchStep(w: seq<nat>, prev: seq<nat>, b: nat, limit: nat, nice: nat, cur: nat, chain: nat, best: nat, start: nat)
    requires cur < b && b + MAX_MATCH < |w| && |w| == 2 * |prev|
    ensures var n := Common(w, cur, b, 0);
            var best1, start1 := if n > best then n else best, if n > best then cur else start;
            var q := prev[Slot(cur, |prev|)];
            Search(w, prev, b, limit, nice, cur, chain, best, start) ==
            if !(n > best && n >= nice) && limit < q < cur && chain > 1 then Search(w, prev, b, limit, nice, q, chain - 1, best1, start1)
            else (best1, start1)
  {
    hide Common;
  }

  // Two strings with the same hash and the same first two bytes have the same third byte.
  lemma {:induction false} SameThird(f: MatchFinder, p: nat, q: nat)
    requires f.Sizes() && f.Data() && p + 2 < f.end && q < p
    requires LinkOk(q, p, f.shift, f.bits, f.input, f.base, f.ins) && q != 0
    requires f.window[q] == f.window[p] && f.window[q + 1] == f.window[p + 1]
    ensures f.window[q + 2] == f.window[p + 2]
  {
    hide Update, HashOk, Pow2;
    WindowAt(f.window[..], f.input, f.base, f.end, p);
    WindowAt(f.window[..], f.input, f.base, f.end, q);
    ThirdByte(f.shift, f.bits, f.window[p], f.window[p + 1], f.window[q + 2], f.window[p + 2]);
  }

  /** Compare a candidate with the current string; 0 if it is passed over. */
  method CompareStrings(f: MatchFinder, cur: nat, best_len: nat) returns (len: nat)
    requires f.Sizes() && f.Data() && f.strstart + 2 < f.end && f.strstart + MIN_LOOKAHEAD <= 2 * f.wsize && 2 <= best_len <= MAX_MATCH
    requires 0 < cur < f.strstart && LinkOk(cur, f.strstart, f.shift, f.bits, f.input, f.base, f.ins)
    ensures var n := Common(f.window[..], cur, f.strstart, 0); if n > best_len then len == n else len <= best_len
  {
    hide HashOk, Pow2, LinkOk, IsBytes, Common;
    ghost var w := f.window[..];
    var scan := f.strstart;
    if Common(w, cur, scan, 0) > best_len {
      Improves(w, cur, scan, best_len);
    }
    if f.window[cur + best_len] != f.window[scan + best_len] || f.window[cur + best_len - 1] != f.window[scan + best_len - 1]
       || f.window[cur] != f.window[scan] || f.window[cur + 1] != f.window[scan + 1] {
      return 0;
    }
    SameThird(f, scan, cur);
    len := 3;
    assert Same(w, cur, scan, 0) && Same(w, cur, scan, 1) && Same(w, cur, scan, 2);
    while len < MAX_MATCH && f.window[cur + len] == f.window[scan + len]
      invariant 3 <= len <= MAX_MATCH
      invariant Agree(w, cur, scan, 0, len)
    {
      assert Same(w, cur, scan, len);
      len := len + 1;
    }
    CommonUnique(w, cur, scan, len);
  }

  // What is common to two strings of the window, up to the end of the data, is a match.
  lemma {:induction false} WindowMatch(w: seq<nat>, input: seq<nat>, base: nat, end: nat, a: nat, b: nat, len: nat)
    requires a < b && b + MAX_MATCH < |w| && end <= |w| && base + end == |input| && w[..end] == input[base..]
    requires len <= Common(w, a, b, 0) && b + len <= end
    ensures MatchOk(input, base + b, b - a, len)
  {
    hide Common;
    forall k | base + b <= k < base + b + len
      ensures input[k] == input[k - (b - a)]
    {
      var i := k - base - b;
      assert Same(w, a, b, i);
      assert w[..end][b + i] == input[base..][b + i] && w[..end][a + i] == input[base..][a + i];
    }
  }

  // The oldest string that may be matched, less one.
  function Limit(strstart: nat, maxDist: nat): nat {
    if strstart > maxDist then strstart - maxDist else 0
  }

  function Nice(f: MatchFinder): nat
    reads f
  {
    if f.nice_match > f.lookahead then f.lookahead else f.nice_match
  }

  function Chain(f: MatchFinder, prev_length: nat): nat {
    if prev_length >= f.good_match then f.max_chain / 4 else f.max_chain
  }

  ghost function Found(f: MatchFinder, cur: nat, prev_length: nat): (r: (nat, nat))
    reads f, f.window, f.prev
    requires f.Sizes() && cur < f.strstart && f.strstart + MIN_LOOKAHEAD <= 2 * f.wsize
  {
    Search(f.window[..], f.prev[..], f.strstart, Limit(f.strstart, f.MaxDist()), Nice(f), cur, Chain(f, prev_length), prev_length, f.match_start)
  }

  // The string at strstart is inserted and `cur` may be matched with it.
  ghost predicate Searchable(f: MatchFinder, cur: nat)
    reads f, f.window, f.prev, f.head
  {
    && f.Sizes() && f.Data() && f.Index(f.strstart + 1) && f.end == f.strstart + f.lookahead && f.lookahead >= MIN_MATCH
    && f.strstart + MIN_LOOKAHEAD <= 2 * f.wsize && cur != 0 && f.Linked(f.strstart, cur)
  }

  // The string at `m` matches the current one for `n` bytes, not looking at the end of the data.
  ghost predicate Matched(f: MatchFinder, m: nat, n: nat)
    reads f, f.window
    requires f.Sizes()
  {
    && m < f.strstart && f.strstart - m <= f.MaxDist() && f.strstart + MAX_MATCH < f.window.Length
    && Common(f.window[..], m, f.strstart, 0) == n
  }

  lemma {:induction false} NextLink(f: MatchFinder, cur: nat)
    requires Searchable(f, cur)
    ensures cur < f.strstart && f.prev.Length == f.wsize && f.strstart < 2 * f.wsize
    ensures var q := f.prev[Slot(cur, f.wsize)]; f.strstart - cur <= f.MaxDist() && q != 0 ==> Searchable(f, q) && q < cur
  {
    hide Chains, HashAt, Pow2, HashOk, IsBytes;
    assert f.prev[..][Slot(cur, f.wsize)] == f.prev[Slot(cur, f.wsize)];
    if f.strstart - cur <= f.MaxDist() {
      FollowLink(f.head[..], f.prev[..], f.shift, f.bits, f.input, f.base, f.ins, f.wsize, cur, f.strstart);
    }
  }

  /** None of the strings tried matches for longer than `len`, unless that is as much as is asked for: with a match of
      `good_match` bytes a quarter of `max_chain` strings are tried, and all of them are less than wsize - 261 bytes back. */
  ghost predicate NoneLonger(f: MatchFinder, cur: nat, prev_length: nat, len: nat)
    reads f, f.window, f.prev
    requires f.Sizes() && cur < f.strstart && f.strstart + MIN_LOOKAHEAD <= 2 * f.wsize
  {
    len >= f.nice_match || len >= f.lookahead ||
    forall c :: c in Candidates(f.prev[..], if f.strstart > f.wsize - 262 then f.strstart - (f.wsize - 262) else 0, cur,
                                if prev_length >= f.good_match then f.max_chain / 4 else f.max_chain) && c < f.strstart ==>
      Common(f.window[..], c, f.strstart, 0) <= len
  }

  lemma {:induction false} NoneBetter(f: MatchFinder, cur: nat, prev_length: nat, start: nat, r: nat, len: nat)
    requires f.Sizes() && cur < f.strstart && f.strstart + MIN_LOOKAHEAD <= 2 * f.wsize
    requires r == Search(f.window[..], f.prev[..], f.strstart, Limit(f.strstart, f.MaxDist()), Nice(f), cur, Chain(f, prev_length), prev_length, start).0
    requires len == if r <= f.lookahead then r else f.lookahead
    ensures NoneLonger(f, cur, prev_length, len)
  {
    hide Common, Candidates, Search;
    forall c | len < f.nice_match && len < f.lookahead && c < f.strstart &&
               c in Candidates(f.prev[..], Limit(f.strstart, f.MaxDist()), cur, Chain(f, prev_length))
      ensures Common(f.window[..], c, f.strstart, 0) <= len
    {
      SearchBest(f.window[..], f.prev[..], f.strstart, Limit(f.strstart, f.MaxDist()), Nice(f), cur, Chain(f, prev_length), prev_length, start, c);
    }
  }

  /** Find the longest match for the current string that is longer than `prev_length`. */
  method LongestMatch(f: MatchFinder, cur: nat, prev_length: nat) returns (len: nat)
    requires Searchable(f, cur) && f.Sizes() && cur < f.strstart && f.strstart - cur <= f.MaxDist() && 2 <= prev_length <= MAX_MATCH
    modifies f`match_start
    ensures var r := old(Found(f, cur, prev_length));
            len == (if r.0 <= f.lookahead then r.0 else f.lookahead) && f.match_start == r.1
    ensures len > prev_length ==>
              f.match_start < f.strstart && f.strstart - f.match_start <= f.MaxDist() && len <= MAX_MATCH &&
              MatchOk(f.input, f.base + f.strstart, f.strstart - f.match_start, len)
    ensures f.match_start == old(f.match_start) || f.match_start < f.strstart
    ensures len <= MAX_MATCH && (prev_length <= len || len == f.lookahead)
    ensures NoneLonger(f, cur, prev_length, len)
  {
    hide NoneLonger, Chains, HashAt, Pow2, HashOk, IsBytes, Common, LinkOk, MatchOk, Search, Agree, Previous, Same;
    ghost var w, pv := f.window[..], f.prev[..];
    var chain_length := Chain(f, prev_length);
    var limit, nice_match := Limit(f.strstart, f.MaxDist()), Nice(f);
    var cur_match: nat, best_len: nat, going := cur, prev_length, true;
    while going
      invariant (going ==> chain_length >= 1) && 2 <= best_len <= MAX_MATCH
      invariant going ==> Searchable(f, cur_match) && cur_match < f.strstart && f.strstart - cur_match <= f.MaxDist()
      invariant Search(w, pv, f.strstart, limit, nice_match, cur, Chain(f, prev_length), prev_length, old(f.match_start)) ==
                (if going then Search(w, pv, f.strstart, limit, nice_match, cur_match, chain_length, best_len, f.match_start)
                 else (best_len, f.match_start))
      invariant if best_len > prev_length then Matched(f, f.match_start, best_len)
                else best_len == prev_length && f.match_start == old(f.match_start)
      decreases chain_length, going
    {
      NextLink(f, cur_match);
      SearchStep(w, pv, f.strstart, limit, nice_match, cur_match, chain_length, best_len, f.match_start);
      LinkOf(f, cur_match);
      var n := CompareStrings(f, cur_match, best_len);
      var q := f.prev[Slot(cur_match, f.wsize)];
      assert pv[Slot(cur_match, |pv|)] == q;
      if n > best_len {
        f.match_start := cur_match;
        best_len := n;
        going := n < nice_match;
      }
      if going {
        cur_match := q;
        chain_length := chain_length - 1;
        going := cur_match > limit && chain_length != 0;
      }
    }
    len := if best_len <= f.lookahead then best_len else f.lookahead;
    NoneBetter(f, cur, prev_length, old(f.match_start), best_len, len);
    if len > prev_length {
      WindowMatch(w, f.input, f.base, f.end, f.match_start, f.strstart, len);
    }
  }

  lemma {:induction false} LinkOf(f: MatchFinder, cur: nat)
    requires Searchable(f, cur)
    ensures LinkOk(cur, f.strstart, f.shift, f.bits, f.input, f.base, f.ins)
  {
  }
}
