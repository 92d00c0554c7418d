/** How the four strategies of deflate.c cut the input into literals and matches, in terms of the input and of the matches
found in it. */
module Parsing {
  import opened Tokens
  import opened Matches
  import opened MatchSearch

  // The parameters of a compression level: of the search, the greatest length worth improving, and Z_FILTERED.
  datatype Level = Level(k: Knobs, lazy: nat, filtered: bool)

  // What was found at a position: a match, or a length less than MIN_MATCH; and where the window started then.
  datatype Look = Look(base: nat, len: nat, dist: nat)

  // How many bytes the tokens stand for.
  function Size(ts: seq<Token>): nat {
    if ts == [] then 0
    else Size(ts[..|ts| - 1]) + match ts[|ts| - 1] case Literal(_) => 1 case Match(_, l) => l
  }

  // The string where the window starts is never tried; but that is as far off as can be, or at the start of the input.
  predicate Placed(v: Level, base: nat, p: nat) {
    base <= p && (base == 0 || base + v.k.maxDist <= p)
  }

  /** The match at `p` that is better than one of `len` bytes, if there is one: longer, not sought if that one is long
      enough, and not too short for Z_FILTERED or for its distance. */
  function Better(all: seq<nat>, v: Level, base: nat, p: nat, len: nat): (r: (nat, nat))
    requires base <= p < |all|
  {
    var r := LongestAt(all, v.k, {}, base, p, len);
    if len < v.lazy && r.0 > len && !(r.0 <= 5 && (v.filtered || (r.0 == MIN_MATCH && r.1 > 4096))) then r else (MIN_MATCH - 1, 0)
  }

  // This was found at `p`, with a match of `len` bytes one position earlier.
  ghost predicate FoundAt(all: seq<nat>, v: Level, p: nat, len: nat, look: Look) {
    p < |all| && Placed(v, look.base, p) && (look.len, look.dist) == Better(all, v, look.base, p, len)
  }

  /** Lazy evaluation: a match is taken where it was found if none better was found one position further on, and a literal
      if no match was found, or a better one there. */
  ghost predicate LazyChoice(all: seq<nat>, v: Level, looks: map<nat, Look>, p: nat, len: nat, t: Token) {
    && p in looks && FoundAt(all, v, p, len, looks[p])
    && match t
       case Literal(b) =>
         && b == all[p]
         && (looks[p].len < MIN_MATCH ||
             (p + 1 in looks && FoundAt(all, v, p + 1, looks[p].len, looks[p + 1]) && looks[p + 1].len > looks[p].len))
       case Match(d, l) =>
         && l >= MIN_MATCH && l == looks[p].len && d == looks[p].dist
         && p + 1 in looks && FoundAt(all, v, p + 1, l, looks[p + 1]) && looks[p + 1].len <= l
  }

  // The length of the match that waits for the token after `ts`.
  function Waiting(ts: seq<Token>, looks: map<nat, Look>): nat {
    if ts == [] || ts[|ts| - 1].Match? || Size(ts) == 0 || Size(ts) - 1 !in looks then MIN_MATCH - 1 else looks[Size(ts) - 1].len
  }

  /** The tokens are those of lazy evaluation, with what was found at each position. */
  ghost predicate Lazy(all: seq<nat>, v: Level, looks: map<nat, Look>, ts: seq<Token>) {
    ts == [] ||
    var front := ts[..|ts| - 1];
    Lazy(all, v, looks, front) && LazyChoice(all, v, looks, Size(front), Waiting(front, looks), ts[|ts| - 1])
  }

  lemma {:induction false} SizeMore(ts: seq<Token>, t: Token)
    ensures Size(ts + [t]) == Size(ts) + match t case Literal(_) => 1 case Match(_, l) => l
  {
    assert (ts + [t])[..|ts|] == ts;
  }

  // One token more.
  lemma {:induction false} LazyMore(all: seq<nat>, v: Level, looks: map<nat, Look>, ts: seq<Token>, t: Token)
    requires Lazy(all, v, looks, ts) && LazyChoice(all, v, looks, Size(ts), Waiting(ts, looks), t)
    ensures Lazy(all, v, looks, ts + [t])
    ensures Waiting(ts + [t], looks) == if t.Match? then MIN_MATCH - 1 else looks[Size(ts)].len
  {
    hide LazyChoice;
    assert (ts + [t])[..|ts|] == ts;
    SizeMore(ts, t);
    InLooks(all, v, looks, Size(ts), Waiting(ts, looks), t);
  }

  lemma {:induction false} InLooks(all: seq<nat>, v: Level, looks: map<nat, Look>, p: nat, len: nat, t: Token)
    requires LazyChoice(all, v, looks, p, len, t)
    ensures p in looks && (t.Match? ==> t.length >= MIN_MATCH && p + 1 in looks)
  {
  }

  // More is found, at other positions.
  lemma {:induction false} LooksMore(all: seq<nat>, v: Level, looks: map<nat, Look>, ts: seq<Token>, p: nat, look: Look)
    requires Lazy(all, v, looks, ts) && p !in looks
    ensures Lazy(all, v, looks[p := look], ts)
    ensures ts != [] ==> Waiting(ts, looks[p := look]) == Waiting(ts, looks)
  {
    hide FoundAt;
    if ts != [] {
      var front := ts[..|ts| - 1];
      LooksMore(all, v, looks, front, p, look);
      assert front + [ts[|ts| - 1]] == ts;
      SizeMore(front, ts[|ts| - 1]);
    }
  }

  lemma {:induction false} FoundReal(all: seq<nat>, v: Level, p: nat, len: nat, look: Look)
    requires FoundAt(all, v, p, len, look) && look.len >= MIN_MATCH && len >= MIN_MATCH - 1
    ensures look.len <= MAX_MATCH && p + look.len <= |all| && MatchOk(all, p, look.dist, look.len) && look.dist <= v.k.maxDist
  {
    hide LongestAt, MatchOk;
    LongestReal(all, v.k, {}, look.base, p, len);
  }

  // There was enough input for all that was found.
  ghost predicate Early(looks: map<nat, Look>, n: nat) {
    forall p :: p in looks ==> p + MAX_MATCH + 1 <= n
  }

  lemma {:induction false} FoundLater(all: seq<nat>, all1: seq<nat>, v: Level, p: nat, len: nat, look: Look)
    requires FoundAt(all, v, p, len, look) && all <= all1 && p + MAX_MATCH <= |all| && v.k.nice <= MAX_MATCH
    ensures FoundAt(all1, v, p, len, look)
  {
    hide LongestAt;
    LongestLater(all, all1, v.k, {}, look.base, p, len);
  }

  /** Input that comes later changes nothing. */
  lemma {:induction false} LazyLater(all: seq<nat>, all1: seq<nat>, v: Level, looks: map<nat, Look>, ts: seq<Token>)
    requires Lazy(all, v, looks, ts) && all <= all1 && Early(looks, |all|) && v.k.nice <= MAX_MATCH
    ensures Lazy(all1, v, looks, ts)
  {
    hide FoundAt;
    if ts != [] {
      var front, t := ts[..|ts| - 1], ts[|ts| - 1];
      LazyLater(all, all1, v, looks, front);
      var p, len := Size(front), Waiting(front, looks);
      FoundLater(all, all1, v, p, len, looks[p]);
      FoundBelow(all, v, p, len, looks[p]);
      if p + 1 in looks && FoundAt(all, v, p + 1, looks[p].len, looks[p + 1]) {
        FoundLater(all, all1, v, p + 1, looks[p].len, looks[p + 1]);
      }
    }
  }

  lemma {:induction false} FoundBelow(all: seq<nat>, v: Level, p: nat, len: nat, look: Look)
    requires FoundAt(all, v, p, len, look)
    ensures p < |all|
  {
  }

  lemma {:induction false} WaitingSome(ts: seq<Token>, looks: map<nat, Look>, all: seq<nat>, v: Level)
    requires Lazy(all, v, looks, ts)
    ensures Waiting(ts, looks) >= MIN_MATCH - 1
  {
    hide LongestAt;
    if ts != [] && ts[|ts| - 1].Literal? {
      var front := ts[..|ts| - 1];
      assert front + [ts[|ts| - 1]] == ts;
      SizeMore(front, ts[|ts| - 1]);
      WaitingSome(front, looks, all, v);
    }
  }

  /** The tokens of lazy evaluation stand for the input. */
  lemma {:induction false} LazyExpands(all: seq<nat>, v: Level, looks: map<nat, Look>, ts: seq<Token>)
    requires Lazy(all, v, looks, ts) && IsBytes(all) && v.k.maxDist <= WINDOW
    ensures Covers(ts, [], all, Size(ts))
  {
    hide FoundAt, Covers;
    if ts == [] {
      NoneCovered(all);
    } else {
      var front, t := ts[..|ts| - 1], ts[|ts| - 1];
      LazyExpands(all, v, looks, front);
      WaitingSome(front, looks, all, v);
      assert front + [t] == ts;
      var p := Size(front);
      FoundBelow(all, v, p, Waiting(front, looks), looks[p]);
      if t.Match? {
        FoundReal(all, v, p, Waiting(front, looks), looks[p]);
        CoverMatch(front, [], all, p, t.dist, t.length);
      } else {
        CoverLiteral(front, [], all, p);
      }
    }
  }

  lemma {:induction false} NoneCovered(all: seq<nat>)
    ensures Covers([], [], all, 0)
  {
  }

  predicate Behind(q: nat, p: nat) {
    p < q
  }

  /** Between two steps of lazy evaluation at `pos`: the byte before may wait for its token, with a match of `len` bytes,
      if that is one, `dist - 1` bytes before it. */
  ghost predicate LazyState(all: seq<nat>, v: Level, looks: map<nat, Look>, ts: seq<Token>, pos: nat, avail: bool, len: nat, dist: nat) {
    && Lazy(all, v, looks, ts) && Size(ts) + (if avail then 1 else 0) == pos && (forall p :: p in looks ==> p < pos)
    && if avail then
         && pos - 1 in looks && FoundAt(all, v, pos - 1, Waiting(ts, looks), looks[pos - 1])
         && len == looks[pos - 1].len && (len >= MIN_MATCH ==> looks[pos - 1].dist + 1 == dist)
       else len == MIN_MATCH - 1 == Waiting(ts, looks)
  }

  /** The same after the search at `pos`, where a match of `len` bytes at distance `dist` was found, if that is better. */
  ghost predicate LazyChoosing(all: seq<nat>, v: Level, looks: map<nat, Look>, ts: seq<Token>, pos: nat, avail: bool, prev_len: nat, prev_dist: nat,
                               len: nat, dist: nat) {
    && Lazy(all, v, looks, ts) && Size(ts) + (if avail then 1 else 0) == pos && (forall p :: p in looks ==> p <= pos)
    && pos in looks && FoundAt(all, v, pos, prev_len, looks[pos]) && len >= MIN_MATCH - 1
    && (len > prev_len <==> looks[pos].len > prev_len) && (len > prev_len ==> looks[pos].len == len && looks[pos].dist == dist)
    && if avail then
         && pos - 1 in looks && FoundAt(all, v, pos - 1, Waiting(ts, looks), looks[pos - 1])
         && prev_len == looks[pos - 1].len && (prev_len >= MIN_MATCH ==> looks[pos - 1].dist + 1 == prev_dist)
       else prev_len == MIN_MATCH - 1 == Waiting(ts, looks)
  }

  lemma {:induction false} FoundLeast(all: seq<nat>, v: Level, p: nat, len: nat, look: Look)
    requires FoundAt(all, v, p, len, look) && len >= MIN_MATCH - 1
    ensures p < |all| && look.len >= MIN_MATCH - 1
  {
    hide LongestAt;
  }

  lemma {:induction false} LazySearched(all: seq<nat>, v: Level, looks: map<nat, Look>, ts: seq<Token>, pos: nat, avail: bool, prev_len: nat, prev_dist: nat,
                                        look: Look, len: nat, dist: nat)
    requires LazyState(all, v, looks, ts, pos, avail, prev_len, prev_dist) && FoundAt(all, v, pos, prev_len, look) && len >= MIN_MATCH - 1
    requires (len > prev_len <==> look.len > prev_len) && (len > prev_len ==> look.len == len && look.dist == dist)
    ensures LazyChoosing(all, v, looks[pos := look], ts, pos, avail, prev_len, prev_dist, len, dist)
  {
    hide FoundAt, Lazy, Waiting;
    LooksMore(all, v, looks, ts, pos, look);
    if ts == [] {
      NoneWaits(looks);
      NoneWaits(looks[pos := look]);
    }
  }

  lemma {:induction false} NoneWaits(looks: map<nat, Look>)
    ensures Waiting([], looks) == MIN_MATCH - 1
  {
  }

  lemma {:induction false} LazyMatched(all: seq<nat>, v: Level, looks: map<nat, Look>, ts: seq<Token>, pos: nat, avail: bool, prev_len: nat, prev_dist: nat,
                                       len: nat, dist: nat)
    requires LazyChoosing(all, v, looks, ts, pos, avail, prev_len, prev_dist, len, dist) && MIN_MATCH <= prev_len && len <= prev_len
    ensures avail && prev_dist > 0 && pos > 0
    ensures LazyState(all, v, looks, ts + [Match(prev_dist - 1, prev_len)], pos - 1 + prev_len, false, MIN_MATCH - 1, 0)
  {
    hide FoundAt, Lazy, Waiting;
    var t := Match(prev_dist - 1, prev_len);
    LazyMore(all, v, looks, ts, t);
    SizeMore(ts, t);
  }

  lemma {:induction false} LazyLiteral(all: seq<nat>, v: Level, looks: map<nat, Look>, ts: seq<Token>, pos: nat, prev_len: nat, prev_dist: nat,
                                       len: nat, dist: nat)
    requires LazyChoosing(all, v, looks, ts, pos, true, prev_len, prev_dist, len, dist) && !(MIN_MATCH <= prev_len && len <= prev_len)
    requires 0 < pos <= |all| && prev_len >= MIN_MATCH - 1
    ensures LazyState(all, v, looks, ts + [Literal(all[pos - 1])], pos + 1, true, len, dist + 1)
  {
    hide FoundAt, Lazy, Waiting;
    var t := Literal(all[pos - 1]);
    LazyMore(all, v, looks, ts, t);
    SizeMore(ts, t);
    FoundLeast(all, v, pos, prev_len, looks[pos]);
  }

  lemma {:induction false} LazyWaits(all: seq<nat>, v: Level, looks: map<nat, Look>, ts: seq<Token>, pos: nat, prev_len: nat, prev_dist: nat,
                                     len: nat, dist: nat)
    requires LazyChoosing(all, v, looks, ts, pos, false, prev_len, prev_dist, len, dist)
    ensures LazyState(all, v, looks, ts, pos + 1, true, len, dist + 1)
  {
    hide FoundAt, Lazy, Waiting;
    FoundLeast(all, v, pos, prev_len, looks[pos]);
  }

  // At the end of the input the byte that waits is a literal.
  lemma {:induction false} LazyEnds(all: seq<nat>, v: Level, looks: map<nat, Look>, ts: seq<Token>, len: nat, dist: nat)
    requires LazyState(all, v, looks, ts, |all|, true, len, dist)
    ensures |all| > 0 && Lazy(all, v, looks, ts + [Literal(all[|all| - 1])]) && Size(ts + [Literal(all[|all| - 1])]) == |all|
  {
    hide FoundAt, Lazy, Waiting, MatchOk;
    WaitingSome(ts, looks, all, v);
    if len >= MIN_MATCH {
      FoundReal(all, v, |all| - 1, Waiting(ts, looks), looks[|all| - 1]);
    }
    var t := Literal(all[|all| - 1]);
    LazyMore(all, v, looks, ts, t);
    SizeMore(ts, t);
  }

  // The positions within matches longer than `most`, whose strings deflate_fast does not insert.
  function LeftOut(ts: seq<Token>, most: nat): (s: set<nat>)
    ensures forall q :: q in s ==> q < Size(ts)
  {
    if ts == [] then {}
    else
      var front := ts[..|ts| - 1];
      assert front + [ts[|ts| - 1]] == ts;
      LeftOut(front, most) +
      match ts[|ts| - 1]
      case Literal(_) => {}
      case Match(_, l) => if l > most then set q: nat | q < Size(ts) && Behind(q, Size(front)) else {}
  }

  // The match found, if there is one, or else a literal.
  function GreedyToken(all: seq<nat>, k: Knobs, out: set<nat>, base: nat, p: nat): Token
    requires base <= p < |all|
  {
    var r := LongestAt(all, k, out, base, p, MIN_MATCH - 1);
    if r.0 >= MIN_MATCH then Match(r.1, r.0) else Literal(all[p])
  }

  /** A match is taken wherever one is found. */
  ghost predicate GreedyChoice(all: seq<nat>, v: Level, look: Look, out: set<nat>, p: nat, t: Token) {
    && p < |all| && Placed(v, look.base, p) && (look.len, look.dist) == LongestAt(all, v.k, out, look.base, p, MIN_MATCH - 1)
    && match t
       case Literal(b) => b == all[p] && look.len < MIN_MATCH
       case Match(d, l) => l >= MIN_MATCH && l == look.len && d == look.dist
  }

  lemma {:induction false} GreedyChosen(all: seq<nat>, v: Level, out: set<nat>, base: nat, p: nat)
    requires p < |all| && Placed(v, base, p)
    ensures var r := LongestAt(all, v.k, out, base, p, MIN_MATCH - 1);
            GreedyChoice(all, v, Look(base, r.0, r.1), out, p, GreedyToken(all, v.k, out, base, p))
  {
    hide LongestAt;
  }

  lemma {:induction false} LeftOutMore(ts: seq<Token>, t: Token, most: nat)
    ensures t.Literal? ==> LeftOut(ts + [t], most) == LeftOut(ts, most)
    ensures t.Match? && t.length <= most ==> LeftOut(ts + [t], most) == LeftOut(ts, most)
    ensures t.Match? && t.length > most ==>
              forall q: nat :: q in LeftOut(ts + [t], most) <==> q in LeftOut(ts, most) || Size(ts) < q < Size(ts) + t.length
  {
    assert (ts + [t])[..|ts|] == ts;
    SizeMore(ts, t);
  }

  /** The tokens are those of deflate_fast, with what was found at each of them. */
  ghost predicate Greedy(all: seq<nat>, v: Level, looks: map<nat, Look>, ts: seq<Token>) {
    ts == [] ||
    var front := ts[..|ts| - 1];
    && Greedy(all, v, looks, front) && Size(front) in looks
    && GreedyChoice(all, v, looks[Size(front)], LeftOut(front, v.lazy), Size(front), ts[|ts| - 1])
  }

  lemma {:induction false} GreedyMore(all: seq<nat>, v: Level, looks: map<nat, Look>, ts: seq<Token>, look: Look, t: Token)
    requires Greedy(all, v, looks, ts) && Size(ts) !in looks && GreedyChoice(all, v, look, LeftOut(ts, v.lazy), Size(ts), t)
    ensures Greedy(all, v, looks[Size(ts) := look], ts + [t])
  {
    hide GreedyChoice, LeftOut;
    GreedyLooks(all, v, looks, ts, Size(ts), look);
    assert (ts + [t])[..|ts|] == ts;
  }

  lemma {:induction false} GreedyLooks(all: seq<nat>, v: Level, looks: map<nat, Look>, ts: seq<Token>, p: nat, look: Look)
    requires Greedy(all, v, looks, ts) && p !in looks
    ensures Greedy(all, v, looks[p := look], ts)
  {
    hide GreedyChoice, LeftOut;
    if ts != [] {
      GreedyLooks(all, v, looks, ts[..|ts| - 1], p, look);
    }
  }

  lemma {:induction false} GreedyLater(all: seq<nat>, all1: seq<nat>, v: Level, looks: map<nat, Look>, ts: seq<Token>)
    requires Greedy(all, v, looks, ts) && all <= all1 && Early(looks, |all|) && v.k.nice <= MAX_MATCH
    ensures Greedy(all1, v, looks, ts)
  {
    hide LongestAt, LeftOut;
    if ts != [] {
      var front := ts[..|ts| - 1];
      GreedyLater(all, all1, v, looks, front);
      LongestLater(all, all1, v.k, LeftOut(front, v.lazy), looks[Size(front)].base, Size(front), MIN_MATCH - 1);
    }
  }

  // The token of deflate_rle: the run of the byte before, if there are three bytes of it.
  function RunToken(all: seq<nat>, p: nat): Token
    requires p < |all|
  {
    if p == 0 then Literal(all[p])
    else
      var n := Shared(all, p - 1, p, 0, Min(MAX_MATCH, |all| - p));
      if n >= MIN_MATCH then Match(1, n) else Literal(all[p])
  }

  /** The tokens are those of deflate_rle: there is no choice. */
  predicate Runs(all: seq<nat>, ts: seq<Token>) {
    ts == [] ||
    var front := ts[..|ts| - 1];
    Runs(all, front) && Size(front) < |all| && ts[|ts| - 1] == RunToken(all, Size(front))
  }

  lemma {:induction false} RunsMore(all: seq<nat>, ts: seq<Token>)
    requires Runs(all, ts) && Size(ts) < |all|
    ensures Runs(all, ts + [RunToken(all, Size(ts))])
  {
    hide RunToken;
    assert (ts + [RunToken(all, Size(ts))])[..|ts|] == ts;
  }

  // The tokens are the bytes.
  predicate Plain(all: seq<nat>, ts: seq<Token>) {
    |ts| <= |all| && forall i :: 0 <= i < |ts| ==> ts[i] == Literal(all[i])
  }

  // There was enough input for the last token.
  predicate EarlyEnd(ts: seq<Token>, n: nat) {
    ts != [] ==> Size(ts[..|ts| - 1]) + MAX_MATCH <= n
  }

  lemma {:induction false} SizeGrows(ts: seq<Token>)
    requires ts != []
    ensures Size(ts[..|ts| - 1]) <= Size(ts)
  {
  }

  lemma {:induction false} RunsLater(all: seq<nat>, all1: seq<nat>, ts: seq<Token>)
    requires Runs(all, ts) && all <= all1 && EarlyEnd(ts, |all|)
    ensures Runs(all1, ts)
  {
    if ts != [] {
      var front := ts[..|ts| - 1];
      if front != [] {
        SizeGrows(front);
      }
      RunsLater(all, all1, front);
      var p := Size(front);
      if p > 0 {
        SharedLater(all, all1, p - 1, p, 0, MAX_MATCH);
      }
    }
  }
}
