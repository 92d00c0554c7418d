/** What the search along a hash chain finds, in terms of the input: the chain lists just the strings that MatchSearch tries. */
module ChainSearch {
  import opened Bits
  import opened Tokens
  import opened RollingHash
  import opened HashChains
  import opened Matches
  import opened Finder
  import opened FillWindow
  import opened LongestMatch
  import opened MatchSearch

  // The parameters of the matcher.
  function KnobsOf(f: MatchFinder): Knobs
    requires f.wsize >= 512
  {
    Knobs(f.shift, f.bits, f.MaxDist(), f.good_match, f.nice_match, f.max_chain)
  }

  /** The strings inserted are those below `top` that had three bytes, but for the positions `out` of the input. */
  ghost predicate Entered(f: MatchFinder, out: set<nat>, top: nat)
    reads f
  {
    Strings(f.ins, f.base, |f.input|, out, top)
  }

  ghost predicate Strings(ins: set<nat>, base: nat, n: nat, out: set<nat>, top: nat) {
    forall i: nat :: i in ins <==> i < top && base + i + 2 < n && base + i !in out
  }

  // With more input, and wherever the window is, unless some strings were too close to its end.
  lemma {:induction false} StringsKept(base0: nat, ins0: set<nat>, n0: nat, top0: nat, base1: nat, ins1: set<nat>, n1: nat, top1: nat, out: set<nat>)
    requires Strings(ins0, base0, n0, out, top0) && SameStrings(base0, ins0, base1, ins1) && base1 + top1 == base0 + top0 && n0 <= n1
    requires n1 == n0 || base0 + top0 + 1 < n0 || base0 + top0 == 0
    ensures Strings(ins1, base1, n1, out, top1)
  {
    forall i: nat
      ensures i in ins1 <==> i < top1 && base1 + i + 2 < n1 && base1 + i !in out
    {
      var j := i + (base1 - base0);
      assert i in ins1 <==> j in ins0;
      assert base0 + j == base1 + i;
    }
  }

  // The strings within a match are left out.
  lemma {:induction false} StringsSkipped(ins: set<nat>, base: nat, n: nat, out: set<nat>, top: nat, len: nat, out1: set<nat>)
    requires Strings(ins, base, n, out, top + 1) && len > 0
    requires forall q: nat :: q in out1 <==> q in out || base + top < q < base + top + len
    ensures Strings(ins, base, n, out1, top + len)
  {
    forall i: nat
      ensures i in ins <==> i < top + len && base + i + 2 < n && base + i !in out1
    {
      assert base + i in out1 <==> base + i in out || base + top < base + i < base + top + len;
    }
  }

  // All input there is or will be; what is not in the window yet does not matter to a match.
  ghost predicate Sees(f: MatchFinder, all: seq<nat>)
    reads f
  {
    f.input <= all && (f.input == all || f.lookahead >= MIN_LOOKAHEAD)
  }

  // Between two strings of a chain there is none like them.
  lemma {:induction false} EarlierSkip(all: seq<nat>, k: Knobs, out: set<nat>, p: nat, q: nat, r: nat, low: nat)
    requires q < r && forall i :: q < i < r ==> i in out || !Alike(all, k, i, p)
    ensures Earlier(all, k, out, p, r, low) == Earlier(all, k, out, p, q + 1, low)
    decreases r
  {
    hide Alike;
    if q + 1 < r {
      EarlierSkip(all, k, out, p, q, r - 1, low);
      assert r - 1 in out || !Alike(all, k, r - 1, p);
      if r - 1 <= low {
        assert q <= low;
      }
    }
  }

  // The hash of a string does not change with more input.
  lemma {:induction false} HashLater(shift: nat, bits: nat, input: seq<nat>, all: seq<nat>, q: nat)
    requires input <= all && q + 2 < |input|
    ensures HashAt(shift, bits, all, q) == HashAt(shift, bits, input, q)
  {
    hide Hash3;
  }

  // The link `q` of the string at `cur` leads to the next one that is tried.
  lemma {:induction false} LinkEarlier(f: MatchFinder, all: seq<nat>, out: set<nat>, cur: nat, q: nat, low: nat)
    requires f.wsize >= 512 && f.input <= all && Entered(f, out, f.strstart + 1) && f.base <= low && cur <= f.strstart
    requires LinkOk(q, cur, f.shift, f.bits, f.input, f.base, f.ins) && Previous(q, cur, f.shift, f.bits, f.input, f.base, f.ins)
    requires f.base + f.strstart + 2 < |f.input| && f.base + cur + 2 < |f.input|
    requires HashAt(f.shift, f.bits, f.input, f.base + cur) == HashAt(f.shift, f.bits, f.input, f.base + f.strstart)
    ensures Earlier(all, KnobsOf(f), out, f.base + f.strstart, f.base + cur, low) ==
            if f.base + q > low then [f.base + q] + Earlier(all, KnobsOf(f), out, f.base + f.strstart, f.base + q, low) else []
  {
    hide HashAt, Earlier;
    var k, p, base := KnobsOf(f), f.base + f.strstart, f.base;
    HashLater(f.shift, f.bits, f.input, all, p);
    if q < cur {
      forall i | base + q < i < base + cur
        ensures i in out || !Alike(all, k, i, p)
      {
        HashLater(f.shift, f.bits, f.input, all, i);
        var r := i - base;
        assert i == base + r;
        assert r in f.ins <==> i !in out;
      }
      EarlierSkip(all, k, out, p, base + q, base + cur, low);
      if base + q > low {
        HashLater(f.shift, f.bits, f.input, all, base + q);
        assert q in f.ins;
        EarlierHere(all, k, out, p, base + q, low);
      } else {
        EarlierNone(all, k, out, p, base + q + 1, low);
      }
    } else {
      EarlierNone(all, k, out, p, base + cur, low);
    }
  }

  lemma {:induction false} EarlierHere(all: seq<nat>, k: Knobs, out: set<nat>, p: nat, q: nat, low: nat)
    requires q > low && q !in out && Alike(all, k, q, p)
    ensures Earlier(all, k, out, p, q + 1, low) == [q] + Earlier(all, k, out, p, q, low)
  {
    hide Alike;
  }

  lemma {:induction false} EarlierNone(all: seq<nat>, k: Knobs, out: set<nat>, p: nat, q: nat, low: nat)
    requires q <= low + 1
    ensures Earlier(all, k, out, p, q, low) == []
  {
    hide Alike;
  }

  lemma {:induction false} SharedUnique(all: seq<nat>, q: nat, p: nat, n: nat, r: nat)
    requires q < p && p + n <= |all| && r <= n
    requires (forall j :: 0 <= j < r ==> SameByte(all, q, p, j)) && (r < n ==> !SameByte(all, q, p, r))
    ensures Shared(all, q, p, 0, n) == r
  {
    hide Shared, SameByte;
    var s := Shared(all, q, p, 0, n);
  }

  // What two strings of the window share, as far as the input goes.
  lemma {:induction false} CommonShared(w: seq<nat>, input: seq<nat>, all: seq<nat>, base: nat, end: nat, a: nat, b: nat, most: nat)
    requires a < b && b + MAX_MATCH < |w| && end <= |w| && base + end == |input| && w[..end] == input[base..] && input <= all
    requires most <= MAX_MATCH && b + most <= end
    ensures Shared(all, base + a, base + b, 0, most) == MatchSearch.Min(Common(w, a, b, 0), most)
  {
    hide Common, Shared, SameByte, Same;
    var r, x, y := MatchSearch.Min(Common(w, a, b, 0), most), base + a, base + b;
    forall j | 0 <= j < r
      ensures SameByte(all, x, y, j)
    {
      SameInput(w, input, all, base, end, a, b, j);
      assert Same(w, a, b, j);
    }
    if r < most {
      SameInput(w, input, all, base, end, a, b, r);
    }
    SharedUnique(all, base + a, base + b, most, r);
  }

  lemma {:induction false} SameInput(w: seq<nat>, input: seq<nat>, all: seq<nat>, base: nat, end: nat, a: nat, b: nat, j: nat)
    requires a < b && b + j < end <= |w| && base + end == |input| && w[..end] == input[base..] && input <= all
    ensures SameByte(all, base + a, base + b, j) <==> Same(w, a, b, j)
  {
    assert w[..end][a + j] == input[base..][a + j] && w[..end][b + j] == input[base..][b + j];
    assert all[base + a + j] == input[base + a + j] && all[base + b + j] == input[base + b + j];
  }

  function First(s: seq<nat>, n: nat): (r: seq<nat>)
    ensures |r| <= |s|
  {
    s[..MatchSearch.Min(n, |s|)]
  }

  // The strings that the search tries from `cur` on.
  function TriedFrom(all: seq<nat>, k: Knobs, out: set<nat>, p: nat, c: nat, low: nat, n: nat): (s: seq<nat>)
    requires c < p && n > 0
    ensures forall i :: 0 <= i < |s| ==> s[i] < p
  {
    [c] + First(Earlier(all, k, out, p, c, low), n - 1)
  }

  lemma {:induction false} TriedNext(all: seq<nat>, k: Knobs, out: set<nat>, p: nat, c: nat, q: nat, low: nat, n: nat)
    requires q < c < p && n > 0
    requires Earlier(all, k, out, p, c, low) == if q > low then [q] + Earlier(all, k, out, p, q, low) else []
    ensures TriedFrom(all, k, out, p, c, low, n)[1..] == if q > low && n > 1 then TriedFrom(all, k, out, p, q, low, n - 1) else []
    ensures TriedFrom(all, k, out, p, c, low, n)[0] == c
  {
    hide Earlier, Alike;
  }

  // With nothing more to be gained the search is over.
  lemma {:induction false} PickNone(all: seq<nat>, p: nat, most: nat, nice: nat, cs: seq<nat>, best: nat, dist: nat)
    requires p + most <= |all| && (forall i :: 0 <= i < |cs| ==> cs[i] < p) && most <= best
    ensures Pick(all, p, most, nice, cs, best, dist) == (best, dist)
    decreases |cs|
  {
    hide Shared;
    if cs != [] {
      PickNone(all, p, most, nice, cs[1..], best, dist);
    }
  }

  lemma {:induction false} PickFirst(all: seq<nat>, p: nat, most: nat, nice: nat, cs: seq<nat>, best: nat, dist: nat)
    requires p + most <= |all| && (forall i :: 0 <= i < |cs| ==> cs[i] < p) && cs != []
    ensures var n := Shared(all, cs[0], p, 0, most);
            Pick(all, p, most, nice, cs, best, dist) ==
            if n <= best then Pick(all, p, most, nice, cs[1..], best, dist)
            else if n >= nice then (n, p - cs[0])
            else Pick(all, p, most, nice, cs[1..], n, p - cs[0])
  {
    hide Shared;
  }

  lemma {:induction false} PickEmpty(all: seq<nat>, p: nat, most: nat, nice: nat, best: nat, dist: nat)
    requires p + most <= |all|
    ensures Pick(all, p, most, nice, [], best, dist) == (best, dist)
  {
  }

  // The result `r` of the search along the chain is the result `t` of the pick, as far as the input goes.
  ghost predicate SameResult(r: (nat, nat), start: nat, t: (nat, nat), best: nat, most: nat, strstart: nat) {
    var m := MatchSearch.Min(r.0, most);
    && r.0 >= best && t.0 >= best && (r.0 == best ==> r.1 == start)
    && (m > best <==> t.0 > best) && (m > best ==> t.0 == m && t.1 + r.1 == strstart)
  }

  // One string is compared; the rest of the search goes the same way.
  lemma {:induction false} OneStep(n: nat, best: nat, nice: nat, most: nat, start: nat, cur: nat, strstart: nat, dist: nat,
                                   r: (nat, nat), r1: (nat, nat), t: (nat, nat), t1: (nat, nat), t2: (nat, nat), more: bool)
    requires nice <= most && cur < strstart
    requires r == if !(n > best && n >= nice) && more then r1 else (if n > best then n else best, if n > best then cur else start)
    requires var m := MatchSearch.Min(n, most);
             t == if m <= best then t1 else if m >= nice then (m, strstart - cur) else t2
    requires most <= best ==> t1 == (best, dist)
    requires var m := MatchSearch.Min(n, most);
             if !more then t1 == (best, dist) && t2 == (m, strstart - cur)
             else if n > best then (n < nice ==> SameResult(r1, cur, t2, n, most, strstart) && (t2.0 == n ==> t2.1 == strstart - cur))
             else SameResult(r1, start, t1, best, most, strstart)
    ensures SameResult(r, start, t, best, most, strstart)
  {
  }

  // The current string may be searched for, and what was inserted is known.
  ghost predicate Searching(f: MatchFinder, all: seq<nat>, out: set<nat>, cur: nat)
    reads f, f.window, f.prev, f.head
  {
    && Searchable(f, cur) && f.Sizes() && Entered(f, out, f.strstart + 1) && Sees(f, all)
    && cur < f.strstart && f.strstart - cur <= f.MaxDist()
  }

  // How far the search looks, in the window and in the input.
  lemma {:induction false} Reach(f: MatchFinder, all: seq<nat>, out: set<nat>, cur: nat)
    requires Searching(f, all, out, cur)
    ensures var p := f.base + f.strstart; var ahead := |all| - p;
            && 3 <= f.lookahead <= ahead && f.strstart + f.lookahead == f.end && f.wsize >= 512
            && f.strstart + MatchSearch.Min(MAX_MATCH, ahead) <= f.end && MatchSearch.Min(MAX_MATCH, ahead) == MatchSearch.Min(MAX_MATCH, f.lookahead)
            && Nice(f) == MatchSearch.Min(f.nice_match, ahead) <= MatchSearch.Min(MAX_MATCH, ahead)
    ensures f.Data() && f.strstart + MAX_MATCH < f.window.Length && f.window.Length == 2 * f.prev.Length && f.prev.Length == f.wsize
  {
    hide Chains, HashOk, Pow2, IsBytes, Entered;
  }

  lemma {:induction false} NextSearching(f: MatchFinder, all: seq<nat>, out: set<nat>, cur: nat)
    requires Searching(f, all, out, cur)
    ensures f.Sizes() && cur < 2 * f.wsize
    ensures var q := f.prev[..][Slot(cur, f.wsize)];
            && LinkOk(q, cur, f.shift, f.bits, f.input, f.base, f.ins) && Previous(q, cur, f.shift, f.bits, f.input, f.base, f.ins)
            && (q > Limit(f.strstart, f.MaxDist()) ==> q < cur && Searching(f, all, out, q))
    ensures f.base + f.strstart + 2 < |f.input| && f.base + cur + 2 < |f.input|
    ensures HashAt(f.shift, f.bits, f.input, f.base + cur) == HashAt(f.shift, f.bits, f.input, f.base + f.strstart)
  {
    hide Chains, HashAt, Pow2, HashOk, IsBytes, Entered, Previous, Sees;
    FollowLink(f.head[..], f.prev[..], f.shift, f.bits, f.input, f.base, f.ins, f.wsize, cur, f.strstart);
  }

  // What the pick comes to from the string at `cur` on.
  function PickFrom(all: seq<nat>, k: Knobs, out: set<nat>, p: nat, most: nat, nice: nat, c: nat, low: nat, n: nat, best: nat, dist: nat): (nat, nat)
    requires c < p && n > 0 && p + most <= |all|
  {
    Pick(all, p, most, nice, TriedFrom(all, k, out, p, c, low, n), best, dist)
  }

  // One string of the chain, given what the rest of it comes to.
  lemma {:induction false} PicksStep(w: seq<nat>, pv: seq<nat>, b: nat, limit: nat, nice: nat, cur: nat, chain: nat, best: nat, start: nat,
                                     all: seq<nat>, k: Knobs, out: set<nat>, base: nat, p: nat, most: nat, dist: nat, q: nat)
    requires cur < b && b + MAX_MATCH < |w| && |w| == 2 * |pv| && p == base + b && p + most <= |all| && chain > 0 && nice <= most
    requires q == pv[Slot(cur, |pv|)] && (q > limit ==> q < cur)
    requires Shared(all, base + cur, p, 0, most) == MatchSearch.Min(Common(w, cur, b, 0), most)
    requires Earlier(all, k, out, p, base + cur, base + limit) ==
             if q > limit then [base + q] + Earlier(all, k, out, p, base + q, base + limit) else []
    requires q > limit && chain > 1 ==>
               var n := Common(w, cur, b, 0);
               if n > best then SameResult(Search(w, pv, b, limit, nice, q, chain - 1, n, cur), cur,
                                           PickFrom(all, k, out, p, most, nice, base + q, base + limit, chain - 1, n, b - cur), n, most, b)
               else SameResult(Search(w, pv, b, limit, nice, q, chain - 1, best, start), start,
                               PickFrom(all, k, out, p, most, nice, base + q, base + limit, chain - 1, best, dist), best, most, b)
    ensures SameResult(Search(w, pv, b, limit, nice, cur, chain, best, start), start,
                       PickFrom(all, k, out, p, most, nice, base + cur, base + limit, chain, best, dist), best, most, b)
  {
    hide Common, Search, Pick, Shared, TriedFrom, Earlier, Alike, SameResult;
    var low, c := base + limit, base + cur;
    SearchStep(w, pv, b, limit, nice, cur, chain, best, start);
    var n, m := Common(w, cur, b, 0), MatchSearch.Min(Common(w, cur, b, 0), most);
    var cs := TriedFrom(all, k, out, p, c, low, chain);
    TriedStart(all, k, out, p, c, low, chain);
    PickFirst(all, p, most, nice, cs, best, dist);
    var more := limit < q < cur && chain > 1;
    if more {
      TriedNext(all, k, out, p, c, base + q, low, chain);
      PickBest(all, p, most, nice, cs[1..], n, p - c);
    } else {
      TriedOver(all, k, out, p, c, base + q, low, chain);
      PickEmpty(all, p, most, nice, best, dist);
      PickEmpty(all, p, most, nice, m, p - c);
    }
    if most <= best {
      PickNone(all, p, most, nice, cs[1..], best, dist);
    }
    OneStep(n, best, nice, most, start, cur, b, dist,
            Search(w, pv, b, limit, nice, cur, chain, best, start),
            if more then Search(w, pv, b, limit, nice, q, chain - 1, if n > best then n else best, if n > best then cur else start) else (0, 0),
            Pick(all, p, most, nice, cs, best, dist), Pick(all, p, most, nice, cs[1..], best, dist),
            Pick(all, p, most, nice, cs[1..], m, p - c), more);
  }

  /** The search along the chain, from `cur` on, picks the match that is picked from the strings of the input. */
  lemma {:induction false} SearchPicks(f: MatchFinder, all: seq<nat>, out: set<nat>, cur: nat, chain: nat, best: nat, start: nat, dist: nat)
    requires Searching(f, all, out, cur) && f.wsize >= 512 && chain > 0 && cur < f.strstart
    requires f.strstart + MAX_MATCH < f.window.Length && f.window.Length == 2 * f.prev.Length
    requires f.base + f.strstart + MatchSearch.Min(MAX_MATCH, f.lookahead) <= |all|
    ensures var limit := Limit(f.strstart, f.MaxDist());
            SameResult(Search(f.window[..], f.prev[..], f.strstart, limit, Nice(f), cur, chain, best, start), start,
                       PickFrom(all, KnobsOf(f), out, f.base + f.strstart, MatchSearch.Min(MAX_MATCH, f.lookahead), Nice(f),
                                f.base + cur, f.base + limit, chain, best, dist),
                       best, MatchSearch.Min(MAX_MATCH, f.lookahead), f.strstart)
    decreases chain
  {
    hide Searching, Common, Search, Shared, PickFrom, Earlier, Alike, Searchable, MatchFinder.Data, LinkOk, Previous, HashAt, Entered, SameResult, Nice,
         Limit, HashOk, Pow2;
    var w, pv, b, limit, nice := f.window[..], f.prev[..], f.strstart, Limit(f.strstart, f.MaxDist()), Nice(f);
    var k, p, most := KnobsOf(f), f.base + f.strstart, MatchSearch.Min(MAX_MATCH, f.lookahead);
    Reach(f, all, out, cur);
    NextSearching(f, all, out, cur);
    var n, q := Common(w, cur, b, 0), pv[Slot(cur, |pv|)];
    SearchingData(f, all, out, cur);
    CommonShared(w, f.input, all, f.base, f.end, cur, b, most);
    LinkEarlier(f, all, out, cur, q, f.base + limit);
    if q > limit && chain > 1 {
      if n > best {
        SearchPicks(f, all, out, q, chain - 1, n, cur, b - cur);
      } else {
        SearchPicks(f, all, out, q, chain - 1, best, start, dist);
      }
    }
    PicksStep(w, pv, b, limit, nice, cur, chain, best, start, all, k, out, f.base, p, most, dist, q);
  }

  lemma {:induction false} TriedStart(all: seq<nat>, k: Knobs, out: set<nat>, p: nat, c: nat, low: nat, n: nat)
    requires c < p && n > 0
    ensures TriedFrom(all, k, out, p, c, low, n) != [] && TriedFrom(all, k, out, p, c, low, n)[0] == c
  {
    hide Earlier, Alike;
  }

  lemma {:induction false} TriedOver(all: seq<nat>, k: Knobs, out: set<nat>, p: nat, c: nat, q: nat, low: nat, n: nat)
    requires c < p && n > 0 && (q <= low || n == 1)
    requires Earlier(all, k, out, p, c, low) == if q > low then [q] + Earlier(all, k, out, p, q, low) else []
    ensures TriedFrom(all, k, out, p, c, low, n)[1..] == []
  {
    hide Earlier, Alike;
  }

  lemma {:induction false} SearchingData(f: MatchFinder, all: seq<nat>, out: set<nat>, cur: nat)
    requires Searching(f, all, out, cur)
    ensures f.end <= f.window.Length && f.base + f.end == |f.input| && f.window[..][..f.end] == f.input[f.base..] && f.input <= all
    ensures Entered(f, out, f.strstart + 1)
  {
    hide Chains, HashOk, Pow2, IsBytes, Entered;
    assert f.window[..][..f.end] == f.window[..f.end];
  }

  /** What longest_match finds from the head of the chain on is the longest match the input has to offer. */
  lemma {:induction false} FoundIs(f: MatchFinder, all: seq<nat>, out: set<nat>, cur: nat, len: nat)
    requires Searching(f, all, out, cur) && f.Sizes() && cur < f.strstart && f.strstart + MIN_LOOKAHEAD <= 2 * f.wsize
    requires Previous(cur, f.strstart, f.shift, f.bits, f.input, f.base, f.ins) && f.base + f.strstart < |all|
    ensures SameResult(Found(f, cur, len), f.match_start, LongestAt(all, KnobsOf(f), out, f.base, f.base + f.strstart, len), len,
                       MatchSearch.Min(MAX_MATCH, f.lookahead), f.strstart)
  {
    hide Searching, Search, Pick, TriedFrom, Earlier, Alike, Searchable, MatchFinder.Data, LinkOk, Previous, HashAt, Entered, SameResult, Nice,
         Limit, HashOk, Pow2;
    var k, p := KnobsOf(f), f.base + f.strstart;
    Reach(f, all, out, cur);
    HeadSearching(f, all, out, cur);
    LinkEarlier(f, all, out, f.strstart, cur, f.base);
    LowestIs(f, all, out, cur);
    SearchPicks(f, all, out, cur, Chain(f, len), len, f.match_start, 0);
    assert Tried(all, k, out, f.base, p, Tries(k, len)) ==
           TriedFrom(all, k, out, p, f.base + cur, f.base + Limit(f.strstart, f.MaxDist()), Chain(f, len)) by {
      TriedIs(all, k, out, f.base, p, f.base + cur, Tries(k, len));
    }
  }

  lemma {:induction false} HeadSearching(f: MatchFinder, all: seq<nat>, out: set<nat>, cur: nat)
    requires Searching(f, all, out, cur)
    ensures LinkOk(cur, f.strstart, f.shift, f.bits, f.input, f.base, f.ins) && cur != 0 && cur < f.strstart
    ensures f.base + f.strstart + 2 < |f.input| && f.input <= all && Entered(f, out, f.strstart + 1)
    ensures f.strstart - cur <= f.wsize - MIN_LOOKAHEAD && f.wsize >= 512 && f.max_chain >= 4
  {
    hide Chains, HashOk, Pow2, IsBytes, Entered, HashAt;
  }

  lemma {:induction false} LowestIs(f: MatchFinder, all: seq<nat>, out: set<nat>, cur: nat)
    requires f.wsize >= 512
    ensures Lowest(KnobsOf(f), f.base, f.base + f.strstart) == f.base + Limit(f.strstart, f.MaxDist())
    ensures forall len: nat :: f.max_chain >= 4 ==> Tries(KnobsOf(f), len) == Chain(f, len) > 0
  {
  }

  lemma {:induction false} TriedIs(all: seq<nat>, k: Knobs, out: set<nat>, base: nat, p: nat, c: nat, n: nat)
    requires base < c < p && p - c <= k.maxDist && n > 0 && Earlier(all, k, out, p, p, base) == [c] + Earlier(all, k, out, p, c, base)
    ensures Tried(all, k, out, base, p, n) == TriedFrom(all, k, out, p, c, Lowest(k, base, p), n)
  {
    hide Earlier, Alike;
  }

  /** Where there is no string to start from, or it is too far off, the input has nothing to offer either. */
  lemma {:induction false} NoneFound(f: MatchFinder, all: seq<nat>, out: set<nat>, q: nat, len: nat)
    requires f.wsize >= 512 && Entered(f, out, f.strstart + 1) && Sees(f, all) && f.base + f.strstart < |all|
    requires f.base + f.strstart + f.lookahead == |f.input|
    requires f.lookahead >= MIN_MATCH ==>
               && LinkOk(q, f.strstart, f.shift, f.bits, f.input, f.base, f.ins) && Previous(q, f.strstart, f.shift, f.bits, f.input, f.base, f.ins)
               && (q == 0 || f.strstart - q > f.MaxDist())
    ensures LongestAt(all, KnobsOf(f), out, f.base, f.base + f.strstart, len) == (len, 0)
  {
    hide Earlier, Alike, LinkOk, Previous, HashAt, Entered, Pick;
    var k, p := KnobsOf(f), f.base + f.strstart;
    if |all| - p >= MIN_MATCH {
      LinkEarlier(f, all, out, f.strstart, q, f.base);
      assert Tried(all, k, out, f.base, p, Tries(k, len)) == [];
      var ahead := |all| - p;
      PickEmpty(all, p, MatchSearch.Min(MAX_MATCH, ahead), MatchSearch.Min(k.nice, ahead), len, 0);
    }
  }

  // Too close to the end to be inserted.
  lemma {:induction false} EnteredPast(f: MatchFinder, out: set<nat>, top: nat)
    requires Entered(f, out, top) && f.base + top + 2 >= |f.input|
    ensures Entered(f, out, top + 1)
  {
  }

  // A string is inserted, or too close to the end to be.
  lemma {:induction false} EnteredNext(f: MatchFinder, out: set<nat>, top: nat, ins: set<nat>)
    requires f.base + top !in out && (forall i: nat :: i in ins <==> i < top && f.base + i + 2 < |f.input| && f.base + i !in out)
    requires f.ins == if f.base + top + 2 < |f.input| then ins + {top} else ins
    ensures Entered(f, out, top + 1)
  {
  }

  // The length and start found are those of `r`, if that is longer than `best`.
  ghost predicate Answer(f: MatchFinder, r: (nat, nat), len: nat, best: nat)
    reads f
  {
    (len > best <==> r.0 > best) && (len > best ==> r.0 == len && f.match_start + r.1 == f.strstart)
  }

  lemma {:induction false} FromFound(f: MatchFinder, r: (nat, nat), start: nat, t: (nat, nat), best: nat, len: nat)
    requires SameResult(r, start, t, best, MatchSearch.Min(MAX_MATCH, f.lookahead), f.strstart)
    requires len == (if r.0 <= f.lookahead then r.0 else f.lookahead) && len <= MAX_MATCH && f.match_start == r.1
    ensures Answer(f, t, len, best)
  {
  }

  /** The matcher looks for a match of the current string: it finds what the input has to offer. */
  method FindLongest(f: MatchFinder, hash_head: nat, prev_length: nat, ghost all: seq<nat>, ghost out: set<nat>) returns (len: nat)
    requires Searchable(f, hash_head) && f.Sizes() && hash_head < f.strstart && f.strstart - hash_head <= f.MaxDist() && 2 <= prev_length <= MAX_MATCH
    requires Entered(f, out, f.strstart + 1) && Sees(f, all) && f.base + f.strstart < |all|
    requires Previous(hash_head, f.strstart, f.shift, f.bits, f.input, f.base, f.ins)
    modifies f`match_start
    ensures len > prev_length ==>
              f.match_start < f.strstart && f.strstart - f.match_start <= f.MaxDist() && len <= MAX_MATCH &&
              MatchOk(f.input, f.base + f.strstart, f.strstart - f.match_start, len)
    ensures f.match_start == old(f.match_start) || f.match_start < f.strstart
    ensures len <= f.lookahead && len <= MAX_MATCH && (prev_length <= len || len == f.lookahead)
    ensures Answer(f, LongestAt(all, KnobsOf(f), out, f.base, f.base + f.strstart, prev_length), len, prev_length)
  {
    hide Searchable, LongestMatch.Found, MatchFinder.Data, MatchOk, HashOk, Pow2, LongestAt, Previous, SameResult, Entered;
    SearchSize(f, hash_head);
    ghost var r, start := LongestMatch.Found(f, hash_head, prev_length), f.match_start;
    ghost var t := LongestAt(all, KnobsOf(f), out, f.base, f.base + f.strstart, prev_length);
    FoundIs(f, all, out, hash_head, prev_length);
    len := LongestMatch.LongestMatch(f, hash_head, prev_length);
    FromFound(f, r, start, t, prev_length, len);
  }

  lemma {:induction false} SearchSize(f: MatchFinder, cur: nat)
    requires Searchable(f, cur)
    ensures f.strstart + MIN_LOOKAHEAD <= 2 * f.wsize
  {
    hide Chains, HashOk, Pow2, IsBytes;
  }
}
