/** The circular window of inflate (updatewindow and inflateGetDictionary in inflate.c). */
module Window {
  import opened Tokens

  // The last `n` elements.
  function LastN(s: seq<nat>, n: nat): (r: seq<nat>)
    requires n <= |s|
    ensures |r| == n
  {
    s[|s| - n..]
  }

  function Min(a: nat, b: nat): nat {
    if a < b then a else b
  }

  // Reading the window from `next` round, as far as it has been filled.
  function Latest(data: seq<nat>, next: nat, have: nat): (r: seq<nat>)
    requires next <= |data| && have <= |data|
    ensures |r| == have
  {
    if have == |data| then data[next..] + data[..next] else data[..have]
  }

  /** The window holds the end of the history: as much of it as there is and fits. */
  ghost predicate Recent(data: seq<nat>, wsize: nat, next: nat, have: nat, hist: seq<nat>) {
    if wsize == 0 then hist == []
    else
      && wsize == |data| && next < wsize && have == Min(wsize, |hist|)
      && (have < wsize ==> next == have)
      && Latest(data, next, have) == LastN(hist, have)
  }

  function Replaced(data: seq<nat>, at: nat, s: seq<nat>): (r: seq<nat>)
    requires at + |s| <= |data|
    ensures |r| == |data|
  {
    data[..at] + s + data[at + |s|..]
  }

  lemma {:induction false} LastOfSum(h: seq<nat>, s: seq<nat>, n: nat)
    requires |s| <= n <= |h| + |s|
    ensures LastN(h + s, n) == LastN(h, n - |s|) + s
  {
  }

  lemma {:induction false} LastOfLast(h: seq<nat>, n: nat, m: nat)
    requires m <= n <= |h|
    ensures LastN(LastN(h, n), m) == LastN(h, m)
  {
  }

  // More than the window holds is written: only its end is kept.
  lemma {:induction false} UpdateAll(data: seq<nat>, hist: seq<nat>, s: seq<nat>)
    requires 0 < |data| <= |s|
    ensures Recent(LastN(s, |data|), |data|, 0, |data|, hist + s)
  {
    var d := LastN(s, |data|);
    assert d[0..] + d[..0] == d;
    assert LastN(hist + s, |data|) == d;
  }

  // What is written fits before the end of the window.
  lemma {:induction false} UpdateWithin(data: seq<nat>, next: nat, have: nat, hist: seq<nat>, s: seq<nat>)
    requires 0 < |data| && Recent(data, |data|, next, have, hist) && next + |s| <= |data|
    ensures Recent(Replaced(data, next, s), |data|, if next + |s| == |data| then 0 else next + |s|,
                   if have < |data| then have + |s| else have, hist + s)
  {
    var n, w := |s|, |data|;
    var d := Replaced(data, next, s);
    var have1 := if have < w then have + n else have;
    LastOfSum(hist, s, have1);
    LastOfLast(hist, have, have1 - n);
    var ring := Latest(data, next, have);
    if have < w {
      assert d[..next + n] == data[..next] + s;
      assert ring[have - (have1 - n)..] == ring;
    } else {
      assert LastN(ring, have1 - n) == ring[n..];
      assert d[next + n..] + d[..next + n] == ring[n..] + s;
    }
    if next + n == w {
      assert d[0..] + d[..0] == d == d[..next + n];
      assert d[next + n..] == [];
    }
  }

  // The window after `s` has gone round its end: what was overwritten comes last.
  lemma {:induction false} ReplacedEnds(data: seq<nat>, at: nat, s: seq<nat>)
    requires at + |s| <= |data|
    ensures at == 0 ==> Replaced(data, at, s) == s + data[|s|..]
    ensures at + |s| == |data| ==> Replaced(data, at, s) == data[..at] + s
  {
  }

  // The end of what was written last, and its start.
  lemma {:induction false} AfterWrap(data: seq<nat>, next: nat, s: seq<nat>, d: nat)
    requires next + d == |data| && d <= |s| < |data|
    ensures var mid := data[..next] + s[..d];
            |mid| == |data| && (s[d..] + mid[|s| - d..])[|s| - d..] == data[|s| - d..next] + s[..d]
  {
  }

  lemma {:induction false} RoundShape(data: seq<nat>, next: nat, s: seq<nat>)
    requires next <= |data| && |data| - next <= |s| < |data|
    ensures var d := |data| - next;
            Latest(Replaced(Replaced(data, next, s[..d]), 0, s[d..]), |s| - d, |data|) == data[|s| - d..next] + s
  {
    hide Replaced;
    var d, n := |data| - next, |s|;
    ReplacedEnds(data, next, s[..d]);
    var mid := data[..next] + s[..d];
    ReplacedEnds(mid, 0, s[d..]);
    AfterWrap(data, next, s, d);
    var after := s[d..] + mid[n - d..];
    assert after[..n - d] == s[d..];
    assert data[n - d..next] + s[..d] + s[d..] == data[n - d..next] + s;
  }

  lemma {:induction false} LatestTail(data: seq<nat>, next: nat, have: nat, n: nat)
    requires next < |data| && have <= |data| && (have < |data| ==> next == have)
    requires n <= |data| < next + n
    ensures |data| - n <= have && LastN(Latest(data, next, have), |data| - n) == data[n - (|data| - next)..next]
  {
  }

  // What is written runs over the end of the window and goes on at its start.
  lemma {:induction false} UpdateRound(data: seq<nat>, next: nat, have: nat, hist: seq<nat>, s: seq<nat>)
    requires 0 < |data| && Recent(data, |data|, next, have, hist) && |s| < |data| < next + |s|
    ensures var d := |data| - next;
            Recent(Replaced(Replaced(data, next, s[..d]), 0, s[d..]), |data|, |s| - d, |data|, hist + s)
  {
    hide Latest, LastN, Replaced;
    var w, n := |data|, |s|;
    RoundShape(data, next, s);
    LatestTail(data, next, have, n);
    LastOfSum(hist, s, w);
    LastOfLast(hist, have, w - n);
  }

  method CopyBytes(dst: array<nat>, at: nat, src: array<nat>, from: nat, n: nat)
    requires dst != src && at + n <= dst.Length && from + n <= src.Length
    modifies dst
    ensures dst[..] == Replaced(old(dst[..]), at, src[from..from + n])
  {
    var i: nat := 0;
    while i < n
      invariant i <= n
      invariant forall j :: 0 <= j < dst.Length ==> dst[j] == if at <= j < at + i then src[from + (j - at)] else old(dst[j])
    {
      dst[at + i] := src[from + i];
      i := i + 1;
    }
  }

  class SlidingWindow {
    const data: array<nat>
    var wsize: nat       // zero while the window is not in use
    var wnext: nat
    var whave: nat

    constructor ()
      ensures fresh(data) && data.Length == WINDOW && Holds([])
    {
      data := new nat[WINDOW](_ => 0);
      wsize, wnext, whave := 0, 0, 0;
    }

    // The window holds the end of `hist`.
    ghost predicate Holds(hist: seq<nat>)
      reads this, data
    {
      data.Length == WINDOW && Recent(data[..], wsize, wnext, whave, hist) && (wsize == 0 ==> whave == wnext == 0)
    }

    /** Add the last `copy` bytes written before `end` to the window. */
    method UpdateWindow(out: array<nat>, end: nat, copy: nat, ghost hist: seq<nat>)
      requires Holds(hist) && out != data && copy <= end <= out.Length
      modifies this, data
      ensures Holds(hist + out[end - copy..end]) && wsize == WINDOW
    {
      hide Recent, Replaced, LastN;
      ghost var s := out[end - copy..end];
      if wsize == 0 {
        NotInUse(data[..], wnext, whave, hist);
        wsize, wnext, whave := data.Length, 0, 0;
      }
      ghost var d0 := data[..];
      RecentNext(d0, wsize, wnext, whave, hist);
      if copy >= wsize {
        UpdateAll(d0, hist, s);
        CopyBytes(data, 0, out, end - wsize, wsize);
        AllReplaced(d0, s, out[end - wsize..end]);
        wnext, whave := 0, wsize;
      } else {
        var dist, left := wsize - wnext, copy;
        if dist > copy {
          dist := copy;
        }
        CopyBytes(data, wnext, out, end - copy, dist);
        assert out[end - copy..end - copy + dist] == s[..dist];
        left := left - dist;
        if left > 0 {
          UpdateRound(d0, wnext, whave, hist, s);
          CopyBytes(data, 0, out, end - left, left);
          assert out[end - left..end - left + left] == s[dist..];
          wnext, whave := left, wsize;
        } else {
          assert s[..dist] == s;
          UpdateWithin(d0, wnext, whave, hist, s);
          wnext := wnext + dist;
          if wnext == wsize {
            wnext := 0;
          }
          if whave < wsize {
            whave := whave + dist;
          }
        }
      }
    }

    /** inflateGetDictionary: the window in the order of the history. */
    method GetDictionary(dictionary: array<nat>, ghost hist: seq<nat>) returns (length: nat)
      requires Holds(hist) && dictionary != data && whave <= dictionary.Length
      modifies dictionary
      ensures length == Min(WINDOW, |hist|) && dictionary[..length] == LastN(hist, length)
    {
      hide LastN;
      length := whave;
      if whave > 0 {
        CopyBytes(dictionary, 0, data, wnext, whave - wnext);
        ghost var d1 := dictionary[..];
        CopyBytes(dictionary, whave - wnext, data, 0, wnext);
        DictionaryIs(d1, dictionary[..], data[..], wnext, whave);
      }
    }
  }

  lemma {:induction false} NotInUse(data: seq<nat>, next: nat, have: nat, hist: seq<nat>)
    requires Recent(data, 0, next, have, hist) && |data| > 0
    ensures hist == [] && Recent(data, |data|, 0, 0, [])
  {
  }

  lemma {:induction false} RecentNext(data: seq<nat>, wsize: nat, next: nat, have: nat, hist: seq<nat>)
    requires Recent(data, wsize, next, have, hist) && wsize > 0
    ensures wsize == |data| && next < wsize
  {
  }

  lemma {:induction false} AllReplaced(data: seq<nat>, s: seq<nat>, t: seq<nat>)
    requires |t| == |data| <= |s| && t == s[|s| - |data|..]
    ensures Replaced(data, 0, t) == LastN(s, |data|)
  {
  }

  lemma {:induction false} DictionaryIs(d1: seq<nat>, d2: seq<nat>, data: seq<nat>, next: nat, have: nat)
    requires next <= have <= |data| && have <= |d1| && have > 0
    requires d1[..have - next] == data[next..have] && d2 == Replaced(d1, have - next, data[..next])
    requires have < |data| ==> next == have
    ensures d2[..have] == Latest(data, next, have)
  {
  }
}
