/** The order in which canonical codes are handed out, and the tiling of the code space. */
module CodeOrder {
  import opened Bits
  import opened Canonical

  // The symbols with a code of length `l`, in increasing order.
  function SymsOfLen(lens: seq<nat>, l: nat): (w: seq<nat>)
    ensures |w| == Count(lens, l)
  {
    if lens == [] then []
    else
      var t := |lens| - 1;
      SymsOfLen(lens[..t], l) + (if lens[t] == l then [t] else [])
  }

  // The symbols with a code of at most `m` bits, by length and then by symbol.
  function SymsUpTo(lens: seq<nat>, m: nat): seq<nat> {
    if m == 0 then [] else SymsUpTo(lens, m - 1) + SymsOfLen(lens, m)
  }

  function SortedSyms(lens: seq<nat>): seq<nat> {
    SymsUpTo(lens, MAX_BITS)
  }

  // `w` lists used symbols of `lens` with codes of at most `m` bits, in code order, leaving none out.
  ghost predicate Lists(lens: seq<nat>, m: nat, w: seq<nat>) {
    && (forall k :: 0 <= k < |w| ==> w[k] < |lens| && 0 < lens[w[k]] <= m)
    && (forall j, k :: 0 <= j < k < |w| ==> Precedes(lens[w[j]], w[j], lens[w[k]], w[k]))
    && (forall t :: 0 <= t < |lens| && 0 < lens[t] <= m ==> t in w)
  }

  // `w` lists symbols with a code of length `l` in increasing order.
  ghost predicate Ascending(lens: seq<nat>, l: nat, w: seq<nat>) {
    && (forall k :: 0 <= k < |w| ==> w[k] < |lens| && lens[w[k]] == l)
    && (forall j, k :: 0 <= j < k < |w| ==> w[j] < w[k])
  }

  lemma {:induction false} SymsOfLenSound(lens: seq<nat>, l: nat)
    ensures Ascending(lens, l, SymsOfLen(lens, l))
  {
    if lens != [] {
      var n := |lens| - 1;
      SymsOfLenSound(lens[..n], l);
      var v := SymsOfLen(lens[..n], l);
      assert forall k :: 0 <= k < |v| ==> v[k] < n && lens[v[k]] == l;
    }
  }

  lemma {:induction false} SymsOfLenAll(lens: seq<nat>, l: nat, t: nat)
    requires t < |lens| && lens[t] == l
    ensures t in SymsOfLen(lens, l)
  {
    var n := |lens| - 1;
    if t < n {
      SymsOfLenAll(lens[..n], l, t);
    }
  }

  lemma {:induction false} ListsAppend(lens: seq<nat>, m: nat, v: seq<nat>, w: seq<nat>)
    requires m > 0 && Lists(lens, m - 1, v) && Ascending(lens, m, w)
    requires forall t :: 0 <= t < |lens| && lens[t] == m ==> t in w
    ensures Lists(lens, m, v + w)
  {
    var u := v + w;
    forall j, k | 0 <= j < k < |u|
      ensures Precedes(lens[u[j]], u[j], lens[u[k]], u[k])
    {
      if k < |v| {
        assert u[j] == v[j] && u[k] == v[k];
      } else if j < |v| {
        assert u[j] == v[j] && u[k] == w[k - |v|];
      } else {
        assert u[j] == w[j - |v|] && u[k] == w[k - |v|];
      }
    }
  }

  lemma {:induction false} SymsUpToLists(lens: seq<nat>, m: nat)
    ensures Lists(lens, m, SymsUpTo(lens, m))
  {
    if m > 0 {
      SymsUpToLists(lens, m - 1);
      SymsOfLenSound(lens, m);
      forall t | 0 <= t < |lens| && lens[t] == m
        ensures t in SymsOfLen(lens, m)
      {
        SymsOfLenAll(lens, m, t);
      }
      ListsAppend(lens, m, SymsUpTo(lens, m - 1), SymsOfLen(lens, m));
    }
  }

  lemma {:induction false} ListsInjective(lens: seq<nat>, m: nat, w: seq<nat>, j: nat, k: nat)
    requires Lists(lens, m, w) && j < |w| && k < |w|
    ensures w[j] == w[k] <==> j == k
    ensures Precedes(lens[w[j]], w[j], lens[w[k]], w[k]) <==> j < k
  {
    if j < k {
      assert Precedes(lens[w[j]], w[j], lens[w[k]], w[k]);
    } else if k < j {
      assert Precedes(lens[w[k]], w[k], lens[w[j]], w[j]);
    }
  }

  lemma {:induction false} SymsUpToPrefix(lens: seq<nat>, a: nat, b: nat)
    requires a <= b
    ensures SymsUpTo(lens, a) <= SymsUpTo(lens, b)
  {
    if a < b {
      SymsUpToPrefix(lens, a, b - 1);
    }
  }

  lemma {:induction false} ListedLen(lens: seq<nat>, m: nat, k: nat)
    requires m <= MAX_BITS && k < |SortedSyms(lens)|
    ensures SortedSyms(lens)[k] < |lens|
    ensures k < |SymsUpTo(lens, m)| <==> lens[SortedSyms(lens)[k]] <= m
  {
    var w, v := SortedSyms(lens), SymsUpTo(lens, m);
    SymsUpToPrefix(lens, m, MAX_BITS);
    SymsUpToLists(lens, m);
    SymsUpToLists(lens, MAX_BITS);
    if k < |v| {
      assert w[k] == v[k];
    }
    if lens[w[k]] <= m {
      assert w[k] in v;
      var j :| 0 <= j < |v| && v[j] == w[k];
      ListsInjective(lens, MAX_BITS, w, j, k);
    }
  }

  // The symbols of length `l` stand together in the list.
  lemma {:induction false} LengthSegment(lens: seq<nat>, l: nat, k: nat)
    requires 0 < l <= MAX_BITS && k < |SortedSyms(lens)|
    ensures SortedSyms(lens)[k] < |lens|
    ensures lens[SortedSyms(lens)[k]] == l <==> |SymsUpTo(lens, l - 1)| <= k < |SymsUpTo(lens, l)|
  {
    ListedLen(lens, l, k);
    ListedLen(lens, l - 1, k);
  }

  lemma {:induction false} BeforeNext(lens: seq<nat>, l1: nat, n1: nat, l2: nat, n2: nat)
    requires LensOk(lens) && Precedes(l1, n1, l2, n2) && 0 < l1 <= MAX_BITS
    requires n1 < |lens| ==> lens[n1] == l1
    requires forall t :: 0 <= t < |lens| && t != n1 && lens[t] > 0 && Precedes(lens[t], t, l2, n2) ==>
               Precedes(lens[t], t, l1, n1)
    ensures Before(lens, l2, n2) == Before(lens, l1, n1) + (if n1 < |lens| then Width(l1) else 0)
  {
    if lens != [] {
      var t := |lens| - 1;
      assert forall i :: 0 <= i < t ==> lens[..t][i] == lens[i];
      BeforeNext(lens[..t], l1, n1, l2, n2);
      assert t != n1 && lens[t] > 0 && Precedes(lens[t], t, l2, n2) ==> Precedes(lens[t], t, l1, n1);
    }
  }

  // Each code starts where the one before it ends.
  lemma {:induction false} PosNext(lens: seq<nat>, k: nat)
    requires LensOk(lens) && k + 1 < |SortedSyms(lens)|
    ensures var w := SortedSyms(lens);
            && w[k] < |lens| && w[k + 1] < |lens|
            && lens[w[k]] <= lens[w[k + 1]]
            && Pos(lens, w[k + 1]) == Pos(lens, w[k]) + Width(lens[w[k]])
  {
    SymsUpToLists(lens, MAX_BITS);
    var w := SortedSyms(lens);
    var a, b := w[k], w[k + 1];
    assert Precedes(lens[a], a, lens[b], b);
    forall t | 0 <= t < |lens| && t != a && lens[t] > 0 && Precedes(lens[t], t, lens[b], b)
      ensures Precedes(lens[t], t, lens[a], a)
    {
      assert t in w;
      var i :| 0 <= i < |w| && w[i] == t;
      if i > k + 1 {
        assert Precedes(lens[w[k + 1]], w[k + 1], lens[w[i]], w[i]);
      }
    }
    BeforeNext(lens, lens[a], a, lens[b], b);
  }

  lemma {:induction false} BeforeNone(lens: seq<nat>, l: nat, n: nat)
    requires LensOk(lens)
    requires forall t :: 0 <= t < |lens| && lens[t] > 0 ==> !Precedes(lens[t], t, l, n)
    ensures Before(lens, l, n) == 0
  {
    if lens != [] {
      var t := |lens| - 1;
      assert forall i :: 0 <= i < t ==> lens[..t][i] == lens[i];
      BeforeNone(lens[..t], l, n);
    }
  }

  lemma {:induction false} PosFirst(lens: seq<nat>)
    requires LensOk(lens) && SortedSyms(lens) != []
    ensures var w := SortedSyms(lens); w[0] < |lens| && Pos(lens, w[0]) == 0
  {
    SymsUpToLists(lens, MAX_BITS);
    var w := SortedSyms(lens);
    forall t | 0 <= t < |lens| && lens[t] > 0
      ensures !Precedes(lens[t], t, lens[w[0]], w[0])
    {
      assert t in w;
      var i :| 0 <= i < |w| && w[i] == t;
      if i > 0 {
        assert Precedes(lens[w[0]], w[0], lens[w[i]], w[i]);
      }
    }
    BeforeNone(lens, lens[w[0]], w[0]);
  }

  lemma {:induction false} PosLast(lens: seq<nat>)
    requires LensOk(lens) && SortedSyms(lens) != []
    ensures var w := SortedSyms(lens); var s := w[|w| - 1];
            s < |lens| && Pos(lens, s) + Width(lens[s]) == Kraft(lens)
  {
    SymsUpToLists(lens, MAX_BITS);
    var w := SortedSyms(lens);
    var s := w[|w| - 1];
    forall t | 0 <= t < |lens| && t != s && lens[t] > 0 && Precedes(lens[t], t, MAX_BITS + 1, 0)
      ensures Precedes(lens[t], t, lens[s], s)
    {
      assert t in w;
      var i :| 0 <= i < |w| && w[i] == t;
    }
    BeforeNext(lens, lens[s], s, MAX_BITS + 1, 0);
    BeforeAll(lens);
  }

  lemma {:induction false} KraftZero(lens: seq<nat>)
    requires LensOk(lens) && SortedSyms(lens) == []
    ensures Kraft(lens) == 0
  {
    SymsUpToLists(lens, MAX_BITS);
    KraftOfUnused(lens);
  }

  lemma {:induction false} KraftOfUnused(lens: seq<nat>)
    requires LensOk(lens)
    requires forall i :: 0 <= i < |lens| ==> lens[i] == 0
    ensures Kraft(lens) == 0
  {
    if lens != [] {
      KraftOfUnused(lens[..|lens| - 1]);
    }
  }

  // The intervals tile the code space up to Kraft(lens): every number below it lies in one.
  lemma {:induction false} Tiling(lens: seq<nat>, x: nat, k: nat) returns (s: nat)
    requires LensOk(lens) && x < Kraft(lens)
    requires k < |SortedSyms(lens)| && SortedSyms(lens)[k] < |lens|
    requires Pos(lens, SortedSyms(lens)[k]) <= x
    ensures s < |lens| && lens[s] > 0
    ensures Pos(lens, s) <= x < Pos(lens, s) + Width(lens[s])
    decreases |SortedSyms(lens)| - k
  {
    var w := SortedSyms(lens);
    SymsUpToLists(lens, MAX_BITS);
    s := w[k];
    if Pos(lens, s) + Width(lens[s]) <= x {
      if k + 1 < |w| {
        PosNext(lens, k);
        s := Tiling(lens, x, k + 1);
      } else {
        PosLast(lens);
      }
    }
  }

  // In a complete code every 15-bit string starts with the code of a symbol.
  lemma {:induction false} SomeCode(lens: seq<nat>, b: seq<bool>) returns (s: nat)
    requires Complete(lens) && |b| == MAX_BITS
    ensures s < |lens| && lens[s] > 0 && CodeBits(lens, s) <= b
  {
    if SortedSyms(lens) == [] {
      KraftZero(lens);
    }
    PosFirst(lens);
    s := Tiling(lens, MsbNum(b), 0);
    PrefixIffInterval(lens, s, b);
  }
}
