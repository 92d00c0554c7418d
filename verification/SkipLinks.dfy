/** Where the links of a skip list lead, told from the heights of its nodes alone. */
module SkipLinks {
  const MAX_LEVEL: nat := 32  // SKIPLIST_MAXLEVEL

  // The first node from `q` on that takes part in level `i`, or the number of nodes.
  ghost function NextFrom(hs: seq<nat>, q: nat, i: nat): (r: nat)
    requires q <= |hs|
    ensures q <= r <= |hs| && (r < |hs| ==> hs[r] > i)
    ensures forall j :: q <= j < r ==> hs[j] <= i
    decreases |hs| - q
  {
    if q == |hs| || hs[q] > i then q else NextFrom(hs, q + 1, i)
  }

  // The node that follows node `p` in level `i`.
  ghost function Next(hs: seq<nat>, p: nat, i: nat): (r: nat)
    requires p < |hs|
    ensures p < r <= |hs| && (r < |hs| ==> hs[r] > i)
    ensures forall j :: p < j < r ==> hs[j] <= i
  {
    NextFrom(hs, p + 1, i)
  }

  lemma {:induction false} NextIs(hs: seq<nat>, p: nat, i: nat, r: nat)
    requires p < r <= |hs| && (r < |hs| ==> hs[r] > i) && forall j :: p < j < r ==> hs[j] <= i
    ensures Next(hs, p, i) == r
  {
    hide Next;
    var n := Next(hs, p, i);
  }

  // The last node up to `p` that takes part in level `i`.
  ghost function Prev(hs: seq<nat>, p: nat, i: nat): (r: nat)
    requires p < |hs| && hs[0] > i
    ensures r <= p && hs[r] > i && forall j :: r < j <= p ==> hs[j] <= i
  {
    if hs[p] > i then p else Prev(hs, p - 1, i)
  }

  lemma {:induction false} PrevIs(hs: seq<nat>, p: nat, i: nat, r: nat)
    requires r <= p < |hs| && hs[0] > i && hs[r] > i && p < Next(hs, r, i)
    ensures Prev(hs, p, i) == r
  {
    hide Next, Prev;
    var q := Prev(hs, p, i);
  }

  // The node before `p` in level `i` spans `p`.
  lemma {:induction false} PrevSpans(hs: seq<nat>, p: nat, i: nat)
    requires p < |hs| && hs[0] > i
    ensures p < Next(hs, Prev(hs, p, i), i)
  {
    hide Next, Prev;
    var r := Prev(hs, p, i);
    var n := Next(hs, r, i);
  }

  // How far the link leads: a link to nowhere counts the nodes behind its owner.
  function Reach(q: nat, count: nat): nat {
    if q < count then q else if count > 0 then count - 1 else 0
  }

  // The heights with one more node behind node `pos`.
  function Grown(hs: seq<nat>, pos: nat, lv: nat): (r: seq<nat>)
    requires pos < |hs|
    ensures |r| == |hs| + 1
  {
    hs[..pos + 1] + [lv] + hs[pos + 1..]
  }

  /** What a new node of height `lv` behind node `pos` changes. */
  lemma {:induction false} GrownNext(hs: seq<nat>, pos: nat, lv: nat, p: nat, i: nat)
    requires pos < |hs| && hs[0] > i && p < |hs| && hs[p] > i
    ensures var h := Grown(hs, pos, lv);
            && (p <= pos && Next(hs, p, i) <= pos ==> Next(h, p, i) == Next(hs, p, i))
            && (p <= pos < Next(hs, p, i) ==> p == Prev(hs, pos, i) && Next(h, p, i) == if lv > i then pos + 1 else Next(hs, p, i) + 1)
            && (p > pos ==> Next(h, p + 1, i) == Next(hs, p, i) + 1)
  {
    hide Next, Prev;
    var h := Grown(hs, pos, lv);
    var n := Next(hs, p, i);
    if p <= pos {
      if n <= pos {
        NextIs(h, p, i, n);
      } else {
        PrevIs(hs, pos, i, p);
        if lv > i {
          NextIs(h, p, i, pos + 1);
        } else {
          assert forall j :: pos + 1 < j < n + 1 ==> h[j] == hs[j - 1];
          NextIs(h, p, i, n + 1);
        }
      }
    } else {
      assert forall j :: p + 1 < j < n + 1 ==> h[j] == hs[j - 1];
      NextIs(h, p + 1, i, n + 1);
    }
  }

  /** The links of the new node. */
  lemma {:induction false} NewNext(hs: seq<nat>, pos: nat, lv: nat, i: nat)
    requires pos < |hs| && hs[0] > i && lv > i
    ensures Next(Grown(hs, pos, lv), pos + 1, i) == Next(hs, Prev(hs, pos, i), i) + 1
  {
    hide Next, Prev;
    var h := Grown(hs, pos, lv);
    PrevSpans(hs, pos, i);
    var n := Next(hs, Prev(hs, pos, i), i);
    assert forall j :: pos + 1 < j < n + 1 ==> h[j] == hs[j - 1];
    NextIs(h, pos + 1, i, n + 1);
  }

  // The heights without node `pos + 1`.
  function Shrunk(hs: seq<nat>, pos: nat): (r: seq<nat>)
    requires pos + 1 < |hs|
    ensures |r| == |hs| - 1
  {
    hs[..pos + 1] + hs[pos + 2..]
  }

  lemma {:induction false} GrowBack(hs: seq<nat>, pos: nat)
    requires pos + 1 < |hs|
    ensures Grown(Shrunk(hs, pos), pos, hs[pos + 1]) == hs
    ensures Shrunk(hs, pos)[..pos + 1] == hs[..pos + 1] && Shrunk(hs, pos)[0] == hs[0]
    ensures forall p :: 0 <= p < |hs| - 1 ==> Shrunk(hs, pos)[p] == if p <= pos then hs[p] else hs[p + 1]
  {
  }

  // Nothing changes up to `pos`.
  lemma {:induction false} SamePrev(hs: seq<nat>, h: seq<nat>, pos: nat, i: nat)
    requires pos < |hs| && pos < |h| && hs[..pos + 1] == h[..pos + 1] && hs[0] > i
    ensures h[0] > i && Prev(h, pos, i) == Prev(hs, pos, i)
  {
    assert hs[..pos + 1][0] == h[..pos + 1][0];
    assert hs[..pos + 1][pos] == h[..pos + 1][pos];
    if hs[pos] <= i {
      assert hs[..pos] == hs[..pos + 1][..pos] && h[..pos] == h[..pos + 1][..pos];
      SamePrev(hs, h, pos - 1, i);
    }
  }
}
