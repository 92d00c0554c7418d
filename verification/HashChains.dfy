/** The hash chains of deflate: the strings found on a chain are those that were inserted with the hash of the
current one, none left out, however often the window has slid. */
module HashChains {
  import opened Bits
  import opened RollingHash

  // pos & w_mask, for a position of the window, which is twice as long as the mask
  function Slot(p: nat, wsize: nat): (r: nat)
    requires p < 2 * wsize
    ensures r < wsize
  {
    if p < wsize then p else p - wsize
  }

  // The hash of the string at `a` of the input.
  function HashAt(shift: nat, bits: nat, input: seq<nat>, a: nat): nat
    requires a + 2 < |input|
  {
    Hash3(shift, bits, input[a], input[a + 1], input[a + 2])
  }

  /** `ins` are the inserted positions of the window that starts at `base` of the input.  Heads and
      links lead to inserted strings of the same hash, and to the newest of them; the link of a position is kept
      until the position `wsize` above it is inserted. */
  ghost predicate Chains(head: seq<nat>, prev: seq<nat>, shift: nat, bits: nat, input: seq<nat>, base: nat, ins: set<nat>, wsize: nat) {
    && wsize > 0 && |prev| == wsize && |head| == Pow2(bits)
    && (forall p :: p in ins ==> p < 2 * wsize && base + p + 2 < |input|)
    && (forall h :: 0 <= h < |head| ==> HeadOk(head[h], h, shift, bits, input, base, ins))
    && (forall p :: p in ins ==> p + wsize in ins || LinkOk(prev[Slot(p, wsize)], p, shift, bits, input, base, ins))
    && Unbroken(head, prev, shift, bits, input, base, ins, wsize)
  }

  // No inserted string is passed over.
  ghost predicate Unbroken(head: seq<nat>, prev: seq<nat>, shift: nat, bits: nat, input: seq<nat>, base: nat, ins: set<nat>, wsize: nat) {
    && wsize > 0 && |prev| == wsize && (forall p :: p in ins ==> p < 2 * wsize)
    && (forall h :: 0 <= h < |head| ==> Newest(head[h], h, shift, bits, input, base, ins))
    && (forall p :: p in ins ==> p + wsize in ins || Previous(prev[Slot(p, wsize)], p, shift, bits, input, base, ins))
  }

  // No string inserted with this hash is newer than `q`.
  ghost predicate Newest(q: nat, h: nat, shift: nat, bits: nat, input: seq<nat>, base: nat, ins: set<nat>) {
    forall r :: r in ins && base + r + 2 < |input| && HashAt(shift, bits, input, base + r) == h ==> r <= q
  }

  // No string inserted with the hash of the one at `p` lies between `q` and it.
  ghost predicate Previous(q: nat, p: nat, shift: nat, bits: nat, input: seq<nat>, base: nat, ins: set<nat>) {
    && base + p + 2 < |input|
    && forall r :: r in ins && r < p && base + r + 2 < |input| ==>
         HashAt(shift, bits, input, base + r) == HashAt(shift, bits, input, base + p) ==> r <= q
  }

  ghost predicate HeadOk(q: nat, h: nat, shift: nat, bits: nat, input: seq<nat>, base: nat, ins: set<nat>) {
    q == 0 || (q in ins && base + q + 2 < |input| && HashAt(shift, bits, input, base + q) == h)
  }

  ghost predicate LinkOk(q: nat, p: nat, shift: nat, bits: nat, input: seq<nat>, base: nat, ins: set<nat>) {
    q == 0 || (q in ins && q < p && base + p + 2 < |input| && base + q + 2 < |input| &&
               HashAt(shift, bits, input, base + q) == HashAt(shift, bits, input, base + p))
  }

  lemma {:induction false} InsertUnbroken(head: seq<nat>, prev: seq<nat>, shift: nat, bits: nat, input: seq<nat>, base: nat,
                                          ins: set<nat>, wsize: nat, str: nat, h: nat)
    requires Unbroken(head, prev, shift, bits, input, base, ins, wsize) && str < 2 * wsize && base + str + 2 < |input| && h < |head|
    requires h == HashAt(shift, bits, input, base + str) && forall p :: p in ins ==> p < str
    ensures Previous(head[h], str, shift, bits, input, base, ins + {str})
    ensures Unbroken(head[h := str], prev[Slot(str, wsize) := head[h]], shift, bits, input, base, ins + {str}, wsize)
  {
    hide HashAt;
    var head1, prev1, ins1 := head[h := str], prev[Slot(str, wsize) := head[h]], ins + {str};
    assert Newest(head[h], h, shift, bits, input, base, ins);
    forall k | 0 <= k < |head|
      ensures Newest(head1[k], k, shift, bits, input, base, ins1)
    {
      assert Newest(head[k], k, shift, bits, input, base, ins);
    }
    forall p | p in ins1
      ensures p + wsize in ins1 || Previous(prev1[Slot(p, wsize)], p, shift, bits, input, base, ins1)
    {
      if p in ins && p + wsize !in ins1 {
        assert Previous(prev[Slot(p, wsize)], p, shift, bits, input, base, ins);
      }
    }
  }

  /** Inserting a string at the head of its chain. */
  lemma {:induction false} InsertChain(head: seq<nat>, prev: seq<nat>, shift: nat, bits: nat, input: seq<nat>, base: nat,
                                       ins: set<nat>, wsize: nat, str: nat, h: nat)
    requires Chains(head, prev, shift, bits, input, base, ins, wsize) && str < 2 * wsize && base + str + 2 < |input|
    requires h == HashAt(shift, bits, input, base + str) && forall p :: p in ins ==> p < str
    ensures h < |head| && LinkOk(head[h], str, shift, bits, input, base, ins)
    ensures Previous(head[h], str, shift, bits, input, base, ins + {str})
    ensures Chains(head[h := str], prev[Slot(str, wsize) := head[h]], shift, bits, input, base, ins + {str}, wsize)
  {
    var head1, prev1, ins1 := head[h := str], prev[Slot(str, wsize) := head[h]], ins + {str};
    hide Pow2, HashAt, Unbroken;
    InsertUnbroken(head, prev, shift, bits, input, base, ins, wsize, str, h);
    assert HeadOk(head[h], h, shift, bits, input, base, ins);
    forall k | 0 <= k < |head|
      ensures HeadOk(head1[k], k, shift, bits, input, base, ins1)
    {
      assert HeadOk(head[k], k, shift, bits, input, base, ins);
    }
    forall p | p in ins1
      ensures p + wsize in ins1 || LinkOk(prev1[Slot(p, wsize)], p, shift, bits, input, base, ins1)
    {
      if p in ins && p + wsize !in ins1 {
        assert LinkOk(prev[Slot(p, wsize)], p, shift, bits, input, base, ins);
      }
    }
  }

  // A position after the window has slid.
  function Slid(m: nat, wsize: nat): nat {
    if m >= wsize then m - wsize else 0
  }

  function SlidAll(s: seq<nat>, wsize: nat): (r: seq<nat>)
    ensures |r| == |s|
  {
    seq(|s|, i requires 0 <= i < |s| => Slid(s[i], wsize))
  }

  ghost function SlidSet(ins: set<nat>, wsize: nat): (r: set<nat>)
    ensures forall p: nat :: p in r <==> p + wsize in ins
  {
    var r := set p | p in ins && p >= wsize :: p - wsize;
    assert forall p: nat :: p + wsize in ins ==> p in r by {
      forall p: nat | p + wsize in ins
        ensures p in r
      {
        assert p == (p + wsize) - wsize;
      }
    }
    r
  }

  lemma {:induction false} NewestSlid(q: nat, h: nat, shift: nat, bits: nat, input: seq<nat>, base: nat, ins: set<nat>, wsize: nat)
    requires Newest(q, h, shift, bits, input, base, ins)
    ensures Newest(Slid(q, wsize), h, shift, bits, input, base + wsize, SlidSet(ins, wsize))
  {
    hide HashAt;
    var ins1 := SlidSet(ins, wsize);
    forall r | r in ins1 && base + wsize + r + 2 < |input| && HashAt(shift, bits, input, base + wsize + r) == h
      ensures r <= Slid(q, wsize)
    {
      assert r + wsize in ins && base + wsize + r == base + (r + wsize);
    }
  }

  lemma {:induction false} PreviousSlid(q: nat, p: nat, shift: nat, bits: nat, input: seq<nat>, base: nat, ins: set<nat>, wsize: nat)
    requires Previous(q, p + wsize, shift, bits, input, base, ins)
    ensures Previous(Slid(q, wsize), p, shift, bits, input, base + wsize, SlidSet(ins, wsize))
  {
    hide HashAt;
    var ins1 := SlidSet(ins, wsize);
    assert base + wsize + p == base + (p + wsize);
    forall r | r in ins1 && r < p && base + wsize + r + 2 < |input| &&
               HashAt(shift, bits, input, base + wsize + r) == HashAt(shift, bits, input, base + wsize + p)
      ensures r <= Slid(q, wsize)
    {
      assert r + wsize in ins && base + wsize + r == base + (r + wsize);
    }
  }

  lemma {:induction false} SlideUnbroken(head: seq<nat>, prev: seq<nat>, shift: nat, bits: nat, input: seq<nat>, base: nat,
                                         ins: set<nat>, wsize: nat)
    requires Unbroken(head, prev, shift, bits, input, base, ins, wsize)
    ensures Unbroken(SlidAll(head, wsize), SlidAll(prev, wsize), shift, bits, input, base + wsize, SlidSet(ins, wsize), wsize)
  {
    hide Newest, Previous;
    var ins1 := SlidSet(ins, wsize);
    forall h | 0 <= h < |head|
      ensures Newest(SlidAll(head, wsize)[h], h, shift, bits, input, base + wsize, ins1)
    {
      NewestSlid(head[h], h, shift, bits, input, base, ins, wsize);
    }
    forall p | p in ins1
      ensures p + wsize in ins1 || Previous(SlidAll(prev, wsize)[Slot(p, wsize)], p, shift, bits, input, base + wsize, ins1)
    {
      assert p + wsize in ins;
      if p + wsize !in ins1 {
        PreviousSlid(prev[Slot(p + wsize, wsize)], p, shift, bits, input, base, ins, wsize);
      }
    }
  }

  /** Sliding keeps the chains; links that leave the window are cut. */
  lemma {:induction false} SlideChains(head: seq<nat>, prev: seq<nat>, shift: nat, bits: nat, input: seq<nat>, base: nat,
                                       ins: set<nat>, wsize: nat)
    requires Chains(head, prev, shift, bits, input, base, ins, wsize)
    ensures Chains(SlidAll(head, wsize), SlidAll(prev, wsize), shift, bits, input, base + wsize, SlidSet(ins, wsize), wsize)
  {
    hide Pow2, HashAt, Unbroken;
    SlideUnbroken(head, prev, shift, bits, input, base, ins, wsize);
    var ins1 := SlidSet(ins, wsize);
    forall h | 0 <= h < |head|
      ensures HeadOk(SlidAll(head, wsize)[h], h, shift, bits, input, base + wsize, ins1)
    {
      assert HeadOk(head[h], h, shift, bits, input, base, ins);
    }
    forall p | p in ins1
      ensures p < 2 * wsize && base + wsize + p + 2 < |input|
      ensures p + wsize in ins1 || LinkOk(SlidAll(prev, wsize)[Slot(p, wsize)], p, shift, bits, input, base + wsize, ins1)
    {
      assert p + wsize in ins;
      if p + wsize !in ins1 {
        assert p + wsize + wsize !in ins;
        assert LinkOk(prev[Slot(p + wsize, wsize)], p + wsize, shift, bits, input, base, ins);
      }
    }
  }

  lemma {:induction false} UnbrokenLater(head: seq<nat>, prev: seq<nat>, shift: nat, bits: nat, input: seq<nat>, base: nat,
                                         ins: set<nat>, wsize: nat, more: seq<nat>)
    requires Unbroken(head, prev, shift, bits, input, base, ins, wsize) && forall p :: p in ins ==> base + p + 2 < |input|
    ensures Unbroken(head, prev, shift, bits, input + more, base, ins, wsize)
  {
    forall h | 0 <= h < |head|
      ensures Newest(head[h], h, shift, bits, input + more, base, ins)
    {
      assert Newest(head[h], h, shift, bits, input, base, ins);
    }
    forall p | p in ins
      ensures p + wsize in ins || Previous(prev[Slot(p, wsize)], p, shift, bits, input + more, base, ins)
    {
      assert p + wsize in ins || Previous(prev[Slot(p, wsize)], p, shift, bits, input, base, ins);
    }
  }

  // More input changes nothing.
  lemma {:induction false} ChainsLater(head: seq<nat>, prev: seq<nat>, shift: nat, bits: nat, input: seq<nat>, base: nat,
                                       ins: set<nat>, wsize: nat, more: seq<nat>)
    requires Chains(head, prev, shift, bits, input, base, ins, wsize)
    ensures Chains(head, prev, shift, bits, input + more, base, ins, wsize)
  {
    hide Pow2, Unbroken;
    UnbrokenLater(head, prev, shift, bits, input, base, ins, wsize, more);
    forall h | 0 <= h < |head|
      ensures HeadOk(head[h], h, shift, bits, input + more, base, ins)
    {
      assert HeadOk(head[h], h, shift, bits, input, base, ins);
    }
    forall p | p in ins
      ensures p + wsize in ins || LinkOk(prev[Slot(p, wsize)], p, shift, bits, input + more, base, ins)
    {
      assert p + wsize in ins || LinkOk(prev[Slot(p, wsize)], p, shift, bits, input, base, ins);
    }
  }

  /** Following a link from a recent position. */
  lemma {:induction false} FollowLink(head: seq<nat>, prev: seq<nat>, shift: nat, bits: nat, input: seq<nat>, base: nat,
                                      ins: set<nat>, wsize: nat, p: nat, top: nat)
    requires Chains(head, prev, shift, bits, input, base, ins, wsize) && p in ins && top < p + wsize
    requires forall q :: q in ins ==> q <= top
    ensures p < 2 * wsize && LinkOk(prev[Slot(p, wsize)], p, shift, bits, input, base, ins)
    ensures Previous(prev[Slot(p, wsize)], p, shift, bits, input, base, ins)
  {
    assert p + wsize !in ins;
  }
}
