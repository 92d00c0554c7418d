/** The code lengths of fixed blocks (section 3.2.6 of RFC 1951). */
module FixedCodes {
  import opened Bits
  import opened Canonical
  import opened CodeOrder
  import opened CodeBlocks
  import opened TableCells
  import opened CodeCounts

  function Repeat(l: nat, n: nat): (r: seq<nat>)
    ensures |r| == n && forall i :: 0 <= i < n ==> r[i] == l
  {
    seq(n, _ => l)
  }

  function FixedLit(): (r: seq<nat>)
    ensures |r| == 288 && LensOk(r)
  {
    Repeat(8, 144) + Repeat(9, 112) + Repeat(7, 24) + Repeat(8, 8)
  }

  function FixedDist(): (r: seq<nat>)
    ensures |r| == 32 && LensOk(r)
  {
    Repeat(5, 32)
  }

  lemma {:induction false} KraftOfRepeat(a: seq<nat>, l: nat, n: nat)
    requires LensOk(a) && l <= MAX_BITS
    ensures Kraft(a + Repeat(l, n)) == Kraft(a) + n * Width(l)
  {
    hide Width;
    if n == 0 {
      assert a + Repeat(l, n) == a;
    } else {
      var b := a + Repeat(l, n);
      assert b[..|b| - 1] == a + Repeat(l, n - 1);
      KraftOfRepeat(a, l, n - 1);
      OneMoreTimes(n - 1, Width(l));
    }
  }

  lemma {:induction false} OneMoreTimes(n: nat, w: nat)
    ensures (n + 1) * w == n * w + w
  {
  }

  lemma {:induction false} MaxLenOfRepeat(a: seq<nat>, l: nat, n: nat)
    requires n > 0
    ensures MaxLen(a + Repeat(l, n)) == if l > MaxLen(a) then l else MaxLen(a)
  {
    var b := a + Repeat(l, n);
    assert b[..|b| - 1] == a + Repeat(l, n - 1);
    if n == 1 {
      assert a + Repeat(l, 0) == a;
    } else {
      MaxLenOfRepeat(a, l, n - 1);
    }
  }

  lemma {:induction false} FixedLitFacts()
    ensures Complete(FixedLit()) && MaxLen(FixedLit()) == 9
  {
    assert Pow2(6) == 64 && Pow2(8) == 256 && Pow2(7) == 128 && Pow2(15) == 32768;
    hide Kraft, MaxLen, Pow2;
    var a, b := Repeat(8, 144), Repeat(8, 144) + Repeat(9, 112);
    EmptyFacts();
    assert [] + a == a;
    KraftOfRepeat([], 8, 144);
    MaxLenOfRepeat([], 8, 144);
    KraftOfRepeat(a, 9, 112);
    MaxLenOfRepeat(a, 9, 112);
    KraftOfRepeat(b, 7, 24);
    MaxLenOfRepeat(b, 7, 24);
    KraftOfRepeat(b + Repeat(7, 24), 8, 8);
    MaxLenOfRepeat(b + Repeat(7, 24), 8, 8);
  }

  lemma {:induction false} EmptyFacts()
    ensures Kraft([]) == 0 && MaxLen([]) == 0
  {
  }

  lemma {:induction false} FixedDistFacts()
    ensures Complete(FixedDist()) && MaxLen(FixedDist()) == 5
  {
    assert Pow2(10) == 1024 && Pow2(15) == 32768;
    hide Kraft, MaxLen, Pow2;
    EmptyFacts();
    assert [] + FixedDist() == FixedDist();
    KraftOfRepeat([], 5, 32);
    MaxLenOfRepeat([], 5, 32);
  }

  // When no code is longer than the root there are no sub-tables.
  lemma {:induction false} NoSubTables(lens: seq<nat>, root: nat)
    requires LensOk(lens) && MaxLen(lens) <= root <= MAX_BITS
    ensures TableSize(lens, root) == Pow2(root)
  {
    forall p | 0 <= p < Pow2(root)
      ensures SubBits(lens, root, p, |lens|) == 0
    {
      if SubBits(lens, root, p, |lens|) > 0 {
        var t := SubBitsAttained(lens, root, p, |lens|);
        MaxLenBound(lens, t);
      }
    }
    SubRoomSame(lens, root, 0, Pow2(root));
  }

  lemma {:induction false} FixedUsable()
    ensures !Rejected(LENS, FixedLit()) && !Rejected(DISTS, FixedDist())
  {
    FixedLitFacts();
    FixedDistFacts();
  }
}
