/** What a decoding table says about a set of codes, and how filling it keeps that.

A table is a root of 2^root slots indexed by the next `root` bits of the stream,
followed by sub-tables that the root links to for longer codes. */
module DecodeTable {
  import opened Bits
  import opened Canonical
  import opened TableCells

  // Every root slot whose index starts with `c` holds `here`.
  ghost predicate Short(T: seq<Code>, root: nat, c: seq<bool>, here: Code) {
    && |c| <= root && Pow2(root) <= |T|
    && forall p: seq<bool> {:trigger Num(p)} :: |p| == root && c <= p ==> T[Num(p)] == here
  }

  /** The root links the first bits of `c` to a sub-table below `limit`, and there
      every slot whose index starts with the rest of `c` holds `here`. */
  ghost predicate Long(T: seq<Code>, root: nat, limit: nat, c: seq<bool>, here: Code) {
    && |c| > root && Pow2(root) <= limit <= |T|
    && var e := T[Num(c[..root])];
    && IsLink(e) && e.bits == root && Pow2(root) <= e.val && e.val + Pow2(e.op) <= limit
    && |c| - root <= e.op
    && forall q: seq<bool> {:trigger Num(q)} :: |q| == e.op && c[root..] <= q ==> T[e.val + Num(q)] == here
  }

  ghost predicate Incomparable(c: seq<bool>, d: seq<bool>) {
    !(c <= d) && !(d <= c)
  }

  lemma {:induction false} Comparable(c: seq<bool>, d: seq<bool>, p: seq<bool>)
    requires c <= p && d <= p
    ensures !Incomparable(c, d)
  {
    if |c| <= |d| {
      assert c == p[..|c|] == d[..|c|];
    } else {
      assert d == p[..|d|] == c[..|d|];
    }
  }

  lemma {:induction false} ComparableTails(c: seq<bool>, d: seq<bool>, n: nat, q: seq<bool>)
    requires n <= |c| && n <= |d| && c[..n] == d[..n] && c[n..] <= q && d[n..] <= q
    ensures !Incomparable(c, d)
  {
    assert c == c[..n] + c[n..] && d == c[..n] + d[n..];
    Comparable(c, d, c[..n] + q);
  }

  lemma {:induction false} NumInjective(p: seq<bool>, q: seq<bool>)
    requires |p| == |q|
    ensures Num(p) == Num(q) <==> p == q
  {
    ToBitsNum(p);
    ToBitsNum(q);
  }

  // The codes of different symbols are incomparable.
  lemma {:induction false} CodesIncomparable(lens: seq<nat>, s: nat, t: nat)
    requires Fits(lens) && s < |lens| && t < |lens| && s != t && lens[s] > 0 && lens[t] > 0
    ensures Incomparable(CodeBits(lens, s), CodeBits(lens, t))
  {
    var c, d := CodeBits(lens, s), CodeBits(lens, t);
    if c <= d {
      PrefixFree(lens, s, t, d);
    } else if d <= c {
      PrefixFree(lens, s, t, c);
    }
  }

  // `T1` is `T` after `here` went to the slots starting with `v` in the table of `curr` index bits at `at`.
  ghost predicate Wrote(T: seq<Code>, T1: seq<Code>, at: nat, curr: nat, v: seq<bool>, here: Code) {
    && |T1| == |T| && at + Pow2(curr) <= |T|
    && T1[..at] == T[..at]
    && T1[at + Pow2(curr)..] == T[at + Pow2(curr)..]
    && forall q: seq<bool> {:trigger Num(q)} :: |q| == curr ==> T1[at + Num(q)] == if v <= q then here else T[at + Num(q)]
  }

  lemma {:induction false} ShortDone(T: seq<Code>, T1: seq<Code>, root: nat, c: seq<bool>, here: Code)
    requires |c| <= root && Wrote(T, T1, 0, root, c, here)
    ensures Short(T1, root, c, here)
  {
    forall p: seq<bool> {:trigger Num(p)} | |p| == root && c <= p
      ensures T1[Num(p)] == here
    {
      assert T1[0 + Num(p)] == here;
    }
  }

  lemma {:induction false} ShortKept(T: seq<Code>, T1: seq<Code>, root: nat, c: seq<bool>, here: Code,
                  d: seq<bool>, kept: Code)
    requires Wrote(T, T1, 0, root, c, here) && Incomparable(c, d) && Short(T, root, d, kept)
    ensures Short(T1, root, d, kept)
  {
    forall p: seq<bool> {:trigger Num(p)} | |p| == root && d <= p
      ensures T1[Num(p)] == kept
    {
      if c <= p {
        Comparable(c, d, p);
      }
      assert T1[0 + Num(p)] == T[0 + Num(p)];
    }
  }

  lemma {:induction false} ShortAside(T: seq<Code>, T1: seq<Code>, root: nat, at: nat, d: seq<bool>, kept: Code)
    requires |T1| == |T| && Pow2(root) <= at <= |T| && T1[..at] == T[..at]
    requires Short(T, root, d, kept)
    ensures Short(T1, root, d, kept)
  {
    forall p: seq<bool> {:trigger Num(p)} | |p| == root && d <= p
      ensures T1[Num(p)] == kept
    {
      assert T1[..at][Num(p)] == T[..at][Num(p)];
    }
  }

  lemma {:induction false} LongDone(T: seq<Code>, T1: seq<Code>, root: nat, at: nat, curr: nat, c: seq<bool>, here: Code)
    requires root < |c| <= root + curr && 0 < curr < 16 && Pow2(root) <= at
    requires Wrote(T, T1, at, curr, c[root..], here)
    requires T[Num(c[..root])] == Code(curr, root, at)
    ensures Long(T1, root, at + Pow2(curr), c, here)
  {
    var i := Num(c[..root]);
    assert T1[i] == T1[..at][i] == T[..at][i] == T[i];
  }

  lemma {:induction false} LongKept(T: seq<Code>, T1: seq<Code>, root: nat, at: nat, curr: nat, c: seq<bool>, here: Code,
                 d: seq<bool>, kept: Code)
    requires root < |c| <= root + curr && Pow2(root) <= at
    requires Wrote(T, T1, at, curr, c[root..], here)
    requires T[Num(c[..root])] == Code(curr, root, at)
    requires Incomparable(c, d) && root < |d| && d[..root] == c[..root]
    requires Long(T, root, at + Pow2(curr), d, kept)
    ensures Long(T1, root, at + Pow2(curr), d, kept)
  {
    var i := Num(c[..root]);
    assert T1[i] == T1[..at][i] == T[..at][i] == T[i];
    forall q: seq<bool> {:trigger Num(q)} | |q| == curr && d[root..] <= q
      ensures T1[at + Num(q)] == kept
    {
      if c[root..] <= q {
        ComparableTails(c, d, root, q);
      }
    }
  }

  lemma {:induction false} LongAside(T: seq<Code>, T1: seq<Code>, root: nat, at: nat, d: seq<bool>, kept: Code)
    requires |T1| == |T| && at <= |T| && T1[..at] == T[..at]
    requires Long(T, root, at, d, kept)
    ensures Long(T1, root, at, d, kept)
  {
    var i := Num(d[..root]);
    assert T1[i] == T1[..at][i] == T[..at][i] == T[i];
    var e := T[i];
    forall q: seq<bool> {:trigger Num(q)} | |q| == e.op && d[root..] <= q
      ensures T1[e.val + Num(q)] == kept
    {
      assert T1[..at][e.val + Num(q)] == T[..at][e.val + Num(q)];
    }
  }

  lemma {:induction false} LinkKeepsShort(T: seq<Code>, root: nat, c: seq<bool>, link: Code, d: seq<bool>, kept: Code)
    requires root < |c| && Incomparable(c, d) && Short(T, root, d, kept)
    ensures Short(T[Num(c[..root]) := link], root, d, kept)
  {
    forall p: seq<bool> {:trigger Num(p)} | |p| == root && d <= p
      ensures T[Num(c[..root]) := link][Num(p)] == kept
    {
      NumInjective(p, c[..root]);
      if p == c[..root] {
        Comparable(c, d, c);
      }
    }
  }

  lemma {:induction false} LinkKeepsLong(T: seq<Code>, root: nat, limit: nat, c: seq<bool>, link: Code,
                      d: seq<bool>, kept: Code)
    requires root < |c| && root < |d| && c[..root] != d[..root] && Long(T, root, limit, d, kept)
    ensures Long(T[Num(c[..root]) := link], root, limit, d, kept)
  {
    NumInjective(c[..root], d[..root]);
    var T1 := T[Num(c[..root]) := link];
    var e := T[Num(d[..root])];
    assert T1[Num(d[..root])] == e;
    forall q: seq<bool> {:trigger Num(q)} | |q| == e.op && d[root..] <= q
      ensures T1[e.val + Num(q)] == kept
    {
    }
  }

  lemma {:induction false} LongRaise(T: seq<Code>, root: nat, limit: nat, limit1: nat, d: seq<bool>, kept: Code)
    requires Long(T, root, limit, d, kept) && limit <= limit1 <= |T|
    ensures Long(T, root, limit1, d, kept)
  {
  }

  /** Code `d` is entered: with `short` in its slots of the root, or with `long` in
      its slots of a sub-table that lies below `next` or, for the block `cur` being
      filled, below `used`. */
  ghost predicate Cell(T: seq<Code>, root: nat, next: nat, used: nat, cur: seq<bool>,
                       d: seq<bool>, short: Code, long: Code) {
    if |d| <= root then Short(T, root, d, short)
    else Long(T, root, next, d, long) || (d[..root] == cur && Long(T, root, used, d, long))
  }

  // The table at `next`, of `curr` index bits, is the one code `c` goes to.
  ghost predicate Placed(T: seq<Code>, root: nat, drop: nat, curr: nat,
                         next: nat, used: nat, cur: seq<bool>, c: seq<bool>) {
    && next + Pow2(curr) == used <= |T|
    && if |c| <= root then drop == 0 && curr == root && next == 0
       else
         && drop == root && 0 < curr < 16 && |c| <= root + curr && Pow2(root) <= next
         && c[..root] == cur && T[Num(cur)] == Code(curr, root, next)
  }

  lemma {:induction false} PlacedDrop(T: seq<Code>, root: nat, drop: nat, curr: nat,
                   next: nat, used: nat, cur: seq<bool>, c: seq<bool>)
    requires Placed(T, root, drop, curr, next, used, cur, c)
    ensures drop == if |c| <= root then 0 else root
  {
  }

  lemma {:induction false} CellKept(T: seq<Code>, T1: seq<Code>, root: nat, drop: nat, curr: nat,
                 next: nat, used: nat, cur: seq<bool>, c: seq<bool>, here: Code,
                 d: seq<bool>, short: Code, long: Code)
    requires Incomparable(c, d) && |d| <= |c|
    requires Placed(T, root, drop, curr, next, used, cur, c)
    requires drop <= |c| && Wrote(T, T1, next, curr, c[drop..], here)
    requires Cell(T, root, next, used, cur, d, short, long)
    ensures Cell(T1, root, next, used, cur, d, short, long)
  {
    if |c| <= root {
      assert c[0..] == c;
      ShortKept(T, T1, root, c, here, d, short);
    } else if |d| <= root {
      ShortAside(T, T1, root, next, d, short);
    } else if Long(T, root, next, d, long) {
      LongAside(T, T1, root, next, d, long);
    } else {
      LongKept(T, T1, root, next, curr, c, here, d, long);
    }
  }

  lemma {:induction false} CellNow(T: seq<Code>, T1: seq<Code>, root: nat, drop: nat, curr: nat,
                next: nat, used: nat, cur: seq<bool>, c: seq<bool>, short: Code, long: Code)
    requires Placed(T, root, drop, curr, next, used, cur, c)
    requires drop <= |c| && Wrote(T, T1, next, curr, c[drop..], if |c| <= root then short else long)
    ensures Cell(T1, root, next, used, cur, c, short, long)
  {
    if |c| <= root {
      assert c[0..] == c;
      ShortDone(T, T1, root, c, short);
    } else {
      LongDone(T, T1, root, next, curr, c, long);
    }
  }

  lemma {:induction false} CellLinked(T: seq<Code>, root: nat, next: nat, used: nat, cur: seq<bool>,
                   c: seq<bool>, curr: nat, d: seq<bool>, short: Code, long: Code)
    requires root < |c| && next <= used && used + Pow2(curr) <= |T| && Pow2(root) <= |T|
    requires Incomparable(c, d) && (|d| > root ==> c[..root] != d[..root])
    requires Cell(T, root, next, used, cur, d, short, long)
    ensures Cell(T[Num(c[..root]) := Code(curr, root, used)], root,
                 used, used + Pow2(curr), c[..root], d, short, long)
  {
    var link := Code(curr, root, used);
    if |d| <= root {
      LinkKeepsShort(T, root, c, link, d, short);
    } else {
      if Long(T, root, next, d, long) {
        LongRaise(T, root, next, used, d, long);
      }
      LinkKeepsLong(T, root, used, c, link, d, long);
    }
  }
}
