/** Finding a symbol through a decoding table (the lookups of inflate.c and inffast.c). */
module Lookup {
  import opened Bits
  import opened Canonical
  import opened CodeOrder
  import opened CodeCounts
  import opened TableCells
  import opened DecodeTable
  import opened BlockMachine
  import opened Inftrees

  // The next `n` bits, zeros standing for those not there.
  function Padded(b: seq<bool>, n: nat): (p: seq<bool>)
    ensures |p| == n
  {
    if |b| >= n then b[..n] else b + Zeros(n - |b|)
  }

  lemma {:induction false} NumPaddedBits(b: seq<bool>, n: nat)
    ensures Low(Num(b), n) == Num(Padded(b, n))
  {
    if |b| >= n {
      assert b == b[..n] + b[n..];
      NumConcat(b[..n], b[n..]);
      ShrLowUnique(Num(b), n, Num(b[..n]), Num(b[n..]));
    } else {
      NumConcat(b, Zeros(n - |b|));
      NumZeros(n - |b|);
      Pow2Mono(|b|, n);
      ShrLowUnique(Num(b), n, Num(b), 0);
    }
  }

  // What the root entry for the bits at hand says: a symbol, no code, or that bits are missing.
  ghost predicate Resolved(kind: CodeType, lens: seq<nat>, b: seq<bool>, drop: nat, e: Code)
    requires LensOk(lens) && |lens| <= MaxSyms(kind)
  {
    if drop + e.bits <= |b| then
      match Find(lens, b)
      case Sym(s) => drop <= lens[s] && e == Here(kind, s, lens[s] - drop)
      case NoCode => drop == 0 && e == INVALID
      case More => false
    else Find(lens, b) == More
  }

  lemma {:induction false} PeekPadded(b: seq<bool>, n: nat)
    requires n <= MAX_BITS
    ensures Peek(b)[..n] == Padded(b, n)
  {
  }

  // What is found when `s` is the symbol whose code the padded bits start with.
  lemma {:induction false} FoundOrMore(kind: CodeType, lens: seq<nat>, b: seq<bool>, s: nat)
    requires Usable(kind, lens) && Complete(lens) && s < |lens| && lens[s] > 0 && CodeBits(lens, s) <= Peek(b)
    ensures Find(lens, b) == if lens[s] <= |b| then Sym(s) else More
  {
    if lens[s] <= |b| {
      PeekPadded(b, lens[s]);
      assert CodeBits(lens, s) == b[..lens[s]];
      assert Starts(lens, s, b);
      FindIs(kind, lens, s, b);
    } else if t: nat :| Starts(lens, t, b) {
      StartsPeek(lens, t, b);
      PrefixFree(lens, s, t, Peek(b));
    }
  }

  lemma {:induction false} StartsPeek(lens: seq<nat>, t: nat, b: seq<bool>)
    requires LensOk(lens) && Starts(lens, t, b)
    ensures CodeBits(lens, t) <= Peek(b) && lens[t] <= |b|
  {
  }

  /** The root entry of a table resolves the bits, or links to a sub-table. */
  lemma {:induction false} RootEntry(kind: CodeType, lens: seq<nat>, T: seq<Code>, root: nat, b: seq<bool>)
    requires Usable(kind, lens) && TableFor(kind, lens, T, root)
    ensures Num(Padded(b, root)) < |T|
    ensures var e := T[Num(Padded(b, root))];
            && e.bits <= MAX_BITS
            && if IsLink(e) then e.bits == root && e.val + Pow2(e.op) <= |T| && (root > |b| ==> Find(lens, b) == More)
               else Resolved(kind, lens, b, 0, e)
  {
    hide Here;
    if Complete(lens) {
      var s := SomeCode(lens, Peek(b));
      FoundOrMore(kind, lens, b, s);
      PeekPadded(b, root);
      HereIsNoLink(kind, s, lens[s]);
      HereBits(kind, s, lens[s]);
      var c := CodeBits(lens, s);
      if lens[s] <= root {
        assert c <= Padded(b, root);
        assert Short(T, root, c, Here(kind, s, lens[s]));
      } else {
        assert c[..root] == Padded(b, root);
        assert Long(T, root, |T|, c, Here(kind, s, lens[s] - root));
      }
    } else {
      SmallTable(kind, lens, T, b);
    }
  }

  lemma {:induction false} HereBits(kind: CodeType, s: nat, n: nat)
    requires s < MaxSyms(kind)
    ensures Here(kind, s, n).bits == n
  {
  }

  // A table of two entries: one code of one bit at most.
  lemma {:induction false} SmallTable(kind: CodeType, lens: seq<nat>, T: seq<Code>, b: seq<bool>)
    requires Usable(kind, lens) && !Complete(lens) && TableFor(kind, lens, T, 1)
    ensures Num(Padded(b, 1)) < |T| && !IsLink(T[Num(Padded(b, 1))]) && T[Num(Padded(b, 1))].bits <= 1
    ensures Resolved(kind, lens, b, 0, T[Num(Padded(b, 1))])
  {
    hide Here, Rejected, CodeBits, Kraft, Pow2, Find, NoOther;
    var p := Padded(b, 1);
    if s: nat :| Starts(lens, s, p) {
      SmallSym(kind, lens, T, b, s);
    } else {
      SmallNone(kind, lens, T, b);
    }
  }

  lemma {:induction false} SmallSym(kind: CodeType, lens: seq<nat>, T: seq<Code>, b: seq<bool>, s: nat)
    requires Usable(kind, lens) && !Complete(lens) && TableFor(kind, lens, T, 1) && Starts(lens, s, Padded(b, 1))
    ensures Num(Padded(b, 1)) < |T| && !IsLink(T[Num(Padded(b, 1))]) && T[Num(Padded(b, 1))].bits <= 1
    ensures Resolved(kind, lens, b, 0, T[Num(Padded(b, 1))])
  {
    hide Here, Rejected, CodeBits, Kraft, Pow2, NoOther;
    ShortCodes(kind, lens, s);
    HereIsNoLink(kind, s, lens[s]);
    HereBits(kind, s, lens[s]);
    assert Short(T, 1, CodeBits(lens, s), Here(kind, s, lens[s]));
    if b != [] {
      assert Starts(lens, s, b);
      FindIs(kind, lens, s, b);
    } else {
      NothingFound(lens);
    }
  }

  lemma {:induction false} SmallNone(kind: CodeType, lens: seq<nat>, T: seq<Code>, b: seq<bool>)
    requires Usable(kind, lens) && !Complete(lens) && TableFor(kind, lens, T, 1)
    requires forall s: nat :: !Starts(lens, s, Padded(b, 1))
    ensures Num(Padded(b, 1)) < |T| && T[Num(Padded(b, 1))] == INVALID
    ensures Resolved(kind, lens, b, 0, T[Num(Padded(b, 1))])
  {
    hide Here, Rejected, CodeBits, Kraft;
    var p := Padded(b, 1);
    NoneStarts(kind, lens, T, p);
    if b != [] {
      forall s: nat
        ensures !Starts(lens, s, b)
      {
        assert !Starts(lens, s, p);
        if s < |lens| {
          ShortCodes(kind, lens, s);
        }
      }
    } else {
      NothingFound(lens);
    }
  }

  lemma {:induction false} NoneStarts(kind: CodeType, lens: seq<nat>, T: seq<Code>, p: seq<bool>)
    requires Usable(kind, lens) && !Complete(lens) && TableFor(kind, lens, T, 1) && |p| == 1
    requires forall s: nat :: !Starts(lens, s, p)
    ensures Num(p) < |T| && T[Num(p)] == INVALID
  {
    hide Here, Rejected, CodeBits, Kraft, Short, Long;
    assert Num(p) < Pow2(1);
    forall s | 0 <= s < |lens| && lens[s] > 0
      ensures !(CodeBits(lens, s) <= p)
    {
      assert !Starts(lens, s, p);
    }
  }

  lemma {:induction false} NothingFound(lens: seq<nat>)
    requires LensOk(lens)
    ensures Find(lens, []) == More
  {
  }

  // Behind a link lies the sub-table of a longer code.
  lemma {:induction false} LinkedCode(kind: CodeType, lens: seq<nat>, T: seq<Code>, root: nat, b: seq<bool>) returns (s: nat)
    requires Usable(kind, lens) && TableFor(kind, lens, T, root)
    requires Num(Padded(b, root)) < |T| && IsLink(T[Num(Padded(b, root))])
    ensures Complete(lens) && root < MAX_BITS && s < |lens| && root < lens[s] <= MAX_BITS && CodeBits(lens, s) <= Peek(b)
    ensures CodeBits(lens, s)[..root] == Padded(b, root)
  {
    hide Here, Rejected, NoOther, Find, Long, Kraft;
    if !Complete(lens) {
      SmallTable(kind, lens, T, b);
    }
    s := SomeCode(lens, Peek(b));
    PeekPadded(b, root);
    var c := CodeBits(lens, s);
    if lens[s] <= root {
      HereIsNoLink(kind, s, lens[s]);
      ShortEntry(kind, lens, T, root, s, Padded(b, root));
    }
  }

  // The slots of a code that is not longer than the index hold its entry.
  lemma {:induction false} ShortEntry(kind: CodeType, lens: seq<nat>, T: seq<Code>, root: nat, s: nat, p: seq<bool>)
    requires LensOk(lens) && |lens| <= MaxSyms(kind) && TableFor(kind, lens, T, root) && s < |lens| && 0 < lens[s] <= root
    requires CodeBits(lens, s) <= p && |p| == root
    ensures Num(p) < |T| && T[Num(p)] == Here(kind, s, lens[s])
  {
    hide Here, Rejected, NoOther, Long, CodeBits, Kraft;
    assert Short(T, root, CodeBits(lens, s), Here(kind, s, lens[s]));
  }

  /** The entry of a sub-table resolves the bits. */
  lemma {:induction false} SubEntry(kind: CodeType, lens: seq<nat>, T: seq<Code>, root: nat, b: seq<bool>)
    requires Usable(kind, lens) && TableFor(kind, lens, T, root) && root <= |b|
    requires Num(Padded(b, root)) < |T| && IsLink(T[Num(Padded(b, root))])
    ensures var e := T[Num(Padded(b, root))];
            && e.val + Num(Padded(b[root..], e.op)) < |T| && e.bits == root
            && root + T[e.val + Num(Padded(b[root..], e.op))].bits <= MAX_BITS
            && !IsLink(T[e.val + Num(Padded(b[root..], e.op))])
            && Resolved(kind, lens, b, root, T[e.val + Num(Padded(b[root..], e.op))])
  {
    hide Here, Rejected, NoOther, Find, Kraft, Peek, Padded, TableFor, Long, Short, CodeBits, Num;
    var s := LinkedCode(kind, lens, T, root, b);
    FoundOrMore(kind, lens, b, s);
    HereIsNoLink(kind, s, lens[s] - root);
    HereBits(kind, s, lens[s] - root);
    var e := T[Num(Padded(b, root))];
    LongLink(kind, lens, T, root, s);
    PeekTail(CodeBits(lens, s), b, root, e.op);
    LongEntry(kind, lens, T, root, s, Padded(b[root..], e.op));
  }

  // The link of a longer code.
  lemma {:induction false} LongLink(kind: CodeType, lens: seq<nat>, T: seq<Code>, root: nat, s: nat)
    requires LensOk(lens) && |lens| <= MaxSyms(kind) && TableFor(kind, lens, T, root) && s < |lens| && root < lens[s]
    ensures |CodeBits(lens, s)| == lens[s] && Num(CodeBits(lens, s)[..root]) < |T|
    ensures var e := T[Num(CodeBits(lens, s)[..root])]; e.bits == root && lens[s] <= root + e.op
  {
    hide Here, Rejected, NoOther, Short, CodeBits, Kraft;
    assert Long(T, root, |T|, CodeBits(lens, s), Here(kind, s, lens[s] - root));
  }

  // The slot of a longer code in its sub-table holds its entry.
  lemma {:induction false} LongEntry(kind: CodeType, lens: seq<nat>, T: seq<Code>, root: nat, s: nat, q: seq<bool>)
    requires LensOk(lens) && |lens| <= MaxSyms(kind) && TableFor(kind, lens, T, root) && s < |lens| && root < lens[s]
    requires |CodeBits(lens, s)| == lens[s] && Num(CodeBits(lens, s)[..root]) < |T|
    requires var e := T[Num(CodeBits(lens, s)[..root])]; |q| == e.op && CodeBits(lens, s)[root..] <= q
    ensures var e := T[Num(CodeBits(lens, s)[..root])];
            e.bits == root && e.val + Num(q) < |T| && T[e.val + Num(q)] == Here(kind, s, lens[s] - root)
  {
    hide Here, Rejected, NoOther, Short, CodeBits, Kraft;
    assert Long(T, root, |T|, CodeBits(lens, s), Here(kind, s, lens[s] - root));
  }

  // The rest of a code starts the padded rest of the bits.
  lemma {:induction false} PeekTail(c: seq<bool>, b: seq<bool>, root: nat, n: nat)
    requires c <= Peek(b) && root <= |c| <= root + n && root <= |b|
    ensures c[root..] <= Padded(b[root..], n)
  {
    var q := Padded(b[root..], n);
    forall i | 0 <= i < |c| - root
      ensures c[root + i] == q[i]
    {
      assert c[root + i] == Peek(b)[root + i];
    }
    assert c[root..] == q[..|c| - root];
  }

  // Without codes longer than the root there are no links.
  lemma {:induction false} NoLinks(kind: CodeType, lens: seq<nat>, T: seq<Code>, root: nat, b: seq<bool>)
    requires Usable(kind, lens) && TableFor(kind, lens, T, root) && MaxLen(lens) <= root
    ensures Num(Padded(b, root)) < |T| && !IsLink(T[Num(Padded(b, root))])
  {
    hide Here, Rejected, NoOther, Find;
    if Complete(lens) {
      var s := SomeCode(lens, Peek(b));
      MaxLenBound(lens, s);
      PeekPadded(b, root);
      HereIsNoLink(kind, s, lens[s]);
      assert CodeBits(lens, s) <= Padded(b, root);
      assert Short(T, root, CodeBits(lens, s), Here(kind, s, lens[s]));
    } else {
      SmallTable(kind, lens, T, b);
    }
  }

  // The bits above the root that index a sub-table.
  lemma {:induction false} SubIndex(h: nat, n: nat, r: nat, k: nat)
    requires h < Pow2(n) && r <= n
    ensures Shr(Low(h, r + k), r) == Num(Padded(ToBits(h, n)[r..], k))
  {
    hide *;
    RestBits(h, n, r);
    NumPaddedBits(ToBits(Shr(h, r), n - r), k);
    IndexString(Shr(h, r), n - r);
    LowOfShr(h, r, k);
  }

  lemma {:induction false} RestBits(h: nat, n: nat, r: nat)
    requires h < Pow2(n) && r <= n
    ensures Shr(h, r) < Pow2(n - r) && ToBits(Shr(h, r), n - r) == ToBits(h, n)[r..]
  {
    hide Pow2;
    ToBitsSplit(h, r, n - r);
    ShrBound(h, r, n - r);
  }

  lemma {:induction false} LowOfShr(h: nat, r: nat, k: nat)
    ensures Shr(Low(h, r + k), r) == Low(Shr(h, r), k)
  {
    hide Pow2, Shr, Low;
    var q, x := Shr(h, r), Low(h, r);
    var hi, lo := Shr(q, k), Low(q, k);
    var p, u := Pow2(r), Pow2(k);
    Pow2Add(r, k);
    assert p * q == p * lo + p * (u * hi);
    MulAssoc(p, u, hi);
    MulMono(p, lo + 1, u);
    assert p * (lo + 1) == p * lo + p;
    ShrLowUnique(h, r + k, x + p * lo, hi);
    ShrLowUnique(x + p * lo, r, x, lo);
  }
}
