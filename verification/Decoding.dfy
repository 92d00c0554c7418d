/** Decoding a symbol with the bits pulled one byte at a time (inflate.c). */
module Decoding {
  import opened Bits
  import opened Canonical
  import opened TableCells
  import opened CodeCounts
  import opened Inftrees
  import opened BlockMachine
  import opened Lookup
  import opened InflateState

  // Bits were pulled only while the symbol was not complete.
  ghost predicate Pulled(l: seq<nat>, was: nat, held: seq<bool>)
    requires LensOk(l)
  {
    |held| == was || (|held| >= was + 8 && Find(l, held[..|held| - 8]) == More)
  }

  // The entry of the root table for the bits held.
  ghost predicate AtRoot(kind: CodeType, l: seq<nat>, T: seq<Code>, root: nat, held: seq<bool>, e: Code) {
    && TableFits(kind, l, T, root) && Num(Padded(held, root)) < |T| && e == T[Num(Padded(held, root))]
  }

  lemma {:induction false} RootIndex(kind: CodeType, l: seq<nat>, T: seq<Code>, root: nat, h: nat, n: nat)
    requires TableFits(kind, l, T, root) && h < Pow2(n)
    ensures Low(h, root) < |T| && AtRoot(kind, l, T, root, ToBits(h, n), T[Low(h, root)])
    ensures T[Low(h, root)].bits <= 15
    ensures T[Low(h, root)].bits > n ==> Find(l, ToBits(h, n)) == More
  {
    hide Pow2, TableFor, Rejected, Find;
    IndexString(h, n);
    NumPaddedBits(ToBits(h, n), root);
    RootEntry(kind, l, T, root, ToBits(h, n));
  }

  lemma {:induction false} MorePrefix(l: seq<nat>, held: seq<bool>, more: seq<bool>)
    requires LensOk(l) && Find(l, held) == More && held <= more && |more| == |held| + 8
    ensures Find(l, more[..|more| - 8]) == More
  {
    assert more[..|more| - 8] == held;
  }

  /** Look up the root entry, pulling bytes until all its bits are there. */
  method FindEntry(s: Inflater, kind: CodeType, table: array<Code>, off: nat, root: nat, ghost l: seq<nat>)
    returns (ok: bool, here: Code)
    requires s.Regs() && off <= table.Length && TableFits(kind, l, table[off..], root) && LensOk(l)
    modifies s`hold, s`bits, s`next
    ensures s.Regs() && s.Ahead() == old(s.Ahead()) && old(s.Held()) <= s.Held()
    ensures Pulled(l, old(s.bits), s.Held())
    ensures ok ==> here.bits <= s.bits && AtRoot(kind, l, table[off..], root, s.Held(), here)
    ensures !ok ==> s.next == |s.input| && Find(l, s.Held()) == More && s.bits < 15
  {
    hide TableFits, AtRoot, Inflater.Ahead, Find, Pow2, LensOk, Low;
    ghost var T := table[off..];
    ok := true;
    while true
      invariant s.Regs() && s.Ahead() == old(s.Ahead()) && old(s.Held()) <= s.Held()
      invariant Pulled(l, old(s.bits), s.Held())
      decreases |s.input| - s.next
    {
      RootIndex(kind, l, T, root, s.hold, s.bits);
      here := table[off + Low(s.hold, root)];
      if here.bits <= s.bits {
        return;
      }
      ghost var held := s.Held();
      ok := s.PullByte();
      if !ok {
        return;
      }
      MorePrefix(l, held, s.Held());
    }
  }

  // A link leads to the sub-table whose entry the rest of the bits index.
  lemma {:induction false} SubTableIndex(kind: CodeType, l: seq<nat>, T: seq<Code>, root: nat, h: nat, n: nat, link: Code)
    requires AtRoot(kind, l, T, root, ToBits(h, n), link) && IsLink(link) && root <= n && h < Pow2(n)
    ensures link.bits == root && link.val + Shr(Low(h, root + link.op), root) < |T|
    ensures var e := T[link.val + Shr(Low(h, root + link.op), root)];
            && LensOk(l) && |l| <= MaxSyms(kind) && root + e.bits <= 15
            && !IsLink(e) && Resolved(kind, l, ToBits(h, n), root, e)
            && (root + e.bits > n ==> Find(l, ToBits(h, n)) == More)
  {
    hide Pow2, TableFor, Rejected, Find, Padded, Low, Shr, Here;
    SubIndex(h, n, root, link.op);
    SubEntry(kind, l, T, root, ToBits(h, n));
  }

  // The same link is found when more bits are held.
  lemma {:induction false} SameRoot(kind: CodeType, l: seq<nat>, T: seq<Code>, root: nat, held: seq<bool>, more: seq<bool>, e: Code)
    requires AtRoot(kind, l, T, root, held, e) && root <= |held| && held <= more
    ensures AtRoot(kind, l, T, root, more, e)
  {
    assert Padded(more, root) == Padded(held, root);
  }

  lemma {:induction false} RootResolved(kind: CodeType, l: seq<nat>, T: seq<Code>, root: nat, held: seq<bool>, e: Code)
    requires AtRoot(kind, l, T, root, held, e) && !IsLink(e)
    ensures LensOk(l) && |l| <= MaxSyms(kind) && Resolved(kind, l, held, 0, e)
  {
    hide TableFor, Rejected, Find, Padded, Here;
    RootEntry(kind, l, T, root, held);
  }

  lemma {:induction false} LinkBits(kind: CodeType, l: seq<nat>, T: seq<Code>, root: nat, held: seq<bool>, e: Code)
    requires AtRoot(kind, l, T, root, held, e) && IsLink(e)
    ensures e.bits == root
  {
    hide TableFor, Rejected, Find, Padded, Here;
    RootEntry(kind, l, T, root, held);
  }

  /** Find the next symbol: its entry, and the bits to drop before those of the entry. */
  method FindSymbol(s: Inflater, kind: CodeType, table: array<Code>, off: nat, root: nat, ghost l: seq<nat>)
    returns (ok: bool, here: Code, drop: nat)
    requires s.Regs() && off <= table.Length && TableFits(kind, l, table[off..], root) && LensOk(l) && |l| <= MaxSyms(kind)
    modifies s`hold, s`bits, s`next
    ensures s.Regs() && s.Ahead() == old(s.Ahead()) && old(s.Held()) <= s.Held()
    ensures Pulled(l, old(s.bits), s.Held())
    ensures ok ==> drop + here.bits <= s.bits && Resolved(kind, l, s.Held(), drop, here)
    ensures !ok ==> s.next == |s.input| && Find(l, s.Held()) == More
  {
    hide TableFits, AtRoot, Inflater.Ahead, Find, Pow2, LensOk, Low, Shr, Resolved;
    ghost var T := table[off..];
    drop := 0;
    ok, here := FindEntry(s, kind, table, off, root, l);
    if !ok {
      return;
    }
    if here.op != 0 && here.op < 16 {
      var link := here;
      LinkBits(kind, l, T, root, s.Held(), link);
      while true
        invariant s.Regs() && s.Ahead() == old(s.Ahead()) && old(s.Held()) <= s.Held()
        invariant Pulled(l, old(s.bits), s.Held())
        invariant AtRoot(kind, l, T, root, s.Held(), link) && root == link.bits <= s.bits
        decreases |s.input| - s.next
      {
        SubTableIndex(kind, l, T, root, s.hold, s.bits, link);
        here := table[off + (link.val + Shr(Low(s.hold, link.bits + link.op), link.bits))];
        if link.bits + here.bits <= s.bits {
          break;
        }
        ghost var held := s.Held();
        ok := s.PullByte();
        if !ok {
          return;
        }
        MorePrefix(l, held, s.Held());
        SameRoot(kind, l, T, root, held, s.Held(), link);
      }
      drop := link.bits;
    } else {
      RootResolved(kind, l, T, root, s.Held(), here);
    }
  }
}
