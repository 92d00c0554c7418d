/** The two sides of a Huffman code: what gen_codes (trees.c) stores and what the tables of inflate_table (inftrees.c) find. */
module Agreement {
  import opened Bits
  import opened Canonical
  import opened TableCells
  import opened CodeCounts
  import opened GenCodes
  import opened BlockMachine
  import opened Inftrees
  import opened Lookup
  import opened RunReader

  /** No string begins with the stored codes of two symbols. */
  lemma {:induction false} StoredPrefixFree(lens: seq<nat>, codes: seq<nat>, lengths: seq<nat>, s: nat, t: nat, b: seq<bool>)
    requires Holds(lens, codes, lengths) && Fits(lens) && s < |lens| && t < |lens| && lens[s] > 0 && lens[t] > 0
    requires ToBits(codes[s], lens[s]) <= b && ToBits(codes[t], lens[t]) <= b
    ensures s == t
  {
    hide Holds, Fits, CodeBits, ToBits, LensOk;
    HeldCode(lens, codes, lengths, s);
    HeldCode(lens, codes, lengths, t);
    PrefixFree(lens, s, t, b);
  }

  /** A table made from the lengths alone finds every symbol behind its stored code, whatever follows. */
  lemma {:induction false} StoredFound(kind: CodeType, lens: seq<nat>, codes: seq<nat>, lengths: seq<nat>, T: seq<Code>, root: nat,
                                       s: nat, more: seq<bool>)
    requires Usable(kind, lens) && TableFor(kind, lens, T, root) && Holds(lens, codes, lengths) && s < |lens| && lens[s] > 0
    ensures var b := ToBits(codes[s], lens[s]) + more;
            && Num(Padded(b, root)) < |T|
            && var e := T[Num(Padded(b, root))];
               if !IsLink(e) then e == Here(kind, s, lens[s])
               else root <= |b| && lens[s] >= root && e.val + Num(Padded(b[root..], e.op)) < |T| &&
                    T[e.val + Num(Padded(b[root..], e.op))] == Here(kind, s, lens[s] - root)
  {
    hide Holds, CodeBits, ToBits, TableFor, Find, Rejected, Padded;
    HeldCode(lens, codes, lengths, s);
    var b := ToBits(codes[s], lens[s]) + more;
    FoundFirst(kind, lens, s, more);
    RootEntry(kind, lens, T, root, b);
    if IsLink(T[Num(Padded(b, root))]) {
      SubEntry(kind, lens, T, root, b);
    }
  }
}
