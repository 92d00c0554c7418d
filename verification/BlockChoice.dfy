/** Which kind of block _tr_flush_block (trees.c) takes, and how far that is from the least one. */
module BlockChoice {
  import opened Bits
  import opened Canonical
  import opened CodeCounts
  import opened Tokens
  import opened BlockMachine
  import opened BitWriter
  import opened BlockHeader
  import opened BlockData
  import opened Blocks

  // The bytes of a block of codes that begins at a byte boundary.
  function CodedBytes(b: Block): nat
    requires BlockOk(b) && !b.StoredBlock?
  {
    (|BlockString(b, false, 0)| + 7) / 8
  }

  // The fewer bytes of the two blocks of codes.
  function LeastCoded(h: Header, ts: seq<Token>): nat
    requires BlockOk(DynBlock(h, ts)) && BlockOk(FixedBlock(ts))
  {
    var dyn, fix := CodedBytes(DynBlock(h, ts)), CodedBytes(FixedBlock(ts));
    if fix <= dyn then fix else dyn
  }

  /** The rule: a stored block if its bytes are at hand and they and two words take no more than the codes, or else
      the dynamic trees if they take fewer bytes than the static ones and the strategy allows them. */
  ghost predicate Chosen(b: Block, h: Header, ts: seq<Token>, buf: Option<seq<nat>>, stored_len: nat, fixed: bool) {
    && BlockOk(DynBlock(h, ts)) && BlockOk(FixedBlock(ts))
    && (b.StoredBlock? <==> buf.Some? && stored_len + 4 <= LeastCoded(h, ts))
    && (b.DynBlock? <==> !b.StoredBlock? && !fixed && CodedBytes(DynBlock(h, ts)) < CodedBytes(FixedBlock(ts)))
    && match b
       case StoredBlock(bytes) => buf == Some(bytes)
       case FixedBlock(ts1) => ts1 == ts
       case DynBlock(h1, ts1) => h1 == h && ts1 == ts
  }

  // A block that could be taken.
  ghost predicate Candidate(a: Block, h: Header, ts: seq<Token>, buf: Option<seq<nat>>) {
    BlockOk(a) && (a == DynBlock(h, ts) || a == FixedBlock(ts) || (buf.Some? && a == StoredBlock(buf.value)))
  }

  // The bytes of a stream of `pos` bits with the block after it.
  function BytesWith(b: Block, pos: nat): nat
    requires BlockOk(b)
  {
    (pos + |BlockString(b, false, pos)| + 7) / 8
  }

  /** The block taken is one of the shortest. */
  ghost predicate NoneShorter(b: Block, h: Header, ts: seq<Token>, buf: Option<seq<nat>>, pos: nat)
    requires BlockOk(b)
  {
    forall a: Block :: Candidate(a, h, ts, buf) ==> BytesWith(b, pos) <= BytesWith(a, pos)
  }

  lemma {:induction false} CodedLength(b: Block, last: bool, pos: nat)
    requires BlockOk(b) && !b.StoredBlock?
    ensures |BlockString(b, last, pos)| == |BlockString(b, false, 0)|
  {
    hide HeaderBits, BlockBits, TypeBits;
  }

  lemma {:induction false} StoredLength(bytes: seq<nat>, last: bool, pos: nat)
    requires BlockOk(StoredBlock(bytes))
    ensures |BlockString(StoredBlock(bytes), last, pos)| == 3 + Padding(pos + 3) + 32 + 8 * |bytes|
  {
    hide TypeBits, ToBits, ByteBits;
  }

  lemma {:induction false} StoredBytes(bytes: seq<nat>, pos: nat)
    requires BlockOk(StoredBlock(bytes))
    ensures BytesWith(StoredBlock(bytes), pos) == pos / 8 + (if pos % 8 < 6 then 5 else 6) + |bytes|
  {
    hide BlockOk, BlockString;
    StoredLength(bytes, false, pos);
  }

  // A block of codes that begins within a byte may reach into one more.
  lemma {:induction false} CodedAt(b: Block, pos: nat)
    requires BlockOk(b) && !b.StoredBlock?
    ensures pos / 8 + CodedBytes(b) <= BytesWith(b, pos) <= pos / 8 + CodedBytes(b) + 1
    ensures pos % 8 == 0 ==> BytesWith(b, pos) == pos / 8 + CodedBytes(b)
  {
    hide BlockOk, BlockString;
    CodedLength(b, false, pos);
  }

  lemma {:induction false} FewerBits(a: Block, b: Block, pos: nat)
    requires BlockOk(a) && !a.StoredBlock? && BlockOk(b) && !b.StoredBlock? && CodedBytes(a) < CodedBytes(b)
    ensures BytesWith(a, pos) <= BytesWith(b, pos)
  {
    hide BlockOk, BlockString;
    CodedLength(a, false, pos);
    CodedLength(b, false, pos);
  }

  /** Unless the strategy asks for static trees, the block taken is at most one byte longer than any other; only a
      stored block that begins with the last two bits of a byte may be longer by two, and one with dynamic trees is never longer. */
  lemma {:induction false} NearlyShortest(b: Block, a: Block, h: Header, ts: seq<Token>, buf: Option<seq<nat>>, stored_len: nat, pos: nat)
    requires Chosen(b, h, ts, buf, stored_len, false) && BlockOk(b) && Candidate(a, h, ts, buf)
    requires buf.Some? ==> |buf.value| == stored_len
    ensures BytesWith(b, pos) <= BytesWith(a, pos) + if b.StoredBlock? && pos % 8 >= 6 then 2 else 1
    ensures b.DynBlock? ==> BytesWith(b, pos) <= BytesWith(a, pos)
  {
    hide BlockOk, CodedBytes, BytesWith;
    var dyn, fix := DynBlock(h, ts), FixedBlock(ts);
    CodedAt(dyn, pos);
    CodedAt(fix, pos);
    if buf.Some? && (a.StoredBlock? || b.StoredBlock?) {
      StoredBytes(buf.value, pos);
    }
    if b.DynBlock? && a.FixedBlock? {
      FewerBits(dyn, fix, pos);
    }
  }

  /** At a byte boundary the block taken is one of the shortest, except where a stored block and two words take just the
      bytes of the codes, and where the strategy forbids dynamic trees that would be shortest. */
  lemma {:induction false} ShortestIff(b: Block, h: Header, ts: seq<Token>, buf: Option<seq<nat>>, stored_len: nat, fixed: bool, pos: nat)
    requires Chosen(b, h, ts, buf, stored_len, fixed) && BlockOk(b) && pos % 8 == 0
    requires buf.Some? ==> |buf.value| == stored_len && BlockOk(StoredBlock(buf.value))
    ensures NoneShorter(b, h, ts, buf, pos) <==>
              && (buf.Some? ==> stored_len + 4 != LeastCoded(h, ts))
              && !(fixed && CodedBytes(DynBlock(h, ts)) < CodedBytes(FixedBlock(ts)) &&
                   (buf.Some? ==> CodedBytes(DynBlock(h, ts)) < stored_len + 4))
  {
    hide BlockOk, CodedBytes, BytesWith;
    var dyn, fix := DynBlock(h, ts), FixedBlock(ts);
    CodedAt(dyn, pos);
    CodedAt(fix, pos);
    assert Candidate(dyn, h, ts, buf) && Candidate(fix, h, ts, buf);
    if buf.Some? {
      StoredBytes(buf.value, pos);
      assert Candidate(StoredBlock(buf.value), h, ts, buf);
    }
  }
}
