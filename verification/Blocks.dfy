/** The three kinds of blocks (section 3.2.3 of RFC 1951) and how inflate reads them back. */
module Blocks {
  import opened Bits
  import opened Canonical
  import opened TableCells
  import opened CodeCounts
  import opened EnoughSpace
  import opened FixedCodes
  import opened Tokens
  import opened BlockMachine
  import opened BitWriter
  import opened RunReader
  import opened BlockData
  import opened BlockHeader
  import opened CodeRuns

  datatype Block =
    | StoredBlock(bytes: seq<nat>)
    | FixedBlock(ts: seq<Token>)
    | DynBlock(h: Header, ts: seq<Token>)

  function FixedBlockCodes(last: bool): Codes {
    Codes(last, FixedLit(), FixedDist())
  }

  predicate BlockOk(b: Block) {
    match b
    case StoredBlock(bytes) => IsBytes(bytes) && |bytes| < 65536
    case FixedBlock(ts) => EncodesAll(FixedBlockCodes(false), ts)
    case DynBlock(h, ts) => HeaderOk(h) && EncodesAll(Codes(false, h.lit, h.dist), ts)
  }

  // The zero bits that fill the byte when `n` bits are written.
  function Padding(n: nat): (p: nat)
    ensures p < 8 && (n + p) % 8 == 0
  {
    (8 - n % 8) % 8
  }

  function TypeBits(kind: nat, last: bool): (b: seq<bool>)
    ensures |b| == 3
  {
    ToBits(2 * kind + (if last then 1 else 0), 3)
  }

  // The bits of a block that starts after `pos` bits.
  function BlockString(b: Block, last: bool, pos: nat): seq<bool>
    requires BlockOk(b)
  {
    match b
    case StoredBlock(bytes) =>
      TypeBits(0, last) + Zeros(Padding(pos + 3)) + ToBits(|bytes|, 16) + ToBits(65535 - |bytes|, 16) + ByteBits(bytes)
    case FixedBlock(ts) => TypeBits(1, last) + BlockBits(FixedBlockCodes(false), ts)
    case DynBlock(h, ts) => TypeBits(2, last) + HeaderBits(h) + BlockBits(Codes(false, h.lit, h.dist), ts)
  }

  // The block means something after the output `hist`.
  predicate Sensible(b: Block, hist: seq<nat>) {
    b.StoredBlock? || TokensOk(b.ts, hist)
  }

  // The output after the block.
  function After(b: Block, hist: seq<nat>): seq<nat>
    requires Sensible(b, hist)
  {
    if b.StoredBlock? then hist + b.bytes else Expand(b.ts, hist)
  }

  // inflate can build the tables of the block.
  predicate Buildable(b: Block) {
    b.DynBlock? && BlockOk(b) ==>
      !Unbuildable(LENS, b.h.lit, 9) && !Unbuildable(DISTS, b.h.dist, 6)
  }

  // The block has trees that a compressor may make: its literal and distance codes fill the code space, or have a single
  // code of one bit, or there is no distance code, and inflate_table takes the code length code.
  predicate Built(b: Block) {
    b.DynBlock? ==> Usable(CODES, b.h.cl) && Decodable(LENS, b.h.lit) && Decodable(DISTS, b.h.dist)
  }

  /** inflate can build the tables of any such block. */
  lemma {:induction false} BuiltBuildable(b: Block)
    requires BlockOk(b) && Built(b)
    ensures Buildable(b)
  {
    hide Outgrown, RootBits, Rejected, Decodable, EncodesAll, Sendable, MaxLen;
    if b.DynBlock? {
      AlwaysRoom(LENS, b.h.lit, 9);
      AlwaysRoom(DISTS, b.h.dist, 6);
    }
  }

  // `last` makes no difference to the bits of the data.
  lemma {:induction false} LastBits(lit: seq<nat>, dist: seq<nat>, ts: seq<Token>, last: bool)
    requires EncodesAll(Codes(false, lit, dist), ts)
    ensures EncodesAll(Codes(last, lit, dist), ts)
    ensures BlockBits(Codes(last, lit, dist), ts) == BlockBits(Codes(false, lit, dist), ts)
  {
    hide CodeBits, LensOk;
    LastTokens(lit, dist, ts, last);
  }

  lemma {:induction false} LastTokens(lit: seq<nat>, dist: seq<nat>, ts: seq<Token>, last: bool)
    requires EncodesAll(Codes(false, lit, dist), ts)
    ensures EncodesAll(Codes(last, lit, dist), ts)
    ensures TokensBits(Codes(last, lit, dist), ts) == TokensBits(Codes(false, lit, dist), ts)
  {
    hide CodeBits, LensOk;
    forall i | 0 <= i < |ts|
      ensures Encodes(Codes(last, lit, dist), ts[i])
      ensures TokenBits(Codes(last, lit, dist), ts[i]) == TokenBits(Codes(false, lit, dist), ts[i])
    {
      assert Encodes(Codes(false, lit, dist), ts[i]);
    }
    if ts != [] {
      hide Encodes, TokenBits;
      LastTokens(lit, dist, ts[..|ts| - 1], last);
    }
  }

  lemma {:induction false} ReadType(kind: nat, last: bool, rest: seq<bool>)
    requires kind < 3
    ensures var b := TypeBits(kind, last) + rest;
            |b| >= 3 && b[0] == last && Num(b[1..3]) == kind && b[3..] == rest
  {
    var b := TypeBits(kind, last) + rest;
    var v := 2 * kind + if last then 1 else 0;
    assert v / 2 == kind && (v % 2 == 1) == last;
    assert ToBits(v, 3) == [v % 2 == 1] + ToBits(v / 2, 2);
    assert b[1..3] == ToBits(kind, 2);
    NumToBits(kind, 2);
    assert Pow2(2) == 4;
    ShrLowUnique(kind, 2, kind, 0);
  }

  // Where the block type leads.
  function Started(kind: nat, last: bool): Mode {
    if kind == 0 then Stored(last) else if kind == 1 then Len(FixedBlockCodes(last)) else Table(last)
  }

  lemma {:induction false} ReadStart(kind: nat, last: bool, rest: seq<bool>, hist: seq<nat>)
    requires kind < 3 && IsBytes(hist)
    ensures ModeOk(Started(kind, last))
    ensures Reaches(Conf(TypeDo(false), TypeBits(kind, last) + rest, hist), Conf(Started(kind, last), rest, hist))
  {
    hide TypeBits, Rejected, FixedLit, FixedDist, LensOk, Num;
    ReadType(kind, last, rest);
    FixedUsable();
    assert hist + [] == hist;
    OneStep(Conf(TypeDo(false), TypeBits(kind, last) + rest, hist), Conf(Started(kind, last), rest, hist));
  }

  // The bytes of a stored block are copied one by one.
  lemma {:induction false} ReadBytes(last: bool, bytes: seq<nat>, rest: seq<bool>, hist: seq<nat>)
    requires IsBytes(bytes) && IsBytes(hist)
    ensures IsBytes(hist + bytes)
    ensures Reaches(Conf(Copy(last, |bytes|), ByteBits(bytes) + rest, hist), Conf(TypeDo(last), rest, hist + bytes))
    decreases |bytes|
  {
    hide Reaches, ToBits, Num;
    var c := Conf(Copy(last, |bytes|), ByteBits(bytes) + rest, hist);
    if bytes == [] {
      assert c.bits == rest && rest[0..] == rest && hist + [] == hist && hist + bytes == hist;
      OneStep(c, Conf(TypeDo(last), rest, hist));
    } else {
      var t := ByteBits(bytes[1..]) + rest;
      assert c.bits == ToBits(bytes[0], 8) + t;
      ReadByte(bytes[0], t);
      var d := Conf(Copy(last, |bytes| - 1), t, hist + [bytes[0]]);
      OneStep(c, d);
      ReadBytes(last, bytes[1..], rest, hist + [bytes[0]]);
      assert hist + [bytes[0]] + bytes[1..] == hist + bytes;
      ReachesJoin(c, d, Conf(TypeDo(last), rest, hist + bytes));
    }
  }

  lemma {:induction false} ReadByte(x: nat, t: seq<bool>)
    requires x < 256
    ensures Num((ToBits(x, 8) + t)[..8]) == x && (ToBits(x, 8) + t)[8..] == t
  {
    assert Pow2(8) == 256;
    ReadExtra(x, 8, t);
  }

  lemma {:induction false} ReadLengths(n: nat, t: seq<bool>)
    requires n < 65536
    ensures var b := ToBits(n, 16) + ToBits(65535 - n, 16) + t;
            |b| >= 32 && Num(b[..16]) == n && Num(b[16..32]) == 65535 - n && b[32..] == t
  {
    assert Pow2(16) == 65536 by { Pow2Values(); }
    hide Pow2, ToBits, Num;
    CountRead(65535 - n, 16, ToBits(n, 16), t);
    ReadExtra(n, 16, ToBits(65535 - n, 16) + t);
    JoinedFirst(ToBits(n, 16), ToBits(65535 - n, 16), t);
  }

  lemma {:induction false} JoinedFirst(x: seq<bool>, y: seq<bool>, t: seq<bool>)
    ensures (x + y + t)[..|x|] == (x + (y + t))[..|x|]
  {
  }

  // The padding in front of a stored block is skipped.
  lemma {:induction false} SkipPadding(last: bool, pad: nat, b: seq<bool>, hist: seq<nat>)
    requires IsBytes(hist) && |b| % 8 == 0 && pad < 8
    ensures Reaches(Conf(Stored(last), Zeros(pad) + b, hist), Conf(Stored(last), b, hist))
  {
    hide Reaches, Num, Zeros, IsBytes;
    var c, d := Conf(Stored(last), Zeros(pad) + b, hist), Conf(Stored(last), b, hist);
    assert |Zeros(pad) + b| % 8 == pad && hist + [] == hist && (Zeros(pad) + b)[pad..] == b;
    if pad > 0 {
      OneStep(c, d);
    } else {
      assert c == d;
      NoStep(c);
    }
  }

  lemma {:induction false} ReadStored(last: bool, bytes: seq<nat>, pad: nat, rest: seq<bool>, hist: seq<nat>)
    requires IsBytes(bytes) && IsBytes(hist) && |bytes| < 65536 && |rest| % 8 == 0 && pad < 8
    ensures Reaches(Conf(Stored(last), Zeros(pad) + (ToBits(|bytes|, 16) + ToBits(65535 - |bytes|, 16) + (ByteBits(bytes) + rest)), hist),
                    Conf(TypeDo(last), rest, hist + bytes))
  {
    hide Reaches, ToBits, Num, ByteBits, Zeros, IsBytes;
    var t := ByteBits(bytes) + rest;
    var b := ToBits(|bytes|, 16) + ToBits(65535 - |bytes|, 16) + t;
    var c, d := Conf(Stored(last), Zeros(pad) + b, hist), Conf(Stored(last), b, hist);
    SkipPadding(last, pad, b, hist);
    ReadLengths(|bytes|, t);
    var e := Conf(Copy(last, |bytes|), t, hist);
    assert hist + [] == hist;
    OneStep(d, e);
    ReachesJoin(c, d, e);
    ReadBytes(last, bytes, rest, hist);
    ReachesJoin(c, e, Conf(TypeDo(last), rest, hist + bytes));
  }

  lemma {:induction false} AfterIsBytes(b: Block, hist: seq<nat>)
    requires BlockOk(b) && Sensible(b, hist) && IsBytes(hist)
    ensures IsBytes(After(b, hist))
  {
    if !b.StoredBlock? {
      hide EncodesAll, HeaderOk;
      TokensBytes(b.ts, hist);
    }
  }

  lemma {:induction false} TokensBytes(ts: seq<Token>, hist: seq<nat>)
    requires TokensOk(ts, hist) && IsBytes(hist)
    ensures IsBytes(Expand(ts, hist))
  {
    if ts != [] {
      DenotedBytes(ts[0], hist);
      TokensBytes(ts[1..], Denoted(ts[0], hist));
    }
  }

  lemma {:induction false} DenotedBytes(t: Token, hist: seq<nat>)
    requires TokenOk(t, hist) && IsBytes(hist)
    ensures IsBytes(Denoted(t, hist))
  {
    if t.Match? {
      CopiedBytes(hist, t.dist, t.length);
    }
  }

  lemma {:induction false} CopiedBytes(hist: seq<nat>, d: nat, n: nat)
    requires 0 < d <= |hist| && IsBytes(hist)
    ensures IsBytes(Copied(hist, d, n))
    decreases n
  {
    if n > 0 {
      CopiedBytes(hist + [hist[|hist| - d]], d, n - 1);
    }
  }

  lemma {:induction false} ReadFixed(ts: seq<Token>, last: bool, rest: seq<bool>, hist: seq<nat>)
    requires EncodesAll(FixedBlockCodes(false), ts) && TokensOk(ts, hist) && IsBytes(hist)
    ensures Reaches(Conf(Started(1, last), BlockBits(FixedBlockCodes(false), ts) + rest, hist),
                    Conf(TypeDo(last), rest, Expand(ts, hist)))
  {
    hide Reaches, BlockBits, FixedLit, FixedDist, Rejected;
    FixedUsable();
    LastBits(FixedLit(), FixedDist(), ts, last);
    ReadBlockData(FixedBlockCodes(last), ts, rest, hist);
  }

  lemma {:induction false} ReadDynamic(h: Header, ts: seq<Token>, last: bool, rest: seq<bool>, hist: seq<nat>)
    requires HeaderOk(h) && EncodesAll(Codes(false, h.lit, h.dist), ts) && TokensOk(ts, hist) && IsBytes(hist)
    requires Usable(CODES, h.cl)
    requires !Unbuildable(LENS, h.lit, 9) && !Unbuildable(DISTS, h.dist, 6)
    ensures Reaches(Conf(Started(2, last), HeaderBits(h) + (BlockBits(Codes(false, h.lit, h.dist), ts) + rest), hist),
                    Conf(TypeDo(last), rest, Expand(ts, hist)))
  {
    hide Reaches, BlockBits, HeaderBits, Rejected, Outgrown, RootBits, MaxLen, HeaderOk, EncodesAll, Sendable;
    HeaderTables(h, last, ts);
    LastBits(h.lit, h.dist, ts, last);
    var t := BlockBits(Codes(false, h.lit, h.dist), ts) + rest;
    ReadHeader(h, last, t, hist);
    ReadBlockData(Codes(last, h.lit, h.dist), ts, rest, hist);
    ReachesJoin(Conf(Table(last), HeaderBits(h) + t, hist), Conf(Len(Codes(last, h.lit, h.dist)), t, hist),
                Conf(TypeDo(last), rest, Expand(ts, hist)));
  }

  lemma {:induction false} HeaderTables(h: Header, last: bool, ts: seq<Token>)
    requires HeaderOk(h) && EncodesAll(Codes(false, h.lit, h.dist), ts)
    requires !Unbuildable(LENS, h.lit, 9) && !Unbuildable(DISTS, h.dist, 6)
    ensures 257 <= |h.lit| <= 286 && |h.dist| <= 30 && LensOk(h.lit + h.dist)
    ensures TablesMade(last, h.lit + h.dist, |h.lit|) == Len(Codes(last, h.lit, h.dist))
    ensures CodesOk(Codes(last, h.lit, h.dist))
  {
    hide Rejected, Outgrown, RootBits, MaxLen, Sendable, Encodes;
    var l := h.lit + h.dist;
    assert l[..|h.lit|] == h.lit && l[|h.lit|..] == h.dist && l[256] == h.lit[256];
  }

  // A block whose tables cannot be built stops the machine at the end of its header.
  lemma {:induction false} ReadRefused(h: Header, ts: seq<Token>, last: bool, t: seq<bool>, hist: seq<nat>)
    requires HeaderOk(h) && EncodesAll(Codes(false, h.lit, h.dist), ts) && IsBytes(hist) && Usable(CODES, h.cl)
    requires Unbuildable(LENS, h.lit, 9) || Unbuildable(DISTS, h.dist, 6)
    ensures Reaches(Conf(Started(2, last), HeaderBits(h) + t, hist), Conf(Bad, t, hist))
  {
    hide Reaches, HeaderBits, Rejected, Outgrown, RootBits, MaxLen, Sendable, EncodesAll;
    ReadHeader(h, last, t, hist);
    var l := h.lit + h.dist;
    assert l[..|h.lit|] == h.lit && l[|h.lit|..] == h.dist;
  }

  /** Every block is read back as what it stands for, taking exactly its own bits, unless its
      tables outgrow their space; then the machine stops. */
  lemma {:induction false} BlockRoundTrip(b: Block, last: bool, pos: nat, rest: seq<bool>, hist: seq<nat>)
    requires BlockOk(b) && Sensible(b, hist) && IsBytes(hist) && (b.DynBlock? ==> Usable(CODES, b.h.cl))
    requires (pos + |BlockString(b, last, pos)| + |rest|) % 8 == 0
    ensures Buildable(b) ==>
              Reaches(Conf(TypeDo(false), BlockString(b, last, pos) + rest, hist), Conf(TypeDo(last), rest, After(b, hist)))
    ensures !Buildable(b) ==>
              Reaches(Conf(TypeDo(false), BlockString(b, last, pos) + rest, hist),
                      Conf(Bad, BlockBits(Codes(false, b.h.lit, b.h.dist), b.ts) + rest, hist))
  {
    hide Reaches, BlockBits, HeaderBits, EncodesAll, HeaderOk, Usable, Unbuildable, TypeBits, ToBits, ByteBits,
         FixedLit, FixedDist, Expand, TokensOk, BlockString, BlockOk;
    match b
    case StoredBlock(bytes) => StoredRoundTrip(bytes, last, pos, rest, hist);
    case FixedBlock(ts) => FixedRoundTrip(ts, last, pos, rest, hist);
    case DynBlock(h, ts) => DynamicRoundTrip(h, ts, last, pos, rest, hist);
  }

  lemma {:induction false} StoredRoundTrip(bytes: seq<nat>, last: bool, pos: nat, rest: seq<bool>, hist: seq<nat>)
    requires BlockOk(StoredBlock(bytes)) && IsBytes(hist) && (pos + |BlockString(StoredBlock(bytes), last, pos)| + |rest|) % 8 == 0
    ensures Reaches(Conf(TypeDo(false), BlockString(StoredBlock(bytes), last, pos) + rest, hist), Conf(TypeDo(last), rest, hist + bytes))
  {
    hide Reaches, TypeBits, Started, ToBits, ByteBits, IsBytes;
    var c0 := Conf(TypeDo(false), BlockString(StoredBlock(bytes), last, pos) + rest, hist);
    var pad := Padding(pos + 3);
    var t := Zeros(pad) + (ToBits(|bytes|, 16) + ToBits(65535 - |bytes|, 16) + (ByteBits(bytes) + rest));
    assert c0.bits == TypeBits(0, last) + t;
    ReadStart(0, last, t, hist);
    StartedStored(last);
    ReadStored(last, bytes, pad, rest, hist);
    ReachesJoin(c0, Conf(Started(0, last), t, hist), Conf(TypeDo(last), rest, hist + bytes));
  }

  lemma {:induction false} FixedRoundTrip(ts: seq<Token>, last: bool, pos: nat, rest: seq<bool>, hist: seq<nat>)
    requires BlockOk(FixedBlock(ts)) && TokensOk(ts, hist) && IsBytes(hist)
    ensures Reaches(Conf(TypeDo(false), BlockString(FixedBlock(ts), last, pos) + rest, hist), Conf(TypeDo(last), rest, Expand(ts, hist)))
  {
    hide Reaches, BlockBits, EncodesAll, TypeBits, Started, FixedLit, FixedDist, Expand, TokensOk, IsBytes;
    var c0 := Conf(TypeDo(false), BlockString(FixedBlock(ts), last, pos) + rest, hist);
    var t := BlockBits(FixedBlockCodes(false), ts) + rest;
    assert c0.bits == TypeBits(1, last) + t;
    ReadStart(1, last, t, hist);
    ReadFixed(ts, last, rest, hist);
    ReachesJoin(c0, Conf(Started(1, last), t, hist), Conf(TypeDo(last), rest, Expand(ts, hist)));
  }

  lemma {:induction false} DynamicRoundTrip(h: Header, ts: seq<Token>, last: bool, pos: nat, rest: seq<bool>, hist: seq<nat>)
    requires BlockOk(DynBlock(h, ts)) && TokensOk(ts, hist) && IsBytes(hist) && Usable(CODES, h.cl)
    ensures var c0 := Conf(TypeDo(false), BlockString(DynBlock(h, ts), last, pos) + rest, hist);
            if Buildable(DynBlock(h, ts)) then Reaches(c0, Conf(TypeDo(last), rest, Expand(ts, hist)))
            else Reaches(c0, Conf(Bad, BlockBits(Codes(false, h.lit, h.dist), ts) + rest, hist))
  {
    hide Reaches, BlockBits, HeaderBits, EncodesAll, HeaderOk, Usable, Unbuildable, TypeBits, Started, Expand, TokensOk, IsBytes;
    var c0 := Conf(TypeDo(false), BlockString(DynBlock(h, ts), last, pos) + rest, hist);
    var u := BlockBits(Codes(false, h.lit, h.dist), ts) + rest;
    assert c0.bits == TypeBits(2, last) + (HeaderBits(h) + u);
    ReadStart(2, last, HeaderBits(h) + u, hist);
    if Buildable(DynBlock(h, ts)) {
      ReadDynamic(h, ts, last, rest, hist);
      ReachesJoin(c0, Conf(Started(2, last), HeaderBits(h) + u, hist), Conf(TypeDo(last), rest, Expand(ts, hist)));
    } else {
      ReadRefused(h, ts, last, u, hist);
      ReachesJoin(c0, Conf(Started(2, last), HeaderBits(h) + u, hist), Conf(Bad, u, hist));
    }
  }

  lemma {:induction false} StartedStored(last: bool)
    ensures Started(0, last) == Stored(last)
  {
  }
}
