/** CRC-32 (crc32.c): the tables and the loops over the input. */
module Crc {
  import opened Bits
  import opened ExclusiveOr
  import opened Tokens
  import opened CrcRegister

  // t[k, n] is the register after the byte n and k bytes of zeros.
  ghost predicate TableOk(t: array2<nat>)
    reads t
  {
    && t.Length0 == 4 && t.Length1 == 256
    && forall k, n :: 0 <= k < 4 && 0 <= n < 256 ==> t[k, n] == Shifts(n, 8 * k + 8)
  }

  // The register of one byte, bit by bit.
  method ByteRegister(n: nat) returns (c: nat)
    requires n < 256
    ensures c == Shifts(n, 8)
  {
    hide Xor;
    c := n;
    for k := 0 to 8
      invariant Shifts(c, 8 - k) == Shifts(n, 8)
    {
      c := if c % 2 == 1 then Xor(POLY, c / 2) else c / 2;
    }
  }

  // A byte of zeros more.
  lemma {:induction false} NextTable(c: nat, n: nat, k: nat)
    requires c == Shifts(n, 8 * k) && n < 256 && k > 0
    ensures Xor(Shifts(c % 256, 8), c / 256) == Shifts(n, 8 * k + 8)
  {
    hide Xor, Shifts;
    Peel(c, 8);
    NoShifts(c / 256);
    ShiftsAdd(n, 8 * k, 8);
  }

  /** make_crc_table, the tables of little-endian words. */
  method MakeCrcTable() returns (t: array2<nat>)
    ensures fresh(t) && TableOk(t)
  {
    hide Xor, Shifts;
    t := new nat[4, 256];
    for n := 0 to 256
      invariant forall i :: 0 <= i < n ==> t[0, i] == Shifts(i, 8)
    {
      t[0, n] := ByteRegister(n);
    }
    for n := 0 to 256
      invariant forall i :: 0 <= i < 256 ==> t[0, i] == Shifts(i, 8)
      invariant forall k, i :: 0 <= k < 4 && 0 <= i < n ==> t[k, i] == Shifts(i, 8 * k + 8)
    {
      MoreZeros(t, n);
    }
  }

  method MoreZeros(t: array2<nat>, n: nat)
    requires t.Length0 == 4 && t.Length1 == 256 && n < 256
    requires forall i :: 0 <= i < 256 ==> t[0, i] == Shifts(i, 8)
    modifies t
    ensures forall k :: 0 <= k < 4 ==> t[k, n] == Shifts(n, 8 * k + 8)
    ensures forall k, i :: 0 <= k < 4 && 0 <= i < 256 && (k == 0 || i != n) ==> t[k, i] == old(t[k, i])
  {
    hide Xor, Shifts;
    var c := t[0, n];
    for k := 1 to 4
      invariant c == Shifts(n, 8 * k)
      invariant forall j :: 0 <= j < k ==> t[j, n] == Shifts(n, 8 * j + 8)
      invariant forall j, i :: 0 <= j < 4 && 0 <= i < 256 && (j == 0 || i != n) ==> t[j, i] == old(t[j, i])
    {
      NextTable(c, n, k);
      c := Xor(t[0, c % 256], c / 256);
      t[k, n] := c;
    }
  }

  // The register after the first `i` bytes.
  ghost predicate Fed(c: nat, crc: nat, s: seq<nat>, i: nat) {
    i <= |s| && c < U32 && c == Feed(Xor(crc, ONES), ByteBits(s[..i]))
  }

  lemma {:induction false} FedOn(c: nat, crc: nat, s: seq<nat>, i: nat, n: nat, d: nat)
    requires Fed(c, crc, s, i) && i + n <= |s| && d == Feed(c, ByteBits(s[i..i + n])) < U32
    ensures Fed(d, crc, s, i + n)
  {
    hide Feed, ByteBits, Xor;
    assert s[..i + n] == s[..i] + s[i..i + n];
    ByteBitsConcat(s[..i], s[i..i + n]);
    FeedConcat(Xor(crc, ONES), ByteBits(s[..i]), ByteBits(s[i..i + n]));
  }

  // DO1
  method OneStep(t: array2<nat>, c: nat, ghost crc: nat, s: seq<nat>, i: nat) returns (d: nat)
    requires TableOk(t) && IsBytes(s) && i < |s| && Fed(c, crc, s, i)
    ensures Fed(d, crc, s, i + 1)
  {
    hide Xor, Shifts, Feed, ByteBits;
    ByteStep(c, s[i]);
    assert s[i..i + 1] == [s[i]];
    d := Xor(t[0, Xor(c, s[i]) % 256], c / 256);
    FedOn(c, crc, s, i, 1, d);
  }

  // DOLIT4
  method FourSteps(t: array2<nat>, c: nat, ghost crc: nat, s: seq<nat>, i: nat) returns (d: nat)
    requires TableOk(t) && IsBytes(s) && i + 4 <= |s| && Fed(c, crc, s, i)
    ensures Fed(d, crc, s, i + 4)
  {
    hide Xor, Shifts, Feed, ByteBits;
    WordStep(c, s[i..i + 4]);
    d := Xor(c, Word(s[i..i + 4]));
    d := Xor(Xor(Xor(t[3, d % 256], t[2, d / 256 % 256]), t[1, d / 0x1_0000 % 256]), t[0, d / 0x100_0000]);
    FedOn(c, crc, s, i, 4, d);
  }

  /** crc32_little: the loop over words gives the bit-at-a-time checksum, wherever the input lies. */
  method Crc32Little(t: array2<nat>, crc: nat, s: seq<nat>, addr: nat) returns (r: nat)
    requires TableOk(t) && IsBytes(s) && crc < U32
    ensures r == Crc32(crc, s) && r < U32
  {
    hide Xor, Feed, ByteBits;
    StartFed(crc, s);
    var c: nat, i: nat := ONES - crc, 0;
    while i < |s| && (addr + i) % 4 != 0
      invariant Fed(c, crc, s, i)
    {
      c := OneStep(t, c, crc, s, i);
      i := i + 1;
    }
    while |s| - i >= 32
      invariant Fed(c, crc, s, i)
    {
      ghost var start := i;
      for k := 0 to 8
        invariant i == start + 4 * k && Fed(c, crc, s, i)
      {
        c := FourSteps(t, c, crc, s, i);
        i := i + 4;
      }
    }
    while |s| - i >= 4
      invariant Fed(c, crc, s, i)
    {
      c := FourSteps(t, c, crc, s, i);
      i := i + 4;
    }
    while i < |s|
      invariant Fed(c, crc, s, i)
    {
      c := OneStep(t, c, crc, s, i);
      i := i + 1;
    }
    r := ONES - c;
    EndFed(c, crc, s);
  }

  lemma {:induction false} StartFed(crc: nat, s: seq<nat>)
    requires crc < U32
    ensures Fed(ONES - crc, crc, s, 0)
  {
    hide Xor;
    WordBits();
    XorOnes(crc, 32);
  }

  lemma {:induction false} EndFed(c: nat, crc: nat, s: seq<nat>)
    requires Fed(c, crc, s, |s|)
    ensures Crc32(crc, s) == ONES - c
  {
    hide Xor, Feed, ByteBits;
    WordBits();
    assert s[..|s|] == s;
    XorOnes(c, 32);
  }

  /** crc32_z: no buffer resets the checksum; on a machine without four-byte words the loop goes byte by byte. */
  method Crc32Z(t: array2<nat>, crc: nat, buf: array?<nat>, len: nat, addr: nat, byfour: bool) returns (r: nat)
    requires TableOk(t) && crc < U32 && (buf != null ==> len <= buf.Length && IsBytes(buf[..len]))
    ensures r == if buf == null then 0 else Crc32(crc, buf[..len])
  {
    hide Xor, Feed, ByteBits;
    if buf == null {
      return 0;
    }
    var s := buf[..len];
    if byfour {
      r := Crc32Little(t, crc, s, addr);
      return;
    }
    StartFed(crc, s);
    WordBits();
    XorOnes(crc, 32);
    var c: nat, i: nat := Xor(crc, ONES), 0;
    while |s| - i >= 8
      invariant Fed(c, crc, s, i)
    {
      ghost var start := i;
      for k := 0 to 8
        invariant i == start + k && Fed(c, crc, s, i)
      {
        c := OneStep(t, c, crc, s, i);
        i := i + 1;
      }
    }
    while i < |s|
      invariant Fed(c, crc, s, i)
    {
      c := OneStep(t, c, crc, s, i);
      i := i + 1;
    }
    r := Xor(c, ONES);
    XorOnes(c, 32);
    EndFed(c, crc, s);
  }
}
