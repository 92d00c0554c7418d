/** Tallying tokens (_tr_tally in trees.c) and what they cost. */
module Tally {
  import opened Bits
  import opened Canonical
  import opened FixedCodes
  import opened Tokens
  import opened Symbols
  import opened BlockMachine
  import opened BlockData
  import opened FirstPass
  import opened TreeCode

  const EXTRA_BLBITS: seq<nat> := [0, 0, 0, 0, 0, 0, 0, 0, 0, 0, 0, 0, 0, 0, 0, 0, 2, 3, 7]

  // The descriptions of the three trees.
  function LitDesc(): StaticDesc {
    StaticDesc(FixedLit(), EXTRA_LBITS, LITERALS + 1, L_CODES, MAX_BITS)
  }

  function DistDesc(): StaticDesc {
    StaticDesc(Repeat(5, D_CODES), EXTRA_DBITS, 0, D_CODES, MAX_BITS)
  }

  function BlDesc(): StaticDesc {
    StaticDesc([], EXTRA_BLBITS, 0, BL_CODES, 7)
  }

  lemma {:induction false} DescsOk()
    ensures DescOk(LitDesc()) && DescOk(DistDesc()) && DescOk(BlDesc())
  {
    assert Pow2(7) == 128;
    assert Pow2(15) == 32768 by { Pow2Values(); }
    hide Pow2, FixedLit, Repeat;
  }

  // The symbol of the literal and length alphabet that a token is sent with.
  function LitSym(t: Token): nat {
    match t
    case Literal(b) => b
    case Match(_, l) => 257 + LengthCode(if l < 3 then 0 else l - 3)
  }

  function DistSym(t: Token): nat {
    match t
    case Literal(_) => 0
    case Match(d, _) => DistCode(if d < 1 then 0 else d - 1)
  }

  // How often each symbol is used by the tokens.
  function LitUses(ts: seq<Token>): (f: seq<nat>)
    ensures |f| == L_CODES
  {
    hide LengthCode;
    if ts == [] then seq(L_CODES, _ => 0)
    else
      var f, s := LitUses(ts[..|ts| - 1]), LitSym(ts[|ts| - 1]);
      if s < L_CODES then f[s := f[s] + 1] else f
  }

  function DistUses(ts: seq<Token>): (f: seq<nat>)
    ensures |f| == D_CODES
  {
    hide DistCode;
    if ts == [] then seq(D_CODES, _ => 0)
    else
      var f, t := DistUses(ts[..|ts| - 1]), ts[|ts| - 1];
      if t.Match? && DistSym(t) < D_CODES then f[DistSym(t) := f[DistSym(t)] + 1] else f
  }

  lemma {:induction false} OneMoreUse(d: StaticDesc, f: seq<nat>, lens: seq<nat>, n: nat, x: nat)
    requires n <= |f| && n <= |lens| && x < n
    ensures TotalBits(d, f[x := f[x] + 1], lens, n) == TotalBits(d, f, lens, n) + lens[x] + Extra(d, x)
  {
    if n > 0 {
      if x < n - 1 {
        OneMoreUse(d, f, lens, n - 1, x);
      } else {
        SameBitsBelow(d, f, lens, n - 1, x, f[x] + 1);
        Distribute(f[x], lens[x] + Extra(d, x));
      }
    }
  }

  lemma {:induction false} Distribute(a: nat, b: nat)
    ensures (a + 1) * b == a * b + b
  {
  }

  lemma {:induction false} SameBitsBelow(d: StaticDesc, f: seq<nat>, lens: seq<nat>, n: nat, x: nat, v: nat)
    requires n <= x < |f| && n <= |lens|
    ensures TotalBits(d, f[x := v], lens, n) == TotalBits(d, f, lens, n)
  {
    if n > 0 {
      SameBitsBelow(d, f, lens, n - 1, x, v);
    }
  }

  // The lengths of the two codes, as far as they go, followed by anything.
  predicate Lengths(c: Codes, lit: seq<nat>, dist: seq<nat>) {
    && LensOk(c.lit) && LensOk(c.dist)
    && |c.lit| <= |lit| && |lit| >= L_CODES && |c.dist| <= |dist| && |dist| >= D_CODES
    && (forall s :: 0 <= s < |c.lit| ==> c.lit[s] == lit[s])
    && (forall s :: 0 <= s < |c.dist| ==> c.dist[s] == dist[s])
  }

  lemma {:induction false} ExtraLength(k: nat)
    requires k < 29
    ensures |EXTRA_LBITS| == 29 && Extra(LitDesc(), 257 + k) == EXTRA_LBITS[k]
  {
    hide FixedLit;
  }

  lemma {:induction false} ExtraDist(k: nat)
    requires k < 30
    ensures |EXTRA_DBITS| == 30 && Extra(DistDesc(), k) == EXTRA_DBITS[k]
  {
    hide Repeat;
  }

  lemma {:induction false} LengthCost(c: Codes, l: nat)
    requires MIN_MATCH <= l <= MAX_MATCH && Has(c.lit, 257 + LengthCode(l - 3))
    ensures var k := 257 + LengthCode(l - 3); k < L_CODES && k < |c.lit| && |LengthBits(c, l)| == c.lit[k] + Extra(LitDesc(), k)
  {
    hide LengthCode, CodeBits, LengthBits, Extra, LitDesc, EXTRA_LBITS;
    var k := LengthCode(l - 3);
    ExtraLength(k);
    var v := LengthParts(c, l, k);
  }

  lemma {:induction false} DistCost(c: Codes, d: nat)
    requires 1 <= d <= WINDOW && Has(c.dist, DistCode(d - 1))
    ensures var k := DistCode(d - 1); k < D_CODES && k < |c.dist| && |DistBits(c, d)| == c.dist[k] + Extra(DistDesc(), k)
  {
    hide DistCode, CodeBits, DistBits, Extra, DistDesc, EXTRA_DBITS;
    var k := DistCode(d - 1);
    ExtraDist(k);
    var v := DistParts(c, d, k);
  }

  lemma {:induction false} MatchCost(c: Codes, t: Token)
    requires Encodes(c, t) && t.Match?
    ensures LitSym(t) < L_CODES && DistSym(t) < D_CODES && LitSym(t) < |c.lit| && DistSym(t) < |c.dist|
    ensures |TokenBits(c, t)| == c.lit[LitSym(t)] + Extra(LitDesc(), LitSym(t)) +
                                 c.dist[DistSym(t)] + Extra(DistDesc(), DistSym(t))
  {
    hide LengthCode, DistCode, CodeBits, Has, Extra, LitDesc, DistDesc, LengthBits, DistBits;
    LengthCost(c, t.length);
    DistCost(c, t.dist);
  }

  lemma {:induction false} LiteralCost(c: Codes, t: Token)
    requires Encodes(c, t) && t.Literal?
    ensures LitSym(t) < L_CODES && LitSym(t) < |c.lit|
    ensures |TokenBits(c, t)| == c.lit[LitSym(t)] + Extra(LitDesc(), LitSym(t))
  {
    hide CodeBits, FixedLit, LensOk;
  }

  lemma {:induction false} UsesLast(ts: seq<Token>)
    requires ts != []
    ensures var t := ts[|ts| - 1]; var f, g := LitUses(ts[..|ts| - 1]), DistUses(ts[..|ts| - 1]);
            && (LitSym(t) < L_CODES ==> LitUses(ts) == f[LitSym(t) := f[LitSym(t)] + 1])
            && (t.Literal? ==> DistUses(ts) == g)
            && (forall s :: 0 <= s < L_CODES ==> LitUses(ts)[s] >= f[s])
            && (forall s :: 0 <= s < D_CODES ==> DistUses(ts)[s] >= g[s])
            && (t.Match? && DistSym(t) < D_CODES ==> DistUses(ts) == g[DistSym(t) := g[DistSym(t)] + 1])
  {
    hide LengthCode, DistCode;
  }

  lemma {:induction false} NoUses(d: StaticDesc, lens: seq<nat>, k: nat, n: nat)
    requires n <= k && n <= |lens|
    ensures TotalBits(d, seq(k, _ => 0), lens, n) == 0
  {
    if n > 0 {
      NoUses(d, lens, k, n - 1);
    }
  }

  /** What tokens take is what the uses of their symbols add up to. */
  lemma {:induction false} TokensCost(c: Codes, ts: seq<Token>, lit: seq<nat>, dist: seq<nat>)
    requires Lengths(c, lit, dist) && EncodesAll(c, ts)
    ensures |TokensBits(c, ts)| == TotalBits(LitDesc(), LitUses(ts), lit, L_CODES) +
                                   TotalBits(DistDesc(), DistUses(ts), dist, D_CODES)
    decreases |ts|
  {
    hide TotalBits, Extra, TokenBits, LitDesc, DistDesc, LitSym, DistSym, LensOk, Encodes;
    if ts == [] {
      NoUses(LitDesc(), lit, L_CODES, L_CODES);
      NoUses(DistDesc(), dist, D_CODES, D_CODES);
    } else {
      hide TokensBits, LitUses, DistUses;
      var n := |ts| - 1;
      var front, t := ts[..n], ts[n];
      TokensBitsLast(c, ts);
      TokensCost(c, front, lit, dist);
      UsesLast(ts);
      if t.Match? {
        MatchCost(c, t);
        OneMoreUse(DistDesc(), DistUses(front), dist, D_CODES, DistSym(t));
      } else {
        LiteralCost(c, t);
      }
      OneMoreUse(LitDesc(), LitUses(front), lit, L_CODES, LitSym(t));
    }
  }

  lemma {:induction false} TokensBitsLast(c: Codes, ts: seq<Token>)
    requires ts != [] && EncodesAll(c, ts)
    ensures EncodesAll(c, ts[..|ts| - 1]) && Encodes(c, ts[|ts| - 1])
    ensures |TokensBits(c, ts)| == |TokensBits(c, ts[..|ts| - 1])| + |TokenBits(c, ts[|ts| - 1])|
  {
    hide Encodes, TokenBits, LensOk;
    var front := ts[..|ts| - 1];
    assert forall i :: 0 <= i < |front| ==> front[i] == ts[i];
  }

  // The frequencies of a block: its tokens and the end of block.
  function LitFreq(ts: seq<Token>): (f: seq<nat>)
    ensures |f| == L_CODES
  {
    var f := LitUses(ts);
    f[END_BLOCK := f[END_BLOCK] + 1]
  }

  /** The exact cost of the data of a block. */
  lemma {:induction false} BlockCost(c: Codes, ts: seq<Token>, lit: seq<nat>, dist: seq<nat>)
    requires Lengths(c, lit, dist) && EncodesAll(c, ts)
    ensures |BlockBits(c, ts)| == TotalBits(LitDesc(), LitFreq(ts), lit, L_CODES) +
                                  TotalBits(DistDesc(), DistUses(ts), dist, D_CODES)
  {
    hide TotalBits, TokensBits, LitUses, DistUses, CodeBits, Encodes, LensOk, FixedLit;
    TokensCost(c, ts, lit, dist);
    OneMoreUse(LitDesc(), LitUses(ts), lit, L_CODES, END_BLOCK);
  }

  lemma {:induction false} UsesOf(ts: seq<Token>, i: nat)
    requires i < |ts|
    ensures LitSym(ts[i]) < L_CODES ==> LitUses(ts)[LitSym(ts[i])] > 0
    ensures ts[i].Match? && DistSym(ts[i]) < D_CODES ==> DistUses(ts)[DistSym(ts[i])] > 0
  {
    hide LitSym, DistSym, LitUses, DistUses;
    UsesLast(ts);
    if i < |ts| - 1 {
      UsesOf(ts[..|ts| - 1], i);
    }
  }

  lemma {:induction false} LitSymRange(t: Token)
    requires InRange(t)
    ensures LitSym(t) < L_CODES && LitSym(t) != END_BLOCK && DistSym(t) < D_CODES
  {
    hide LengthCode, DistCode;
  }

  /** Codes that have a code for every symbol used can encode the tokens. */
  lemma {:induction false} UsedEncodes(c: Codes, ts: seq<Token>)
    requires LensOk(c.lit) && LensOk(c.dist) && forall i :: 0 <= i < |ts| ==> InRange(ts[i])
    requires forall s :: 0 <= s < L_CODES && LitFreq(ts)[s] > 0 ==> s < |c.lit| && c.lit[s] > 0
    requires forall s :: 0 <= s < D_CODES && DistUses(ts)[s] > 0 ==> s < |c.dist| && c.dist[s] > 0
    ensures EncodesAll(c, ts)
  {
    hide LengthCode, DistCode, LitUses, DistUses, LensOk;
    forall i | 0 <= i < |ts|
      ensures Encodes(c, ts[i])
    {
      LitSymRange(ts[i]);
      UsesOf(ts, i);
      assert LitFreq(ts)[LitSym(ts[i])] > 0;
    }
    assert LitFreq(ts)[END_BLOCK] > 0;
  }
}
