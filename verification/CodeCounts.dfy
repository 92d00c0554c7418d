/** The opening loops of inflate_table (inftrees.c): counting, bounding, checking and sorting the lengths. */
module CodeCounts {
  import opened Bits
  import opened Canonical
  import opened CodeOrder
  import opened CodeBlocks
  import opened TableCells
  import opened DecodeTable

  function MaxLen(lens: seq<nat>): (m: nat)
  {
    if lens == [] then 0
    else
      var m := MaxLen(lens[..|lens| - 1]);
      if lens[|lens| - 1] > m then lens[|lens| - 1] else m
  }

  // The shortest code in use, or MAX_BITS + 1.
  function MinLen(lens: seq<nat>): nat
  {
    if lens == [] then MAX_BITS + 1
    else
      var m := MinLen(lens[..|lens| - 1]);
      var l := lens[|lens| - 1];
      if 0 < l < m then l else m
  }

  // The root index bits of the table when `req` bits are asked for.
  function RootBits(lens: seq<nat>, req: nat): nat {
    if MaxLen(lens) == 0 then 1
    else
      var root := if req > MaxLen(lens) then MaxLen(lens) else req;
      if root < MinLen(lens) then MinLen(lens) else root
  }

  /** The sets of lengths inflate_table turns down: over-subscribed ones, and
      incomplete ones unless there is but a single one-bit code.  A set without any
      code passes; the table then makes every lookup fail. */
  predicate Rejected(kind: CodeType, lens: seq<nat>)
    requires LensOk(lens)
  {
    && MaxLen(lens) > 0
    && (|| Kraft(lens) > Pow2(MAX_BITS)
        || (Kraft(lens) < Pow2(MAX_BITS) && (kind == CODES || MaxLen(lens) != 1)))
  }

  // The fixed space a table may take; code length codes are never checked.
  predicate TooLarge(kind: CodeType, size: nat) {
    match kind
    case CODES => false
    case LENS => size > ENOUGH_LENS
    case DISTS => size > ENOUGH_DISTS
  }

  // The table does not fit its space.
  predicate Outgrown(kind: CodeType, lens: seq<nat>, root: nat) {
    LensOk(lens) && root <= MAX_BITS && TooLarge(kind, TableSize(lens, root))
  }

  lemma {:induction false} MaxLenBound(lens: seq<nat>, i: nat)
    requires i < |lens|
    ensures lens[i] <= MaxLen(lens)
  {
    if i < |lens| - 1 {
      MaxLenBound(lens[..|lens| - 1], i);
    }
  }

  lemma {:induction false} MaxLenAttained(lens: seq<nat>) returns (i: nat)
    requires MaxLen(lens) > 0
    ensures i < |lens| && lens[i] == MaxLen(lens)
  {
    i := |lens| - 1;
    if lens[i] != MaxLen(lens) {
      i := MaxLenAttained(lens[..i]);
    }
  }

  lemma {:induction false} MinLenBound(lens: seq<nat>, i: nat)
    requires LensOk(lens) && i < |lens| && lens[i] > 0
    ensures MinLen(lens) <= lens[i]
  {
    if i < |lens| - 1 {
      MinLenBound(lens[..|lens| - 1], i);
    }
  }

  lemma {:induction false} MinLenAttained(lens: seq<nat>) returns (i: nat)
    requires MinLen(lens) <= MAX_BITS
    ensures i < |lens| && lens[i] == MinLen(lens) > 0
  {
    i := |lens| - 1;
    if !(0 < lens[i] < MinLen(lens[..i])) {
      i := MinLenAttained(lens[..i]);
    }
  }

  lemma {:induction false} CountPositive(lens: seq<nat>, i: nat)
    requires i < |lens|
    ensures Count(lens, lens[i]) > 0
  {
    if i < |lens| - 1 {
      CountPositive(lens[..|lens| - 1], i);
    }
  }

  lemma {:induction false} CountWitness(lens: seq<nat>, l: nat) returns (i: nat)
    requires Count(lens, l) > 0
    ensures i < |lens| && lens[i] == l
  {
    i := |lens| - 1;
    if lens[i] != l {
      i := CountWitness(lens[..i], l);
    }
  }

  /** The root is as wide as asked for if there are codes of at most and of at least so many bits; less only if no code is
      longer, and more only if none is shorter. */
  lemma {:induction false} RootIs(lens: seq<nat>, req: nat)
    requires LensOk(lens) && exists s :: 0 <= s < |lens| && lens[s] > 0
    ensures var r := RootBits(lens, req);
            && (exists s :: 0 <= s < |lens| && lens[s] >= r) && (exists s :: 0 <= s < |lens| && 0 < lens[s] <= r)
            && (r < req ==> forall s :: 0 <= s < |lens| ==> lens[s] <= r)
            && (r > req ==> forall s :: 0 <= s < |lens| && lens[s] > 0 ==> lens[s] >= r)
  {
    var t :| 0 <= t < |lens| && lens[t] > 0;
    hide MaxLen, MinLen;
    MaxLenBound(lens, t);
    MinLenBound(lens, t);
    forall s | 0 <= s < |lens|
      ensures lens[s] <= MaxLen(lens) && (lens[s] > 0 ==> lens[s] >= MinLen(lens))
    {
      MaxLenBound(lens, s);
      if lens[s] > 0 {
        MinLenBound(lens, s);
      }
    }
    var i := MaxLenAttained(lens);
    var j := MinLenAttained(lens);
  }

  lemma {:induction false} MaxLenFromCounts(lens: seq<nat>, m: nat)
    requires LensOk(lens) && m <= MAX_BITS
    requires forall l :: m < l <= MAX_BITS ==> Count(lens, l) == 0
    requires m > 0 ==> Count(lens, m) > 0
    ensures m == MaxLen(lens)
  {
    if MaxLen(lens) > 0 {
      var i := MaxLenAttained(lens);
      CountPositive(lens, i);
    }
    if m > 0 {
      var i := CountWitness(lens, m);
      MaxLenBound(lens, i);
    }
  }

  lemma {:induction false} MinLenFromCounts(lens: seq<nat>, m: nat)
    requires LensOk(lens) && 0 < m <= MAX_BITS && Count(lens, m) > 0
    requires forall l :: 0 < l < m ==> Count(lens, l) == 0
    ensures m == MinLen(lens)
  {
    var i := CountWitness(lens, m);
    MinLenBound(lens, i);
    var j := MinLenAttained(lens);
    CountPositive(lens, j);
  }

  lemma {:induction false} MinAtMostMax(lens: seq<nat>)
    requires LensOk(lens) && MaxLen(lens) > 0
    ensures 0 < MinLen(lens) <= MaxLen(lens) <= MAX_BITS
  {
    var i := MaxLenAttained(lens);
    MinLenBound(lens, i);
    var j := MinLenAttained(lens);
  }

  // Accumulate how many codes there are of each length.
  method CountLengths(lens: seq<nat>) returns (count: array<nat>)
    requires LensOk(lens)
    ensures fresh(count) && count.Length == MAX_BITS + 1
    ensures forall l :: 0 <= l <= MAX_BITS ==> count[l] == Count(lens, l)
  {
    count := new nat[MAX_BITS + 1](_ => 0);
    var sym: nat := 0;
    while sym < |lens|
      invariant sym <= |lens|
      invariant forall l :: 0 <= l <= MAX_BITS ==> count[l] == Count(lens[..sym], l)
    {
      assert lens[..sym + 1][..sym] == lens[..sym];
      count[lens[sym]] := count[lens[sym]] + 1;
      sym := sym + 1;
    }
    assert lens[..|lens|] == lens;
  }

  // The longest code in use.
  method FindMax(count: array<nat>, ghost lens: seq<nat>) returns (max: nat)
    requires LensOk(lens) && count.Length == MAX_BITS + 1
    requires forall l :: 0 <= l <= MAX_BITS ==> count[l] == Count(lens, l)
    ensures max == MaxLen(lens) && max <= MAX_BITS
  {
    max := MAX_BITS;
    while max >= 1 && count[max] == 0
      invariant max <= MAX_BITS
      invariant forall l :: max < l <= MAX_BITS ==> Count(lens, l) == 0
    {
      max := max - 1;
    }
    MaxLenFromCounts(lens, max);
  }

  // The shortest code in use.
  method FindMin(count: array<nat>, max: nat, ghost lens: seq<nat>) returns (min: nat)
    requires LensOk(lens) && count.Length == MAX_BITS + 1
    requires forall l :: 0 <= l <= MAX_BITS ==> count[l] == Count(lens, l)
    requires max == MaxLen(lens) && 0 < max <= MAX_BITS
    ensures min == MinLen(lens) && 0 < min <= max
  {
    ghost var i := MaxLenAttained(lens);
    CountPositive(lens, i);
    min := 1;
    while min < max && count[min] == 0
      invariant 1 <= min <= max
      invariant forall l :: 0 < l < min ==> Count(lens, l) == 0
    {
      min := min + 1;
    }
    MinLenFromCounts(lens, min);
  }

  lemma {:induction false} BeforeZero(lens: seq<nat>)
    requires LensOk(lens)
    ensures Before(lens, 1, 0) == 0
  {
    BeforeNone(lens, 1, 0);
  }

  lemma {:induction false} BeforeMono(lens: seq<nat>, a: nat, b: nat)
    requires LensOk(lens) && a <= b
    ensures Before(lens, a, 0) <= Before(lens, b, 0)
  {
    if a < b {
      BeforeAdds(lens, a, 0, b, 0, |lens|);
    }
  }

  lemma {:induction false} Distribute(a: int, b: int, u: int)
    ensures (a - b) * u == a * u - b * u
  {
  }

  // The code space left after the lengths up to `len`, in units of codes of length `len`.
  lemma {:induction false} LeftStep(lens: seq<nat>, len: nat, left: int)
    requires LensOk(lens) && 0 < len <= MAX_BITS
    requires left * Pow2(MAX_BITS - (len - 1)) == Pow2(MAX_BITS) - Before(lens, len, 0)
    ensures (2 * left - Count(lens, len)) * Pow2(MAX_BITS - len) ==
            Pow2(MAX_BITS) - Before(lens, len + 1, 0)
  {
    BeforeLevel(lens, len);
    var u := Pow2(MAX_BITS - len);
    assert Pow2(MAX_BITS - (len - 1)) == 2 * u;
    MulAssoc(left, 2, u);
    Distribute(2 * left, Count(lens, len), u);
  }

  lemma {:induction false} MulNegative(a: int, u: int)
    requires a < 0 && u > 0
    ensures a * u < 0
  {
  }

  // Over-subscription shows at some length; otherwise what is left over is the unused code space.
  method CheckLeft(count: array<nat>, ghost lens: seq<nat>) returns (left: int)
    requires LensOk(lens) && count.Length == MAX_BITS + 1
    requires forall l :: 0 <= l <= MAX_BITS ==> count[l] == Count(lens, l)
    ensures left < 0 <==> Kraft(lens) > Pow2(MAX_BITS)
    ensures left >= 0 ==> left == Pow2(MAX_BITS) - Kraft(lens)
  {
    hide Pow2, Kraft, Count, Before;
    left := 1;
    BeforeZero(lens);
    BeforeAll(lens);
    var len: nat := 1;
    while len <= MAX_BITS
      invariant 1 <= len <= MAX_BITS + 1
      invariant left >= 0
      invariant left * Pow2(MAX_BITS - (len - 1)) == Pow2(MAX_BITS) - Before(lens, len, 0)
    {
      LeftStep(lens, len, left);
      left := left * 2;
      left := left - count[len];
      if left < 0 {
        MulNegative(left, Pow2(MAX_BITS - len));
        BeforeMono(lens, len + 1, MAX_BITS + 1);
        return;
      }
      len := len + 1;
    }
    UnitPower();
  }

  lemma {:induction false} UnitPower()
    ensures Pow2(0) == 1
  {
  }

  // Where the symbols of length `l` start in the sorted list.
  function Offset(lens: seq<nat>, l: nat): nat
    requires 0 < l
  {
    |SymsUpTo(lens, l - 1)|
  }

  // The symbols of length `l` among the first `sym` stand where they belong.
  ghost predicate Stretch(lens: seq<nat>, sym: nat, l: nat, work: seq<nat>)
    requires sym <= |lens| && 0 < l
  {
    var v := SymsOfLen(lens[..sym], l);
    && Offset(lens, l) + |v| <= |work|
    && work[Offset(lens, l)..Offset(lens, l) + |v|] == v
  }

  lemma {:induction false} CountPrefix(lens: seq<nat>, sym: nat, l: nat)
    requires sym < |lens|
    ensures Count(lens[..sym + 1], l) == Count(lens[..sym], l) + (if lens[sym] == l then 1 else 0)
    ensures Count(lens[..sym + 1], l) <= Count(lens, l)
    ensures SymsOfLen(lens[..sym + 1], l) == SymsOfLen(lens[..sym], l) + (if lens[sym] == l then [sym] else [])
    decreases |lens| - sym
  {
    assert lens[..sym + 1][..sym] == lens[..sym];
    if sym + 1 < |lens| {
      CountPrefix(lens, sym + 1, l);
    } else {
      assert lens[..sym + 1] == lens;
    }
  }

  lemma {:induction false} OffsetNext(lens: seq<nat>, l: nat)
    requires 0 < l
    ensures Offset(lens, l + 1) == Offset(lens, l) + Count(lens, l)
  {
  }

  lemma {:induction false} OffsetMono(lens: seq<nat>, a: nat, b: nat)
    requires 0 < a <= b
    ensures Offset(lens, a) <= Offset(lens, b)
  {
    if a < b {
      OffsetMono(lens, a, b - 1);
    }
  }

  lemma {:induction false} StretchStart(lens: seq<nat>, l: nat, work: seq<nat>)
    requires 0 < l <= MAX_BITS && |work| == |SortedSyms(lens)|
    ensures Stretch(lens, 0, l, work)
  {
    OffsetMono(lens, l, MAX_BITS + 1);
  }

  ghost predicate AllStretches(lens: seq<nat>, sym: nat, work: seq<nat>)
    requires sym <= |lens|
  {
    && |work| == |SortedSyms(lens)|
    && forall l :: 0 < l <= MAX_BITS ==> Stretch(lens, sym, l, work)
  }

  // The slot symbol `sym` goes to.
  function Slot(lens: seq<nat>, sym: nat): nat
    requires sym < |lens| && lens[sym] > 0
  {
    Offset(lens, lens[sym]) + Count(lens[..sym], lens[sym])
  }

  lemma {:induction false} SlotRange(lens: seq<nat>, sym: nat)
    requires sym < |lens| && 0 < lens[sym] <= MAX_BITS
    ensures Slot(lens, sym) < Offset(lens, lens[sym] + 1) <= |SortedSyms(lens)|
  {
    CountPrefix(lens, sym, lens[sym]);
    OffsetMono(lens, lens[sym] + 1, MAX_BITS + 1);
  }

  lemma {:induction false} StretchOwn(lens: seq<nat>, sym: nat, work: seq<nat>)
    requires sym < |lens| && 0 < lens[sym] <= MAX_BITS && Slot(lens, sym) < |work|
    requires Stretch(lens, sym, lens[sym], work)
    ensures Stretch(lens, sym + 1, lens[sym], work[Slot(lens, sym) := sym])
  {
    var m, at := lens[sym], Slot(lens, sym);
    var o := Offset(lens, m);
    CountPrefix(lens, sym, m);
    var work1 := work[at := sym];
    assert work1[o..at + 1] == work[o..at] + [sym];
  }

  lemma {:induction false} StretchOther(lens: seq<nat>, sym: nat, l: nat, work: seq<nat>)
    requires sym < |lens| && 0 < lens[sym] <= MAX_BITS && Slot(lens, sym) < |work|
    requires 0 < l && l != lens[sym]
    requires Stretch(lens, sym, l, work)
    ensures Stretch(lens, sym + 1, l, work[Slot(lens, sym) := sym])
  {
    var m, at := lens[sym], Slot(lens, sym);
    CountPrefix(lens, sym, m);
    CountPrefix(lens, sym, l);
    if m < l {
      OffsetMono(lens, m + 1, l);
    } else {
      OffsetMono(lens, l + 1, m);
    }
    var o, n := Offset(lens, l), Count(lens[..sym], l);
    assert at < o || o + n <= at;
    assert work[at := sym][o..o + n] == work[o..o + n];
  }

  // Entering symbol `sym` extends the stretch of its own length and leaves the others alone.
  lemma {:induction false} StretchStep(lens: seq<nat>, sym: nat, work: seq<nat>)
    requires sym < |lens| && 0 < lens[sym] <= MAX_BITS && AllStretches(lens, sym, work)
    ensures Slot(lens, sym) < |work|
    ensures AllStretches(lens, sym + 1, work[Slot(lens, sym) := sym])
  {
    SlotRange(lens, sym);
    var next, work1 := sym + 1, work[Slot(lens, sym) := sym];
    forall l: nat | 0 < l <= MAX_BITS
      ensures Stretch(lens, next, l, work1)
    {
      assert Stretch(lens, sym, l, work);
      if l == lens[sym] {
        StretchOwn(lens, sym, work);
      } else {
        StretchOther(lens, sym, l, work);
      }
    }
  }

  lemma {:induction false} StretchSkip(lens: seq<nat>, sym: nat, work: seq<nat>)
    requires sym < |lens| && lens[sym] == 0 && AllStretches(lens, sym, work)
    ensures AllStretches(lens, sym + 1, work)
  {
    var next := sym + 1;
    forall l: nat | 0 < l <= MAX_BITS
      ensures Stretch(lens, next, l, work)
    {
      assert Stretch(lens, sym, l, work);
      CountPrefix(lens, sym, l);
    }
  }

  lemma {:induction false} CountStep(lens: seq<nat>, sym: nat)
    requires sym < |lens|
    ensures forall l :: Count(lens[..sym + 1], l) == Count(lens[..sym], l) + (if lens[sym] == l then 1 else 0)
  {
    forall l
      ensures Count(lens[..sym + 1], l) == Count(lens[..sym], l) + (if lens[sym] == l then 1 else 0)
    {
      CountPrefix(lens, sym, l);
    }
  }

  lemma {:induction false} SortedIs(lens: seq<nat>, m: nat, work: seq<nat>)
    requires m <= MAX_BITS
    requires AllStretches(lens, |lens|, work)
    requires |SymsUpTo(lens, m)| <= |work|
    ensures SymsUpTo(lens, m) <= work
  {
    assert lens[..|lens|] == lens;
    if m > 0 {
      SortedIs(lens, m - 1, work);
      assert Stretch(lens, |lens|, m, work);
      var v, u := SymsUpTo(lens, m - 1), SymsOfLen(lens, m);
      assert work[..|v| + |u|] == work[..|v|] + work[|v|..|v| + |u|];
    }
  }

  // The offset of each length in the sorted list.
  method FindOffsets(lens: seq<nat>, count: array<nat>) returns (offs: array<nat>)
    requires LensOk(lens) && count.Length == MAX_BITS + 1
    requires forall l :: 0 <= l <= MAX_BITS ==> count[l] == Count(lens, l)
    ensures fresh(offs) && offs.Length == MAX_BITS + 2
    ensures forall l :: 1 <= l <= MAX_BITS + 1 ==> offs[l] == Offset(lens, l)
  {
    offs := new nat[MAX_BITS + 2](_ => 0);
    offs[1] := 0;
    var len: nat := 1;
    while len <= MAX_BITS
      invariant 1 <= len <= MAX_BITS + 1
      invariant forall l :: 1 <= l <= len ==> offs[l] == Offset(lens, l)
    {
      OffsetNext(lens, len);
      offs[len + 1] := offs[len] + count[len];
      len := len + 1;
    }
  }

  lemma {:induction false} StretchesStart(lens: seq<nat>, work: seq<nat>)
    requires |work| == |SortedSyms(lens)|
    ensures AllStretches(lens, 0, work)
    ensures forall l :: Count(lens[..0], l) == 0
  {
    forall l: nat | 0 < l <= MAX_BITS
      ensures Stretch(lens, 0, l, work)
    {
      StretchStart(lens, l, work);
    }
  }

  // Sort the symbols by length, and by symbol within each length.
  method SortSymbols(lens: seq<nat>, count: array<nat>) returns (work: array<nat>)
    requires LensOk(lens) && count.Length == MAX_BITS + 1
    requires forall l :: 0 <= l <= MAX_BITS ==> count[l] == Count(lens, l)
    ensures fresh(work) && work[..] == SortedSyms(lens)
  {
    hide Count, Stretch, SymsUpTo;
    var offs := FindOffsets(lens, count);
    work := new nat[offs[MAX_BITS + 1]](_ => 0);
    var sym: nat := 0;
    StretchesStart(lens, work[..]);
    while sym < |lens|
      invariant sym <= |lens|
      invariant forall l :: 0 < l <= MAX_BITS ==> offs[l] == Offset(lens, l) + Count(lens[..sym], l)
      invariant AllStretches(lens, sym, work[..])
    {
      ghost var W := work[..];
      CountStep(lens, sym);
      if lens[sym] != 0 {
        StretchStep(lens, sym, W);
        var at := offs[lens[sym]];
        work[at] := sym;
        assert work[..] == W[at := sym];
        offs[lens[sym]] := at + 1;
      } else {
        StretchSkip(lens, sym, W);
      }
      sym := sym + 1;
    }
    SortedIs(lens, MAX_BITS, work[..]);
    assert SymsUpTo(lens, MAX_BITS) <= work[..];
  }
}
