/** Reading the code lengths back: the CODELENS state undoes send_tree. */
module RunReader {
  import opened Bits
  import opened Canonical
  import opened TableCells
  import opened CodeCounts
  import opened FixedCodes
  import opened BlockMachine
  import opened CodeRuns
  import opened Tokens

  // The machine about to read code lengths, having read `acc`.
  function Reading(m: Mode, acc: seq<nat>, b: seq<bool>, hist: seq<nat>): Conf
    requires m.CodeLens?
  {
    Conf(CodeLens(m.last, m.nlen, m.ndist, m.cl, acc), b, hist)
  }

  // `r` can be read after `acc` and stands for its count of lengths `len`.
  ghost predicate Readable(r: RunCode, len: nat, acc: seq<nat>) {
    if r.sym < 16 then r.sym == len && r.count == 1
    else
      && r.sym < 19 && RepeatBase(r.sym) <= r.count < RepeatBase(r.sym) + Pow2(RepeatBits(r.sym))
      && (if r.sym == 16 then acc != [] && acc[|acc| - 1] == len else len == 0)
  }

  lemma {:induction false} FoundFirst(kind: CodeType, cl: seq<nat>, s: nat, more: seq<bool>)
    requires Usable(kind, cl) && s < |cl| && cl[s] > 0
    ensures Find(cl, CodeBits(cl, s) + more) == Sym(s)
  {
    hide CodeBits, Rejected;
    assert Starts(cl, s, CodeBits(cl, s) + more);
    FindIs(kind, cl, s, CodeBits(cl, s) + more);
  }

  lemma {:induction false} CountRead(v: nat, n: nat, a: seq<bool>, rest: seq<bool>)
    requires v < Pow2(n)
    ensures Num((a + ToBits(v, n) + rest)[|a|..|a| + n]) == v
    ensures (a + ToBits(v, n) + rest)[|a| + n..] == rest
  {
    var b := a + ToBits(v, n) + rest;
    assert b[|a|..|a| + n] == ToBits(v, n);
    NumToBits(v, n);
    ShrLowUnique(v, n, v, 0);
  }

  // A length sent as it is.
  lemma {:induction false} ReadPlain(m: Mode, acc: seq<nat>, r: RunCode, len: nat, rest: seq<bool>, hist: seq<nat>)
    requires m.CodeLens? && ModeOk(m.(lens := acc)) && IsBytes(hist)
    requires r.sym < 16 && m.cl[r.sym] > 0 && len <= MAX_BITS && Readable(r, len, acc)
    requires |acc| + r.count <= m.nlen + m.ndist && r.count > 0
    ensures ModeOk(m.(lens := acc + Repeat(len, r.count)))
    ensures Next(Reading(m, acc, RunBits(m.cl, r) + rest, hist)) ==
            Some(Reading(m, acc + Repeat(len, r.count), rest, hist))
  {
    hide CodeBits, Find, Rejected, Pow2;
    var c := CodeBits(m.cl, r.sym);
    RunCodeBits(m.cl, r);
    FoundFirst(CODES, m.cl, r.sym, rest);
    assert (c + rest)[|c|..] == rest;
    assert [len] == Repeat(len, 1);
    assert hist + [] == hist;
  }

  // A repeat code with its count.
  lemma {:induction false} ReadRepeat(m: Mode, acc: seq<nat>, r: RunCode, len: nat, rest: seq<bool>, hist: seq<nat>)
    requires m.CodeLens? && ModeOk(m.(lens := acc)) && IsBytes(hist)
    requires 16 <= r.sym < 19 && m.cl[r.sym] > 0 && len <= MAX_BITS && Readable(r, len, acc)
    requires |acc| + r.count <= m.nlen + m.ndist && r.count > 0
    ensures ModeOk(m.(lens := acc + Repeat(len, r.count)))
    ensures Next(Reading(m, acc, RunBits(m.cl, r) + rest, hist)) ==
            Some(Reading(m, acc + Repeat(len, r.count), rest, hist))
  {
    hide CodeBits, Find, Rejected, Pow2;
    var c := CodeBits(m.cl, r.sym);
    RunCodeBits(m.cl, r);
    RepeatRange();
    var t := ToBits(r.count - RepeatBase(r.sym), RepeatBits(r.sym));
    FoundFirst(CODES, m.cl, r.sym, t + rest);
    CountRead(r.count - RepeatBase(r.sym), RepeatBits(r.sym), c, rest);
    assert c + (t + rest) == c + t + rest;
    assert hist + [] == hist;
  }

  /** One code is read as the lengths it stands for. */
  lemma {:induction false} ReadOne(m: Mode, acc: seq<nat>, r: RunCode, len: nat, rest: seq<bool>, hist: seq<nat>)
    requires m.CodeLens? && ModeOk(m.(lens := acc)) && IsBytes(hist)
    requires r.sym < 19 && m.cl[r.sym] > 0 && len <= MAX_BITS && Readable(r, len, acc)
    requires |acc| + r.count <= m.nlen + m.ndist && r.count > 0
    ensures ModeOk(m.(lens := acc + Repeat(len, r.count)))
    ensures Next(Reading(m, acc, RunBits(m.cl, r) + rest, hist)) ==
            Some(Reading(m, acc + Repeat(len, r.count), rest, hist))
  {
    hide Next, ModeOk, Reading, RunBits, Readable;
    if r.sym < 16 {
      ReadPlain(m, acc, r, len, rest, hist);
    } else {
      ReadRepeat(m, acc, r, len, rest, hist);
    }
  }

  // The machine may read `k` more lengths.
  predicate RoomFor(m: Mode, acc: seq<nat>, k: nat) {
    m.CodeLens? && ModeOk(m.(lens := acc)) && |acc| + k <= m.nlen + m.ndist
  }

  lemma {:induction false} ReadCode(m: Mode, acc: seq<nat>, r: RunCode, len: nat, rest: seq<bool>, hist: seq<nat>)
    requires RoomFor(m, acc, r.count) && IsBytes(hist) && Sendable(m.cl, [r])
    requires len <= MAX_BITS && Readable(r, len, acc) && r.count > 0
    ensures RoomFor(m, acc + Repeat(len, r.count), 0)
    ensures Reaches(Reading(m, acc, AllRunBits(m.cl, [r]) + rest, hist),
                    Reading(m, acc + Repeat(len, r.count), rest, hist))
  {
    hide Next, RunBits;
    assert [r][0] == r;
    ReadOne(m, acc, r, len, rest, hist);
    var c := Reading(m, acc, RunBits(m.cl, r) + rest, hist);
    var d := Reading(m, acc + Repeat(len, r.count), rest, hist);
    assert [r][1..] == [];
    assert AllRunBits(m.cl, [r]) == RunBits(m.cl, r) + [] == RunBits(m.cl, r);
    OneStep(c, d);
  }

  lemma {:induction false} OneStep(c: Conf, d: Conf)
    requires ConfOk(c) && Next(c) == Some(d)
    ensures Reaches(c, d)
  {
    assert Run(d, 0, d);
    assert Run(c, 1, d);
  }

  lemma {:induction false} NoStep(c: Conf)
    requires ConfOk(c)
    ensures Reaches(c, c)
  {
    assert Run(c, 0, c);
  }

  // Two parts of what is sent are read one after the other.
  lemma {:induction false} ReadBoth(m: Mode, acc: seq<nat>, a: seq<RunCode>, mid: seq<nat>, b: seq<RunCode>,
                                    end: seq<nat>, rest: seq<bool>, hist: seq<nat>)
    requires m.CodeLens? && Sendable(m.cl, a) && Sendable(m.cl, b)
    requires Reaches(Reading(m, acc, AllRunBits(m.cl, a) + (AllRunBits(m.cl, b) + rest), hist),
                     Reading(m, mid, AllRunBits(m.cl, b) + rest, hist))
    requires Reaches(Reading(m, mid, AllRunBits(m.cl, b) + rest, hist), Reading(m, end, rest, hist))
    ensures Sendable(m.cl, a + b)
    ensures Reaches(Reading(m, acc, AllRunBits(m.cl, a + b) + rest, hist), Reading(m, end, rest, hist))
  {
    hide Reaches, Reading, AllRunBits;
    AllRunBitsConcat(m.cl, a, b);
    assert AllRunBits(m.cl, a + b) + rest == AllRunBits(m.cl, a) + (AllRunBits(m.cl, b) + rest);
    ReachesJoin(Reading(m, acc, AllRunBits(m.cl, a + b) + rest, hist),
                Reading(m, mid, AllRunBits(m.cl, b) + rest, hist), Reading(m, end, rest, hist));
  }

  // Lengths each sent with their own code.
  lemma {:induction false} ReadSame(m: Mode, acc: seq<nat>, k: nat, len: nat, rest: seq<bool>, hist: seq<nat>)
    requires RoomFor(m, acc, k) && IsBytes(hist) && len <= MAX_BITS
    requires Sendable(m.cl, seq(k, _ => RunCode(len, 1)))
    ensures RoomFor(m, acc + Repeat(len, k), 0)
    ensures Reaches(Reading(m, acc, AllRunBits(m.cl, seq(k, _ => RunCode(len, 1))) + rest, hist),
                    Reading(m, acc + Repeat(len, k), rest, hist))
    decreases k
  {
    hide Reaches, Reading, AllRunBits, ModeOk;
    var r := RunCode(len, 1);
    var rs := seq(k, _ => r);
    if k == 0 {
      assert acc + Repeat(len, 0) == acc && rs == [];
      ReadNone(m, acc, rest, hist);
    } else {
      var tail := seq(k - 1, _ => r);
      assert rs == [r] + tail;
      SendableParts(m.cl, [r], tail);
      Readable16(len);
      ReadCode(m, acc, r, len, AllRunBits(m.cl, tail) + rest, hist);
      ReadSame(m, acc + Repeat(len, 1), k - 1, len, rest, hist);
      assert acc + Repeat(len, 1) + Repeat(len, k - 1) == acc + Repeat(len, k);
      ReadBoth(m, acc, [r], acc + Repeat(len, 1), tail, acc + Repeat(len, k), rest, hist);
    }
  }

  lemma {:induction false} ReadNone(m: Mode, acc: seq<nat>, rest: seq<bool>, hist: seq<nat>)
    requires RoomFor(m, acc, 0) && IsBytes(hist)
    ensures Sendable(m.cl, []) && Reaches(Reading(m, acc, AllRunBits(m.cl, []) + rest, hist), Reading(m, acc, rest, hist))
  {
    assert AllRunBits(m.cl, []) + rest == rest;
    NoStep(Reading(m, acc, rest, hist));
  }

  lemma {:induction false} Readable16(len: nat)
    requires len <= MAX_BITS
    ensures forall acc :: Readable(RunCode(len, 1), len, acc)
  {
  }

  lemma {:induction false} ReadTwo(m: Mode, acc: seq<nat>, n: nat, len: nat, rest: seq<bool>, hist: seq<nat>)
    requires RoomFor(m, acc, 1 + n) && IsBytes(hist) && 0 < len <= MAX_BITS && 3 <= n <= 6
    requires Sendable(m.cl, [RunCode(len, 1), RunCode(REP_3_6, n)])
    ensures Reaches(Reading(m, acc, AllRunBits(m.cl, [RunCode(len, 1), RunCode(REP_3_6, n)]) + rest, hist),
                    Reading(m, acc + Repeat(len, 1 + n), rest, hist))
  {
    var r, q := RunCode(len, 1), RunCode(REP_3_6, n);
    assert [r] + [q] == [r, q];
    RepeatRange();
    hide Reaches, Reading, AllRunBits, Pow2;
    SendableParts(m.cl, [r], [q]);
    Readable16(len);
    ReadCode(m, acc, r, len, AllRunBits(m.cl, [q]) + rest, hist);
    ReadCode(m, acc + Repeat(len, 1), q, len, rest, hist);
    assert acc + Repeat(len, 1) + Repeat(len, n) == acc + Repeat(len, 1 + n);
    ReadBoth(m, acc, [r], acc + Repeat(len, 1), [q], acc + Repeat(len, 1 + n), rest, hist);
  }

  lemma {:induction false} ReadGroup(m: Mode, acc: seq<nat>, prev: int, len: nat, c: nat, rest: seq<bool>, hist: seq<nat>)
    requires 0 < c <= MaxCount(prev, len) && len <= MAX_BITS
    requires RoomFor(m, acc, c) && IsBytes(hist) && Sendable(m.cl, Group(prev, len, c))
    requires prev >= 0 ==> acc != [] && acc[|acc| - 1] == prev
    ensures RoomFor(m, acc + Repeat(len, c), 0)
    ensures Reaches(Reading(m, acc, AllRunBits(m.cl, Group(prev, len, c)) + rest, hist),
                    Reading(m, acc + Repeat(len, c), rest, hist))
  {
    RepeatRange();
    hide Reaches, AllRunBits, RunBits, Pow2;
    if c < MinCount(prev, len) {
      ReadSame(m, acc, c, len, rest, hist);
    } else if len != 0 && len != prev {
      ReadTwo(m, acc, c - 1, len, rest, hist);
    } else {
      ReadCode(m, acc, Group(prev, len, c)[0], len, rest, hist);
    }
  }

  /** The lengths sent by send_tree from the i-th on are read back one after another. */
  lemma {:induction false} ReadRuns(m: Mode, acc: seq<nat>, lens: seq<nat>, i: nat, prev: int, rest: seq<bool>, hist: seq<nat>)
    requires i <= |lens| && LensOk(lens) && IsBytes(hist) && RoomFor(m, acc, |lens| - i)
    requires Sendable(m.cl, RunCodes(lens, i, prev))
    requires prev >= 0 ==> acc != [] && acc[|acc| - 1] == prev
    ensures RoomFor(m, acc + lens[i..], 0)
    ensures Reaches(Reading(m, acc, AllRunBits(m.cl, RunCodes(lens, i, prev)) + rest, hist),
                    Reading(m, acc + lens[i..], rest, hist))
    decreases |lens| - i
  {
    hide Reaches, Reading, RunBits, Group, AllRunBits;
    if i == |lens| {
      NothingToRead(m, acc, lens, prev, rest, hist);
    } else {
      var c := GroupAt(lens, i, prev);
      var g, t := Group(prev, lens[i], c), RunCodes(lens, i + c, lens[i]);
      assert RunCodes(lens, i, prev) == g + t;
      SendableParts(m.cl, g, t);
      ReadGroup(m, acc, prev, lens[i], c, AllRunBits(m.cl, t) + rest, hist);
      var acc1 := acc + Repeat(lens[i], c);
      assert acc1 + lens[i + c..] == acc + lens[i..];
      ReadRuns(m, acc1, lens, i + c, lens[i], rest, hist);
      ReadBoth(m, acc, g, acc1, t, acc + lens[i..], rest, hist);
    }
  }

  lemma {:induction false} NothingToRead(m: Mode, acc: seq<nat>, lens: seq<nat>, prev: int, rest: seq<bool>, hist: seq<nat>)
    requires RoomFor(m, acc, 0) && IsBytes(hist) && LensOk(m.cl)
    ensures acc + lens[|lens|..] == acc
    ensures Reaches(Reading(m, acc, AllRunBits(m.cl, RunCodes(lens, |lens|, prev)) + rest, hist),
                    Reading(m, acc + lens[|lens|..], rest, hist))
  {
    assert acc + lens[|lens|..] == acc;
    assert AllRunBits(m.cl, []) + rest == rest;
    NoStep(Reading(m, acc, rest, hist));
  }

  lemma {:induction false} SendableParts(cl: seq<nat>, a: seq<RunCode>, b: seq<RunCode>)
    requires Sendable(cl, a + b)
    ensures Sendable(cl, a) && Sendable(cl, b)
  {
    assert forall i :: 0 <= i < |a| ==> (a + b)[i] == a[i];
    assert forall i :: 0 <= i < |b| ==> (a + b)[|a| + i] == b[i];
  }
}
