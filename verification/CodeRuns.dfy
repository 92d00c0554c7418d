/** Run-length coding of code lengths (scan_tree and send_tree in trees.c;
section 3.2.7 of RFC 1951). */
module CodeRuns {
  import opened Bits
  import opened Canonical
  import opened FixedCodes
  import opened BlockMachine
  import opened BitWriter
  import opened GenCodes

  const REP_3_6: nat := 16
  const REPZ_3_10: nat := 17
  const REPZ_11_138: nat := 18

  // The symbol `sym` of the code length alphabet, standing for `count` code lengths.
  datatype RunCode = RunCode(sym: nat, count: nat)

  // Most and fewest equal lengths that make one group, by the first and the one before.
  function MaxCount(prev: int, len: nat): (m: nat)
    ensures 6 <= m <= 138
  {
    if len == 0 then 138 else if prev == len then 6 else 7
  }

  function MinCount(prev: int, len: nat): (m: nat)
    ensures 3 <= m <= 4
  {
    if len == 0 || prev == len then 3 else 4
  }

  // How many lengths from the i-th on are equal, up to `max`.
  function RunLen(lens: seq<nat>, i: nat, max: nat): (c: nat)
    requires i < |lens| && max > 0
    ensures 1 <= c <= max && i + c <= |lens|
    ensures forall j :: i <= j < i + c ==> lens[j] == lens[i]
    decreases |lens| - i
  {
    if i + 1 < |lens| && max > 1 && lens[i + 1] == lens[i] then 1 + RunLen(lens, i + 1, max - 1) else 1
  }

  // What is sent for `c` lengths `len` after a length `prev`.
  function Group(prev: int, len: nat, c: nat): (g: seq<RunCode>)
    requires c > 0
  {
    if c < MinCount(prev, len) then seq(c, _ => RunCode(len, 1))
    else if len != 0 then
      if len != prev then [RunCode(len, 1), RunCode(REP_3_6, c - 1)] else [RunCode(REP_3_6, c)]
    else if c <= 10 then [RunCode(REPZ_3_10, c)]
    else [RunCode(REPZ_11_138, c)]
  }

  function GroupAt(lens: seq<nat>, i: nat, prev: int): (c: nat)
    requires i < |lens|
    ensures 1 <= c <= MaxCount(prev, lens[i]) && i + c <= |lens|
  {
    RunLen(lens, i, MaxCount(prev, lens[i]))
  }

  // What is sent for the lengths from the i-th on.
  function RunCodes(lens: seq<nat>, i: nat, prev: int): seq<RunCode>
    requires i <= |lens|
    decreases |lens| - i
  {
    if i == |lens| then []
    else
      var c := GroupAt(lens, i, prev);
      Group(prev, lens[i], c) + RunCodes(lens, i + c, lens[i])
  }

  // The bits of one code and its repeat count.
  function RunBits(cl: seq<nat>, r: RunCode): seq<bool>
    requires LensOk(cl) && r.sym < |cl|
  {
    CodeBits(cl, r.sym) +
    (if r.sym < 16 || r.count < RepeatBase(r.sym) then []
     else ToBits(r.count - RepeatBase(r.sym), RepeatBits(r.sym)))
  }

  predicate Sendable(cl: seq<nat>, rs: seq<RunCode>) {
    LensOk(cl) && forall i :: 0 <= i < |rs| ==> rs[i].sym < |cl| && cl[rs[i].sym] > 0
  }

  function AllRunBits(cl: seq<nat>, rs: seq<RunCode>): seq<bool>
    requires Sendable(cl, rs)
  {
    if rs == [] then [] else RunBits(cl, rs[0]) + AllRunBits(cl, rs[1..])
  }

  // How often symbol `s` is sent.
  function Uses(rs: seq<RunCode>, s: nat): nat {
    if rs == [] then 0 else (if rs[0].sym == s then 1 else 0) + Uses(rs[1..], s)
  }

  lemma {:induction false} UsesConcat(a: seq<RunCode>, b: seq<RunCode>, s: nat)
    ensures Uses(a + b, s) == Uses(a, s) + Uses(b, s)
  {
    if a == [] {
      assert a + b == b;
    } else {
      assert (a + b)[1..] == a[1..] + b;
      UsesConcat(a[1..], b, s);
    }
  }

  lemma {:induction false} UsedSym(rs: seq<RunCode>, i: nat)
    requires i < |rs|
    ensures Uses(rs, rs[i].sym) > 0
  {
    if i > 0 {
      UsedSym(rs[1..], i - 1);
    }
  }

  lemma {:induction false} AllRunBitsConcat(cl: seq<nat>, a: seq<RunCode>, b: seq<RunCode>)
    requires Sendable(cl, a) && Sendable(cl, b)
    ensures Sendable(cl, a + b)
    ensures AllRunBits(cl, a + b) == AllRunBits(cl, a) + AllRunBits(cl, b)
  {
    if a == [] {
      assert a + b == b;
    } else {
      assert (a + b)[1..] == a[1..] + b;
      AllRunBitsConcat(cl, a[1..], b);
      assert RunBits(cl, a[0]) + (AllRunBits(cl, a[1..]) + AllRunBits(cl, b)) ==
             AllRunBits(cl, a) + AllRunBits(cl, b);
    }
  }

  /** The scan has seen the first `n` lengths; the group being counted starts at `g`. */
  ghost predicate Scanning(lens: seq<nat>, n: nat, g: nat, prev: int, nextlen: nat, count: nat, max: nat, min: nat) {
    && g + count == n <= |lens|
    && (n < |lens| ==> nextlen == lens[n])
    && (g < |lens| ==> max == MaxCount(prev, lens[g]) && min == MinCount(prev, lens[g]) && count < max)
    && (forall i :: g <= i < n ==> lens[i] == lens[g])
    && (count > 0 ==> n < |lens| && nextlen == lens[g])
  }

  lemma {:induction false} RunLenIs(lens: seq<nat>, i: nat, max: nat, c: nat)
    requires i < |lens| && 0 < c <= max && i + c <= |lens|
    requires forall j :: i <= j < i + c ==> lens[j] == lens[i]
    requires c == max || i + c == |lens| || lens[i + c] != lens[i]
    ensures RunLen(lens, i, max) == c
    decreases c
  {
    if c > 1 {
      assert lens[i + 1] == lens[i];
      RunLenIs(lens, i + 1, max - 1, c - 1);
    }
  }

  // The next length goes on with the group, or ends it.
  lemma {:induction false} ScanStep(lens: seq<nat>, n: nat, g: nat, prev: int, cur: nat, next: nat,
                                    count: nat, max: nat, min: nat)
    requires Scanning(lens, n, g, prev, cur, count, max, min) && n < |lens|
    requires next == if n + 1 < |lens| then lens[n + 1] else 0xffff
    requires LensOk(lens)
    ensures g < |lens| && cur == lens[g]
    ensures count + 1 < max && cur == next ==> Scanning(lens, n + 1, g, prev, next, count + 1, max, min)
    ensures !(count + 1 < max && cur == next) ==> count + 1 == GroupAt(lens, g, prev)
    ensures !(count + 1 < max && cur == next) ==>
              Scanning(lens, n + 1, n + 1, cur, next, 0, MaxCount(cur, next), MinCount(cur, next))
  {
    if !(count + 1 < max && cur == next) {
      RunLenIs(lens, g, max, count + 1);
    }
  }

  // The frequencies `now` are `was` with the symbols of `sent` counted in.
  ghost predicate Tallied(was: seq<nat>, now: seq<nat>, sent: seq<RunCode>) {
    |was| == |now| && forall s :: 0 <= s < |now| ==> now[s] == was[s] + Uses(sent, s)
  }

  /** `sent` covers the lengths before the group that starts at `g`. */
  ghost predicate Covers(lens: seq<nat>, sent: seq<RunCode>, g: nat, prev: int) {
    g <= |lens| && RunCodes(lens, 0, -1) == sent + RunCodes(lens, g, prev)
  }

  /** Tally the symbols of the code length alphabet that the lengths will be sent with. */
  method ScanTree(dl: array<nat>, max_code: nat, bl_freq: array<nat>)
    requires dl != bl_freq && max_code + 1 < dl.Length && bl_freq.Length >= 19
    requires LensOk(dl[..max_code + 1])
    modifies bl_freq, dl
    ensures dl[..] == old(dl[..])[max_code + 1 := 0xffff]
    ensures Tallied(old(bl_freq[..]), bl_freq[..], RunCodes(old(dl[..max_code + 1]), 0, -1))
  {
    ghost var lens, was, dl0 := dl[..max_code + 1], bl_freq[..], dl[..];
    var n: nat, prevlen: int, curlen: nat, nextlen: nat, count: nat := 0, -1, 0, dl[0], 0;
    var max_count: nat, min_count: nat := 7, 4;
    if nextlen == 0 {
      max_count, min_count := 138, 3;
    }
    dl[max_code + 1] := 0xffff;
    assert dl[..max_code + 1] == lens;
    ghost var g: nat, sent: seq<RunCode> := 0, [];
    ScanStart(lens, was);
    hide RunCodes, Group, LensOk, Tallied, Covers, Scanning, GroupAt;
    while n <= max_code
      invariant n <= max_code + 1
      invariant dl[..] == dl0[max_code + 1 := 0xffff] && dl[..max_code + 1] == lens
      invariant Scanning(lens, n, g, prevlen, nextlen, count, max_count, min_count)
      invariant Covers(lens, sent, g, prevlen)
      invariant Tallied(was, bl_freq[..], sent)
    {
      curlen := nextlen;
      nextlen := dl[n + 1];
      ScanStep(lens, n, g, prevlen, curlen, nextlen, count, max_count, min_count);
      count := count + 1;
      n := n + 1;
      if count < max_count && curlen == nextlen {
        continue;
      }
      CoverGroup(lens, sent, g, prevlen, n);
      TallyGroup(bl_freq, curlen, prevlen, count, min_count, was, sent);
      sent := sent + Group(prevlen, curlen, count);
      g := n;
      count, prevlen := 0, curlen;
      if nextlen == 0 {
        max_count, min_count := 138, 3;
      } else if curlen == nextlen {
        max_count, min_count := 6, 3;
      } else {
        max_count, min_count := 7, 4;
      }
    }
    AllCovered(lens, g, n, sent, prevlen, nextlen, count, max_count, min_count);
  }

  lemma {:induction false} ScanStart(lens: seq<nat>, was: seq<nat>)
    requires lens != []
    ensures Tallied(was, was, []) && Covers(lens, [], 0, -1)
    ensures Scanning(lens, 0, 0, -1, lens[0], 0, if lens[0] == 0 then 138 else 7, if lens[0] == 0 then 3 else 4)
  {
    assert [] + RunCodes(lens, 0, -1) == RunCodes(lens, 0, -1);
  }

  lemma {:induction false} AllCovered(lens: seq<nat>, g: nat, n: nat, sent: seq<RunCode>, prev: int, nextlen: nat,
                                      count: nat, max: nat, min: nat)
    requires Scanning(lens, n, g, prev, nextlen, count, max, min) && n == |lens| && Covers(lens, sent, g, prev)
    ensures sent == RunCodes(lens, 0, -1)
  {
    assert sent + RunCodes(lens, |lens|, prev) == sent;
  }

  lemma {:induction false} CoverGroup(lens: seq<nat>, sent: seq<RunCode>, g: nat, prev: int, n: nat)
    requires Covers(lens, sent, g, prev) && g < n <= |lens| && n - g == GroupAt(lens, g, prev)
    ensures Covers(lens, sent + Group(prev, lens[g], n - g), n, lens[g])
  {
    assert sent + (Group(prev, lens[g], n - g) + RunCodes(lens, n, lens[g])) ==
           sent + Group(prev, lens[g], n - g) + RunCodes(lens, n, lens[g]);
  }

  lemma {:induction false} UsesRepeat(r: RunCode, k: nat, s: nat)
    ensures Uses(seq(k, _ => r), s) == if r.sym == s then k else 0
  {
    if k > 0 {
      assert seq(k, _ => r)[1..] == seq(k - 1, _ => r);
      UsesRepeat(r, k - 1, s);
    }
  }

  lemma {:induction false} TallyMany(was: seq<nat>, now: seq<nat>, sent: seq<RunCode>, r: RunCode, k: nat)
    requires Tallied(was, now, sent) && r.sym < |now|
    ensures Tallied(was, now[r.sym := now[r.sym] + k], sent + seq(k, _ => r))
  {
    forall s | 0 <= s < |now|
      ensures Uses(sent + seq(k, _ => r), s) == Uses(sent, s) + if r.sym == s then k else 0
    {
      UsesConcat(sent, seq(k, _ => r), s);
      UsesRepeat(r, k, s);
    }
  }

  lemma {:induction false} TallyOne(was: seq<nat>, now: seq<nat>, sent: seq<RunCode>, r: RunCode)
    requires Tallied(was, now, sent) && r.sym < |now|
    ensures Tallied(was, now[r.sym := now[r.sym] + 1], sent + [r])
  {
    TallyMany(was, now, sent, r, 1);
    assert seq(1, _ => r) == [r];
  }

  method TallyGroup(bl_freq: array<nat>, curlen: nat, prevlen: int, count: nat, min_count: nat,
                    ghost was: seq<nat>, ghost sent: seq<RunCode>)
    requires bl_freq.Length >= 19 && curlen <= 15 && 0 < count && min_count == MinCount(prevlen, curlen)
    requires Tallied(was, bl_freq[..], sent)
    modifies bl_freq
    ensures Tallied(was, bl_freq[..], sent + Group(prevlen, curlen, count))
  {
    hide Tallied;
    ghost var f, one := bl_freq[..], RunCode(curlen, 1);
    if count < min_count {
      TallyMany(was, f, sent, one, count);
      bl_freq[curlen] := bl_freq[curlen] + count;
    } else if curlen != 0 {
      if curlen != prevlen {
        TallyOne(was, f, sent, one);
        bl_freq[curlen] := bl_freq[curlen] + 1;
        assert bl_freq[..] == f[curlen := f[curlen] + 1];
        TallyOne(was, bl_freq[..], sent + [one], RunCode(REP_3_6, count - 1));
        assert sent + [one] + [RunCode(REP_3_6, count - 1)] == sent + [one, RunCode(REP_3_6, count - 1)];
      } else {
        TallyOne(was, f, sent, RunCode(REP_3_6, count));
      }
      bl_freq[REP_3_6] := bl_freq[REP_3_6] + 1;
    } else if count <= 10 {
      TallyOne(was, f, sent, RunCode(REPZ_3_10, count));
      bl_freq[REPZ_3_10] := bl_freq[REPZ_3_10] + 1;
    } else {
      TallyOne(was, f, sent, RunCode(REPZ_11_138, count));
      bl_freq[REPZ_11_138] := bl_freq[REPZ_11_138] + 1;
    }
  }

  // `w` has sent `rs` after `z`.
  ghost predicate Sent(z: seq<bool>, stream: seq<bool>, cl: seq<nat>, rs: seq<RunCode>) {
    Sendable(cl, rs) && stream == z + AllRunBits(cl, rs)
  }

  lemma {:induction false} SentMore(z: seq<bool>, stream: seq<bool>, cl: seq<nat>, rs: seq<RunCode>, r: RunCode, bits: seq<bool>)
    requires Sent(z, stream, cl, rs) && r.sym < |cl| && cl[r.sym] > 0 && bits == RunBits(cl, r)
    ensures Sent(z, stream + bits, cl, rs + [r])
  {
    AllRunBitsConcat(cl, rs, [r]);
    assert AllRunBits(cl, [r]) == RunBits(cl, r) + AllRunBits(cl, []);
    assert z + (AllRunBits(cl, rs) + bits) == z + AllRunBits(cl, rs) + bits;
  }

  lemma {:induction false} RunCodeBits(cl: seq<nat>, r: RunCode)
    requires LensOk(cl) && r.sym < |cl|
    ensures r.sym < 16 ==> RunBits(cl, r) == CodeBits(cl, r.sym)
    ensures r.sym >= 16 && r.count >= RepeatBase(r.sym) ==>
              RunBits(cl, r) == CodeBits(cl, r.sym) + ToBits(r.count - RepeatBase(r.sym), RepeatBits(r.sym))
  {
  }

  // A repeat code and its count.
  method SendRepeat(w: BitBuffer, fc: array<nat>, dl: array<nat>, sym: nat, count: nat,
                    ghost z: seq<bool>, ghost cl: seq<nat>, ghost sent: seq<RunCode>)
    requires w.Valid() && Holds(cl, fc[..], dl[..]) && sym < |cl| && cl[sym] > 0
    requires 16 <= sym < 19 && RepeatBase(sym) <= count < RepeatBase(sym) + Pow2(RepeatBits(sym))
    requires Sent(z, w.Stream(), cl, sent)
    modifies w
    ensures w.Valid() && Sent(z, w.Stream(), cl, sent + [RunCode(sym, count)])
  {
    hide Sent, CodeBits, Pow2, ToBits, Holds;
    HeldLens(cl, fc[..], dl[..]);
    RunCodeBits(cl, RunCode(sym, count));
    ghost var s0 := w.Stream();
    SendCode(w, fc, dl, sym, cl);
    w.SendBits(count - RepeatBase(sym), RepeatBits(sym));
    SentMore(z, s0, cl, sent, RunCode(sym, count), RunBits(cl, RunCode(sym, count)));
    assert w.Stream() == s0 + RunBits(cl, RunCode(sym, count));
  }

  lemma {:induction false} HeldLens(cl: seq<nat>, codes: seq<nat>, lengths: seq<nat>)
    requires Holds(cl, codes, lengths)
    ensures LensOk(cl)
  {
  }

  // `count` times the length `len`, each with its own code.
  method SendSame(w: BitBuffer, fc: array<nat>, dl: array<nat>, len: nat, count: nat,
                  ghost z: seq<bool>, ghost cl: seq<nat>, ghost sent: seq<RunCode>)
    requires w.Valid() && Holds(cl, fc[..], dl[..]) && len < |cl| && len < 16 && cl[len] > 0
    requires Sent(z, w.Stream(), cl, sent) && count > 0
    modifies w
    ensures w.Valid() && Sent(z, w.Stream(), cl, sent + seq(count, _ => RunCode(len, 1)))
  {
    hide Sent, CodeBits, Holds;
    HeldLens(cl, fc[..], dl[..]);
    ghost var r := RunCode(len, 1);
    RunCodeBits(cl, r);
    var c := count;
    ghost var i: nat := 0;
    assert sent + seq(0, _ => r) == sent;
    while c != 0
      invariant w.Valid() && i + c == count && Holds(cl, fc[..], dl[..])
      invariant Sent(z, w.Stream(), cl, sent + seq(i, _ => r))
    {
      ghost var s0 := w.Stream();
      SendCode(w, fc, dl, len, cl);
      SentMore(z, s0, cl, sent + seq(i, _ => r), r, CodeBits(cl, len));
      c, i := c - 1, i + 1;
      assert sent + seq(i - 1, _ => r) + [r] == sent + seq(i, _ => r);
    }
  }

  method SendGroup(w: BitBuffer, fc: array<nat>, dl: array<nat>, curlen: nat, prevlen: int, count: nat,
                   min_count: nat, ghost z: seq<bool>, ghost cl: seq<nat>, ghost sent: seq<RunCode>)
    requires w.Valid() && Holds(cl, fc[..], dl[..]) && curlen <= 15
    requires 0 < count <= MaxCount(prevlen, curlen) && min_count == MinCount(prevlen, curlen)
    requires Sent(z, w.Stream(), cl, sent) && Sendable(cl, Group(prevlen, curlen, count))
    modifies w
    ensures w.Valid() && Sent(z, w.Stream(), cl, sent + Group(prevlen, curlen, count))
  {
    RepeatRange();
    hide Sent, CodeBits, Holds, Pow2;
    ghost var g := Group(prevlen, curlen, count);
    assert g[0].sym < |cl| && cl[g[0].sym] > 0;
    if count < min_count {
      SendSame(w, fc, dl, curlen, count, z, cl, sent);
    } else if curlen != 0 {
      var c, s := count, sent;
      if curlen != prevlen {
        SendSame(w, fc, dl, curlen, 1, z, cl, sent);
        c, s := count - 1, sent + [RunCode(curlen, 1)];
        assert seq(1, _ => RunCode(curlen, 1)) == [RunCode(curlen, 1)];
        assert g[1].sym < |cl| && cl[g[1].sym] > 0;
      }
      SendRepeat(w, fc, dl, REP_3_6, c, z, cl, s);
      assert s + [RunCode(REP_3_6, c)] == sent + g;
    } else if count <= 10 {
      SendRepeat(w, fc, dl, REPZ_3_10, count, z, cl, sent);
    } else {
      SendRepeat(w, fc, dl, REPZ_11_138, count, z, cl, sent);
    }
  }

  lemma {:induction false} RepeatRange()
    ensures Pow2(2) == 4 && Pow2(3) == 8 && Pow2(7) == 128
  {
  }

  lemma {:induction false} GroupSendable(cl: seq<nat>, lens: seq<nat>, sent: seq<RunCode>, g: nat, prev: int, n: nat)
    requires Sendable(cl, RunCodes(lens, 0, -1))
    requires Covers(lens, sent, g, prev) && g < n <= |lens| && n - g == GroupAt(lens, g, prev)
    ensures Sendable(cl, Group(prev, lens[g], n - g))
  {
    var gr := Group(prev, lens[g], n - g);
    CoverGroup(lens, sent, g, prev, n);
    var all := RunCodes(lens, 0, -1);
    forall i | 0 <= i < |gr|
      ensures gr[i].sym < |cl| && cl[gr[i].sym] > 0
    {
      assert all[|sent| + i] == gr[i];
    }
  }

  /** The stream gets the run codes of the lengths, each written with the code length code. */
  method SendTree(w: BitBuffer, tree_dl: array<nat>, max_code: nat, bl_fc: array<nat>, bl_dl: array<nat>,
                  ghost cl: seq<nat>)
    requires w.Valid() && Holds(cl, bl_fc[..], bl_dl[..])
    requires max_code + 1 < tree_dl.Length && tree_dl[max_code + 1] == 0xffff
    requires LensOk(tree_dl[..max_code + 1])
    requires Sendable(cl, RunCodes(tree_dl[..max_code + 1], 0, -1))
    modifies w
    ensures w.Valid()
    ensures w.Stream() == old(w.Stream()) + AllRunBits(cl, RunCodes(tree_dl[..max_code + 1], 0, -1))
  {
    ghost var lens, z := tree_dl[..max_code + 1], w.Stream();
    var n: nat, prevlen: int, curlen: nat, nextlen: nat, count: nat := 0, -1, 0, tree_dl[0], 0;
    var max_count: nat, min_count: nat := 7, 4;
    if nextlen == 0 {
      max_count, min_count := 138, 3;
    }
    ghost var g: nat, sent: seq<RunCode> := 0, [];
    ScanStart(lens, []);
    assert Sent(z, z, cl, []) by { assert z + [] == z; }
    hide RunCodes, Group, LensOk, Covers, Scanning, GroupAt, Sent, Sendable, Holds;
    while n <= max_code
      invariant n <= max_code + 1
      invariant Scanning(lens, n, g, prevlen, nextlen, count, max_count, min_count)
      invariant Covers(lens, sent, g, prevlen)
      invariant w.Valid() && Sent(z, w.Stream(), cl, sent) && Holds(cl, bl_fc[..], bl_dl[..])
    {
      curlen := nextlen;
      nextlen := tree_dl[n + 1];
      ScanStep(lens, n, g, prevlen, curlen, nextlen, count, max_count, min_count);
      count := count + 1;
      n := n + 1;
      if count < max_count && curlen == nextlen {
        continue;
      }
      ScanMin(lens, n - 1, g, prevlen, curlen, count - 1, max_count, min_count);
      CoverGroup(lens, sent, g, prevlen, n);
      GroupSendable(cl, lens, sent, g, prevlen, n);
      SendGroup(w, bl_fc, bl_dl, curlen, prevlen, count, min_count, z, cl, sent);
      sent := sent + Group(prevlen, curlen, count);
      g := n;
      count, prevlen := 0, curlen;
      if nextlen == 0 {
        max_count, min_count := 138, 3;
      } else if curlen == nextlen {
        max_count, min_count := 6, 3;
      } else {
        max_count, min_count := 7, 4;
      }
    }
    AllCovered(lens, g, n, sent, prevlen, nextlen, count, max_count, min_count);
    SentAll(z, w.Stream(), cl, sent);
  }

  lemma {:induction false} SentAll(z: seq<bool>, stream: seq<bool>, cl: seq<nat>, rs: seq<RunCode>)
    requires Sent(z, stream, cl, rs)
    ensures stream == z + AllRunBits(cl, rs)
  {
  }

  lemma {:induction false} ScanMin(lens: seq<nat>, n: nat, g: nat, prev: int, cur: nat, count: nat, max: nat, min: nat)
    requires Scanning(lens, n, g, prev, cur, count, max, min) && n < |lens|
    ensures g < |lens| && min == MinCount(prev, lens[g])
  {
  }
}
