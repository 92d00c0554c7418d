/** However the input arrives and whatever room there is, inflate does the same: the runs of the
block machine do not depend on where the calls end. */
module Chunking {
  import opened Bits
  import opened Tokens
  import opened BlockMachine
  import opened RunReader
  import opened BitWriter
  import opened Window
  import opened InflateState
  import opened InflateBlocks
  import opened Inflate

  function Join(parts: seq<seq<nat>>): seq<nat> {
    if parts == [] then [] else Join(parts[..|parts| - 1]) + parts[|parts| - 1]
  }

  lemma {:induction false} ReachesMore(c: Conf, d: Conf, x: seq<bool>)
    requires Reaches(c, d) && |x| % 8 == 0
    ensures Reaches(Plus(c, x), Plus(d, x))
  {
    var n: nat :| Run(c, n, d);
    RunMore(c, n, d, x);
    assert ConfOk(Plus(c, x));
  }

  /** Two ends of the same run where the machine cannot go on are the same. */
  lemma {:induction false} OneEnd(c: Conf, d: Conf, e: Conf)
    requires Reaches(c, d) && Reaches(c, e) && ConfOk(d) && ConfOk(e) && Next(d).None? && Next(e).None?
    ensures d == e
  {
    var n: nat :| Run(c, n, d);
    var k: nat :| Run(c, k, e);
    if n <= k {
      RunSplit(c, n, d, k - n, e);
    } else {
      RunSplit(c, k, e, n - k, d);
    }
  }

  /** What has been put out at any time is a beginning of what is put out in the end. */
  lemma {:induction false} OutputGrows(c: Conf, d: Conf, e: Conf)
    requires Reaches(c, d) && Reaches(c, e) && ConfOk(e) && Next(e).None?
    ensures ConfOk(d) && d.hist <= e.hist
  {
    hide Next, ConfOk, Step;
    var n: nat :| Run(c, n, d);
    var k: nat :| Run(c, k, e);
    RunOk(c, n, d);
    if n <= k {
      RunSplit(c, n, d, k - n, e);
      RunOk(d, k - n, e);
    } else {
      RunSplit(c, k, e, n - k, d);
    }
  }

  lemma {:induction false} MoreInput(h: seq<bool>, a: seq<nat>, b: seq<nat>)
    ensures h + ByteBits(a) + ByteBits(b) == h + ByteBits(a + b)
    ensures |ByteBits(b)| % 8 == 0
  {
    ByteBitsConcat(a, b);
  }

  // The leftover of a call and the next part are fed together.
  lemma {:induction false} FeedMore(m: Mode, h: seq<bool>, hist: seq<nat>, parts: seq<seq<nat>>, i: nat,
                                    m1: Mode, h1: seq<bool>, hist1: seq<nat>, rest: seq<nat>)
    requires i < |parts|
    requires Reaches(Conf(m, h + ByteBits(Join(parts[..i])), hist), Conf(m1, h1 + ByteBits(rest), hist1))
    ensures Reaches(Conf(m, h + ByteBits(Join(parts[..i + 1])), hist), Conf(m1, h1 + ByteBits(rest + parts[i]), hist1))
  {
    hide Reaches, ByteBits;
    var x := ByteBits(parts[i]);
    assert parts[..i + 1][..i] == parts[..i];
    MoreInput(h, Join(parts[..i]), parts[i]);
    MoreInput(h1, rest, parts[i]);
    ReachesMore(Conf(m, h + ByteBits(Join(parts[..i])), hist), Conf(m1, h1 + ByteBits(rest), hist1), x);
  }

  // The machine can do no more with the input it has had.
  ghost predicate Ended(s: Inflater, rest: seq<nat>)
    reads s, s.lens, s.window
  {
    s.Shape() && ConfOk(Resting(s, rest)) && Next(Resting(s, rest)).None?
  }

  /** A call that does not stop for want of room has gone as far as its input goes. */
  lemma {:induction false} StoppedEnded(s: Inflater, rest: seq<nat>, room: nat)
    requires Idle(s) && Stopped(s, rest, room) && room > 0
    ensures Ended(s, rest)
  {
    hide TableFits, SlidingWindow.Holds, ByteBits, ToBits, Inflater.Regs, Inflater.Tables, Inflater.FixedOk, Inflater.Slack;
    assert s.output[..0] == [] && s.before + [] == s.before;
  }

  /** Any number of calls, each with the input left over and some more, and with some room for output:
      together they are one run over all the input, and put out what that run puts out.  If the last
      of them leaves some of its room, the run has gone as far as the input goes. */
  method Session(s: Inflater, parts: seq<seq<nat>>, rooms: seq<nat>, finish: bool)
    returns (rest: seq<nat>, output: seq<nat>, room: nat)
    requires Idle(s) && |rooms| == |parts| && forall i :: 0 <= i < |parts| ==> IsBytes(parts[i])
    modifies s, s.lens, s.codes, s.window, s.window.data
    ensures Idle(s) && s.before == old(s.before) + output
    ensures Reaches(old(Resting(s, Join(parts))), Resting(s, rest))
    ensures |parts| > 0 && room > 0 ==> Ended(s, rest)
    ensures |parts| > 0 ==> room + |output| >= rooms[|rooms| - 1]
  {
    hide Idle, Step, ByteBits, ToBits, Reaches, Inflater.View, Stopped, IsBytes, Join, Ended;
    IdleShape(s);
    ghost var m, h, b := s.View(), s.Held(), s.before;
    rest, output, room := [], [], 0;
    assert b + [] == b;
    SessionStart(s);
    var i: nat := 0;
    while i < |parts|
      invariant i <= |parts| && Idle(s) && s.before == b + output && IsBytes(rest) && s.Shape()
      invariant Reaches(Conf(m, h + ByteBits(Join(parts[..i])), b), Resting(s, rest))
      invariant i > 0 && room > 0 ==> Ended(s, rest)
      invariant i > 0 ==> room + |output| >= rooms[i - 1]
    {
      FeedMore(m, h, b, parts, i, s.View(), s.Held(), s.before, rest);
      var input := rest + parts[i];
      BytesJoin(rest, parts[i]);
      ghost var c := Resting(s, input);
      var buffer := new nat[rooms[i]];
      var ret, consumed, produced := Inflate.Inflate(s, input, buffer, finish);
      rest, room := input[consumed..], rooms[i] - produced;
      if room > 0 {
        StoppedEnded(s, rest, room);
      }
      IdleShape(s);
      BytesRest(input, consumed);
      ReachesJoin(Conf(m, h + ByteBits(Join(parts[..i + 1])), b), c, Resting(s, rest));
      assert b + output + buffer[..produced] == b + (output + buffer[..produced]);
      output := output + buffer[..produced];
      i := i + 1;
    }
    assert parts[..|parts|] == parts;
  }

  lemma {:induction false} IdleShape(s: Inflater)
    requires Idle(s)
    ensures s.Shape()
  {
  }

  lemma {:induction false} SessionStart(s: Inflater)
    requires Idle(s)
    ensures Reaches(Conf(s.View(), s.Held() + ByteBits(Join([])), s.before), Resting(s, [])) && IsBytes([])
  {
    hide Step, ModeOk, TableFits, SlidingWindow.Holds;
    assert s.output[..0] == [] && s.before + [] == s.before;
    NoStep(Resting(s, []));
  }

  lemma {:induction false} BytesJoin(a: seq<nat>, b: seq<nat>)
    requires IsBytes(a) && IsBytes(b)
    ensures IsBytes(a + b)
  {
  }

  lemma {:induction false} BytesRest(a: seq<nat>, n: nat)
    requires IsBytes(a) && n <= |a|
    ensures IsBytes(a[n..])
  {
  }

  /** Chunking independence: two sessions over the same bytes, however they are cut and whatever room each
      call has, put out the same if both have come to their end, and anyhow the one that has not a beginning
      of what the other has. */
  lemma {:induction false} SameOutput(c: Conf, d: Conf, e: Conf, b: seq<nat>, out1: seq<nat>, out2: seq<nat>)
    requires Reaches(c, d) && Reaches(c, e) && d.hist == b + out1 && e.hist == b + out2
    requires ConfOk(e) && Next(e).None?
    ensures out1 <= out2
    ensures ConfOk(d) && (Next(d).None? ==> out1 == out2 && d.bits == e.bits && d.mode == e.mode)
  {
    OutputGrows(c, d, e);
    if Next(d).None? {
      OneEnd(c, d, e);
    }
    assert out1 == d.hist[|b|..] && out2 == e.hist[|b|..];
  }

  // The calls of `s` touch nothing that `t` uses.
  ghost predicate Separate(s: Inflater, t: Inflater)
    reads s, t, s.window, t.window
  {
    {s, s.lens, s.codes, s.window, s.window.data} !!
    {t, t.output, t.lens, t.codes, t.lenfix, t.distfix, t.lencode, t.distcode, t.window, t.window.data}
  }

  /** Two decompressors in the same state get the same bytes, cut in different ways, with different rooms. If the last
      call of each leaves some of its room, as it does if that is more than all the output, both end in the same way:
      the same output, the same state, and the same bits left over. */
  method TwoSessions(s: Inflater, parts: seq<seq<nat>>, rooms: seq<nat>, t: Inflater, others: seq<seq<nat>>, spaces: seq<nat>, finish: bool)
    returns (output: seq<nat>, room: nat, result: seq<nat>, space: nat, ghost rest: seq<nat>, ghost left: seq<nat>)
    requires Idle(s) && |rooms| == |parts| > 0 && forall i :: 0 <= i < |parts| ==> IsBytes(parts[i])
    requires Idle(t) && |spaces| == |others| > 0 && forall i :: 0 <= i < |others| ==> IsBytes(others[i])
    requires Separate(s, t) && Separate(t, s)
    requires s.Shape() && t.Shape() && Resting(s, Join(parts)) == Resting(t, Join(others))
    modifies s, s.lens, s.codes, s.window, s.window.data, t, t.lens, t.codes, t.window, t.window.data
    ensures room + |output| >= rooms[|rooms| - 1] && space + |result| >= spaces[|spaces| - 1]
    ensures room > 0 ==> result <= output
    ensures space > 0 ==> output <= result
    ensures s.Shape() && t.Shape() && s.before == old(s.before) + output && t.before == old(t.before) + result
    ensures room > 0 && space > 0 ==> output == result && Resting(s, rest) == Resting(t, left)
  {
    hide Idle, Step, ByteBits, ToBits, Reaches, Inflater.View, IsBytes, Join, Ended, ConfOk, Next;
    ghost var c, b := Resting(s, Join(parts)), s.before;
    var over, more;
    over, output, room := Session(s, parts, rooms, finish);
    IdleShape(s);
    ghost var d := Resting(s, over);
    EndedConf(s, over, room > 0);
    more, result, space := Session(t, others, spaces, finish);
    IdleShape(t);
    ghost var e := Resting(t, more);
    EndedConf(t, more, space > 0);
    rest, left := over, more;
    if space > 0 {
      SameOutput(c, d, e, b, output, result);
    }
    if room > 0 {
      SameOutput(c, e, d, b, result, output);
    }
  }

  lemma {:induction false} EndedConf(s: Inflater, rest: seq<nat>, ended: bool)
    requires s.Shape() && (ended ==> Ended(s, rest))
    ensures ended ==> ConfOk(Resting(s, rest)) && Next(Resting(s, rest)).None?
  {
    hide Step, ByteBits, Inflater.View;
  }
}
