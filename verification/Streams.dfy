/** Whole deflate streams: the blocks one after the other, and what inflate makes of them. */
module Streams {
  import opened Bits
  import opened Canonical
  import opened TableCells
  import opened CodeCounts
  import opened EnoughSpace
  import opened Tokens
  import opened BlockMachine
  import opened BitWriter
  import RunReader
  import opened BlockHeader
  import opened BlockData
  import opened Blocks

  // Every block can be sent.
  ghost predicate Sendings(bs: seq<Block>) {
    forall i :: 0 <= i < |bs| ==> BlockOk(bs[i]) && Built(bs[i])
  }

  // The bits of blocks that are not the last ones.
  ghost function StreamBits(bs: seq<Block>): seq<bool>
    requires Sendings(bs)
  {
    if bs == [] then [] else
      var front := StreamBits(bs[..|bs| - 1]);
      front + BlockString(bs[|bs| - 1], false, |front|)
  }

  // The whole stream, whose last block fills its last byte with zeros.
  ghost function FinalBits(bs: seq<Block>): seq<bool>
    requires bs != [] && Sendings(bs)
  {
    var front := StreamBits(bs[..|bs| - 1]);
    var b := BlockString(bs[|bs| - 1], true, |front|);
    front + b + Zeros(Padding(|front| + |b|))
  }

  // Every block means something after the ones before it.
  ghost predicate AllSensible(bs: seq<Block>)
    decreases |bs|, 0
  {
    bs == [] || (AllSensible(bs[..|bs| - 1]) && Sensible(bs[|bs| - 1], Output(bs[..|bs| - 1])))
  }

  // The bytes the blocks stand for.
  ghost function Output(bs: seq<Block>): seq<nat>
    requires AllSensible(bs)
    decreases |bs|, 1
  {
    if bs == [] then [] else After(bs[|bs| - 1], Output(bs[..|bs| - 1]))
  }

  lemma {:induction false} UsableCl(b: Block)
    requires Built(b)
    ensures b.DynBlock? ==> Usable(CODES, b.h.cl)
  {
    hide Usable, Decodable;
  }

  lemma {:induction false} OutputBytes(bs: seq<Block>)
    requires Sendings(bs) && AllSensible(bs)
    ensures IsBytes(Output(bs))
  {
    hide BlockOk, Built, Sensible, After;
    if bs != [] {
      OutputBytes(bs[..|bs| - 1]);
      AfterIsBytes(bs[|bs| - 1], Output(bs[..|bs| - 1]));
    }
  }

  // Where a machine starts that sees all of `b`.
  function Start(b: seq<bool>): Conf {
    Conf(TypeDo(false), b, [])
  }

  /** Blocks that can be read are read back one after the other. */
  lemma {:induction false} StreamRead(bs: seq<Block>, x: seq<bool>)
    requires Sendings(bs) && AllSensible(bs) && (|StreamBits(bs)| + |x|) % 8 == 0
    ensures Reaches(Start(StreamBits(bs) + x), Conf(TypeDo(false), x, Output(bs)))
  {
    hide BlockOk, Built, Sensible, After, BlockString, Reaches;
    if bs == [] {
      assert StreamBits(bs) + x == x;
      RunReader.NoStep(Start(x));
    } else {
      var front, b := bs[..|bs| - 1], bs[|bs| - 1];
      var s := StreamBits(front);
      var y := BlockString(b, false, |s|);
      assert StreamBits(bs) + x == s + (y + x);
      StreamRead(front, y + x);
      OutputBytes(front);
      BuiltBuildable(b);
      UsableCl(b);
      BlockRoundTrip(b, false, |s|, x, Output(front));
      ReachesJoin(Start(StreamBits(bs) + x), Conf(TypeDo(false), y + x, Output(front)), Conf(TypeDo(false), x, Output(bs)));
    }
  }

  /** What the whole stream decodes to: the bytes its blocks stand for, with every bit taken. */
  lemma {:induction false} StreamRoundTrip(bs: seq<Block>)
    requires bs != [] && Sendings(bs) && AllSensible(bs)
    ensures |FinalBits(bs)| % 8 == 0
    ensures Reaches(Start(FinalBits(bs)), Conf(Done, [], Output(bs)))
  {
    hide BlockOk, Built, Sensible, After, BlockString, Reaches, Padding, Buildable;
    var front, b := bs[..|bs| - 1], bs[|bs| - 1];
    var s := StreamBits(front);
    var y := BlockString(b, true, |s|);
    var pad := Zeros(Padding(|s| + |y|));
    assert FinalBits(bs) == s + (y + pad);
    OutputBytes(front);
    StreamRead(front, y + pad);
    var c := Conf(TypeDo(false), y + pad, Output(front));
    BuiltBuildable(b);
    UsableCl(b);
    BlockRoundTrip(b, true, |s|, pad, Output(front));
    ReachesJoin(Start(FinalBits(bs)), c, Conf(TypeDo(true), pad, Output(bs)));
    OutputBytes(bs);
    LastStep(pad, Output(bs));
    ReachesJoin(Start(FinalBits(bs)), Conf(TypeDo(true), pad, Output(bs)), Conf(Done, [], Output(bs)));
  }

  lemma {:induction false} LastStep(pad: seq<bool>, hist: seq<nat>)
    requires |pad| < 8 && IsBytes(hist)
    ensures Reaches(Conf(TypeDo(true), pad, hist), Conf(Done, [], hist))
  {
    assert hist + [] == hist && pad[|pad|..] == [];
    RunReader.OneStep(Conf(TypeDo(true), pad, hist), Conf(Done, [], hist));
  }

  // One more block.
  lemma {:induction false} Longer(bs: seq<Block>, b: Block)
    requires Sendings(bs) && AllSensible(bs) && BlockOk(b) && Built(b) && Sensible(b, Output(bs))
    ensures Sendings(bs + [b]) && AllSensible(bs + [b]) && Output(bs + [b]) == After(b, Output(bs))
    ensures StreamBits(bs + [b]) == StreamBits(bs) + BlockString(b, false, |StreamBits(bs)|)
    ensures FinalBits(bs + [b]) == StreamBits(bs) + BlockString(b, true, |StreamBits(bs)|) +
                                   Zeros(Padding(|StreamBits(bs)| + |BlockString(b, true, |StreamBits(bs)|)|))
  {
    hide BlockOk, Built, Sensible, After, BlockString;
    assert (bs + [b])[..|bs|] == bs;
  }
}
