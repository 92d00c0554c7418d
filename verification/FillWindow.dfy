/** fill_window and slide_hash of deflate.c: the window keeps the end of the input and the chains
keep their strings, wherever the window moves. */
module FillWindow {
  import opened Bits
  import opened Tokens
  import opened RollingHash
  import opened HashChains
  import opened Matches
  import opened Finder

  // One of the two loops of slide_hash.
  method SlideLinks(a: array<nat>, wsize: nat)
    modifies a
    ensures a[..] == SlidAll(old(a[..]), wsize)
  {
    var n := a.Length;
    while n > 0
      invariant 0 <= n <= a.Length
      invariant forall i :: n <= i < a.Length ==> a[i] == Slid(old(a[i]), wsize)
      invariant forall i :: 0 <= i < n ==> a[i] == old(a[i])
    {
      n := n - 1;
      var m := a[n];
      a[n] := if m >= wsize then m - wsize else 0;
    }
  }

  /** Slide the hash table when the window slides down. */
  method SlideHash(f: MatchFinder)
    requires f.Sizes()
    modifies f.head, f.prev
    ensures f.head[..] == SlidAll(old(f.head[..]), f.wsize) && f.prev[..] == SlidAll(old(f.prev[..]), f.wsize)
  {
    hide HashOk, Pow2;
    SlideLinks(f.head, f.wsize);
    SlideLinks(f.prev, f.wsize);
  }

  // Copy `n` bytes from `from` to the start (zmemcpy).
  method CopyDown(a: array<nat>, from: nat, n: nat)
    requires n <= from && from + n <= a.Length && IsBytes(a[..])
    modifies a
    ensures a[..n] == old(a[from..from + n]) && IsBytes(a[..])
  {
    forall i | 0 <= i < n {
      a[i] := a[from + i];
    }
  }

  method CopyIn(a: array<nat>, at: nat, bytes: seq<nat>)
    requires at + |bytes| <= a.Length && IsBytes(a[..]) && IsBytes(bytes)
    modifies a
    ensures a[..at] == old(a[..at]) && a[at..at + |bytes|] == bytes && IsBytes(a[..])
  {
    forall i | 0 <= i < |bytes| {
      a[at + i] := bytes[i];
    }
  }

  // The strings that stay lie lower by `wsize`.
  lemma {:induction false} SlidBelow(ins: set<nat>, wsize: nat, top: nat)
    requires wsize <= top && forall p :: p in ins ==> p < top
    ensures forall p :: p in SlidSet(ins, wsize) ==> p < top - wsize
  {
    forall p | p in SlidSet(ins, wsize)
      ensures p < top - wsize
    {
      assert p + wsize in ins;
    }
  }

  // Moving the upper half of the window down.
  lemma {:induction false} MovedDown(w: seq<nat>, w1: seq<nat>, input: seq<nat>, base: nat, end: nat, wsize: nat)
    requires wsize <= end <= |w| == |w1| == 2 * wsize && base + end == |input| && w[..end] == input[base..]
    requires w1[..end - wsize] == w[wsize..end]
    ensures w1[..end - wsize] == input[base + wsize..]
  {
    assert w[wsize..end] == w[..end][wsize..];
  }

  lemma {:induction false} SameBytes(w: seq<nat>, w1: seq<nat>, wsize: nat, live: nat, i: nat)
    requires wsize + live <= |w| && live <= |w1| && w1[..live] == w[wsize..wsize + live] && i <= live
    ensures i + 2 < live ==> w1[i] == w[wsize + i] && w1[i + 1] == w[wsize + i + 1]
  {
    if i + 2 < live {
      assert w1[..live][i] == w[wsize..wsize + live][i] && w1[..live][i + 1] == w[wsize..wsize + live][i + 1];
    }
  }

  // The strings inserted are the same places of the input, as far as they are in the window still.
  ghost predicate SameStrings(base0: nat, ins0: set<nat>, base1: nat, ins1: set<nat>) {
    base0 <= base1 && forall i: nat :: i in ins1 <==> i + (base1 - base0) in ins0
  }

  lemma {:induction false} StringsOn(base0: nat, ins0: set<nat>, base1: nat, ins1: set<nat>, base2: nat, ins2: set<nat>)
    requires SameStrings(base0, ins0, base1, ins1) && SameStrings(base1, ins1, base2, ins2)
    ensures SameStrings(base0, ins0, base2, ins2)
  {
    forall i: nat
      ensures i in ins2 <==> i + (base2 - base0) in ins0
    {
      assert i in ins2 <==> i + (base2 - base1) in ins1;
      assert i + (base2 - base1) in ins1 <==> i + (base2 - base1) + (base1 - base0) in ins0;
    }
  }

  lemma {:induction false} SlidStrings(base: nat, ins: set<nat>, wsize: nat)
    ensures SameStrings(base, ins, base + wsize, SlidSet(ins, wsize))
  {
  }

  /** Move the upper half of the window to the lower one: the strings, the last match and the
      block stay the same in the input. */
  method Slide(f: MatchFinder)
    requires f.Valid() && f.strstart >= f.wsize + f.MaxDist()
    modifies f`strstart, f`match_start, f`block_start, f`base, f`end, f`ins, f.window, f.head, f.prev
    ensures f.Valid() && f.base == old(f.base) + f.wsize && f.strstart == old(f.strstart) - f.wsize
    ensures f.block_start == old(f.block_start) - f.wsize
    ensures f.match_start == Sub32(old(f.match_start), f.wsize)
    ensures old(f.Hashed()) ==> f.Hashed()
    ensures SameStrings(old(f.base), old(f.ins), f.base, f.ins)
  {
    hide Chains, HashOk, Pow2, Primed, SlidSet, SlidAll, Slid, IsBytes, SameStrings;
    ghost var w: seq<nat>, hd: seq<nat>, pv: seq<nat> := f.window[..], f.head[..], f.prev[..];
    var live := f.strstart + f.lookahead - f.wsize;  // wsize - more
    CopyDown(f.window, f.wsize, live);
    MovedDown(w, f.window[..], f.input, f.base, f.end, f.wsize);
    SameBytes(w, f.window[..], f.wsize, live, f.strstart - f.wsize);
    SlideChains(hd, pv, f.shift, f.bits, f.input, f.base, f.ins, f.wsize);
    SlidBelow(f.ins, f.wsize, f.strstart);
    SlidStrings(f.base, f.ins, f.wsize);
    SlideHash(f);
    f.match_start, f.strstart, f.block_start := Sub32(f.match_start, f.wsize), f.strstart - f.wsize, f.block_start - f.wsize;
    f.base, f.end, f.ins := f.base + f.wsize, f.end - f.wsize, SlidSet(f.ins, f.wsize);
  }

  // More input at the end of the window.
  lemma {:induction false} MoreData(w: seq<nat>, w1: seq<nat>, input: seq<nat>, base: nat, end: nat, more: seq<nat>)
    requires end + |more| <= |w| == |w1| && base + end == |input| && w[..end] == input[base..]
    requires w1[..end] == w[..end] && w1[end..end + |more|] == more
    ensures w1[..end + |more|] == (input + more)[base..]
  {
    assert w1[..end + |more|] == w1[..end] + w1[end..end + |more|];
    assert (input + more)[base..] == input[base..] + more;
  }

  /** read_buf: up to `size` bytes of the source go to the end of the data. */
  method ReadBuf(f: MatchFinder, size: nat) returns (n: nat)
    requires f.Valid() && f.end + size <= f.window.Length
    modifies f`source, f`input, f`end, f`lookahead, f.window
    ensures n == (if |old(f.source)| > size then size else |old(f.source)|)
    ensures f.Valid() && f.lookahead == old(f.lookahead) + n
    ensures f.input == old(f.input) + old(f.source)[..n] && f.source == old(f.source)[n..]
  {
    hide Chains, HashOk, Pow2, Primed;
    n := |f.source|;
    if n > size {
      n := size;
    }
    ghost var w: seq<nat>, hd: seq<nat>, pv: seq<nat>, more := f.window[..], f.head[..], f.prev[..], f.source[..n];
    ChainsLater(hd, pv, f.shift, f.bits, f.input, f.base, f.ins, f.wsize, more);
    CopyIn(f.window, f.strstart + f.lookahead, f.source[..n]);
    MoreData(w, f.window[..], f.input, f.base, f.end, more);
    assert f.head[..] == hd && f.prev[..] == pv;
    f.source := f.source[n..];
    f.lookahead := f.lookahead + n;
    f.input, f.end := f.input + more, f.end + n;
  }

  // Start the hash of the string at `str`.
  method StartHash(f: MatchFinder, str: nat)
    requires f.Sizes() && str + 1 < f.window.Length && IsBytes(f.window[..])
    modifies f`ins_h
    ensures f.Ready(str)
  {
    hide Update, Primed, Pow2;
    assert f.window[..][str] == f.window[str];
    PrimedStart(f.shift, f.bits, f.window[str], f.window[str + 1]);
    f.ins_h := f.window[str];
    f.ins_h := Update(f.shift, f.bits, f.ins_h, f.window[str + 1]);
  }

  // Distances survive a slide, although the start of an old match may wrap round.
  lemma {:induction false} SlideDistance(s: nat, m: nat, wsize: nat)
    requires wsize <= s < U32 && m < U32
    ensures Sub32(s - wsize, Sub32(m, wsize)) == Sub32(s, m)
  {
  }

  /** Where the compressor is in the whole input: the current string, the start of the block, the
      distance of the last match, and the input itself. */
  ghost function Place(f: MatchFinder): (int, int, nat, seq<nat>)
    reads f
    requires f.strstart < U32 && f.match_start < U32
  {
    (f.base + f.strstart, f.base + f.block_start, Sub32(f.strstart, f.match_start), f.input + f.source)
  }

  // Make room in the window when it is almost full.
  method SlideIfFull(f: MatchFinder)
    requires f.Valid()
    modifies f, f.window, f.head, f.prev
    ensures f.Valid() && Place(f) == old(Place(f)) && f.input == old(f.input) && f.source == old(f.source)
    ensures f.lookahead == old(f.lookahead) && f.strstart + MIN_LOOKAHEAD < 2 * f.wsize
    ensures f.strstart == old(f.strstart) || f.strstart >= f.MaxDist()
    ensures old(f.Hashed()) ==> f.Hashed()
    ensures SameStrings(old(f.base), old(f.ins), f.base, f.ins)
  {
    hide Chains, HashOk, Pow2, Primed, IsBytes, Sub32;
    if f.strstart >= f.wsize + f.MaxDist() {
      SlideDistance(f.strstart, f.match_start, f.wsize);
      Slide(f);
    }
  }

  // Read input into the room there is, which is at least two bytes.
  method TakeInput(f: MatchFinder)
    requires f.Valid() && f.lookahead < MIN_LOOKAHEAD && f.strstart + MIN_LOOKAHEAD < 2 * f.wsize && f.source != []
    modifies f`source, f`input, f`end, f`lookahead, f`ins_h, f.window
    ensures f.Valid() && f.Hashed() && Place(f) == old(Place(f)) && old(f.input) <= f.input
    ensures f.lookahead > old(f.lookahead) && |f.source| < |old(f.source)|
  {
    hide Chains, HashOk, Pow2, Primed, IsBytes, Sub32;
    var more := f.window.Length - f.lookahead - f.strstart;
    assert more >= 2;
    ghost var src: seq<nat>, inp: seq<nat> := f.source, f.input;
    var n := ReadBuf(f, more);
    assert inp + src == inp + src[..n] + src[n..];
    if f.lookahead >= MIN_MATCH {
      StartHash(f, f.strstart);
    }
  }

  /** The window moves on in the input: there is enough lookahead then, or no input left. */
  method FillWindow(f: MatchFinder)
    requires f.Valid() && f.lookahead < MIN_LOOKAHEAD
    modifies f, f.window, f.head, f.prev
    ensures f.Valid() && Place(f) == old(Place(f)) && old(f.input) <= f.input
    ensures f.lookahead >= MIN_LOOKAHEAD || f.source == []
    ensures f.lookahead >= old(f.lookahead) && f.strstart + MIN_LOOKAHEAD < 2 * f.wsize
    ensures f.strstart == old(f.strstart) || f.strstart >= f.MaxDist()
    ensures old(f.Hashed()) ==> f.Hashed()
    ensures SameStrings(old(f.base), old(f.ins), f.base, f.ins)
  {
    hide Chains, HashOk, Pow2, Primed, IsBytes, Sub32;
    var going := true;
    while going
      invariant f.Valid() && Place(f) == old(Place(f)) && old(f.input) <= f.input
      invariant if going then f.lookahead < MIN_LOOKAHEAD else f.lookahead >= MIN_LOOKAHEAD || f.source == []
      invariant f.lookahead >= old(f.lookahead) && (going || f.strstart + MIN_LOOKAHEAD < 2 * f.wsize)
      invariant f.strstart == old(f.strstart) || f.strstart >= f.MaxDist()
      invariant old(f.Hashed()) ==> f.Hashed()
      invariant SameStrings(old(f.base), old(f.ins), f.base, f.ins)
      decreases |f.source|, going
    {
      ghost var base, ins := f.base, f.ins;
      going := FillOnce(f);
      StringsOn(old(f.base), old(f.ins), base, ins, f.base, f.ins);
    }
  }

  // One turn of the loop; false when it is the last one.
  method FillOnce(f: MatchFinder) returns (again: bool)
    requires f.Valid() && f.lookahead < MIN_LOOKAHEAD
    modifies f, f.window, f.head, f.prev
    ensures f.Valid() && Place(f) == old(Place(f)) && old(f.input) <= f.input
    ensures if again then f.lookahead < MIN_LOOKAHEAD && |f.source| < |old(f.source)| else |f.source| <= |old(f.source)| && (f.lookahead >= MIN_LOOKAHEAD || f.source == [])
    ensures f.lookahead >= old(f.lookahead) && f.strstart + MIN_LOOKAHEAD < 2 * f.wsize
    ensures f.strstart == old(f.strstart) || f.strstart >= f.MaxDist()
    ensures old(f.Hashed()) ==> f.Hashed()
    ensures SameStrings(old(f.base), old(f.ins), f.base, f.ins)
  {
    hide Chains, HashOk, Pow2, Primed, IsBytes, Sub32;
    SlideIfFull(f);
    if f.source == [] {
      return false;
    }
    TakeInput(f);
    again := f.lookahead < MIN_LOOKAHEAD && f.source != [];
  }
}
