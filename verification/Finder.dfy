/** The state of the matcher of deflate (deflate_state in deflate.h) and INSERT_STRING. */
module Finder {
  import opened Bits
  import opened Tokens
  import opened RollingHash
  import opened HashChains
  import opened Matches

  const MIN_LOOKAHEAD: nat := MAX_MATCH + MIN_MATCH + 1
  const U32: nat := 0x1_0000_0000

  // Subtraction of unsigned numbers of 32 bits.
  function Sub32(a: nat, b: nat): (r: nat)
    requires a < U32 && b < U32
    ensures r < U32
  {
    if a >= b then a - b else a + U32 - b
  }

  class MatchFinder {
    const wsize: nat
    const shift: nat
    const bits: nat
    const good_match: nat
    const nice_match: nat
    const max_chain: nat
    const max_lazy: nat        // also max_insert_length
    const window: array<nat>
    const prev: array<nat>
    const head: array<nat>
    var ins_h: nat
    var strstart: nat
    var lookahead: nat
    var match_start: nat       // an unsigned number of 32 bits
    var block_start: int
    var source: seq<nat>       // input not yet read into the window
    ghost var input: seq<nat>  // all input read so far
    ghost var base: nat        // where the window starts in it
    ghost var end: nat         // where the data in the window end
    ghost var ins: set<nat>    // the strings inserted

    ghost predicate Sizes() {
      && HashOk(shift, bits) && 512 <= wsize <= WINDOW && max_chain >= 4 && nice_match <= MAX_MATCH
      && window.Length == 2 * wsize && prev.Length == wsize && head.Length == Pow2(bits)
      && window != prev && window != head && prev != head
    }

    function MaxDist(): nat
      requires wsize >= 512
    {
      wsize - MIN_LOOKAHEAD
    }

    // The window holds the end of the input.
    ghost predicate Data()
      reads this, window
    {
      && end <= window.Length && base + end == |input| && window[..end] == input[base..]
      && IsBytes(window[..]) && IsBytes(input) && IsBytes(source)
    }

    // The strings inserted lie below `top`.
    ghost predicate Index(top: nat)
      reads this, prev, head
    {
      Chains(head[..], prev[..], shift, bits, input, base, ins, wsize) && forall p :: p in ins ==> p < top
    }

    // The hash register is ready for the string at `str`.
    ghost predicate Ready(str: nat)
      reads this, window
    {
      str + 1 < window.Length && Primed(shift, bits, ins_h, window[str], window[str + 1])
    }

    // Between two steps of the compressor.
    ghost predicate Valid()
      reads this, window, prev, head
    {
      Sizes() && Data() && Index(strstart) && end == strstart + lookahead && match_start < U32
    }

    // The hash register is ready, if there is a string to be inserted.
    ghost predicate Hashed()
      reads this, window
    {
      lookahead >= MIN_MATCH ==> Ready(strstart)
    }

    /** deflateInit2_ and lm_init, with the parameters of the compression level. */
    constructor (w_bits: nat, mem_level: nat, good: nat, lazy: nat, nice: nat, chain: nat)
      requires 9 <= w_bits <= 15 && 1 <= mem_level <= 9 && chain >= 4 && nice <= MAX_MATCH
      ensures Valid() && Hashed() && input == [] && base == 0 && source == [] && strstart == 0 && lookahead == 0 && block_start == 0 && ins == {}
      ensures wsize == Pow2(w_bits) && bits == mem_level + 7
      ensures good_match == good && max_lazy == lazy && nice_match == nice && max_chain == chain
      ensures fresh(window) && fresh(prev) && fresh(head)
    {
      WindowSizes(w_bits);
      hide Pow2;
      wsize, bits := Pow2(w_bits), mem_level + 7;
      shift := (mem_level + 7 + MIN_MATCH - 1) / MIN_MATCH;
      good_match, max_lazy, nice_match, max_chain := good, lazy, nice, chain;
      window := new nat[2 * Pow2(w_bits)](_ => 0);
      prev := new nat[Pow2(w_bits)](_ => 0);
      head := new nat[Pow2(mem_level + 7)](_ => 0);
      ins_h, strstart, lookahead, match_start, block_start, source := 0, 0, 0, 0, 0, [];
      input, base, end, ins := [], 0, 0, {};
    }

    /** INSERT_STRING: insert the string at `str` and return the previous head of its chain. */
    method InsertString(str: nat) returns (hash_head: nat)
      requires Sizes() && Data() && Index(str) && Ready(str) && str + 2 < end
      modifies this`ins_h, this`ins, prev, head
      ensures Index(str + 1) && Ready(str + 1) && Linked(str, hash_head) && ins == old(ins) + {str}
      ensures Previous(hash_head, str, shift, bits, input, base, ins)
    {
      hide Chains, Update, Hash3, Primed, IsBytes, Pow2, HashOk, LinkOk;
      ghost var hd: seq<nat>, pv: seq<nat>, h0 := head[..], prev[..], ins_h;
      WindowAt(window[..], input, base, end, str);
      PrimedNext(shift, bits, h0, window[str], window[str + 1], window[str + 2]);
      ins_h := Update(shift, bits, ins_h, window[str + (MIN_MATCH - 1)]);
      ghost var hh: nat := ins_h;
      InsertChain(hd, pv, shift, bits, input, base, ins, wsize, str, hh);
      hash_head := head[ins_h];
      prev[Slot(str, wsize)] := hash_head;
      head[ins_h] := str;
      LinkLater(hash_head, str, shift, bits, input, base, ins, str);
      ins := ins + {str};
      assert head[..] == hd[hh := str] && prev[..] == pv[Slot(str, wsize) := hd[hh]];
    }

    // `q` is no string, or an older one with the hash of the string at `str`.
    ghost predicate Linked(str: nat, q: nat)
      reads this
    {
      str in ins && LinkOk(q, str, shift, bits, input, base, ins)
    }
  }

  lemma {:induction false} WindowSizes(w_bits: nat)
    requires 9 <= w_bits <= 15
    ensures 512 <= Pow2(w_bits) <= WINDOW
  {
    assert Pow2(9) == 512 && Pow2(15) == 32768 by { Pow2Values(); }
    hide Pow2;
    Pow2Mono(9, w_bits);
    Pow2Mono(w_bits, 15);
  }

  // A link stays good when a string is inserted.
  lemma {:induction false} LinkLater(q: nat, p: nat, shift: nat, bits: nat, input: seq<nat>, base: nat, ins: set<nat>, str: nat)
    requires LinkOk(q, p, shift, bits, input, base, ins)
    ensures LinkOk(q, p, shift, bits, input, base, ins + {str})
  {
  }

  // Three bytes of the window in terms of the input.
  lemma {:induction false} WindowAt(w: seq<nat>, input: seq<nat>, base: nat, end: nat, str: nat)
    requires end <= |w| && base + end == |input| && w[..end] == input[base..] && str + 2 < end
    ensures base + str + 2 < |input|
    ensures w[str] == input[base + str] && w[str + 1] == input[base + str + 1] && w[str + 2] == input[base + str + 2]
  {
    assert w[..end][str] == input[base..][str];
    assert w[..end][str + 1] == input[base..][str + 1];
    assert w[..end][str + 2] == input[base..][str + 2];
  }
}
