/** How many codes scan_tree and send_tree (trees.c) make of a run of equal code lengths. */
module RunCounts {
  import opened Canonical
  import opened CodeRuns

  // The `n` lengths from the i-th on are `len`, and the next one is not.
  predicate IsRun(lens: seq<nat>, i: nat, n: nat, len: nat) {
    i + n <= |lens| && (forall j :: i <= j < i + n ==> lens[j] == len) && (i + n < |lens| ==> lens[i + n] != len)
  }

  // The codes of `n` lengths in groups of `g`: fewer than three are sent one by one.
  function Groups(n: nat, g: nat): nat
    requires g > 0
  {
    n / g + if n % g >= 3 then 1 else n % g
  }

  /** The codes of a run: zeros in groups of 138; other lengths once, then six at a time; three of them one by one. */
  function CodesOfRun(n: nat, len: nat): nat {
    if len == 0 then Groups(n, 138) else if n <= 3 then n else if n <= 7 then 2 else 2 + Groups(n - 7, 6)
  }

  lemma {:induction false} GroupsStep(n: nat, g: nat)
    requires g == 6 || g == 138
    ensures n >= g ==> Groups(n, g) == 1 + Groups(n - g, g)
    ensures n < g ==> Groups(n, g) == if n >= 3 then 1 else n
  {
    if g == 6 {
      assert n >= 6 ==> n / 6 == 1 + (n - 6) / 6 && n % 6 == (n - 6) % 6;
    }
  }

  lemma {:induction false} GroupIs(lens: seq<nat>, i: nat, n: nat, len: nat, prev: int)
    requires IsRun(lens, i, n, len) && n > 0
    ensures GroupAt(lens, i, prev) == if n < MaxCount(prev, len) then n else MaxCount(prev, len)
  {
    RunLenIs(lens, i, MaxCount(prev, len), if n < MaxCount(prev, len) then n else MaxCount(prev, len));
  }

  // The first group and the rest.
  lemma {:induction false} FirstGroup(lens: seq<nat>, i: nat, prev: int)
    requires i < |lens|
    ensures var c := GroupAt(lens, i, prev); |RunCodes(lens, i, prev)| == |Group(prev, lens[i], c)| + |RunCodes(lens, i + c, lens[i])|
  {
    hide Group;
  }

  lemma {:induction false} GroupSize(prev: int, len: nat, c: nat)
    requires c > 0
    ensures |Group(prev, len, c)| == if len == 0 || prev == len then if c >= 3 then 1 else c else if c >= 4 then 2 else c
  {
  }

  // A run that goes on after the same length, or one of zeros.
  lemma {:induction false} RunGoesOn(lens: seq<nat>, i: nat, n: nat, len: nat, prev: int)
    requires IsRun(lens, i, n, len) && (len == 0 || prev == len) && (n == 0 ==> prev == len)
    ensures |RunCodes(lens, i, prev)| == Groups(n, if len == 0 then 138 else 6) + |RunCodes(lens, i + n, len)|
    decreases n
  {
    hide Groups, RunCodes, GroupAt, Group;
    var g := if len == 0 then 138 else 6;
    GroupsStep(n, g);
    if n > 0 {
      GroupIs(lens, i, n, len, prev);
      var c := GroupAt(lens, i, prev);
      FirstGroup(lens, i, prev);
      GroupSize(prev, len, c);
      RunGoesOn(lens, i + c, n - c, len, len);
      GroupsStep(0, g);
    }
  }

  /** How many codes a run of `n` lengths after a different one is sent with; those of what follows do not depend on it. */
  lemma {:induction false} RunTakes(lens: seq<nat>, i: nat, n: nat, len: nat, prev: int)
    requires IsRun(lens, i, n, len) && n > 0 && prev != len
    ensures |RunCodes(lens, i, prev)| == CodesOfRun(n, len) + |RunCodes(lens, i + n, len)|
  {
    hide RunCodes, GroupAt, Group;
    if len == 0 {
      RunGoesOn(lens, i, n, len, prev);
    } else {
      GroupIs(lens, i, n, len, prev);
      var c := GroupAt(lens, i, prev);
      FirstGroup(lens, i, prev);
      GroupSize(prev, len, c);
      RunGoesOn(lens, i + c, n - c, len, len);
      GroupsStep(n - c, 6);
    }
  }
}
