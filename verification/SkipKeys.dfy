/** The order of the elements of a skip list: by score, then by member (compareslObj in skiplist.c). */
module SkipKeys {

  datatype Key = Key(score: real, member: seq<nat>)

  // The first difference of the first `n` bytes.
  function Memcmp(a: seq<nat>, b: seq<nat>, n: nat): int
    requires n <= |a| && n <= |b|
    decreases n
  {
    if n == 0 then 0
    else if a[0] != b[0] then a[0] - b[0]
    else Memcmp(a[1..], b[1..], n - 1)
  }

  // compareslObj
  function CompareObj(a: seq<nat>, b: seq<nat>): int {
    var cmp := Memcmp(a, b, if |a| <= |b| then |a| else |b|);
    if cmp == 0 then |a| - |b| else cmp
  }

  // equalslObj
  predicate EqualObj(a: seq<nat>, b: seq<nat>) {
    CompareObj(a, b) == 0
  }

  lemma {:induction false} CompareNext(a: seq<nat>, b: seq<nat>)
    requires a != [] && b != [] && a[0] == b[0]
    ensures CompareObj(a, b) == CompareObj(a[1..], b[1..])
  {
  }

  // Only equal members compare equal.
  lemma {:induction false} CompareZero(a: seq<nat>, b: seq<nat>)
    ensures CompareObj(a, b) == 0 <==> a == b
    decreases |a|
  {
    if a != [] && b != [] && a[0] == b[0] {
      CompareNext(a, b);
      CompareZero(a[1..], b[1..]);
      assert a == [a[0]] + a[1..] && b == [b[0]] + b[1..];
    }
  }

  lemma {:induction false} CompareSwap(a: seq<nat>, b: seq<nat>)
    ensures CompareObj(a, b) == -CompareObj(b, a)
    decreases |a|
  {
    if a != [] && b != [] && a[0] == b[0] {
      CompareNext(a, b);
      CompareNext(b, a);
      CompareSwap(a[1..], b[1..]);
    }
  }

  lemma {:induction false} CompareTrans(a: seq<nat>, b: seq<nat>, c: seq<nat>)
    requires CompareObj(a, b) < 0 && CompareObj(b, c) < 0
    ensures CompareObj(a, c) < 0
    decreases |a|
  {
    if a != [] && b != [] && c != [] && a[0] == b[0] == c[0] {
      CompareNext(a, b);
      CompareNext(b, c);
      CompareNext(a, c);
      CompareTrans(a[1..], b[1..], c[1..]);
    }
  }

  predicate Less(a: Key, b: Key) {
    a.score < b.score || (a.score == b.score && CompareObj(a.member, b.member) < 0)
  }

  /** The order is total: of two keys exactly one comes first, unless they are the same. */
  lemma {:induction false} LessTotal(a: Key, b: Key)
    ensures (Less(a, b) || Less(b, a)) <==> a != b
    ensures !(Less(a, b) && Less(b, a))
  {
    CompareSwap(a.member, b.member);
    CompareZero(a.member, b.member);
  }

  lemma {:induction false} LessTrans(a: Key, b: Key, c: Key)
    requires Less(a, b) && Less(b, c)
    ensures Less(a, c)
  {
    if a.score == b.score == c.score {
      CompareTrans(a.member, b.member, c.member);
    }
  }

  ghost predicate Sorted(keys: seq<Key>) {
    forall i, j :: 0 <= i < j < |keys| ==> Less(keys[i], keys[j])
  }

  // The keys before `pos` are less than `k`, the others are not.
  ghost predicate Splits(keys: seq<Key>, k: Key, pos: nat) {
    && pos <= |keys|
    && (forall j :: 0 <= j < pos ==> Less(keys[j], k))
    && (forall j :: pos <= j < |keys| ==> !Less(keys[j], k))
  }

  lemma {:induction false} SplitAt(keys: seq<Key>, k: Key) returns (pos: nat)
    requires Sorted(keys)
    ensures Splits(keys, k, pos)
  {
    hide Less;
    pos := 0;
    while pos < |keys| && Less(keys[pos], k)
      invariant pos <= |keys| && forall j :: 0 <= j < pos ==> Less(keys[j], k)
    {
      pos := pos + 1;
    }
    forall j | pos <= j < |keys|
      ensures !Less(keys[j], k)
    {
      if pos < j && Less(keys[j], k) {
        LessTrans(keys[pos], keys[j], k);
      }
    }
  }

  // A new key in its place.
  function Put(keys: seq<Key>, k: Key, pos: nat): seq<Key>
    requires pos <= |keys|
  {
    keys[..pos] + [k] + keys[pos..]
  }

  lemma {:induction false} PutSorted(keys: seq<Key>, k: Key, pos: nat)
    requires Sorted(keys) && Splits(keys, k, pos) && k !in keys
    ensures Sorted(Put(keys, k, pos))
  {
    hide Less;
    forall j | pos <= j < |keys|
      ensures Less(k, keys[j])
    {
      LessTotal(k, keys[j]);
    }
  }

  // The keys without those from `i` to before `j`.
  function Cut(keys: seq<Key>, i: nat, j: nat): seq<Key>
    requires i <= j <= |keys|
  {
    keys[..i] + keys[j..]
  }

  lemma {:induction false} CutSorted(keys: seq<Key>, i: nat, j: nat)
    requires Sorted(keys) && i <= j <= |keys|
    ensures Sorted(Cut(keys, i, j))
  {
    hide Less;
  }
}
