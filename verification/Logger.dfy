/** The double-buffered logger (append and worker_func of lua-log.c): the steps of the two threads and what they share. */
module Logger {
  const MESSAGES: nat := 512
  const MOST: nat := 25

  // What one buffer holds.
  const FULL: nat := MESSAGES - 1

  datatype Message = Message(level: nat, data: seq<nat>)

  class Buffer {
    var next: Buffer?
    var messages: seq<Message>

    constructor ()
      ensures next == null && messages == []
    {
      next, messages := null, [];
    }
  }

  // The messages of some buffers, in order.
  ghost function AllOf(s: seq<Buffer>): seq<Message>
    reads s
  {
    if s == [] then [] else AllOf(s[..|s| - 1]) + s[|s| - 1].messages
  }

  lemma {:induction false} AllOfSplit(s: seq<Buffer>, t: seq<Buffer>)
    ensures AllOf(s + t) == AllOf(s) + AllOf(t)
  {
    if t == [] {
      assert s + t == s;
    } else {
      AllOfSplit(s, t[..|t| - 1]);
      assert (s + t)[..|s + t| - 1] == s + t[..|t| - 1];
    }
  }

  lemma {:induction false} NoMessages()
    ensures AllOf([]) == []
  {
  }

  lemma {:induction false} AllOfNext(s: seq<Buffer>, i: nat)
    requires i < |s|
    ensures AllOf(s[..i + 1]) == AllOf(s[..i]) + s[i].messages
  {
    assert s[..i + 1][..i] == s[..i];
  }

  // Messages of buffers that kept theirs.
  twostate lemma SameMessages(s: seq<Buffer>)
    requires forall b :: b in s ==> b.messages == old(b.messages)
    ensures AllOf(s) == old(AllOf(s))
  {
    if s != [] {
      SameMessages(s[..|s| - 1]);
    }
  }

  // Different buffers, each leading to the next one.
  ghost predicate Linked(s: seq<Buffer>)
    reads s
  {
    && (forall i, j :: 0 <= i < j < |s| ==> s[i] != s[j])
    && (forall i :: 0 <= i < |s| - 1 ==> s[i].next == s[i + 1])
    && (s != [] ==> s[|s| - 1].next == null)
    && forall i :: 0 <= i < |s| ==> |s[i].messages| < MESSAGES
  }

  lemma {:induction false} LinkedNone()
    ensures Linked([])
  {
  }

  // All buffers are full but the last one, which is not empty if there are others.
  ghost predicate Packed(s: seq<Buffer>)
    reads s
  {
    && s != [] && (forall i :: 0 <= i < |s| - 1 ==> |s[i].messages| == FULL)
    && |s[|s| - 1].messages| <= FULL && (|s| > 1 ==> s[|s| - 1].messages != [])
  }

  lemma {:induction false} FullMessages(s: seq<Buffer>, n: nat)
    requires n <= |s| && forall i :: 0 <= i < n ==> |s[i].messages| == FULL
    ensures |AllOf(s[..n])| == FULL * n
  {
    if n > 0 {
      FullMessages(s, n - 1);
      AllOfNext(s, n - 1);
    } else {
      NoMessages();
    }
  }

  /** How many buffers there are can be told by the messages in them. */
  lemma {:induction false} PackedCount(s: seq<Buffer>, n: nat)
    requires Packed(s) && n > 0
    ensures |s| > n <==> |AllOf(s)| > FULL * n
    ensures n < |s| ==> AllOf(s[..n]) == AllOf(s)[..FULL * n]
  {
    hide AllOf;
    var k := |s| - 1;
    FullMessages(s, k);
    AllOfNext(s, k);
    assert s[..k + 1] == s;
    if n < |s| {
      FullMessages(s, n);
      AllOfSplit(s[..n], s[n..]);
      assert s[..n] + s[n..] == s;
    }
  }

  ghost predicate Empty(b: Buffer?)
    reads b
  {
    b != null ==> b.messages == [] && b.next == null
  }

  /** What the mutex protects: the queue of full buffers, the current one behind it, and a spare. */
  class Front {
    var curr: Buffer
    var spare: Buffer?
    var head: Buffer?
    var tail: Buffer?
    var size: nat
    // the queue and the current buffer
    ghost var chain: seq<Buffer>
    ghost var nodes: set<Buffer>

    ghost predicate Valid()
      reads this, nodes
    {
      && |chain| == size + 1 && chain[size] == curr && (forall i :: 0 <= i <= size ==> chain[i] in nodes) && Linked(chain)
      && (if size == 0 then head == null && tail == null else head == chain[0] && tail == chain[size - 1])
      && (spare != null ==> spare in nodes && spare !in chain && Empty(spare))
      && (spare == null ==> size > 0)
    }

    ghost function Messages(): seq<Message>
      reads this, nodes
      requires Valid()
    {
      AllOf(chain)
    }

    constructor ()
      ensures Valid() && Messages() == [] && fresh(nodes) && Packed(chain)
    {
      var c := new Buffer();
      var s := new Buffer();
      curr, spare, head, tail, size := c, s, null, null, 0;
      chain, nodes := [c], {c, s};
      new;
      assert chain[..0] == [];
      AllOfNext(chain, 0);
      assert chain[..1] == chain;
    }

    // The spare buffer or a new one.
    method TakeSpare() returns (b: Buffer)
      requires spare != null ==> spare in nodes && Empty(spare)
      modifies this`spare
      ensures b.messages == [] && b.next == null && spare == null && (b == old(spare) || fresh(b))
    {
      if spare != null {
        b := spare;
        spare := null;
      } else {
        b := new Buffer();
      }
    }

    // The current buffer joins the queue; what led to it leads to it already.
    method Enqueue()
      requires Valid()
      modifies this`head, this`tail, this`size, nodes
      ensures size == old(size) + 1 && head == chain[0] && tail == curr && curr.next == null
      ensures forall b :: b in nodes ==> b.next == old(b.next) && b.messages == old(b.messages)
    {
      hide AllOf;
      if head == null {
        assert tail == null;
        head, tail := curr, curr;
      } else {
        tail.next := curr;
        tail := curr;
      }
      size := size + 1;
      assert tail.next == null;
    }

    // The current buffer joins the queue; the spare one or a new one takes its place.
    method Rotate()
      requires Valid()
      modifies this, nodes
      ensures Valid() && chain[..size] == old(chain) && curr.messages == [] && fresh(nodes - old(nodes))
      ensures forall b :: b in old(nodes) ==> b.messages == old(b.messages)
    {
      hide AllOf, Packed;
      Enqueue();
      assert forall i :: 0 <= i < |chain| - 1 ==> chain[i].next == chain[i + 1];
      var b := TakeSpare();
      curr.next := b;
      curr := b;
      chain, nodes := chain + [b], nodes + {b};
    }

    // The queue and the current buffer go to the worker; its empty buffers come in their place, the second one as needed.
    method HandOver(free1: Buffer, free2: Buffer) returns (h: Buffer, n: nat, both: bool)
      requires Valid() && Empty(free1) && Empty(free2) && free1 != free2 && free1 !in nodes && free2 !in nodes
      modifies this
      ensures Valid() && Packed(chain) && Messages() == [] && n == old(|chain|) && n > 0 && h == old(chain)[0] && both == (old(spare) == null)
      ensures nodes == {free1} + (if both then {free2} else {old(spare)}) && (both ==> n >= 2)
      ensures !both ==> old(spare) in old(nodes) && old(spare) !in old(chain)
    {
      if head == null {
        head := curr;
        tail := curr;
      } else {
        tail := curr;
      }
      size := size + 1;
      curr := free1;
      h, n := head, size;
      head, tail, size := null, null, 0;
      both := spare == null;
      if spare == null {
        spare := free2;
      }
      chain, nodes := [free1], {free1, spare};
      NoneIn(free1);
    }

    static lemma {:induction false} NoneIn(b: Buffer)
      requires Empty(b)
      ensures AllOf([b]) == []
    {
      assert [b][..0] == [];
    }

    /** append */
    method Append(m: Message)
      requires Valid() && Packed(chain)
      modifies this, nodes
      ensures Valid() && Packed(chain) && Messages() == old(Messages()) + [m] && fresh(nodes - old(nodes))
    {
      hide AllOf;
      if |curr.messages| + 1 >= MESSAGES {
        ghost var s := chain;
        Rotate();
        SameMessages(s);
        AllOfNext(chain, size);
        assert chain[..size + 1] == chain;
      }
      Store(m);
    }

    method Store(m: Message)
      requires Valid() && |curr.messages| + 1 < MESSAGES && forall i :: 0 <= i < size ==> |chain[i].messages| == FULL
      modifies nodes
      ensures Valid() && Packed(chain) && Messages() == old(Messages()) + [m]
    {
      ghost var front := chain[..size];
      assert front + [curr] == chain;
      curr.messages := curr.messages + [m];
    }
  }

  // What the worker does next: take what there is, cut an overlong batch, write, or make the buffers free again.
  datatype Phase = Waiting | Taken | Checked | Done

  /** The worker's own: two free buffers and the batch it writes. Nobody else sees it, so that its steps may come at any time. */
  class Back {
    var free1: Buffer?
    var free2: Buffer?
    var first: Buffer?
    var count: nat
    var phase: Phase
    // what went to the files
    var written: seq<Message>
    ghost var batch: seq<Buffer>
    ghost var nodes: set<Buffer>

    ghost predicate Valid()
      reads this, nodes
    {
      && count == |batch| && (forall i :: 0 <= i < |batch| ==> batch[i] in nodes) && Linked(batch)
      && first == (if batch == [] then null else batch[0])
      && (free1 != null ==> free1 in nodes && free1 !in batch && Empty(free1))
      && (free2 != null ==> free2 in nodes && free2 !in batch && Empty(free2) && free1 != free2)
      && (if phase.Waiting? then count == 0 && free1 != null && free2 != null
          else free1 == null && count > 0 && (free2 == null ==> count >= 2))
      && (phase.Checked? || phase.Done? ==> count <= MOST)
    }

    // What is written and what is being written.
    ghost function Messages(): seq<Message>
      reads this, nodes
      requires Valid()
    {
      written + if phase.Done? then [] else AllOf(batch)
    }

    constructor ()
      ensures Valid() && Messages() == [] && phase.Waiting? && fresh(nodes)
    {
      hide AllOf, Linked;
      var a := new Buffer();
      var b := new Buffer();
      free1, free2, first, count, phase, written := a, b, null, 0, Waiting, [];
      batch, nodes := [], {a, b};
      new;
      NoMessages();
      LinkedNone();
    }

    // The batch `s` is taken over; the free buffers that were handed out are gone.
    method TakeOver(h: Buffer, n: nat, both: bool, ghost s: seq<Buffer>)
      requires Valid() && phase.Waiting? && Linked(s) && |s| == n && n > 0 && h == s[0] && (both ==> n >= 2)
      requires forall i :: 0 <= i < n ==> s[i] !in nodes
      modifies this
      ensures Valid() && phase.Taken? && batch == s && written == old(written)
      ensures nodes == old(nodes) - {old(free1)} - (if both then {old(free2)} else {}) + set b | b in s
    {
      hide AllOf;
      nodes := nodes - {free1} - (if both then {free2} else {}) + set b | b in s;
      free1 := null;
      if both {
        free2 := null;
      }
      first, count, phase := h, n, Taken;
      batch := s;
      assert count > 0;
    }

    // Of a batch of more than 25 buffers the first two are left.
    method Cut()
      requires Valid() && phase.Taken?
      modifies this, nodes
      ensures Valid() && phase.Checked? && written == old(written) && nodes == old(nodes)
      ensures batch == (if old(count) > MOST then old(batch[..2]) else old(batch))
      ensures forall b :: b in old(nodes) ==> b.messages == old(b.messages)
    {
      assert count > 0;
      if count > MOST {
        assert batch[0].next == batch[1] && batch[1] in nodes;
        var last := first.next;
        last.next := null;
        count := 2;
        batch := batch[..2];
      }
      phase := Checked;
    }

    // The messages of the batch go to their files, one by one.
    method Write()
      requires Valid() && phase.Checked?
      modifies this`written, this`phase
      ensures Valid() && phase.Done? && written == old(written) + AllOf(batch)
    {
      hide AllOf;
      var node := first;
      ghost var i := 0;
      ghost var w := written;
      assert batch[..0] == [];
      NoMessages();
      while node != null
        invariant 0 <= i <= |batch| && node == (if i < |batch| then batch[i] else null)
        invariant written == w + AllOf(batch[..i])
        invariant Valid() && phase.Checked?
        decreases |batch| - i
      {
        for j := 0 to |node.messages|
          invariant written == w + AllOf(batch[..i]) + node.messages[..j]
          invariant Valid() && phase.Checked?
        {
          written := written + [node.messages[j]];
        }
        AllOfNext(batch, i);
        node := node.next;
        i := i + 1;
      }
      assert batch[..i] == batch;
      phase := Done;
    }

    // A buffer of the batch is emptied and kept.
    method Reuse() returns (b: Buffer)
      requires |batch| > 0 && first == batch[0] && count == |batch| && Linked(batch) && forall i :: 0 <= i < |batch| ==> batch[i] in nodes
      modifies this`first, this`count, this`batch, nodes
      ensures b == old(batch[0]) && Empty(b) && batch == old(batch[1..]) && Linked(batch)
      ensures count == |batch| && first == if batch == [] then null else batch[0]
      ensures forall c :: c in nodes && c != b ==> c.next == old(c.next) && c.messages == old(c.messages)
    {
      b := first;
      first := first.next;
      b.next, b.messages := null, [];
      count := count - 1;
      batch := batch[1..];
    }

    // The batch while its buffers become free.
    ghost predicate Reusing()
      reads this, nodes
    {
      && count == |batch| && (forall i :: 0 <= i < |batch| ==> batch[i] in nodes) && Linked(batch)
      && first == (if batch == [] then null else batch[0])
      && (free1 != null ==> free1 in nodes && free1 !in batch && Empty(free1))
      && (free2 != null ==> free2 in nodes && free2 !in batch && Empty(free2) && free1 != free2)
    }

    method ReuseFirst()
      requires Reusing() && free1 == null && count > 0
      modifies this`first, this`count, this`batch, this`free1, nodes
      ensures Reusing() && free1 != null && count == old(count) - 1
    {
      free1 := Reuse();
    }

    method ReuseSecond()
      requires Reusing() && free1 != null && free2 == null && count > 0
      modifies this`first, this`count, this`batch, this`free2, nodes
      ensures Reusing() && free2 != null
    {
      free2 := Reuse();
    }

    // The worker has two free buffers again; the others are given back.
    method Recycle()
      requires Valid() && phase.Done?
      modifies this, nodes
      ensures Valid() && phase.Waiting? && batch == [] && written == old(written) && nodes == old(nodes)
    {
      hide AllOf, Linked, Empty;
      if free1 == null {
        assert count > 0;
        ReuseFirst();
      }
      if free2 == null {
        assert count > 0;
        ReuseSecond();
      }
      first, count, phase := null, 0, Waiting;
      batch := [];
      NoMessages();
      LinkedNone();
    }
  }

  // A step of a run: a message comes, or the worker goes on.
  datatype Event = Logged(m: Message) | Work

  // The message that comes, if any.
  function Came(e: Event): seq<Message> {
    match e case Logged(m) => [m] case Work => []
  }

  function Given(es: seq<Event>): seq<Message> {
    if es == [] then []
    else Given(es[..|es| - 1]) + Came(es[|es| - 1])
  }

  /** Where the messages are: in the files, in the batch of the worker, or in the queue and the current buffer. */
  datatype State = State(phase: Phase, written: seq<Message>, batch: seq<Message>, queue: seq<Message>)

  // What does not fit 25 buffers is too much for a batch, of which two buffers are left then.
  predicate TooLong(batch: seq<Message>) {
    |batch| > FULL * MOST
  }

  function Step(st: State, e: Event): State {
    match e
    case Logged(m) => st.(queue := st.queue + [m])
    case Work =>
      match st.phase
      case Waiting => State(Taken, st.written, st.queue, [])
      case Taken => st.(phase := Checked, batch := if TooLong(st.batch) then st.batch[..FULL * 2] else st.batch)
      case Checked => State(Done, st.written + st.batch, [], st.queue)
      case Done => st.(phase := Waiting)
  }

  function Steps(st: State, es: seq<Event>): State {
    if es == [] then st else Step(Steps(st, es[..|es| - 1]), es[|es| - 1])
  }

  /** The logger as a whole. */
  class Log {
    const front: Front
    const back: Back

    constructor ()
      ensures Valid() && View() == State(Waiting, [], [], []) && fresh(front) && fresh(back) && fresh(front.nodes) && fresh(back.nodes)
    {
      hide AllOf, Linked, Empty, Packed;
      var f := new Front();
      var b := new Back();
      front, back := f, b;
      new;
      NoMessages();
    }

    ghost predicate Shape()
      reads this, front, back, front.nodes, back.nodes
    {
      front.Valid() && back.Valid() && front.nodes !! back.nodes
    }

    ghost predicate Valid()
      reads this, front, back, front.nodes, back.nodes
    {
      Shape() && Packed(front.chain) && (back.phase.Taken? ==> Packed(back.batch))
    }

    ghost function View(): State
      reads this, front, back, front.nodes, back.nodes
      requires Shape()
    {
      State(back.phase, back.written, if back.phase.Done? then [] else AllOf(back.batch), front.Messages())
    }

    /** append, by any thread at any time. */
    method Append(m: Message)
      requires Valid()
      modifies front, front.nodes
      ensures Valid() && View() == Step(old(View()), Logged(m))
      ensures fresh(front.nodes - old(front.nodes)) && back.nodes == old(back.nodes)
    {
      hide AllOf, Linked, Empty, Packed, TooLong;
      front.Append(m);
    }

    // The worker takes the queue with the current buffer, and leaves empty buffers behind.
    method Swap()
      requires Valid() && back.phase.Waiting?
      modifies front, back
      ensures Valid() && View() == Step(old(View()), Work)
      ensures front.nodes + back.nodes <= old(front.nodes + back.nodes)
    {
      hide AllOf, Linked, Packed, TooLong;
      ghost var s := front.chain;
      NoMessages();
      assert back.batch == [];
      var free1, free2 := back.free1, back.free2;
      var h, n, both := front.HandOver(free1, free2);
      back.TakeOver(h, n, both, s);
    }

    // An overlong batch is cut; what was in it is lost.
    method CutBatch()
      requires Valid() && back.phase.Taken?
      modifies back, back.nodes
      ensures Valid() && View() == Step(old(View()), Work) && back.nodes == old(back.nodes)
    {
      hide AllOf, Linked, Empty, Packed;
      PackedCount(back.batch, MOST);
      PackedCount(back.batch, 2);
      back.Cut();
      SameMessages(back.batch);
    }

    // The next step of the worker.
    method Next()
      requires Valid()
      modifies front, back, back.nodes
      ensures Valid() && View() == Step(old(View()), Work)
      ensures front.nodes + back.nodes <= old(front.nodes + back.nodes)
    {
      hide AllOf, Linked, Empty, Packed, TooLong;
      NoMessages();
      match back.phase {
        case Waiting => Swap();
        case Taken => CutBatch();
        case Checked => back.Write();
        case Done => back.Recycle();
      }
    }

    /** Every interleaving of messages and steps of the worker does what its steps say. */
    method Run(es: seq<Event>)
      requires Valid()
      modifies front, back, front.nodes, back.nodes
      ensures Valid() && View() == Steps(old(View()), es)
    {
      hide AllOf, Linked, Empty, Packed, TooLong, Step;
      ghost var all, st := front.nodes + back.nodes, View();
      for i := 0 to |es|
        invariant Valid() && View() == Steps(st, es[..i])
        invariant fresh(front.nodes + back.nodes - all)
      {
        match es[i] {
          case Logged(m) => Append(m);
          case Work => Next();
        }
        assert es[..i + 1][..i] == es[..i];
      }
      assert es[..|es|] == es;
    }
  }

  // All messages, the oldest first.
  function Held(st: State): seq<Message> {
    st.written + st.batch + st.queue
  }

  // The worker finds a batch too long.
  predicate Cuts(st: State, e: Event) {
    e.Work? && st.phase.Taken? && TooLong(st.batch)
  }

  // Some batch is too long on the way.
  predicate CutIn(st: State, es: seq<Event>) {
    exists k :: 0 <= k < |es| && Cuts(Steps(st, es[..k]), es[k])
  }

  // The batch is empty while the worker has none.
  predicate Proper(st: State) {
    st.phase.Waiting? || st.phase.Done? ==> st.batch == []
  }

  lemma {:induction false} ProperSteps(st: State, es: seq<Event>)
    requires Proper(st)
    ensures Proper(Steps(st, es))
  {
    hide TooLong;
    if es != [] {
      ProperSteps(st, es[..|es| - 1]);
    }
  }

  lemma {:induction false} HeldNext(st: State, e: Event)
    requires Proper(st)
    ensures !Cuts(st, e) ==> Held(Step(st, e)) == Held(st) + Came(e)
    ensures Cuts(st, e) ==> |Held(Step(st, e))| < |Held(st)|
  {
    hide TooLong;
    if Cuts(st, e) {
      LongBatch(st.batch);
    }
    assert Held(Step(st, Work)) == Held(st) || (st.phase.Taken? && TooLong(st.batch));
  }

  lemma {:induction false} LongBatch(batch: seq<Message>)
    requires TooLong(batch)
    ensures |batch| > FULL * 2
  {
  }

  lemma {:induction false} CutNext(st: State, es: seq<Event>)
    requires es != []
    ensures var n := |es| - 1; CutIn(st, es) <==> CutIn(st, es[..n]) || Cuts(Steps(st, es[..n]), es[n])
  {
    hide Steps, Cuts;
    var n := |es| - 1;
    if CutIn(st, es[..n]) {
      var k :| 0 <= k < n && Cuts(Steps(st, es[..n][..k]), es[..n][k]);
      assert es[..n][..k] == es[..k];
    }
    if CutIn(st, es) {
      var k :| 0 <= k < |es| && Cuts(Steps(st, es[..k]), es[k]);
      if k < n {
        assert es[..n][..k] == es[..k];
      }
    }
  }

  lemma {:induction false} NoCut(st: State)
    ensures !CutIn(st, [])
  {
  }

  /** Nothing is lost, doubled or moved, exactly if no batch is too long. */
  lemma {:induction false} NothingLost(st: State, es: seq<Event>)
    requires Proper(st)
    ensures !CutIn(st, es) ==> Held(Steps(st, es)) == Held(st) + Given(es)
    ensures CutIn(st, es) ==> |Held(Steps(st, es))| < |Held(st)| + |Given(es)|
  {
    hide Held, Step, Cuts, CutIn, Proper;
    if es == [] {
      NoCut(st);
      assert Held(st) + [] == Held(st);
    } else {
      var n := |es| - 1;
      NothingLost(st, es[..n]);
      CutNext(st, es);
      ProperSteps(st, es[..n]);
      HeldNext(Steps(st, es[..n]), es[n]);
      assert Held(st) + (Given(es[..n]) + Came(es[n])) == Held(st) + Given(es[..n]) + Came(es[n]);
    }
  }

  // Some of the messages `all`, in their order.
  function Picked(kept: seq<nat>, all: seq<Message>): seq<Message>
    requires forall i :: 0 <= i < |kept| ==> kept[i] < |all|
  {
    seq(|kept|, i requires 0 <= i < |kept| => all[kept[i]])
  }

  predicate Rising(kept: seq<nat>, n: nat) {
    && (forall i :: 0 <= i < |kept| ==> kept[i] < n)
    && forall i, j :: 0 <= i < j < |kept| ==> kept[i] < kept[j]
  }

  /** Even if batches are cut, what is left is some of the messages given, in their order. */
  lemma {:induction false} StillInOrder(st: State, es: seq<Event>) returns (kept: seq<nat>)
    requires Proper(st)
    ensures Rising(kept, |Held(st) + Given(es)|) && Held(Steps(st, es)) == Picked(kept, Held(st) + Given(es))
  {
    hide Step, Held, Cuts, Proper, Picked, Rising;
    if es == [] {
      kept := PickedAll(Held(st));
      assert Held(st) + [] == Held(st);
    } else {
      var n := |es| - 1;
      kept := StillInOrder(st, es[..n]);
      ProperSteps(st, es[..n]);
      assert Held(st) + Given(es) == Held(st) + Given(es[..n]) + Came(es[n]);
      kept := PickedNext(Steps(st, es[..n]), es[n], kept, Held(st) + Given(es[..n]));
    }
  }

  lemma {:induction false} PickedAll(all: seq<Message>) returns (kept: seq<nat>)
    ensures Rising(kept, |all|) && Picked(kept, all) == all
  {
    kept := seq(|all|, i requires 0 <= i < |all| => i);
  }

  lemma {:induction false} PickedNext(st: State, e: Event, kept0: seq<nat>, all: seq<Message>) returns (kept: seq<nat>)
    requires Proper(st) && Rising(kept0, |all|) && Held(st) == Picked(kept0, all)
    ensures Rising(kept, |all + Came(e)|) && Held(Step(st, e)) == Picked(kept, all + Came(e))
  {
    hide Step, Held, Cuts, Proper;
    if Cuts(st, e) {
      var i, j := CutPart(st, e);
      kept := kept0[..i] + kept0[j..];
    } else {
      HeldNext(st, e);
      kept := if e.Logged? then kept0 + [|all|] else kept0;
    }
  }

  lemma {:induction false} CutPart(st: State, e: Event) returns (i: nat, j: nat)
    requires Cuts(st, e)
    ensures i <= j <= |Held(st)| && Held(Step(st, e)) == Held(st)[..i] + Held(st)[j..] && Came(e) == []
  {
    LongBatch(st.batch);
    hide TooLong;
    i, j := |st.written| + FULL * 2, |st.written| + |st.batch|;
  }

  function Works(n: nat): (es: seq<Event>)
    ensures |es| == n && forall i :: 0 <= i < n ==> es[i] == Work
  {
    seq(n, _ => Work)
  }

  lemma {:induction false} WorksNext(st: State, n: nat)
    ensures Steps(st, Works(n + 1)) == Step(Steps(st, Works(n)), Work)
  {
    assert Works(n + 1)[..n] == Works(n);
  }

  /** Six steps of the worker alone write all there is, if no batch is too long. */
  lemma {:induction false} AllWritten(st: State)
    requires Proper(st) && !TooLong(st.batch) && !TooLong(st.queue)
    ensures Steps(st, Works(6)).written == Held(st)
  {
    hide TooLong, Steps;
    WorksNext(st, 0);
    WorksNext(st, 1);
    WorksNext(st, 2);
    WorksNext(st, 3);
    WorksNext(st, 4);
    WorksNext(st, 5);
    assert Steps(st, Works(0)) == st by { NoSteps(st); }
    NotTooLong();
    assert st.written + [] == st.written && [] + st.queue == st.queue;
  }

  lemma {:induction false} NotTooLong()
    ensures !TooLong([])
  {
  }

  lemma {:induction false} NoSteps(st: State)
    ensures Steps(st, Works(0)) == st
  {
  }

  // Messages, one event for each.
  function Burst(ms: seq<Message>): (es: seq<Event>)
    ensures |es| == |ms|
  {
    seq(|ms|, i requires 0 <= i < |ms| => Logged(ms[i]))
  }

  lemma {:induction false} BurstQueued(st: State, ms: seq<Message>)
    ensures Steps(st, Burst(ms)) == st.(queue := st.queue + ms)
  {
    if ms == [] {
      assert st.queue + [] == st.queue;
    } else {
      var n := |ms| - 1;
      BurstQueued(st, ms[..n]);
      assert Burst(ms)[..n] == Burst(ms[..n]);
      assert st.queue + ms[..n] + [ms[n]] == st.queue + ms;
    }
  }

  /** Messages that come before the worker wakes up: if there are more than 25 buffers of 511 hold, all but those of two
      buffers are lost, and none otherwise. */
  lemma {:induction false} BurstLost(ms: seq<Message>)
    ensures Held(Steps(State(Waiting, [], [], []), Burst(ms) + Works(2))) == if |ms| > 12775 then ms[..1022] else ms
  {
    hide Steps;
    var st, es := State(Waiting, [], [], []), Burst(ms);
    BurstQueued(st, ms);
    assert [] + ms == ms;
    StepsLast(st, es, Work);
    StepsLast(st, es + [Work], Work);
    assert es + Works(2) == es + [Work] + [Work];
  }

  lemma {:induction false} StepsLast(st: State, es: seq<Event>, e: Event)
    ensures Steps(st, es + [e]) == Step(Steps(st, es), e)
  {
    assert (es + [e])[..|es|] == es;
  }
}
