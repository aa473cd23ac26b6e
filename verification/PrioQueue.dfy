/** The deadline queue of the thread pool: a singly linked list with an ordered insertion
    that never passes the last node. */
module PrioQueue {
  import opened Time

  /** One queued task.  `data` stands for the opaque pointer the caller stores. */
  datatype Entry = Entry(data: nat, waitUntil: TimeVal)

  /** The insertion as the code has it, or with a walk that may pass the last node. */
  datatype Variant = AsWritten | Repaired

  // ---------- What a push does to the sequence of entries ----------

  /** Where the walk of `prio_push` stops. */
  function Slot(q: seq<Entry>, t: TimeVal, v: Variant): (i: nat)
    ensures i <= |q|
  {
    if |q| == 0 || (v.AsWritten? && |q| == 1) || !AtMost(q[0].waitUntil, t) then 0
    else 1 + Slot(q[1..], t, v)
  }

  function Pushed(q: seq<Entry>, e: Entry, v: Variant): seq<Entry> {
    var i := Slot(q, e.waitUntil, v);
    q[..i] + [e] + q[i..]
  }

  /** The meaning of the slot: it is the first place whose entry is later than `t`, except that
      the code as written stops at the last entry. */
  lemma {:induction false} SlotMeaning(q: seq<Entry>, t: TimeVal, v: Variant)
    ensures forall k :: 0 <= k < Slot(q, t, v) ==> AtMost(q[k].waitUntil, t)
    ensures Slot(q, t, v) < |q| && !(v.AsWritten? && Slot(q, t, v) == |q| - 1)
            ==> Later(q[Slot(q, t, v)].waitUntil, t)
    ensures v.AsWritten? && q != [] ==> Slot(q, t, v) < |q|
  {
    if |q| == 0 || (v.AsWritten? && |q| == 1) || !AtMost(q[0].waitUntil, t) {
    } else {
      SlotMeaning(q[1..], t, v);
      var i := Slot(q[1..], t, v);
      assert forall k :: 1 <= k < |q| ==> q[k] == q[1..][k - 1];
    }
  }

  lemma PushedKeepsEntries(q: seq<Entry>, e: Entry, v: Variant)
    ensures multiset(Pushed(q, e, v)) == multiset(q) + multiset{e}
    ensures |Pushed(q, e, v)| == |q| + 1
  {
    var i := Slot(q, e.waitUntil, v);
    assert q == q[..i] + q[i..];
  }

  // ---------- Whole runs of pushes and pops ----------

  datatype Op = Push(waitUntil: TimeVal) | Pop

  /** A queue with everything ever pushed and popped.  The entry pushed by operation number `k`
      carries `k` as its data, so that data order is push order. */
  datatype History = History(queue: seq<Entry>, pushed: seq<Entry>, popped: seq<Entry>)

  function Perform(h: History, op: Op, stamp: nat, v: Variant): History {
    match op
    case Push(t) =>
      var e := Entry(stamp, t);
      h.(queue := Pushed(h.queue, e, v), pushed := h.pushed + [e])
    case Pop =>
      if h.queue == [] then h else h.(queue := h.queue[1..], popped := h.popped + [h.queue[0]])
  }

  function Run(ops: seq<Op>, v: Variant): History {
    if ops == [] then History([], [], [])
    else Perform(Run(ops[..|ops| - 1], v), ops[|ops| - 1], |ops| - 1, v)
  }

  /** Earlier deadline first, equal deadlines in push order. */
  predicate Before(a: Entry, b: Entry) {
    AtMost(a.waitUntil, b.waitUntil) && (a.waitUntil == b.waitUntil ==> a.data < b.data)
  }

  ghost predicate Ordered(q: seq<Entry>) {
    forall i, j :: 0 <= i < j < |q| ==> Before(q[i], q[j])
  }

  /** The part of the queue that is kept in order: all of it, or all but the last entry. */
  function OrderedPart(q: seq<Entry>, v: Variant): seq<Entry> {
    if v.AsWritten? && q != [] then q[..|q| - 1] else q
  }

  ghost predicate LastIsOldest(q: seq<Entry>) {
    forall i :: 0 <= i < |q| - 1 ==> q[|q| - 1].data < q[i].data
  }

  ghost predicate InShape(q: seq<Entry>, v: Variant) {
    Ordered(OrderedPart(q, v)) && (v.AsWritten? ==> LastIsOldest(q))
  }

  lemma InsertKeepsOrder(o: seq<Entry>, e: Entry, i: nat)
    requires Ordered(o) && i <= |o|
    requires forall k :: 0 <= k < i ==> Before(o[k], e)
    requires forall k :: i <= k < |o| ==> Before(e, o[k])
    ensures Ordered(o[..i] + [e] + o[i..])
  {
    var r := o[..i] + [e] + o[i..];
    forall a, b | 0 <= a < b < |r| ensures Before(r[a], r[b]) {
      var a', b' := if a < i then a else a - 1, if b < i then b else b - 1;
      assert a != i ==> r[a] == o[a'];
      assert b != i ==> r[b] == o[b'];
    }
  }

  lemma OrderedPartOfInsertion(q: seq<Entry>, e: Entry, i: nat, v: Variant)
    requires i <= |q| && (v.AsWritten? ==> i < |q|)
    ensures var o := OrderedPart(q, v);
      i <= |o| && OrderedPart(q[..i] + [e] + q[i..], v) == o[..i] + [e] + o[i..]
  {
    if v.AsWritten? {
      var r := q[..i] + [e] + q[i..];
      assert q[..i] == q[..|q| - 1][..i] && q[i..][..|q| - i - 1] == q[..|q| - 1][i..];
      assert r[..|r| - 1] == q[..i] + [e] + q[i..][..|q| - i - 1];
    }
  }

  lemma SlotInOrderedPart(q: seq<Entry>, e: Entry, v: Variant)
    requires Ordered(OrderedPart(q, v)) && (v.AsWritten? ==> q != [])
    requires forall i :: 0 <= i < |q| ==> q[i].data < e.data
    ensures var o, i := OrderedPart(q, v), Slot(q, e.waitUntil, v);
      && i <= |o|
      && (forall k :: 0 <= k < i ==> Before(o[k], e))
      && (forall k :: i <= k < |o| ==> Before(e, o[k]))
  {
    var o, i := OrderedPart(q, v), Slot(q, e.waitUntil, v);
    SlotMeaning(q, e.waitUntil, v);
    forall k | i <= k < |o| ensures Before(e, o[k]) {
      assert o[k] == q[k] && o[i] == q[i];
      assert k == i || Before(o[i], o[k]);
    }
    forall k | 0 <= k < i ensures Before(o[k], e) {
      assert o[k] == q[k];
    }
  }

  lemma PushedStaysInShape(q: seq<Entry>, e: Entry, v: Variant)
    requires InShape(q, v)
    requires forall i :: 0 <= i < |q| ==> q[i].data < e.data
    ensures InShape(Pushed(q, e, v), v)
  {
    var i := Slot(q, e.waitUntil, v);
    SlotMeaning(q, e.waitUntil, v);
    var o := OrderedPart(q, v);
    if v.AsWritten? && q == [] {
      assert Pushed(q, e, v) == [e];
    } else {
      SlotInOrderedPart(q, e, v);
      InsertKeepsOrder(o, e, i);
      OrderedPartOfInsertion(q, e, i, v);
    }
  }

  lemma PoppedStaysInShape(q: seq<Entry>, v: Variant)
    requires InShape(q, v) && q != []
    ensures InShape(q[1..], v)
  {
    var o, p := OrderedPart(q, v), OrderedPart(q[1..], v);
    assert forall k :: 0 <= k < |p| ==> p[k] == o[k + 1];
  }

  ghost predicate StampedBelow(q: seq<Entry>, n: nat) {
    forall e :: e in q ==> e.data < n
  }

  lemma PerformKeepsShape(h: History, op: Op, stamp: nat, v: Variant)
    requires InShape(h.queue, v) && StampedBelow(h.queue, stamp)
    ensures InShape(Perform(h, op, stamp, v).queue, v)
    ensures StampedBelow(Perform(h, op, stamp, v).queue, stamp + 1)
  {
    match op
    case Push(t) =>
      PushedStaysInShape(h.queue, Entry(stamp, t), v);
    case Pop =>
      if h.queue != [] {
        PoppedStaysInShape(h.queue, v);
      }
  }

  lemma PerformConserves(h: History, op: Op, stamp: nat, v: Variant)
    requires multiset(h.pushed) == multiset(h.queue) + multiset(h.popped)
    ensures var r := Perform(h, op, stamp, v); multiset(r.pushed) == multiset(r.queue) + multiset(r.popped)
  {
    match op
    case Push(t) => PushedKeepsEntries(h.queue, Entry(stamp, t), v);
    case Pop => if h.queue != [] { assert h.queue == [h.queue[0]] + h.queue[1..]; }
  }

  /** The exact shape of the queue over every run of pushes and pops.  As written: all entries but
      the last are in deadline order with ties in push order, and the last is the oldest task
      still queued, whatever its deadline.  Repaired: the whole queue is in order. */
  lemma {:induction false} QueueShape(ops: seq<Op>, v: Variant)
    ensures InShape(Run(ops, v).queue, v)
    ensures StampedBelow(Run(ops, v).queue, |ops|)
  {
    if ops != [] {
      var before := ops[..|ops| - 1];
      QueueShape(before, v);
      PerformKeepsShape(Run(before, v), ops[|ops| - 1], |ops| - 1, v);
    }
  }

  /** A pop takes the entry at the front, if there is one, and leaves the others in order. */
  lemma PopTakesFront(h: History, stamp: nat, v: Variant)
    ensures var r := Perform(h, Pop, stamp, v);
      && r.pushed == h.pushed
      && (h.queue == [] ==> r == h)
      && (h.queue != [] ==> [h.queue[0]] + r.queue == h.queue && r.popped == h.popped + [h.queue[0]])
  {
  }

  /** Nothing but the pop of the only entry removes the one at the end, and nothing replaces it. */
  lemma LastStays(h: History, op: Op, stamp: nat)
    requires h.queue != [] && Perform(h, op, stamp, AsWritten).queue != []
    ensures var q, r := h.queue, Perform(h, op, stamp, AsWritten).queue; r[|r| - 1] == q[|q| - 1]
  {
    if op.Push? {
      SlotMeaning(h.queue, op.waitUntil, AsWritten);
    }
  }

  /** Operation `k` pushed onto an empty queue; since then the queue has never been empty, and its entry
      has always been the last. */
  ghost predicate EndsWithPush(ops: seq<Op>, k: nat) {
    var q := Run(ops, AsWritten).queue;
    && k < |ops| && ops[k].Push? && q != [] && q[|q| - 1] == Entry(k, ops[k].waitUntil)
    && if k == |ops| - 1 then Run(ops[..k], AsWritten).queue == [] else EndsWithPush(ops[..|ops| - 1], k)
  }

  lemma PushOnEmpty(ops: seq<Op>)
    requires Run(ops, AsWritten).queue != [] && Run(ops[..|ops| - 1], AsWritten).queue == []
    ensures EndsWithPush(ops, |ops| - 1)
  {
    assert Run(ops, AsWritten).queue == [Entry(|ops| - 1, ops[|ops| - 1].waitUntil)];
  }

  lemma {:induction false} EndsWithSamePush(ops: seq<Op>, k: nat)
    requires ops != [] && EndsWithPush(ops[..|ops| - 1], k) && Run(ops, AsWritten).queue != []
    ensures EndsWithPush(ops, k)
  {
    LastStays(Run(ops[..|ops| - 1], AsWritten), ops[|ops| - 1], |ops| - 1);
  }

  /** As written, the entry at the end is the one whose push found the queue empty, and the queue has
      not been empty since. */
  lemma {:induction false} LastIsFirstSinceEmpty(ops: seq<Op>) returns (k: nat)
    requires Run(ops, AsWritten).queue != []
    ensures EndsWithPush(ops, k)
  {
    if Run(ops[..|ops| - 1], AsWritten).queue == [] {
      k := |ops| - 1;
      PushOnEmpty(ops);
    } else {
      k := LastIsFirstSinceEmpty(ops[..|ops| - 1]);
      EndsWithSamePush(ops, k);
    }
  }

  /** No task is lost or duplicated by any run. */
  lemma {:induction false} QueueConserves(ops: seq<Op>, v: Variant)
    ensures multiset(Run(ops, v).pushed) == multiset(Run(ops, v).queue) + multiset(Run(ops, v).popped)
  {
    if ops != [] {
      var before := ops[..|ops| - 1];
      QueueConserves(before, v);
      PerformConserves(Run(before, v), ops[|ops| - 1], |ops| - 1, v);
    }
  }

  ghost predicate DeadlineSorted(q: seq<Entry>) {
    forall i, j :: 0 <= i < j < |q| ==> AtMost(q[i].waitUntil, q[j].waitUntil)
  }

  /** The condition under which a push finds its place: the task is not later than the one at the
      end of the queue, or there is none. */
  predicate FindsPlace(q: seq<Entry>, t: TimeVal) {
    q == [] || AtMost(t, q[|q| - 1].waitUntil)
  }

  /** A push keeps a sorted queue sorted exactly under that condition. */
  lemma PushKeepsSortedIff(q: seq<Entry>, e: Entry)
    requires DeadlineSorted(q)
    ensures DeadlineSorted(Pushed(q, e, AsWritten)) <==> FindsPlace(q, e.waitUntil)
  {
    var i, r := Slot(q, e.waitUntil, AsWritten), Pushed(q, e, AsWritten);
    SlotMeaning(q, e.waitUntil, AsWritten);
    if q != [] {
      assert r[i] == e && r[|r| - 1] == q[|q| - 1];
      if FindsPlace(q, e.waitUntil) {
        assert forall k :: i <= k < |q| ==> AtMost(q[i].waitUntil, q[k].waitUntil);
        InsertKeepsSorted(q, e, i);
      }
    }
  }

  lemma InsertKeepsSorted(q: seq<Entry>, e: Entry, i: nat)
    requires DeadlineSorted(q) && i <= |q|
    requires forall k :: 0 <= k < i ==> AtMost(q[k].waitUntil, e.waitUntil)
    requires forall k :: i <= k < |q| ==> AtMost(e.waitUntil, q[k].waitUntil)
    ensures DeadlineSorted(q[..i] + [e] + q[i..])
  {
    var r := q[..i] + [e] + q[i..];
    forall a, b | 0 <= a < b < |r| ensures AtMost(r[a].waitUntil, r[b].waitUntil) {
      var a', b' := if a < i then a else a - 1, if b < i then b else b - 1;
      assert a != i ==> r[a] == q[a'];
      assert b != i ==> r[b] == q[b'];
    }
  }

  /** The queue is sorted after the run and was after every part of it. */
  ghost predicate SortedThroughout(ops: seq<Op>) {
    DeadlineSorted(Run(ops, AsWritten).queue) && (ops != [] ==> SortedThroughout(ops[..|ops| - 1]))
  }

  predicate EveryPushFindsPlace(ops: seq<Op>) {
    ops != [] ==>
      var before, op := ops[..|ops| - 1], ops[|ops| - 1];
      EveryPushFindsPlace(before) && (op.Push? ==> FindsPlace(Run(before, AsWritten).queue, op.waitUntil))
  }

  lemma OperationKeepsSortedIff(h: History, op: Op, stamp: nat)
    requires DeadlineSorted(h.queue)
    ensures DeadlineSorted(Perform(h, op, stamp, AsWritten).queue) <==> (op.Push? ==> FindsPlace(h.queue, op.waitUntil))
  {
    match op
    case Push(t) => PushKeepsSortedIff(h.queue, Entry(stamp, t));
    case Pop =>
  }

  /** The queue is sorted all through a run exactly if every push of the run met that condition. */
  lemma {:induction false} SortedThroughoutIff(ops: seq<Op>)
    ensures SortedThroughout(ops) <==> EveryPushFindsPlace(ops)
  {
    if ops != [] {
      var before := ops[..|ops| - 1];
      SortedThroughoutIff(before);
      if SortedThroughout(before) {
        OperationKeepsSortedIff(Run(before, AsWritten), ops[|ops| - 1], |ops| - 1);
      }
    }
  }

  /** Three pushes are enough to leave an early task behind two later ones. */
  lemma EarlyTaskBehindLaterOnes()
    ensures var ops := [Push(TimeVal(5, 0)), Push(TimeVal(10, 0)), Push(TimeVal(7, 0))];
      Run(ops, AsWritten).queue ==
        [Entry(2, TimeVal(7, 0)), Entry(1, TimeVal(10, 0)), Entry(0, TimeVal(5, 0))]
  {
    var a, b, c := Push(TimeVal(5, 0)), Push(TimeVal(10, 0)), Push(TimeVal(7, 0));
    assert [a, b, c][..2] == [a, b] && [a, b][..1] == [a] && [a][..0] == [];
    assert Run([a], AsWritten).queue == [Entry(0, TimeVal(5, 0))];
    assert Run([a, b], AsWritten).queue == [Entry(1, TimeVal(10, 0)), Entry(0, TimeVal(5, 0))];
  }

  // ---------- The linked list ----------

  class PrioNode {
    var data: nat
    var waitUntil: TimeVal
    var next: PrioNode?

    constructor (data: nat, waitUntil: TimeVal)
      ensures this.data == data && this.waitUntil == waitUntil && next == null
    {
      this.data := data;
      this.waitUntil := waitUntil;
      next := null;
    }

    function AsEntry(): Entry
      reads this
    {
      Entry(data, waitUntil)
    }
  }

  ghost predicate Distinct(nodes: seq<PrioNode>) {
    forall i, j :: 0 <= i < j < |nodes| ==> nodes[i] != nodes[j]
  }

  ghost predicate LinksOn(nodes: seq<PrioNode>, i: nat)
    requires i < |nodes|
    reads nodes
  {
    nodes[i].next == if i + 1 < |nodes| then nodes[i + 1] else null
  }

  ghost predicate Chain(nodes: seq<PrioNode>)
    reads nodes
  {
    && Distinct(nodes)
    && (forall i :: 0 <= i < |nodes| ==> LinksOn(nodes, i))
  }

  ghost function EntriesOf(nodes: seq<PrioNode>): (q: seq<Entry>)
    reads nodes
    ensures |q| == |nodes|
    ensures forall i :: 0 <= i < |q| ==> q[i] == nodes[i].AsEntry()
  {
    seq(|nodes|, i requires 0 <= i < |nodes| reads nodes => nodes[i].AsEntry())
  }

  /** The list after `node` has been linked in before position `i`. */
  lemma Spliced(was: seq<PrioNode>, node: PrioNode, i: nat)
    requires i < |was| && node !in was
    requires Distinct(was)
    requires forall k :: 0 <= k < |was| && k + 1 != i ==> LinksOn(was, k)
    requires i > 0 ==> was[i - 1].next == node
    requires node.next == was[i]
    ensures Chain(was[..i] + [node] + was[i..])
    ensures EntriesOf(was[..i] + [node] + was[i..])
            == EntriesOf(was)[..i] + [node.AsEntry()] + EntriesOf(was)[i..]
  {
    var r := was[..i] + [node] + was[i..];
    forall k | 0 <= k < |r| ensures LinksOn(r, k) {
      if k < i {
        assert r[k] == was[k] && (k + 1 != i ==> LinksOn(was, k));
      } else if k > i {
        assert r[k] == was[k - 1] && LinksOn(was, k - 1);
      }
    }
  }

  class Queue {
    var head: PrioNode?
    var size: nat
    ghost var nodes: seq<PrioNode>

    ghost predicate Linked()
      reads this, nodes
    {
      Chain(nodes) && head == if nodes == [] then null else nodes[0]
    }

    ghost predicate Valid()
      reads this, nodes
    {
      Linked() && size == |nodes|
    }

    ghost function Entries(): seq<Entry>
      reads this, nodes
    {
      EntriesOf(nodes)
    }

    constructor ()
      ensures Valid() && Entries() == [] && nodes == []
    {
      head := null;
      size := 0;
      nodes := [];
    }

    /** The loop of `prio_push`: stops at the last node at the latest. */
    method Walk(waitUntil: TimeVal) returns (prev: PrioNode?, cur: PrioNode, ghost i: nat)
      requires Linked() && head != null
      ensures i == Slot(Entries(), waitUntil, AsWritten) < |nodes|
      ensures cur == nodes[i]
      ensures prev == if i == 0 then null else nodes[i - 1]
    {
      cur := head;
      prev := null;
      i := 0;
      ghost var q := Entries();
      while cur.next != null && AtMost(cur.waitUntil, waitUntil)
        invariant 0 <= i < |nodes| && cur == nodes[i]
        invariant prev == if i == 0 then null else nodes[i - 1]
        invariant Slot(q, waitUntil, AsWritten) == i + Slot(q[i..], waitUntil, AsWritten)
        decreases |nodes| - i
      {
        assert q[i..][1..] == q[i + 1..] && LinksOn(nodes, i);
        prev := cur;
        cur := cur.next;
        i := i + 1;
      }
      assert LinksOn(nodes, i);
    }

    /** Links `node` in between `prev` and `cur`, which stand at positions `i - 1` and `i`. */
    method LinkIn(node: PrioNode, prev: PrioNode?, cur: PrioNode, ghost i: nat)
      requires Linked() && node !in nodes
      requires i < |nodes| && cur == nodes[i] && prev == if i == 0 then null else nodes[i - 1]
      modifies `head, `nodes, node, nodes
      ensures Linked() && node.AsEntry() == old(node.AsEntry())
      ensures nodes == old(nodes[..i] + [node] + nodes[i..])
      ensures Entries() == old(Entries()[..i] + [node.AsEntry()] + Entries()[i..])
      ensures node in nodes && forall n :: n in nodes ==> n == node || n in old(nodes)
    {
      if prev != null {
        prev.next := node;
      }
      if prev == null {
        head := node;
      }
      node.next := cur;
      forall k | 0 <= k < |nodes| && k + 1 != i ensures LinksOn(nodes, k) {
        assert old(LinksOn(nodes, k)) && nodes[k] != prev;
      }
      Spliced(nodes, node, i);
      assert EntriesOf(nodes) == old(Entries());
      nodes := nodes[..i] + [node] + nodes[i..];
    }

    /** The insertion into a queue that is not empty. */
    method Insert(node: PrioNode)
      requires Linked() && head != null && node !in nodes
      modifies `head, `nodes, node, nodes
      ensures Linked()
      ensures Entries() == Pushed(old(Entries()), node.AsEntry(), AsWritten)
      ensures node in nodes && forall n :: n in nodes ==> n == node || n in old(nodes)
      ensures |nodes| == |old(nodes)| + 1 && node.AsEntry() == old(node.AsEntry())
    {
      var prev, cur, i := Walk(node.waitUntil);
      LinkIn(node, prev, cur, i);
    }

    method Push(data: nat, waitUntil: TimeVal) returns (node: PrioNode)
      requires Valid()
      modifies this, nodes
      ensures Valid() && fresh(node)
      ensures Entries() == Pushed(old(Entries()), Entry(data, waitUntil), AsWritten)
      ensures node in nodes && forall n :: n in nodes ==> n == node || n in old(nodes)
    {
      node := new PrioNode(data, waitUntil);
      if head == null {
        head := node;
        size := 1;
        nodes := [node];
        assert Entries() == [Entry(data, waitUntil)];
        return;
      }
      size := size + 1;
      assert EntriesOf(nodes) == old(Entries());
      Insert(node);
    }

    method Pop() returns (node: PrioNode?)
      requires Valid()
      modifies this
      ensures Valid()
      ensures old(nodes) == [] ==> node == null && nodes == []
      ensures old(nodes) != [] ==> node == old(nodes)[0] && nodes == old(nodes)[1..]
      ensures old(nodes) != [] ==> node.AsEntry() == old(Entries())[0] && Entries() == old(Entries())[1..]
    {
      if head == null {
        return null;
      }
      assert LinksOn(nodes, 0);
      node := head;
      head := node.next;
      size := size - 1;
      nodes := nodes[1..];
      forall k | 0 <= k < |nodes| ensures LinksOn(nodes, k) {
        assert old(LinksOn(nodes, k + 1));
      }
    }

    /** Frees nodes front to back; the list fields are left as they are.  The result lists the
        nodes handed to `free`, in order.  With two nodes or more the last one is never freed. */
    method DestroyNodes() returns (freed: seq<PrioNode>)
      requires Valid()
      ensures |nodes| < 2 ==> freed == nodes
      ensures |nodes| >= 2 ==> freed == nodes[..|nodes| - 1]
      ensures Distinct(freed)
    {
      freed := [];
      if head == null {
        return;
      }
      assert LinksOn(nodes, 0);
      var cur: PrioNode? := head.next;
      freed := [head];
      while cur != null && cur.next != null
        invariant 1 <= |freed| <= |nodes| && freed == nodes[..|freed|]
        invariant cur == if |freed| < |nodes| then nodes[|freed|] else null
        invariant |nodes| >= 2 ==> |freed| < |nodes|
        decreases |nodes| - |freed|
      {
        assert cur !in freed && LinksOn(nodes, |freed|);
        var prev := cur;
        cur := cur.next;
        freed := freed + [prev];
      }
      assert |freed| < |nodes| ==> LinksOn(nodes, |freed|);
    }
  }
}
