/** What the object cache does to its recency queue.  A cell is one queued structure; it is mapped
    when the id map leads to it.  Index 0 is the front, the next candidate for eviction. */
module Cache {
  import opened Optional

  /** A cached structure: its id, and the address it lives at. */
  datatype Item = Item(id: nat, address: nat)

  datatype Cell = Cell(item: Item, mapped: bool)

  /** The queue, and every structure handed to the destroy callback so far, in order. */
  datatype Store = Store(queue: seq<Cell>, destroyed: seq<Item>)

  // ---------- The operations ----------

  /** The smallest limit `discord_cache_init` accepts. */
  function Limit(configured: int): (max: nat)
    ensures max >= 2 && max >= configured && (max == 2 || max == configured)
  {
    if configured < 2 then 2 else configured
  }

  /** Where the mapped cell of `id` is, or the length of the queue. */
  function Find(q: seq<Cell>, id: nat): (i: nat)
    ensures i <= |q|
    ensures i < |q| ==> q[i].mapped && q[i].item.id == id
  {
    if q == [] || (q[0].mapped && q[0].item.id == id) then 0 else 1 + Find(q[1..], id)
  }

  predicate Hit(q: seq<Cell>, id: nat) {
    Find(q, id) < |q|
  }

  function RemoveAt<T>(q: seq<T>, i: nat): seq<T>
    requires i < |q|
  {
    q[..i] + q[i + 1..]
  }

  function Delete(s: Store, id: nat): Store {
    var i := Find(s.queue, id);
    if i < |s.queue| then Store(RemoveAt(s.queue, i), s.destroyed + [s.queue[i].item]) else s
  }

  function Get(s: Store, id: nat): (Store, Option<Item>) {
    var i := Find(s.queue, id);
    if i < |s.queue| then (s.(queue := RemoveAt(s.queue, i) + [s.queue[i]]), Some(s.queue[i].item))
    else (s, None)
  }

  /** The first half of a set: a node already mapped moves to the back, unmapped, and the new node
      follows it. */
  function Inserted(q: seq<Cell>, item: Item): seq<Cell> {
    var i := Find(q, item.id);
    (if i < |q| then RemoveAt(q, i) + [q[i].(mapped := false)] else q) + [Cell(item, true)]
  }

  /** The second half: `k` times, delete by the id found at the front. */
  function Evict(s: Store, k: nat): Store
    requires k <= |s.queue|
    decreases k
  {
    if k == 0 then s else Evict(Delete(s, s.queue[0].item.id), k - 1)
  }

  function Overflow<T>(q: seq<T>, max: nat): (k: nat)
    ensures k <= |q|
  {
    if max < |q| then |q| - max else 0
  }

  function Set(s: Store, item: Item, max: nat): Store {
    var q := Inserted(s.queue, item);
    Evict(s.(queue := q), Overflow(q, max))
  }

  function DestroyAll(s: Store): Store {
    Store([], s.destroyed + Items(s.queue))
  }

  function Items(q: seq<Cell>): (r: seq<Item>)
    ensures |r| == |q|
    ensures forall i :: 0 <= i < |q| ==> r[i] == q[i].item
  {
    seq(|q|, i requires 0 <= i < |q| => q[i].item)
  }

  // ---------- Eviction in closed form ----------

  function FirstStale(q: seq<Cell>): (p: nat)
    ensures p <= |q|
    ensures forall i :: 0 <= i < p ==> q[i].mapped
    ensures p < |q| ==> !q[p].mapped
  {
    if q == [] || !q[0].mapped then 0 else 1 + FirstStale(q[1..])
  }

  lemma {:induction false} EvictFromStaleFront(s: Store, k: nat)
    requires 0 < k <= |s.queue| && !s.queue[0].mapped
    requires !Hit(s.queue, s.queue[0].item.id)
    ensures Evict(s, k) == s
  {
    if k > 1 {
      EvictFromStaleFront(s, k - 1);
    }
  }

  /** Unmapping the only mapped cell of an id leaves none. */
  ghost predicate OneMappedPerId(q: seq<Cell>) {
    forall i, j :: 0 <= i < j < |q| && q[i].mapped && q[j].mapped ==> q[i].item.id != q[j].item.id
  }

  lemma {:induction false} MissIff(q: seq<Cell>, id: nat)
    ensures !Hit(q, id) <==> forall i :: 0 <= i < |q| && q[i].mapped ==> q[i].item.id != id
  {
    if q != [] {
      MissIff(q[1..], id);
      assert forall i :: 0 <= i < |q| - 1 ==> q[1..][i] == q[i + 1];
    }
  }

  lemma {:induction false} FindIs(q: seq<Cell>, id: nat, i: nat)
    requires i < |q| && q[i].mapped && q[i].item.id == id
    requires forall j :: 0 <= j < i && q[j].mapped ==> q[j].item.id != id
    ensures Find(q, id) == i
  {
    if i > 0 {
      FindIs(q[1..], id, i - 1);
    }
  }

  lemma DeletedIsGone(s: Store, id: nat)
    requires OneMappedPerId(s.queue)
    ensures !Hit(Delete(s, id).queue, id)
    ensures OneMappedPerId(Delete(s, id).queue) && |Delete(s, id).queue| >= |s.queue| - 1
  {
    var q, r, i := s.queue, Delete(s, id).queue, Find(s.queue, id);
    MissIff(r, id);
    MissIff(q, id);
    if i < |q| {
      assert forall j :: 0 <= j < |r| ==> r[j] == if j < i then q[j] else q[j + 1];
    }
  }

  /** The first `n` cells destroyed, front first. */
  function Popped(s: Store, n: nat): Store
    requires n <= |s.queue|
  {
    Store(s.queue[n..], s.destroyed + Items(s.queue[..n]))
  }

  lemma PoppedOneByOne(s: Store, n: nat)
    requires 0 < n <= |s.queue|
    ensures Popped(Popped(s, 1), n - 1) == Popped(s, n)
    ensures s.queue[0].mapped ==> Delete(s, s.queue[0].item.id) == Popped(s, 1)
    ensures Popped(s, 0) == s
  {
    var q := s.queue;
    assert q[1..][n - 1..] == q[n..];
    assert Items(q[..1]) + Items(q[1..][..n - 1]) == Items(q[..n]);
  }

  /** Mapped cells are popped off the front until an unmapped one is met; there the mapped cell of
      its id is deleted, once, wherever it stands. */
  function EvictedInOneGo(s: Store, k: nat): Store
    requires k <= |s.queue|
  {
    var p := FirstStale(s.queue);
    if k <= p then Popped(s, k) else Delete(Popped(s, p), s.queue[p].item.id)
  }

  lemma EvictedPastMappedFront(s: Store, k: nat)
    requires 0 < k <= |s.queue| && s.queue[0].mapped
    ensures EvictedInOneGo(s, k) == EvictedInOneGo(Delete(s, s.queue[0].item.id), k - 1)
  {
    var p := FirstStale(s.queue);
    PoppedOneByOne(s, if k <= p then k else p);
    assert s.queue[1..] == Popped(s, 1).queue;
    if k > p {
      assert Popped(s, 1).queue[p - 1] == s.queue[p];
    }
  }

  lemma EvictAtStaleFront(s: Store, k: nat)
    requires 0 < k <= |s.queue| && !s.queue[0].mapped && OneMappedPerId(s.queue)
    ensures Evict(s, k) == Delete(s, s.queue[0].item.id) == EvictedInOneGo(s, k)
  {
    var s1 := Delete(s, s.queue[0].item.id);
    DeletedIsGone(s, s.queue[0].item.id);
    assert s1.queue[0] == s.queue[0];
    if k > 1 {
      EvictFromStaleFront(s1, k - 1);
    }
    assert Popped(s, 0) == s;
  }

  /** What the eviction loop does, for every queue and every number of rounds. */
  lemma {:induction false} EvictInClosedForm(s: Store, k: nat)
    requires k <= |s.queue| && OneMappedPerId(s.queue)
    ensures Evict(s, k) == EvictedInOneGo(s, k)
    decreases k
  {
    if k == 0 {
      assert Popped(s, 0) == s;
    } else if s.queue[0].mapped {
      var s1 := Delete(s, s.queue[0].item.id);
      DeletedIsGone(s, s.queue[0].item.id);
      calc {
        Evict(s, k);
        Evict(s1, k - 1);
        { EvictInClosedForm(s1, k - 1); }
        EvictedInOneGo(s1, k - 1);
        { EvictedPastMappedFront(s, k); }
        EvictedInOneGo(s, k);
      }
    } else {
      EvictAtStaleFront(s, k);
    }
  }

  /** What setting an id that is cached does to the queue: the old structure goes to the back, unmapped, the
      new one behind it, and all others stay in order. */
  lemma SetOnHit(q: seq<Cell>, item: Item, i: nat)
    requires i < |q| && q[i].mapped && q[i].item.id == item.id && OneMappedPerId(q)
    ensures Inserted(q, item) == q[..i] + q[i + 1..] + [Cell(q[i].item, false), Cell(item, true)]
  {
    FindIs(q, item.id, i);
  }

  lemma InsertedShape(q: seq<Cell>, item: Item)
    requires OneMappedPerId(q)
    ensures var r := Inserted(q, item);
      && OneMappedPerId(r)
      && |r| == |q| + 1 && r[|q|] == Cell(item, true)
      && forall i :: 0 <= i < |q| && r[i].mapped ==> r[i].item.id != item.id
  {
    MissIff(q, item.id);
    var i := Find(q, item.id);
    if i < |q| {
      var rest := RemoveAt(q, i);
      assert forall j :: 0 <= j < |rest| ==> rest[j] == if j < i then q[j] else q[j + 1];
    }
  }

  /** The eviction loop is stuck on the front cell when it has more to remove than the cells
      before the first unmapped one, plus one if the id of that cell is mapped further back. */
  function Removable(q: seq<Cell>): nat {
    var p := FirstStale(q);
    p + if p < |q| && Hit(q[p..], q[p].item.id) then 1 else 0
  }

  /** A set respects the limit exactly when the eviction loop is not stuck. */
  lemma SetRespectsLimitIff(s: Store, item: Item, max: nat)
    requires OneMappedPerId(s.queue)
    ensures var q := Inserted(s.queue, item);
      |Set(s, item, max).queue| <= max <==> Overflow(q, max) <= Removable(q)
  {
    InsertedShape(s.queue, item);
    var q := Inserted(s.queue, item);
    EvictInClosedForm(s.(queue := q), Overflow(q, max));
  }

  /** A structure just set can be got back exactly when the front cell at which the eviction loop
      gets stuck, if it does, has another id. */
  lemma SetThenGetIff(s: Store, item: Item, max: nat)
    requires OneMappedPerId(s.queue) && max >= 2
    ensures var q, p := Inserted(s.queue, item), FirstStale(Inserted(s.queue, item));
      Get(Set(s, item, max), item.id).1 == Some(item)
      <==> !(p < Overflow(q, max) && q[p].item.id == item.id)
    ensures Get(Set(s, item, max), item.id).1 in {None, Some(item)}
  {
    InsertedShape(s.queue, item);
    var q, p := Inserted(s.queue, item), FirstStale(Inserted(s.queue, item));
    var k := Overflow(q, max);
    var s1 := s.(queue := q);
    EvictInClosedForm(s1, k);
    if k <= p {
      NewestAfterPops(s1, k, item);
    } else {
      NewestAfterPops(s1, p, item);
      NewestAfterDelete(Popped(s1, p), q[p].item.id, item);
    }
  }

  ghost predicate EndsWithOnly(q: seq<Cell>, item: Item) {
    && q != [] && q[|q| - 1] == Cell(item, true)
    && forall j :: 0 <= j < |q| - 1 && q[j].mapped ==> q[j].item.id != item.id
  }

  lemma NewestIsFound(s: Store, item: Item)
    requires EndsWithOnly(s.queue, item)
    ensures Find(s.queue, item.id) == |s.queue| - 1 && Get(s, item.id).1 == Some(item)
  {
    FindIs(s.queue, item.id, |s.queue| - 1);
  }

  lemma NewestAfterPops(s: Store, n: nat, item: Item)
    requires EndsWithOnly(s.queue, item) && OneMappedPerId(s.queue) && n < |s.queue|
    ensures EndsWithOnly(Popped(s, n).queue, item) && OneMappedPerId(Popped(s, n).queue)
    ensures Get(Popped(s, n), item.id).1 == Some(item)
  {
    NewestIsFound(Popped(s, n), item);
  }

  lemma NewestAfterDelete(s: Store, id: nat, item: Item)
    requires EndsWithOnly(s.queue, item) && OneMappedPerId(s.queue)
    ensures if id == item.id then Get(Delete(s, id), id).1 == None
            else Get(Delete(s, id), item.id).1 == Some(item)
  {
    DeletedIsGone(s, id);
    if id != item.id {
      var q, r, i := s.queue, Delete(s, id).queue, Find(s.queue, id);
      if i < |q| {
        assert forall j :: 0 <= j < |r| ==> r[j] == if j < i then q[j] else q[j + 1];
      }
      NewestIsFound(Delete(s, id), item);
    }
  }

  // ---------- Whole traces ----------

  datatype Op = SetOp(item: Item) | GetOp(id: nat) | DeleteOp(id: nat)

  /** A set as the code has it, or as its header documents it: the previous entry of the id is
      freed and overwritten. */
  datatype Mode = AsWritten | Documented

  function Step(s: Store, op: Op, max: nat, mode: Mode): Store {
    match op
    case SetOp(item) => Set(if mode.Documented? then Delete(s, item.id) else s, item, max)
    case GetOp(id) => Get(s, id).0
    case DeleteOp(id) => Delete(s, id)
  }

  function After(trace: seq<Op>, max: nat, mode: Mode): Store {
    if trace == [] then Store([], [])
    else Step(After(trace[..|trace| - 1], max, mode), trace[|trace| - 1], max, mode)
  }

  lemma GetKeepsOneMapped(s: Store, id: nat)
    requires OneMappedPerId(s.queue)
    ensures OneMappedPerId(Get(s, id).0.queue)
  {
    var q, i := s.queue, Find(s.queue, id);
    if i < |q| {
      var rest := RemoveAt(q, i);
      assert forall j :: 0 <= j < |rest| ==> rest[j] == if j < i then q[j] else q[j + 1];
    }
  }

  lemma SetKeepsOneMapped(s: Store, item: Item, max: nat)
    requires OneMappedPerId(s.queue)
    ensures OneMappedPerId(Set(s, item, max).queue)
  {
    InsertedShape(s.queue, item);
    var q := Inserted(s.queue, item);
    EvictInClosedForm(s.(queue := q), Overflow(q, max));
    var p := FirstStale(q);
    if p < |q| {
      DeletedIsGone(Popped(s.(queue := q), p), q[p].item.id);
    }
  }

  lemma {:induction false} ReachableOneMapped(trace: seq<Op>, max: nat, mode: Mode)
    ensures OneMappedPerId(After(trace, max, mode).queue)
  {
    if trace != [] {
      ReachableOneMapped(trace[..|trace| - 1], max, mode);
      var s := After(trace[..|trace| - 1], max, mode);
      match trace[|trace| - 1]
      case SetOp(item) =>
        DeletedIsGone(s, item.id);
        SetKeepsOneMapped(if mode.Documented? then Delete(s, item.id) else s, item, max);
      case GetOp(id) => GetKeepsOneMapped(s, id);
      case DeleteOp(id) => DeletedIsGone(s, id);
    }
  }

  // ---------- Superseded structures are kept for ever ----------

  function Stale(q: seq<Cell>): seq<Item> {
    if q == [] then [] else (if q[0].mapped then [] else [q[0].item]) + Stale(q[1..])
  }

  lemma {:induction false} StaleOfConcat(a: seq<Cell>, b: seq<Cell>)
    ensures Stale(a + b) == Stale(a) + Stale(b)
  {
    if a == [] {
      assert a + b == b;
    } else {
      assert (a + b)[1..] == a[1..] + b;
      StaleOfConcat(a[1..], b);
    }
  }

  lemma StaleWithoutMapped(q: seq<Cell>, i: nat)
    requires i < |q| && q[i].mapped
    ensures Stale(RemoveAt(q, i)) == Stale(q)
  {
    var front, rest := q[..i], q[i..];
    assert q == front + rest && rest[0] == q[i] && rest[1..] == q[i + 1..];
    assert Stale(rest) == Stale(q[i + 1..]);
    StaleOfConcat(front, rest);
    StaleOfConcat(front, q[i + 1..]);
  }

  lemma {:induction false} EvictKeepsStale(s: Store, k: nat)
    requires k <= |s.queue|
    ensures Stale(Evict(s, k).queue) == Stale(s.queue)
    decreases k
  {
    if k > 0 {
      var id := s.queue[0].item.id;
      if Hit(s.queue, id) { StaleWithoutMapped(s.queue, Find(s.queue, id)); }
      EvictKeepsStale(Delete(s, id), k - 1);
    }
  }

  /** The structures whose id was set again while they were mapped, in that order. */
  function Superseded(trace: seq<Op>, max: nat): seq<Item> {
    if trace == [] then []
    else
      var before, op := trace[..|trace| - 1], trace[|trace| - 1];
      var q := After(before, max, AsWritten).queue;
      Superseded(before, max) + if op.SetOp? && Hit(q, op.item.id) then [q[Find(q, op.item.id)].item] else []
  }

  lemma StepOnStale(s: Store, op: Op, max: nat)
    ensures Stale(Step(s, op, max, AsWritten).queue)
            == Stale(s.queue) + if op.SetOp? && Hit(s.queue, op.item.id)
                                then [s.queue[Find(s.queue, op.item.id)].item] else []
  {
    var q := s.queue;
    match op
    case SetOp(item) =>
      var i := Find(q, item.id);
      if i < |q| {
        StaleWithoutMapped(q, i);
        StaleOfConcat(RemoveAt(q, i), [q[i].(mapped := false)]);
        StaleOfConcat(RemoveAt(q, i) + [q[i].(mapped := false)], [Cell(item, true)]);
      } else {
        StaleOfConcat(q, [Cell(item, true)]);
      }
      EvictKeepsStale(s.(queue := Inserted(q, item)), Overflow(Inserted(q, item), max));
    case GetOp(id) =>
      if Hit(q, id) {
        StaleWithoutMapped(q, Find(q, id));
        StaleOfConcat(RemoveAt(q, Find(q, id)), [q[Find(q, id)]]);
      }
    case DeleteOp(id) =>
      if Hit(q, id) { StaleWithoutMapped(q, Find(q, id)); }
  }

  /** Over every trace of the code as written, the unmapped part of the queue is exactly the list
      of all superseded structures: not one of them leaves before the cache is destroyed, so the
      queue is at least as long as that list, whatever the limit. */
  lemma {:induction false} SupersededStayForEver(trace: seq<Op>, max: nat)
    ensures Stale(After(trace, max, AsWritten).queue) == Superseded(trace, max)
    ensures |After(trace, max, AsWritten).queue| >= |Superseded(trace, max)|
  {
    if trace != [] {
      SupersededStayForEver(trace[..|trace| - 1], max);
      StepOnStale(After(trace[..|trace| - 1], max, AsWritten), trace[|trace| - 1], max);
    }
    StaleIsShorter(After(trace, max, AsWritten).queue);
  }

  lemma {:induction false} StaleIsShorter(q: seq<Cell>)
    ensures |Stale(q)| <= |q|
  {
    if q != [] { StaleIsShorter(q[1..]); }
  }

  lemma AfterOneMore(trace: seq<Op>, op: Op, max: nat, mode: Mode)
    ensures After(trace + [op], max, mode) == Step(After(trace, max, mode), op, max, mode)
  {
    assert (trace + [op])[..|trace|] == trace;
  }

  const FIRST := Cell(Item(1, 10), false)

  /** Limit 2, and a front cell whose id is mapped by the second: the third one pushes that out. */
  lemma SecondIsEvicted(d: seq<Item>)
    ensures Set(Store([FIRST, Cell(Item(1, 11), true)], d), Item(2, 20), 2)
            == Store([FIRST, Cell(Item(2, 20), true)], d + [Item(1, 11)])
  {
    var q := [FIRST, Cell(Item(1, 11), true), Cell(Item(2, 20), true)];
    assert Inserted([FIRST, Cell(Item(1, 11), true)], Item(2, 20)) == q;
    FindIs(q, 1, 1);
    assert RemoveAt(q, 1) == [FIRST, Cell(Item(2, 20), true)];
    assert Evict(Store(q, d), 1) == Evict(Delete(Store(q, d), 1), 0);
  }

  lemma NothingIsEvicted(d: seq<Item>)
    ensures Set(Store([FIRST, Cell(Item(2, 20), true)], d), Item(3, 30), 2)
            == Store([FIRST, Cell(Item(2, 20), true), Cell(Item(3, 30), true)], d)
  {
    var q := [FIRST, Cell(Item(2, 20), true), Cell(Item(3, 30), true)];
    assert Inserted([FIRST, Cell(Item(2, 20), true)], Item(3, 30)) == q;
    MissIff(q, 1);
    assert Evict(Store(q, d), 1) == Evict(Delete(Store(q, d), 1), 0);
  }

  lemma SetTwice(max: nat)
    requires max >= 2
    ensures After([SetOp(Item(1, 10)), SetOp(Item(1, 11))], max, AsWritten)
            == Store([FIRST, Cell(Item(1, 11), true)], [])
  {
    AfterOneMore([], SetOp(Item(1, 10)), max, AsWritten);
    AfterOneMore([SetOp(Item(1, 10))], SetOp(Item(1, 11)), max, AsWritten);
    assert [SetOp(Item(1, 10))] == [] + [SetOp(Item(1, 10))];
    assert [SetOp(Item(1, 10)), SetOp(Item(1, 11))] == [SetOp(Item(1, 10))] + [SetOp(Item(1, 11))];
    assert After([SetOp(Item(1, 10))], max, AsWritten) == Store([Cell(Item(1, 10), true)], []);
    FindIs([Cell(Item(1, 10), true)], 1, 0);
  }

  /** Limit 2: set id 1 twice, then ids 2 and 3.  The first structure of id 1 stays at the front
      and three structures are held. */
  lemma LimitIsNotRespected()
    ensures After([SetOp(Item(1, 10)), SetOp(Item(1, 11)), SetOp(Item(2, 20)), SetOp(Item(3, 30))], 2, AsWritten)
            == Store([FIRST, Cell(Item(2, 20), true), Cell(Item(3, 30), true)], [Item(1, 11)])
  {
    var two := [SetOp(Item(1, 10)), SetOp(Item(1, 11))];
    SetTwice(2);
    AfterOneMore(two, SetOp(Item(2, 20)), 2, AsWritten);
    SecondIsEvicted([]);
    AfterOneMore(two + [SetOp(Item(2, 20))], SetOp(Item(3, 30)), 2, AsWritten);
    NothingIsEvicted([Item(1, 11)]);
    assert [SetOp(Item(1, 10)), SetOp(Item(1, 11)), SetOp(Item(2, 20)), SetOp(Item(3, 30))]
        == two + [SetOp(Item(2, 20))] + [SetOp(Item(3, 30))];
  }

  /** Limit 2: the third set of the same id destroys the structure it has just stored. */
  lemma NewestMayBeDestroyed()
    ensures Set(After([SetOp(Item(1, 10)), SetOp(Item(1, 11))], 2, AsWritten), Item(1, 12), 2)
            == Store([FIRST, Cell(Item(1, 11), false)], [Item(1, 12)])
  {
    SetTwice(2);
    var two := [FIRST, Cell(Item(1, 11), true)];
    var q := [FIRST, Cell(Item(1, 11), false), Cell(Item(1, 12), true)];
    FindIs(two, 1, 1);
    assert RemoveAt(two, 1) == [FIRST];
    assert Inserted(two, Item(1, 12)) == q;
    FindIs(q, 1, 2);
    assert RemoveAt(q, 2) == [FIRST, Cell(Item(1, 11), false)];
    assert Evict(Store(q, []), 1) == Evict(Delete(Store(q, []), 1), 0);
    assert [] + [Item(1, 12)] == [Item(1, 12)];
  }

  /** An update event looks the old structure up and then sets the new one. */
  function Edit(s: Store, item: Item, max: nat): (Store, Option<Item>) {
    var (s1, found) := Get(s, item.id);
    (Set(s1, item, max), found)
  }

  /** Editing a cached id returns the old structure, and the edit does not destroy it: it joins the
      superseded ones. */
  lemma EditKeepsOldStructure(s: Store, item: Item, max: nat)
    requires OneMappedPerId(s.queue) && Hit(s.queue, item.id) && max >= 2
    ensures var (s', found) := Edit(s, item, max);
      && found == Some(s.queue[Find(s.queue, item.id)].item)
      && Stale(s'.queue) == Stale(s.queue) + [found.value]
  {
    var q, i := s.queue, Find(s.queue, item.id);
    var s1 := Get(s, item.id).0;
    GetKeepsOneMapped(s, item.id);
    FindInMoved(q, i);
    StepOnStale(s, GetOp(item.id), max);
    StepOnStale(s1, SetOp(item), max);
  }

  lemma FindInMoved(q: seq<Cell>, i: nat)
    requires i < |q| && q[i].mapped && OneMappedPerId(q)
    ensures Find(RemoveAt(q, i) + [q[i]], q[i].item.id) == |q| - 1
  {
    var r := RemoveAt(q, i) + [q[i]];
    assert forall j :: 0 <= j < |q| - 1 ==> r[j] == if j < i then q[j] else q[j + 1];
    FindIs(r, q[i].item.id, |q| - 1);
  }

  // ---------- Conservation ----------

  function Stored(trace: seq<Op>): seq<Item> {
    if trace == [] then []
    else
      var op := trace[|trace| - 1];
      Stored(trace[..|trace| - 1]) + if op.SetOp? then [op.item] else []
  }

  ghost function Held(s: Store): multiset<Item> {
    multiset(Items(s.queue)) + multiset(s.destroyed)
  }

  lemma RemovalHolds(q: seq<Cell>, i: nat)
    requires i < |q|
    ensures multiset(Items(RemoveAt(q, i))) + multiset{q[i].item} == multiset(Items(q))
  {
    var l := Items(q);
    assert Items(RemoveAt(q, i)) == l[..i] + l[i + 1..];
    assert l == l[..i] + [l[i]] + l[i + 1..];
  }

  lemma DeleteHolds(s: Store, id: nat)
    ensures Held(Delete(s, id)) == Held(s)
  {
    var i := Find(s.queue, id);
    if i < |s.queue| { RemovalHolds(s.queue, i); }
  }

  lemma {:induction false} EvictHolds(s: Store, k: nat)
    requires k <= |s.queue|
    ensures Held(Evict(s, k)) == Held(s)
    decreases k
  {
    if k > 0 {
      DeleteHolds(s, s.queue[0].item.id);
      EvictHolds(Delete(s, s.queue[0].item.id), k - 1);
    }
  }

  lemma AppendHolds(q: seq<Cell>, c: Cell)
    ensures multiset(Items(q + [c])) == multiset(Items(q)) + multiset{c.item}
  {
    assert Items(q + [c]) == Items(q) + [c.item];
  }

  lemma GetHolds(s: Store, id: nat)
    ensures Held(Get(s, id).0) == Held(s)
  {
    var i := Find(s.queue, id);
    if i < |s.queue| {
      RemovalHolds(s.queue, i);
      AppendHolds(RemoveAt(s.queue, i), s.queue[i]);
    }
  }

  lemma SetHolds(s: Store, item: Item, max: nat)
    ensures Held(Set(s, item, max)) == Held(s) + multiset{item}
  {
    var i := Find(s.queue, item.id);
    var moved := if i < |s.queue| then RemoveAt(s.queue, i) + [s.queue[i].(mapped := false)] else s.queue;
    if i < |s.queue| {
      RemovalHolds(s.queue, i);
      AppendHolds(RemoveAt(s.queue, i), s.queue[i].(mapped := false));
    }
    AppendHolds(moved, Cell(item, true));
    EvictHolds(s.(queue := Inserted(s.queue, item)), Overflow(Inserted(s.queue, item), max));
  }

  lemma StepHolds(s: Store, op: Op, max: nat, mode: Mode)
    ensures Held(Step(s, op, max, mode)) == Held(s) + if op.SetOp? then multiset{op.item} else multiset{}
  {
    match op
    case SetOp(item) =>
      DeleteHolds(s, item.id);
      SetHolds(if mode.Documented? then Delete(s, item.id) else s, item, max);
    case GetOp(id) => GetHolds(s, id);
    case DeleteOp(id) => DeleteHolds(s, id);
  }

  /** Every structure ever stored is either queued or has been destroyed, as often as it was stored
      and no more; and after the cache is destroyed all of them have been. */
  lemma {:induction false} EveryStructureOnce(trace: seq<Op>, max: nat, mode: Mode)
    ensures Held(After(trace, max, mode)) == multiset(Stored(trace))
    ensures multiset(DestroyAll(After(trace, max, mode)).destroyed) == multiset(Stored(trace))
  {
    if trace != [] {
      var before, op := trace[..|trace| - 1], trace[|trace| - 1];
      EveryStructureOnce(before, max, mode);
      StepHolds(After(before, max, mode), op, max, mode);
    }
  }
}
