/** The cache object: a doubly linked recency queue whose nodes an id map leads to.  One object
    stands for each of the message, channel and guild caches, which share their code. */
module CacheStore {
  import Spec = Cache
  import opened Optional

  class Node {
    const item: Spec.Item
    var prev: Node?
    var next: Node?

    constructor (item: Spec.Item)
      ensures this.item == item
    {
      this.item := item;
    }
  }

  function At(nodes: seq<Node>, i: int): Node? {
    if 0 <= i < |nodes| then nodes[i] else null
  }

  ghost predicate LinkedAt(nodes: seq<Node>, i: nat)
    requires i < |nodes|
    reads nodes
  {
    nodes[i].next == At(nodes, i + 1) && nodes[i].prev == At(nodes, i - 1)
  }

  ghost predicate Distinct(nodes: seq<Node>) {
    forall i, j :: 0 <= i < j < |nodes| ==> nodes[i] != nodes[j]
  }

  ghost predicate Linked(nodes: seq<Node>)
    reads nodes
  {
    Distinct(nodes) && forall i :: 0 <= i < |nodes| ==> LinkedAt(nodes, i)
  }

  /** A tail queue: `nodes` lists its nodes from first to last. */
  class Buffer {
    var first: Node?
    var last: Node?
    ghost var nodes: seq<Node>

    ghost predicate Valid()
      reads this, nodes
    {
      Linked(nodes) && first == At(nodes, 0) && last == At(nodes, |nodes| - 1)
    }

    constructor ()
      ensures Valid() && nodes == []
    {
      first := null;
      last := null;
      nodes := [];
    }

    method Remove(n: Node, ghost k: nat)
      requires Valid() && k < |nodes| && nodes[k] == n
      modifies this, nodes
      ensures Valid() && nodes == Spec.RemoveAt(old(nodes), k)
    {
      ghost var was := nodes;
      assert LinkedAt(was, k);
      if n.next != null {
        n.next.prev := n.prev;
      } else {
        last := n.prev;
      }
      if n.prev != null {
        n.prev.next := n.next;
      } else {
        first := n.next;
      }
      nodes := Spec.RemoveAt(was, k);
      forall i | 0 <= i < |nodes| ensures LinkedAt(nodes, i) {
        if i < k {
          assert old(LinkedAt(was, i)) && nodes[i] == was[i];
        } else {
          assert old(LinkedAt(was, i + 1)) && nodes[i] == was[i + 1];
        }
      }
    }

    method InsertTail(n: Node)
      requires Valid() && n !in nodes
      modifies this, nodes, n
      ensures Valid() && nodes == old(nodes) + [n]
    {
      ghost var was := nodes;
      n.next := null;
      n.prev := last;
      if last != null {
        last.next := n;
      } else {
        first := n;
      }
      last := n;
      nodes := was + [n];
      forall i | 0 <= i < |nodes| ensures LinkedAt(nodes, i) {
        if i < |was| {
          assert old(LinkedAt(was, i));
        }
      }
    }

    method MoveToBack(n: Node, ghost k: nat)
      requires Valid() && k < |nodes| && nodes[k] == n
      modifies this, nodes
      ensures Valid() && nodes == Spec.RemoveAt(old(nodes), k) + [n]
    {
      assert forall i :: 0 <= i < |nodes| - 1 ==> Spec.RemoveAt(nodes, k)[i] == nodes[if i < k then i else i + 1];
      Remove(n, k);
      InsertTail(n);
    }
  }

  // ---------- Nodes and map as cells ----------

  predicate Mapped(n: Node, byId: map<nat, Node>) {
    n.item.id in byId && byId[n.item.id] == n
  }

  ghost function CellsOf(nodes: seq<Node>, byId: map<nat, Node>): (q: seq<Spec.Cell>)
    ensures |q| == |nodes|
    ensures forall i :: 0 <= i < |q| ==> q[i] == Spec.Cell(nodes[i].item, Mapped(nodes[i], byId))
  {
    seq(|nodes|, i requires 0 <= i < |nodes| => Spec.Cell(nodes[i].item, Mapped(nodes[i], byId)))
  }

  /** Every mapped node is a queued node with the mapped id. */
  ghost predicate Indexed(nodes: seq<Node>, byId: map<nat, Node>) {
    Distinct(nodes) && forall id :: id in byId ==> byId[id] in nodes && byId[id].item.id == id
  }

  lemma Position(nodes: seq<Node>, byId: map<nat, Node>, id: nat) returns (k: nat)
    requires Indexed(nodes, byId) && id in byId
    ensures k < |nodes| && nodes[k] == byId[id] && k == Spec.Find(CellsOf(nodes, byId), id)
  {
    k :| 0 <= k < |nodes| && nodes[k] == byId[id];
    Spec.FindIs(CellsOf(nodes, byId), id, k);
  }

  lemma Absent(nodes: seq<Node>, byId: map<nat, Node>, id: nat)
    requires id !in byId
    ensures !Spec.Hit(CellsOf(nodes, byId), id)
  {
    Spec.MissIff(CellsOf(nodes, byId), id);
  }

  lemma RemovalKeepsMembers(nodes: seq<Node>, k: nat)
    requires k < |nodes| && Distinct(nodes)
    ensures var r := Spec.RemoveAt(nodes, k);
      Distinct(r) && forall n :: n in r <==> n in nodes && n != nodes[k]
  {
    var r := Spec.RemoveAt(nodes, k);
    assert forall i :: 0 <= i < |r| ==> r[i] == nodes[if i < k then i else i + 1];
    forall n | n in nodes && n != nodes[k] ensures n in r {
      var i :| 0 <= i < |nodes| && nodes[i] == n;
      assert r[if i < k then i else i - 1] == n;
    }
  }

  /** Unlinking the node of a mapped id and unmapping the id is a delete. */
  lemma DeletedMatches(nodes: seq<Node>, byId: map<nat, Node>, id: nat, destroyed: seq<Spec.Item>) returns (k: nat)
    requires Indexed(nodes, byId) && id in byId
    ensures k < |nodes| && nodes[k] == byId[id]
    ensures var r, m := Spec.RemoveAt(nodes, k), byId - {id};
      && Indexed(r, m) && (forall n :: n in r ==> n in nodes)
      && Spec.Store(CellsOf(r, m), destroyed + [byId[id].item])
         == Spec.Delete(Spec.Store(CellsOf(nodes, byId), destroyed), id)
  {
    k := Position(nodes, byId, id);
    RemovalKeepsMembers(nodes, k);
    var r, m := Spec.RemoveAt(nodes, k), byId - {id};
    forall i | 0 <= i < |r| ensures CellsOf(r, m)[i] == Spec.RemoveAt(CellsOf(nodes, byId), k)[i] {
      assert r[i] in r;
    }
    assert CellsOf(r, m) == Spec.RemoveAt(CellsOf(nodes, byId), k);
  }

  lemma MovedCells(nodes: seq<Node>, byId: map<nat, Node>, k: nat)
    requires Indexed(nodes, byId) && k < |nodes|
    ensures var r := Spec.RemoveAt(nodes, k) + [nodes[k]];
      && Indexed(r, byId)
      && CellsOf(r, byId) == Spec.RemoveAt(CellsOf(nodes, byId), k) + [CellsOf(nodes, byId)[k]]
      && forall n :: n in r <==> n in nodes
  {
    RemovalKeepsMembers(nodes, k);
    var r := Spec.RemoveAt(nodes, k);
    forall n | n in nodes ensures n in r + [nodes[k]] {
      assert n == nodes[k] || n in r;
    }
  }

  /** A new node at the back takes its id over; whatever node had it stays, unmapped. */
  lemma InsertedCells(nodes: seq<Node>, byId: map<nat, Node>, n: Node)
    requires Indexed(nodes, byId) && n !in nodes
    ensures var m := byId[n.item.id := n];
      && Indexed(nodes + [n], m)
      && CellsOf(nodes + [n], m) == seq(|nodes|, i requires 0 <= i < |nodes| =>
           Spec.Cell(nodes[i].item, Mapped(nodes[i], byId) && nodes[i].item.id != n.item.id))
         + [Spec.Cell(n.item, true)]
  {
    var m := byId[n.item.id := n];
    forall i | 0 <= i < |nodes|
      ensures Mapped(nodes[i], m) == (Mapped(nodes[i], byId) && nodes[i].item.id != n.item.id)
    {
      assert nodes[i] in nodes;
    }
  }

  /** A set of an id not in the map, and one of an id that is. */
  lemma InsertedNew(nodes: seq<Node>, byId: map<nat, Node>, n: Node)
    requires Indexed(nodes, byId) && n !in nodes && n.item.id !in byId
    ensures CellsOf(nodes + [n], byId[n.item.id := n]) == Spec.Inserted(CellsOf(nodes, byId), n.item)
  {
    Absent(nodes, byId, n.item.id);
    InsertedCells(nodes, byId, n);
    assert CellsOf(nodes + [n], byId[n.item.id := n]) == CellsOf(nodes, byId) + [Spec.Cell(n.item, true)];
  }

  lemma InsertedOver(nodes: seq<Node>, byId: map<nat, Node>, n: Node, k: nat)
    requires Indexed(nodes, byId) && n !in nodes && n.item.id in byId
    requires k < |nodes| && nodes[k] == byId[n.item.id] && k == Spec.Find(CellsOf(nodes, byId), n.item.id)
    ensures var moved := Spec.RemoveAt(nodes, k) + [nodes[k]];
      CellsOf(moved + [n], byId[n.item.id := n]) == Spec.Inserted(CellsOf(nodes, byId), n.item)
  {
    var q, m := CellsOf(nodes, byId), byId[n.item.id := n];
    var rest := Spec.RemoveAt(nodes, k);
    assert forall i :: 0 <= i < |rest| ==> rest[i] == nodes[if i < k then i else i + 1];
    assert CellsOf(rest, m) == Spec.RemoveAt(q, k);
    assert CellsOf([nodes[k]], m) == [q[k].(mapped := false)];
    assert CellsOf([n], m) == [Spec.Cell(n.item, true)];
    assert CellsOf(rest + [nodes[k]] + [n], m) == CellsOf(rest, m) + CellsOf([nodes[k]], m) + CellsOf([n], m);
  }

  /** How relinking leaves the nodes when an id is set. */
  ghost predicate Relinked(was: seq<Node>, byId: map<nat, Node>, id: nat, k: nat, nodes: seq<Node>) {
    if id in byId then
      && k < |was| && was[k] == byId[id] && k == Spec.Find(CellsOf(was, byId), id)
      && nodes == Spec.RemoveAt(was, k) + [was[k]]
    else nodes == was
  }

  lemma InsertedMatches(was: seq<Node>, byId: map<nat, Node>, n: Node, k: nat, nodes: seq<Node>)
    requires Indexed(was, byId) && n !in was && Relinked(was, byId, n.item.id, k, nodes)
    ensures n !in nodes && Indexed(nodes + [n], byId[n.item.id := n])
    ensures CellsOf(nodes + [n], byId[n.item.id := n]) == Spec.Inserted(CellsOf(was, byId), n.item)
  {
    if n.item.id in byId {
      MovedCells(was, byId, k);
      InsertedOver(was, byId, n, k);
    } else {
      InsertedNew(was, byId, n);
    }
    InsertedCells(nodes, byId, n);
  }

  // ---------- The cache ----------

  class Cache {
    const queue: Buffer
    var byId: map<nat, Node>
    var size: nat
    var max: nat
    /** What the destroy callback has been given, in order. */
    ghost var destroyed: seq<Spec.Item>
    /** Every node this cache has allocated. */
    ghost var repr: set<Node>

    ghost predicate Valid()
      reads this, queue, repr
    {
      && (forall n :: n in queue.nodes ==> n in repr)
      && queue.Valid() && size == |queue.nodes| && Indexed(queue.nodes, byId) && max >= 2
    }

    ghost function Contents(): Spec.Store
      reads this, queue
    {
      Spec.Store(CellsOf(queue.nodes, byId), destroyed)
    }

    constructor (configured: int)
      ensures Valid() && fresh(queue) && repr == {}
      ensures Contents() == Spec.Store([], []) && max == if configured >= 2 then configured else 2
    {
      queue := new Buffer();
      byId := map[];
      size := 0;
      max := if configured < 2 then 2 else configured;
      destroyed := [];
      repr := {};
    }

    /** Moves the node of a mapped id to the back. */
    method Bump(id: nat) returns (ghost k: nat)
      requires Valid() && id in byId
      modifies queue, repr
      ensures Valid() && k < |old(queue.nodes)|
      ensures old(queue.nodes)[k] == byId[id] && k == Spec.Find(CellsOf(old(queue.nodes), byId), id)
      ensures queue.nodes == Spec.RemoveAt(old(queue.nodes), k) + [byId[id]]
    {
      k := Position(queue.nodes, byId, id);
      MovedCells(queue.nodes, byId, k);
      queue.MoveToBack(byId[id], k);
    }

    method Get(id: nat) returns (found: Option<Spec.Item>)
      requires Valid()
      modifies queue, repr
      ensures Valid()
      ensures (Contents(), found) == Spec.Get(old(Contents()), id)
    {
      if id in byId {
        ghost var was := queue.nodes;
        ghost var k := Bump(id);
        MovedCells(was, byId, k);
        found := Some(byId[id].item);
      } else {
        Absent(queue.nodes, byId, id);
        found := None;
      }
    }

    /** Unlinks a node, hands its structure to the destroy callback and frees it. */
    method DestroyNode(n: Node, ghost k: nat)
      requires queue.Valid() && k < |queue.nodes| && queue.nodes[k] == n
      requires size > 0 && forall x :: x in queue.nodes ==> x in repr
      modifies `destroyed, `size, queue, repr
      ensures queue.Valid() && queue.nodes == Spec.RemoveAt(old(queue.nodes), k)
      ensures destroyed == old(destroyed) + [n.item] && size == old(size) - 1
    {
      queue.Remove(n, k);
      destroyed := destroyed + [n.item];
      size := size - 1;
    }

    method DeleteMapped(id: nat)
      requires Valid() && id in byId
      modifies this, queue, repr
      ensures Valid() && max == old(max) && repr == old(repr)
      ensures Contents() == Spec.Delete(old(Contents()), id)
    {
      ghost var was := queue.nodes;
      ghost var k := DeletedMatches(was, byId, id, destroyed);
      var n := byId[id];
      byId := byId - {id};
      DestroyNode(n, k);
      assert queue.nodes == Spec.RemoveAt(was, k) && Indexed(queue.nodes, byId);
      assert |queue.nodes| == |was| - 1;
    }

    method Delete(id: nat)
      requires Valid()
      modifies this, queue, repr
      ensures Valid() && max == old(max) && repr == old(repr)
      ensures Contents() == Spec.Delete(old(Contents()), id)
    {
      if id in byId {
        DeleteMapped(id);
      } else {
        Absent(queue.nodes, byId, id);
      }
    }

    /** If a node already has the id, moves it to the back. */
    method Relink(id: nat) returns (ghost k: nat)
      requires Valid()
      modifies queue, repr
      ensures Valid()
      ensures Relinked(old(queue.nodes), byId, id, k, queue.nodes)
    {
      k := 0;
      if id in byId {
        k := Bump(id);
      }
    }

    /** Stores a structure in a new node at the back, after moving back the node that had its id. */
    method Insert(item: Spec.Item)
      requires Valid()
      modifies this, queue, repr
      ensures Valid() && max == old(max) && destroyed == old(destroyed) && fresh(repr - old(repr))
      ensures CellsOf(queue.nodes, byId) == Spec.Inserted(old(CellsOf(queue.nodes, byId)), item)
    {
      ghost var was := queue.nodes;
      ghost var k := Relink(item.id);
      var n := new Node(item);
      InsertedMatches(was, byId, n, k, queue.nodes);
      Append(n);
    }

    /** Maps the id of a new node to it and puts the node at the back. */
    method Append(n: Node)
      requires Valid() && n !in queue.nodes && Indexed(queue.nodes + [n], byId[n.item.id := n])
      modifies this, queue, repr, n
      ensures Valid() && max == old(max) && destroyed == old(destroyed) && repr == old(repr) + {n}
      ensures queue.nodes == old(queue.nodes) + [n] && byId == old(byId)[n.item.id := n]
    {
      size := size + 1;
      byId := byId[n.item.id := n];
      queue.InsertTail(n);
      repr := repr + {n};
    }

    /** Deletes by the id found at the front, once. */
    method DeleteFront()
      requires Valid() && queue.nodes != []
      modifies this, queue, repr
      ensures Valid() && max == old(max) && repr == old(repr)
      ensures Contents() == Spec.Delete(old(Contents()), old(Contents()).queue[0].item.id)
    {
      Delete(queue.first.item.id);
    }

    /** The eviction loop of a set; it never meets an empty queue. */
    method Trim()
      requires Valid()
      modifies this, queue, repr
      ensures Valid() && max == old(max) && repr == old(repr)
      ensures Contents() == Spec.Evict(old(Contents()), Spec.Overflow(old(Contents()).queue, max))
    {
      if max < size {
        var toRemove := size - max;
        ghost var full := Contents();
        var i := 0;
        while i < toRemove
          invariant 0 <= i <= toRemove && max + toRemove - i <= size
          invariant Valid() && max == old(max) && repr == old(repr)
          invariant Spec.Evict(full, toRemove) == Spec.Evict(Contents(), toRemove - i)
        {
          ghost var s := Contents();
          DeleteFront();
          assert Spec.Evict(s, toRemove - i) == Spec.Evict(Contents(), toRemove - i - 1);
          i := i + 1;
        }
      }
    }

    method Set(item: Spec.Item)
      requires Valid()
      modifies this, queue, repr
      ensures Valid() && max == old(max) && fresh(repr - old(repr))
      ensures Contents() == Spec.Set(old(Contents()), item, max)
    {
      Insert(item);
      Trim();
    }

    /** Sets as the header documents it: an entry of the same id is freed and overwritten. */
    method SetOverwriting(item: Spec.Item)
      requires Valid()
      modifies this, queue, repr
      ensures Valid() && max == old(max) && fresh(repr - old(repr))
      ensures Contents() == Spec.Step(old(Contents()), Spec.SetOp(item), max, Spec.Documented)
    {
      Delete(item.id);
      Set(item);
    }

    method DestroyFront()
      requires queue.Valid() && queue.nodes != []
      requires size > 0 && forall x :: x in queue.nodes ==> x in repr
      modifies `destroyed, `size, queue, repr
      ensures queue.Valid() && queue.nodes == old(queue.nodes)[1..]
      ensures destroyed == old(destroyed) + [old(queue.nodes)[0].item] && size == old(size) - 1
    {
      DestroyNode(queue.first, 0);
    }

    /** Empties the queue from the front. */
    method Destroy()
      requires Valid()
      modifies this, queue, repr
      ensures Valid() && Contents() == Spec.DestroyAll(old(Contents()))
    {
      ghost var all, items := queue.nodes, Spec.Items(CellsOf(queue.nodes, byId));
      ghost var i := 0;
      while queue.first != null
        invariant 0 <= i <= |all| && queue.nodes == all[i..]
        invariant queue.Valid() && size == |queue.nodes|
        invariant destroyed == old(destroyed) + items[..i]
        invariant repr == old(repr) && max == old(max)
        decreases |queue.nodes|
      {
        DestroyFront();
        i := i + 1;
      }
      assert items[..i] == items;
      byId := map[];
    }
  }
}
