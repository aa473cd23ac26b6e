/** A plain bounded recency list, the sense in which the cache is a least-recently-used cache, and
    what a larger limit changes. */
module Lru {
  import opened Cache
  import opened Optional

  // ---------- The recency list ----------

  /** Least recently used first; `dropped` lists what was replaced, deleted or pushed out. */
  datatype Recency = Recency(items: seq<Item>, dropped: seq<Item>)

  function Without(l: seq<Item>, id: nat): seq<Item> {
    if l == [] then [] else (if l[0].id == id then [] else [l[0]]) + Without(l[1..], id)
  }

  function Lookup(l: seq<Item>, id: nat): Option<Item> {
    if l == [] then None else if l[0].id == id then Some(l[0]) else Lookup(l[1..], id)
  }

  function AsSeq(o: Option<Item>): seq<Item> {
    match o case None => [] case Some(x) => [x]
  }

  function Touch(l: seq<Item>, id: nat): seq<Item> {
    Without(l, id) + AsSeq(Lookup(l, id))
  }

  function Use(r: Recency, op: Op, max: nat): Recency {
    match op
    case GetOp(id) => r.(items := Touch(r.items, id))
    case DeleteOp(id) => Recency(Without(r.items, id), r.dropped + AsSeq(Lookup(r.items, id)))
    case SetOp(item) =>
      var l := Without(r.items, item.id) + [item];
      var k := Overflow(l, max);
      Recency(l[k..], r.dropped + AsSeq(Lookup(r.items, item.id)) + l[..k])
  }

  function Used(trace: seq<Op>, max: nat): Recency {
    if trace == [] then Recency([], [])
    else Use(Used(trace[..|trace| - 1], max), trace[|trace| - 1], max)
  }

  ghost predicate DistinctIds(l: seq<Item>) {
    forall i, j :: 0 <= i < j < |l| ==> l[i].id != l[j].id
  }

  /** When an id was last set or asked for, counted in operations; zero if never. */
  function LastUse(trace: seq<Op>, id: nat): nat {
    if trace == [] then 0
    else
      var op := trace[|trace| - 1];
      if (op.SetOp? && op.item.id == id) || (op.GetOp? && op.id == id) then |trace|
      else LastUse(trace[..|trace| - 1], id)
  }

  /** Each structure was used strictly before all that follow it, and has another id. */
  ghost predicate ByLastUse(l: seq<Item>, trace: seq<Op>) {
    l != [] ==>
      && (forall y :: y in l[1..] ==> LastUse(trace, l[0].id) < LastUse(trace, y.id) && l[0].id != y.id)
      && ByLastUse(l[1..], trace)
  }

  lemma {:induction false} WithoutShape(l: seq<Item>, id: nat)
    ensures forall x :: x in Without(l, id) <==> x in l && x.id != id
    ensures |Without(l, id)| <= |l|
    ensures Lookup(l, id).None? ==> Without(l, id) == l
    ensures Lookup(l, id).None? <==> forall x :: x in l ==> x.id != id
    ensures Lookup(l, id).Some? ==> Lookup(l, id).value in l && Lookup(l, id).value.id == id
    ensures Lookup(l, id).Some? ==> |Without(l, id)| < |l|
    ensures Lookup(l, id).Some? && DistinctIds(l) ==> |Without(l, id)| == |l| - 1
  {
    if l != [] {
      WithoutShape(l[1..], id);
      assert l == [l[0]] + l[1..];
      if l[0].id == id && DistinctIds(l) {
        assert Lookup(l[1..], id).None?;
      }
    }
  }

  lemma {:induction false} WithoutKeepsOrder(l: seq<Item>, id: nat, trace: seq<Op>)
    requires ByLastUse(l, trace)
    ensures ByLastUse(Without(l, id), trace)
  {
    if l != [] {
      WithoutKeepsOrder(l[1..], id, trace);
      WithoutShape(l[1..], id);
      if l[0].id != id {
        assert Without(l, id)[1..] == Without(l[1..], id);
      } else {
        assert Without(l, id) == Without(l[1..], id);
      }
    }
  }

  lemma {:induction false} ExtendingTheTrace(l: seq<Item>, trace: seq<Op>, op: Op)
    requires ByLastUse(l, trace)
    requires forall y :: y in l ==> LastUse(trace + [op], y.id) == LastUse(trace, y.id)
    ensures ByLastUse(l, trace + [op])
  {
    if l != [] {
      ExtendingTheTrace(l[1..], trace, op);
    }
  }

  lemma {:induction false} NewestAtTheBack(l: seq<Item>, x: Item, trace: seq<Op>)
    requires ByLastUse(l, trace)
    requires forall y :: y in l ==> LastUse(trace, y.id) < LastUse(trace, x.id) && y.id != x.id
    ensures ByLastUse(l + [x], trace)
  {
    if l != [] {
      NewestAtTheBack(l[1..], x, trace);
      assert (l + [x])[1..] == l[1..] + [x];
    }
  }

  lemma {:induction false} DroppingTheFront(l: seq<Item>, k: nat, trace: seq<Op>)
    requires ByLastUse(l, trace) && k <= |l|
    ensures ByLastUse(l[k..], trace)
  {
    if k > 0 {
      DroppingTheFront(l[1..], k - 1, trace);
      assert l[1..][k - 1..] == l[k..];
    }
  }

  lemma {:induction false} LastUseIsPast(trace: seq<Op>, id: nat)
    ensures LastUse(trace, id) <= |trace|
  {
    if trace != [] {
      LastUseIsPast(trace[..|trace| - 1], id);
    }
  }

  /** The structures other than that of `id`, after an operation on `id`. */
  lemma RestKeepsOrder(l: seq<Item>, id: nat, trace: seq<Op>, op: Op)
    requires ByLastUse(l, trace)
    requires id == if op.SetOp? then op.item.id else op.id
    ensures ByLastUse(Without(l, id), trace + [op])
    ensures forall y :: y in Without(l, id) ==> LastUse(trace + [op], y.id) <= |trace| && y.id != id
  {
    WithoutKeepsOrder(l, id, trace);
    WithoutShape(l, id);
    assert (trace + [op])[..|trace|] == trace;
    forall y | y in Without(l, id) ensures LastUse(trace + [op], y.id) == LastUse(trace, y.id) <= |trace| {
      LastUseIsPast(trace, y.id);
    }
    ExtendingTheTrace(Without(l, id), trace, op);
  }

  lemma TouchKeepsOrder(l: seq<Item>, id: nat, trace: seq<Op>)
    requires ByLastUse(l, trace)
    ensures ByLastUse(Touch(l, id), trace + [GetOp(id)])
  {
    var rest, t := Without(l, id), trace + [GetOp(id)];
    RestKeepsOrder(l, id, trace, GetOp(id));
    WithoutShape(l, id);
    match Lookup(l, id) {
      case Some(x) => NewestAtTheBack(rest, x, t);
      case None => assert rest + [] == rest;
    }
  }

  lemma SetKeepsOrder(l: seq<Item>, item: Item, trace: seq<Op>, max: nat)
    requires ByLastUse(l, trace)
    ensures var all := Without(l, item.id) + [item];
      ByLastUse(all[Overflow(all, max)..], trace + [SetOp(item)])
  {
    var rest, t := Without(l, item.id), trace + [SetOp(item)];
    RestKeepsOrder(l, item.id, trace, SetOp(item));
    NewestAtTheBack(rest, item, t);
    DroppingTheFront(rest + [item], Overflow(rest + [item], max), t);
  }

  lemma UseKeepsOrder(r: Recency, trace: seq<Op>, op: Op, max: nat)
    requires ByLastUse(r.items, trace)
    ensures ByLastUse(Use(r, op, max).items, trace + [op])
  {
    match op
    case GetOp(id) => TouchKeepsOrder(r.items, id, trace);
    case DeleteOp(id) => RestKeepsOrder(r.items, id, trace, op);
    case SetOp(item) => SetKeepsOrder(r.items, item, trace, max);
  }

  lemma {:induction false} OrderMeansDistinct(l: seq<Item>, trace: seq<Op>)
    requires ByLastUse(l, trace)
    ensures DistinctIds(l)
  {
    if l != [] {
      OrderMeansDistinct(l[1..], trace);
      assert forall i :: 0 < i < |l| ==> l[i] == l[1..][i - 1];
    }
  }

  /** The list is always in order of last use, holds one structure per id and respects the limit;
      so what a set pushes out was used less recently than everything that stays. */
  lemma {:induction false} ListIsByLastUse(trace: seq<Op>, max: nat)
    ensures ByLastUse(Used(trace, max).items, trace) && DistinctIds(Used(trace, max).items)
    ensures |Used(trace, max).items| <= max
  {
    if trace != [] {
      var before, op := trace[..|trace| - 1], trace[|trace| - 1];
      ListIsByLastUse(before, max);
      UseKeepsOrder(Used(before, max), before, op, max);
      assert before + [op] == trace;
      WithoutShape(Used(before, max).items, if op.SetOp? then op.item.id else op.id);
    }
    OrderMeansDistinct(Used(trace, max).items, trace);
  }

  // ---------- The cache is that list ----------

  function Cells(l: seq<Item>): (q: seq<Cell>)
    ensures |q| == |l| && forall i :: 0 <= i < |l| ==> q[i] == Cell(l[i], true)
  {
    seq(|l|, i requires 0 <= i < |l| => Cell(l[i], true))
  }

  lemma {:induction false} MissMatches(l: seq<Item>, id: nat)
    ensures Hit(Cells(l), id) <==> Lookup(l, id).Some?
  {
    if l != [] {
      assert Cells(l)[1..] == Cells(l[1..]);
      MissMatches(l[1..], id);
    }
  }

  lemma {:induction false} WithoutIsRemoval(l: seq<Item>, id: nat, i: nat)
    requires DistinctIds(l) && i < |l| && l[i].id == id
    ensures Without(l, id) == RemoveAt(l, i) && Lookup(l, id) == Some(l[i])
  {
    if i == 0 {
      assert forall x :: x in l[1..] ==> x.id != id;
      WithoutShape(l[1..], id);
    } else {
      WithoutIsRemoval(l[1..], id, i - 1);
      assert RemoveAt(l, i) == [l[0]] + RemoveAt(l[1..], i - 1);
    }
  }

  /** On a queue of mapped cells with distinct ids, finding and removing is looking up and filtering. */
  lemma FindMatchesLookup(l: seq<Item>, id: nat)
    requires DistinctIds(l)
    ensures var q, i := Cells(l), Find(Cells(l), id);
      if i < |l| then Lookup(l, id) == Some(l[i]) && RemoveAt(q, i) == Cells(Without(l, id))
      else Lookup(l, id).None? && Without(l, id) == l
  {
    MissMatches(l, id);
    var i := Find(Cells(l), id);
    if i < |l| {
      WithoutIsRemoval(l, id, i);
      assert RemoveAt(Cells(l), i) == Cells(RemoveAt(l, i));
    } else {
      WithoutShape(l, id);
    }
  }

  /** The cache state that stands for a recency list. */
  function AsStore(r: Recency): Store {
    Store(Cells(r.items), r.dropped)
  }

  lemma NothingStale(l: seq<Item>)
    ensures FirstStale(Cells(l)) == |l|
    ensures OneMappedPerId(Cells(l)) <==> DistinctIds(l)
  {
  }

  lemma DeleteMatches(r: Recency, id: nat)
    requires DistinctIds(r.items)
    ensures Delete(AsStore(r), id) == AsStore(Use(r, DeleteOp(id), 0))
  {
    FindMatchesLookup(r.items, id);
  }

  lemma GetMatches(r: Recency, id: nat, max: nat)
    requires DistinctIds(r.items)
    ensures Get(AsStore(r), id) == (AsStore(Use(r, GetOp(id), max)), Lookup(r.items, id))
  {
    FindMatchesLookup(r.items, id);
    var i := Find(Cells(r.items), id);
    if i < |r.items| {
      assert Cells(Touch(r.items, id)) == RemoveAt(Cells(r.items), i) + [Cells(r.items)[i]];
    } else {
      assert Touch(r.items, id) == r.items;
    }
  }

  lemma EvictMatches(l: seq<Item>, dropped: seq<Item>, k: nat)
    requires DistinctIds(l) && k <= |l|
    ensures Evict(Store(Cells(l), dropped), k) == Store(Cells(l[k..]), dropped + l[..k])
  {
    NothingStale(l);
    EvictInClosedForm(Store(Cells(l), dropped), k);
    assert Cells(l)[k..] == Cells(l[k..]) && Items(Cells(l)[..k]) == l[..k];
  }

  lemma InsertMatches(l: seq<Item>, item: Item)
    requires DistinctIds(l) && Lookup(l, item.id).None?
    ensures Inserted(Cells(l), item) == Cells(l + [item])
    ensures Without(l, item.id) == l && DistinctIds(l + [item])
  {
    FindMatchesLookup(l, item.id);
    WithoutShape(l, item.id);
  }

  lemma UseOfNew(r: Recency, item: Item, max: nat)
    requires DistinctIds(r.items) && Lookup(r.items, item.id).None?
    ensures var l := r.items + [item];
      var k := Overflow(l, max);
      Use(r, SetOp(item), max) == Recency(l[k..], r.dropped + l[..k])
  {
    InsertMatches(r.items, item);
    assert r.dropped + [] == r.dropped;
  }

  /** Setting an id that is not there. */
  lemma SetMatches(r: Recency, item: Item, max: nat)
    requires DistinctIds(r.items) && Lookup(r.items, item.id).None?
    ensures Set(AsStore(r), item, max) == AsStore(Use(r, SetOp(item), max))
  {
    InsertMatches(r.items, item);
    UseOfNew(r, item, max);
    var l := r.items + [item];
    EvictMatches(l, r.dropped, Overflow(l, max));
  }

  lemma UseMatches(r: Recency, op: Op, max: nat, mode: Mode)
    requires DistinctIds(r.items)
    requires mode.Documented? || (op.SetOp? ==> Lookup(r.items, op.item.id).None?)
    ensures Step(AsStore(r), op, max, mode) == AsStore(Use(r, op, max))
  {
    match op
    case GetOp(id) => GetMatches(r, id, max);
    case DeleteOp(id) => DeleteMatches(r, id);
    case SetOp(item) =>
      if mode.AsWritten? {
        SetMatches(r, item, max);
      } else {
        var r1 := Use(r, DeleteOp(item.id), 0);
        DeleteMatches(r, item.id);
        WithoutKeepsDistinct(r.items, item.id);
        WithoutShape(r.items, item.id);
        WithoutShape(r1.items, item.id);
        SetMatches(r1, item, max);
        assert r1.dropped + [] == r1.dropped;
      }
  }

  lemma {:induction false} WithoutKeepsDistinct(l: seq<Item>, id: nat)
    requires DistinctIds(l)
    ensures DistinctIds(Without(l, id))
  {
    if l != [] {
      WithoutKeepsDistinct(l[1..], id);
      WithoutShape(l[1..], id);
      var r := Without(l[1..], id);
      forall j | 0 <= j < |r| ensures l[0].id != r[j].id {
        assert r[j] in l[1..];
      }
    }
  }

  /** No set of the trace meets an id that is cached at that moment. */
  predicate SetsAreFresh(trace: seq<Op>, max: nat) {
    trace == [] ||
    var before, op := trace[..|trace| - 1], trace[|trace| - 1];
    && SetsAreFresh(before, max)
    && (op.SetOp? ==> !Hit(After(before, max, AsWritten).queue, op.item.id))
  }

  /** The cache refines the recency list: as documented, over every trace; as written, over every
      trace whose sets are of ids not cached at the time. */
  lemma {:induction false} CacheRefinesLru(trace: seq<Op>, max: nat, mode: Mode)
    requires mode.Documented? || SetsAreFresh(trace, max)
    ensures After(trace, max, mode) == AsStore(Used(trace, max))
    ensures |After(trace, max, mode).queue| <= max
    ensures forall id :: Get(After(trace, max, mode), id).1 == Lookup(Used(trace, max).items, id)
  {
    ListIsByLastUse(trace, max);
    if trace != [] {
      var before, op := trace[..|trace| - 1], trace[|trace| - 1];
      CacheRefinesLru(before, max, mode);
      ListIsByLastUse(before, max);
      var r := Used(before, max);
      if op.SetOp? {
        FindMatchesLookup(r.items, op.item.id);
      }
      UseMatches(r, op, max, mode);
    }
    forall id ensures Get(AsStore(Used(trace, max)), id).1 == Lookup(Used(trace, max).items, id) {
      GetMatches(Used(trace, max), id, max);
    }
  }

  /** For the code as written the condition is also necessary: the first set that is not fresh
      leaves a superseded structure behind, and no recency list has one. */
  lemma RefinementNeedsFreshSets(trace: seq<Op>, max: nat)
    ensures SetsAreFresh(trace, max) <==> Superseded(trace, max) == []
    ensures (exists r :: After(trace, max, AsWritten) == AsStore(r)) <==> SetsAreFresh(trace, max)
  {
    FreshIffNoneSuperseded(trace, max);
    if SetsAreFresh(trace, max) {
      CacheRefinesLru(trace, max, AsWritten);
    } else {
      SupersededStayForEver(trace, max);
      forall r: Recency ensures After(trace, max, AsWritten) != AsStore(r) {
        NoStaleInCells(r.items);
      }
    }
  }

  lemma {:induction false} NoStaleInCells(l: seq<Item>)
    ensures Stale(Cells(l)) == []
  {
    if l != [] {
      assert Cells(l)[1..] == Cells(l[1..]);
      NoStaleInCells(l[1..]);
    }
  }

  lemma {:induction false} FreshIffNoneSuperseded(trace: seq<Op>, max: nat)
    ensures SetsAreFresh(trace, max) <==> Superseded(trace, max) == []
  {
    if trace != [] {
      FreshIffNoneSuperseded(trace[..|trace| - 1], max);
    }
  }

  // ---------- A larger limit never loses a hit ----------

  predicate Subsequence(a: seq<Item>, b: seq<Item>) {
    a == [] || (b != [] && if a[0] == b[0] then Subsequence(a[1..], b[1..]) else Subsequence(a, b[1..]))
  }

  lemma {:induction false} SubTail(a: seq<Item>, b: seq<Item>)
    requires Subsequence(a, b) && a != []
    ensures Subsequence(a[1..], b) && Subsequence(a[1..], b[1..])
    decreases |b|, 0
  {
    if a[0] != b[0] {
      SubTail(a, b[1..]);
    }
    SubLonger(a[1..], b[1..], b[0]);
    assert b == [b[0]] + b[1..];
  }

  lemma {:induction false} SubLonger(a: seq<Item>, b: seq<Item>, x: Item)
    requires Subsequence(a, b)
    ensures Subsequence(a, [x] + b)
    decreases |b|, 1
  {
    assert ([x] + b)[1..] == b;
    if a != [] && a[0] == x {
      SubTail(a, b);
    }
  }

  lemma {:induction false} SubAppend(a: seq<Item>, b: seq<Item>, x: Item)
    requires Subsequence(a, b)
    ensures Subsequence(a + [x], b + [x]) && Subsequence(a, b + [x])
  {
    if b == [] {
      assert a + [x] == [x];
    } else {
      assert (b + [x])[1..] == b[1..] + [x];
      if a == [] {
        SubAppend(a, b[1..], x);
      } else {
        assert (a + [x])[1..] == a[1..] + [x];
        SubAppend(if a[0] == b[0] then a[1..] else a, b[1..], x);
      }
    }
  }

  lemma {:induction false} SubWithout(a: seq<Item>, b: seq<Item>, id: nat)
    requires Subsequence(a, b)
    ensures Subsequence(Without(a, id), Without(b, id))
  {
    if a != [] {
      if a[0] == b[0] {
        SubWithout(a[1..], b[1..], id);
        if a[0].id == id {
          assert Without(a, id) == Without(a[1..], id) && Without(b, id) == Without(b[1..], id);
        } else {
          assert Without(a, id)[1..] == Without(a[1..], id) && Without(b, id)[1..] == Without(b[1..], id);
        }
      } else {
        SubWithout(a, b[1..], id);
        if b[0].id == id {
          assert Without(b, id) == Without(b[1..], id);
        } else {
          SubLonger(Without(a, id), Without(b[1..], id), b[0]);
        }
      }
    }
  }

  lemma {:induction false} SubMember(a: seq<Item>, b: seq<Item>, x: Item)
    requires Subsequence(a, b) && x in a
    ensures x in b
  {
    if a[0] != b[0] {
      SubMember(a, b[1..], x);
    } else if x != a[0] {
      SubMember(a[1..], b[1..], x);
    }
  }

  /** What the smaller list finds, the larger one finds too. */
  lemma SubLookup(a: seq<Item>, b: seq<Item>, id: nat)
    requires Subsequence(a, b) && DistinctIds(b)
    ensures Lookup(a, id).Some? ==> Lookup(b, id) == Lookup(a, id)
  {
    WithoutShape(a, id);
    WithoutShape(b, id);
    if Lookup(a, id).Some? {
      SubMember(a, b, Lookup(a, id).value);
    }
  }

  /** A list for limit `k` inside one for limit `max`, with no more free room. */
  ghost predicate Included(small: seq<Item>, k: nat, large: seq<Item>, max: nat) {
    && Subsequence(small, large) && DistinctIds(small) && DistinctIds(large)
    && |small| <= k && |large| <= max && k - |small| <= max - |large|
  }

  lemma TouchKeepsInclusion(small: seq<Item>, k: nat, large: seq<Item>, max: nat, id: nat)
    requires Included(small, k, large, max)
    ensures Subsequence(Touch(small, id), Touch(large, id))
    ensures |Touch(small, id)| == |small| && |Touch(large, id)| == |large|
  {
    WithoutShape(small, id);
    WithoutShape(large, id);
    SubWithout(small, large, id);
    SubLookup(small, large, id);
    match Lookup(large, id)
    case Some(x) =>
      SubAppend(Without(small, id), Without(large, id), x);
      assert Without(small, id) + [] == Without(small, id);
    case None =>
      assert Touch(small, id) == small && Touch(large, id) == large;
  }

  lemma SetKeepsInclusion(small: Recency, k: nat, large: Recency, max: nat, item: Item)
    requires Included(small.items, k, large.items, max)
    ensures var s, l := Use(small, SetOp(item), k).items, Use(large, SetOp(item), max).items;
      Subsequence(s, l) && |s| <= k && |l| <= max && k - |s| <= max - |l|
  {
    var s1, l1 := Without(small.items, item.id) + [item], Without(large.items, item.id) + [item];
    WithoutShape(small.items, item.id);
    WithoutShape(large.items, item.id);
    SubWithout(small.items, large.items, item.id);
    SubLookup(small.items, large.items, item.id);
    SubAppend(Without(small.items, item.id), Without(large.items, item.id), item);
    SubTail(s1, l1);
    assert Overflow(l1, max) <= Overflow(s1, k) <= 1;
    assert s1[0..] == s1 && l1[0..] == l1;
  }

  lemma UseKeepsInclusion(small: Recency, k: nat, large: Recency, max: nat, op: Op)
    requires Included(small.items, k, large.items, max)
    ensures var s, l := Use(small, op, k).items, Use(large, op, max).items;
      Subsequence(s, l) && |s| <= k && |l| <= max && k - |s| <= max - |l|
  {
    match op
    case GetOp(id) => TouchKeepsInclusion(small.items, k, large.items, max, id);
    case DeleteOp(id) =>
      WithoutShape(small.items, id);
      WithoutShape(large.items, id);
      SubWithout(small.items, large.items, id);
      SubLookup(small.items, large.items, id);
    case SetOp(item) => SetKeepsInclusion(small, k, large, max, item);
  }

  /** One trace, two limits: the smaller list is a subsequence of the larger and has no more room. */
  lemma {:induction false} ListInclusion(trace: seq<Op>, k: nat, max: nat)
    requires k <= max
    ensures Included(Used(trace, k).items, k, Used(trace, max).items, max)
  {
    ListIsByLastUse(trace, k);
    ListIsByLastUse(trace, max);
    if trace != [] {
      var before, op := trace[..|trace| - 1], trace[|trace| - 1];
      ListInclusion(before, k, max);
      UseKeepsInclusion(Used(before, k), k, Used(before, max), max, op);
    }
  }

  lemma {:induction false} FreshInSmaller(trace: seq<Op>, k: nat, max: nat)
    requires k <= max && SetsAreFresh(trace, max)
    ensures SetsAreFresh(trace, k)
  {
    if trace != [] {
      var before, op := trace[..|trace| - 1], trace[|trace| - 1];
      FreshInSmaller(before, k, max);
      if op.SetOp? {
        var id := op.item.id;
        CacheRefinesLru(before, k, AsWritten);
        CacheRefinesLru(before, max, AsWritten);
        ListInclusion(before, k, max);
        SubLookup(Used(before, k).items, Used(before, max).items, id);
        FindMatchesLookup(Used(before, k).items, id);
        FindMatchesLookup(Used(before, max).items, id);
      }
    }
  }

  /** Enlarging the limit of the cache never turns a hit into a miss: whatever the smaller cache
      returns, the larger returns too, and its queue contains the smaller one in the same order.
      As written this needs sets of ids not cached in the larger one; as documented it is so for
      every trace. */
  lemma CacheInclusion(trace: seq<Op>, k: nat, max: nat, mode: Mode, id: nat)
    requires k <= max && (mode.Documented? || SetsAreFresh(trace, max))
    ensures var s, l := After(trace, k, mode), After(trace, max, mode);
      && Subsequence(Items(s.queue), Items(l.queue))
      && |s.queue| <= k && |l.queue| <= max && k - |s.queue| <= max - |l.queue|
      && (Get(s, id).1.Some? ==> Get(l, id).1 == Get(s, id).1)
  {
    if mode.AsWritten? {
      FreshInSmaller(trace, k, max);
    }
    CacheRefinesLru(trace, k, mode);
    CacheRefinesLru(trace, max, mode);
    ListInclusion(trace, k, max);
    SubLookup(Used(trace, k).items, Used(trace, max).items, id);
    assert Items(Cells(Used(trace, k).items)) == Used(trace, k).items;
    assert Items(Cells(Used(trace, max).items)) == Used(trace, max).items;
  }
}
