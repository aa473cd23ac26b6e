/** The pool object itself: its fields are changed in place over the linked deadline queue, and
    every method is one of the lock-held regions that `Pool` runs as a protocol. */
module ThreadPool {
  import opened Time
  import PQ = PrioQueue
  import Pool

  class ThreadPool {
    const queue: PQ.Queue
    var sleepUntil: TimeVal
    var stop: bool
    var threadCount: int

    ghost predicate Valid()
      reads this, queue, queue.nodes
    {
      queue.Valid()
    }

    /** The shared fields as one value. */
    ghost function Core(): Pool.Core
      reads this, queue, queue.nodes
    {
      Pool.Core(queue.Entries(), sleepUntil, stop, threadCount)
    }

    constructor (threads: nat)
      ensures Valid() && fresh(queue)
      ensures exists usec :: Core() == Pool.Init(threads, TimeVal(0, 0), usec).core
    {
      queue := new PQ.Queue();
      sleepUntil := TimeVal(-1, 0);
      stop := false;
      threadCount := threads;
      new;
      assert Core() == Pool.Init(threads, TimeVal(0, 0), 0).core;
    }

    method AddWork(work: nat, waitUntil: TimeVal)
      requires Valid()
      modifies this, queue, queue.nodes
      ensures Valid() && fresh(set n | n in queue.nodes && n !in old(queue.nodes))
      ensures Core() == Pool.AddWork(old(Core()), PQ.Entry(work, waitUntil), PQ.AsWritten)
    {
      var node := queue.Push(work, waitUntil);
      if sleepUntil.sec == -1 || sleepUntil.sec > waitUntil.sec
         || (sleepUntil.sec == waitUntil.sec && sleepUntil.usec > waitUntil.usec) {
        sleepUntil := waitUntil;
      }
    }

    /** Pops the head and moves the cached deadline on; an empty queue yields nothing. */
    method PopWork() returns (popped: bool, work: nat)
      requires Valid()
      modifies this, queue
      ensures Valid()
      ensures popped <==> old(queue.Entries()) != []
      ensures popped ==> work == old(queue.Entries())[0].data && Core() == Pool.PopWork(old(Core()))
      ensures !popped ==> Core() == old(Core())
    {
      var node := queue.Pop();
      if node == null {
        return false, 0;
      }
      popped, work := true, node.data;
      if queue.head != null {
        sleepUntil := queue.head.waitUntil;
      } else {
        sleepUntil := sleepUntil.(sec := -1);
      }
    }

    /** One pass of a worker through the locked check, ending in a wait, an exit or a pop.
        `t1` and `t2` are the two clock readings. */
    method WorkerCheck(t1: TimeVal, t2: TimeVal) returns (next: Pool.Outcome)
      requires Valid()
      modifies this, queue
      ensures Valid()
      ensures (Core(), next) == Pool.Check(old(Core()), t1, t2)
    {
      if !stop && (AtMost(t1, sleepUntil) || queue.size == 0) {
        if queue.size > 0 && AtMost(t2, sleepUntil) {
          var until := TimeSpec(sleepUntil.sec, sleepUntil.usec * 1000);
          if until.nsec > 1_000_000_000 {
            until := TimeSpec(until.sec + 1, until.nsec - 1_000_000_000);
          }
          return if WaitAccepts(until) then Pool.SleepUntil(sleepUntil) else Pool.CheckAgain;
        }
        return Pool.Sleep;
      }
      if stop {
        threadCount := threadCount - 1;
        return Pool.Quit;
      }
      ghost var head := queue.Entries()[0];
      var waitUntil := queue.head.waitUntil;
      var popped, work := PopWork();
      next := Pool.Work(PQ.Entry(work, waitUntil));
    }

    /** The locked part of the destroy: sets `stop`, frees the work of every queued node and then
        the nodes.  Every queued work is freed once; of two nodes or more the last one is not. */
    method Stop() returns (freedWork: seq<nat>, freedNodes: seq<PQ.PrioNode>)
      requires Valid()
      modifies `stop
      ensures Core() == old(Core()).(stop := true)
      ensures |freedWork| == |queue.nodes| && forall i :: 0 <= i < |freedWork| ==> freedWork[i] == queue.nodes[i].data
      ensures freedNodes == if |queue.nodes| < 2 then queue.nodes else queue.nodes[..|queue.nodes| - 1]
      ensures PQ.Distinct(freedNodes)
    {
      stop := true;
      freedWork := [];
      var cur := queue.head;
      while cur != null
        invariant |freedWork| <= |queue.nodes|
        invariant cur == if |freedWork| < |queue.nodes| then queue.nodes[|freedWork|] else null
        invariant forall i :: 0 <= i < |freedWork| ==> freedWork[i] == queue.nodes[i].data
        decreases |queue.nodes| - |freedWork|
      {
        assert PQ.LinksOn(queue.nodes, |freedWork|);
        var prev := cur;
        cur := cur.next;
        freedWork := freedWork + [prev.data];
      }
      freedNodes := queue.DestroyNodes();
    }
  }
}
