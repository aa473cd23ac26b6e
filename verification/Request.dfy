/** The retry machine of HTTP requests, run on top of the thread pool. */
module Request {
  import opened Time
  import PQ = PrioQueue
  import Pool

  // ---------- One attempt ----------

  /** The `retry_after` field of a rate-limit answer. */
  datatype RetryAfter = NotANumber | Seconds(w: real)

  datatype Reply = Reply(http: int, retryAfter: RetryAfter)

  /** `Complete(false)` is a request given up on: its callback sees no response. */
  datatype Verdict = Requeue(waitUntil: TimeVal) | Complete(answered: bool) | Dropped

  const MAX_TRANSIENT: int := 5

  function Power2(k: nat): nat {
    if k == 0 then 1 else 2 * Power2(k - 1)
  }

  predicate Transient(http: int) {
    http == 0 || 500 <= http <= 599 || http == 409
  }

  /** One call of the work function: the new retry counter and what becomes of the request. */
  function Attempt(iteration: nat, reply: Reply, now: TimeVal): (nat, Verdict) {
    if iteration >= MAX_TRANSIENT then
      (iteration, Complete(false))
    else if reply.http == 429 then
      (iteration, match reply.retryAfter
                  case Seconds(w) => Requeue(RateLimitDeadline(now, w))
                  case NotANumber => Dropped)
    else if Transient(reply.http) then
      (iteration + 1, Requeue(TimeVal(now.sec + Power2(iteration), now.usec)))
    else
      (iteration, Complete(true))
  }

  class WorkNode {
    const id: nat
    var iteration: nat
    var http: int

    constructor (id: nat)
      ensures this.id == id && iteration == 0
    {
      this.id := id;
      iteration := 0;
      http := 0;
    }

    /** The status part of the work function.  `reply` is what the transfer yields if one is made
        and `now` is the clock afterwards; `sent` says whether one was made. */
    method Perform(reply: Reply, now: TimeVal) returns (sent: bool, verdict: Verdict)
      modifies this
      ensures (iteration, verdict) == Attempt(old(iteration), reply, now)
      ensures sent <==> old(iteration) < MAX_TRANSIENT
      ensures http == if sent then reply.http else old(http)
      ensures verdict.Complete? ==> (verdict.answered <==> sent)
    {
      if iteration >= 5 {
        return false, Complete(false);
      }
      sent, http := true, reply.http;
      if 200 <= http <= 299 || http in {400, 401, 403, 404, 405} {
        verdict := Complete(true);
      } else if http == 429 {
        verdict := Dropped;
        if reply.retryAfter.Seconds? {
          var w := reply.retryAfter.w;
          var t0 := TimeVal(now.sec + Truncate(w), now.usec + Remainder(Truncate(w * 1000000.0), 1_000_000));
          if t0.usec > 1_000_000 {
            t0 := TimeVal(t0.sec + 1, t0.usec - 1_000_000);
          }
          verdict := Requeue(t0);
        }
      } else if http == 0 || 500 <= http <= 599 || http == 409 {
        verdict := Requeue(TimeVal(now.sec + Power2(iteration), now.usec));
        iteration := iteration + 1;
      } else {
        verdict := Complete(true);
      }
    }
  }

  // ---------- All requests of a bot, on its pool ----------

  datatype Phase = Live | Done | Lost

  /** What has happened to one request so far.  `since` is when it was submitted, `due` the deadline
      it was last given, `attempts` counts calls of the work function, `delay` adds up the backoff
      seconds. */
  datatype Req = Req(phase: Phase, iteration: nat, since: TimeVal, due: TimeVal, attempts: nat, sends: nat,
                     transients: nat, limited: nat, delay: nat, hasCallback: bool, callbacks: nat)

  /** How far a running worker is with its request: at work on it, about to put it back with a new
      deadline, or done with it and about to return, having put it back or ended it.  The lock is
      taken only between the second stage and the third. */
  datatype Stage = AtWork | PuttingBack(due: TimeVal) | GivenBack | Ended

  datatype System = System(pool: Pool.State, stages: seq<Stage>, reqs: map<nat, Req>)

  datatype Action =
    | Submit(id: nat, hasCallback: bool, woken: nat)
    | Answer(w: nat, reply: Reply, t: TimeVal)
    | PutBack(w: nat, woken: nat)
    | Return(w: nat)
    | PoolOnly(a: Pool.Action)

  predicate Busy(s: System, w: nat) {
    w < |s.pool.workers| && w < |s.stages| && s.pool.workers[w].Running?
  }

  function Task(s: System, w: nat): nat
    requires Busy(s, w)
  {
    s.pool.workers[w].task.data
  }

  /** What the action does to the pool. */
  function PoolAction(s: System, a: Action): Pool.Action
    requires a.PutBack? ==> Busy(s, a.w) && s.stages[a.w].PuttingBack?
  {
    match a
    case Submit(id, _, k) => Pool.Add(PQ.Entry(id, TimeVal(0, 0)), k)
    case Answer(_, _, t) => Pool.Tick(t)
    case PutBack(w, k) => Pool.Add(PQ.Entry(Task(s, w), s.stages[w].due), k)
    case Return(w) => Pool.Finish(w)
    case PoolOnly(pa) => pa
  }

  /** A rate-limit deadline before the epoch is not a deadline to the pool. */
  predicate Enabled(s: System, a: Action) {
    && (match a
        case Submit(id, _, _) => id !in s.reqs
        case Answer(w, reply, t) =>
          && Busy(s, w) && s.stages[w].AtWork? && Task(s, w) in s.reqs && Normal(t)
          && var verdict := Attempt(s.reqs[Task(s, w)].iteration, reply, t).1;
             verdict.Requeue? ==> verdict.waitUntil.sec >= 0
        case PutBack(w, _) => Busy(s, w) && s.stages[w].PuttingBack?
        case Return(w) => Busy(s, w) && (s.stages[w].GivenBack? || s.stages[w].Ended?)
        case PoolOnly(pa) => pa.Tick? || pa.CheckIn? || pa.Wake?)
    && Pool.Enabled(s.pool, PoolAction(s, a))
  }

  function Submitted(hasCallback: bool, now: TimeVal): Req {
    Req(Live, 0, now, TimeVal(0, 0), 0, 0, 0, 0, 0, hasCallback, 0)
  }

  /** The effect of an attempt on the books of its request. */
  function Booked(r: Req, reply: Reply, t: TimeVal): Req {
    var (iteration, verdict) := Attempt(r.iteration, reply, t);
    var r1 := r.(iteration := iteration, attempts := r.attempts + 1,
                 sends := r.sends + if r.iteration < MAX_TRANSIENT then 1 else 0);
    match verdict
    case Complete(_) => r1.(phase := Done, callbacks := r.callbacks + if r.hasCallback then 1 else 0)
    case Dropped => r1.(phase := Lost)
    case Requeue(d) =>
      if iteration == r.iteration then r1.(due := d, limited := r.limited + 1)
      else r1.(due := d, transients := r.transients + 1, delay := r.delay + Power2(r.iteration))
  }

  function StageAfter(v: Verdict): Stage {
    match v case Requeue(d) => PuttingBack(d) case _ => Ended
  }

  function Step(s: System, a: Action, v: PQ.Variant): System {
    if !Enabled(s, a) then s
    else
      var s1 := s.(pool := Pool.Step(s.pool, PoolAction(s, a), v));
      match a
      case Submit(id, hasCallback, _) => s1.(reqs := s.reqs[id := Submitted(hasCallback, s.pool.now)])
      case Answer(w, reply, t) =>
        var id := Task(s, w);
        s1.(reqs := s.reqs[id := Booked(s.reqs[id], reply, t)],
            stages := s.stages[w := StageAfter(Attempt(s.reqs[id].iteration, reply, t).1)])
      case PutBack(w, _) => s1.(stages := s.stages[w := GivenBack])
      case Return(w) => s1.(stages := s.stages[w := AtWork])
      case PoolOnly(_) => s1
  }

  function Init(threads: nat, now: TimeVal, usec: int): System {
    System(Pool.Init(threads, now, usec), seq(threads, _ => AtWork), map[])
  }

  function After(s: System, run: seq<Action>, v: PQ.Variant): System {
    if run == [] then s else Step(After(s, run[..|run| - 1], v), run[|run| - 1], v)
  }

  // ---------- What an answer does ----------

  /** A request starts live, with its clock running and nothing on its books, queued without delay. */
  lemma SubmissionStarts(s: System, a: Action, v: PQ.Variant)
    requires a.Submit? && Enabled(s, a)
    ensures var s' := Step(s, a, v);
      && s'.reqs.Keys == s.reqs.Keys + {a.id} && (forall id :: id in s.reqs ==> s'.reqs[id] == s.reqs[id])
      && s'.reqs[a.id] == Req(Live, 0, s.pool.now, TimeVal(0, 0), 0, 0, 0, 0, 0, a.hasCallback, 0)
      && PQ.Entry(a.id, TimeVal(0, 0)) in s'.pool.core.queue
  {
    PQ.PushedKeepsEntries(s.pool.core.queue, PQ.Entry(a.id, TimeVal(0, 0)), v);
    assert PQ.Entry(a.id, TimeVal(0, 0)) in multiset(Step(s, a, v).pool.core.queue);
  }

  /** What becomes of a request, told by the status alone.  Below five transient failures: a 429 with a
      number puts the deadline that many seconds after the answer, to the microsecond; a 429 without
      one loses the request; no connection, a 409 and a server error count as a transient failure
      and are put off by 1, 2, 4, 8 and 16 seconds in turn; anything else completes it. After five
      it completes without being sent. */
  lemma AnswerOutcome(s: System, w: nat, reply: Reply, t: TimeVal, v: PQ.Variant)
    requires Alive(s) && Enabled(s, Answer(w, reply, t))
    ensures var s' := Step(s, Answer(w, reply, t), v);
      var r, r', http := s.reqs[Task(s, w)], s'.reqs[Task(s, w)], reply.http;
      var asked := if reply.retryAfter.Seconds? then reply.retryAfter.w else 0.0;
      && r.phase.Live? && r.transients <= 5 && r'.since == r.since
      && (r.transients == 5 ==> r'.phase.Done? && r'.sends == r.sends)
      && (r.transients < 5 ==> r'.sends == r.sends + 1)
      && (r.transients < 5 && http == 429 && reply.retryAfter.NotANumber? ==> r'.phase.Lost?)
      && (r.transients < 5 && http == 429 && reply.retryAfter.Seconds? ==>
            && r'.phase.Live? && r'.transients == r.transients && r'.limited == r.limited + 1
            && s'.stages[w] == PuttingBack(r'.due)
            && DueAfter(t, asked, r'.due))
      && (r.transients < 5 && (http == 0 || http == 409 || 500 <= http <= 599) ==>
            && r'.phase.Live? && r'.transients == r.transients + 1 && s'.stages[w] == PuttingBack(r'.due)
            && r'.due == TimeVal(t.sec + [1, 2, 4, 8, 16][r.transients], t.usec))
      && (r.transients < 5 && http != 429 && http != 0 && http != 409 && !(500 <= http <= 599) ==> r'.phase.Done?)
  {
    AnsweredIsLive(s, w);
    var r := s.reqs[Task(s, w)];
    PowersOfTwo();
    if reply.http == 429 && reply.retryAfter.Seconds? && r.iteration < 5 {
      RateLimitDeadlineInMicros(t, reply.retryAfter.w);
    }
  }

  /** `due` is `seconds` after `t`, cut to a whole microsecond towards `t`. */
  ghost predicate DueAfter(t: TimeVal, seconds: real, due: TimeVal) {
    var exact := Micros(t) as real + seconds * 1000000.0;
    if seconds >= 0.0 then exact - 1.0 < Micros(due) as real <= exact else exact <= Micros(due) as real < exact + 1.0
  }

  lemma PowersOfTwo()
    ensures Power2(0) == 1 && Power2(1) == 2 && Power2(2) == 4 && Power2(3) == 8 && Power2(4) == 16
  {
    assert Power2(4) == 2 * Power2(3);
  }

  // ---------- Where requests are ----------

  /** How often a task is queued, and in how many hands it is: those of workers that have neither
      put it back nor ended it. */
  function Queued(q: seq<PQ.Entry>, id: nat): nat {
    if q == [] then 0 else (if q[0].data == id then 1 else 0) + Queued(q[1..], id)
  }

  function Holds(w: Pool.Worker, g: Stage, id: nat): nat {
    if w.Running? && w.task.data == id && (g.AtWork? || g.PuttingBack?) then 1 else 0
  }

  function InFlight(ws: seq<Pool.Worker>, gs: seq<Stage>, id: nat): nat
    requires |ws| == |gs|
  {
    if ws == [] then 0 else Holds(ws[0], gs[0], id) + InFlight(ws[1..], gs[1..], id)
  }

  /** One stage for each worker; one that is not running has none to speak of. */
  ghost predicate WellStaged(s: System) {
    && |s.stages| == |s.pool.workers|
    && forall w :: 0 <= w < |s.stages| && !s.pool.workers[w].Running? ==> s.stages[w].AtWork?
  }

  function Places(s: System, id: nat): nat
    requires |s.stages| == |s.pool.workers|
  {
    Queued(s.pool.core.queue, id) + InFlight(s.pool.workers, s.stages, id)
  }

  /** A live request is in exactly one place, the queue or one worker's hands; any other is in none. */
  ghost predicate PlacedOnce(s: System)
    requires |s.stages| == |s.pool.workers|
  {
    forall id :: Places(s, id) == if id in s.reqs && s.reqs[id].phase.Live? then 1 else 0
  }

  /** The books of one request balance. */
  predicate Balanced(r: Req) {
    && r.transients == r.iteration <= MAX_TRANSIENT
    && r.delay == Power2(r.transients) - 1
    && r.attempts == r.transients + r.limited + (if r.phase.Live? then 0 else 1)
    && r.sends == r.attempts - (if r.phase.Done? && r.transients == MAX_TRANSIENT then 1 else 0)
    && r.callbacks == (if r.phase.Done? && r.hasCallback then 1 else 0)
  }

  lemma {:induction false} QueuedInConcat(a: seq<PQ.Entry>, b: seq<PQ.Entry>, id: nat)
    ensures Queued(a + b, id) == Queued(a, id) + Queued(b, id)
  {
    if a == [] {
      assert a + b == b;
    } else {
      assert (a + b)[1..] == a[1..] + b;
      QueuedInConcat(a[1..], b, id);
    }
  }

  lemma QueuedAfterPush(q: seq<PQ.Entry>, e: PQ.Entry, v: PQ.Variant, id: nat)
    ensures Queued(PQ.Pushed(q, e, v), id) == Queued(q, id) + (if e.data == id then 1 else 0)
  {
    var i := PQ.Slot(q, e.waitUntil, v);
    QueuedInConcat(q[..i] + [e], q[i..], id);
    QueuedInConcat(q[..i], [e], id);
    QueuedInConcat(q[..i], q[i..], id);
    assert q == q[..i] + q[i..];
  }

  lemma {:induction false} InFlightAfterUpdate(ws: seq<Pool.Worker>, gs: seq<Stage>, i: nat, w: Pool.Worker, g: Stage,
                                               id: nat)
    requires i < |ws| == |gs|
    ensures InFlight(ws[i := w], gs[i := g], id) == InFlight(ws, gs, id) - Holds(ws[i], gs[i], id) + Holds(w, g, id)
  {
    if i == 0 {
      assert ws[i := w][1..] == ws[1..] && gs[i := g][1..] == gs[1..];
    } else {
      InFlightAfterUpdate(ws[1..], gs[1..], i - 1, w, g, id);
      assert ws[i := w][1..] == ws[1..][i - 1 := w] && gs[i := g][1..] == gs[1..][i - 1 := g];
    }
  }

  lemma {:induction false} NoneInFlightAtFirst(n: nat, id: nat)
    ensures InFlight(seq(n, _ => Pool.Awake), seq(n, _ => AtWork), id) == 0
  {
    if n > 0 {
      NoneInFlightAtFirst(n - 1, id);
      assert seq(n, _ => Pool.Awake)[1..] == seq(n - 1, _ => Pool.Awake);
      assert seq(n, _ => AtWork)[1..] == seq(n - 1, _ => AtWork);
    }
  }

  lemma {:induction false} QueuedIsThere(q: seq<PQ.Entry>, e: PQ.Entry)
    requires e in q
    ensures Queued(q, e.data) > 0
  {
    if q[0] != e {
      assert e in q[1..];
      QueuedIsThere(q[1..], e);
    }
  }

  lemma {:induction false} HolderIsThere(ws: seq<Pool.Worker>, gs: seq<Stage>, w: nat, id: nat)
    requires w < |ws| == |gs| && Holds(ws[w], gs[w], id) == 1
    ensures InFlight(ws, gs, id) > 0
  {
    if w > 0 {
      HolderIsThere(ws[1..], gs[1..], w - 1, id);
    }
  }

  /** One worker changing its state, its stage or both. */
  lemma PlacesAfterWorker(s: System, w: nat, x: Pool.Worker, g: Stage, id: nat)
    requires w < |s.pool.workers| == |s.stages|
    ensures InFlight(s.pool.workers[w := x], s.stages[w := g], id)
            == InFlight(s.pool.workers, s.stages, id) - Holds(s.pool.workers[w], s.stages[w], id) + Holds(x, g, id)
    ensures InFlight(s.pool.workers[w := x], s.stages, id)
            == InFlight(s.pool.workers, s.stages, id) - Holds(s.pool.workers[w], s.stages[w], id)
               + Holds(x, s.stages[w], id)
    ensures InFlight(s.pool.workers, s.stages[w := g], id)
            == InFlight(s.pool.workers, s.stages, id) - Holds(s.pool.workers[w], s.stages[w], id)
               + Holds(s.pool.workers[w], g, id)
  {
    InFlightAfterUpdate(s.pool.workers, s.stages, w, x, g, id);
    InFlightAfterUpdate(s.pool.workers, s.stages, w, x, s.stages[w], id);
    InFlightAfterUpdate(s.pool.workers, s.stages, w, s.pool.workers[w], g, id);
    assert s.stages[w := s.stages[w]] == s.stages && s.pool.workers[w := s.pool.workers[w]] == s.pool.workers;
  }

  /** Adding a task and waking a worker adds one place for the task. */
  lemma PlacesAfterAdd(s: System, e: PQ.Entry, k: nat, v: PQ.Variant, id: nat)
    requires WellStaged(s) && Pool.Enabled(s.pool, Pool.Add(e, k))
    ensures var s' := s.(pool := Pool.Step(s.pool, Pool.Add(e, k), v));
      WellStaged(s') && Places(s', id) == Places(s, id) + if e.data == id then 1 else 0
  {
    QueuedAfterPush(s.pool.core.queue, e, v, id);
    if k < |s.pool.workers| {
      PlacesAfterWorker(s, k, Pool.Awake, AtWork, id);
    }
  }

  // ---------- Every run keeps the books ----------

  ghost predicate Alive(s: System) {
    !s.pool.core.stop && WellStaged(s) && PlacedOnce(s) && forall id :: id in s.reqs ==> Balanced(s.reqs[id])
  }

  lemma BookedStaysBalanced(r: Req, reply: Reply, t: TimeVal)
    requires Balanced(r) && r.phase.Live?
    ensures Balanced(Booked(r, reply, t))
  {
  }

  /** A request enters the system once, when it is submitted, and leaves it when an attempt completes
      or drops it; putting it back moves it, and no other step moves, adds or loses one. */
  lemma PlacesAfterStep(s: System, a: Action, v: PQ.Variant, id: nat)
    requires Enabled(s, a) && !s.pool.core.stop && WellStaged(s)
    requires a.Answer? ==> s.reqs[Task(s, a.w)].phase.Live?
    ensures var s' := Step(s, a, v);
      && !s'.pool.core.stop && WellStaged(s')
      && Places(s', id) == Places(s, id)
           + (if a.Submit? && a.id == id then 1 else 0)
           - (if a.Answer? && Task(s, a.w) == id && !s'.reqs[id].phase.Live? then 1 else 0)
  {
    match a
    case Submit(i, _, k) => PlacesAfterAdd(s, PQ.Entry(i, TimeVal(0, 0)), k, v, id);
    case Answer(w, reply, t) =>
      var g := StageAfter(Attempt(s.reqs[Task(s, w)].iteration, reply, t).1);
      PlacesAfterWorker(s, w, s.pool.workers[w], g, id);
    case PutBack(w, k) => PlacesAfterPutBack(s, w, k, v, id);
    case Return(w) => PlacesAfterWorker(s, w, Pool.Awake, AtWork, id);
    case PoolOnly(pa) => PlacesAfterPool(s, pa, v, id);
  }

  lemma PlacesAfterPutBack(s: System, w: nat, k: nat, v: PQ.Variant, id: nat)
    requires Enabled(s, PutBack(w, k)) && WellStaged(s)
    ensures var s' := Step(s, PutBack(w, k), v);
      WellStaged(s') && Places(s', id) == Places(s, id)
  {
    var e := PQ.Entry(Task(s, w), s.stages[w].due);
    PlacesAfterAdd(s, e, k, v, id);
    var s1 := s.(pool := Pool.Step(s.pool, Pool.Add(e, k), v));
    assert s1.pool.workers[w] == s.pool.workers[w];
    PlacesAfterWorker(s1, w, s1.pool.workers[w], GivenBack, id);
  }

  lemma PlacesAfterPool(s: System, pa: Pool.Action, v: PQ.Variant, id: nat)
    requires Enabled(s, PoolOnly(pa)) && !s.pool.core.stop && WellStaged(s)
    ensures var s' := Step(s, PoolOnly(pa), v);
      !s'.pool.core.stop && WellStaged(s') && Places(s', id) == Places(s, id)
  {
    match pa
    case Tick(t) =>
    case CheckIn(w, t1, t2) => PlacesAfterCheck(s, w, t1, t2, v, id);
    case Wake(w) => PlacesAfterWorker(s, w, Pool.Awake, AtWork, id);
    case _ =>
  }

  lemma PlacesAfterCheck(s: System, w: nat, t1: TimeVal, t2: TimeVal, v: PQ.Variant, id: nat)
    requires Enabled(s, PoolOnly(Pool.CheckIn(w, t1, t2))) && !s.pool.core.stop && WellStaged(s)
    ensures var s' := Step(s, PoolOnly(Pool.CheckIn(w, t1, t2)), v);
      !s'.pool.core.stop && WellStaged(s') && Places(s', id) == Places(s, id)
  {
    PlacesAfterWorker(s, w, Pool.AfterCheck(Pool.Check(s.pool.core, t1, t2).1), AtWork, id);
  }

  lemma StepKeepsAlive(s: System, a: Action, v: PQ.Variant)
    requires Alive(s)
    ensures Alive(Step(s, a, v))
  {
    if Enabled(s, a) {
      var s' := Step(s, a, v);
      if a.Answer? {
        AnsweredIsLive(s, a.w);
        BookedStaysBalanced(s.reqs[Task(s, a.w)], a.reply, a.t);
      }
      PlacesAfterStep(s, a, v, 0);
      forall id ensures Places(s', id) == if id in s'.reqs && s'.reqs[id].phase.Live? then 1 else 0 {
        PlacesAfterStep(s, a, v, id);
      }
    }
  }

  lemma AnsweredIsLive(s: System, w: nat)
    requires Alive(s) && Busy(s, w) && (s.stages[w].AtWork? || s.stages[w].PuttingBack?)
    ensures Task(s, w) in s.reqs && s.reqs[Task(s, w)].phase.Live?
  {
    HolderIsThere(s.pool.workers, s.stages, w, Task(s, w));
    assert Places(s, Task(s, w)) > 0;
  }

  lemma {:induction false} ReachableAlive(n: nat, now: TimeVal, usec: int, run: seq<Action>, v: PQ.Variant)
    ensures Alive(After(Init(n, now, usec), run, v))
  {
    if run == [] {
      forall id ensures Places(Init(n, now, usec), id) == 0 {
        NoneInFlightAtFirst(n, id);
      }
    } else {
      ReachableAlive(n, now, usec, run[..|run| - 1], v);
      StepKeepsAlive(After(Init(n, now, usec), run[..|run| - 1], v), run[|run| - 1], v);
    }
  }

  lemma BalancedMeans(r: Req)
    requires Balanced(r)
    ensures r.transients <= 5 && r.delay == Power2(r.transients) - 1 <= 31
    ensures r.sends <= r.attempts <= 6 + r.limited
    ensures r.phase.Done? && r.transients == 5 ==> r.sends == 5 + r.limited
  {
    assert r.transients in [0, 1, 2, 3, 4, 5];
  }

  /** The life cycle of every request in every run: it is in exactly one of four places; its
      callback runs once if it completes and not otherwise; at most five of its sends end in a
      transient failure, for at most 31 s of backoff in all; and its work function is called at
      most six times plus once per rate limiting. */
  lemma LifeCycle(n: nat, now: TimeVal, usec: int, run: seq<Action>, v: PQ.Variant, id: nat)
    ensures var s := After(Init(n, now, usec), run, v);
      && |s.stages| == |s.pool.workers|
      && if id !in s.reqs then Queued(s.pool.core.queue, id) == InFlight(s.pool.workers, s.stages, id) == 0
         else
           var r := s.reqs[id];
           && Queued(s.pool.core.queue, id) + InFlight(s.pool.workers, s.stages, id)
                + (if r.phase.Done? then 1 else 0) + (if r.phase.Lost? then 1 else 0) == 1
           && r.callbacks == (if r.phase.Done? && r.hasCallback then 1 else 0)
           && r.transients <= 5 && r.delay == Power2(r.transients) - 1 <= 31
           && r.sends <= r.attempts <= 6 + r.limited
           && (r.phase.Done? && r.transients == 5 ==> r.sends == 5 + r.limited)
  {
    ReachableAlive(n, now, usec, run, v);
    var s := After(Init(n, now, usec), run, v);
    assert Places(s, id) == if id in s.reqs && s.reqs[id].phase.Live? then 1 else 0;
    if id in s.reqs {
      BalancedMeans(s.reqs[id]);
    }
  }

  // ---------- The pool underneath ----------

  /** Every run of the requests is a run of the pool, so all that holds of pool runs holds here. */
  lemma {:induction false} RunIsPoolRun(n: nat, now: TimeVal, usec: int, run: seq<Action>, v: PQ.Variant)
    returns (poolRun: seq<Pool.Action>)
    ensures After(Init(n, now, usec), run, v).pool == Pool.After(Pool.Init(n, now, usec), poolRun, v)
    ensures Pool.Inv(After(Init(n, now, usec), run, v).pool, v)
  {
    poolRun := [];
    if run != [] {
      var before := RunIsPoolRun(n, now, usec, run[..|run| - 1], v);
      poolRun := before;
      var s := After(Init(n, now, usec), run[..|run| - 1], v);
      if Enabled(s, run[|run| - 1]) {
        poolRun := before + [PoolAction(s, run[|run| - 1])];
        assert poolRun[..|before|] == before;
      }
    }
    Pool.ReachableInv(n, now, usec, poolRun, v);
  }

  // ---------- When backoff is honoured ----------

  /** Submitting a request or putting one back while exactly one task is queued, due earlier, and
      the deadline of the new one is still to come. */
  predicate QueuesBehindOneEarlier(s: System, a: Action) {
    (a.Submit? || a.PutBack?) && Enabled(s, a) && Pool.AddsBehindOneEarlier(s.pool, PoolAction(s, a), false)
  }

  /** A submission asks for no delay, so after the epoch only a put-back can do that. */
  lemma OnlyPutBacksQueueBehind(s: System, a: Action)
    requires Later(s.pool.now, TimeVal(0, 0)) && QueuesBehindOneEarlier(s, a)
    ensures a.PutBack?
  {
  }

  function Delayed(t: TimeVal, seconds: nat): TimeVal {
    TimeVal(t.sec + seconds, t.usec)
  }

  /** A request has been waiting since it was submitted, or will have been when it is due, for all the
      backoff it was given. */
  predicate WaitsItsTurn(r: Req, now: TimeVal) {
    AtMost(Delayed(r.since, r.delay), r.due) || AtMost(Delayed(r.since, r.delay), now)
  }

  ghost predicate QueuedOnTime(s: System) {
    forall e :: e in s.pool.core.queue && e.data in s.reqs ==> s.reqs[e.data].due == e.waitUntil
  }

  /** A worker at work on a request started it after its deadline. */
  predicate WorkerOnTime(s: System, w: nat)
    requires Busy(s, w)
  {
    match s.stages[w]
    case AtWork => Later(s.pool.now, s.pool.workers[w].task.waitUntil)
                   && (Task(s, w) in s.reqs ==> s.reqs[Task(s, w)].due == s.pool.workers[w].task.waitUntil)
    case PuttingBack(d) => Task(s, w) in s.reqs ==> s.reqs[Task(s, w)].due == d
    case _ => true
  }

  ghost predicate OnTime(s: System) {
    && QueuedOnTime(s)
    && (forall w :: 0 <= w < |s.stages| && Busy(s, w) ==> WorkerOnTime(s, w))
    && (forall id :: id in s.reqs ==> WaitsItsTurn(s.reqs[id], s.pool.now))
  }

  /** The one place of a request in a worker's hands is that worker. */
  lemma NowhereElse(s: System, w: nat)
    requires WellStaged(s) && PlacedOnce(s) && Busy(s, w) && Holds(s.pool.workers[w], s.stages[w], Task(s, w)) == 1
    ensures forall e :: e in s.pool.core.queue ==> e.data != Task(s, w)
    ensures forall x :: 0 <= x < |s.stages| && x != w ==> Holds(s.pool.workers[x], s.stages[x], Task(s, w)) == 0
  {
    var id := Task(s, w);
    assert Places(s, id) <= 1;
    HolderIsThere(s.pool.workers, s.stages, w, id);
    forall e | e in s.pool.core.queue && e.data == id ensures false {
      QueuedIsThere(s.pool.core.queue, e);
    }
    PlacesAfterWorker(s, w, Pool.Awake, AtWork, id);
    var rest := s.pool.workers[w := Pool.Awake];
    forall x | 0 <= x < |s.stages| && x != w && Holds(s.pool.workers[x], s.stages[x], id) == 1 ensures false {
      HolderIsThere(rest, s.stages[w := AtWork], x, id);
    }
  }

  lemma NowhereYet(s: System, id: nat)
    requires WellStaged(s) && PlacedOnce(s) && id !in s.reqs
    ensures forall e :: e in s.pool.core.queue ==> e.data != id
    ensures forall x :: 0 <= x < |s.stages| ==> Holds(s.pool.workers[x], s.stages[x], id) == 0
  {
    assert Places(s, id) == 0;
    forall e | e in s.pool.core.queue && e.data == id ensures false {
      QueuedIsThere(s.pool.core.queue, e);
    }
    forall x | 0 <= x < |s.stages| && Holds(s.pool.workers[x], s.stages[x], id) == 1 ensures false {
      HolderIsThere(s.pool.workers, s.stages, x, id);
    }
  }

  lemma PushedFrom(q: seq<PQ.Entry>, e: PQ.Entry, v: PQ.Variant)
    ensures forall x :: x in PQ.Pushed(q, e, v) ==> x == e || x in q
  {
  }

  /** The pool never starts a task early in this state: with the repaired insertion no reachable one
      does, as written those that are punctual do not. */
  ghost predicate Prompt(p: Pool.State, v: PQ.Variant) {
    Pool.Inv(p, v) && (v.AsWritten? ==> Pool.Punctual(p, false))
  }

  lemma PromptPops(p: Pool.State, v: PQ.Variant, w: nat, t1: TimeVal, t2: TimeVal)
    requires Prompt(p, v) && Pool.Enabled(p, Pool.CheckIn(w, t1, t2)) && Pool.Check(p.core, t1, t2).1.Work?
    ensures var e := Pool.Check(p.core, t1, t2).1.e; e in p.core.queue && Later(t2, e.waitUntil)
  {
    Pool.OpeningIsFirst(p.now, p.core.sleepUntil, t1);
  }

  lemma SubmitStaysOnTime(s: System, a: Action, v: PQ.Variant)
    requires Alive(s) && OnTime(s) && a.Submit? && Enabled(s, a)
    ensures OnTime(Step(s, a, v))
  {
    NowhereYet(s, a.id);
    PushedFrom(s.pool.core.queue, PQ.Entry(a.id, TimeVal(0, 0)), v);
    var s' := Step(s, a, v);
    forall w | 0 <= w < |s'.stages| && Busy(s', w) ensures WorkerOnTime(s', w) {
      assert s'.pool.workers[w] == s.pool.workers[w] && Busy(s, w) && WorkerOnTime(s, w);
    }
  }

  lemma BookedWaitsItsTurn(r: Req, reply: Reply, now: TimeVal, t: TimeVal)
    requires Balanced(r) && WaitsItsTurn(r, now) && AtMost(now, t) && Later(t, r.due)
    ensures WaitsItsTurn(Booked(r, reply, t), t)
  {
  }

  lemma AnswerStaysOnTime(s: System, a: Action, v: PQ.Variant)
    requires Alive(s) && OnTime(s) && a.Answer? && Enabled(s, a)
    ensures OnTime(Step(s, a, v))
  {
    var s', id := Step(s, a, v), Task(s, a.w);
    NowhereElse(s, a.w);
    AnsweredIsLive(s, a.w);
    assert WorkerOnTime(s, a.w);
    BookedWaitsItsTurn(s.reqs[id], a.reply, s.pool.now, a.t);
    forall w | 0 <= w < |s'.stages| && Busy(s', w) ensures WorkerOnTime(s', w) {
      if w != a.w {
        assert Busy(s, w) && WorkerOnTime(s, w);
        assert Holds(s.pool.workers[w], s.stages[w], id) == 0;
      }
    }
  }

  lemma PutBackStaysOnTime(s: System, a: Action, v: PQ.Variant)
    requires Alive(s) && OnTime(s) && a.PutBack? && Enabled(s, a)
    ensures OnTime(Step(s, a, v))
  {
    var s', e := Step(s, a, v), PQ.Entry(Task(s, a.w), s.stages[a.w].due);
    assert WorkerOnTime(s, a.w);
    PushedFrom(s.pool.core.queue, e, v);
    forall w | 0 <= w < |s'.stages| && Busy(s', w) ensures WorkerOnTime(s', w) {
      assert s'.pool.workers[w] == s.pool.workers[w] && Busy(s, w) && WorkerOnTime(s, w);
    }
  }

  lemma CheckStaysOnTime(s: System, a: Action, v: PQ.Variant)
    requires Alive(s) && OnTime(s) && Prompt(s.pool, v) && a.PoolOnly? && a.a.CheckIn? && Enabled(s, a)
    ensures OnTime(Step(s, a, v))
  {
    var s', o := Step(s, a, v), Pool.Check(s.pool.core, a.a.t1, a.a.t2).1;
    if o.Work? {
      PromptPops(s.pool, v, a.a.w, a.a.t1, a.a.t2);
      assert s'.pool.workers[a.a.w] == Pool.Running(o.e) && s'.stages[a.a.w].AtWork?;
    }
    forall w | 0 <= w < |s'.stages| && Busy(s', w) && w != a.a.w ensures WorkerOnTime(s', w) {
      assert s'.pool.workers[w] == s.pool.workers[w] && WorkerOnTime(s, w);
    }
  }

  lemma PoolStaysOnTime(s: System, a: Action, v: PQ.Variant)
    requires Alive(s) && OnTime(s) && a.PoolOnly? && !a.a.CheckIn? && Enabled(s, a)
    ensures OnTime(Step(s, a, v))
  {
    var s' := Step(s, a, v);
    forall w | 0 <= w < |s'.stages| && Busy(s', w) ensures WorkerOnTime(s', w) {
      assert s'.pool.workers[w] == s.pool.workers[w] && WorkerOnTime(s, w);
    }
  }

  lemma StepKeepsOnTime(s: System, a: Action, v: PQ.Variant)
    requires Alive(s) && OnTime(s) && Prompt(s.pool, v)
    ensures OnTime(Step(s, a, v))
  {
    if Enabled(s, a) {
      match a
      case Submit(_, _, _) => SubmitStaysOnTime(s, a, v);
      case Answer(_, _, _) => AnswerStaysOnTime(s, a, v);
      case PutBack(_, _) => PutBackStaysOnTime(s, a, v);
      case Return(_) => ReturnStaysOnTime(s, a, v);
      case PoolOnly(pa) =>
        if pa.CheckIn? {
          CheckStaysOnTime(s, a, v);
        } else {
          PoolStaysOnTime(s, a, v);
        }
    }
  }

  lemma ReturnStaysOnTime(s: System, a: Action, v: PQ.Variant)
    requires OnTime(s) && WellStaged(s) && a.Return? && Enabled(s, a)
    ensures OnTime(Step(s, a, v))
  {
    var s' := Step(s, a, v);
    forall w | 0 <= w < |s'.stages| && Busy(s', w) ensures WorkerOnTime(s', w) {
      assert Busy(s, w) && WorkerOnTime(s, w);
    }
  }

  /** No submission and no put-back of the run queues behind one earlier task. */
  predicate NothingQueuedBehind(s: System, run: seq<Action>) {
    forall k :: 0 <= k < |run| ==> !QueuesBehindOneEarlier(After(s, run[..k], PQ.AsWritten), run[k])
  }

  lemma StepStaysPrompt(s: System, a: Action, v: PQ.Variant)
    requires Prompt(s.pool, v) && (v.Repaired? || !QueuesBehindOneEarlier(s, a))
    ensures Prompt(Step(s, a, v).pool, v)
  {
    if Enabled(s, a) {
      Pool.StepKeepsSleepAgreement(s.pool, PoolAction(s, a), v);
      Pool.StepKeepsShutdownAgreement(s.pool, PoolAction(s, a), v);
      if v.AsWritten? {
        Pool.StepStaysPunctualIff(s.pool, PoolAction(s, a), false);
      }
    }
  }

  lemma {:induction false} ReachableOnTime(n: nat, now: TimeVal, usec: int, run: seq<Action>, v: PQ.Variant)
    requires v.Repaired? || NothingQueuedBehind(Init(n, now, usec), run)
    ensures OnTime(After(Init(n, now, usec), run, v)) && Prompt(After(Init(n, now, usec), run, v).pool, v)
  {
    if run == [] {
      Pool.ReachableInv(n, now, usec, [], v);
    } else {
      var before, s0 := run[..|run| - 1], Init(n, now, usec);
      assert forall k :: 0 <= k < |before| ==> before[..k] == run[..k];
      ReachableOnTime(n, now, usec, before, v);
      ReachableAlive(n, now, usec, before, v);
      StepKeepsOnTime(After(s0, before, v), run[|run| - 1], v);
      StepStaysPrompt(After(s0, before, v), run[|run| - 1], v);
    }
  }

  lemma HonouredAtAnswer(s: System, a: Action, v: PQ.Variant)
    requires Alive(s) && OnTime(s) && a.Answer? && Enabled(s, a)
    ensures var r, r' := s.reqs[Task(s, a.w)], Step(s, a, v).reqs[Task(s, a.w)];
      && Later(a.t, r.due) && AtMost(Delayed(r.since, r.delay), a.t)
      && (r'.transients > r.transients ==>
            r'.transients == r.transients + 1 && r'.due == Delayed(a.t, Power2(r.transients)))
  {
    AnsweredIsLive(s, a.w);
    assert WorkerOnTime(s, a.w) && Balanced(s.reqs[Task(s, a.w)]);
  }

  /** Backoff is really waited out in every run of the code as written in which nothing is queued
      behind one earlier task, and with the repaired insertion in every run: no attempt is made
      before the deadline the request was given has passed, which for the k-th transient failure,
      answered at `t`, is `t` plus 2^(k-1) seconds; and since its submission all the backoff seconds
      have gone by. */
  lemma BackoffIsHonoured(n: nat, now: TimeVal, usec: int, run: seq<Action>, v: PQ.Variant, a: Action)
    requires v.Repaired? || NothingQueuedBehind(Init(n, now, usec), run)
    requires a.Answer? && Enabled(After(Init(n, now, usec), run, v), a)
    ensures var s := After(Init(n, now, usec), run, v);
      var r, r' := s.reqs[Task(s, a.w)], Step(s, a, v).reqs[Task(s, a.w)];
      && Later(a.t, r.due) && AtMost(Delayed(r.since, r.delay), a.t)
      && (r'.transients > r.transients ==>
            r'.transients == r.transients + 1 && r'.due == Delayed(a.t, Power2(r.transients)))
  {
    ReachableOnTime(n, now, usec, run, v);
    ReachableAlive(n, now, usec, run, v);
    HonouredAtAnswer(After(Init(n, now, usec), run, v), a, v);
  }

  /** A worker is at work on a request whose deadline has not passed. */
  predicate StartedEarly(s: System, w: nat) {
    && Busy(s, w) && s.stages[w].AtWork? && Task(s, w) in s.reqs
    && AtMost(s.pool.now, s.reqs[Task(s, w)].due)
  }

  /** A rate limit is waited out in the same runs: after a 429 that asks for `seconds`, answered at `t`, no
      attempt on the request is made before that many seconds after `t` have gone by. */
  lemma RateLimitIsHonoured(n: nat, now: TimeVal, usec: int, run: seq<Action>, v: PQ.Variant, a: Action, b: Action,
                            more: seq<Action>, id: nat)
    requires a.Answer? && a.reply.http == 429 && a.reply.retryAfter.Seconds? && a.reply.retryAfter.w >= 0.0
    requires var s := After(Init(n, now, usec), run, v);
      Enabled(s, a) && Task(s, a.w) == id && s.reqs[id].transients < 5
    requires v.Repaired? || NothingQueuedBehind(Init(n, now, usec), run + [a] + more)
    requires var s := After(Init(n, now, usec), run + [a] + more, v);
      b.Answer? && Enabled(s, b) && Task(s, b.w) == id
    requires var s := After(Init(n, now, usec), run + [a], v);
      forall k :: 0 <= k < |more| ==> !AnswersTo(After(s, more[..k], v), more[k], id)
    ensures Micros(b.t) as real > Micros(a.t) as real + a.reply.retryAfter.w * 1000000.0 - 1.0
  {
    var s0 := Init(n, now, usec);
    var limited := After(s0, run + [a], v);
    AfterRateLimit(n, now, usec, run, v, a);
    DueStays(limited, more, id, v);
    RunsCompose(s0, run + [a], more, v);
    BackoffIsHonoured(n, now, usec, run + [a] + more, v, b);
    LaterInMicros(b.t, limited.reqs[id].due, a.t, a.reply.retryAfter.w);
  }

  lemma AfterRateLimit(n: nat, now: TimeVal, usec: int, run: seq<Action>, v: PQ.Variant, a: Action)
    requires a.Answer? && a.reply.http == 429 && a.reply.retryAfter.Seconds? && a.reply.retryAfter.w >= 0.0
    requires var s := After(Init(n, now, usec), run, v); Enabled(s, a) && s.reqs[Task(s, a.w)].transients < 5
    ensures var id, s := Task(After(Init(n, now, usec), run, v), a.w), After(Init(n, now, usec), run + [a], v);
      id in s.reqs && NearlyNormal(s.reqs[id].due) && DueAfter(a.t, a.reply.retryAfter.w, s.reqs[id].due)
  {
    var s := After(Init(n, now, usec), run, v);
    ReachableAlive(n, now, usec, run, v);
    AnswerOutcome(s, a.w, a.reply, a.t, v);
    DueIsNearlyNormal(s, a, v);
    assert (run + [a])[..|run|] == run;
  }

  lemma LaterInMicros(b: TimeVal, due: TimeVal, t: TimeVal, seconds: real)
    requires Normal(b) && NearlyNormal(due) && Later(b, due) && seconds >= 0.0 && DueAfter(t, seconds, due)
    ensures Micros(b) as real > Micros(t) as real + seconds * 1000000.0 - 1.0
  {
    FieldOrderIsInstantOrder(b, due);
  }

  predicate AnswersTo(s: System, a: Action, id: nat) {
    a.Answer? && Enabled(s, a) && Task(s, a.w) == id
  }

  lemma DueIsNearlyNormal(s: System, a: Action, v: PQ.Variant)
    requires Alive(s) && a.Answer? && Enabled(s, a) && s.reqs[Task(s, a.w)].transients < 5
    requires a.reply.http == 429 && a.reply.retryAfter.Seconds? && a.reply.retryAfter.w >= 0.0
    ensures NearlyNormal(Step(s, a, v).reqs[Task(s, a.w)].due)
  {
    AnsweredIsLive(s, a.w);
    RateLimitDeadlineIsExact(a.t, a.reply.retryAfter.w);
  }

  lemma StepKeepsReq(s: System, a: Action, id: nat, v: PQ.Variant)
    requires id in s.reqs && !AnswersTo(s, a, id)
    ensures id in Step(s, a, v).reqs && Step(s, a, v).reqs[id] == s.reqs[id]
  {
  }

  /** Only an answer to a request changes the deadline it was given. */
  lemma {:induction false} DueStays(s: System, run: seq<Action>, id: nat, v: PQ.Variant)
    requires id in s.reqs
    requires forall k :: 0 <= k < |run| ==> !AnswersTo(After(s, run[..k], v), run[k], id)
    ensures id in After(s, run, v).reqs && After(s, run, v).reqs[id] == s.reqs[id]
  {
    if run != [] {
      var before, a := run[..|run| - 1], run[|run| - 1];
      forall k | 0 <= k < |before| ensures !AnswersTo(After(s, before[..k], v), before[k], id) {
        assert before[..k] == run[..k] && before[k] == run[k];
      }
      DueStays(s, before, id, v);
      StepKeepsReq(After(s, before, v), a, id, v);
    }
  }

  lemma UnfoldRun(s: System, a: Action, b: Action, c: Action, v: PQ.Variant)
    ensures After(s, [a], v) == Step(s, a, v)
    ensures After(s, [a, b], v) == Step(Step(s, a, v), b, v)
    ensures After(s, [a, b, c], v) == Step(Step(Step(s, a, v), b, v), c, v)
  {
    assert [a, b, c][..2] == [a, b] && [a, b][..1] == [a] && [a][..0] == [];
  }

  /** The converse: as written, any request put back behind one earlier task can be started by the worker
      that put it back, at every moment from the passing of the queued deadline up to its own. */
  lemma PutBackBehindOneStartsEarly(s: System, w: nat, k: nat, t: TimeVal)
    requires Alive(s) && OnTime(s) && Pool.Inv(s.pool, PQ.AsWritten)
    requires QueuesBehindOneEarlier(s, PutBack(w, k))
    requires AtMost(Pool.Opening(s.pool.now, s.pool.core.queue[0].waitUntil), t) && AtMost(t, s.stages[w].due)
    ensures var s' := After(s, [PutBack(w, k), Return(w), PoolOnly(Pool.CheckIn(w, t, t))], PQ.AsWritten);
      && Busy(s', w) && s'.stages[w].AtWork? && Task(s', w) == Task(s, w) && Task(s, w) in s'.reqs
      && s'.reqs[Task(s, w)].due == s.stages[w].due && s'.pool.now == t && StartedEarly(s', w)
  {
    var d := s.stages[w].due;
    var a, b, c := PutBack(w, k), Return(w), PoolOnly(Pool.CheckIn(w, t, t));
    UnfoldRun(s, a, b, c, PQ.AsWritten);
    ReturnedBehindOne(s, w, k);
    Pool.OpeningIsFirst(s.pool.now, s.pool.core.queue[0].waitUntil, t);
    var s2 := Step(Step(s, a, PQ.AsWritten), b, PQ.AsWritten);
    CheckAfterQueued(s2, w, PQ.Entry(Task(s, w), d), s.pool.core.queue[0], t);
  }

  /** A head is popped as soon as the cached deadline has passed. */
  lemma CheckAfterQueued(s: System, w: nat, e: PQ.Entry, x: PQ.Entry, t: TimeVal)
    requires s.pool.core.queue == [e, x] && !s.pool.core.stop && s.pool.core.sleepUntil == x.waitUntil
    requires w < |s.stages| == |s.pool.workers| && s.pool.workers[w] == Pool.Awake && s.stages[w] == AtWork
    requires Later(t, x.waitUntil) && AtMost(s.pool.now, t)
    ensures var s' := Step(s, PoolOnly(Pool.CheckIn(w, t, t)), PQ.AsWritten);
      && |s'.stages| == |s'.pool.workers| && s'.pool.workers[w] == Pool.Running(e) && s'.stages[w] == AtWork
      && s'.pool.now == t && s'.reqs == s.reqs
  {
  }

  lemma ReturnedBehindOne(s: System, w: nat, k: nat)
    requires Alive(s) && OnTime(s) && Pool.Inv(s.pool, PQ.AsWritten)
    requires QueuesBehindOneEarlier(s, PutBack(w, k))
    ensures var d, id := s.stages[w].due, Task(s, w);
      var s' := Step(Step(s, PutBack(w, k), PQ.AsWritten), Return(w), PQ.AsWritten);
      && s'.pool.core == s.pool.core.(queue := [PQ.Entry(id, d), s.pool.core.queue[0]])
      && |s'.stages| == |s'.pool.workers| && w < |s'.stages|
      && s'.pool.workers[w] == Pool.Awake && s'.stages[w] == AtWork && s'.pool.now == s.pool.now
      && id in s'.reqs && s'.reqs[id].due == d
  {
    AnsweredIsLive(s, w);
    assert WorkerOnTime(s, w);
    var s1 := Step(s, PutBack(w, k), PQ.AsWritten);
    assert s1.pool.core.queue == [PQ.Entry(Task(s, w), s.stages[w].due), s.pool.core.queue[0]];
    assert s1.pool.workers[w] == s.pool.workers[w];
  }

  const FIVE := TimeVal(5, 0)
  const CHECK := PoolOnly(Pool.CheckIn(0, FIVE, FIVE))
  const ONE_REQUEST := [Submit(0, true, 0), CHECK]
  const ONE_FAILS := [Answer(0, Reply(500, NotANumber), FIVE), PutBack(0, 0), Return(0)]

  /** The first worker of any pool takes up the only request. */
  lemma OneRequestIsTaken(n: nat, v: PQ.Variant)
    requires n > 0
    ensures var s := After(Init(n, FIVE, 0), ONE_REQUEST, v);
      && s.pool == Pool.State(Pool.Core([], TimeVal(-1, 0), false, n),
                              seq(n, _ => Pool.Awake)[0 := Pool.Running(PQ.Entry(0, TimeVal(0, 0)))], FIVE, Pool.Active)
      && s.stages == seq(n, _ => AtWork) && s.reqs == map[0 := Submitted(true, FIVE)]
  {
    var s0 := Init(n, FIVE, 0);
    UnfoldRun(s0, ONE_REQUEST[0], CHECK, CHECK, v);
    var s1 := Step(s0, ONE_REQUEST[0], v);
    assert s1.pool.core == Pool.Core([PQ.Entry(0, TimeVal(0, 0))], TimeVal(0, 0), false, n);
    assert s1.pool.workers == s0.pool.workers && s1.stages == s0.stages;
  }

  /** The first request is at the only worker, the second queued. */
  lemma SecondRequestWaits()
    ensures var s := After(Init(1, FIVE, 0), ONE_REQUEST + [Submit(1, true, 0)], PQ.AsWritten);
      && s.pool == Pool.State(Pool.Core([PQ.Entry(1, TimeVal(0, 0))], TimeVal(0, 0), false, 1),
                              [Pool.Running(PQ.Entry(0, TimeVal(0, 0)))], FIVE, Pool.Active)
      && s.stages == [AtWork] && 0 in s.reqs && s.reqs[0].iteration == 0
  {
    var b := Submit(1, true, 0);
    OneRequestIsTaken(1, PQ.AsWritten);
    RunsCompose(Init(1, FIVE, 0), ONE_REQUEST, [b], PQ.AsWritten);
    UnfoldRun(After(Init(1, FIVE, 0), ONE_REQUEST, PQ.AsWritten), b, b, b, PQ.AsWritten);
  }

  /** It fails and goes in front of the second, though due a second later. */
  lemma FailedRequestGoesFirst(s: System)
    requires s.pool == Pool.State(Pool.Core([PQ.Entry(1, TimeVal(0, 0))], TimeVal(0, 0), false, 1),
                                  [Pool.Running(PQ.Entry(0, TimeVal(0, 0)))], FIVE, Pool.Active)
    requires s.stages == [AtWork] && 0 in s.reqs && s.reqs[0].iteration == 0
    ensures var s' := After(s, ONE_FAILS, PQ.AsWritten);
      && s'.pool.core == Pool.Core([PQ.Entry(0, TimeVal(6, 0)), PQ.Entry(1, TimeVal(0, 0))], TimeVal(0, 0), false, 1)
      && s'.pool == Pool.State(s'.pool.core, [Pool.Awake], FIVE, Pool.Active)
      && s'.stages == [AtWork] && 0 in s'.reqs && s'.reqs[0].due == TimeVal(6, 0)
  {
    UnfoldRun(s, ONE_FAILS[0], ONE_FAILS[1], ONE_FAILS[2], PQ.AsWritten);
    var s1 := Step(s, ONE_FAILS[0], PQ.AsWritten);
    assert Power2(0) == 1 && s1.stages == [PuttingBack(TimeVal(6, 0))];
    var s2 := Step(s1, ONE_FAILS[1], PQ.AsWritten);
    assert s2.pool.core.queue == [PQ.Entry(0, TimeVal(6, 0)), PQ.Entry(1, TimeVal(0, 0))];
  }

  /** One pending request cancels the backoff of another: with one worker, at 5 s throughout, a request
      that has failed is taken up again at once, while it is due at 6 s. */
  lemma BackoffIsCancelled()
    ensures var s := After(Init(1, FIVE, 0), ONE_REQUEST + [Submit(1, true, 0)] + ONE_FAILS + [CHECK], PQ.AsWritten);
      && s.pool.workers == [Pool.Running(PQ.Entry(0, TimeVal(6, 0)))] && s.stages == [AtWork] && s.pool.now == FIVE
      && 0 in s.reqs && s.reqs[0].due == TimeVal(6, 0) && s.pool.core.queue == [PQ.Entry(1, TimeVal(0, 0))]
  {
    var s0, two := Init(1, FIVE, 0), ONE_REQUEST + [Submit(1, true, 0)];
    SecondRequestWaits();
    FailedRequestGoesFirst(After(s0, two, PQ.AsWritten));
    RunsCompose(s0, two, ONE_FAILS, PQ.AsWritten);
    RunsCompose(s0, two + ONE_FAILS, [CHECK], PQ.AsWritten);
    UnfoldRun(After(s0, two + ONE_FAILS, PQ.AsWritten), CHECK, CHECK, CHECK, PQ.AsWritten);
  }

  lemma {:induction false} RunsCompose(s: System, a: seq<Action>, b: seq<Action>, v: PQ.Variant)
    ensures After(s, a + b, v) == After(After(s, a, v), b, v)
  {
    if b == [] {
      assert a + b == a;
    } else {
      assert (a + b)[..|a + b| - 1] == a + b[..|b| - 1];
      RunsCompose(s, a, b[..|b| - 1], v);
    }
  }

  // ---------- The exact condition for backoff, over whole runs ----------

  predicate QueuesNothing(a: Action) {
    !a.Submit? && !a.PutBack?
  }

  /** Wherever the run is stopped and nothing more is queued, no worker starts a request before the
      deadline it was given has passed. */
  ghost predicate NeverCutShort(s: System, run: seq<Action>) {
    forall j, more, w {:trigger StartedEarly(After(After(s, run[..j], PQ.AsWritten), more, PQ.AsWritten), w)} ::
      0 <= j <= |run| && (forall i :: 0 <= i < |more| ==> QueuesNothing(more[i]))
      ==> !StartedEarly(After(After(s, run[..j], PQ.AsWritten), more, PQ.AsWritten), w)
  }

  lemma StepsQueueNothing(s: System, run: seq<Action>, j: nat, more: seq<Action>)
    requires NothingQueuedBehind(s, run) && j <= |run|
    requires forall i :: 0 <= i < |more| ==> QueuesNothing(more[i])
    ensures NothingQueuedBehind(s, run[..j] + more)
  {
    var all := run[..j] + more;
    forall k | 0 <= k < |all| ensures !QueuesBehindOneEarlier(After(s, all[..k], PQ.AsWritten), all[k]) {
      if k < j {
        assert all[..k] == run[..k] && all[k] == run[k];
      } else {
        assert all[k] == more[k - j];
      }
    }
  }

  lemma {:induction false} ClockAdvances(s: System, run: seq<Action>, v: PQ.Variant)
    ensures AtMost(s.pool.now, After(s, run, v).pool.now)
  {
    if run != [] {
      ClockAdvances(s, run[..|run| - 1], v);
    }
  }

  /** The first step of a run that queues behind one earlier task, given some step that does. */
  lemma {:induction false} FirstQueuedBehind(s: System, run: seq<Action>, some: nat) returns (k: nat)
    requires some < |run| && QueuesBehindOneEarlier(After(s, run[..some], PQ.AsWritten), run[some])
    ensures k < |run| && QueuesBehindOneEarlier(After(s, run[..k], PQ.AsWritten), run[k])
    ensures NothingQueuedBehind(s, run[..k])
    decreases some
  {
    var before := run[..some];
    if NothingQueuedBehind(s, before) {
      k := some;
    } else {
      var j :| 0 <= j < some && QueuesBehindOneEarlier(After(s, before[..j], PQ.AsWritten), before[j]);
      assert before[..j] == run[..j];
      k := FirstQueuedBehind(s, run, j);
    }
  }

  lemma NothingStartedEarly(n: nat, now: TimeVal, usec: int, run: seq<Action>, w: nat)
    requires NothingQueuedBehind(Init(n, now, usec), run)
    ensures !StartedEarly(After(Init(n, now, usec), run, PQ.AsWritten), w)
  {
    var s := After(Init(n, now, usec), run, PQ.AsWritten);
    ReachableOnTime(n, now, usec, run, PQ.AsWritten);
    if Busy(s, w) {
      assert WorkerOnTime(s, w);
    }
  }

  lemma Continued(s: System, run: seq<Action>, k: nat, b: Action, c: Action)
    requires k < |run|
    ensures After(After(s, run[..k + 1], PQ.AsWritten), [b, c], PQ.AsWritten)
            == After(After(s, run[..k], PQ.AsWritten), [run[k], b, c], PQ.AsWritten)
  {
    assert run[..k + 1] == run[..k] + [run[k]] && [run[k]] + [b, c] == [run[k], b, c];
    RunsCompose(s, run[..k], [run[k]], PQ.AsWritten);
    RunsCompose(After(s, run[..k], PQ.AsWritten), [run[k]], [b, c], PQ.AsWritten);
  }

  lemma AtFirstQueuedBehind(n: nat, now: TimeVal, usec: int, run: seq<Action>, k: nat)
    requires Later(now, TimeVal(0, 0)) && k < |run| && NothingQueuedBehind(Init(n, now, usec), run[..k])
    requires QueuesBehindOneEarlier(After(Init(n, now, usec), run[..k], PQ.AsWritten), run[k])
    ensures var s := After(Init(n, now, usec), run[..k], PQ.AsWritten);
      Alive(s) && OnTime(s) && Pool.Inv(s.pool, PQ.AsWritten) && run[k].PutBack?
  {
    ClockAdvances(Init(n, now, usec), run[..k], PQ.AsWritten);
    OnlyPutBacksQueueBehind(After(Init(n, now, usec), run[..k], PQ.AsWritten), run[k]);
    ReachableOnTime(n, now, usec, run[..k], PQ.AsWritten);
    ReachableAlive(n, now, usec, run[..k], PQ.AsWritten);
  }

  lemma StartedAtDeadline(s: System, a: Action) returns (b: Action, c: Action)
    requires Alive(s) && OnTime(s) && Pool.Inv(s.pool, PQ.AsWritten)
    requires a.PutBack? && QueuesBehindOneEarlier(s, a)
    ensures QueuesNothing(b) && QueuesNothing(c) && StartedEarly(After(s, [a, b, c], PQ.AsWritten), a.w)
  {
    var d := s.stages[a.w].due;
    b, c := Return(a.w), PoolOnly(Pool.CheckIn(a.w, d, d));
    PutBackBehindOneStartsEarly(s, a.w, a.woken, d);
  }

  lemma CutShortAt(s0: System, run: seq<Action>, k: nat)
    requires k < |run| && run[k].PutBack?
    requires var s := After(s0, run[..k], PQ.AsWritten);
      Alive(s) && OnTime(s) && Pool.Inv(s.pool, PQ.AsWritten) && QueuesBehindOneEarlier(s, run[k])
    ensures !NeverCutShort(s0, run)
  {
    var b, c := StartedAtDeadline(After(s0, run[..k], PQ.AsWritten), run[k]);
    Continued(s0, run, k, b, c);
    assert StartedEarly(After(After(s0, run[..k + 1], PQ.AsWritten), [b, c], PQ.AsWritten), run[k].w);
  }

  lemma CutShortAfterQueued(n: nat, now: TimeVal, usec: int, run: seq<Action>, some: nat)
    requires Later(now, TimeVal(0, 0)) && some < |run|
    requires QueuesBehindOneEarlier(After(Init(n, now, usec), run[..some], PQ.AsWritten), run[some])
    ensures !NeverCutShort(Init(n, now, usec), run)
  {
    var k := FirstQueuedBehind(Init(n, now, usec), run, some);
    AtFirstQueuedBehind(n, now, usec, run, k);
    CutShortAt(Init(n, now, usec), run, k);
  }

  /** The exact condition: as written, backoff is never cut short if and only if no put-back of the run
      was behind one earlier task. The clock has left the epoch, so no submission is. */
  lemma NeverCutShortIff(n: nat, now: TimeVal, usec: int, run: seq<Action>)
    requires Later(now, TimeVal(0, 0))
    ensures NeverCutShort(Init(n, now, usec), run) <==> NothingQueuedBehind(Init(n, now, usec), run)
  {
    var s0 := Init(n, now, usec);
    if NothingQueuedBehind(s0, run) {
      forall j, more, w | 0 <= j <= |run| && (forall i :: 0 <= i < |more| ==> QueuesNothing(more[i]))
        ensures !StartedEarly(After(After(s0, run[..j], PQ.AsWritten), more, PQ.AsWritten), w)
      {
        StepsQueueNothing(s0, run, j, more);
        RunsCompose(s0, run[..j], more, PQ.AsWritten);
        NothingStartedEarly(n, now, usec, run[..j] + more, w);
      }
    } else {
      var some :| 0 <= some < |run| && QueuesBehindOneEarlier(After(s0, run[..some], PQ.AsWritten), run[some]);
      CutShortAfterQueued(n, now, usec, run, some);
    }
  }

  // ---------- Reading a request after putting it back ----------

  /** A worker that has put a request back reads it again before it returns. */
  predicate StillReads(s: System, w: nat) {
    Busy(s, w) && s.stages[w].GivenBack?
  }

  /** It does so after another worker has completed and freed the request. */
  predicate ReadsFreed(s: System, w: nat) {
    StillReads(s, w) && Task(s, w) in s.reqs && s.reqs[Task(s, w)].phase.Done?
  }

  ghost predicate ReadersAreSafe(s: System) {
    forall w :: 0 <= w < |s.stages| && StillReads(s, w) ==> Queued(s.pool.core.queue, Task(s, w)) > 0
  }

  /** A worker takes up the request that worker `w` has put back and still reads. */
  predicate TakesFrom(s: System, a: Action, w: nat) {
    && a.PoolOnly? && a.a.CheckIn? && Enabled(s, a) && StillReads(s, w)
    && match Pool.Check(s.pool.core, a.a.t1, a.a.t2).1
       case Work(e) => Task(s, w) == e.data
       case _ => false
  }

  predicate TakesWhatIsRead(s: System, a: Action) {
    exists w :: 0 <= w < |s.stages| && TakesFrom(s, a, w)
  }

  lemma SafeReadersReadNothingFreed(s: System, w: nat)
    requires Alive(s) && ReadersAreSafe(s)
    ensures !ReadsFreed(s, w)
  {
    if StillReads(s, w) {
      assert Places(s, Task(s, w)) > 0;
    }
  }

  lemma PutBackKeepsReadersSafe(s: System, w: nat, k: nat, v: PQ.Variant)
    requires Alive(s) && ReadersAreSafe(s) && Enabled(s, PutBack(w, k))
    ensures ReadersAreSafe(Step(s, PutBack(w, k), v))
  {
    var s', e := Step(s, PutBack(w, k), v), PQ.Entry(Task(s, w), s.stages[w].due);
    forall x | 0 <= x < |s'.stages| && StillReads(s', x) ensures Queued(s'.pool.core.queue, Task(s', x)) > 0 {
      assert s'.pool.workers[x] == s.pool.workers[x];
      QueuedAfterPush(s.pool.core.queue, e, v, Task(s', x));
      assert x != w ==> StillReads(s, x);
    }
  }

  lemma SubmitKeepsReadersSafe(s: System, a: Action, v: PQ.Variant)
    requires Alive(s) && ReadersAreSafe(s) && a.Submit? && Enabled(s, a)
    ensures ReadersAreSafe(Step(s, a, v))
  {
    var s' := Step(s, a, v);
    forall x | 0 <= x < |s'.stages| && StillReads(s', x) ensures Queued(s'.pool.core.queue, Task(s', x)) > 0 {
      assert s'.pool.workers[x] == s.pool.workers[x] && StillReads(s, x);
      QueuedAfterPush(s.pool.core.queue, PQ.Entry(a.id, TimeVal(0, 0)), v, Task(s, x));
    }
  }

  lemma CheckKeepsReadersSafeIff(s: System, a: Action, v: PQ.Variant)
    requires Alive(s) && ReadersAreSafe(s) && a.PoolOnly? && a.a.CheckIn? && Enabled(s, a)
    ensures ReadersAreSafe(Step(s, a, v)) <==> !TakesWhatIsRead(s, a)
  {
    var s', o := Step(s, a, v), Pool.Check(s.pool.core, a.a.t1, a.a.t2).1;
    forall x | 0 <= x < |s.stages| ensures StillReads(s', x) <==> StillReads(s, x)
      ensures StillReads(s, x) ==> Task(s', x) == Task(s, x)
    {
    }
    if o.Work? {
      assert Places(s, o.e.data) <= 1 && s.pool.core.queue[0] == o.e;
      if w :| 0 <= w < |s.stages| && TakesFrom(s, a, w) {
        assert Queued(s'.pool.core.queue, Task(s', w)) == 0;
        assert !ReadersAreSafe(s');
      } else {
        forall x | 0 <= x < |s'.stages| && StillReads(s', x) ensures Queued(s'.pool.core.queue, Task(s', x)) > 0 {
          assert !TakesFrom(s, a, x);
        }
      }
    }
  }

  /** Readers are safe until, and only until, what one of them still reads is taken up. */
  lemma ReadersStaySafeIff(s: System, a: Action, v: PQ.Variant)
    requires Alive(s) && ReadersAreSafe(s)
    ensures ReadersAreSafe(Step(s, a, v)) <==> !TakesWhatIsRead(s, a)
  {
    if Enabled(s, a) {
      match a
      case Submit(_, _, _) => SubmitKeepsReadersSafe(s, a, v);
      case Answer(w, _, _) => QuietStepKeepsReadersSafe(s, a, v);
      case PutBack(w, k) => PutBackKeepsReadersSafe(s, w, k, v);
      case Return(w) => QuietStepKeepsReadersSafe(s, a, v);
      case PoolOnly(pa) =>
        if pa.CheckIn? {
          CheckKeepsReadersSafeIff(s, a, v);
        } else {
          QuietStepKeepsReadersSafe(s, a, v);
        }
    }
  }

  lemma QuietStepKeepsReadersSafe(s: System, a: Action, v: PQ.Variant)
    requires Alive(s) && ReadersAreSafe(s) && Enabled(s, a)
    requires a.Answer? || a.Return? || (a.PoolOnly? && !a.a.CheckIn?)
    ensures ReadersAreSafe(Step(s, a, v))
  {
    var s' := Step(s, a, v);
    forall x | 0 <= x < |s'.stages| && StillReads(s', x) ensures Queued(s'.pool.core.queue, Task(s', x)) > 0 {
      assert StillReads(s, x) && Task(s', x) == Task(s, x);
    }
  }

  predicate NothingReadIsTaken(s: System, run: seq<Action>, v: PQ.Variant) {
    forall k :: 0 <= k < |run| ==> !TakesWhatIsRead(After(s, run[..k], v), run[k])
  }

  /** No worker reads a freed request in any run in which no request is taken up while the worker that
      put it back has not returned. */
  lemma {:induction false} NothingFreedIsRead(n: nat, now: TimeVal, usec: int, run: seq<Action>, v: PQ.Variant)
    requires NothingReadIsTaken(Init(n, now, usec), run, v)
    ensures ReadersAreSafe(After(Init(n, now, usec), run, v))
    ensures forall w :: !ReadsFreed(After(Init(n, now, usec), run, v), w)
  {
    var s0 := Init(n, now, usec);
    if run != [] {
      var before := run[..|run| - 1];
      assert forall k :: 0 <= k < |before| ==> before[..k] == run[..k];
      NothingFreedIsRead(n, now, usec, before, v);
      ReachableAlive(n, now, usec, before, v);
      ReadersStaySafeIff(After(s0, before, v), run[|run| - 1], v);
    }
    ReachableAlive(n, now, usec, run, v);
    forall w ensures !ReadsFreed(After(s0, run, v), w) {
      SafeReadersReadNothingFreed(After(s0, run, v), w);
    }
  }

  lemma TakenUp(s: System, a: Action, w: nat, v: PQ.Variant)
    requires Alive(s) && TakesFrom(s, a, w)
    ensures var s1 := Step(s, a, v);
      && Alive(s1) && s1.pool.now == a.a.t2 && w != a.a.w
      && Busy(s1, a.a.w) && s1.stages[a.a.w].AtWork? && StillReads(s1, w) && Task(s1, w) == Task(s1, a.a.w)
  {
    StepKeepsAlive(s, a, v);
  }

  lemma FreedByAnswer(s: System, x: nat, w: nat, t: TimeVal, v: PQ.Variant)
    requires Alive(s) && AtMost(s.pool.now, t) && Normal(t) && x != w
    requires Busy(s, x) && s.stages[x].AtWork? && StillReads(s, w) && Task(s, w) == Task(s, x)
    ensures ReadsFreed(Step(s, Answer(x, Reply(200, NotANumber), t), v), w)
  {
    AnsweredIsLive(s, x);
  }

  /** And once a request is taken up like that, one successful answer to it is enough. */
  lemma TakenWhileReadCanBeFreed(s: System, a: Action, w: nat, t: TimeVal, v: PQ.Variant)
    requires Alive(s) && TakesFrom(s, a, w) && AtMost(a.a.t2, t) && Normal(t)
    ensures ReadsFreed(After(s, [a, Answer(a.a.w, Reply(200, NotANumber), t)], v), w)
  {
    TakenUp(s, a, w, v);
    FreedByAnswer(Step(s, a, v), a.a.w, w, t, v);
    var b := Answer(a.a.w, Reply(200, NotANumber), t);
    UnfoldRun(s, a, b, b, v);
  }

  const SEVEN := TimeVal(7, 0)
  const LATE_CHECK := PoolOnly(Pool.CheckIn(1, SEVEN, SEVEN))
  const FAILS := [Answer(0, Reply(500, NotANumber), FIVE), PutBack(0, 0)]

  /** It fails and is put back; the worker still reads it, and the second one can take it up. */
  lemma FailedRequestIsRead(s: System, n: nat, v: PQ.Variant)
    requires n >= 2
    requires var workers := seq(n, _ => Pool.Awake)[0 := Pool.Running(PQ.Entry(0, TimeVal(0, 0)))];
      s.pool == Pool.State(Pool.Core([], TimeVal(-1, 0), false, n), workers, FIVE, Pool.Active)
    requires s.stages == seq(n, _ => AtWork) && 0 in s.reqs && s.reqs[0].iteration == 0
    ensures TakesFrom(After(s, FAILS, v), LATE_CHECK, 0)
  {
    UnfoldRun(s, FAILS[0], FAILS[1], FAILS[1], v);
    var s1 := Step(s, FAILS[0], v);
    assert Power2(0) == 1 && s1.stages == s.stages[0 := PuttingBack(TimeVal(6, 0))];
    assert forall k :: 0 <= k < n ==> !Pool.Asleep(s1.pool.workers[k]);
    var s2 := Step(s1, FAILS[1], v);
    assert s2.pool.core == Pool.Core([PQ.Entry(0, TimeVal(6, 0))], TimeVal(6, 0), false, n);
    assert s2.pool.workers[0] == s.pool.workers[0] && s2.pool.workers[1] == Pool.Awake;
  }

  /** It happens, with any two workers or more: a request that fails at 5 s is put back, taken up by the
      second worker at 7 s and answered, all before the first worker returns. */
  lemma FreedRequestIsRead(n: nat, v: PQ.Variant)
    requires n >= 2
    ensures ReadsFreed(After(Init(n, FIVE, 0),
                             ONE_REQUEST + FAILS + [LATE_CHECK, Answer(1, Reply(200, NotANumber), SEVEN)], v), 0)
  {
    var s0 := Init(n, FIVE, 0);
    OneRequestIsTaken(n, v);
    FailedRequestIsRead(After(s0, ONE_REQUEST, v), n, v);
    RunsCompose(s0, ONE_REQUEST, FAILS, v);
    RunsCompose(s0, ONE_REQUEST + FAILS, [LATE_CHECK, Answer(1, Reply(200, NotANumber), SEVEN)], v);
    ReachableAlive(n, FIVE, 0, ONE_REQUEST + FAILS, v);
    TakenWhileReadCanBeFreed(After(s0, ONE_REQUEST + FAILS, v), LATE_CHECK, 0, SEVEN, v);
  }

  lemma {:induction false} WorkersStay(n: nat, now: TimeVal, usec: int, run: seq<Action>, v: PQ.Variant)
    ensures |After(Init(n, now, usec), run, v).pool.workers| == n
  {
    if run != [] {
      WorkersStay(n, now, usec, run[..|run| - 1], v);
    }
  }

  lemma OneWorkerReadsNothingFreed(n: nat, now: TimeVal, usec: int, run: seq<Action>, w: nat, v: PQ.Variant)
    requires n < 2
    ensures !ReadsFreed(After(Init(n, now, usec), run, v), w)
  {
    forall k | 0 <= k < |run| ensures !TakesWhatIsRead(After(Init(n, now, usec), run[..k], v), run[k]) {
      WorkersStay(n, now, usec, run[..k], v);
    }
    NothingFreedIsRead(n, now, usec, run, v);
  }

  ghost predicate SomeRunReadsFreed(n: nat, v: PQ.Variant) {
    exists now: TimeVal, usec: int, run: seq<Action>, w: nat :: ReadsFreed(After(Init(n, now, usec), run, v), w)
  }

  /** The number of threads decides: a freed request is read in some run of the pool exactly if it has
      two workers or more. */
  lemma FreedIsReadIffTwoWorkers(n: nat, v: PQ.Variant)
    ensures SomeRunReadsFreed(n, v) <==> n >= 2
  {
    if n >= 2 {
      FreedRequestIsRead(n, v);
    } else if SomeRunReadsFreed(n, v) {
      var now: TimeVal, usec: int, run: seq<Action>, w: nat :| ReadsFreed(After(Init(n, now, usec), run, v), w);
      OneWorkerReadsNothingFreed(n, now, usec, run, w, v);
    }
  }
}
