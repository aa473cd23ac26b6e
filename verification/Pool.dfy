/** The thread pool as a protocol: what each lock-held region does to the shared fields, and
    every interleaving of workers, adders, the clock and the destroying thread. */
module Pool {
  import opened Time
  import opened PrioQueue

  // ---------- The shared fields and the lock-held regions ----------

  datatype Core = Core(queue: seq<Entry>, sleepUntil: TimeVal, stop: bool, threadCount: int)

  /** `sleepUntil` holds no deadline. */
  predicate Unset(t: TimeVal) {
    t.sec == -1
  }

  /** `t_pool_add_work`. */
  function AddWork(c: Core, e: Entry, v: Variant): Core {
    c.(queue := Pushed(c.queue, e, v),
       sleepUntil := if Unset(c.sleepUntil) || Later(c.sleepUntil, e.waitUntil)
                     then e.waitUntil else c.sleepUntil)
  }

  /** `t_pool_pop_work` on a queue with a head. */
  function PopWork(c: Core): Core
    requires c.queue != []
  {
    var rest := c.queue[1..];
    c.(queue := rest,
       sleepUntil := if rest == [] then c.sleepUntil.(sec := -1) else rest[0].waitUntil)
  }

  /** What a worker does after one pass through its lock-held check. */
  datatype Outcome = Sleep | SleepUntil(t: TimeVal) | CheckAgain | Quit | Work(e: Entry)

  /** One pass of the worker's check.  The clock is read once by the outer condition (`t1`) and
      again by the inner one (`t2`).  A deadline that the timed wait rejects makes it return at
      once, with the lock held again. */
  function Check(c: Core, t1: TimeVal, t2: TimeVal): (Core, Outcome) {
    if c.stop then
      (c.(threadCount := c.threadCount - 1), Quit)
    else if AtMost(t1, c.sleepUntil) || c.queue == [] then
      if c.queue != [] && AtMost(t2, c.sleepUntil) then
        (c, if WaitAccepts(ToTimeSpec(c.sleepUntil)) then SleepUntil(c.sleepUntil) else CheckAgain)
      else
        (c, Sleep)
    else
      (PopWork(c), Work(c.queue[0]))
  }

  // ---------- The protocol ----------

  /** `Awake` workers are about to take the lock: just started, back from work, or woken. */
  datatype Worker = Awake | Waiting | TimedWaiting(until: TimeVal) | Running(task: Entry) | Exited

  /** The thread that destroys the pool and waits for the workers. */
  datatype Owner = Active | Joining | Blocked | Joined

  datatype State = State(core: Core, workers: seq<Worker>, now: TimeVal, owner: Owner)

  datatype Action =
    | Tick(t: TimeVal)
    | Add(e: Entry, woken: nat)
    | CheckIn(w: nat, t1: TimeVal, t2: TimeVal)
    | Finish(w: nat)
    | Wake(w: nat)
    | Destroy
    | OwnerCheck
    | OwnerWake

  function Init(threads: nat, now: TimeVal, usec: int): State {
    State(Core([], TimeVal(-1, usec), false, threads), seq(threads, _ => Awake), now, Active)
  }

  predicate Asleep(w: Worker) {
    w.Waiting? || w.TimedWaiting?
  }

  /** A signal wakes one sleeping worker, chosen by the scheduler, if there is any. */
  predicate SignalMayWake(ws: seq<Worker>, k: nat) {
    (exists i :: 0 <= i < |ws| && Asleep(ws[i])) ==> k < |ws| && Asleep(ws[k])
  }

  function Signal(ws: seq<Worker>, k: nat): seq<Worker> {
    if k < |ws| && Asleep(ws[k]) then ws[k := Awake] else ws
  }

  function Broadcast(ws: seq<Worker>): (r: seq<Worker>)
    ensures |r| == |ws|
    ensures forall i :: 0 <= i < |ws| ==> r[i] == if Asleep(ws[i]) then Awake else ws[i]
  {
    seq(|ws|, i requires 0 <= i < |ws| => if Asleep(ws[i]) then Awake else ws[i])
  }

  /** `Wake` covers timeouts and spurious wakeups alike, so it is never refused a sleeper. */
  predicate Enabled(s: State, a: Action) {
    match a
    case Tick(t) => AtMost(s.now, t)
    case Add(e, k) => !s.core.stop && e.waitUntil.sec >= 0 && SignalMayWake(s.workers, k)
    case CheckIn(w, t1, t2) => w < |s.workers| && s.workers[w].Awake? && AtMost(s.now, t1) && AtMost(t1, t2)
    case Finish(w) => w < |s.workers| && s.workers[w].Running?
    case Wake(w) => w < |s.workers| && Asleep(s.workers[w])
    case Destroy => s.owner.Active?
    case OwnerCheck => s.owner.Joining?
    case OwnerWake => s.owner.Blocked?
  }

  /** What the workers themselves do. */
  predicate WorkerAction(a: Action) {
    a.CheckIn? || a.Finish? || a.Wake?
  }

  function AfterCheck(o: Outcome): Worker {
    match o
    case Sleep => Waiting
    case SleepUntil(t) => TimedWaiting(t)
    case CheckAgain => Awake
    case Quit => Exited
    case Work(e) => Running(e)
  }

  function Apply(s: State, a: Action, v: Variant): State
    requires Enabled(s, a)
  {
    match a
    case Tick(t) => s.(now := t)
    case Add(e, k) => s.(core := AddWork(s.core, e, v), workers := Signal(s.workers, k))
    case CheckIn(w, t1, t2) =>
      var (c, o) := Check(s.core, t1, t2);
      s.(core := c, workers := s.workers[w := AfterCheck(o)], now := t2,
         owner := if o.Quit? && s.owner.Blocked? then Joining else s.owner)
    case Finish(w) => s.(workers := s.workers[w := Awake])
    case Wake(w) => s.(workers := s.workers[w := Awake])
    case Destroy => s.(core := s.core.(stop := true), workers := Broadcast(s.workers), owner := Joining)
    case OwnerCheck => s.(owner := if s.core.threadCount > 0 then Blocked else Joined)
    case OwnerWake => s.(owner := Joining)
  }

  /** An action that is not possible leaves the state alone, so every action list is a run. */
  function Step(s: State, a: Action, v: Variant): State {
    if Enabled(s, a) then Apply(s, a, v) else s
  }

  function After(s: State, run: seq<Action>, v: Variant): State {
    if run == [] then s else Step(After(s, run[..|run| - 1], v), run[|run| - 1], v)
  }

  // ---------- The invariant of every reachable state ----------

  function Alive(ws: seq<Worker>): nat {
    if ws == [] then 0 else (if ws[0].Exited? then 0 else 1) + Alive(ws[1..])
  }

  /** The cached deadline: unset exactly on an empty queue; otherwise the deadline of the head,
      or, as written, possibly that of the last task, and never later than the head's. */
  ghost predicate SleepAgrees(c: Core, v: Variant) {
    && (Unset(c.sleepUntil) <==> c.queue == [])
    && (forall e :: e in c.queue ==> e.waitUntil.sec >= 0)
    && (c.queue != [] ==>
          && AtMost(c.sleepUntil, c.queue[0].waitUntil)
          && (|| c.sleepUntil == c.queue[0].waitUntil
              || (v.AsWritten? && c.sleepUntil == c.queue[|c.queue| - 1].waitUntil)))
    && (v.Repaired? ==> DeadlineSorted(c.queue))
  }

  ghost predicate ShutdownAgrees(s: State) {
    && s.core.threadCount == Alive(s.workers)
    && (s.core.stop <==> !s.owner.Active?)
    && (forall i :: 0 <= i < |s.workers| ==> if s.core.stop then !Asleep(s.workers[i]) else !s.workers[i].Exited?)
    && (s.owner.Blocked? ==> s.core.threadCount > 0)
    && (s.owner.Joined? ==> s.core.threadCount == 0)
  }

  ghost predicate Inv(s: State, v: Variant) {
    SleepAgrees(s.core, v) && ShutdownAgrees(s)
  }

  lemma PushedStaysSorted(q: seq<Entry>, e: Entry)
    requires DeadlineSorted(q)
    ensures DeadlineSorted(Pushed(q, e, Repaired))
  {
    SlotMeaning(q, e.waitUntil, Repaired);
    InsertKeepsSorted(q, e, Slot(q, e.waitUntil, Repaired));
  }

  lemma AddKeepsSleepAgreement(c: Core, e: Entry, v: Variant)
    requires SleepAgrees(c, v) && e.waitUntil.sec >= 0
    ensures SleepAgrees(AddWork(c, e, v), v)
  {
    var q, r := c.queue, Pushed(c.queue, e, v);
    var i := Slot(q, e.waitUntil, v);
    SlotMeaning(q, e.waitUntil, v);
    if v.Repaired? {
      PushedStaysSorted(q, e);
    }
    assert forall x :: x in r ==> x == e || x in q;
    if q != [] {
      assert r[0] == if i == 0 then e else q[0];
      assert r[|r| - 1] == if i == |q| then e else q[|q| - 1];
    }
  }

  lemma AliveAfterUpdate(ws: seq<Worker>, i: nat, w: Worker)
    requires i < |ws|
    ensures Alive(ws[i := w]) == Alive(ws) - (if ws[i].Exited? then 0 else 1) + (if w.Exited? then 0 else 1)
  {
    if i == 0 {
      assert ws[i := w][1..] == ws[1..];
    } else {
      AliveAfterUpdate(ws[1..], i - 1, w);
      assert ws[i := w][1..] == ws[1..][i - 1 := w];
    }
  }

  lemma AliveAfterBroadcast(ws: seq<Worker>)
    ensures Alive(Broadcast(ws)) == Alive(ws)
  {
    if ws != [] {
      AliveAfterBroadcast(ws[1..]);
      assert Broadcast(ws)[1..] == Broadcast(ws[1..]);
    }
  }

  lemma {:induction false} AliveOfFresh(n: nat)
    ensures Alive(seq(n, _ => Awake)) == n
  {
    if n > 0 {
      AliveOfFresh(n - 1);
      assert seq(n, _ => Awake)[1..] == seq(n - 1, _ => Awake);
    }
  }

  lemma {:induction false} AliveZeroIff(ws: seq<Worker>)
    ensures Alive(ws) == 0 <==> forall i :: 0 <= i < |ws| ==> ws[i].Exited?
  {
    if ws != [] {
      AliveZeroIff(ws[1..]);
      assert forall i :: 0 < i < |ws| ==> ws[i] == ws[1..][i - 1];
      assert forall i :: 0 <= i < |ws| - 1 ==> ws[1..][i] == ws[i + 1];
    }
  }

  lemma PopKeepsSleepAgreement(c: Core, v: Variant)
    requires SleepAgrees(c, v) && c.queue != []
    ensures SleepAgrees(PopWork(c), v)
  {
    var rest := c.queue[1..];
    assert forall i :: 0 <= i < |rest| ==> rest[i] == c.queue[i + 1];
  }

  lemma StepKeepsSleepAgreement(s: State, a: Action, v: Variant)
    requires SleepAgrees(s.core, v)
    ensures SleepAgrees(Step(s, a, v).core, v)
  {
    if Enabled(s, a) {
      if a.Add? {
        AddKeepsSleepAgreement(s.core, a.e, v);
      } else if a.CheckIn? && Check(s.core, a.t1, a.t2).1.Work? {
        PopKeepsSleepAgreement(s.core, v);
      }
    }
  }

  lemma CheckKeepsShutdownAgreement(s: State, w: nat, t1: TimeVal, t2: TimeVal, v: Variant)
    requires ShutdownAgrees(s) && Enabled(s, CheckIn(w, t1, t2))
    ensures ShutdownAgrees(Step(s, CheckIn(w, t1, t2), v))
  {
    AliveAfterUpdate(s.workers, w, AfterCheck(Check(s.core, t1, t2).1));
  }

  lemma StepKeepsShutdownAgreement(s: State, a: Action, v: Variant)
    requires ShutdownAgrees(s)
    ensures ShutdownAgrees(Step(s, a, v))
  {
    if Enabled(s, a) {
      match a
      case Tick(t) =>
      case Add(e, k) => if k < |s.workers| { AliveAfterUpdate(s.workers, k, Awake); }
      case CheckIn(w, t1, t2) => CheckKeepsShutdownAgreement(s, w, t1, t2, v);
      case Finish(w) => AliveAfterUpdate(s.workers, w, Awake);
      case Wake(w) => AliveAfterUpdate(s.workers, w, Awake);
      case Destroy => AliveAfterBroadcast(s.workers);
      case OwnerCheck =>
      case OwnerWake =>
    }
  }

  /** Every state of every run of a pool of any size agrees with its cached deadline and with
      its thread count. */
  lemma {:induction false} ReachableInv(n: nat, now: TimeVal, usec: int, run: seq<Action>, v: Variant)
    ensures Inv(After(Init(n, now, usec), run, v), v)
  {
    if run == [] {
      AliveOfFresh(n);
    } else {
      ReachableInv(n, now, usec, run[..|run| - 1], v);
      var s := After(Init(n, now, usec), run[..|run| - 1], v);
      StepKeepsSleepAgreement(s, run[|run| - 1], v);
      StepKeepsShutdownAgreement(s, run[|run| - 1], v);
    }
  }

  // ---------- When a pop happens ----------

  /** The deadlines the guard of the check goes by. */
  predicate Opens(c: Core, t1: TimeVal) {
    !c.stop && c.queue != [] && !AtMost(t1, c.sleepUntil)
  }

  /** A pop happens only when the head or, as written, the oldest task is due; and it happens at
      every check made after the head's deadline. */
  lemma PopMeansSomethingIsDue(s: State, v: Variant, t1: TimeVal, t2: TimeVal)
    requires Inv(s, v)
    ensures var q := s.core.queue;
      Check(s.core, t1, t2).1.Work? ==>
        q != [] && (!AtMost(t1, q[0].waitUntil) || (v.AsWritten? && !AtMost(t1, q[|q| - 1].waitUntil)))
    ensures !s.core.stop && s.core.queue != [] && !AtMost(t1, s.core.queue[0].waitUntil)
            ==> Check(s.core, t1, t2) == (PopWork(s.core), Work(s.core.queue[0]))
  {
  }

  /** The clock is that of the last reading, and never goes back. */
  lemma ClockIsLastReading(s: State, a: Action, v: Variant)
    ensures var now := Step(s, a, v).now;
      && AtMost(s.now, now)
      && (Enabled(s, a) && a.Tick? ==> now == a.t) && (Enabled(s, a) && a.CheckIn? ==> now == a.t2)
      && (!a.Tick? && !a.CheckIn? ==> now == s.now)
  {
  }

  // ---------- When a worker sleeps ----------

  predicate NotPast(t: TimeVal, deadline: TimeVal) {
    t.sec < deadline.sec || (t.sec == deadline.sec && t.usec <= deadline.usec)
  }

  /** What a worker does after a check of a running pool, told by the queue, the cached deadline and the
      two readings. On an empty queue it sleeps without a timeout. If the deadline is past in the first
      reading it works on the head. If it is past in neither it sleeps until exactly that deadline,
      unless its microseconds are a full million, which keeps it awake. If it passes in between, it
      sleeps without a timeout. */
  lemma CheckPutsToSleep(s: State, w: nat, t1: TimeVal, t2: TimeVal, v: Variant)
    requires Enabled(s, CheckIn(w, t1, t2)) && !s.core.stop
    ensures var after, d := Step(s, CheckIn(w, t1, t2), v).workers[w], s.core.sleepUntil;
      if s.core.queue == [] then after == Waiting
      else if !NotPast(t1, d) then after == Running(s.core.queue[0])
      else if !NotPast(t2, d) then after == Waiting
      else (0 <= d.usec <= 999_999 ==> after == TimedWaiting(d)) && (d.usec == 1_000_000 ==> after == Awake)
  {
  }

  predicate LeavesAsleep(a: Action, w: nat) {
    a != Wake(w) && !a.Destroy? && (a.Add? ==> a.woken != w)
  }

  /** A sleeping worker stays as it is and makes no check, until it is woken, by a timeout or else, an
      adder signals it or the pool is destroyed. */
  lemma {:induction false} SleeperMakesNoCheck(s: State, w: nat, run: seq<Action>, v: Variant)
    requires w < |s.workers| && Asleep(s.workers[w]) && forall k :: 0 <= k < |run| ==> LeavesAsleep(run[k], w)
    ensures |After(s, run, v).workers| == |s.workers| && After(s, run, v).workers[w] == s.workers[w]
    ensures forall t1, t2 :: !Enabled(After(s, run, v), CheckIn(w, t1, t2))
  {
    if run != [] {
      SleeperMakesNoCheck(s, w, run[..|run| - 1], v);
    }
  }

  // ---------- Which submissions let a task start early ----------

  /** The cached deadline is the head's. */
  predicate InStep(c: Core) {
    c.queue != [] ==> c.sleepUntil == c.queue[0].waitUntil
  }

  /** An add takes the cached deadline out of step exactly if one task is queued and the new one is
      later; a pop always brings it back. */
  lemma AddKeepsInStepIff(c: Core, e: Entry)
    requires SleepAgrees(c, AsWritten) && InStep(c) && e.waitUntil.sec >= 0
    ensures InStep(AddWork(c, e, AsWritten)) <==> !(|c.queue| == 1 && Later(e.waitUntil, c.queue[0].waitUntil))
  {
    SlotMeaning(c.queue, e.waitUntil, AsWritten);
    if c.queue != [] {
      assert Pushed(c.queue, e, AsWritten)[0] ==
        if Slot(c.queue, e.waitUntil, AsWritten) == 0 then e else c.queue[0];
    }
  }

  lemma PopRestoresStep(c: Core)
    requires c.queue != []
    ensures InStep(PopWork(c))
  {
  }

  /** Early is before the deadline or, unless `strict`, at it: the pool takes a deadline that is now
      for one still to come. */
  predicate Early(t: TimeVal, deadline: TimeVal, strict: bool) {
    if strict then Later(deadline, t) else AtMost(t, deadline)
  }

  /** The first moment from now on at which the cached deadline has passed. */
  function Opening(now: TimeVal, cached: TimeVal): TimeVal {
    var next := TimeVal(cached.sec, cached.usec + 1);
    if AtMost(now, next) then next else now
  }

  lemma OpeningIsFirst(now: TimeVal, cached: TimeVal, t: TimeVal)
    ensures AtMost(now, t) && Later(t, cached) <==> AtMost(Opening(now, cached), t)
  {
  }

  /** Adding a task, when exactly one is queued, so that the deadline of that one passes while the new
      one is still early. This can be checked before the call. */
  predicate AddsBehindOneEarlier(s: State, a: Action, strict: bool) {
    && a.Add? && Enabled(s, a) && |s.core.queue| == 1
    && Early(Opening(s.now, s.core.queue[0].waitUntil), a.e.waitUntil, strict)
  }

  /** In other words: the new task is due later, and not in the past; and, if the start is to be
      strictly early, it is due in the future and more than a microsecond later. */
  lemma BehindOneEarlierMeans(s: State, a: Action)
    requires a.Add? && Enabled(s, a) && |s.core.queue| == 1
    ensures var d, q := a.e.waitUntil, s.core.queue[0].waitUntil;
      && (AddsBehindOneEarlier(s, a, false) <==> Later(d, q) && AtMost(s.now, d))
      && (AddsBehindOneEarlier(s, a, true) <==> Later(d, TimeVal(q.sec, q.usec + 1)) && Later(d, s.now))
  {
  }

  /** A check that pops a task early. */
  predicate StartsEarly(s: State, a: Action, strict: bool) {
    a.CheckIn? && Enabled(s, a)
    && match Check(s.core, a.t1, a.t2).1 case Work(e) => Early(a.t1, e.waitUntil, strict) case _ => false
  }

  /** The head is not early any more by the time the cached deadline has passed. */
  predicate Punctual(s: State, strict: bool) {
    s.core.queue != [] ==> !Early(Opening(s.now, s.core.sleepUntil), s.core.queue[0].waitUntil, strict)
  }

  lemma AddStaysPunctualIff(s: State, a: Action, strict: bool)
    requires Inv(s, AsWritten) && Punctual(s, strict) && a.Add? && Enabled(s, a)
    ensures Punctual(Step(s, a, AsWritten), strict) <==> !AddsBehindOneEarlier(s, a, strict)
  {
    var q, t := s.core.queue, a.e.waitUntil;
    SlotMeaning(q, t, AsWritten);
    if q != [] {
      assert Pushed(q, a.e, AsWritten)[0] == if Slot(q, t, AsWritten) == 0 then a.e else q[0];
    }
  }

  /** Of all steps of all threads, only such an add makes a pool unpunctual. */
  lemma StepStaysPunctualIff(s: State, a: Action, strict: bool)
    requires Inv(s, AsWritten) && Punctual(s, strict)
    ensures Punctual(Step(s, a, AsWritten), strict) <==> !AddsBehindOneEarlier(s, a, strict)
  {
    if Enabled(s, a) {
      match a
      case Tick(t) =>
      case Add(e, k) => AddStaysPunctualIff(s, a, strict);
      case CheckIn(w, t1, t2) => if Check(s.core, t1, t2).1.Work? { PopRestoresStep(s.core); }
      case Finish(w) =>
      case Wake(w) =>
      case Destroy =>
      case OwnerCheck =>
      case OwnerWake =>
    }
  }

  predicate NothingAddedBehindOneEarlier(s: State, run: seq<Action>, strict: bool) {
    forall k :: 0 <= k < |run| ==> !AddsBehindOneEarlier(After(s, run[..k], AsWritten), run[k], strict)
  }

  lemma {:induction false} StaysPunctual(n: nat, now: TimeVal, usec: int, run: seq<Action>, strict: bool)
    requires NothingAddedBehindOneEarlier(Init(n, now, usec), run, strict)
    ensures Punctual(After(Init(n, now, usec), run, AsWritten), strict)
  {
    if run != [] {
      var before, s0 := run[..|run| - 1], Init(n, now, usec);
      assert forall k :: 0 <= k < |before| ==> before[..k] == run[..k];
      StaysPunctual(n, now, usec, before, strict);
      ReachableInv(n, now, usec, before, AsWritten);
      StepStaysPunctualIff(After(s0, before, AsWritten), run[|run| - 1], strict);
    }
  }

  lemma PunctualStartsNothingEarly(s: State, a: Action, strict: bool)
    requires Punctual(s, strict)
    ensures !StartsEarly(s, a, strict)
  {
    if a.CheckIn? && Enabled(s, a) {
      OpeningIsFirst(s.now, s.core.sleepUntil, a.t1);
    }
  }

  /** As written, no run without such an add ever starts a task early. */
  lemma PunctualRunsStartNothingEarly(n: nat, now: TimeVal, usec: int, run: seq<Action>, a: Action, strict: bool)
    requires NothingAddedBehindOneEarlier(Init(n, now, usec), run, strict)
    ensures !StartsEarly(After(Init(n, now, usec), run, AsWritten), a, strict)
  {
    StaysPunctual(n, now, usec, run, strict);
    PunctualStartsNothingEarly(After(Init(n, now, usec), run, AsWritten), a, strict);
  }

  /** And right after any such add the task just added can be started at every moment `t` from the
      passing of the queued deadline up to its own: some worker gets there in at most two steps. */
  lemma AddBehindOneEarlierStartsEarly(s: State, a: Action, t: TimeVal, strict: bool) returns (more: seq<Action>)
    requires Inv(s, AsWritten) && |s.workers| > 0 && AddsBehindOneEarlier(s, a, strict)
    requires AtMost(Opening(s.now, s.core.queue[0].waitUntil), t) && Early(t, a.e.waitUntil, strict)
    ensures 1 <= |more| <= 2 && forall i :: 0 <= i < |more| ==> WorkerAction(more[i])
    ensures var s' := Step(s, a, AsWritten);
      && more[|more| - 1] == CheckIn(0, t, t)
      && StartsEarly(After(s', more[..|more| - 1], AsWritten), more[|more| - 1], strict)
      && After(s', more, AsWritten).workers[0] == Running(a.e)
  {
    OpeningIsFirst(s.now, s.core.queue[0].waitUntil, t);
    var s', check := Step(s, a, AsWritten), CheckIn(0, t, t);
    assert s'.core.queue == [a.e, s.core.queue[0]];
    assert !s.workers[0].Exited? && !s'.workers[0].Exited?;
    if s'.workers[0].Awake? {
      more := [check];
      assert [check][..0] == [];
    } else {
      var first := if s'.workers[0].Running? then Finish(0) else Wake(0);
      more := [first, check];
      assert more[..1] == [first] && [first][..0] == [];
      assert After(s', [first], AsWritten) == Step(s', first, AsWritten);
    }
  }

  lemma {:induction false} RunsCompose(s: State, a: seq<Action>, b: seq<Action>, v: Variant)
    ensures After(s, a + b, v) == After(After(s, a, v), b, v)
  {
    if b == [] {
      assert a + b == a;
    } else {
      assert (a + b)[..|a + b| - 1] == a + b[..|b| - 1];
      RunsCompose(s, a, b[..|b| - 1], v);
    }
  }

  /** Wherever the run is stopped and its workers left to themselves, nothing is started early. */
  ghost predicate NeverEarly(s: State, run: seq<Action>, strict: bool) {
    forall j, more, a {:trigger StartsEarly(After(After(s, run[..j], AsWritten), more, AsWritten), a, strict)} ::
      0 <= j <= |run| && (forall i :: 0 <= i < |more| ==> WorkerAction(more[i]))
      ==> !StartsEarly(After(After(s, run[..j], AsWritten), more, AsWritten), a, strict)
  }

  lemma WorkersAddNothing(s: State, run: seq<Action>, j: nat, more: seq<Action>, strict: bool)
    requires NothingAddedBehindOneEarlier(s, run, strict) && j <= |run|
    requires forall i :: 0 <= i < |more| ==> WorkerAction(more[i])
    ensures NothingAddedBehindOneEarlier(s, run[..j] + more, strict)
  {
    var all := run[..j] + more;
    forall k | 0 <= k < |all| ensures !AddsBehindOneEarlier(After(s, all[..k], AsWritten), all[k], strict) {
      if k < j {
        assert all[..k] == run[..k] && all[k] == run[k];
      }
    }
  }

  /** The exact condition, for either sense of early: a run of the code as written, of any pool with a
      worker, is never early if and only if none of its adds was behind one earlier task. */
  lemma NeverEarlyIff(n: nat, now: TimeVal, usec: int, run: seq<Action>, strict: bool)
    requires n > 0
    ensures var s0 := Init(n, now, usec);
      NeverEarly(s0, run, strict) <==> NothingAddedBehindOneEarlier(s0, run, strict)
  {
    var s0 := Init(n, now, usec);
    if NothingAddedBehindOneEarlier(s0, run, strict) {
      forall j, more, a | 0 <= j <= |run| && (forall i :: 0 <= i < |more| ==> WorkerAction(more[i]))
        ensures !StartsEarly(After(After(s0, run[..j], AsWritten), more, AsWritten), a, strict)
      {
        WorkersAddNothing(s0, run, j, more, strict);
        RunsCompose(s0, run[..j], more, AsWritten);
        PunctualRunsStartNothingEarly(n, now, usec, run[..j] + more, a, strict);
      }
    } else {
      var k :| 0 <= k < |run| && AddsBehindOneEarlier(After(s0, run[..k], AsWritten), run[k], strict);
      EarlyAfterAdd(n, now, usec, run, k, strict);
    }
  }

  lemma EarlyAfterAdd(n: nat, now: TimeVal, usec: int, run: seq<Action>, k: nat, strict: bool)
    requires n > 0 && k < |run|
    requires AddsBehindOneEarlier(After(Init(n, now, usec), run[..k], AsWritten), run[k], strict)
    ensures !NeverEarly(Init(n, now, usec), run, strict)
  {
    var s0 := Init(n, now, usec);
    var s := After(s0, run[..k], AsWritten);
    ReachableInv(n, now, usec, run[..k], AsWritten);
    WorkersStay(s0, run[..k], AsWritten);
    var more := AddBehindOneEarlierStartsEarly(s, run[k], Opening(s.now, s.core.queue[0].waitUntil), strict);
    assert run[..k + 1][..k] == run[..k];
    assert After(s0, run[..k + 1], AsWritten) == Step(s, run[k], AsWritten);
    var waits := more[..|more| - 1];
    assert StartsEarly(After(After(s0, run[..k + 1], AsWritten), waits, AsWritten), more[|more| - 1], strict);
    assert forall i :: 0 <= i < |waits| ==> WorkerAction(waits[i]);
  }

  /** With the repaired insertion no run ever starts a task at or before its deadline, and the
      task it starts is one with the earliest deadline. */
  lemma RepairedPoolIsPunctual(n: nat, now: TimeVal, usec: int, run: seq<Action>, t1: TimeVal, t2: TimeVal)
    ensures var c := After(Init(n, now, usec), run, Repaired).core;
      Check(c, t1, t2).1.Work? ==>
        && Later(t1, Check(c, t1, t2).1.e.waitUntil)
        && forall e :: e in c.queue ==> AtMost(Check(c, t1, t2).1.e.waitUntil, e.waitUntil)
  {
    ReachableInv(n, now, usec, run, Repaired);
  }

  /** As written, three submissions and one check start a task due at 7 s when it is 6 s. */
  lemma WrittenPoolStartsEarly()
    ensures var run := [Add(Entry(0, TimeVal(5, 0)), 0), Add(Entry(1, TimeVal(10, 0)), 0),
                        Add(Entry(2, TimeVal(7, 0)), 0), CheckIn(0, TimeVal(6, 0), TimeVal(6, 0))];
      After(Init(1, TimeVal(0, 0), 0), run, AsWritten).workers == [Running(Entry(2, TimeVal(7, 0)))]
  {
    var a, b, c := Add(Entry(0, TimeVal(5, 0)), 0), Add(Entry(1, TimeVal(10, 0)), 0), Add(Entry(2, TimeVal(7, 0)), 0);
    var d := CheckIn(0, TimeVal(6, 0), TimeVal(6, 0));
    var s0 := Init(1, TimeVal(0, 0), 0);
    assert [a, b, c, d][..3] == [a, b, c] && [a, b, c][..2] == [a, b] && [a, b][..1] == [a] && [a][..0] == [];
    assert After(s0, [a], AsWritten).core.queue == [Entry(0, TimeVal(5, 0))];
    assert After(s0, [a, b], AsWritten).core.queue == [Entry(1, TimeVal(10, 0)), Entry(0, TimeVal(5, 0))];
    var s3 := After(s0, [a, b, c], AsWritten);
    assert s3.core.queue[0] == Entry(2, TimeVal(7, 0)) && s3.core.sleepUntil == TimeVal(5, 0);
    assert s3.workers == [Awake];
  }

  // ---------- Lost wakeups ----------

  /** This worker will look at the queue no later than the cached deadline asks for. */
  predicate Attends(w: Worker, c: Core) {
    match w
    case Awake => true
    case Running(_) => true
    case TimedWaiting(until) => AtMost(until, c.sleepUntil)
    case Waiting => false
    case Exited => false
  }

  ghost predicate Attended(s: State) {
    !s.core.stop && s.core.queue != [] ==> exists i :: 0 <= i < |s.workers| && Attends(s.workers[i], s.core)
  }

  /** The deadline passes between the two clock readings of one check. */
  predicate Straddles(s: State, a: Action) {
    && a.CheckIn? && Enabled(s, a) && !s.core.stop && s.core.queue != []
    && AtMost(a.t1, s.core.sleepUntil) && !AtMost(a.t2, s.core.sleepUntil)
  }

  predicate AttendedByOther(s: State, w: nat) {
    exists i :: 0 <= i < |s.workers| && i != w && Attends(s.workers[i], s.core)
  }

  lemma SignalAttends(s: State, e: Entry, k: nat, v: Variant)
    requires Inv(s, v) && |s.workers| > 0 && Enabled(s, Add(e, k))
    ensures Attended(Step(s, Add(e, k), v))
  {
    var s' := Step(s, Add(e, k), v);
    if k < |s.workers| && Asleep(s.workers[k]) {
      assert Attends(s'.workers[k], s'.core);
    } else {
      assert !Asleep(s.workers[0]) && !s.workers[0].Exited?;
      assert Attends(s'.workers[0], s'.core);
    }
  }

  /** Exactly one kind of step can leave a nonempty queue unattended: a check whose two clock
      readings straddle the cached deadline, made by the only worker attending. */
  lemma LostWakeupIff(s: State, a: Action, v: Variant)
    requires Inv(s, v) && |s.workers| > 0 && Attended(s)
    ensures Attended(Step(s, a, v)) <==> !(Straddles(s, a) && !AttendedByOther(s, a.w))
  {
    var s' := Step(s, a, v);
    if Enabled(s, a) {
      match a
      case Tick(t) =>
      case Add(e, k) => SignalAttends(s, e, k, v);
      case CheckIn(w, t1, t2) =>
        if Straddles(s, a) {
          assert forall i :: 0 <= i < |s.workers| && i != w ==> s'.workers[i] == s.workers[i];
        } else {
          assert s'.core.stop || s'.core.queue == [] || Attends(s'.workers[w], s'.core);
        }
      case Finish(w) => assert Attends(s'.workers[w], s'.core);
      case Wake(w) => assert Attends(s'.workers[w], s'.core);
      case Destroy =>
      case OwnerCheck =>
      case OwnerWake =>
    }
  }

  lemma {:induction false} WorkersStay(s: State, run: seq<Action>, v: Variant)
    ensures |After(s, run, v).workers| == |s.workers|
  {
    if run != [] {
      WorkersStay(s, run[..|run| - 1], v);
    }
  }

  /** No run in which every check reads the clock consistently loses a wakeup. */
  lemma {:induction false} NoLostWakeup(n: nat, now: TimeVal, usec: int, run: seq<Action>, v: Variant)
    requires n > 0
    requires forall k :: 0 <= k < |run| ==> !Straddles(After(Init(n, now, usec), run[..k], v), run[k])
    ensures Attended(After(Init(n, now, usec), run, v))
  {
    if run != [] {
      var before := run[..|run| - 1];
      forall k | 0 <= k < |before| ensures !Straddles(After(Init(n, now, usec), before[..k], v), before[k]) {
        assert before[..k] == run[..k];
      }
      NoLostWakeup(n, now, usec, before, v);
      ReachableInv(n, now, usec, before, v);
      WorkersStay(Init(n, now, usec), before, v);
      LostWakeupIff(After(Init(n, now, usec), before, v), run[|run| - 1], v);
    }
  }

  /** So if every check used one reading of the clock for both conditions, none would be lost. */
  lemma OneReadingLosesNoWakeup(n: nat, now: TimeVal, usec: int, run: seq<Action>, v: Variant)
    requires n > 0
    requires forall a :: a in run && a.CheckIn? ==> a.t1 == a.t2
    ensures Attended(After(Init(n, now, usec), run, v))
  {
    forall k | 0 <= k < |run| ensures !Straddles(After(Init(n, now, usec), run[..k], v), run[k]) {
      assert run[k] in run;
    }
    NoLostWakeup(n, now, usec, run, v);
  }

  /** One worker, one task due at 10 s, and a check that reads 10 s and then 11 s: the worker
      sleeps without a timeout while the task is due. */
  lemma WakeupLostOnStraddle(v: Variant)
    ensures var s := After(Init(1, TimeVal(0, 0), 0),
                           [Add(Entry(0, TimeVal(10, 0)), 0), CheckIn(0, TimeVal(10, 0), TimeVal(11, 0))], v);
      s.workers == [Waiting] && s.core.queue == [Entry(0, TimeVal(10, 0))] && !Attended(s)
  {
    var a, b := Add(Entry(0, TimeVal(10, 0)), 0), CheckIn(0, TimeVal(10, 0), TimeVal(11, 0));
    var s0 := Init(1, TimeVal(0, 0), 0);
    assert [a, b][..1] == [a] && [a][..0] == [];
    assert After(s0, [a], v) == Step(s0, a, v);
    assert Step(s0, a, v).core.queue == [Entry(0, TimeVal(10, 0))];
    assert Step(s0, a, v).workers == [Awake];
  }

  /** An attended queue makes progress: once the cached deadline has passed, some worker pops the
      head within two steps of its own, and any sleep it leaves is one whose timeout has passed. */
  lemma AttendedQueueProgresses(s: State, v: Variant) returns (run: seq<Action>, w: nat)
    requires Inv(s, v) && Attended(s) && Opens(s.core, s.now)
    ensures 1 <= |run| <= 2 && w < |s.workers|
    ensures run[0] == Wake(w) ==> s.workers[w].TimedWaiting? && Later(s.now, s.workers[w].until)
    ensures forall i :: 0 <= i < |run| ==> run[i] in [Finish(w), Wake(w), CheckIn(w, s.now, s.now)]
    ensures After(s, run, v).core == PopWork(s.core)
    ensures After(s, run, v).workers == s.workers[w := Running(s.core.queue[0])]
  {
    w :| 0 <= w < |s.workers| && Attends(s.workers[w], s.core);
    var check := CheckIn(w, s.now, s.now);
    assert [check][..0] == [];
    if s.workers[w].Awake? {
      run := [check];
    } else {
      var first := if s.workers[w].Running? then Finish(w) else Wake(w);
      run := [first, check];
      assert run[..1] == [first] && [first][..0] == [];
      assert After(s, [first], v) == Step(s, first, v);
    }
  }

  /** A step that pops a task. */
  predicate Pops(s: State, a: Action) {
    a.CheckIn? && Enabled(s, a) && Check(s.core, a.t1, a.t2).1.Work?
  }

  /** The steps that worker `w` itself takes in a run. */
  function OwnSteps(s: State, run: seq<Action>, w: nat, v: Variant): nat {
    if run == [] then 0
    else
      var before, a := run[..|run| - 1], run[|run| - 1];
      OwnSteps(s, before, w, v)
      + if WorkerAction(a) && a.w == w && Enabled(After(s, before, v), a) then 1 else 0
  }

  /** How many of its own steps a worker is away from a pop: its timeout, if it has one, has passed. */
  predicate Ready(s: State, w: nat) {
    w < |s.workers|
    && match s.workers[w]
       case Awake => true
       case Running(_) => true
       case TimedWaiting(until) => Later(s.now, until)
       case Waiting => false
       case Exited => false
  }

  function StepsAway(w: Worker): nat {
    if w.Awake? then 1 else 2
  }

  lemma UnpoppedStep(s: State, a: Action, w: nat, v: Variant)
    requires Inv(s, v) && Opens(s.core, s.now) && Ready(s, w) && !a.Destroy? && !Pops(s, a)
    ensures var s' := Step(s, a, v);
      && Opens(s'.core, s'.now) && Ready(s', w)
      && (if WorkerAction(a) && a.w == w && Enabled(s, a) then 1 else 0) + StepsAway(s'.workers[w])
         <= StepsAway(s.workers[w])
  {
    if Enabled(s, a) {
      match a
      case Tick(t) =>
      case Add(e, k) => PushedKeepsEntries(s.core.queue, e, v);
      case CheckIn(x, t1, t2) =>
      case Finish(x) =>
      case Wake(x) =>
      case Destroy =>
      case OwnerCheck =>
      case OwnerWake =>
    }
  }

  lemma {:induction false} UnpoppedRun(s: State, run: seq<Action>, w: nat, v: Variant)
    requires Inv(s, v) && Opens(s.core, s.now) && Ready(s, w)
    requires forall k :: 0 <= k < |run| ==> !run[k].Destroy? && !Pops(After(s, run[..k], v), run[k])
    ensures var s' := After(s, run, v);
      && Inv(s', v) && Opens(s'.core, s'.now) && Ready(s', w)
      && OwnSteps(s, run, w, v) + StepsAway(s'.workers[w]) <= StepsAway(s.workers[w])
  {
    if run != [] {
      var before, a := run[..|run| - 1], run[|run| - 1];
      assert forall k :: 0 <= k < |before| ==> before[..k] == run[..k];
      UnpoppedRun(s, before, w, v);
      var s1 := After(s, before, v);
      UnpoppedStep(s1, a, w, v);
      StepKeepsSleepAgreement(s1, a, v);
      StepKeepsShutdownAgreement(s1, a, v);
    }
  }

  /** Progress under every schedule: from the moment the cached deadline of an attended queue has
      passed, no run in which a worker that attended takes two steps of its own, whatever all
      others do in between, is without a pop, unless the pool is being destroyed. */
  lemma AttendingWorkerGetsThere(s: State, run: seq<Action>, w: nat, v: Variant)
    requires Inv(s, v) && Opens(s.core, s.now) && w < |s.workers| && Attends(s.workers[w], s.core)
    requires OwnSteps(s, run, w, v) >= 2 && forall k :: 0 <= k < |run| ==> !run[k].Destroy?
    ensures exists k :: 0 <= k < |run| && Pops(After(s, run[..k], v), run[k])
  {
    if forall k :: 0 <= k < |run| ==> !Pops(After(s, run[..k], v), run[k]) {
      UnpoppedRun(s, run, w, v);
    }
  }

  // ---------- Shutdown ----------

  /** Once `stop` is set no task is popped, no worker starts one, and none goes back to sleep. */
  lemma NothingStartsAfterStop(s: State, a: Action, v: Variant)
    requires Inv(s, v) && s.core.stop
    ensures var s' := Step(s, a, v);
      && s'.core.stop && s'.core.queue == s.core.queue && |s'.workers| == |s.workers|
      && forall i :: 0 <= i < |s.workers| ==>
           && !Asleep(s'.workers[i])
           && (s'.workers[i].Running? ==> s'.workers[i] == s.workers[i])
  {
    StepKeepsShutdownAgreement(s, a, v);
  }

  /** How many more steps a stopping pool's workers can take. */
  function StepsLeft(ws: seq<Worker>): nat {
    if ws == [] then 0
    else (match ws[0] case Exited => 0 case Running(_) => 2 case _ => 1) + StepsLeft(ws[1..])
  }

  lemma StepsLeftAfterUpdate(ws: seq<Worker>, i: nat, w: Worker)
    requires i < |ws|
    ensures StepsLeft(ws[i := w]) == StepsLeft(ws) - StepsLeft([ws[i]]) + StepsLeft([w])
  {
    if i == 0 {
      assert ws[i := w][1..] == ws[1..];
    } else {
      StepsLeftAfterUpdate(ws[1..], i - 1, w);
      assert ws[i := w][1..] == ws[1..][i - 1 := w];
    }
  }

  /** Shutdown completes: every worker step brings a stopping pool strictly closer to the end. */
  lemma ShutdownTerminates(s: State, a: Action, v: Variant)
    requires Inv(s, v) && s.core.stop && Enabled(s, a)
    ensures StepsLeft(Step(s, a, v).workers) == StepsLeft(s.workers) - if WorkerAction(a) then 1 else 0
  {
    match a
    case CheckIn(w, t1, t2) => StepsLeftAfterUpdate(s.workers, w, Exited);
    case Finish(w) => StepsLeftAfterUpdate(s.workers, w, Awake);
    case _ =>
  }

  /** The destroying thread never returns early and never sleeps for ever: it has returned only if
      every worker has exited; while some worker has not, a worker can step; and once all have,
      the destroying thread is not blocked. */
  lemma OwnerWaitsForAll(s: State, v: Variant)
    requires Inv(s, v) && s.core.stop
    ensures s.core.threadCount == 0 <==> forall i :: 0 <= i < |s.workers| ==> s.workers[i].Exited?
    ensures s.owner.Blocked? ==> Step(s, OwnerWake, v).owner.Joining?
    ensures s.owner.Joined? ==> forall i :: 0 <= i < |s.workers| ==> s.workers[i].Exited?
    ensures (forall i :: 0 <= i < |s.workers| ==> s.workers[i].Exited?)
            ==> s.owner.Joined? || Step(s, OwnerCheck, v).owner.Joined?
    ensures !(forall i :: 0 <= i < |s.workers| ==> s.workers[i].Exited?)
            ==> exists a :: WorkerAction(a) && Enabled(s, a)
  {
    AliveZeroIff(s.workers);
    if i :| 0 <= i < |s.workers| && !s.workers[i].Exited? {
      assert Enabled(s, CheckIn(i, s.now, s.now)) || Enabled(s, Finish(i));
    }
  }
}
