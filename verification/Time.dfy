/** Deadlines as the pool compares them, and the deadline arithmetic of the request module. */
module Time {

  /** A `struct timeval`.  Nothing forces `usec` below one million: see `RateLimitDeadline`. */
  datatype TimeVal = TimeVal(sec: int, usec: int)

  /** A `struct timespec`, the unit of a timed wait. */
  datatype TimeSpec = TimeSpec(sec: int, nsec: int)

  /** The field-by-field "not later than" used by `is_future` and by the walk of `prio_push`. */
  predicate AtMost(a: TimeVal, b: TimeVal) {
    a.sec < b.sec || (a.sec == b.sec && a.usec <= b.usec)
  }

  /** The field-by-field "strictly later than" that `t_pool_add_work` spells out. */
  predicate Later(a: TimeVal, b: TimeVal) {
    a.sec > b.sec || (a.sec == b.sec && a.usec > b.usec)
  }

  function Micros(t: TimeVal): int {
    t.sec * 1_000_000 + t.usec
  }

  /** What `request` can produce: one million microseconds is possible, more is not. */
  predicate NearlyNormal(t: TimeVal) {
    0 <= t.usec <= 1_000_000
  }

  predicate Normal(t: TimeVal) {
    0 <= t.usec < 1_000_000
  }

  /** The conversion before `pthread_cond_timedwait`, with its `>` comparison. */
  function ToTimeSpec(t: TimeVal): TimeSpec {
    var nsec := t.usec * 1000;
    if nsec > 1_000_000_000 then TimeSpec(t.sec + 1, nsec - 1_000_000_000) else TimeSpec(t.sec, nsec)
  }

  function Nanos(t: TimeSpec): int {
    t.sec * 1_000_000_000 + t.nsec
  }

  /** A timed wait rejects a `timespec` outside this range and returns at once. */
  predicate WaitAccepts(t: TimeSpec) {
    0 <= t.nsec < 1_000_000_000
  }

  /** C's conversion of a double to an integer type: towards zero. */
  function Truncate(x: real): int {
    if x >= 0.0 then x.Floor else -((-x).Floor)
  }

  /** C's `%`: the sign of the remainder is that of the dividend. */
  function Remainder(a: int, m: int): int
    requires m > 0
  {
    if a >= 0 then a % m else -((-a) % m)
  }

  /** The deadline of a rate-limited request: `now` plus `retryAfter` seconds. */
  function RateLimitDeadline(now: TimeVal, retryAfter: real): TimeVal {
    var sec := now.sec + Truncate(retryAfter);
    var usec := now.usec + Remainder(Truncate(retryAfter * 1000000.0), 1_000_000);
    if usec > 1_000_000 then TimeVal(sec + 1, usec - 1_000_000) else TimeVal(sec, usec)
  }

  lemma ComparisonsAreOneOrder(a: TimeVal, b: TimeVal, c: TimeVal)
    ensures Later(a, b) <==> !AtMost(a, b)
    ensures AtMost(a, b) || AtMost(b, a)
    ensures AtMost(a, b) && AtMost(b, c) ==> AtMost(a, c)
    ensures AtMost(a, b) && AtMost(b, a) ==> a == b
  {
  }

  /** The field-by-field order is the order of instants, except that it calls the later-numbered
      second later when a carry was left undone and the two instants coincide. */
  lemma FieldOrderIsInstantOrder(a: TimeVal, b: TimeVal)
    requires NearlyNormal(a) && NearlyNormal(b)
    ensures AtMost(a, b) <==> Micros(a) <= Micros(b) && !(Micros(a) == Micros(b) && a.sec > b.sec)
    ensures Normal(a) && Normal(b) ==> (AtMost(a, b) <==> Micros(a) <= Micros(b))
  {
  }

  /** The instant survives the conversion; the wait rejects exactly the undone carry. */
  lemma TimeSpecKeepsInstant(t: TimeVal)
    requires NearlyNormal(t)
    ensures Nanos(ToTimeSpec(t)) == Micros(t) * 1000
    ensures WaitAccepts(ToTimeSpec(t)) <==> t.usec != 1_000_000
  {
  }

  lemma TruncateSplits(x: real)
    requires x >= 0.0
    ensures Truncate(x * 1000000.0) / 1_000_000 == Truncate(x)
  {
    var whole := x.Floor;
    var micros := (x * 1000000.0).Floor;
    assert whole as real <= x < whole as real + 1.0;
    assert whole * 1_000_000 <= micros < (whole + 1) * 1_000_000;
  }

  /** A rate-limit deadline is `now` plus the delay cut to whole microseconds, for every delay. */
  lemma {:induction false} RateLimitDeadlineIsExact(now: TimeVal, w: real)
    requires Normal(now)
    ensures Micros(RateLimitDeadline(now, w)) == Micros(now) + Truncate(w * 1000000.0)
    ensures w >= 0.0 ==> NearlyNormal(RateLimitDeadline(now, w)) && AtMost(now, RateLimitDeadline(now, w))
  {
    if w >= 0.0 {
      TruncateSplits(w);
    } else {
      TruncateSplits(-w);
      assert (-w) * 1000000.0 == -(w * 1000000.0);
    }
  }

  /** One million microseconds is reached: the carry test uses `>` where `>=` would normalise. */
  lemma CarryIsMissedExactlyAtTheBoundary(now: TimeVal, w: real)
    requires Normal(now) && w >= 0.0
    ensures !Normal(RateLimitDeadline(now, w))
            <==> now.usec + Truncate(w * 1000000.0) % 1_000_000 == 1_000_000
  {
  }

  /** One microsecond of delay at the last microsecond of a second: a deadline a timed wait rejects. */
  lemma CarryIsMissed()
    ensures RateLimitDeadline(TimeVal(5, 999_999), 0.000001) == TimeVal(5, 1_000_000)
    ensures !WaitAccepts(ToTimeSpec(RateLimitDeadline(TimeVal(5, 999_999), 0.000001)))
  {
    assert 0.000001 * 1000000.0 == 1.0;
  }

  /** In microseconds, the deadline is the clock plus the delay, cut towards the clock by less than
      one: for a delay that is not negative it is not after that instant, for another not before. */
  lemma {:induction false} RateLimitDeadlineInMicros(now: TimeVal, w: real)
    requires Normal(now)
    ensures var exact, due := Micros(now) as real + w * 1000000.0, Micros(RateLimitDeadline(now, w)) as real;
      if w >= 0.0 then exact - 1.0 < due <= exact else exact <= due < exact + 1.0
  {
    RateLimitDeadlineIsExact(now, w);
    var x := w * 1000000.0;
    if w >= 0.0 {
      assert x.Floor as real <= x < x.Floor as real + 1.0;
    } else {
      assert -x >= 0.0 && (-x).Floor as real <= -x < (-x).Floor as real + 1.0;
    }
  }
}
