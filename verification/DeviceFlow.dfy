/**
 * Device-code polling (RFC 8628, section 3.5): one loop with a growing interval and a deadline.
 * Durations are in clock ticks, `second` of them to a second.
 */
module DeviceFlow {
  import opened Basics

  /** One answer of the token endpoint while the user has not decided, or the decision. */
  datatype PollAnswer = Approved(token: string) | AuthorizationPending | SlowDown | OtherError | Unreachable

  datatype Outcome = LoggedIn(token: string) | Denied | TimedOut | BadInterval

  /** The answers that keep the loop going. */
  predicate Undecided(a: PollAnswer) { a.AuthorizationPending? || a.SlowDown? }

  /**
   * The world the loop runs in: `overhead(n)` is the time round `n` takes on top of the sleep it
   * asked for (oversleeping and the request itself), `answer(n)` what the endpoint says then.
   */
  datatype World = World(overhead: nat -> nat, answer: nat -> PollAnswer)

  /** Python's sleep rejects a negative time, Java's loop does not sleep then. */
  datatype Runtime = Python | Java

  function Slept(pause: int): nat { if pause < 0 then 0 else pause }

  /** How many of the first `n` answers were `slow_down`. */
  function SlowDowns(w: World, n: nat): (s: nat)
    ensures s <= n
  {
    if n == 0 then 0 else SlowDowns(w, n - 1) + if w.answer(n - 1).SlowDown? then 1 else 0
  }

  /** The sleep before poll `n`: five seconds more after each `slow_down`. */
  function Interval(w: World, interval: int, second: nat, n: nat): (r: int)
    ensures r >= interval
  {
    if n == 0 then interval
    else Interval(w, interval, second, n - 1) + if w.answer(n - 1).SlowDown? then 5 * second else 0
  }

  /** The clock after `n` rounds of sleeping and polling. */
  function Clock(w: World, start: int, interval: int, second: nat, n: nat): int {
    if n == 0 then start
    else Clock(w, start, interval, second, n - 1) + Slept(Interval(w, interval, second, n - 1)) + w.overhead(n - 1)
  }

  /** A round takes the sleep asked for, which is none for a negative one, and whatever else the poll takes. */
  lemma ClockNext(w: World, start: int, interval: int, second: nat, n: nat)
    ensures Clock(w, start, interval, second, 0) == start
    ensures Clock(w, start, interval, second, n + 1) - Clock(w, start, interval, second, n) ==
            (if Interval(w, interval, second, n) > 0 then Interval(w, interval, second, n) else 0) + w.overhead(n)
  {
  }

  function Min(a: int, b: int): (r: int)
    ensures r <= a && r <= b && (r == a || r == b)
  {
    if a < b then a else b
  }

  /** 0 + 1 + ... + (n - 1) */
  function Triangle(n: nat): nat { if n == 0 then 0 else Triangle(n - 1) + n - 1 }

  /** One poll: whether it decided, and the interval for the next. */
  function PollOnce(answer: PollAnswer, interval: int, second: nat): (r: (Option<Outcome>, int))
    ensures r.0 == None <==> Undecided(answer)
    ensures r.0 == Some(Denied) <==> answer.OtherError? || answer.Unreachable?
    ensures answer.Approved? ==> r.0 == Some(LoggedIn(answer.token))
    ensures r.1 == interval + if answer.SlowDown? then 5 * second else 0
  {
    match answer
    case Approved(token) => (Some(LoggedIn(token)), interval)
    case AuthorizationPending => (None, interval)
    case SlowDown => (None, interval + 5 * second)
    case OtherError => (Some(Denied), interval)
    case Unreachable => (Some(Denied), interval)
  }

  /** Poll `n` slept as long as it had to and began before the deadline. */
  predicate InTime(w: World, start: int, interval: int, second: nat, expiresIn: int, pollTimeout: int, n: nat, wait: int) {
    && wait == Interval(w, interval, second, n)
    && Clock(w, start, interval, second, n) < start + expiresIn && Clock(w, start, interval, second, n) < start + pollTimeout
  }

  /** `n` polls, the last right after the others, with the slow-downs they met, fit the window. */
  predicate Fits(w: World, interval: int, second: nat, window: int, n: nat) {
    n > 0 ==>
      var s := SlowDowns(w, n - 1);
      (n - 1) * interval + (s * (s - 1) / 2) * (5 * second) < window
  }

  /**
   * The interactive login. Without a positive interval it ends because a poll takes some time, or
   * because the sleep rejects a negative one. `waits` are the sleeps asked for, one per poll.
   */
  method Acquire(runtime: Runtime, w: World, start: int, interval: int, expiresIn: int, pollTimeout: int, second: nat)
    returns (outcome: Outcome, waits: seq<int>)
    requires interval > 0 || forall n :: w.overhead(n) > 0
    ensures forall n | 0 <= n < |waits| ::
              InTime(w, start, interval, second, expiresIn, pollTimeout, n, waits[n])
    ensures Fits(w, interval, second, Min(expiresIn, pollTimeout), |waits|)
    ensures outcome == TimedOut ==>
              Clock(w, start, interval, second, |waits|) >= start + expiresIn
              || Clock(w, start, interval, second, |waits|) >= start + pollTimeout
    ensures forall n | 0 <= n < |waits| - 1 :: Undecided(w.answer(n))
    ensures match outcome
            case LoggedIn(token) => |waits| > 0 && w.answer(|waits| - 1) == Approved(token)
            case Denied => |waits| > 0 && (w.answer(|waits| - 1).OtherError? || w.answer(|waits| - 1).Unreachable?)
            case TimedOut =>
              (|waits| > 0 ==> Undecided(w.answer(|waits| - 1)))
              && Clock(w, start, interval, second, |waits|) >= start + Min(expiresIn, pollTimeout)
            case BadInterval => waits == []
    ensures outcome == BadInterval <==> runtime.Python? && interval < 0 < Min(expiresIn, pollTimeout)
  {
    waits := [];
    var now, pause := start, interval;
    var deadline := now + Min(expiresIn, pollTimeout);
    while now < deadline
      invariant now == Clock(w, start, interval, second, |waits|)
      invariant pause == Interval(w, interval, second, |waits|)
      invariant |waits| > 0 && runtime.Python? ==> interval >= 0
      invariant |waits| == 0 ==> now == start
      invariant forall n | 0 <= n < |waits| :: InTime(w, start, interval, second, expiresIn, pollTimeout, n, waits[n])
      invariant forall n | 0 <= n < |waits| :: Undecided(w.answer(n))
      invariant Fits(w, interval, second, Min(expiresIn, pollTimeout), |waits|)
      decreases deadline - now
    {
      if runtime.Python? && pause < 0 {
        return BadInterval, waits;
      }
      var n := |waits|;
      assert InTime(w, start, interval, second, expiresIn, pollTimeout, n, pause);
      WaitsFit(w, start, interval, second, expiresIn, pollTimeout, n, pause);
      waits := waits + [pause];
      now := now + Slept(pause) + w.overhead(n);
      var polled := PollOnce(w.answer(n), pause, second);
      if polled.0.Some? {
        return polled.0.value, waits;
      }
      pause := polled.1;
    }
    outcome := TimedOut;
  }

  lemma WaitsFit(w: World, start: int, interval: int, second: nat, expiresIn: int, pollTimeout: int, n: nat, wait: int)
    requires InTime(w, start, interval, second, expiresIn, pollTimeout, n, wait)
    ensures Fits(w, interval, second, Min(expiresIn, pollTimeout), n + 1)
  {
    PollBound(w, start, interval, Min(expiresIn, pollTimeout), second, n + 1);
  }

  /** x + x + ... + x, n times */
  function Times(n: nat, x: int): int { if n == 0 then 0 else Times(n - 1, x) + x }

  lemma {:induction false} TimesIs(n: nat, x: int)
    ensures Times(n, x) == n * x
  {
    if n > 0 { TimesIs(n - 1, x); }
  }

  lemma {:induction false} TimesAdd(a: nat, b: nat, x: int)
    ensures Times(a + b, x) == Times(a, x) + Times(b, x)
  {
    if b > 0 { TimesAdd(a, b - 1, x); }
  }

  lemma {:induction false} TriangleIs(n: nat)
    ensures Triangle(n) == n * (n - 1) / 2
  {
    if n > 0 { TriangleIs(n - 1); }
  }

  lemma {:induction false} IntervalTimes(w: World, interval: int, second: nat, n: nat)
    ensures Interval(w, interval, second, n) == interval + Times(SlowDowns(w, n), 5 * second)
  {
    if n > 0 { IntervalTimes(w, interval, second, n - 1); }
  }

  /** The interval is always the granted one plus five seconds per `slow_down` so far. */
  lemma IntervalIs(w: World, interval: int, second: nat, n: nat)
    ensures Interval(w, interval, second, n) == interval + SlowDowns(w, n) * (5 * second)
  {
    IntervalTimes(w, interval, second, n);
    TimesIs(SlowDowns(w, n), 5 * second);
  }

  lemma {:induction false} TimesNonNegative(n: nat, x: nat)
    ensures Times(n, x) >= 0
  {
    if n > 0 { TimesNonNegative(n - 1, x); }
  }

  /** Every `slow_down` pushes all later polls back by five seconds. */
  lemma {:induction false} ClockBound(w: World, start: int, interval: int, second: nat, n: nat)
    ensures Clock(w, start, interval, second, n) >=
            start + Times(n, interval) + Times(Triangle(SlowDowns(w, n)), 5 * second)
  {
    if n > 0 {
      var s := SlowDowns(w, n - 1);
      ClockBound(w, start, interval, second, n - 1);
      IntervalTimes(w, interval, second, n - 1);
      TimesAdd(Triangle(s), s, 5 * second);
      TimesNonNegative(s, 5 * second);
      assert Triangle(s + 1) == Triangle(s) + s;
    }
  }

  /**
   * If the `n`-th poll began inside the window then the sleeps before it fit into the window:
   * with s slow-downs among the first n - 1 answers, (n - 1) intervals and s (s - 1) / 2 times
   * five seconds.
   */
  lemma PollBound(w: World, start: int, interval: int, window: int, second: nat, n: nat)
    requires n >= 1 && Clock(w, start, interval, second, n - 1) < start + window
    ensures Fits(w, interval, second, window, n)
  {
    var s := SlowDowns(w, n - 1);
    ClockBound(w, start, interval, second, n - 1);
    TriangleIs(s);
    TimesIs(n - 1, interval);
    TimesIs(Triangle(s), 5 * second);
  }

  lemma {:induction false} TimesGrows(n: nat, x: nat)
    requires x > 0
    ensures Times(n, x) >= n
  {
    if n > 0 { TimesGrows(n - 1, x); }
  }

  /** So a positive interval leaves room for a bounded number of polls, whatever the answers. */
  lemma PollCount(w: World, start: int, interval: int, window: int, second: nat, n: nat)
    requires interval > 0 && n >= 1 && Clock(w, start, interval, second, n - 1) < start + window
    ensures (n - 1) * interval < window && n <= window
  {
    ClockBound(w, start, interval, second, n - 1);
    TimesNonNegative(Triangle(SlowDowns(w, n - 1)), 5 * second);
    TimesGrows(n - 1, interval);
    TimesIs(n - 1, interval);
  }
}
