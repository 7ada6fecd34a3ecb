/** The service loop of the agent: polling with backoff, and one result for every job. */
module Poller {
  import opened Text
  import opened Bits

  // ---------------------------------------------------------- 64-bit durations

  const INT64_MIN := -0x8000_0000_0000_0000
  const HALF := 0x4000_0000_0000_0000

  predicate Int64(x: int) {
    INT64_MIN <= x <= INT64_MAX
  }

  /** Two's complement wrap-around of the sum of two such numbers. */
  function Wrap(x: int): int {
    if x > INT64_MAX then x - 0x1_0000_0000_0000_0000
    else if x < INT64_MIN then x + 0x1_0000_0000_0000_0000
    else x
  }

  // ------------------------------------------------------------------ the loop

  datatype Job = Job(id: string, verified: bool, status: string)

  /** What a poll returns; a failed one comes with the state of the random source. */
  datatype Poll = Failed(random: nat) | Nothing | Received(job: Job)

  datatype Event =
    | Polled(poll: Poll)
    | Slept(delay: int)
    | Dispatched(id: string, status: string)
    | Posted(id: string, status: string)

  function Raised(backoff: int, max: int): int {
    var doubled := Wrap(backoff * 2);
    if doubled > max then max else doubled
  }

  /** `currentBackoff` before poll `i`. */
  function Backoff(polls: seq<Poll>, i: nat, interval: int, max: int): int
    requires i <= |polls|
  {
    if i == 0 || !polls[i - 1].Failed? then interval else Raised(Backoff(polls, i - 1, interval, max), max)
  }

  /** `rand.Int63n` panics unless its argument is positive. */
  predicate PanicsAt(polls: seq<Poll>, i: nat, interval: int, max: int)
    requires i < |polls|
  {
    polls[i].Failed? && Wrap(Backoff(polls, i, interval, max) + 1) <= 0
  }

  /** What `rand.Int63n` draws: some number below `n`, any of them for a suitable `random`. */
  function Draw(random: nat, n: int): nat {
    if random < n then random else 0
  }

  function Delay(random: nat, backoff: int): int {
    Draw(random, Wrap(backoff + 1))
  }

  function JobEvents(j: Job): seq<Event> {
    if j.verified then [Dispatched(j.id, j.status), Posted(j.id, j.status)] else [Posted(j.id, "failed")]
  }

  function EventsFor(poll: Poll, backoff: int, interval: int): seq<Event> {
    match poll
    case Failed(random) => [Polled(poll)] + [Slept(Delay(random, backoff))]
    case Nothing => [Polled(poll)] + [Slept(interval)]
    case Received(j) => [Polled(poll)] + JobEvents(j)
  }

  /** A log with an entry for each of the first polls: the events of its turn, in which the
      random source does not panic. */
  predicate IsLog(log: seq<seq<Event>>, polls: seq<Poll>, interval: int, max: int) {
    log == []
    || (var i := |log| - 1;
        && i < |polls| && IsLog(log[..i], polls, interval, max) && !PanicsAt(polls, i, interval, max)
        && log[i] == EventsFor(polls[i], Backoff(polls, i, interval, max), interval))
  }

  function Flat(log: seq<seq<Event>>): seq<Event> {
    if log == [] then [] else Flat(log[..|log| - 1]) + log[|log| - 1]
  }

  /** An observer of the events that knows what is owed to a job. */
  datatype Phase = Idle | Got(job: Job) | Ran(job: Job) | Wrong

  function Observe(ph: Phase, e: Event): Phase {
    match e
    case Polled(p) => if ph != Idle then Wrong else if p.Received? then Got(p.job) else Idle
    case Slept(_) => if ph == Idle then Idle else Wrong
    case Dispatched(id, status) =>
      if ph.Got? && ph.job.verified && ph.job.id == id && ph.job.status == status then Ran(ph.job) else Wrong
    case Posted(id, status) =>
      if ph.Got? && !ph.job.verified && ph.job.id == id && status == "failed" then Idle
      else if ph.Ran? && ph.job.id == id && ph.job.status == status then Idle
      else Wrong
  }

  function Observed(ph: Phase, events: seq<Event>): Phase {
    if events == [] then ph else Observe(Observed(ph, events[..|events| - 1]), events[|events| - 1])
  }

  lemma {:induction false} ObservedConcat(ph: Phase, a: seq<Event>, b: seq<Event>)
    ensures Observed(ph, a + b) == Observed(Observed(ph, a), b)
  {
    if b == [] {
      assert a + b == a;
    } else {
      assert (a + b)[..|a + b| - 1] == a + b[..|b| - 1];
      ObservedConcat(ph, a, b[..|b| - 1]);
    }
  }

  lemma ObservedOne(ph: Phase, e: Event)
    ensures Observed(ph, [e]) == Observe(ph, e)
  {
    assert [e][..0] == [];
  }

  lemma JobIsSettled(j: Job)
    ensures Observed(Got(j), JobEvents(j)) == Idle
  {
    if j.verified {
      var d, p := Dispatched(j.id, j.status), Posted(j.id, j.status);
      assert [d, p] == [d] + [p];
      ObservedConcat(Got(j), [d], [p]);
      ObservedOne(Got(j), d);
      ObservedOne(Ran(j), p);
    } else {
      ObservedOne(Got(j), Posted(j.id, "failed"));
    }
  }

  /** `processJob`; whether posting succeeds makes no difference to the loop. */
  method ProcessJob(j: Job) returns (events: seq<Event>)
    ensures Observed(Got(j), events) == Idle
    ensures events == JobEvents(j)
  {
    JobIsSettled(j);
    if !j.verified {
      return [Posted(j.id, "failed")];
    }
    events := [Dispatched(j.id, j.status)];
    events := events + [Posted(j.id, j.status)];
  }

  /** One failed poll: the sleep, unless the random source panics, and the next backoff. */
  method OnError(currentBackoff: int, maxBackoff: int, random: nat) returns (jitter: Option<int>, next: int)
    ensures jitter == if Wrap(currentBackoff + 1) <= 0 then None else Some(Delay(random, currentBackoff))
    ensures next == Raised(currentBackoff, maxBackoff)
  {
    next := Wrap(currentBackoff * 2);
    if next > maxBackoff {
      next := maxBackoff;
    }
    var bound := Wrap(currentBackoff + 1);
    if bound <= 0 {
      return None, next;
    }
    jitter := Some(Draw(random, bound));
  }

  /** One turn of the loop; a panic comes after the poll. */
  method Turn(poll: Poll, currentBackoff: int, pollInterval: int, maxBackoff: int)
    returns (events: seq<Event>, next: int, panic: bool)
    ensures panic <==> poll.Failed? && Wrap(currentBackoff + 1) <= 0
    ensures events == if panic then [Polled(poll)] else EventsFor(poll, currentBackoff, pollInterval)
    ensures next == if poll.Failed? then Raised(currentBackoff, maxBackoff) else pollInterval
  {
    events, panic := [Polled(poll)], false;
    if poll.Failed? {
      var jitter;
      jitter, next := OnError(currentBackoff, maxBackoff, poll.random);
      if jitter == None {
        return events, next, true;
      }
      return events + [Slept(jitter.value)], next, false;
    }
    next := pollInterval;
    if poll.Nothing? {
      return events + [Slept(pollInterval)], next, false;
    }
    var handled := ProcessJob(poll.job);
    events := events + handled;
  }

  /** `RunService` until its context is cancelled, after the given polls.  `panic` is the
      poll at which the random source panics; the log then holds the turns before it. */
  method RunService(polls: seq<Poll>, pollInterval: int, maxBackoff: int) returns (log: seq<seq<Event>>, panic: Option<nat>)
    requires Int64(pollInterval) && Int64(maxBackoff)
    ensures IsLog(log, polls, pollInterval, maxBackoff)
    ensures |log| == if panic.Some? then panic.value else |polls|
    ensures panic.Some? ==> panic.value < |polls| && PanicsAt(polls, panic.value, pollInterval, maxBackoff)
  {
    log := [];
    var currentBackoff := pollInterval;
    for i := 0 to |polls|
      invariant currentBackoff == Backoff(polls, i, pollInterval, maxBackoff)
      invariant |log| == i && IsLog(log, polls, pollInterval, maxBackoff)
    {
      var panics;
      log, currentBackoff, panics := NextTurn(polls, log, currentBackoff, pollInterval, maxBackoff);
      if panics {
        return log, Some(i);
      }
    }
    panic := None;
  }

  /** The same turn, seen from the whole run. */
  method NextTurn(polls: seq<Poll>, before: seq<seq<Event>>, currentBackoff: int, pollInterval: int, maxBackoff: int)
    returns (log: seq<seq<Event>>, next: int, panics: bool)
    requires |before| < |polls| && IsLog(before, polls, pollInterval, maxBackoff)
    requires currentBackoff == Backoff(polls, |before|, pollInterval, maxBackoff)
    ensures panics <==> PanicsAt(polls, |before|, pollInterval, maxBackoff)
    ensures panics ==> log == before
    ensures !panics ==> |log| == |before| + 1 && IsLog(log, polls, pollInterval, maxBackoff)
    ensures next == Backoff(polls, |before| + 1, pollInterval, maxBackoff)
  {
    var events;
    events, next, panics := Turn(polls[|before|], currentBackoff, pollInterval, maxBackoff);
    if panics {
      return before, next, true;
    }
    OneMoreTurn(before, events, polls, pollInterval, maxBackoff);
    log := before + [events];
  }

  lemma OneMoreTurn(log: seq<seq<Event>>, events: seq<Event>, polls: seq<Poll>, interval: int, max: int)
    requires IsLog(log, polls, interval, max) && |log| < |polls|
    requires !PanicsAt(polls, |log|, interval, max)
    requires events == EventsFor(polls[|log|], Backoff(polls, |log|, interval, max), interval)
    ensures IsLog(log + [events], polls, interval, max)
  {
    assert (log + [events])[..|log|] == log;
  }

  // ------------------------------------------------------------------- delays

  /** The number of consecutive errors just before poll `i`. */
  function Errors(polls: seq<Poll>, i: nat): nat
    requires i <= |polls|
  {
    if i == 0 || !polls[i - 1].Failed? then 0 else Errors(polls, i - 1) + 1
  }

  function Min(a: int, b: int): int {
    if a < b then a else b
  }

  /** The documented backoff after `k` errors. */
  function Bound(k: nat, interval: int, max: int): int {
    if k == 0 then interval else Min(interval * P2(k), max)
  }

  /** Intervals with which the arithmetic stays within 64 bits. */
  predicate Safe(interval: int, max: int) {
    (interval == 0 && max >= 0) || (0 < interval < HALF && 0 <= max < HALF)
  }

  lemma BoundDoubles(k: nat, interval: int, max: int)
    requires Safe(interval, max)
    ensures interval * P2(k + 1) == 2 * (interval * P2(k)) && interval * P2(k) >= 0
    ensures 0 <= Bound(k, interval, max) && (interval > 0 ==> Bound(k, interval, max) < HALF)
    ensures interval == 0 ==> Bound(k, interval, max) == 0
    ensures Bound(k + 1, interval, max) == Min(2 * Bound(k, interval, max), max)
  {
    assert P2(k + 1) == 2 * P2(k);
    assert P2(0) == 1;
  }

  /** The loop's doubling and capping computes that bound. */
  lemma {:induction false} BackoffIs(polls: seq<Poll>, i: nat, interval: int, max: int)
    requires i <= |polls| && Int64(interval) && Int64(max) && Safe(interval, max)
    ensures Backoff(polls, i, interval, max) == Bound(Errors(polls, i), interval, max)
  {
    if i > 0 && polls[i - 1].Failed? {
      BackoffIs(polls, i - 1, interval, max);
      BoundDoubles(Errors(polls, i - 1), interval, max);
    }
  }

  /** The sleeps possible after `k` consecutive errors are exactly those from 0 to the bound. */
  lemma DelaysExactly(polls: seq<Poll>, i: nat, interval: int, max: int, d: int)
    requires i <= |polls| && Int64(interval) && Int64(max) && Safe(interval, max)
    ensures (exists random: nat :: EventsFor(Failed(random), Backoff(polls, i, interval, max), interval)
                                   == [Polled(Failed(random)), Slept(d)])
            <==> 0 <= d <= Bound(Errors(polls, i), interval, max)
  {
    var b := Backoff(polls, i, interval, max);
    BackoffIs(polls, i, interval, max);
    BoundDoubles(Errors(polls, i), interval, max);
    DelayRange(b, d);
    forall random: nat
      ensures EventsFor(Failed(random), b, interval) == [Polled(Failed(random)), Slept(d)] <==> Delay(random, b) == d
    {
      SleepOfFailure(random, b, interval);
    }
  }

  lemma SleepOfFailure(random: nat, backoff: int, interval: int)
    ensures EventsFor(Failed(random), backoff, interval) == [Polled(Failed(random)), Slept(Delay(random, backoff))]
  {
  }

  lemma DelayRange(b: nat, d: int)
    requires b < INT64_MAX
    ensures (exists random: nat :: Delay(random, b) == d) <==> 0 <= d <= b
  {
    if 0 <= d <= b {
      assert Delay(d, b) == d;
    }
  }

  lemma {:induction false} TurnOfLog(log: seq<seq<Event>>, polls: seq<Poll>, interval: int, max: int, i: nat)
    requires IsLog(log, polls, interval, max) && i < |log|
    ensures i < |polls| && log[i] == EventsFor(polls[i], Backoff(polls, i, interval, max), interval)
  {
    if i < |log| - 1 {
      TurnOfLog(log[..|log| - 1], polls, interval, max, i);
    }
  }

  /** What the loop does in a turn: after an error one sleep within the bound for the errors so
      far, without a job one of the interval, with a job none. */
  predicate RightTurn(turn: seq<Event>, poll: Poll, bound: int, interval: int) {
    && turn != [] && turn[0] == Polled(poll)
    && match poll
       case Failed(_) => |turn| == 2 && turn[1].Slept? && 0 <= turn[1].delay <= bound
       case Nothing => |turn| == 2 && turn[1] == Slept(interval)
       case Received(j) =>
         if j.verified then |turn| == 3 && turn[1] == Dispatched(j.id, j.status) && turn[2] == Posted(j.id, j.status)
         else |turn| == 2 && turn[1] == Posted(j.id, "failed")
  }

  /** In every run with safe durations each turn sleeps as it should, and not otherwise. */
  lemma SleepsAre(log: seq<seq<Event>>, polls: seq<Poll>, interval: int, max: int, i: nat)
    requires IsLog(log, polls, interval, max) && i < |log|
    requires Int64(interval) && Int64(max) && Safe(interval, max)
    ensures i < |polls| && RightTurn(log[i], polls[i], Bound(Errors(polls, i), interval, max), interval)
  {
    TurnOfLog(log, polls, interval, max, i);
    BackoffIs(polls, i, interval, max);
    BoundDoubles(Errors(polls, i), interval, max);
    if polls[i].Failed? {
      SleepOfFailure(polls[i].random, Backoff(polls, i, interval, max), interval);
    }
  }

  // -------------------------------------------------------------------- panics

  ghost predicate NeverPanics(interval: int, max: int)
    requires Int64(interval) && Int64(max)
  {
    forall polls: seq<Poll>, i: nat :: i < |polls| ==> !PanicsAt(polls, i, interval, max)
  }

  function Failures(n: nat): (polls: seq<Poll>)
    ensures |polls| == n && forall i :: 0 <= i < n ==> polls[i] == Failed(0)
  {
    if n == 0 then [] else Failures(n - 1) + [Failed(0)]
  }

  lemma {:induction false} BackoffOfPrefix(a: seq<Poll>, b: seq<Poll>, i: nat, interval: int, max: int)
    requires i <= |a| && i <= |b| && forall j :: 0 <= j < i ==> a[j] == b[j]
    ensures Backoff(a, i, interval, max) == Backoff(b, i, interval, max)
  {
    if i > 0 {
      BackoffOfPrefix(a, b, i - 1, interval, max);
    }
  }

  lemma {:induction false} BackoffInRange(polls: seq<Poll>, i: nat, interval: int, max: int)
    requires i <= |polls| && Int64(interval) && Int64(max)
    ensures Int64(Backoff(polls, i, interval, max))
  {
    if i > 0 {
      BackoffInRange(polls, i - 1, interval, max);
    }
  }

  function AfterErrors(n: nat, interval: int, max: int): int {
    Backoff(Failures(n), n, interval, max)
  }

  lemma AfterErrorsNext(n: nat, interval: int, max: int)
    requires Int64(interval) && Int64(max)
    ensures AfterErrors(0, interval, max) == interval
    ensures Int64(AfterErrors(n, interval, max)) && Int64(AfterErrors(n + 1, interval, max))
    ensures AfterErrors(n + 1, interval, max) == Raised(AfterErrors(n, interval, max), max)
  {
    BackoffOfPrefix(Failures(n + 1), Failures(n), n, interval, max);
    BackoffInRange(Failures(n), n, interval, max);
    BackoffInRange(Failures(n + 1), n + 1, interval, max);
  }

  /** A run that panics once the backoff cannot be increased. */
  lemma PanicFound(n: nat, interval: int, max: int)
    requires Int64(interval) && Int64(max)
    requires Wrap(AfterErrors(n, interval, max) + 1) <= 0
    ensures !NeverPanics(interval, max)
  {
    BackoffOfPrefix(Failures(n + 1), Failures(n), n, interval, max);
    assert PanicsAt(Failures(n + 1), n, interval, max);
  }

  lemma WrapDouble(c: int)
    requires HALF <= c <= INT64_MAX
    ensures Wrap(c * 2) == c * 2 - 0x1_0000_0000_0000_0000 < -1
  {
  }

  lemma WrapNegative(c: int)
    requires Int64(c) && (c < 0 || c == INT64_MAX)
    ensures Wrap(c + 1) <= 0
  {
  }

  /** From half the range on the next doubling overflows. */
  lemma LargePanics(n: nat, interval: int, max: int)
    requires Int64(interval) && Int64(max) && AfterErrors(n, interval, max) >= HALF
    ensures !NeverPanics(interval, max)
  {
    var c := AfterErrors(n, interval, max);
    AfterErrorsNext(n, interval, max);
    WrapDouble(c);
    WrapNegative(AfterErrors(n + 1, interval, max));
    PanicFound(n + 1, interval, max);
  }

  lemma {:induction false} GrowsToPanic(n: nat, interval: int, max: int)
    requires Int64(interval) && Int64(max) && max >= HALF && 0 < AfterErrors(n, interval, max)
    ensures !NeverPanics(interval, max)
    decreases HALF - AfterErrors(n, interval, max)
  {
    if AfterErrors(n, interval, max) >= HALF {
      LargePanics(n, interval, max);
    } else {
      AfterErrorsNext(n, interval, max);
      GrowsToPanic(n + 1, interval, max);
    }
  }

  /** No run panics exactly when the interval is 0, or both durations are below 2^62 ns. */
  lemma NeverPanicsExactly(interval: int, max: int)
    requires Int64(interval) && Int64(max)
    ensures NeverPanics(interval, max) <==> Safe(interval, max)
  {
    AfterErrorsNext(0, interval, max);
    if Safe(interval, max) {
      forall polls: seq<Poll>, i: nat | i < |polls| ensures !PanicsAt(polls, i, interval, max) {
        BackoffIs(polls, i, interval, max);
        BoundDoubles(Errors(polls, i), interval, max);
      }
    } else if interval < 0 {
      WrapNegative(interval);
      PanicFound(0, interval, max);
    } else if interval >= HALF {
      LargePanics(0, interval, max);
    } else if max < 0 {
      WrapNegative(AfterErrors(1, interval, max));
      PanicFound(1, interval, max);
    } else {
      GrowsToPanic(0, interval, max);
    }
  }

  // ---------------------------------------------------------------------- jobs

  lemma PollIsSettled(poll: Poll, backoff: int, interval: int)
    ensures Observed(Idle, EventsFor(poll, backoff, interval)) == Idle
  {
    var e := EventsFor(poll, backoff, interval);
    ObservedOne(Idle, Polled(poll));
    match poll {
      case Received(j) =>
        ObservedConcat(Idle, [Polled(poll)], JobEvents(j));
        JobIsSettled(j);
      case _ =>
        ObservedConcat(Idle, [Polled(poll)], [e[1]]);
        ObservedOne(Idle, e[1]);
    }
  }

  lemma SettledAfter(before: seq<seq<Event>>, turn: seq<Event>)
    requires Observed(Idle, Flat(before)) == Idle && Observed(Idle, turn) == Idle
    ensures Observed(Idle, Flat(before + [turn])) == Idle
  {
    assert (before + [turn])[..|before|] == before;
    ObservedConcat(Idle, Flat(before), turn);
  }

  lemma LastTurn(log: seq<seq<Event>>, polls: seq<Poll>, interval: int, max: int) returns (front: seq<seq<Event>>, turn: seq<Event>)
    requires IsLog(log, polls, interval, max) && log != []
    ensures log == front + [turn] && IsLog(front, polls, interval, max) && Observed(Idle, turn) == Idle
  {
    var i := |log| - 1;
    front, turn := log[..i], log[i];
    PollIsSettled(polls[i], Backoff(polls, i, interval, max), interval);
  }

  /** In every run a job received is dispatched only if its signature verifies, once, and
      has exactly one result posted, its own, before the next poll: in each turn and over
      all turns. */
  lemma {:induction false} JobsAreSettled(log: seq<seq<Event>>, polls: seq<Poll>, interval: int, max: int)
    requires IsLog(log, polls, interval, max)
    ensures Observed(Idle, Flat(log)) == Idle
    ensures forall turn :: turn in log ==> Observed(Idle, turn) == Idle
  {
    if log != [] {
      var front, turn := LastTurn(log, polls, interval, max);
      JobsAreSettled(front, polls, interval, max);
      SettledAfter(front, turn);
    }
  }
}
