/** The SDK transport's retry loop: bounded, one refresh, safe for calls that must not repeat (http.ts, errors.ts). */
module HttpRetry {
  import opened Collections
  import opened Rounding

  // ----- errors

  datatype Failure =
    | HttpFailure(status: int)
    | AuthFailure(status: int)
    | RateLimited(retryAfterSeconds: Option<real>)
    | NetworkFailure
    | TimeoutFailure
  {
    function Status(): int {
      match this
      case HttpFailure(status) => status
      case AuthFailure(status) => status
      case RateLimited(_) => 429
      case NetworkFailure => 0
      case TimeoutFailure => 0
    }

    /** Whether the same request could plausibly succeed if repeated. */
    predicate Retryable() {
      TimeoutFailure? || Status() == 0 || Status() == 408 || Status() == 429 || Status() >= 500
    }
  }

  // ----- the surroundings of one call

  datatype RetryPolicy = RetryPolicy(maxRetries: int, baseDelayMs: real, maxDelayMs: real)

  /** What the network does with a sent request; `Foreign` is an error the SDK does not wrap. */
  datatype Response = Ok | Status(code: int, retryAfterSeconds: Option<real>) | Unreachable | TimedOut | Foreign

  datatype Refresh = Fresh | Stale | Throws

  datatype Call = Call(idempotent: bool, skipAuthRefresh: bool, hasHook: bool, retry: Option<RetryPolicy>)

  /**
   * The n-th attempt starts at tick 5n, sends at 5n+1 and has its answer at 5n+2; the hook is called at
   * 5n+3 and a sleep ends at 5n+4. The caller's signal, if it aborts at all, is aborted from `abortAt` on.
   */
  datatype World = World(
    response: nat -> Response,
    refresh: Refresh,
    random: nat -> real,
    abortAt: Option<nat>)
  {
    predicate Aborted(tick: nat) { abortAt.Some? && abortAt.value <= tick }
  }

  datatype Outcome = Succeeded | Failed(failure: Failure) | Escaped

  datatype Event =
    | Attempt(tick: nat, sent: bool, outcome: Outcome)
    | Refreshed(tick: nat, result: Refresh)
    | Slept(tick: nat, delayMs: real, completed: bool)

  datatype Final = Returned | Threw(failure: Failure) | Propagated

  datatype Trace = Trace(events: seq<Event>, final: Final)

  function OutcomeOf(r: Response): Outcome {
    match r
    case Ok => Succeeded
    case Status(code, retryAfter) =>
      Failed(if code == 429 then RateLimited(retryAfter)
             else if code == 401 || code == 403 then AuthFailure(code)
             else HttpFailure(code))
    case Unreachable => Failed(NetworkFailure)
    case TimedOut => Failed(TimeoutFailure)
    case Foreign => Escaped
  }

  /** One attempt: an aborted signal is noticed before sending, and ends a request in flight. */
  function AttemptAt(w: World, n: nat): (e: Event)
    ensures e.Attempt?
  {
    if w.Aborted(5 * n) || w.Aborted(5 * n + 1) then Attempt(5 * n + 1, false, Failed(TimeoutFailure))
    else if w.Aborted(5 * n + 2) then Attempt(5 * n + 1, true, Failed(TimeoutFailure))
    else Attempt(5 * n + 1, true, OutcomeOf(w.response(n)))
  }

  function MinReal(a: real, b: real): real { if a <= b then a else b }

  function PowerOfTwo(n: nat): real { if n == 0 then 1.0 else 2.0 * PowerOfTwo(n - 1) }

  function Ceiling(n: nat, policy: RetryPolicy): real {
    MinReal(policy.maxDelayMs, policy.baseDelayMs * PowerOfTwo(n))
  }

  /** Full jitter under an exponential ceiling. */
  function BackoffDelay(n: nat, policy: RetryPolicy, random: real): (ms: int)
    ensures ms as real - 0.5 <= random * Ceiling(n, policy) < ms as real + 0.5
  {
    (random * Ceiling(n, policy) + 0.5).Floor
  }

  function DelayMs(n: nat, policy: RetryPolicy, failure: Failure, random: real): real {
    MinReal(policy.maxDelayMs,
            if failure.RateLimited? && failure.retryAfterSeconds.Some? then failure.retryAfterSeconds.value * 1000.0
            else BackoffDelay(n, policy, random) as real)
  }

  predicate WantsRefresh(c: Call, failure: Failure, refreshed: bool) {
    failure.Status() == 401 && !refreshed && !c.skipAuthRefresh && c.hasHook
  }

  predicate GivesUp(c: Call, failure: Failure, n: nat) {
    || !(failure.Status() == 429 || c.idempotent)
    || !failure.Retryable()
    || c.retry.None? || n >= c.retry.value.maxRetries
  }

  function Retries(c: Call): nat {
    if c.retry.Some? then Max(0, c.retry.value.maxRetries) else 0
  }

  function Before(events: seq<Event>, t: Trace): Trace { Trace(events + t.events, t.final) }

  /** The loop from its n-th iteration on. */
  function Run(c: Call, w: World, n: nat, refreshed: bool): Trace
    decreases !refreshed, Max(0, Retries(c) - n)
  {
    var attempt := AttemptAt(w, n);
    match attempt.outcome
    case Succeeded => Trace([attempt], Returned)
    case Escaped => Trace([attempt], Propagated)
    case Failed(failure) =>
      if WantsRefresh(c, failure, refreshed) then
        match w.refresh
        case Fresh => Before([attempt, Refreshed(5 * n + 3, Fresh)], Run(c, w, n + 1, true))
        case Stale => Before([attempt, Refreshed(5 * n + 3, Stale)], AfterFailure(c, w, n, true, failure))
        case Throws => Trace([attempt, Refreshed(5 * n + 3, Throws)], Propagated)
      else Before([attempt], AfterFailure(c, w, n, refreshed, failure))
  }

  function AfterFailure(c: Call, w: World, n: nat, refreshed: bool, failure: Failure): Trace
    decreases !refreshed, Max(0, Retries(c) - n), 0
  {
    if GivesUp(c, failure, n) then Trace([], Threw(failure))
    else
      var delay := DelayMs(n, c.retry.value, failure, w.random(n));
      if w.Aborted(5 * n + 4) then Trace([Slept(5 * n + 4, delay, false)], Threw(TimeoutFailure))
      else Before([Slept(5 * n + 4, delay, true)], Run(c, w, n + 1, refreshed))
  }

  /** `HttpClient.request`. */
  method Request(c: Call, w: World) returns (t: Trace)
    ensures t == Run(c, w, 0, false)
  {
    hide AttemptAt, GivesUp, DelayMs;
    var events: seq<Event> := [];
    var n: nat, refreshed := 0, false;
    assert Before([], Run(c, w, 0, false)) == Run(c, w, 0, false);
    while true
      invariant Before(events, Run(c, w, n, refreshed)) == Run(c, w, 0, false)
      decreases !refreshed, Max(0, Retries(c) - n)
    {
      ghost var start, wasRefreshed := events, refreshed;
      var attempt := AttemptAt(w, n);
      events := events + [attempt];
      if attempt.outcome.Succeeded? { return Trace(events, Returned); }
      if attempt.outcome.Escaped? { return Trace(events, Propagated); }
      var failure := attempt.outcome.failure;
      if WantsRefresh(c, failure, refreshed) {
        refreshed := true;
        events := events + [Refreshed(5 * n + 3, w.refresh)];
        assert events == start + [attempt, Refreshed(5 * n + 3, w.refresh)];
        if w.refresh == Throws { return Trace(events, Propagated); }
        if w.refresh == Fresh {
          BeforeTwice(start, [attempt, Refreshed(5 * n + 3, Fresh)], Run(c, w, n + 1, true));
          n := n + 1;
          continue;
        }
        BeforeTwice(start, [attempt, Refreshed(5 * n + 3, Stale)], AfterFailure(c, w, n, true, failure));
      } else {
        BeforeTwice(start, [attempt], AfterFailure(c, w, n, refreshed, failure));
      }
      ghost var failed := events;
      assert Before(failed, AfterFailure(c, w, n, refreshed, failure)) == Run(c, w, 0, false);
      if GivesUp(c, failure, n) {
        assert failed + [] == failed;
        return Trace(events, Threw(failure));
      }
      MustHaveBudget(c, failure, n);
      var delay := DelayMs(n, c.retry.value, failure, w.random(n));
      if w.Aborted(5 * n + 4) {
        return Trace(events + [Slept(5 * n + 4, delay, false)], Threw(TimeoutFailure));
      }
      events := events + [Slept(5 * n + 4, delay, true)];
      BeforeTwice(failed, [Slept(5 * n + 4, delay, true)], Run(c, w, n + 1, refreshed));
      n := n + 1;
    }
  }

  lemma BeforeTwice(a: seq<Event>, b: seq<Event>, t: Trace)
    ensures Before(a, Before(b, t)) == Before(a + b, t)
  {
    assert a + (b + t.events) == a + b + t.events;
  }

  lemma MustHaveBudget(c: Call, failure: Failure, n: nat)
    requires !GivesUp(c, failure, n)
    ensures c.retry.Some? && n < Retries(c)
  {
  }

  // ----- bounds

  function IsAttempt(e: Event): int { if e.Attempt? then 1 else 0 }

  function IsRefresh(e: Event): int { if e.Refreshed? then 1 else 0 }

  function IsSleep(e: Event): int { if e.Slept? then 1 else 0 }

  function SleptMs(events: seq<Event>): real {
    if events == [] then 0.0 else (if events[0].Slept? then events[0].delayMs else 0.0) + SleptMs(events[1..])
  }

  lemma CountSplit(f: Event -> int, head: seq<Event>, tail: seq<Event>)
    requires |head| <= 2
    ensures Sum(f, head + tail) ==
      Sum(f, tail) + (if |head| > 0 then f(head[0]) else 0) + (if |head| > 1 then f(head[1]) else 0)
  {
    SumAppend(f, head, tail);
    if |head| == 1 {
      SumSingleton(f, head[0]);
      assert head == [head[0]];
    } else if |head| == 2 {
      SumAppend(f, [head[0]], [head[1]]);
      SumSingleton(f, head[0]);
      SumSingleton(f, head[1]);
      assert head == [head[0]] + [head[1]];
    }
  }

  /** At most maxRetries + 2 attempts, one refresh and maxRetries sleeps, from any point of the loop. */
  lemma {:induction false} LoopBounds(c: Call, w: World, n: nat, refreshed: bool)
    ensures var t := Run(c, w, n, refreshed).events;
      && Sum(IsAttempt, t) <= Max(0, Retries(c) - n) + 1 + (if refreshed then 0 else 1)
      && Sum(IsRefresh, t) <= (if refreshed || c.skipAuthRefresh then 0 else 1)
      && Sum(IsSleep, t) <= Max(0, Retries(c) - n)
    decreases !refreshed, Max(0, Retries(c) - n), 1
  {
    hide Sum, AttemptAt, GivesUp, DelayMs;
    var attempt := AttemptAt(w, n);
    var t := Run(c, w, n, refreshed);
    match attempt.outcome {
      case Succeeded => Split3([attempt], []);
      case Escaped => Split3([attempt], []);
      case Failed(failure) =>
        if WantsRefresh(c, failure, refreshed) {
          match w.refresh {
            case Fresh =>
              LoopBounds(c, w, n + 1, true);
              Split3([attempt, Refreshed(5 * n + 3, Fresh)], Run(c, w, n + 1, true).events);
            case Stale =>
              FailureBounds(c, w, n, true, failure);
              Split3([attempt, Refreshed(5 * n + 3, Stale)], AfterFailure(c, w, n, true, failure).events);
            case Throws =>
              Split3([attempt, Refreshed(5 * n + 3, Throws)], []);
          }
        } else {
          FailureBounds(c, w, n, refreshed, failure);
          Split3([attempt], AfterFailure(c, w, n, refreshed, failure).events);
        }
    }
  }

  lemma Split3(head: seq<Event>, tail: seq<Event>)
    requires 1 <= |head| <= 2
    ensures forall f | f == IsAttempt || f == IsRefresh || f == IsSleep ::
      Sum(f, head + tail) == Sum(f, tail) + f(head[0]) + (if |head| > 1 then f(head[1]) else 0)
    ensures Sum(IsAttempt, []) == Sum(IsRefresh, []) == Sum(IsSleep, []) == 0
    ensures tail == [] ==> head + tail == head
  {
    CountSplit(IsAttempt, head, tail);
    CountSplit(IsRefresh, head, tail);
    CountSplit(IsSleep, head, tail);
  }

  lemma {:induction false} FailureBounds(c: Call, w: World, n: nat, refreshed: bool, failure: Failure)
    ensures var t := AfterFailure(c, w, n, refreshed, failure).events;
      && Sum(IsAttempt, t) <= Max(0, Retries(c) - n) + (if refreshed then 0 else 1)
      && Sum(IsRefresh, t) <= (if refreshed || c.skipAuthRefresh then 0 else 1)
      && Sum(IsSleep, t) <= Max(0, Retries(c) - n)
    decreases !refreshed, Max(0, Retries(c) - n), 0
  {
    hide Sum, AttemptAt, GivesUp, DelayMs, Run;
    var t := AfterFailure(c, w, n, refreshed, failure);
    if GivesUp(c, failure, n) {
      Split3([Slept(0, 0.0, false)], []);
    } else {
      MustHaveBudget(c, failure, n);
      var delay := DelayMs(n, c.retry.value, failure, w.random(n));
      if w.Aborted(5 * n + 4) {
        Split3([Slept(5 * n + 4, delay, false)], []);
      } else {
        LoopBounds(c, w, n + 1, refreshed);
        Split3([Slept(5 * n + 4, delay, true)], Run(c, w, n + 1, refreshed).events);
      }
    }
  }

  /** Jitter in [0, 1), and no negative delay anywhere in the policy or the server's advice. */
  ghost predicate Sane(c: Call, w: World) {
    && (forall n: nat :: 0.0 <= w.random(n) < 1.0)
    && (forall n: nat :: w.response(n).Status? && w.response(n).retryAfterSeconds.Some? ==>
          w.response(n).retryAfterSeconds.value >= 0.0)
    && (c.retry.Some? ==> c.retry.value.baseDelayMs >= 0.0 && c.retry.value.maxDelayMs >= 0.0)
  }

  /** A sleep keeps to the cap and is cut short exactly by an abort; no attempt is sent after the caller aborts. */
  predicate Disciplined(c: Call, w: World, e: Event) {
    && (e.Slept? ==> c.retry.Some? && 0.0 <= e.delayMs <= c.retry.value.maxDelayMs)
    && (e.Slept? ==> (e.completed <==> !w.Aborted(e.tick)))
    && (e.Attempt? && e.sent ==> !w.Aborted(e.tick))
  }

  lemma {:induction false} PowerPositive(n: nat)
    ensures PowerOfTwo(n) >= 1.0
  {
    if n > 0 { PowerPositive(n - 1); }
  }

  lemma BackoffNonNegative(n: nat, policy: RetryPolicy, random: real)
    requires 0.0 <= random < 1.0 && policy.baseDelayMs >= 0.0 && policy.maxDelayMs >= 0.0
    ensures BackoffDelay(n, policy, random) >= 0
  {
    PowerPositive(n);
    assert policy.baseDelayMs * PowerOfTwo(n) >= 0.0;
    var ceiling := Ceiling(n, policy);
    assert random * ceiling >= 0.0;
  }

  lemma {:induction false} EveryEventIsDisciplined(c: Call, w: World, n: nat, refreshed: bool)
    requires Sane(c, w)
    ensures forall e | e in Run(c, w, n, refreshed).events :: Disciplined(c, w, e)
    decreases !refreshed, Max(0, Retries(c) - n), 1
  {
    hide DelayMs, GivesUp, Sane;
    var attempt := AttemptAt(w, n);
    if attempt.outcome.Failed? {
      var failure := attempt.outcome.failure;
      if WantsRefresh(c, failure, refreshed) {
        if w.refresh == Fresh { EveryEventIsDisciplined(c, w, n + 1, true); }
        if w.refresh == Stale { FailureIsDisciplined(c, w, n, true, failure); }
      } else {
        FailureIsDisciplined(c, w, n, refreshed, failure);
      }
    }
  }

  lemma {:induction false} FailureIsDisciplined(c: Call, w: World, n: nat, refreshed: bool, failure: Failure)
    requires Sane(c, w) && AttemptAt(w, n).outcome == Failed(failure)
    ensures forall e | e in AfterFailure(c, w, n, refreshed, failure).events :: Disciplined(c, w, e)
    decreases !refreshed, Max(0, Retries(c) - n), 0
  {
    hide Run, BackoffDelay, GivesUp;
    if !GivesUp(c, failure, n) {
      MustHaveBudget(c, failure, n);
      EveryEventIsDisciplined(c, w, n + 1, refreshed);
      BackoffNonNegative(n, c.retry.value, w.random(n));
    }
  }

  lemma {:induction false} SleepAddsUp(c: Call, w: World, events: seq<Event>)
    requires c.retry.Some? && forall e | e in events :: Disciplined(c, w, e)
    ensures 0.0 <= SleptMs(events) <= Sum(IsSleep, events) as real * c.retry.value.maxDelayMs
  {
    if events != [] {
      var e, rest := events[0], events[1..];
      assert events == [e] + rest && e in events;
      SleepAddsUp(c, w, rest);
      CountSplit(IsSleep, [e], rest);
      var cap := c.retry.value.maxDelayMs;
      assert (Sum(IsSleep, rest) + 1) as real * cap == Sum(IsSleep, rest) as real * cap + cap;
    }
  }

  /** The whole call: bounded attempts, one refresh, bounded sleeping, no attempt sent after the caller aborts. */
  lemma RequestIsBounded(c: Call, w: World)
    requires Sane(c, w)
    ensures var t := Run(c, w, 0, false).events;
      && Sum(IsAttempt, t) <= Retries(c) + 2
      && Sum(IsRefresh, t) <= 1
      && (c.skipAuthRefresh ==> Sum(IsRefresh, t) == 0)
      && Sum(IsSleep, t) <= Retries(c)
      && (c.retry.Some? ==> SleptMs(t) <= Retries(c) as real * c.retry.value.maxDelayMs)
      && forall e | e in t && e.Attempt? && e.sent :: !w.Aborted(e.tick)
  {
    hide Run, Sum;
    var t := Run(c, w, 0, false).events;
    LoopBounds(c, w, 0, false);
    EveryEventIsDisciplined(c, w, 0, false);
    SumNonNegative(IsRefresh, t);
    if c.retry.Some? {
      SleepAddsUp(c, w, t);
      var cap, sleeps := c.retry.value.maxDelayMs, Sum(IsSleep, t);
      assert (Retries(c) - sleeps) as real * cap >= 0.0;
      assert Retries(c) as real * cap == sleeps as real * cap + (Retries(c) - sleeps) as real * cap;
    }
  }

  // ----- what is sent after the caller aborts

  predicate Sends(e: Event) { e.Refreshed? || (e.Attempt? && e.sent) }

  /** The event sends a request although the caller has aborted. */
  predicate SendsLate(w: World, e: Event) { Sends(e) && w.Aborted(e.tick) }

  /** A call that has refreshed, skips refreshing or has no hook refreshes no more, and sends nothing late. */
  lemma {:induction false} NoRefreshEvent(c: Call, w: World, n: nat, refreshed: bool)
    requires refreshed || c.skipAuthRefresh || !c.hasHook
    ensures forall e | e in Run(c, w, n, refreshed).events :: !e.Refreshed? && !SendsLate(w, e)
    decreases Max(0, Retries(c) - n)
  {
    hide DelayMs;
    var attempt := AttemptAt(w, n);
    if attempt.outcome.Failed? && !GivesUp(c, attempt.outcome.failure, n) {
      NoRefreshEvent(c, w, n + 1, refreshed);
    }
  }

  /** The n-th answer is a failure after which the loop sleeps and tries again; a 401 never is. */
  predicate Repeated(c: Call, w: World, n: nat) {
    OutcomeOf(w.response(n)).Failed? && !GivesUp(c, OutcomeOf(w.response(n)).failure, n)
  }

  /** The caller aborts between the answer to the first 401, reached from the n-th attempt on, and the hook. */
  predicate AbortsBeforeHook(c: Call, w: World, n: nat) {
    && c.hasHook && !c.skipAuthRefresh && w.abortAt.Some? && w.abortAt.value % 5 == 3
    && var last := w.abortAt.value / 5;
       && n <= last && OutcomeOf(w.response(last)) == Failed(AuthFailure(401))
       && forall i | n <= i < last :: Repeated(c, w, i)
  }

  /** That abort falls right here, or after this failure has been slept over. */
  lemma HookOrLater(c: Call, w: World, n: nat)
    ensures AbortsBeforeHook(c, w, n) <==>
      || (AttemptAt(w, n).outcome == Failed(AuthFailure(401)) && c.hasHook && !c.skipAuthRefresh
          && w.Aborted(5 * n + 3))
      || (Repeated(c, w, n) && !w.Aborted(5 * n + 4) && AbortsBeforeHook(c, w, n + 1))
  {
    if AbortsBeforeHook(c, w, n) && w.abortAt.value / 5 > n {
      assert Repeated(c, w, n);
    }
    if w.Aborted(5 * n + 3) && !w.Aborted(5 * n + 2) {
      assert w.abortAt.value == 5 * n + 3 && w.abortAt.value / 5 == n;
    }
  }

  lemma {:induction false} SendsLateFrom(c: Call, w: World, n: nat)
    ensures (exists e :: e in Run(c, w, n, false).events && SendsLate(w, e)) <==> AbortsBeforeHook(c, w, n)
    decreases Max(0, Retries(c) - n)
  {
    hide DelayMs, AbortsBeforeHook;
    HookOrLater(c, w, n);
    var attempt := AttemptAt(w, n);
    var t := Run(c, w, n, false);
    assert !SendsLate(w, attempt);
    if attempt.outcome.Failed? {
      var failure := attempt.outcome.failure;
      if WantsRefresh(c, failure, false) {
        assert failure == AuthFailure(401) && GivesUp(c, failure, n);
        var hook := Refreshed(5 * n + 3, w.refresh);
        assert t.events[1] == hook && (SendsLate(w, hook) <==> w.Aborted(5 * n + 3));
        NoRefreshEvent(c, w, n + 1, true);
      } else if !GivesUp(c, failure, n) && !w.Aborted(5 * n + 4) {
        SendsLateFrom(c, w, n + 1);
        assert t.events == [attempt] + ([t.events[1]] + Run(c, w, n + 1, false).events);
      }
    }
  }

  /** A call sends something after its caller aborted exactly when it aborts between the first 401 and its hook. */
  lemma SendsLateExactly(c: Call, w: World)
    ensures (exists e :: e in Run(c, w, 0, false).events && SendsLate(w, e)) <==> AbortsBeforeHook(c, w, 0)
  {
    SendsLateFrom(c, w, 0);
  }

  /** A caller that gives up just after a 401 arrives: the refresh goes out all the same. */
  lemma RefreshesAfterAbort(w: World)
    requires w.response(0) == Status(401, None) && w.abortAt == Some(3)
    ensures Run(PlainGet(0), w, 0, false).events[1..2] == [Refreshed(3, w.refresh)]
      && SendsLate(w, Refreshed(3, w.refresh))
  {
  }

  // ----- the attempt bound is reached

  /** Service errors until the retries run out, then an expired token, then success. */
  function Unlucky(maxRetries: nat): World {
    World((n: nat) => if n < maxRetries then Status(503, None) else if n == maxRetries then Status(401, None) else Ok,
          Fresh, (n: nat) => 0.0, None)
  }

  function PlainGet(maxRetries: nat): Call { Call(true, false, true, Some(RetryPolicy(maxRetries, 300.0, 8_000.0))) }

  lemma {:induction false} UnluckyFrom(maxRetries: nat, n: nat)
    requires n <= maxRetries
    ensures var t := Run(PlainGet(maxRetries), Unlucky(maxRetries), n, false);
      Sum(IsAttempt, t.events) == maxRetries - n + 2 && t.final == Returned
    decreases maxRetries - n
  {
    hide Sum, DelayMs;
    var c, w := PlainGet(maxRetries), Unlucky(maxRetries);
    var attempt := AttemptAt(w, n);
    if n == maxRetries {
      assert attempt.outcome == Failed(AuthFailure(401));
      var last := AttemptAt(w, n + 1);
      assert last.outcome == Succeeded;
      Split3([attempt, Refreshed(5 * n + 3, Fresh)], [last]);
      Split3([last], []);
    } else {
      assert attempt.outcome == Failed(HttpFailure(503));
      UnluckyFrom(maxRetries, n + 1);
      var slept := Slept(5 * n + 4, DelayMs(n, c.retry.value, HttpFailure(503), 0.0), true);
      var later := Run(c, w, n + 1, false).events;
      Split3([attempt], [slept] + later);
      Split3([slept], later);
    }
  }

  /** The refreshed attempt comes on top: maxRetries + 2 is reached for every retry budget. */
  lemma AttemptBoundIsTight(maxRetries: nat)
    ensures Sum(IsAttempt, Run(PlainGet(maxRetries), Unlucky(maxRetries), 0, false).events) == maxRetries + 2
  {
    UnluckyFrom(maxRetries, 0);
  }

  // ----- calls that must not repeat

  predicate HasAttempt(events: seq<Event>) { events != [] && (events[0].Attempt? || HasAttempt(events[1..])) }

  /** An attempt that may be repeated whatever the method: refused with 429, or with the one refreshed 401. */
  predicate NeverProcessed(attempt: Event, next: seq<Event>)
    requires attempt.Attempt?
  {
    && attempt.outcome.Failed?
    && (attempt.outcome.failure.Status() == 429
        || (attempt.outcome.failure.Status() == 401 && next != [] && next[0].Refreshed? && next[0].result == Fresh))
  }

  predicate SafeRepeats(events: seq<Event>) {
    events == [] ||
    ((events[0].Attempt? && HasAttempt(events[1..]) ==> NeverProcessed(events[0], events[1..]))
     && SafeRepeats(events[1..]))
  }

  /** A non-idempotent call only repeats attempts the server never processed. */
  lemma {:induction false} NonIdempotentRepeatsAreSafe(c: Call, w: World, n: nat, refreshed: bool)
    requires !c.idempotent
    ensures SafeRepeats(Run(c, w, n, refreshed).events)
    decreases !refreshed, Max(0, Retries(c) - n)
  {
    hide DelayMs, AttemptAt, HasAttempt, SafeRepeats;
    var attempt := AttemptAt(w, n);
    if attempt.outcome.Failed? {
      var failure := attempt.outcome.failure;
      if WantsRefresh(c, failure, refreshed) {
        if w.refresh == Fresh {
          NonIdempotentRepeatsAreSafe(c, w, n + 1, true);
          SafePrefix([attempt, Refreshed(5 * n + 3, Fresh)], Run(c, w, n + 1, true).events);
        } else if w.refresh == Stale {
          assert GivesUp(c, failure, n);
          SafeAlone([attempt, Refreshed(5 * n + 3, Stale)]);
          assert [attempt, Refreshed(5 * n + 3, Stale)] + [] == [attempt, Refreshed(5 * n + 3, Stale)];
        } else {
          SafeAlone([attempt, Refreshed(5 * n + 3, Throws)]);
        }
      } else if GivesUp(c, failure, n) {
        SafeAlone([attempt]);
        assert [attempt] + [] == [attempt];
      } else {
        var delay := DelayMs(n, c.retry.value, failure, w.random(n));
        if w.Aborted(5 * n + 4) {
          SafeAlone([attempt, Slept(5 * n + 4, delay, false)]);
          assert [attempt] + [Slept(5 * n + 4, delay, false)] == [attempt, Slept(5 * n + 4, delay, false)];
        } else {
          NonIdempotentRepeatsAreSafe(c, w, n + 1, refreshed);
          var later := Run(c, w, n + 1, refreshed).events;
          SafePrefix([attempt, Slept(5 * n + 4, delay, true)], later);
          assert [attempt] + ([Slept(5 * n + 4, delay, true)] + later)
            == [attempt, Slept(5 * n + 4, delay, true)] + later;
        }
      }
    } else {
      SafeAlone([attempt]);
    }
  }

  lemma SafeAlone(head: seq<Event>)
    requires 1 <= |head| <= 2 && head[0].Attempt? && (|head| == 2 ==> !head[1].Attempt?)
    ensures SafeRepeats(head)
  {
    SafePrefix(head, []);
  }

  lemma SafePrefix(head: seq<Event>, tail: seq<Event>)
    requires 1 <= |head| <= 2 && head[0].Attempt? && (|head| == 2 ==> !head[1].Attempt?)
    requires SafeRepeats(tail)
    requires HasAttempt(tail) ==> NeverProcessed(head[0], head[1..] + tail)
    ensures SafeRepeats(head + tail)
    ensures tail == [] ==> head + tail == head
  {
    var all := head + tail;
    assert all[1..] == head[1..] + tail;
    if |head| == 2 {
      assert all[1..][1..] == tail;
    } else {
      assert all[1..] == tail;
    }
  }

  /** Worth repeating: never answered, timed out, refused for rate, or failed on the server's side. */
  predicate Transient(status: int) { status == 0 || status == 408 || status == 429 || status >= 500 }

  /**
   * A failed attempt that calls for no refresh is repeated exactly when retries are left, the failure is
   * transient and the call may repeat it; the wait before is the server's advice, capped.
   */
  lemma RepeatsExactly(c: Call, w: World, n: nat, refreshed: bool, failure: Failure)
    requires AttemptAt(w, n).outcome == Failed(failure) && !WantsRefresh(c, failure, refreshed)
    requires !w.Aborted(5 * n + 4)
    ensures var later := Run(c, w, n, refreshed).events[1..];
      && (HasAttempt(later) <==>
            n < Retries(c) && Transient(failure.Status()) && (c.idempotent || failure.Status() == 429))
      && (HasAttempt(later) && failure.RateLimited? && failure.retryAfterSeconds.Some? ==>
            later[0] == Slept(5 * n + 4,
                  MinReal(c.retry.value.maxDelayMs, failure.retryAfterSeconds.value * 1000.0), true))
  {
    var t := AfterFailure(c, w, n, refreshed, failure);
    assert Run(c, w, n, refreshed).events[1..] == t.events;
    if !GivesUp(c, failure, n) {
      var later := Run(c, w, n + 1, refreshed).events;
      assert later != [] && later[0].Attempt?;
      assert t.events[1..] == later;
    }
  }

  // ----- how a call ends

  /** A call returns exactly when its last event is a successful attempt. */
  lemma {:induction false} ReturnsOnSuccess(c: Call, w: World, n: nat, refreshed: bool)
    ensures var t := Run(c, w, n, refreshed);
      && t.events != []
      && (t.final == Returned <==> t.events[|t.events| - 1].Attempt? && t.events[|t.events| - 1].outcome == Succeeded)
    decreases !refreshed, Max(0, Retries(c) - n)
  {
    hide DelayMs;
    var attempt := AttemptAt(w, n);
    if attempt.outcome.Failed? {
      var failure := attempt.outcome.failure;
      if WantsRefresh(c, failure, refreshed) && w.refresh == Fresh {
        ReturnsOnSuccess(c, w, n + 1, true);
      } else if !GivesUp(c, failure, n) {
        ReturnsOnSuccess(c, w, n + 1, refreshed || WantsRefresh(c, failure, refreshed));
      }
    }
  }

  // ----- what each answer leads to

  /** The status of an answer; no answer counts as 0. */
  function StatusOf(r: Response): int { if r.Status? then r.code else 0 }

  /** The ceiling of the waits doubles from the base delay with every attempt, up to the cap. */
  lemma CeilingDoubles(n: nat, policy: RetryPolicy)
    requires policy.baseDelayMs >= 0.0
    ensures Ceiling(0, policy) == MinReal(policy.maxDelayMs, policy.baseDelayMs)
    ensures policy.maxDelayMs >= 0.0 ==> Ceiling(n + 1, policy) == MinReal(policy.maxDelayMs, 2.0 * Ceiling(n, policy))
  {
    var p := PowerOfTwo(n);
    PowerPositive(n);
    assert PowerOfTwo(n + 1) == 2.0 * p;
    assert policy.baseDelayMs * (2.0 * p) == 2.0 * (policy.baseDelayMs * p);
    assert policy.baseDelayMs * p >= 0.0;
  }

  /** The share of the ceiling in whole milliseconds. */
  predicate Nearest(ms: int, share: real, ceiling: real) { ms as real - 0.5 <= share * ceiling < ms as real + 0.5 }

  ghost predicate IsShare(delay: real, share: real, ceiling: real, cap: real) {
    exists ms: int :: Nearest(ms, share, ceiling) && delay == MinReal(cap, ms as real)
  }

  /** The wait is the server's advice, or else a random share of a doubling ceiling; capped. */
  ghost predicate WaitsFor(policy: RetryPolicy, n: nat, r: Response, random: real, delay: real) {
    if r.Status? && r.code == 429 && r.retryAfterSeconds.Some? then
      delay == MinReal(policy.maxDelayMs, 1_000.0 * r.retryAfterSeconds.value)
    else
      IsShare(delay, random, Ceiling(n, policy), policy.maxDelayMs)
  }

  lemma DelayIsWait(policy: RetryPolicy, n: nat, r: Response, random: real)
    requires OutcomeOf(r).Failed?
    ensures WaitsFor(policy, n, r, random, DelayMs(n, policy, OutcomeOf(r).failure, random))
  {
    hide MinReal, Ceiling, BackoffDelay;
    var ms := BackoffDelay(n, policy, random);
    assert Nearest(ms, random, Ceiling(n, policy));
    assert IsShare(MinReal(policy.maxDelayMs, ms as real), random, Ceiling(n, policy), policy.maxDelayMs);
  }

  /** A success returns; an error of a foreign kind escapes. */
  lemma FinalAnswers(c: Call, w: World, n: nat, refreshed: bool)
    requires !w.Aborted(5 * n + 2)
    ensures w.response(n) == Ok ==> Run(c, w, n, refreshed) == Trace([Attempt(5 * n + 1, true, Succeeded)], Returned)
    ensures w.response(n) == Foreign ==>
      Run(c, w, n, refreshed) == Trace([Attempt(5 * n + 1, true, Escaped)], Propagated)
  {
  }

  /**
   * Any other answer is repeated exactly when retries are left, its status is transient (none, 408, 429 or
   * 500 and up) and the call may repeat it, after the wait due; otherwise the call throws that answer. A
   * 401 that calls for a refresh is left to `RefreshAnswers`.
   */
  lemma FailedAnswers(c: Call, w: World, n: nat, refreshed: bool)
    requires !w.Aborted(5 * n + 4) && w.response(n) != Ok && w.response(n) != Foreign
    requires StatusOf(w.response(n)) != 401 || refreshed || c.skipAuthRefresh || !c.hasHook
    ensures var t, status := Run(c, w, n, refreshed), StatusOf(w.response(n));
      if n < Retries(c) && (status in {0, 408, 429} || status >= 500) && (c.idempotent || status == 429) then
        && |t.events| > 2 && t.events[1].Slept? && t.events[1].completed
        && WaitsFor(c.retry.value, n, w.response(n), w.random(n), t.events[1].delayMs)
        && t.events[2..] == Run(c, w, n + 1, refreshed).events && t.final == Run(c, w, n + 1, refreshed).final
      else
        |t.events| == 1 && t.final.Threw? && t.final.failure.Status() == status
  {
    hide DelayMs, WaitsFor;
    var r := w.response(n);
    var failure := OutcomeOf(r).failure;
    assert failure.Status() == StatusOf(r);
    var after := AfterFailure(c, w, n, refreshed, failure);
    var t := Run(c, w, n, refreshed);
    assert t == Before([Attempt(5 * n + 1, true, Failed(failure))], after);
    if !GivesUp(c, failure, n) {
      MustHaveBudget(c, failure, n);
      DelayIsWait(c.retry.value, n, r, w.random(n));
      var later := Run(c, w, n + 1, refreshed);
      ReturnsOnSuccess(c, w, n + 1, refreshed);
      assert after.events[1..] == later.events;
      assert t.events[2..] == later.events;
    }
  }

  /** The first 401 of a call with a hook goes to the hook, and a fresh token to one more attempt at once. */
  lemma RefreshAnswers(c: Call, w: World, n: nat)
    requires !w.Aborted(5 * n + 2) && StatusOf(w.response(n)) == 401 && !c.skipAuthRefresh && c.hasHook
    ensures var t := Run(c, w, n, false);
      && |t.events| >= 2 && t.events[1] == Refreshed(5 * n + 3, w.refresh)
      && (w.refresh == Fresh ==>
            t.events[2..] == Run(c, w, n + 1, true).events && t.final == Run(c, w, n + 1, true).final)
      && (w.refresh == Stale ==> |t.events| == 2 && t.final == Threw(AuthFailure(401)))
      && (w.refresh == Throws ==> |t.events| == 2 && t.final == Propagated)
  {
    var t := Run(c, w, n, false);
    assert GivesUp(c, AuthFailure(401), n);
    if w.refresh == Fresh {
      assert t.events[2..] == Run(c, w, n + 1, true).events;
    }
  }

  /** An abort before the answer ends the call with a timeout, after no more than an interrupted wait. */
  lemma AbortAnswers(c: Call, w: World, n: nat, refreshed: bool)
    requires w.Aborted(5 * n + 2)
    ensures var t := Run(c, w, n, refreshed);
      && t.final == Threw(TimeoutFailure) && 1 <= |t.events| <= 2
      && t.events[0].Attempt? && (t.events[0].sent <==> !w.Aborted(5 * n + 1))
      && (|t.events| == 2 ==> t.events[1].Slept? && !t.events[1].completed)
  {
  }
}
