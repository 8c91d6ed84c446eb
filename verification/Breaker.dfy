/** The circuit breaker and the retry loop of the messaging client. Times and delays are real numbers; the remote
    side, the clock and the jitter are arbitrary. */
module Breaker {
  import opened Prelude

  // ------------------------------------------------------------------ the breaker

  /** What the client records about one call, and an explicit reset. */
  datatype Event = Success | Failure(at: real) | Reset

  datatype State = State(failures: nat, openedAt: Option<real>)

  const CLOSED := State(0, None)

  function Record(s: State, threshold: nat, e: Event): State {
    match e
    case Failure(at) => State(s.failures + 1, if s.failures + 1 >= threshold then Some(at) else s.openedAt)
    case _ => CLOSED
  }

  function Replay(threshold: nat, history: seq<Event>): State {
    if history == [] then CLOSED
    else Record(Replay(threshold, history[..|history|-1]), threshold, history[|history|-1])
  }

  predicate IsOpen(s: State, now: real, reset: real) { s.openedAt.Some? && now - s.openedAt.value < reset }

  /** The length of the run of failures at the end of the history. */
  function Trailing(history: seq<Event>): nat {
    if history != [] && history[|history|-1].Failure? then 1 + Trailing(history[..|history|-1]) else 0
  }

  /** After any history the failure count is the length of the trailing run of failures, and the breaker has an
      opening time exactly when that run has reached the threshold; the time is that of the last failure. */
  lemma {:induction false} ReplayIsTrailing(threshold: nat, history: seq<Event>)
    requires threshold >= 1
    ensures Replay(threshold, history).failures == Trailing(history)
    ensures Replay(threshold, history).openedAt.Some? <==> Trailing(history) >= threshold
    ensures Trailing(history) >= threshold ==>
              history[|history|-1].Failure? && Replay(threshold, history).openedAt == Some(history[|history|-1].at)
    decreases |history|
  {
    if history != [] { ReplayIsTrailing(threshold, history[..|history|-1]); }
  }

  class CircuitBreaker {
    const threshold: nat
    const reset: real
    var failures: nat
    var openedAt: Option<real>
    ghost var history: seq<Event>

    /** The fields are what the recorded history says. */
    ghost predicate Valid()
      reads this
    {
      threshold >= 1 && State(failures, openedAt) == Replay(threshold, history)
    }

    constructor (failThreshold: nat, resetSeconds: real)
      requires failThreshold >= 1
      ensures Valid() && threshold == failThreshold && reset == resetSeconds && history == []
    {
      threshold, reset := failThreshold, resetSeconds;
      failures, openedAt, history := 0, None, [];
    }

    method RecordSuccess()
      requires Valid()
      modifies this
      ensures Valid() && history == old(history) + [Success]
    {
      failures, openedAt := 0, None;
      history := history + [Success];
    }

    method RecordFailure(now: real)
      requires Valid()
      modifies this
      ensures Valid() && history == old(history) + [Failure(now)]
    {
      failures := failures + 1;
      if failures >= threshold { openedAt := Some(now); }
      assert (history + [Failure(now)])[..|history|] == history;
      history := history + [Failure(now)];
    }

    method ResetBreaker()
      requires Valid()
      modifies this
      ensures Valid() && history == old(history) + [Reset]
    {
      failures, openedAt := 0, None;
      history := history + [Reset];
    }

    predicate Open(now: real)
      reads this
    {
      openedAt.Some? && now - openedAt.value < reset
    }
  }

  // ------------------------------------------------------------------ one request

  datatype Reply = NetworkError | Accepted | Rejected(status: int, metaCode: Option<int>, retryAfter: Option<real>)

  /** The remote side's reply to a call, the clock when it is recorded, and the jitter of the next delay. */
  datatype Answer = Answer(reply: Reply, at: real, jitter: real)

  datatype Outcome = Delivered | Permanent | Exhausted | Refused

  const RETRYABLE_META_CODES: set<int> := {4, 80007, 130429, 131048, 131056, 133016, 1, 2}

  const PERMANENT_META_CODES: set<int> :=
    {131047, 131051, 131026, 132000, 132001, 132005, 132007, 132012, 132015, 132016, 131008, 131009, 100, 190, 131064}

  predicate Retryable(r: Reply) {
    match r
    case NetworkError => true
    case Accepted => false
    case Rejected(status, code, _) =>
      if code.Some? && code.value in PERMANENT_META_CODES then false
      else if code.Some? && code.value in RETRYABLE_META_CODES then true
      else status == 429 || 500 <= status < 600
  }

  function Min(a: real, b: real): real { if a <= b then a else b }

  function Power(n: nat): real { if n == 0 then 1.0 else 2.0 * Power(n - 1) }

  function Backoff(attempt: nat): real { Min(Power(attempt), 30.0) }

  function Delay(attempt: nat, a: Answer): real {
    if a.reply.Rejected? && a.reply.retryAfter.Some? then Min(a.reply.retryAfter.value, 60.0)
    else a.jitter * Backoff(attempt)
  }

  /** What one request does: the events it records, the delays it sleeps, and how it ends. */
  datatype Trace = Trace(events: seq<Event>, sleeps: seq<real>, outcome: Outcome)

  /** The attempts from number `k` on. */
  function Attempts(answers: nat -> Answer, k: nat, attempts: nat): Trace
    requires k < attempts
    decreases attempts - k
  {
    var a := answers(k);
    if a.reply.Accepted? then Trace([Success], [], Delivered)
    else if !Retryable(a.reply) then Trace([Success], [], Permanent)
    else if k == attempts - 1 then Trace([Failure(a.at)], [], Exhausted)
    else
      var rest := Attempts(answers, k + 1, attempts);
      Trace([Failure(a.at)] + rest.events, [Delay(k, a)] + rest.sleeps, rest.outcome)
  }

  function Request(s: State, reset: real, now: real, answers: nat -> Answer, maxRetries: nat): Trace {
    if IsOpen(s, now, reset) then Trace([], [], Refused) else Attempts(answers, 0, maxRetries + 1)
  }

  /** One turn of the retry loop. */
  lemma AttemptStep(answers: nat -> Answer, k: nat, attempts: nat)
    requires k < attempts
    ensures var a, t := answers(k), Attempts(answers, k, attempts);
            && (a.reply.Accepted? ==> t == Trace([Success], [], Delivered))
            && (!a.reply.Accepted? && !Retryable(a.reply) ==> t == Trace([Success], [], Permanent))
            && (!a.reply.Accepted? && Retryable(a.reply) ==>
                  if k == attempts - 1 then t == Trace([Failure(a.at)], [], Exhausted)
                  else
                    var rest := Attempts(answers, k + 1, attempts);
                    t == Trace([Failure(a.at)] + rest.events, [Delay(k, a)] + rest.sleeps, rest.outcome))
  {
    hide Retryable, Delay;
  }

  class WhatsAppClient {
    const breaker: CircuitBreaker
    const maxRetries: nat

    constructor (b: CircuitBreaker, retries: nat)
      ensures breaker == b && maxRetries == retries
    {
      breaker, maxRetries := b, retries;
    }

    /** The retry loop. `calls` counts HTTP calls. */
    method Send(now: real, answers: nat -> Answer) returns (outcome: Outcome, calls: nat, sleeps: seq<real>)
      requires breaker.Valid()
      modifies breaker
      ensures breaker.Valid()
      ensures var t := Request(old(State(breaker.failures, breaker.openedAt)), breaker.reset, now, answers, maxRetries);
              && breaker.history == old(breaker.history) + t.events
              && outcome == t.outcome && sleeps == t.sleeps && calls == |t.events|
    {
      hide Retryable, Delay, Attempts;
      calls, sleeps := 0, [];
      if breaker.Open(now) {
        return Refused, calls, sleeps;
      }
      var attempts := maxRetries + 1;
      var attempt := 0;
      ghost var whole := Attempts(answers, 0, attempts);
      ghost var events: seq<Event> := [];
      while attempt < attempts
        invariant attempt <= attempts && breaker.Valid()
        invariant breaker.history == old(breaker.history) + events && calls == |events|
        invariant attempt < attempts ==>
                    var rest := Attempts(answers, attempt, attempts);
                    whole == Trace(events + rest.events, sleeps + rest.sleeps, rest.outcome)
        invariant attempt == attempts ==> whole == Trace(events, sleeps, Exhausted)
      {
        var a := answers(attempt);
        ghost var rest := Attempts(answers, attempt, attempts);
        ghost var before, slept := events, sleeps;
        AttemptStep(answers, attempt, attempts);
        calls := calls + 1;
        if a.reply.Accepted? || !Retryable(a.reply) {
          breaker.RecordSuccess();
          HistoryAssoc(old(breaker.history), events, [Success]);
          outcome := if a.reply.Accepted? then Delivered else Permanent;
          return;
        }
        breaker.RecordFailure(a.at);
        HistoryAssoc(old(breaker.history), events, [Failure(a.at)]);
        events := events + [Failure(a.at)];
        if attempt < attempts - 1 {
          sleeps := sleeps + [Delay(attempt, a)];
          HistoryAssoc(before, [Failure(a.at)], Attempts(answers, attempt + 1, attempts).events);
          SleepsAssoc(slept, [Delay(attempt, a)], Attempts(answers, attempt + 1, attempts).sleeps);
        }
        attempt := attempt + 1;
      }
      outcome := Exhausted;
    }
  }

  lemma HistoryAssoc(a: seq<Event>, b: seq<Event>, c: seq<Event>)
    ensures a + b + c == a + (b + c)
  {
  }

  lemma SleepsAssoc(a: seq<real>, b: seq<real>, c: seq<real>)
    ensures a + b + c == a + (b + c)
  {
  }

  // ------------------------------------------------------------------ how many calls, how long

  /** The first answer from `k` on that ends the loop, or `attempts` if there is none. */
  function FirstFinal(answers: nat -> Answer, k: nat, attempts: nat): (n: nat)
    requires k <= attempts
    ensures k <= n <= attempts
    ensures forall i | k <= i < n :: Retryable(answers(i).reply)
    ensures n < attempts ==> !Retryable(answers(n).reply)
    decreases attempts - k
  {
    if k == attempts || !Retryable(answers(k).reply) then k else FirstFinal(answers, k + 1, attempts)
  }

  function BackoffSum(from: nat, n: nat): real
    decreases n
  {
    if n == 0 then 0.0 else Backoff(from) + BackoffSum(from + 1, n - 1)
  }

  function Sum(xs: seq<real>): real { if xs == [] then 0.0 else xs[0] + Sum(xs[1..]) }

  /** Calls stop at the first answer that is not retryable and never exceed the limit, and there is exactly one
      sleep between two calls. All calls but the last record a failure. */
  lemma {:induction false} CallsAndSleeps(answers: nat -> Answer, k: nat, attempts: nat)
    requires k < attempts
    ensures var t, n := Attempts(answers, k, attempts), FirstFinal(answers, k, attempts);
            && |t.events| == (if n < attempts then n - k + 1 else attempts - k)
            && |t.sleeps| == |t.events| - 1
            && (forall i | 0 <= i < |t.sleeps| :: t.sleeps[i] == Delay(k + i, answers(k + i)))
            && (forall i | 0 <= i < |t.events| :: t.events[i] ==
                  (if k + i == n then Success else Failure(answers(k + i).at)))
            && (t.outcome == Exhausted <==> n == attempts)
            && (t.outcome == Delivered <==> n < attempts && answers(n).reply.Accepted?)
    decreases attempts - k
  {
    if Retryable(answers(k).reply) && k < attempts - 1 {
      CallsAndSleeps(answers, k + 1, attempts);
    }
  }

  /** Which answers are worth another call: a network error always; a rejection with a transient code whatever its
      status; one with a permanent code never; any other by its status, throttling and server faults. */
  predicate WorthRetrying(r: Reply) {
    r.NetworkError? ||
    (r.Rejected? &&
     (if r.metaCode.Some? && r.metaCode.value in {1, 2, 4, 80007, 130429, 131048, 131056, 133016} then true
      else if r.metaCode.Some? && r.metaCode.value in {100, 190, 131008, 131009, 131026, 131047, 131051, 131064, 132000, 132001,
                                                       132005, 132007, 132012, 132015, 132016} then false
      else r.status == 429 || r.status / 100 == 5))
  }

  /** A request goes on after its first answer exactly when that is worth another call; no code is both transient and
      permanent, so it does not matter which list is asked first. */
  lemma RetriedExactlyWhen(answers: nat -> Answer, attempts: nat)
    requires attempts >= 2
    ensures |Attempts(answers, 0, attempts).events| > 1 <==> WorthRetrying(answers(0).reply)
    ensures RETRYABLE_META_CODES !! PERMANENT_META_CODES
  {
    hide Retryable, WorthRetrying, Delay;
    RetryableMeans(answers(0).reply);
    CallsAndSleeps(answers, 0, attempts);
  }

  lemma RetryableMeans(r: Reply)
    ensures Retryable(r) <==> WorthRetrying(r)
  {
    if r.Rejected? { ServerFaults(r.status); }
  }

  lemma ServerFaults(status: int)
    ensures 500 <= status < 600 <==> status / 100 == 5
  {
  }

  /** A code that means the number cannot be reached is never tried again. */
  lemma HardBouncesAreNotRetried(answers: nat -> Answer, attempts: nat)
    requires attempts >= 1 && answers(0).reply.Rejected? && answers(0).reply.metaCode in {Some(131026), Some(131047)}
    ensures |Attempts(answers, 0, attempts).events| == 1 && Attempts(answers, 0, attempts).outcome == Permanent
  {
  }

  /** How long a request sleeps after its answer number `i`: what the header asks for, up to a minute, and otherwise the
      jittered share of 1, 2, 4, 8, 16 and from then on 30 seconds. */
  lemma SleepIs(answers: nat -> Answer, attempts: nat, i: nat)
    requires attempts > 0 && i < |Attempts(answers, 0, attempts).sleeps|
    ensures var slept, a := Attempts(answers, 0, attempts).sleeps[i], answers(i);
            if a.reply.Rejected? && a.reply.retryAfter.Some?
            then slept == if a.reply.retryAfter.value > 60.0 then 60.0 else a.reply.retryAfter.value
            else slept == a.jitter * if i >= 5 then 30.0 else [1.0, 2.0, 4.0, 8.0, 16.0][i]
  {
    hide Backoff, Retryable, Attempts;
    CallsAndSleeps(answers, 0, attempts);
    BackoffIs(i);
  }

  lemma BackoffIs(i: nat)
    ensures Backoff(i) == if i >= 5 then 30.0 else [1.0, 2.0, 4.0, 8.0, 16.0][i]
  {
    assert Power(0) == 1.0 && Power(1) == 2.0 && Power(2) == 4.0 && Power(3) == 8.0 && Power(4) == 16.0 && Power(5) == 32.0;
    if i >= 5 { PowerGrows(5, i); }
  }

  lemma {:induction false} PowerGrows(m: nat, n: nat)
    requires m <= n
    ensures Power(m) <= Power(n)
    decreases n
  {
    if m < n { PowerGrows(m, n - 1); PowerIsPositive(n - 1); }
  }

  lemma {:induction false} PowerIsPositive(n: nat)
    ensures Power(n) > 0.0
  {
    if n > 0 { PowerIsPositive(n - 1); }
  }

  lemma ScaledAtMost(x: real, y: real)
    requires 0.0 <= x <= 1.0 && y >= 0.0
    ensures 0.0 <= x * y <= y
  {
    assert x * y <= 1.0 * y;
  }

  predicate NoRetryAfter(answers: nat -> Answer, k: nat, attempts: nat) {
    forall i: nat | k <= i < attempts :: answers(i).reply.Rejected? ==> answers(i).reply.retryAfter.None?
  }

  predicate JitterOk(answers: nat -> Answer, k: nat, attempts: nat) {
    forall i: nat | k <= i < attempts :: 0.0 <= answers(i).jitter <= 1.0
  }

  /** Without a Retry-After header the request sleeps at most the sum of the capped powers of two. */
  lemma {:induction false} TotalSleep(answers: nat -> Answer, k: nat, attempts: nat)
    requires k < attempts && NoRetryAfter(answers, k, attempts) && JitterOk(answers, k, attempts)
    ensures 0.0 <= Sum(Attempts(answers, k, attempts).sleeps) <= BackoffSum(k, attempts - 1 - k)
    decreases attempts - k
  {
    hide Backoff, Delay, Retryable;
    BackoffIsPositive(k);
    if k < attempts - 1 {
      TotalSleep(answers, k + 1, attempts);
      DelayAtMost(answers, k, attempts);
      RestIsNotNegative(k + 1, attempts - 2 - k);
      var rest := Attempts(answers, k + 1, attempts);
      assert ([Delay(k, answers(k))] + rest.sleeps)[1..] == rest.sleeps;
    }
  }

  lemma BackoffIsPositive(n: nat)
    ensures Backoff(n) > 0.0
  {
    PowerIsPositive(n);
  }

  lemma {:induction false} RestIsNotNegative(from: nat, n: nat)
    ensures BackoffSum(from, n) >= 0.0
    decreases n
  {
    if n > 0 { BackoffIsPositive(from); RestIsNotNegative(from + 1, n - 1); }
  }

  lemma DelayAtMost(answers: nat -> Answer, k: nat, attempts: nat)
    requires k < attempts && NoRetryAfter(answers, k, attempts) && JitterOk(answers, k, attempts)
    ensures 0.0 <= Delay(k, answers(k)) <= Backoff(k)
  {
    hide Backoff;
    BackoffIsPositive(k);
    ScaledAtMost(answers(k).jitter, Backoff(k));
  }

  /** With or without the header, no single sleep is longer than a minute. */
  lemma EachSleepIsShort(answers: nat -> Answer, attempts: nat, i: nat)
    requires attempts > 0 && JitterOk(answers, 0, attempts) && i < |Attempts(answers, 0, attempts).sleeps|
    ensures Attempts(answers, 0, attempts).sleeps[i] <= 60.0
  {
    CallsAndSleeps(answers, 0, attempts);
    PowerIsPositive(i);
    ScaledAtMost(answers(i).jitter, Backoff(i));
  }

  // ------------------------------------------------------------------ whole histories

  /** A request begun inside the reset window of a run of failures that reached the threshold makes no call; at
      any other time it makes at least one. */
  lemma RefusedExactlyWhen(threshold: nat, reset: real, history: seq<Event>, now: real, answers: nat -> Answer, maxRetries: nat)
    requires threshold >= 1
    ensures Request(Replay(threshold, history), reset, now, answers, maxRetries).events == [] <==>
            (Trailing(history) >= threshold && now - history[|history|-1].at < reset)
  {
    ReplayIsTrailing(threshold, history);
    CallsAndSleeps(answers, 0, maxRetries + 1);
  }

  lemma {:induction false} TrailingCat(history: seq<Event>, more: seq<Event>)
    ensures Trailing(history + more) == if Trailing(more) == |more| then Trailing(history) + |more| else Trailing(more)
    ensures Trailing(more) <= |more|
    decreases |more|
  {
    if more == [] {
      assert history + more == history;
    } else {
      var init := more[..|more|-1];
      assert (history + more)[..|history + more| - 1] == history + init;
      TrailingCat(history, init);
    }
  }

  lemma {:induction false} AllFailuresTrail(events: seq<Event>)
    requires forall i | 0 <= i < |events| :: events[i].Failure?
    ensures Trailing(events) == |events|
    decreases |events|
  {
    if events != [] { AllFailuresTrail(events[..|events|-1]); }
  }

  lemma EndsInSuccess(events: seq<Event>)
    requires events != [] && events[|events|-1] == Success
    ensures Trailing(events) == 0
  {
  }

  /** An admitted request leaves the breaker closed unless every call failed in a retryable way; then its calls
      extend the run of failures. So when the breaker is half open, one request whose calls all fail opens it
      again, at the time of the last failure, and any other outcome closes it. */
  lemma AfterARequest(threshold: nat, reset: real, history: seq<Event>, now: real, answers: nat -> Answer, maxRetries: nat)
    requires threshold >= 1 && !IsOpen(Replay(threshold, history), now, reset)
    ensures var t := Request(Replay(threshold, history), reset, now, answers, maxRetries);
            var s := Replay(threshold, history + t.events);
            && (t.outcome != Exhausted ==> s == CLOSED)
            && (t.outcome == Exhausted ==>
                  && |t.events| == maxRetries + 1
                  && s.failures == Trailing(history) + maxRetries + 1
                  && (s.openedAt.Some? <==> Trailing(history) + maxRetries + 1 >= threshold)
                  && (s.openedAt.Some? ==> s.openedAt == Some(answers(maxRetries).at)))
  {
    var t := Attempts(answers, 0, maxRetries + 1);
    var after := history + t.events;
    CallsAndSleeps(answers, 0, maxRetries + 1);
    ReplayIsTrailing(threshold, after);
    TrailingCat(history, t.events);
    assert after[|after|-1] == t.events[|t.events|-1];
    if t.outcome == Exhausted {
      AllFailuresTrail(t.events);
    } else {
      EndsInSuccess(t.events);
    }
  }

  /** In the half-open state a single retryable failure, recorded by any request, opens the breaker again at
      that moment, whatever the count. */
  lemma HalfOpenFailureReopens(threshold: nat, reset: real, history: seq<Event>, now: real, at: real)
    requires threshold >= 1 && Trailing(history) >= threshold && !IsOpen(Replay(threshold, history), now, reset)
    ensures IsOpen(Replay(threshold, history + [Failure(at)]), at, reset) <==> reset > 0.0
    ensures Trailing(history + [Failure(at)]) == Trailing(history) + 1
  {
    var after := history + [Failure(at)];
    assert after[..|after|-1] == history;
    ReplayIsTrailing(threshold, history);
    ReplayIsTrailing(threshold, after);
  }

  /** The retry loop does not look at the breaker again: an admitted request makes as many calls however many
      failures came before, even past the threshold. */
  lemma RetriesIgnoreTheBreaker(s: State, t: State, reset: real, now: real, answers: nat -> Answer, maxRetries: nat)
    requires !IsOpen(s, now, reset)
    requires forall i: nat | i <= maxRetries :: Retryable(answers(i).reply)
    ensures |Request(s, reset, now, answers, maxRetries).events| == maxRetries + 1
    ensures !IsOpen(t, now, reset) ==>
              Request(t, reset, now, answers, maxRetries) == Request(s, reset, now, answers, maxRetries)
  {
    CallsAndSleeps(answers, 0, maxRetries + 1);
  }
}
