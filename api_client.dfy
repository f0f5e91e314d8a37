/** The rate-limited request client (github_project_extractor/api_client.py).

    The network is replaced by the sequence of attempts it would produce, in
    order; the clock by the readings the client takes. Sleeping is recorded:
    every `time.sleep` the client would call becomes a `Wait` in the result. */
module ApiClient {
  import opened Common
  import PyText

  const MaxRetries: nat := 3
  /** Below this many remaining calls the client waits for the reset. */
  const LowWaterMark: int := 20
  /** Seconds added to every wait for the reset. */
  const SafetyMargin: int := 10
  const InitialRemaining: int := 5000
  const RateLimitMarker: string := "rate limit exceeded"

  /** What `requests.get` returned: the status, the body as text, the two
      rate-limit headers as sent (absent when missing), and the parsed JSON
      body (`None` when `response.json()` would raise). */
  datatype Reply<B> = Reply(
    status: int,
    text: string,
    remainingHeader: Option<string>,
    resetHeader: Option<string>,
    json: Option<B>)

  /** One try: a reply, with the clock reading `time.time()` gives if the
      reply turns out to be a rate-limit refusal; or a transport-level
      exception (timeout, connection error). */
  datatype Attempt<B> = Answered(reply: Reply<B>, clock: int) | Raised

  /** A sleep the client asks for, in seconds. */
  datatype Wait = Proactive(seconds: int) | RateLimited(seconds: int) | Backoff(seconds: int)

  /** The result of `make_request`: the JSON body, the absence sentinel
      `None`, or (only in the model) the attempts ran out before the policy
      finished. */
  datatype Fetched<B> = Body(value: B) | Absent | Unfinished

  /** `remaining_rate_limit` and `rate_limit_reset_time`. */
  datatype RateState = RateState(remaining: int, reset: int)

  const InitialState: RateState := RateState(InitialRemaining, 0)

  /** What the loop body does with one attempt. */
  datatype Event<B> = Success(body: B) | NotFound | RateLimitWait(seconds: int) | Failure

  function Pow2(k: nat): (r: nat)
    ensures r >= 1
  {
    if k == 0 then 1 else 2 * Pow2(k - 1)
  }

  /** `int(response.headers.get(name, 0))`: `None` where `int()` raises. */
  function HeaderValue(header: Option<string>): Option<int>
  {
    match header
    case None => Some(0)
    case Some(v) => PyText.ParseInt(v)
  }

  /** `_update_rate_limit`: remaining is written first, so a reset header
      `int()` rejects leaves the new remaining and the old reset. */
  function NextState<B>(st: RateState, attempt: Attempt<B>): RateState
  {
    match attempt
    case Raised => st
    case Answered(reply, _) =>
      match HeaderValue(reply.remainingHeader)
      case None => st
      case Some(remaining) =>
        match HeaderValue(reply.resetHeader)
        case None => RateState(remaining, st.reset)
        case Some(reset) => RateState(remaining, reset)
  }

  predicate IsRateLimitRefusal<B>(reply: Reply<B>)
  {
    reply.status == 403 && PyText.Contains(PyText.Lower(reply.text), RateLimitMarker)
  }

  /** How the `try` block of `make_request` ends for one attempt. Every
      exception inside it is a counted failure: the transport fault, an
      `int()` of a header, `response.json()`, and `time.sleep` of a negative
      rate-limit wait (the reset lies more than the margin in the past). */
  function EventOf<B>(attempt: Attempt<B>): Event<B>
  {
    match attempt
    case Raised => Failure
    case Answered(reply, clock) =>
      match (HeaderValue(reply.remainingHeader), HeaderValue(reply.resetHeader))
      case (Some(_), Some(reset)) =>
        if reply.status == 200 then
          (if reply.json.Some? then Success(reply.json.value) else Failure)
        else if IsRateLimitRefusal(reply) then
          var wait := reset - clock + SafetyMargin;
          if wait < 0 then Failure else RateLimitWait(wait)
        else if reply.status == 404 then NotFound
        else Failure
      case _ => Failure
  }

  /** The outcome of the retry loop: the result, the rate-limit state it
      leaves, the sleeps asked for, how many attempts were sent, and the
      final `retry_count`. */
  datatype Run<B> = Run(result: Fetched<B>, state: RateState, waits: seq<Wait>, sent: nat, retries: nat)

  /** The `while retry_count < max_retries` loop, from rate-limit state `st`
      and `retries` failures so far, over the attempts still to come. */
  function Policy<B>(st: RateState, retries: nat, attempts: seq<Attempt<B>>): (run: Run<B>)
    decreases |attempts|
    ensures run.sent <= |attempts|
    ensures retries <= run.retries
    ensures retries <= MaxRetries ==> run.retries <= MaxRetries
    ensures run.result.Unfinished? ==> run.sent == |attempts| && run.retries < MaxRetries
    ensures run.retries >= MaxRetries ==> run.result.Absent?
    ensures run.result.Body? ==> run.sent > 0 && EventOf(attempts[run.sent - 1]) == Success(run.result.value)
  {
    if retries >= MaxRetries then Run(Absent, st, [], 0, retries)
    else if attempts == [] then Run(Unfinished, st, [], 0, retries)
    else
      var st' := NextState(st, attempts[0]);
      match EventOf(attempts[0])
      case Success(body) => Run(Body(body), st', [], 1, retries)
      case NotFound => Run(Absent, st', [], 1, retries)
      case RateLimitWait(seconds) =>
        var rest := Policy(st', retries, attempts[1..]);
        rest.(waits := [RateLimited(seconds)] + rest.waits, sent := rest.sent + 1)
      case Failure =>
        var rest := Policy(st', retries + 1, attempts[1..]);
        assert rest.result.Body? ==> EventOf(attempts[rest.sent]) == Success(rest.result.value);
        rest.(waits := [Backoff(Pow2(retries + 1))] + rest.waits, sent := rest.sent + 1)
  }

  /** `_check_rate_limit`: wait only when few calls remain and the reset
      lies ahead, and then until the reset plus the margin. */
  function ProactiveWait(st: RateState, now: int): (w: Option<int>)
    ensures w.Some? <==> st.remaining < LowWaterMark && now < st.reset
    ensures w.Some? ==> w.value > SafetyMargin && now + w.value == st.reset + SafetyMargin
  {
    if st.remaining < LowWaterMark && now < st.reset then Some(st.reset - now + SafetyMargin) else None
  }

  /** All of `make_request`: the proactive check at time `now`, then the loop. */
  function Request<B>(st: RateState, now: int, attempts: seq<Attempt<B>>): Run<B>
  {
    var run := Policy(st, 0, attempts);
    match ProactiveWait(st, now)
    case None => run
    case Some(w) => run.(waits := [Proactive(w)] + run.waits)
  }

  // ---------------------------------------------------------------- properties of the policy

  /** The first request of a new client never waits. */
  lemma FirstRequestNeverWaits<B>(now: int, attempts: seq<Attempt<B>>)
    ensures ProactiveWait(InitialState, now) == None
    ensures Request(InitialState, now, attempts) == Policy(InitialState, 0, attempts)
  {
  }

  /** A 200 reply with readable headers and body ends the request with that body. */
  lemma SuccessReturnsAtOnce<B>(st: RateState, retries: nat, attempts: seq<Attempt<B>>)
    requires retries < MaxRetries && attempts != [] && attempts[0].Answered?
    requires attempts[0].reply.status == 200 && attempts[0].reply.json.Some?
    requires HeaderValue(attempts[0].reply.remainingHeader).Some? && HeaderValue(attempts[0].reply.resetHeader).Some?
    ensures Policy(st, retries, attempts).result == Body(attempts[0].reply.json.value)
    ensures Policy(st, retries, attempts).sent == 1
  {
  }

  /** A 404 with readable headers ends the request with the absence sentinel,
      without another attempt. */
  lemma NotFoundReturnsAtOnce<B>(st: RateState, retries: nat, attempts: seq<Attempt<B>>)
    requires retries < MaxRetries && attempts != [] && attempts[0].Answered?
    requires attempts[0].reply.status == 404
    requires HeaderValue(attempts[0].reply.remainingHeader).Some? && HeaderValue(attempts[0].reply.resetHeader).Some?
    ensures Policy(st, retries, attempts).result == Absent
    ensures Policy(st, retries, attempts).sent == 1
  {
  }

  /** The number of attempts among `attempts` that count against the budget. */
  function Failures<B>(attempts: seq<Attempt<B>>): nat
  {
    if attempts == [] then 0
    else (if EventOf(attempts[0]).Failure? then 1 else 0) + Failures(attempts[1..])
  }

  /** The seconds of the backoff sleeps among `waits`, in order. */
  function Backoffs(waits: seq<Wait>): seq<int>
  {
    if waits == [] then []
    else (if waits[0].Backoff? then [waits[0].seconds] else []) + Backoffs(waits[1..])
  }

  /** `2^(from+1), ..., 2^to`: the backoffs after failures number from+1 to `to`. */
  function Schedule(from: nat, to: nat): seq<int>
    decreases to - from
  {
    if from >= to then [] else [Pow2(from + 1)] + Schedule(from + 1, to)
  }

  /** `run`, started with `retries` failures, raised `retry_count` once per
      counted failure among the attempts it sent, and followed each with a
      backoff of `2^retry_count` seconds. */
  ghost predicate CountsFailures<B>(run: Run<B>, retries: nat, attempts: seq<Attempt<B>>)
  {
    && run.sent <= |attempts|
    && run.retries == retries + Failures(attempts[..run.sent])
    && Backoffs(run.waits) == Schedule(retries, run.retries)
  }

  /** Only counted failures raise `retry_count`, by one each, and each is
      followed by a backoff of `2^retry_count` seconds: 2, 4, 8. Rate-limit
      waits that could be slept do not consume the budget. */
  lemma {:induction false} RetriesCountFailures<B>(st: RateState, retries: nat, attempts: seq<Attempt<B>>)
    requires retries <= MaxRetries
    ensures CountsFailures(Policy(st, retries, attempts), retries, attempts)
    decreases |attempts|, 1
  {
    if retries < MaxRetries && attempts != [] && (EventOf(attempts[0]).RateLimitWait? || EventOf(attempts[0]).Failure?) {
      RetriesCountFailuresNext(st, retries, attempts);
    } else if retries < MaxRetries && attempts != [] {
      assert attempts[..1][1..] == [];
    }
  }

  lemma {:induction false} RetriesCountFailuresNext<B>(st: RateState, retries: nat, attempts: seq<Attempt<B>>)
    requires retries < MaxRetries && attempts != []
    requires EventOf(attempts[0]).RateLimitWait? || EventOf(attempts[0]).Failure?
    ensures CountsFailures(Policy(st, retries, attempts), retries, attempts)
    decreases |attempts|, 0
  {
    var run := Policy(st, retries, attempts);
    var failure := EventOf(attempts[0]).Failure?;
    var retries' := if failure then retries + 1 else retries;
    var rest := Policy(NextState(st, attempts[0]), retries', attempts[1..]);
    PolicyGoesOn(st, retries, attempts);
    RetriesCountFailures(NextState(st, attempts[0]), retries', attempts[1..]);
    assert attempts[..run.sent][1..] == attempts[1..][..rest.sent];
    assert run.waits[1..] == rest.waits;
  }

  /** The schedule from no failures is a prefix of 2, 4, 8. */
  lemma ScheduleFromZero(k: nat)
    requires k <= MaxRetries
    ensures Schedule(0, k) == [2, 4, 8][..k]
  {
    assert Schedule(3, 3) == [];
    assert Schedule(2, 3) == [8];
    assert Schedule(1, 3) == [4, 8];
    assert Schedule(1, 2) == [4];
    assert Schedule(2, 2) == [];
    assert Schedule(1, 1) == [];
  }

  /** At most three attempts are counted failures, and their backoffs are
      exactly a prefix of 2, 4, 8. */
  lemma AtMostThreeFailures<B>(st: RateState, now: int, attempts: seq<Attempt<B>>)
    ensures var run := Request(st, now, attempts);
      && Failures(attempts[..run.sent]) <= MaxRetries
      && Backoffs(run.waits) == [2, 4, 8][..run.retries]
  {
    RetriesCountFailures(st, 0, attempts);
    var run := Policy(st, 0, attempts);
    ScheduleFromZero(run.retries);
    match ProactiveWait(st, now)
    case None =>
    case Some(w) =>
      assert Request(st, now, attempts).waits == [Proactive(w)] + run.waits;
      assert Backoffs([Proactive(w)] + run.waits) == Backoffs(run.waits) by {
        assert ([Proactive(w)] + run.waits)[1..] == run.waits;
      }
  }

  /** Three transport faults in a row exhaust the budget: a fourth attempt,
      even one that would succeed, is never sent. */
  lemma ThreeFaultsThenSuccess<B>(st: RateState, now: int, success: Reply<B>, clock: int)
    ensures var run := Request(st, now, [Raised, Raised, Raised, Answered(success, clock)]);
      run.result == Absent && run.sent == 3 && Backoffs(run.waits) == [2, 4, 8]
  {
    var a: seq<Attempt<B>> := [Raised, Raised, Raised, Answered(success, clock)];
    var r3 := Policy(st, 3, a[3..]);
    assert r3.result == Absent && r3.sent == 0;
    var r2 := Policy(st, 2, a[2..]);
    assert a[2..][1..] == a[3..];
    assert r2.result == Absent && r2.sent == 1 && r2.retries == 3;
    var r1 := Policy(st, 1, a[1..]);
    assert a[1..][1..] == a[2..];
    assert r1.result == Absent && r1.sent == 2 && r1.retries == 3;
    var r0 := Policy(st, 0, a);
    assert r0.result == Absent && r0.sent == 3 && r0.retries == 3;
    AtMostThreeFailures(st, now, a);
  }

  /** The state `run` leaves behind is that of the last attempt it sent,
      when that was a reply whose headers `int()` accepts. */
  ghost predicate LeavesLastReplyState<B>(run: Run<B>, attempts: seq<Attempt<B>>)
  {
    0 < run.sent <= |attempts| && attempts[run.sent - 1].Answered? ==>
      var reply := attempts[run.sent - 1].reply;
      HeaderValue(reply.remainingHeader).Some? && HeaderValue(reply.resetHeader).Some? ==>
        run.state == RateState(HeaderValue(reply.remainingHeader).value, HeaderValue(reply.resetHeader).value)
  }

  /** The state left behind is that of the last attempt: every reply whose
      headers `int()` accepts sets both fields from them (0 when missing). */
  lemma {:induction false} StateFromLastReply<B>(st: RateState, retries: nat, attempts: seq<Attempt<B>>)
    ensures LeavesLastReplyState(Policy(st, retries, attempts), attempts)
    decreases |attempts|, 1
  {
    if retries < MaxRetries && attempts != [] && (EventOf(attempts[0]).RateLimitWait? || EventOf(attempts[0]).Failure?) {
      StateFromLastReplyNext(st, retries, attempts);
    } else {
      StateFromLastReplyEnds(st, retries, attempts);
    }
  }

  lemma {:induction false} StateFromLastReplyNext<B>(st: RateState, retries: nat, attempts: seq<Attempt<B>>)
    requires retries < MaxRetries && attempts != []
    requires EventOf(attempts[0]).RateLimitWait? || EventOf(attempts[0]).Failure?
    ensures LeavesLastReplyState(Policy(st, retries, attempts), attempts)
    decreases |attempts|, 0
  {
    var st' := NextState(st, attempts[0]);
    var retries' := if EventOf(attempts[0]).Failure? then retries + 1 else retries;
    PolicyGoesOn(st, retries, attempts);
    StateFromLastReply(st', retries', attempts[1..]);
    var rest := Policy(st', retries', attempts[1..]);
    if rest.sent > 0 {
      assert attempts[1..][rest.sent - 1] == attempts[rest.sent];
    }
  }

  lemma StateFromLastReplyEnds<B>(st: RateState, retries: nat, attempts: seq<Attempt<B>>)
    requires !(retries < MaxRetries && attempts != [] && (EventOf(attempts[0]).RateLimitWait? || EventOf(attempts[0]).Failure?))
    ensures LeavesLastReplyState(Policy(st, retries, attempts), attempts)
  {
  }

  /** An attempt after which the loop goes on leaves the rest of the run to
      the remaining attempts, one more having been sent. */
  lemma PolicyGoesOn<B>(st: RateState, retries: nat, attempts: seq<Attempt<B>>)
    requires retries < MaxRetries && attempts != []
    requires EventOf(attempts[0]).RateLimitWait? || EventOf(attempts[0]).Failure?
    ensures var retries' := if EventOf(attempts[0]).Failure? then retries + 1 else retries;
      var rest := Policy(NextState(st, attempts[0]), retries', attempts[1..]);
      var run := Policy(st, retries, attempts);
      && run.result == rest.result && run.state == rest.state && run.sent == rest.sent + 1 && run.retries == rest.retries
      && run.waits == [if EventOf(attempts[0]).Failure? then Backoff(Pow2(retries + 1))
                       else RateLimited(EventOf(attempts[0]).seconds)] + rest.waits
  {
  }

  /** A rate-limit refusal whose reset is near enough to sleep until is
      waited out (until reset plus the margin) and does not consume budget;
      one whose reset lies more than the margin in the past makes
      `time.sleep` raise, which the `try` counts as a failure. */
  lemma RateLimitRefusal<B>(st: RateState, retries: nat, reply: Reply<B>, clock: int, rest: seq<Attempt<B>>)
    requires retries < MaxRetries
    requires IsRateLimitRefusal(reply)
    requires HeaderValue(reply.remainingHeader).Some? && HeaderValue(reply.resetHeader).Some?
    ensures var reset := HeaderValue(reply.resetHeader).value;
      var run := Policy(st, retries, [Answered(reply, clock)] + rest);
      var next := Policy(NextState(st, Answered(reply, clock)), retries, rest);
      if clock <= reset + SafetyMargin then
        run.waits == [RateLimited(reset + SafetyMargin - clock)] + next.waits && run.retries == next.retries
      else
        run.waits[0] == Backoff(Pow2(retries + 1))
  {
    var a := [Answered(reply, clock)] + rest;
    assert a[0] == Answered(reply, clock) && a[1..] == rest;
  }

  // ---------------------------------------------------------------- the loop, one step at a time

  /** Having slept `waits` and sent `sent` attempts, the loop still has run
      `rest` ahead of it, and together they make `full`. */
  ghost predicate Continues<B>(full: Run<B>, waits: seq<Wait>, sent: nat, rest: Run<B>)
  {
    && full.result == rest.result && full.state == rest.state && full.retries == rest.retries
    && full.waits == waits + rest.waits && full.sent == sent + rest.sent
  }

  /** An attempt that lets the loop go on adds its sleep and moves on. */
  lemma StepContinues<B>(full: Run<B>, waits: seq<Wait>, sent: nat, st: RateState, retries: nat, attempts: seq<Attempt<B>>,
                         added: seq<Wait>, retries': nat)
    requires sent < |attempts| && retries < MaxRetries
    requires Continues(full, waits, sent, Policy(st, retries, attempts[sent..]))
    requires match EventOf(attempts[sent])
      case Success(_) => false
      case NotFound => false
      case RateLimitWait(seconds) => retries' == retries && added == [RateLimited(seconds)]
      case Failure => retries' == retries + 1 && added == [Backoff(Pow2(retries + 1))]
    ensures Continues(full, waits + added, sent + 1, Policy(NextState(st, attempts[sent]), retries', attempts[sent + 1..]))
  {
    var rest := attempts[sent..];
    assert rest[0] == attempts[sent] && rest[1..] == attempts[sent + 1..];
  }

  /** An attempt that ends the loop ends the request with the same result. */
  lemma StepEnds<B>(full: Run<B>, waits: seq<Wait>, sent: nat, st: RateState, retries: nat, attempts: seq<Attempt<B>>,
                    result: Fetched<B>)
    requires sent < |attempts| && retries < MaxRetries
    requires Continues(full, waits, sent, Policy(st, retries, attempts[sent..]))
    requires match EventOf(attempts[sent])
      case Success(body) => result == Body(body)
      case NotFound => result == Absent
      case _ => false
    ensures full.result == result && full.waits == waits && full.sent == sent + 1 && full.state == NextState(st, attempts[sent])
  {
    var rest := attempts[sent..];
    assert rest[0] == attempts[sent];
  }

  /** The loop condition failing ends the request as the policy does. */
  lemma LoopEnds<B>(full: Run<B>, waits: seq<Wait>, sent: nat, st: RateState, retries: nat, attempts: seq<Attempt<B>>)
    requires sent <= |attempts| && retries <= MaxRetries
    requires !(retries < MaxRetries && sent < |attempts|)
    requires Continues(full, waits, sent, Policy(st, retries, attempts[sent..]))
    ensures full.result == (if retries >= MaxRetries then Absent else Unfinished)
    ensures full.waits == waits && full.sent == sent && full.state == st
  {
    assert waits + [] == waits;
  }

  // ---------------------------------------------------------------- the class

  /** The source's APIClient: the token is fixed at construction; the two
      rate-limit fields are overwritten after every reply. */
  class APIClient {
    const token: string
    var remainingRateLimit: int
    var rateLimitResetTime: int

    function State(): RateState
      reads this
    {
      RateState(remainingRateLimit, rateLimitResetTime)
    }

    constructor (token: string)
      ensures this.token == token
      ensures State() == InitialState
    {
      this.token := token;
      remainingRateLimit := InitialRemaining;
      rateLimitResetTime := 0;
    }

    /** `_check_rate_limit` at clock reading `now`: the sleep it asks for, if any. */
    method CheckRateLimit(now: int) returns (wait: Option<int>)
      ensures wait == ProactiveWait(State(), now)
    {
      wait := None;
      if remainingRateLimit < LowWaterMark {
        if now < rateLimitResetTime {
          wait := Some(rateLimitResetTime - now + SafetyMargin);
        }
      }
    }

    /** `_update_rate_limit`; `raised` when an `int()` of a header raised. */
    method UpdateRateLimit<B>(reply: Reply<B>) returns (raised: bool)
      modifies this
      ensures State() == NextState(old(State()), Answered(reply, 0))
      ensures raised <==> HeaderValue(reply.remainingHeader).None? || HeaderValue(reply.resetHeader).None?
    {
      var remaining := HeaderValue(reply.remainingHeader);
      if remaining.None? {
        return true;
      }
      remainingRateLimit := remaining.value;
      var reset := HeaderValue(reply.resetHeader);
      if reset.None? {
        return true;
      }
      rateLimitResetTime := reset.value;
      raised := false;
    }

    /** `_handle_rate_limit_exceeded` at clock reading `clock`: the sleep
        until the reset plus the margin; `raised` when it is negative, as
        `time.sleep` then raises. */
    method HandleRateLimitExceeded(clock: int) returns (wait: Wait, raised: bool)
      ensures wait == RateLimited(rateLimitResetTime + SafetyMargin - clock)
      ensures raised <==> wait.seconds < 0
    {
      var seconds := rateLimitResetTime - clock + SafetyMargin;
      wait := RateLimited(seconds);
      raised := seconds < 0;
    }

    /** `_handle_retry`: the backoff after the `retryCount`-th failure. */
    method HandleRetry(retryCount: nat) returns (wait: Wait)
      ensures wait == Backoff(Pow2(retryCount))
    {
      wait := Backoff(Pow2(retryCount));
    }

    /** The body of the `try` in `make_request` for one attempt, with the
        `except` and the rate-limit branch: `done` when the loop returns,
        with `result`; otherwise the sleep it adds and the new `retry_count`. */
    method HandleAttempt<B>(attempt: Attempt<B>, retryCount: nat)
      returns (done: bool, result: Fetched<B>, added: seq<Wait>, retries: nat)
      modifies this
      ensures State() == NextState(old(State()), attempt)
      ensures match EventOf(attempt)
        case Success(body) => done && result == Body(body)
        case NotFound => done && result == Absent
        case RateLimitWait(seconds) => !done && retries == retryCount && added == [RateLimited(seconds)]
        case Failure => !done && retries == retryCount + 1 && added == [Backoff(Pow2(retryCount + 1))]
    {
      done, result, added, retries := false, Unfinished, [], retryCount + 1;
      match attempt {
        case Raised =>
          var backoff := HandleRetry(retries);
          added := [backoff];
        case Answered(reply, clock) =>
          var raised := UpdateRateLimit(reply);
          if !raised && reply.status == 200 && reply.json.Some? {
            return true, Body(reply.json.value), [], retryCount;
          } else if !raised && reply.status != 200 && IsRateLimitRefusal(reply) {
            var wait, sleepRaised := HandleRateLimitExceeded(clock);
            if sleepRaised {
              var backoff := HandleRetry(retries);
              added := [backoff];
            } else {
              added, retries := [wait], retryCount;
            }
          } else if !raised && reply.status == 404 {
            return true, Absent, [], retryCount;
          } else {
            var backoff := HandleRetry(retries);
            added := [backoff];
          }
      }
    }

    /** `make_request` at clock reading `now`, over the attempts the network
        would produce: the result, the sleeps asked for, and how many
        attempts were sent are those of `Request`, and so is the new state. */
    method MakeRequest<B>(now: int, attempts: seq<Attempt<B>>) returns (result: Fetched<B>, waits: seq<Wait>, sent: nat)
      modifies this
      ensures var run := Request(old(State()), now, attempts);
        result == run.result && waits == run.waits && sent == run.sent && State() == run.state
    {
      ghost var full := Request(State(), now, attempts);
      var proactive := CheckRateLimit(now);
      waits := if proactive.Some? then [Proactive(proactive.value)] else [];
      var retryCount: nat := 0;
      sent := 0;
      while retryCount < MaxRetries && sent < |attempts|
        invariant sent <= |attempts| && retryCount <= MaxRetries
        invariant Continues(full, waits, sent, Policy(State(), retryCount, attempts[sent..]))
        decreases |attempts| - sent
      {
        ghost var st := State();
        ghost var before := retryCount;
        var done, fetched, added;
        done, fetched, added, retryCount := HandleAttempt(attempts[sent], retryCount);
        if done {
          StepEnds(full, waits, sent, st, before, attempts, fetched);
          return fetched, waits, sent + 1;
        }
        StepContinues(full, waits, sent, st, before, attempts, added, retryCount);
        waits := waits + added;
        sent := sent + 1;
      }
      LoopEnds(full, waits, sent, State(), retryCount, attempts);
      result := if retryCount >= MaxRetries then Absent else Unfinished;
    }
  }
}
