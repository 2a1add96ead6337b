/** The retry loop of a wrapped provider (autarch/resilience.py), running against a
    circuit breaker that other callers use at the same time. */
module Retry {
  import opened Prelude
  import opened Breaker

  /** What `classify` makes of an exception. */
  datatype Disposition = Throttled(retryAfter: Option<real>) | Retryable | Terminal

  datatype Response = Answer(value: string) | Fault(why: Disposition)

  datatype Ending =
    | Returned(value: string)
    | Refused                  // CircuitOpen
    | StayedLimited            // RateLimited, after too many waits
    | Raised(why: Disposition) // the provider's own exception

  /** The delays carry random jitter, so the backoff is any function. */
  datatype Policy = Policy(maxAttempts: int, maxThrottleWaits: int, backoff: nat -> real)

  function AtLeast(low: int, n: int): int {
    if n < low then low else n
  }

  function Budget(p: Policy): nat {
    AtLeast(1, p.maxAttempts) + AtLeast(0, p.maxThrottleWaits)
  }

  function OutcomeOf(r: Response): Outcome {
    match r
    case Answer(_) => Success
    case Fault(Retryable) => Failure
    case Fault(_) => Ignored
  }

  function Throttles(seen: seq<Response>): nat {
    if seen == [] then 0
    else Throttles(seen[..|seen| - 1]) + if seen[|seen| - 1].Fault? && seen[|seen| - 1].why.Throttled? then 1 else 0
  }

  function Retries(seen: seq<Response>): nat {
    if seen == [] then 0
    else Retries(seen[..|seen| - 1]) + if seen[|seen| - 1] == Fault(Retryable) then 1 else 0
  }

  /** Nothing but transient faults, and both budgets still hold. */
  ghost predicate Transient(p: Policy, seen: seq<Response>) {
    && (forall r :: r in seen ==> r.Fault? && !r.why.Terminal?)
    && Throttles(seen) <= AtLeast(0, p.maxThrottleWaits)
    && Retries(seen) <= AtLeast(1, p.maxAttempts) - 1
  }

  /** The responses a call has seen decide how it ends. */
  ghost predicate EndsAs(p: Policy, seen: seq<Response>, ending: Ending) {
    if ending.Refused? then Transient(p, seen)
    else
      && seen != [] && Transient(p, seen[..|seen| - 1])
      && match ending
         case Returned(v) => seen[|seen| - 1] == Answer(v)
         case StayedLimited => seen[|seen| - 1].Fault? && seen[|seen| - 1].why.Throttled?
           && Throttles(seen) == AtLeast(0, p.maxThrottleWaits) + 1
         case Raised(why) =>
           && seen[|seen| - 1] == Fault(why)
           && !why.Throttled?
           && (why.Retryable? ==> Retries(seen) == AtLeast(1, p.maxAttempts))
  }

  lemma {:induction false} TransientCounts(seen: seq<Response>)
    requires forall r :: r in seen ==> r.Fault? && !r.why.Terminal?
    ensures |seen| == Throttles(seen) + Retries(seen)
  {
    if seen != [] {
      var init, last := seen[..|seen| - 1], seen[|seen| - 1];
      assert seen == init + [last];
      TransientCounts(init);
      assert last in seen;
    }
  }

  /** However a call ends, the provider was called at most once for every attempt and
      every wait the policy grants. */
  lemma CallsAreBounded(p: Policy, seen: seq<Response>, ending: Ending)
    requires EndsAs(p, seen, ending)
    ensures |seen| <= Budget(p)
  {
    TransientCounts(if ending.Refused? then seen else seen[..|seen| - 1]);
  }

  // ------------------------------------------------------------------------- pairing

  /** The calls of one caller that the breaker let through, and those it saw settle. */
  function Admitted(c: Config, s: State, es: seq<Event>, me: nat): nat {
    if es == [] then 0
    else
      var init, last := es[..|es| - 1], es[|es| - 1];
      Admitted(c, s, init, me) + if last.call == me && IsAdmission(c, Run(c, s, init), last) then 1 else 0
  }

  function Settles(es: seq<Event>, me: nat): seq<Outcome> {
    if es == [] then []
    else
      var init, last := es[..|es| - 1], es[|es| - 1];
      Settles(init, me) + if last.call == me && last.Settle? then [last.outcome] else []
  }

  function Outcomes(seen: seq<Response>): seq<Outcome> {
    seq(|seen|, i requires 0 <= i < |seen| => OutcomeOf(seen[i]))
  }

  ghost predicate NotMine(es: seq<Event>, me: nat) {
    forall e :: e in es ==> e.call != me
  }

  lemma {:induction false} Interleaved(c: Config, s: State, log: seq<Event>, others: seq<Event>, me: nat)
    requires NotMine(others, me)
    ensures Run(c, s, log + others) == Run(c, Run(c, s, log), others)
    ensures Admitted(c, s, log + others, me) == Admitted(c, s, log, me)
    ensures Settles(log + others, me) == Settles(log, me)
  {
    if others == [] {
      assert log + others == log;
    } else {
      var init, last := others[..|others| - 1], others[|others| - 1];
      assert (log + others)[..|log + others| - 1] == log + init;
      assert last in others;
      Interleaved(c, s, log, init, me);
    }
  }

  lemma OneMore(c: Config, s: State, log: seq<Event>, e: Event, me: nat)
    requires e.call == me
    ensures Run(c, s, log + [e]) == Apply(c, Run(c, s, log), e)
    ensures Admitted(c, s, log + [e], me) ==
            Admitted(c, s, log, me) + if IsAdmission(c, Run(c, s, log), e) then 1 else 0
    ensures Settles(log + [e], me) == Settles(log, me) + if e.Settle? then [e.outcome] else []
  {
    assert (log + [e])[..|log|] == log;
  }

  /** What the outside decides: the clock, the provider's answers, and the steps other
      callers take on the breaker before each of ours. */
  datatype Outside = Outside(clock: nat -> real, responses: nat -> Response, others: nat -> seq<Event>)

  /** A positive Retry-After is waited out; any other fault waits the backoff of its kind,
      the n-th throttle the n-th and the n-th failed attempt the n-th. */
  ghost predicate WaitsFor(p: Policy, seen: seq<Response>, delay: real)
    requires seen != []
  {
    match seen[|seen| - 1]
    case Fault(Throttled(Some(after))) => delay == if after > 0.0 then after else p.backoff(Throttles(seen))
    case Fault(Throttled(None)) => delay == p.backoff(Throttles(seen))
    case Fault(Retryable) => delay == p.backoff(Retries(seen))
    case _ => true
  }

  /** The others run, then our turn at the breaker comes. */
  method Ask(breaker: CircuitBreaker, ghost s: State, log: seq<Event>, me: nat, now: real, others: seq<Event>)
    returns (admitted: bool, log': seq<Event>)
    requires NotMine(others, me) && breaker.state == Run(breaker.cfg, s, log)
    modifies breaker
    ensures breaker.state == Run(breaker.cfg, s, log')
    ensures Admitted(breaker.cfg, s, log', me) == Admitted(breaker.cfg, s, log, me) + if admitted then 1 else 0
    ensures Settles(log', me) == Settles(log, me)
    ensures log' != [] && log'[|log'| - 1].Allow?
  {
    Interleaved(breaker.cfg, s, log, others, me);
    breaker.state := Run(breaker.cfg, breaker.state, others);
    log' := log + others;
    OneMore(breaker.cfg, s, log', Allow(me, now), me);
    admitted := breaker.Allow(now);
    log' := log' + [Allow(me, now)];
  }

  method Close(breaker: CircuitBreaker, ghost s: State, log: seq<Event>, me: nat, now: real, outcome: Outcome,
          others: seq<Event>)
    returns (log': seq<Event>)
    requires NotMine(others, me) && breaker.state == Run(breaker.cfg, s, log)
    modifies breaker
    ensures breaker.state == Run(breaker.cfg, s, log')
    ensures Admitted(breaker.cfg, s, log', me) == Admitted(breaker.cfg, s, log, me)
    ensures Settles(log', me) == Settles(log, me) + [outcome]
    ensures log' != [] && log'[|log'| - 1].Settle?
  {
    Interleaved(breaker.cfg, s, log, others, me);
    breaker.state := Run(breaker.cfg, breaker.state, others);
    log' := log + others;
    OneMore(breaker.cfg, s, log', Settle(me, now, outcome), me);
    breaker.Settle(now, outcome);
    log' := log' + [Settle(me, now, outcome)];
  }

  /** The except clauses: how this response ends the call, or how long to wait. */
  method Judge(p: Policy, seen: seq<Response>, response: Response, attempt: nat, throttles: nat)
    returns (ending: Option<Ending>, delay: real, attempt': nat, throttles': nat)
    requires Transient(p, seen) && attempt == Retries(seen) && throttles == Throttles(seen)
    ensures ending.Some? ==> EndsAs(p, seen + [response], ending.value) && !ending.value.Refused?
    ensures ending.None? ==> Transient(p, seen + [response])
    ensures |seen + [response]| <= Budget(p)
    ensures attempt' == Retries(seen + [response]) && throttles' == Throttles(seen + [response])
    ensures WaitsFor(p, seen + [response], delay)
  {
    assert (seen + [response])[..|seen|] == seen;
    ending, delay, attempt', throttles' := None, 0.0, attempt, throttles;
    match response {
      case Answer(value) =>
        ending := Some(Returned(value));
      case Fault(Terminal) =>
        ending := Some(Raised(Terminal));
      case Fault(Throttled(retryAfter)) =>
        throttles' := throttles + 1;
        delay := if retryAfter.Some? && retryAfter.value > 0.0 then retryAfter.value else p.backoff(throttles');
        if throttles' > p.maxThrottleWaits {
          ending := Some(StayedLimited);
        }
      case Fault(Retryable) =>
        attempt' := attempt + 1;
        delay := p.backoff(attempt');
        if attempt' >= p.maxAttempts {
          ending := Some(Raised(Retryable));
        }
    }
    CallsAreBounded(p, seen + [response], if ending.Some? then ending.value else Refused);
  }

  /** Each delay slept is the one that its fault asks for. */
  ghost predicate Waited(p: Policy, seen: seq<Response>, waits: seq<real>) {
    |waits| <= |seen| && forall i :: 0 <= i < |waits| ==> WaitsFor(p, seen[..i + 1], waits[i])
  }

  /** A value settles as a success and a retryable fault as a failure; a throttle and a
      terminal error are not held against the provider. */
  ghost predicate SettledAs(outcomes: seq<Outcome>, seen: seq<Response>) {
    && |outcomes| == |seen|
    && forall i :: 0 <= i < |seen| ==>
         && (outcomes[i] == Success <==> seen[i].Answer?)
         && (outcomes[i] == Failure <==> seen[i] == Fault(Retryable))
  }

  /** The breaker has seen the caller's own steps between those of the others; every
      call let through has settled exactly once, with the outcome of its response. */
  ghost predicate Paired(breaker: CircuitBreaker, s: State, log: seq<Event>, me: nat, seen: seq<Response>)
    reads breaker
  {
    && breaker.state == Run(breaker.cfg, s, log)
    && Settles(log, me) == Outcomes(seen)
    && Admitted(breaker.cfg, s, log, me) == |seen|
  }

  /** One turn of the loop: let through or refused, answered, and settled - after the
      delay, if there is one, has been slept. */
  method Attempt(breaker: CircuitBreaker, ghost s: State, log: seq<Event>, me: nat,
                 ghost seen: seq<Response>, response: Response, outside: Outside, tick: nat)
    returns (admitted: bool, log': seq<Event>)
    requires forall k :: NotMine(outside.others(k), me)
    requires Paired(breaker, s, log, me, seen)
    modifies breaker
    ensures Paired(breaker, s, log', me, if admitted then seen + [response] else seen)
    ensures log' != [] && (log'[|log'| - 1].Settle? <==> admitted)
  {
    admitted, log' := Ask(breaker, s, log, me, outside.clock(tick), outside.others(tick));
    if admitted {
      log' := Close(breaker, s, log', me, outside.clock(tick + 1), OutcomeOf(response), outside.others(tick + 1));
      assert Outcomes(seen + [response]) == Outcomes(seen) + [OutcomeOf(response)];
    }
  }

  /** The responses are those of the provider, in order, each retried one after the
      delay its fault asks for. */
  ghost predicate Heard(p: Policy, outside: Outside, seen: seq<Response>, waits: seq<real>) {
    && (forall i :: 0 <= i < |seen| ==> seen[i] == outside.responses(i))
    && Waited(p, seen, waits)
  }

  /** The responses of a call that goes on, and its two counters. */
  ghost predicate GoesOn(p: Policy, seen: seq<Response>, attempt: nat, throttles: nat) {
    Transient(p, seen) && attempt == Retries(seen) && throttles == Throttles(seen) && |seen| <= Budget(p)
  }

  lemma WaitedMore(p: Policy, seen: seq<Response>, waits: seq<real>, response: Response, delay: real)
    requires Waited(p, seen, waits) && |waits| == |seen| && WaitsFor(p, seen + [response], delay)
    ensures Waited(p, seen + [response], waits) && Waited(p, seen + [response], waits + [delay])
  {
    var longer := seen + [response];
    forall i | 0 <= i < |waits|
      ensures WaitsFor(p, longer[..i + 1], waits[i])
    {
      assert longer[..i + 1] == seen[..i + 1];
    }
    assert longer[..|seen| + 1] == longer;
  }

  method Weigh(p: Policy, outside: Outside, seen: seq<Response>, waits: seq<real>, attempt: nat, throttles: nat)
    returns (ending: Option<Ending>, seen': seq<Response>, waits': seq<real>, attempt': nat, throttles': nat)
    requires GoesOn(p, seen, attempt, throttles) && Heard(p, outside, seen, waits) && |waits| == |seen|
    ensures seen' == seen + [outside.responses(|seen|)] && Heard(p, outside, seen', waits')
    ensures ending.Some? ==> EndsAs(p, seen', ending.value) && !ending.value.Refused? && |seen'| <= Budget(p)
    ensures ending.None? ==> GoesOn(p, seen', attempt', throttles')
    ensures |waits'| == if ending.None? then |seen'| else |seen'| - 1
  {
    var response := outside.responses(|seen|);
    var delay;
    ending, delay, attempt', throttles' := Judge(p, seen, response, attempt, throttles);
    seen' := seen + [response];
    waits' := if ending.None? then waits + [delay] else waits;
    WaitedMore(p, seen, waits, response, delay);
  }

  /** How a call stands after its last turn. */
  ghost predicate Ended(p: Policy, outside: Outside, breaker: CircuitBreaker, s: State, log: seq<Event>, me: nat,
          seen: seq<Response>, waits: seq<real>, ending: Ending)
    reads breaker
  {
    && EndsAs(p, seen, ending) && |seen| <= Budget(p)
    && Paired(breaker, s, log, me, seen)
    && log != [] && (log[|log| - 1].Settle? <==> !ending.Refused?)
    && Heard(p, outside, seen, waits) && |waits| == if ending.Refused? then |seen| else |seen| - 1
  }

  /** The body of the loop of `_call`. */
  method Turn(p: Policy, breaker: CircuitBreaker, me: nat, outside: Outside, ghost s: State, seen: seq<Response>,
              waits: seq<real>, log: seq<Event>, attempt: nat, throttles: nat, tick: nat)
    returns (ending: Option<Ending>, seen': seq<Response>, waits': seq<real>, log': seq<Event>,
             attempt': nat, throttles': nat)
    requires forall k :: NotMine(outside.others(k), me)
    requires GoesOn(p, seen, attempt, throttles) && Paired(breaker, s, log, me, seen)
    requires Heard(p, outside, seen, waits) && |waits| == |seen|
    modifies breaker
    ensures ending.Some? ==> Ended(p, outside, breaker, s, log', me, seen', waits', ending.value)
    ensures ending.None? ==>
              && GoesOn(p, seen', attempt', throttles') && Paired(breaker, s, log', me, seen')
              && Heard(p, outside, seen', waits') && |waits'| == |seen'| == |seen| + 1
  {
    seen', waits', attempt', throttles' := seen, waits, attempt, throttles;
    var admitted;
    admitted, log' := Attempt(breaker, s, log, me, seen, outside.responses(|seen|), outside, tick);
    if admitted {
      ending, seen', waits', attempt', throttles' := Weigh(p, outside, seen, waits, attempt, throttles);
    } else {
      ending := Some(Refused);
    }
  }

  /** `_call`, which always ends. `waits` are the delays slept, one per response retried. */
  method Call(p: Policy, breaker: CircuitBreaker, me: nat, outside: Outside)
    returns (ending: Ending, seen: seq<Response>, waits: seq<real>, log: seq<Event>)
    requires forall k :: NotMine(outside.others(k), me)
    modifies breaker
    ensures EndsAs(p, seen, ending) && |seen| <= Budget(p)
    ensures Paired(breaker, old(breaker.state), log, me, seen)
    ensures SettledAs(Settles(log, me), seen)
    ensures log != [] && (log[|log| - 1].Settle? <==> !ending.Refused?)
    ensures Heard(p, outside, seen, waits) && |waits| == if ending.Refused? then |seen| else |seen| - 1
  {
    ghost var start := breaker.state;
    seen, waits, log := [], [], [];
    var attempt, throttles, tick := 0, 0, 0;
    while true
      invariant GoesOn(p, seen, attempt, throttles)
      invariant Paired(breaker, start, log, me, seen)
      invariant Heard(p, outside, seen, waits) && |waits| == |seen|
      decreases Budget(p) - |seen|
    {
      var judged;
      judged, seen, waits, log, attempt, throttles :=
        Turn(p, breaker, me, outside, start, seen, waits, log, attempt, throttles, tick);
      if judged.Some? {
        ending := judged.value;
        return;
      }
      tick := tick + 2;
    }
  }
}
