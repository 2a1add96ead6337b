/** The token buckets with their AIMD pace (autarch/resilience.py). Time and levels are
    real numbers; every lock-protected region is one atomic step. */
module Limiter {
  import opened Prelude

  /** A capacity of zero is the dimension switched off. */
  datatype RateLimit = RateLimit(
    requestsPerMinute: nat, tokensPerMinute: nat,
    adapt: bool, backoffFactor: real, recoverStep: real, minFraction: real, defaultPause: real)

  const EPS := 0.000000001
  const MIN_PACE := 0.000001

  /** The factors are factors. */
  predicate Sane(c: RateLimit) {
    0.0 <= c.minFraction <= 1.0 && 0.0 <= c.backoffFactor <= 1.0 && c.recoverStep >= 0.0
  }

  /** Moreover an adaptive pace never drops below the millionth that `_eta` reckons with. */
  predicate Paced(c: RateLimit) {
    Sane(c) && (c.adapt ==> c.minFraction >= MIN_PACE)
  }

  datatype State = State(req: real, tok: real, fraction: real, updated: real, pausedUntil: real)

  function Min(a: real, b: real): real {
    if a <= b then a else b
  }

  function Max(a: real, b: real): real {
    if a >= b then a else b
  }

  function Initial(c: RateLimit, now: real): State {
    State(c.requestsPerMinute as real, c.tokensPerMinute as real, 1.0, now, 0.0)
  }

  function Pace(c: RateLimit, s: State): real {
    if c.adapt then s.fraction else 1.0
  }

  /** What a bucket gains: its capacity a minute, scaled by the pace. */
  function Gain(cap: nat, pace: real, elapsed: real): real {
    elapsed * (cap as real / 60.0) * pace
  }

  function Topped(cap: nat, level: real, pace: real, elapsed: real): real {
    if cap == 0 then level else Min(cap as real, level + Gain(cap, pace, elapsed))
  }

  /** `_refill`. */
  function Refill(c: RateLimit, s: State, now: real): State {
    var elapsed := Max(0.0, now - s.updated);
    s.(req := Topped(c.requestsPerMinute, s.req, Pace(c, s), elapsed),
       tok := Topped(c.tokensPerMinute, s.tok, Pace(c, s), elapsed),
       updated := now)
  }

  /** A request larger than the whole bucket is paced as one full bucket. */
  function Need(c: RateLimit, tokens: nat): real {
    if c.tokensPerMinute > 0 && tokens > c.tokensPerMinute then c.tokensPerMinute as real else tokens as real
  }

  predicate HasCapacity(c: RateLimit, s: State, need: real) {
    && (c.requestsPerMinute > 0 ==> s.req >= 1.0 - EPS)
    && (c.tokensPerMinute > 0 ==> s.tok >= need - EPS)
  }

  function Take(c: RateLimit, s: State, need: real): State {
    s.(req := if c.requestsPerMinute > 0 then Max(0.0, s.req - 1.0) else s.req,
       tok := if c.tokensPerMinute > 0 then Max(0.0, s.tok - need) else s.tok)
  }

  predicate Admits(c: RateLimit, s: State, now: real, tokens: nat) {
    now >= s.pausedUntil && HasCapacity(c, Refill(c, s, now), Need(c, tokens))
  }

  /** The locked region of one attempt of `await_capacity`. */
  function Attempted(c: RateLimit, s: State, now: real, tokens: nat): State {
    if now < s.pausedUntil then s
    else if Admits(c, s, now, tokens) then Take(c, Refill(c, s, now), Need(c, tokens))
    else Refill(c, s, now)
  }

  function Succeeded(c: RateLimit, s: State): State {
    if c.adapt then s.(fraction := Min(1.0, s.fraction + c.recoverStep)) else s
  }

  function Pause(c: RateLimit, retryAfter: Option<real>): real {
    if retryAfter.Some? && retryAfter.value > 0.0 then retryAfter.value else c.defaultPause
  }

  function Throttled(c: RateLimit, s: State, now: real, retryAfter: Option<real>): State {
    State(0.0, 0.0,
          if c.adapt then Max(c.minFraction, s.fraction * c.backoffFactor) else s.fraction,
          s.updated, Max(s.pausedUntil, now + Pause(c, retryAfter)))
  }

  // -------------------------------------------------------------------------- runs

  /** The clock is read under the lock, so the times of a run never go back. */
  datatype Event =
    | Attempt(now: real, tokens: nat)
    | Success(now: real)
    | Throttle(now: real, retryAfter: Option<real>)

  function Apply(c: RateLimit, s: State, e: Event): State {
    match e
    case Attempt(now, tokens) => Attempted(c, s, now, tokens)
    case Success(_) => Succeeded(c, s)
    case Throttle(now, retryAfter) => Throttled(c, s, now, retryAfter)
  }

  function Run(c: RateLimit, s: State, es: seq<Event>): State {
    if es == [] then s else Apply(c, Run(c, s, es[..|es| - 1]), es[|es| - 1])
  }

  ghost predicate InOrder(start: real, es: seq<Event>) {
    && (forall i :: 0 <= i < |es| ==> start <= es[i].now)
    && (forall i, j :: 0 <= i < j < |es| ==> es[i].now <= es[j].now)
  }

  predicate IsAdmission(c: RateLimit, s: State, e: Event) {
    e.Attempt? && Admits(c, s, e.now, e.tokens)
  }

  function Admissions(c: RateLimit, s: State, es: seq<Event>): nat {
    if es == [] then 0
    else
      var init := es[..|es| - 1];
      Admissions(c, s, init) + if IsAdmission(c, Run(c, s, init), es[|es| - 1]) then 1 else 0
  }

  /** The (clamped) tokens of the requests admitted. */
  function TokensAdmitted(c: RateLimit, s: State, es: seq<Event>): real {
    if es == [] then 0.0
    else
      var init, last := es[..|es| - 1], es[|es| - 1];
      TokensAdmitted(c, s, init) + if IsAdmission(c, Run(c, s, init), last) then Need(c, last.tokens) else 0.0
  }

  ghost predicate Inv(c: RateLimit, s: State, now: real) {
    && 0.0 <= s.req && (c.requestsPerMinute > 0 ==> s.req <= c.requestsPerMinute as real)
    && 0.0 <= s.tok && (c.tokensPerMinute > 0 ==> s.tok <= c.tokensPerMinute as real)
    && c.minFraction <= s.fraction <= 1.0 && s.updated <= now
  }

  lemma GainBounds(cap: nat, pace: real, elapsed: real)
    requires 0.0 <= pace <= 1.0 && elapsed >= 0.0
    ensures 0.0 <= Gain(cap, pace, elapsed) <= (cap as real / 60.0) * elapsed
  {
    var rate := cap as real / 60.0;
    assert rate >= 0.0;
    assert elapsed * rate >= 0.0;
    assert (elapsed * rate) * pace <= (elapsed * rate) * 1.0;
  }

  lemma NotNegative(a: real, b: real)
    requires a >= 0.0 && b >= 0.0
    ensures a * b >= 0.0
  {
  }

  lemma PartOfPart(a: real, b: real)
    requires 0.0 <= a <= 1.0 && 0.0 <= b <= 1.0
    ensures a * b <= 1.0
  {
    var d := 1.0 - b;
    NotNegative(a, d);
    assert a * (b + d) == a * b + a * d;
  }

  lemma StepKeepsInv(c: RateLimit, s: State, e: Event, now: real)
    requires Sane(c) && Inv(c, s, now) && now <= e.now
    ensures Inv(c, Apply(c, s, e), e.now)
  {
    if e.Attempt? {
      var elapsed := Max(0.0, e.now - s.updated);
      GainBounds(c.requestsPerMinute, Pace(c, s), elapsed);
      GainBounds(c.tokensPerMinute, Pace(c, s), elapsed);
    } else if e.Throttle? {
      PartOfPart(s.fraction, c.backoffFactor);
    }
  }

  lemma {:induction false} RunKeepsInv(c: RateLimit, s: State, es: seq<Event>, start: real)
    requires Sane(c) && Inv(c, s, start) && InOrder(start, es)
    ensures Inv(c, Run(c, s, es), if es == [] then start else es[|es| - 1].now)
  {
    if es != [] {
      RunKeepsInv(c, s, es[..|es| - 1], start);
      StepKeepsInv(c, Run(c, s, es[..|es| - 1]), es[|es| - 1], if |es| == 1 then start else es[|es| - 2].now);
    }
  }

  // ------------------------------------------------------------------ window bounds

  /** What a bucket would hold at a later time, refilled at full pace. */
  function LevelAt(cap: nat, level: real, updated: real, at: real): real {
    Topped(cap, level, 1.0, at - updated)
  }

  /** At most `base`, and the refill of the whole window at full pace. */
  ghost predicate Bounded(cap: nat, base: real, used: real, from: real, to: real) {
    cap > 0 ==> used <= base + (cap as real / 60.0) * (to - from)
  }

  /** What a bucket can give in a window: its level when the window begins is at most
      `base`, and it gains at most `rate` a second. */
  datatype Supply = Supply(cap: nat, rate: real, base: real)

  function HeldAfter(cap: nat, level: real, rate: real, waited: real): real {
    if cap == 0 then level else Min(cap as real, level + rate * waited)
  }

  /** Either the window has seen no refill yet, and its first one starts from no more than
      `base`; or what it let through plus what is left is covered by `base` and the refill
      since its start. */
  ghost predicate Covered(q: Supply, used: real, level: real, from: real, updated: real, unseen: bool) {
    q.cap > 0 ==>
      if unseen then used == 0.0 && updated <= from && HeldAfter(q.cap, level, q.rate, from - updated) <= q.base
      else from <= updated && used + level <= q.base + q.rate * (updated - from)
  }

  ghost predicate Under(q: Supply, used: real, from: real, to: real) {
    q.cap > 0 ==> used <= q.base + q.rate * (to - from)
  }

  ghost predicate Slower(q: Supply, pace: real) {
    0.0 <= pace <= 1.0 && (q.cap as real / 60.0) * pace <= q.rate
  }

  lemma Distribute(rate: real, a: real, b: real)
    ensures rate * a + rate * b == rate * (a + b)
  {
  }

  lemma NotMore(a: real, b: real, x: real)
    requires a <= b && x >= 0.0
    ensures a * x <= b * x
  {
    NotNegative(b - a, x);
    assert (b - a) * x == b * x - a * x;
  }

  lemma GainUnder(q: Supply, pace: real, elapsed: real)
    requires Slower(q, pace) && elapsed >= 0.0
    ensures 0.0 <= Gain(q.cap, pace, elapsed) <= q.rate * elapsed
  {
    GainBounds(q.cap, pace, elapsed);
    var each := (q.cap as real / 60.0) * pace;
    NotMore(each, q.rate, elapsed);
    assert Gain(q.cap, pace, elapsed) == each * elapsed;
  }

  /** A first refill, some time after the window began. */
  lemma FirstRefill(q: Supply, level: real, pace: real, updated: real, from: real, now: real)
    requires q.cap > 0 && Slower(q, pace) && q.rate >= 0.0 && updated <= from <= now
    ensures Topped(q.cap, level, pace, now - updated)
            <= HeldAfter(q.cap, level, q.rate, from - updated) + q.rate * (now - from)
  {
    GainUnder(q, pace, now - updated);
    Distribute(q.rate, from - updated, now - from);
    NotNegative(q.rate, now - from);
  }

  /** A further one. */
  lemma NextRefill(q: Supply, level: real, pace: real, from: real, updated: real, now: real)
    requires q.cap > 0 && Slower(q, pace) && updated <= now
    ensures Topped(q.cap, level, pace, now - updated) + q.rate * (updated - from) <= level + q.rate * (now - from)
  {
    GainUnder(q, pace, now - updated);
    Distribute(q.rate, updated - from, now - updated);
  }

  /** One refill, in potential form. */
  lemma RefillCovered(q: Supply, used: real, level: real, from: real, updated: real, unseen: bool, pace: real,
          now: real)
    requires Covered(q, used, level, from, updated, unseen) && q.rate >= 0.0
    requires Slower(q, pace) && updated <= now && from <= now
    ensures Covered(q, used, Topped(q.cap, level, pace, now - updated), from, now, false)
  {
    if q.cap > 0 {
      var topped, refilled := Topped(q.cap, level, pace, now - updated), q.rate * (now - from);
      if unseen {
        FirstRefill(q, level, pace, updated, from, now);
        assert topped <= HeldAfter(q.cap, level, q.rate, from - updated) + refilled;
      } else {
        NextRefill(q, level, pace, from, updated, now);
      }
      assert used + topped <= q.base + refilled;
    }
  }

  /** The two buckets of a limiter. */
  predicate Supplies(c: RateLimit, req: Supply, tok: Supply) {
    && req.cap == c.requestsPerMinute && req.rate >= 0.0 && req.base >= 0.0
    && tok.cap == c.tokensPerMinute && tok.rate >= 0.0 && tok.base >= 0.0
  }

  ghost predicate SlowAt(c: RateLimit, s: State, es: seq<Event>, k: nat, req: Supply, tok: Supply)
    requires k <= |es|
  {
    Slower(req, Pace(c, Run(c, s, es[..k]))) && Slower(tok, Pace(c, Run(c, s, es[..k])))
  }

  ghost predicate Slow(c: RateLimit, s: State, es: seq<Event>, req: Supply, tok: Supply) {
    forall k :: 0 <= k <= |es| ==> SlowAt(c, s, es, k, req, tok)
  }

  lemma SlowBefore(c: RateLimit, s: State, es: seq<Event>, req: Supply, tok: Supply)
    requires es != [] && Slow(c, s, es, req, tok)
    ensures Slow(c, s, es[..|es| - 1], req, tok)
    ensures Slower(req, Pace(c, Run(c, s, es[..|es| - 1]))) && Slower(tok, Pace(c, Run(c, s, es[..|es| - 1])))
  {
    var init := es[..|es| - 1];
    forall k | 0 <= k <= |init|
      ensures SlowAt(c, s, init, k, req, tok)
    {
      assert SlowAt(c, s, es, k, req, tok);
      assert init[..k] == es[..k];
    }
    assert SlowAt(c, s, es, |es| - 1, req, tok);
  }

  lemma {:induction false} WindowCovered(c: RateLimit, s: State, es: seq<Event>, from: real, start: real, req: Supply,
          tok: Supply)
    returns (unseen: bool)
    requires Sane(c) && Inv(c, s, start) && start <= from && InOrder(from, es)
    requires Supplies(c, req, tok) && Slow(c, s, es, req, tok)
    requires Covered(req, 0.0, s.req, from, s.updated, true) && Covered(tok, 0.0, s.tok, from, s.updated, true)
    ensures var end := Run(c, s, es);
            var n := Admissions(c, s, es) as real;
            && (unseen ==> n == 0.0)
            && Covered(req, n * (1.0 - EPS), end.req, from, end.updated, unseen)
            && Covered(tok, TokensAdmitted(c, s, es) - n * EPS, end.tok, from, end.updated, unseen)
  {
    if es == [] {
      unseen := true;
    } else {
      var init, last := es[..|es| - 1], es[|es| - 1];
      SlowBefore(c, s, es, req, tok);
      unseen := WindowCovered(c, s, init, from, start, req, tok);
      RunKeepsInv(c, s, init, start);
      unseen := CoveredStep(c, Run(c, s, init), last, from, Admissions(c, s, init) as real,
        TokensAdmitted(c, s, init), unseen, req, tok);
    }
  }

  lemma DrainedCovered(q: Supply, used: real, level: real, from: real, updated: real, unseen: bool)
    requires Covered(q, used, level, from, updated, unseen) && level >= 0.0
    ensures Covered(q, used, 0.0, from, updated, unseen)
  {
  }

  /** An admission takes at least as much as it needs, up to the tolerance. */
  lemma TakeCovered(q: Supply, used: real, level: real, from: real, now: real, need: real)
    requires Covered(q, used, level, from, now, false) && (q.cap > 0 ==> level >= need - EPS)
    ensures Covered(q, used + (need - EPS), Max(0.0, level - need), from, now, false)
  {
  }

  lemma CoveredAttempt(c: RateLimit, s: State, e: Event, from: real, n: real, tokens: real, unseen: bool, req: Supply,
          tok: Supply)
    requires Sane(c) && Inv(c, s, e.now) && from <= e.now && e.Attempt? && e.now >= s.pausedUntil
    requires Supplies(c, req, tok) && Slower(req, Pace(c, s)) && Slower(tok, Pace(c, s))
    requires Covered(req, n * (1.0 - EPS), s.req, from, s.updated, unseen)
    requires Covered(tok, tokens - n * EPS, s.tok, from, s.updated, unseen)
    ensures var end := Apply(c, s, e);
            var taken, tokens' := if IsAdmission(c, s, e) then 1.0 else 0.0,
              if IsAdmission(c, s, e) then Need(c, e.tokens) - EPS else 0.0;
            && Covered(req, n * (1.0 - EPS) + taken * (1.0 - EPS), end.req, from, end.updated, false)
            && Covered(tok, (tokens - n * EPS) + tokens', end.tok, from, end.updated, false)
  {
    var full, usedReq, usedTok := Refill(c, s, e.now), n * (1.0 - EPS), tokens - n * EPS;
    RefillCovered(req, usedReq, s.req, from, s.updated, unseen, Pace(c, s), e.now);
    RefillCovered(tok, usedTok, s.tok, from, s.updated, unseen, Pace(c, s), e.now);
    if IsAdmission(c, s, e) {
      TakeCovered(req, usedReq, full.req, from, e.now, 1.0);
      TakeCovered(tok, usedTok, full.tok, from, e.now, Need(c, e.tokens));
    }
  }

  lemma CoveredStep(c: RateLimit, s: State, e: Event, from: real, n: real, tokens: real, unseen: bool, req: Supply,
          tok: Supply)
    returns (unseen': bool)
    requires Sane(c) && Inv(c, s, e.now) && from <= e.now
    requires Supplies(c, req, tok) && Slower(req, Pace(c, s)) && Slower(tok, Pace(c, s))
    requires unseen ==> n == 0.0
    requires Covered(req, n * (1.0 - EPS), s.req, from, s.updated, unseen)
    requires Covered(tok, tokens - n * EPS, s.tok, from, s.updated, unseen)
    ensures var end := Apply(c, s, e);
            var admitted := IsAdmission(c, s, e);
            var n' := if admitted then n + 1.0 else n;
            var tokens' := if admitted then tokens + Need(c, e.tokens) else tokens;
            && (unseen' ==> unseen && !admitted)
            && Covered(req, n' * (1.0 - EPS), end.req, from, end.updated, unseen')
            && Covered(tok, tokens' - n' * EPS, end.tok, from, end.updated, unseen')
  {
    if e.Attempt? && e.now >= s.pausedUntil {
      unseen' := false;
      CoveredAttempt(c, s, e, from, n, tokens, unseen, req, tok);
    } else {
      unseen' := unseen;
      DrainedCovered(req, n * (1.0 - EPS), s.req, from, s.updated, unseen);
      DrainedCovered(tok, tokens - n * EPS, s.tok, from, s.updated, unseen);
    }
  }

  /** No window lets more through than its buckets can give. */
  lemma WindowWithin(c: RateLimit, s: State, window: seq<Event>, from: real, to: real, req: Supply, tok: Supply)
    requires Sane(c) && Inv(c, s, from) && from <= to
    requires InOrder(from, window) && forall e :: e in window ==> e.now <= to
    requires Supplies(c, req, tok) && Slow(c, s, window, req, tok)
    requires Covered(req, 0.0, s.req, from, s.updated, true) && Covered(tok, 0.0, s.tok, from, s.updated, true)
    ensures var n := Admissions(c, s, window) as real;
            Under(req, n * (1.0 - EPS), from, to) && Under(tok, TokensAdmitted(c, s, window) - n * EPS, from, to)
  {
    var unseen := WindowCovered(c, s, window, from, from, req, tok);
    var end, n := Run(c, s, window), Admissions(c, s, window) as real;
    EndOfWindow(c, s, window, from, to);
    BoundOf(req, n * (1.0 - EPS), end.req, from, end.updated, unseen, to);
    BoundOf(tok, TokensAdmitted(c, s, window) - n * EPS, end.tok, from, end.updated, unseen, to);
  }

  /** How far a quota is kept: of any run of admissions, throttles and successes by any
      number of callers, the requests admitted in a window from s to t number (up to the
      tolerance) at most one full bucket plus one capacity a minute of its length, and the
      same holds of their tokens. In a window of a minute that is twice the quota. */
  lemma WindowBound(c: RateLimit, before: seq<Event>, window: seq<Event>, start: real, from: real, to: real)
    requires Sane(c) && InOrder(start, before + window)
    requires start <= from <= to && forall e :: e in window ==> from <= e.now <= to
    requires forall e :: e in before ==> e.now <= from
    ensures var s := Run(c, Initial(c, start), before);
            var n := Admissions(c, s, window) as real;
            && Bounded(c.requestsPerMinute, c.requestsPerMinute as real, n * (1.0 - EPS), from, to)
            && Bounded(c.tokensPerMinute, c.tokensPerMinute as real, TokensAdmitted(c, s, window) - n * EPS, from, to)
  {
    OrderedParts(start, before, window);
    RunKeepsInv(c, Initial(c, start), before, start);
    var s := Run(c, Initial(c, start), before);
    WindowBoundFrom(c, s, window, from, to);
    var n := Admissions(c, s, window) as real;
    LevelWithinBucket(c.requestsPerMinute, s.req, s.updated, n * (1.0 - EPS), from, to);
    LevelWithinBucket(c.tokensPerMinute, s.tok, s.updated, TokensAdmitted(c, s, window) - n * EPS, from, to);
  }

  lemma LevelWithinBucket(cap: nat, level: real, updated: real, used: real, from: real, to: real)
    requires Bounded(cap, LevelAt(cap, level, updated, from), used, from, to)
    ensures Bounded(cap, cap as real, used, from, to)
  {
  }

  function SupplyAt(cap: nat, pace: real, level: real, waited: real): Supply {
    var rate := (cap as real / 60.0) * pace;
    Supply(cap, rate, HeldAfter(cap, level, rate, waited))
  }

  lemma SupplyMeans(cap: nat, pace: real, level: real, updated: real, at: real)
    requires 0.0 <= pace <= 1.0 && level >= 0.0 && updated <= at
    ensures var q := SupplyAt(cap, pace, level, at - updated);
            && q.cap == cap && q.rate >= 0.0 && q.base >= 0.0 && Slower(q, pace)
            && Covered(q, 0.0, level, at, updated, true)
            && q.base == Topped(cap, level, pace, at - updated)
  {
    var rate := (cap as real / 60.0) * pace;
    NotNegative(cap as real / 60.0, pace);
    NotNegative(rate, at - updated);
    assert Gain(cap, pace, at - updated) == rate * (at - updated);
  }

  lemma SlowerPace(q: Supply, pace: real)
    requires Slower(q, 1.0) && 0.0 <= pace <= 1.0
    ensures Slower(q, pace)
  {
    var each := q.cap as real / 60.0;
    NotNegative(each, 1.0 - pace);
    assert each * (1.0 - pace) == each * 1.0 - each * pace;
  }

  lemma UnderIsBounded(cap: nat, level: real, updated: real, used: real, from: real, to: real)
    requires level >= 0.0 && updated <= from && Under(SupplyAt(cap, 1.0, level, from - updated), used, from, to)
    ensures Bounded(cap, LevelAt(cap, level, updated, from), used, from, to)
  {
    SupplyMeans(cap, 1.0, level, updated, from);
  }

  lemma AnyPaceIsSlow(c: RateLimit, s: State, window: seq<Event>, from: real, req: Supply, tok: Supply)
    requires Sane(c) && Inv(c, s, from) && InOrder(from, window)
    requires Slower(req, 1.0) && Slower(tok, 1.0)
    ensures Slow(c, s, window, req, tok)
  {
    forall k | 0 <= k <= |window|
      ensures SlowAt(c, s, window, k, req, tok)
    {
      RunKeepsInv(c, s, window[..k], from);
      SlowerPace(req, Pace(c, Run(c, s, window[..k])));
      SlowerPace(tok, Pace(c, Run(c, s, window[..k])));
    }
  }

  /** The same from what the buckets can hold when the window begins. */
  lemma WindowBoundFrom(c: RateLimit, s: State, window: seq<Event>, from: real, to: real)
    requires Sane(c) && Inv(c, s, from) && from <= to
    requires InOrder(from, window) && forall e :: e in window ==> e.now <= to
    ensures var n := Admissions(c, s, window) as real;
            var req := LevelAt(c.requestsPerMinute, s.req, s.updated, from);
            var tok := LevelAt(c.tokensPerMinute, s.tok, s.updated, from);
            && Bounded(c.requestsPerMinute, req, n * (1.0 - EPS), from, to)
            && Bounded(c.tokensPerMinute, tok, TokensAdmitted(c, s, window) - n * EPS, from, to)
  {
    var req := SupplyAt(c.requestsPerMinute, 1.0, s.req, from - s.updated);
    var tok := SupplyAt(c.tokensPerMinute, 1.0, s.tok, from - s.updated);
    SupplyMeans(c.requestsPerMinute, 1.0, s.req, s.updated, from);
    SupplyMeans(c.tokensPerMinute, 1.0, s.tok, s.updated, from);
    AnyPaceIsSlow(c, s, window, from, req, tok);
    WindowWithin(c, s, window, from, to, req, tok);
    var n := Admissions(c, s, window) as real;
    UnderIsBounded(c.requestsPerMinute, s.req, s.updated, n * (1.0 - EPS), from, to);
    UnderIsBounded(c.tokensPerMinute, s.tok, s.updated, TokensAdmitted(c, s, window) - n * EPS, from, to);
  }

  lemma EndOfWindow(c: RateLimit, s: State, window: seq<Event>, from: real, to: real)
    requires Sane(c) && Inv(c, s, from) && from <= to
    requires InOrder(from, window) && forall e :: e in window ==> e.now <= to
    ensures var end := Run(c, s, window); end.req >= 0.0 && end.tok >= 0.0 && end.updated <= to
  {
    RunKeepsInv(c, s, window, from);
    if window != [] {
      assert window[|window| - 1] in window;
    }
  }

  lemma BoundOf(q: Supply, used: real, level: real, from: real, updated: real, unseen: bool, to: real)
    requires Covered(q, used, level, from, updated, unseen)
    requires q.base >= 0.0 && q.rate >= 0.0 && level >= 0.0 && from <= to && updated <= to
    ensures Under(q, used, from, to)
  {
    NotNegative(q.rate, to - from);
    Distribute(q.rate, updated - from, to - updated);
    NotNegative(q.rate, to - updated);
  }

  lemma OrderedParts(start: real, before: seq<Event>, window: seq<Event>)
    requires InOrder(start, before + window)
    ensures InOrder(start, before)
    ensures forall i, j :: 0 <= i < j < |window| ==> window[i].now <= window[j].now
  {
    var all := before + window;
    forall i | 0 <= i < |before|
      ensures all[i] == before[i]
    {
    }
    forall i, j | 0 <= i < j < |window|
      ensures window[i].now <= window[j].now
    {
      assert all[|before| + i] == window[i] && all[|before| + j] == window[j];
    }
  }

  // ------------------------------------------------------- runs that use a bucket fully

  /** An attempt without tokens: how long after the one before, and what part of a request
      is refilled meanwhile. */
  datatype Wave = Wave(after: real, gain: real)

  predicate Timed(cap: nat, w: Wave) {
    w.after >= 0.0 && w.gain >= 0.0 && Gain(cap, 1.0, w.after) == w.gain
  }

  /** So much, refilled on top of the level, makes room for a request and does not
      overflow the bucket. */
  predicate Fits(cap: nat, level: real, gain: real) {
    gain >= 0.0 && 1.0 - EPS <= level + gain <= cap as real
  }

  /** The bucket holds so much at that time, and nothing holds it back. */
  ghost predicate Ready(c: RateLimit, s: State, at: real, level: real) {
    && c.requestsPerMinute > 0 && s.req == level && s.updated == at && Pace(c, s) == 1.0 && s.pausedUntil <= at
    && s.tok >= 0.0
  }

  lemma NextAdmitted(c: RateLimit, s: State, at: real, level: real, w: Wave)
    requires Ready(c, s, at, level) && Timed(c.requestsPerMinute, w) && Fits(c.requestsPerMinute, level, w.gain)
    ensures IsAdmission(c, s, Attempt(at + w.after, 0))
    ensures Ready(c, Apply(c, s, Attempt(at + w.after, 0)), at + w.after, Max(0.0, level + w.gain - 1.0))
  {
    GainBounds(c.tokensPerMinute, 1.0, w.after);
  }

  /** Every event of the run lies between the two times. */
  ghost predicate During(es: seq<Event>, from: real, to: real) {
    from <= to && InOrder(from, es) && forall i :: 0 <= i < |es| ==> es[i].now <= to
  }

  lemma LaterInOrder(es: seq<Event>, from: real, to: real, e: Event)
    requires During(es, from, to) && to <= e.now
    ensures During(es + [e], from, e.now)
  {
  }

  lemma AdmittedLast(c: RateLimit, s: State, es: seq<Event>, e: Event)
    requires IsAdmission(c, Run(c, s, es), e)
    ensures Admissions(c, s, es + [e]) == Admissions(c, s, es) + 1
    ensures Run(c, s, es + [e]) == Apply(c, Run(c, s, es), e)
  {
    assert (es + [e])[..|es|] == es;
  }

  /** Each of the attempts was admitted, and the run ends at that time with that level. */
  ghost predicate Passed(c: RateLimit, s: State, es: seq<Event>, at: real, to: real, level: real) {
    && Admissions(c, s, es) == |es| && Ready(c, Run(c, s, es), to, level) && During(es, at, to)
    && forall i :: 0 <= i < |es| ==> es[i].Attempt?
  }

  lemma OneMorePasses(c: RateLimit, s: State, es: seq<Event>, at: real, to: real, level: real, w: Wave)
    requires Passed(c, s, es, at, to, level)
    requires Timed(c.requestsPerMinute, w) && Fits(c.requestsPerMinute, level, w.gain)
    ensures Passed(c, s, es + [Attempt(to + w.after, 0)], at, to + w.after, Max(0.0, level + w.gain - 1.0))
  {
    var e := Attempt(to + w.after, 0);
    NextAdmitted(c, Run(c, s, es), to, level, w);
    AdmittedLast(c, s, es, e);
    LaterInOrder(es, at, to, e);
  }

  /** Each further wave takes what it refills, so that the level stays as it is. */
  predicate Steady(cap: nat, level: real, gain: real) {
    Fits(cap, level, gain) && level == Max(0.0, level + gain - 1.0)
  }

  lemma {:induction false} SteadyPasses(c: RateLimit, s: State, es: seq<Event>, at: real, to: real, level: real,
          w: Wave, n: nat)
    returns (longer: seq<Event>)
    requires Passed(c, s, es, at, to, level)
    requires Timed(c.requestsPerMinute, w) && Steady(c.requestsPerMinute, level, w.gain)
    ensures |longer| == |es| + n && Passed(c, s, longer, at, to + Times(n, w.after), level)
  {
    longer := es;
    if n > 0 {
      longer := SteadyPasses(c, s, es, at, to, level, w, n - 1);
      var now := to + Times(n - 1, w.after);
      OneMorePasses(c, s, longer, at, now, level, w);
      longer := longer + [Attempt(now + w.after, 0)];
    }
  }

  const AT_ONCE := Wave(0.0, 0.0)

  /** A full bucket used up at once. */
  lemma {:induction false} BurstPasses(c: RateLimit, s: State, at: real, n: nat) returns (es: seq<Event>)
    requires Ready(c, s, at, c.requestsPerMinute as real) && n <= c.requestsPerMinute
    ensures |es| == n && Passed(c, s, es, at, at, (c.requestsPerMinute - n) as real)
  {
    es := [];
    if n > 0 {
      es := BurstPasses(c, s, at, n - 1);
      OneMorePasses(c, s, es, at, at, (c.requestsPerMinute - (n - 1)) as real, AT_ONCE);
      es := es + [Attempt(at, 0)];
    }
  }

  /** The time that refills one request. */
  ghost predicate IsUnit(cap: nat, unit: real) {
    unit > 0.0 && cap as real * unit == 60.0
  }

  /** The wave after which so much of a request is refilled. */
  lemma WaveOf(cap: nat, unit: real, gain: real)
    requires IsUnit(cap, unit) && gain >= 0.0
    ensures Timed(cap, Wave(gain * unit, gain))
  {
    var rate := cap as real / 60.0;
    assert unit * rate == 1.0;
    assert (gain * unit) * rate == gain * (unit * rate);
    NotNegative(gain, unit);
  }

  lemma FullBucketPasses(c: RateLimit, s: State, at: real, w: Wave, j: nat) returns (es: seq<Event>)
    requires Ready(c, s, at, c.requestsPerMinute as real) && Timed(c.requestsPerMinute, w) && w.gain == 1.0
    ensures During(es, at, at + Times(j, w.after)) && Admissions(c, s, es) == c.requestsPerMinute + j
  {
    var burst := BurstPasses(c, s, at, c.requestsPerMinute);
    es := SteadyPasses(c, s, burst, at, at, 0.0, w, j);
  }

  /** The window bound cannot be improved: from the start, cap + j requests can be admitted
      within the time that refills j. */
  lemma WindowBoundIsSharp(c: RateLimit, start: real, unit: real, j: nat)
    requires IsUnit(c.requestsPerMinute, unit) && start >= 0.0
    ensures exists es :: During(es, start, start + Times(j, unit))
              && Admissions(c, Initial(c, start), es) == c.requestsPerMinute + j
  {
    WaveOf(c.requestsPerMinute, unit, 1.0);
    var es := FullBucketPasses(c, Initial(c, start), start, Wave(unit, 1.0), j);
  }

  lemma OneAtOnce(c: RateLimit, s: State, e: Event)
    requires c.requestsPerMinute == 2 && Ready(c, s, 0.0, 2.0) && e == Attempt(0.0, 0)
    ensures Passed(c, s, [e], 0.0, 0.0, 1.0)
  {
    var none: seq<Event> := [];
    assert Passed(c, s, none, 0.0, 0.0, 2.0);
    OneMorePasses(c, s, none, 0.0, 0.0, 2.0, AT_ONCE);
    assert none + [e] == [e];
  }

  lemma TwoAtOnce(c: RateLimit, s: State, e: Event)
    requires c.requestsPerMinute == 2 && Ready(c, s, 0.0, 2.0) && e == Attempt(0.0, 0)
    ensures Passed(c, s, [e, e], 0.0, 0.0, 0.0)
  {
    OneAtOnce(c, s, e);
    OneMorePasses(c, s, [e], 0.0, 0.0, 1.0, AT_ONCE);
    assert [e] + [e] == [e, e];
  }

  lemma ThreePass(c: RateLimit, s: State, e: Event, last: Event)
    requires c.requestsPerMinute == 2 && Ready(c, s, 0.0, 2.0) && e == Attempt(0.0, 0) && last == Attempt(30.0, 0)
    ensures Admissions(c, s, [e, e, last]) == 3
  {
    TwoAtOnce(c, s, e);
    OneMorePasses(c, s, [e, e], 0.0, 0.0, 0.0, Wave(30.0, 1.0));
    assert [e, e] + [last] == [e, e, last];
  }

  /** So a quota is exceeded: of two requests a minute, three pass within thirty seconds. */
  lemma ThreeInThirtySeconds(c: RateLimit)
    requires c.requestsPerMinute == 2
    ensures Admissions(c, Initial(c, 0.0), [Attempt(0.0, 0), Attempt(0.0, 0), Attempt(30.0, 0)]) == 3
  {
    ThreePass(c, Initial(c, 0.0), Attempt(0.0, 0), Attempt(30.0, 0));
  }

  // ----------------------------------------------------------- when the quota is kept

  /** No run of the minute from here on admits more than the quota. */
  ghost predicate KeepsQuota(c: RateLimit, s: State, from: real) {
    forall es :: During(es, from, from + 60.0) ==> Admissions(c, s, es) <= c.requestsPerMinute
  }

  /** The level below which that is so, up to the tolerance of the cap + 1 requests. */
  function Leftover(cap: nat): real {
    1.0 - (cap + 1) as real * EPS
  }

  lemma DuringMembers(es: seq<Event>, from: real, to: real)
    requires During(es, from, to)
    ensures forall e :: e in es ==> e.now <= to
  {
  }

  lemma BoundOfMinute(cap: nat, base: real, used: real, from: real)
    requires cap > 0 && Bounded(cap, base, used, from, from + 60.0)
    ensures used <= base + cap as real
  {
    assert (cap as real / 60.0) * (from + 60.0 - from) == cap as real;
  }

  lemma FewerThan(cap: nat, n: nat, level: real)
    requires n as real * (1.0 - EPS) <= level + cap as real && level < Leftover(cap)
    ensures n <= cap
  {
  }

  lemma KeptWhenLow(c: RateLimit, s: State, from: real, es: seq<Event>)
    requires Sane(c) && c.requestsPerMinute > 0 && Inv(c, s, from) && During(es, from, from + 60.0)
    requires LevelAt(c.requestsPerMinute, s.req, s.updated, from) < Leftover(c.requestsPerMinute)
    ensures Admissions(c, s, es) <= c.requestsPerMinute
  {
    var cap, level := c.requestsPerMinute, LevelAt(c.requestsPerMinute, s.req, s.updated, from);
    DuringMembers(es, from, from + 60.0);
    WindowBoundFrom(c, s, es, from, from + 60.0);
    BoundOfMinute(cap, level, Admissions(c, s, es) as real * (1.0 - EPS), from);
    FewerThan(cap, Admissions(c, s, es), level);
  }

  /** With so much left over, cap + 1 requests fit into what a minute refills. */
  lemma OneTooMany(cap: nat, level: real) returns (first: real, each: real)
    requires cap > 0 && 0.0 <= level <= cap as real && level >= Leftover(cap)
    ensures first >= 0.0 && each >= 0.0 && Fits(cap, level, first) && Steady(cap, Max(0.0, level + first - 1.0), each)
    ensures first + cap as real * each <= cap as real
  {
    if level >= 1.0 {
      first, each := 0.0, 1.0;
    } else {
      first, each := Max(0.0, 1.0 - EPS - level), 1.0 - EPS;
    }
  }

  lemma WithinAMinute(cap: nat, unit: real, first: real, each: real)
    requires IsUnit(cap, unit) && first + cap as real * each <= cap as real
    ensures first * unit + Times(cap, each * unit) <= 60.0
  {
    var rest := cap as real * each;
    TimesIsProduct(cap, each * unit);
    assert cap as real * (each * unit) == rest * unit;
    assert (first + rest) * unit == first * unit + rest * unit;
    var spare := cap as real - (first + rest);
    NotNegative(spare, unit);
    assert spare * unit == cap as real * unit - (first + rest) * unit;
  }

  lemma OneTooManyPass(c: RateLimit, s: State, from: real, unit: real) returns (es: seq<Event>)
    requires Ready(c, s, from, s.req) && IsUnit(c.requestsPerMinute, unit)
    requires 0.0 <= s.req <= c.requestsPerMinute as real && s.req >= Leftover(c.requestsPerMinute)
    ensures |es| == Admissions(c, s, es) == c.requestsPerMinute + 1
    ensures During(es, from, from + 60.0) && es[0].Attempt?
  {
    var cap := c.requestsPerMinute;
    var first, each := OneTooMany(cap, s.req);
    WaveOf(cap, unit, first);
    WaveOf(cap, unit, each);
    es := FirstThenEach(c, s, from, Wave(first * unit, first), Wave(each * unit, each));
    WithinAMinute(cap, unit, first, each);
  }

  lemma FirstThenEach(c: RateLimit, s: State, from: real, w: Wave, w': Wave) returns (es: seq<Event>)
    requires Ready(c, s, from, s.req) && Timed(c.requestsPerMinute, w) && Timed(c.requestsPerMinute, w')
    requires Fits(c.requestsPerMinute, s.req, w.gain)
    requires Steady(c.requestsPerMinute, Max(0.0, s.req + w.gain - 1.0), w'.gain)
    ensures |es| == Admissions(c, s, es) == c.requestsPerMinute + 1
    ensures During(es, from, from + w.after + Times(c.requestsPerMinute, w'.after)) && es[0].Attempt?
  {
    var none: seq<Event> := [];
    assert Passed(c, s, none, from, from, s.req);
    OneMorePasses(c, s, none, from, from, s.req, w);
    var one := none + [Attempt(from + w.after, 0)];
    es := SteadyPasses(c, s, one, from, from + w.after, Max(0.0, s.req + w.gain - 1.0), w', c.requestsPerMinute);
  }

  lemma ToppedTwice(cap: nat, level: real, a: real, b: real)
    requires a >= 0.0 && b >= 0.0
    ensures Topped(cap, Topped(cap, level, 1.0, a), 1.0, b) == Topped(cap, level, 1.0, a + b)
  {
    var rate := cap as real / 60.0;
    Distribute(rate, a, b);
    NotNegative(rate, a);
    NotNegative(rate, b);
    assert Gain(cap, 1.0, a) == rate * a && Gain(cap, 1.0, b) == rate * b && Gain(cap, 1.0, a + b) == rate * (a + b);
  }

  /** A refill ahead of an attempt makes no difference to it. */
  lemma RefillAhead(c: RateLimit, s: State, from: real, e: Event)
    requires Pace(c, s) == 1.0 && s.updated <= from <= e.now && s.pausedUntil <= from && e.Attempt?
    ensures IsAdmission(c, s, e) <==> IsAdmission(c, Refill(c, s, from), e)
    ensures Apply(c, s, e) == Apply(c, Refill(c, s, from), e)
  {
    ToppedTwice(c.requestsPerMinute, s.req, from - s.updated, e.now - from);
    ToppedTwice(c.tokensPerMinute, s.tok, from - s.updated, e.now - from);
    assert (from - s.updated) + (e.now - from) == e.now - s.updated;
    assert Refill(c, s, e.now) == Refill(c, Refill(c, s, from), e.now);
  }

  lemma {:induction false} SameRun(c: RateLimit, s: State, s': State, es: seq<Event>)
    requires es != [] && Apply(c, s, es[0]) == Apply(c, s', es[0])
    requires IsAdmission(c, s, es[0]) <==> IsAdmission(c, s', es[0])
    ensures Run(c, s, es) == Run(c, s', es) && Admissions(c, s, es) == Admissions(c, s', es)
  {
    var init := es[..|es| - 1];
    if init == [] {
      assert Run(c, s, init) == s && Run(c, s', init) == s';
    } else {
      SameRun(c, s, s', init);
    }
  }

  lemma RefilledIsReady(c: RateLimit, s: State, from: real)
    requires c.requestsPerMinute > 0 && Inv(c, s, from) && Pace(c, s) == 1.0 && s.pausedUntil <= from
    ensures var s' := Refill(c, s, from);
            Ready(c, s', from, s'.req) && 0.0 <= s'.req <= c.requestsPerMinute as real
  {
    GainBounds(c.requestsPerMinute, 1.0, from - s.updated);
    GainBounds(c.tokensPerMinute, 1.0, from - s.updated);
  }

  lemma QuotaBroken(c: RateLimit, s: State, from: real) returns (es: seq<Event>)
    requires c.requestsPerMinute > 0 && Inv(c, s, from) && Pace(c, s) == 1.0 && s.pausedUntil <= from
    requires Refill(c, s, from).req >= Leftover(c.requestsPerMinute)
    ensures During(es, from, from + 60.0) && Admissions(c, s, es) == c.requestsPerMinute + 1
  {
    var s' := Refill(c, s, from);
    RefilledIsReady(c, s, from);
    var unit := 60.0 / c.requestsPerMinute as real;
    es := OneTooManyPass(c, s', from, unit);
    RefillAhead(c, s, from, es[0]);
    SameRun(c, s, s', es);
  }

  /** Exactly when a minute keeps to the quota, at full pace and with no pause pending: when
      the bucket is empty at its beginning. Anything left over from before comes on top of
      what the minute itself refills. */
  lemma QuotaKeptIff(c: RateLimit, s: State, from: real)
    requires Sane(c) && c.requestsPerMinute > 0 && Inv(c, s, from)
    requires Pace(c, s) == 1.0 && s.pausedUntil <= from
    ensures KeepsQuota(c, s, from) <==> Refill(c, s, from).req < Leftover(c.requestsPerMinute)
  {
    if Refill(c, s, from).req < Leftover(c.requestsPerMinute) {
      forall es | During(es, from, from + 60.0)
        ensures Admissions(c, s, es) <= c.requestsPerMinute
      {
        KeptWhenLow(c, s, from, es);
      }
    } else {
      var es := QuotaBroken(c, s, from);
    }
  }

  // -------------------------------------------------------------------------- pauses

  lemma {:induction false} PauseHolds(c: RateLimit, s: State, es: seq<Event>)
    ensures Run(c, s, es).pausedUntil >= s.pausedUntil
  {
    if es != [] {
      PauseHolds(c, s, es[..|es| - 1]);
    }
  }

  /** After a throttle at `at`, nothing is admitted until the pause is over, whatever
      else happens in between. */
  lemma NoAdmissionDuringPause(c: RateLimit, s: State, at: real, retryAfter: Option<real>, between: seq<Event>,
          e: Event)
    requires IsAdmission(c, Run(c, Throttled(c, s, at, retryAfter), between), e)
    ensures e.now >= at + Asked(c, retryAfter)
  {
    PauseHolds(c, Throttled(c, s, at, retryAfter), between);
  }

  /** No pause is longer than what was asked for: once the last of them is over, pausing
      holds nothing back. */
  lemma {:induction false} PausesEnd(c: RateLimit, s: State, es: seq<Event>, end: real)
    requires s.pausedUntil <= end
    requires forall e :: e in es && e.Throttle? ==> e.now + Asked(c, e.retryAfter) <= end
    ensures Run(c, s, es).pausedUntil <= end
  {
    if es != [] {
      var init, last := es[..|es| - 1], es[|es| - 1];
      assert es == init + [last];
      PausesEnd(c, s, init, end);
      assert last in es;
    }
  }

  /** The pause that a throttle asks for: a positive Retry-After, or the default. */
  function Asked(c: RateLimit, retryAfter: Option<real>): real {
    match retryAfter
    case Some(after) => if after > 0.0 then after else c.defaultPause
    case None => c.defaultPause
  }

  /** A bucket that is limited holds so much, up to a billionth, refilled for a time at a
      fraction of its capacity a minute. */
  predicate Holds(cap: nat, level: real, elapsed: real, fraction: real, need: real) {
    cap > 0 ==> need - 0.000000001 <= Min(cap as real, level + elapsed * (cap as real / 60.0) * fraction)
  }

  lemma HoldsMeans(cap: nat, level: real, elapsed: real, fraction: real, need: real)
    ensures Holds(cap, level, elapsed, fraction, need) <==>
            (cap > 0 ==> Topped(cap, level, fraction, elapsed) >= need - EPS)
  {
  }

  /** When an attempt is admitted: no pause is on, and each bucket holds what the request
      needs; one larger than the bucket needs a full one. */
  lemma AdmitsIff(c: RateLimit, s: State, now: real, tokens: nat)
    requires s.updated <= now
    ensures Admits(c, s, now, tokens) <==>
            var f, elapsed := if c.adapt then s.fraction else 1.0, now - s.updated;
            && now >= s.pausedUntil && Holds(c.requestsPerMinute, s.req, elapsed, f, 1.0)
            && Holds(c.tokensPerMinute, s.tok, elapsed, f, Min(tokens as real, c.tokensPerMinute as real))
  {
    var f, elapsed := if c.adapt then s.fraction else 1.0, now - s.updated;
    HoldsMeans(c.requestsPerMinute, s.req, elapsed, f, 1.0);
    HoldsMeans(c.tokensPerMinute, s.tok, elapsed, f, Min(tokens as real, c.tokensPerMinute as real));
  }

  // ---------------------------------------------------------------------------- pace

  /** Additive increase: n successes give back n steps of the pace, up to the full one. */
  lemma {:induction false} PaceAfterSuccesses(c: RateLimit, s: State, es: seq<Event>)
    requires Sane(c) && s.fraction <= 1.0 && forall e :: e in es ==> e.Success?
    ensures c.adapt ==> Run(c, s, es).fraction == Min(1.0, s.fraction + |es| as real * c.recoverStep)
    ensures !c.adapt ==> Run(c, s, es) == s
  {
    if es != [] {
      var init := es[..|es| - 1];
      PaceAfterSuccesses(c, s, init);
      assert es[|es| - 1] in es;
      assert |es| as real * c.recoverStep == |init| as real * c.recoverStep + c.recoverStep;
    }
  }

  lemma NoFasterWithoutSuccess(c: RateLimit, s: State, e: Event)
    requires Sane(c) && c.adapt && c.minFraction <= s.fraction && !e.Success?
    ensures c.minFraction <= Apply(c, s, e).fraction <= s.fraction
  {
    match e
    case Attempt(now, tokens) =>
      assert Attempted(c, s, now, tokens).fraction == s.fraction;
    case Throttle(now, retryAfter) =>
      var slower := s.fraction * c.backoffFactor;
      NeverFaster(s.fraction, c.backoffFactor);
      assert Throttled(c, s, now, retryAfter).fraction == Max(c.minFraction, slower);
      assert slower <= s.fraction;
  }

  lemma {:induction false} NoFasterInTheMeantime(c: RateLimit, s: State, es: seq<Event>)
    requires Sane(c) && c.adapt && c.minFraction <= s.fraction && forall e :: e in es ==> !e.Success?
    ensures c.minFraction <= Run(c, s, es).fraction <= s.fraction
  {
    if es != [] {
      NoFasterInTheMeantime(c, s, es[..|es| - 1]);
      assert es[|es| - 1] in es;
      NoFasterWithoutSuccess(c, Run(c, s, es[..|es| - 1]), es[|es| - 1]);
    }
  }

  /** Multiplicative decrease: a throttle leaves the backoff factor's share of the pace,
      never less than the least; and only successes bring any of it back. */
  lemma PaceAfterThrottle(c: RateLimit, s: State, at: real, retryAfter: Option<real>, es: seq<Event>)
    requires Sane(c) && c.adapt && c.minFraction <= s.fraction && forall e :: e in es ==> !e.Success?
    ensures var pace := Run(c, Throttled(c, s, at, retryAfter), es).fraction;
            c.minFraction <= pace <= Max(c.minFraction, s.fraction * c.backoffFactor)
  {
    var throttled := Throttled(c, s, at, retryAfter);
    assert throttled.fraction == Max(c.minFraction, s.fraction * c.backoffFactor);
    NoFasterInTheMeantime(c, throttled, es);
  }

  lemma NeverFaster(a: real, b: real)
    requires a >= 0.0 && 0.0 <= b <= 1.0
    ensures a * b <= a
  {
    NotNegative(a, 1.0 - b);
    assert a * (b + (1.0 - b)) == a * b + a * (1.0 - b);
  }

  lemma SlowWhileThrottled(c: RateLimit, s: State, window: seq<Event>, from: real, req: Supply, tok: Supply)
    requires Sane(c) && c.adapt && Inv(c, s, from) && InOrder(from, window) && forall e :: e in window ==> !e.Success?
    requires Slower(req, s.fraction) && Slower(tok, s.fraction)
    ensures Slow(c, s, window, req, tok)
  {
    forall k | 0 <= k <= |window|
      ensures SlowAt(c, s, window, k, req, tok)
    {
      NoFasterInTheMeantime(c, s, window[..k]);
      EvenSlower(req, s.fraction, Run(c, s, window[..k]).fraction);
      EvenSlower(tok, s.fraction, Run(c, s, window[..k]).fraction);
    }
  }

  lemma EvenSlower(q: Supply, pace: real, slower: real)
    requires Slower(q, pace) && 0.0 <= slower <= pace
    ensures Slower(q, slower)
  {
    var each := q.cap as real / 60.0;
    NotNegative(each, pace - slower);
    assert each * (pace - slower) == each * pace - each * slower;
  }

  lemma WithinReduced(c: RateLimit, s: State, window: seq<Event>, from: real, to: real)
    requires Sane(c) && c.adapt && Inv(c, s, from) && from <= to
    requires InOrder(from, window) && forall e :: e in window ==> e.now <= to && !e.Success?
    ensures var n := Admissions(c, s, window) as real;
            && Under(SupplyAt(c.requestsPerMinute, s.fraction, s.req, from - s.updated), n * (1.0 - EPS), from, to)
            && Under(SupplyAt(c.tokensPerMinute, s.fraction, s.tok, from - s.updated),
                     TokensAdmitted(c, s, window) - n * EPS, from, to)
  {
    var req := SupplyAt(c.requestsPerMinute, s.fraction, s.req, from - s.updated);
    var tok := SupplyAt(c.tokensPerMinute, s.fraction, s.tok, from - s.updated);
    SupplyMeans(c.requestsPerMinute, s.fraction, s.req, s.updated, from);
    SupplyMeans(c.tokensPerMinute, s.fraction, s.tok, s.updated, from);
    SlowWhileThrottled(c, s, window, from, req, tok);
    WindowWithin(c, s, window, from, to, req, tok);
  }

  /** At most what a bucket of this level holds after so much waiting at that fraction of
      its rate, and what it gains at that fraction in the window. */
  ghost predicate BoundedAt(cap: nat, fraction: real, level: real, waited: real, used: real, from: real, to: real) {
    cap > 0 ==> used <= HeldAfter(cap, level, (cap as real / 60.0) * fraction, waited)
                        + (cap as real / 60.0) * fraction * (to - from)
  }

  /** The pace reaches the buckets: as long as no call succeeds, a window admits no more than
      what the buckets hold when it begins and their capacities at the fraction of then. */
  lemma ReducedPaceBound(c: RateLimit, s: State, window: seq<Event>, from: real, to: real)
    requires Sane(c) && c.adapt && Inv(c, s, from) && from <= to
    requires InOrder(from, window) && forall e :: e in window ==> e.now <= to && !e.Success?
    ensures var n, waited := Admissions(c, s, window) as real, from - s.updated;
            && BoundedAt(c.requestsPerMinute, s.fraction, s.req, waited, n * (1.0 - EPS), from, to)
            && BoundedAt(c.tokensPerMinute, s.fraction, s.tok, waited, TokensAdmitted(c, s, window) - n * EPS, from, to)
  {
    WithinReduced(c, s, window, from, to);
    var n, waited := Admissions(c, s, window) as real, from - s.updated;
    UnderIsBoundedAt(c.requestsPerMinute, s.fraction, s.req, waited, n * (1.0 - EPS), from, to);
    UnderIsBoundedAt(c.tokensPerMinute, s.fraction, s.tok, waited, TokensAdmitted(c, s, window) - n * EPS, from, to);
  }

  lemma UnderIsBoundedAt(cap: nat, fraction: real, level: real, waited: real, used: real, from: real, to: real)
    requires Under(SupplyAt(cap, fraction, level, waited), used, from, to)
    ensures BoundedAt(cap, fraction, level, waited, used, from, to)
  {
  }

  /** After a throttle the buckets start from nothing, at the pace cut by the factor: until a
      call succeeds no more is admitted than what they gain since they were last refilled. */
  lemma ThrottledBound(c: RateLimit, s: State, at: real, retryAfter: Option<real>, window: seq<Event>, from: real,
          to: real)
    requires Sane(c) && c.adapt && Inv(c, s, at) && at <= from <= to
    requires InOrder(from, window) && forall e :: e in window ==> e.now <= to && !e.Success?
    ensures var s', pace := Throttled(c, s, at, retryAfter), Max(c.minFraction, s.fraction * c.backoffFactor);
            && BoundedAt(c.requestsPerMinute, pace, 0.0, from - s.updated,
                         Admissions(c, s', window) as real * (1.0 - EPS), from, to)
            && BoundedAt(c.tokensPerMinute, pace, 0.0, from - s.updated,
                         TokensAdmitted(c, s', window) - Admissions(c, s', window) as real * EPS, from, to)
  {
    StepKeepsInv(c, s, Throttle(at, retryAfter), at);
    ReducedPaceBound(c, Throttled(c, s, at, retryAfter), window, from, to);
  }

  /** And it is no slower than that: the time in which a request is refilled at the reduced
      pace puts one into the bucket. */
  lemma ReducedPaceRefills(c: RateLimit, s: State, wait: real)
    requires c.adapt && c.requestsPerMinute > 0 && 0.0 < s.fraction <= 1.0 && wait >= 0.0
    requires wait * (c.requestsPerMinute as real * s.fraction) == 60.0
    ensures Refill(c, s, s.updated + wait).req == Min(c.requestsPerMinute as real, s.req + 1.0)
  {
    var cap, f := c.requestsPerMinute as real, s.fraction;
    assert wait * (cap / 60.0) * f == wait * (cap * f) / 60.0;
    assert s.updated + wait - s.updated == wait;
  }

  // ------------------------------------------------------------------------ progress

  /** `_eta` for one bucket. */
  function Eta(cap: nat, level: real, goal: real, pace: real): real
    requires cap > 0
  {
    (goal - level) / ((cap as real / 60.0) * Max(pace, MIN_PACE))
  }

  function Wait(c: RateLimit, s: State, need: real): real {
    var reqShort, tokShort := c.requestsPerMinute > 0 && s.req < 1.0, c.tokensPerMinute > 0 && s.tok < need;
    if reqShort && tokShort then
      Min(Eta(c.requestsPerMinute, s.req, 1.0, Pace(c, s)), Eta(c.tokensPerMinute, s.tok, need, Pace(c, s)))
    else if reqShort then Eta(c.requestsPerMinute, s.req, 1.0, Pace(c, s))
    else if tokShort then Eta(c.tokensPerMinute, s.tok, need, Pace(c, s))
    else 0.0
  }

  predicate Full(cap: nat, level: real, goal: real) {
    cap > 0 ==> level >= goal
  }

  function FullBuckets(c: RateLimit, s: State, need: real): nat {
    (if Full(c.requestsPerMinute, s.req, 1.0) then 1 else 0) + (if Full(c.tokensPerMinute, s.tok, need) then 1 else 0)
  }

  /** Waiting out a bucket's estimate fills it, and a bucket never loses by waiting. */
  lemma WaitingFills(cap: nat, level: real, goal: real, pace: real, elapsed: real)
    requires cap > 0 && MIN_PACE <= pace <= 1.0 && goal <= cap as real && elapsed >= 0.0
    ensures level <= cap as real ==> Topped(cap, level, pace, elapsed) >= level
    ensures level < goal && elapsed >= Eta(cap, level, goal, pace) ==> Topped(cap, level, pace, elapsed) >= goal
    ensures level < goal ==> Eta(cap, level, goal, pace) >= 0.0
  {
    GainBounds(cap, pace, elapsed);
    var rate := (cap as real / 60.0) * pace;
    assert rate > 0.0;
    if level < goal {
      var eta := (goal - level) / rate;
      assert eta * rate == goal - level;
      assert eta >= 0.0;
      if elapsed >= eta {
        NotNegative(elapsed - eta, rate);
        assert Gain(cap, pace, elapsed) == elapsed * rate;
      }
    }
  }

  /** Topping up twice is topping up once for the whole time. */
  lemma ToppedMonotone(cap: nat, level: real, pace: real, a: real, b: real)
    requires 0.0 <= pace <= 1.0 && 0.0 <= a <= b
    ensures Topped(cap, level, pace, a) <= Topped(cap, level, pace, b)
  {
    if cap > 0 {
      var rate := (cap as real / 60.0) * pace;
      assert rate >= 0.0;
      NotNegative(b - a, rate);
      assert Gain(cap, pace, a) == a * rate && Gain(cap, pace, b) == b * rate;
    }
  }

  lemma TimeOnlyFills(c: RateLimit, s: State, need: real, a: real, b: real)
    requires Paced(c) && Inv(c, s, a) && a <= b
    ensures FullBuckets(c, Refill(c, s, a), need) <= FullBuckets(c, Refill(c, s, b), need)
  {
    ToppedMonotone(c.requestsPerMinute, s.req, Pace(c, s), a - s.updated, b - s.updated);
    ToppedMonotone(c.tokensPerMinute, s.tok, Pace(c, s), a - s.updated, b - s.updated);
  }

  /** A refused attempt's wait fills at least one more bucket. */
  lemma WaitFillsOneMore(c: RateLimit, s: State, tokens: nat, now: real)
    requires Paced(c) && Inv(c, s, now) && s.updated <= now
    requires !HasCapacity(c, s, Need(c, tokens))
    requires now >= s.updated + Wait(c, s, Need(c, tokens))
    ensures FullBuckets(c, Refill(c, s, now), Need(c, tokens)) > FullBuckets(c, s, Need(c, tokens))
    ensures Wait(c, s, Need(c, tokens)) >= 0.0
  {
    var need := Need(c, tokens);
    if c.requestsPerMinute > 0 {
      WaitingFills(c.requestsPerMinute, s.req, 1.0, Pace(c, s), now - s.updated);
    }
    if c.tokensPerMinute > 0 {
      WaitingFills(c.tokensPerMinute, s.tok, need, Pace(c, s), now - s.updated);
    }
  }

  /** Nothing fills earlier than the estimate says. */
  lemma NotBefore(cap: nat, level: real, goal: real, pace: real, elapsed: real)
    requires cap > 0 && MIN_PACE <= pace <= 1.0 && level < goal && 0.0 <= elapsed < Eta(cap, level, goal, pace)
    ensures Topped(cap, level, pace, elapsed) < goal
  {
    var rate := (cap as real / 60.0) * pace;
    assert rate > 0.0;
    var eta := (goal - level) / rate;
    assert eta * rate == goal - level;
    assert (eta - elapsed) * rate > 0.0;
    assert Gain(cap, pace, elapsed) == elapsed * rate;
  }

  /** The wait is no longer than it must be: before it is over no bucket fills. */
  lemma WaitIsLeast(c: RateLimit, s: State, tokens: nat, now: real, elapsed: real)
    requires Paced(c) && Inv(c, s, now) && 0.0 <= elapsed < Wait(c, s, Need(c, tokens))
    ensures c.requestsPerMinute > 0 && s.req < 1.0 ==> Refill(c, s, s.updated + elapsed).req < 1.0
    ensures c.tokensPerMinute > 0 && s.tok < Need(c, tokens) ==>
              Refill(c, s, s.updated + elapsed).tok < Need(c, tokens)
  {
    assert s.updated + elapsed - s.updated == elapsed;
    if c.requestsPerMinute > 0 && s.req < 1.0 {
      NotBefore(c.requestsPerMinute, s.req, 1.0, Pace(c, s), elapsed);
    }
    if c.tokensPerMinute > 0 && s.tok < Need(c, tokens) {
      NotBefore(c.tokensPerMinute, s.tok, Need(c, tokens), Pace(c, s), elapsed);
    }
  }

  lemma WaitIsNotNegative(c: RateLimit, s: State, tokens: nat, now: real)
    requires Paced(c) && Inv(c, s, now)
    ensures Wait(c, s, Need(c, tokens)) >= 0.0
  {
    if c.requestsPerMinute > 0 {
      WaitingFills(c.requestsPerMinute, s.req, 1.0, Pace(c, s), 0.0);
    }
    if c.tokensPerMinute > 0 {
      WaitingFills(c.tokensPerMinute, s.tok, Need(c, tokens), Pace(c, s), 0.0);
    }
  }

  /** A clock that runs on, and a sleep that lasts at least as long as asked. */
  class Clock {
    var now: real

    constructor (now: real)
      ensures this.now == now
    {
      this.now := now;
    }

    method Read(passed: real) returns (t: real)
      modifies this
      ensures now >= old(now) && t == now
    {
      now := now + Max(0.0, passed);
      t := now;
    }

    method Sleep(duration: real, oversleep: real)
      modifies this
      ensures now >= old(now) + duration && now >= old(now)
    {
      now := now + Max(0.0, duration) + Max(0.0, oversleep);
    }
  }

  /** The state is what admitting the request at that time leaves. */
  ghost predicate AdmittedFrom(c: RateLimit, s: State, now: real, tokens: nat, after: State) {
    Admits(c, s, now, tokens) && after == Attempted(c, s, now, tokens)
  }

  class TokenBucket {
    const cfg: RateLimit
    var state: State

    constructor (cfg: RateLimit, now: real)
      ensures this.cfg == cfg && state == Initial(cfg, now)
    {
      this.cfg, state := cfg, Initial(cfg, now);
    }

    /** One locked attempt: admit and take, or say how long to wait. */
    method TryAcquire(now: real, tokens: nat) returns (admitted: bool, wait: real)
      modifies this
      ensures admitted <==> Admits(cfg, old(state), now, tokens)
      ensures state == Attempted(cfg, old(state), now, tokens)
      ensures !admitted ==> wait == if now < old(state).pausedUntil then old(state).pausedUntil - now
                                    else Wait(cfg, Refill(cfg, old(state), now), Need(cfg, tokens))
    {
      wait := 0.0;
      if now >= state.pausedUntil {
        state := Refill(cfg, state, now);
        admitted := HasCapacity(cfg, state, Need(cfg, tokens));
        if admitted {
          state := Take(cfg, state, Need(cfg, tokens));
        } else {
          wait := Wait(cfg, state, Need(cfg, tokens));
        }
      } else {
        admitted, wait := false, state.pausedUntil - now;
      }
    }

    method OnSuccess()
      modifies this
      ensures state == Succeeded(cfg, old(state))
    {
      if cfg.adapt {
        state := state.(fraction := Min(1.0, state.fraction + cfg.recoverStep));
      }
    }

    method OnThrottle(now: real, retryAfter: Option<real>)
      modifies this
      ensures state == Throttled(cfg, old(state), now, retryAfter)
    {
      if cfg.adapt {
        state := state.(fraction := Max(cfg.minFraction, state.fraction * cfg.backoffFactor));
      }
      state := state.(pausedUntil := Max(state.pausedUntil, now + Pause(cfg, retryAfter)));
      state := state.(req := 0.0, tok := 0.0);
    }

    /** `await_capacity` for a single caller: any request, however large, is admitted
        after at most three sleeps - one for a pause and one per bucket. The clock may
        run by any amount at each reading and oversleep by any amount. */
    method AwaitCapacity(clock: Clock, tokens: nat, drift: nat -> real) returns (sleeps: nat)
      requires Paced(cfg) && Inv(cfg, state, clock.now)
      modifies this, clock
      ensures sleeps <= 3
      ensures Inv(cfg, state, clock.now) && clock.now >= old(clock.now)
      ensures if cfg.requestsPerMinute == 0 && cfg.tokensPerMinute == 0 then sleeps == 0 && state == old(state)
              else clock.now >= old(state.pausedUntil) && exists s :: AdmittedFrom(cfg, s, clock.now, tokens, state)
    {
      sleeps := 0;
      if cfg.requestsPerMinute == 0 && cfg.tokensPerMinute == 0 {
        return;
      }
      ghost var need := Need(cfg, tokens);
      while true
        invariant Inv(cfg, state, clock.now) && clock.now >= old(clock.now)
        invariant state.pausedUntil == old(state.pausedUntil)
        invariant sleeps <= (if clock.now >= state.pausedUntil then 1 else 0)
                  + FullBuckets(cfg, Refill(cfg, state, clock.now), need)
        decreases 3 - sleeps
      {
        ghost var before, was := clock.now, state;
        var now := clock.Read(drift(2 * sleeps));
        TimeOnlyFills(cfg, was, need, before, now);
        StepKeepsInv(cfg, was, Attempt(now, tokens), before);
        var admitted, wait := TryAcquire(now, tokens);
        if admitted {
          assert AdmittedFrom(cfg, was, now, tokens, state);
          return;
        }
        ghost var paused := now < was.pausedUntil;
        if !paused {
          WaitIsNotNegative(cfg, state, tokens, now);
        }
        clock.Sleep(Max(wait, 0.0), drift(2 * sleeps + 1));
        if paused {
          TimeOnlyFills(cfg, state, need, before, clock.now);
        } else {
          WaitFillsOneMore(cfg, state, tokens, clock.now);
        }
        sleeps := sleeps + 1;
      }
    }
  }
}
