/** The circuit breaker (autarch/resilience.py). Every lock-protected region is one atomic
    step, and the clock is read under the lock. */
module Breaker {

  datatype Config = Config(failureThreshold: int, cooldown: real, halfOpenMax: int)

  datatype Phase = Closed | Open | HalfOpen

  datatype Outcome = Success | Failure | Ignored

  datatype State = State(phase: Phase, failures: nat, openedAt: real, halfOpen: nat)

  const FRESH := State(Closed, 0, 0.0, 0)

  predicate CooledDown(c: Config, s: State, now: real) {
    now - s.openedAt >= c.cooldown
  }

  /** `allow` lets a call through. */
  predicate Admits(c: Config, s: State, now: real) {
    match s.phase
    case Closed => true
    case Open => CooledDown(c, s, now) && 0 < c.halfOpenMax
    case HalfOpen => s.halfOpen < c.halfOpenMax
  }

  /** What `allow` leaves, whether it lets the call through or raises. */
  function Allowed(c: Config, s: State, now: real): State {
    var t := if s.phase == Open && CooledDown(c, s, now) then s.(phase := HalfOpen, halfOpen := 0) else s;
    if t.phase == HalfOpen && t.halfOpen < c.halfOpenMax then t.(halfOpen := t.halfOpen + 1) else t
  }

  function Settled(c: Config, s: State, now: real, outcome: Outcome): State {
    var t := if s.phase == HalfOpen && s.halfOpen > 0 then s.(halfOpen := s.halfOpen - 1) else s;
    match outcome
    case Success => t.(phase := Closed, failures := 0)
    case Failure =>
      if t.phase == HalfOpen then t.(phase := Open, openedAt := now)
      else if t.failures + 1 >= c.failureThreshold && t.phase == Closed
      then t.(failures := t.failures + 1, phase := Open, openedAt := now)
      else t.(failures := t.failures + 1)
    case Ignored => t
  }

  class CircuitBreaker {
    const cfg: Config
    var state: State

    constructor (cfg: Config)
      ensures this.cfg == cfg && state == FRESH
    {
      this.cfg, state := cfg, FRESH;
    }

    /** `_Breaker.allow`, with false for the CircuitOpen it raises. */
    method Allow(now: real) returns (admitted: bool)
      modifies this
      ensures admitted <==> Admits(cfg, old(state), now)
      ensures state == Allowed(cfg, old(state), now)
    {
      if state.phase == Open {
        if now - state.openedAt >= cfg.cooldown {
          state := state.(phase := HalfOpen, halfOpen := 0);
        } else {
          return false;
        }
      }
      if state.phase == HalfOpen {
        if state.halfOpen >= cfg.halfOpenMax {
          return false;
        }
        state := state.(halfOpen := state.halfOpen + 1);
      }
      return true;
    }

    method Settle(now: real, outcome: Outcome)
      modifies this
      ensures state == Settled(cfg, old(state), now, outcome)
    {
      if state.phase == HalfOpen {
        state := state.(halfOpen := if state.halfOpen > 0 then state.halfOpen - 1 else 0);
      }
      if outcome == Success {
        state := state.(phase := Closed, failures := 0);
      } else if outcome == Failure {
        if state.phase == HalfOpen {
          state := state.(phase := Open, openedAt := now);
          return;
        }
        state := state.(failures := state.failures + 1);
        if state.failures >= cfg.failureThreshold && state.phase == Closed {
          state := state.(phase := Open, openedAt := now);
        }
      }
    }
  }

  // ----------------------------------------------------------- runs of concurrent calls

  /** Calls carry a number each, so that a settle names the call it belongs to. */
  datatype Event =
    | Allow(call: nat, now: real)
    | Settle(call: nat, now: real, outcome: Outcome)

  function Apply(c: Config, s: State, e: Event): State {
    match e
    case Allow(_, now) => Allowed(c, s, now)
    case Settle(_, now, outcome) => Settled(c, s, now, outcome)
  }

  function Run(c: Config, s: State, es: seq<Event>): State {
    if es == [] then s else Apply(c, Run(c, s, es[..|es| - 1]), es[|es| - 1])
  }

  predicate IsAdmission(c: Config, s: State, e: Event) {
    e.Allow? && Admits(c, s, e.now)
  }

  predicate IsSuccess(e: Event) {
    e.Settle? && e.outcome == Success
  }

  ghost predicate NoSuccess(es: seq<Event>) {
    forall e :: e in es ==> !IsSuccess(e)
  }

  /** The times are those of one clock. */
  ghost predicate InOrder(start: real, es: seq<Event>) {
    if es == [] then true
    else
      var init := es[..|es| - 1];
      InOrder(start, init) && LastTime(start, init) <= es[|es| - 1].now
  }

  function LastTime(start: real, es: seq<Event>): real {
    if es == [] then start else es[|es| - 1].now
  }

  function Failures(es: seq<Event>): nat {
    if es == [] then 0
    else Failures(es[..|es| - 1]) + if es[|es| - 1].Settle? && es[|es| - 1].outcome == Failure then 1 else 0
  }

  /** The circuit is closed exactly as long as fewer consecutive failures have settled
      than the threshold; admissions, throttles and terminal errors do not count. */
  lemma {:induction false} OpensAtTheThreshold(c: Config, s: State, es: seq<Event>)
    requires s.phase == Closed && NoSuccess(es)
    ensures Run(c, s, es).phase == Closed <==> Failures(es) == 0 || s.failures + Failures(es) < c.failureThreshold
    ensures Run(c, s, es).phase == Closed ==> Run(c, s, es).failures == s.failures + Failures(es)
  {
    if es != [] {
      OpensAtTheThreshold(c, s, es[..|es| - 1]);
      assert !IsSuccess(es[|es| - 1]);
    }
  }

  /** Calls that are throttled or end in a terminal error never open the circuit, however
      many they are. */
  lemma {:induction false} IgnoredKeepItClosed(c: Config, s: State, es: seq<Event>)
    requires s.phase == Closed && forall e :: e in es && e.Settle? ==> e.outcome == Ignored
    ensures Run(c, s, es) == s
  {
    if es != [] {
      var init, last := es[..|es| - 1], es[|es| - 1];
      assert es == init + [last];
      IgnoredKeepItClosed(c, s, init);
      assert last in es;
    }
  }

  /** Nobody asked after the cooldown was over. */
  ghost predicate NoneAsked(until: real, es: seq<Event>) {
    forall e :: e in es && e.Allow? ==> e.now < until
  }

  /** Neither a refusal nor a late settle moves an open circuit, or its cooldown. */
  lemma {:induction false} OpenUntilCooledDown(c: Config, s: State, es: seq<Event>)
    requires s.phase == Open && NoSuccess(es) && NoneAsked(s.openedAt + c.cooldown, es)
    ensures Run(c, s, es).phase == Open && Run(c, s, es).openedAt == s.openedAt
  {
    if es != [] {
      var init, last := es[..|es| - 1], es[|es| - 1];
      assert es == init + [last];
      OpenUntilCooledDown(c, s, init);
      assert !IsSuccess(last) && (last.Allow? ==> last.now < s.openedAt + c.cooldown);
    }
  }

  lemma {:induction false} EarlyOnly(start: real, es: seq<Event>, until: real)
    requires InOrder(start, es) && LastTime(start, es) < until
    ensures NoneAsked(until, es)
  {
    if es != [] {
      var init, last := es[..|es| - 1], es[|es| - 1];
      assert es == init + [last];
      EarlyOnly(start, init, until);
    }
  }

  /** Once open, and as long as no call succeeds, the circuit lets nothing through until
      the cooldown is over, whatever the calls still in flight settle as. */
  lemma NothingBeforeTheCooldown(c: Config, s: State, es: seq<Event>, e: Event)
    requires s.phase == Open && NoSuccess(es) && InOrder(s.openedAt, es + [e])
    requires IsAdmission(c, Run(c, s, es), e)
    ensures e.now >= s.openedAt + c.cooldown
  {
    assert (es + [e])[..|es|] == es;
    if LastTime(s.openedAt, es) < s.openedAt + c.cooldown {
      EarlyOnly(s.openedAt, es, s.openedAt + c.cooldown);
      OpenUntilCooledDown(c, s, es);
    }
  }

  /** And the first call after the cooldown does get through, however late the calls from
      before it settle. */
  lemma TrialAfterTheCooldown(c: Config, s: State, es: seq<Event>, e: Event)
    requires s.phase == Open && NoSuccess(es) && NoneAsked(s.openedAt + c.cooldown, es) && e.Allow?
    ensures IsAdmission(c, Run(c, s, es), e) <==> e.now >= s.openedAt + c.cooldown && c.halfOpenMax > 0
  {
    OpenUntilCooledDown(c, s, es);
  }

  /** A trial that fails starts the cooldown afresh. */
  lemma FailedTrialReopens(c: Config, s: State, at: real, es: seq<Event>, e: Event)
    requires s.phase == HalfOpen && NoSuccess(es) && InOrder(at, es + [e])
    requires IsAdmission(c, Run(c, Settled(c, s, at, Failure), es), e)
    ensures e.now >= at + c.cooldown
  {
    NothingBeforeTheCooldown(c, Settled(c, s, at, Failure), es, e);
  }

  /** A success, in whatever state, wipes the slate: the circuit is closed until a whole
      threshold of failures has settled again. */
  lemma SuccessWipesTheSlate(c: Config, s: State, at: real, es: seq<Event>)
    requires NoSuccess(es)
    ensures Run(c, Settled(c, s, at, Success), es).phase == Closed <==>
            Failures(es) == 0 || Failures(es) < c.failureThreshold
  {
    OpensAtTheThreshold(c, Settled(c, s, at, Success), es);
  }

  // ------------------------------------------------------------------- half-open trials

  /** `trials` are the calls let through in the current half-open period and `others` the
      calls let through before it, both still in flight; `strays` counts the settles of
      others during the period. */
  datatype World = World(b: State, trials: set<nat>, others: set<nat>, strays: nat)

  const START := World(FRESH, {}, {}, 0)

  predicate Enabled(w: World, e: Event) {
    if e.Allow? then e.call !in w.trials + w.others else e.call in w.trials + w.others
  }

  function Next(c: Config, w: World, e: Event): World {
    var b := Apply(c, w.b, e);
    if e.Settle? then
      var strays := w.strays + if e.call in w.others then 1 else 0;
      if b.phase == HalfOpen then World(b, w.trials - {e.call}, w.others - {e.call}, strays)
      else World(b, {}, w.trials + w.others - {e.call}, 0)
    else if w.b.phase != HalfOpen then
      // a period begins, if it does, with this call as its first trial
      var admitted := if Admits(c, w.b, e.now) then {e.call} else {};
      if b.phase == HalfOpen then World(b, admitted, w.others, 0) else World(b, {}, w.others + admitted, 0)
    else if Admits(c, w.b, e.now) then World(b, w.trials + {e.call}, w.others, w.strays)
    else w
  }

  ghost predicate Possible(c: Config, w: World, es: seq<Event>) {
    es != [] ==> Possible(c, w, es[..|es| - 1]) && Enabled(Reach(c, w, es[..|es| - 1]), es[|es| - 1])
  }

  ghost function Reach(c: Config, w: World, es: seq<Event>): World {
    if es == [] then w else Next(c, Reach(c, w, es[..|es| - 1]), es[|es| - 1])
  }

  function Slots(c: Config): nat {
    if c.halfOpenMax > 0 then c.halfOpenMax else 0
  }

  ghost predicate Inv(c: Config, w: World) {
    && w.b.halfOpen <= Slots(c)
    && w.trials !! w.others
    && (w.b.phase != HalfOpen ==> w.trials == {})
    && (w.b.phase == HalfOpen ==> w.b.halfOpen <= |w.trials| <= w.b.halfOpen + w.strays)
  }

  lemma Removal(trials: set<nat>, call: nat)
    ensures |trials - {call}| == if call in trials then |trials| - 1 else |trials|
  {
    if call !in trials {
      assert trials - {call} == trials;
    }
  }

  lemma SettleKeepsInv(c: Config, w: World, call: nat, now: real, outcome: Outcome)
    requires Inv(c, w) && call in w.trials + w.others
    ensures Inv(c, Next(c, w, Settle(call, now, outcome)))
  {
    Removal(w.trials, call);
  }

  lemma AllowKeepsInv(c: Config, w: World, call: nat, now: real)
    requires Inv(c, w) && call !in w.trials + w.others
    ensures Inv(c, Next(c, w, Allow(call, now)))
  {
  }

  /** Under any interleaving of calls the half-open counter stays within its range, and
      the trials really in flight are at most the counter plus the settles of calls from
      before the period, which the counter takes for trials of its own. */
  lemma {:induction false} TrialsAreBounded(c: Config, es: seq<Event>)
    requires Possible(c, START, es)
    ensures Inv(c, Reach(c, START, es))
    ensures var w := Reach(c, START, es);
            && 0 <= w.b.halfOpen <= Slots(c)
            && |w.trials| <= Slots(c) + w.strays
            && (w.b.phase == HalfOpen && w.strays == 0 ==> |w.trials| == w.b.halfOpen)
  {
    if es != [] {
      TrialsAreBounded(c, es[..|es| - 1]);
      var before := Reach(c, START, es[..|es| - 1]);
      match es[|es| - 1]
      case Allow(call, now) => AllowKeepsInv(c, before, call, now);
      case Settle(call, now, outcome) => SettleKeepsInv(c, before, call, now, outcome);
    }
  }

  /** The bound is met: with every slot taken, a call from before the period that ends in
      a throttle or a terminal error frees a slot no trial has left. */
  lemma StrayFreesASlot(c: Config, w: World, stray: nat, fresh': nat, now: real)
    requires Inv(c, w) && w.b.phase == HalfOpen && w.b.halfOpen == c.halfOpenMax > 0
    requires stray in w.others && fresh' !in w.trials + w.others
    ensures var settled := Next(c, w, Settle(stray, now, Ignored));
            var w' := Next(c, settled, Allow(fresh', now));
            && Enabled(w, Settle(stray, now, Ignored)) && Enabled(settled, Allow(fresh', now))
            && settled.b.phase == HalfOpen && w'.b == w.b && w'.strays == w.strays + 1
            && w'.trials == w.trials + {fresh'} && |w'.trials| == |w.trials| + 1
  {
    assert w.trials - {stray} == w.trials;
  }

  /** The half-open period of w goes on through all of es. */
  ghost predicate StaysHalfOpen(c: Config, w: World, es: seq<Event>) {
    Reach(c, w, es).b.phase == HalfOpen && (es != [] ==> StaysHalfOpen(c, w, es[..|es| - 1]))
  }

  /** `half_open_max` is met: there are never more concurrent trials than slots. */
  ghost predicate KeepsToTheLimit(c: Config, w: World) {
    forall es :: Possible(c, w, es) && StaysHalfOpen(c, w, es) ==> |Reach(c, w, es).trials| <= Slots(c)
  }

  lemma {:induction false} NoStrayEver(c: Config, w: World, es: seq<Event>)
    requires Inv(c, w) && w.strays == 0 && w.others == {}
    requires Possible(c, w, es) && StaysHalfOpen(c, w, es)
    ensures Inv(c, Reach(c, w, es)) && Reach(c, w, es).strays == 0 && Reach(c, w, es).others == {}
  {
    if es != [] {
      var init := es[..|es| - 1];
      NoStrayEver(c, w, init);
      var before := Reach(c, w, init);
      match es[|es| - 1]
      case Allow(call, now) => AllowKeepsInv(c, before, call, now);
      case Settle(call, now, outcome) => SettleKeepsInv(c, before, call, now, outcome);
    }
  }

  lemma {:induction false} Unused(calls: set<nat>) returns (call: nat)
    ensures call !in calls && forall x :: x in calls ==> x < call
    decreases calls
  {
    if calls == {} {
      call := 0;
    } else {
      var x :| x in calls;
      var rest := Unused(calls - {x});
      call := if x < rest then rest else x + 1;
      assert forall y :: y in calls ==> y == x || y in calls - {x};
    }
  }

  lemma OneMoreEvent(c: Config, w: World, es: seq<Event>, e: Event)
    requires Possible(c, w, es) && StaysHalfOpen(c, w, es) && Enabled(Reach(c, w, es), e)
    requires Next(c, Reach(c, w, es), e).b.phase == HalfOpen
    ensures Reach(c, w, es + [e]) == Next(c, Reach(c, w, es), e)
    ensures Possible(c, w, es + [e]) && StaysHalfOpen(c, w, es + [e])
  {
    assert (es + [e])[..|es|] == es;
  }

  lemma OneMoreTrial(c: Config, w: World, call: nat)
    requires Inv(c, w) && w.b.phase == HalfOpen && w.b.halfOpen < c.halfOpenMax && call !in w.trials + w.others
    ensures var w' := Next(c, w, Allow(call, 0.0));
            && Inv(c, w') && w'.b.phase == HalfOpen && w'.b.halfOpen == w.b.halfOpen + 1
            && w'.strays == w.strays && w'.others == w.others
  {
    AllowKeepsInv(c, w, call, 0.0);
  }

  /** Fresh calls take n free slots. */
  lemma {:induction false} TakeSlots(c: Config, w: World, n: nat) returns (es: seq<Event>)
    requires Inv(c, w) && w.b.phase == HalfOpen && w.b.halfOpen + n <= c.halfOpenMax
    ensures Possible(c, w, es) && StaysHalfOpen(c, w, es)
    ensures var w' := Reach(c, w, es);
            Inv(c, w') && w'.b.halfOpen == w.b.halfOpen + n && w'.strays == w.strays && w'.others == w.others
    decreases n
  {
    if n == 0 {
      es := [];
    } else {
      es := TakeSlots(c, w, n - 1);
      var before := Reach(c, w, es);
      var call := Unused(before.trials + before.others);
      OneMoreTrial(c, before, call);
      OneMoreEvent(c, w, es, Allow(call, 0.0));
      es := es + [Allow(call, 0.0)];
    }
  }

  lemma StrayBreaksTheLimit(c: Config, w: World) returns (es: seq<Event>)
    requires Inv(c, w) && w.b.phase == HalfOpen && w.strays == 0 && c.halfOpenMax > 0 && w.others != {}
    ensures Possible(c, w, es) && StaysHalfOpen(c, w, es) && |Reach(c, w, es).trials| > Slots(c)
  {
    es := TakeSlots(c, w, c.halfOpenMax - w.b.halfOpen);
    var full := Reach(c, w, es);
    var stray :| stray in full.others;
    var call := Unused(full.trials + full.others);
    StrayFreesASlot(c, full, stray, call, 0.0);
    OneMoreEvent(c, w, es, Settle(stray, 0.0, Ignored));
    es := es + [Settle(stray, 0.0, Ignored)];
    OneMoreEvent(c, w, es, Allow(call, 0.0));
    es := es + [Allow(call, 0.0)];
  }

  /** Exactly when the code meets its `half_open_max`: a half-open period in which no call
      has settled yet but its own keeps to the limit, whatever happens in it, if and only
      if no call let through before the period is still in flight. */
  lemma LimitHoldsIffNoneInFlight(c: Config, w: World)
    requires Inv(c, w) && w.b.phase == HalfOpen && w.strays == 0 && c.halfOpenMax > 0
    ensures KeepsToTheLimit(c, w) <==> w.others == {}
  {
    if w.others == {} {
      forall es | Possible(c, w, es) && StaysHalfOpen(c, w, es)
        ensures |Reach(c, w, es).trials| <= Slots(c)
      {
        NoStrayEver(c, w, es);
      }
    } else {
      var es := StrayBreaksTheLimit(c, w);
    }
  }

  /** Every period opens in such a state: the first call after the cooldown begins it,
      with every call still in flight counted among the others. */
  lemma PeriodBegins(c: Config, w: World, call: nat, now: real)
    requires Inv(c, w) && w.b.phase == Open && call !in w.others && CooledDown(c, w.b, now) && c.halfOpenMax > 0
    ensures var w' := Next(c, w, Allow(call, now));
            && Inv(c, w') && w'.b.phase == HalfOpen && w'.strays == 0
            && w'.trials == {call} && w'.others == w.others
            && (KeepsToTheLimit(c, w') <==> w.others == {})
  {
    AllowKeepsInv(c, w, call, now);
    LimitHoldsIffNoneInFlight(c, Next(c, w, Allow(call, now)));
  }

  /** One trial slot, two trials in flight. */
  lemma TwoTrialsInOneSlot()
    ensures var c := Config(1, 1.0, 1);
            var es := [Allow(0, 0.0), Allow(1, 0.0), Settle(1, 0.0, Failure), Allow(2, 1.0),
                       Settle(0, 1.0, Ignored), Allow(3, 1.0)];
            Possible(c, START, es) && Reach(c, START, es).trials == {2, 3}
  {
    var c := Config(1, 1.0, 1);
    var es := [Allow(0, 0.0), Allow(1, 0.0), Settle(1, 0.0, Failure), Allow(2, 1.0), Settle(0, 1.0, Ignored),
      Allow(3, 1.0)];
    assert es[..1][..0] == [] && es[..2][..1] == es[..1] && es[..3][..2] == es[..2];
    assert es[..4][..3] == es[..3] && es[..5][..4] == es[..4] && es[..6][..5] == es[..5] && es[..6] == es;
    assert Possible(c, START, es[..0]) && Reach(c, START, es[..0]) == START;
    assert es[..1][..0] == es[..0];
    assert Possible(c, START, es[..1]) && Reach(c, START, es[..1]) == World(FRESH, {}, {0}, 0);
    assert Possible(c, START, es[..2]) && Reach(c, START, es[..2]) == World(FRESH, {}, {0, 1}, 0);
    assert Possible(c, START, es[..3]) && Reach(c, START, es[..3]) == World(State(Open, 1, 0.0, 0), {}, {0}, 0);
    assert Possible(c, START, es[..4]) && Reach(c, START, es[..4]) == World(State(HalfOpen, 1, 0.0, 1), {2}, {0}, 0);
    assert Possible(c, START, es[..5]) && Reach(c, START, es[..5]) == World(State(HalfOpen, 1, 0.0, 0), {2}, {}, 1);
    assert Possible(c, START, es[..6]) && Reach(c, START, es[..6]) == World(State(HalfOpen, 1, 0.0, 1), {2, 3}, {}, 1);
  }
}
