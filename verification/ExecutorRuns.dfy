/** What a parallel run does with the answers of its bodies: the outcomes they settle and
    the pace they set (autarch/resilience.py). */
module ExecutorRuns {
  import opened Prelude
  import opened Retry
  import opened Executor

  function Throttled(answers: seq<Answer>): nat {
    if answers == [] then 0
    else
      var last := answers[|answers| - 1];
      Throttled(answers[..|answers| - 1]) + if last.Failed? && last.why.Throttled? then 1 else 0
  }

  function Faults(answers: seq<Answer>): nat {
    if answers == [] then 0
    else
      var last := answers[|answers| - 1];
      Faults(answers[..|answers| - 1]) + if last.Failed? && last.why.Retryable? then 1 else 0
  }

  /** The last answer settles the task: a value, a terminal error, one throttle more than
      is waited out, or the fault that uses up the attempts. */
  predicate Settles(c: Config, answers: seq<Answer>) {
    answers != [] &&
    match answers[|answers| - 1]
    case Value(_) => true
    case Failed(Terminal, _) => true
    case Failed(Throttled(_), _) => Throttled(answers) > c.maxThrottles
    case Failed(Retryable, _) => Faults(answers) >= c.maxAttempts
  }

  /** The outcome is what the last answer was, with the counts of those before it. */
  predicate Tells(o: Outcome, answers: seq<Answer>)
    requires answers != []
  {
    var init := answers[..|answers| - 1];
    && o.attempts == Faults(init) + 1 && o.throttles == Throttled(init)
    && match answers[|answers| - 1]
       case Value(value) => o.ok && o.result == value
       case Failed(_, error) => !o.ok && o.result == error
  }

  /** The answers of the bodies of each task, in the order in which they finished. */
  ghost function Heard(c: Config, w: World, steps: seq<Step>, heard: seq<seq<Answer>>)
    : (all: seq<seq<Answer>>)
    requires Possible(c, w, steps) && |heard| == |w.s.outcomes|
    ensures |all| == |heard|
    decreases |steps|
  {
    if steps == [] then heard
    else Heard(c, Next(c, w, steps[0]), steps[1..], HeardOne(c, w, steps[0], heard))
  }

  ghost function HeardOne(c: Config, w: World, step: Step, heard: seq<seq<Answer>>): (next: seq<seq<Answer>>)
    requires Indexed(w) && Enabled(c, w, step) && |heard| == |w.s.outcomes|
    ensures |next| == |heard|
  {
    match step
    case Finish(k, answer) =>
      var i := w.workers[k].item.index;
      heard[i := heard[i] + [answer]]
    case _ => heard
  }

  // ----------------------------------------------------------------------- invariant

  ghost predicate Unsettled(c: Config, answers: seq<Answer>, upTo: nat)
    requires upTo <= |answers|
  {
    forall k :: 0 <= k <= upTo ==> !Settles(c, answers[..k])
  }

  /** A task under way carries the counts of its answers so far. */
  ghost predicate Carries(item: Item, answers: seq<Answer>) {
    item.attempts == Faults(answers) && item.throttles == Throttled(answers)
  }

  ghost predicate Story(c: Config, w: World, i: nat, answers: seq<Answer>)
    requires i < |w.s.outcomes|
  {
    match w.s.outcomes[i]
    case Some(o) => Settles(c, answers) && Unsettled(c, answers, |answers| - 1) && Tells(o, answers)
    case None =>
      && Unsettled(c, answers, |answers|)
      && (forall item :: item in w.s.queue && item.index == i ==> Carries(item, answers))
      && forall k :: 0 <= k < |w.workers| && Holds(w.workers[k]) && w.workers[k].item.index == i ==>
           Carries(w.workers[k].item, answers)
  }

  ghost predicate Stories(c: Config, w: World, heard: seq<seq<Answer>>) {
    |heard| == |w.s.outcomes| && forall i :: 0 <= i < |heard| ==> Story(c, w, i, heard[i])
  }

  lemma OneMoreAnswer(c: Config, answers: seq<Answer>, answer: Answer)
    ensures Throttled(answers + [answer]) ==
            Throttled(answers) + if answer.Failed? && answer.why.Throttled? then 1 else 0
    ensures Faults(answers + [answer]) ==
            Faults(answers) + if answer.Failed? && answer.why.Retryable? then 1 else 0
    ensures forall k :: 0 <= k <= |answers| ==> (answers + [answer])[..k] == answers[..k]
  {
    assert (answers + [answer])[..|answers|] == answers;
  }

  /** The verdict on a body that has just finished is what its task's answers say. */
  lemma JudgedByAnswers(c: Config, item: Item, answers: seq<Answer>, answer: Answer)
    requires Carries(item, answers) && Unsettled(c, answers, |answers|)
    ensures var all := answers + [answer];
            match Judged(c, item, answer)
            case Over(o) => Settles(c, all) && Unsettled(c, all, |answers|) && Tells(o, all) && o.index == item.index
            case Again(next) => Unsettled(c, all, |all|) && Carries(next, all) && next.index == item.index
  {
    OneMoreAnswer(c, answers, answer);
    var all := answers + [answer];
    assert all[..|answers|] == answers && all[..|all|] == all;
    forall k | 0 <= k <= |answers|
      ensures !Settles(c, all[..k])
    {
      assert all[..k] == answers[..k];
    }
  }

  lemma FinishTells(c: Config, w: World, step: Step, heard: seq<seq<Answer>>)
    requires Clamped(c) && Inv(c, w) && Indexed(w) && Enabled(c, w, step) && step.Finish? && Stories(c, w, heard)
    ensures Stories(c, Next(c, w, step), HeardOne(c, w, step, heard))
  {
    var w', heard' := Next(c, w, step), HeardOne(c, w, step, heard);
    var item := w.workers[step.worker].item;
    WithWorkerOnly(c, w, step.worker);
    assert Story(c, w, item.index, heard[item.index]);
    JudgedByAnswers(c, item, heard[item.index], step.answer);
    forall i | 0 <= i < |heard'|
      ensures Story(c, w', i, heard'[i])
    {
      assert Story(c, w, i, heard[i]);
    }
  }

  lemma MoveTells(c: Config, w: World, step: Step, heard: seq<seq<Answer>>)
    requires Clamped(c) && Inv(c, w) && Indexed(w) && Enabled(c, w, step) && !step.Finish? && Stories(c, w, heard)
    ensures Stories(c, Next(c, w, step), heard)
  {
    var w' := Next(c, w, step);
    assert step.Take? ==> w.s.queue[0] in w.s.queue;
    forall i | 0 <= i < |heard|
      ensures Story(c, w', i, heard[i])
    {
      assert Story(c, w, i, heard[i]);
    }
  }

  lemma {:induction false} RunTells(c: Config, w: World, steps: seq<Step>, heard: seq<seq<Answer>>)
    requires Clamped(c) && Inv(c, w) && Indexed(w) && Possible(c, w, steps) && Stories(c, w, heard)
    ensures Stories(c, Reach(c, w, steps), Heard(c, w, steps, heard))
    decreases |steps|
  {
    if steps != [] {
      NextKeepsInv(c, w, steps[0]);
      if steps[0].Finish? {
        FinishTells(c, w, steps[0], heard);
      } else {
        MoveTells(c, w, steps[0], heard);
      }
      RunTells(c, Next(c, w, steps[0]), steps[1..], HeardOne(c, w, steps[0], heard));
    }
  }

  /** In every reachable state a task has an outcome exactly when the last answer of its
      bodies settled it, no answer before that one did, and the outcome tells that answer. */
  lemma OutcomesTellTheLastAnswer(c: Config, n: nat, steps: seq<Step>, i: nat)
    requires Clamped(c) && n > 0 && Possible(c, Start(c, n), steps) && i < n
    ensures var w := Reach(c, Start(c, n), steps);
            var answers := Heard(c, Start(c, n), steps, seq(n, _ => []))[i];
            && |w.s.outcomes| == n
            && (w.s.outcomes[i].Some? <==> Settles(c, answers))
            && (forall k :: 0 <= k < |answers| ==> !Settles(c, answers[..k]))
            && (w.s.outcomes[i].Some? ==> Tells(w.s.outcomes[i].value, answers))
  {
    var none: seq<seq<Answer>> := seq(n, _ => []);
    StartIsFine(c, n);
    assert Stories(c, Start(c, n), none);
    RunTells(c, Start(c, n), steps, none);
    RunKeepsInv(c, Start(c, n), steps);
    var w := Reach(c, Start(c, n), steps);
    var answers := Heard(c, Start(c, n), steps, none)[i];
    assert Story(c, w, i, answers);
    assert answers[..|answers|] == answers;
  }

  // ---------------------------------------------------------------------------- pace

  /** A run starts with every task queued in order, nothing answered, and the ceiling at the
      start value as far as the maximum allows. */
  lemma StartsWithAll(c: Config, n: nat)
    requires Clamped(c)
    ensures var w := Start(c, n);
            && |w.s.queue| == n && (forall i :: 0 <= i < n ==> w.s.queue[i] == Item(i, 0, 0))
            && |w.s.outcomes| == n && (forall i :: 0 <= i < n ==> w.s.outcomes[i].None?)
            && w.s.remaining == n && w.s.active == 0
            && (w.s.ceiling == c.start as real || (w.s.ceiling < c.start as real && IsMost(c, n, w.s.ceiling)))
            && (forall most :: IsMost(c, n, most) ==> w.s.ceiling <= most)
            && w.s.peak as real == w.s.ceiling
            && |w.workers| == (if n < c.threadCap then n else c.threadCap)
            && forall k :: 0 <= k < |w.workers| ==> w.workers[k].Idle?
  {
  }

  /** The queue is first in, first out: a step takes from its head or puts one at its end. */
  lemma QueueKeepsOrder(c: Config, w: World, step: Step)
    requires Indexed(w) && Enabled(c, w, step)
    ensures var w' := Next(c, w, step);
            match step
            case Take(k) =>
              w.s.queue == [w.s.queue[0]] + w'.s.queue && w'.workers[k] == Running(w.s.queue[0])
            case Wake(k) => w'.s.queue == w.s.queue + [w.workers[k].item] && w'.workers[k].Idle?
            case _ => w'.s.queue == w.s.queue
  {
  }

  /** When an idle worker may take a task: below the least concurrency always, and otherwise
      as long as one more body fits under the ceiling and the maximum. */
  lemma TakesIff(c: Config, w: World, k: nat)
    requires Clamped(c) && Inv(c, w) && k < |w.workers|
    ensures Enabled(c, w, Take(k)) <==>
            w.workers[k].Idle? && w.s.queue != []
            && (w.s.active < c.minConcurrency
                || ((w.s.active + 1) as real <= w.s.ceiling && w.s.active < |w.s.outcomes|
                    && (c.maxConcurrency.Some? ==> w.s.active < c.maxConcurrency.value)))
  {
    if w.s.queue != [] {
      OnQueueOnly(c, w);
      var i := w.s.queue[0].index;
      UnfilledUpdate(w.s.outcomes, i, Outcome(i, false, "", 0, 0));
    }
  }

  /** A step up, as far as the maximum allows. */
  ghost predicate Widens(c: Config, n: nat, before: real, after: real) {
    && (after == before + c.recoverStep || (after < before + c.recoverStep && IsMost(c, n, after)))
    && forall most :: IsMost(c, n, most) ==> after <= most
  }

  /** A cut by the factor, as far as the least allows. */
  predicate Narrows(c: Config, before: real, after: real) {
    && after >= c.minConcurrency as real
    && (after == before * c.backoffFactor
        || (after > before * c.backoffFactor && after == c.minConcurrency as real))
  }

  lemma WideningMeans(c: Config, s: Shared)
    ensures Widens(c, |s.outcomes|, s.ceiling, Widened(c, s))
  {
  }

  lemma NarrowingMeans(c: Config, s: Shared)
    ensures Narrows(c, s.ceiling, Narrowed(c, s))
  {
  }

  /** How one body's end moves the ceiling: a value widens it by a step, up to the maximum; a
      throttle that is waited out cuts it by the factor, down to the least; nothing else. */
  lemma CeilingMoves(c: Config, w: World, k: nat, answer: Answer)
    requires Indexed(w) && Enabled(c, w, Finish(k, answer))
    ensures var item, after := w.workers[k].item, Next(c, w, Finish(k, answer)).s.ceiling;
            match answer
            case Value(_) => Widens(c, |w.s.outcomes|, w.s.ceiling, after)
            case Failed(Throttled(_), _) =>
              if item.throttles < c.maxThrottles then Narrows(c, w.s.ceiling, after) else after == w.s.ceiling
            case Failed(_, _) => after == w.s.ceiling
  {
    WideningMeans(c, w.s);
    NarrowingMeans(c, w.s);
  }

  /** The most bodies that n tasks may run at a time. */
  predicate IsMost(c: Config, n: nat, most: real) {
    var wanted := if c.maxConcurrency.Some? && c.maxConcurrency.value < n then c.maxConcurrency.value else n;
    most == (if wanted < c.minConcurrency then c.minConcurrency else wanted) as real
  }

  /** The worlds that a run goes through. */
  ghost predicate PassesBy(c: Config, w: World, steps: seq<Step>, active: int)
    requires Possible(c, w, steps)
    decreases |steps|
  {
    w.s.active == active || (steps != [] && PassesBy(c, Next(c, w, steps[0]), steps[1..], active))
  }

  /** `peak` is the largest number of bodies that ever ran at a time, or what it began with. */
  lemma {:induction false} PeakIsReached(c: Config, w: World, steps: seq<Step>)
    requires Possible(c, w, steps) && w.s.active <= w.s.peak
    ensures var peak := Reach(c, w, steps).s.peak;
            && w.s.peak <= peak && (peak == w.s.peak || PassesBy(c, w, steps, peak))
            && forall active :: PassesBy(c, w, steps, active) ==> active <= peak
    decreases |steps|
  {
    if steps != [] {
      PeakIsReached(c, Next(c, w, steps[0]), steps[1..]);
    }
  }
}
