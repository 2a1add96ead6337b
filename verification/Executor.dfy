/** The self-tuning parallel executor (autarch/resilience.py): worker threads that share
    one queue under one lock. Every locked region is one atomic step of one worker, a
    sleeping worker holds its task, and the threads interleave in any way. */
module Executor {
  import opened Prelude
  import opened Retry

  /** The constructor's arguments after it has clamped them. */
  datatype Config = Config(
    start: int, minConcurrency: int, maxConcurrency: Option<int>, recoverStep: real, backoffFactor: real,
    maxThrottles: int, maxAttempts: int, threadCap: int)

  predicate Clamped(c: Config) {
    && c.start >= 1 && c.minConcurrency >= 1 && c.maxThrottles >= 0 && c.threadCap >= 1
    && c.recoverStep >= 0.001 && 0.05 <= c.backoffFactor <= 0.99
  }

  /** What the constructor makes of its arguments: none below what makes sense, and the
      factor between a twentieth and ninety-nine hundredths. A maximum of zero is none. */
  function Clamp(c: Config): Config {
    Config(Max(1, c.start), Max(1, c.minConcurrency),
           if c.maxConcurrency == Some(0) then None else c.maxConcurrency,
           if c.recoverStep < 0.001 then 0.001 else c.recoverStep,
           if c.backoffFactor < 0.05 then 0.05 else if c.backoffFactor > 0.99 then 0.99 else c.backoffFactor,
           Max(0, c.maxThrottles), c.maxAttempts, Max(1, c.threadCap))
  }

  /** Clamping gives a configuration that the results below are about, and leaves such a one
      as it is; each argument moves only as far as it must. A maximum of zero is none. */
  lemma ClampIsLeast(c: Config)
    ensures Clamped(Clamp(c))
    ensures Clamped(c) && c.maxConcurrency != Some(0) ==> Clamp(c) == c
    ensures Clamp(c).start == (if c.start >= 1 then c.start else 1)
    ensures Clamp(c).backoffFactor == c.backoffFactor || Clamp(c).backoffFactor in {0.05, 0.99}
    ensures Clamp(c).maxAttempts == c.maxAttempts
    ensures c.maxConcurrency == Some(0) ==> Clamp(c).maxConcurrency == None
    ensures c.maxConcurrency != Some(0) ==> Clamp(c).maxConcurrency == c.maxConcurrency
  {
  }

  datatype Item = Item(index: nat, attempts: nat, throttles: nat)

  datatype Outcome = Outcome(index: nat, ok: bool, result: string, attempts: nat, throttles: nat)

  /** What a task body does: a value, or an exception and its disposition. */
  datatype Answer = Value(value: string) | Failed(why: Disposition, error: string)

  datatype Shared = Shared(
    queue: seq<Item>, outcomes: seq<Option<Outcome>>, remaining: int, active: int, ceiling: real, peak: int)

  function Min(a: int, b: int): int {
    if a <= b then a else b
  }

  function Max(a: int, b: int): int {
    if a >= b then a else b
  }

  function EffectiveMax(c: Config, n: nat): int {
    Max(c.minConcurrency, Min(if c.maxConcurrency.Some? then c.maxConcurrency.value else n, n))
  }

  function Limit(c: Config, s: Shared): int {
    Max(c.minConcurrency, Min(EffectiveMax(c, |s.outcomes|), s.ceiling.Floor))
  }

  predicate CanTake(c: Config, s: Shared) {
    s.remaining != 0 && s.queue != [] && s.active < Limit(c, s)
  }

  function Taken(s: Shared): Shared
    requires s.queue != []
  {
    s.(queue := s.queue[1..], active := s.active + 1, peak := Max(s.peak, s.active + 1))
  }

  /** What becomes of a task after its body ran: over, or to be tried again. */
  datatype Verdict = Over(outcome: Outcome) | Again(item: Item)

  function Judged(c: Config, item: Item, answer: Answer): Verdict {
    match answer
    case Value(value) => Over(Outcome(item.index, true, value, item.attempts + 1, item.throttles))
    case Failed(why, error) =>
      if why.Throttled? && item.throttles < c.maxThrottles then Again(item.(throttles := item.throttles + 1))
      else if why.Retryable? && item.attempts + 1 < c.maxAttempts then Again(item.(attempts := item.attempts + 1))
      else Over(Outcome(item.index, false, error, item.attempts + 1, item.throttles))
  }

  function Widened(c: Config, s: Shared): real {
    var most := EffectiveMax(c, |s.outcomes|) as real;
    if s.ceiling + c.recoverStep <= most then s.ceiling + c.recoverStep else most
  }

  function Narrowed(c: Config, s: Shared): real {
    var least := c.minConcurrency as real;
    if s.ceiling * c.backoffFactor >= least then s.ceiling * c.backoffFactor else least
  }

  /** The locked region that follows the body. */
  function Finished(c: Config, s: Shared, item: Item, answer: Answer): Shared
    requires item.index < |s.outcomes|
  {
    match Judged(c, item, answer)
    case Over(outcome) =>
      s.(active := s.active - 1, outcomes := s.outcomes[item.index := Some(outcome)], remaining := s.remaining - 1,
         ceiling := if answer.Value? then Widened(c, s) else s.ceiling)
    case Again(_) =>
      s.(active := s.active - 1, ceiling := if answer.why.Throttled? then Narrowed(c, s) else s.ceiling)
  }

  function Requeued(s: Shared, item: Item): Shared {
    s.(queue := s.queue + [item])
  }

  /** The shared object and its locked regions. */
  class AdaptiveState {
    const cfg: Config
    const n: nat
    var queue: seq<Item>
    var outcomes: seq<Option<Outcome>>
    var remaining: int
    var active: int
    var ceiling: real
    var peak: int

    function State(): Shared
      reads this
    {
      Shared(queue, outcomes, remaining, active, ceiling, peak)
    }

    constructor (cfg: Config, n: nat)
      requires Clamped(cfg)
      ensures this.cfg == cfg && this.n == n && State() == Initial(cfg, n)
    {
      this.cfg, this.n := cfg, n;
      this.queue := seq(n, i requires 0 <= i < n => Item(i, 0, 0));
      this.outcomes := seq(n, i => None);
      this.remaining, this.active := n, 0;
      this.ceiling := Min(cfg.start, EffectiveMax(cfg, n)) as real;
      this.peak := Min(cfg.start, EffectiveMax(cfg, n));
    }

    /** One turn under the lock in `_next_item`: a task, the end, or a wait. */
    method NextItem() returns (item: Option<Item>, over: bool)
      requires |outcomes| == n
      modifies this
      ensures over <==> old(remaining) == 0
      ensures item.Some? <==> CanTake(cfg, old(State()))
      ensures item.Some? ==> item.value == old(queue)[0] && State() == Taken(old(State()))
      ensures item.None? ==> State() == old(State())
    {
      item, over := None, remaining == 0;
      if over {
        return;
      }
      var limit := Max(cfg.minConcurrency, Min(EffectiveMax(cfg, n), ceiling.Floor));
      if queue != [] && active < limit {
        item := Some(queue[0]);
        queue := queue[1..];
        active := active + 1;
        if active > peak {
          peak := active;
        }
      }
    }

    /** `_process` and `_on_failure` up to the sleep; an item that comes back is to be
        put on the queue again after it. */
    method Process(item: Item, answer: Answer) returns (again: Option<Item>)
      requires |outcomes| == n && item.index < n
      modifies this
      ensures State() == Finished(cfg, old(State()), item, answer)
      ensures again == match Judged(cfg, item, answer) { case Over(_) => None case Again(next) => Some(next) }
    {
      again := None;
      match answer {
        case Value(value) =>
          active := active - 1;
          var most := EffectiveMax(cfg, n) as real;
          ceiling := if ceiling + cfg.recoverStep <= most then ceiling + cfg.recoverStep else most;
          outcomes := outcomes[item.index := Some(Outcome(item.index, true, value, item.attempts + 1, item.throttles))];
          remaining := remaining - 1;
        case Failed(why, error) =>
          if why.Throttled? && item.throttles < cfg.maxThrottles {
            active := active - 1;
            var least := cfg.minConcurrency as real;
            ceiling := if ceiling * cfg.backoffFactor >= least then ceiling * cfg.backoffFactor else least;
            again := Some(item.(throttles := item.throttles + 1));
          } else if why.Retryable? && item.attempts + 1 < cfg.maxAttempts {
            active := active - 1;
            again := Some(item.(attempts := item.attempts + 1));
          } else {
            active := active - 1;
            var outcome := Outcome(item.index, false, error, item.attempts + 1, item.throttles);
            outcomes := outcomes[item.index := Some(outcome)];
            remaining := remaining - 1;
          }
      }
    }

    method Requeue(item: Item)
      modifies this`queue
      ensures State() == Requeued(old(State()), item)
    {
      queue := queue + [item];
    }
  }

  // --------------------------------------------------------------------------- steps

  /** What a worker thread is doing. */
  datatype Worker = Idle | Running(item: Item) | Sleeping(item: Item) | Exited

  /** `runs` counts how often each task's body was started. */
  datatype World = World(s: Shared, workers: seq<Worker>, runs: seq<nat>)

  datatype Step =
    | Take(worker: nat)
    | Finish(worker: nat, answer: Answer)
    | Wake(worker: nat)
    | Exit(worker: nat)

  function Initial(c: Config, n: nat): Shared {
    var start := Min(c.start, EffectiveMax(c, n));
    Shared(seq(n, i requires 0 <= i < n => Item(i, 0, 0)), seq(n, i => None), n, 0, start as real, start)
  }

  function Start(c: Config, n: nat): World
    requires Clamped(c)
  {
    World(Initial(c, n), seq(Min(n, c.threadCap), i => Idle), seq(n, i => 0))
  }

  predicate Enabled(c: Config, w: World, step: Step) {
    && step.worker < |w.workers|
    && var worker := w.workers[step.worker];
       match step
       case Take(_) => worker.Idle? && CanTake(c, w.s)
       case Finish(_, _) => worker.Running?
       case Wake(_) => worker.Sleeping?
       case Exit(_) => worker.Idle? && w.s.remaining == 0
  }

  /** Tasks are known by their index. */
  ghost predicate Indexed(w: World) {
    && |w.runs| == |w.s.outcomes|
    && (forall item :: item in w.s.queue ==> item.index < |w.s.outcomes|)
    && (forall k :: 0 <= k < |w.workers| ==> Holds(w.workers[k]) ==> w.workers[k].item.index < |w.s.outcomes|)
  }

  predicate Holds(worker: Worker) {
    worker.Running? || worker.Sleeping?
  }

  ghost function Next(c: Config, w: World, step: Step): World
    requires Indexed(w) && Enabled(c, w, step)
  {
    var k := step.worker;
    match step
    case Take(_) =>
      var item := w.s.queue[0];
      World(Taken(w.s), w.workers[k := Running(item)], w.runs[item.index := w.runs[item.index] + 1])
    case Finish(_, answer) =>
      var item := w.workers[k].item;
      World(Finished(c, w.s, item, answer), w.workers[k := AfterBody(c, item, answer)], w.runs)
    case Wake(_) =>
      World(Requeued(w.s, w.workers[k].item), w.workers[k := Idle], w.runs)
    case Exit(_) =>
      w.(workers := w.workers[k := Exited])
  }

  function AfterBody(c: Config, item: Item, answer: Answer): Worker {
    match Judged(c, item, answer)
    case Over(_) => Idle
    case Again(next) => Sleeping(next)
  }

  // -------------------------------------------------------------------------- counts

  function Tries(c: Config): int {
    AtLeast(1, c.maxAttempts)
  }

  predicate Fits(c: Config, item: Item) {
    item.attempts < Tries(c) && item.throttles <= c.maxThrottles
  }

  /** How often a task may still come back. */
  function Left(c: Config, item: Item): nat {
    AtLeast(0, Tries(c) - 1 - item.attempts) + AtLeast(0, c.maxThrottles - item.throttles)
  }

  /** What is counted over queue and workers: the places that hold a task, the bodies
      that run, or the steps still to come. */
  datatype Measure = Copies(index: nat) | Bodies | Work

  function ItemWorth(c: Config, m: Measure, item: Item): nat {
    match m
    case Copies(i) => if item.index == i then 1 else 0
    case Bodies => 0
    case Work => 3 * Left(c, item) + 3
  }

  function WorkerWorth(c: Config, m: Measure, worker: Worker): nat {
    match m
    case Copies(i) => if Holds(worker) && worker.item.index == i then 1 else 0
    case Bodies => if worker.Running? then 1 else 0
    case Work =>
      match worker
      case Idle => 1
      case Running(item) => 3 * Left(c, item) + 3
      case Sleeping(item) => 3 * Left(c, item) + 5
      case Exited => 0
  }

  function Queued(c: Config, m: Measure, queue: seq<Item>): nat {
    if queue == [] then 0 else ItemWorth(c, m, queue[0]) + Queued(c, m, queue[1..])
  }

  function Among(c: Config, m: Measure, workers: seq<Worker>): nat {
    if workers == [] then 0 else WorkerWorth(c, m, workers[0]) + Among(c, m, workers[1..])
  }

  function Unfilled(outcomes: seq<Option<Outcome>>): nat {
    if outcomes == [] then 0 else (if outcomes[0].None? then 1 else 0) + Unfilled(outcomes[1..])
  }

  lemma {:induction false} QueuedAppend(c: Config, m: Measure, queue: seq<Item>, item: Item)
    ensures Queued(c, m, queue + [item]) == Queued(c, m, queue) + ItemWorth(c, m, item)
  {
    if queue == [] {
      assert [item][1..] == [];
    } else {
      assert (queue + [item])[1..] == queue[1..] + [item];
      QueuedAppend(c, m, queue[1..], item);
    }
  }

  lemma {:induction false} AmongUpdate(c: Config, m: Measure, workers: seq<Worker>, k: nat, worker: Worker)
    requires k < |workers|
    ensures Among(c, m, workers[k := worker]) ==
            Among(c, m, workers) - WorkerWorth(c, m, workers[k]) + WorkerWorth(c, m, worker)
  {
    var updated := workers[k := worker];
    if k == 0 {
      assert updated[1..] == workers[1..];
    } else {
      assert updated[1..] == workers[1..][k - 1 := worker];
      AmongUpdate(c, m, workers[1..], k - 1, worker);
    }
  }

  lemma {:induction false} UnfilledUpdate(outcomes: seq<Option<Outcome>>, i: nat, outcome: Outcome)
    requires i < |outcomes| && outcomes[i].None?
    ensures Unfilled(outcomes[i := Some(outcome)]) == Unfilled(outcomes) - 1
  {
    var updated := outcomes[i := Some(outcome)];
    if i == 0 {
      assert updated[1..] == outcomes[1..];
    } else {
      assert updated[1..] == outcomes[1..][i - 1 := Some(outcome)];
      UnfilledUpdate(outcomes[1..], i - 1, outcome);
    }
  }

  lemma {:induction false} QueuedHolds(c: Config, queue: seq<Item>, item: Item)
    requires item in queue
    ensures Queued(c, Copies(item.index), queue) >= 1
  {
    if item != queue[0] {
      QueuedHolds(c, queue[1..], item);
    }
  }

  lemma AmongHolds(c: Config, workers: seq<Worker>, k: nat)
    requires k < |workers| && Holds(workers[k])
    ensures Among(c, Copies(workers[k].item.index), workers) >= 1
  {
    AmongUpdate(c, Copies(workers[k].item.index), workers, k, Idle);
  }

  // ----------------------------------------------------------------------- invariant

  /** Every task is in exactly one place: on the queue, with one worker, or done. */
  ghost predicate InOnePlace(c: Config, w: World) {
    forall i :: 0 <= i < |w.s.outcomes| ==> Places(c, w, i) == 1
  }

  ghost function Places(c: Config, w: World, i: nat): nat
    requires i < |w.s.outcomes|
  {
    Queued(c, Copies(i), w.s.queue) + Among(c, Copies(i), w.workers) + if w.s.outcomes[i].Some? then 1 else 0
  }

  ghost predicate ItemOk(c: Config, w: World, item: Item, started: nat) {
    && item.index < |w.s.outcomes| == |w.runs| && Fits(c, item)
    && w.runs[item.index] == item.attempts + item.throttles + started
  }

  ghost predicate WorkerOk(c: Config, w: World, worker: Worker) {
    match worker
    case Idle => true
    case Running(item) => ItemOk(c, w, item, 1)
    case Sleeping(item) => ItemOk(c, w, item, 0)
    case Exited => w.s.remaining == 0
  }

  /** An outcome stands in its own slot and counts the times its body was started. */
  ghost predicate OutcomeOk(c: Config, w: World, i: nat)
    requires i < |w.s.outcomes| == |w.runs|
  {
    match w.s.outcomes[i]
    case None => true
    case Some(o) =>
      && o.index == i && w.runs[i] == o.attempts + o.throttles
      && 1 <= o.attempts <= Tries(c) && o.throttles <= c.maxThrottles
  }

  ghost predicate TasksOk(c: Config, w: World) {
    && |w.runs| == |w.s.outcomes|
    && (forall item :: item in w.s.queue ==> ItemOk(c, w, item, 0))
    && (forall k :: 0 <= k < |w.workers| ==> WorkerOk(c, w, w.workers[k]))
    && (forall i :: 0 <= i < |w.s.outcomes| ==> OutcomeOk(c, w, i))
  }

  /** The counters count what they should and stay within the concurrency limits. */
  ghost predicate CountersOk(c: Config, w: World) {
    var most := EffectiveMax(c, |w.s.outcomes|);
    && w.s.remaining == Unfilled(w.s.outcomes)
    && w.s.active == Among(c, Bodies, w.workers)
    && w.s.active <= w.s.peak <= most
    && 0.0 < w.s.ceiling <= most as real
  }

  ghost predicate Inv(c: Config, w: World) {
    InOnePlace(c, w) && TasksOk(c, w) && CountersOk(c, w) && |w.workers| == Min(|w.s.outcomes|, c.threadCap)
  }

  /** A task on the queue is with no worker and has no outcome, and the same the other
      way round. */
  lemma OnQueueOnly(c: Config, w: World)
    requires InOnePlace(c, w) && TasksOk(c, w) && w.s.queue != []
    ensures var i := w.s.queue[0].index;
            && i < |w.s.outcomes| && w.s.outcomes[i].None?
            && (forall item :: item in w.s.queue[1..] ==> item.index != i)
            && (forall k :: 0 <= k < |w.workers| && Holds(w.workers[k]) ==> w.workers[k].item.index != i)
  {
    var i := w.s.queue[0].index;
    assert w.s.queue[0] in w.s.queue;
    assert ItemOk(c, w, w.s.queue[0], 0);
    assert Places(c, w, i) == 1;
    assert Queued(c, Copies(i), w.s.queue) == 1 + Queued(c, Copies(i), w.s.queue[1..]);
    forall item | item in w.s.queue[1..]
      ensures item.index != i
    {
      QueuedHolds(c, w.s.queue[1..], item);
    }
    forall k | 0 <= k < |w.workers| && Holds(w.workers[k])
      ensures w.workers[k].item.index != i
    {
      AmongHolds(c, w.workers, k);
    }
  }

  lemma WithWorkerOnly(c: Config, w: World, k: nat)
    requires InOnePlace(c, w) && TasksOk(c, w) && k < |w.workers| && Holds(w.workers[k])
    ensures var i := w.workers[k].item.index;
            && i < |w.s.outcomes| && w.s.outcomes[i].None?
            && (forall item :: item in w.s.queue ==> item.index != i)
            && (forall j :: 0 <= j < |w.workers| && j != k && Holds(w.workers[j]) ==> w.workers[j].item.index != i)
  {
    assert WorkerOk(c, w, w.workers[k]);
    var i := w.workers[k].item.index;
    assert Places(c, w, i) == 1;
    AmongHolds(c, w.workers, k);
    forall item | item in w.s.queue
      ensures item.index != i
    {
      if item.index == i {
        QueuedHolds(c, w.s.queue, item);
      }
    }
    AmongUpdate(c, Copies(i), w.workers, k, Idle);
    var rest := w.workers[k := Idle];
    forall j | 0 <= j < |w.workers| && j != k && Holds(w.workers[j])
      ensures w.workers[j].item.index != i
    {
      AmongHolds(c, rest, j);
    }
  }

  lemma TasksOkIsIndexed(c: Config, w: World)
    requires TasksOk(c, w)
    ensures Indexed(w)
  {
    forall k | 0 <= k < |w.workers| && Holds(w.workers[k])
      ensures w.workers[k].item.index < |w.s.outcomes|
    {
      assert WorkerOk(c, w, w.workers[k]);
    }
    forall item | item in w.s.queue
      ensures item.index < |w.s.outcomes|
    {
      assert ItemOk(c, w, item, 0);
    }
  }

  lemma PlacesKept(c: Config, w: World, step: Step)
    requires Inv(c, w) && Indexed(w) && Enabled(c, w, step)
    ensures InOnePlace(c, Next(c, w, step))
  {
    var w', k := Next(c, w, step), step.worker;
    forall i | 0 <= i < |w'.s.outcomes|
      ensures Places(c, w', i) == 1
    {
      assert Places(c, w, i) == 1;
      AmongUpdate(c, Copies(i), w.workers, k, w'.workers[k]);
      if step.Finish? {
        assert Judged(c, w.workers[k].item, step.answer).Over? ==> w.s.outcomes[w.workers[k].item.index].None? by {
          WithWorkerOnly(c, w, k);
        }
      } else if step.Wake? {
        QueuedAppend(c, Copies(i), w.s.queue, w.workers[k].item);
      }
    }
  }

  lemma TakeKeepsTasks(c: Config, w: World, step: Step)
    requires Inv(c, w) && Indexed(w) && step.Take? && Enabled(c, w, step)
    ensures TasksOk(c, Next(c, w, step))
  {
    var w' := Next(c, w, step);
    var taken := w.s.queue[0];
    OnQueueOnly(c, w);
    assert ItemOk(c, w, taken, 0);
    forall item | item in w'.s.queue
      ensures ItemOk(c, w', item, 0)
    {
      assert item in w.s.queue && ItemOk(c, w, item, 0);
    }
    forall k | 0 <= k < |w'.workers|
      ensures WorkerOk(c, w', w'.workers[k])
    {
      assert WorkerOk(c, w, w.workers[k]);
    }
    forall i | 0 <= i < |w'.s.outcomes|
      ensures OutcomeOk(c, w', i)
    {
      assert OutcomeOk(c, w, i);
    }
  }

  lemma FinishKeepsTasks(c: Config, w: World, step: Step)
    requires Clamped(c) && Inv(c, w) && Indexed(w) && step.Finish? && Enabled(c, w, step)
    ensures TasksOk(c, Next(c, w, step))
  {
    var w' := Next(c, w, step);
    var done := w.workers[step.worker].item;
    WithWorkerOnly(c, w, step.worker);
    assert WorkerOk(c, w, w.workers[step.worker]);
    forall item | item in w'.s.queue
      ensures ItemOk(c, w', item, 0)
    {
      assert ItemOk(c, w, item, 0);
    }
    assert w.s.remaining != 0 by {
      UnfilledUpdate(w.s.outcomes, done.index, Outcome(done.index, false, "", 0, 0));
    }
    forall k | 0 <= k < |w'.workers|
      ensures WorkerOk(c, w', w'.workers[k])
    {
      assert WorkerOk(c, w, w.workers[k]);
    }
    forall i | 0 <= i < |w'.s.outcomes|
      ensures OutcomeOk(c, w', i)
    {
      assert OutcomeOk(c, w, i);
    }
  }

  lemma WakeKeepsTasks(c: Config, w: World, step: Step)
    requires Inv(c, w) && Indexed(w) && (step.Wake? || step.Exit?) && Enabled(c, w, step)
    ensures TasksOk(c, Next(c, w, step))
  {
    var w' := Next(c, w, step);
    assert WorkerOk(c, w, w.workers[step.worker]);
    forall item | item in w'.s.queue
      ensures ItemOk(c, w', item, 0)
    {
      assert item in w.s.queue ==> ItemOk(c, w, item, 0);
    }
    forall k | 0 <= k < |w'.workers|
      ensures WorkerOk(c, w', w'.workers[k])
    {
      assert WorkerOk(c, w, w.workers[k]);
    }
    forall i | 0 <= i < |w'.s.outcomes|
      ensures OutcomeOk(c, w', i)
    {
      assert OutcomeOk(c, w, i);
    }
  }

  lemma PaceInRange(c: Config, s: Shared)
    requires Clamped(c) && 0.0 < s.ceiling <= EffectiveMax(c, |s.outcomes|) as real
    ensures 0.0 < Widened(c, s) <= EffectiveMax(c, |s.outcomes|) as real
    ensures 0.0 < Narrowed(c, s) <= EffectiveMax(c, |s.outcomes|) as real
    ensures c.minConcurrency <= Limit(c, s) <= EffectiveMax(c, |s.outcomes|)
  {
    var cut := 1.0 - c.backoffFactor;
    assert s.ceiling * cut >= 0.0;
    assert s.ceiling * (c.backoffFactor + cut) == s.ceiling * c.backoffFactor + s.ceiling * cut;
  }

  lemma CountersKept(c: Config, w: World, step: Step)
    requires Clamped(c) && Inv(c, w) && Indexed(w) && Enabled(c, w, step)
    ensures CountersOk(c, Next(c, w, step))
  {
    var w', k := Next(c, w, step), step.worker;
    AmongUpdate(c, Bodies, w.workers, k, w'.workers[k]);
    PaceInRange(c, w.s);
    if step.Finish? {
      var item := w.workers[k].item;
      WithWorkerOnly(c, w, k);
      var verdict := Judged(c, item, step.answer);
      if verdict.Over? {
        UnfilledUpdate(w.s.outcomes, item.index, verdict.outcome);
      }
    }
  }

  lemma NextKeepsInv(c: Config, w: World, step: Step)
    requires Clamped(c) && Inv(c, w) && Indexed(w) && Enabled(c, w, step)
    ensures Inv(c, Next(c, w, step)) && Indexed(Next(c, w, step))
  {
    PlacesKept(c, w, step);
    CountersKept(c, w, step);
    match step {
      case Take(_) => TakeKeepsTasks(c, w, step);
      case Finish(_, _) => FinishKeepsTasks(c, w, step);
      case Wake(_) => WakeKeepsTasks(c, w, step);
      case Exit(_) => WakeKeepsTasks(c, w, step);
    }
    TasksOkIsIndexed(c, Next(c, w, step));
  }

  // -------------------------------------------------------------------- termination

  ghost function WorkLeft(c: Config, w: World): nat {
    Queued(c, Work, w.s.queue) + Among(c, Work, w.workers)
  }

  lemma WorkShrinks(c: Config, w: World, step: Step)
    requires Clamped(c) && Inv(c, w) && Indexed(w) && Enabled(c, w, step)
    ensures WorkLeft(c, Next(c, w, step)) < WorkLeft(c, w)
  {
    var w', k := Next(c, w, step), step.worker;
    AmongUpdate(c, Work, w.workers, k, w'.workers[k]);
    assert WorkerOk(c, w, w.workers[k]);
    if step.Wake? {
      QueuedAppend(c, Work, w.s.queue, w.workers[k].item);
    }
  }

  // ---------------------------------------------------------------------------- runs

  ghost predicate Possible(c: Config, w: World, steps: seq<Step>)
    decreases |steps|
  {
    steps != [] ==> Indexed(w) && Enabled(c, w, steps[0]) && Possible(c, Next(c, w, steps[0]), steps[1..])
  }

  ghost function Reach(c: Config, w: World, steps: seq<Step>): World
    requires Possible(c, w, steps)
    decreases |steps|
  {
    if steps == [] then w else Reach(c, Next(c, w, steps[0]), steps[1..])
  }

  lemma {:induction false} FreshQueue(c: Config, queue: seq<Item>, from: nat, i: nat)
    requires Clamped(c) && forall j :: 0 <= j < |queue| ==> queue[j] == Item(from + j, 0, 0)
    ensures Queued(c, Copies(i), queue) == if from <= i < from + |queue| then 1 else 0
    ensures Queued(c, Work, queue) == |queue| * (3 * (Tries(c) + c.maxThrottles))
  {
    if queue != [] {
      FreshQueue(c, queue[1..], from + 1, i);
      var each := 3 * (Tries(c) + c.maxThrottles);
      assert |queue| * each == (|queue| - 1) * each + each;
    }
  }

  lemma {:induction false} FreshWorkers(c: Config, workers: seq<Worker>, i: nat)
    requires forall k :: 0 <= k < |workers| ==> workers[k] == Idle
    ensures Among(c, Copies(i), workers) == 0 && Among(c, Bodies, workers) == 0
    ensures Among(c, Work, workers) == |workers|
  {
    if workers != [] {
      FreshWorkers(c, workers[1..], i);
    }
  }

  lemma {:induction false} FreshOutcomes(outcomes: seq<Option<Outcome>>)
    requires forall i :: 0 <= i < |outcomes| ==> outcomes[i].None?
    ensures Unfilled(outcomes) == |outcomes|
  {
    if outcomes != [] {
      FreshOutcomes(outcomes[1..]);
    }
  }

  lemma StartIsFine(c: Config, n: nat)
    requires Clamped(c) && n > 0
    ensures Inv(c, Start(c, n)) && Indexed(Start(c, n))
    ensures WorkLeft(c, Start(c, n)) == n * (3 * (Tries(c) + c.maxThrottles)) + Min(n, c.threadCap)
  {
    var w := Start(c, n);
    forall i | 0 <= i < n
      ensures Places(c, w, i) == 1
    {
      FreshQueue(c, w.s.queue, 0, i);
      FreshWorkers(c, w.workers, i);
    }
    FreshQueue(c, w.s.queue, 0, 0);
    FreshWorkers(c, w.workers, 0);
    FreshOutcomes(w.s.outcomes);
  }

  lemma {:induction false} RunKeepsInv(c: Config, w: World, steps: seq<Step>)
    requires Clamped(c) && Inv(c, w) && Indexed(w) && Possible(c, w, steps)
    ensures Inv(c, Reach(c, w, steps)) && Indexed(Reach(c, w, steps))
    ensures |steps| + WorkLeft(c, Reach(c, w, steps)) <= WorkLeft(c, w)
    ensures |Reach(c, w, steps).s.outcomes| == |w.s.outcomes|
    ensures forall i :: 0 <= i < |w.s.outcomes| && w.s.outcomes[i].Some? ==>
            Reach(c, w, steps).s.outcomes[i] == w.s.outcomes[i]
    decreases |steps|
  {
    if steps != [] {
      NextKeepsInv(c, w, steps[0]);
      WorkShrinks(c, w, steps[0]);
      if steps[0].Finish? {
        WithWorkerOnly(c, w, steps[0].worker);
      }
      RunKeepsInv(c, Next(c, w, steps[0]), steps[1..]);
    }
  }

  lemma {:induction false} SomeUnfilled(outcomes: seq<Option<Outcome>>) returns (i: nat)
    requires Unfilled(outcomes) > 0
    ensures i < |outcomes| && outcomes[i].None?
  {
    if outcomes[0].None? {
      i := 0;
    } else {
      i := SomeUnfilled(outcomes[1..]);
      i := i + 1;
    }
  }

  lemma {:induction false} RestingHoldNothing(c: Config, workers: seq<Worker>, i: nat)
    requires forall k :: 0 <= k < |workers| ==> workers[k].Idle?
    ensures Among(c, Copies(i), workers) == 0 && Among(c, Bodies, workers) == 0
  {
    if workers != [] {
      RestingHoldNothing(c, workers[1..], i);
    }
  }

  /** Nobody waits for ever: as long as a thread has not returned, some thread can step,
      and as long as a task is not done that step moves a task. */
  lemma SomebodyCanStep(c: Config, w: World) returns (step: Step)
    requires Clamped(c) && Inv(c, w) && exists k :: 0 <= k < |w.workers| && !w.workers[k].Exited?
    ensures Enabled(c, w, step)
    ensures w.s.remaining > 0 ==> !step.Exit?
  {
    if k :| 0 <= k < |w.workers| && w.workers[k].Running? {
      step := Finish(k, Value(""));
    } else if k :| 0 <= k < |w.workers| && w.workers[k].Sleeping? {
      step := Wake(k);
    } else if w.s.remaining == 0 {
      var k :| 0 <= k < |w.workers| && !w.workers[k].Exited?;
      step := Exit(k);
    } else {
      forall k | 0 <= k < |w.workers|
        ensures w.workers[k].Idle?
      {
        assert WorkerOk(c, w, w.workers[k]);
      }
      var i := SomeUnfilled(w.s.outcomes);
      RestingHoldNothing(c, w.workers, i);
      assert Places(c, w, i) == 1;
      PaceInRange(c, w.s);
      step := Take(0);
    }
  }

  lemma {:induction false} AllFilled(outcomes: seq<Option<Outcome>>, i: nat)
    requires Unfilled(outcomes) == 0 && i < |outcomes|
    ensures outcomes[i].Some?
  {
    if i > 0 {
      AllFilled(outcomes[1..], i - 1);
    }
  }

  /** Completion is guaranteed: under any interleaving and whatever the bodies do, a
      run takes at most so many steps, and one that can go no further has returned every
      thread and filled every slot with its own task's outcome. */
  lemma EveryRunCompletes(c: Config, n: nat, steps: seq<Step>)
    requires Clamped(c) && n > 0 && Possible(c, Start(c, n), steps)
    ensures var w := Reach(c, Start(c, n), steps);
            && |steps| <= n * (3 * (Tries(c) + c.maxThrottles)) + Min(n, c.threadCap)
            && |w.s.outcomes| == n
            && ((forall step :: !Enabled(c, w, step)) <==> (forall k :: 0 <= k < |w.workers| ==> w.workers[k].Exited?))
            && ((forall step :: !Enabled(c, w, step)) ==>
                  forall i :: 0 <= i < n ==> w.s.outcomes[i].Some? && w.s.outcomes[i].value.index == i)
  {
    StartIsFine(c, n);
    RunKeepsInv(c, Start(c, n), steps);
    var w := Reach(c, Start(c, n), steps);
    if forall step :: !Enabled(c, w, step) {
      if exists k :: 0 <= k < |w.workers| && !w.workers[k].Exited? {
        var step := SomebodyCanStep(c, w);
      }
      assert w.workers[0].Exited? && WorkerOk(c, w, w.workers[0]);
      forall i | 0 <= i < n
        ensures w.s.outcomes[i].Some? && w.s.outcomes[i].value.index == i
      {
        AllFilled(w.s.outcomes, i);
        assert OutcomeOk(c, w, i);
      }
    }
  }

  /** In every reachable state each task is in exactly one place, `remaining` counts the
      tasks not done and `active` the bodies running, which are never more than the
      effective maximum; and no body is ever started more often than the budgets of
      attempts and throttle waits grant together. */
  lemma EveryRunIsAccountedFor(c: Config, n: nat, steps: seq<Step>)
    requires Clamped(c) && n > 0 && Possible(c, Start(c, n), steps)
    ensures var w := Reach(c, Start(c, n), steps);
            && |w.runs| == |w.s.outcomes| == n
            && InOnePlace(c, w)
            && w.s.remaining == Unfilled(w.s.outcomes)
            && w.s.active == Among(c, Bodies, w.workers) <= EffectiveMax(c, n)
            && forall i :: 0 <= i < n ==> w.runs[i] <= Tries(c) + c.maxThrottles
  {
    StartIsFine(c, n);
    RunKeepsInv(c, Start(c, n), steps);
    var w := Reach(c, Start(c, n), steps);
    forall i | 0 <= i < n
      ensures w.runs[i] <= Tries(c) + c.maxThrottles
    {
      RunsAreBounded(c, w, i);
    }
  }

  lemma {:induction false} FindQueued(c: Config, queue: seq<Item>, i: nat) returns (item: Item)
    requires Queued(c, Copies(i), queue) > 0
    ensures item in queue && item.index == i
  {
    if queue[0].index == i {
      item := queue[0];
    } else {
      item := FindQueued(c, queue[1..], i);
    }
  }

  lemma {:induction false} FindHeld(c: Config, workers: seq<Worker>, i: nat) returns (k: nat)
    requires Among(c, Copies(i), workers) > 0
    ensures k < |workers| && Holds(workers[k]) && workers[k].item.index == i
  {
    if Holds(workers[0]) && workers[0].item.index == i {
      k := 0;
    } else {
      k := FindHeld(c, workers[1..], i);
      k := k + 1;
    }
  }

  lemma RunsAreBounded(c: Config, w: World, i: nat)
    requires Clamped(c) && Inv(c, w) && i < |w.s.outcomes|
    ensures w.runs[i] <= Tries(c) + c.maxThrottles
  {
    assert Places(c, w, i) == 1;
    if w.s.outcomes[i].Some? {
      assert OutcomeOk(c, w, i);
    } else if Queued(c, Copies(i), w.s.queue) > 0 {
      var item := FindQueued(c, w.s.queue, i);
      assert ItemOk(c, w, item, 0);
    } else {
      var k := FindHeld(c, w.workers, i);
      assert WorkerOk(c, w, w.workers[k]);
    }
  }
}
