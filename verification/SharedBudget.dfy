/** A budget shared by parallel agents: the check and the charge are two critical
    sections (autarch/economy.py, autarch/agent.py). */
module SharedBudget {
  import opened Prelude

  type Amounts = map<string, real>

  /** A cost estimate, in the order its meters are checked; a dictionary, so one entry a key. */
  type Deltas = seq<(string, real)>

  function Get(m: Amounts, k: string): real {
    if k in m then m[k] else 0.0
  }

  function Cost(d: Deltas, k: string): real {
    if d == [] then 0.0
    else Cost(d[..|d| - 1], k) + if d[|d| - 1].0 == k then d[|d| - 1].1 else 0.0
  }

  predicate OneEntryAKey(d: Deltas) {
    forall i, j :: 0 <= i < j < |d| ==> d[i].0 != d[j].0
  }

  predicate Fits(limits: Amounts, spent: Amounts, e: (string, real)) {
    e.0 in limits ==> Get(spent, e.0) + e.1 <= limits[e.0]
  }

  function Charged(spent: Amounts, d: Deltas): Amounts {
    if d == [] then spent
    else
      var before := Charged(spent, d[..|d| - 1]);
      before[d[|d| - 1].0 := Get(before, d[|d| - 1].0) + d[|d| - 1].1]
  }

  datatype Breach = Breach(key: string, limit: real, projected: real)

  class Budget {
    const limits: Amounts
    var spent: Amounts

    constructor (limits: Amounts)
      ensures this.limits == limits && spent == map[]
    {
      this.limits, spent := limits, map[];
    }

    /** The first meter, in estimate order, whose ceiling the charge would bust. */
    method WouldExceed(d: Deltas) returns (breach: Option<Breach>)
      ensures breach.None? <==> forall e :: e in d ==> Fits(limits, spent, e)
      ensures breach.Some? ==> exists i :: (0 <= i < |d| && !Fits(limits, spent, d[i]) &&
                breach.value == Breach(d[i].0, limits[d[i].0], Get(spent, d[i].0) + d[i].1) &&
                forall j :: 0 <= j < i ==> Fits(limits, spent, d[j]))
    {
      var i := 0;
      while i < |d|
        invariant 0 <= i <= |d|
        invariant forall j :: 0 <= j < i ==> Fits(limits, spent, d[j])
      {
        var (key, amount) := d[i];
        if key in limits {
          var projected := Get(spent, key) + amount;
          if projected > limits[key] {
            assert d[i] in d;
            return Some(Breach(key, limits[key], projected));
          }
        }
        i := i + 1;
      }
      return None;
    }

    /** A charge adds the estimate of every meter to what was spent on it, metered or not. */
    method Charge(d: Deltas)
      modifies this
      ensures spent == Charged(old(spent), d)
      ensures forall k :: Get(spent, k) == Get(old(spent), k) + Cost(d, k)
    {
      var i := 0;
      while i < |d|
        invariant 0 <= i <= |d|
        invariant spent == Charged(old(spent), d[..i])
      {
        assert d[..i + 1][..i] == d[..i];
        spent := spent[d[i].0 := Get(spent, d[i].0) + d[i].1];
        i := i + 1;
      }
      assert d[..i] == d;
      forall k
        ensures Get(spent, k) == Get(old(spent), k) + Cost(d, k)
      {
        ChargedGet(old(spent), d, k);
      }
    }
  }

  lemma {:induction false} ChargedGet(spent: Amounts, d: Deltas, k: string)
    ensures Get(Charged(spent, d), k) == Get(spent, k) + Cost(d, k)
  {
    if d != [] {
      ChargedGet(spent, d[..|d| - 1], k);
    }
  }

  // --------------------------------------------------------------- agents in parallel

  /** A slot is a worker that runs one agent at a time; between its check and its charge
      the slot holds the estimate. */
  datatype State = State(spent: Amounts, slots: seq<Option<Deltas>>)

  datatype Step =
    | Check(slot: nat, cost: Deltas)
    | Settle(slot: nat)      // the action ran: charge its estimate
    | Abandon(slot: nat)     // it was not ratified, was blocked or failed: nothing is charged

  predicate Affordable(limits: Amounts, spent: Amounts, d: Deltas) {
    forall e :: e in d ==> Fits(limits, spent, e)
  }

  /** A refused or impossible step changes nothing. */
  function Apply(limits: Amounts, s: State, step: Step): State {
    match step
    case Check(i, d) =>
      if i < |s.slots| && s.slots[i].None? && Affordable(limits, s.spent, d)
      then s.(slots := s.slots[i := Some(d)]) else s
    case Settle(i) =>
      if i < |s.slots| && s.slots[i].Some?
      then State(Charged(s.spent, s.slots[i].value), s.slots[i := None]) else s
    case Abandon(i) =>
      if i < |s.slots| then s.(slots := s.slots[i := None]) else s
  }

  /** An action that is checked and then abandoned leaves no trace; one that is settled
      leaves its cost; and only an affordable one is let in, by a free worker. */
  lemma OneAction(limits: Amounts, s: State, i: nat, d: Deltas)
    requires i < |s.slots| && s.slots[i].None?
    ensures var checked := Apply(limits, s, Check(i, d));
            && (checked != s <==> forall e :: e in d && e.0 in limits ==> Get(s.spent, e.0) + e.1 <= limits[e.0])
            && (checked != s ==> checked == State(s.spent, s.slots[i := Some(d)]))
            && Apply(limits, checked, Abandon(i)) == s
            && (checked != s ==> Apply(limits, checked, Settle(i)).slots == s.slots)
            && (checked != s ==>
              forall k :: Get(Apply(limits, checked, Settle(i)).spent, k) == Get(s.spent, k) + Cost(d, k))
  {
    var checked := Apply(limits, s, Check(i, d));
    assert s.slots[i := Some(d)][i := None] == s.slots && s.slots[i := None] == s.slots;
    assert s.slots[i := Some(d)][i] != s.slots[i];
    forall k
      ensures Get(Charged(s.spent, d), k) == Get(s.spent, k) + Cost(d, k)
    {
      ChargedGet(s.spent, d, k);
    }
  }

  function Run(limits: Amounts, s: State, steps: seq<Step>): State {
    if steps == [] then s
    else Apply(limits, Run(limits, s, steps[..|steps| - 1]), steps[|steps| - 1])
  }

  /** Costs checked but not yet charged. */
  function Pending(slots: seq<Option<Deltas>>, k: string): real {
    if slots == [] then 0.0
    else
      var last := slots[|slots| - 1];
      Pending(slots[..|slots| - 1], k) + if last.Some? then Cost(last.value, k) else 0.0
  }

  /** Every estimate is a dictionary of costs between nothing and m per meter. */
  ghost predicate Moderate(d: Deltas, m: real) {
    OneEntryAKey(d) && forall e :: e in d ==> 0.0 <= e.1 <= m
  }

  ghost predicate ModerateSteps(steps: seq<Step>, m: real) {
    forall s :: s in steps && s.Check? ==> Moderate(s.cost, m)
  }

  /** Every estimate that a slot holds costs at most c on this meter. */
  ghost predicate CheapSlots(slots: seq<Option<Deltas>>, k: string, c: real) {
    forall s :: s in slots && s.Some? ==> 0.0 <= Cost(s.value, k) <= c
  }

  lemma {:induction false} CostOfKey(d: Deltas, k: string, m: real)
    requires Moderate(d, m) && m >= 0.0
    ensures 0.0 <= Cost(d, k) <= m
    ensures Cost(d, k) == 0.0 || exists e :: e in d && e.0 == k && e.1 == Cost(d, k)
    ensures (forall e :: e in d ==> e.0 != k) ==> Cost(d, k) == 0.0
  {
    if d != [] {
      var init, last := d[..|d| - 1], d[|d| - 1];
      assert d == init + [last];
      CostOfKey(init, k, m);
      if last.0 == k {
        assert forall e :: e in init ==> e.0 != k;
        assert last in d;
      } else if Cost(init, k) != 0.0 {
        var e :| e in init && e.0 == k && e.1 == Cost(init, k);
        assert e in d;
      }
    }
  }

  lemma {:induction false} PendingUpdate(slots: seq<Option<Deltas>>, i: nat, v: Option<Deltas>, k: string)
    requires i < |slots|
    ensures Pending(slots[i := v], k) == Pending(slots, k)
      - (if slots[i].Some? then Cost(slots[i].value, k) else 0.0) + (if v.Some? then Cost(v.value, k) else 0.0)
  {
    var init := slots[..|slots| - 1];
    if i < |init| {
      PendingUpdate(init, i, v, k);
      assert slots[i := v][..|slots| - 1] == init[i := v];
    } else {
      assert slots[i := v][..|slots| - 1] == init;
    }
  }

  /** A free slot leaves room for at most p - 1 pending estimates. */
  lemma {:induction false} PendingBound(slots: seq<Option<Deltas>>, k: string, c: real)
    requires CheapSlots(slots, k, c) && c >= 0.0
    ensures 0.0 <= Pending(slots, k) <= Times(|slots|, c)
    ensures None in slots ==> Pending(slots, k) <= Times(|slots| - 1, c)
  {
    if slots != [] {
      var init, last := slots[..|slots| - 1], slots[|slots| - 1];
      assert slots == init + [last];
      PendingBound(init, k, c);
      assert last in slots;
    }
  }

  /** The dearest action that can pass a check of a meter with so much left. */
  function Dearest(m: real, left: real): real {
    if m <= left then m else left
  }

  /** What was spent and what is pending stay within the ceiling and p - 1 times c, and
      no check can pass that costs more than c. */
  ghost predicate Bounded(limits: Amounts, s: State, k: string, c: real, base: real) {
    && k in limits && s.slots != [] && CheapSlots(s.slots, k, c)
    && base <= Get(s.spent, k)
    && Get(s.spent, k) + Pending(s.slots, k) <= limits[k] + Times(|s.slots| - 1, c)
  }

  lemma StepKeepsBound(limits: Amounts, s: State, step: Step, k: string, m: real, base: real)
    requires k in limits && m >= 0.0 && base <= limits[k]
    requires Bounded(limits, s, k, Dearest(m, limits[k] - base), base) && (step.Check? ==> Moderate(step.cost, m))
    ensures Bounded(limits, Apply(limits, s, step), k, Dearest(m, limits[k] - base), base)
  {
    var c, s' := Dearest(m, limits[k] - base), Apply(limits, s, step);
    if s' != s {
      match step
      case Check(i, d) =>
        PendingUpdate(s.slots, i, Some(d), k);
        PendingBound(s.slots, k, c);
        CostOfKey(d, k, m);
        if Cost(d, k) != 0.0 {
          var e :| e in d && e.0 == k && e.1 == Cost(d, k);
          assert Fits(limits, s.spent, e);
        }
        assert s.slots[i] in s.slots;
      case Settle(i) =>
        assert s.slots[i] in s.slots;
        PendingUpdate(s.slots, i, None, k);
        ChargedGet(s.spent, s.slots[i].value, k);
      case Abandon(i) =>
        assert s.slots[i] in s.slots;
        PendingUpdate(s.slots, i, None, k);
    }
  }

  lemma {:induction false} RunKeepsBound(limits: Amounts, s: State, steps: seq<Step>, k: string, m: real, base: real)
    requires k in limits && m >= 0.0 && base <= limits[k] && ModerateSteps(steps, m)
    requires Bounded(limits, s, k, Dearest(m, limits[k] - base), base)
    ensures Bounded(limits, Run(limits, s, steps), k, Dearest(m, limits[k] - base), base)
    ensures |Run(limits, s, steps).slots| == |s.slots|
  {
    if steps != [] {
      var init, last := steps[..|steps| - 1], steps[|steps| - 1];
      assert steps == init + [last];
      RunKeepsBound(limits, s, init, k, m, base);
      StepKeepsBound(limits, Run(limits, s, init), last, k, m, base);
    }
  }

  function Free(p: nat): seq<Option<Deltas>> {
    seq(p, _ => None)
  }

  /** In every state p parallel workers can reach, the overshoot of a ceiling is at most
      the cost of the p - 1 actions that can slip in between a check and its charge; and
      no action costs more than what was left at the start. */
  lemma OvershootIsBounded(limits: Amounts, spent: Amounts, p: nat, steps: seq<Step>, m: real, k: string)
    requires p > 0 && m >= 0.0 && ModerateSteps(steps, m)
    requires k in limits && Get(spent, k) <= limits[k]
    ensures Get(Run(limits, State(spent, Free(p)), steps).spent, k)
            <= limits[k] + Times(p - 1, Dearest(m, limits[k] - Get(spent, k)))
  {
    var s, base := State(spent, Free(p)), Get(spent, k);
    StartIsBounded(limits, spent, p, k, Dearest(m, limits[k] - base));
    RunKeepsBound(limits, s, steps, k, m, base);
    PendingBound(Run(limits, s, steps).slots, k, Dearest(m, limits[k] - base));
  }

  lemma StartIsBounded(limits: Amounts, spent: Amounts, p: nat, k: string, c: real)
    requires p > 0 && c >= 0.0 && k in limits && Get(spent, k) <= limits[k]
    ensures Bounded(limits, State(spent, Free(p)), k, c, Get(spent, k))
  {
    FreePending(p, k, c);
  }

  lemma {:induction false} FreePending(p: nat, k: string, c: real)
    requires c >= 0.0
    ensures Pending(Free(p), k) == 0.0
    ensures p > 0 ==> 0.0 <= Times(p - 1, c)
  {
    if p > 0 {
      FreePending(p - 1, k, c);
      assert Free(p)[..p - 1] == Free(p - 1);
    }
  }

  /** One worker never overspends. */
  lemma SequentialNeverOverspends(limits: Amounts, spent: Amounts, steps: seq<Step>, m: real, k: string)
    requires m >= 0.0 && ModerateSteps(steps, m)
    requires k in limits && Get(spent, k) <= limits[k]
    ensures Get(Run(limits, State(spent, Free(1)), steps).spent, k) <= limits[k]
  {
    OvershootIsBounded(limits, spent, 1, steps, m, k);
  }

  // ----------------------------------------------------------------- the bound is met

  function ChecksOf(n: nat, d: Deltas): seq<Step> {
    if n == 0 then [] else ChecksOf(n - 1, d) + [Check(n - 1, d)]
  }

  function SettlesOf(n: nat): seq<Step> {
    if n == 0 then [] else SettlesOf(n - 1) + [Settle(n - 1)]
  }

  /** The first n slots hold `first`, the others `rest`. */
  ghost predicate SplitAt(slots: seq<Option<Deltas>>, n: nat, first: Option<Deltas>, rest: Option<Deltas>) {
    n <= |slots| && forall i :: 0 <= i < |slots| ==> slots[i] == if i < n then first else rest
  }

  lemma RunOneMore(limits: Amounts, s: State, steps: seq<Step>, last: Step)
    ensures Run(limits, s, steps + [last]) == Apply(limits, Run(limits, s, steps), last)
  {
    assert (steps + [last])[..|steps|] == steps;
  }

  lemma {:induction false} RunInTwo(limits: Amounts, s: State, first: seq<Step>, second: seq<Step>)
    ensures Run(limits, s, first + second) == Run(limits, Run(limits, s, first), second)
    decreases |second|
  {
    if second == [] {
      assert first + second == first;
    } else {
      var init, last := second[..|second| - 1], second[|second| - 1];
      assert first + second == (first + init) + [last] && second == init + [last];
      RunOneMore(limits, s, first + init, last);
      RunInTwo(limits, s, first, init);
    }
  }

  /** The first n slots have checked d, and nothing was charged. */
  ghost predicate Checked(s: State, s': State, n: nat, d: Deltas) {
    s'.spent == s.spent && |s'.slots| == |s.slots| && SplitAt(s'.slots, n, Some(d), None)
  }

  lemma NextCheckPasses(limits: Amounts, s: State, s': State, n: nat, d: Deltas)
    requires n < |s.slots| && Checked(s, s', n, d) && Affordable(limits, s.spent, d)
    ensures Checked(s, Apply(limits, s', Check(n, d)), n + 1, d)
  {
  }

  lemma {:induction false} AllChecksPass(limits: Amounts, s: State, n: nat, d: Deltas)
    requires n <= |s.slots| && SplitAt(s.slots, 0, Some(d), None) && Affordable(limits, s.spent, d)
    ensures Checked(s, Run(limits, s, ChecksOf(n, d)), n, d)
    decreases n
  {
    if n > 0 {
      AllChecksPass(limits, s, n - 1, d);
      NextCheckPasses(limits, s, Run(limits, s, ChecksOf(n - 1, d)), n - 1, d);
      RunOneMore(limits, s, ChecksOf(n - 1, d), Check(n - 1, d));
    }
  }

  /** The first n slots were charged d each. */
  ghost predicate Settled(s: State, s': State, n: nat, d: Deltas, k: string) {
    && Get(s'.spent, k) == Get(s.spent, k) + Times(n, Cost(d, k))
    && |s'.slots| == |s.slots| && SplitAt(s'.slots, n, None, Some(d))
  }

  lemma NextIsCharged(limits: Amounts, s: State, s': State, n: nat, d: Deltas, k: string)
    requires n < |s.slots| && Settled(s, s', n, d, k)
    ensures Settled(s, Apply(limits, s', Settle(n)), n + 1, d, k)
  {
    ChargedGet(s'.spent, d, k);
  }

  lemma {:induction false} AllCharged(limits: Amounts, s: State, n: nat, d: Deltas, k: string)
    requires n <= |s.slots| && SplitAt(s.slots, 0, None, Some(d))
    ensures Settled(s, Run(limits, s, SettlesOf(n)), n, d, k)
    decreases n
  {
    if n > 0 {
      AllCharged(limits, s, n - 1, d, k);
      NextIsCharged(limits, s, Run(limits, s, SettlesOf(n - 1)), n - 1, d, k);
      RunOneMore(limits, s, SettlesOf(n - 1), Settle(n - 1));
    }
  }

  lemma CheckAllThenChargeAll(limits: Amounts, spent: Amounts, p: nat, d: Deltas, k: string)
    requires Affordable(limits, spent, d)
    ensures Get(Run(limits, State(spent, Free(p)), ChecksOf(p, d) + SettlesOf(p)).spent, k)
            == Get(spent, k) + Times(p, Cost(d, k))
  {
    var s := State(spent, Free(p));
    AllChecksPass(limits, s, p, d);
    AllCharged(limits, Run(limits, s, ChecksOf(p, d)), p, d, k);
    RunInTwo(limits, s, ChecksOf(p, d), SettlesOf(p));
  }

  lemma {:induction false} OnlyThisCost(n: nat, d: Deltas, s: Step)
    ensures s in ChecksOf(n, d) && s.Check? ==> s.cost == d
    ensures s in SettlesOf(n) ==> !s.Check?
    ensures s in OneByOne(n, d) && s.Check? ==> s.cost == d
  {
    if n > 0 {
      OnlyThisCost(n - 1, d, s);
    }
  }

  /** One worker that acts n times in turn. */
  function OneByOne(n: nat, d: Deltas): seq<Step> {
    if n == 0 then [] else OneByOne(n - 1, d) + [Check(0, d)] + [Settle(0)]
  }

  lemma OneCost(k: string, x: real)
    ensures Cost([(k, x)], k) == x
  {
    assert [(k, x)][..0] == [];
  }

  lemma CheckAndSettle(limits: Amounts, s: State, k: string, x: real)
    requires s.slots != [] && s.slots[0] == None && (k in limits ==> Get(s.spent, k) + x <= limits[k])
    ensures var s' := Apply(limits, Apply(limits, s, Check(0, [(k, x)])), Settle(0));
            s'.slots == s.slots && Get(s'.spent, k) == Get(s.spent, k) + x
  {
    var d := [(k, x)];
    assert Affordable(limits, s.spent, d);
    ChargedGet(s.spent, d, k);
    OneCost(k, x);
    assert s.slots[0 := Some(d)][0 := None] == s.slots;
  }

  lemma {:induction false} SpendOneByOne(limits: Amounts, s: State, n: nat, k: string, x: real)
    requires s.slots != [] && s.slots[0] == None && x >= 0.0
    requires k in limits && Get(s.spent, k) + Times(n, x) <= limits[k]
    ensures var s' := Run(limits, s, OneByOne(n, [(k, x)]));
            s'.slots == s.slots && Get(s'.spent, k) == Get(s.spent, k) + Times(n, x)
  {
    if n > 0 {
      var d := [(k, x)];
      SpendOneByOne(limits, s, n - 1, k, x);
      CheckAndSettle(limits, Run(limits, s, OneByOne(n - 1, d)), k, x);
      RunOneMore(limits, s, OneByOne(n - 1, d), Check(0, d));
      RunOneMore(limits, s, OneByOne(n - 1, d) + [Check(0, d)], Settle(0));
    }
  }

  lemma PositiveFactor(a: real, b: real)
    requires a * b > 0.0 && b > 0.0
    ensures a > 0.0
  {
  }

  lemma ShareIsSmall(q: real, m: real, parts: real, share: real)
    requires m > 0.0 && 0.0 <= q < parts && share * parts == q * m
    ensures share <= m
  {
    var less, fewer := m - share, parts - q;
    assert fewer * m > 0.0;
    assert fewer * m == m * parts - q * m;
    assert less * parts == m * parts - share * parts;
    PositiveFactor(less, parts);
  }

  /** Any amount can be spent in equal shares of at most m. */
  lemma EqualShares(amount: real, m: real) returns (n: nat, share: real)
    requires amount >= 0.0 && m > 0.0
    ensures 0.0 <= share <= m && Times(n, share) == amount
  {
    var q := amount / m;
    assert q * m == amount;
    assert q >= 0.0;
    n := q.Floor + 1;
    var parts := n as real;
    share := amount / parts;
    assert share * parts == amount;
    assert share >= 0.0;
    ShareIsSmall(q, m, parts, share);
    TimesIsProduct(n, share);
  }

  lemma ModerateParts(steps: seq<Step>, steps': seq<Step>, m: real)
    requires ModerateSteps(steps, m) && ModerateSteps(steps', m)
    ensures ModerateSteps(steps + steps', m)
  {
  }

  lemma ModerateCosts(n: nat, k: string, x: real, m: real)
    requires 0.0 <= x <= m
    ensures ModerateSteps(ChecksOf(n, [(k, x)]) + SettlesOf(n), m) && ModerateSteps(OneByOne(n, [(k, x)]), m)
  {
    var d := [(k, x)];
    assert Moderate(d, m);
    forall s | (s in ChecksOf(n, d) + SettlesOf(n) || s in OneByOne(n, d)) && s.Check?
      ensures s.cost == d
    {
      OnlyThisCost(n, d, s);
    }
  }

  lemma SpendThenRace(limits: Amounts, spent: Amounts, p: nat, k: string, n: nat, share: real, c: real)
    requires p > 0 && k in limits && share >= 0.0
    requires c >= 0.0 && Get(spent, k) + Times(n, share) == limits[k] - c
    ensures var steps := OneByOne(n, [(k, share)]) + (ChecksOf(p, [(k, c)]) + SettlesOf(p));
            Get(Run(limits, State(spent, Free(p)), steps).spent, k) == limits[k] + Times(p - 1, c)
  {
    var s, d := State(spent, Free(p)), [(k, c)];
    SpendOneByOne(limits, s, n, k, share);
    var mid := Run(limits, s, OneByOne(n, [(k, share)]));
    assert Affordable(limits, mid.spent, d);
    CheckAllThenChargeAll(limits, mid.spent, p, d, k);
    OneCost(k, c);
    RunInTwo(limits, s, OneByOne(n, [(k, share)]), ChecksOf(p, d) + SettlesOf(p));
  }

  /** The bound cannot be improved, whatever the ceiling and whatever was spent: one worker
      spends, share by share, until just the dearest action still fits, and then all p
      workers check it before any of them is charged. */
  lemma OvershootIsReached(limits: Amounts, spent: Amounts, p: nat, m: real, k: string)
    requires p > 0 && m > 0.0
    requires k in limits && Get(spent, k) <= limits[k]
    ensures exists steps :: ModerateSteps(steps, m) && Get(Run(limits, State(spent, Free(p)), steps).spent, k)
              == limits[k] + Times(p - 1, Dearest(m, limits[k] - Get(spent, k)))
  {
    var left := limits[k] - Get(spent, k);
    var c := Dearest(m, left);
    var n, share := EqualShares(left - c, m);
    ModerateCosts(n, k, share, m);
    ModerateCosts(p, k, c, m);
    var alone, race := OneByOne(n, [(k, share)]), ChecksOf(p, [(k, c)]) + SettlesOf(p);
    ModerateParts(alone, race, m);
    SpendThenRace(limits, spent, p, k, n, share, c);
    assert ModerateSteps(alone + race, m);
  }

  /** Exactly when parallel agents keep a ceiling: when there is just one of them, when
      nothing costs anything, or when nothing was left from the start. */
  lemma CeilingKeptIff(limits: Amounts, spent: Amounts, p: nat, m: real, k: string)
    requires p > 0 && m >= 0.0
    requires k in limits && Get(spent, k) <= limits[k]
    ensures (forall steps :: ModerateSteps(steps, m) ==>
               Get(Run(limits, State(spent, Free(p)), steps).spent, k) <= limits[k])
            <==> p == 1 || m == 0.0 || Get(spent, k) == limits[k]
  {
    var c := Dearest(m, limits[k] - Get(spent, k));
    TimesIsProduct(p - 1, c);
    if p == 1 || c == 0.0 {
      forall steps | ModerateSteps(steps, m)
        ensures Get(Run(limits, State(spent, Free(p)), steps).spent, k) <= limits[k]
      {
        OvershootIsBounded(limits, spent, p, steps, m, k);
      }
    } else {
      OvershootIsReached(limits, spent, p, m, k);
      assert (p - 1) as real * c > 0.0;
    }
  }
}
