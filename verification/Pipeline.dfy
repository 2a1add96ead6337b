/** The agent: deliberate, gate, policy, preside, budget, execute (autarch/agent.py). The
    council, the presiding function, the adapters and the precedents may do anything. */
module Pipeline {
  import opened Prelude
  import opened Scoping
  import opened Delegation
  import opened Policy
  import opened Guarantees
  import opened SharedBudget

  datatype Decision = Ratify | Overrule | SendBack | Auto | Pending

  /** What one round of the council comes up with. */
  datatype Round = Round(motion: Option<Action>, approved: bool, disagreement: bool)

  /** What a run meets with, round by round: the council, whoever presides, and the
      precedents at that time. Another run of the same agent meets with others. */
  datatype Outside = Outside(
    council: nat -> Round,
    preside: (nat, Action, Gate, Effect) -> Decision,
    precedent: string -> Option<Decision>)

  /** The n-th call of an adapter may succeed or fail as it likes. */
  datatype Adapter = Adapter(normalize: Params -> Params, execute: (nat, Action) -> bool)

  /** An action that was handed to an adapter, and whether `run` or `enact` did it. */
  datatype Handed = Handed(action: Action, byRun: bool)

  /** How deliberation ends: with nothing to do, or with a ruling on one motion. */
  datatype Ruling = NoMotion | Ruled(action: Action, decision: Decision)

  datatype RunResult = RunResult(decision: Decision, executed: bool)

  class Agent {
    const lib: Lib
    const grants: seq<Grant>
    const rules: seq<Rule>
    const adapters: map<string, Adapter>
    const presided: bool     // a preside_fn was given
    const autoPreside: bool
    const maxRounds: nat
    const cost: Action -> Deltas
    const budget: Budget?
    const journaled: bool

    var finished: bool       // the journal holds a terminal entry for this run id
    var handed: seq<Handed>  // every call of an adapter's `execute`, in order

    ghost predicate Valid()
      reads this
    {
      maxRounds >= 1 && forall h :: h in handed ==>
        && Cleared(lib, grants, rules, h.action)
        && (h.byRun && !presided ==> autoPreside && Combined(rules, h.action) == Allow)
    }

    constructor (lib: Lib, grants: seq<Grant>, rules: seq<Rule>, adapters: map<string, Adapter>, presided: bool,
                 autoPreside: bool, maxRounds: int, cost: Action -> Deltas, budget: Budget?, journaled: bool)
      ensures Valid() && handed == [] && !finished
      ensures this.lib == lib && this.grants == grants && this.rules == rules && this.presided == presided
      ensures this.budget == budget && this.journaled == journaled && this.maxRounds >= 1
    {
      this.lib, this.grants, this.rules, this.adapters := lib, grants, rules, adapters;
      this.presided, this.autoPreside := presided, autoPreside;
      this.maxRounds := if maxRounds > 1 then maxRounds else 1;
      this.cost, this.budget, this.journaled := cost, budget, journaled;
      finished, handed := false, [];
    }

    /** Parameters are put into the adapter's own shape before anything is checked. */
    function Prepared(a: Action): Action {
      if a.capability in adapters then a.(params := adapters[a.capability].normalize(a.params)) else a
    }

    /** `_decide`. */
    function Decide(outside: Outside, index: nat, a: Action, gate: Gate, effect: Effect): Decision {
      if presided then outside.preside(index, a, gate, effect)
      else if !autoPreside then Pending
      else if !gate.allowed || effect == Deny then Overrule
      else if outside.precedent(a.capability) == Some(Overrule) || effect == RequireRatify then Overrule
      else if outside.council(index).approved && !outside.council(index).disagreement then Ratify
      else Overrule
    }

    /** The rounds of `run`: a motion that is sent back is reconsidered until the rounds
        are used up; then it counts as overruled. */
    function Deliberate(outside: Outside, index: nat): Ruling
      decreases maxRounds - index
    {
      var motion := outside.council(index).motion;
      if motion.None? then NoMotion
      else
        var a := Prepared(motion.value);
        var decision := Decide(outside, index, a, Authorize(lib, grants, a), Combined(rules, a));
        if decision != SendBack then Ruled(a, decision)
        else if index < maxRounds then Deliberate(outside, index + 1)
        else Ruled(a, Overrule)
    }

    // What a run is to do, said of the rounds themselves.

    /** The same action, with its parameters in the shape that the adapter for it uses. */
    ghost predicate InShape(raw: Action, a: Action) {
      && a.capability == raw.capability
      && a.params == if raw.capability in adapters then adapters[raw.capability].normalize(raw.params) else raw.params
    }

    /** The council brought this motion in that round. */
    ghost predicate Brought(outside: Outside, i: nat, a: Action) {
      outside.council(i).motion.Some? && InShape(outside.council(i).motion.value, a)
    }

    ghost function Answer(outside: Outside, i: nat, a: Action): Decision {
      outside.preside(i, a, Authorize(lib, grants, a), Combined(rules, a))
    }

    ghost predicate SentBack(outside: Outside, i: nat) {
      presided && exists a :: Brought(outside, i, a) && Answer(outside, i, a) == SendBack
    }

    /** Round i comes up: every round before it was sent back. */
    ghost predicate Reached(outside: Outside, i: nat) {
      1 <= i <= maxRounds && forall j :: 1 <= j < i ==> SentBack(outside, j)
    }

    /** Whoever presides said so; without anybody, presiding is automatic and neither the
        kernel, nor a policy, nor a precedent, nor a voice of the council is against it. */
    ghost predicate Ratified(outside: Outside, i: nat, a: Action) {
      if presided then Answer(outside, i, a) == Ratify
      else
        && autoPreside && outside.council(i).approved && !outside.council(i).disagreement
        && outside.precedent(a.capability) != Some(Overrule)
        && Authorize(lib, grants, a).allowed && Combined(rules, a) == Allow
    }

    ghost predicate Carried(outside: Outside, i: nat, a: Action) {
      Reached(outside, i) && Brought(outside, i, a) && Ratified(outside, i, a)
    }

    /** How the round that comes up last ends. */
    ghost predicate EndsWith(outside: Outside, i: nat, a: Action, d: Decision) {
      if SentBack(outside, i) then i == maxRounds && d == Overrule
      else if presided then d == Answer(outside, i, a)
      else if !autoPreside then d == Pending
      else d == if Ratified(outside, i, a) then Ratify else Overrule
    }

    /** Nothing but this is asked of an action that was ratified. */
    ghost predicate MayRun(a: Action)
      reads this, budget
    {
      && Authorize(lib, grants, a).allowed && Combined(rules, a) != Deny && a.capability in adapters
      && (budget != null ==>
        forall e :: e in cost(a) && e.0 in budget.limits ==> Get(budget.spent, e.0) + e.1 <= budget.limits[e.0])
    }

    lemma BroughtIsPrepared(outside: Outside, i: nat, a: Action)
      ensures Brought(outside, i, a) <==>
              outside.council(i).motion.Some? && a == Prepared(outside.council(i).motion.value)
    {
    }

    lemma DecideMeans(outside: Outside, i: nat, a: Action)
      requires Brought(outside, i, a)
      ensures var d := Decide(outside, i, a, Authorize(lib, grants, a), Combined(rules, a));
              && (d == SendBack <==> SentBack(outside, i))
              && (!SentBack(outside, i) ==> EndsWith(outside, i, a, d))
    {
      forall a' | Brought(outside, i, a')
        ensures a' == a
      {
        BroughtIsPrepared(outside, i, a');
        BroughtIsPrepared(outside, i, a);
      }
    }

    /** A deliberation ends in round i with that ruling. */
    ghost predicate Ends(outside: Outside, i: nat, ruling: Ruling) {
      && Reached(outside, i)
      && match ruling
         case NoMotion => outside.council(i).motion.None?
         case Ruled(a, d) => Brought(outside, i, a) && EndsWith(outside, i, a, d)
    }

    lemma {:induction false} DeliberateFrom(outside: Outside, index: nat) returns (i: nat)
      requires Reached(outside, index)
      ensures Ends(outside, i, Deliberate(outside, index))
      decreases maxRounds - index
    {
      i := index;
      if outside.council(index).motion.Some? {
        var a := Prepared(outside.council(index).motion.value);
        BroughtIsPrepared(outside, index, a);
        DecideMeans(outside, index, a);
        if SentBack(outside, index) && index < maxRounds {
          i := DeliberateFrom(outside, index + 1);
        }
      }
    }

    lemma EarlierIsSentBack(outside: Outside, i: nat, j: nat)
      requires Reached(outside, i) && Reached(outside, j) && i < j
      ensures SentBack(outside, i) && outside.council(i).motion.Some? && i < maxRounds
    {
    }

    lemma SameEnd(outside: Outside, i: nat, j: nat, one: Ruling, other: Ruling)
      requires Ends(outside, i, one) && Ends(outside, j, other)
      ensures i == j && one == other
    {
      if i < j {
        EarlierIsSentBack(outside, i, j);
      } else if j < i {
        EarlierIsSentBack(outside, j, i);
      } else if one.Ruled? && other.Ruled? {
        BroughtIsPrepared(outside, i, one.action);
        BroughtIsPrepared(outside, i, other.action);
      }
    }

    /** What a deliberation comes to, with nothing left open. */
    lemma RulingMeans(outside: Outside, ruling: Ruling)
      requires maxRounds >= 1
      ensures Deliberate(outside, 1) == ruling <==> exists i :: Ends(outside, i, ruling)
    {
      var i := DeliberateFrom(outside, 1);
      forall j | Ends(outside, j, ruling)
        ensures Deliberate(outside, 1) == ruling
      {
        SameEnd(outside, i, j, Deliberate(outside, 1), ruling);
      }
    }

    lemma CarriedMeans(outside: Outside, a: Action)
      requires maxRounds >= 1
      ensures Deliberate(outside, 1) == Ruled(a, Ratify) <==> exists i :: Carried(outside, i, a)
    {
      RulingMeans(outside, Ruled(a, Ratify));
      forall i
        ensures Ends(outside, i, Ruled(a, Ratify)) <==> Carried(outside, i, a)
      {
        if Brought(outside, i, a) {
          DecideMeans(outside, i, a);
        }
      }
    }

    lemma CarriedOnlyIfRuled(outside: Outside, ruling: Ruling)
      requires maxRounds >= 1 && ruling == Deliberate(outside, 1)
      ensures forall i, a :: Carried(outside, i, a) ==> ruling == Ruled(a, Ratify)
      ensures ruling.Ruled? && ruling.decision == Ratify ==> exists i :: Carried(outside, i, ruling.action)
    {
      forall i, a | Carried(outside, i, a)
        ensures ruling == Ruled(a, Ratify)
      {
        CarriedMeans(outside, a);
      }
      if ruling.Ruled? {
        CarriedMeans(outside, ruling.action);
      }
    }

    /** A run whose every round is sent back carries nothing. */
    lemma SentBackCarriesNothing(outside: Outside, i: nat, a: Action)
      requires forall j :: 1 <= j <= maxRounds ==> SentBack(outside, j)
      ensures !Carried(outside, i, a)
    {
      if Brought(outside, i, a) {
        DecideMeans(outside, i, a);
      }
    }

    method CheckBudget(a: Action) returns (ok: bool)
      ensures ok <==> budget != null ==>
                forall e :: e in cost(a) && e.0 in budget.limits ==> Get(budget.spent, e.0) + e.1 <= budget.limits[e.0]
    {
      if budget == null {
        return true;
      }
      var breach := budget.WouldExceed(cost(a));
      return breach.None?;
    }

    /** Hand a cleared action to its adapter; only an action that ran is charged. */
    method Execute(a: Action, byRun: bool) returns (executed: bool)
      requires Valid() && Cleared(lib, grants, rules, a)
      requires byRun && !presided ==> autoPreside && Combined(rules, a) == Allow
      modifies this`handed, if budget == null then {} else {budget}
      ensures Valid()
      ensures handed == old(handed) + if a.capability in adapters then [Handed(a, byRun)] else []
      ensures executed <==> a.capability in adapters && adapters[a.capability].execute(old(|handed|), a)
      ensures budget != null && !executed ==> budget.spent == old(budget.spent)
      ensures budget != null && executed ==>
              forall k :: Get(budget.spent, k) == Get(old(budget.spent), k) + Cost(cost(a), k)
    {
      if a.capability !in adapters {
        return false;
      }
      executed := adapters[a.capability].execute(|handed|, a);
      handed := handed + [Handed(a, byRun)];
      if executed && budget != null {
        budget.Charge(cost(a));
      }
    }

    /** The loop of `run`. */
    method RunRounds(outside: Outside) returns (ruling: Ruling)
      requires maxRounds >= 1
      ensures ruling == Deliberate(outside, 1)
      ensures exists i :: Ends(outside, i, ruling)
      ensures forall i, a :: Carried(outside, i, a) ==> ruling == Ruled(a, Ratify)
      ensures ruling.Ruled? && ruling.decision == Ratify ==> exists i :: Carried(outside, i, ruling.action)
    {
      ghost var last := DeliberateFrom(outside, 1);
      CarriedOnlyIfRuled(outside, Deliberate(outside, 1));
      var index := 1;
      while true
        invariant Deliberate(outside, 1) == Deliberate(outside, index)
        decreases maxRounds - index
      {
        var round := outside.council(index);
        if round.motion.None? {
          return NoMotion;
        }
        var motion := Prepared(round.motion.value);
        var gate := Authorize(lib, grants, motion);
        var effect := Combined(rules, motion);
        var decision := Decide(outside, index, motion, gate, effect);
        if decision != SendBack {
          return Ruled(motion, decision);
        }
        if index >= maxRounds {
          return Ruled(motion, Overrule);
        }
        index := index + 1;
      }
    }

    /** What was handed over by one run or enactment, and what it cost. */
    ghost predicate Did(was: seq<Handed>, spent: Amounts, a: Action, byRun: bool, executed: bool)
      reads this, budget
    {
      && handed == was + [Handed(a, byRun)]
      && (executed <==> a.capability in adapters && adapters[a.capability].execute(|was|, a))
      && (budget != null ==>
        forall k :: Get(budget.spent, k) == Get(spent, k) + if executed then Cost(cost(a), k) else 0.0)
    }

    ghost predicate DidNothing(was: seq<Handed>, spent: Amounts, executed: bool)
      reads this, budget
    {
      handed == was && !executed && (budget != null ==> budget.spent == spent)
    }

    ghost function Spent(): Amounts
      reads this, budget
    {
      if budget == null then map[] else budget.spent
    }

    /** What `run` and `enact` do with an action that was ratified. */
    method Carry(a: Action, byRun: bool) returns (executed: bool)
      requires Valid() && (byRun && !presided ==> autoPreside && Combined(rules, a) == Allow)
      modifies this`handed, if budget == null then {} else {budget}
      ensures Valid()
      ensures if old(MayRun(a)) then Did(old(handed), old(Spent()), a, byRun, executed)
              else DidNothing(old(handed), old(Spent()), executed)
    {
      var gate := Authorize(lib, grants, a);
      var effect := Combined(rules, a);
      var affordable := CheckBudget(a);
      executed := false;
      if gate.allowed && effect != Deny && affordable {
        executed := Execute(a, byRun);
      }
    }

    /** `run`: at most one action reaches the world, and it does so exactly when a round
        that came up carried it, the kernel allows it, no policy denies it and the budget
        holds. A run id that already completed is not executed again. */
    method Run(outside: Outside) returns (r: RunResult)
      requires Valid()
      modifies this`handed, this`finished, if budget == null then {} else {budget}
      ensures Valid()
      ensures old(finished) ==> DidNothing(old(handed), old(Spent()), r.executed)
      ensures !old(finished) ==> forall i, a :: Carried(outside, i, a) && old(MayRun(a)) ==>
                Did(old(handed), old(Spent()), a, true, r.executed)
      ensures !old(finished) && (forall i, a :: Carried(outside, i, a) ==> !old(MayRun(a))) ==>
                DidNothing(old(handed), old(Spent()), r.executed)
      ensures !old(finished) ==>
                exists i, ruling :: Ends(outside, i, ruling)
                  && r.decision == if ruling.NoMotion? then Auto else ruling.decision
      ensures finished <==> journaled || old(finished)
    {
      if finished {
        return RunResult(Auto, false);
      }
      var ruling := RunRounds(outside);
      var executed := false;
      if ruling.Ruled? && ruling.decision == Ratify {
        executed := Carry(ruling.action, true);
      }
      finished := journaled;
      return RunResult(if ruling.NoMotion? then Auto else ruling.decision, executed);
    }

    /** `enact`: the caller commands a known action, which counts as ratification; the
        kernel, the policies and the budget still dispose. */
    method Enact(command: Action) returns (r: RunResult)
      requires Valid()
      modifies this`handed, this`finished, if budget == null then {} else {budget}
      ensures Valid()
      ensures old(finished) ==> DidNothing(old(handed), old(Spent()), r.executed)
      ensures !old(finished) ==> r.decision == Ratify && forall a :: InShape(command, a) ==>
                if old(MayRun(a)) then Did(old(handed), old(Spent()), a, false, r.executed)
                else DidNothing(old(handed), old(Spent()), r.executed)
      ensures finished <==> journaled || old(finished)
    {
      if finished {
        return RunResult(Auto, false);
      }
      var executed := Carry(Prepared(command), false);
      finished := journaled;
      return RunResult(Ratify, executed);
    }
  }

  // The proofs of the static prover hold of everything an agent ever does: `Valid` is
  // what every `run` and `enact` keeps, in any number and order.

  /** forbid(C) proved: no run and no enactment ever executes C. */
  lemma ForbiddenNeverExecutes(agent: Agent, inv: Invariant, h: Handed)
    requires agent.Valid() && h in agent.handed
    requires inv.kind == Forbid && Verify(inv, agent.grants, agent.rules).holds
    ensures h.action.capability != inv.capability
  {
    if h.action.capability == inv.capability {
      ForbidSound(agent.lib, inv, agent.grants, agent.rules, h.action);
    }
  }

  /** confine(C, p) proved: every executed C has its path and destination inside p. */
  lemma ConfinedStaysInside(agent: Agent, inv: Invariant, h: Handed)
    requires agent.Valid() && h in agent.handed
    requires inv.kind == Confine && Verify(inv, agent.grants, agent.rules).holds
    ensures h.action.capability == inv.capability ==>
            PathPrefixOk(agent.lib, inv.pathPrefix.GetOr(""), h.action.params)
  {
    if h.action.capability == inv.capability {
      ConfineSound(agent.lib, inv, agent.grants, agent.rules, h.action);
    }
  }

  /** require_approval(C) proved: without a presiding function `run` never executes C. */
  lemma ApprovalIsNeverSkipped(agent: Agent, inv: Invariant, h: Handed)
    requires agent.Valid() && h in agent.handed && h.byRun && !agent.presided
    requires inv.kind == RequireApproval && Verify(inv, agent.grants, agent.rules).holds
    ensures h.action.capability != inv.capability
  {
    if h.action.capability == inv.capability {
      RequireApprovalSound(agent.lib, inv, agent.grants, agent.rules, h.action);
    }
  }

  /** The proof made for a parent covers every descendant: if the parent's forbid(C) is
      proved, no agent spawned below it under the same policies ever executes C. */
  lemma ForbiddenInTheWholeTree(lib: Lib, parentGrants: seq<Grant>, line: seq<Spawn>, agent: Agent, inv: Invariant,
          h: Handed)
    requires agent.Valid() && h in agent.handed
    requires agent.grants == Descendant(lib, parentGrants, line)
    ensures inv.kind == Forbid && Verify(inv, parentGrants, agent.rules).holds ==>
            h.action.capability != inv.capability
  {
    if inv.kind == Forbid && Verify(inv, parentGrants, agent.rules).holds {
      GuaranteesAreInherited(lib, [inv], parentGrants, agent.rules, line);
      assert inv in [inv];
      ForbiddenNeverExecutes(agent, inv, h);
    }
  }

  /** And with confine(C, p) proved of the parent, no descendant leaves p. */
  lemma ConfinedInTheWholeTree(lib: Lib, parentGrants: seq<Grant>, line: seq<Spawn>, agent: Agent, inv: Invariant,
          h: Handed)
    requires agent.Valid() && h in agent.handed
    requires agent.grants == Descendant(lib, parentGrants, line)
    ensures inv.kind == Confine && Verify(inv, parentGrants, agent.rules).holds
            && h.action.capability == inv.capability ==>
            PathPrefixOk(agent.lib, inv.pathPrefix.GetOr(""), h.action.params)
  {
    if inv.kind == Confine && Verify(inv, parentGrants, agent.rules).holds {
      GuaranteesAreInherited(lib, [inv], parentGrants, agent.rules, line);
      assert inv in [inv];
      ConfinedStaysInside(agent, inv, h);
    }
  }

  /** And with require_approval(C) proved of the parent, no descendant's `run` executes C
      without a presiding function. */
  lemma ApprovalInTheWholeTree(lib: Lib, parentGrants: seq<Grant>, line: seq<Spawn>, agent: Agent, inv: Invariant,
          h: Handed)
    requires agent.Valid() && h in agent.handed && h.byRun && !agent.presided
    requires agent.grants == Descendant(lib, parentGrants, line)
    ensures inv.kind == RequireApproval && Verify(inv, parentGrants, agent.rules).holds ==>
            h.action.capability != inv.capability
  {
    if inv.kind == RequireApproval && Verify(inv, parentGrants, agent.rules).holds {
      GuaranteesAreInherited(lib, [inv], parentGrants, agent.rules, line);
      assert inv in [inv];
      ApprovalIsNeverSkipped(agent, inv, h);
    }
  }
}
