/** Policy-as-code: how the policies that match an action combine (autarch/policy.py). */
module Policy {
  import opened Prelude
  import opened Scoping
  import opened Delegation
  import opened Kernel

  datatype Effect = Allow | RequireRatify | Deny

  function Strictness(e: Effect): nat {
    match e
    case Allow => 0
    case RequireRatify => 1
    case Deny => 2
  }

  /** `when` is an optional predicate on the parameters; None as its answer stands for a
      predicate that raised. */
  datatype Rule = Rule(name: string, effect: Effect, capability: string, when: Option<Params -> Option<bool>>,
    reason: string)

  /** `_capability_matches`. */
  predicate CapabilityMatches(pattern: string, capability: string) {
    pattern == "*" || Matches(pattern, capability)
  }

  /** `Policy.matches`: a faulty predicate is no match. */
  predicate Applies(rule: Rule, a: Action) {
    CapabilityMatches(rule.capability, a.capability) && (rule.when.Some? ==> rule.when.value(a.params) == Some(true))
  }

  function Combined(rules: seq<Rule>, a: Action): Effect {
    if rules == [] then Allow
    else
      var before, last := Combined(rules[..|rules| - 1], a), rules[|rules| - 1];
      if Applies(last, a) && Strictness(last.effect) > Strictness(before) then last.effect else before
  }

  datatype PolicyDecision = PolicyDecision(effect: Effect, reasons: seq<string>, applied: seq<string>)

  function AppliedNames(rules: seq<Rule>, a: Action): seq<string> {
    if rules == [] then []
    else
      var last := rules[|rules| - 1];
      AppliedNames(rules[..|rules| - 1], a) + if Applies(last, a) then [last.name] else []
  }

  function Reasons(rules: seq<Rule>, a: Action): seq<string> {
    if rules == [] then []
    else
      var last := rules[|rules| - 1];
      Reasons(rules[..|rules| - 1], a) + if Applies(last, a) && last.reason != "" then [last.reason] else []
  }

  /** The combined effect is the strictest effect among the policies that apply. */
  lemma {:induction false} CombinedIsStrictest(rules: seq<Rule>, a: Action)
    ensures forall i :: 0 <= i < |rules| && Applies(rules[i], a) ==>
            Strictness(rules[i].effect) <= Strictness(Combined(rules, a))
    ensures Combined(rules, a) == Allow ||
            exists i :: 0 <= i < |rules| && Applies(rules[i], a) && rules[i].effect == Combined(rules, a)
  {
    if rules != [] {
      var init := rules[..|rules| - 1];
      CombinedIsStrictest(init, a);
      if Combined(init, a) == Combined(rules, a) && Combined(init, a) != Allow {
        var i :| 0 <= i < |init| && Applies(init[i], a) && init[i].effect == Combined(init, a);
        assert rules[i] == init[i];
      }
    }
  }

  // What a policy says of an action, and what the engine makes of all of them.

  /** The policy names the action, and its predicate, if it has one, says yes. */
  ghost predicate InForce(rule: Rule, a: Action) {
    (rule.capability == "*" || Names(rule.capability, a.capability)) &&
    match rule.when
    case None => true
    case Some(predicate') => predicate'(a.params) == Some(true)
  }

  lemma AppliesMeans(rule: Rule, a: Action)
    ensures Applies(rule, a) <==> InForce(rule, a)
  {
    MatchesMeans(rule.capability, a.capability);
  }

  ghost predicate SomeInForce(rules: seq<Rule>, a: Action, effect: Effect) {
    exists i :: 0 <= i < |rules| && InForce(rules[i], a) && rules[i].effect == effect
  }

  /** A denial wins over everything, and a demand for approval over everything else. */
  lemma CombinedMeans(rules: seq<Rule>, a: Action)
    ensures Combined(rules, a) == Deny <==> SomeInForce(rules, a, Deny)
    ensures Combined(rules, a) == RequireRatify <==>
            SomeInForce(rules, a, RequireRatify) && !SomeInForce(rules, a, Deny)
  {
    CombinedIsStrictest(rules, a);
    forall i | 0 <= i < |rules|
      ensures Applies(rules[i], a) <==> InForce(rules[i], a)
    {
      AppliesMeans(rules[i], a);
    }
  }

  ghost predicate Speaks(rule: Rule, a: Action, withReason: bool) {
    InForce(rule, a) && (withReason ==> rule.reason != "")
  }

  /** The places of the policies in force - of those with a reason only - in their order. */
  ghost predicate Places(rules: seq<Rule>, a: Action, withReason: bool, at: seq<nat>) {
    && (forall k, l :: 0 <= k < l < |at| ==> at[k] < at[l])
    && (forall i :: i in at <==> 0 <= i < |rules| && Speaks(rules[i], a, withReason))
  }

  ghost predicate NamesAt(rules: seq<Rule>, at: seq<nat>, names: seq<string>) {
    |names| == |at| && forall k :: 0 <= k < |at| ==> at[k] < |rules| && names[k] == rules[at[k]].name
  }

  ghost predicate ReasonsAt(rules: seq<Rule>, at: seq<nat>, reasons: seq<string>) {
    |reasons| == |at| && forall k :: 0 <= k < |at| ==> at[k] < |rules| && reasons[k] == rules[at[k]].reason
  }

  lemma OneMorePlace(rules: seq<Rule>, rule: Rule, a: Action, withReason: bool, at: seq<nat>)
    requires Places(rules, a, withReason, at)
    ensures Places(rules + [rule], a, withReason, if Speaks(rule, a, withReason) then at + [|rules|] else at)
  {
    assert forall i :: 0 <= i < |rules| ==> (rules + [rule])[i] == rules[i];
    assert forall k :: 0 <= k < |at| ==> at[k] in at;
  }

  lemma OneMoreName(rules: seq<Rule>, rule: Rule, at: seq<nat>, names: seq<string>)
    requires NamesAt(rules, at, names)
    ensures NamesAt(rules + [rule], at, names) && NamesAt(rules + [rule], at + [|rules|], names + [rule.name])
  {
  }

  lemma OneMoreReason(rules: seq<Rule>, rule: Rule, at: seq<nat>, reasons: seq<string>)
    requires ReasonsAt(rules, at, reasons)
    ensures ReasonsAt(rules + [rule], at, reasons) && ReasonsAt(rules + [rule], at + [|rules|], reasons + [rule.reason])
  {
  }

  /** The names reported are those of the policies in force, in their order. */
  lemma {:induction false} NamesInOrder(rules: seq<Rule>, a: Action) returns (at: seq<nat>)
    ensures Places(rules, a, false, at) && NamesAt(rules, at, AppliedNames(rules, a))
  {
    at := [];
    if rules != [] {
      var init, last := rules[..|rules| - 1], rules[|rules| - 1];
      assert rules == init + [last];
      at := NamesInOrder(init, a);
      AppliesMeans(last, a);
      OneMorePlace(init, last, a, false, at);
      OneMoreName(init, last, at, AppliedNames(init, a));
      at := if InForce(last, a) then at + [|init|] else at;
    }
  }

  /** And the reasons are theirs, as far as they give any. */
  lemma {:induction false} ReasonsInOrder(rules: seq<Rule>, a: Action) returns (at: seq<nat>)
    ensures Places(rules, a, true, at) && ReasonsAt(rules, at, Reasons(rules, a))
  {
    at := [];
    if rules != [] {
      var init, last := rules[..|rules| - 1], rules[|rules| - 1];
      assert rules == init + [last];
      at := ReasonsInOrder(init, a);
      AppliesMeans(last, a);
      OneMorePlace(init, last, a, true, at);
      OneMoreReason(init, last, at, Reasons(init, a));
      at := if Speaks(last, a, true) then at + [|init|] else at;
    }
  }

  class PolicyEngine {
    const rules: seq<Rule>

    constructor (rules: seq<Rule>)
      ensures this.rules == rules
    {
      this.rules := rules;
    }

    method Evaluate(a: Action) returns (d: PolicyDecision)
      ensures d == PolicyDecision(Combined(rules, a), Reasons(rules, a), AppliedNames(rules, a))
      ensures d.effect == Deny <==> SomeInForce(rules, a, Deny)
      ensures d.effect == RequireRatify <==> SomeInForce(rules, a, RequireRatify) && !SomeInForce(rules, a, Deny)
      ensures exists at :: Places(rules, a, false, at) && NamesAt(rules, at, d.applied)
      ensures exists given :: Places(rules, a, true, given) && ReasonsAt(rules, given, d.reasons)
    {
      d := PolicyDecision(Allow, [], []);
      var i := 0;
      while i < |rules|
        invariant 0 <= i <= |rules|
        invariant d == PolicyDecision(Combined(rules[..i], a), Reasons(rules[..i], a), AppliedNames(rules[..i], a))
      {
        var rule := rules[i];
        assert rules[..i + 1][..i] == rules[..i];
        i := i + 1;
        if !Applies(rule, a) {
          continue;
        }
        d := d.(applied := d.applied + [rule.name]);
        if Strictness(rule.effect) > Strictness(d.effect) {
          d := d.(effect := rule.effect);
        }
        if rule.reason != "" {
          d := d.(reasons := d.reasons + [rule.reason]);
        }
      }
      assert rules[..i] == rules;
      CombinedMeans(rules, a);
      ghost var at := NamesInOrder(rules, a);
      ghost var given := ReasonsInOrder(rules, a);
    }
  }
}
