/** The static prover, and what it takes to preserve what it proved
    (autarch/guarantees.py, autarch/rbac.py). */
module Guarantees {
  import opened Prelude
  import opened Scoping
  import opened Delegation
  import opened Policy
  import Paths
  import Kernel

  datatype Kind = Forbid | RequireApproval | Confine | Unknown(name: string)

  datatype Invariant = Invariant(kind: Kind, capability: string, pathPrefix: Option<string>)

  /** A failed proof names the grant that can get through. */
  datatype Proof = Proof(holds: bool, counterexample: string)

  /** `_matching_grants`. */
  function MatchingGrants(grants: seq<Grant>, capability: string): (m: seq<Grant>)
    ensures forall g :: g in m <==> g in grants && Matches(g.name, capability)
  {
    if grants == [] then []
    else
      var rest, last := MatchingGrants(grants[..|grants| - 1], capability), grants[|grants| - 1];
      if Matches(last.name, capability) then rest + [last] else rest
  }

  /** They keep the order of the list, each as often as it stands there. */
  lemma {:induction false} MatchingKeepsOrder(grants: seq<Grant>, capability: string, k: nat)
    requires k <= |grants|
    ensures MatchingGrants(grants[..k], capability) <= MatchingGrants(grants, capability)
    ensures forall g :: multiset(MatchingGrants(grants, capability))[g]
                        == if Matches(g.name, capability) then multiset(grants)[g] else 0
    decreases |grants|
  {
    if grants != [] {
      var init, last := grants[..|grants| - 1], grants[|grants| - 1];
      assert grants == init + [last];
      MultisetAppend(init, last);
      MultisetAppend(MatchingGrants(init, capability), last);
      MatchingKeepsOrder(init, capability, if k < |grants| then k else |init|);
      if k < |grants| {
        assert init[..k] == grants[..k];
      } else {
        assert grants[..k] == grants;
      }
    } else {
      assert grants[..k] == grants;
    }
  }

  /** `_unconditional_block`: conditional policies are never relied upon. */
  predicate Blocked(rules: seq<Rule>, capability: string, least: Effect) {
    exists i :: 0 <= i < |rules| && rules[i].when.None? && Strictness(rules[i].effect) >= Strictness(least)
                && CapabilityMatches(rules[i].capability, capability)
  }

  predicate Confined(prefix: string, g: Grant) {
    g.scope.pathPrefix.Some? && Paths.PathWithin(prefix, g.scope.pathPrefix.value)
  }

  function FirstUnconfined(prefix: string, grants: seq<Grant>): (g: Option<Grant>)
    ensures g.None? <==> forall x :: x in grants ==> Confined(prefix, x)
    ensures g.Some? ==> g.value in grants && !Confined(prefix, g.value)
  {
    if grants == [] then None
    else if !Confined(prefix, grants[0]) then Some(grants[0])
    else FirstUnconfined(prefix, grants[1..])
  }

  /** `_verify`. */
  function Verify(inv: Invariant, grants: seq<Grant>, rules: seq<Rule>): Proof {
    var matching := MatchingGrants(grants, inv.capability);
    match inv.kind
    case Forbid =>
      if matching == [] || Blocked(rules, inv.capability, Deny) then Proof(true, "") else Proof(false, matching[0].name)
    case RequireApproval =>
      if matching == [] || Blocked(rules, inv.capability, RequireRatify) then Proof(true, "")
      else Proof(false, matching[0].name)
    case Confine =>
      if matching == [] || Blocked(rules, inv.capability, Deny) then Proof(true, "")
      else
        var open := FirstUnconfined(inv.pathPrefix.GetOr(""), matching);
        if open.None? then Proof(true, "") else Proof(false, open.value.name)
    case Unknown(_) => Proof(false, "")
  }

  /** A failed proof names a grant that can get through: one that matches the capability,
      and for a confinement one that is not confined. */
  lemma CounterexampleGetsThrough(inv: Invariant, grants: seq<Grant>, rules: seq<Rule>)
    requires !inv.kind.Unknown? && !Verify(inv, grants, rules).holds
    ensures exists g :: g in grants && Matches(g.name, inv.capability)
              && g.name == Verify(inv, grants, rules).counterexample
              && (inv.kind == Confine ==> !Confined(inv.pathPrefix.GetOr(""), g))
  {
    var matching := MatchingGrants(grants, inv.capability);
    if inv.kind != Confine {
      assert matching[0] in matching;
    }
  }

  lemma UnknownIsNeverProved(inv: Invariant, grants: seq<Grant>, rules: seq<Rule>)
    requires inv.kind.Unknown?
    ensures !Verify(inv, grants, rules).holds
  {
  }

  ghost predicate AllHold(invs: seq<Invariant>, grants: seq<Grant>, rules: seq<Rule>) {
    forall inv :: inv in invs ==> Verify(inv, grants, rules).holds
  }

  // -------------------------------------------------------------------- soundness

  /** What every action that reaches an adapter has passed: the kernel, and no denial. */
  predicate Cleared(lib: Lib, grants: seq<Grant>, rules: seq<Rule>, a: Action) {
    Authorize(lib, grants, a).allowed && Combined(rules, a) != Deny
  }

  lemma BlockedMeans(rules: seq<Rule>, a: Action, least: Effect)
    requires Blocked(rules, a.capability, least)
    ensures Strictness(Combined(rules, a)) >= Strictness(least)
  {
    CombinedIsStrictest(rules, a);
    var i :| 0 <= i < |rules| && rules[i].when.None? && Strictness(rules[i].effect) >= Strictness(least)
             && CapabilityMatches(rules[i].capability, a.capability);
    assert Applies(rules[i], a);
  }

  /** A policy that denies "*" whatever the parameters leaves nothing that clears, and one
      that asks for a person's approval of "*" leaves nothing to automatic ratification. */
  lemma StarCoversAll(lib: Lib, grants: seq<Grant>, rules: seq<Rule>, i: nat, a: Action)
    requires i < |rules| && rules[i].capability == "*" && rules[i].when.None?
    ensures rules[i].effect == Deny ==> !Cleared(lib, grants, rules, a)
    ensures rules[i].effect == RequireRatify ==> Combined(rules, a) != Allow
  {
    CombinedIsStrictest(rules, a);
    assert Applies(rules[i], a);
  }

  /** forbid(C) proved: no action named C is ever cleared, whatever its parameters. */
  lemma ForbidSound(lib: Lib, inv: Invariant, grants: seq<Grant>, rules: seq<Rule>, a: Action)
    requires inv.kind == Forbid && Verify(inv, grants, rules).holds && a.capability == inv.capability
    ensures !Cleared(lib, grants, rules, a)
  {
    if Cleared(lib, grants, rules, a) {
      var g := Authorize(lib, grants, a).grant.value;
      assert g in MatchingGrants(grants, inv.capability);
      BlockedMeans(rules, a, Deny);
    }
  }

  /** require_approval(C) proved: policy leaves no C that auto-presiding may ratify. */
  lemma RequireApprovalSound(lib: Lib, inv: Invariant, grants: seq<Grant>, rules: seq<Rule>, a: Action)
    requires inv.kind == RequireApproval && Verify(inv, grants, rules).holds && a.capability == inv.capability
    ensures !(Cleared(lib, grants, rules, a) && Combined(rules, a) == Allow)
  {
    if Cleared(lib, grants, rules, a) && Combined(rules, a) == Allow {
      var g := Authorize(lib, grants, a).grant.value;
      assert g in MatchingGrants(grants, inv.capability);
      BlockedMeans(rules, a, RequireRatify);
    }
  }

  /** confine(C, p) proved: every cleared C has `path` and `dest` inside p. */
  lemma ConfineSound(lib: Lib, inv: Invariant, grants: seq<Grant>, rules: seq<Rule>, a: Action)
    requires inv.kind == Confine && Verify(inv, grants, rules).holds && a.capability == inv.capability
    requires Cleared(lib, grants, rules, a)
    ensures PathPrefixOk(lib, inv.pathPrefix.GetOr(""), a.params)
  {
    var g := Authorize(lib, grants, a).grant.value;
    var matching := MatchingGrants(grants, inv.capability);
    assert g in matching;
    if Blocked(rules, inv.capability, Deny) {
      BlockedMeans(rules, a, Deny);
      assert false;
    }
    assert Confined(inv.pathPrefix.GetOr(""), g);
    PathNarrows(lib, inv.pathPrefix.GetOr(""), g.scope.pathPrefix.value, a.params);
  }

  predicate Unconditional(rules: seq<Rule>) {
    forall i :: 0 <= i < |rules| ==> rules[i].when.None?
  }

  /** Where nothing is conditional the prover is also complete: if it fails to prove
      forbid(C), the first grant for C clears any C action within its scope. */
  lemma ForbidComplete(lib: Lib, inv: Invariant, grants: seq<Grant>, rules: seq<Rule>, a: Action)
    requires inv.kind == Forbid && a.capability == inv.capability
    requires Unconditional(rules) && Authorize(lib, grants, a).allowed
    ensures Verify(inv, grants, rules).holds <==> !Cleared(lib, grants, rules, a)
  {
    if Verify(inv, grants, rules).holds {
      ForbidSound(lib, inv, grants, rules, a);
    } else {
      CombinedIsStrictest(rules, a);
    }
  }

  /** So it is for require_approval(C): unproved, any C action the kernel allows is one that
      auto-presiding may ratify. */
  lemma RequireApprovalComplete(lib: Lib, inv: Invariant, grants: seq<Grant>, rules: seq<Rule>, a: Action)
    requires inv.kind == RequireApproval && a.capability == inv.capability && Unconditional(rules)
    requires Authorize(lib, grants, a).allowed
    ensures Verify(inv, grants, rules).holds <==> Combined(rules, a) != Allow
  {
    if Verify(inv, grants, rules).holds {
      RequireApprovalSound(lib, inv, grants, rules, a);
    } else {
      assert MatchingGrants(grants, inv.capability) != [];
      CombinedIsStrictest(rules, a);
    }
  }

  lemma BlockedIff(rules: seq<Rule>, a: Action, least: Effect)
    requires Unconditional(rules) && least != Allow
    ensures Blocked(rules, a.capability, least) <==> Strictness(Combined(rules, a)) >= Strictness(least)
  {
    CombinedIsStrictest(rules, a);
    if Blocked(rules, a.capability, least) {
      BlockedMeans(rules, a, least);
    }
  }

  /** The grant's own path scope lets this path pass. */
  predicate LetsPass(g: Grant, path: string) {
    g.scope.pathPrefix.Some? ==> Paths.PathAccepted(g.scope.pathPrefix.value, path)
  }

  /** Its path scope, if any, is relative and does not go up, so that it lets itself pass. */
  ghost predicate RelativeScope(g: Grant) {
    g.scope.pathPrefix.Some? ==>
      !Paths.IsAbs(g.scope.pathPrefix.value) && !Paths.GoesUp(Paths.Parse(g.scope.pathPrefix.value))
  }

  lemma ConfinedIff(prefix: string, g: Grant)
    requires RelativeScope(g)
    ensures Confined(prefix, g) <==> forall path :: LetsPass(g, path) ==> Paths.PathAccepted(prefix, path)
  {
    if g.scope.pathPrefix.Some? {
      var own := g.scope.pathPrefix.value;
      Paths.PathWithinIsInclusion(prefix, own);
      assert forall path :: LetsPass(g, path) <==> Paths.PathAccepted(own, path);
    } else {
      Paths.PathAcceptedMeans(prefix, "/");
      assert Paths.Parse("/").abs;
      assert LetsPass(g, "/") && !Paths.PathAccepted(prefix, "/");
    }
  }

  /** And confine(C, p) is proved exactly when C is denied whatever its parameters or no
      grant that matches C has a path scope that lets a path outside p pass. */
  lemma ConfineComplete(inv: Invariant, grants: seq<Grant>, rules: seq<Rule>, a: Action)
    requires inv.kind == Confine && a.capability == inv.capability && Unconditional(rules)
    requires forall g :: g in grants && Matches(g.name, inv.capability) ==> RelativeScope(g)
    ensures Verify(inv, grants, rules).holds <==>
            Combined(rules, a) == Deny ||
            forall g, path :: g in grants && Matches(g.name, inv.capability) && LetsPass(g, path) ==>
              Paths.PathAccepted(inv.pathPrefix.GetOr(""), path)
  {
    var prefix, matching := inv.pathPrefix.GetOr(""), MatchingGrants(grants, inv.capability);
    BlockedIff(rules, a, Deny);
    forall g | g in matching
      ensures Confined(prefix, g) <==> forall path :: LetsPass(g, path) ==> Paths.PathAccepted(prefix, path)
    {
      ConfinedIff(prefix, g);
    }
    if matching == [] {
      assert forall g :: g in grants && Matches(g.name, inv.capability) ==> g in matching;
    }
  }

  // ------------------------------------------------------------------ preservation

  /** Every grant of the child is, for the prover, no more than some grant of the parent:
      it matches no further name, and it is confined wherever that grant is. */
  ghost predicate Narrows(parents: seq<Grant>, children: seq<Grant>) {
    forall c :: c in children ==> exists p :: p in parents && Under(p, c)
  }

  ghost predicate Under(p: Grant, c: Grant) {
    && (forall capability :: Matches(c.name, capability) ==> Matches(p.name, capability))
    && (forall prefix :: Confined(prefix, p) ==> Confined(prefix, c))
  }

  lemma MatchingNarrows(parents: seq<Grant>, children: seq<Grant>, capability: string)
    requires Narrows(parents, children)
    ensures Narrows(MatchingGrants(parents, capability), MatchingGrants(children, capability))
    ensures MatchingGrants(parents, capability) == [] ==> MatchingGrants(children, capability) == []
  {
    var mine := MatchingGrants(children, capability);
    forall c | c in mine
      ensures exists p :: p in MatchingGrants(parents, capability) && Under(p, c)
    {
      var p :| p in parents && Under(p, c);
      assert p in MatchingGrants(parents, capability);
    }
    if mine != [] {
      assert mine[0] in mine;
    }
  }

  lemma NarrowingKeepsProof(inv: Invariant, parents: seq<Grant>, children: seq<Grant>, rules: seq<Rule>)
    requires Verify(inv, parents, rules).holds && Narrows(parents, children)
    ensures Verify(inv, children, rules).holds
  {
    MatchingNarrows(parents, children, inv.capability);
    if inv.kind == Confine && FirstUnconfined(inv.pathPrefix.GetOr(""), MatchingGrants(parents, inv.capability)).None? {
      forall c | c in MatchingGrants(children, inv.capability)
        ensures Confined(inv.pathPrefix.GetOr(""), c)
      {
        var p :| p in MatchingGrants(parents, inv.capability) && Under(p, c);
      }
    }
  }

  lemma AttenuatedIsUnder(lib: Lib, p: Grant, request: Grant)
    requires Attenuate(lib, p, request).Some?
    ensures Under(p, Attenuate(lib, p, request).value)
  {
    var c := Attenuate(lib, p, request).value;
    forall capability | Matches(c.name, capability)
      ensures Matches(p.name, capability)
    {
      NameWithinNarrows(p.name, c.name, capability);
    }
    forall prefix | Confined(prefix, p)
      ensures Confined(prefix, c)
    {
      if request.scope.pathPrefix.Some? {
        Paths.PathWithinTransitive(prefix, p.scope.pathPrefix.value, request.scope.pathPrefix.value);
      }
    }
  }

  lemma DelegationNarrows(lib: Lib, parents: seq<Grant>, requested: seq<Grant>)
    ensures Narrows(parents, Granted(lib, parents, requested))
  {
    forall c | c in Granted(lib, parents, requested)
      ensures exists p :: p in parents && Under(p, c)
    {
      var i, request := GrantedOrigin(lib, parents, requested, c);
      AttenuatedIsUnder(lib, parents[i], request);
    }
  }

  // --------------------------------------------------------------------------- RBAC

  /** A principal, as the grantable patterns of each of its roles; a role name without
      an entry in the registry confers nothing and is left out. */
  type Roles = seq<seq<string>>

  predicate CanGrant(roles: Roles, capability: string) {
    exists i, j :: 0 <= i < |roles| && 0 <= j < |roles[i]| && CapabilityMatches(roles[i][j], capability)
  }

  function Permitted(roles: Roles, grants: seq<Grant>): (allowed: seq<Grant>)
    ensures forall g :: g in allowed <==> g in grants && CanGrant(roles, g.name)
  {
    if grants == [] then []
    else
      var rest, last := Permitted(roles, grants[..|grants| - 1]), grants[|grants| - 1];
      if CanGrant(roles, last.name) then rest + [last] else rest
  }

  function Refused(roles: Roles, grants: seq<Grant>): (denied: seq<Grant>)
    ensures forall g :: g in denied <==> g in grants && !CanGrant(roles, g.name)
  {
    if grants == [] then []
    else
      var rest, last := Refused(roles, grants[..|grants| - 1]), grants[|grants| - 1];
      if CanGrant(roles, last.name) then rest else rest + [last]
  }

  lemma MultisetAppend(grants: seq<Grant>, g: Grant)
    ensures multiset(grants + [g]) == multiset(grants) + multiset{g}
  {
  }

  lemma LastGrantIsSorted(roles: Roles, init: seq<Grant>, last: Grant)
    ensures var one := multiset{last};
            if CanGrant(roles, last.name) then
              && multiset(Permitted(roles, init + [last])) == multiset(Permitted(roles, init)) + one
              && Refused(roles, init + [last]) == Refused(roles, init)
            else
              && Permitted(roles, init + [last]) == Permitted(roles, init)
              && multiset(Refused(roles, init + [last])) == multiset(Refused(roles, init)) + one
  {
    assert (init + [last])[..|init|] == init;
    MultisetAppend(Permitted(roles, init), last);
    MultisetAppend(Refused(roles, init), last);
  }

  lemma {:induction false} NoGrantIsLost(roles: Roles, grants: seq<Grant>)
    ensures multiset(Permitted(roles, grants)) + multiset(Refused(roles, grants)) == multiset(grants)
  {
    if grants != [] {
      var init, last := grants[..|grants| - 1], grants[|grants| - 1];
      assert grants == init + [last];
      NoGrantIsLost(roles, init);
      LastGrantIsSorted(roles, init, last);
      MultisetAppend(init, last);
    }
  }

  /** `authorize_grants`: no grant is lost, and exactly those a role permits are allowed. */
  method AuthorizeGrants(roles: Roles, grants: seq<Grant>) returns (allowed: seq<Grant>, denied: seq<Grant>)
    ensures allowed == Permitted(roles, grants) && denied == Refused(roles, grants)
    ensures multiset(allowed) + multiset(denied) == multiset(grants)
  {
    allowed, denied := [], [];
    var i := 0;
    while i < |grants|
      invariant 0 <= i <= |grants|
      invariant allowed == Permitted(roles, grants[..i]) && denied == Refused(roles, grants[..i])
    {
      var grant := grants[i];
      assert grants[..i + 1][..i] == grants[..i];
      if CanGrant(roles, grant.name) {
        allowed := allowed + [grant];
      } else {
        denied := denied + [grant];
      }
      i := i + 1;
    }
    assert grants[..i] == grants;
    NoGrantIsLost(roles, grants);
  }

  lemma FilteringNarrows(roles: Roles, grants: seq<Grant>)
    ensures Narrows(grants, Permitted(roles, grants))
  {
    forall c | c in Permitted(roles, grants)
      ensures exists p :: p in grants && Under(p, c)
    {
      assert Under(c, c);
    }
  }

  // --------------------------------------------------------------- any depth of spawn

  /** One `spawn`: the request is attenuated under the parent's grants; when the agent
      has a principal, the result is also filtered by its roles. */
  datatype Spawn = Spawn(requested: seq<Grant>, principal: Option<Roles>)

  function ChildGrants(lib: Lib, grants: seq<Grant>, s: Spawn): seq<Grant> {
    var granted := Granted(lib, grants, s.requested);
    if s.principal.Some? then Permitted(s.principal.value, granted) else granted
  }

  function Descendant(lib: Lib, grants: seq<Grant>, line: seq<Spawn>): seq<Grant> {
    if line == [] then grants
    else ChildGrants(lib, Descendant(lib, grants, line[..|line| - 1]), line[|line| - 1])
  }

  /** A pattern of one of the roles covers the capability. */
  lemma CanGrantIff(roles: Roles, capability: string)
    ensures CanGrant(roles, capability) <==>
            exists role, pattern ::
              role in roles && pattern in role && (pattern == "*" || Kernel.Names(pattern, capability))
  {
    forall pattern
      ensures CapabilityMatches(pattern, capability) <==> pattern == "*" || Kernel.Names(pattern, capability)
    {
      Kernel.MatchesMeans(pattern, capability);
    }
    forall i, j | 0 <= i < |roles| && 0 <= j < |roles[i]|
      ensures roles[i] in roles && roles[i][j] in roles[i]
    {
    }
  }

  /** What a spawned agent gets: a request attenuated under the first parent grant that covers
      it, and with a principal only what one of its roles may grant. */
  lemma ChildGrantsMean(lib: Lib, grants: seq<Grant>, s: Spawn, g: Grant)
    ensures g in ChildGrants(lib, grants, s) <==>
            && (exists r :: r in s.requested && AttenuateUnder(lib, grants, r) == Some(g))
            && (s.principal.Some? ==> CanGrant(s.principal.value, g.name))
  {
    GrantedMeans(lib, grants, s.requested, g);
  }

  lemma {:induction false} GrantedMeans(lib: Lib, grants: seq<Grant>, requested: seq<Grant>, g: Grant)
    ensures g in Granted(lib, grants, requested) <==>
            exists r :: r in requested && AttenuateUnder(lib, grants, r) == Some(g)
  {
    if requested != [] {
      var init, last := requested[..|requested| - 1], requested[|requested| - 1];
      assert requested == init + [last];
      GrantedMeans(lib, grants, init, g);
      var got := AttenuateUnder(lib, grants, last);
      assert Granted(lib, grants, requested) == Granted(lib, grants, init) + if got.Some? then [got.value] else [];
      assert g in Granted(lib, grants, requested) <==> g in Granted(lib, grants, init) || got == Some(g);
      if got == Some(g) {
        assert last in requested && AttenuateUnder(lib, grants, last) == Some(g);
      }
    }
  }

  /** Whatever is proved of an agent's grants is proved again of every descendant it can
      spawn under the inherited policies, at any depth and with any requests. */
  lemma {:induction false} GuaranteesAreInherited(lib: Lib, invs: seq<Invariant>, grants: seq<Grant>,
          rules: seq<Rule>, line: seq<Spawn>)
    requires AllHold(invs, grants, rules)
    ensures AllHold(invs, Descendant(lib, grants, line), rules)
    decreases |line|
  {
    if line != [] {
      var parent, last := Descendant(lib, grants, line[..|line| - 1]), line[|line| - 1];
      GuaranteesAreInherited(lib, invs, grants, rules, line[..|line| - 1]);
      var granted := Granted(lib, parent, last.requested);
      DelegationNarrows(lib, parent, last.requested);
      if last.principal.Some? {
        FilteringNarrows(last.principal.value, granted);
      }
      forall inv | inv in invs
        ensures Verify(inv, ChildGrants(lib, parent, last), rules).holds
      {
        NarrowingKeepsProof(inv, parent, granted, rules);
        if last.principal.Some? {
          NarrowingKeepsProof(inv, granted, ChildGrants(lib, parent, last), rules);
        }
      }
    }
  }
}
