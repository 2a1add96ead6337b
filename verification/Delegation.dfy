/** Grants, the first-match kernel, and attenuation (autarch/contracts.py,
    autarch/kernel.py, autarch/delegation.py). */
module Delegation {
  import opened Prelude
  import opened Scoping
  import Paths

  datatype Grant = Grant(name: string, scope: Scope, limits: Limits, depth: nat, delegatedFrom: string)

  datatype Action = Action(capability: string, params: Params)

  predicate IsWildcard(name: string) {
    |name| >= 2 && name[|name| - 2..] == ".*"
  }

  /** `CapabilityGrant.matches`: exact, or a trailing wildcard such as "file.*". */
  predicate Matches(name: string, capability: string) {
    name == capability || (IsWildcard(name) && name[..|name| - 1] <= capability)
  }

  predicate Accepts(lib: Lib, g: Grant, a: Action) {
    Matches(g.name, a.capability) && Evaluate(lib, g.scope, g.limits, a.params)
  }

  /** The kernel's verdict, with the grant that decided it. */
  datatype Gate = Gate(allowed: bool, grant: Option<Grant>)

  /** None of the first n grants matches the name. */
  predicate NoneMatches(grants: seq<Grant>, n: nat, capability: string)
    requires n <= |grants|
  {
    forall j :: 0 <= j < n ==> !Matches(grants[j].name, capability)
  }

  /** The place of the first grant that matches, or the length. */
  function FirstMatch(grants: seq<Grant>, capability: string): (i: nat)
    ensures i <= |grants| && NoneMatches(grants, i, capability)
    ensures i < |grants| ==> Matches(grants[i].name, capability)
  {
    if grants == [] || Matches(grants[0].name, capability) then 0 else 1 + FirstMatch(grants[1..], capability)
  }

  /** `CapabilityKernel.authorize`: the first grant whose name matches decides, for good
      or ill; without one the action is denied. */
  function Authorize(lib: Lib, grants: seq<Grant>, a: Action): (gate: Gate)
    ensures gate.grant.None? <==> NoneMatches(grants, |grants|, a.capability)
    ensures gate.grant.None? ==> !gate.allowed
    ensures gate.grant.Some? ==>
              var i := FirstMatch(grants, a.capability);
              && i < |grants| && gate.grant.value == grants[i]
              && (gate.allowed <==> Accepts(lib, grants[i], a))
  {
    if grants == [] then Gate(false, None)
    else if Matches(grants[0].name, a.capability) then
      Gate(Evaluate(lib, grants[0].scope, grants[0].limits, a.params), Some(grants[0]))
    else Authorize(lib, grants[1..], a)
  }

  /** An action passes exactly when some grant accepts it and no grant before that one
      matches its name. */
  lemma FirstMatchDecides(lib: Lib, grants: seq<Grant>, a: Action)
    ensures Authorize(lib, grants, a).allowed <==>
              exists i :: 0 <= i < |grants| && Accepts(lib, grants[i], a) && NoneMatches(grants, i, a.capability)
  {
    var first := FirstMatch(grants, a.capability);
    forall i | 0 <= i < |grants| && Accepts(lib, grants[i], a) && NoneMatches(grants, i, a.capability)
      ensures i == first
    {
    }
  }

  // ------------------------------------------------------------------ attenuation

  /** `_name_within`. */
  predicate NameWithin(parent: string, child: string) {
    parent == child ||
    (IsWildcard(parent) && parent[..|parent| - 1] <= if IsWildcard(child) then child[..|child| - 1] else child)
  }

  /** A name within another matches no capability the other does not. */
  lemma NameWithinNarrows(parent: string, child: string, capability: string)
    requires NameWithin(parent, child) && Matches(child, capability)
    ensures Matches(parent, capability)
  {
    if parent != child {
      var prefix := parent[..|parent| - 1];
      var target := if IsWildcard(child) then child[..|child| - 1] else child;
      assert prefix <= target <= child;
      if child != capability {
        assert target <= capability;
      }
    }
  }

  predicate ScopeFits(lib: Lib, parent: Scope, child: Scope) {
    && (parent.pathPrefix.Some? && child.pathPrefix.Some? ==>
          Paths.PathWithin(parent.pathPrefix.value, child.pathPrefix.value))
    && (parent.hosts.Some? && child.hosts.Some? ==> HostSubset(lib, parent.hosts.value, child.hosts.value))
    && (parent.ports.Some? && child.ports.Some? ==> PortSubset(parent.ports.value, child.ports.value))
    && (parent.enums.Some? && child.enums.Some? ==> EnumsShrink(parent.enums.value, child.enums.value))
    && (forall k :: k in parent.metadata && k in child.metadata ==> parent.metadata[k] == child.metadata[k])
  }

  function MergeEnums(parent: Option<map<string, seq<Value>>>, child: Option<map<string, seq<Value>>>)
    : Option<map<string, seq<Value>>>
  {
    if parent.Some? && child.Some? then Some(parent.value + child.value) else Inherit(parent, child)
  }

  /** `_scope_within`: prohibitions and patterns of the child replace the parent's. */
  function MergeScope(parent: Scope, child: Scope): Scope {
    Scope(Inherit(parent.pathPrefix, child.pathPrefix), Inherit(parent.hosts, child.hosts),
          Inherit(parent.ports, child.ports), MergeEnums(parent.enums, child.enums),
          Inherit(parent.regex, child.regex), Inherit(parent.substrings, child.substrings),
          Inherit(parent.dataClasses, child.dataClasses), parent.metadata + child.metadata)
  }

  predicate LimitFits(parent: Limits, child: Limits, k: string)
    requires k in child
  {
    Limit(parent, k).Some? ==> child[k].Some? && !Over(child[k].value, Limit(parent, k).value)
  }

  predicate LimitsFit(parent: Limits, child: Limits) {
    forall k :: k in child ==> LimitFits(parent, child, k)
  }

  /** `_limits_within`, with its loop over the child's limits. */
  method LimitsWithin(parent: Limits, child: Limits) returns (merged: Option<Limits>)
    ensures merged == if LimitsFit(parent, child) then Some(parent + child) else None
  {
    var m := parent;
    var todo := child.Keys;
    while todo != {}
      invariant LimitsSoFar(parent, child, todo, m)
      decreases |todo|
    {
      var k :| k in todo;
      if !LimitFits(parent, child, k) {
        return None;
      }
      LimitsOneMore(parent, child, todo, m, k);
      m := m[k := child[k]];
      todo := todo - {k};
    }
    LimitsComplete(parent, child, m);
    return Some(m);
  }

  ghost predicate LimitsSoFar(parent: Limits, child: Limits, todo: set<string>, m: Limits) {
    && todo <= child.Keys && m.Keys == parent.Keys + (child.Keys - todo)
    && (forall k :: k in m ==> m[k] == if k in child && k !in todo then child[k] else parent[k])
    && (forall k :: k in child && k !in todo ==> LimitFits(parent, child, k))
  }

  lemma LimitsOneMore(parent: Limits, child: Limits, todo: set<string>, m: Limits, k: string)
    requires LimitsSoFar(parent, child, todo, m) && k in child && LimitFits(parent, child, k)
    ensures LimitsSoFar(parent, child, todo - {k}, m[k := child[k]])
  {
  }

  lemma LimitsComplete(parent: Limits, child: Limits, m: Limits)
    requires LimitsSoFar(parent, child, {}, m)
    ensures m == parent + child && LimitsFit(parent, child)
  {
  }

  /** `attenuate_grant`; None is the ValueError. An empty name asks for the parent's. */
  function Attenuate(lib: Lib, parent: Grant, request: Grant): Option<Grant> {
    var name := if request.name == "" then parent.name else request.name;
    if NameWithin(parent.name, name) && ScopeFits(lib, parent.scope, request.scope)
      && LimitsFit(parent.limits, request.limits)
    then
      var scope := MergeScope(parent.scope, request.scope);
      Some(Grant(name, scope, parent.limits + request.limits, parent.depth + 1, parent.name))
    else None
  }

  // ------------------------------------------------------------------- soundness

  /** What a request must respect for the narrowing to be real. Each part is the exact
      condition that module Scoping gives for its key: an allowlist is not emptied, every
      forbidden text and data class stays covered, a text that passes the child's pattern
      for a parameter passes the parent's, and a limit is not set to NaN. */
  ghost predicate RespectsParent(lib: Lib, parent: Grant, request: Grant) {
    RespectsScope(lib, parent.scope, request.scope) && RespectsLimits(parent.limits, request.limits)
  }

  ghost predicate RespectsLimits(parent: Limits, child: Limits) {
    RespectsLimit(parent, child, "max_bytes") && RespectsLimit(parent, child, "amount_max")
    && RespectsLimit(parent, child, "count_max")
  }

  predicate RespectsLimit(parent: Limits, child: Limits, k: string) {
    Limit(parent, k).Some? && Limit(child, k).Some? ==>
      CeilingLowered(Limit(parent, k).value, Limit(child, k).value)
  }

  ghost predicate RespectsScope(lib: Lib, parent: Scope, child: Scope) {
    && (parent.hosts.Some? && child.hosts.Some? && parent.hosts.value != [] ==> child.hosts.value != [])
    && (parent.ports.Some? && child.ports.Some? && parent.ports.value != [] ==> child.ports.value != [])
    && (parent.regex.Some? && child.regex.Some? ==> PatternsNarrow(lib, parent.regex.value, child.regex.value))
    && (parent.substrings.Some? && child.substrings.Some? ==>
      CoversSubstrings(parent.substrings.value, child.substrings.value))
    && (parent.dataClasses.Some? && child.dataClasses.Some? ==>
          Lowered(lib, parent.dataClasses.value) <= Lowered(lib, child.dataClasses.value))
  }

  lemma PathNarrows(lib: Lib, parent: string, child: string, params: Params)
    requires Paths.PathWithin(parent, child) && PathPrefixOk(lib, child, params)
    ensures PathPrefixOk(lib, parent, params)
  {
    forall key | key in PATH_PARAMS && Param(params, key) != Nil
      ensures Paths.PathAccepted(parent, Str(lib, Param(params, key)))
    {
      Paths.WiderPrefixAccepts(parent, child, Str(lib, Param(params, key)));
    }
  }

  lemma AllowlistsNarrow(lib: Lib, parent: Scope, child: Scope, params: Params)
    requires ScopeFits(lib, parent, child) && RespectsScope(lib, parent, child)
    ensures var m := MergeScope(parent, child);
            && (parent.hosts.Some? && HostListOk(lib, m.hosts.value, params) ==>
              HostListOk(lib, parent.hosts.value, params))
            && (parent.ports.Some? && PortListOk(lib, m.ports.value, params) ==>
              PortListOk(lib, parent.ports.value, params))
  {
    if parent.hosts.Some? && child.hosts.Some? {
      forall v | v != Nil && HostOk(lib, child.hosts.value, v)
        ensures HostOk(lib, parent.hosts.value, v)
      {
      }
    }
    if parent.ports.Some? && child.ports.Some? {
      forall port | PortOk(child.ports.value, port)
        ensures PortOk(parent.ports.value, port)
      {
        if port.Some? {
          var n: int := port.value;
          assert n in child.ports.value && n in parent.ports.value;
        }
      }
    }
  }

  lemma ProhibitionsNarrow(lib: Lib, parent: Scope, child: Scope, params: Params)
    requires RespectsScope(lib, parent, child)
    ensures var m := MergeScope(parent, child);
            && (parent.regex.Some? && RegexOk(lib, m.regex.value, params) ==> RegexOk(lib, parent.regex.value, params))
            && (parent.substrings.Some? && SubstringsOk(lib, m.substrings.value, params) ==>
              SubstringsOk(lib, parent.substrings.value, params))
            && (parent.dataClasses.Some? && ClassListOk(lib, m.dataClasses.value, params) ==>
              ClassListOk(lib, parent.dataClasses.value, params))
  {
    if parent.regex.Some? && child.regex.Some? {
      RegexReplacementSoundIff(lib, parent.regex.value, child.regex.value);
    }
    if parent.substrings.Some? && child.substrings.Some? {
      SubstringReplacementSoundIff(lib, parent.substrings.value, child.substrings.value);
    }
    if parent.dataClasses.Some? && child.dataClasses.Some? && parent.dataClasses.value != [] {
      assert lib.lower(parent.dataClasses.value[0]) in Lowered(lib, parent.dataClasses.value);
      assert child.dataClasses.value != [];
    }
  }

  /** The merged limit of this key stops whatever the parent's stops. */
  lemma LimitNarrows(parent: Limits, child: Limits, k: string)
    requires LimitsFit(parent, child) && RespectsLimit(parent, child, k) && Limit(parent, k).Some?
    ensures Limit(parent + child, k).Some?
    ensures forall x :: !Over(x, Limit(parent + child, k).value) ==> !Over(x, Limit(parent, k).value)
  {
    if k in child {
      assert LimitFits(parent, child, k);
      CeilingReplacementSoundIff(Limit(parent, k).value, Limit(child, k).value);
    }
  }

  lemma LimitsNarrow(lib: Lib, parent: Limits, child: Limits, params: Params)
    requires LimitsFit(parent, child) && RespectsLimits(parent, child) && LimitsOk(lib, parent + child, params)
    ensures LimitsOk(lib, parent, params)
  {
    if Limit(parent, "max_bytes").Some? {
      LimitNarrows(parent, child, "max_bytes");
    }
    if Limit(parent, "amount_max").Some? {
      LimitNarrows(parent, child, "amount_max");
    }
    if Limit(parent, "count_max").Some? {
      LimitNarrows(parent, child, "count_max");
    }
  }

  lemma ScopeNarrows(lib: Lib, parent: Scope, child: Scope, limits: Limits, params: Params)
    requires ScopeFits(lib, parent, child) && RespectsScope(lib, parent, child)
    requires Evaluate(lib, MergeScope(parent, child), limits, params)
    ensures Evaluate(lib, parent, limits, params)
  {
    AllowlistsNarrow(lib, parent, child, params);
    ProhibitionsNarrow(lib, parent, child, params);
    if parent.pathPrefix.Some? && child.pathPrefix.Some? {
      PathNarrows(lib, parent.pathPrefix.value, child.pathPrefix.value, params);
    }
    if parent.enums.Some? && child.enums.Some? {
      EnumNarrowingSound(parent.enums.value, child.enums.value, params);
    }
  }

  /** Attenuation is sound: whatever the child accepts, the parent grant it came from
      accepts - for every action, scope, limit and every behaviour of the parsers. */
  lemma AttenuationSound(lib: Lib, parent: Grant, request: Grant, a: Action)
    requires Attenuate(lib, parent, request).Some? && RespectsParent(lib, parent, request)
    requires Accepts(lib, Attenuate(lib, parent, request).value, a)
    ensures Accepts(lib, parent, a)
  {
    var child := Attenuate(lib, parent, request).value;
    NameWithinNarrows(parent.name, child.name, a.capability);
    ScopeNarrows(lib, parent.scope, request.scope, child.limits, a.params);
    LimitsNarrow(lib, parent.limits, request.limits, a.params);
  }

  /** A line of delegation: each grant was attenuated from the one before. */
  ghost predicate Lineage(lib: Lib, line: seq<Grant>, requests: seq<Grant>) {
    |line| == |requests| + 1 && forall i :: 0 <= i < |requests| ==> Descends(lib, line, requests, i)
  }

  ghost predicate Descends(lib: Lib, line: seq<Grant>, requests: seq<Grant>, i: nat)
    requires i < |requests| && |line| == |requests| + 1
  {
    Attenuate(lib, line[i], requests[i]) == Some(line[i + 1]) && RespectsParent(lib, line[i], requests[i])
  }

  lemma LineagePrefix(lib: Lib, line: seq<Grant>, requests: seq<Grant>, n: nat)
    requires Lineage(lib, line, requests) && n <= |requests|
    ensures Lineage(lib, line[..n + 1], requests[..n])
  {
    var line', requests' := line[..n + 1], requests[..n];
    forall i | 0 <= i < n
      ensures Descends(lib, line', requests', i)
    {
      assert Descends(lib, line, requests, i);
    }
  }

  /** Soundness at any depth of delegation. */
  lemma {:induction false} AttenuationSoundAtAnyDepth(lib: Lib, line: seq<Grant>, requests: seq<Grant>, a: Action)
    requires Lineage(lib, line, requests) && Accepts(lib, line[|line| - 1], a)
    ensures Accepts(lib, line[0], a)
    ensures line[|line| - 1].depth == line[0].depth + |requests|
    decreases |requests|
  {
    if requests != [] {
      var n := |requests| - 1;
      assert Descends(lib, line, requests, n);
      AttenuationSound(lib, line[n], requests[n], a);
      LineagePrefix(lib, line, requests, n);
      AttenuationSoundAtAnyDepth(lib, line[..n + 1], requests[..n], a);
    }
  }

  const NO_SCOPE := Scope(None, None, None, None, None, None, None, map[])

  /** The hypothesis is needed: dropping a prohibition is granted as a narrowing although
      the child then does what its parent may not. */
  lemma DroppedProhibitionWidens(lib: Lib)
    ensures exists parent, request, child, a ::
              Attenuate(lib, parent, request) == Some(child) && Accepts(lib, child, a) && !Accepts(lib, parent, a)
              && parent.scope.substrings.Some?
  {
    var guarded := Grant("mail", NO_SCOPE.(substrings := Some(map["body" := ["secret"]])), map[], 0, "");
    var loose := Grant("mail", NO_SCOPE.(substrings := Some(map[])), map[], 0, "");
    var leak := Action("mail", map["body" := Text("secret")]);
    assert "secret"[0..6] == "secret";
    assert Occurs("secret", "secret");
    assert Param(leak.params, "body") == Text("secret") && "secret" in ["secret"];
    assert Occurs("secret", Str(lib, Param(leak.params, "body")));
    assert guarded.scope.substrings.value["body"] == ["secret"];
    assert !SubstringsOk(lib, guarded.scope.substrings.value, leak.params);
    assert Accepts(lib, Attenuate(lib, guarded, loose).value, leak);
  }

  /** And so is emptying an allowlist. */
  lemma EmptiedAllowlistWidens(lib: Lib)
    requires lib.host("evil") == Some("evil") && lib.lower("evil") != lib.lower("good")
    ensures exists parent, request, child, a ::
              Attenuate(lib, parent, request) == Some(child) && Accepts(lib, child, a) && !Accepts(lib, parent, a)
              && parent.scope.hosts.Some?
  {
    var listed := Grant("net", NO_SCOPE.(hosts := Some(["good"])), map[], 0, "");
    var open := Grant("net", NO_SCOPE.(hosts := Some([])), map[], 0, "");
    var call := Action("net", map["host" := Text("evil")]);
    assert HOST_PARAMS[0] == "host" && Param(call.params, "host") == Text("evil");
    assert !HostOk(lib, ["good"], Text("evil"));
    assert !HostsOk(lib, ["good"], call.params);
    assert HostSubset(lib, ["good"], []);
    assert Accepts(lib, Attenuate(lib, listed, open).value, call);
  }

  /** And so is a limit that is not a number: no ceiling is greater than it, and no amount. */
  lemma NaNLimitWidens(lib: Lib)
    requires lib.toFloat(Number(Fin(9.0))) == Some(Fin(9.0))
    ensures exists parent, request, child, a ::
              Attenuate(lib, parent, request) == Some(child) && Accepts(lib, child, a) && !Accepts(lib, parent, a)
              && Limit(parent.limits, "amount_max") == Some(Fin(5.0))
  {
    var capped := Grant("pay", NO_SCOPE, map["amount_max" := Some(Fin(5.0))], 0, "");
    var odd := Grant("pay", NO_SCOPE, map["amount_max" := Some(NaN)], 0, "");
    var pay := Action("pay", map["amount" := Number(Fin(9.0))]);
    assert AMOUNT_PARAMS[0] == "amount" && "amount" in AMOUNT_PARAMS;
    assert !NumericMaxOk(lib, AMOUNT_PARAMS, Fin(5.0), pay.params);
    assert (capped.limits + odd.limits)["amount_max"] == Some(NaN);
    assert Accepts(lib, Attenuate(lib, capped, odd).value, pay);
  }

  // --------------------------------------------------------------------- delegation

  /** No grant among the first n covers the request. */
  predicate NoneCovers(lib: Lib, parents: seq<Grant>, n: nat, request: Grant)
    requires n <= |parents|
  {
    forall j :: 0 <= j < n ==> Attenuate(lib, parents[j], request).None?
  }

  /** The i-th grant covers the request, and no grant before it does. */
  predicate Covers(lib: Lib, parents: seq<Grant>, i: nat, request: Grant, child: Option<Grant>)
    requires i < |parents|
  {
    Attenuate(lib, parents[i], request) == child && NoneCovers(lib, parents, i, request)
  }

  /** `attenuate_under`: the first parent grant that can cover the request. */
  function AttenuateUnder(lib: Lib, parents: seq<Grant>, request: Grant): (child: Option<Grant>)
    ensures child.Some? ==> exists i :: 0 <= i < |parents| && Covers(lib, parents, i, request, child)
    ensures child.None? ==> NoneCovers(lib, parents, |parents|, request)
  {
    if parents == [] then None
    else if Attenuate(lib, parents[0], request).Some? then
      assert Covers(lib, parents, 0, request, Attenuate(lib, parents[0], request));
      Attenuate(lib, parents[0], request)
    else
      var child := AttenuateUnder(lib, parents[1..], request);
      assert child.Some? ==>
        var j :| 0 <= j < |parents| - 1 && Covers(lib, parents[1..], j, request, child);
        Covers(lib, parents, j + 1, request, child);
      child
  }

  function Granted(lib: Lib, parents: seq<Grant>, requested: seq<Grant>): seq<Grant> {
    if requested == [] then []
    else
      var last := AttenuateUnder(lib, parents, requested[|requested| - 1]);
      Granted(lib, parents, requested[..|requested| - 1]) + if last.Some? then [last.value] else []
  }

  function Dropped(lib: Lib, parents: seq<Grant>, requested: seq<Grant>): seq<Grant> {
    if requested == [] then []
    else
      var last := requested[|requested| - 1];
      var before := Dropped(lib, parents, requested[..|requested| - 1]);
      if AttenuateUnder(lib, parents, last).None? then before + [last] else before
  }

  /** `delegate`: what no parent grant can cover is dropped. */
  method Delegate(lib: Lib, parents: seq<Grant>, requested: seq<Grant>)
    returns (granted: seq<Grant>, dropped: seq<Grant>)
    ensures granted == Granted(lib, parents, requested) && dropped == Dropped(lib, parents, requested)
  {
    granted, dropped := [], [];
    var i := 0;
    while i < |requested|
      invariant 0 <= i <= |requested|
      invariant granted == Granted(lib, parents, requested[..i]) && dropped == Dropped(lib, parents, requested[..i])
    {
      assert requested[..i + 1][..i] == requested[..i];
      var child := AttenuateUnder(lib, parents, requested[i]);
      if child.None? {
        dropped := dropped + [requested[i]];
      } else {
        granted := granted + [child.value];
      }
      i := i + 1;
    }
    assert requested[..i] == requested;
  }

  /** Every request is answered one way or the other, and only what no parent grant
      covers is dropped. */
  lemma {:induction false} NothingElseIsDropped(lib: Lib, parents: seq<Grant>, requested: seq<Grant>)
    ensures |Granted(lib, parents, requested)| + |Dropped(lib, parents, requested)| == |requested|
    ensures forall r :: r in Dropped(lib, parents, requested) <==>
            r in requested && AttenuateUnder(lib, parents, r).None?
  {
    if requested != [] {
      var init, last := requested[..|requested| - 1], requested[|requested| - 1];
      assert requested == init + [last];
      NothingElseIsDropped(lib, parents, init);
    }
  }

  /** The request is answered under the i-th grant. */
  predicate FirstCovers(lib: Lib, parents: seq<Grant>, i: nat, request: Grant)
    requires i < |parents|
  {
    Attenuate(lib, parents[i], request).Some? && NoneCovers(lib, parents, i, request)
  }

  lemma {:induction false} GrantedOrigin(lib: Lib, parents: seq<Grant>, requested: seq<Grant>, g: Grant)
    returns (i: nat, request: Grant)
    requires g in Granted(lib, parents, requested)
    ensures i < |parents| && request in requested
    ensures FirstCovers(lib, parents, i, request) && Attenuate(lib, parents[i], request) == Some(g)
  {
    var init, last := requested[..|requested| - 1], requested[|requested| - 1];
    if g in Granted(lib, parents, init) {
      i, request := GrantedOrigin(lib, parents, init, g);
    } else {
      request := last;
      var k: nat :| k < |parents| && Covers(lib, parents, k, request, Some(g));
      i := k;
    }
  }

  /** Each request respects the grant it is answered under. */
  ghost predicate RequestsRespect(lib: Lib, parents: seq<Grant>, requested: seq<Grant>) {
    forall i, r :: 0 <= i < |parents| && r in requested && FirstCovers(lib, parents, i, r) ==>
      RespectsParent(lib, parents[i], r)
  }

  lemma AcceptingParent(lib: Lib, parents: seq<Grant>, requested: seq<Grant>, a: Action) returns (i: nat)
    requires RequestsRespect(lib, parents, requested)
    requires Authorize(lib, Granted(lib, parents, requested), a).allowed
    ensures i < |parents| && Accepts(lib, parents[i], a)
  {
    var g := Authorize(lib, Granted(lib, parents, requested), a).grant.value;
    var k, request := GrantedOrigin(lib, parents, requested, g);
    i := k;
    AttenuationSound(lib, parents[i], request, a);
  }

  /** A delegated agent's kernel lets nothing through that no parent grant accepts. */
  lemma DelegationSound(lib: Lib, parents: seq<Grant>, requested: seq<Grant>, a: Action)
    requires RequestsRespect(lib, parents, requested)
    requires Authorize(lib, Granted(lib, parents, requested), a).allowed
    ensures exists p :: p in parents && Accepts(lib, p, a)
  {
    var i := AcceptingParent(lib, parents, requested, a);
    assert parents[i] in parents;
  }

  lemma RespectsItself(lib: Lib, g: Grant)
    ensures RespectsParent(lib, g, g)
  {
    if g.scope.substrings.Some? {
      var spec := g.scope.substrings.value;
      forall p, n | p in spec && n in spec[p]
        ensures SubstringCovered(spec, p, n)
      {
        assert n[0..|n|] == n;
        assert Occurs(n, n);
      }
    }
  }

  lemma HandedDownUnchanged(lib: Lib, g: Grant)
    requires Attenuate(lib, g, g).Some?
    ensures var child := Attenuate(lib, g, g).value;
            child.name == g.name && child.scope == g.scope && child.limits == g.limits
  {
    assert MergeScope(g.scope, g.scope).metadata == g.scope.metadata;
    assert g.scope.enums.Some? ==> g.scope.enums.value + g.scope.enums.value == g.scope.enums.value;
  }

  /** A grant that its own kernel would not let decide is handed down, and then decides. */
  lemma HandDown(lib: Lib, parents: seq<Grant>, i: nat, a: Action)
    requires i < |parents| && FirstCovers(lib, parents, i, parents[i]) && Accepts(lib, parents[i], a)
    ensures RequestsRespect(lib, parents, [parents[i]])
    ensures Authorize(lib, Granted(lib, parents, [parents[i]]), a).allowed
  {
    var g := parents[i];
    RespectsItself(lib, g);
    forall j, r | 0 <= j < |parents| && r in [g] && FirstCovers(lib, parents, j, r)
      ensures RespectsParent(lib, parents[j], r)
    {
      assert r == g && j == i;
    }
    var child := AttenuateUnder(lib, parents, g);
    assert child == Attenuate(lib, g, g) by {
      var k: nat :| k < |parents| && Covers(lib, parents, k, g, child);
      assert k == i;
    }
    HandedDownUnchanged(lib, g);
    assert [g][..0] == [];
    assert Granted(lib, parents, [g]) == [child.value];
    assert Accepts(lib, [child.value][0], a) && NoneMatches([child.value], 0, a.capability);
    FirstMatchDecides(lib, [child.value], a);
  }

  const LOW := Grant("pay.*", NO_SCOPE, map["amount_max" := Some(Fin(1.0))], 0, "")
  const HIGH := Grant("pay.send", NO_SCOPE, map["amount_max" := Some(Fin(5.0))], 0, "")
  const PAY := Action("pay.send", map["amount" := Number(Fin(3.0))])

  /** It does not follow that the parent's own kernel would: it stops at the first match.
      A parent with the grants LOW and HIGH hands HIGH down unchanged; the child may then
      do what the parent is denied. */
  lemma FirstMatchCanRefuse(lib: Lib)
    requires lib.toFloat(Number(Fin(3.0))) == Some(Fin(3.0))
    ensures RequestsRespect(lib, [LOW, HIGH], [HIGH])
    ensures Authorize(lib, Granted(lib, [LOW, HIGH], [HIGH]), PAY).allowed
    ensures !Authorize(lib, [LOW, HIGH], PAY).allowed
  {
    LowRefuses(lib);
    HighIsCoveredByItself(lib);
    assert [LOW, HIGH][1] == HIGH;
    HandDown(lib, [LOW, HIGH], 1, PAY);
  }

  lemma LowRefuses(lib: Lib)
    requires lib.toFloat(Number(Fin(3.0))) == Some(Fin(3.0))
    ensures Matches(LOW.name, PAY.capability) && !Evaluate(lib, LOW.scope, LOW.limits, PAY.params)
    ensures !Authorize(lib, [LOW, HIGH], PAY).allowed
  {
    assert AMOUNT_PARAMS[0] == "amount" && "amount" in AMOUNT_PARAMS;
    assert !NumericMaxOk(lib, AMOUNT_PARAMS, Fin(1.0), PAY.params);
    assert [LOW, HIGH][0] == LOW;
  }

  lemma HighIsCoveredByItself(lib: Lib)
    requires lib.toFloat(Number(Fin(3.0))) == Some(Fin(3.0))
    ensures FirstCovers(lib, [LOW, HIGH], 1, HIGH) && Accepts(lib, HIGH, PAY)
  {
    assert "amount_max" in HIGH.limits && !LimitFits(LOW.limits, HIGH.limits, "amount_max");
    assert Attenuate(lib, LOW, HIGH).None?;
  }

  /** The first grant that matches the action accepts it if any later one does. */
  ghost predicate FirstSpeaksForAll(lib: Lib, grants: seq<Grant>, a: Action) {
    var first := FirstMatch(grants, a.capability);
    first < |grants| ==>
      forall i :: first < i < |grants| && Accepts(lib, grants[i], a) ==> Accepts(lib, grants[first], a)
  }

  lemma FirstIsNoLater(grants: seq<Grant>, i: nat, capability: string)
    requires i < |grants| && Matches(grants[i].name, capability)
    ensures FirstMatch(grants, capability) <= i
  {
  }

  lemma FirstSpeaks(lib: Lib, grants: seq<Grant>, i: nat, a: Action)
    requires FirstSpeaksForAll(lib, grants, a) && i < |grants| && Accepts(lib, grants[i], a)
    ensures Authorize(lib, grants, a).allowed
  {
    FirstIsNoLater(grants, i, a.capability);
    var first := FirstMatch(grants, a.capability);
    assert Accepts(lib, grants[first], a);
    assert !NoneMatches(grants, |grants|, a.capability);
  }

  /** Then the parent's kernel allows whatever a delegated agent's kernel does. */
  lemma KernelAgrees(lib: Lib, parents: seq<Grant>, requested: seq<Grant>, a: Action)
    requires RequestsRespect(lib, parents, requested) && FirstSpeaksForAll(lib, parents, a)
    requires Authorize(lib, Granted(lib, parents, requested), a).allowed
    ensures Authorize(lib, parents, a).allowed
  {
    var i := AcceptingParent(lib, parents, requested, a);
    FirstSpeaks(lib, parents, i, a);
  }

  /** In particular when at most one grant of the parent matches the action's name. */
  lemma UnambiguousKernelAgrees(lib: Lib, parents: seq<Grant>, requested: seq<Grant>, a: Action)
    requires RequestsRespect(lib, parents, requested)
    requires forall i, j :: 0 <= i < j < |parents| ==>
             !Matches(parents[i].name, a.capability) || !Matches(parents[j].name, a.capability)
    requires Authorize(lib, Granted(lib, parents, requested), a).allowed
    ensures Authorize(lib, parents, a).allowed
  {
    KernelAgrees(lib, parents, requested, a);
  }

  /** Invariant I3, list by list: what a delegated agent's kernel allows, its parent's does. */
  ghost predicate KernelsAgree(lib: Lib, parents: seq<Grant>, requested: seq<Grant>, a: Action) {
    RequestsRespect(lib, parents, requested) && Authorize(lib, Granted(lib, parents, requested), a).allowed ==>
      Authorize(lib, parents, a).allowed
  }

  lemma KernelsAgreeIf(lib: Lib, parents: seq<Grant>, requested: seq<Grant>, a: Action)
    requires FirstSpeaksForAll(lib, parents, a)
    ensures KernelsAgree(lib, parents, requested, a)
  {
    if RequestsRespect(lib, parents, requested) && Authorize(lib, Granted(lib, parents, requested), a).allowed {
      KernelAgrees(lib, parents, requested, a);
    }
  }

  lemma KernelsAgreeOnlyIf(lib: Lib, parents: seq<Grant>, a: Action)
    requires forall i :: 0 <= i < |parents| ==> FirstCovers(lib, parents, i, parents[i])
    requires forall requested :: KernelsAgree(lib, parents, requested, a)
    ensures FirstSpeaksForAll(lib, parents, a)
  {
    var first := FirstMatch(parents, a.capability);
    forall i | first < i < |parents| && Accepts(lib, parents[i], a)
      ensures Accepts(lib, parents[first], a)
    {
      HandDown(lib, parents, i, a);
      assert KernelsAgree(lib, parents, [parents[i]], a);
    }
  }

  /** When no grant of the list falls within an earlier one, and each within itself, I3 holds
      of every delegation exactly when the first matching grant always speaks for all. */
  lemma KernelAgreesIff(lib: Lib, parents: seq<Grant>)
    requires forall i :: 0 <= i < |parents| ==> FirstCovers(lib, parents, i, parents[i])
    ensures (forall requested, a :: KernelsAgree(lib, parents, requested, a))
            <==> forall a :: FirstSpeaksForAll(lib, parents, a)
  {
    if forall requested, a :: KernelsAgree(lib, parents, requested, a) {
      forall a
        ensures FirstSpeaksForAll(lib, parents, a)
      {
        KernelsAgreeOnlyIf(lib, parents, a);
      }
    }
    if forall a :: FirstSpeaksForAll(lib, parents, a) {
      forall requested, a
        ensures KernelsAgree(lib, parents, requested, a)
      {
        KernelsAgreeIf(lib, parents, requested, a);
      }
    }
  }

  /** The kernel's own invariants, for all inputs: no matching grant, no authority; and
      what is allowed lies within the scope and limits of the grant that matched. */
  lemma KernelInvariants(lib: Lib, grants: seq<Grant>, a: Action)
    ensures NoneMatches(grants, |grants|, a.capability) ==> !Authorize(lib, grants, a).allowed
    ensures Authorize(lib, grants, a).allowed ==>
              exists g :: g in grants && Matches(g.name, a.capability) && Evaluate(lib, g.scope, g.limits, a.params)
  {
    if Authorize(lib, grants, a).allowed {
      var g := Authorize(lib, grants, a).grant.value;
      assert g in grants && Matches(g.name, a.capability) && Evaluate(lib, g.scope, g.limits, a.params);
    }
  }
}
