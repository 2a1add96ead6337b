/** The two proofs around compiling a blueprint (autarch/factory.py). */
module Factory {
  import opened Prelude
  import opened Delegation
  import opened Policy
  import opened Guarantees

  /** `fieldsOk` is the outcome of the checks of one field by itself: the name, the version,
      each grant, policy and invariant, the council, the quorum and the budget. */
  datatype Blueprint = Blueprint(name: string, grants: seq<Grant>, policies: seq<Rule>, invariants: seq<Invariant>,
    adapters: seq<string>, requiresApproval: bool, fieldsOk: bool)

  /** A pack, with its blueprints by name. An adapter of the catalog has its capabilities,
      or it could not be initialised. */
  datatype Pack = Pack(blueprints: map<string, Blueprint>, catalog: map<string, Option<seq<string>>>,
    policies: seq<Rule>, invariants: seq<Invariant>, strictTools: bool, fieldsOk: bool)

  /** What identifies a pack and a blueprint; the fingerprint is a hash of all its content. */
  datatype Ids = Ids(pack: Pack -> string, blueprint: Blueprint -> string, fingerprint: Blueprint -> string)

  datatype Approval = Approval(ratified: bool, capability: string, packId: string, blueprintId: string,
    fingerprint: string)

  /** Whether reading an adapter works again, and whether the agent can be built. */
  datatype Building = Building(materialized: string -> bool, built: bool)

  datatype CompileError =
    InvalidPack | UnknownBlueprint | NotApproved | AdapterFailed | AgentFailed | GuaranteeFailed

  datatype Deployment = Deployment(grants: seq<Grant>, policies: seq<Rule>)

  /** `static_proof`, with the domain pack's policies and invariants first. */
  ghost predicate StaticProof(pack: Pack, b: Blueprint) {
    AllHold(pack.invariants + b.invariants, b.grants, pack.policies + b.policies)
  }

  ghost predicate Usable(pack: Pack, adapter: string) {
    adapter in pack.catalog && pack.catalog[adapter].Some?
  }

  /** Some adapter of the blueprint that could be initialised has a capability the grant matches. */
  ghost predicate Backed(pack: Pack, b: Blueprint, g: Grant) {
    exists cap :: Offered(pack, b.adapters, cap) && Matches(g.name, cap)
  }

  ghost predicate NoneTwice(names: seq<string>) {
    forall i, j :: 0 <= i < j < |names| ==> names[i] != names[j]
  }

  /** What `validate` asks of a blueprint besides its proofs. */
  ghost predicate WellFormed(pack: Pack, key: string, b: Blueprint) {
    && b.fieldsOk && key == b.name && NoneTwice(b.adapters)
    && (forall i :: 0 <= i < |b.adapters| ==> Usable(pack, b.adapters[i]))
    && (pack.strictTools ==> forall i :: 0 <= i < |b.grants| ==> Backed(pack, b, b.grants[i]))
  }

  ghost predicate BlueprintOk(pack: Pack, key: string) {
    key in pack.blueprints ==> WellFormed(pack, key, pack.blueprints[key]) && StaticProof(pack, pack.blueprints[key])
  }

  /** What `validate` asks of the pack as a whole. */
  ghost predicate PackWellFormed(pack: Pack) {
    pack.fieldsOk && pack.blueprints.Keys != {} && forall a :: a in pack.catalog ==> pack.catalog[a].Some?
  }

  ghost predicate ValidPack(pack: Pack) {
    PackWellFormed(pack) && forall key :: BlueprintOk(pack, key)
  }

  /** The approval was given, and for exactly this blueprint of this pack. */
  ghost predicate Authorizes(approval: Approval, ids: Ids, pack: Pack, b: Blueprint) {
    approval == Approval(true, "factory.compile", ids.pack(pack), ids.blueprint(b), ids.fingerprint(b))
  }

  /** `_require_matching_approval`. */
  predicate Approved(ids: Ids, pack: Pack, b: Blueprint, approval: Option<Approval>) {
    b.requiresApproval ==>
      approval.Some? && approval.value.ratified && approval.value.capability == "factory.compile"
      && approval.value.packId == ids.pack(pack) && approval.value.blueprintId == ids.blueprint(b)
      && approval.value.fingerprint == ids.fingerprint(b)
  }

  method Prove(invs: seq<Invariant>, grants: seq<Grant>, rules: seq<Rule>) returns (failures: seq<Invariant>)
    ensures failures == [] <==> AllHold(invs, grants, rules)
    ensures forall inv :: inv in failures ==> inv in invs && !Verify(inv, grants, rules).holds
  {
    failures := [];
    var i := 0;
    while i < |invs|
      invariant 0 <= i <= |invs|
      invariant failures == [] <==> forall j :: 0 <= j < i ==> Verify(invs[j], grants, rules).holds
      invariant forall inv :: inv in failures ==> inv in invs && !Verify(inv, grants, rules).holds
    {
      if !Verify(invs[i], grants, rules).holds {
        failures := failures + [invs[i]];
      }
      i := i + 1;
    }
  }

  /** The part of `validate` that is about a blueprint's adapters and grants. */
  method CheckTools(pack: Pack, key: string, b: Blueprint) returns (ok: bool)
    ensures ok <==> WellFormed(pack, key, b)
  {
    ok := b.fieldsOk && key == b.name;
    var selected: seq<string> := [];   // the capabilities of the adapters selected
    ghost var usable := true;
    var i := 0;
    while i < |b.adapters|
      invariant 0 <= i <= |b.adapters|
      invariant usable <==> NoneTwice(b.adapters[..i]) && forall j :: 0 <= j < i ==> Usable(pack, b.adapters[j])
      invariant ok <==> b.fieldsOk && key == b.name && usable
      invariant forall cap :: cap in selected <==> Offered(pack, b.adapters[..i], cap)
    {
      var name := b.adapters[i];
      assert b.adapters[..i + 1] == b.adapters[..i] + [name];
      OfferedMore(pack, b.adapters[..i], name);
      usable := usable && name !in b.adapters[..i] && Usable(pack, name);
      if name in b.adapters[..i] {
        ok := false;
      }
      if name in pack.catalog && pack.catalog[name].Some? {
        selected := selected + pack.catalog[name].value;
      } else {
        ok := false;
      }
      i := i + 1;
    }
    assert b.adapters[..i] == b.adapters;
    if pack.strictTools {
      ghost var before := ok;
      i := 0;
      while i < |b.grants|
        invariant 0 <= i <= |b.grants|
        invariant ok <==> before && forall j :: 0 <= j < i ==> Backed(pack, b, b.grants[j])
      {
        var backed := exists k :: 0 <= k < |selected| && Matches(b.grants[i].name, selected[k]);
        BackedBySelected(pack, b, b.grants[i], selected);
        ok := ok && backed;
        i := i + 1;
      }
    }
  }

  lemma BackedBySelected(pack: Pack, b: Blueprint, g: Grant, selected: seq<string>)
    requires forall cap :: cap in selected <==> Offered(pack, b.adapters, cap)
    ensures Backed(pack, b, g) <==> exists k :: 0 <= k < |selected| && Matches(g.name, selected[k])
  {
    if Backed(pack, b, g) {
      var cap :| Offered(pack, b.adapters, cap) && Matches(g.name, cap);
      assert cap in selected;
    }
    forall k | 0 <= k < |selected|
      ensures Offered(pack, b.adapters, selected[k])
    {
      assert selected[k] in selected;
    }
  }

  ghost predicate Offered(pack: Pack, adapters: seq<string>, cap: string) {
    exists i :: 0 <= i < |adapters| && Usable(pack, adapters[i]) && cap in pack.catalog[adapters[i]].value
  }

  lemma OfferedMore(pack: Pack, adapters: seq<string>, name: string)
    ensures forall cap :: Offered(pack, adapters + [name], cap) <==>
            Offered(pack, adapters, cap) || (Usable(pack, name) && cap in pack.catalog[name].value)
  {
    forall cap
      ensures Offered(pack, adapters + [name], cap) <==>
              Offered(pack, adapters, cap) || (Usable(pack, name) && cap in pack.catalog[name].value)
    {
      assert forall i :: 0 <= i < |adapters| ==> (adapters + [name])[i] == adapters[i];
      assert (adapters + [name])[|adapters|] == name;
    }
  }

  method Validate(pack: Pack) returns (valid: bool)
    ensures valid <==> ValidPack(pack)
  {
    valid := pack.fieldsOk && |pack.blueprints| != 0;
    var entries := pack.catalog.Keys;
    ghost var start := valid;
    while entries != {}
      invariant entries <= pack.catalog.Keys
      invariant valid <==> start && forall a :: a in pack.catalog && a !in entries ==> pack.catalog[a].Some?
      decreases |entries|
    {
      var a :| a in entries;
      if pack.catalog[a].None? {
        valid := false;
      }
      entries := entries - {a};
    }
    assert valid <==> PackWellFormed(pack);
    var todo := pack.blueprints.Keys;
    while todo != {}
      invariant todo <= pack.blueprints.Keys
      invariant valid <==> PackWellFormed(pack) && forall key :: key !in todo ==> BlueprintOk(pack, key)
      decreases |todo|
    {
      var key :| key in todo;
      var b := pack.blueprints[key];
      var ok := CheckTools(pack, key, b);
      var failures := Prove(pack.invariants + b.invariants, b.grants, pack.policies + b.policies);
      assert failures == [] && ok <==> BlueprintOk(pack, key);
      if failures != [] || !ok {
        valid := false;
      }
      todo := todo - {key};
    }
  }

  /** `compile`: after validation, approval and RBAC, the second proof over the authority
      the agent really got is a boundary that can never be what stops a deployment. */
  method Compile(ids: Ids, pack: Pack, name: string, approval: Option<Approval>, principal: Option<Roles>,
                 building: Building)
    returns (r: Result<Deployment, CompileError>)
    ensures r != Err(GuaranteeFailed)
    ensures r == Err(InvalidPack) <==> !ValidPack(pack)
    ensures r == Err(UnknownBlueprint) <==> ValidPack(pack) && name !in pack.blueprints
    ensures r == Err(NotApproved) <==>
            && ValidPack(pack) && name in pack.blueprints && pack.blueprints[name].requiresApproval
            && (approval.None? || !Authorizes(approval.value, ids, pack, pack.blueprints[name]))
    ensures r.Ok? <==>
            && ValidPack(pack) && name in pack.blueprints
            && (pack.blueprints[name].requiresApproval ==>
              approval.Some? && Authorizes(approval.value, ids, pack, pack.blueprints[name]))
            && building.built && forall a :: a in pack.blueprints[name].adapters ==> building.materialized(a)
    ensures r.Ok? ==>
              var b := pack.blueprints[name];
              && r.value.grants == (if principal.Some? then Permitted(principal.value, b.grants) else b.grants)
              && r.value.policies == pack.policies + b.policies
              && AllHold(pack.invariants + b.invariants, r.value.grants, r.value.policies)
  {
    var valid := Validate(pack);
    if !valid {
      return Err(InvalidPack);
    }
    if name !in pack.blueprints {
      return Err(UnknownBlueprint);
    }
    var b := pack.blueprints[name];
    if !Approved(ids, pack, b, approval) {
      return Err(NotApproved);
    }
    if exists i :: 0 <= i < |b.adapters| && !building.materialized(b.adapters[i]) {
      return Err(AdapterFailed);
    }
    if !building.built {
      return Err(AgentFailed);
    }
    var policies, invs, grants := pack.policies + b.policies, pack.invariants + b.invariants, b.grants;
    if principal.Some? {
      var denied;
      grants, denied := AuthorizeGrants(principal.value, b.grants);
    }
    assert BlueprintOk(pack, name);
    SecondProofFollows(invs, b.grants, policies, principal);
    var failures := Prove(invs, grants, policies);
    if failures != [] {
      return Err(GuaranteeFailed);
    }
    return Ok(Deployment(grants, policies));
  }

  lemma SecondProofFollows(invs: seq<Invariant>, grants: seq<Grant>, rules: seq<Rule>, principal: Option<Roles>)
    requires AllHold(invs, grants, rules)
    ensures AllHold(invs, if principal.Some? then Permitted(principal.value, grants) else grants, rules)
  {
    if principal.Some? {
      FilteringNarrows(principal.value, grants);
      forall inv | inv in invs
        ensures Verify(inv, Permitted(principal.value, grants), rules).holds
      {
        NarrowingKeepsProof(inv, grants, Permitted(principal.value, grants), rules);
      }
    }
  }
}
