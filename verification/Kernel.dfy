/** What the kernel refuses, key by key, said of the parameters of the action themselves
    (autarch/kernel.py, autarch/scoping.py). */
module Kernel {
  import opened Prelude
  import opened Scoping
  import opened Delegation
  import Paths

  /** The parameter is given, is not null, and reads as this text. */
  ghost predicate Reads(lib: Lib, params: Params, key: string, text: string) {
    && key in params && params[key] != Nil
    && match params[key]
       case Text(s) => text == s
       case v => text == lib.show(v)
  }

  /** The path is absolute, goes up, or lies elsewhere than under the prefix. */
  ghost predicate Escapes(prefix: string, path: string) {
    var base, p := Paths.Parse(prefix), Paths.Parse(path);
    p.abs || Paths.GoesUp(p) || (base != Paths.HERE && !Paths.Contains(base, p))
  }

  ghost predicate PathOutside(lib: Lib, scope: Scope, params: Params) {
    scope.pathPrefix.Some? &&
    exists key, text ::
      (key == "path" || key == "dest") && Reads(lib, params, key, text) && Escapes(scope.pathPrefix.value, text)
  }

  /** The parameters that name a network peer. */
  predicate NamesPeer(key: string) {
    key == "host" || key == "url" || key == "endpoint"
  }

  /** The text has a host that is on the list, case apart. */
  ghost predicate HostListed(lib: Lib, hosts: seq<string>, text: string) {
    lib.host(text).Some? &&
    exists i :: 0 <= i < |hosts| && lib.lower(lib.host(text).value) == lib.lower(hosts[i])
  }

  ghost predicate HostRefused(lib: Lib, scope: Scope, params: Params) {
    scope.hosts.Some? && scope.hosts.value != [] &&
    exists key, text :: NamesPeer(key) && Reads(lib, params, key, text) && !HostListed(lib, scope.hosts.value, text)
  }

  /** A peer has this port, or `port` is this integer. */
  ghost predicate Targets(lib: Lib, params: Params, port: int) {
    || ("port" in params && lib.toInt(params["port"]) == Some(port))
    || exists key, text :: NamesPeer(key) && Reads(lib, params, key, text) && lib.port(text) == Some(port)
  }

  ghost predicate PortRefused(lib: Lib, scope: Scope, params: Params) {
    scope.ports.Some? && scope.ports.value != [] &&
    exists port :: Targets(lib, params, port) &&
                   forall i :: 0 <= i < |scope.ports.value| ==> port != scope.ports.value[i]
  }

  ghost predicate EnumRefused(scope: Scope, params: Params) {
    scope.enums.Some? &&
    exists p :: p in scope.enums.value && p in params &&
                forall i :: 0 <= i < |scope.enums.value[p]| ==> params[p] != scope.enums.value[p][i]
  }

  ghost predicate RegexRefused(lib: Lib, scope: Scope, params: Params) {
    scope.regex.Some? &&
    exists p, text :: p in scope.regex.value && Reads(lib, params, p, text)
                      && !lib.fullmatch(scope.regex.value[p], text)
  }

  /** The needle stands somewhere in the text. */
  ghost predicate StandsIn(needle: string, text: string) {
    exists before, after :: text == before + needle + after
  }

  ghost predicate Forbidden(needles: seq<string>, text: string) {
    exists i :: 0 <= i < |needles| && StandsIn(needles[i], text)
  }

  ghost predicate SubstringRefused(lib: Lib, scope: Scope, params: Params) {
    scope.substrings.Some? &&
    exists p, text :: p in scope.substrings.value && Reads(lib, params, p, text)
                      && Forbidden(scope.substrings.value[p], text)
  }

  /** Python's truth of a parameter. */
  predicate Given(v: Value) {
    v != Nil && v != Text("") && v != List([]) && v != Number(Fin(0.0))
  }

  /** The tags of an action are those of `data_classes`, unless nothing is given there. */
  function TagKey(params: Params): string {
    if "data_classes" in params && Given(params["data_classes"]) then "data_classes" else "data_class"
  }

  function TextOf(lib: Lib, v: Value): string {
    match v
    case Text(s) => s
    case _ => lib.show(v)
  }

  ghost predicate Tagged(lib: Lib, v: Value, tag: string) {
    v == Text(tag) || (v.List? && exists i :: 0 <= i < |v.items| && tag == TextOf(lib, v.items[i]))
  }

  ghost predicate ClassListed(lib: Lib, classes: seq<string>, tag: string) {
    exists i :: 0 <= i < |classes| && lib.lower(tag) == lib.lower(classes[i])
  }

  /** A tag is forbidden, case apart; tags that are a number cannot be gone through, and the
      check fails. */
  ghost predicate DataClassRefused(lib: Lib, scope: Scope, params: Params) {
    scope.dataClasses.Some? && scope.dataClasses.value != [] && TagKey(params) in params &&
    (params[TagKey(params)].Number? ||
     exists tag :: Tagged(lib, params[TagKey(params)], tag) && ClassListed(lib, scope.dataClasses.value, tag))
  }

  /** A text under `content`, which is "" when it is missing, has more bytes than allowed. */
  ghost predicate TooManyBytes(lib: Lib, limits: Limits, params: Params) {
    "max_bytes" in limits && limits["max_bytes"].Some? &&
    exists text :: (if "content" in params then params["content"] == Text(text) else text == "")
                   && Over(Fin(lib.utf8Len(text) as real), limits["max_bytes"].value)
  }

  /** One of the parameters is a number over the limit. */
  ghost predicate NumberOver(lib: Lib, limits: Limits, limit: string, keys: seq<string>, params: Params) {
    limit in limits && limits[limit].Some? &&
    exists key, n :: key in keys && key in params && lib.toFloat(params[key]) == Some(n) && Over(n, limits[limit].value)
  }

  ghost predicate Violates(lib: Lib, scope: Scope, limits: Limits, params: Params) {
    || PathOutside(lib, scope, params) || HostRefused(lib, scope, params) || PortRefused(lib, scope, params)
    || EnumRefused(scope, params) || RegexRefused(lib, scope, params) || SubstringRefused(lib, scope, params)
    || DataClassRefused(lib, scope, params) || TooManyBytes(lib, limits, params)
    || NumberOver(lib, limits, "amount_max", ["amount", "value"], params)
    || NumberOver(lib, limits, "count_max", ["count", "quantity", "n"], params)
  }

  // ----------------------------------------------------------------------- key by key

  lemma ReadsMeans(lib: Lib, params: Params, key: string, text: string)
    ensures Reads(lib, params, key, text) <==> Param(params, key) != Nil && text == Str(lib, Param(params, key))
  {
  }

  lemma PathMeans(lib: Lib, scope: Scope, params: Params)
    ensures (scope.pathPrefix.Some? ==> PathPrefixOk(lib, scope.pathPrefix.value, params))
            <==> !PathOutside(lib, scope, params)
  {
    if scope.pathPrefix.Some? {
      assert forall key :: key in PATH_PARAMS <==> key == "path" || key == "dest";
      forall key, text
        ensures Reads(lib, params, key, text) <==> Param(params, key) != Nil && text == Str(lib, Param(params, key))
        ensures Paths.PathAccepted(scope.pathPrefix.value, text) <==> !Escapes(scope.pathPrefix.value, text)
      {
        ReadsMeans(lib, params, key, text);
        Paths.PathAcceptedMeans(scope.pathPrefix.value, text);
      }
    }
  }

  lemma HostListedMeans(lib: Lib, hosts: seq<string>, v: Value)
    ensures HostOk(lib, hosts, v) <==> HostListed(lib, hosts, Str(lib, v))
  {
    assert forall h :: h in hosts ==> lib.lower(h) in Lowered(lib, hosts);
  }

  lemma HostMeans(lib: Lib, scope: Scope, params: Params)
    ensures (scope.hosts.Some? && scope.hosts.value != [] ==> HostsOk(lib, scope.hosts.value, params))
            <==> !HostRefused(lib, scope, params)
  {
    if scope.hosts.Some? {
      assert forall key :: key in HOST_PARAMS <==> NamesPeer(key);
      forall key, text
        ensures Reads(lib, params, key, text) <==> Param(params, key) != Nil && text == Str(lib, Param(params, key))
      {
        ReadsMeans(lib, params, key, text);
      }
      forall v
        ensures HostOk(lib, scope.hosts.value, v) <==> HostListed(lib, scope.hosts.value, Str(lib, v))
      {
        HostListedMeans(lib, scope.hosts.value, v);
      }
    }
  }

  lemma PortMeans(lib: Lib, scope: Scope, params: Params)
    ensures (scope.ports.Some? && scope.ports.value != [] ==> PortsOk(lib, scope.ports.value, params))
            <==> !PortRefused(lib, scope, params)
  {
    if scope.ports.Some? {
      var allowed := scope.ports.value;
      assert forall key :: key in HOST_PARAMS <==> NamesPeer(key);
      forall key, text
        ensures Reads(lib, params, key, text) <==> Param(params, key) != Nil && text == Str(lib, Param(params, key))
      {
        ReadsMeans(lib, params, key, text);
      }
      PortsMeans(lib, allowed, params);
    }
  }

  lemma PortsMeans(lib: Lib, allowed: seq<int>, params: Params)
    ensures PortsOk(lib, allowed, params) <==> forall port :: Targets(lib, params, port) ==> port in allowed
  {
    assert forall key :: key in HOST_PARAMS <==> NamesPeer(key);
    forall key, text
      ensures Reads(lib, params, key, text) <==> Param(params, key) != Nil && text == Str(lib, Param(params, key))
    {
      ReadsMeans(lib, params, key, text);
    }
    if forall port :: Targets(lib, params, port) ==> port in allowed {
      forall key | key in HOST_PARAMS && Param(params, key) != Nil
        ensures PortOk(allowed, lib.port(Str(lib, Param(params, key))))
      {
        var port := lib.port(Str(lib, Param(params, key)));
        assert Reads(lib, params, key, Str(lib, Param(params, key)));
        assert port.Some? ==> Targets(lib, params, port.value);
      }
      if "port" in params && lib.toInt(params["port"]).Some? {
        assert Targets(lib, params, lib.toInt(params["port"]).value);
      }
    }
  }

  lemma EnumMeans(scope: Scope, params: Params)
    ensures (scope.enums.Some? ==> EnumsOk(scope.enums.value, params)) <==> !EnumRefused(scope, params)
  {
  }

  lemma RegexMeans(lib: Lib, scope: Scope, params: Params)
    ensures (scope.regex.Some? ==> RegexOk(lib, scope.regex.value, params)) <==> !RegexRefused(lib, scope, params)
  {
    forall key, text
      ensures Reads(lib, params, key, text) <==> Param(params, key) != Nil && text == Str(lib, Param(params, key))
    {
      ReadsMeans(lib, params, key, text);
    }
  }

  lemma OccursMeans(needle: string, text: string)
    ensures Occurs(needle, text) <==> StandsIn(needle, text)
  {
    if Occurs(needle, text) {
      var i, j :| 0 <= i <= j <= |text| && text[i..j] == needle;
      assert text == text[..i] + needle + text[j..];
    }
    if StandsIn(needle, text) {
      var before, after :| text == before + needle + after;
      assert text[|before|..|before| + |needle|] == needle;
    }
  }

  lemma ForbiddenMeans(needles: seq<string>, text: string)
    ensures Forbidden(needles, text) <==> exists n :: n in needles && Occurs(n, text)
  {
    forall n
      ensures Occurs(n, text) <==> StandsIn(n, text)
    {
      OccursMeans(n, text);
    }
  }

  lemma SubstringMeans(lib: Lib, scope: Scope, params: Params)
    ensures (scope.substrings.Some? ==> SubstringsOk(lib, scope.substrings.value, params))
            <==> !SubstringRefused(lib, scope, params)
  {
    forall key, text
      ensures Reads(lib, params, key, text) <==> Param(params, key) != Nil && text == Str(lib, Param(params, key))
    {
      ReadsMeans(lib, params, key, text);
    }
    forall needles, text
      ensures Forbidden(needles, text) <==> exists n :: n in needles && Occurs(n, text)
    {
      ForbiddenMeans(needles, text);
    }
    if scope.substrings.Some? {
      forall p, n | p in scope.substrings.value && Param(params, p) != Nil && n in scope.substrings.value[p]
        ensures Occurs(n, Str(lib, Param(params, p))) ==> SubstringRefused(lib, scope, params)
      {
        assert Reads(lib, params, p, Str(lib, Param(params, p)));
        assert Occurs(n, Str(lib, Param(params, p))) ==>
            Forbidden(scope.substrings.value[p], Str(lib, Param(params, p)));
      }
    }
  }

  lemma ClassListedMeans(lib: Lib, classes: seq<string>, tag: string)
    ensures lib.lower(tag) in Lowered(lib, classes) <==> ClassListed(lib, classes, tag)
  {
    assert forall c :: c in classes ==> lib.lower(c) in Lowered(lib, classes);
  }

  /** The tags that a given value stands for. */
  lemma TagsMean(lib: Lib, v: Value, forbidden: seq<string>)
    requires v != Nil && !v.Number?
    ensures (exists tag :: Tagged(lib, v, tag) && ClassListed(lib, forbidden, tag)) <==>
            match v
            case Text(s) => lib.lower(s) in Lowered(lib, forbidden)
            case List(items) => exists t :: t in items && lib.lower(Str(lib, t)) in Lowered(lib, forbidden)
  {
    forall tag
      ensures lib.lower(tag) in Lowered(lib, forbidden) <==> ClassListed(lib, forbidden, tag)
    {
      ClassListedMeans(lib, forbidden, tag);
    }
    if v.Text? {
      assert Tagged(lib, v, v.s);
    } else {
      forall t | t in v.items && lib.lower(Str(lib, t)) in Lowered(lib, forbidden)
        ensures Tagged(lib, v, Str(lib, t)) && ClassListed(lib, forbidden, Str(lib, t))
      {
        assert TextOf(lib, t) == Str(lib, t);
      }
      forall tag | Tagged(lib, v, tag) && ClassListed(lib, forbidden, tag)
        ensures exists t :: t in v.items && lib.lower(Str(lib, t)) in Lowered(lib, forbidden)
      {
        var i :| 0 <= i < |v.items| && tag == TextOf(lib, v.items[i]);
        assert v.items[i] in v.items && tag == Str(lib, v.items[i]);
      }
    }
  }

  lemma DataClassMeans(lib: Lib, scope: Scope, params: Params)
    ensures (scope.dataClasses.Some? && scope.dataClasses.value != [] ==>
              DataClassesOk(lib, scope.dataClasses.value, params))
            <==> !DataClassRefused(lib, scope, params)
  {
    if scope.dataClasses.Some? {
      var key := TagKey(params);
      assert Truthy(Param(params, "data_classes")) <==> key == "data_classes";
      if key in params && params[key] != Nil && !params[key].Number? {
        TagsMean(lib, params[key], scope.dataClasses.value);
      }
    }
  }

  lemma LimitsMean(lib: Lib, limits: Limits, params: Params)
    ensures LimitsOk(lib, limits, params) <==>
            !TooManyBytes(lib, limits, params)
            && !NumberOver(lib, limits, "amount_max", ["amount", "value"], params)
            && !NumberOver(lib, limits, "count_max", ["count", "quantity", "n"], params)
  {
  }

  lemma EvaluateMeans(lib: Lib, scope: Scope, limits: Limits, params: Params)
    ensures Evaluate(lib, scope, limits, params) <==> !Violates(lib, scope, limits, params)
  {
    PathMeans(lib, scope, params);
    HostMeans(lib, scope, params);
    PortMeans(lib, scope, params);
    EnumMeans(scope, params);
    RegexMeans(lib, scope, params);
    SubstringMeans(lib, scope, params);
    DataClassMeans(lib, scope, params);
    LimitsMean(lib, limits, params);
  }

  // ----------------------------------------------------------------------- at the gate

  /** The name is the capability, or covers it with a trailing wildcard. */
  ghost predicate Names(name: string, capability: string) {
    name == capability || exists family, rest :: name == family + ".*" && capability == family + "." + rest
  }

  lemma MatchesMeans(name: string, capability: string)
    ensures Matches(name, capability) <==> Names(name, capability)
  {
    if IsWildcard(name) {
      var family := name[..|name| - 2];
      assert name == family + ".*" && name[..|name| - 1] == family + ".";
      if name[..|name| - 1] <= capability {
        assert capability == family + "." + capability[|name| - 1..];
      }
    }
    forall family, rest | name == family + ".*" && capability == family + "." + rest
      ensures Matches(name, capability)
    {
      assert name[|name| - 2..] == ".*" && name[..|name| - 1] == family + ".";
    }
  }

  /** This grant is the first whose name fits the action. */
  ghost predicate Decides(grants: seq<Grant>, i: nat, a: Action)
    requires i < |grants|
  {
    Names(grants[i].name, a.capability) && forall j :: 0 <= j < i ==> !Names(grants[j].name, a.capability)
  }

  /** The kernel allows an action exactly when it violates nothing that the first grant which
      names it demands; and denies it when no grant does. */
  lemma AllowedIff(lib: Lib, grants: seq<Grant>, a: Action)
    ensures Authorize(lib, grants, a).allowed <==>
            exists i :: 0 <= i < |grants| && Decides(grants, i, a)
                        && !Violates(lib, grants[i].scope, grants[i].limits, a.params)
  {
    FirstMatchDecides(lib, grants, a);
    forall i | 0 <= i < |grants|
      ensures NoneMatches(grants, i, a.capability) && Accepts(lib, grants[i], a) <==>
              Decides(grants, i, a) && !Violates(lib, grants[i].scope, grants[i].limits, a.params)
    {
      forall j | 0 <= j <= i
        ensures Matches(grants[j].name, a.capability) <==> Names(grants[j].name, a.capability)
      {
        MatchesMeans(grants[j].name, a.capability);
      }
      EvaluateMeans(lib, grants[i].scope, grants[i].limits, a.params);
    }
  }

  /** "More than" is a strict order of all numbers but NaN, in which finite numbers compare
      as reals between the infinities; NaN is not more and not less than anything. */
  lemma OverIsOrder(x: real, y: real, a: Float, b: Float)
    ensures Over(Fin(x), Fin(y)) <==> x > y
    ensures !Over(NaN, a) && !Over(a, NaN) && !Over(a, a)
    ensures a != NaN && a != PlusInf ==> Over(PlusInf, a)
    ensures a != NaN && a != MinusInf ==> Over(a, MinusInf)
    ensures !(Over(a, b) && Over(b, a))
  {
  }

  // ---------------------------------------------------------------------- attenuation

  /** What a request asks for: an empty name asks for the parent's. */
  function AskedName(parent: Grant, request: Grant): string {
    if request.name == "" then parent.name else request.name
  }

  ghost predicate Obeys(lib: Lib, name: string, scope: Scope, limits: Limits, a: Action) {
    Names(name, a.capability) && !Violates(lib, scope, limits, a.params)
  }

  lemma LimitsMeet(lib: Lib, parent: Limits, child: Limits, params: Params)
    requires LimitsFit(parent, child)
    ensures LimitsOk(lib, parent + child, params) ==> LimitsOk(lib, child, params)
    ensures LimitsOk(lib, parent, params) && LimitsOk(lib, child, params) ==> LimitsOk(lib, parent + child, params)
  {
    forall k
      ensures Limit(parent + child, k) == if k in child then Limit(child, k) else Limit(parent, k)
      ensures k !in child ==> Limit(child, k).None?
    {
    }
  }

  lemma EnumsMeet(parent: Option<map<string, seq<Value>>>, child: Option<map<string, seq<Value>>>, params: Params)
    ensures var m := MergeEnums(parent, child);
            && (child.Some? && (m.Some? ==> EnumsOk(m.value, params)) ==> EnumsOk(child.value, params))
            && ((parent.Some? ==> EnumsOk(parent.value, params)) && (child.Some? ==> EnumsOk(child.value, params)) ==>
              (m.Some? ==> EnumsOk(m.value, params)))
  {
    if parent.Some? && child.Some? {
      var merged := parent.value + child.value;
      assert forall p :: p in child.value ==> p in merged && merged[p] == child.value[p];
    }
  }

  lemma ScopesMeet(lib: Lib, parent: Scope, child: Scope, limits: Limits, params: Params)
    ensures Evaluate(lib, MergeScope(parent, child), limits, params) ==> Evaluate(lib, child, limits, params)
    ensures Evaluate(lib, parent, limits, params) && Evaluate(lib, child, limits, params) ==>
            Evaluate(lib, MergeScope(parent, child), limits, params)
  {
    EnumsMeet(parent.enums, child.enums, params);
  }

  /** Attenuation gives what was asked for and no more: whatever the child obeys obeys the
      request; what obeys both the parent and the request obeys the child; and under the
      condition of AttenuationSound the child is exactly what the two have in common. */
  lemma AttenuationIsMeet(lib: Lib, parent: Grant, request: Grant, a: Action)
    requires Attenuate(lib, parent, request).Some?
    ensures var child, name := Attenuate(lib, parent, request).value, AskedName(parent, request);
            var asked := Obeys(lib, name, request.scope, request.limits, a);
            var held := Obeys(lib, parent.name, parent.scope, parent.limits, a);
            var got := Obeys(lib, child.name, child.scope, child.limits, a);
            && (got ==> asked) && (held && asked ==> got)
            && (RespectsParent(lib, parent, request) ==> (got <==> held && asked))
  {
    var child, name := Attenuate(lib, parent, request).value, AskedName(parent, request);
    ObeysIsAccepts(lib, child, a);
    ObeysIsAccepts(lib, parent, a);
    ObeysIsAccepts(lib, request.(name := name), a);
    LimitsMeet(lib, parent.limits, request.limits, a.params);
    Meet(lib, parent, request, a.params);
    if RespectsParent(lib, parent, request) && Accepts(lib, child, a) {
      AttenuationSound(lib, parent, request, a);
    }
  }

  lemma ObeysIsAccepts(lib: Lib, g: Grant, a: Action)
    ensures Obeys(lib, g.name, g.scope, g.limits, a) <==> Accepts(lib, g, a)
  {
    MatchesMeans(g.name, a.capability);
    EvaluateMeans(lib, g.scope, g.limits, a.params);
  }

  lemma Meet(lib: Lib, parent: Grant, request: Grant, params: Params)
    requires LimitsFit(parent.limits, request.limits)
    ensures var scope, limits := MergeScope(parent.scope, request.scope), parent.limits + request.limits;
            && (Evaluate(lib, scope, limits, params) ==> Evaluate(lib, request.scope, request.limits, params))
            && (Evaluate(lib, parent.scope, parent.limits, params) ==>
              Evaluate(lib, request.scope, request.limits, params) ==> Evaluate(lib, scope, limits, params))
  {
    var limits := parent.limits + request.limits;
    LimitsMeet(lib, parent.limits, request.limits, params);
    ScopesMeet(lib, parent.scope, request.scope, limits, params);
  }

  /** A name is within another exactly when it names no further capability. */
  lemma NameWithinIff(parent: string, child: string)
    ensures NameWithin(parent, child) <==> forall capability :: Names(child, capability) ==> Names(parent, capability)
  {
    forall capability
      ensures Matches(child, capability) <==> Names(child, capability)
      ensures Matches(parent, capability) <==> Names(parent, capability)
    {
      MatchesMeans(child, capability);
      MatchesMeans(parent, capability);
    }
    if NameWithin(parent, child) {
      forall capability | Matches(child, capability)
        ensures Matches(parent, capability)
      {
        NameWithinNarrows(parent, child, capability);
      }
    } else {
      var target := if IsWildcard(child) then child[..|child| - 1] else child;
      var outside := if IsWildcard(parent) then target else child;
      if IsWildcard(parent) && IsWildcard(child) {
        assert parent[|parent| - 2..][1] == '*' && child[|child| - 2..][0] == '.';
        assert target[|target| - 1] != parent[|parent| - 1];
      }
      assert Matches(child, outside) && !Matches(parent, outside);
    }
  }

  ghost predicate PrefixNarrower(parent: Option<string>, child: Option<string>) {
    parent.Some? && child.Some? ==>
      var base, p := Paths.Parse(parent.value), Paths.Parse(child.value);
      !Paths.GoesUp(p) && (base == Paths.HERE || Paths.Contains(base, p))
  }

  ghost predicate NamedAmong(lib: Lib, hosts: seq<string>, host: string) {
    exists j :: 0 <= j < |hosts| && lib.lower(host) == lib.lower(hosts[j])
  }

  ghost predicate PortAmong(ports: seq<int>, port: int) {
    exists j :: 0 <= j < |ports| && port == ports[j]
  }

  ghost predicate HostsNarrower(lib: Lib, parent: seq<string>, child: seq<string>) {
    forall i :: 0 <= i < |child| ==> NamedAmong(lib, parent, child[i])
  }

  ghost predicate PortsNarrower(parent: seq<int>, child: seq<int>) {
    forall i :: 0 <= i < |child| ==> PortAmong(parent, child[i])
  }

  /** Every value that the child allows a parameter of the parent's, the parent allows it. */
  ghost predicate EnumsNarrower(parent: Option<map<string, seq<Value>>>, child: Option<map<string, seq<Value>>>) {
    parent.Some? && child.Some? ==>
      forall p, v :: p in parent.value && p in child.value && v in child.value[p] ==> v in parent.value[p]
  }

  ghost predicate MetadataKept(parent: map<string, string>, child: map<string, string>) {
    forall k :: k in parent && k in child ==> parent[k] == child[k]
  }

  /** No ceiling of the parent's is lifted, and none compares greater. */
  ghost predicate CeilingsKept(parent: Limits, child: Limits) {
    forall k :: k in parent && k in child && parent[k].Some? ==>
      child[k].Some? && !Over(child[k].value, parent[k].value)
  }

  /** Which requests a grant covers; and the child then says where it came from. */
  lemma CoveredIff(lib: Lib, parent: Grant, request: Grant)
    ensures Attenuate(lib, parent, request).Some? <==>
            && (forall capability :: Names(AskedName(parent, request), capability) ==> Names(parent.name, capability))
            && PrefixNarrower(parent.scope.pathPrefix, request.scope.pathPrefix)
            && (parent.scope.hosts.Some? && request.scope.hosts.Some? ==>
              HostsNarrower(lib, parent.scope.hosts.value, request.scope.hosts.value))
            && (parent.scope.ports.Some? && request.scope.ports.Some? ==>
              PortsNarrower(parent.scope.ports.value, request.scope.ports.value))
            && EnumsNarrower(parent.scope.enums, request.scope.enums)
            && MetadataKept(parent.scope.metadata, request.scope.metadata)
            && CeilingsKept(parent.limits, request.limits)
    ensures Attenuate(lib, parent, request).Some? ==>
              var child := Attenuate(lib, parent, request).value;
              && child.name == AskedName(parent, request) && child.depth == parent.depth + 1
              && child.delegatedFrom == parent.name
  {
    NameWithinIff(parent.name, AskedName(parent, request));
    if parent.scope.pathPrefix.Some? && request.scope.pathPrefix.Some? {
      Paths.PathWithinMeans(parent.scope.pathPrefix.value, request.scope.pathPrefix.value);
    }
    if parent.scope.hosts.Some? && request.scope.hosts.Some? {
      HostsNarrowerMeans(lib, parent.scope.hosts.value, request.scope.hosts.value);
    }
    if parent.scope.ports.Some? && request.scope.ports.Some? {
      PortsNarrowerMeans(parent.scope.ports.value, request.scope.ports.value);
    }
    LimitsKeptMeans(parent.limits, request.limits);
    assert parent.scope.enums.Some? && request.scope.enums.Some? ==>
        (EnumsShrink(parent.scope.enums.value, request.scope.enums.value) <==>
         EnumsNarrower(parent.scope.enums, request.scope.enums));
  }

  lemma NamedAmongMeans(lib: Lib, hosts: seq<string>, host: string)
    ensures lib.lower(host) in Lowered(lib, hosts) <==> NamedAmong(lib, hosts, host)
  {
    assert forall j :: 0 <= j < |hosts| ==> hosts[j] in hosts;
  }

  lemma HostsNarrowerMeans(lib: Lib, parent: seq<string>, child: seq<string>)
    ensures HostSubset(lib, parent, child) <==> HostsNarrower(lib, parent, child)
  {
    forall i | 0 <= i < |child|
      ensures lib.lower(child[i]) in Lowered(lib, child)
      ensures lib.lower(child[i]) in Lowered(lib, parent) <==> NamedAmong(lib, parent, child[i])
    {
      NamedAmongMeans(lib, child, child[i]);
      NamedAmongMeans(lib, parent, child[i]);
    }
    assert forall x :: x in Lowered(lib, child) ==> exists i :: 0 <= i < |child| && x == lib.lower(child[i]);
  }

  lemma PortsNarrowerMeans(parent: seq<int>, child: seq<int>)
    ensures PortSubset(parent, child) <==> PortsNarrower(parent, child)
  {
    if PortSubset(parent, child) {
      forall i | 0 <= i < |child|
        ensures PortAmong(parent, child[i])
      {
        var port: int := child[i];
        assert port in child && port in parent;
      }
    }
    if PortsNarrower(parent, child) {
      forall port: int | port in child
        ensures port in parent
      {
        var i :| 0 <= i < |child| && port == child[i];
        assert PortAmong(parent, child[i]);
      }
    }
  }

  lemma LimitsKeptMeans(parent: Limits, child: Limits)
    ensures LimitsFit(parent, child) <==> CeilingsKept(parent, child)
  {
    forall k | k in child
      ensures LimitFits(parent, child, k) <==>
              (k in parent && parent[k].Some? ==> child[k].Some? && !Over(child[k].value, parent[k].value))
    {
    }
  }
}
