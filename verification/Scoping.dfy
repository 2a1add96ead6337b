/** The scope algebra: stateless constraints on an action's parameters, and how a
    constraint may be narrowed (autarch/scoping.py). */
module Scoping {
  import opened Prelude
  import Paths

  /** A number as Python has it: rounding apart, a real, an infinity or not a number. */
  datatype Float = NaN | MinusInf | Fin(r: real) | PlusInf

  /** Python's `a > b`, which is false as soon as either side is not a number. */
  predicate Over(a: Float, b: Float) {
    match (a, b)
    case (NaN, _) => false
    case (_, NaN) => false
    case (Fin(x), Fin(y)) => x > y
    case (PlusInf, _) => b != PlusInf
    case (_, MinusInf) => a != MinusInf
    case (_, _) => false
  }

  /** Parameter values, as far as the checks tell them apart. */
  datatype Value = Nil | Text(s: string) | Number(f: Float) | List(items: seq<Value>)

  type Params = map<string, Value>

  /** Python's own conversions and parsers. They are parameters of the model: nothing is
      assumed about them, so every result holds for all of them. */
  datatype Lib = Lib(
    show: Value -> string,              // str() of a value that is not a string
    host: string -> Option<string>,     // the host part of `_host_and_port`
    port: string -> Option<int>,        // its port part
    lower: string -> string,
    fullmatch: (string, string) -> bool, // false also for a malformed pattern, which fails closed
    toInt: Value -> Option<int>,
    toFloat: Value -> Option<Float>,
    utf8Len: string -> nat)

  function Str(lib: Lib, v: Value): string {
    if v.Text? then v.s else lib.show(v)
  }

  function Param(params: Params, key: string): Value {
    if key in params then params[key] else Nil
  }

  /** `grant.scope`: a key that is absent is None, and only such a key is inherited. A key
      present with null reads as the empty value of its key, except for the path prefix,
      where it reads as absent. Unrecognised keys are metadata. */
  datatype Scope = Scope(
    pathPrefix: Option<string>,
    hosts: Option<seq<string>>,
    ports: Option<seq<int>>,
    enums: Option<map<string, seq<Value>>>,
    regex: Option<map<string, string>>,
    substrings: Option<map<string, seq<string>>>,
    dataClasses: Option<seq<string>>,
    metadata: map<string, string>)

  /** `grant.limits`; a limit may be present and null, which is no limit. */
  type Limits = map<string, Option<Float>>

  const PATH_PARAMS := ["path", "dest"]
  const HOST_PARAMS := ["host", "url", "endpoint"]
  const AMOUNT_PARAMS := ["amount", "value"]
  const COUNT_PARAMS := ["count", "quantity", "n"]

  // ----------------------------------------------------------------------- checks

  predicate PathPrefixOk(lib: Lib, prefix: string, params: Params) {
    forall key :: key in PATH_PARAMS && Param(params, key) != Nil ==>
      Paths.PathAccepted(prefix, Str(lib, Param(params, key)))
  }

  function Lowered(lib: Lib, names: seq<string>): set<string> {
    set n | n in names :: lib.lower(n)
  }

  predicate HostOk(lib: Lib, allowed: seq<string>, v: Value) {
    var host := lib.host(Str(lib, v));
    host.Some? && lib.lower(host.value) in Lowered(lib, allowed)
  }

  predicate HostsOk(lib: Lib, allowed: seq<string>, params: Params) {
    forall key :: key in HOST_PARAMS && Param(params, key) != Nil ==> HostOk(lib, allowed, Param(params, key))
  }

  predicate PortOk(allowed: seq<int>, port: Option<int>) {
    port.Some? ==> port.value in allowed
  }

  predicate PortsOk(lib: Lib, allowed: seq<int>, params: Params) {
    && (forall key :: key in HOST_PARAMS && Param(params, key) != Nil ==>
          PortOk(allowed, lib.port(Str(lib, Param(params, key)))))
    && ("port" in params ==> PortOk(allowed, lib.toInt(params["port"])))
  }

  predicate EnumsOk(spec: map<string, seq<Value>>, params: Params) {
    forall p :: p in spec && p in params ==> params[p] in spec[p]
  }

  predicate RegexOk(lib: Lib, spec: map<string, string>, params: Params) {
    forall p :: p in spec && Param(params, p) != Nil ==> lib.fullmatch(spec[p], Str(lib, Param(params, p)))
  }

  predicate Occurs(needle: string, text: string) {
    exists i, j :: 0 <= i <= j <= |text| && text[i..j] == needle
  }

  predicate SubstringsOk(lib: Lib, spec: map<string, seq<string>>, params: Params) {
    forall p, needle :: p in spec && Param(params, p) != Nil && needle in spec[p] ==>
      !Occurs(needle, Str(lib, Param(params, p)))
  }

  predicate Truthy(v: Value) {
    match v
    case Nil => false
    case Text(s) => s != ""
    case Number(f) => f != Fin(0.0)
    case List(items) => items != []
  }

  /** The tags an action declares; a number is not iterable and aborts the check. */
  predicate DataClassesOk(lib: Lib, forbidden: seq<string>, params: Params) {
    var first := Param(params, "data_classes");
    var tags := if Truthy(first) then first else Param(params, "data_class");
    match tags
    case Nil => true
    case Text(s) => lib.lower(s) !in Lowered(lib, forbidden)
    case Number(_) => false
    case List(items) => forall t :: t in items ==> lib.lower(Str(lib, t)) !in Lowered(lib, forbidden)
  }

  predicate NumericMaxOk(lib: Lib, keys: seq<string>, ceiling: Float, params: Params) {
    forall key :: key in keys && key in params && lib.toFloat(params[key]).Some? ==>
      !Over(lib.toFloat(params[key]).value, ceiling)
  }

  function Limit(limits: Limits, key: string): Option<Float> {
    if key in limits then limits[key] else None
  }

  predicate LimitsOk(lib: Lib, limits: Limits, params: Params) {
    var content := if "content" in params then params["content"] else Text("");
    var bytes, amount, count := Limit(limits, "max_bytes"), Limit(limits, "amount_max"), Limit(limits, "count_max");
    && (bytes.Some? && content.Text? ==> !Over(Fin(lib.utf8Len(content.s) as real), bytes.value))
    && (amount.Some? ==> NumericMaxOk(lib, AMOUNT_PARAMS, amount.value, params))
    && (count.Some? ==> NumericMaxOk(lib, COUNT_PARAMS, count.value, params))
  }

  /** `evaluate`: all recognised constraints must pass. An empty list or dictionary is
      falsy in Python and so counts as no constraint. */
  predicate Evaluate(lib: Lib, scope: Scope, limits: Limits, params: Params) {
    && (scope.pathPrefix.Some? ==> PathPrefixOk(lib, scope.pathPrefix.value, params))
    && (scope.hosts.Some? && scope.hosts.value != [] ==> HostsOk(lib, scope.hosts.value, params))
    && (scope.ports.Some? && scope.ports.value != [] ==> PortsOk(lib, scope.ports.value, params))
    && (scope.enums.Some? ==> EnumsOk(scope.enums.value, params))
    && (scope.regex.Some? ==> RegexOk(lib, scope.regex.value, params))
    && (scope.substrings.Some? ==> SubstringsOk(lib, scope.substrings.value, params))
    && (scope.dataClasses.Some? && scope.dataClasses.value != [] ==>
      DataClassesOk(lib, scope.dataClasses.value, params))
    && LimitsOk(lib, limits, params)
  }

  // ------------------------------------------------------------------- narrowing

  predicate HostSubset(lib: Lib, parent: seq<string>, child: seq<string>) {
    Lowered(lib, child) <= Lowered(lib, parent)
  }

  predicate PortSubset(parent: seq<int>, child: seq<int>) {
    forall p :: p in child ==> p in parent
  }

  predicate EnumsShrink(parent: map<string, seq<Value>>, child: map<string, seq<Value>>) {
    forall p :: p in child ==> EnumShrinks(parent, child, p)
  }

  predicate EnumShrinks(parent: map<string, seq<Value>>, child: map<string, seq<Value>>, p: string)
    requires p in child
  {
    p in parent ==> forall v :: v in child[p] ==> v in parent[p]
  }

  /** The enum branch of `narrow_scope_value`, with its loop over the child's entries. */
  method NarrowEnums(parent: map<string, seq<Value>>, child: map<string, seq<Value>>)
    returns (merged: Option<map<string, seq<Value>>>)
    ensures merged == if EnumsShrink(parent, child) then Some(parent + child) else None
  {
    var m := parent;
    var todo := child.Keys;
    while todo != {}
      invariant todo <= child.Keys
      invariant MergedSoFar(parent, child, todo, m)
      decreases |todo|
    {
      var p :| p in todo;
      if !EnumShrinks(parent, child, p) {
        return None;
      }
      MergeOneMore(parent, child, todo, m, p);
      m := m[p := child[p]];
      todo := todo - {p};
    }
    MergeComplete(parent, child, m);
    return Some(m);
  }

  ghost predicate MergedSoFar(parent: map<string, seq<Value>>, child: map<string, seq<Value>>, todo: set<string>,
          m: map<string, seq<Value>>) {
    && m.Keys == parent.Keys + (child.Keys - todo)
    && (forall p :: p in m ==> m[p] == if p in child && p !in todo then child[p] else parent[p])
    && (forall p :: p in child && p !in todo ==> EnumShrinks(parent, child, p))
  }

  lemma MergeOneMore(parent: map<string, seq<Value>>, child: map<string, seq<Value>>, todo: set<string>,
          m: map<string, seq<Value>>, p: string)
    requires MergedSoFar(parent, child, todo, m) && p in child && EnumShrinks(parent, child, p)
    ensures MergedSoFar(parent, child, todo - {p}, m[p := child[p]])
  {
  }

  lemma MergeComplete(parent: map<string, seq<Value>>, child: map<string, seq<Value>>, m: map<string, seq<Value>>)
    requires MergedSoFar(parent, child, {}, m)
    ensures m == parent + child && EnumsShrink(parent, child)
  {
  }

  /** An option of both sides merged by `_scope_within`: a key the child leaves out is
      inherited, a key the parent lacks is added, and a key of both is narrowed. */
  function Inherit<T>(parent: Option<T>, child: Option<T>): Option<T> {
    if child.Some? then child else parent
  }

  // ------------------------------------- when narrowing one key narrows what it accepts

  /** A ceiling of the child replaces its parent's when it is not greater. That narrows if
      and only if the child's is a number, or the parent's ceiling stops nothing anyway:
      "not greater" is also true of NaN, and nothing is greater than NaN. */
  predicate CeilingLowered(parent: Float, child: Float) {
    child == NaN ==> parent == NaN || parent == PlusInf
  }

  lemma CeilingReplacementSoundIff(parent: Float, child: Float)
    requires !Over(child, parent)
    ensures (forall x :: !Over(x, child) ==> !Over(x, parent)) <==> CeilingLowered(parent, child)
  {
    if !CeilingLowered(parent, child) {
      var x := if parent.Fin? then Fin(parent.r + 1.0) else PlusInf;
      assert !Over(x, child) && Over(x, parent);
    }
  }

  /** Merging enums only ever removes accepted actions. */
  lemma EnumNarrowingSound(parent: map<string, seq<Value>>, child: map<string, seq<Value>>, params: Params)
    requires EnumsShrink(parent, child) && EnumsOk(parent + child, params)
    ensures EnumsOk(parent, params) && EnumsOk(child, params)
  {
    var merged := parent + child;
    forall p | p in parent && p in params
      ensures params[p] in parent[p]
    {
      assert p in merged && params[p] in merged[p];
      assert p in child ==> EnumShrinks(parent, child, p);
    }
  }

  predicate HostListOk(lib: Lib, allowed: seq<string>, params: Params) {
    allowed != [] ==> HostsOk(lib, allowed, params)
  }

  /** A subset of an allowlist narrows it if and only if it is not the empty subset: an
      empty list is read as unconstrained. (Some host is refused by the parent.) */
  lemma HostNarrowingSoundIff(lib: Lib, parent: seq<string>, child: seq<string>, refused: Value)
    requires HostSubset(lib, parent, child) && refused != Nil && !HostOk(lib, parent, refused)
    ensures (forall params :: HostListOk(lib, child, params) ==> HostListOk(lib, parent, params))
            <==> (parent == [] || child != [])
  {
    if parent == [] || child != [] {
      forall params | HostListOk(lib, child, params)
        ensures HostListOk(lib, parent, params)
      {
        if parent != [] {
          forall key | key in HOST_PARAMS && Param(params, key) != Nil
            ensures HostOk(lib, parent, Param(params, key))
          {
            assert HostOk(lib, child, Param(params, key));
          }
        }
      }
    } else {
      var params := map["host" := refused];
      assert "host" == HOST_PARAMS[0] && Param(params, "host") == refused;
      assert !HostListOk(lib, parent, params) && HostListOk(lib, child, params);
    }
  }

  predicate PortListOk(lib: Lib, allowed: seq<int>, params: Params) {
    allowed != [] ==> PortsOk(lib, allowed, params)
  }

  lemma PortNarrowingSoundIff(lib: Lib, parent: seq<int>, child: seq<int>, refused: Value)
    requires PortSubset(parent, child)
    requires lib.toInt(refused).Some? && lib.toInt(refused).value !in parent
    ensures (forall params :: PortListOk(lib, child, params) ==> PortListOk(lib, parent, params))
            <==> (parent == [] || child != [])
  {
    if parent == [] || child != [] {
      forall params | PortListOk(lib, child, params)
        ensures PortListOk(lib, parent, params)
      {
        forall port | PortOk(child, port)
          ensures PortOk(parent, port)
        {
          if port.Some? {
            var n: int := port.value;
            assert n in child && n in parent;
          }
        }
      }
    } else {
      var params := map["port" := refused];
      assert PortListOk(lib, child, params) && !PortListOk(lib, parent, params);
    }
  }

  /** A child's substring prohibition replaces its parent's. That narrows if and only if
      every forbidden text of the parent contains one of the child's for the same parameter. */
  predicate CoversSubstrings(parent: map<string, seq<string>>, child: map<string, seq<string>>) {
    forall p, n :: p in parent && n in parent[p] ==> SubstringCovered(child, p, n)
  }

  predicate SubstringCovered(child: map<string, seq<string>>, p: string, n: string) {
    p in child && exists m :: m in child[p] && Occurs(m, n)
  }

  lemma SliceOfSlice(c: string, k: nat, l: nat, i: nat, j: nat)
    requires k <= l <= |c| && i <= j <= l - k
    ensures c[k..l][i..j] == c[k + i..k + j]
  {
    forall x | 0 <= x < j - i
      ensures c[k..l][i..j][x] == c[k + i..k + j][x]
    {
    }
  }

  lemma OccursTransitive(a: string, b: string, c: string)
    requires Occurs(a, b) && Occurs(b, c)
    ensures Occurs(a, c)
  {
    var i, j :| 0 <= i <= j <= |b| && b[i..j] == a;
    var k, l :| 0 <= k <= l <= |c| && c[k..l] == b;
    SliceOfSlice(c, k, l, i, j);
  }

  lemma SubstringReplacementSoundIff(lib: Lib, parent: map<string, seq<string>>, child: map<string, seq<string>>)
    ensures (forall params :: SubstringsOk(lib, child, params) ==> SubstringsOk(lib, parent, params))
            <==> CoversSubstrings(parent, child)
  {
    if CoversSubstrings(parent, child) {
      forall params | SubstringsOk(lib, child, params)
        ensures SubstringsOk(lib, parent, params)
      {
        forall p, n | p in parent && Param(params, p) != Nil && n in parent[p]
          ensures !Occurs(n, Str(lib, Param(params, p)))
        {
          assert SubstringCovered(child, p, n);
          var m :| m in child[p] && Occurs(m, n);
          if Occurs(n, Str(lib, Param(params, p))) {
            OccursTransitive(m, n, Str(lib, Param(params, p)));
          }
        }
      }
    } else {
      var p, n :| p in parent && n in parent[p] && !SubstringCovered(child, p, n);
      var params := map[p := Text(n)];
      assert n[0..|n|] == n;
      assert Param(params, p) == Text(n) && Occurs(n, n);
      assert !SubstringsOk(lib, parent, params);
      assert SubstringsOk(lib, child, params);
    }
  }

  /** A child's forbidden data classes replace its parent's: sound exactly when the child
      repeats them all (up to case) - or the parent forbade nothing. */
  predicate ClassListOk(lib: Lib, forbidden: seq<string>, params: Params) {
    forbidden != [] ==> DataClassesOk(lib, forbidden, params)
  }

  predicate IterableTags(params: Params) {
    !Param(params, "data_classes").Number? && !Param(params, "data_class").Number?
  }

  lemma DataClassReplacementSoundIff(lib: Lib, parent: seq<string>, child: seq<string>)
    ensures (forall params :: IterableTags(params) && ClassListOk(lib, child, params) ==>
            ClassListOk(lib, parent, params))
            <==> Lowered(lib, parent) <= Lowered(lib, child)
  {
    if !(Lowered(lib, parent) <= Lowered(lib, child)) {
      var f :| f in parent && lib.lower(f) !in Lowered(lib, child);
      var params := map["data_classes" := List([Text(f)])];
      assert Param(params, "data_class") == Nil;
      assert Param(params, "data_classes") == List([Text(f)]);
      assert Text(f) in [Text(f)] && Str(lib, Text(f)) == f;
      assert !DataClassesOk(lib, parent, params);
      assert ClassListOk(lib, child, params) && !ClassListOk(lib, parent, params);
    } else {
      forall params | IterableTags(params) && ClassListOk(lib, child, params)
        ensures ClassListOk(lib, parent, params)
      {
        if parent != [] {
          assert lib.lower(parent[0]) in Lowered(lib, parent);
          assert child != [];
        }
      }
    }
  }

  /** A child's patterns replace its parent's: sound exactly when, parameter by parameter,
      no text passes the child's pattern and fails the parent's. */
  predicate RegexPasses(lib: Lib, spec: map<string, string>, p: string, text: string) {
    p in spec ==> lib.fullmatch(spec[p], text)
  }

  ghost predicate PatternsNarrow(lib: Lib, parent: map<string, string>, child: map<string, string>) {
    forall p, text :: RegexPasses(lib, child, p, text) ==> RegexPasses(lib, parent, p, text)
  }

  lemma PatternsSuffice(lib: Lib, parent: map<string, string>, child: map<string, string>, params: Params)
    requires PatternsNarrow(lib, parent, child) && RegexOk(lib, child, params)
    ensures RegexOk(lib, parent, params)
  {
    forall p | p in parent && Param(params, p) != Nil
      ensures lib.fullmatch(parent[p], Str(lib, Param(params, p)))
    {
      assert RegexPasses(lib, child, p, Str(lib, Param(params, p)));
      assert RegexPasses(lib, parent, p, Str(lib, Param(params, p)));
    }
  }

  lemma RegexReplacementSoundIff(lib: Lib, parent: map<string, string>, child: map<string, string>)
    ensures (forall params :: RegexOk(lib, child, params) ==> RegexOk(lib, parent, params))
            <==> PatternsNarrow(lib, parent, child)
  {
    if forall params :: RegexOk(lib, child, params) ==> RegexOk(lib, parent, params) {
      forall p, text | RegexPasses(lib, child, p, text)
        ensures RegexPasses(lib, parent, p, text)
      {
        var params := map[p := Text(text)];
        assert Param(params, p) == Text(text);
        assert forall q :: q != p ==> Param(params, q) == Nil;
        assert RegexOk(lib, child, params);
        assert RegexOk(lib, parent, params);
      }
    }
    if PatternsNarrow(lib, parent, child) {
      forall params | RegexOk(lib, child, params)
        ensures RegexOk(lib, parent, params)
      {
        PatternsSuffice(lib, parent, child, params);
      }
    }
  }
}
