/** Lexical paths and the string tests of path confinement (autarch/scoping.py,
    autarch/delegation.py), with POSIX-style `os.path.normpath`. */
module Paths {

  // --------------------------------------------------------------------- splitting

  function Split(s: string): (parts: seq<string>)
    ensures parts != []
  {
    if s == "" then [""] else Glue(s[0], Split(s[1..]))
  }

  /** A slash starts a new part, any other character extends the first one. */
  function Glue(c: char, parts: seq<string>): (glued: seq<string>)
    requires parts != []
    ensures glued != []
  {
    if c == '/' then [""] + parts else [[c] + parts[0]] + parts[1..]
  }

  lemma GlueAppend(c: char, a: seq<string>, b: seq<string>)
    requires a != []
    ensures Glue(c, a + b) == Glue(c, a) + b
  {
    assert (a + b)[1..] == a[1..] + b;
  }

  function Join(parts: seq<string>): string {
    if parts == [] then ""
    else if |parts| == 1 then parts[0]
    else parts[0] + "/" + Join(parts[1..])
  }

  predicate NoSlash(c: string) {
    '/' !in c
  }

  lemma {:induction false} SplitAtSlash(a: string, b: string)
    ensures Split(a + "/" + b) == Split(a) + Split(b)
  {
    var s := a + "/" + b;
    if a == "" {
      assert s[0] == '/' && s[1..] == b;
    } else {
      SplitAtSlash(a[1..], b);
      assert s[0] == a[0] && s[1..] == a[1..] + "/" + b;
      GlueAppend(a[0], Split(a[1..]), Split(b));
    }
  }

  lemma {:induction false} SplitPart(c: string)
    requires NoSlash(c)
    ensures Split(c) == [c]
  {
    if c != "" {
      assert c[0] in c;
      assert NoSlash(c[1..]);
      SplitPart(c[1..]);
      assert [c[0]] + c[1..] == c;
    }
  }

  lemma {:induction false} SplitJoin(parts: seq<string>)
    requires parts != [] && forall c :: c in parts ==> NoSlash(c)
    ensures Split(Join(parts)) == parts
  {
    SplitPart(parts[0]);
    if |parts| > 1 {
      SplitJoin(parts[1..]);
      SplitAtSlash(parts[0], Join(parts[1..]));
    }
  }

  lemma {:induction false} JoinAppend(a: seq<string>, b: seq<string>)
    requires a != [] && b != []
    ensures Join(a + b) == Join(a) + "/" + Join(b)
  {
    if |a| == 1 {
      assert (a + b)[1..] == b;
    } else {
      JoinAppend(a[1..], b);
      assert (a + b)[1..] == a[1..] + b;
    }
  }

  lemma {:induction false} SplitNoSlash(s: string)
    ensures forall c :: c in Split(s) ==> NoSlash(c)
  {
    if s != "" {
      SplitNoSlash(s[1..]);
      var rest := Split(s[1..]);
      assert rest[0] in rest;
    }
  }

  // ----------------------------------------------------------------- normalisation

  datatype Path = Path(abs: bool, comps: seq<string>)

  const ROOT := Path(true, [])
  const HERE := Path(false, [])

  /** One component of the loop in `normpath`. */
  function Push(p: Path, c: string): Path {
    if c == "" || c == "." then p
    else if c != ".." || (!p.abs && p.comps == []) || (p.comps != [] && p.comps[|p.comps| - 1] == "..")
    then p.(comps := p.comps + [c])
    else if p.comps != [] then p.(comps := p.comps[..|p.comps| - 1])
    else p
  }

  function PushAll(p: Path, cs: seq<string>): Path {
    if cs == [] then p else Push(PushAll(p, cs[..|cs| - 1]), cs[|cs| - 1])
  }

  predicate IsAbs(s: string) {
    s != "" && s[0] == '/'
  }

  function Parse(s: string): Path {
    PushAll(Path(IsAbs(s), []), Split(s))
  }

  function Render(p: Path): string {
    var body := (if p.abs then "/" else "") + Join(p.comps);
    if body == "" then "." else body
  }

  function NormPath(s: string): string {
    Render(Parse(s))
  }

  predicate GoodComp(c: string) {
    c != "" && c != "." && NoSlash(c)
  }

  /** Normal form: no empty or "." component, and ".." only at the front of a relative path. */
  ghost predicate Canonical(p: Path) {
    && (forall c :: c in p.comps ==> GoodComp(c))
    && (forall i :: 0 <= i < |p.comps| && p.comps[i] == ".." ==>
          !p.abs && forall j :: 0 <= j < i ==> p.comps[j] == "..")
  }

  lemma PushKeepsCanonical(p: Path, c: string)
    requires Canonical(p) && NoSlash(c)
    ensures Canonical(Push(p, c)) && Push(p, c).abs == p.abs
  {
    var q := Push(p, c);
    if |q.comps| == |p.comps| + 1 && c == ".." && p.comps != [] {
      var n := |p.comps| - 1;
      assert p.comps[n] == "..";
      assert !p.abs && forall j :: 0 <= j < n ==> p.comps[j] == "..";
    }
  }

  lemma {:induction false} PushAllKeepsCanonical(p: Path, cs: seq<string>)
    requires Canonical(p) && forall c :: c in cs ==> NoSlash(c)
    ensures Canonical(PushAll(p, cs)) && PushAll(p, cs).abs == p.abs
  {
    if cs != [] {
      PushAllKeepsCanonical(p, cs[..|cs| - 1]);
      PushKeepsCanonical(PushAll(p, cs[..|cs| - 1]), cs[|cs| - 1]);
    }
  }

  lemma ParseIsCanonical(s: string)
    ensures Canonical(Parse(s)) && Parse(s).abs == IsAbs(s)
  {
    SplitNoSlash(s);
    PushAllKeepsCanonical(Path(IsAbs(s), []), Split(s));
  }

  // --------------------------------------------------------- where a path leads to

  /** One step from a directory, given by its components from the root. */
  function StepInto(at: seq<string>, c: string): seq<string> {
    if c == "" || c == "." then at
    else if c != ".." then at + [c]
    else if at == [] then []
    else at[..|at| - 1]
  }

  function Walk(at: seq<string>, steps: seq<string>): seq<string> {
    if steps == [] then at else StepInto(Walk(at, steps[..|steps| - 1]), steps[|steps| - 1])
  }

  lemma PushKeepsPlace(p: Path, c: string, at: seq<string>)
    requires Canonical(p) && (p.abs ==> at == [])
    ensures Walk(at, Push(p, c).comps) == StepInto(Walk(at, p.comps), c)
  {
    if p.comps != [] {
      assert p.comps[|p.comps| - 1] in p.comps;
    }
    assert (p.comps + [c])[..|p.comps|] == p.comps;
  }

  lemma {:induction false} PushAllKeepsPlace(p: Path, cs: seq<string>, at: seq<string>)
    requires Canonical(p) && (p.abs ==> at == []) && forall c :: c in cs ==> NoSlash(c)
    ensures Walk(at, PushAll(p, cs).comps) == Walk(Walk(at, p.comps), cs)
  {
    if cs != [] {
      var init, last := cs[..|cs| - 1], cs[|cs| - 1];
      PushAllKeepsPlace(p, init, at);
      PushAllKeepsCanonical(p, init);
      PushKeepsPlace(PushAll(p, init), last, at);
    }
  }

  /** Normalising a path does not change where it leads: from any directory - from the root,
      if it is absolute - its components lead to where the text's own components lead. */
  lemma NormalKeepsPlace(s: string, at: seq<string>)
    requires IsAbs(s) ==> at == []
    ensures Walk(at, Parse(s).comps) == Walk(at, Split(s))
  {
    SplitNoSlash(s);
    PushAllKeepsPlace(Path(IsAbs(s), []), Split(s), at);
  }

  /** The components are the text between the slashes. */
  lemma {:induction false} JoinSplit(s: string)
    ensures Join(Split(s)) == s
  {
    if s != "" {
      JoinSplit(s[1..]);
    }
  }

  lemma PushNext(p: Path, n: nat)
    requires Canonical(p) && 0 < n <= |p.comps|
    ensures Push(Path(p.abs, p.comps[..n - 1]), p.comps[n - 1]) == Path(p.abs, p.comps[..n])
  {
    var c := p.comps[n - 1];
    assert c in p.comps;
    if c == ".." && n > 1 {
      assert p.comps[..n - 1][n - 2] == "..";
    }
    assert p.comps[..n - 1] + [c] == p.comps[..n];
  }

  /** Pushing the components of a canonical path rebuilds it. */
  lemma {:induction false} PushAllRebuilds(p: Path, n: nat)
    requires Canonical(p) && n <= |p.comps|
    ensures PushAll(Path(p.abs, []), p.comps[..n]) == Path(p.abs, p.comps[..n])
  {
    if n > 0 {
      PushAllRebuilds(p, n - 1);
      PushNext(p, n);
      assert p.comps[..n][..n - 1] == p.comps[..n - 1];
    }
  }

  lemma {:induction false} PushAllAppend(p: Path, a: seq<string>, b: seq<string>)
    ensures PushAll(p, a + b) == PushAll(PushAll(p, a), b)
    decreases |b|
  {
    if b == [] {
      assert a + b == a;
    } else {
      PushAllAppend(p, a, b[..|b| - 1]);
      assert (a + b)[..|a + b| - 1] == a + b[..|b| - 1];
    }
  }

  lemma RenderRelative(p: Path)
    requires Canonical(p) && !p.abs && p.comps != []
    ensures Render(p) == Join(p.comps) && Render(p) != "" && !IsAbs(Render(p))
    ensures p.comps[0] <= Render(p)
  {
    assert p.comps[0] in p.comps;
    assert p.comps[0][0] in p.comps[0];
    if |p.comps| > 1 {
      assert Join(p.comps) == p.comps[0] + "/" + Join(p.comps[1..]);
    }
  }

  lemma RootReadsBack()
    ensures Parse(Render(ROOT)) == ROOT
  {
    assert Render(ROOT) == "/" && "" + "/" + "" == "/";
    SplitAtSlash("", "");
    assert Split("/") == ["", ""];
    assert ["", ""][..1] == [""] && [""][..0] == [];
  }

  lemma HereReadsBack()
    ensures Parse(Render(HERE)) == HERE
  {
    assert NoSlash(".");
    SplitPart(".");
    assert ["."][..0] == [];
  }

  lemma AbsoluteReadsBack(p: Path)
    requires Canonical(p) && p.abs && p.comps != []
    ensures Parse(Render(p)) == p
  {
    var body := Join(p.comps);
    assert Render(p) == "" + "/" + body;
    CompsNoSlash(p);
    SplitJoin(p.comps);
    SplitAtSlash("", body);
    PushAllAppend(Path(true, []), [""], p.comps);
    assert [""][..0] == [];
    PushAllRebuilds(p, |p.comps|);
    assert p.comps[..|p.comps|] == p.comps;
  }

  lemma RelativeReadsBack(p: Path)
    requires Canonical(p) && !p.abs && p.comps != []
    ensures Parse(Render(p)) == p
  {
    RenderRelative(p);
    CompsNoSlash(p);
    SplitJoin(p.comps);
    PushAllRebuilds(p, |p.comps|);
    assert p.comps[..|p.comps|] == p.comps;
  }

  /** A normal path reads back as itself: parsing undoes rendering. */
  lemma ParseRender(p: Path)
    requires Canonical(p)
    ensures Parse(Render(p)) == p
  {
    if p.comps == [] {
      if p.abs {
        assert p == ROOT;
        RootReadsBack();
      } else {
        assert p == HERE;
        HereReadsBack();
      }
    } else if p.abs {
      AbsoluteReadsBack(p);
    } else {
      RelativeReadsBack(p);
    }
  }

  /** `normpath` is idempotent and leaves ".." only at the front of a relative path. */
  lemma NormPathIdempotent(s: string)
    ensures NormPath(NormPath(s)) == NormPath(s)
    ensures Canonical(Parse(NormPath(s)))
  {
    ParseIsCanonical(s);
    ParseRender(Parse(s));
  }

  // ------------------------------------------------------------------- containment

  /** What the string tests decide on normal paths: equality, or a proper extension by
      whole components. The root "/" has the string "//" to match and contains only itself. */
  ghost predicate Contains(b: Path, p: Path) {
    p == b || (b.comps != [] && b.abs == p.abs && b.comps <= p.comps)
  }

  /** `norm == base or norm.startswith(base + "/")`. */
  predicate WithinText(base: string, norm: string) {
    norm == base || base + "/" <= norm
  }

  lemma ExtendsIfContained(b: Path, p: Path)
    requires Canonical(b) && Canonical(p) && Contains(b, p)
    ensures WithinText(Render(b), Render(p))
  {
    if p != b {
      var more := p.comps[|b.comps|..];
      assert p.comps == b.comps + more;
      JoinAppend(b.comps, more);
      if !p.abs {
        RenderRelative(b);
        RenderRelative(p);
      }
      assert Render(b) + "/" + Join(more) == Render(p);
    }
  }

  lemma ContainedIfExtends(b: Path, p: Path)
    requires Canonical(b) && Canonical(p) && WithinText(Render(b), Render(p))
    ensures Contains(b, p)
  {
    ParseRender(b);
    ParseRender(p);
    var base, norm := Render(b), Render(p);
    if norm != base {
      var tail := norm[|base| + 1..];
      assert norm == base + "/" + tail;
      RenderHead(p);
      RenderHead(b);
      assert norm[0] == base[0];
      assert b.abs == p.abs;
      assert b.comps != [];
      var lead := if p.abs then "/" else "";
      assert base == lead + Join(b.comps) && norm == lead + Join(p.comps);
      assert norm[|lead|..] == Join(p.comps) && base[|lead|..] == Join(b.comps);
      assert Join(p.comps) == Join(b.comps) + "/" + tail;
      SplitAtSlash(Join(b.comps), tail);
      CompsNoSlash(b);
      CompsNoSlash(p);
      SplitJoin(b.comps);
      SplitJoin(p.comps);
    }
  }

  lemma CompsNoSlash(p: Path)
    requires Canonical(p)
    ensures forall c :: c in p.comps ==> NoSlash(c)
  {
    forall c | c in p.comps
      ensures NoSlash(c)
    {
      assert GoodComp(c);
    }
  }

  /** How a rendered normal path begins. */
  lemma RenderHead(p: Path)
    requires Canonical(p)
    ensures Render(p) != "" && (IsAbs(Render(p)) <==> p.abs)
    ensures p.comps == [] ==> Render(p) == if p.abs then "/" else "."
    ensures p.comps != [] ==> Render(p) == (if p.abs then "/" else "") + Join(p.comps)
    ensures p.comps != [] ==> Render(p) != "/" && Render(p) != "." && !("./" <= Render(p)) && !("//" <= Render(p))
  {
    if p.comps != [] {
      var c := p.comps[0];
      assert c in p.comps && GoodComp(c);
      assert c[0] in c && c[0] != '/';
      assert Join(p.comps)[0] == c[0];
      if |c| > 1 {
        assert c[1] in c && c[1] != '/';
        assert Join(p.comps)[1] == c[1];
      } else {
        assert c == [c[0]];
        assert c[0] != '.';
      }
      assert !p.abs ==> Render(p) == Join(p.comps);
      assert p.abs ==> Render(p)[0] == '/' && Render(p)[1] == c[0];
      assert !p.abs ==> Render(p)[0] == c[0] && (|c| > 1 ==> Render(p)[1] == c[1]);
    }
  }

  /** The string tests hold exactly when the base's components are the front of the path's. */
  lemma WithinTextIsContainment(b: Path, p: Path)
    requires Canonical(b) && Canonical(p)
    ensures WithinText(Render(b), Render(p)) <==> Contains(b, p)
  {
    if Contains(b, p) {
      ExtendsIfContained(b, p);
    }
    if WithinText(Render(b), Render(p)) {
      ContainedIfExtends(b, p);
    }
  }

  /** The base's components begin the path's. */
  ghost predicate Begins(b: Path, p: Path) {
    b.abs == p.abs && b.comps <= p.comps
  }

  /** That is what the string tests are meant to decide. They do, for every path, if and
      only if the base has a component at all. */
  lemma TextTestExactIff(b: Path)
    requires Canonical(b)
    ensures (forall p :: Canonical(p) ==> (WithinText(Render(b), Render(p)) <==> Begins(b, p))) <==> b.comps != []
  {
    if b.comps != [] {
      forall p | Canonical(p)
        ensures WithinText(Render(b), Render(p)) <==> Begins(b, p)
      {
        WithinTextIsContainment(b, p);
      }
    } else {
      var p := Path(b.abs, ["x"]);
      assert Canonical(p) && Begins(b, p);
      WithinTextIsContainment(b, p);
      assert !Contains(b, p);
    }
  }

  /** "/etc" is not within "/". */
  lemma RootContainsOnlyItself(child: string)
    ensures PathWithin("/", child) <==> NormPath(child) == "/"
    ensures !PathWithin("/", "/etc")
  {
    ParseIsCanonical(child);
    ParseIsCanonical("/");
    ParseIsCanonical("/etc");
    RootParses();
    RenderHead(Parse(child));
    RenderHead(Parse("/etc"));
    PathWithinMeans("/", child);
    PathWithinMeans("/", "/etc");
    EtcParses();
  }

  lemma RootParses()
    ensures Parse("/") == ROOT
  {
    ParseRender(ROOT);
  }

  lemma EtcParses()
    ensures Parse("/etc") == Path(true, ["etc"])
  {
    assert forall c :: c in ["etc"] ==> GoodComp(c);
    assert Canonical(Path(true, ["etc"]));
    ParseRender(Path(true, ["etc"]));
    assert Render(Path(true, ["etc"])) == "/etc";
  }

  /** `norm.startswith("..")`: also true of a name such as "..x". */
  predicate Upward(norm: string) {
    ".." <= norm
  }

  ghost predicate GoesUp(p: Path) {
    !p.abs && p.comps != [] && ".." <= p.comps[0]
  }

  lemma UpwardIsGoesUp(p: Path)
    requires Canonical(p)
    ensures Upward(Render(p)) <==> GoesUp(p)
  {
    RenderHead(p);
    if p.comps != [] && !p.abs {
      var c := p.comps[0];
      assert c in p.comps && GoodComp(c);
      RenderRelative(p);
      if Upward(Render(p)) {
        assert Render(p)[0] == '.' && Render(p)[1] == '.';
        assert c[0] == Render(p)[0];
        assert c != [c[0]];
        assert c[1] == Render(p)[1];
      }
    }
  }

  /** The path leaves the directory it starts from. */
  ghost predicate ClimbsOut(p: Path) {
    !p.abs && p.comps != [] && p.comps[0] == ".."
  }

  /** That is what the test on ".." is meant to decide. It does, if and only if the path
      does not begin with a longer name that starts with two dots. */
  lemma UpwardExactIff(p: Path)
    requires Canonical(p)
    ensures (Upward(Render(p)) <==> ClimbsOut(p)) <==>
            p.abs || p.comps == [] || p.comps[0] == ".." || !(".." <= p.comps[0])
  {
    UpwardIsGoesUp(p);
  }

  /** "..x" is refused everywhere, although it climbs nowhere. */
  lemma DottedNameIsRefused(prefix: string)
    ensures !PathAccepted(prefix, "..x") && !PathWithin(prefix, "..x") && !ClimbsOut(Parse("..x"))
  {
    var p := Path(false, ["..x"]);
    assert forall c :: c in p.comps ==> GoodComp(c);
    assert Canonical(p);
    ParseRender(p);
    assert Render(p) == "..x";
  }

  // -------------------------------------------------------------- the two consumers

  /** `_check_path_prefix` for one path parameter. */
  predicate PathAccepted(prefix: string, value: string) {
    var base, norm := NormPath(prefix), NormPath(value);
    && !IsAbs(norm) && !Upward(norm)
    && (base == "." || base == "" || WithinText(base, norm))
  }

  /** `_path_within`. */
  predicate PathWithin(parent: string, child: string) {
    var p, c := NormPath(parent), NormPath(child);
    !Upward(c) && (p == "." || WithinText(p, c))
  }

  lemma PathAcceptedMeans(prefix: string, value: string)
    ensures var b, p := Parse(prefix), Parse(value);
            PathAccepted(prefix, value) <==> !p.abs && !GoesUp(p) && (b == HERE || Contains(b, p))
  {
    var b, p := Parse(prefix), Parse(value);
    ParseIsCanonical(prefix);
    ParseIsCanonical(value);
    RenderHead(b);
    RenderHead(p);
    UpwardIsGoesUp(p);
    WithinTextIsContainment(b, p);
  }

  lemma PathWithinMeans(parent: string, child: string)
    ensures var p, c := Parse(parent), Parse(child);
            PathWithin(parent, child) <==> !GoesUp(c) && (p == HERE || Contains(p, c))
  {
    var p, c := Parse(parent), Parse(child);
    ParseIsCanonical(parent);
    ParseIsCanonical(child);
    RenderHead(p);
    UpwardIsGoesUp(c);
    WithinTextIsContainment(p, c);
  }

  lemma PathWithinTransitive(a: string, b: string, c: string)
    requires PathWithin(a, b) && PathWithin(b, c)
    ensures PathWithin(a, c)
  {
    PathWithinMeans(a, b);
    PathWithinMeans(b, c);
    PathWithinMeans(a, c);
  }

  /** A path accepted under a child prefix is accepted under every prefix containing it. */
  lemma WiderPrefixAccepts(parent: string, child: string, value: string)
    requires PathWithin(parent, child) && PathAccepted(child, value)
    ensures PathAccepted(parent, value)
  {
    PathWithinMeans(parent, child);
    PathAcceptedMeans(child, value);
    PathAcceptedMeans(parent, value);
  }

  /** For relative prefixes that do not go up, `_path_within` is exactly inclusion of the
      accepted paths: it refuses no narrowing and lets no widening through. */
  lemma PathWithinIsInclusion(parent: string, child: string)
    requires !IsAbs(child) && !GoesUp(Parse(child))
    ensures PathWithin(parent, child) <==> forall v :: PathAccepted(child, v) ==> PathAccepted(parent, v)
  {
    if PathWithin(parent, child) {
      forall v | PathAccepted(child, v)
        ensures PathAccepted(parent, v)
      {
        WiderPrefixAccepts(parent, child, v);
      }
    } else {
      ParseIsCanonical(child);
      PathAcceptedMeans(child, child);
      PathAcceptedMeans(parent, child);
      PathWithinMeans(parent, child);
      assert PathAccepted(child, child) && !PathAccepted(parent, child);
    }
  }
}
