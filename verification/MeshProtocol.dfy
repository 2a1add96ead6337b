/** The mesh as a distributed step system: writers record, nodes export bundles,
    importers merge them one row at a time, in any order and any interleaving
    (autarch/memory.py, autarch/mesh.py, autarch/transport.py). */
module MeshProtocol {
  import opened Prelude
  import opened Ledger

  /** `home` says in which store an origin's writer records: an origin has one store, and
      one writer at a time. Several writers may share one store under distinct origins, as
      the isolated children of an orchestrator do. SharedOriginBreaksChain in module Merging
      and RacingWritersBreakChain below show that both halves are needed. */
  datatype Config = Config(hash: Hash, nodes: nat, home: string -> nat)

  /** A writer between reading its last seal and inserting its row. */
  datatype Draft = Draft(id: string, payload: string, prev: string)

  /** A merge under way: `pos` rows of the bundle have been handled. */
  datatype Importer = Importer(node: nat, bundle: nat, pos: nat)

  datatype World = World(
    log: map<string, seq<Row>>,        // per origin, everything its author ever recorded
    stores: seq<seq<Row>>,             // per node, table `why`
    drafts: map<string, Draft>,
    bundles: seq<seq<Row>>,            // every table ever exported; a bundle may be used late and often
    importers: seq<Importer>,
    redacted: seq<set<(string, string)>>)

  datatype Step =
    | ReadTip(origin: string, id: string, payload: string)
    | Insert(origin: string)
    | Abandon(origin: string)
    | Export(node: nat)
    | Receive(node: nat, bundle: nat)
    | MergeRow(importer: nat)
    | Redact(node: nat, id: string, field: string)

  function Log(w: World, o: string): seq<Row> {
    if o in w.log then w.log[o] else []
  }

  /** The i-th record of author o has this id. */
  ghost predicate At(w: World, o: string, i: nat, id: string) {
    i < |Log(w, o)| && Log(w, o)[i].id == id
  }

  ghost predicate FreshId(w: World, id: string) {
    forall o, i: nat :: !At(w, o, i, id)
  }

  function Init(c: Config): World {
    World(map[], seq(c.nodes, _ => []), map[], [], [], seq(c.nodes, _ => {}))
  }

  /** One atomic step; a step that is not possible leaves the world as it is. */
  ghost function Apply(c: Config, w: World, s: Step): World {
    match s
    case ReadTip(o, id, payload) =>
      if c.home(o) < |w.stores| && o !in w.drafts
      then w.(drafts := w.drafts[o := Draft(id, payload, LastSeal(w.stores[c.home(o)], o))])
      else w
    case Insert(o) =>
      if c.home(o) < |w.stores| && o in w.drafts then
        var rest := w.(drafts := w.drafts - {o});
        if FreshId(w, w.drafts[o].id) then
          rest.(log := w.log[o := Log(w, o) + [DraftRow(c, w, o)]],
                stores := w.stores[c.home(o) := w.stores[c.home(o)] + [DraftRow(c, w, o)]])
        else rest
      else w
    case Abandon(o) => w.(drafts := w.drafts - {o})
    case Export(n) => if n < |w.stores| then w.(bundles := w.bundles + [w.stores[n]]) else w
    case Receive(n, b) =>
      if n < |w.stores| && b < |w.bundles| then w.(importers := w.importers + [Importer(n, b, 0)]) else w
    case MergeRow(m) =>
      if m < |w.importers| && Open(w, w.importers[m]) then
        var i := w.importers[m];
        w.(stores := w.stores[i.node := ImportOne(c.hash, w.stores[i.node], w.bundles[i.bundle][i.pos])],
           importers := w.importers[m := i.(pos := i.pos + 1)])
      else w
    case Redact(n, id, field) =>
      if n < |w.redacted| && n < |w.stores| && id in Ids(w.stores[n])
      then w.(redacted := w.redacted[n := w.redacted[n] + {(id, field)}])
      else w
  }

  function DraftRow(c: Config, w: World, o: string): Row
    requires o in w.drafts
  {
    NewRow(c.hash, w.drafts[o].id, w.drafts[o].payload, w.drafts[o].prev, o)
  }

  predicate Open(w: World, i: Importer) {
    i.node < |w.stores| && i.bundle < |w.bundles| && i.pos < |w.bundles[i.bundle]|
  }

  ghost function Run(c: Config, steps: seq<Step>): World {
    if steps == [] then Init(c) else Apply(c, Run(c, steps[..|steps| - 1]), steps[|steps| - 1])
  }

  // ------------------------------------------------------------------- invariant

  ghost predicate PrefixFor(w: World, t: seq<Row>, o: string) {
    Project(t, o) <= Log(w, o)
  }

  /** Every row of the table is an authored row, and each origin's rows are, in
      insertion order, a prefix of what its author has recorded. */
  ghost predicate PrefixTable(w: World, t: seq<Row>) {
    && (forall o :: PrefixFor(w, t, o))
    && (forall r :: r in t ==> r.seal.Some?)
  }

  /** Record ids are unique over all authors. */
  ghost predicate UniqueIds(w: World) {
    forall o, i: nat, o', i': nat, id :: At(w, o, i, id) && At(w, o', i', id) ==> o == o' && i == i'
  }

  ghost predicate AuthoredChain(c: Config, w: World, o: string) {
    Linked(c.hash, Log(w, o)) && forall r :: r in Log(w, o) ==> r.origin == o
  }

  ghost predicate LogsChained(c: Config, w: World) {
    forall o :: AuthoredChain(c, w, o)
  }

  ghost predicate HomeHolds(c: Config, w: World, o: string) {
    if c.home(o) < |w.stores| then Project(w.stores[c.home(o)], o) == Log(w, o) else Log(w, o) == []
  }

  ghost predicate HomeComplete(c: Config, w: World) {
    forall o :: HomeHolds(c, w, o)
  }

  /** No other writer can move the tip between a writer's read and its insert. */
  ghost predicate DraftsCurrent(c: Config, w: World) {
    forall o :: o in w.drafts ==> c.home(o) < |w.stores| && w.drafts[o].prev == LastSeal(w.stores[c.home(o)], o)
  }

  ghost predicate ImporterSound(w: World, i: Importer) {
    && i.node < |w.stores| && i.bundle < |w.bundles| && i.pos <= |w.bundles[i.bundle]|
    && Ids(w.bundles[i.bundle][..i.pos]) <= Ids(w.stores[i.node])
  }

  ghost predicate StoresPrefix(w: World) {
    forall n :: 0 <= n < |w.stores| ==> PrefixTable(w, w.stores[n])
  }

  ghost predicate BundlesPrefix(w: World) {
    forall b :: 0 <= b < |w.bundles| ==> PrefixTable(w, w.bundles[b])
  }

  ghost predicate ImportersSound(w: World) {
    forall m :: 0 <= m < |w.importers| ==> ImporterSound(w, w.importers[m])
  }

  ghost predicate Inv(c: Config, w: World) {
    && UniqueIds(w) && LogsChained(c, w) && HomeComplete(c, w) && DraftsCurrent(c, w)
    && StoresPrefix(w) && BundlesPrefix(w) && ImportersSound(w)
  }

  // ---------------------------------------------------------------------- merging

  /** In a prefix table the row of an id is the authored row of that id. */
  lemma RowIsAuthored(w: World, t: seq<Row>, r: Row) returns (i: nat)
    requires PrefixTable(w, t) && r in t
    ensures i < |Project(t, r.origin)| <= |Log(w, r.origin)|
    ensures Project(t, r.origin)[i] == r == Log(w, r.origin)[i]
  {
    ProjectMember(t, r.origin, r);
    assert PrefixFor(w, t, r.origin);
    assert r in Project(t, r.origin);
    i :| 0 <= i < |Project(t, r.origin)| && Project(t, r.origin)[i] == r;
  }

  lemma RowOfId(t: seq<Row>, id: string) returns (r: Row)
    requires id in Ids(t)
    ensures r in t && r.id == id
  {
    r :| r in t && r.id == id;
  }

  /** If a table holds the first k records of an author by id, its chain for that
      author has at least k rows. */
  lemma HoldsAtLeast(w: World, t: seq<Row>, o: string, k: nat)
    requires UniqueIds(w) && PrefixTable(w, t)
    requires k <= |Log(w, o)| && forall i :: 0 <= i < k ==> Log(w, o)[i].id in Ids(t)
    requires forall r :: r in Log(w, o) ==> r.origin == o
    ensures k <= |Project(t, o)|
  {
    if k > 0 {
      var r := RowOfId(t, Log(w, o)[k - 1].id);
      var i := RowIsAuthored(w, t, r);
      assert At(w, o, k - 1, r.id) && At(w, r.origin, i, r.id);
    }
  }

  /** The next row of a prefix table, of origin o, is the authored record whose index
      is the number of o's rows before it. */
  lemma NextRowIsAuthored(c: Config, w: World, b: seq<Row>, k: nat)
    requires LogsChained(c, w) && PrefixTable(w, b) && k < |b|
    ensures var o, n := b[k].origin, |Project(b[..k], b[k].origin)|;
            && n < |Log(w, o)| && Log(w, o)[n] == b[k] && SealedBy(c.hash, b[k])
            && forall i :: 0 <= i < n ==> Log(w, o)[i] in b[..k]
  {
    var r, o := b[k], b[k].origin;
    var done := b[..k];
    assert b[..k + 1] == done + [r];
    assert r in b;
    ProjectAppend(done, r, o);
    ProjectPrefix(b, k + 1, o);
    assert PrefixFor(w, b, o);
    var n := |Project(done, o)|;
    assert Project(b, o)[n] == Project(b[..k + 1], o)[n] == r;
    assert AuthoredChain(c, w, o);
    LinkedMember(c.hash, Log(w, o), n);
    forall i | 0 <= i < n
      ensures Log(w, o)[i] in done
    {
      assert Project(b, o)[i] == Project(b[..k + 1], o)[i] == Project(done, o)[i];
      ProjectMember(done, o, Project(done, o)[i]);
    }
  }

  lemma AppendKeepsPrefixFor(w: World, t: seq<Row>, r: Row, o: string)
    requires PrefixFor(w, t, o) && r.seal.Some?
    requires r.origin == o ==> |Project(t, o)| < |Log(w, o)| && Log(w, o)[|Project(t, o)|] == r
    ensures PrefixFor(w, t + [r], o)
  {
    ProjectAppend(t, r, o);
  }

  lemma AppendKeepsPrefix(w: World, t: seq<Row>, r: Row)
    requires PrefixTable(w, t) && r.seal.Some?
    requires var n := |Project(t, r.origin)|; n < |Log(w, r.origin)| && Log(w, r.origin)[n] == r
    ensures PrefixTable(w, t + [r])
  {
    forall o
      ensures PrefixFor(w, t + [r], o)
    {
      assert PrefixFor(w, t, o);
      AppendKeepsPrefixFor(w, t, r, o);
    }
  }

  /** A row whose id is new, after the rows before it in its bundle, is the next of its author. */
  lemma NewRowIsNext(c: Config, w: World, t: seq<Row>, b: seq<Row>, k: nat)
    requires UniqueIds(w) && LogsChained(c, w) && PrefixTable(w, t) && PrefixTable(w, b)
    requires k < |b| && Ids(b[..k]) <= Ids(t) && b[k].id !in Ids(t)
    ensures var n := |Project(t, b[k].origin)|; n < |Log(w, b[k].origin)| && Log(w, b[k].origin)[n] == b[k]
  {
    var r, o := b[k], b[k].origin;
    NextRowIsAuthored(c, w, b, k);
    var n := |Project(b[..k], o)|;
    assert AuthoredChain(c, w, o) && PrefixFor(w, t, o);
    HoldsAtLeast(w, t, o, n);
    if n < |Project(t, o)| {
      assert Project(t, o)[n] == r;
      ProjectMember(t, o, r);
      assert false;
    }
  }

  /** Handling the next row of a bundle, after the rows before it, keeps every
      origin's rows a prefix of what its author recorded. */
  lemma MergeKeepsPrefix(c: Config, w: World, t: seq<Row>, b: seq<Row>, k: nat)
    requires UniqueIds(w) && LogsChained(c, w) && PrefixTable(w, t) && PrefixTable(w, b)
    requires k < |b| && Ids(b[..k]) <= Ids(t)
    ensures PrefixTable(w, ImportOne(c.hash, t, b[k]))
    ensures Ids(b[..k + 1]) <= Ids(ImportOne(c.hash, t, b[k]))
  {
    var r := b[k];
    assert b[..k + 1] == b[..k] + [r];
    IdsAppend(b[..k], r);
    IdsAppend(t, r);
    if r.id !in Ids(t) {
      NextRowIsAuthored(c, w, b, k);
      NewRowIsNext(c, w, t, b, k);
      AppendKeepsPrefix(w, t, r);
    }
  }

  /** A merge never touches the chain of an origin whose whole log is already held. */
  lemma MergeSkipsComplete(c: Config, w: World, t: seq<Row>, b: seq<Row>, k: nat, o: string)
    requires UniqueIds(w) && LogsChained(c, w) && PrefixTable(w, t) && PrefixTable(w, b)
    requires k < |b| && Ids(b[..k]) <= Ids(t)
    requires Project(t, o) == Log(w, o)
    ensures Project(ImportOne(c.hash, t, b[k]), o) == Project(t, o)
    ensures LastSeal(ImportOne(c.hash, t, b[k]), o) == LastSeal(t, o)
  {
    MergeKeepsPrefix(c, w, t, b, k);
    var t' := ImportOne(c.hash, t, b[k]);
    ProjectAppend(t, b[k], o);
    assert PrefixFor(w, t', o);
    LastSealEndsChain(t, o);
    LastSealEndsChain(t', o);
  }

  // ------------------------------------------------------------------------ steps

  ghost predicate LogsGrow(w: World, w': World) {
    forall o :: Log(w, o) <= Log(w', o)
  }

  lemma PrefixTableGrows(w: World, w': World, t: seq<Row>)
    requires LogsGrow(w, w') && PrefixTable(w, t)
    ensures PrefixTable(w', t)
  {
    forall o
      ensures PrefixFor(w', t, o)
    {
      assert PrefixFor(w, t, o);
      assert Log(w, o) <= Log(w', o);
    }
  }

  /** Importers stay sound when stores only gain rows and bundles are only added. */
  lemma ImportersStaySound(w: World, w': World)
    requires ImportersSound(w) && w'.importers == w.importers
    requires |w'.stores| == |w.stores| && w.bundles <= w'.bundles
    requires forall n :: 0 <= n < |w.stores| ==> Ids(w.stores[n]) <= Ids(w'.stores[n])
    ensures ImportersSound(w')
  {
    forall m | 0 <= m < |w'.importers|
      ensures ImporterSound(w', w'.importers[m])
    {
      assert ImporterSound(w, w.importers[m]);
    }
  }

  /** w' is w after origin o's draft became a row. */
  ghost predicate Recorded(c: Config, w: World, o: string, row: Row, w': World) {
    && c.home(o) < |w.stores| && o in w.drafts && row == DraftRow(c, w, o) && FreshId(w, row.id)
    && Log(w', o) == Log(w, o) + [row] && (forall o' :: o' != o ==> Log(w', o') == Log(w, o'))
    && w'.stores == w.stores[c.home(o) := w.stores[c.home(o)] + [row]]
    && w'.drafts == w.drafts - {o}
  }

  lemma InsertKeepsLogs(c: Config, w: World, o: string, row: Row, w': World)
    requires Inv(c, w) && Recorded(c, w, o, row, w')
    ensures LogsGrow(w, w') && LogsChained(c, w') && UniqueIds(w')
  {
    assert HomeHolds(c, w, o) && AuthoredChain(c, w, o);
    LastSealEndsChain(w.stores[c.home(o)], o);
    LinkedAppend(c.hash, Log(w, o), row);
    forall o'
      ensures AuthoredChain(c, w', o')
    {
      assert AuthoredChain(c, w, o');
    }
    AppendKeepsUnique(w, w', o, row);
  }

  lemma AppendKeepsUnique(w: World, w': World, o: string, row: Row)
    requires UniqueIds(w) && FreshId(w, row.id)
    requires Log(w', o) == Log(w, o) + [row]
    requires forall o' :: o' != o ==> Log(w', o') == Log(w, o')
    ensures UniqueIds(w')
  {
    forall o', i: nat, id
      ensures At(w', o', i, id) <==> At(w, o', i, id) || (o' == o && i == |Log(w, o)| && id == row.id)
    {
    }
  }

  lemma InsertKeepsStores(c: Config, w: World, o: string, row: Row, w': World)
    requires Inv(c, w) && Recorded(c, w, o, row, w') && LogsGrow(w, w')
    ensures HomeComplete(c, w') && StoresPrefix(w')
  {
    var n := c.home(o);
    var t, t' := w.stores[n], w'.stores[n];
    assert HomeHolds(c, w, o);
    forall k | 0 <= k < |w'.stores|
      ensures PrefixTable(w', w'.stores[k])
    {
      PrefixTableGrows(w, w', w.stores[k]);
      if k == n {
        forall o'
          ensures PrefixFor(w', t', o')
        {
          ProjectAppend(t, row, o');
          assert PrefixFor(w', t, o');
        }
      }
    }
    forall o'
      ensures HomeHolds(c, w', o')
    {
      ProjectAppend(t, row, o');
      assert HomeHolds(c, w, o');
    }
  }

  lemma InsertKeepsDrafts(c: Config, w: World, o: string, row: Row, w': World)
    requires DraftsCurrent(c, w) && Recorded(c, w, o, row, w')
    ensures DraftsCurrent(c, w')
  {
    var t, t' := w.stores[c.home(o)], w'.stores[c.home(o)];
    forall o' | o' in w'.drafts
      ensures c.home(o') < |w'.stores| && w'.drafts[o'].prev == LastSeal(w'.stores[c.home(o')], o')
    {
      assert t'[..|t|] == t;
    }
  }

  lemma InsertKeepsInv(c: Config, w: World, o: string)
    requires Inv(c, w)
    requires c.home(o) < |w.stores| && o in w.drafts && FreshId(w, w.drafts[o].id)
    ensures Inv(c, Apply(c, w, Insert(o)))
  {
    var w' := Apply(c, w, Insert(o));
    var row := DraftRow(c, w, o);
    assert Recorded(c, w, o, row, w');
    InsertKeepsLogs(c, w, o, row, w');
    InsertKeepsStores(c, w, o, row, w');
    InsertKeepsDrafts(c, w, o, row, w');
    assert BundlesPrefix(w') by {
      forall b | 0 <= b < |w'.bundles|
        ensures PrefixTable(w', w'.bundles[b])
      {
        PrefixTableGrows(w, w', w.bundles[b]);
      }
    }
    IdsAppend(w.stores[c.home(o)], row);
    ImportersStaySound(w, w');
  }

  lemma MergeRowKeepsInv(c: Config, w: World, m: nat)
    requires Inv(c, w) && m < |w.importers| && Open(w, w.importers[m])
    ensures Inv(c, Apply(c, w, MergeRow(m)))
  {
    var i := w.importers[m];
    var n, t, b := i.node, w.stores[i.node], w.bundles[i.bundle];
    var t' := ImportOne(c.hash, t, b[i.pos]);
    assert ImporterSound(w, i);
    MergeKeepsPrefix(c, w, t, b, i.pos);
    IdsAppend(t, b[i.pos]);
    var mid := w.(stores := w.stores[n := t']);
    SameLogs(c, w, mid);
    forall o
      ensures c.home(o) == n ==> Project(t', o) == Log(w, o) && LastSeal(t', o) == LastSeal(t, o)
    {
      if c.home(o) == n {
        assert HomeHolds(c, w, o);
        MergeSkipsComplete(c, w, t, b, i.pos, o);
      }
    }
    forall o
      ensures HomeHolds(c, mid, o)
    {
      assert HomeHolds(c, w, o);
    }
    PrefixTableGrows(w, mid, t');
    forall x | PrefixTable(w, x)
      ensures PrefixTable(mid, x)
    {
      PrefixTableGrows(w, mid, x);
    }
    ImportersStaySound(w, mid);
    AdvanceKeepsInv(c, mid, m);
    assert Apply(c, w, MergeRow(m)) == mid.(importers := mid.importers[m := i.(pos := i.pos + 1)]);
  }

  lemma AdvanceKeepsInv(c: Config, w: World, m: nat)
    requires Inv(c, w) && m < |w.importers| && Open(w, w.importers[m])
    requires var i := w.importers[m];
             Ids(w.bundles[i.bundle][..i.pos + 1]) <= Ids(w.stores[i.node])
    ensures var i := w.importers[m];
            Inv(c, w.(importers := w.importers[m := i.(pos := i.pos + 1)]))
  {
    var i := w.importers[m];
    var w' := w.(importers := w.importers[m := i.(pos := i.pos + 1)]);
    SameLogs(c, w, w');
    SameTables(w, w');
    forall o
      ensures HomeHolds(c, w', o)
    {
      assert HomeHolds(c, w, o);
    }
    forall q | 0 <= q < |w'.importers|
      ensures ImporterSound(w', w'.importers[q])
    {
      assert ImporterSound(w, w.importers[q]);
    }
  }

  /** What only depends on the logs is kept when they are. */
  lemma SameLogs(c: Config, w: World, w': World)
    requires w'.log == w.log
    requires UniqueIds(w) && LogsChained(c, w)
    ensures LogsGrow(w, w') && UniqueIds(w') && LogsChained(c, w')
    ensures forall o :: Log(w', o) == Log(w, o)
  {
    forall o
      ensures AuthoredChain(c, w', o)
    {
      assert AuthoredChain(c, w, o);
    }
    assert forall o, i: nat, id :: At(w', o, i, id) ==> At(w, o, i, id);
  }

  lemma SameTables(w: World, w': World)
    requires LogsGrow(w, w') && StoresPrefix(w) && BundlesPrefix(w)
    requires w'.stores == w.stores
    requires forall b :: |w.bundles| <= b < |w'.bundles| ==> w'.bundles[b] in w.stores
    requires w.bundles <= w'.bundles
    ensures StoresPrefix(w') && BundlesPrefix(w')
  {
    forall n | 0 <= n < |w'.stores|
      ensures PrefixTable(w', w'.stores[n])
    {
      PrefixTableGrows(w, w', w.stores[n]);
    }
    forall b | 0 <= b < |w'.bundles|
      ensures PrefixTable(w', w'.bundles[b])
    {
      if b < |w.bundles| {
        PrefixTableGrows(w, w', w.bundles[b]);
      } else {
        var n :| 0 <= n < |w.stores| && w.stores[n] == w'.bundles[b];
        PrefixTableGrows(w, w', w.stores[n]);
      }
    }
  }

  /** Steps that write neither logs nor stores. */
  lemma QuietStepKeepsInv(c: Config, w: World, w': World)
    requires Inv(c, w)
    requires w'.log == w.log && w'.stores == w.stores
    requires DraftsCurrent(c, w')
    requires w.bundles <= w'.bundles && forall b :: |w.bundles| <= b < |w'.bundles| ==> w'.bundles[b] in w.stores
    requires w.importers <= w'.importers
    requires forall m :: |w.importers| <= m < |w'.importers| ==> ImporterSound(w', w'.importers[m])
    ensures Inv(c, w')
  {
    SameLogs(c, w, w');
    SameTables(w, w');
    forall m | 0 <= m < |w'.importers|
      ensures ImporterSound(w', w'.importers[m])
    {
      if m < |w.importers| {
        assert ImporterSound(w, w.importers[m]);
      }
    }
    forall o
      ensures HomeHolds(c, w', o)
    {
      assert HomeHolds(c, w, o);
    }
  }

  lemma InsertStep(c: Config, w: World, o: string)
    requires Inv(c, w)
    ensures Inv(c, Apply(c, w, Insert(o)))
  {
    if c.home(o) < |w.stores| && o in w.drafts && FreshId(w, w.drafts[o].id) {
      InsertKeepsInv(c, w, o);
    } else {
      QuietStepKeepsInv(c, w, Apply(c, w, Insert(o)));
    }
  }

  lemma ReceiveStep(c: Config, w: World, n: nat, b: nat)
    requires Inv(c, w)
    ensures Inv(c, Apply(c, w, Receive(n, b)))
  {
    if n < |w.stores| && b < |w.bundles| {
      assert w.bundles[b][..0] == [];
      QuietStepKeepsInv(c, w, Apply(c, w, Receive(n, b)));
    }
  }

  lemma OtherStep(c: Config, w: World, s: Step)
    requires Inv(c, w) && (s.ReadTip? || s.Abandon? || s.Export? || s.Redact?)
    ensures Inv(c, Apply(c, w, s))
  {
    QuietStepKeepsInv(c, w, Apply(c, w, s));
  }

  lemma StepKeepsInv(c: Config, w: World, s: Step)
    requires Inv(c, w)
    ensures Inv(c, Apply(c, w, s))
  {
    match s
    case Insert(o) => InsertStep(c, w, o);
    case MergeRow(m) =>
      if m < |w.importers| && Open(w, w.importers[m]) {
        MergeRowKeepsInv(c, w, m);
      }
    case Receive(n, b) => ReceiveStep(c, w, n, b);
    case _ => OtherStep(c, w, s);
  }

  lemma StepKeepsNodes(c: Config, w: World, s: Step)
    ensures |Apply(c, w, s).stores| == |w.stores|
  {
  }

  lemma InitInv(c: Config)
    ensures Inv(c, Init(c))
  {
    var w := Init(c);
    forall o
      ensures Log(w, o) == []
    {
    }
    forall n | 0 <= n < |w.stores|
      ensures w.stores[n] == []
    {
    }
  }

  lemma {:induction false} RunKeepsInv(c: Config, steps: seq<Step>)
    ensures Inv(c, Run(c, steps)) && |Run(c, steps).stores| == c.nodes
  {
    if steps == [] {
      InitInv(c);
    } else {
      RunKeepsInv(c, steps[..|steps| - 1]);
      StepKeepsInv(c, Run(c, steps[..|steps| - 1]), steps[|steps| - 1]);
      StepKeepsNodes(c, Run(c, steps[..|steps| - 1]), steps[|steps| - 1]);
    }
  }

  // ----------------------------------------------------------- what the steps amount to

  /** Reading the tip and then inserting, undisturbed, is recording: the author's log and its
      store gain the same row, chained to the author's last seal. */
  lemma RecordingRecords(c: Config, w: World, o: string, id: string, payload: string)
    requires c.home(o) < |w.stores| && o !in w.drafts && FreshId(w, id)
    ensures var w' := Apply(c, Apply(c, w, ReadTip(o, id, payload)), Insert(o));
            var last := LastSeal(w.stores[c.home(o)], o);
            var row := Row(id, payload, Some(c.hash(last + payload)), last, o);
            && Log(w', o) == Log(w, o) + [row] && (forall o' :: o' != o ==> Log(w', o') == Log(w, o'))
            && w'.stores == w.stores[c.home(o) := w.stores[c.home(o)] + [row]]
            && w'.drafts == w.drafts && w'.bundles == w.bundles && w'.importers == w.importers
  {
    var mid := Apply(c, w, ReadTip(o, id, payload));
    assert forall o', i: nat, x :: At(mid, o', i, x) <==> At(w, o', i, x);
    assert mid.drafts - {o} == w.drafts;
  }

  function MergeSteps(importer: nat, k: nat): seq<Step> {
    if k == 0 then [] else MergeSteps(importer, k - 1) + [MergeRow(importer)]
  }

  ghost function ApplyAll(c: Config, w: World, steps: seq<Step>): World {
    if steps == [] then w else Apply(c, ApplyAll(c, w, steps[..|steps| - 1]), steps[|steps| - 1])
  }

  /** w' is w after k rows of that merge. */
  ghost predicate Merged(c: Config, w: World, m: nat, k: nat, w': World) {
    && m < |w.importers| && w.importers[m].node < |w.stores| && w.importers[m].bundle < |w.bundles|
    && k <= |w.bundles[w.importers[m].bundle]|
    && var i := w.importers[m];
       && w'.stores == w.stores[i.node := ImportAll(c.hash, w.stores[i.node], w.bundles[i.bundle][..k])]
       && w'.importers == w.importers[m := i.(pos := k)] && w'.bundles == w.bundles && w'.log == w.log
  }

  lemma OneMoreRow(c: Config, w: World, m: nat, k: nat, w': World)
    requires Merged(c, w, m, k, w') && k < |w.bundles[w.importers[m].bundle]|
    ensures Merged(c, w, m, k + 1, Apply(c, w', MergeRow(m)))
  {
    var b := w.bundles[w.importers[m].bundle];
    assert b[..k + 1][..k] == b[..k];
  }

  /** Handling all rows of a bundle one by one, undisturbed, is importing it. */
  lemma {:induction false} MergingImports(c: Config, w: World, m: nat, k: nat)
    requires m < |w.importers| && w.importers[m].pos == 0
    requires w.importers[m].node < |w.stores| && w.importers[m].bundle < |w.bundles|
    requires k <= |w.bundles[w.importers[m].bundle]|
    ensures Merged(c, w, m, k, ApplyAll(c, w, MergeSteps(m, k)))
  {
    if k == 0 {
      assert w.bundles[w.importers[m].bundle][..0] == [];
    } else {
      MergingImports(c, w, m, k - 1);
      assert MergeSteps(m, k)[..|MergeSteps(m, k)| - 1] == MergeSteps(m, k - 1);
      OneMoreRow(c, w, m, k - 1, ApplyAll(c, w, MergeSteps(m, k - 1)));
    }
  }

  /** Exporting a store and receiving it elsewhere opens a merge of all of its rows. */
  lemma ExportIsReceived(c: Config, w: World, from: nat, to: nat)
    requires from < |w.stores| && to < |w.stores|
    ensures var w' := Apply(c, Apply(c, w, Export(from)), Receive(to, |w.bundles|));
            && w'.bundles == w.bundles + [w.stores[from]] && w'.stores == w.stores
            && w'.importers == w.importers + [Importer(to, |w.bundles|, 0)]
  {
  }

  // --------------------------------------------------------------------- theorems

  /** Safety over whole runs: whatever records, exports, late or partial merges and
      redactions happen in whatever order, every node holds of every origin a prefix
      of what its author recorded, and `verify_chain` accepts every node's table. */
  lemma LedgersStayVerifiable(c: Config, steps: seq<Step>, n: nat)
    requires n < c.nodes
    ensures var w := Run(c, steps);
            && n < |w.stores|
            && Verified(c.hash, w.stores[n])
            && forall o :: PrefixFor(w, w.stores[n], o)
  {
    RunKeepsInv(c, steps);
    var w := Run(c, steps);
    assert PrefixTable(w, w.stores[n]);
    forall o
      ensures Linked(c.hash, Project(w.stores[n], o))
    {
      assert PrefixFor(w, w.stores[n], o) && AuthoredChain(c, w, o);
      LinkedPrefix(c.hash, Project(w.stores[n], o), Log(w, o));
    }
  }

  /** An author's own store always holds everything it recorded. */
  lemma AuthorsKeepTheirLog(c: Config, steps: seq<Step>, o: string)
    requires c.home(o) < c.nodes
    ensures var w := Run(c, steps);
            c.home(o) < |w.stores| && Project(w.stores[c.home(o)], o) == Log(w, o)
  {
    RunKeepsInv(c, steps);
    assert HomeHolds(c, Run(c, steps), o);
  }

  /** Among honest nodes no merge ever rejects a row, and of two nodes' views of one
      origin the shorter is always a prefix of the longer. */
  lemma NoForksNoRejections(c: Config, steps: seq<Step>, n: nat, n': nat, b: nat, o: string)
    requires n < c.nodes && n' < c.nodes
    ensures var w := Run(c, steps);
            && n < |w.stores| && n' < |w.stores|
            && (Project(w.stores[n], o) <= Project(w.stores[n'], o)
              || Project(w.stores[n'], o) <= Project(w.stores[n], o))
            && (b < |w.bundles| ==> forall r :: r in w.bundles[b] ==> SealedBy(c.hash, r))
  {
    RunKeepsInv(c, steps);
    var w := Run(c, steps);
    assert PrefixTable(w, w.stores[n]) && PrefixTable(w, w.stores[n']);
    assert PrefixFor(w, w.stores[n], o) && PrefixFor(w, w.stores[n'], o);
    if b < |w.bundles| {
      RowsAreSealed(c, w, w.bundles[b]);
    }
  }

  /** Redacting marks one field of a record the node holds, and touches nothing else. */
  lemma RedactingMarks(c: Config, w: World, n: nat, id: string, field: string)
    requires n < |w.redacted| && n < |w.stores|
    ensures var w' := Apply(c, w, Redact(n, id, field));
            && |w'.redacted| == |w.redacted| && w'.(redacted := w.redacted) == w
            && forall k, f :: 0 <= k < |w.redacted| ==>
                 (f in w'.redacted[k] <==>
                  f in w.redacted[k] || (k == n && f == (id, field) && id in Ids(w.stores[n])))
  {
  }

  lemma {:induction false} RunGoesOn(c: Config, steps: seq<Step>, more: seq<Step>)
    ensures Run(c, steps + more) == ApplyAll(c, Run(c, steps), more)
    decreases |more|
  {
    if more == [] {
      assert steps + more == steps;
    } else {
      var init, last := more[..|more| - 1], more[|more| - 1];
      assert (steps + more)[..|steps + more| - 1] == steps + init;
      RunGoesOn(c, steps, init);
    }
  }

  lemma OneStep(c: Config, steps: seq<Step>, s: Step)
    ensures Run(c, steps + [s]) == Apply(c, Run(c, steps), s)
  {
    assert (steps + [s])[..|steps|] == steps;
  }

  lemma Regrouped(a: seq<Step>, b: seq<Step>, c: seq<Step>)
    ensures a + (b + c) == a + b + c
  {
  }

  lemma TwoSteps(c: Config, steps: seq<Step>, first: Step, second: Step)
    ensures Run(c, steps + ([first] + [second])) == Apply(c, Apply(c, Run(c, steps), first), second)
  {
    OneStep(c, steps, first);
    OneStep(c, steps + [first], second);
    Regrouped(steps, [first], [second]);
  }

  /** Wherever a run has come, an author without a draft can go on recording. */
  lemma RecordingIsPossible(c: Config, steps: seq<Step>, o: string, id: string, payload: string)
    requires c.home(o) < c.nodes && o !in Run(c, steps).drafts && FreshId(Run(c, steps), id)
    ensures var w, w' := Run(c, steps), Run(c, steps + ([ReadTip(o, id, payload)] + [Insert(o)]));
            && |Log(w', o)| == |Log(w, o)| + 1 && Log(w, o) <= Log(w', o)
            && Log(w', o)[|Log(w, o)|].id == id && Log(w', o)[|Log(w, o)|].payload == payload
  {
    RunKeepsInv(c, steps);
    TwoSteps(c, steps, ReadTip(o, id, payload), Insert(o));
    RecordingRecords(c, Run(c, steps), o, id, payload);
  }

  /** After an export and its receipt, the rest of the merge leaves the import. */
  lemma OpenedMerges(c: Config, steps: seq<Step>, w: World, from: nat, to: nat)
    requires from < |w.stores| && to < |w.stores|
    requires var mid := Run(c, steps);
             && mid.bundles == w.bundles + [w.stores[from]] && mid.stores == w.stores && mid.log == w.log
             && mid.importers == w.importers + [Importer(to, |w.bundles|, 0)]
    ensures var w' := Run(c, steps + MergeSteps(|w.importers|, |w.stores[from]|));
            && w'.log == w.log
            && w'.stores == w.stores[to := ImportAll(c.hash, w.stores[to], w.stores[from])]
  {
    var m, all := |w.importers|, |w.stores[from]|;
    var mid := Run(c, steps);
    assert mid.importers[m] == Importer(to, |w.bundles|, 0);
    assert mid.bundles[|w.bundles|] == w.stores[from];
    MergingImports(c, mid, m, all);
    RunGoesOn(c, steps, MergeSteps(m, all));
    assert w.stores[from][..all] == w.stores[from];
  }

  lemma OpensAMerge(c: Config, steps: seq<Step>, w: World, from: nat, to: nat)
    requires w == Run(c, steps) && from < |w.stores| && to < |w.stores|
    ensures var mid := Run(c, steps + ([Export(from)] + [Receive(to, |w.bundles|)]));
            && mid.bundles == w.bundles + [w.stores[from]] && mid.stores == w.stores && mid.log == w.log
            && mid.importers == w.importers + [Importer(to, |w.bundles|, 0)]
  {
    ExportIsReceived(c, w, from, to);
    TwoSteps(c, steps, Export(from), Receive(to, |w.bundles|));
  }

  lemma RowsAreSealed(c: Config, w: World, t: seq<Row>)
    requires LogsChained(c, w) && PrefixTable(w, t)
    ensures forall r :: r in t ==> SealedBy(c.hash, r)
  {
    forall r | r in t
      ensures SealedBy(c.hash, r)
    {
      var i := RowIsAuthored(w, t, r);
      assert AuthoredChain(c, w, r.origin);
      LinkedMember(c.hash, Log(w, r.origin), i);
    }
  }

  lemma StoresAreSealed(c: Config, steps: seq<Step>, n: nat)
    requires n < c.nodes
    ensures |Run(c, steps).stores| == c.nodes && forall r :: r in Run(c, steps).stores[n] ==> SealedBy(c.hash, r)
  {
    RunKeepsInv(c, steps);
    var w := Run(c, steps);
    RowsAreSealed(c, w, w.stores[n]);
  }

  /** w' is w after the one node has had everything the other holds, and nothing else. */
  ghost predicate Delivered(w: World, from: nat, to: nat, w': World) {
    && from < |w.stores| && to < |w.stores| && |w'.stores| == |w.stores| && w'.log == w.log
    && Ids(w'.stores[to]) == Ids(w.stores[to]) + Ids(w.stores[from])
    && forall n :: 0 <= n < |w.stores| && n != to ==> w'.stores[n] == w.stores[n]
  }

  lemma ImportDelivers(h: Hash, w: World, from: nat, to: nat, w': World)
    requires from < |w.stores| && to < |w.stores| && w'.log == w.log
    requires forall r :: r in w.stores[from] ==> SealedBy(h, r)
    requires w'.stores == w.stores[to := ImportAll(h, w.stores[to], w.stores[from])]
    ensures Delivered(w, from, to, w')
  {
    ImportAllIds(h, w.stores[to], w.stores[from]);
  }

  /** And whatever one node holds can be brought to any other, without touching the rest. */
  lemma DeliveryIsPossible(c: Config, steps: seq<Step>, from: nat, to: nat) returns (more: seq<Step>)
    requires from < c.nodes && to < c.nodes
    ensures Delivered(Run(c, steps), from, to, Run(c, steps + more))
  {
    var w := Run(c, steps);
    StoresAreSealed(c, steps, from);
    var opening := [Export(from)] + [Receive(to, |w.bundles|)];
    var rest := MergeSteps(|w.importers|, |w.stores[from]|);
    more := opening + rest;
    Regrouped(steps, opening, rest);
    OpensAMerge(c, steps, w, from, to);
    OpenedMerges(c, steps + opening, w, from, to);
    ImportDelivers(c.hash, w, from, to, Run(c, steps + more));
  }

  /** Convergence of ids is convergence of evidence: two nodes that hold the same ids
      hold, of every origin, the same rows in the same order. */
  lemma SameIdsSameChains(c: Config, steps: seq<Step>, n: nat, n': nat, o: string)
    requires n < c.nodes && n' < c.nodes
    requires var w := Run(c, steps); |w.stores| == c.nodes && Ids(w.stores[n]) == Ids(w.stores[n'])
    ensures var w := Run(c, steps); Project(w.stores[n], o) == Project(w.stores[n'], o)
  {
    RunKeepsInv(c, steps);
    var w := Run(c, steps);
    assert PrefixTable(w, w.stores[n]) && PrefixTable(w, w.stores[n']);
    SameIdsNoShorter(c, w, w.stores[n], w.stores[n'], o);
    SameIdsNoShorter(c, w, w.stores[n'], w.stores[n], o);
    assert PrefixFor(w, w.stores[n], o) && PrefixFor(w, w.stores[n'], o);
  }

  lemma SameIdsNoShorter(c: Config, w: World, t: seq<Row>, t': seq<Row>, o: string)
    requires UniqueIds(w) && LogsChained(c, w) && PrefixTable(w, t) && PrefixTable(w, t')
    requires Ids(t) <= Ids(t')
    ensures |Project(t, o)| <= |Project(t', o)|
  {
    assert PrefixFor(w, t, o) && AuthoredChain(c, w, o);
    forall i | 0 <= i < |Project(t, o)|
      ensures Log(w, o)[i].id in Ids(t')
    {
      ProjectMember(t, o, Project(t, o)[i]);
    }
    HoldsAtLeast(w, t', o, |Project(t, o)|);
  }

  lemma OneRowVerified(h: Hash, r: Row)
    requires SealedBy(h, r) && r.prev == ""
    ensures Verified(h, [r])
  {
    VerifiedAppend(h, [], r);
    assert [] + [r] == [r];
  }

  /** Of two rows the one whose id is held is skipped, and the other taken. */
  lemma SecondIsTaken(h: Hash, row: Row, first: Row, second: Row)
    requires first.id == row.id && second.id != row.id && SealedBy(h, second)
    ensures ImportAll(h, [row], [first, second]) == [row, second]
  {
    var b := [first, second];
    assert b[..1] == [first] && b[..1][..0] == [];
    assert row in [row];
    assert ImportAll(h, [row], [first]) == [row];
  }

  /** The unique-id hypothesis is needed: two authors that happen to use one id each
      have a verified table, yet merging the second into the first drops that author's
      first row and `verify_chain` fails on its second. */
  lemma SharedIdBreaksChain(h: Hash, pa: string, pb: string, pb': string)
    requires h(pb) != ""
    ensures var first := NewRow(h, "id", pb, "", "b");
            var a, b := [NewRow(h, "id", pa, "", "a")], [first, NewRow(h, "id2", pb', h(pb), "b")];
            Verified(h, a) && Verified(h, b) && !Verified(h, ImportAll(h, a, b))
  {
    var row := NewRow(h, "id", pa, "", "a");
    var first := NewRow(h, "id", pb, "", "b");
    var second := NewRow(h, "id2", pb', h(pb), "b");
    assert "" + pb == pb;
    OneRowVerified(h, row);
    OneRowVerified(h, first);
    VerifiedAppend(h, [first], second);
    assert [first] + [second] == [first, second];
    SecondIsTaken(h, row, first, second);
    VerifiedAppend(h, [row], second);
    assert [row] + [second] == [row, second];
  }

  /** So is the single writer of an origin: of two rows sealed after reading the same last
      seal the first is accepted and the second breaks the chain, in any verified table. */
  lemma RacingWritersBreakChain(h: Hash, t: seq<Row>, o: string, id: string, payload: string, id': string,
          payload': string)
    requires Verified(h, t) && Seal(h, LastSeal(t, o), payload) != LastSeal(t, o)
    ensures var first, second := NewRow(h, id, payload, LastSeal(t, o), o), NewRow(h, id', payload', LastSeal(t, o), o);
            Verified(h, t + [first]) && !Verified(h, t + [first] + [second])
  {
    var first, second := NewRow(h, id, payload, LastSeal(t, o), o), NewRow(h, id', payload', LastSeal(t, o), o);
    VerifiedAppend(h, t, first);
    VerifiedAppend(h, t + [first], second);
    assert (t + [first])[..|t|] == t;
  }
}
