/** Gossip between the nodes of the protocol: the rounds of module Gossip, started from any
    stores that the steps of module MeshProtocol can lead to. */
module MeshConvergence {
  import opened Ledger
  import opened MeshProtocol
  import Gossip

  /** The nodes hold exactly these tables, whatever their policies. */
  ghost predicate Hold(ns: seq<Gossip.Node>, tables: seq<seq<Row>>) {
    |ns| == |tables| && forall i :: 0 <= i < |ns| ==> ns[i].rows == tables[i]
  }

  ghost predicate AllPrefix(w: World, ns: seq<Gossip.Node>) {
    forall i :: 0 <= i < |ns| ==> PrefixTable(w, ns[i].rows)
  }

  /** Importing a whole bundle of prefixes keeps every origin's rows a prefix. */
  lemma {:induction false} BundleKeepsPrefix(c: Config, w: World, t: seq<Row>, b: seq<Row>, k: nat)
    requires UniqueIds(w) && LogsChained(c, w) && PrefixTable(w, t) && PrefixTable(w, b) && k <= |b|
    ensures PrefixTable(w, ImportAll(c.hash, t, b[..k]))
    ensures Ids(b[..k]) <= Ids(ImportAll(c.hash, t, b[..k]))
  {
    if k > 0 {
      BundleKeepsPrefix(c, w, t, b, k - 1);
      MergeKeepsPrefix(c, w, ImportAll(c.hash, t, b[..k - 1]), b, k - 1);
      assert b[..k][..k - 1] == b[..k - 1];
    }
  }

  lemma {:induction false} TransfersKeepPrefix(c: Config, w: World, ns: seq<Gossip.Node>, xs: seq<Gossip.Transfer>)
    requires UniqueIds(w) && LogsChained(c, w) && AllPrefix(w, ns) && Gossip.Within(xs, |ns|)
    ensures AllPrefix(w, Gossip.RunTransfers(c.hash, ns, xs))
  {
    if xs != [] {
      var before, x := Gossip.RunTransfers(c.hash, ns, xs[..|xs| - 1]), xs[|xs| - 1];
      TransfersKeepPrefix(c, w, ns, xs[..|xs| - 1]);
      var b := before[x.0].rows;
      BundleKeepsPrefix(c, w, before[x.1].rows, b, |b|);
      assert b[..|b|] == b;
    }
  }

  lemma {:induction false} RoundsKeepPrefix(c: Config, w: World, ns: seq<Gossip.Node>,
          rounds: seq<seq<Gossip.Transfer>>)
    requires UniqueIds(w) && LogsChained(c, w) && AllPrefix(w, ns)
    requires forall r :: r in rounds ==> Gossip.Within(r, |ns|)
    ensures AllPrefix(w, Gossip.NodeRounds(c.hash, ns, rounds))
  {
    if rounds != [] {
      RoundsKeepPrefix(c, w, ns, rounds[..|rounds| - 1]);
      TransfersKeepPrefix(c, w, Gossip.NodeRounds(c.hash, ns, rounds[..|rounds| - 1]), rounds[|rounds| - 1]);
    }
  }

  lemma PrefixIsVerified(c: Config, w: World, t: seq<Row>)
    requires LogsChained(c, w) && PrefixTable(w, t)
    ensures Verified(c.hash, t) && Gossip.SealedRows(c.hash, t)
  {
    forall o
      ensures Linked(c.hash, Project(t, o))
    {
      assert PrefixFor(w, t, o) && AuthoredChain(c, w, o);
      LinkedPrefix(c.hash, Project(t, o), Log(w, o));
    }
    forall r | r in t
      ensures SealedBy(c.hash, r)
    {
      var i := RowIsAuthored(w, t, r);
      assert AuthoredChain(c, w, r.origin);
      LinkedMember(c.hash, Log(w, r.origin), i);
    }
  }

  /** A prefix table that holds every id of an author's home store holds the whole log. */
  lemma HoldsWholeLog(c: Config, w: World, t: seq<Row>, o: string)
    requires Inv(c, w) && PrefixTable(w, t)
    requires c.home(o) < |w.stores| ==> Ids(w.stores[c.home(o)]) <= Ids(t)
    ensures Project(t, o) == Log(w, o)
  {
    assert HomeHolds(c, w, o) && PrefixFor(w, t, o) && AuthoredChain(c, w, o);
    if c.home(o) < |w.stores| {
      forall i | 0 <= i < |Log(w, o)|
        ensures Log(w, o)[i].id in Ids(t)
      {
        ProjectMember(w.stores[c.home(o)], o, Log(w, o)[i]);
      }
      HoldsAtLeast(w, t, o, |Log(w, o)|);
    }
  }

  /** From wherever records, merges and redactions have led, on a connected graph of n nodes
      n - 1 rounds of gossip give every node the whole log of every author, in a table that
      `verify_chain` accepts. */
  lemma EveryNodeHoldsEveryLog(c: Config, steps: seq<Step>, ns: seq<Gossip.Node>,
          rounds: seq<seq<Gossip.Transfer>>, edges: set<(nat, nat)>, v: nat)
    requires Hold(ns, Run(c, steps).stores) && v < |ns| && Gossip.Connected(edges, |ns|)
    requires |rounds| == |ns| - 1
    requires forall r :: r in rounds ==> Gossip.Within(r, |ns|) && Gossip.Covers(r, edges)
    ensures var table := Gossip.NodeRounds(c.hash, ns, rounds)[v].rows;
            Verified(c.hash, table) && forall o :: Project(table, o) == Log(Run(c, steps), o)
  {
    var w := Run(c, steps);
    RunKeepsInv(c, steps);
    forall i | 0 <= i < |ns|
      ensures PrefixTable(w, ns[i].rows) && Gossip.SealedRows(c.hash, ns[i].rows)
    {
      assert PrefixTable(w, w.stores[i]);
      PrefixIsVerified(c, w, ns[i].rows);
    }
    RoundsKeepPrefix(c, w, ns, rounds);
    var table := Gossip.NodeRounds(c.hash, ns, rounds)[v].rows;
    PrefixIsVerified(c, w, table);
    Gossip.AllIdsAndNames(c.hash, ns, rounds, edges, v);
    forall o
      ensures Project(table, o) == Log(w, o)
    {
      if c.home(o) < |w.stores| {
        HomeIdsReachAll(ns, w.stores, c.home(o), Ids(table));
      }
      HoldsWholeLog(c, w, table, o);
    }
  }

  lemma HomeIdsReachAll(ns: seq<Gossip.Node>, tables: seq<seq<Row>>, i: nat, ids: set<string>)
    requires Hold(ns, tables) && i < |tables| && ids == Gossip.All(Gossip.IdsOf(ns))
    ensures Ids(tables[i]) <= ids
  {
    forall x | x in Ids(tables[i])
      ensures x in ids
    {
      Gossip.AllMember(Gossip.IdsOf(ns), x);
      assert x in Gossip.IdsOf(ns)[i];
    }
  }
}
