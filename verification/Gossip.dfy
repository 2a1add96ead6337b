/** Gossip rounds and their convergence (autarch/transport.py, autarch/mesh.py). */
module Gossip {
  import opened Ledger

  // ---------------------------------------------------------------- what nodes exchange

  /** A shared policy; only its name matters to the merge. */
  datatype PolicySpec = PolicySpec(name: string, body: string)

  function Names(ps: seq<PolicySpec>): set<string> {
    set p | p in ps :: p.name
  }

  /** `_merge_policies` as a fold: a policy is taken when its name is new. */
  function MergeList(have: seq<PolicySpec>, incoming: seq<PolicySpec>): seq<PolicySpec> {
    if incoming == [] then have
    else
      var before, last := MergeList(have, incoming[..|incoming| - 1]), incoming[|incoming| - 1];
      if last.name in Names(before) then before else before + [last]
  }

  class Realm {
    var policies: seq<PolicySpec>

    /** `_merge_policies`. */
    method MergePolicies(incoming: seq<PolicySpec>) returns (added: nat)
      modifies this
      ensures policies == MergeList(old(policies), incoming)
      ensures added == |policies| - |old(policies)|
    {
      var have := Names(policies);
      added := 0;
      var k := 0;
      while k < |incoming|
        invariant 0 <= k <= |incoming|
        invariant policies == MergeList(old(policies), incoming[..k])
        invariant added == |policies| - |old(policies)| && have == Names(policies)
      {
        assert incoming[..k + 1][..k] == incoming[..k];
        var spec := incoming[k];
        if spec.name !in have {
          NamesAppend(policies, spec);
          policies := policies + [spec];
          have := have + {spec.name};
          added := added + 1;
        }
        k := k + 1;
      }
      assert incoming[..k] == incoming;
    }
  }

  lemma NamesAppend(ps: seq<PolicySpec>, p: PolicySpec)
    ensures Names(ps + [p]) == Names(ps) + {p.name}
  {
    forall q | q in ps
      ensures q in ps + [p]
    {
    }
    assert p in ps + [p];
  }

  /** The merge is a grow-only union by name: what was there stays where it was, and every
      policy added is an incoming one whose name was not there before. */
  lemma {:induction false} MergeListIsUnion(have: seq<PolicySpec>, incoming: seq<PolicySpec>)
    ensures have <= MergeList(have, incoming)
    ensures Names(MergeList(have, incoming)) == Names(have) + Names(incoming)
    ensures forall i :: |have| <= i < |MergeList(have, incoming)| ==> MergeList(have, incoming)[i] in incoming
    ensures OnceEach(MergeList(have, incoming), |have|)
  {
    if incoming != [] {
      var init, last := incoming[..|incoming| - 1], incoming[|incoming| - 1];
      assert incoming == init + [last];
      MergeListIsUnion(have, init);
      NamesAppend(init, last);
      NamesAppend(MergeList(have, init), last);
    }
  }

  /** From place n on, no name repeats one before it. */
  ghost predicate OnceEach(ps: seq<PolicySpec>, n: nat) {
    forall i, j :: 0 <= i < j < |ps| && n <= j ==> ps[i].name != ps[j].name
  }

  /** Merging policies whose names are all known changes nothing. */
  lemma {:induction false} MergeKnown(have: seq<PolicySpec>, incoming: seq<PolicySpec>)
    requires Names(incoming) <= Names(have)
    ensures MergeList(have, incoming) == have
  {
    if incoming != [] {
      var init, last := incoming[..|incoming| - 1], incoming[|incoming| - 1];
      assert incoming == init + [last];
      NamesAppend(init, last);
      MergeKnown(have, init);
    }
  }

  /** Merging rows whose ids are all known changes nothing. */
  lemma {:induction false} ImportKnown(h: Hash, t: seq<Row>, b: seq<Row>)
    requires Ids(b) <= Ids(t)
    ensures ImportAll(h, t, b) == t
  {
    if b != [] {
      var init, last := b[..|b| - 1], b[|b| - 1];
      assert b == init + [last];
      IdsAppend(init, last);
      ImportKnown(h, t, init);
    }
  }

  /** What a node holds and what its bundle carries. */
  datatype Node = Node(rows: seq<Row>, policies: seq<PolicySpec>)

  /** `import_bundle`: records first, then policies. */
  function Receive(h: Hash, n: Node, bundle: Node): Node {
    Node(ImportAll(h, n.rows, bundle.rows), MergeList(n.policies, bundle.policies))
  }

  /** A bundle goes one way, from the first node to the second. */
  type Transfer = (nat, nat)

  predicate Within(xs: seq<Transfer>, n: nat) {
    forall x :: x in xs ==> x.0 < n && x.1 < n
  }

  function Send(h: Hash, ns: seq<Node>, x: Transfer): seq<Node>
    requires x.0 < |ns| && x.1 < |ns|
  {
    ns[x.1 := Receive(h, ns[x.1], ns[x.0])]
  }

  /** `sync`: push our bundle to the peer, then pull the peer's back. */
  function Sync(h: Hash, ns: seq<Node>, u: nat, v: nat): seq<Node>
    requires u < |ns| && v < |ns|
  {
    Send(h, Send(h, ns, (u, v)), (v, u))
  }

  function RunTransfers(h: Hash, ns: seq<Node>, xs: seq<Transfer>): seq<Node>
    requires Within(xs, |ns|)
    ensures |RunTransfers(h, ns, xs)| == |ns|
  {
    if xs == [] then ns else Send(h, RunTransfers(h, ns, xs[..|xs| - 1]), xs[|xs| - 1])
  }

  // -------------------------------------------------------------------------- a round

  /** How a contact goes: the peer cannot be reached, or it takes our bundle and then the
      pull fails, or both ways work. */
  datatype Link = Down | OneWay | Up

  /** One entry of a gossip report. */
  datatype Entry = Entry(peer: nat, ok: bool, pulled: nat, pushed: nat)

  /** All nodes of a realm. */
  class Mesh {
    const hash: Hash
    var nodes: seq<Node>

    constructor (hash: Hash, nodes: seq<Node>)
      ensures this.hash == hash && this.nodes == nodes
    {
      this.hash, this.nodes := hash, nodes;
    }

    /** One bundle, one way; the count is the receiver's `added`. */
    method Transmit(u: nat, v: nat) returns (added: nat)
      requires u < |nodes| && v < |nodes|
      modifies this
      ensures nodes == Send(hash, old(nodes), (u, v))
      ensures |nodes[v].rows| == |old(nodes)[v].rows| + added && (u == v ==> added == 0)
    {
      var after := Receive(hash, nodes[v], nodes[u]);
      if u == v {
        ImportKnown(hash, nodes[v].rows, nodes[u].rows);
      }
      ImportAllExtends(hash, nodes[v].rows, nodes[u].rows);
      added := |after.rows| - |nodes[v].rows|;
      nodes := nodes[v := after];
    }

    /** One peer of a round. A contact that fails half way counts nothing, although the
        peer has taken our bundle. */
    method Contact(u: nat, p: nat, link: Link) returns (entry: Entry)
      requires u < |nodes| && p < |nodes|
      modifies this
      ensures nodes == AfterContact(hash, old(nodes), u, p, link)
      ensures entry.peer == p && (entry.ok <==> link == Up)
      ensures |nodes[u].rows| == |old(nodes)[u].rows| + entry.pulled
      ensures link != Up ==> entry.pulled == 0 && entry.pushed == 0
      ensures link == Up ==>
                entry.pushed == |ImportAll(hash, old(nodes)[p].rows, old(nodes)[u].rows)| - |old(nodes)[p].rows|
    {
      entry := Entry(p, false, 0, 0);
      if link == Down {
        return;
      }
      var pushed := Transmit(u, p);
      if link == Up {
        var pulled := Transmit(p, u);
        entry := Entry(p, true, pulled, pushed);
      }
    }

    /** `gossip`: sync with every known peer, tolerating those that fail. */
    method Round(u: nat, peers: seq<nat>, links: seq<Link>) returns (report: seq<Entry>)
      requires u < |nodes| && |links| == |peers| && Known(peers, |nodes|)
      modifies this
      ensures nodes == RunContacts(hash, old(nodes), u, peers, links)
      ensures Reports(report, peers, links)
      ensures |nodes[u].rows| == |old(nodes)[u].rows| + Pulled(report)
    {
      ghost var before := nodes;
      report := [];
      var k := 0;
      while k < |peers|
        invariant 0 <= k <= |peers| && |nodes| == |before|
        invariant nodes == RunContacts(hash, before, u, peers[..k], links[..k])
        invariant Reports(report, peers[..k], links[..k])
        invariant |nodes[u].rows| == |before[u].rows| + Pulled(report)
      {
        assert peers[..k + 1] == peers[..k] + [peers[k]] && links[..k + 1] == links[..k] + [links[k]];
        OneMoreContact(hash, before, u, peers[..k], links[..k], peers[k], links[k]);
        var entry := Contact(u, peers[k], links[k]);
        ReportsAppend(report, peers[..k], links[..k], entry, links[k]);
        report := report + [entry];
        k := k + 1;
      }
      assert peers[..k] == peers && links[..k] == links;
    }
  }

  predicate Known(peers: seq<nat>, n: nat) {
    forall i :: 0 <= i < |peers| ==> peers[i] < n
  }

  function AfterContact(h: Hash, ns: seq<Node>, u: nat, p: nat, link: Link): (after: seq<Node>)
    requires u < |ns| && p < |ns|
    ensures |after| == |ns|
  {
    match link
    case Down => ns
    case OneWay => Send(h, ns, (u, p))
    case Up => Sync(h, ns, u, p)
  }

  /** The nodes after the peers have been contacted one after the other. */
  function RunContacts(h: Hash, ns: seq<Node>, u: nat, peers: seq<nat>, links: seq<Link>): (after: seq<Node>)
    requires u < |ns| && |links| == |peers|
    ensures |after| == |ns|
  {
    if peers == [] then ns
    else
      var n := |peers| - 1;
      var before := RunContacts(h, ns, u, peers[..n], links[..n]);
      if peers[n] < |ns| then AfterContact(h, before, u, peers[n], links[n]) else before
  }

  lemma OneMoreContact(h: Hash, ns: seq<Node>, u: nat, peers: seq<nat>, links: seq<Link>, p: nat, link: Link)
    requires u < |ns| && p < |ns| && |links| == |peers|
    ensures RunContacts(h, ns, u, peers + [p], links + [link]) ==
            AfterContact(h, RunContacts(h, ns, u, peers, links), u, p, link)
  {
    assert (peers + [p])[..|peers|] == peers && (links + [link])[..|links|] == links;
  }

  /** The report has one entry per peer, in order. */
  ghost predicate Reports(report: seq<Entry>, peers: seq<nat>, links: seq<Link>) {
    && |report| == |peers| == |links|
    && forall i :: 0 <= i < |peers| ==> report[i].peer == peers[i] && (report[i].ok <==> links[i] == Up)
  }

  lemma ReportsAppend(report: seq<Entry>, peers: seq<nat>, links: seq<Link>, entry: Entry, link: Link)
    requires Reports(report, peers, links) && (entry.ok <==> link == Up)
    ensures Reports(report + [entry], peers + [entry.peer], links + [link])
    ensures Pulled(report + [entry]) == Pulled(report) + entry.pulled
  {
    assert (report + [entry])[..|report|] == report;
  }

  function Pulled(report: seq<Entry>): nat {
    if report == [] then 0 else Pulled(report[..|report| - 1]) + report[|report| - 1].pulled
  }

  /** The bundles a contact gets through. */
  function Legs(u: nat, p: nat, link: Link): seq<Transfer> {
    match link
    case Down => []
    case OneWay => [(u, p)]
    case Up => [(u, p), (p, u)]
  }

  function Contacts(u: nat, peers: seq<nat>, links: seq<Link>): seq<Transfer>
    requires |links| == |peers|
  {
    if peers == [] then []
    else Contacts(u, peers[..|peers| - 1], links[..|links| - 1]) + Legs(u, peers[|peers| - 1], links[|links| - 1])
  }

  lemma {:induction false} TransfersAppend(h: Hash, ns: seq<Node>, xs: seq<Transfer>, ys: seq<Transfer>)
    requires Within(xs, |ns|) && Within(ys, |ns|)
    ensures Within(xs + ys, |ns|)
    ensures RunTransfers(h, ns, xs + ys) == RunTransfers(h, RunTransfers(h, ns, xs), ys)
    decreases |ys|
  {
    if ys == [] {
      assert xs + ys == xs;
    } else {
      var init := ys[..|ys| - 1];
      assert (xs + ys)[..|xs + ys| - 1] == xs + init;
      TransfersAppend(h, ns, xs, init);
    }
  }

  lemma LegsAreTheContact(h: Hash, ns: seq<Node>, u: nat, p: nat, link: Link)
    requires u < |ns| && p < |ns|
    ensures Within(Legs(u, p, link), |ns|)
    ensures RunTransfers(h, ns, Legs(u, p, link)) == AfterContact(h, ns, u, p, link)
  {
    assert [(u, p)][..0] == [] && [(u, p), (p, u)][..1] == [(u, p)];
    assert RunTransfers(h, ns, [(u, p)]) == Send(h, ns, (u, p));
  }

  /** A round is the schedule of the bundles that get through. */
  lemma {:induction false} RoundIsSchedule(h: Hash, ns: seq<Node>, u: nat, peers: seq<nat>, links: seq<Link>)
    requires u < |ns| && |links| == |peers| && Known(peers, |ns|)
    ensures Within(Contacts(u, peers, links), |ns|)
    ensures RunContacts(h, ns, u, peers, links) == RunTransfers(h, ns, Contacts(u, peers, links))
  {
    if peers != [] {
      var n := |peers| - 1;
      RoundIsSchedule(h, ns, u, peers[..n], links[..n]);
      LegsAreTheContact(h, RunContacts(h, ns, u, peers[..n], links[..n]), u, peers[n], links[n]);
      TransfersAppend(h, ns, Contacts(u, peers[..n], links[..n]), Legs(u, peers[n], links[n]));
    }
  }

  // ----------------------------------------------------- the union view of a schedule

  /** The same schedule on grow-only sets: a transfer leaves its receiver with the union. */
  function Add(s: seq<set<string>>, x: Transfer): seq<set<string>>
    requires x.0 < |s| && x.1 < |s|
  {
    s[x.1 := s[x.1] + s[x.0]]
  }

  function Spread(s: seq<set<string>>, xs: seq<Transfer>): seq<set<string>>
    requires Within(xs, |s|)
    ensures |Spread(s, xs)| == |s|
  {
    if xs == [] then s else Add(Spread(s, xs[..|xs| - 1]), xs[|xs| - 1])
  }

  function IdsOf(ns: seq<Node>): seq<set<string>> {
    seq(|ns|, i requires 0 <= i < |ns| => Ids(ns[i].rows))
  }

  function NamesOf(ns: seq<Node>): seq<set<string>> {
    seq(|ns|, i requires 0 <= i < |ns| => Names(ns[i].policies))
  }

  ghost predicate SealedRows(h: Hash, t: seq<Row>) {
    forall r :: r in t && r.seal.Some? ==> SealedBy(h, r)
  }

  ghost predicate AllSealed(h: Hash, ns: seq<Node>) {
    forall i :: 0 <= i < |ns| ==> SealedRows(h, ns[i].rows)
  }

  lemma {:induction false} ImportAllRows(h: Hash, t: seq<Row>, b: seq<Row>, r: Row)
    requires r in ImportAll(h, t, b)
    ensures r in t || r in b
  {
    if b != [] && r in ImportAll(h, t, b[..|b| - 1]) {
      ImportAllRows(h, t, b[..|b| - 1], r);
    }
  }

  /** On honest nodes a transfer is a union, of record ids and of policy names. */
  lemma SendIsUnion(h: Hash, ns: seq<Node>, x: Transfer)
    requires x.0 < |ns| && x.1 < |ns| && AllSealed(h, ns)
    ensures AllSealed(h, Send(h, ns, x))
    ensures IdsOf(Send(h, ns, x)) == Add(IdsOf(ns), x)
    ensures NamesOf(Send(h, ns, x)) == Add(NamesOf(ns), x)
  {
    var from, to := ns[x.0], ns[x.1];
    assert SealedRows(h, from.rows) && SealedRows(h, to.rows);
    ImportAllIds(h, to.rows, from.rows);
    MergeListIsUnion(to.policies, from.policies);
    forall r | r in Receive(h, to, from).rows
      ensures r in to.rows || r in from.rows
    {
      ImportAllRows(h, to.rows, from.rows, r);
    }
  }

  lemma {:induction false} TransfersAreUnions(h: Hash, ns: seq<Node>, xs: seq<Transfer>)
    requires Within(xs, |ns|) && AllSealed(h, ns)
    ensures AllSealed(h, RunTransfers(h, ns, xs))
    ensures IdsOf(RunTransfers(h, ns, xs)) == Spread(IdsOf(ns), xs)
    ensures NamesOf(RunTransfers(h, ns, xs)) == Spread(NamesOf(ns), xs)
  {
    if xs != [] {
      TransfersAreUnions(h, ns, xs[..|xs| - 1]);
      SendIsUnion(h, RunTransfers(h, ns, xs[..|xs| - 1]), xs[|xs| - 1]);
    }
  }

  // ------------------------------------------------------------------- convergence

  /** Records travel both ways along a contact. */
  predicate Adjacent(edges: set<(nat, nat)>, u: nat, v: nat) {
    (u, v) in edges || (v, u) in edges
  }

  lemma PeersAreJoined(edges: set<(nat, nat)>, u: nat, v: nat)
    requires (u, v) in edges
    ensures Joined(edges, u, v) && Joined(edges, v, u)
  {
    assert Linking(edges, u, v, [u, v]) && Linking(edges, v, u, [v, u]);
  }

  ghost predicate Path(edges: set<(nat, nat)>, p: seq<nat>) {
    p != [] && forall i :: 0 <= i < |p| - 1 ==> Adjacent(edges, p[i], p[i + 1])
  }

  ghost predicate Linking(edges: set<(nat, nat)>, u: nat, v: nat, p: seq<nat>) {
    Path(edges, p) && p[0] == u && p[|p| - 1] == v
  }

  ghost predicate Joined(edges: set<(nat, nat)>, u: nat, v: nat) {
    exists p :: Linking(edges, u, v, p)
  }

  function UpTo(n: nat): (nodes: set<nat>)
    ensures forall v :: v in nodes <==> 0 <= v < n
    ensures |nodes| == n
  {
    if n == 0 then {} else UpTo(n - 1) + {n - 1}
  }

  ghost predicate Connected(edges: set<(nat, nat)>, n: nat) {
    && (forall e :: e in edges ==> e.0 < n && e.1 < n)
    && (forall u, v :: u in UpTo(n) && v in UpTo(n) ==> Joined(edges, u, v))
  }

  /** In a round every node syncs with each of its peers, in an order of its own; nodes
      take their turns, or interleave down to the single bundle, in any order. Whatever
      else gets through does no harm. */
  ghost predicate Covers(xs: seq<Transfer>, edges: set<(nat, nat)>) {
    forall u, v :: (u, v) in edges ==> (u, v) in xs && (v, u) in xs
  }

  function All(s: seq<set<string>>): set<string> {
    if s == [] then {} else All(s[..|s| - 1]) + s[|s| - 1]
  }

  lemma {:induction false} AllMember(s: seq<set<string>>, x: string)
    ensures x in All(s) <==> exists i :: 0 <= i < |s| && x in s[i]
  {
    if s != [] {
      AllMember(s[..|s| - 1], x);
    }
  }

  /** Within a schedule a node only gains, only what some node had, and everything the
      sender of each of its bundles started with. */
  lemma {:induction false} SpreadFacts(s: seq<set<string>>, xs: seq<Transfer>)
    requires Within(xs, |s|)
    ensures forall i :: 0 <= i < |s| ==> s[i] <= Spread(s, xs)[i] <= All(s)
    ensures forall x :: x in xs ==> s[x.0] <= Spread(s, xs)[x.1]
  {
    forall i, x | 0 <= i < |s| && x in s[i]
      ensures x in All(s)
    {
      AllMember(s, x);
    }
    if xs != [] {
      SpreadFacts(s, xs[..|xs| - 1]);
      assert xs == xs[..|xs| - 1] + [xs[|xs| - 1]];
    }
  }

  function Rounds(s: seq<set<string>>, rounds: seq<seq<Transfer>>): seq<set<string>>
    requires forall r :: r in rounds ==> Within(r, |s|)
    ensures |Rounds(s, rounds)| == |s|
  {
    if rounds == [] then s
    else Spread(Rounds(s, rounds[..|rounds| - 1]), rounds[|rounds| - 1])
  }

  /** The nodes at most k hops from u. */
  ghost function Ball(edges: set<(nat, nat)>, n: nat, u: nat, k: nat): set<nat> {
    set v | v in UpTo(n) && Near(edges, n, u, k, v)
  }

  ghost predicate Near(edges: set<(nat, nat)>, n: nat, u: nat, k: nat, v: nat)
    decreases k, 0
  {
    v == u || (k > 0 && Onward(edges, n, u, k - 1, v))
  }

  ghost predicate Onward(edges: set<(nat, nat)>, n: nat, u: nat, k: nat, v: nat)
    decreases k, 2
  {
    exists w: nat :: Via(edges, n, u, k, w, v)
  }

  ghost predicate Via(edges: set<(nat, nat)>, n: nat, u: nat, k: nat, w: nat, v: nat)
    decreases k, 1
  {
    w < n && Near(edges, n, u, k, w) && (w == v || Adjacent(edges, w, v))
  }

  /** One round moves every record at least one hop: after k rounds a node holds
      everything that any node within k hops of it started with. */
  lemma {:induction false} HopPerRound(s: seq<set<string>>, rounds: seq<seq<Transfer>>, edges: set<(nat, nat)>,
          u: nat, v: nat)
    requires forall r :: r in rounds ==> Within(r, |s|) && Covers(r, edges)
    requires u < |s| && v < |s| && Near(edges, |s|, u, |rounds|, v)
    ensures s[u] <= Rounds(s, rounds)[v]
    decreases |rounds|
  {
    if rounds != [] {
      var init, last := rounds[..|rounds| - 1], rounds[|rounds| - 1];
      var mid := Rounds(s, init);
      assert Covers(last, edges);
      SpreadFacts(mid, last);
      if v == u {
        assert Near(edges, |s|, u, |init|, u);
        HopPerRound(s, init, edges, u, u);
      } else {
        var w: nat :| Via(edges, |s|, u, |rounds| - 1, w, v);
        HopPerRound(s, init, edges, u, w);
      }
    }
  }

  lemma {:induction false} NoInvention(s: seq<set<string>>, rounds: seq<seq<Transfer>>, i: nat, x: string)
    requires forall r :: r in rounds ==> Within(r, |s|)
    requires i < |s| && x in Rounds(s, rounds)[i]
    ensures x in All(s)
    decreases |rounds|
  {
    if rounds == [] {
      AllMember(s, x);
    } else {
      var init := rounds[..|rounds| - 1];
      var mid := Rounds(s, init);
      SpreadFacts(mid, rounds[|rounds| - 1]);
      AllMember(mid, x);
      var j :| 0 <= j < |mid| && x in mid[j];
      NoInvention(s, init, j, x);
    }
  }

  lemma NearMonotone(edges: set<(nat, nat)>, n: nat, u: nat, k: nat, v: nat)
    requires v < n && Near(edges, n, u, k, v)
    ensures Near(edges, n, u, k + 1, v)
  {
    assert Via(edges, n, u, k, v, v);
  }

  /** A ball that stops growing is closed under adjacency. */
  lemma {:induction false} PathStaysInClosedBall(edges: set<(nat, nat)>, n: nat, u: nat, k: nat, p: seq<nat>)
    requires Path(edges, p) && p[0] == u && u < n && forall e :: e in edges ==> e.0 < n && e.1 < n
    requires Ball(edges, n, u, k + 1) <= Ball(edges, n, u, k)
    ensures p[|p| - 1] in Ball(edges, n, u, k)
    decreases |p|
  {
    if |p| > 1 {
      var q := p[..|p| - 1];
      assert Path(edges, q);
      PathStaysInClosedBall(edges, n, u, k, q);
      var w, v := p[|p| - 2], p[|p| - 1];
      assert Adjacent(edges, w, v);
      assert Via(edges, n, u, k, w, v);
      assert Near(edges, n, u, k + 1, v);
      assert v in Ball(edges, n, u, k + 1);
    }
  }

  /** On a connected graph of n nodes a ball of radius k has at least min(k + 1, n) nodes. */
  lemma {:induction false} BallsGrow(edges: set<(nat, nat)>, n: nat, u: nat, k: nat)
    requires Connected(edges, n) && u < n
    ensures |Ball(edges, n, u, k)| >= if k + 1 < n then k + 1 else n
  {
    if k == 0 {
      assert u in Ball(edges, n, u, 0);
      assert {u} <= Ball(edges, n, u, 0);
      SubsetSize({u}, Ball(edges, n, u, 0));
    } else {
      BallsGrow(edges, n, u, k - 1);
      BallStep(edges, n, u, k - 1);
    }
  }

  /** A ball grows until it holds every node. */
  lemma BallStep(edges: set<(nat, nat)>, n: nat, u: nat, k: nat)
    requires Connected(edges, n) && u < n
    ensures var small, big := Ball(edges, n, u, k), Ball(edges, n, u, k + 1);
            |big| > |small| || |big| == n
  {
    var small, big := Ball(edges, n, u, k), Ball(edges, n, u, k + 1);
    forall v | v in small
      ensures v in big
    {
      NearMonotone(edges, n, u, k, v);
    }
    SubsetSize(small, big);
    if big == small {
      forall v | v in UpTo(n)
        ensures v in small
      {
        assert Joined(edges, u, v);
        var p :| Linking(edges, u, v, p);
        PathStaysInClosedBall(edges, n, u, k, p);
      }
      assert small == UpTo(n);
    }
  }

  lemma SubsetSize<T>(a: set<T>, b: set<T>)
    requires a <= b
    ensures |a| <= |b|
    ensures |a| == |b| ==> a == b
  {
    assert b == a + (b - a);
    assert |b| == |a| + |b - a|;
  }

  lemma EveryoneIsNear(edges: set<(nat, nat)>, n: nat, u: nat, v: nat)
    requires Connected(edges, n) && u < n && v < n
    ensures Near(edges, n, u, n - 1, v)
  {
    BallsGrow(edges, n, u, n - 1);
    SubsetSize(Ball(edges, n, u, n - 1), UpTo(n));
    assert v in UpTo(n);
  }

  /** Epidemic convergence: on a connected peer graph of n honest nodes, after n - 1
      rounds every node holds everything any node started with, and nothing else,
      whatever the order of contacts within the rounds. */
  lemma GossipConverges(s: seq<set<string>>, rounds: seq<seq<Transfer>>, edges: set<(nat, nat)>, v: nat)
    requires Connected(edges, |s|) && v < |s|
    requires |rounds| == |s| - 1 && forall r :: r in rounds ==> Within(r, |s|) && Covers(r, edges)
    ensures Rounds(s, rounds)[v] == All(s)
  {
    forall x
      ensures x in Rounds(s, rounds)[v] <==> x in All(s)
    {
      if x in Rounds(s, rounds)[v] {
        NoInvention(s, rounds, v, x);
      }
      if x in All(s) {
        AllMember(s, x);
        var u :| 0 <= u < |s| && x in s[u];
        EveryoneIsNear(edges, |s|, u, v);
        HopPerRound(s, rounds, edges, u, v);
      }
    }
  }

  function NodeRounds(h: Hash, ns: seq<Node>, rounds: seq<seq<Transfer>>): seq<Node>
    requires forall r :: r in rounds ==> Within(r, |ns|)
    ensures |NodeRounds(h, ns, rounds)| == |ns|
  {
    if rounds == [] then ns
    else RunTransfers(h, NodeRounds(h, ns, rounds[..|rounds| - 1]), rounds[|rounds| - 1])
  }

  lemma {:induction false} NodeRoundsAreRounds(h: Hash, ns: seq<Node>, rounds: seq<seq<Transfer>>)
    requires forall r :: r in rounds ==> Within(r, |ns|)
    requires AllSealed(h, ns)
    ensures AllSealed(h, NodeRounds(h, ns, rounds))
    ensures IdsOf(NodeRounds(h, ns, rounds)) == Rounds(IdsOf(ns), rounds)
    ensures NamesOf(NodeRounds(h, ns, rounds)) == Rounds(NamesOf(ns), rounds)
  {
    if rounds != [] {
      NodeRoundsAreRounds(h, ns, rounds[..|rounds| - 1]);
      TransfersAreUnions(h, NodeRounds(h, ns, rounds[..|rounds| - 1]), rounds[|rounds| - 1]);
    }
  }

  lemma AllIdsAndNames(h: Hash, ns: seq<Node>, rounds: seq<seq<Transfer>>, edges: set<(nat, nat)>, v: nat)
    requires Connected(edges, |ns|) && v < |ns| && AllSealed(h, ns)
    requires |rounds| == |ns| - 1 && forall r :: r in rounds ==> Within(r, |ns|) && Covers(r, edges)
    ensures var done := NodeRounds(h, ns, rounds);
            Ids(done[v].rows) == All(IdsOf(ns)) && Names(done[v].policies) == All(NamesOf(ns))
  {
    NodeRoundsAreRounds(h, ns, rounds);
    var done := NodeRounds(h, ns, rounds);
    GossipConverges(IdsOf(ns), rounds, edges, v);
    GossipConverges(NamesOf(ns), rounds, edges, v);
    assert IdsOf(done)[v] == Ids(done[v].rows) && NamesOf(done)[v] == Names(done[v].policies);
  }

  /** Convergence of the nodes themselves, and its fixed point: after the n - 1 rounds every
      node holds every record id and every policy name of the realm, and any further sync
      moves no row and no policy at all. */
  lemma NodesConverge(h: Hash, ns: seq<Node>, rounds: seq<seq<Transfer>>, edges: set<(nat, nat)>, u: nat, v: nat)
    requires Connected(edges, |ns|) && u < |ns| && v < |ns| && AllSealed(h, ns)
    requires |rounds| == |ns| - 1 && forall r :: r in rounds ==> Within(r, |ns|) && Covers(r, edges)
    ensures var done := NodeRounds(h, ns, rounds);
            && Ids(done[v].rows) == All(IdsOf(ns)) && Names(done[v].policies) == All(NamesOf(ns))
            && Sync(h, done, u, v) == done
  {
    AllIdsAndNames(h, ns, rounds, edges, u);
    AllIdsAndNames(h, ns, rounds, edges, v);
    var done := NodeRounds(h, ns, rounds);
    NothingToSend(h, done, (u, v));
    NothingToSend(h, done, (v, u));
  }

  lemma NothingToSend(h: Hash, ns: seq<Node>, x: Transfer)
    requires x.0 < |ns| && x.1 < |ns|
    requires Ids(ns[x.0].rows) <= Ids(ns[x.1].rows) && Names(ns[x.0].policies) <= Names(ns[x.1].policies)
    ensures Send(h, ns, x) == ns
  {
    ImportKnown(h, ns[x.1].rows, ns[x.0].rows);
    MergeKnown(ns[x.1].policies, ns[x.0].policies);
  }
}
