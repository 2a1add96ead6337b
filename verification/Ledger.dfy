/** The why-memory: one append-ordered table of sealed rows, in which the rows of
    every origin form a hash chain of their own (autarch/memory.py). */
module Ledger {
  import opened Prelude

  /** The hash behind a seal. Nothing is assumed about it in this module. */
  type Hash = string -> string

  /** One row of table `why`. A NULL seal marks a legacy row; a NULL `prev_seal`
      is read as "". */
  datatype Row = Row(id: string, payload: string, seal: Option<string>, prev: string, origin: string)

  function Seal(h: Hash, prev: string, payload: string): string {
    h(prev + payload)
  }

  function Ids(t: seq<Row>): set<string> {
    set r | r in t :: r.id
  }

  /** The sealed rows of one origin, in insertion order. */
  function Project(t: seq<Row>, o: string): seq<Row> {
    if t == [] then []
    else
      var rest, last := Project(t[..|t| - 1], o), t[|t| - 1];
      if last.origin == o && last.seal.Some? then rest + [last] else rest
  }

  /** The most recent seal of an origin, or "": the newest row first. */
  function LastSeal(t: seq<Row>, o: string): string {
    if t == [] then ""
    else
      var last := t[|t| - 1];
      if last.origin == o && last.seal.Some? then last.seal.value else LastSeal(t[..|t| - 1], o)
  }

  /** A row whose own seal matches its content. */
  predicate SealedBy(h: Hash, r: Row) {
    r.seal == Some(Seal(h, r.prev, r.payload))
  }

  /** The seal a chain ends with. */
  function Tip(c: seq<Row>): string {
    if c == [] then "" else c[|c| - 1].seal.GetOr("")
  }

  /** A single origin's chain: every seal matches its row and every row names the
      seal of the row before it. */
  ghost predicate Linked(h: Hash, c: seq<Row>) {
    c == [] ||
    var rest, last := c[..|c| - 1], c[|c| - 1];
    Linked(h, rest) && SealedBy(h, last) && last.prev == Tip(rest)
  }

  /** What `verify_chain` is for: every origin's chain, taken by itself, is linked. */
  ghost predicate Verified(h: Hash, t: seq<Row>) {
    forall o :: Linked(h, Project(t, o))
  }

  /** `record`: the row a writer appends, chained to its origin's last seal. */
  function NewRow(h: Hash, id: string, payload: string, prev: string, o: string): Row {
    Row(id, payload, Some(Seal(h, prev, payload)), prev, o)
  }

  /** Every record of a peer's bundle that is new and not provably altered is taken. */
  predicate Accepts(h: Hash, t: seq<Row>, r: Row) {
    r.id !in Ids(t) && (r.seal.Some? ==> SealedBy(h, r))
  }

  function ImportOne(h: Hash, t: seq<Row>, r: Row): seq<Row> {
    if Accepts(h, t, r) then t + [r] else t
  }

  function ImportAll(h: Hash, t: seq<Row>, b: seq<Row>): seq<Row> {
    if b == [] then t else ImportOne(h, ImportAll(h, t, b[..|b| - 1]), b[|b| - 1])
  }

  // ---------------------------------------------------------------- projections

  lemma ProjectAppend(t: seq<Row>, r: Row, o: string)
    ensures Project(t + [r], o) == if r.origin == o && r.seal.Some? then Project(t, o) + [r] else Project(t, o)
  {
    assert (t + [r])[..|t|] == t;
  }

  lemma {:induction false} ProjectMember(t: seq<Row>, o: string, r: Row)
    ensures r in Project(t, o) <==> r in t && r.origin == o && r.seal.Some?
  {
    if t != [] {
      var init, last := t[..|t| - 1], t[|t| - 1];
      ProjectMember(init, o, r);
      assert t == init + [last];
    }
  }

  lemma {:induction false} ProjectPrefix(t: seq<Row>, k: nat, o: string)
    requires k <= |t|
    ensures Project(t[..k], o) <= Project(t, o)
    decreases |t|
  {
    if k < |t| {
      ProjectPrefix(t[..|t| - 1], k, o);
      assert t[..|t| - 1][..k] == t[..k];
    } else {
      assert t[..k] == t;
    }
  }

  /** The seal that `_last_seal` reads is the seal at the end of the origin's chain. */
  lemma {:induction false} LastSealEndsChain(t: seq<Row>, o: string)
    ensures LastSeal(t, o) == Tip(Project(t, o))
  {
    if t != [] {
      LastSealEndsChain(t[..|t| - 1], o);
    }
  }

  lemma LinkedAppend(h: Hash, c: seq<Row>, r: Row)
    ensures Linked(h, c + [r]) <==>
            Linked(h, c) && SealedBy(h, r) && r.prev == Tip(c)
  {
    assert (c + [r])[..|c|] == c;
  }

  lemma {:induction false} LinkedPrefix(h: Hash, c: seq<Row>, d: seq<Row>)
    requires c <= d && Linked(h, d)
    ensures Linked(h, c)
    decreases |d|
  {
    if |c| < |d| {
      LinkedPrefix(h, c, d[..|d| - 1]);
    } else {
      assert c == d;
    }
  }

  lemma {:induction false} LinkedMember(h: Hash, c: seq<Row>, i: nat)
    requires Linked(h, c) && i < |c|
    ensures SealedBy(h, c[i])
  {
    if i < |c| - 1 {
      LinkedMember(h, c[..|c| - 1], i);
    }
  }

  /** Growing a verified table by a sealed row is detected unless the row continues
      its own origin's chain; no other origin's chain matters. */
  lemma VerifiedAppend(h: Hash, t: seq<Row>, r: Row)
    requires r.seal.Some?
    ensures Verified(h, t + [r]) <==> Verified(h, t) && SealedBy(h, r) && r.prev == LastSeal(t, r.origin)
  {
    LastSealEndsChain(t, r.origin);
    forall o
      ensures o != r.origin ==> Project(t + [r], o) == Project(t, o)
    {
      ProjectAppend(t, r, o);
    }
    ProjectAppend(t, r, r.origin);
    LinkedAppend(h, Project(t, r.origin), r);
    if Verified(h, t + [r]) {
      forall o
        ensures Linked(h, Project(t, o))
      {
        assert Linked(h, Project(t + [r], o));
      }
    }
    if Verified(h, t) && SealedBy(h, r) && r.prev == LastSeal(t, r.origin) {
      assert Linked(h, Project(t, r.origin));
    }
  }

  /** A broken prefix cannot be repaired by appending. */
  lemma VerifiedPrefix(h: Hash, t: seq<Row>, k: nat)
    requires k <= |t|
    ensures Verified(h, t) ==> Verified(h, t[..k])
  {
    if Verified(h, t) {
      forall o
        ensures Linked(h, Project(t[..k], o))
      {
        ProjectPrefix(t, k, o);
        assert Linked(h, Project(t, o));
        LinkedPrefix(h, Project(t[..k], o), Project(t, o));
      }
    }
  }

  lemma VerifiedSkipsLegacy(h: Hash, t: seq<Row>, r: Row)
    requires r.seal.None?
    ensures Verified(h, t + [r]) <==> Verified(h, t)
  {
    forall o
      ensures Project(t + [r], o) == Project(t, o)
    {
      ProjectAppend(t, r, o);
    }
    if Verified(h, t + [r]) {
      forall o
        ensures Linked(h, Project(t, o))
      {
        assert Linked(h, Project(t + [r], o));
      }
    }
  }

  // --------------------------------------------------------------------- merging

  lemma IdsAppend(t: seq<Row>, r: Row)
    ensures Ids(t + [r]) == Ids(t) + {r.id}
  {
    forall s | s in t
      ensures s in t + [r]
    {
    }
    assert r in t + [r];
  }

  /** A merge only appends: rows already held keep their place and their content. */
  lemma {:induction false} ImportAllExtends(h: Hash, t: seq<Row>, b: seq<Row>)
    ensures t <= ImportAll(h, t, b)
  {
    if b != [] {
      ImportAllExtends(h, t, b[..|b| - 1]);
    }
  }

  /** `import_bundle` is a union by id: after it the table holds exactly the ids it
      held and those of every incoming row that passes its own seal. */
  lemma {:induction false} ImportAllIds(h: Hash, t: seq<Row>, b: seq<Row>)
    requires forall r :: r in b && r.seal.Some? ==> SealedBy(h, r)
    ensures Ids(ImportAll(h, t, b)) == Ids(t) + Ids(b)
  {
    if b != [] {
      var init, last := b[..|b| - 1], b[|b| - 1];
      assert b == init + [last];
      ImportAllIds(h, t, init);
      IdsAppend(init, last);
      IdsAppend(ImportAll(h, t, init), last);
    }
  }

  lemma {:induction false} ImportAllDistinct(h: Hash, t: seq<Row>, b: seq<Row>)
    requires DistinctIds(t)
    ensures DistinctIds(ImportAll(h, t, b))
  {
    if b != [] {
      ImportAllDistinct(h, t, b[..|b| - 1]);
    }
  }

  /** The primary key. */
  ghost predicate DistinctIds(t: seq<Row>) {
    forall i, j :: 0 <= i < j < |t| ==> t[i].id != t[j].id
  }

  /** `import_bundle`'s counters. */
  datatype MergeReport = MergeReport(added: nat, skipped: nat, rejected: nat, rejectedIds: seq<string>)

  /** A row already held is skipped, one that fails its own seal is rejected, any other
      is added. */
  function TallyOne(h: Hash, held: seq<Row>, row: Row, m: MergeReport): MergeReport {
    if row.id in Ids(held) then m.(skipped := m.skipped + 1)
    else if row.seal.Some? && !SealedBy(h, row)
    then m.(rejected := m.rejected + 1, rejectedIds := m.rejectedIds + [row.id])
    else m.(added := m.added + 1)
  }

  function Tally(h: Hash, t: seq<Row>, b: seq<Row>): MergeReport {
    if b == [] then MergeReport(0, 0, 0, [])
    else
      var init, row := b[..|b| - 1], b[|b| - 1];
      TallyOne(h, ImportAll(h, t, init), row, Tally(h, t, init))
  }

  lemma OneRowMore(h: Hash, t: seq<Row>, b: seq<Row>, i: nat)
    requires i < |b|
    ensures ImportAll(h, t, b[..i + 1]) == ImportOne(h, ImportAll(h, t, b[..i]), b[i])
    ensures Tally(h, t, b[..i + 1]) == TallyOne(h, ImportAll(h, t, b[..i]), b[i], Tally(h, t, b[..i]))
  {
    assert b[..i + 1][..i] == b[..i];
  }

  /** Every incoming row is counted once; what was added is what the table gained; the
      rejected are rows that fail their seal; and a row whose id the table lacks in the
      end is among them. */
  lemma {:induction false} TallyIsExact(h: Hash, t: seq<Row>, b: seq<Row>)
    ensures var m := Tally(h, t, b);
            && m.added + m.skipped + m.rejected == |b| && |m.rejectedIds| == m.rejected
            && m.added == |ImportAll(h, t, b)| - |t|
            && (forall id :: id in m.rejectedIds ==>
              exists r :: r in b && r.id == id && r.seal.Some? && !SealedBy(h, r))
            && (forall r :: r in b && r.id !in Ids(ImportAll(h, t, b)) ==> r.id in m.rejectedIds)
  {
    if b != [] {
      var init, last := b[..|b| - 1], b[|b| - 1];
      assert b == init + [last];
      TallyIsExact(h, t, init);
      IdsAppend(ImportAll(h, t, init), last);
    }
  }

  // What a merge takes, said of the bundle alone.

  /** The seal, where there is one, is the hash of the previous seal and the payload. */
  ghost predicate Genuine(h: Hash, r: Row) {
    r.seal.Some? ==> r.seal.value == h(r.prev + r.payload)
  }

  /** When row i comes up its id is known: the table held it, or a genuine row before it has it. */
  ghost predicate KnownAt(h: Hash, t: seq<Row>, b: seq<Row>, i: nat)
    requires i < |b|
  {
    || (exists r :: r in t && r.id == b[i].id)
    || exists j :: 0 <= j < i && b[j].id == b[i].id && Genuine(h, b[j])
  }

  ghost predicate TakenAt(h: Hash, t: seq<Row>, b: seq<Row>, i: nat)
    requires i < |b|
  {
    !KnownAt(h, t, b, i) && Genuine(h, b[i])
  }

  ghost predicate RejectedAt(h: Hash, t: seq<Row>, b: seq<Row>, i: nat)
    requires i < |b|
  {
    !KnownAt(h, t, b, i) && !Genuine(h, b[i])
  }

  lemma SameBefore(h: Hash, t: seq<Row>, b: seq<Row>, r: Row, i: nat)
    requires i < |b|
    ensures KnownAt(h, t, b + [r], i) <==> KnownAt(h, t, b, i)
    ensures TakenAt(h, t, b + [r], i) <==> TakenAt(h, t, b, i)
    ensures RejectedAt(h, t, b + [r], i) <==> RejectedAt(h, t, b, i)
  {
    assert forall j :: 0 <= j <= i ==> (b + [r])[j] == b[j];
  }

  lemma {:induction false} MergedIds(h: Hash, t: seq<Row>, b: seq<Row>, id: string)
    ensures id in Ids(ImportAll(h, t, b)) <==>
            (exists r :: r in t && r.id == id) || exists i :: 0 <= i < |b| && b[i].id == id && Genuine(h, b[i])
  {
    if b != [] {
      var init, last := b[..|b| - 1], b[|b| - 1];
      assert forall i :: 0 <= i < |init| ==> init[i] == b[i];
      MergedIds(h, t, init, id);
      IdsAppend(ImportAll(h, t, init), last);
      assert Genuine(h, last) && last.id == id ==> b[|b| - 1].id == id && Genuine(h, b[|b| - 1]);
    }
  }

  lemma KnownIsHeld(h: Hash, t: seq<Row>, b: seq<Row>, i: nat)
    requires i < |b|
    ensures KnownAt(h, t, b, i) <==> b[i].id in Ids(ImportAll(h, t, b[..i]))
  {
    MergedIds(h, t, b[..i], b[i].id);
  }

  /** A merge takes exactly the rows that are genuine and whose id is new when they come up;
      a new row that fails its own seal is reported and kept out. */
  lemma {:induction false} MergeTakes(h: Hash, t: seq<Row>, b: seq<Row>)
    ensures forall r :: r in ImportAll(h, t, b) <==>
            r in t || exists i :: 0 <= i < |b| && b[i] == r && TakenAt(h, t, b, i)
    ensures forall id :: id in Tally(h, t, b).rejectedIds <==>
            exists i :: 0 <= i < |b| && b[i].id == id && RejectedAt(h, t, b, i)
  {
    if b != [] {
      var init, last := b[..|b| - 1], b[|b| - 1];
      assert b == init + [last];
      MergeTakes(h, t, init);
      KnownIsHeld(h, t, b, |init|);
      forall i | 0 <= i < |init|
        ensures TakenAt(h, t, b, i) <==> TakenAt(h, t, init, i)
        ensures RejectedAt(h, t, b, i) <==> RejectedAt(h, t, init, i)
      {
        SameBefore(h, t, init, last, i);
      }
      var m := |init|;
      assert b[m] == last;
      assert TakenAt(h, t, b, m) <==> Accepts(h, ImportAll(h, t, init), last);
    }
  }

  /** The store of one node. */
  class WhyMemory {
    const hash: Hash
    const nodeId: string
    var rows: seq<Row>
    var redactions: set<(string, string)>

    ghost predicate Valid()
      reads this
    {
      DistinctIds(rows)
    }

    constructor (hash: Hash, nodeId: string)
      ensures Valid() && rows == [] && redactions == {}
      ensures this.hash == hash && this.nodeId == nodeId
    {
      this.hash, this.nodeId := hash, nodeId;
      rows, redactions := [], {};
    }

    method Has(id: string) returns (found: bool)
      ensures found <==> id in Ids(rows)
    {
      found := exists i :: 0 <= i < |rows| && rows[i].id == id;
      if found {
        var i :| 0 <= i < |rows| && rows[i].id == id;
        assert rows[i] in rows;
      }
    }

    /** A record under a fresh id continues its author's chain; a used id violates
        the primary key and changes nothing. */
    method Record(id: string, payload: string) returns (ok: bool)
      requires Valid()
      modifies this`rows
      ensures Valid()
      ensures ok <==> id !in Ids(old(rows))
      ensures !ok ==> rows == old(rows)
      ensures ok ==> rows == old(rows) + [NewRow(hash, id, payload, LastSeal(old(rows), nodeId), nodeId)]
      ensures old(Verified(hash, rows)) ==> Verified(hash, rows)
    {
      var known := Has(id);
      if known {
        return false;
      }
      var row := NewRow(hash, id, payload, LastSeal(rows, nodeId), nodeId);
      VerifiedAppend(hash, rows, row);
      rows := rows + [row];
      return true;
    }

    method ImportRow(row: Row) returns (added: bool)
      requires Valid()
      modifies this`rows
      ensures Valid()
      ensures added <==> row.id !in Ids(old(rows))
      ensures rows == if added then old(rows) + [row] else old(rows)
    {
      var known := Has(row.id);
      if known {
        return false;
      }
      rows := rows + [row];
      return true;
    }

    /** The record loop of `import_bundle`. */
    method ImportBundle(bundle: seq<Row>) returns (report: MergeReport)
      requires Valid()
      modifies this`rows
      ensures Valid()
      ensures rows == ImportAll(hash, old(rows), bundle)
      ensures report == Tally(hash, old(rows), bundle)
      ensures forall r :: r in rows <==>
                r in old(rows) || exists i :: 0 <= i < |bundle| && bundle[i] == r && TakenAt(hash, old(rows), bundle, i)
    {
      report := MergeReport(0, 0, 0, []);
      var i := 0;
      while i < |bundle|
        invariant 0 <= i <= |bundle|
        invariant Valid()
        invariant rows == ImportAll(hash, old(rows), bundle[..i])
        invariant report == Tally(hash, old(rows), bundle[..i])
      {
        var row := bundle[i];
        OneRowMore(hash, old(rows), bundle, i);
        var known := Has(row.id);
        if known {
          report := report.(skipped := report.skipped + 1);
        } else if row.seal.Some? && Seal(hash, row.prev, row.payload) != row.seal.value {
          report := report.(rejected := report.rejected + 1, rejectedIds := report.rejectedIds + [row.id]);
        } else {
          var added := ImportRow(row);
          report := report.(added := report.added + 1);
        }
        i := i + 1;
      }
      assert bundle[..i] == bundle;
      MergeTakes(hash, old(rows), bundle);
    }

    /** The one-pass walk with a dictionary of expected seals answers what checking
        each origin's own chain would, and names the first row that breaks one. */
    method VerifyChain() returns (ok: bool, broken: Option<string>)
      ensures ok <==> Verified(hash, rows)
      ensures ok <==> broken.None?
      ensures !ok ==> exists i :: (0 <= i < |rows| && broken == Some(rows[i].id) &&
                                   Verified(hash, rows[..i]) && !Verified(hash, rows[..i + 1]))
    {
      var expectedPrev: map<string, string> := map[];
      var i := 0;
      assert Verified(hash, rows[..0]);
      while i < |rows|
        invariant 0 <= i <= |rows|
        invariant Verified(hash, rows[..i])
        invariant forall o :: LastSeal(rows[..i], o) == if o in expectedPrev then expectedPrev[o] else ""
      {
        var row := rows[i];
        assert rows[..i + 1] == rows[..i] + [row];
        assert rows[..i + 1][..i] == rows[..i];
        if row.seal.None? {
          VerifiedSkipsLegacy(hash, rows[..i], row);
        } else {
          VerifiedAppend(hash, rows[..i], row);
          var expected := if row.origin in expectedPrev then expectedPrev[row.origin] else "";
          if Seal(hash, row.prev, row.payload) != row.seal.value || row.prev != expected {
            VerifiedPrefix(hash, rows, i + 1);
            return false, Some(row.id);
          }
          expectedPrev := expectedPrev[row.origin := row.seal.value];
        }
        i := i + 1;
      }
      assert rows[..i] == rows;
      return true, None;
    }

    /** Redaction writes only the overlay: rows, hence seals, are out of its frame. */
    method Redact(id: string, fields: seq<string>) returns (count: nat)
      modifies this`redactions
      ensures count == if id in Ids(rows) then |fields| else 0
      ensures redactions == old(redactions) + if id in Ids(rows) then (set f | f in fields :: (id, f)) else {}
    {
      var known := Has(id);
      if !known {
        return 0;
      }
      count := 0;
      while count < |fields|
        invariant 0 <= count <= |fields|
        invariant redactions == old(redactions) + set f | f in fields[..count] :: (id, f)
      {
        assert fields[..count + 1] == fields[..count] + [fields[count]];
        redactions := redactions + {(id, fields[count])};
        count := count + 1;
      }
      assert fields[..count] == fields;
    }
  }
}
