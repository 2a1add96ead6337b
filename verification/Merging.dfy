/** When merging two ledgers keeps their integrity (autarch/mesh.py, autarch/memory.py). */
module Merging {
  import opened Ledger
  import opened ChainBinding

  /** Two stores that both recorded under one origin - "local", say - each verify, and share
      no id; merged, the second store's first row does not continue the chain it joins, and
      `verify_chain` refuses the result. */
  lemma SharedOriginBreaksChain(h: Hash, pa: string, pb: string)
    requires h(pa) != ""
    ensures var a, b := [NewRow(h, "id", pa, "", "local")], [NewRow(h, "id2", pb, "", "local")];
            && Verified(h, a) && Verified(h, b) && Ids(a) !! Ids(b)
            && !Verified(h, ImportAll(h, a, b))
  {
    var first, second := NewRow(h, "id", pa, "", "local"), NewRow(h, "id2", pb, "", "local");
    assert "" + pa == pa;
    VerifiedAppend(h, [], first);
    VerifiedAppend(h, [], second);
    VerifiedAppend(h, [first], second);
    assert [] + [first] == [first] && [] + [second] == [second] && [first] + [second] == [first, second];
    assert [second][..0] == [];
    assert ImportAll(h, [first], [second]) == [first, second];
  }

  /** The rows of q that p lacks. */
  function Missing(p: seq<Row>, q: seq<Row>): seq<Row> {
    if q == [] then []
    else
      var rest, last := Missing(p, q[..|q| - 1]), q[|q| - 1];
      if last in p then rest else rest + [last]
  }

  /** An id names one record. */
  ghost predicate Agree(t: seq<Row>, b: seq<Row>) {
    forall r, s :: r in t && s in b && r.id == s.id ==> r == s
  }

  /** The last row of a bundle is taken exactly when the table did not hold it before. */
  lemma LastIsTakenIffNew(h: Hash, t: seq<Row>, init: seq<Row>, last: Row)
    requires DistinctIds(init + [last]) && Agree(t, init + [last])
    requires forall r :: r in init + [last] && r.seal.Some? ==> SealedBy(h, r)
    ensures Accepts(h, ImportAll(h, t, init), last) <==> last !in t
  {
    var b := init + [last];
    assert last in b;
    assert forall r :: r in init ==> r in b;
    ImportAllIds(h, t, init);
    assert last.id !in Ids(init) by {
      assert forall i :: 0 <= i < |init| ==> b[i] == init[i] && b[i].id != b[|init|].id;
    }
    assert last.id in Ids(t) <==> last in t;
  }

  lemma MissingAppend(p: seq<Row>, q: seq<Row>, r: Row)
    ensures Missing(p, q + [r]) == if r in p then Missing(p, q) else Missing(p, q) + [r]
  {
    assert (q + [r])[..|q|] == q;
  }

  /** A merge gives an origin its own rows first and then those it lacked. */
  lemma {:induction false} MergedProjection(h: Hash, t: seq<Row>, b: seq<Row>, o: string)
    requires DistinctIds(b) && Agree(t, b) && forall r :: r in b && r.seal.Some? ==> SealedBy(h, r)
    ensures Project(ImportAll(h, t, b), o) == Project(t, o) + Missing(Project(t, o), Project(b, o))
    decreases |b|
  {
    if b != [] {
      var init, last := b[..|b| - 1], b[|b| - 1];
      assert b == init + [last];
      assert forall r :: r in init ==> r in b;
      MergedProjection(h, t, init, o);
      LastIsTakenIffNew(h, t, init, last);
      ProjectMember(t, o, last);
      OneRowMerged(t, ImportAll(h, t, init), init, last, o);
    }
  }

  lemma OneRowMerged(t: seq<Row>, merged: seq<Row>, init: seq<Row>, last: Row, o: string)
    requires Project(merged, o) == Project(t, o) + Missing(Project(t, o), Project(init, o))
    requires last in Project(t, o) <==> last in t && last.origin == o && last.seal.Some?
    ensures Project(if last !in t then merged + [last] else merged, o)
            == Project(t, o) + Missing(Project(t, o), Project(init + [last], o))
  {
    ProjectAppend(init, last, o);
    if last !in t {
      ProjectAppend(merged, last, o);
    }
    if last.origin == o && last.seal.Some? {
      MissingAppend(Project(t, o), Project(init, o), last);
      if last !in t {
        Regroup(Project(t, o), Missing(Project(t, o), Project(init, o)), [last]);
      }
    }
  }

  lemma Regroup(a: seq<Row>, b: seq<Row>, c: seq<Row>)
    ensures (a + b) + c == a + (b + c)
  {
  }

  // ------------------------------------------------------------- chains of one origin

  /** A row names the seal reached before it. */
  ghost predicate Continues(c: seq<Row>, i: nat) {
    i < |c| && c[i].prev == TipAt(c, i)
  }

  ghost predicate Chained(c: seq<Row>) {
    forall i {:trigger Continues(c, i)} :: 0 <= i < |c| ==> Continues(c, i)
  }

  ghost predicate Apart(c: seq<Row>, i: nat, j: nat) {
    i <= |c| && j <= |c| && (TipAt(c, i) == TipAt(c, j) ==> i == j)
  }

  /** No seal is reached twice. */
  ghost predicate TipsDiffer(c: seq<Row>) {
    forall i, j {:trigger Apart(c, i, j)} :: 0 <= i <= |c| && 0 <= j <= |c| ==> Apart(c, i, j)
  }

  lemma {:induction false} LinkedIsChained(h: Hash, c: seq<Row>)
    requires Linked(h, c)
    ensures Chained(c)
  {
    forall i | 0 <= i < |c|
      ensures Continues(c, i)
    {
      PrevIsTip(h, c, i);
    }
  }

  lemma BindableTipsDiffer(h: Hash, c: seq<Row>)
    requires Bindable(h, c, c)
    ensures TipsDiffer(c)
  {
    forall i, j | 0 <= i <= |c| && 0 <= j <= |c|
      ensures Apart(c, i, j)
    {
      if TipAt(c, i) == TipAt(c, j) {
        SameTipSameHistory(h, c, c, i, j);
      }
    }
  }

  lemma PrefixTip(p: seq<Row>, q: seq<Row>, n: nat)
    requires n <= |p| && n <= |q| && p[..n] == q[..n]
    ensures TipAt(p, n) == TipAt(q, n)
  {
    if n > 0 {
      assert p[n - 1] == p[..n][n - 1] == q[..n][n - 1];
    }
  }

  lemma TakeOneMore(q: seq<Row>, n: nat)
    requires n < |q|
    ensures q[..n + 1] == q[..n] + [q[n]]
  {
  }

  /** The same row stands at the same place in both chains, if they agree before it. */
  lemma SameRowSamePlace(p: seq<Row>, q: seq<Row>, n: nat, j: nat)
    requires Chained(p) && TipsDiffer(p) && Chained(q)
    requires n < |q| && n <= |p| && j < |p| && p[..n] == q[..n] && p[j] == q[n]
    ensures j == n
  {
    assert Continues(p, j) && Continues(q, n);
    PrefixTip(p, q, n);
    assert Apart(p, j, n);
  }

  /** A chain made of the rows of another one is a prefix of it. */
  lemma {:induction false} PartIsPrefix(p: seq<Row>, q: seq<Row>, n: nat)
    requires Chained(p) && TipsDiffer(p) && Chained(q) && n <= |q| && forall r :: r in q[..n] ==> r in p
    ensures n <= |p| && q[..n] == p[..n]
  {
    if n > 0 {
      TakeOneMore(q, n - 1);
      PartIsPrefix(p, q, n - 1);
      assert q[n - 1] in p;
      var j :| 0 <= j < |p| && p[j] == q[n - 1];
      SameRowSamePlace(p, q, n - 1, j);
      TakeOneMore(p, n - 1);
    }
  }

  lemma {:induction false} NothingMissing(p: seq<Row>, q: seq<Row>)
    ensures Missing(p, q) == [] <==> forall r :: r in q ==> r in p
  {
    if q != [] {
      NothingMissing(p, q[..|q| - 1]);
      assert q == q[..|q| - 1] + [q[|q| - 1]];
    }
  }

  lemma RowsApart(c: seq<Row>, i: nat, j: nat)
    requires Chained(c) && TipsDiffer(c) && i < |c| && j < |c| && c[i] == c[j]
    ensures i == j
  {
    assert Continues(c, i) && Continues(c, j);
    assert Apart(c, i, j);
  }

  /** No row of a chain repeats an earlier one. */
  lemma NotBefore(c: seq<Row>, n: nat, k: nat)
    requires Chained(c) && TipsDiffer(c) && k <= n < |c|
    ensures c[n] !in c[..k]
  {
    if c[n] in c[..k] {
      var i :| 0 <= i < k && c[..k][i] == c[n];
      RowsApart(c, i, n);
    }
  }

  /** If p begins q, the rows p lacks are the rest of q. */
  lemma {:induction false} RestMissing(q: seq<Row>, k: nat, n: nat)
    requires Chained(q) && TipsDiffer(q) && k <= n <= |q|
    ensures Missing(q[..k], q[..n]) == q[k..n]
    decreases n
  {
    if n == k {
      NothingMissing(q[..k], q[..k]);
    } else {
      RestMissing(q, k, n - 1);
      TakeOneMore(q, n - 1);
      NotBefore(q, n - 1, k);
      MissingAppend(q[..k], q[..n - 1], q[n - 1]);
      assert q[k..n] == q[k..n - 1] + [q[n - 1]];
    }
  }

  /** The first row that p lacks, if there is one, and what comes before it. */
  lemma {:induction false} FirstMissing(p: seq<Row>, q: seq<Row>) returns (m: nat)
    requires Missing(p, q) != []
    ensures m < |q| && Missing(p, q)[0] == q[m] && forall r :: r in q[..m] ==> r in p
    decreases |q|
  {
    var init := q[..|q| - 1];
    if Missing(p, init) != [] {
      m := FirstMissing(p, init);
      assert init[..m] == q[..m];
    } else {
      NothingMissing(p, init);
      m := |q| - 1;
    }
  }

  lemma NextPrev(p: seq<Row>, more: seq<Row>)
    requires more != [] && Chained(p + more)
    ensures more[0].prev == TipAt(p, |p|)
  {
    var joined := p + more;
    assert Continues(joined, |p|) && joined[|p|] == more[0];
    assert joined[..|p|] == p[..|p|];
    PrefixTip(joined, p, |p|);
  }

  /** A chain that can be continued by the rows it lacked of another begins that other. */
  lemma JoinedIsWhole(p: seq<Row>, q: seq<Row>)
    requires Chained(p) && TipsDiffer(p) && Chained(q)
    requires Missing(p, q) != [] && Chained(p + Missing(p, q))
    ensures p <= q
  {
    var m := FirstMissing(p, q);
    PartIsPrefix(p, q, m);
    NextPrev(p, Missing(p, q));
    assert Continues(q, m);
    PrefixTip(p, q, m);
    assert Apart(p, m, |p|);
    assert p[..m] == p;
  }

  lemma PartOf(p: seq<Row>, q: seq<Row>)
    requires Chained(p) && TipsDiffer(p) && Chained(q) && Missing(p, q) == []
    ensures q <= p
  {
    NothingMissing(p, q);
    assert q[..|q|] == q;
    PartIsPrefix(p, q, |q|);
  }

  lemma Begun(p: seq<Row>, q: seq<Row>)
    requires Chained(q) && TipsDiffer(q) && p <= q
    ensures p + Missing(p, q) == q
  {
    assert q[..|p|] == p && q[..|q|] == q && p + q[|p|..] == q;
    RestMissing(q, |p|, |q|);
  }

  /** Joining two chains of an origin keeps it linked exactly when one begins the other. */
  lemma JoinLinkedIff(h: Hash, p: seq<Row>, q: seq<Row>)
    requires Bindable(h, p, p) && Bindable(h, q, q)
    ensures Linked(h, p + Missing(p, q)) <==> p <= q || q <= p
  {
    BindableTipsDiffer(h, p);
    BindableTipsDiffer(h, q);
    LinkedIsChained(h, p);
    LinkedIsChained(h, q);
    if Missing(p, q) == [] {
      PartOf(p, q);
      assert p + [] == p;
    } else if p <= q {
      Begun(p, q);
    } else if Linked(h, p + Missing(p, q)) {
      LinkedIsChained(h, p + Missing(p, q));
      JoinedIsWhole(p, q);
    } else if q <= p {
      NothingMissing(p, q);
    }
  }

  /** One table holds of this origin a prefix of what the other holds. */
  ghost predicate Comparable(t: seq<Row>, b: seq<Row>, o: string) {
    Project(t, o) <= Project(b, o) || Project(b, o) <= Project(t, o)
  }

  lemma SealedInVerified(h: Hash, b: seq<Row>, r: Row)
    requires Verified(h, b) && r in b && r.seal.Some?
    ensures SealedBy(h, r)
  {
    var c := Project(b, r.origin);
    ProjectMember(b, r.origin, r);
    var i :| 0 <= i < |c| && c[i] == r;
    assert Linked(h, c);
    LinkedMember(h, c, i);
  }

  lemma OriginMergesIff(h: Hash, t: seq<Row>, b: seq<Row>, o: string)
    requires Digests(h) && Verified(h, t) && Verified(h, b) && DistinctIds(b) && Agree(t, b)
    requires Objects(t) && Objects(b) && CollisionFree(h, t, t) && CollisionFree(h, b, b)
    ensures Linked(h, Project(ImportAll(h, t, b), o)) <==> Comparable(t, b, o)
  {
    var p, q := Project(t, o), Project(b, o);
    forall r | r in b && r.seal.Some?
      ensures SealedBy(h, r)
    {
      SealedInVerified(h, b, r);
    }
    MergedProjection(h, t, b, o);
    ProjectionsBindable(h, t, t, o);
    ProjectionsBindable(h, b, b, o);
    JoinLinkedIff(h, p, q);
  }

  /** Exactly when a merge keeps integrity: of two tables that verify, the merged one
      verifies if and only if, for every origin, one of them holds a prefix of what the
      other holds. The protocol gives that to stores that record under origins of their
      own. */
  lemma MergeVerifiesIff(h: Hash, t: seq<Row>, b: seq<Row>)
    requires Digests(h) && Verified(h, t) && Verified(h, b) && DistinctIds(b) && Agree(t, b)
    requires Objects(t) && Objects(b) && CollisionFree(h, t, t) && CollisionFree(h, b, b)
    ensures Verified(h, ImportAll(h, t, b)) <==> forall o :: Comparable(t, b, o)
  {
    forall o
      ensures Linked(h, Project(ImportAll(h, t, b), o)) <==> Comparable(t, b, o)
    {
      OriginMergesIff(h, t, b, o);
    }
  }
}
