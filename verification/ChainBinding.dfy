/** What a seal pins down (autarch/memory.py). No hash with 64-digit output is injective
    on all strings, so the hash is only taken to be free of collisions among the texts
    that were sealed in the two tables compared. */
module ChainBinding {
  import opened Ledger

  predicate IsHexDigit(c: char) {
    '0' <= c <= '9' || 'a' <= c <= 'f'
  }

  /** A SHA-256 digest in hex. */
  predicate IsDigest(s: string) {
    |s| == 64 && forall i :: 0 <= i < |s| ==> IsHexDigit(s[i])
  }

  ghost predicate Digests(h: Hash) {
    forall x {:trigger IsDigest(h(x))} :: IsDigest(h(x))
  }

  /** A record payload is a JSON object. */
  predicate IsObject(payload: string) {
    payload != "" && payload[0] == '{'
  }

  predicate IsPrev(prev: string) {
    prev == "" || IsDigest(prev)
  }

  /** The text behind a row's seal. */
  function Text(r: Row): string {
    r.prev + r.payload
  }

  ghost predicate Distinguished(h: Hash, r: Row, s: Row) {
    h(Text(r)) == h(Text(s)) ==> Text(r) == Text(s)
  }

  /** No row of the one table collides with a row of the other. */
  ghost predicate CollisionFree(h: Hash, t: seq<Row>, b: seq<Row>) {
    forall r, s {:trigger Distinguished(h, r, s)} :: r in t && s in b ==> Distinguished(h, r, s)
  }

  /** The sealed text `prev_seal + payload` has only one reading. */
  lemma SealedTextDecodes(prev: string, payload: string, prev': string, payload': string)
    requires IsPrev(prev) && IsPrev(prev') && IsObject(payload) && IsObject(payload')
    requires prev + payload == prev' + payload'
    ensures prev == prev' && payload == payload'
  {
    var text := prev + payload;
    assert text[|prev|] == '{' && text[|prev'|] == '{';
    assert forall i :: 0 <= i < |prev| ==> text[i] == prev[i] != '{';
    assert forall i :: 0 <= i < |prev'| ==> text[i] == prev'[i] != '{';
    assert prev == text[..|prev|] == prev';
    assert payload == text[|prev|..] == payload';
  }

  /** Without the shape of a payload the reading is ambiguous: one text, two rows. */
  lemma UnshapedTextIsAmbiguous(h: Hash)
    requires Digests(h)
    ensures exists p, q, p', q' :: IsPrev(p) && IsPrev(p') && (p, q) != (p', q') && Seal(h, p, q) == Seal(h, p', q')
  {
    var d := h("");
    assert IsDigest(d);
    assert d + "" == "" + d;
    assert IsPrev(d) && IsPrev("") && (d, "") != ("", d) && Seal(h, d, "") == Seal(h, "", d);
  }

  function Payloads(c: seq<Row>): seq<string> {
    seq(|c|, i requires 0 <= i < |c| => c[i].payload)
  }

  ghost predicate Objects(c: seq<Row>) {
    forall r {:trigger IsObject(r.payload)} :: r in c ==> IsObject(r.payload)
  }

  // ------------------------------------------------------- walking two chains backwards

  /** The seal a chain has reached after n rows. */
  function TipAt(c: seq<Row>, n: nat): string
    requires n <= |c|
  {
    if n == 0 then "" else c[n - 1].seal.GetOr("")
  }

  lemma {:induction false} PrevIsTip(h: Hash, c: seq<Row>, i: nat)
    requires Linked(h, c) && i < |c|
    ensures c[i].prev == TipAt(c, i)
    decreases |c|
  {
    if i < |c| - 1 {
      PrevIsTip(h, c[..|c| - 1], i);
    }
  }

  lemma DigestIsText(s: string)
    requires IsDigest(s)
    ensures s != "" && IsPrev(s)
  {
  }

  lemma OnlyTheStartIsEmpty(h: Hash, c: seq<Row>, n: nat)
    requires Digests(h) && Linked(h, c) && n <= |c|
    ensures IsPrev(TipAt(c, n)) && (TipAt(c, n) == "" <==> n == 0)
  {
    if n > 0 {
      LinkedMember(h, c, n - 1);
      assert IsDigest(h(Text(c[n - 1])));
      DigestIsText(h(Text(c[n - 1])));
    }
  }

  /** What two chains must be like for their seals to pin them down. */
  ghost predicate Bindable(h: Hash, c: seq<Row>, d: seq<Row>) {
    Digests(h) && Linked(h, c) && Linked(h, d) && Objects(c) && Objects(d) && CollisionFree(h, c, d)
  }

  lemma RowShape(h: Hash, c: seq<Row>, i: nat)
    requires Digests(h) && Linked(h, c) && Objects(c) && i < |c|
    ensures SealedBy(h, c[i]) && c[i].prev == TipAt(c, i) && IsPrev(c[i].prev) && IsObject(c[i].payload)
  {
    LinkedMember(h, c, i);
    PrevIsTip(h, c, i);
    OnlyTheStartIsEmpty(h, c, i);
    assert c[i] in c;
    assert IsObject(c[i].payload);
  }

  /** Where two chains have reached the same seal, the rows that reached it say the same. */
  lemma {:induction false} SameLastRow(h: Hash, c: seq<Row>, d: seq<Row>, i: nat, j: nat)
    requires Bindable(h, c, d) && 0 < i <= |c| && 0 < j <= |d| && TipAt(c, i) == TipAt(d, j)
    ensures c[i - 1].payload == d[j - 1].payload && TipAt(c, i - 1) == TipAt(d, j - 1)
  {
    var r, s := c[i - 1], d[j - 1];
    RowShape(h, c, i - 1);
    RowShape(h, d, j - 1);
    assert r in c && s in d;
    assert Distinguished(h, r, s);
    SealedTextDecodes(r.prev, r.payload, s.prev, s.payload);
  }

  /** So they agree all the way back. */
  lemma {:induction false} SameTipSameHistory(h: Hash, c: seq<Row>, d: seq<Row>, i: nat, j: nat)
    requires Bindable(h, c, d) && i <= |c| && j <= |d| && TipAt(c, i) == TipAt(d, j)
    ensures i == j && forall k :: 0 <= k < i ==> c[k].payload == d[k].payload
    decreases i
  {
    OnlyTheStartIsEmpty(h, c, i);
    OnlyTheStartIsEmpty(h, d, j);
    if i > 0 {
      SameLastRow(h, c, d, i, j);
      SameTipSameHistory(h, c, d, i - 1, j - 1);
    }
  }

  /** Two linked chains with the same tip hold the same payloads. */
  lemma TipBindsChain(h: Hash, c: seq<Row>, d: seq<Row>)
    requires Bindable(h, c, d) && Tip(c) == Tip(d)
    ensures Payloads(c) == Payloads(d)
  {
    SameTipSameHistory(h, c, d, |c|, |d|);
  }

  /** Two tables that `verify_chain` accepts and whose last seal for an origin is the
      same record the same history of that origin. */
  lemma LastSealBindsHistory(h: Hash, t: seq<Row>, t': seq<Row>, o: string)
    requires Digests(h) && Verified(h, t) && Verified(h, t') && Objects(t) && Objects(t')
    requires CollisionFree(h, t, t')
    requires LastSeal(t, o) == LastSeal(t', o)
    ensures Payloads(Project(t, o)) == Payloads(Project(t', o))
  {
    LastSealEndsChain(t, o);
    LastSealEndsChain(t', o);
    ProjectionsBindable(h, t, t', o);
    TipBindsChain(h, Project(t, o), Project(t', o));
  }

  lemma ProjectionIsPart(t: seq<Row>, o: string)
    ensures forall r :: r in Project(t, o) ==> r in t
  {
    forall r | r in Project(t, o)
      ensures r in t
    {
      ProjectMember(t, o, r);
    }
  }

  lemma ProjectionsBindable(h: Hash, t: seq<Row>, t': seq<Row>, o: string)
    requires Digests(h) && Verified(h, t) && Verified(h, t') && Objects(t) && Objects(t')
    requires CollisionFree(h, t, t')
    ensures Bindable(h, Project(t, o), Project(t', o))
  {
    ProjectionIsPart(t, o);
    ProjectionIsPart(t', o);
    assert Linked(h, Project(t, o)) && Linked(h, Project(t', o));
  }

  /** Tamper evidence: whatever is done to a verified table's rows of one origin -
      altering, dropping, reordering, inserting - `verify_chain` refuses the result if
      that origin's last seal is kept and its payloads are not. */
  lemma {:induction false} RewritingIsDetected(h: Hash, t: seq<Row>, t': seq<Row>, o: string)
    requires Digests(h) && Verified(h, t) && Objects(t) && Objects(t')
    requires CollisionFree(h, t, t')
    requires LastSeal(t, o) == LastSeal(t', o)
    ensures Payloads(Project(t, o)) != Payloads(Project(t', o)) ==> !Verified(h, t')
  {
    if Verified(h, t') {
      LastSealBindsHistory(h, t, t', o);
    }
  }
}
