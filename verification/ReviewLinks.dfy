/** Following a release through its superseded reviews (autarch/review.py). */
module ReviewLinks {
  import opened ReviewStore
  import opened ReviewLog
  import opened ReviewDecisions

  /** The submission of b made a give way. */
  ghost predicate GaveWay(events: seq<Event>, a: string, b: string) {
    exists e :: e in events && e.body.request == a && e.body.payload.Replaced? && e.body.payload.replacement == b
  }

  /** The place of an id in the order of insertion. */
  function Rank(ids: seq<string>, id: string): nat {
    if ids == [] then 0 else if ids[|ids| - 1] == id then |ids| - 1 else Rank(ids[..|ids| - 1], id)
  }

  /** A supersession by submission is what the table still says, and leads to a review
      submitted later. */
  ghost predicate LinksOn(e: Event, db: Db) {
    e.body.payload.Replaced? ==>
      var a, b := e.body.request, e.body.payload.replacement;
      && a in db.reviews && db.reviews[a].status == Superseded && db.reviews[a].supersededBy == b
      && b in db.reviews && Rank(db.ids, a) < Rank(db.ids, b)
  }

  ghost predicate LinksForward(db: Db) {
    && (forall id :: id in db.ids <==> id in db.reviews)
    && (forall e {:trigger LinksOn(e, db)} :: e in db.events ==> LinksOn(e, db))
  }

  lemma {:induction false} RankInRange(ids: seq<string>, id: string)
    requires id in ids
    ensures Rank(ids, id) < |ids|
  {
    if ids[|ids| - 1] != id {
      RankInRange(ids[..|ids| - 1], id);
    }
  }

  lemma RankAppend(ids: seq<string>, id: string, new': string)
    requires new' !in ids
    ensures Rank(ids + [new'], new') == |ids|
    ensures id in ids ==> Rank(ids + [new'], id) == Rank(ids, id)
  {
    assert (ids + [new'])[..|ids|] == ids;
  }

  /** The events of the loop over the active reviews all link to the new one. */
  lemma {:induction false} ReplaceAllEvents(h: Hash, db: Db, ids: seq<string>, actor: string, digest: string, now: real)
    requires forall id :: id in ids ==> id in db.reviews
    requires ReplaceAll(h, db, ids, actor, digest, now).Ok?
    ensures var next := ReplaceAll(h, db, ids, actor, digest, now).value;
            forall e :: e in next.events ==>
              e in db.events
                || (e.body.request in ids && e.body.payload.Replaced? && e.body.payload.replacement == actor)
    decreases |ids|
  {
    if ids != [] {
      ReplaceAllEvents(h, Replace(h, db, ids[0], actor, digest, now).value, ids[1..], actor, digest, now);
    }
  }

  /** A new review at the end of the order leaves every link as it was. */
  lemma OldLink(db: Db, next: Db, id: string, e: Event)
    requires LinksOn(e, db) && next.ids == db.ids + [id] && id !in db.ids && id !in db.reviews
    requires forall i :: i in db.ids <==> i in db.reviews
    requires forall i :: i in db.reviews ==>
             i in next.reviews && (db.reviews[i].status == Superseded ==> next.reviews[i] == db.reviews[i])
    ensures LinksOn(e, next)
  {
    if e.body.payload.Replaced? {
      RankAppend(db.ids, e.body.request, id);
      RankAppend(db.ids, e.body.payload.replacement, id);
    }
  }

  /** And the links to it lead forward. */
  lemma NewLink(db: Db, next: Db, id: string, e: Event)
    requires e.body.payload.Replaced? && e.body.payload.replacement == id && e.body.request in db.ids
    requires next.ids == db.ids + [id] && id !in db.ids && id in next.reviews && e.body.request in next.reviews
    requires next.reviews[e.body.request].status == Superseded && next.reviews[e.body.request].supersededBy == id
    ensures LinksOn(e, next)
  {
    RankAppend(db.ids, e.body.request, id);
    RankInRange(db.ids, e.body.request);
  }

  lemma CreateLinks(h: Hash, db: Db, s: Submission, now: real, id: string)
    requires LinksForward(db) && Create(h, db, s, now, id).Ok?
    ensures LinksForward(Create(h, db, s, now, id).value)
  {
    var active := ActiveIds(db, db.ids, s.key);
    ReplaceAllEvents(h, db, active, id, s.digest, now);
    ReplaceAllDoes(h, db, active, id, s.digest, now);
    var cleared := ReplaceAll(h, db, active, id, s.digest, now).value;
    var next := Create(h, db, s, now, id).value;
    assert next.ids == db.ids + [id] && id !in db.ids;
    forall e | e in next.events
      ensures LinksOn(e, next)
    {
      if e in db.events {
        OldLink(db, next, id, e);
      } else if e.body.payload.Replaced? {
        assert e in cleared.events && e.body.request in active;
        NewLink(db, next, id, e);
      }
    }
  }

  /** Any other event leaves the links alone. */
  lemma OtherEvent(db: Db, next: Db, e: Event)
    requires LinksForward(db) && next.ids == db.ids && next.reviews.Keys == db.reviews.Keys
    requires next.events == db.events + [e] && !e.body.payload.Replaced?
    requires forall id :: id in db.reviews && db.reviews[id].status == Superseded ==> next.reviews[id] == db.reviews[id]
    ensures LinksForward(next)
  {
    forall f | f in next.events
      ensures LinksOn(f, next)
    {
      assert f in db.events ==> LinksOn(f, db);
    }
  }

  lemma ExpireLinks(h: Hash, db: Db, id: string, now: real)
    requires LinksForward(db) && id in db.reviews && Expire(h, db, id, now).Ok?
    ensures LinksForward(Expire(h, db, id, now).value)
  {
    var next := Expire(h, db, id, now).value;
    if Due(db.reviews[id], now) {
      OtherEvent(db, next, next.events[|db.events|]);
    }
  }

  lemma CastLinks(h: Hash, db: Db, vote: Vote)
    requires LinksForward(db) && vote.request in db.reviews && db.reviews[vote.request].status == Pending
             && Cast(h, db, vote).Ok?
    ensures LinksForward(Cast(h, db, vote).value)
  {
    var next := Cast(h, db, vote).value;
    var logged := Append(h, db.(votes := db.votes + [vote]), vote.request, Recorded(vote), vote.at).value;
    OtherEvent(db, logged, logged.events[|db.events|]);
    if next != logged {
      OtherEvent(logged, next, next.events[|logged.events|]);
    }
  }

  lemma OpLinks(h: Hash, text: Text, db: Db, op: Op)
    requires LinksForward(db) && Enabled(text, db, op)
    ensures LinksForward(After(h, text, db, op))
  {
    if Attempt(h, text, db, op).Ok? {
      var next := After(h, text, db, op);
      match op
      case Submits(request, now, id, latest) =>
        var s := Checked(text, request).value;
        if latest.Some? {
          ExpireLinks(h, db, latest.value, now);
        }
        var expired := if latest.Some? then Expire(h, db, latest.value, now).value else db;
        if Create(h, expired, s, now, id).Ok? {
          CreateLinks(h, expired, s, now, id);
        }
      case Votes(vote) =>
        ExpireLinks(h, db, vote.request, vote.at);
        var expired := Expire(h, db, vote.request, vote.at).value;
        if expired.reviews[vote.request].status == Pending && Cast(h, expired, vote).Ok? {
          CastLinks(h, expired, vote);
        }
      case Comments(comment) =>
        OtherEvent(db, next, next.events[|db.events|]);
      case Supersedes(target, actor, reason, replacement, now) =>
        if next != db {
          OtherEvent(db, next, next.events[|db.events|]);
        }
      case Refreshes(target, now) =>
        if target in db.reviews {
          ExpireLinks(h, db, target, now);
        }
    }
  }

  lemma {:induction false} RunLinks(h: Hash, text: Text, db: Db, ops: seq<Op>)
    requires LinksForward(db) && Possible(h, text, db, ops)
    ensures LinksForward(Run(h, text, db, ops))
    decreases |ops|
  {
    if ops != [] {
      OpLinks(h, text, db, ops[0]);
      RunLinks(h, text, After(h, text, db, ops[0]), ops[1..]);
    }
  }

  /** A chain of automatic supersessions. */
  ghost predicate Chain(events: seq<Event>, path: seq<string>) {
    forall i :: 0 <= i < |path| - 1 ==> GaveWay(events, path[i], path[i + 1])
  }

  lemma {:induction false} ChainRises(db: Db, path: seq<string>)
    requires LinksForward(db) && |path| >= 2 && Chain(db.events, path)
    ensures Rank(db.ids, path[0]) < Rank(db.ids, path[|path| - 1])
  {
    var n := |path| - 1;
    assert GaveWay(db.events, path[n - 1], path[n]);
    var e :| e in db.events && e.body.request == path[n - 1] && e.body.payload.Replaced?
      && e.body.payload.replacement == path[n];
    assert LinksOn(e, db);
    if |path| > 2 {
      forall i | 0 <= i < n - 1
        ensures GaveWay(db.events, path[..n][i], path[..n][i + 1])
      {
        assert GaveWay(db.events, path[i], path[i + 1]);
      }
      ChainRises(db, path[..n]);
    }
  }

  /** Automatic supersessions never lead back to where they started, and the table still
      names each replacement, whatever was done since. */
  lemma SupersessionIsAcyclic(h: Hash, text: Text, ops: seq<Op>, path: seq<string>)
    requires Possible(h, text, EMPTY, ops) && |path| >= 2
    requires Chain(Run(h, text, EMPTY, ops).events, path)
    ensures path[0] != path[|path| - 1]
    ensures var db := Run(h, text, EMPTY, ops);
            path[0] in db.reviews && db.reviews[path[0]].status == Superseded
              && db.reviews[path[0]].supersededBy == path[1]
  {
    RunLinks(h, text, EMPTY, ops);
    var db := Run(h, text, EMPTY, ops);
    ChainRises(db, path);
    assert GaveWay(db.events, path[0], path[1]);
    var e :| e in db.events && e.body.request == path[0] && e.body.payload.Replaced?
      && e.body.payload.replacement == path[1];
    assert LinksOn(e, db);
  }
}
