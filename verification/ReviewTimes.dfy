/** When reviews may be decided (autarch/review.py). */
module ReviewTimes {
  import opened Prelude
  import opened ReviewStore
  import opened ReviewLog

  predicate InTime(r: Review, at: real) {
    r.expiresAt.Some? ==> at < r.expiresAt.value
  }

  ghost predicate VoteInTime(reviews: map<string, Review>, v: Vote) {
    v.request in reviews && InTime(reviews[v.request], v.at)
  }

  /** A decision was taken in time; an expiry was not taken early. */
  predicate DecidedInTime(r: Review) {
    match r.status
    case Pending => r.decidedAt.None?
    case Approved => r.decidedAt.Some? && InTime(r, r.decidedAt.value)
    case Rejected => r.decidedAt.Some? && InTime(r, r.decidedAt.value)
    case Expired => r.decidedAt.Some? && !InTime(r, r.decidedAt.value)
    case Superseded => r.decidedAt.Some?
  }

  ghost predicate Timely(db: Db) {
    && (forall v {:trigger VoteInTime(db.reviews, v)} :: v in db.votes ==> VoteInTime(db.reviews, v))
    && (forall id :: id in db.reviews ==> DecidedInTime(db.reviews[id]))
  }

  lemma RowStaysTimely(db: Db, id: string, r: Review)
    requires Timely(db) && DecidedInTime(r) && (id in db.reviews ==> r.expiresAt == db.reviews[id].expiresAt)
    ensures Timely(db.(reviews := db.reviews[id := r]))
  {
    forall v | v in db.votes
      ensures VoteInTime(db.reviews[id := r], v)
    {
      assert VoteInTime(db.reviews, v);
    }
  }

  lemma ExpireTimely(h: Hash, db: Db, id: string, now: real)
    requires Timely(db) && id in db.reviews && Expire(h, db, id, now).Ok?
    ensures Timely(Expire(h, db, id, now).value) && !Due(Expire(h, db, id, now).value.reviews[id], now)
  {
    if Due(db.reviews[id], now) {
      RowStaysTimely(db, id, db.reviews[id].(status := Expired, decidedAt := Some(now)));
    }
  }

  lemma {:induction false} ReplaceAllTimely(h: Hash, db: Db, ids: seq<string>, actor: string, digest: string, now: real)
    requires Timely(db) && forall id :: id in ids ==> id in db.reviews
    requires ReplaceAll(h, db, ids, actor, digest, now).Ok?
    ensures Timely(ReplaceAll(h, db, ids, actor, digest, now).value)
    decreases |ids|
  {
    if ids != [] {
      var first := Replace(h, db, ids[0], actor, digest, now).value;
      RowStaysTimely(db, ids[0], first.reviews[ids[0]]);
      ReplaceAllTimely(h, first, ids[1..], actor, digest, now);
    }
  }

  lemma CreateTimely(h: Hash, db: Db, s: Submission, now: real, id: string)
    requires Timely(db) && Create(h, db, s, now, id).Ok?
    ensures Timely(Create(h, db, s, now, id).value)
  {
    var active := ActiveIds(db, db.ids, s.key);
    ReplaceAllTimely(h, db, active, id, s.digest, now);
    RowStaysTimely(ReplaceAll(h, db, active, id, s.digest, now).value, id, Row(s, now));
  }

  lemma SubmitTimely(h: Hash, db: Db, s: Submission, now: real, id: string, latest: Option<string>)
    requires Timely(db) && (latest.Some? ==> latest.value in db.reviews)
    requires Submit(h, db, s, now, id, latest).Ok?
    ensures Timely(Submit(h, db, s, now, id, latest).value.0)
  {
    if latest.Some? {
      ExpireTimely(h, db, latest.value, now);
    }
    var expired := if latest.Some? then Expire(h, db, latest.value, now).value else db;
    if Create(h, expired, s, now, id).Ok? {
      CreateTimely(h, expired, s, now, id);
    }
  }

  lemma CastTimely(h: Hash, db: Db, vote: Vote)
    requires Timely(db) && vote.request in db.reviews && Cast(h, db, vote).Ok?
    requires db.reviews[vote.request].status == Pending && InTime(db.reviews[vote.request], vote.at)
    ensures Timely(Cast(h, db, vote).value)
  {
    var voted := db.(votes := db.votes + [vote]);
    assert VoteInTime(db.reviews, vote);
    assert Timely(voted);
    var next := Cast(h, db, vote).value;
    RowStaysTimely(voted, vote.request, next.reviews[vote.request]);
    assert next.reviews == voted.reviews[vote.request := next.reviews[vote.request]] && next.votes == voted.votes;
  }

  lemma OpTimely(h: Hash, text: Text, db: Db, op: Op)
    requires Timely(db) && Enabled(text, db, op)
    ensures Timely(After(h, text, db, op))
  {
    if Attempt(h, text, db, op).Ok? {
      match op
      case Submits(request, now, id, latest) =>
        SubmitTimely(h, db, Checked(text, request).value, now, id, latest);
      case Votes(vote) =>
        ExpireTimely(h, db, vote.request, vote.at);
        var next := Expire(h, db, vote.request, vote.at).value;
        if next.reviews[vote.request].status == Pending && Cast(h, next, vote).Ok? {
          CastTimely(h, next, vote);
        }
      case Comments(_) =>
      case Supersedes(target, _, _, _, _) =>
        RowStaysTimely(db, target, After(h, text, db, op).reviews[target]);
      case Refreshes(target, now) =>
        if target in db.reviews {
          ExpireTimely(h, db, target, now);
        }
    }
  }

  lemma {:induction false} RunTimely(h: Hash, text: Text, db: Db, ops: seq<Op>)
    requires Timely(db) && Possible(h, text, db, ops)
    ensures Timely(Run(h, text, db, ops))
    decreases |ops|
  {
    if ops != [] {
      OpTimely(h, text, db, ops[0]);
      RunTimely(h, text, After(h, text, db, ops[0]), ops[1..]);
    }
  }

  /** In every reachable state, and whatever the clock did: no vote counts that was cast at
      or after its review's expiry, every approval and rejection was decided before it,
      and no review expired early. */
  lemma DecisionsAreTimely(h: Hash, text: Text, ops: seq<Op>)
    requires Possible(h, text, EMPTY, ops)
    ensures var db := Run(h, text, EMPTY, ops);
            && (forall v :: v in db.votes ==> VoteInTime(db.reviews, v))
            && (forall id :: id in db.reviews ==> DecidedInTime(db.reviews[id]))
  {
    RunTimely(h, text, EMPTY, ops);
  }
}
