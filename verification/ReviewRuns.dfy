/** What a sequence of review operations keeps (autarch/review.py): every row and event that
    a transaction committed, and nothing of one that failed. */
module ReviewRuns {
  import opened Prelude
  import opened ReviewStore
  import opened ReviewLog
  import opened ReviewDecisions

  /** No row and no event is lost or moved. */
  ghost predicate Grows(was: Db, now: Db) {
    was.events <= now.events && was.votes <= now.votes && was.comments <= now.comments && was.ids <= now.ids
  }

  lemma ExpireGrows(h: Hash, db: Db, id: string, now: real)
    requires id in db.reviews && Expire(h, db, id, now).Ok?
    ensures Grows(db, Expire(h, db, id, now).value)
  {
  }

  lemma {:induction false} ReplaceAllGrows(h: Hash, db: Db, ids: seq<string>, actor: string, digest: string,
          now: real)
    requires (forall id :: id in ids ==> id in db.reviews) && ReplaceAll(h, db, ids, actor, digest, now).Ok?
    ensures Grows(db, ReplaceAll(h, db, ids, actor, digest, now).value)
    decreases |ids|
  {
    if ids != [] {
      var next := Replace(h, db, ids[0], actor, digest, now).value;
      ReplaceAllGrows(h, next, ids[1..], actor, digest, now);
    }
  }

  lemma CreateGrows(h: Hash, db: Db, s: Submission, now: real, id: string)
    requires Create(h, db, s, now, id).Ok?
    ensures Grows(db, Create(h, db, s, now, id).value)
  {
    ReplaceAllGrows(h, db, ActiveIds(db, db.ids, s.key), id, s.digest, now);
  }

  lemma SubmitGrows(h: Hash, db: Db, s: Submission, now: real, id: string, latest: Option<string>)
    requires (latest.Some? ==> latest.value in db.reviews) && Submit(h, db, s, now, id, latest).Ok?
    ensures Grows(db, Submit(h, db, s, now, id, latest).value.0)
  {
    var expired := if latest.Some? then Expire(h, db, latest.value, now).value else db;
    if Create(h, expired, s, now, id).Ok? {
      CreateGrows(h, expired, s, now, id);
    }
  }

  lemma CastVoteGrows(h: Hash, db: Db, vote: Vote)
    requires CastVote(h, db, vote).Ok?
    ensures Grows(db, CastVote(h, db, vote).value)
  {
  }

  lemma OpGrows(h: Hash, text: Text, db: Db, op: Op)
    requires Enabled(text, db, op)
    ensures Grows(db, After(h, text, db, op))
  {
    if Attempt(h, text, db, op).Ok? {
      match op
      case Submits(request, now, id, latest) =>
        SubmitGrows(h, db, Checked(text, request).value, now, id, latest);
      case Votes(vote) =>
        CastVoteGrows(h, db, vote);
      case _ =>
    }
  }

  lemma {:induction false} RunGrows(h: Hash, text: Text, db: Db, ops: seq<Op>)
    requires Possible(h, text, db, ops)
    ensures Grows(db, Run(h, text, db, ops))
    decreases |ops|
  {
    if ops != [] {
      OpGrows(h, text, db, ops[0]);
      RunGrows(h, text, After(h, text, db, ops[0]), ops[1..]);
    }
  }

  /** A run is a run and then another. */
  lemma {:induction false} RunSplits(h: Hash, text: Text, db: Db, before: seq<Op>, later: seq<Op>)
    ensures Possible(h, text, db, before + later) <==>
            Possible(h, text, db, before) && Possible(h, text, Run(h, text, db, before), later)
    ensures Possible(h, text, db, before + later) ==>
              Run(h, text, db, before + later) == Run(h, text, Run(h, text, db, before), later)
    decreases |before|
  {
    if before == [] {
      assert before + later == later;
    } else {
      assert (before + later)[0] == before[0] && (before + later)[1..] == before[1..] + later;
      if Enabled(text, db, before[0]) {
        RunSplits(h, text, After(h, text, db, before[0]), before[1..], later);
      }
    }
  }

  /** What a transaction committed is there at the end of every run it was part of: its
      events, votes, comments and reviews, in their places, the reviews at most decided. */
  lemma CommittedStays(h: Hash, text: Text, before: seq<Op>, op: Op, later: seq<Op>)
    requires Possible(h, text, EMPTY, before + ([op] + later))
    ensures Possible(h, text, EMPTY, before) && Enabled(text, Run(h, text, EMPTY, before), op)
    ensures var committed := Attempt(h, text, Run(h, text, EMPTY, before), op);
            var end := Run(h, text, EMPTY, before + ([op] + later));
            committed.Ok? ==>
              Grows(committed.value, end) && AllEvolve(committed.value.reviews, end.reviews)
  {
    RunSplits(h, text, EMPTY, before, [op] + later);
    RunKeeps(h, text, EMPTY, before);
    var at := Run(h, text, EMPTY, before);
    assert ([op] + later)[1..] == later;
    OpKeeps(h, text, at, op);
    RunGrows(h, text, After(h, text, at, op), later);
    RunKeeps(h, text, After(h, text, at, op), later);
  }

  /** And one that failed might as well not have been tried. */
  lemma FailedLeavesNoTrace(h: Hash, text: Text, db: Db, before: seq<Op>, op: Op, later: seq<Op>)
    requires Possible(h, text, db, before) && Enabled(text, Run(h, text, db, before), op)
    requires Attempt(h, text, Run(h, text, db, before), op).Err?
    ensures Possible(h, text, db, before + ([op] + later)) <==> Possible(h, text, db, before + later)
    ensures Possible(h, text, db, before + later) ==>
              Run(h, text, db, before + ([op] + later)) == Run(h, text, db, before + later)
  {
    RunSplits(h, text, db, before, [op] + later);
    RunSplits(h, text, db, before, later);
    assert ([op] + later)[1..] == later;
  }
}
