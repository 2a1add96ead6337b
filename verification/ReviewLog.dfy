/** The event log of the review store tells the whole story (autarch/review.py): after any
    sequence of operations, committed or rolled back, replaying it gives what the tables
    hold, and the chain check accepts it. */
module ReviewLog {
  import opened Prelude
  import opened ReviewStore

  // ---------------------------------------------------------------------------- runs

  /** The transactions, with what the clock, the id generator and the tables' row order
      decide. A `Vote` or `Comment` carries its names already stripped. */
  datatype Op =
    | Submits(request: Submission, now: real, id: string, latest: Option<string>)
    | Votes(vote: Vote)
    | Comments(comment: Comment)
    | Supersedes(target: string, actor: string, reason: string, replacement: string, now: real)
    | Refreshes(target: string, now: real)

  ghost predicate Enabled(text: Text, db: Db, op: Op) {
    op.Submits? && Checked(text, op.request).Ok? ==> IsLatest(db, Checked(text, op.request).value.key, op.latest)
  }

  ghost function Attempt(h: Hash, text: Text, db: Db, op: Op): Result<Db, Error>
    requires Enabled(text, db, op)
  {
    match op
    case Submits(request, now, id, latest) =>
      (var s :- Checked(text, request);
       var done :- Submit(h, db, s, now, id, latest);
       Ok(done.0))
    case Votes(vote) => CastVote(h, db, vote)
    case Comments(comment) => AddComment(h, db, comment)
    case Supersedes(target, actor, reason, replacement, now) =>
      Supersede(h, db, target, actor, reason, replacement, now)
    case Refreshes(target, now) => Refresh(h, db, target, now)
  }

  /** An exception rolls the transaction back. */
  ghost function After(h: Hash, text: Text, db: Db, op: Op): Db
    requires Enabled(text, db, op)
  {
    match Attempt(h, text, db, op)
    case Ok(next) => next
    case Err(_) => db
  }

  ghost predicate Possible(h: Hash, text: Text, db: Db, ops: seq<Op>)
    decreases |ops|
  {
    ops != [] ==> Enabled(text, db, ops[0]) && Possible(h, text, After(h, text, db, ops[0]), ops[1..])
  }

  ghost function Run(h: Hash, text: Text, db: Db, ops: seq<Op>): Db
    requires Possible(h, text, db, ops)
    decreases |ops|
  {
    if ops == [] then db else Run(h, text, After(h, text, db, ops[0]), ops[1..])
  }

  // -------------------------------------------------------------------------- replay

  /** A review as far as the log knows it. */
  datatype Entry = Entry(
    key: string, digest: string, reviewers: seq<string>, quorum: int, expiresAt: Option<real>, createdAt: real,
    status: Status, decidedAt: Option<real>, supersededBy: string, votes: seq<Vote>, comments: seq<Comment>)

  type View = map<string, Entry>

  function Told(view: View, b: Body): View {
    match b.payload
    case Submitted(key, digest, reviewers, quorum, expiresAt) =>
      view[b.request := Entry(key, digest, reviewers, quorum, expiresAt, b.at, Pending, None, "", [], [])]
    case _ => if b.request in view then view[b.request := Updated(view[b.request], b)] else view
  }

  function Updated(e: Entry, b: Body): Entry {
    match b.payload
    case Submitted(_, _, _, _, _) => e
    case VoteRecorded(reviewer, decision, comment, provider) =>
      e.(votes := e.votes + [Vote(b.request, reviewer, decision, comment, provider, b.at)])
    case CommentAdded(reviewer, text, provider) =>
      e.(comments := e.comments + [Comment(b.request, reviewer, text, provider, b.at)])
    case ReviewDecided(status) => e.(status := status, decidedAt := Some(b.at))
    case Replaced(replacement, _) => e.(status := Superseded, decidedAt := Some(b.at), supersededBy := replacement)
    case Withdrawn(_, _, replacement) => e.(status := Superseded, decidedAt := Some(b.at), supersededBy := replacement)
    case Lapsed => e.(status := Expired, decidedAt := Some(b.at))
  }

  /** The log alone. */
  function Replay(events: seq<Event>): View {
    if events == [] then map[] else Told(Replay(events[..|events| - 1]), events[|events| - 1].body)
  }

  function VotesOf(votes: seq<Vote>, id: string): seq<Vote> {
    if votes == [] then []
    else VotesOf(votes[..|votes| - 1], id) + if votes[|votes| - 1].request == id then [votes[|votes| - 1]] else []
  }

  function CommentsOf(comments: seq<Comment>, id: string): seq<Comment> {
    if comments == [] then []
    else
      var last := comments[|comments| - 1];
      CommentsOf(comments[..|comments| - 1], id) + if last.request == id then [last] else []
  }

  function EntryOf(db: Db, id: string): Entry
    requires id in db.reviews
  {
    var r := db.reviews[id];
    Entry(r.key, r.digest, r.reviewers, r.quorum, r.expiresAt, r.createdAt, r.status, r.decidedAt, r.supersededBy,
          VotesOf(db.votes, id), CommentsOf(db.comments, id))
  }

  /** The tables alone. */
  function Held(db: Db): View {
    map id | id in db.reviews :: EntryOf(db, id)
  }

  /** Votes and comments belong to reviews. */
  ghost predicate ForeignKeys(db: Db) {
    && (forall v :: v in db.votes ==> v.request in db.reviews)
    && (forall c :: c in db.comments ==> c.request in db.reviews)
  }

  ghost predicate Faithful(h: Hash, db: Db) {
    Replay(db.events) == Held(db) && ForeignKeys(db) && Linked(h, db.events)
  }

  // ----------------------------------------------- every change of the tables is logged

  lemma OneMoreEvent(h: Hash, events: seq<Event>, e: Event)
    ensures Replay(events + [e]) == Told(Replay(events), e.body)
    ensures Linked(h, events) && e.body.previous == Tip(events) && e.hash == h(e.body) ==> Linked(h, events + [e])
  {
    assert (events + [e])[..|events|] == events;
  }

  /** The log is not part of what the tables hold. */
  lemma HeldIgnoresLog(db: Db, events: seq<Event>)
    ensures Held(db.(events := events)) == Held(db)
  {
    forall id | id in db.reviews
      ensures EntryOf(db.(events := events), id) == EntryOf(db, id)
    {
    }
  }

  /** Tables changed as the event tells, then the event appended: still faithful. */
  lemma Logged(h: Hash, db: Db, changed: Db, request: string, payload: Payload, at: real)
    requires Faithful(h, db) && changed.events == db.events && ForeignKeys(changed)
    requires Held(changed) == Told(Held(db), Body(request, payload, at, Tip(db.events)))
    requires Append(h, changed, request, payload, at).Ok?
    ensures Faithful(h, Append(h, changed, request, payload, at).value)
  {
    var body := Body(request, payload, at, Tip(db.events));
    OneMoreEvent(h, db.events, Event(body, h(body)));
    HeldIgnoresLog(changed, db.events + [Event(body, h(body))]);
  }

  /** A change of one row. */
  lemma RowLogged(h: Hash, db: Db, id: string, r: Review, payload: Payload, at: real)
    requires Faithful(h, db) && id in db.reviews
    requires var changed := db.(reviews := db.reviews[id := r]);
             && !payload.Submitted? && Append(h, changed, id, payload, at).Ok?
             && EntryOf(changed, id) == Updated(EntryOf(db, id), Body(id, payload, at, Tip(db.events)))
    ensures Faithful(h, Append(h, db.(reviews := db.reviews[id := r]), id, payload, at).value)
  {
    Logged(h, db, db.(reviews := db.reviews[id := r]), id, payload, at);
  }

  lemma ExpireFaithful(h: Hash, db: Db, id: string, now: real)
    requires Faithful(h, db) && id in db.reviews && Expire(h, db, id, now).Ok?
    ensures Faithful(h, Expire(h, db, id, now).value)
  {
    var r := db.reviews[id];
    if Due(r, now) {
      RowLogged(h, db, id, r.(status := Expired, decidedAt := Some(now)), Lapsed, now);
    }
  }

  lemma {:induction false} ReplaceAllFaithful(h: Hash, db: Db, ids: seq<string>, actor: string, digest: string,
          now: real)
    requires Faithful(h, db) && forall id :: id in ids ==> id in db.reviews
    requires ReplaceAll(h, db, ids, actor, digest, now).Ok?
    ensures Faithful(h, ReplaceAll(h, db, ids, actor, digest, now).value)
    decreases |ids|
  {
    if ids != [] {
      var first := db.reviews[ids[0]].(status := Superseded, decidedAt := Some(now), supersededBy := actor);
      RowLogged(h, db, ids[0], first, Replaced(actor, digest), now);
      ReplaceAllFaithful(h, Replace(h, db, ids[0], actor, digest, now).value, ids[1..], actor, digest, now);
    }
  }

  lemma {:induction false} NothingYet(db: Db, id: string)
    requires ForeignKeys(db) && id !in db.reviews
    ensures VotesOf(db.votes, id) == [] && CommentsOf(db.comments, id) == []
  {
    NoVotes(db.votes, id);
    NoComments(db.comments, id);
  }

  lemma {:induction false} NoVotes(votes: seq<Vote>, id: string)
    requires forall v :: v in votes ==> v.request != id
    ensures VotesOf(votes, id) == []
  {
    if votes != [] {
      NoVotes(votes[..|votes| - 1], id);
      assert votes[|votes| - 1] in votes;
    }
  }

  lemma {:induction false} NoComments(comments: seq<Comment>, id: string)
    requires forall c :: c in comments ==> c.request != id
    ensures CommentsOf(comments, id) == []
  {
    if comments != [] {
      NoComments(comments[..|comments| - 1], id);
      assert comments[|comments| - 1] in comments;
    }
  }

  lemma InsertFaithful(h: Hash, db: Db, id: string, r: Review, now: real)
    requires Faithful(h, db) && Insert(h, db, id, r, now).Ok?
    requires r.status == Pending && r.createdAt == now && r.decidedAt == None && r.supersededBy == ""
    ensures Faithful(h, Insert(h, db, id, r, now).value)
  {
    NothingYet(db, id);
    Logged(h, db, db.(reviews := db.reviews[id := r], ids := db.ids + [id]), id,
      Submitted(r.key, r.digest, r.reviewers, r.quorum, r.expiresAt), now);
  }

  lemma CreateFaithful(h: Hash, db: Db, s: Submission, now: real, id: string)
    requires Faithful(h, db) && Create(h, db, s, now, id).Ok?
    ensures Faithful(h, Create(h, db, s, now, id).value)
  {
    var active := ActiveIds(db, db.ids, s.key);
    ReplaceAllFaithful(h, db, active, id, s.digest, now);
    InsertFaithful(h, ReplaceAll(h, db, active, id, s.digest, now).value, id, Row(s, now), now);
  }

  lemma SubmitFaithful(h: Hash, db: Db, s: Submission, now: real, id: string, latest: Option<string>)
    requires Faithful(h, db) && (latest.Some? ==> latest.value in db.reviews)
    requires Submit(h, db, s, now, id, latest).Ok?
    ensures Faithful(h, Submit(h, db, s, now, id, latest).value.0)
  {
    if latest.None? {
      CreateFaithful(h, db, s, now, id);
    } else {
      ExpireFaithful(h, db, latest.value, now);
      var expired := Expire(h, db, latest.value, now).value;
      if Create(h, expired, s, now, id).Ok? {
        CreateFaithful(h, expired, s, now, id);
      }
    }
  }

  lemma VoteShows(db: Db, vote: Vote, previous: string)
    requires vote.request in db.reviews
    ensures Held(db.(votes := db.votes + [vote]))
            == Told(Held(db), Body(vote.request, Recorded(vote), vote.at, previous))
  {
    var changed := db.(votes := db.votes + [vote]);
    assert changed.votes[..|changed.votes| - 1] == db.votes;
    var e := EntryOf(db, vote.request);
    forall id | id in db.reviews
      ensures EntryOf(changed, id) == if id == vote.request then e.(votes := e.votes + [vote]) else EntryOf(db, id)
    {
      assert VotesOf(changed.votes, id) == VotesOf(db.votes, id) + if vote.request == id then [vote] else [];
    }
    assert Updated(e, Body(vote.request, Recorded(vote), vote.at, previous)) == e.(votes := e.votes + [vote]);
  }

  lemma VoteLogged(h: Hash, db: Db, vote: Vote)
    requires Faithful(h, db) && vote.request in db.reviews
    requires Append(h, db.(votes := db.votes + [vote]), vote.request, Recorded(vote), vote.at).Ok?
    ensures Faithful(h, Append(h, db.(votes := db.votes + [vote]), vote.request, Recorded(vote), vote.at).value)
  {
    VoteShows(db, vote, Tip(db.events));
    Logged(h, db, db.(votes := db.votes + [vote]), vote.request, Recorded(vote), vote.at);
  }

  lemma CastFaithful(h: Hash, db: Db, vote: Vote)
    requires Faithful(h, db) && vote.request in db.reviews && Cast(h, db, vote).Ok?
    ensures Faithful(h, Cast(h, db, vote).value)
  {
    VoteLogged(h, db, vote);
    var id := vote.request;
    var next := Append(h, db.(votes := db.votes + [vote]), id, Recorded(vote), vote.at).value;
    var status := Verdict(next, id, vote.decision);
    if status != Pending {
      RowLogged(h, next, id, next.reviews[id].(status := status, decidedAt := Some(vote.at)), ReviewDecided(status),
        vote.at);
    }
  }

  lemma CommentShows(db: Db, c: Comment, previous: string)
    requires c.request in db.reviews
    ensures Held(db.(comments := db.comments + [c]))
            == Told(Held(db), Body(c.request, CommentAdded(c.reviewer, c.text, c.provider), c.at, previous))
  {
    var changed := db.(comments := db.comments + [c]);
    assert changed.comments[..|changed.comments| - 1] == db.comments;
    var e := EntryOf(db, c.request);
    forall id | id in db.reviews
      ensures EntryOf(changed, id) == if id == c.request then e.(comments := e.comments + [c]) else EntryOf(db, id)
    {
      assert CommentsOf(changed.comments, id) == CommentsOf(db.comments, id) + if c.request == id then [c] else [];
    }
  }

  lemma CommentFaithful(h: Hash, db: Db, c: Comment)
    requires Faithful(h, db) && AddComment(h, db, c).Ok?
    ensures Faithful(h, AddComment(h, db, c).value)
  {
    CommentShows(db, c, Tip(db.events));
    Logged(h, db, db.(comments := db.comments + [c]), c.request, CommentAdded(c.reviewer, c.text, c.provider), c.at);
  }

  lemma OpFaithful(h: Hash, text: Text, db: Db, op: Op)
    requires Faithful(h, db) && Enabled(text, db, op)
    ensures Faithful(h, After(h, text, db, op))
  {
    if Attempt(h, text, db, op).Ok? {
      match op
      case Submits(request, now, id, latest) =>
        SubmitFaithful(h, db, Checked(text, request).value, now, id, latest);
      case Votes(vote) =>
        ExpireFaithful(h, db, vote.request, vote.at);
        var next := Expire(h, db, vote.request, vote.at).value;
        if Cast(h, next, vote).Ok? {
          CastFaithful(h, next, vote);
        }
      case Comments(comment) =>
        CommentFaithful(h, db, comment);
      case Supersedes(target, actor, reason, replacement, now) =>
        var r := db.reviews[target];
        if r.status != Superseded && r.status != Expired {
          var over := r.(status := Superseded, decidedAt := Some(now), supersededBy := replacement);
          RowLogged(h, db, target, over, Withdrawn(actor, reason, replacement), now);
        }
      case Refreshes(target, now) =>
        if target in db.reviews {
          ExpireFaithful(h, db, target, now);
        }
    }
  }

  lemma {:induction false} RunFaithful(h: Hash, text: Text, db: Db, ops: seq<Op>)
    requires Faithful(h, db) && Possible(h, text, db, ops)
    ensures Faithful(h, Run(h, text, db, ops))
    decreases |ops|
  {
    if ops != [] {
      OpFaithful(h, text, db, ops[0]);
      RunFaithful(h, text, After(h, text, db, ops[0]), ops[1..]);
    }
  }

  /** After any sequence of operations, whether they committed or were rolled back,
      folding the event log gives every review as the tables hold it - key, digest,
      reviewers, quorum, expiry, status, decision time, votes, comments and replacement -
      and the chain check accepts the log. */
  lemma LogReplaysToTables(h: Hash, text: Text, ops: seq<Op>)
    requires Possible(h, text, EMPTY, ops)
    ensures var db := Run(h, text, EMPTY, ops);
            && Replay(db.events).Keys == db.reviews.Keys
            && (forall id :: id in db.reviews ==> Replay(db.events)[id] == EntryOf(db, id))
            && Linked(h, db.events)
  {
    assert Held(EMPTY) == map[];
    RunFaithful(h, text, EMPTY, ops);
  }

  ghost predicate Distinguished(h: Hash, e: Event, f: Event) {
    h(e.body) == h(f.body) ==> e.body == f.body
  }

  /** No two different bodies of the two logs have the same hash, and no hash is "". */
  ghost predicate CollisionFree(h: Hash, a: seq<Event>, b: seq<Event>) {
    && (forall e, f {:trigger Distinguished(h, e, f)} :: e in a + b && f in a + b ==> Distinguished(h, e, f))
    && (forall e :: e in a + b ==> h(e.body) != "")
  }

  lemma SameLastEvent(h: Hash, a: seq<Event>, b: seq<Event>)
    requires Linked(h, a) && Linked(h, b) && Tip(a) == Tip(b) && CollisionFree(h, a, b) && a != [] && b != []
    ensures a[|a| - 1] == b[|b| - 1] && Tip(a[..|a| - 1]) == Tip(b[..|b| - 1])
  {
    var e, f := a[|a| - 1], b[|b| - 1];
    assert e in a + b && f in a + b;
    assert Distinguished(h, e, f);
  }

  lemma CollisionFreeBefore(h: Hash, a: seq<Event>, b: seq<Event>)
    requires CollisionFree(h, a, b) && a != [] && b != []
    ensures CollisionFree(h, a[..|a| - 1], b[..|b| - 1])
  {
    assert forall e :: e in a[..|a| - 1] + b[..|b| - 1] ==> e in a + b;
  }

  lemma OnlyEmptyHasNoTip(h: Hash, a: seq<Event>, b: seq<Event>)
    requires CollisionFree(h, a, b) && Linked(h, a) && Linked(h, b) && Tip(a) == Tip(b)
    ensures a == [] <==> b == []
  {
    assert a != [] ==> a[|a| - 1] in a + b;
    assert b != [] ==> b[|b| - 1] in a + b;
  }

  /** Two logs the chain check accepts and that end in the same hash are the same log:
      rewriting any event changes the last hash. */
  lemma {:induction false} TipBindsLog(h: Hash, a: seq<Event>, b: seq<Event>)
    requires Linked(h, a) && Linked(h, b) && Tip(a) == Tip(b) && CollisionFree(h, a, b)
    ensures a == b
  {
    OnlyEmptyHasNoTip(h, a, b);
    if a != [] {
      SameLastEvent(h, a, b);
      CollisionFreeBefore(h, a, b);
      TipBindsLog(h, a[..|a| - 1], b[..|b| - 1]);
      assert a == a[..|a| - 1] + [a[|a| - 1]] && b == b[..|b| - 1] + [b[|b| - 1]];
    }
  }
}
