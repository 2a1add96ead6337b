/** What the decisions of the review store mean, in every state it can reach
    (autarch/review.py). */
module ReviewDecisions {
  import opened Prelude
  import opened ReviewStore
  import opened ReviewLog

  /** The reviewers who approved, and those who rejected. */
  function Approvers(votes: seq<Vote>, id: string): set<string> {
    set v | v in votes && v.request == id && v.decision == Approve :: v.reviewer
  }

  function Rejecters(votes: seq<Vote>, id: string): set<string> {
    set v | v in votes && v.request == id && v.decision == Reject :: v.reviewer
  }

  /** What the status of a review says about its votes. */
  predicate Decided(r: Review, approvers: set<string>, rejecters: set<string>) {
    match r.status
    case Pending => |approvers| < r.quorum && rejecters == {}
    case Approved => |approvers| >= r.quorum && rejecters == {}
    case Rejected => rejecters != {} && |approvers| < r.quorum
    case _ => true
  }

  ghost predicate ReviewOk(votes: seq<Vote>, id: string, r: Review) {
    && 1 <= r.quorum <= |r.reviewers| && "" !in r.reviewers
    && Approvers(votes, id) + Rejecters(votes, id) <= (set n | n in r.reviewers)
    && Decided(r, Approvers(votes, id), Rejecters(votes, id))
  }

  /** Two active reviews of the same release. */
  ghost predicate Clash(reviews: map<string, Review>, a: string, b: string) {
    && a != b && a in reviews && b in reviews
    && Active(reviews[a]) && Active(reviews[b]) && reviews[a].key == reviews[b].key
  }

  /** The primary key of the vote table. */
  ghost predicate OneVoteEach(votes: seq<Vote>) {
    forall i, j :: 0 <= i < j < |votes| ==>
      votes[i].request != votes[j].request || votes[i].reviewer != votes[j].reviewer
  }

  ghost predicate OneActivePerKey(reviews: map<string, Review>) {
    forall a, b :: !Clash(reviews, a, b)
  }

  ghost predicate AllOk(reviews: map<string, Review>, votes: seq<Vote>) {
    forall id {:trigger ReviewOk(votes, id, reviews[id])} :: id in reviews ==> ReviewOk(votes, id, reviews[id])
  }

  ghost predicate Inv(db: Db) {
    && ForeignKeys(db) && OneVoteEach(db.votes) && OneActivePerKey(db.reviews) && AllOk(db.reviews, db.votes)
    && (forall id :: id in db.ids <==> id in db.reviews)
  }

  // ------------------------------------------------------------------ how rows evolve

  /** The statuses a review can go through: expired and superseded are final, approved
      and rejected can only be superseded. */
  predicate Follows(was: Status, now: Status) {
    match was
    case Pending => true
    case Approved => now == Approved || now == Superseded
    case Rejected => now == Rejected || now == Superseded
    case Expired => now == Expired
    case Superseded => now == Superseded
  }

  /** What is asked for never changes, and a review that is over stays as it is. */
  predicate Evolves(was: Review, now: Review) {
    && Follows(was.status, now.status)
    && now == was.(status := now.status, decidedAt := now.decidedAt, supersededBy := now.supersededBy)
    && (was.status == Expired || was.status == Superseded ==> now == was)
  }

  ghost predicate AllEvolve(was: map<string, Review>, now: map<string, Review>) {
    forall id :: id in was ==> id in now && Evolves(was[id], now[id])
  }

  lemma EvolvesOn(a: map<string, Review>, b: map<string, Review>, c: map<string, Review>)
    requires AllEvolve(a, b) && AllEvolve(b, c)
    ensures AllEvolve(a, c)
  {
  }

  // ----------------------------------------------------------------------- the steps

  /** One more vote: who has approved and rejected what now. */
  lemma VotesAfter(votes: seq<Vote>, vote: Vote, id: string)
    ensures Approvers(votes + [vote], id) ==
            Approvers(votes, id) + if vote.request == id && vote.decision == Approve then {vote.reviewer} else {}
    ensures Rejecters(votes + [vote], id) ==
            Rejecters(votes, id) + if vote.request == id && vote.decision == Reject then {vote.reviewer} else {}
  {
  }

  /** Counting the approving rows counts the approving reviewers. */
  lemma {:induction false} ApprovalsCount(votes: seq<Vote>, id: string)
    requires OneVoteEach(votes)
    ensures Approvals(votes, id) == |Approvers(votes, id)|
  {
    if votes != [] {
      var init, last := votes[..|votes| - 1], votes[|votes| - 1];
      assert votes == init + [last];
      ApprovalsCount(init, id);
      VotesAfter(init, last, id);
      if last.request == id && last.decision == Approve {
        assert last.reviewer !in Approvers(init, id);
      }
    }
  }

  /** A review expired or superseded. */
  predicate Closes(was: Review, now: Review) {
    now == was.(status := now.status, decidedAt := now.decidedAt, supersededBy := now.supersededBy)
    && (now.status == Expired || now.status == Superseded)
  }

  lemma ClosedIsOk(votes: seq<Vote>, id: string, was: Review, r: Review)
    requires ReviewOk(votes, id, was) && Closes(was, r)
    ensures ReviewOk(votes, id, r)
  {
  }

  lemma ClosingKeeps(db: Db, id: string, r: Review, events: seq<Event>)
    requires Inv(db) && id in db.reviews && Closes(db.reviews[id], r)
    ensures Inv(db.(reviews := db.reviews[id := r], events := events))
  {
    var reviews := db.reviews[id := r];
    forall other | other in reviews
      ensures ReviewOk(db.votes, other, reviews[other])
    {
      assert ReviewOk(db.votes, other, db.reviews[other]);
      if other == id {
        ClosedIsOk(db.votes, id, db.reviews[id], r);
      }
    }
    forall a, b
      ensures !Clash(reviews, a, b)
    {
      assert !Clash(db.reviews, a, b);
    }
  }

  lemma ExpireKeeps(h: Hash, db: Db, id: string, now: real)
    requires Inv(db) && id in db.reviews && Expire(h, db, id, now).Ok?
    ensures Inv(Expire(h, db, id, now).value)
  {
    if Due(db.reviews[id], now) {
      ClosingKeeps(db, id, db.reviews[id].(status := Expired, decidedAt := Some(now)),
        Expire(h, db, id, now).value.events);
    }
  }

  lemma ExpireEvolves(h: Hash, db: Db, id: string, now: real)
    requires id in db.reviews && Expire(h, db, id, now).Ok?
    ensures AllEvolve(db.reviews, Expire(h, db, id, now).value.reviews)
  {
  }

  lemma {:induction false} ReplaceAllKeeps(h: Hash, db: Db, ids: seq<string>, actor: string, digest: string, now: real)
    requires Inv(db) && forall id :: id in ids ==> id in db.reviews
    requires ReplaceAll(h, db, ids, actor, digest, now).Ok?
    ensures Inv(ReplaceAll(h, db, ids, actor, digest, now).value)
    decreases |ids|
  {
    if ids != [] {
      var first := Replace(h, db, ids[0], actor, digest, now).value;
      ClosingKeeps(db, ids[0], first.reviews[ids[0]], first.events);
      ReplaceAllKeeps(h, first, ids[1..], actor, digest, now);
    }
  }

  /** The loop supersedes exactly the reviews it is given. */
  lemma {:induction false} ReplaceAllDoes(h: Hash, db: Db, ids: seq<string>, actor: string, digest: string, now: real)
    requires forall id :: id in ids ==> id in db.reviews
    requires ReplaceAll(h, db, ids, actor, digest, now).Ok?
    ensures var next := ReplaceAll(h, db, ids, actor, digest, now).value;
            && next.ids == db.ids && next.votes == db.votes && next.comments == db.comments
            && next.reviews.Keys == db.reviews.Keys
            && forall id :: id in db.reviews ==>
                 next.reviews[id] ==
                 if id in ids then db.reviews[id].(status := Superseded, decidedAt := Some(now), supersededBy := actor)
                 else db.reviews[id]
    decreases |ids|
  {
    if ids != [] {
      var first := Replace(h, db, ids[0], actor, digest, now).value;
      ReplaceAllDoes(h, first, ids[1..], actor, digest, now);
      assert forall id :: id in ids <==> id == ids[0] || id in ids[1..];
    }
  }

  lemma NobodyVotedYet(db: Db, id: string)
    requires ForeignKeys(db) && id !in db.reviews
    ensures Approvers(db.votes, id) == {} && Rejecters(db.votes, id) == {}
  {
  }

  lemma InsertKeeps(db: Db, id: string, r: Review, events: seq<Event>)
    requires Inv(db) && id !in db.reviews && r.status == Pending
    requires 1 <= r.quorum <= |r.reviewers| && "" !in r.reviewers
    requires forall other :: other in db.reviews && db.reviews[other].key == r.key ==> !Active(db.reviews[other])
    ensures Inv(db.(reviews := db.reviews[id := r], ids := db.ids + [id], events := events))
  {
    var reviews := db.reviews[id := r];
    NobodyVotedYet(db, id);
    forall other | other in reviews
      ensures ReviewOk(db.votes, other, reviews[other])
    {
      assert other != id ==> ReviewOk(db.votes, other, db.reviews[other]);
    }
    forall a, b
      ensures !Clash(reviews, a, b)
    {
      assert !Clash(db.reviews, a, b);
    }
  }

  lemma CreateKeeps(h: Hash, db: Db, s: Submission, now: real, id: string)
    requires Inv(db) && Create(h, db, s, now, id).Ok?
    requires s.quorum.Some? && 1 <= s.quorum.value <= |s.reviewers| && "" !in s.reviewers
    ensures Inv(Create(h, db, s, now, id).value)
  {
    var active := ActiveIds(db, db.ids, s.key);
    ReplaceAllKeeps(h, db, active, id, s.digest, now);
    ReplaceAllDoes(h, db, active, id, s.digest, now);
    var cleared := ReplaceAll(h, db, active, id, s.digest, now).value;
    InsertKeeps(cleared, id, Row(s, now), Create(h, db, s, now, id).value.events);
  }

  lemma ClosedEvolve(was: map<string, Review>, now: map<string, Review>)
    requires forall id :: id in was ==>
               id in now && (now[id] == was[id]
                 || (Active(was[id]) && Closes(was[id], now[id]) && now[id].status == Superseded))
    ensures AllEvolve(was, now)
  {
  }

  lemma CreateEvolves(h: Hash, db: Db, s: Submission, now: real, id: string)
    requires Create(h, db, s, now, id).Ok?
    ensures AllEvolve(db.reviews, Create(h, db, s, now, id).value.reviews)
  {
    var active := ActiveIds(db, db.ids, s.key);
    ReplaceAllDoes(h, db, active, id, s.digest, now);
    var cleared := ReplaceAll(h, db, active, id, s.digest, now).value;
    ClosedEvolve(db.reviews, cleared.reviews);
    assert Create(h, db, s, now, id).value.reviews == cleared.reviews[id := Row(s, now)];
  }

  lemma CheckedMeans(text: Text, request: Submission)
    requires Checked(text, request).Ok?
    ensures var s := Checked(text, request).value;
            s.quorum.Some? && 1 <= s.quorum.value <= |s.reviewers| && "" !in s.reviewers
  {
  }

  lemma SubmitKeeps(h: Hash, db: Db, s: Submission, now: real, id: string, latest: Option<string>)
    requires Inv(db) && (latest.Some? ==> latest.value in db.reviews)
    requires s.quorum.Some? && 1 <= s.quorum.value <= |s.reviewers| && "" !in s.reviewers
    requires Submit(h, db, s, now, id, latest).Ok?
    ensures var next := Submit(h, db, s, now, id, latest).value.0; Inv(next) && AllEvolve(db.reviews, next.reviews)
  {
    if latest.None? {
      CreateKeeps(h, db, s, now, id);
      CreateEvolves(h, db, s, now, id);
    } else {
      ExpireKeeps(h, db, latest.value, now);
      ExpireEvolves(h, db, latest.value, now);
      var expired := Expire(h, db, latest.value, now).value;
      if Create(h, expired, s, now, id).Ok? {
        CreateKeeps(h, expired, s, now, id);
        CreateEvolves(h, expired, s, now, id);
        EvolvesOn(db.reviews, expired.reviews, Create(h, expired, s, now, id).value.reviews);
      }
    }
  }

  lemma OtherReviewsKeep(votes: seq<Vote>, vote: Vote, id: string, r: Review)
    requires ReviewOk(votes, id, r) && id != vote.request
    ensures ReviewOk(votes + [vote], id, r)
  {
    VotesAfter(votes, vote, id);
  }

  lemma VerdictIsRight(votes: seq<Vote>, vote: Vote, was: Review, r: Review)
    requires OneVoteEach(votes + [vote]) && ReviewOk(votes, vote.request, was)
    requires was.status == Pending && vote.reviewer in was.reviewers
    requires r == was.(status := r.status, decidedAt := r.decidedAt)
    requires r.status == if vote.decision == Reject then Rejected
                         else if Approvals(votes + [vote], vote.request) >= was.quorum then Approved else Pending
    ensures ReviewOk(votes + [vote], vote.request, r)
  {
    ApprovalsCount(votes + [vote], vote.request);
    VotesAfter(votes, vote, vote.request);
  }

  /** The vote table with one more vote, and the row with the verdict on it. */
  lemma VerdictKeeps(db: Db, vote: Vote, r: Review, events: seq<Event>)
    requires Inv(db) && vote.request in db.reviews && vote.reviewer in db.reviews[vote.request].reviewers
    requires db.reviews[vote.request].status == Pending && !Voted(db.votes, vote.request, vote.reviewer)
    requires var votes := db.votes + [vote];
             r == db.reviews[vote.request].(decidedAt := r.decidedAt,
               status := Verdict(db.(votes := votes), vote.request, vote.decision))
    ensures Inv(db.(votes := db.votes + [vote], reviews := db.reviews[vote.request := r], events := events))
  {
    var votes, reviews := db.votes + [vote], db.reviews[vote.request := r];
    OneVoteMore(db.votes, vote);
    forall id | id in reviews
      ensures ReviewOk(votes, id, reviews[id])
    {
      assert ReviewOk(db.votes, id, db.reviews[id]);
      if id == vote.request {
        VerdictIsRight(db.votes, vote, db.reviews[id], r);
      } else {
        OtherReviewsKeep(db.votes, vote, id, reviews[id]);
      }
    }
    forall a, b
      ensures !Clash(reviews, a, b)
    {
      assert !Clash(db.reviews, a, b);
    }
  }

  lemma OneVoteMore(votes: seq<Vote>, vote: Vote)
    requires OneVoteEach(votes) && !Voted(votes, vote.request, vote.reviewer)
    ensures OneVoteEach(votes + [vote])
  {
    forall i | 0 <= i < |votes|
      ensures votes[i].request != vote.request || votes[i].reviewer != vote.reviewer
    {
      assert votes[i] in votes;
    }
  }

  lemma CastKeeps(h: Hash, db: Db, vote: Vote)
    requires Inv(db) && vote.request in db.reviews && Cast(h, db, vote).Ok?
    requires db.reviews[vote.request].status == Pending && vote.reviewer in db.reviews[vote.request].reviewers
    requires !Voted(db.votes, vote.request, vote.reviewer)
    ensures Inv(Cast(h, db, vote).value) && AllEvolve(db.reviews, Cast(h, db, vote).value.reviews)
  {
    var next := Cast(h, db, vote).value;
    VerdictKeeps(db, vote, next.reviews[vote.request], next.events);
    var reviews := db.reviews[vote.request := next.reviews[vote.request]];
    assert next == db.(votes := db.votes + [vote], reviews := reviews, events := next.events);
  }

  lemma CastVoteKeeps(h: Hash, db: Db, vote: Vote)
    requires Inv(db) && CastVote(h, db, vote).Ok?
    ensures Inv(CastVote(h, db, vote).value) && AllEvolve(db.reviews, CastVote(h, db, vote).value.reviews)
  {
    ExpireKeeps(h, db, vote.request, vote.at);
    ExpireEvolves(h, db, vote.request, vote.at);
    var next := Expire(h, db, vote.request, vote.at).value;
    var r := next.reviews[vote.request];
    if r.status == Pending && vote.reviewer in r.reviewers && !Voted(next.votes, vote.request, vote.reviewer) {
      CastKeeps(h, next, vote);
      EvolvesOn(db.reviews, next.reviews, CastVote(h, db, vote).value.reviews);
    }
  }

  lemma SupersedeKeeps(h: Hash, db: Db, id: string, actor: string, reason: string, replacement: string, now: real)
    requires Inv(db) && Supersede(h, db, id, actor, reason, replacement, now).Ok?
    ensures var next := Supersede(h, db, id, actor, reason, replacement, now).value;
            Inv(next) && AllEvolve(db.reviews, next.reviews)
  {
    var next := Supersede(h, db, id, actor, reason, replacement, now).value;
    var r := db.reviews[id];
    if r.status != Superseded && r.status != Expired {
      ClosingKeeps(db, id, next.reviews[id], next.events);
    }
  }

  lemma OpKeeps(h: Hash, text: Text, db: Db, op: Op)
    requires Inv(db) && Enabled(text, db, op)
    ensures Inv(After(h, text, db, op)) && AllEvolve(db.reviews, After(h, text, db, op).reviews)
  {
    if Attempt(h, text, db, op).Ok? {
      match op
      case Submits(request, now, id, latest) =>
        CheckedMeans(text, request);
        SubmitKeeps(h, db, Checked(text, request).value, now, id, latest);
      case Votes(vote) =>
        CastVoteKeeps(h, db, vote);
      case Comments(comment) =>
      case Supersedes(target, actor, reason, replacement, now) =>
        SupersedeKeeps(h, db, target, actor, reason, replacement, now);
      case Refreshes(target, now) =>
        if target in db.reviews {
          ExpireKeeps(h, db, target, now);
          ExpireEvolves(h, db, target, now);
        }
    }
  }

  lemma {:induction false} RunKeeps(h: Hash, text: Text, db: Db, ops: seq<Op>)
    requires Inv(db) && Possible(h, text, db, ops)
    ensures Inv(Run(h, text, db, ops)) && AllEvolve(db.reviews, Run(h, text, db, ops).reviews)
    decreases |ops|
  {
    if ops != [] {
      OpKeeps(h, text, db, ops[0]);
      RunKeeps(h, text, After(h, text, db, ops[0]), ops[1..]);
    }
  }

  /** In every reachable state: at most one review of a release is pending or approved;
      an approved one has at least its quorum of distinct approvals by its named
      reviewers, and no rejection; a pending one has neither; a rejected one was
      rejected by a named reviewer before it was approved. */
  lemma DecisionsAreEarned(h: Hash, text: Text, ops: seq<Op>)
    requires Possible(h, text, EMPTY, ops)
    ensures var db := Run(h, text, EMPTY, ops);
            && (forall a, b | a in db.reviews && b in db.reviews && Active(db.reviews[a]) && Active(db.reviews[b]) ::
                  db.reviews[a].key == db.reviews[b].key ==> a == b)
            && forall id :: id in db.reviews ==>
                 var r, approvers, rejecters := db.reviews[id], Approvers(db.votes, id), Rejecters(db.votes, id);
                 && approvers + rejecters <= (set n | n in r.reviewers && n != "")
                 && (r.status == Approved ==> |approvers| >= r.quorum >= 1 && rejecters == {})
                 && (r.status == Pending ==> |approvers| < r.quorum && rejecters == {})
                 && (r.status == Rejected ==> rejecters != {} && |approvers| < r.quorum)
  {
    RunKeeps(h, text, EMPTY, ops);
    var db := Run(h, text, EMPTY, ops);
    assert forall id :: id in db.reviews ==> ReviewOk(db.votes, id, db.reviews[id]);
    forall a, b | a in db.reviews && b in db.reviews && db.reviews[a].key == db.reviews[b].key
      && Active(db.reviews[a]) && Active(db.reviews[b])
      ensures a == b
    {
      assert !Clash(db.reviews, a, b);
    }
  }

  /** Whatever is done later, an expired or superseded review stays exactly as it is, an
      approval or rejection can only be superseded, and what was reviewed never changes. */
  lemma DecisionsAreFinal(h: Hash, text: Text, before: seq<Op>, later: seq<Op>, id: string)
    requires Possible(h, text, EMPTY, before) && Possible(h, text, Run(h, text, EMPTY, before), later)
    requires id in Run(h, text, EMPTY, before).reviews
    ensures var db := Run(h, text, EMPTY, before);
            var then' := Run(h, text, db, later);
            id in then'.reviews && Evolves(db.reviews[id], then'.reviews[id])
  {
    RunKeeps(h, text, EMPTY, before);
    RunKeeps(h, text, Run(h, text, EMPTY, before), later);
  }

  /** A submission leaves the review it returns undecided or decided, never over. */
  lemma SubmissionStands(h: Hash, db: Db, s: Submission, now: real, id: string, latest: Option<string>)
    requires s.quorum.Some? && (latest.Some? ==> latest.value in db.reviews)
    requires Submit(h, db, s, now, id, latest).Ok?
    ensures var (next, r) := Submit(h, db, s, now, id, latest).value;
            && r in next.reviews && next.reviews[r].digest == s.digest && SameContract(next.reviews[r], s)
            && next.reviews[r].status in {Pending, Approved, Rejected}
  {
    var expired := if latest.Some? then Expire(h, db, latest.value, now).value else db;
    if Create(h, expired, s, now, id).Ok? {
      assert Create(h, expired, s, now, id).value.reviews[id] == Row(s, now);
    }
  }

  /** Submitting the same content again, while the review it got is still the newest of
      its release and not due to expire, gives the same review and changes nothing. */
  lemma ResubmissionIsIdempotent(h: Hash, db: Db, s: Submission, now: real, id: string, latest: Option<string>,
          later: real, id': string)
    requires s.quorum.Some? && (latest.Some? ==> latest.value in db.reviews)
    requires Submit(h, db, s, now, id, latest).Ok?
    requires var (next, r) := Submit(h, db, s, now, id, latest).value;
             r in next.reviews && !Due(next.reviews[r], later)
    ensures var (next, r) := Submit(h, db, s, now, id, latest).value;
            Submit(h, next, s, later, id', Some(r)) == Ok((next, r))
  {
    SubmissionStands(h, db, s, now, id, latest);
  }
}
