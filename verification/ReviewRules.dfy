/** What each operation of the review store does to the tables, said of the tables and the
    request alone (autarch/review.py). */
module ReviewRules {
  import opened Prelude
  import opened ReviewStore
  import opened ReviewLog
  import opened ReviewDecisions

  /** The time of a pending review is over. */
  predicate Late(r: Review, now: real) {
    r.status == Pending && match r.expiresAt { case Some(end) => now >= end case None => false }
  }

  function Lapsed(r: Review, now: real): Review {
    if Late(r, now) then r.(status := Expired, decidedAt := Some(now)) else r
  }

  // ---------------------------------------------------------------------- submissions

  /** The newest review of the release is about the same content, on the same terms, and
      still stands. */
  ghost predicate Stands(text: Text, db: Db, request: Submission, now: real, latest: Option<string>) {
    latest.Some? && latest.value in db.reviews &&
    var r := db.reviews[latest.value];
    AsAsked(text, request, r) && !Late(r, now) && r.status != Expired && r.status != Superseded
  }

  /** What a new review leaves of another one. */
  function Displaced(key: string, winner: string, now: real, r: Review, isLatest: bool): Review {
    if isLatest && Late(r, now) then r.(status := Expired, decidedAt := Some(now))
    else if r.key == key && (r.status == Pending || r.status == Approved)
      then r.(status := Superseded, decidedAt := Some(now), supersededBy := winner)
    else r
  }

  ghost predicate Rising(f: string -> nat, list: seq<string>) {
    forall i, j :: 0 <= i < j < |list| ==> f(list[i]) < f(list[j])
  }

  ghost predicate SameNames(a: seq<string>, b: seq<string>) {
    |a| == |b| && forall n :: n in a <==> n in b
  }

  lemma LastIsGreatest(f: string -> nat, list: seq<string>, n: string)
    requires Rising(f, list) && list != [] && n in list
    ensures f(n) <= f(list[|list| - 1])
    ensures f(n) == f(list[|list| - 1]) ==> n == list[|list| - 1]
  {
  }

  lemma WithoutLast(f: string -> nat, list: seq<string>, n: string)
    requires Rising(f, list) && list != []
    ensures n in list[..|list| - 1] <==> n in list && n != list[|list| - 1]
  {
    var init, last := list[..|list| - 1], list[|list| - 1];
    assert list == init + [last];
    forall i | 0 <= i < |init|
      ensures init[i] != last
    {
      assert f(list[i]) < f(list[|list| - 1]);
    }
  }

  lemma {:induction false} SortedOnce(f: string -> nat, a: seq<string>, b: seq<string>)
    requires SameNames(a, b) && Rising(f, a) && Rising(f, b)
    ensures a == b
    decreases |a|
  {
    if a != [] {
      var x, y := a[|a| - 1], b[|b| - 1];
      assert x in b && y in a;
      LastIsGreatest(f, b, x);
      LastIsGreatest(f, a, y);
      var a', b' := a[..|a| - 1], b[..|b| - 1];
      forall n
        ensures n in a' <==> n in b'
      {
        WithoutLast(f, a, n);
        WithoutLast(f, b, n);
      }
      SortedOnce(f, a', b');
      assert a == a' + [x] && b == b' + [y];
    }
  }

  lemma OneOrder(text: Text, names: seq<string>, a: seq<string>, b: seq<string>)
    requires InOrderGiven(text, names, a) && InOrderGiven(text, names, b)
    ensures a == b
  {
    SortedOnce(n => FirstGiven(text, names, n), a, b);
  }

  lemma AskedIsSame(text: Text, request: Submission, now: real, r: Review)
    requires Checked(text, request).Ok?
    ensures var s := Checked(text, request).value;
            AsAsked(text, request, r) <==> r.key == s.key && r.digest == s.digest && SameContract(r, s)
  {
    CheckedIff(text, request, now);
    var s := Checked(text, request).value;
    if AsAsked(text, request, r) {
      OneOrder(text, request.reviewers, r.reviewers, Row(s, now).reviewers);
    }
  }

  /** A new review was made, and others gave way to it. */
  ghost predicate MadeNew(db: Db, next: Db, request: Submission, key: string, now: real, id: string,
          latest: Option<string>)
  {
    && id !in db.reviews && id in next.reviews && AsNew(request, now, next.reviews[id])
    && next.ids == db.ids + [id] && next.reviews.Keys == db.reviews.Keys + {id}
    && forall x :: x in db.reviews ==>
         next.reviews[x] == Displaced(key, id, now, db.reviews[x], latest == Some(x))
  }

  lemma ExpiryMeans(h: Hash, db: Db, id: string, now: real)
    requires id in db.reviews && Expire(h, db, id, now).Ok?
    ensures var next := Expire(h, db, id, now).value;
            && next.votes == db.votes && next.comments == db.comments && next.ids == db.ids
            && next.reviews == db.reviews[id := Lapsed(db.reviews[id], now)]
            && (!Late(db.reviews[id], now) ==> next == db)
  {
  }

  lemma NewRowIsAsNew(text: Text, request: Submission, now: real)
    requires Checked(text, request).Ok?
    ensures var s := Checked(text, request).value;
            s.key == text.strip(request.key) && AsNew(request, now, Row(s, now)) && AsAsked(text, request, Row(s, now))
  {
    CheckedIff(text, request, now);
  }

  lemma DisplacedAfterExpiry(key: string, winner: string, now: real, r: Review, isLatest: bool)
    ensures var e := if isLatest then Lapsed(r, now) else r;
            Displaced(key, winner, now, r, isLatest) ==
            if e.key == key && Active(e)
            then e.(status := Superseded, decidedAt := Some(now), supersededBy := winner) else e
  {
  }

  lemma NewMeans(h: Hash, text: Text, db: Db, expired: Db, request: Submission, now: real, id: string,
          latest: Option<string>)
    requires Checked(text, request).Ok? && forall x :: x in db.ids <==> x in db.reviews
    requires expired.votes == db.votes && expired.comments == db.comments && expired.ids == db.ids
    requires match latest
             case None => expired == db
             case Some(l) => l in db.reviews && expired.reviews == db.reviews[l := Lapsed(db.reviews[l], now)]
    requires Create(h, expired, Checked(text, request).value, now, id).Ok?
    ensures var next := Create(h, expired, Checked(text, request).value, now, id).value;
            && MadeNew(db, next, request, text.strip(request.key), now, id, latest)
            && next.reviews[id] == Row(Checked(text, request).value, now)
            && next.votes == db.votes && next.comments == db.comments
  {
    var s := Checked(text, request).value;
    NewRowIsAsNew(text, request, now);
    CreateMeans(h, expired, s, now, id);
    var next := Create(h, expired, s, now, id).value;
    forall x | x in db.reviews
      ensures next.reviews[x] == Displaced(s.key, id, now, db.reviews[x], latest == Some(x))
    {
      assert expired.reviews[x] == if latest == Some(x) then Lapsed(db.reviews[x], now) else db.reviews[x];
      DisplacedAfterExpiry(s.key, id, now, db.reviews[x], latest == Some(x));
    }
  }

  /** A submission gives back the review that stands, and changes nothing; or it makes a
      new one, before which every active review of the release gives way. */
  lemma SubmissionMeans(h: Hash, text: Text, db: Db, request: Submission, now: real, id: string,
          latest: Option<string>)
    requires Checked(text, request).Ok? && IsLatest(db, text.strip(request.key), latest)
    requires forall x :: x in db.ids <==> x in db.reviews
    requires Submit(h, db, Checked(text, request).value, now, id, latest).Ok?
    ensures var (next, got) := Submit(h, db, Checked(text, request).value, now, id, latest).value;
            && got in next.reviews && AsAsked(text, request, next.reviews[got])
            && next.votes == db.votes && next.comments == db.comments
            && if Stands(text, db, request, now, latest) then Some(got) == latest && next == db
               else got == id && MadeNew(db, next, request, text.strip(request.key), now, id, latest)
  {
    if latest.Some? {
      ExpiryMeans(h, db, latest.value, now);
      AskedIsSame(text, request, now, db.reviews[latest.value]);
      var expired := Expire(h, db, latest.value, now).value;
      AskedIsSame(text, request, now, expired.reviews[latest.value]);
    }
    if !Stands(text, db, request, now, latest) {
      var expired := if latest.Some? then Expire(h, db, latest.value, now).value else db;
      NewMeans(h, text, db, expired, request, now, id, latest);
      NewRowIsAsNew(text, request, now);
    }
  }

  lemma CreateMeans(h: Hash, db: Db, s: Submission, now: real, id: string)
    requires Create(h, db, s, now, id).Ok? && forall x :: x in db.ids <==> x in db.reviews
    ensures var next := Create(h, db, s, now, id).value;
            && id !in db.reviews && next.ids == db.ids + [id] && next.reviews.Keys == db.reviews.Keys + {id}
            && next.reviews[id] == Row(s, now) && next.votes == db.votes && next.comments == db.comments
            && forall x :: x in db.reviews ==>
                 next.reviews[x] ==
                 if db.reviews[x].key == s.key && Active(db.reviews[x])
                 then db.reviews[x].(status := Superseded, decidedAt := Some(now), supersededBy := id)
                 else db.reviews[x]
  {
    ReplaceAllDoes(h, db, ActiveIds(db, db.ids, s.key), id, s.digest, now);
  }

  // ----------------------------------------------------------------------------- votes

  /** An identity provider that is not given counts as asserted. */
  lemma ProviderMeans(text: Text, given: string)
    ensures text.strip(given) == "" ==> Provider(text, given) == "asserted"
    ensures text.strip(given) != "" ==> Provider(text, given) == text.strip(given)
  {
  }

  /** What is left to be decided about a vote once its review exists. */
  ghost predicate Open(db: Db, vote: Vote) {
    vote.request in db.reviews && db.reviews[vote.request].status == Pending && !Late(db.reviews[vote.request], vote.at)
  }

  ghost predicate HasVoted(db: Db, vote: Vote, decision: Decision) {
    exists v :: v in db.votes && v.request == vote.request && v.reviewer == vote.reviewer && v.decision == decision
  }

  function Opposite(decision: Decision): Decision {
    match decision
    case Approve => Reject
    case Reject => Approve
  }

  /** The row after one more vote: one rejection decides, and so does the approval that
      makes the quorum of reviewers. */
  function WithVote(db: Db, vote: Vote): Review
    requires vote.request in db.reviews
  {
    var r := db.reviews[vote.request];
    if vote.decision == Reject then r.(status := Rejected, decidedAt := Some(vote.at))
    else if |Approvers(db.votes + [vote], vote.request)| >= r.quorum then
      r.(status := Approved, decidedAt := Some(vote.at))
    else r
  }

  /** Which votes are refused, and why. (Two events may also never have the same hash.) */
  lemma VoteRefusedIff(h: Hash, db: Db, vote: Vote)
    ensures CastVote(h, db, vote) == Err(NoReview) <==> vote.request !in db.reviews
    ensures CastVote(h, db, vote) == Err(NotAuthorized) <==>
            Open(db, vote) && vote.reviewer !in db.reviews[vote.request].reviewers
    ensures CastVote(h, db, vote) == Err(Invalid) <==>
            Open(db, vote) && vote.reviewer in db.reviews[vote.request].reviewers
            && HasVoted(db, vote, Opposite(vote.decision))
  {
  }

  /** A vote that is counted. */
  lemma CountedVoteMeans(h: Hash, db: Db, vote: Vote)
    requires ReviewDecisions.Inv(db) && vote.request in db.reviews && Cast(h, db, vote).Ok?
    requires db.reviews[vote.request].status == Pending && !Voted(db.votes, vote.request, vote.reviewer)
    ensures var next := Cast(h, db, vote).value;
            && next.ids == db.ids && next.comments == db.comments && next.votes == db.votes + [vote]
            && next.reviews == db.reviews[vote.request := WithVote(db, vote)]
  {
    OneVoteMore(db.votes, vote);
    ApprovalsCount(db.votes + [vote], vote.request);
    assert db.reviews[vote.request := db.reviews[vote.request]] == db.reviews;
  }

  /** And what the others do. */
  lemma VoteMeans(h: Hash, db: Db, vote: Vote)
    requires ReviewDecisions.Inv(db) && CastVote(h, db, vote).Ok?
    ensures var next := CastVote(h, db, vote).value;
            && vote.request in db.reviews && next.ids == db.ids && next.comments == db.comments
            && if !Open(db, vote) then
                 next.votes == db.votes &&
                 next.reviews == db.reviews[vote.request := Lapsed(db.reviews[vote.request], vote.at)]
               else if HasVoted(db, vote, vote.decision) then next == db
               else
                 next.votes == db.votes + [vote] && next.reviews == db.reviews[vote.request := WithVote(db, vote)]
  {
    ExpiryMeans(h, db, vote.request, vote.at);
    if Open(db, vote) {
      if !HasVoted(db, vote, vote.decision) {
        assert !Voted(db.votes, vote.request, vote.reviewer);
        CountedVoteMeans(h, db, vote);
      }
    }
  }

  // ---------------------------------------------------------- comments and withdrawals

  /** One event was logged: this one. */
  ghost predicate LogsOne(db: Db, next: Db, request: string, payload: Payload, at: real) {
    |next.events| == |db.events| + 1 && next.events[..|db.events|] == db.events
    && next.events[|db.events|].body.request == request && next.events[|db.events|].body.payload == payload
    && next.events[|db.events|].body.at == at
  }

  /** Each review that gives way is logged as replaced by the new one and its content. */
  lemma {:induction false} ReplacementsAreLogged(h: Hash, db: Db, ids: seq<string>, actor: string, digest: string,
          now: real)
    returns (logged: seq<Event>)
    requires (forall id :: id in ids ==> id in db.reviews) && ReplaceAll(h, db, ids, actor, digest, now).Ok?
    ensures ReplaceAll(h, db, ids, actor, digest, now).value.events == db.events + logged && |logged| == |ids|
    ensures forall i :: 0 <= i < |ids| ==>
              && logged[i].body.request == ids[i] && logged[i].body.payload == Replaced(actor, digest)
              && logged[i].body.at == now
    decreases |ids|
  {
    logged := [];
    if ids != [] {
      var first := Replace(h, db, ids[0], actor, digest, now).value;
      var e := first.events[|db.events|];
      assert first.events == db.events + [e];
      logged := ReplacementsAreLogged(h, first, ids[1..], actor, digest, now);
      assert (db.events + [e]) + logged == db.events + ([e] + logged);
      logged := [e] + logged;
    }
  }

  lemma CommentMeans(h: Hash, db: Db, c: Comment)
    ensures AddComment(h, db, c) == Err(NoReview) <==> c.request !in db.reviews
    ensures AddComment(h, db, c) == Err(NotAuthorized) <==>
            c.request in db.reviews && c.reviewer !in db.reviews[c.request].reviewers
    ensures AddComment(h, db, c).Ok? ==>
              var next := AddComment(h, db, c).value;
              && next.comments == db.comments + [c] && next.reviews == db.reviews && next.votes == db.votes
              && next.ids == db.ids && LogsOne(db, next, c.request, CommentAdded(c.reviewer, c.text, c.provider), c.at)
  {
  }

  lemma WithdrawalMeans(h: Hash, db: Db, id: string, actor: string, reason: string, replacement: string, now: real)
    ensures Supersede(h, db, id, actor, reason, replacement, now) == Err(NoReview) <==> id !in db.reviews
    ensures Supersede(h, db, id, actor, reason, replacement, now).Ok? ==>
              var next := Supersede(h, db, id, actor, reason, replacement, now).value;
              && next.votes == db.votes && next.comments == db.comments && next.ids == db.ids
              && (if db.reviews[id].status in {Expired, Superseded} then next.events == db.events
                  else LogsOne(db, next, id, Withdrawn(actor, reason, replacement), now))
              && next.reviews == if db.reviews[id].status in {Expired, Superseded} then db.reviews else
                   db.reviews[id := db.reviews[id].(status := Superseded, decidedAt := Some(now),
                                                    supersededBy := replacement)]
  {
  }

  lemma ReadingMeans(h: Hash, db: Db, id: string, now: real)
    requires Refresh(h, db, id, now).Ok?
    ensures var next := Refresh(h, db, id, now).value;
            && next.votes == db.votes && next.comments == db.comments && next.ids == db.ids
            && next.reviews == if id in db.reviews then db.reviews[id := Lapsed(db.reviews[id], now)] else db.reviews
  {
  }

  // ------------------------------------------------------------------------- over runs

  lemma AllOfThem(list: seq<string>, some: set<string>)
    requires forall n :: n in some ==> n in list
    requires |some| >= |list|
    ensures forall n :: n in list ==> n in some
    decreases |list|
  {
    if list != [] {
      var init, last := list[..|list| - 1], list[|list| - 1];
      assert list == init + [last];
      if last in some {
        AllOfThem(init, some - {last});
      } else {
        Fewer(init, some);
      }
    }
  }

  lemma Fewer(list: seq<string>, some: set<string>)
    requires forall n :: n in some ==> n in list
    ensures |some| <= |list|
    decreases |list|
  {
    if list == [] {
      assert some == {};
    } else {
      var init, last := list[..|list| - 1], list[|list| - 1];
      assert list == init + [last];
      Fewer(init, some - {last});
    }
  }

  /** A release submitted without a quorum is approved only when everybody named has
      approved, whatever was done before and later. */
  lemma ApprovedByAll(h: Hash, text: Text, before: seq<Op>, request: Submission, now: real, id: string,
          latest: Option<string>, later: seq<Op>)
    requires Possible(h, text, EMPTY, before) && request.quorum == None && Checked(text, request).Ok?
    requires var db := Run(h, text, EMPTY, before); IsLatest(db, text.strip(request.key), latest)
    requires var db := Run(h, text, EMPTY, before);
             var done := Submit(h, db, Checked(text, request).value, now, id, latest);
             done.Ok? && Possible(h, text, done.value.0, later)
    ensures var start := Run(h, text, EMPTY, before);
            var (db, got) := Submit(h, start, Checked(text, request).value, now, id, latest).value;
            var end := Run(h, text, db, later);
            && got in end.reviews
            && (end.reviews[got].status == Approved ==>
                  forall n :: n in Named(text, request.reviewers) ==> n in Approvers(end.votes, got))
  {
    var start := Run(h, text, EMPTY, before);
    RunKeeps(h, text, EMPTY, before);
    ReviewDecisions.CheckedMeans(text, request);
    SubmitKeeps(h, start, Checked(text, request).value, now, id, latest);
    SubmissionMeans(h, text, start, request, now, id, latest);
    var (db, got) := Submit(h, start, Checked(text, request).value, now, id, latest).value;
    RunKeeps(h, text, db, later);
    var end := Run(h, text, db, later);
    assert Evolves(db.reviews[got], end.reviews[got]);
    assert ReviewOk(end.votes, got, end.reviews[got]);
    if end.reviews[got].status == Approved {
      AllOfThem(end.reviews[got].reviewers, Approvers(end.votes, got));
    }
  }
}
