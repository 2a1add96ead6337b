/** The release-review store (autarch/review.py): tables of reviews, votes and comments,
    and the hash-chained event log written beside them. Each public operation is one
    transaction: it commits as a whole, or an exception rolls the whole of it back. */
module ReviewStore {
  import opened Prelude

  datatype Status = Pending | Approved | Rejected | Expired | Superseded

  datatype Decision = Approve | Reject

  datatype Review = Review(
    key: string, subject: string, digest: string, reviewers: seq<string>, quorum: int,
    requestedBy: string, rationale: string,
    status: Status, expiresAt: Option<real>, createdAt: real, decidedAt: Option<real>, supersededBy: string)

  datatype Vote = Vote(request: string, reviewer: string, decision: Decision, comment: string, provider: string,
    at: real)

  datatype Comment = Comment(request: string, reviewer: string, text: string, provider: string, at: real)

  /** What an event says, by its type. An automatic supersession names the replacement
      and its digest, a manual one who asked for it and why. */
  datatype Payload =
    | Submitted(key: string, digest: string, reviewers: seq<string>, quorum: int, expiresAt: Option<real>)
    | VoteRecorded(reviewer: string, decision: Decision, comment: string, provider: string)
    | CommentAdded(reviewer: string, text: string, provider: string)
    | ReviewDecided(status: Status)
    | Replaced(replacement: string, replacementDigest: string)
    | Withdrawn(actor: string, reason: string, replacement: string)
    | Lapsed

  datatype Body = Body(request: string, payload: Payload, at: real, previous: string)

  /** The hash of an event body: any function. */
  type Hash = Body -> string

  datatype Event = Event(body: Body, hash: string)

  /** `reviews` is keyed by its primary key; `ids` is the order of insertion. */
  datatype Db = Db(reviews: map<string, Review>, ids: seq<string>, votes: seq<Vote>, comments: seq<Comment>,
    events: seq<Event>)

  const EMPTY := Db(map[], [], [], [], [])

  /** The exceptions: ValueError, KeyError, PermissionError, and sqlite3.IntegrityError. */
  datatype Error = Invalid | NoReview | NotAuthorized | Duplicate

  /** str.strip and str.lower: any functions. */
  datatype Text = Text(strip: string -> string, lower: string -> string)

  // ---------------------------------------------------------------------- the event log

  function Tip(events: seq<Event>): string {
    if events == [] then "" else events[|events| - 1].hash
  }

  function Hashes(events: seq<Event>): set<string> {
    set e | e in events :: e.hash
  }

  /** `_append_event_locked`; the hash column is UNIQUE. */
  function Append(h: Hash, db: Db, request: string, payload: Payload, at: real): Result<Db, Error> {
    var body := Body(request, payload, at, Tip(db.events));
    if h(body) in Hashes(db.events) then Err(Duplicate)
    else Ok(db.(events := db.events + [Event(body, h(body))]))
  }

  // ------------------------------------------------------------------------ the tables

  predicate Active(r: Review) {
    r.status == Pending || r.status == Approved
  }

  predicate Due(r: Review, now: real) {
    r.status == Pending && r.expiresAt.Some? && now >= r.expiresAt.value
  }

  /** `_expire_row_locked`. */
  function Expire(h: Hash, db: Db, id: string, now: real): Result<Db, Error>
    requires id in db.reviews
  {
    var r := db.reviews[id];
    if Due(r, now) then
      Append(h, db.(reviews := db.reviews[id := r.(status := Expired, decidedAt := Some(now))]), id, Lapsed, now)
    else Ok(db)
  }

  function Replace(h: Hash, db: Db, id: string, actor: string, digest: string, now: real): Result<Db, Error>
    requires id in db.reviews
  {
    var r := db.reviews[id].(status := Superseded, decidedAt := Some(now), supersededBy := actor);
    Append(h, db.(reviews := db.reviews[id := r]), id, Replaced(actor, digest), now)
  }

  /** The loop over the active reviews of a key. */
  function ReplaceAll(h: Hash, db: Db, ids: seq<string>, actor: string, digest: string, now: real): Result<Db, Error>
    requires forall id :: id in ids ==> id in db.reviews
    decreases |ids|
  {
    if ids == [] then Ok(db)
    else
      var next :- Replace(h, db, ids[0], actor, digest, now);
      ReplaceAll(h, next, ids[1..], actor, digest, now)
  }

  function ActiveIds(db: Db, ids: seq<string>, key: string): (found: seq<string>)
    ensures forall id :: id in found <==>
            id in ids && id in db.reviews && db.reviews[id].key == key && Active(db.reviews[id])
  {
    if ids == [] then []
    else
      var rest := ActiveIds(db, ids[1..], key);
      if ids[0] in db.reviews && db.reviews[ids[0]].key == key && Active(db.reviews[ids[0]])
      then [ids[0]] + rest
      else rest
  }

  /** The newest review of a key; which of two equally new ones is left open. */
  predicate IsLatest(db: Db, key: string, latest: Option<string>) {
    match latest
    case None => forall id :: id in db.reviews ==> db.reviews[id].key != key
    case Some(l) =>
      && l in db.reviews && db.reviews[l].key == key
      && forall id :: id in db.reviews && db.reviews[id].key == key ==>
        db.reviews[id].createdAt <= db.reviews[l].createdAt
  }

  // ------------------------------------------------------------------------ operations

  datatype Submission = Submission(
    key: string, subject: string, digest: string, reviewers: seq<string>, quorum: Option<int>,
    requestedBy: string, rationale: string, ttl: Option<real>)

  predicate HexDigest(s: string) {
    |s| == 64 && forall c :: c in s ==> '0' <= c <= '9' || 'a' <= c <= 'f'
  }

  function Digest(text: Text, s: string): Result<string, Error> {
    var normal := text.strip(text.lower(s));
    if HexDigest(normal) then Ok(normal) else Err(Invalid)
  }

  /** `_reviewers`: the names in the order first given, none blank and none twice. */
  function Reviewers(text: Text, names: seq<string>): (unique: seq<string>)
    ensures forall n :: n in unique <==> n != "" && exists i :: 0 <= i < |names| && text.strip(names[i]) == n
    ensures forall i, j :: 0 <= i < j < |unique| ==> unique[i] != unique[j]
  {
    if names == [] then []
    else
      var init, last := Reviewers(text, names[..|names| - 1]), text.strip(names[|names| - 1]);
      assert forall i :: 0 <= i < |names| ==> i == |names| - 1 || names[i] == names[..|names| - 1][i];
      if last == "" || last in init then init else init + [last]
  }

  /** A name takes its place when it is first given: more names never reorder the list. */
  lemma {:induction false} ReviewersKeepOrder(text: Text, names: seq<string>, k: nat)
    requires k <= |names|
    ensures Reviewers(text, names[..k]) <= Reviewers(text, names)
    decreases |names|
  {
    if k == |names| {
      assert names[..k] == names;
    } else {
      ReviewersKeepOrder(text, names[..|names| - 1], k);
      assert names[..|names| - 1][..k] == names[..k];
    }
  }

  /** The request as the store takes it: stripped, normalized and checked. */
  function Checked(text: Text, s: Submission): Result<Submission, Error> {
    var key, subject := text.strip(s.key), text.strip(s.subject);
    if key == "" || subject == "" then Err(Invalid)
    else
      var digest :- Digest(text, s.digest);
      var reviewers := Reviewers(text, s.reviewers);
      var quorum := s.quorum.GetOr(|reviewers|);
      if reviewers == [] || quorum < 1 || quorum > |reviewers| then Err(Invalid)
      else if s.ttl.Some? && s.ttl.value <= 0.0 then Err(Invalid)
      else Ok(s.(key := key, subject := subject, digest := digest, reviewers := reviewers, quorum := Some(quorum)))
  }

  // What is asked of a submission, and what it becomes, said of its own fields.

  /** The people named, blank names and repetitions apart. */
  function Named(text: Text, names: seq<string>): set<string> {
    set i | 0 <= i < |names| && text.strip(names[i]) != "" :: text.strip(names[i])
  }

  /** 64 digits of lower-case hex. */
  predicate IsSha256(digest: string) {
    |digest| == 64 && forall i :: 0 <= i < 64 ==> digest[i] in "0123456789abcdef"
  }

  predicate Refused(text: Text, s: Submission) {
    || text.strip(s.key) == "" || text.strip(s.subject) == "" || !IsSha256(text.strip(text.lower(s.digest)))
    || Named(text, s.reviewers) == {}
    || (s.quorum.Some? && !(1 <= s.quorum.value <= |Named(text, s.reviewers)|))
    || (s.ttl.Some? && s.ttl.value <= 0.0)
  }

  /** The row is about exactly what was asked for; without a quorum everybody named has to
      approve. */
  ghost predicate AsAsked(text: Text, s: Submission, r: Review) {
    && r.key == text.strip(s.key) && r.subject == text.strip(s.subject)
    && r.digest == text.strip(text.lower(s.digest))
    && InOrderGiven(text, s.reviewers, r.reviewers)
    && r.quorum == (match s.quorum case Some(q) => q case None => |Named(text, s.reviewers)|)
    && r.requestedBy == s.requestedBy && r.rationale == s.rationale
  }

  /** Each name once, in the order in which the names were first given. */
  ghost predicate InOrderGiven(text: Text, names: seq<string>, list: seq<string>) {
    && (forall n :: n in list <==> n in Named(text, names))
    && |list| == |Named(text, names)|
    && Rising(text, names, list)
  }

  ghost predicate Rising(text: Text, names: seq<string>, list: seq<string>) {
    forall i, j :: 0 <= i < j < |list| ==> FirstGiven(text, names, list[i]) < FirstGiven(text, names, list[j])
  }

  /** Where a name is first given, or the number of names. */
  function FirstGiven(text: Text, names: seq<string>, n: string): nat {
    if names == [] || text.strip(names[0]) == n then 0 else 1 + FirstGiven(text, names[1..], n)
  }

  predicate AsNew(s: Submission, now: real, r: Review) {
    && r.status == Pending && r.createdAt == now && r.decidedAt == None && r.supersededBy == ""
    && r.expiresAt == match s.ttl case Some(ttl) => Some(now + ttl) case None => None
  }

  lemma {:induction false} FirstGivenMeans(text: Text, names: seq<string>, n: string)
    ensures FirstGiven(text, names, n) <= |names|
    ensures FirstGiven(text, names, n) < |names| ==> text.strip(names[FirstGiven(text, names, n)]) == n
    ensures forall i :: 0 <= i < FirstGiven(text, names, n) ==> text.strip(names[i]) != n
  {
    if names != [] && text.strip(names[0]) != n {
      FirstGivenMeans(text, names[1..], n);
      forall i | 0 <= i < FirstGiven(text, names, n)
        ensures text.strip(names[i]) != n
      {
        assert i > 0 ==> names[i] == names[1..][i - 1];
      }
    }
  }

  lemma FirstGivenKeeps(text: Text, init: seq<string>, last: string, n: string)
    requires n in Named(text, init)
    ensures FirstGiven(text, init + [last], n) == FirstGiven(text, init, n) < |init|
  {
    FirstGivenMeans(text, init, n);
    FirstGivenMeans(text, init + [last], n);
    var i, j := FirstGiven(text, init, n), FirstGiven(text, init + [last], n);
    assert (init + [last])[i] == init[i];
    assert j < |init| ==> (init + [last])[j] == init[j];
  }

  lemma FirstGivenNew(text: Text, init: seq<string>, last: string)
    requires text.strip(last) != "" && text.strip(last) !in Named(text, init)
    ensures FirstGiven(text, init + [last], text.strip(last)) == |init|
  {
    FirstGivenMeans(text, init + [last], text.strip(last));
    assert (init + [last])[|init|] == last;
    assert forall i :: 0 <= i < |init| ==> (init + [last])[i] == init[i];
  }

  lemma NamedMore(text: Text, init: seq<string>, last: string)
    ensures Named(text, init + [last]) == Named(text, init) + if text.strip(last) == "" then {} else {text.strip(last)}
  {
    var names := init + [last];
    assert names[|init|] == last;
    forall i | 0 <= i < |init|
      ensures names[i] == init[i]
    {
    }
  }

  lemma StillRising(text: Text, init: seq<string>, last: string, list: seq<string>)
    requires InOrderGiven(text, init, list)
    ensures Rising(text, init + [last], list)
    ensures forall n :: n in list ==> FirstGiven(text, init + [last], n) < |init|
  {
    forall n | n in list
      ensures FirstGiven(text, init + [last], n) == FirstGiven(text, init, n) < |init|
    {
      FirstGivenKeeps(text, init, last, n);
    }
    forall i | 0 <= i < |list|
      ensures list[i] in list
    {
    }
  }

  lemma RisingMore(text: Text, names: seq<string>, list: seq<string>, n: string)
    requires Rising(text, names, list)
    requires forall x :: x in list ==> FirstGiven(text, names, x) < FirstGiven(text, names, n)
    ensures Rising(text, names, list + [n])
  {
    forall i | 0 <= i < |list|
      ensures list[i] in list
    {
    }
  }

  lemma SetMore(list: seq<string>, names: set<string>, n: string)
    requires |list| == |names| && (forall x :: x in list <==> x in names) && n !in names
    ensures |list + [n]| == |names + {n}| && forall x :: x in list + [n] <==> x in names + {n}
  {
  }

  lemma KnownName(text: Text, init: seq<string>, last: string, list: seq<string>)
    requires InOrderGiven(text, init, list) && (text.strip(last) == "" || text.strip(last) in list)
    ensures InOrderGiven(text, init + [last], list)
  {
    NamedMore(text, init, last);
    assert Named(text, init + [last]) == Named(text, init);
    StillRising(text, init, last, list);
  }

  lemma NewName(text: Text, init: seq<string>, last: string, list: seq<string>)
    requires InOrderGiven(text, init, list) && text.strip(last) != "" && text.strip(last) !in list
    ensures InOrderGiven(text, init + [last], list + [text.strip(last)])
  {
    var n, names := text.strip(last), Named(text, init);
    NamedMore(text, init, last);
    SetMore(list, names, n);
    StillRising(text, init, last, list);
    FirstGivenNew(text, init, last);
    RisingMore(text, init + [last], list, n);
  }

  lemma {:induction false} ReviewersInOrder(text: Text, names: seq<string>)
    ensures InOrderGiven(text, names, Reviewers(text, names))
  {
    if names != [] {
      var init, last := names[..|names| - 1], names[|names| - 1];
      assert names == init + [last];
      ReviewersInOrder(text, init);
      var list, n := Reviewers(text, init), text.strip(last);
      if n == "" || n in list {
        KnownName(text, init, last, list);
      } else {
        NewName(text, init, last, list);
      }
    }
  }

  lemma HexDigits(c: char)
    ensures '0' <= c <= '9' || 'a' <= c <= 'f' <==> c in "0123456789abcdef"
  {
    var digits := "0123456789abcdef";
    assert digits[0] == '0' && digits[1] == '1' && digits[2] == '2' && digits[3] == '3' && digits[4] == '4';
    assert digits[5] == '5' && digits[6] == '6' && digits[7] == '7' && digits[8] == '8' && digits[9] == '9';
    assert digits[10] == 'a' && digits[11] == 'b' && digits[12] == 'c' && digits[13] == 'd' && digits[14] == 'e';
    assert digits[15] == 'f';
  }

  lemma DigestMeans(s: string)
    ensures HexDigest(s) <==> IsSha256(s)
  {
    forall i | 0 <= i < |s|
      ensures '0' <= s[i] <= '9' || 'a' <= s[i] <= 'f' <==> s[i] in "0123456789abcdef"
    {
      HexDigits(s[i]);
    }
    if IsSha256(s) {
      forall c | c in s
        ensures '0' <= c <= '9' || 'a' <= c <= 'f'
      {
        var i :| 0 <= i < |s| && s[i] == c;
      }
    }
    if HexDigest(s) {
      forall i | 0 <= i < 64
        ensures s[i] in "0123456789abcdef"
      {
        assert s[i] in s;
      }
    }
  }

  /** A request is refused exactly for these reasons, and otherwise taken as it was asked. */
  lemma CheckedIff(text: Text, s: Submission, now: real)
    ensures Checked(text, s) == Err(Invalid) <==> Refused(text, s)
    ensures Checked(text, s).Ok? <==> !Refused(text, s)
    ensures Checked(text, s).Ok? ==>
              AsAsked(text, s, Row(Checked(text, s).value, now)) && AsNew(s, now, Row(Checked(text, s).value, now))
  {
    ReviewersInOrder(text, s.reviewers);
    var normal := text.strip(text.lower(s.digest));
    DigestMeans(normal);
  }

  predicate SameContract(r: Review, s: Submission) {
    && r.subject == s.subject && r.reviewers == s.reviewers && Some(r.quorum) == s.quorum
    && r.requestedBy == s.requestedBy && r.rationale == s.rationale
  }

  function Row(s: Submission, now: real): Review {
    Review(s.key, s.subject, s.digest, s.reviewers, s.quorum.GetOr(0), s.requestedBy, s.rationale, Pending,
           if s.ttl.Some? then Some(now + s.ttl.value) else None, now, None, "")
  }

  function Insert(h: Hash, db: Db, id: string, r: Review, now: real): Result<Db, Error> {
    if id in db.reviews then Err(Duplicate)
    else
      Append(h, db.(reviews := db.reviews[id := r], ids := db.ids + [id]), id,
             Submitted(r.key, r.digest, r.reviewers, r.quorum, r.expiresAt), now)
  }

  /** The part of `submit` that makes a new review: every active one of the key gives way. */
  function Create(h: Hash, db: Db, s: Submission, now: real, id: string): Result<Db, Error> {
    var next :- ReplaceAll(h, db, ActiveIds(db, db.ids, s.key), id, s.digest, now);
    Insert(h, next, id, Row(s, now), now)
  }

  /** `submit` for a checked request, given the newest review of its key and the id a new
      one would get: the database left and the review returned. */
  function Submit(h: Hash, db: Db, s: Submission, now: real, id: string, latest: Option<string>)
    : Result<(Db, string), Error>
    requires latest.Some? ==> latest.value in db.reviews
  {
    if latest.None? then
      var created :- Create(h, db, s, now, id);
      Ok((created, id))
    else
      var l := latest.value;
      var expired :- Expire(h, db, l, now);
      var r := expired.reviews[l];
      if r.digest == s.digest && SameContract(r, s) && r.status in {Pending, Approved, Rejected} then Ok((expired, l))
      else
        var created :- Create(h, expired, s, now, id);
        Ok((created, id))
  }

  function Approvals(votes: seq<Vote>, id: string): nat {
    if votes == [] then 0
    else
      var last := votes[|votes| - 1];
      Approvals(votes[..|votes| - 1], id) + if last.request == id && last.decision == Approve then 1 else 0
  }

  predicate Voted(votes: seq<Vote>, id: string, voter: string) {
    exists v :: v in votes && v.request == id && v.reviewer == voter
  }

  function Verdict(db: Db, id: string, decision: Decision): Status
    requires id in db.reviews
  {
    if decision == Reject then Rejected
    else if Approvals(db.votes, id) >= db.reviews[id].quorum then Approved
    else Pending
  }

  function Recorded(vote: Vote): Payload {
    VoteRecorded(vote.reviewer, vote.decision, vote.comment, vote.provider)
  }

  /** A new vote on a pending review, and the decision it may bring. */
  function Cast(h: Hash, db: Db, vote: Vote): Result<Db, Error>
    requires vote.request in db.reviews
  {
    var id := vote.request;
    var next :- Append(h, db.(votes := db.votes + [vote]), id, Recorded(vote), vote.at);
    var status := Verdict(next, id, vote.decision);
    if status == Pending then Ok(next)
    else
      var decided := next.reviews[id].(status := status, decidedAt := Some(vote.at));
      Append(h, next.(reviews := next.reviews[id := decided]), id, ReviewDecided(status), vote.at)
  }

  /** `_vote`. A vote on a review no longer pending, and the same vote again, change
      nothing; the opposite vote is an error. */
  function CastVote(h: Hash, db: Db, vote: Vote): Result<Db, Error> {
    if vote.request !in db.reviews then Err(NoReview)
    else
      var next :- Expire(h, db, vote.request, vote.at);
      var r := next.reviews[vote.request];
      if r.status != Pending then Ok(next)
      else if vote.reviewer !in r.reviewers then Err(NotAuthorized)
      else if Voted(next.votes, vote.request, vote.reviewer) then
        if exists v ::
          v in next.votes && v.request == vote.request && v.reviewer == vote.reviewer && v.decision != vote.decision
        then Err(Invalid) else Ok(next)
      else Cast(h, next, vote)
  }

  /** `add_comment`, at any status. */
  function AddComment(h: Hash, db: Db, c: Comment): Result<Db, Error> {
    if c.request !in db.reviews then Err(NoReview)
    else if c.reviewer !in db.reviews[c.request].reviewers then Err(NotAuthorized)
    else Append(h, db.(comments := db.comments + [c]), c.request, CommentAdded(c.reviewer, c.text, c.provider), c.at)
  }

  /** `supersede`. */
  function Supersede(h: Hash, db: Db, id: string, actor: string, reason: string, replacement: string, now: real)
    : Result<Db, Error>
  {
    if id !in db.reviews then Err(NoReview)
    else
      var r := db.reviews[id];
      if r.status == Superseded || r.status == Expired then Ok(db)
      else
        var over := r.(status := Superseded, decidedAt := Some(now), supersededBy := replacement);
        Append(h, db.(reviews := db.reviews[id := over]), id,
               Withdrawn(actor, reason, replacement), now)
  }

  /** `_refresh_expiry`. */
  function Refresh(h: Hash, db: Db, id: string, now: real): Result<Db, Error> {
    if id in db.reviews then Expire(h, db, id, now) else Ok(db)
  }

  function Provider(text: Text, given: string): string {
    if text.strip(given) == "" then "asserted" else text.strip(given)
  }

  // ------------------------------------------------------------------------- the store

  class ReleaseReviewStore {
    const h: Hash
    const text: Text
    var db: Db

    constructor (h: Hash, text: Text)
      ensures this.h == h && this.text == text && db == EMPTY
    {
      this.h, this.text, this.db := h, text, EMPTY;
    }

    /** One INSERT into the event table, into the transaction under way. */
    method AppendEvent(request: string, payload: Payload, at: real) returns (ok: bool)
      modifies this
      ensures match Append(h, old(db), request, payload, at)
              case Ok(next) => ok && db == next
              case Err(_) => !ok && db == old(db)
    {
      var body := Body(request, payload, at, Tip(db.events));
      ok := h(body) !in Hashes(db.events);
      if ok {
        db := db.(events := db.events + [Event(body, h(body))]);
      }
    }

    method ExpireRow(id: string, now: real) returns (ok: bool)
      requires id in db.reviews
      modifies this
      ensures match Expire(h, old(db), id, now)
              case Ok(next) => ok && db == next
              case Err(_) => !ok
    {
      var r := db.reviews[id];
      ok := true;
      if r.status == Pending && r.expiresAt.Some? && now >= r.expiresAt.value {
        db := db.(reviews := db.reviews[id := r.(status := Expired, decidedAt := Some(now))]);
        ok := AppendEvent(id, Lapsed, now);
      }
    }

    method ReplaceActive(key: string, actor: string, digest: string, now: real) returns (ok: bool)
      modifies this
      ensures match ReplaceAll(h, old(db), ActiveIds(old(db), old(db).ids, key), actor, digest, now)
              case Ok(next) => ok && db == next
              case Err(_) => !ok
    {
      var active := ActiveIds(db, db.ids, key);
      var i := 0;
      while i < |active|
        invariant 0 <= i <= |active|
        invariant forall id :: id in active ==> id in db.reviews
        invariant ReplaceAll(h, db, active[i..], actor, digest, now) ==
                  ReplaceAll(h, old(db), active, actor, digest, now)
      {
        var id := active[i];
        assert active[i..][1..] == active[i + 1..];
        var over := db.reviews[id].(status := Superseded, decidedAt := Some(now), supersededBy := actor);
        db := db.(reviews := db.reviews[id := over]);
        ok := AppendEvent(id, Replaced(actor, digest), now);
        if !ok {
          return;
        }
        i := i + 1;
      }
      ok := true;
    }

    method Latest(key: string) returns (latest: Option<string>)
      ensures IsLatest(db, key, latest)
    {
      latest := None;
      var left := db.reviews.Keys;
      while left != {}
        invariant left <= db.reviews.Keys
        invariant latest.Some? ==> latest.value in db.reviews && db.reviews[latest.value].key == key
        invariant forall id :: id in db.reviews && id !in left && db.reviews[id].key == key ==>
                                 latest.Some? && db.reviews[id].createdAt <= db.reviews[latest.value].createdAt
        decreases left
      {
        var id :| id in left;
        left := left - {id};
        if db.reviews[id].key == key
          && (latest.None? || db.reviews[latest.value].createdAt < db.reviews[id].createdAt) {
          latest := Some(id);
        }
      }
    }

    /** `submit`, with the id a new review would get. An exception rolls back. */
    method SubmitReview(request: Submission, now: real, createdId: string)
      returns (result: Result<string, Error>, latest: Option<string>)
      modifies this
      ensures match Checked(text, request)
              case Err(e) => result == Err(e) && db == old(db)
              case Ok(s) =>
                && IsLatest(old(db), s.key, latest)
                && match Submit(h, old(db), s, now, createdId, latest)
                   case Ok((next, id)) => result == Ok(id) && db == next
                   case Err(e) => result.Err? && db == old(db)
      ensures result == Err(Invalid) <==> Refused(text, request)
      ensures result.Ok? ==> result.value in db.reviews && AsAsked(text, request, db.reviews[result.value])
      ensures result.Ok? && result.value !in old(db).reviews ==> AsNew(request, now, db.reviews[result.value])
    {
      latest := None;
      var checked := Checked(text, request);
      CheckedIff(text, request, now);
      if checked.Err? {
        return Err(checked.error), latest;
      }
      var s, saved := checked.value, db;
      latest := Latest(s.key);
      if latest.Some? {
        var expired := ExpireRow(latest.value, now);
        if !expired {
          db := saved;
          return Err(Duplicate), latest;
        }
        var r := db.reviews[latest.value];
        if r.digest == s.digest && SameContract(r, s)
          && (r.status == Pending || r.status == Approved || r.status == Rejected) {
          return Ok(latest.value), latest;
        }
      }
      var replaced := ReplaceActive(s.key, createdId, s.digest, now);
      if !replaced || createdId in db.reviews {
        db := saved;
        return Err(Duplicate), latest;
      }
      var row := Row(s, now);
      db := db.(reviews := db.reviews[createdId := row], ids := db.ids + [createdId]);
      var logged := AppendEvent(createdId,
        Submitted(row.key, row.digest, row.reviewers, row.quorum, row.expiresAt), now);
      if !logged {
        db := saved;
        return Err(Duplicate), latest;
      }
      result := Ok(createdId);
    }

    /** A new vote, its event, and the decision it may bring, into the transaction under way. */
    method InsertVote(vote: Vote) returns (ok: bool)
      requires vote.request in db.reviews
      modifies this
      ensures match Cast(h, old(db), vote)
              case Ok(next) => ok && db == next
              case Err(_) => !ok
    {
      var id := vote.request;
      db := db.(votes := db.votes + [vote]);
      ok := AppendEvent(id, VoteRecorded(vote.reviewer, vote.decision, vote.comment, vote.provider), vote.at);
      if ok {
        var r := db.reviews[id];
        var status := Pending;
        if vote.decision == Reject {
          status := Rejected;
        } else if Approvals(db.votes, id) >= r.quorum {
          status := Approved;
        }
        if status != Pending {
          db := db.(reviews := db.reviews[id := r.(status := status, decidedAt := Some(vote.at))]);
          ok := AppendEvent(id, ReviewDecided(status), vote.at);
        }
      }
    }

    /** `_vote`. */
    method RecordVote(id: string, reviewer: string, decision: Decision, comment: string, identityProvider: string,
            now: real)
      returns (result: Result<(), Error>)
      modifies this
      ensures var vote := Vote(id, text.strip(reviewer), decision, comment, Provider(text, identityProvider), now);
              if vote.reviewer == "" then result == Err(Invalid) && db == old(db)
              else match CastVote(h, old(db), vote)
                   case Ok(next) => result == Ok(()) && db == next
                   case Err(e) => result == Err(e) && db == old(db)
    {
      var vote := Vote(id, text.strip(reviewer), decision, comment, Provider(text, identityProvider), now);
      if vote.reviewer == "" {
        return Err(Invalid);
      }
      var saved := db;
      if id !in db.reviews {
        return Err(NoReview);
      }
      var ok := ExpireRow(id, now);
      if !ok {
        db := saved;
        return Err(Duplicate);
      }
      var r := db.reviews[id];
      if r.status != Pending {
        return Ok(());
      }
      if vote.reviewer !in r.reviewers {
        db := saved;
        return Err(NotAuthorized);
      }
      if exists v :: v in db.votes && v.request == id && v.reviewer == vote.reviewer {
        if exists v :: v in db.votes && v.request == id && v.reviewer == vote.reviewer && v.decision != decision {
          db := saved;
          return Err(Invalid);
        }
        return Ok(());
      }
      ok := InsertVote(vote);
      if !ok {
        db := saved;
        return Err(Duplicate);
      }
      return Ok(());
    }

    /** `reject`: a rejection needs a comment. */
    method RejectReview(id: string, reviewer: string, comment: string, identityProvider: string, now: real)
      returns (result: Result<(), Error>)
      modifies this
      ensures var vote := Vote(id, text.strip(reviewer), Reject, comment, Provider(text, identityProvider), now);
              if text.strip(comment) == "" || vote.reviewer == "" then result == Err(Invalid) && db == old(db)
              else match CastVote(h, old(db), vote)
                   case Ok(next) => result == Ok(()) && db == next
                   case Err(e) => result == Err(e) && db == old(db)
    {
      if text.strip(comment) == "" {
        return Err(Invalid);
      }
      result := RecordVote(id, reviewer, Reject, comment, identityProvider, now);
    }

    method Discuss(id: string, reviewer: string, comment: string, identityProvider: string, now: real)
      returns (result: Result<(), Error>)
      modifies this
      ensures var c := Comment(id, text.strip(reviewer), text.strip(comment), Provider(text, identityProvider), now);
              if c.reviewer == "" || c.text == "" then result == Err(Invalid) && db == old(db)
              else match AddComment(h, old(db), c)
                   case Ok(next) => result == Ok(()) && db == next
                   case Err(e) => result == Err(e) && db == old(db)
    {
      var c := Comment(id, text.strip(reviewer), text.strip(comment), Provider(text, identityProvider), now);
      if c.reviewer == "" || c.text == "" {
        return Err(Invalid);
      }
      var saved := db;
      if id !in db.reviews {
        return Err(NoReview);
      }
      if c.reviewer !in db.reviews[id].reviewers {
        return Err(NotAuthorized);
      }
      db := db.(comments := db.comments + [c]);
      var ok := AppendEvent(id, CommentAdded(c.reviewer, c.text, c.provider), now);
      if !ok {
        db := saved;
        return Err(Duplicate);
      }
      return Ok(());
    }

    method Withdraw(id: string, actor: string, reason: string, replacement: string, now: real)
      returns (result: Result<(), Error>)
      modifies this
      ensures if text.strip(actor) == "" || text.strip(reason) == "" then result == Err(Invalid) && db == old(db)
              else match Supersede(h, old(db), id, text.strip(actor), text.strip(reason), replacement, now)
                   case Ok(next) => result == Ok(()) && db == next
                   case Err(e) => result == Err(e) && db == old(db)
    {
      if text.strip(actor) == "" || text.strip(reason) == "" {
        return Err(Invalid);
      }
      var saved := db;
      if id !in db.reviews {
        return Err(NoReview);
      }
      var r := db.reviews[id];
      if r.status == Superseded || r.status == Expired {
        return Ok(());
      }
      var over := r.(status := Superseded, decidedAt := Some(now), supersededBy := replacement);
      db := db.(reviews := db.reviews[id := over]);
      var ok := AppendEvent(id, Withdrawn(text.strip(actor), text.strip(reason), replacement), now);
      if !ok {
        db := saved;
        return Err(Duplicate);
      }
      return Ok(());
    }

    /** `get`: the expiry is brought up to date first. */
    method Get(id: string, now: real) returns (result: Result<Option<Review>, Error>)
      modifies this
      ensures match Refresh(h, old(db), id, now)
              case Ok(next) => db == next && result == Ok(if id in next.reviews then Some(next.reviews[id]) else None)
              case Err(e) => result.Err? && db == old(db)
    {
      var saved := db;
      if id in db.reviews {
        var ok := ExpireRow(id, now);
        if !ok {
          db := saved;
          return Err(Duplicate);
        }
        return Ok(Some(db.reviews[id]));
      }
      return Ok(None);
    }

    /** `require_valid` answers only with an approved review of exactly this content; every
        other case is an error. An approval does not lapse: only pending reviews expire. */
    method RequireValid(id: string, digest: string, now: real) returns (result: Result<Review, Error>)
      modifies this
      ensures result.Ok? ==>
                && id in db.reviews && result.value == db.reviews[id]
                && result.value.status == Approved
                && HexDigest(result.value.digest) && result.value.digest == text.strip(text.lower(digest))
      ensures result.Err? && id in old(db).reviews && old(db).reviews[id].status == Approved ==>
                !HexDigest(text.strip(text.lower(digest)))
                  || old(db).reviews[id].digest != text.strip(text.lower(digest))
    {
      var review :- Get(id, now);
      if review.None? {
        return Err(NoReview);
      }
      var normal :- Digest(text, digest);
      if review.value.status != Approved || review.value.digest != normal {
        return Err(NotAuthorized);
      }
      return Ok(review.value);
    }

    /** `verify_chain`: whether the whole log is linked, and where it first breaks. */
    method VerifyChain() returns (ok: bool, broken: nat)
      ensures ok <==> Linked(h, db.events)
      ensures !ok ==> broken < |db.events| && Linked(h, db.events[..broken]) && !Linked(h, db.events[..broken + 1])
    {
      var previous := "";
      for i := 0 to |db.events|
        invariant Linked(h, db.events[..i]) && previous == Tip(db.events[..i])
      {
        var e := db.events[i];
        assert db.events[..i + 1][..i] == db.events[..i];
        if e.body.previous != previous || h(e.body) != e.hash {
          if Linked(h, db.events) {
            LinkedPrefix(h, db.events, i + 1);
          }
          return false, i;
        }
        previous := e.hash;
      }
      assert db.events[..|db.events|] == db.events;
      return true, 0;
    }
  }

  /** Every event names the hash of the one before it, and its own hash is its body's. */
  ghost predicate Linked(h: Hash, events: seq<Event>) {
    events == [] ||
    var rest, last := events[..|events| - 1], events[|events| - 1];
    Linked(h, rest) && last.body.previous == Tip(rest) && last.hash == h(last.body)
  }

  lemma {:induction false} LinkedPrefix(h: Hash, events: seq<Event>, n: nat)
    requires n <= |events| && Linked(h, events)
    ensures Linked(h, events[..n])
  {
    if n == |events| {
      assert events[..n] == events;
    } else {
      assert events[..|events| - 1][..n] == events[..n];
      LinkedPrefix(h, events[..|events| - 1], n);
    }
  }
}
