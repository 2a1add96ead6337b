/** Dependency waves of a plan (autarch/orchestration.py). */
module Waves {

  /** A subtask, with `depends_on` as the set the algorithm makes of it. */
  datatype Subtask = Subtask(id: string, deps: set<string>)

  type Plan = seq<Subtask>

  predicate UniqueIds(ts: Plan) {
    forall i, j :: 0 <= i < j < |ts| ==> ts[i].id != ts[j].id
  }

  function Ids(ts: Plan): set<string> {
    set t | t in ts :: t.id
  }

  /** The subtasks with one of these ids, in plan order. */
  function Filter(ts: Plan, ids: set<string>): Plan {
    if ts == [] then []
    else Filter(ts[..|ts| - 1], ids) + if ts[|ts| - 1].id in ids then [ts[|ts| - 1]] else []
  }

  /** The ids whose prerequisites are all done. */
  function Ready(ts: Plan, done: set<string>): set<string> {
    if ts == [] then {}
    else Ready(ts[..|ts| - 1], done) + if ts[|ts| - 1].deps <= done then {ts[|ts| - 1].id} else {}
  }

  lemma {:induction false} ReadyHolds(ts: Plan, done: set<string>, t: Subtask)
    requires t in ts && t.deps <= done
    ensures t.id in Ready(ts, done)
  {
    var init, last := ts[..|ts| - 1], ts[|ts| - 1];
    assert ts == init + [last];
    if t != last {
      ReadyHolds(init, done, t);
    }
  }

  lemma {:induction false} ReadyTask(ts: Plan, done: set<string>, id: string) returns (t: Subtask)
    requires id in Ready(ts, done)
    ensures t in ts && t.deps <= done && t.id == id
  {
    var init, last := ts[..|ts| - 1], ts[|ts| - 1];
    if id in Ready(init, done) {
      t := ReadyTask(init, done, id);
    } else {
      t := last;
    }
  }

  /** The ids settled by k rounds of taking everything that is ready. */
  function Settled(ts: Plan, k: nat): set<string> {
    if k == 0 then {} else Settled(ts, k - 1) + Ready(ts, Settled(ts, k - 1))
  }

  function Layer(ts: Plan, k: nat): set<string> {
    Settled(ts, k + 1) - Settled(ts, k)
  }

  function Rest(ts: Plan, k: nat): set<string> {
    Ids(ts) - Settled(ts, k)
  }

  // ---------------------------------------------------------------------- filters

  lemma {:induction false} FilterMember(ts: Plan, ids: set<string>, t: Subtask)
    ensures t in Filter(ts, ids) <==> t in ts && t.id in ids
  {
    if ts != [] {
      FilterMember(ts[..|ts| - 1], ids, t);
      assert ts == ts[..|ts| - 1] + [ts[|ts| - 1]];
    }
  }

  lemma FilterIds(ts: Plan, ids: set<string>)
    ensures Ids(Filter(ts, ids)) == Ids(ts) * ids
  {
    forall t
      ensures t in Filter(ts, ids) <==> t in ts && t.id in ids
    {
      FilterMember(ts, ids, t);
    }
    forall id | id in Ids(ts) * ids
      ensures id in Ids(Filter(ts, ids))
    {
      var t :| t in ts && t.id == id;
      assert t in Filter(ts, ids);
    }
  }

  lemma {:induction false} FilterFilter(ts: Plan, a: set<string>, b: set<string>)
    ensures Filter(Filter(ts, a), b) == Filter(ts, a * b)
  {
    if ts != [] {
      var init, last := ts[..|ts| - 1], ts[|ts| - 1];
      FilterFilter(init, a, b);
      if last.id in a {
        assert Filter(ts, a)[..|Filter(ts, a)| - 1] == Filter(init, a);
      } else {
        assert Filter(ts, a) == Filter(init, a);
      }
    }
  }

  lemma {:induction false} FilterSplits(ts: Plan, a: set<string>, b: set<string>)
    requires a !! b
    ensures multiset(Filter(ts, a + b)) == multiset(Filter(ts, a)) + multiset(Filter(ts, b))
  {
    if ts != [] {
      FilterSplits(ts[..|ts| - 1], a, b);
    }
  }

  lemma {:induction false} FilterAll(ts: Plan, ids: set<string>)
    requires Ids(ts) <= ids
    ensures Filter(ts, ids) == ts
  {
    if ts != [] {
      var init, last := ts[..|ts| - 1], ts[|ts| - 1];
      assert ts == init + [last];
      assert last in ts;
      assert Ids(init) <= Ids(ts);
      FilterAll(init, ids);
    }
  }

  // ------------------------------------------------------- subtasks that share an id

  /** A dictionary entry: a new key goes to the end, a known one keeps its place. */
  function Put(ts: Plan, t: Subtask): Plan {
    if ts == [] then [t]
    else if ts[0].id == t.id then [t] + ts[1..]
    else [ts[0]] + Put(ts[1..], t)
  }

  /** `by_id`: of the subtasks that share an id the last one counts. */
  function ById(given: Plan): Plan {
    if given == [] then [] else Put(ById(given[..|given| - 1]), given[|given| - 1])
  }

  lemma {:induction false} PutMembers(ts: Plan, t: Subtask, x: Subtask)
    requires UniqueIds(ts)
    ensures x in Put(ts, t) <==> x == t || (x in ts && x.id != t.id)
  {
    if ts != [] {
      assert ts == [ts[0]] + ts[1..];
      if ts[0].id != t.id {
        PutMembers(ts[1..], t, x);
      } else {
        assert forall y :: y in ts[1..] ==> y.id != t.id;
      }
    }
  }

  lemma {:induction false} PutKeepsUnique(ts: Plan, t: Subtask)
    requires UniqueIds(ts)
    ensures UniqueIds(Put(ts, t)) && |ts| <= |Put(ts, t)| <= |ts| + 1
  {
    if ts != [] && ts[0].id != t.id {
      var rest := Put(ts[1..], t);
      PutKeepsUnique(ts[1..], t);
      forall i | 0 <= i < |rest|
        ensures rest[i].id != ts[0].id
      {
        PutMembers(ts[1..], t, rest[i]);
        assert rest[i] in rest;
      }
    }
  }

  lemma {:induction false} PutNew(ts: Plan, t: Subtask)
    requires forall x :: x in ts ==> x.id != t.id
    ensures Put(ts, t) == ts + [t]
  {
    if ts != [] {
      PutNew(ts[1..], t);
      assert [ts[0]] + (ts[1..] + [t]) == ts + [t];
    }
  }

  /** Read from the end, the first subtask with t's id is t. */
  predicate IsLastOfItsId(given: Plan, t: Subtask) {
    given != [] &&
    var last := given[|given| - 1];
    last == t || (last.id != t.id && IsLastOfItsId(given[..|given| - 1], t))
  }

  lemma {:induction false} ByIdIsUnique(given: Plan)
    ensures UniqueIds(ById(given)) && |ById(given)| <= |given|
  {
    if given != [] {
      ByIdIsUnique(given[..|given| - 1]);
      PutKeepsUnique(ById(given[..|given| - 1]), given[|given| - 1]);
    }
  }

  /** The dictionary has one entry an id, the last subtask given for it. */
  lemma {:induction false} ByIdMeans(given: Plan, t: Subtask)
    ensures t in ById(given) <==> IsLastOfItsId(given, t)
  {
    if given != [] {
      ByIdIsUnique(given[..|given| - 1]);
      ByIdMeans(given[..|given| - 1], t);
      PutMembers(ById(given[..|given| - 1]), given[|given| - 1], t);
    }
  }

  /** A plan whose ids are unique is its own dictionary. */
  lemma {:induction false} ByIdOfUnique(given: Plan)
    requires UniqueIds(given)
    ensures ById(given) == given
  {
    if given != [] {
      var init, last := given[..|given| - 1], given[|given| - 1];
      ByIdOfUnique(init);
      PutNew(init, last);
      assert given == init + [last];
    }
  }

  // --------------------------------------------------------------- Kahn's algorithm

  function Flatten(ws: seq<Plan>): Plan {
    if ws == [] then [] else Flatten(ws[..|ws| - 1]) + ws[|ws| - 1]
  }

  /** The k-th wave takes exactly what is ready after k rounds. */
  ghost predicate IsWave(ts: Plan, wave: Plan, k: nat) {
    wave == Filter(ts, Layer(ts, k)) && wave != []
  }

  ghost predicate FullWaves(ts: Plan, ws: seq<Plan>, full: nat)
    requires full <= |ws|
  {
    forall k {:trigger IsWave(ts, ws[k], k)} :: 0 <= k < full ==> IsWave(ts, ws[k], k)
  }

  /** The waves: while something is ready, everything that is ready; then, if anything
      is left, all of it as one last wave. */
  ghost predicate Schedule(ts: Plan, ws: seq<Plan>, full: nat) {
    && full <= |ws| <= full + 1 && FullWaves(ts, ws, full)
    && Layer(ts, full) == {}
    && (|ws| == full ==> Rest(ts, full) == {})
    && (|ws| > full ==> ws[full] == Filter(ts, Rest(ts, full)) && Rest(ts, full) != {})
  }

  /** The state of the loop after `|ws|` full waves. */
  ghost predicate Progress(ts: Plan, ws: seq<Plan>, remaining: Plan) {
    var full := |ws|;
    && Settled(ts, full) <= Ids(ts)
    && remaining == Filter(ts, Rest(ts, full))
    && FullWaves(ts, ws, full)
    && multiset(Flatten(ws)) + multiset(remaining) == multiset(ts)
    && |remaining| + full <= |ts|
  }

  /** `waves`. The lemmas below say what a schedule means for the plan it schedules. */
  method Waves(given: Plan) returns (ws: seq<Plan>, ghost full: nat)
    ensures Schedule(ById(given), ws, full)
    ensures multiset(Flatten(ws)) == multiset(ById(given)) && |ws| <= |ById(given)|
  {
    var ts := ById(given);
    ByIdIsUnique(given);
    var remaining := ts;
    var done: set<string> := {};
    ws := [];
    FilterAll(ts, Rest(ts, 0));
    while remaining != []
      invariant done == Settled(ts, |ws|)
      invariant Progress(ts, ws, remaining)
      decreases |remaining|
    {
      var ready := Ready(remaining, done);
      Turn(ts, ws, remaining, ready);
      if ready == {} {
        full := |ws|;
        ws := ws + [remaining];
        return;
      }
      var wave := Filter(remaining, ready);
      remaining := Filter(remaining, Ids(remaining) - ready);
      ws := ws + [wave];
      done := done + ready;
    }
    full := |ws|;
    NothingRemains(ts, ws);
  }

  /** One turn of the loop: the flush, or one more full wave. */
  lemma Turn(ts: Plan, ws: seq<Plan>, remaining: Plan, ready: set<string>)
    requires UniqueIds(ts) && Progress(ts, ws, remaining) && remaining != []
    requires ready == Ready(remaining, Settled(ts, |ws|))
    ensures ready == {} ==>
              Schedule(ts, ws + [remaining], |ws|) && multiset(Flatten(ws + [remaining])) == multiset(ts) && |ws| < |ts|
    ensures ready != {} ==>
              var left := Filter(remaining, Ids(remaining) - ready);
              && Progress(ts, ws + [Filter(remaining, ready)], left) && |left| < |remaining|
              && Settled(ts, |ws| + 1) == Settled(ts, |ws|) + ready
  {
    ReadyAmongRemaining(ts, |ws|);
    if ready == {} {
      FlushRemaining(ts, ws, remaining);
    } else {
      AddWave(ts, ws, remaining);
    }
  }

  lemma NothingRemains(ts: Plan, ws: seq<Plan>)
    requires Progress(ts, ws, [])
    ensures Schedule(ts, ws, |ws|) && multiset(Flatten(ws)) == multiset(ts) && |ws| <= |ts|
  {
    EmptyFilter(ts, Rest(ts, |ws|));
    NothingToSettle(ts, |ws|);
  }

  lemma EmptyFilter(ts: Plan, ids: set<string>)
    requires ids <= Ids(ts) && Filter(ts, ids) == []
    ensures ids == {}
  {
    FilterIds(ts, ids);
  }

  lemma NothingToSettle(ts: Plan, k: nat)
    requires Rest(ts, k) == {}
    ensures Layer(ts, k) == {}
  {
    SettledInPlan(ts, k + 1);
  }

  lemma LayerExtends(ts: Plan, k: nat)
    ensures Settled(ts, k + 1) == Settled(ts, k) + Layer(ts, k)
  {
  }

  lemma AddWave(ts: Plan, ws: seq<Plan>, remaining: Plan)
    requires UniqueIds(ts) && Progress(ts, ws, remaining) && Layer(ts, |ws|) != {}
    ensures var ready := Layer(ts, |ws|);
            var wave, left := Filter(remaining, ready), Filter(remaining, Ids(remaining) - ready);
            && Progress(ts, ws + [wave], left) && |left| < |remaining|
            && Settled(ts, |ws| + 1) == Settled(ts, |ws|) + ready
  {
    SplitRemaining(ts, |ws|);
    LayerExtends(ts, |ws|);
    SettledInPlan(ts, |ws| + 1);
    var ready := Layer(ts, |ws|);
    AppendWave(ts, ws, remaining, Filter(remaining, ready), Filter(remaining, Ids(remaining) - ready));
  }

  lemma AppendWave(ts: Plan, ws: seq<Plan>, remaining: Plan, wave: Plan, left: Plan)
    requires FullWaves(ts, ws, |ws|) && wave == Filter(ts, Layer(ts, |ws|)) && wave != []
    requires multiset(Flatten(ws)) + multiset(remaining) == multiset(ts)
    requires multiset(wave) + multiset(left) == multiset(remaining)
    ensures FullWaves(ts, ws + [wave], |ws| + 1)
    ensures multiset(Flatten(ws + [wave])) + multiset(left) == multiset(ts)
  {
    MoreWaves(ts, ws, wave);
    assert (ws + [wave])[..|ws|] == ws;
    assert Flatten(ws + [wave]) == Flatten(ws) + wave;
  }

  lemma MoreWaves(ts: Plan, ws: seq<Plan>, wave: Plan)
    requires FullWaves(ts, ws, |ws|)
    ensures FullWaves(ts, ws + [wave], |ws|)
    ensures wave == Filter(ts, Layer(ts, |ws|)) && wave != [] ==> FullWaves(ts, ws + [wave], |ws| + 1)
  {
    assert forall k :: 0 <= k < |ws| ==> (ws + [wave])[k] == ws[k];
  }

  lemma FlushRemaining(ts: Plan, ws: seq<Plan>, remaining: Plan)
    requires UniqueIds(ts) && Progress(ts, ws, remaining) && remaining != []
    requires Layer(ts, |ws|) == {}
    ensures Schedule(ts, ws + [remaining], |ws|)
    ensures multiset(Flatten(ws + [remaining])) == multiset(ts)
  {
    MoreWaves(ts, ws, remaining);
    FilterIds(ts, Rest(ts, |ws|));
    assert remaining[0] in remaining;
    assert remaining[0].id in Ids(remaining);
    assert (ws + [remaining])[..|ws|] == ws;
    assert Flatten(ws + [remaining]) == Flatten(ws) + remaining;
  }

  /** Taking the ready layer out of the remaining subtasks. */
  lemma SplitRemaining(ts: Plan, k: nat)
    requires Settled(ts, k) <= Ids(ts) && UniqueIds(ts) && Layer(ts, k) != {}
    ensures var remaining, ready := Filter(ts, Rest(ts, k)), Layer(ts, k);
            var wave, left := Filter(remaining, ready), Filter(remaining, Ids(remaining) - ready);
            && wave == Filter(ts, ready) && wave != [] && left == Filter(ts, Rest(ts, k + 1))
            && multiset(wave) + multiset(left) == multiset(remaining)
            && |wave| + |left| == |remaining|
  {
    var ready, rest, next := Layer(ts, k), Rest(ts, k), Rest(ts, k + 1);
    var remaining := Filter(ts, rest);
    ReadyAmongRemaining(ts, k);
    FilterIds(ts, rest);
    FilterFilter(ts, rest, ready);
    FilterFilter(ts, rest, Ids(remaining) - ready);
    assert rest * ready == ready;
    assert rest * (Ids(remaining) - ready) == next;
    FilterSplits(ts, ready, next);
    assert ready + next == rest;
    FilterIds(ts, ready);
    var id :| id in ready;
    assert id in Ids(Filter(ts, ready));
    SameSize(Filter(ts, ready) + Filter(ts, next), remaining);
  }

  lemma SameSize(a: Plan, b: Plan)
    requires multiset(a) == multiset(b)
    ensures |a| == |b|
  {
    assert |multiset(a)| == |a| && |multiset(b)| == |b|;
  }

  /** The ready subtasks of a selection are its ids that are ready in the whole plan. */
  lemma ReadyOfFilter(ts: Plan, ids: set<string>, done: set<string>, id: string)
    requires UniqueIds(ts)
    ensures id in Ready(Filter(ts, ids), done) <==> id in Ready(ts, done) && id in ids
  {
    if id in Ready(Filter(ts, ids), done) {
      var t := ReadyTask(Filter(ts, ids), done, id);
      FilterMember(ts, ids, t);
      ReadyHolds(ts, done, t);
    }
    if id in Ready(ts, done) && id in ids {
      var t := ReadyTask(ts, done, id);
      FilterMember(ts, ids, t);
      ReadyHolds(Filter(ts, ids), done, t);
    }
  }

  lemma ReadyInPlan(ts: Plan, done: set<string>)
    ensures Ready(ts, done) <= Ids(ts)
  {
    forall id | id in Ready(ts, done)
      ensures id in Ids(ts)
    {
      var t := ReadyTask(ts, done, id);
    }
  }

  /** Looking for ready subtasks among the remaining ones misses none. */
  lemma ReadyAmongRemaining(ts: Plan, k: nat)
    requires Settled(ts, k) <= Ids(ts) && UniqueIds(ts)
    ensures Ready(Filter(ts, Rest(ts, k)), Settled(ts, k)) == Layer(ts, k)
    ensures Settled(ts, k + 1) <= Ids(ts)
  {
    var done, rest := Settled(ts, k), Rest(ts, k);
    ReadyInPlan(ts, done);
    assert Layer(ts, k) == Ready(ts, done) * rest;
    forall id
      ensures id in Ready(Filter(ts, rest), done) <==> id in Layer(ts, k)
    {
      ReadyOfFilter(ts, rest, done, id);
    }
  }

  // ------------------------------------------------------------- dependency chains

  ghost predicate Needs(ts: Plan, a: string, b: string) {
    exists t :: t in ts && t.id == a && b in t.deps
  }

  /** c[0] needs c[1], c[1] needs c[2], and so on, all of them subtasks of the plan. */
  ghost predicate Chain(ts: Plan, c: seq<string>) {
    && c != [] && (forall x :: x in c ==> x in Ids(ts))
    && (forall i :: 0 <= i < |c| - 1 ==> Needs(ts, c[i], c[i + 1]))
  }

  ghost predicate ChainFrom(ts: Plan, id: string, c: seq<string>) {
    Chain(ts, c) && c[0] == id
  }

  ghost predicate Repeats(c: seq<string>) {
    exists i, j :: 0 <= i < j < |c| && c[i] == c[j]
  }

  ghost predicate EndsMissing(ts: Plan, c: seq<string>)
    requires c != []
  {
    exists d :: Needs(ts, c[|c| - 1], d) && d !in Ids(ts)
  }

  /** The subtask reaches a dependency cycle or an id that is not in the plan. */
  ghost predicate Stuck(ts: Plan, id: string) {
    exists c :: ChainFrom(ts, id, c) && (Repeats(c) || EndsMissing(ts, c))
  }

  lemma {:induction false} SettledGrows(ts: Plan, j: nat, k: nat)
    requires j <= k
    ensures Settled(ts, j) <= Settled(ts, k)
    decreases k
  {
    if j < k {
      SettledGrows(ts, j, k - 1);
    }
  }

  lemma OneTaskPerId(ts: Plan, t: Subtask, t': Subtask)
    requires UniqueIds(ts) && t in ts && t' in ts && t.id == t'.id
    ensures t == t'
  {
    var i :| 0 <= i < |ts| && ts[i] == t;
    var j :| 0 <= j < |ts| && ts[j] == t';
    assert ts[i].id == ts[j].id;
  }

  lemma ReadyNeedsDone(ts: Plan, done: set<string>, a: string, b: string)
    requires UniqueIds(ts) && a in Ready(ts, done) && Needs(ts, a, b)
    ensures b in done
  {
    var t := ReadyTask(ts, done, a);
    var t' :| t' in ts && t'.id == a && b in t'.deps;
    OneTaskPerId(ts, t, t');
  }

  /** What a settled subtask needs was settled in an earlier round. */
  lemma {:induction false} NeedsSettledBefore(ts: Plan, k: nat, a: string, b: string)
    requires UniqueIds(ts) && a in Settled(ts, k) && Needs(ts, a, b)
    ensures k > 0 && b in Settled(ts, k - 1)
  {
    if a in Settled(ts, k - 1) {
      NeedsSettledBefore(ts, k - 1, a, b);
    } else {
      ReadyNeedsDone(ts, Settled(ts, k - 1), a, b);
    }
  }

  lemma {:induction false} SettledInPlan(ts: Plan, k: nat)
    ensures Settled(ts, k) <= Ids(ts)
  {
    if k > 0 {
      SettledInPlan(ts, k - 1);
      ReadyInPlan(ts, Settled(ts, k - 1));
    }
  }

  lemma {:induction false} ChainDescends(ts: Plan, k: nat, c: seq<string>, i: nat)
    requires UniqueIds(ts) && Chain(ts, c) && c[0] in Settled(ts, k) && i < |c|
    ensures i < k && c[i] in Settled(ts, k - i)
  {
    if i == 0 {
      SettledZero(ts, k, c[0]);
    } else {
      ChainDescends(ts, k, c, i - 1);
      ChainLink(ts, c, i);
      OneDown(ts, k - (i - 1), c[i - 1], c[i]);
    }
  }

  lemma ChainLink(ts: Plan, c: seq<string>, i: nat)
    requires Chain(ts, c) && 0 < i < |c|
    ensures Needs(ts, c[i - 1], c[i])
  {
    assert Needs(ts, c[i - 1], c[i - 1 + 1]);
  }

  lemma OneDown(ts: Plan, k: nat, a: string, b: string)
    requires UniqueIds(ts) && a in Settled(ts, k) && Needs(ts, a, b)
    ensures k > 1 && b in Settled(ts, k - 1)
  {
    NeedsSettledBefore(ts, k, a, b);
    SettledZero(ts, k - 1, b);
  }

  lemma SettledZero(ts: Plan, k: nat, id: string)
    requires id in Settled(ts, k)
    ensures k > 0
  {
  }

  /** No settled id can come back in a chain from itself. */
  lemma {:induction false} NoSettledCycle(ts: Plan, k: nat, c: seq<string>)
    requires UniqueIds(ts) && Chain(ts, c) && |c| > 1 && c[0] == c[|c| - 1]
    ensures c[0] !in Settled(ts, k)
  {
    if c[0] in Settled(ts, k) {
      ChainDescends(ts, k, c, |c| - 1);
      NoSettledCycle(ts, k - (|c| - 1), c);
    }
  }

  /** A subtask that k rounds do not settle starts a chain of k + 1 subtasks, or one
      that ends at a missing id. */
  lemma {:induction false} UnsettledChain(ts: Plan, k: nat, id: string) returns (c: seq<string>)
    requires id in Ids(ts) && id !in Settled(ts, k)
    ensures ChainFrom(ts, id, c) && (|c| == k + 1 || EndsMissing(ts, c))
  {
    if k == 0 {
      c := [id];
    } else {
      var t :| t in ts && t.id == id;
      if t.deps <= Settled(ts, k - 1) {
        ReadyHolds(ts, Settled(ts, k - 1), t);
      }
      var d :| d in t.deps && d !in Settled(ts, k - 1);
      assert Needs(ts, id, d);
      if d in Ids(ts) {
        var rest := UnsettledChain(ts, k - 1, d);
        c := [id] + rest;
        assert c[|c| - 1] == rest[|rest| - 1];
        forall i | 0 <= i < |c| - 1
          ensures Needs(ts, c[i], c[i + 1])
        {
          if i > 0 {
            assert Needs(ts, rest[i - 1], rest[i]);
          }
        }
      } else {
        c := [id];
      }
    }
  }

  lemma {:induction false} Pigeonhole(c: seq<string>, ids: set<string>)
    requires (forall x :: x in c ==> x in ids) && |c| > |ids|
    ensures Repeats(c)
    decreases |c|
  {
    var last := c[|c| - 1];
    var init := c[..|c| - 1];
    assert last in c;
    if last in init {
      var i :| 0 <= i < |init| && init[i] == last;
      assert c[i] == c[|c| - 1];
    } else {
      forall x | x in init
        ensures x in ids - {last}
      {
      }
      Pigeonhole(init, ids - {last});
      var i, j :| 0 <= i < j < |init| && init[i] == init[j];
      assert c[i] == c[j];
    }
  }

  // --------------------------------------------------------------------- theorems

  /** A subtask that settles sits in the wave of the longest dependency chain below it:
      some chain from it has k + 1 subtasks and none has more. */
  lemma WaveIsLongestChain(ts: Plan, k: nat, id: string, c: seq<string>)
    requires UniqueIds(ts) && id in Layer(ts, k) && ChainFrom(ts, id, c)
    ensures |c| <= k + 1 && !EndsMissing(ts, c) && !Repeats(c)
    ensures exists longest :: ChainFrom(ts, id, longest) && |longest| == k + 1
  {
    ChainDescends(ts, k + 1, c, |c| - 1);
    NotStuckIfSettled(ts, k + 1, id, c);
    SettledInPlan(ts, k + 1);
    var longest := UnsettledChain(ts, k, id);
    NotStuckIfSettled(ts, k + 1, id, longest);
  }

  /** Everything a subtask needs, however indirectly, lies in a strictly earlier wave. */
  lemma PrerequisitesAreEarlier(ts: Plan, k: nat, c: seq<string>, i: nat)
    requires UniqueIds(ts) && Chain(ts, c) && c[0] in Layer(ts, k) && 0 < i < |c|
    ensures exists j: nat :: j < k && c[i] in Layer(ts, j)
  {
    ChainDescends(ts, k + 1, c, i);
    var j := LayerOf(ts, k + 1 - i, c[i]);
  }

  lemma {:induction false} LayerOf(ts: Plan, k: nat, id: string) returns (j: nat)
    requires id in Settled(ts, k)
    ensures j < k && id in Layer(ts, j)
  {
    if id in Settled(ts, k - 1) {
      j := LayerOf(ts, k - 1, id);
    } else {
      j := k - 1;
    }
  }

  lemma LoopOf(ts: Plan, c: seq<string>, i: nat, j: nat)
    requires Chain(ts, c) && i < j < |c|
    ensures Chain(ts, c[i..j + 1])
  {
    var loop := c[i..j + 1];
    forall m | 0 <= m < |loop| - 1
      ensures Needs(ts, loop[m], loop[m + 1])
    {
      ChainLink(ts, c, i + m + 1);
    }
  }

  lemma SettledNeverRepeats(ts: Plan, k: nat, c: seq<string>)
    requires UniqueIds(ts) && Chain(ts, c) && c[0] in Settled(ts, k)
    ensures !Repeats(c)
  {
    if Repeats(c) {
      var i, j :| 0 <= i < j < |c| && c[i] == c[j];
      ChainDescends(ts, k, c, i);
      LoopOf(ts, c, i, j);
      NoSettledCycle(ts, k - i, c[i..j + 1]);
    }
  }

  lemma SettledNeedsNothingMissing(ts: Plan, k: nat, a: string, d: string)
    requires UniqueIds(ts) && a in Settled(ts, k) && Needs(ts, a, d)
    ensures d in Ids(ts)
  {
    NeedsSettledBefore(ts, k, a, d);
    SettledInPlan(ts, k - 1);
  }

  lemma NotStuckIfSettled(ts: Plan, k: nat, id: string, c: seq<string>)
    requires UniqueIds(ts) && id in Settled(ts, k) && ChainFrom(ts, id, c)
    ensures !Repeats(c) && !EndsMissing(ts, c)
  {
    SettledNeverRepeats(ts, k, c);
    ChainDescends(ts, k, c, |c| - 1);
    forall d | Needs(ts, c[|c| - 1], d)
      ensures d in Ids(ts)
    {
      SettledNeedsNothingMissing(ts, k - (|c| - 1), c[|c| - 1], d);
    }
  }

  /** Nothing outside s is ready once s is done. */
  ghost predicate Stalled(ts: Plan, s: set<string>) {
    s + Ready(ts, s) == s
  }

  lemma StalledIffEmptyLayer(ts: Plan, k: nat)
    ensures Stalled(ts, Settled(ts, k)) <==> Layer(ts, k) == {}
  {
    var s, r := Settled(ts, k), Ready(ts, Settled(ts, k));
    assert Layer(ts, k) == (s + r) - s;
    assert (s + r) - s == {} <==> s + r == s;
  }

  lemma StalledStays(ts: Plan, k: nat, s: set<string>)
    requires Settled(ts, k) == s && Stalled(ts, s)
    ensures Settled(ts, k + 1) == s
  {
  }

  lemma {:induction false} SettledForGood(ts: Plan, full: nat, n: nat, s: set<string>)
    requires Settled(ts, full) == s && Stalled(ts, s)
    ensures Settled(ts, full + n) == s
    decreases n
  {
    if n > 0 {
      StalledStays(ts, full, s);
      SettledForGood(ts, full + 1, n - 1, s);
      assert full + 1 + (n - 1) == full + n;
    }
  }

  /** The degraded case: what the last wave flushes is exactly what reaches a cycle or a
      missing id; so the flush happens if and only if the plan has such a subtask. */
  lemma FlushedIffStuck(ts: Plan, ws: seq<Plan>, full: nat, id: string)
    requires UniqueIds(ts) && Schedule(ts, ws, full) && id in Ids(ts)
    ensures id in Rest(ts, full) <==> Stuck(ts, id)
  {
    StalledIffEmptyLayer(ts, full);
    if id in Rest(ts, full) {
      NeverSettledIsStuck(ts, full, id);
    } else if Stuck(ts, id) {
      var c :| ChainFrom(ts, id, c) && (Repeats(c) || EndsMissing(ts, c));
      NotStuckIfSettled(ts, full, id, c);
    }
  }

  lemma NeverSettledIsStuck(ts: Plan, full: nat, id: string)
    requires Stalled(ts, Settled(ts, full)) && id in Ids(ts) && id !in Settled(ts, full)
    ensures Stuck(ts, id)
  {
    var n := full + |Ids(ts)|;
    SettledForGood(ts, full, |Ids(ts)|, Settled(ts, full));
    assert id !in Settled(ts, n);
    var c := UnsettledChain(ts, n, id);
    if !EndsMissing(ts, c) {
      Pigeonhole(c, Ids(ts));
    }
  }

  /** On a plan without cycles and dangling ids no wave is a flush: every subtask is in
      the wave of its longest chain. */
  lemma AcyclicPlansSchedule(ts: Plan, ws: seq<Plan>, full: nat, t: Subtask)
    requires UniqueIds(ts) && Schedule(ts, ws, full) && t in ts
    requires forall id :: id in Ids(ts) ==> !Stuck(ts, id)
    ensures |ws| == full
    ensures exists k :: (0 <= k < |ws| && t in ws[k] && t.id in Layer(ts, k))
  {
    forall id | id in Rest(ts, full)
      ensures false
    {
      FlushedIffStuck(ts, ws, full, id);
    }
    assert t.id in Ids(ts) && t.id !in Rest(ts, full);
    var k := LayerOf(ts, full, t.id);
    FilterMember(ts, Layer(ts, k), t);
    assert IsWave(ts, ws[k], k);
  }
}
