/**
 * The leaderboard: one correct-prediction count per user and round, over the
 * events that have a result, laid out as one row per user in username order
 * with a score per round (ascending) and the total.
 */
module Scoring {
  import opened Text
  import opened Tables

  /** Round and result of an event whose `result` is not NULL. */
  datatype Resulted = Resulted(round: int, result: string)

  /** `event_id_to_result` and `event_id_to_round`, built from the rows with a result. */
  function ResultIndex(events: seq<Event>): (idx: map<int, Resulted>)
    ensures forall id :: id in idx <==> exists e :: e in events && e.id == id && e.result.Some?
    ensures forall id :: id in idx ==>
              exists e :: e in events && e.id == id && e.result.Some? && idx[id] == Resulted(e.round, e.result.value)
  {
    if events == [] then map[]
    else
      var init := events[..|events| - 1];
      var e := events[|events| - 1];
      var m := ResultIndex(init);
      assert forall x :: x in init ==> x in events;
      assert events == init + [e];
      if e.result.Some? then m[e.id := Resulted(e.round, e.result.value)] else m
  }

  /** With unique ids, each resulted event is found under its own id. */
  lemma {:induction false} ResultIndexAt(events: seq<Event>, i: int)
    requires IdsAscending(events) && 0 <= i < |events| && events[i].result.Some?
    ensures ResultIndex(events)[events[i].id] == Resulted(events[i].round, events[i].result.value)
  {
    var init := events[..|events| - 1];
    if i < |events| - 1 {
      ResultIndexAt(init, i);
    }
  }

  /** A prediction takes part in scoring when its event has a result. */
  predicate Scored(p: Prediction, idx: map<int, Resulted>) {
    p.eventId in idx
  }

  /** `normalize(prediction) == normalize(result)`. */
  predicate Correct(p: Prediction, idx: map<int, Resulted>)
    requires Scored(p, idx)
  {
    SameCode(Some(p.prediction), Some(idx[p.eventId].result))
  }

  /** A scored prediction of user `u` for an event of round `r`. */
  predicate AttemptOf(p: Prediction, idx: map<int, Resulted>, u: string, r: int) {
    Scored(p, idx) && p.username == u && idx[p.eventId].round == r
  }

  /** Users with at least one scored prediction: the keys of `scores`. */
  function Players(preds: seq<Prediction>, idx: map<int, Resulted>): set<string> {
    if preds == [] then {}
    else
      var p := preds[|preds| - 1];
      Players(preds[..|preds| - 1], idx) + (if Scored(p, idx) then {p.username} else {})
  }

  /** A user is a player exactly when one of their predictions is on an event with a result. */
  lemma {:induction false} PlayersExactly(preds: seq<Prediction>, idx: map<int, Resulted>, u: string)
    ensures u in Players(preds, idx) <==> exists p :: p in preds && Scored(p, idx) && p.username == u
  {
    if preds != [] {
      var init := preds[..|preds| - 1];
      var p := preds[|preds| - 1];
      PlayersExactly(init, idx, u);
      assert preds == init + [p];
      assert forall q :: q in preds <==> q in init || q == p;
    }
  }

  /** Rounds in which `u` has a scored prediction: the keys of `scores[u]`. */
  function PlayedRounds(preds: seq<Prediction>, idx: map<int, Resulted>, u: string): set<int> {
    if preds == [] then {}
    else
      var p := preds[|preds| - 1];
      PlayedRounds(preds[..|preds| - 1], idx, u)
      + (if Scored(p, idx) && p.username == u then {idx[p.eventId].round} else {})
  }

  /** Number of scored predictions of `u` in round `r`. */
  function Attempts(preds: seq<Prediction>, idx: map<int, Resulted>, u: string, r: int): nat {
    if preds == [] then 0
    else
      var p := preds[|preds| - 1];
      Attempts(preds[..|preds| - 1], idx, u, r) + (if AttemptOf(p, idx, u, r) then 1 else 0)
  }

  /** Number of correct predictions of `u` in round `r`: `scores[u][r]`. */
  function Hits(preds: seq<Prediction>, idx: map<int, Resulted>, u: string, r: int): nat {
    if preds == [] then 0
    else
      var p := preds[|preds| - 1];
      Hits(preds[..|preds| - 1], idx, u, r) + (if AttemptOf(p, idx, u, r) && Correct(p, idx) then 1 else 0)
  }

  /** Number of correct predictions of `u` over every event that has a result. */
  function AllHits(preds: seq<Prediction>, idx: map<int, Resulted>, u: string): nat {
    if preds == [] then 0
    else
      var p := preds[|preds| - 1];
      AllHits(preds[..|preds| - 1], idx, u) + (if Scored(p, idx) && p.username == u && Correct(p, idx) then 1 else 0)
  }

  /** A round's score never exceeds the number of scored predictions in it. */
  lemma {:induction false} HitsAtMostAttempts(preds: seq<Prediction>, idx: map<int, Resulted>, u: string, r: int)
    ensures Hits(preds, idx, u, r) <= Attempts(preds, idx, u, r)
  {
    if preds != [] {
      HitsAtMostAttempts(preds[..|preds| - 1], idx, u, r);
    }
  }

  /** A round is among `u`'s played rounds exactly when `u` has a scored prediction in it. */
  lemma {:induction false} PlayedRoundsAttempts(preds: seq<Prediction>, idx: map<int, Resulted>, u: string, r: int)
    ensures r in PlayedRounds(preds, idx, u) <==> Attempts(preds, idx, u, r) > 0
  {
    if preds != [] {
      PlayedRoundsAttempts(preds[..|preds| - 1], idx, u, r);
    }
  }

  /** Only players have played rounds. */
  lemma {:induction false} PlayedRoundsOfPlayers(preds: seq<Prediction>, idx: map<int, Resulted>, u: string)
    requires u !in Players(preds, idx)
    ensures PlayedRounds(preds, idx, u) == {}
  {
    if preds != [] {
      var init := preds[..|preds| - 1];
      assert u !in Players(init, idx);
      PlayedRoundsOfPlayers(init, idx, u);
    }
  }

  /** The predictions on events that have a result, in their order. */
  function OnResulted(preds: seq<Prediction>, idx: map<int, Resulted>): seq<Prediction> {
    if preds == [] then []
    else
      var p := preds[|preds| - 1];
      OnResulted(preds[..|preds| - 1], idx) + (if Scored(p, idx) then [p] else [])
  }

  lemma OnResultedStep(preds: seq<Prediction>, idx: map<int, Resulted>)
    requires preds != []
    ensures var f := OnResulted(preds[..|preds| - 1], idx);
            var p := preds[|preds| - 1];
            OnResulted(preds, idx) == if Scored(p, idx) then f + [p] else f
  {
  }

  /** Predictions on events whose result is NULL make no one a player and add no round. */
  lemma {:induction false} UnresultedIgnoredPlayers(preds: seq<Prediction>, idx: map<int, Resulted>, u: string)
    ensures Players(OnResulted(preds, idx), idx) == Players(preds, idx)
    ensures PlayedRounds(OnResulted(preds, idx), idx, u) == PlayedRounds(preds, idx, u)
  {
    if preds != [] {
      var init := preds[..|preds| - 1];
      var p := preds[|preds| - 1];
      UnresultedIgnoredPlayers(init, idx, u);
      OnResultedStep(preds, idx);
      var f := OnResulted(init, idx);
      if Scored(p, idx) {
        var g := f + [p];
        assert g[..|g| - 1] == f;
      }
    }
  }

  /** Predictions on events whose result is NULL change no count and no score. */
  lemma {:induction false} UnresultedIgnoredScores(preds: seq<Prediction>, idx: map<int, Resulted>, u: string, r: int)
    ensures Attempts(OnResulted(preds, idx), idx, u, r) == Attempts(preds, idx, u, r)
    ensures Hits(OnResulted(preds, idx), idx, u, r) == Hits(preds, idx, u, r)
  {
    if preds != [] {
      var init := preds[..|preds| - 1];
      var p := preds[|preds| - 1];
      UnresultedIgnoredScores(init, idx, u, r);
      OnResultedStep(preds, idx);
      var f := OnResulted(init, idx);
      if Scored(p, idx) {
        var g := f + [p];
        assert g[..|g| - 1] == f;
      }
    }
  }

  // ----- the `scores` loop -----

  /** The first loop of the leaderboard: `scores[username][round]` counters. */
  method ComputeScores(preds: seq<Prediction>, idx: map<int, Resulted>) returns (scores: map<string, map<int, nat>>)
    ensures scores.Keys == Players(preds, idx)
    ensures forall u :: u in scores ==> scores[u].Keys == PlayedRounds(preds, idx, u)
    ensures forall u, r :: u in scores && r in scores[u] ==> scores[u][r] == Hits(preds, idx, u, r)
  {
    scores := map[];
    for k := 0 to |preds|
      invariant Tallies(scores, preds[..k], idx)
    {
      var p := preds[k];
      assert preds[..k + 1] == preds[..k] + [p];
      if p.eventId in idx {
        TallyScored(scores, preds[..k], idx, p);
        scores := Bumped(scores, p, idx);
      } else {
        TallyUnscored(scores, preds[..k], idx, p);
      }
    }
    assert preds[..|preds|] == preds;
  }

  /** The loop invariant of `ComputeScores`: the counters of the rows seen so far. */
  ghost predicate Tallies(scores: map<string, map<int, nat>>, done: seq<Prediction>, idx: map<int, Resulted>) {
    && scores.Keys == Players(done, idx)
    && (forall u :: u in scores ==> scores[u].Keys == PlayedRounds(done, idx, u))
    && (forall u, r :: u in scores && r in scores[u] ==> scores[u][r] == Hits(done, idx, u, r))
  }

  /** A row whose event has no result leaves the counters as they are. */
  lemma TallyUnscored(scores: map<string, map<int, nat>>, done: seq<Prediction>, idx: map<int, Resulted>, p: Prediction)
    requires Tallies(scores, done, idx) && !Scored(p, idx)
    ensures Tallies(scores, done + [p], idx)
  {
    ScoreStep(done, idx, p);
  }

  /** The counters after one more scored row: `setdefault` twice, then `+= 1` when correct. */
  function Bumped(scores: map<string, map<int, nat>>, p: Prediction, idx: map<int, Resulted>): map<string, map<int, nat>>
    requires Scored(p, idx)
  {
    var u, r := p.username, idx[p.eventId].round;
    var userScores := if u in scores then scores[u] else map[];
    var before := if r in userScores then userScores[r] else 0;
    scores[u := userScores[r := if Correct(p, idx) then before + 1 else before]]
  }

  /** A row whose event has a result creates the counter if needed and counts a hit. */
  lemma TallyScored(scores: map<string, map<int, nat>>, done: seq<Prediction>, idx: map<int, Resulted>, p: Prediction)
    requires Tallies(scores, done, idx) && Scored(p, idx)
    ensures Tallies(Bumped(scores, p, idx), done + [p], idx)
  {
    TallyKeys(scores, done, idx, p);
    TallyHits(scores, done, idx, p);
  }

  lemma TallyKeys(scores: map<string, map<int, nat>>, done: seq<Prediction>, idx: map<int, Resulted>, p: Prediction)
    requires Tallies(scores, done, idx) && Scored(p, idx)
    ensures var after := Bumped(scores, p, idx);
            && after.Keys == Players(done + [p], idx)
            && forall v :: v in after ==> after[v].Keys == PlayedRounds(done + [p], idx, v)
  {
    var u := p.username;
    var after := Bumped(scores, p, idx);
    ScoreStep(done, idx, p);
    if u !in scores {
      PlayedRoundsOfPlayers(done, idx, u);
    }
    assert after.Keys == scores.Keys + {u};
    forall v | v in after ensures after[v].Keys == PlayedRounds(done + [p], idx, v) {
      if v != u {
        assert after[v] == scores[v];
      }
    }
  }

  lemma TallyHits(scores: map<string, map<int, nat>>, done: seq<Prediction>, idx: map<int, Resulted>, p: Prediction)
    requires Tallies(scores, done, idx) && Scored(p, idx)
    ensures var after := Bumped(scores, p, idx);
            forall v, q :: v in after && q in after[v] ==> after[v][q] == Hits(done + [p], idx, v, q)
  {
    var u, r := p.username, idx[p.eventId].round;
    var userScores := if u in scores then scores[u] else map[];
    var after := Bumped(scores, p, idx);
    ScoreStep(done, idx, p);
    if u !in scores {
      PlayedRoundsOfPlayers(done, idx, u);
    }
    if r !in userScores {
      PlayedRoundsAttempts(done, idx, u, r);
      HitsAtMostAttempts(done, idx, u, r);
    }
    forall v, q | v in after && q in after[v] ensures after[v][q] == Hits(done + [p], idx, v, q) {
      if v != u {
        assert after[v] == scores[v] && !AttemptOf(p, idx, v, q);
      } else if q != r {
        assert after[v][q] == userScores[q] && !AttemptOf(p, idx, v, q);
      }
    }
  }

  /** What one more prediction row does to the specification of `scores`. */
  lemma ScoreStep(done: seq<Prediction>, idx: map<int, Resulted>, p: Prediction)
    ensures Players(done + [p], idx) == Players(done, idx) + (if Scored(p, idx) then {p.username} else {})
    ensures forall u :: PlayedRounds(done + [p], idx, u) ==
              PlayedRounds(done, idx, u) + (if Scored(p, idx) && p.username == u then {idx[p.eventId].round} else {})
    ensures forall u, r :: Hits(done + [p], idx, u, r) ==
              Hits(done, idx, u, r) + (if AttemptOf(p, idx, u, r) && Correct(p, idx) then 1 else 0)
  {
    assert (done + [p])[..|done|] == done;
  }

  // ----- sorting: `ORDER BY round` and `sorted(scores.keys())` -----

  predicate Ascending(s: seq<int>) {
    forall i, j :: 0 <= i < j < |s| ==> s[i] < s[j]
  }

  lemma AscendingDistinct(s: seq<int>)
    requires Ascending(s)
    ensures Distinct(s)
  {
  }

  predicate NamesAscending(s: seq<string>) {
    forall i, j :: 0 <= i < j < |s| ==> Less(s[i], s[j])
  }

  /** Strictly ascending usernames are distinct: no user gets two rows. */
  lemma NamesAscendingDistinct(s: seq<string>)
    requires NamesAscending(s)
    ensures forall i, j :: 0 <= i < j < |s| ==> s[i] != s[j]
  {
    forall i, j | 0 <= i < j < |s| ensures s[i] != s[j] {
      LessIrreflexive(s[i]);
    }
  }

  lemma {:induction false} LeastRound(rs: set<int>) returns (m: int)
    requires rs != {}
    ensures m in rs && forall y :: y in rs ==> m <= y
    decreases |rs|
  {
    if forall y :: y !in rs {
      assert false;
    }
    var x :| x in rs;
    if rs == {x} {
      m := x;
    } else {
      var rest := rs - {x};
      var m' := LeastRound(rest);
      m := if x < m' then x else m';
      forall y | y in rs ensures m <= y {
        if y != x {
          assert y in rest;
        }
      }
    }
  }

  lemma {:induction false} LeastName(ns: set<string>) returns (m: string)
    requires ns != {}
    ensures m in ns && forall y :: y in ns && y != m ==> Less(m, y)
    decreases |ns|
  {
    if forall y :: y !in ns {
      assert false;
    }
    var x :| x in ns;
    if ns == {x} {
      m := x;
    } else {
      var rest := ns - {x};
      var m' := LeastName(rest);
      LessTotal(x, m');
      if Less(x, m') {
        m := x;
        forall y | y in ns && y != m ensures Less(m, y) {
          if y != m' {
            assert y in rest;
            LessTransitive(x, m', y);
          }
        }
      } else {
        m := m';
        forall y | y in ns && y != m ensures Less(m, y) {
          if y != x {
            assert y in rest;
          }
        }
      }
    }
  }

  /** The distinct rounds in ascending order. */
  method SortRounds(rs: set<int>) returns (s: seq<int>)
    ensures Ascending(s)
    ensures forall x :: x in s <==> x in rs
  {
    s := [];
    var rest := rs;
    while rest != {}
      invariant Ascending(s)
      invariant forall x :: x in rs <==> x in s || x in rest
      invariant forall x, y :: x in s && y in rest ==> x < y
      decreases |rest|
    {
      ghost var least := LeastRound(rest);
      var m :| m in rest && forall y :: y in rest ==> m <= y;
      assert forall i :: 0 <= i < |s| ==> s[i] in s && s[i] < m;
      s := s + [m];
      rest := rest - {m};
    }
  }

  /** The usernames in ascending code-point order. */
  method SortNames(ns: set<string>) returns (s: seq<string>)
    ensures NamesAscending(s)
    ensures forall x :: x in s <==> x in ns
  {
    s := [];
    var rest := ns;
    while rest != {}
      invariant NamesAscending(s)
      invariant forall x :: x in ns <==> x in s || x in rest
      invariant forall x, y :: x in s && y in rest ==> Less(x, y)
      decreases |rest|
    {
      ghost var least := LeastName(rest);
      var m :| m in rest && forall y :: y in rest && y != m ==> Less(m, y);
      assert forall i :: 0 <= i < |s| ==> s[i] in s && Less(s[i], m);
      s := s + [m];
      rest := rest - {m};
    }
  }

  // ----- the `table` loop -----

  function Sum(xs: seq<nat>): nat {
    if xs == [] then 0 else Sum(xs[..|xs| - 1]) + xs[|xs| - 1]
  }

  /** `scores[username].get(r, 0)`. */
  function PointsIn(userScores: map<int, nat>, r: int): nat {
    if r in userScores then userScores[r] else 0
  }

  /** The inner loop: one score per round, in the given order, and their sum. */
  method ScoreRow(userScores: map<int, nat>, rounds: seq<int>) returns (points: seq<nat>, total: nat)
    ensures |points| == |rounds|
    ensures forall j :: 0 <= j < |rounds| ==> points[j] == PointsIn(userScores, rounds[j])
    ensures total == Sum(points)
  {
    points, total := [], 0;
    for j := 0 to |rounds|
      invariant |points| == j
      invariant forall i :: 0 <= i < j ==> points[i] == PointsIn(userScores, rounds[i])
      invariant total == Sum(points)
    {
      var bodova := if rounds[j] in userScores then userScores[rounds[j]] else 0;
      assert (points + [bodova])[..j] == points;
      points := points + [bodova];
      total := total + bodova;
    }
  }

  /** A leaderboard row: the username, one score per round, the total. */
  datatype Row = Row(username: string, points: seq<nat>, total: nat)

  /** Sum of `u`'s round scores over the rounds listed. */
  function HitsIn(preds: seq<Prediction>, idx: map<int, Resulted>, u: string, rounds: seq<int>): nat {
    if rounds == [] then 0
    else HitsIn(preds, idx, u, rounds[..|rounds| - 1]) + Hits(preds, idx, u, rounds[|rounds| - 1])
  }

  lemma {:induction false} SumOfPoints(preds: seq<Prediction>, idx: map<int, Resulted>, u: string, rounds: seq<int>, points: seq<nat>)
    requires |points| == |rounds|
    requires forall j :: 0 <= j < |rounds| ==> points[j] == Hits(preds, idx, u, rounds[j])
    ensures Sum(points) == HitsIn(preds, idx, u, rounds)
  {
    if rounds != [] {
      SumOfPoints(preds, idx, u, rounds[..|rounds| - 1], points[..|points| - 1]);
    }
  }

  lemma {:induction false} HitsInNoPredictions(idx: map<int, Resulted>, u: string, rounds: seq<int>)
    ensures HitsIn([], idx, u, rounds) == 0
  {
    if rounds != [] {
      HitsInNoPredictions(idx, u, rounds[..|rounds| - 1]);
    }
  }

  /** One more prediction adds its hit once for every listing of its round. */
  lemma {:induction false} HitsInStep(preds: seq<Prediction>, idx: map<int, Resulted>, u: string, rounds: seq<int>, p: Prediction)
    ensures HitsIn(preds + [p], idx, u, rounds) ==
            HitsIn(preds, idx, u, rounds)
            + (if Scored(p, idx) && p.username == u && Correct(p, idx) then Occurrences(rounds, idx[p.eventId].round) else 0)
  {
    assert (preds + [p])[..|preds|] == preds;
    if rounds != [] {
      HitsInStep(preds, idx, u, rounds[..|rounds| - 1], p);
    }
  }

  /**
   * When every resulted event's round is listed once, the sum over the
   * rounds is the user's number of correct predictions.
   */
  lemma {:induction false} HitsInIsAllHits(preds: seq<Prediction>, idx: map<int, Resulted>, u: string, rounds: seq<int>)
    requires Ascending(rounds)
    requires forall id :: id in idx ==> idx[id].round in rounds
    ensures HitsIn(preds, idx, u, rounds) == AllHits(preds, idx, u)
  {
    if preds == [] {
      HitsInNoPredictions(idx, u, rounds);
    } else {
      var init := preds[..|preds| - 1];
      var p := preds[|preds| - 1];
      HitsInIsAllHits(init, idx, u, rounds);
      assert preds == init + [p];
      HitsInStep(init, idx, u, rounds, p);
      if Scored(p, idx) {
        AscendingDistinct(rounds);
        OccursOnce(rounds, idx[p.eventId].round);
      }
    }
  }

  /**
   * The leaderboard page. `events` is the events table, `preds` the rows
   * of the predictions table in the order the query returns them.
   */
  method Leaderboard(events: seq<Event>, preds: seq<Prediction>) returns (rounds: seq<int>, table: seq<Row>)
    ensures Ascending(rounds)
    ensures forall r :: r in rounds <==> exists e :: e in events && e.round == r
    ensures NamesAscending(seq(|table|, i requires 0 <= i < |table| => table[i].username))
    ensures forall u :: u in Players(preds, ResultIndex(events)) <==> exists i :: 0 <= i < |table| && table[i].username == u
    ensures forall i :: 0 <= i < |table| ==> |table[i].points| == |rounds|
    ensures forall i, j :: 0 <= i < |table| && 0 <= j < |rounds| ==>
              table[i].points[j] == Hits(preds, ResultIndex(events), table[i].username, rounds[j])
    ensures forall i :: 0 <= i < |table| ==> table[i].total == Sum(table[i].points)
    ensures forall i :: 0 <= i < |table| ==> table[i].total == AllHits(preds, ResultIndex(events), table[i].username)
  {
    var idx := ResultIndex(events);
    rounds := SortRounds(set e | e in events :: e.round);
    var scores := ComputeScores(preds, idx);
    var names := SortNames(scores.Keys);
    forall id | id in idx ensures idx[id].round in rounds {
      var e :| e in events && e.id == id && e.result.Some? && idx[id] == Resulted(e.round, e.result.value);
    }
    table := [];
    for i := 0 to |names|
      invariant |table| == i
      invariant forall k :: 0 <= k < i ==> table[k].username == names[k] && RowMatches(table[k], preds, idx, rounds)
    {
      var username := names[i];
      var points, total := ScoreRow(scores[username], rounds);
      RowOfScores(preds, idx, scores, username, rounds, points, total);
      table := table + [Row(username, points, total)];
    }
  }

  /** A leaderboard row agrees with the specification: per-round hits and their total. */
  predicate RowMatches(row: Row, preds: seq<Prediction>, idx: map<int, Resulted>, rounds: seq<int>) {
    && |row.points| == |rounds|
    && (forall j :: 0 <= j < |rounds| ==> row.points[j] == Hits(preds, idx, row.username, rounds[j]))
    && row.total == Sum(row.points)
    && row.total == AllHits(preds, idx, row.username)
  }

  /** The row `ScoreRow` builds from a player's counters matches the specification. */
  lemma RowOfScores(preds: seq<Prediction>, idx: map<int, Resulted>, scores: map<string, map<int, nat>>,
                    username: string, rounds: seq<int>, points: seq<nat>, total: nat)
    requires username in scores && scores[username].Keys == PlayedRounds(preds, idx, username)
    requires forall r :: r in scores[username] ==> scores[username][r] == Hits(preds, idx, username, r)
    requires Ascending(rounds) && forall id :: id in idx ==> idx[id].round in rounds
    requires |points| == |rounds| && total == Sum(points)
    requires forall j :: 0 <= j < |rounds| ==> points[j] == PointsIn(scores[username], rounds[j])
    ensures RowMatches(Row(username, points, total), preds, idx, rounds)
  {
    forall j | 0 <= j < |rounds| ensures points[j] == Hits(preds, idx, username, rounds[j]) {
      if rounds[j] !in scores[username] {
        PlayedRoundsAttempts(preds, idx, username, rounds[j]);
        HitsAtMostAttempts(preds, idx, username, rounds[j]);
      }
    }
    SumOfPoints(preds, idx, username, rounds, points);
    HitsInIsAllHits(preds, idx, username, rounds);
  }
}
