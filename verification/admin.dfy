/**
 * The handlers that write: a prediction submission (an upsert per event) and
 * the two admin forms, which define the events of a round and enter their
 * results by position. The store holds both tables; events are kept in
 * ascending id order and `nextId` is the next value of the id sequence.
 */
module Admin {
  import opened Text
  import opened Tables

  /** What a handler answers. */
  datatype Reply =
    | Redirect(location: string)
    | Error(status: int, message: string)
    | Crash                        // an uncaught exception: status 500, nothing committed
    | ShowAdminPage                // the admin page is rendered, nothing is written

  const MissingNickname := "Morate unijeti nadimak"

  /** The ids of the round-`r` events among the first `n` rows, in row order. */
  function IdsUpTo(events: seq<Event>, n: int, r: int): seq<int>
    requires 0 <= n <= |events|
  {
    if n == 0 then []
    else IdsUpTo(events, n - 1, r) + (if events[n - 1].round == r then [events[n - 1].id] else [])
  }

  /** The ids of the events of round `r`, in id order: `SELECT id ... WHERE round = r ORDER BY id`. */
  function IdsOfRound(events: seq<Event>, r: int): seq<int> {
    IdsUpTo(events, |events|, r)
  }

  /** How many events of round `r` come before position `j`: the 0-based slot of `events[j]`. */
  function Rank(events: seq<Event>, j: int, r: int): nat
    requires 0 <= j <= |events|
  {
    |IdsUpTo(events, j, r)|
  }

  lemma {:induction false} IdsUpToPrefix(events: seq<Event>, r: int, a: int, b: int)
    requires 0 <= a <= b <= |events|
    ensures IdsUpTo(events, a, r) <= IdsUpTo(events, b, r)
    decreases b
  {
    if a < b {
      IdsUpToPrefix(events, r, a, b - 1);
    }
  }

  /** The event at position `j` of round `r` is the one `IdsOfRound` lists at its rank. */
  lemma RankedId(events: seq<Event>, r: int, j: int)
    requires 0 <= j < |events| && events[j].round == r
    ensures Rank(events, j, r) < |IdsOfRound(events, r)|
    ensures IdsOfRound(events, r)[Rank(events, j, r)] == events[j].id
  {
    IdsUpToPrefix(events, r, j + 1, |events|);
  }

  /** Each listed id comes from an event of round `r` of that rank. */
  lemma RankedSource(events: seq<Event>, r: int, m: int) returns (j: int)
    requires 0 <= m < |IdsOfRound(events, r)|
    ensures 0 <= j < |events| && events[j].round == r && Rank(events, j, r) == m
    ensures IdsOfRound(events, r)[m] == events[j].id
  {
    j := SourceUpTo(events, r, |events|, m);
  }

  lemma {:induction false} SourceUpTo(events: seq<Event>, r: int, n: int, m: int) returns (j: int)
    requires 0 <= n <= |events| && 0 <= m < |IdsUpTo(events, n, r)|
    ensures 0 <= j < n && events[j].round == r && Rank(events, j, r) == m
    ensures IdsUpTo(events, n, r)[m] == events[j].id
  {
    if m < |IdsUpTo(events, n - 1, r)| {
      j := SourceUpTo(events, r, n - 1, m);
    } else {
      j := n - 1;
    }
  }

  /** With unique ids, the id listed at rank `m` belongs to exactly the event of that rank. */
  lemma RankedIdExactly(events: seq<Event>, r: int, j: int, m: int)
    requires IdsAscending(events) && 0 <= j < |events| && 0 <= m < |IdsOfRound(events, r)|
    ensures events[j].id == IdsOfRound(events, r)[m] <==> events[j].round == r && Rank(events, j, r) == m
  {
    var j' := RankedSource(events, r, m);
    if events[j].round == r {
      RankedId(events, r, j);
    }
  }

  /** A numbered pair of the events form: `home_i` and `away_i`, both filled, `i` in 1..10. */
  predicate SlotFilled(form: Form, i: int) {
    1 <= i <= 10 && Filled(Get(form, Numbered("home_", i))) && Filled(Get(form, Numbered("away_", i)))
  }

  function FieldValue(form: Form, key: Field): string {
    if key in form then form[key] else ""
  }

  /** The filled slots `i` with `lo <= i < hi`, in ascending order. */
  function FilledSlots(form: Form, lo: int, hi: int): (slots: seq<int>)
    ensures forall t :: 0 <= t < |slots| ==> lo <= slots[t] < hi && SlotFilled(form, slots[t])
    decreases hi - lo
  {
    if hi <= lo then []
    else FilledSlots(form, lo, hi - 1) + (if SlotFilled(form, hi - 1) then [hi - 1] else [])
  }

  /** The deadline as stored: the form value with every 'T' made a space, or NULL when absent. */
  function DeadlineField(form: Form): Option<string> {
    match Get(form, Named("deadline"))
    case None => None
    case Some(d) => Some(ReplaceT(d))
  }

  /** An existing event given the teams of slot `i` and the new deadline. */
  function Revised(e: Event, form: Form, i: int, deadline: Option<string>): Event {
    e.(home := FieldValue(form, Numbered("home_", i)), away := FieldValue(form, Numbered("away_", i)), deadline := deadline)
  }

  /** The event inserted for slot `i`. */
  function Inserted(form: Form, i: int, deadline: Option<string>, r: int, id: int): Event {
    Event(id, FieldValue(form, Numbered("home_", i)), FieldValue(form, Numbered("away_", i)), deadline, r, None)
  }

  /** `UPDATE events SET home, away, deadline WHERE id = id`. */
  function UpdateTeams(events: seq<Event>, id: int, home: string, away: string, deadline: Option<string>): (r: seq<Event>)
    ensures |r| == |events|
    ensures forall j :: 0 <= j < |r| ==>
              r[j].id == events[j].id && r[j].round == events[j].round && r[j].result == events[j].result
    ensures forall j :: 0 <= j < |r| && events[j].id == id ==> r[j].home == home && r[j].away == away && r[j].deadline == deadline
    ensures forall j :: 0 <= j < |r| && events[j].id != id ==> r[j] == events[j]
  {
    seq(|events|, j requires 0 <= j < |events| =>
      if events[j].id == id then events[j].(home := home, away := away, deadline := deadline) else events[j])
  }

  /** `UPDATE events SET result = result WHERE id = id`. */
  function UpdateResult(events: seq<Event>, id: int, result: string): (r: seq<Event>)
    ensures |r| == |events|
    ensures forall j :: 0 <= j < |r| ==>
              r[j].id == events[j].id && r[j].round == events[j].round && r[j].home == events[j].home
              && r[j].away == events[j].away && r[j].deadline == events[j].deadline
    ensures forall j :: 0 <= j < |r| ==> r[j].result == if events[j].id == id then Some(result) else events[j].result
  {
    seq(|events|, j requires 0 <= j < |events| =>
      if events[j].id == id then events[j].(result := Some(result)) else events[j])
  }

  /** The ids of the first ten events: `SELECT id FROM events ORDER BY id ASC LIMIT 10`. */
  function FirstTenIds(events: seq<Event>): (ids: seq<int>)
    ensures |ids| <= 10
  {
    var rows := FirstRows(events, 10);
    seq(|rows|, i requires 0 <= i < |rows| => rows[i].id)
  }

  /** The text of the "username" field, stripped (missing counts as empty). */
  function Nickname(form: Form): string {
    Strip(FieldValue(form, Named("username")))
  }

  /** The value a submission stores for `(username, id)`: the filled prediction field, if any. */
  predicate Submits(form: Form, events: seq<Event>, id: int) {
    id in FirstTenIds(events) && Filled(Get(form, Numbered("prediction_", id)))
  }

  class Store {
    var events: seq<Event>
    var predictions: seq<Prediction>
    var nextId: int

    /** Ids ascend and stay below the sequence; one prediction per (username, event). */
    ghost predicate Valid()
      reads this
    {
      && IdsAscending(events)
      && (forall e :: e in events ==> e.id < nextId)
      && UniqueKeys(predictions)
    }

    constructor ()
      ensures Valid()
      ensures events == [] && predictions == [] && nextId == 1
    {
      events, predictions, nextId := [], [], 1;
    }

    /**
     * The submit handler. A nickname that is empty after stripping is
     * refused with status 400 and nothing changes; otherwise each of the
     * first ten events whose prediction field is filled gets that value
     * stored for the nickname, replacing any earlier one.
     */
    method Submit(form: Form) returns (reply: Reply)
      requires Valid()
      modifies this
      ensures Valid()
      ensures events == old(events) && nextId == old(nextId)
      ensures Nickname(form) == "" ==> reply == Error(400, MissingNickname) && predictions == old(predictions)
      ensures Nickname(form) != "" ==> reply == Redirect("/")
      ensures Nickname(form) != "" ==>
                forall u, id :: Lookup(predictions, u, id) ==
                  if u == Nickname(form) && Submits(form, events, id)
                  then Get(form, Numbered("prediction_", id))
                  else Lookup(old(predictions), u, id)
    {
      var username := Strip(if Named("username") in form then form[Named("username")] else "");
      if username == "" {
        return Error(400, MissingNickname);
      }
      var eventIds := FirstTenIds(events);
      SubmitEach(username, eventIds, form);
      SubmittedUnique(old(predictions), username, eventIds, form);
      SubmittedLookup(old(predictions), username, eventIds, form);
      reply := Redirect("/");
    }

    /** The loop of the submit handler: an upsert for each listed event whose prediction field is filled. */
    method SubmitEach(username: string, eventIds: seq<int>, form: Form)
      modifies this
      ensures events == old(events) && nextId == old(nextId)
      ensures predictions == Submitted(old(predictions), username, eventIds, form)
    {
      for k := 0 to |eventIds|
        invariant events == old(events) && nextId == old(nextId)
        invariant predictions == Submitted(old(predictions), username, eventIds[..k], form)
      {
        var eventId := eventIds[k];
        assert eventIds[..k + 1][..k] == eventIds[..k];
        var pred := Get(form, Numbered("prediction_", eventId));
        if pred.Some? && pred.value != "" {
          predictions := Upsert(predictions, username, eventId, pred.value);
        }
      }
      assert eventIds[..|eventIds|] == eventIds;
    }

    /**
     * The "events" admin form for the round in the "round" field. The i-th
     * existing event of the round (by id) takes the teams of slot i and the
     * deadline when both team fields of the slot are filled; filled slots
     * past the existing events become new events of the round, in slot
     * order. An unparsable round is an uncaught exception: nothing changes.
     */
    method DefineEvents(form: Form) returns (reply: Reply)
      requires Valid()
      modifies this
      ensures Valid()
      ensures predictions == old(predictions)
      ensures ParseInt(FieldValue(form, Named("round"))).None? ==>
                reply == Crash && events == old(events) && nextId == old(nextId)
      ensures ParseInt(FieldValue(form, Named("round"))).Some? ==>
                var r := ParseInt(FieldValue(form, Named("round"))).value;
                && reply == Redirect("/admin?round=" + IntToString(r))
                && events == Defined(old(events), form, r, DeadlineField(form), old(nextId), 11)
                && nextId == old(nextId) + |FilledSlots(form, |IdsOfRound(old(events), r)| + 1, 11)|
    {
      var roundNum := ParseInt(FieldValue(form, Named("round")));
      if roundNum.None? {
        return Crash;
      }
      var r := roundNum.value;
      var deadline := Get(form, Named("deadline"));
      if deadline.Some? && deadline.value != "" {
        deadline := Some(ReplaceT(deadline.value));
      }
      assert deadline == DeadlineField(form);
      ghost var before := events;
      ghost var firstId := nextId;
      ApplySlots(form, r, deadline);
      DefinedValid(before, form, r, deadline, firstId, 11);
      reply := Redirect("/admin?round=" + IntToString(r));
    }

    /** The slot loop of the "events" form, for round `r` and the stored deadline. */
    method ApplySlots(form: Form, r: int, deadline: Option<string>)
      requires IdsAscending(events) && (forall e :: e in events ==> e.id < nextId)
      modifies this
      ensures predictions == old(predictions)
      ensures events == Defined(old(events), form, r, deadline, old(nextId), 11)
      ensures nextId == old(nextId) + |FilledSlots(form, |IdsOfRound(old(events), r)| + 1, 11)|
    {
      var existingIds := IdsOfRound(events, r);
      ghost var before := events;
      ghost var firstId := nextId;
      ghost var lo := |existingIds| + 1;
      assert FilledSlots(form, lo, 1) == [];
      assert events == Defined(before, form, r, deadline, firstId, 1);
      for i := 1 to 11
        invariant predictions == old(predictions)
        invariant events == Defined(before, form, r, deadline, firstId, i)
        invariant nextId == firstId + |FilledSlots(form, lo, i)|
      {
        ApplySlot(form, r, deadline, i, existingIds, before, firstId);
      }
    }

    /** One iteration of the slot loop: slot `i` revises the i-th existing event or adds one. */
    method ApplySlot(form: Form, r: int, deadline: Option<string>, i: int, existingIds: seq<int>,
                     ghost before: seq<Event>, ghost firstId: int)
      requires 1 <= i <= 10 && IdsAscending(before) && existingIds == IdsOfRound(before, r)
      requires events == Defined(before, form, r, deadline, firstId, i)
      requires nextId == firstId + |FilledSlots(form, |existingIds| + 1, i)|
      modifies this
      ensures predictions == old(predictions)
      ensures events == Defined(before, form, r, deadline, firstId, i + 1)
      ensures nextId == firstId + |FilledSlots(form, |existingIds| + 1, i + 1)|
    {
      var home := Get(form, Numbered("home_", i));
      var away := Get(form, Numbered("away_", i));
      if home.Some? && home.value != "" && away.Some? && away.value != "" {
        if i <= |existingIds| {
          DefineRevised(before, form, r, deadline, firstId, i, home.value, away.value);
          events := UpdateTeams(events, existingIds[i - 1], home.value, away.value, deadline);
        } else {
          DefineInserted(before, form, r, deadline, firstId, i, home.value, away.value);
          events := events + [Event(nextId, home.value, away.value, deadline, r, None)];
          nextId := nextId + 1;
        }
      } else {
        DefineSkipped(before, form, r, deadline, firstId, i);
      }
    }

    /**
     * The "results" admin form for the round in the "round" field. The n-th
     * event of the round (by id) takes the value of field `result_n` when
     * that field is filled; other events are left as they are. An unparsable
     * round is an uncaught exception: nothing changes.
     */
    method EnterResults(form: Form) returns (reply: Reply)
      requires Valid()
      modifies this
      ensures Valid()
      ensures predictions == old(predictions) && nextId == old(nextId)
      ensures |events| == |old(events)|
      ensures ParseInt(FieldValue(form, Named("round"))).None? ==> reply == Crash && events == old(events)
      ensures ParseInt(FieldValue(form, Named("round"))).Some? ==>
                var r := ParseInt(FieldValue(form, Named("round"))).value;
                && reply == Redirect("/admin?round=" + IntToString(r))
                && events == ResultsEntered(old(events), form, r, |IdsOfRound(old(events), r)|)
    {
      var roundNum := ParseInt(FieldValue(form, Named("round")));
      if roundNum.None? {
        return Crash;
      }
      var r := roundNum.value;
      ghost var before := events;
      EnterEach(form, r);
      SameIds(before, events, nextId);
      reply := Redirect("/admin?round=" + IntToString(r));
    }

    /** The loop of the "results" form: the n-th event of the round takes the n-th filled result field. */
    method EnterEach(form: Form, r: int)
      requires IdsAscending(events)
      modifies this
      ensures predictions == old(predictions) && nextId == old(nextId)
      ensures events == ResultsEntered(old(events), form, r, |IdsOfRound(old(events), r)|)
    {
      var eventIds := IdsOfRound(events, r);
      ghost var before := events;
      assert before == ResultsEntered(before, form, r, 0);
      for idx := 0 to |eventIds|
        invariant predictions == old(predictions) && nextId == old(nextId)
        invariant events == ResultsEntered(before, form, r, idx)
      {
        var result := Get(form, Numbered("result_", idx + 1));
        if result.Some? && result.value != "" {
          EnterFilled(before, form, r, idx);
          events := UpdateResult(events, eventIds[idx], result.value);
        } else {
          EnterSkipped(before, form, r, idx);
        }
      }
    }
  }

  // ----- the state after the first slots of a form -----

  /**
   * The existing events after the "events" form has handled the slots below
   * `limit`: an event of round `r` whose slot is filled is revised.
   */
  function Revisions(before: seq<Event>, form: Form, r: int, deadline: Option<string>, limit: int): (res: seq<Event>)
    ensures |res| == |before|
    ensures forall j :: 0 <= j < |res| ==> res[j].id == before[j].id
  {
    seq(|before|, j requires 0 <= j < |before| =>
      if before[j].round == r && Rank(before, j, r) + 1 < limit && SlotFilled(form, Rank(before, j, r) + 1)
      then Revised(before[j], form, Rank(before, j, r) + 1, deadline)
      else before[j])
  }

  /** The events inserted for `slots`, numbered on from `firstId`. */
  function Insertions(form: Form, slots: seq<int>, deadline: Option<string>, r: int, firstId: int): (res: seq<Event>)
    ensures |res| == |slots|
    ensures forall t :: 0 <= t < |res| ==> res[t].id == firstId + t
  {
    seq(|slots|, t requires 0 <= t < |slots| => Inserted(form, slots[t], deadline, r, firstId + t))
  }

  /** The events table after the "events" form has handled the slots below `limit`. */
  function Defined(before: seq<Event>, form: Form, r: int, deadline: Option<string>, firstId: int, limit: int): seq<Event> {
    Revisions(before, form, r, deadline, limit)
    + Insertions(form, FilledSlots(form, |IdsOfRound(before, r)| + 1, limit), deadline, r, firstId)
  }

  /** The table stays in ascending id order below the id sequence. */
  lemma DefinedValid(before: seq<Event>, form: Form, r: int, deadline: Option<string>, firstId: int, limit: int)
    requires IdsAscending(before) && (forall e :: e in before ==> e.id < firstId)
    ensures var d := Defined(before, form, r, deadline, firstId, limit);
            var n := |FilledSlots(form, |IdsOfRound(before, r)| + 1, limit)|;
            |d| == |before| + n && IdsAscending(d) && (forall e :: e in d ==> e.id < firstId + n)
  {
    var a := Revisions(before, form, r, deadline, limit);
    SameIds(before, a, firstId);
    AppendNumbered(a, Insertions(form, FilledSlots(form, |IdsOfRound(before, r)| + 1, limit), deadline, r, firstId), firstId);
  }

  /** Rewriting events without touching their ids keeps the order and the bound. */
  lemma SameIds(before: seq<Event>, after: seq<Event>, bound: int)
    requires IdsAscending(before) && (forall e :: e in before ==> e.id < bound)
    requires |after| == |before| && forall j :: 0 <= j < |after| ==> after[j].id == before[j].id
    ensures IdsAscending(after) && (forall e :: e in after ==> e.id < bound)
  {
    forall e | e in after ensures e.id < bound {
      var j :| 0 <= j < |after| && after[j] == e;
      assert before[j] in before;
    }
  }

  /** Appending events numbered on from `firstId` keeps the order; the bound moves past them. */
  lemma AppendNumbered(a: seq<Event>, b: seq<Event>, firstId: int)
    requires IdsAscending(a) && (forall e :: e in a ==> e.id < firstId)
    requires forall t :: 0 <= t < |b| ==> b[t].id == firstId + t
    ensures IdsAscending(a + b) && (forall e :: e in a + b ==> e.id < firstId + |b|)
  {
    var d := a + b;
    forall i, j | 0 <= i < j < |d| ensures d[i].id < d[j].id {
      if j < |a| {
        assert d[i] == a[i] && d[j] == a[j];
      } else if i >= |a| {
        assert d[i] == b[i - |a|] && d[j] == b[j - |a|];
      } else {
        assert d[j] == b[j - |a|];
        assert a[i] in a;
      }
    }
    forall e | e in d ensures e.id < firstId + |b| {
      var i :| 0 <= i < |d| && d[i] == e;
      if i < |a| {
        assert a[i] in a;
      } else {
        assert d[i] == b[i - |a|];
      }
    }
  }

  /** The table after all ten slots, position by position. */
  lemma DefinedAll(before: seq<Event>, form: Form, r: int, deadline: Option<string>, firstId: int)
    ensures var d := Defined(before, form, r, deadline, firstId, 11);
            var added := FilledSlots(form, |IdsOfRound(before, r)| + 1, 11);
            && |d| == |before| + |added|
            && (forall j :: 0 <= j < |before| ==>
                  d[j] == if before[j].round == r && SlotFilled(form, Rank(before, j, r) + 1)
                          then Revised(before[j], form, Rank(before, j, r) + 1, deadline)
                          else before[j])
            && (forall p :: |before| <= p < |d| ==> d[p] == Inserted(form, added[p - |before|], deadline, r, firstId + p - |before|))
  {
  }

  /** The table after every event of the round, position by position. */
  lemma ResultsEnteredAll(before: seq<Event>, form: Form, r: int)
    ensures var d := ResultsEntered(before, form, r, |IdsOfRound(before, r)|);
            forall j :: 0 <= j < |before| ==>
              d[j] == if before[j].round == r && Filled(Get(form, Numbered("result_", Rank(before, j, r) + 1)))
                      then before[j].(result := Get(form, Numbered("result_", Rank(before, j, r) + 1)))
                      else before[j]
  {
    forall j | 0 <= j < |before| && before[j].round == r
      ensures Rank(before, j, r) < |IdsOfRound(before, r)|
    {
      RankedId(before, r, j);
    }
  }

  /** An empty slot changes nothing. */
  lemma DefineSkipped(before: seq<Event>, form: Form, r: int, deadline: Option<string>, firstId: int, i: int)
    requires !SlotFilled(form, i)
    ensures Defined(before, form, r, deadline, firstId, i + 1) == Defined(before, form, r, deadline, firstId, i)
    ensures var lo := |IdsOfRound(before, r)| + 1; FilledSlots(form, lo, i + 1) == FilledSlots(form, lo, i)
  {
    var k := |IdsOfRound(before, r)|;
    assert FilledSlots(form, k + 1, i + 1) == FilledSlots(form, k + 1, i);
    var next, now := Revisions(before, form, r, deadline, i + 1), Revisions(before, form, r, deadline, i);
    forall j | 0 <= j < |before| ensures next[j] == now[j] {
    }
    assert next == now;
  }

  /** A filled slot with an existing event of that rank updates exactly that event. */
  lemma DefineRevised(before: seq<Event>, form: Form, r: int, deadline: Option<string>, firstId: int, i: int, home: string, away: string)
    requires IdsAscending(before) && 1 <= i <= 10 && i <= |IdsOfRound(before, r)|
    requires Get(form, Numbered("home_", i)) == Some(home) && home != ""
    requires Get(form, Numbered("away_", i)) == Some(away) && away != ""
    ensures Defined(before, form, r, deadline, firstId, i + 1) ==
              UpdateTeams(Defined(before, form, r, deadline, firstId, i), IdsOfRound(before, r)[i - 1], home, away, deadline)
    ensures var lo := |IdsOfRound(before, r)| + 1; FilledSlots(form, lo, i + 1) == FilledSlots(form, lo, i)
  {
    var k := |IdsOfRound(before, r)|;
    assert SlotFilled(form, i);
    assert FilledSlots(form, k + 1, i + 1) == [] && FilledSlots(form, k + 1, i) == [];
    RevisionsRevised(before, form, r, deadline, i);
    assert Defined(before, form, r, deadline, firstId, i) == Revisions(before, form, r, deadline, i);
    assert Defined(before, form, r, deadline, firstId, i + 1) == Revisions(before, form, r, deadline, i + 1);
  }

  lemma RevisionsRevised(before: seq<Event>, form: Form, r: int, deadline: Option<string>, i: int)
    requires IdsAscending(before)
    requires SlotFilled(form, i) && i <= |IdsOfRound(before, r)|
    ensures Revisions(before, form, r, deadline, i + 1) ==
              UpdateTeams(Revisions(before, form, r, deadline, i), IdsOfRound(before, r)[i - 1],
                          FieldValue(form, Numbered("home_", i)), FieldValue(form, Numbered("away_", i)), deadline)
  {
    var upd := UpdateTeams(Revisions(before, form, r, deadline, i), IdsOfRound(before, r)[i - 1],
                           FieldValue(form, Numbered("home_", i)), FieldValue(form, Numbered("away_", i)), deadline);
    var next := Revisions(before, form, r, deadline, i + 1);
    forall j | 0 <= j < |before| ensures upd[j] == next[j] {
      RankedIdExactly(before, r, j, i - 1);
    }
    assert upd == next;
  }

  /** A filled slot past the existing events appends a new event with the next id. */
  lemma DefineInserted(before: seq<Event>, form: Form, r: int, deadline: Option<string>, firstId: int, i: int, home: string, away: string)
    requires |IdsOfRound(before, r)| < i <= 10
    requires Get(form, Numbered("home_", i)) == Some(home) && home != ""
    requires Get(form, Numbered("away_", i)) == Some(away) && away != ""
    ensures var lo := |IdsOfRound(before, r)| + 1;
            && Defined(before, form, r, deadline, firstId, i + 1) ==
                 Defined(before, form, r, deadline, firstId, i) + [Event(firstId + |FilledSlots(form, lo, i)|, home, away, deadline, r, None)]
            && |FilledSlots(form, lo, i + 1)| == |FilledSlots(form, lo, i)| + 1
  {
    var k := |IdsOfRound(before, r)|;
    assert SlotFilled(form, i);
    RevisionsSettled(before, form, r, deadline, i);
    var slots := FilledSlots(form, k + 1, i);
    assert FilledSlots(form, k + 1, i + 1) == slots + [i];
    InsertionsAppend(form, slots, i, deadline, r, firstId);
  }

  /** Past the last existing event, further slots revise nothing. */
  lemma RevisionsSettled(before: seq<Event>, form: Form, r: int, deadline: Option<string>, i: int)
    requires i > |IdsOfRound(before, r)|
    ensures Revisions(before, form, r, deadline, i + 1) == Revisions(before, form, r, deadline, i)
  {
    forall j | 0 <= j < |before| && before[j].round == r ensures Rank(before, j, r) + 1 < i {
      RankedId(before, r, j);
    }
  }

  lemma InsertionsAppend(form: Form, slots: seq<int>, i: int, deadline: Option<string>, r: int, firstId: int)
    ensures Insertions(form, slots + [i], deadline, r, firstId)
         == Insertions(form, slots, deadline, r, firstId) + [Inserted(form, i, deadline, r, firstId + |slots|)]
  {
  }

  /** The events table after the "results" form has handled the first `n` events of round `r`. */
  function ResultsEntered(before: seq<Event>, form: Form, r: int, n: int): (res: seq<Event>)
    ensures |res| == |before|
    ensures forall j :: 0 <= j < |res| ==> res[j].id == before[j].id && res[j].round == before[j].round
  {
    seq(|before|, j requires 0 <= j < |before| =>
      if before[j].round == r && Rank(before, j, r) < n && Filled(Get(form, Numbered("result_", Rank(before, j, r) + 1)))
      then before[j].(result := Get(form, Numbered("result_", Rank(before, j, r) + 1)))
      else before[j])
  }

  /** An empty result field changes nothing. */
  lemma EnterSkipped(before: seq<Event>, form: Form, r: int, n: int)
    requires !Filled(Get(form, Numbered("result_", n + 1)))
    ensures ResultsEntered(before, form, r, n + 1) == ResultsEntered(before, form, r, n)
  {
  }

  /** A filled result field updates exactly the event of rank `n`. */
  lemma EnterFilled(before: seq<Event>, form: Form, r: int, n: int)
    requires IdsAscending(before) && 0 <= n < |IdsOfRound(before, r)|
    requires Filled(Get(form, Numbered("result_", n + 1)))
    ensures ResultsEntered(before, form, r, n + 1) ==
              UpdateResult(ResultsEntered(before, form, r, n), IdsOfRound(before, r)[n], Get(form, Numbered("result_", n + 1)).value)
  {
    var upd := UpdateResult(ResultsEntered(before, form, r, n), IdsOfRound(before, r)[n], Get(form, Numbered("result_", n + 1)).value);
    var next := ResultsEntered(before, form, r, n + 1);
    forall j | 0 <= j < |before| ensures upd[j] == next[j] {
      RankedIdExactly(before, r, j, n);
    }
    assert upd == next;
  }

  /** Events with the same ids and rounds position by position list the same ids for every round. */
  lemma {:induction false} IdsUpToSame(a: seq<Event>, b: seq<Event>, n: int, r: int)
    requires |a| == |b| && 0 <= n <= |a|
    requires forall j :: 0 <= j < |a| ==> a[j].id == b[j].id && a[j].round == b[j].round
    ensures IdsUpTo(a, n, r) == IdsUpTo(b, n, r)
  {
    if n > 0 {
      IdsUpToSame(a, b, n - 1, r);
    }
  }

  /** Sending the same "results" form again changes nothing more. */
  lemma ResultsEnteredTwice(before: seq<Event>, form: Form, r: int)
    ensures var once := ResultsEntered(before, form, r, |IdsOfRound(before, r)|);
            ResultsEntered(once, form, r, |IdsOfRound(once, r)|) == once
  {
    var once := ResultsEntered(before, form, r, |IdsOfRound(before, r)|);
    var twice := ResultsEntered(once, form, r, |IdsOfRound(once, r)|);
    IdsUpToSame(once, before, |before|, r);
    forall j | 0 <= j < |before| ensures twice[j] == once[j] {
      IdsUpToSame(once, before, j, r);
    }
    assert twice == once;
  }

  // ----- the submit loop -----

  /** The predictions after the submit loop has handled `ids` for `username`. */
  function Submitted(preds: seq<Prediction>, username: string, ids: seq<int>, form: Form): seq<Prediction>
    decreases |ids|
  {
    if ids == [] then preds
    else
      var prev := Submitted(preds, username, ids[..|ids| - 1], form);
      var pred := Get(form, Numbered("prediction_", ids[|ids| - 1]));
      if Filled(pred) then Upsert(prev, username, ids[|ids| - 1], pred.value) else prev
  }

  /** The loop keeps one row per (username, event). */
  lemma {:induction false} SubmittedUnique(preds: seq<Prediction>, username: string, ids: seq<int>, form: Form)
    requires UniqueKeys(preds)
    ensures UniqueKeys(Submitted(preds, username, ids, form))
    decreases |ids|
  {
    if ids != [] {
      var prev := Submitted(preds, username, ids[..|ids| - 1], form);
      var pred := Get(form, Numbered("prediction_", ids[|ids| - 1]));
      SubmittedUnique(preds, username, ids[..|ids| - 1], form);
      if Filled(pred) {
        UpsertKeepsUnique(prev, username, ids[|ids| - 1], pred.value);
      }
    }
  }

  /** After the loop, the user's prediction for each listed, filled event is the submitted one; nothing else changes. */
  lemma {:induction false} SubmittedLookup(preds: seq<Prediction>, username: string, ids: seq<int>, form: Form)
    ensures forall u, id :: Lookup(Submitted(preds, username, ids, form), u, id) ==
              if u == username && id in ids && Filled(Get(form, Numbered("prediction_", id)))
              then Get(form, Numbered("prediction_", id))
              else Lookup(preds, u, id)
    decreases |ids|
  {
    if ids != [] {
      var init := ids[..|ids| - 1];
      SubmittedLookup(preds, username, init, form);
      assert ids == init + [ids[|ids| - 1]];
      assert forall id :: id in ids <==> id in init || id == ids[|ids| - 1];
    }
  }

  // ----- the submit loop as it runs on PostgreSQL -----

  /**
   * The submit loop as written: each filled prediction is INSERTed; when the
   * (username, event) pair is already stored the INSERT violates the unique
   * key, PostgreSQL aborts the transaction, the UPDATE in the handler of that
   * error fails in turn, and the request ends in an error with every insert
   * of the request rolled back (`None`).
   */
  function InsertEach(preds: seq<Prediction>, username: string, ids: seq<int>, form: Form): (r: Option<seq<Prediction>>)
    ensures r.Some? ==> preds <= r.value && |r.value| <= |preds| + |ids|
    ensures r.Some? ==> forall q :: q in r.value[|preds|..] ==> q.username == username && q.eventId in ids
    decreases ids
  {
    if ids == [] then Some(preds)
    else
      var pred := Get(form, Numbered("prediction_", ids[0]));
      if !Filled(pred) then InsertEach(preds, username, ids[1..], form)
      else if Lookup(preds, username, ids[0]).Some? then None
      else InsertEach(preds + [Prediction(username, ids[0], pred.value)], username, ids[1..], form)
  }

  /** Looking up in a table with one more row at the end: earlier rows win. */
  lemma {:induction false} LookupSnoc(preds: seq<Prediction>, q: Prediction, u: string, id: int)
    ensures Lookup(preds + [q], u, id) ==
              if Lookup(preds, u, id).Some? then Lookup(preds, u, id)
              else if Key(q) == (u, id) then Some(q.prediction)
              else None
  {
    if preds != [] && Key(preds[0]) != (u, id) {
      assert (preds + [q])[1..] == preds[1..] + [q];
      LookupSnoc(preds[1..], q, u, id);
    }
  }

  /** When no submitted pair is stored yet, the code as written stores each filled prediction. */
  lemma {:induction false} InsertEachLookup(preds: seq<Prediction>, username: string, ids: seq<int>, form: Form)
    requires InsertEach(preds, username, ids, form).Some?
    ensures forall u, id :: Lookup(InsertEach(preds, username, ids, form).value, u, id) ==
              if u == username && id in ids && Filled(Get(form, Numbered("prediction_", id)))
              then Get(form, Numbered("prediction_", id))
              else Lookup(preds, u, id)
    decreases ids
  {
    if ids != [] {
      var pred := Get(form, Numbered("prediction_", ids[0]));
      assert forall id :: id in ids <==> id == ids[0] || id in ids[1..];
      if !Filled(pred) {
        InsertEachLookup(preds, username, ids[1..], form);
      } else {
        var q := Prediction(username, ids[0], pred.value);
        InsertEachLookup(preds + [q], username, ids[1..], form);
        forall u, id
          ensures Lookup(preds + [q], u, id) == if (u, id) == (username, ids[0]) then Some(pred.value) else Lookup(preds, u, id)
        {
          LookupSnoc(preds, q, u, id);
        }
      }
    }
  }

  /** Where the code as written succeeds, it leaves the table the upsert leaves. */
  lemma InsertEachAgrees(preds: seq<Prediction>, username: string, ids: seq<int>, form: Form)
    requires InsertEach(preds, username, ids, form).Some?
    ensures forall u, id :: Lookup(InsertEach(preds, username, ids, form).value, u, id) ==
                            Lookup(Submitted(preds, username, ids, form), u, id)
  {
    InsertEachLookup(preds, username, ids, form);
    SubmittedLookup(preds, username, ids, form);
  }

  /** As written, re-submitting a prediction the user already made fails the whole request. */
  lemma {:induction false} ResubmitFails(preds: seq<Prediction>, username: string, ids: seq<int>, form: Form, id: int)
    requires id in ids && Filled(Get(form, Numbered("prediction_", id)))
    requires Lookup(preds, username, id).Some?
    ensures InsertEach(preds, username, ids, form).None?
    decreases ids
  {
    var pred := Get(form, Numbered("prediction_", ids[0]));
    if ids[0] != id {
      assert id in ids[1..];
      if Filled(pred) && Lookup(preds, username, ids[0]).None? {
        LookupSnoc(preds, Prediction(username, ids[0], pred.value), username, id);
        ResubmitFails(preds + [Prediction(username, ids[0], pred.value)], username, ids[1..], form, id);
      } else if !Filled(pred) {
        ResubmitFails(preds, username, ids[1..], form, id);
      }
    }
  }

  /** The POST branch of the admin page: dispatch on "form_type". */
  method AdminPost(store: Store, form: Form) returns (reply: Reply)
    requires store.Valid()
    modifies store
    ensures store.Valid()
    ensures Get(form, Named("form_type")) != Some("events") && Get(form, Named("form_type")) != Some("results") ==>
              reply == ShowAdminPage && store.events == old(store.events)
              && store.predictions == old(store.predictions) && store.nextId == old(store.nextId)
  {
    var formType := Get(form, Named("form_type"));
    if formType == Some("events") {
      reply := store.DefineEvents(form);
    } else if formType == Some("results") {
      reply := store.EnterResults(form);
    } else {
      reply := ShowAdminPage;
    }
  }
}
