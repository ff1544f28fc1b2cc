/**
 * The index page: of the first ten events by id, the ones still open for
 * predictions, as the `(id, home, away)` triples the form is built from.
 */
module Index {
  import opened Text
  import opened Deadline
  import opened Tables

  /** What the prediction form shows of an event. */
  datatype Slot = Slot(id: int, home: string, away: string)

  function SlotOf(e: Event): Slot {
    Slot(e.id, e.home, e.away)
  }

  /**
   * An event is open when its deadline is set, not empty, parses, and lies
   * strictly after `now`; everything else is closed, never an error.
   */
  predicate IsOpen(e: Event, now: Moment): (r: bool)
    ensures r ==> e.deadline.Some? && |e.deadline.value| == 16 && e.deadline.value[10] == ' '
  {
    && e.deadline.Some? && e.deadline.value != ""
    && ParseDeadline(e.deadline.value).Some?
    && Before(now, ParseDeadline(e.deadline.value).value)
  }

  /** The open events of `events`, in their order. */
  function OpenSlots(events: seq<Event>, now: Moment): (r: seq<Slot>)
    ensures |r| <= |events|
    ensures forall t :: t in r ==> exists e :: e in events && IsOpen(e, now) && SlotOf(e) == t
  {
    if events == [] then []
    else
      var init := events[..|events| - 1];
      var last := events[|events| - 1];
      var r0 := OpenSlots(init, now);
      assert forall e :: e in init ==> e in events;
      r0 + (if IsOpen(last, now) then [SlotOf(last)] else [])
  }

  /** The loop of the index page over `ORDER BY id ASC LIMIT 10`. */
  method OpenEvents(events: seq<Event>, now: Moment) returns (open: seq<Slot>)
    ensures open == OpenSlots(FirstRows(events, 10), now)
    ensures |open| <= 10
  {
    var rows := FirstRows(events, 10);
    open := [];
    for k := 0 to |rows|
      invariant open == OpenSlots(rows[..k], now)
    {
      var e := rows[k];
      assert rows[..k + 1][..k] == rows[..k];
      if e.deadline.Some? && e.deadline.value != "" {
        var parsed := ParseDeadline(e.deadline.value);
        if parsed.Some? && Before(now, parsed.value) {
          open := open + [Slot(e.id, e.home, e.away)];
        }
      }
    }
    assert rows[..|rows|] == rows;
  }

  /** Every open event is kept and every closed one is dropped. */
  lemma {:induction false} OpenSlotsExactly(events: seq<Event>, now: Moment, i: int)
    requires IdsAscending(events) && 0 <= i < |events|
    ensures SlotOf(events[i]) in OpenSlots(events, now) <==> IsOpen(events[i], now)
  {
    var init := events[..|events| - 1];
    var last := events[|events| - 1];
    if i < |events| - 1 {
      OpenSlotsExactly(init, now, i);
      assert init[i] == events[i];
      if IsOpen(last, now) {
        assert SlotOf(last).id != SlotOf(events[i]).id;
      }
    }
  }

  /** The kept events come out in ascending id order, as they came in. */
  lemma {:induction false} OpenSlotsAscending(events: seq<Event>, now: Moment)
    requires IdsAscending(events)
    ensures forall i, j :: 0 <= i < j < |OpenSlots(events, now)| ==>
              OpenSlots(events, now)[i].id < OpenSlots(events, now)[j].id
  {
    if events != [] {
      var init := events[..|events| - 1];
      var last := events[|events| - 1];
      OpenSlotsAscending(init, now);
      var r0 := OpenSlots(init, now);
      forall t | t in r0 ensures t.id < last.id {
        var e :| e in init && IsOpen(e, now) && SlotOf(e) == t;
        var j :| 0 <= j < |init| && init[j] == e;
      }
    }
  }

  /** A deadline of exactly `now` is already closed. */
  lemma OpenAtDeadline(e: Event, now: Moment)
    requires e.deadline.Some? && ParseDeadline(e.deadline.value) == Some(now)
    ensures !IsOpen(e, now)
  {
  }
}
