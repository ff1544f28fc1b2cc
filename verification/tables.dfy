/**
 * The two tables of the pool (`events` and `predictions`) as rows held in
 * memory, and the form a request carries. The events table is kept in
 * ascending id order, so "ORDER BY id ASC" is the table's own order; the
 * predictions table has at most one row per (username, event_id), the
 * UNIQUE constraint of the schema.
 */
module Tables {
  import opened Text

  /** A row of `events`; `deadline` and `result` are the nullable columns. */
  datatype Event = Event(id: int, home: string, away: string, deadline: Option<string>, round: int, result: Option<string>)

  /** A row of `predictions`. */
  datatype Prediction = Prediction(username: string, eventId: int, prediction: string)

  /**
   * A field of a submitted form: a fixed name such as "round", or a numbered
   * one such as `home_3`, whose name `f'{prefix}{n}'` builds.
   */
  datatype Field = Named(name: string) | Numbered(prefix: string, n: int)

  /** The name under which the browser sends the field. */
  function FieldText(f: Field): string {
    match f
    case Named(s) => s
    case Numbered(prefix, n) => prefix + IntToString(n)
  }

  /** Numbered fields of one prefix have distinct names: the name determines the number. */
  lemma NumberedTextInjective(prefix: string, m: int, n: int)
    requires FieldText(Numbered(prefix, m)) == FieldText(Numbered(prefix, n))
    ensures m == n
  {
    assert IntToString(m) == FieldText(Numbered(prefix, m))[|prefix|..];
    assert IntToString(n) == FieldText(Numbered(prefix, n))[|prefix|..];
    IntToStringInjective(m, n);
  }

  /** The fields of a submitted form, each value under the field it was sent as. */
  type Form = map<Field, string>

  /** `request.form.get(key)`. */
  function Get(form: Form, key: Field): Option<string> {
    if key in form then Some(form[key]) else None
  }

  /** Python truthiness of a form value: sent and not empty. */
  predicate Filled(v: Option<string>) {
    v.Some? && v.value != ""
  }

  predicate IdsAscending(events: seq<Event>) {
    forall i, j :: 0 <= i < j < |events| ==> events[i].id < events[j].id
  }

  /** `LIMIT n` on the table in id order. */
  function FirstRows(events: seq<Event>, n: nat): (r: seq<Event>)
    ensures |r| <= n && |r| <= |events|
    ensures |r| == n || r == events
  {
    if |events| <= n then events else events[..n]
  }

  /** The key the schema declares UNIQUE. */
  function Key(p: Prediction): (string, int) {
    (p.username, p.eventId)
  }

  predicate UniqueKeys(preds: seq<Prediction>) {
    forall i, j :: 0 <= i < j < |preds| ==> Key(preds[i]) != Key(preds[j])
  }

  /** The stored prediction of `username` for `eventId`, if any. */
  function Lookup(preds: seq<Prediction>, username: string, eventId: int): Option<string> {
    if preds == [] then None
    else if Key(preds[0]) == (username, eventId) then Some(preds[0].prediction)
    else Lookup(preds[1..], username, eventId)
  }

  lemma {:induction false} LookupFound(preds: seq<Prediction>, i: int)
    requires UniqueKeys(preds) && 0 <= i < |preds|
    ensures Lookup(preds, preds[i].username, preds[i].eventId) == Some(preds[i].prediction)
  {
    if i > 0 {
      assert Key(preds[0]) != Key(preds[i]);
      LookupFound(preds[1..], i - 1);
    }
  }

  /**
   * Insert-or-update of one prediction: the row of the same key takes the
   * new value, or a row is appended when there is none.
   */
  function Upsert(preds: seq<Prediction>, username: string, eventId: int, value: string): (r: seq<Prediction>)
    ensures forall u, id :: Lookup(r, u, id) == if (u, id) == (username, eventId) then Some(value) else Lookup(preds, u, id)
    ensures |r| == |preds| + (if Lookup(preds, username, eventId).None? then 1 else 0)
    ensures forall q :: q in r ==> q in preds || q == Prediction(username, eventId, value)
  {
    if preds == [] then [Prediction(username, eventId, value)]
    else if Key(preds[0]) == (username, eventId) then [Prediction(username, eventId, value)] + preds[1..]
    else [preds[0]] + Upsert(preds[1..], username, eventId, value)
  }

  /** The upsert keeps one row per (username, event_id). */
  lemma {:induction false} UpsertKeepsUnique(preds: seq<Prediction>, username: string, eventId: int, value: string)
    requires UniqueKeys(preds)
    ensures UniqueKeys(Upsert(preds, username, eventId, value))
  {
    var r := Upsert(preds, username, eventId, value);
    if preds == [] {
    } else if Key(preds[0]) == (username, eventId) {
      forall i, j | 0 <= i < j < |r| ensures Key(r[i]) != Key(r[j]) {
        assert r[j] == preds[j];
        if i > 0 {
          assert r[i] == preds[i];
        }
      }
    } else {
      var rest := Upsert(preds[1..], username, eventId, value);
      UpsertKeepsUnique(preds[1..], username, eventId, value);
      forall q | q in rest ensures Key(q) != Key(preds[0]) {
        if q in preds[1..] {
          var k :| 0 <= k < |preds[1..]| && preds[1..][k] == q;
          assert preds[k + 1] == q;
        }
      }
      assert r == [preds[0]] + rest;
      forall i, j | 0 <= i < j < |r| ensures Key(r[i]) != Key(r[j]) {
        assert r[j] == rest[j - 1] && r[j] in rest;
        if i > 0 {
          assert r[i] == rest[i - 1];
        }
      }
    }
  }

  // ----- counting in sequences -----

  predicate Distinct(s: seq<int>) {
    forall i, j :: 0 <= i < j < |s| ==> s[i] != s[j]
  }

  function Occurrences(s: seq<int>, x: int): nat {
    if s == [] then 0
    else Occurrences(s[..|s| - 1], x) + (if s[|s| - 1] == x then 1 else 0)
  }

  lemma {:induction false} OccursOnce(s: seq<int>, x: int)
    requires Distinct(s)
    ensures Occurrences(s, x) == if x in s then 1 else 0
  {
    if s != [] {
      var init := s[..|s| - 1];
      OccursOnce(init, x);
      assert s == init + [s[|s| - 1]];
      if x in init {
        var i :| 0 <= i < |init| && init[i] == x;
      }
    }
  }
}
