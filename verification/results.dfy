/**
 * The results page: the rows of the events table (already ordered by round
 * descending, then id) bucketed by round into display lines, each round's
 * list in row order, the rounds in order of first appearance (the key order
 * of the Python dict).
 */
module Results {
  import opened Text
  import opened Tables

  /** A row of the results query: round, home, away, result. */
  datatype ResultRow = ResultRow(round: int, home: string, away: string, result: Option<string>)

  /** The display line of a row: `"{home} - {away} {result or ''}"`. */
  function Display(row: ResultRow): (line: string)
    ensures |line| == |row.home| + 3 + |row.away| + 1 + (if row.result.Some? then |row.result.value| else 0)
  {
    row.home + " - " + row.away + " " + (if row.result.Some? then row.result.value else "")
  }

  /** The pieces of a display line, in order; a missing result leaves the line ending in the space. */
  lemma DisplayLayout(row: ResultRow)
    ensures Display(row)[..|row.home|] == row.home
    ensures Display(row)[|row.home|..|row.home| + 3] == " - "
    ensures Display(row)[|row.home| + 3..|row.home| + 3 + |row.away|] == row.away
    ensures Display(row)[|row.home| + 3 + |row.away|] == ' '
    ensures Display(row)[|row.home| + 4 + |row.away|..] == if row.result.Some? then row.result.value else ""
  {
  }

  /** The lines of the rows of round `r`, in row order. */
  function LinesOf(rows: seq<ResultRow>, r: int): seq<string> {
    if rows == [] then []
    else
      var row := rows[|rows| - 1];
      LinesOf(rows[..|rows| - 1], r) + (if row.round == r then [Display(row)] else [])
  }

  /** The rounds in order of first appearance, each once. */
  function RoundOrder(rows: seq<ResultRow>): (order: seq<int>)
    ensures Distinct(order)
  {
    if rows == [] then []
    else
      var o := RoundOrder(rows[..|rows| - 1]);
      var row := rows[|rows| - 1];
      if row.round in o then o else o + [row.round]
  }

  /** The round order lists exactly the rounds that occur in the rows. */
  lemma {:induction false} RoundOrderExactly(rows: seq<ResultRow>)
    ensures forall r :: r in RoundOrder(rows) <==> exists row :: row in rows && row.round == r
  {
    if rows != [] {
      var init := rows[..|rows| - 1];
      RoundOrderExactly(init);
      assert rows == init + [rows[|rows| - 1]];
      assert forall x :: x in rows <==> x in init || x == rows[|rows| - 1];
    }
  }

  /** The loop of the results page. */
  method GroupByRound(rows: seq<ResultRow>) returns (groups: map<int, seq<string>>, order: seq<int>)
    ensures order == RoundOrder(rows)
    ensures forall r :: r in groups <==> r in order
    ensures forall r :: r in groups ==> groups[r] == LinesOf(rows, r)
  {
    groups, order := map[], [];
    for k := 0 to |rows|
      invariant order == RoundOrder(rows[..k])
      invariant forall r :: r in groups <==> r in order
      invariant forall r :: r in groups ==> groups[r] == LinesOf(rows[..k], r)
    {
      var row := rows[k];
      assert rows[..k + 1] == rows[..k] + [row];
      GroupStep(rows[..k], row);
      if row.round !in groups {
        LinesOfAbsent(rows[..k], row.round);
        groups := groups[row.round := []];
        order := order + [row.round];
      }
      var prikaz := Display(row);
      groups := groups[row.round := groups[row.round] + [prikaz]];
    }
    assert rows[..|rows|] == rows;
  }

  /** What one more row does to the lines and to the round order. */
  lemma GroupStep(done: seq<ResultRow>, row: ResultRow)
    ensures forall r :: LinesOf(done + [row], r) == LinesOf(done, r) + (if row.round == r then [Display(row)] else [])
    ensures RoundOrder(done + [row]) == if row.round in RoundOrder(done) then RoundOrder(done) else RoundOrder(done) + [row.round]
  {
    assert (done + [row])[..|done|] == done;
  }

  /** A round with no row has no lines. */
  lemma {:induction false} LinesOfAbsent(rows: seq<ResultRow>, r: int)
    requires r !in RoundOrder(rows)
    ensures LinesOf(rows, r) == []
  {
    if rows != [] {
      var init := rows[..|rows| - 1];
      assert forall x :: x in init ==> x in rows;
      LinesOfAbsent(init, r);
    }
  }

  /** Total number of lines over the rounds listed. */
  function LineCount(rows: seq<ResultRow>, rounds: seq<int>): nat {
    if rounds == [] then 0
    else LineCount(rows, rounds[..|rounds| - 1]) + |LinesOf(rows, rounds[|rounds| - 1])|
  }

  lemma {:induction false} LineCountStep(rows: seq<ResultRow>, row: ResultRow, rounds: seq<int>)
    ensures LineCount(rows + [row], rounds) == LineCount(rows, rounds) + Occurrences(rounds, row.round)
  {
    assert (rows + [row])[..|rows|] == rows;
    if rounds != [] {
      LineCountStep(rows, row, rounds[..|rounds| - 1]);
    }
  }

  /** Every row lands in exactly one list: the lists together hold as many lines as there are rows. */
  lemma {:induction false} GroupsPartitionRows(rows: seq<ResultRow>)
    ensures LineCount(rows, RoundOrder(rows)) == |rows|
  {
    if rows != [] {
      var init := rows[..|rows| - 1];
      var row := rows[|rows| - 1];
      var o := RoundOrder(init);
      GroupsPartitionRows(init);
      assert rows == init + [row];
      LineCountStep(init, row, o);
      OccursOnce(o, row.round);
      if row.round !in o {
        LinesOfAbsent(init, row.round);
        var o' := o + [row.round];
        assert RoundOrder(rows) == o';
        assert o'[..|o'| - 1] == o;
        assert LineCount(init, o') == LineCount(init, o) + |LinesOf(init, row.round)|;
        LineCountStep(init, row, o');
        OccursOnce(o', row.round);
      } else {
        assert RoundOrder(rows) == o;
      }
    }
  }

  predicate RoundsDescending(rows: seq<ResultRow>) {
    forall i, j :: 0 <= i < j < |rows| ==> rows[i].round >= rows[j].round
  }

  /** Rows ordered by round descending give the rounds in strictly descending order. */
  lemma {:induction false} RoundOrderDescending(rows: seq<ResultRow>)
    requires RoundsDescending(rows)
    ensures forall i, j :: 0 <= i < j < |RoundOrder(rows)| ==> RoundOrder(rows)[i] > RoundOrder(rows)[j]
  {
    if rows != [] {
      var init := rows[..|rows| - 1];
      var row := rows[|rows| - 1];
      RoundOrderDescending(init);
      RoundOrderExactly(init);
      var o := RoundOrder(init);
      forall x | x in o ensures x >= row.round {
        var r0 :| r0 in init && r0.round == x;
        var i :| 0 <= i < |init| && init[i] == r0;
      }
      if row.round !in o {
        assert RoundOrder(rows) == o + [row.round];
        forall i | 0 <= i < |o| ensures o[i] > row.round {
          assert o[i] in o;
        }
      } else {
        assert RoundOrder(rows) == o;
      }
    }
  }
}
