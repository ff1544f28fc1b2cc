# prognoze: a verified model of the prediction-pool handlers

`app.py` is a small Flask site for a football prediction pool. Players pick a
nickname and send a code (for instance "1", "X", "2") for each of the first
ten events. An administrator defines the events of a round and later enters
their results. The leaderboard counts each player's correct codes per round,
and a results page lists every round's matches.

Take away the database and the templates, and what remains is data
manipulation over two tables. That is what this Dafny project models:

- **`events`**: a sequence of rows, kept in ascending id order, below the
  id sequence's next value.
- **`predictions`**: a sequence of rows with at most one row per
  (username, event_id), the `UNIQUE` constraint of the schema.

| module | file | what it models |
|---|---|---|
| `Text` | text.dfy | `normalize` (`strip` then `upper`), `str.replace('T', ' ')`, `int(s)` and `str(n)`, and string order |
| `Deadline` | deadline.dfy | `strptime(s, '%Y-%m-%d %H:%M')` as a strict, zero-padded parser with `datetime`'s calendar checks, and the `>` comparison |
| `Tables` | tables.dfy | event and prediction rows, form fields, the first rows by id, lookup by (username, event), and the intended insert-or-update |
| `Index` | index.dfy | the open-event filter of the index page |
| `Scoring` | scoring.dfy | the leaderboard: the result index, the `scores` loop, sorting, the table loop |
| `Admin` | admin.dfy | class `Store`, holding both tables, with the submit handler and the "events" and "results" admin forms; also the submit loop as it behaves on PostgreSQL |
| `Results` | results.dfy | the grouping loop of the results-by-round page |

Form fields are modelled as a datatype: either a fixed name, such as
`round`, or a prefix with a number, such as `home_3`. Their text is
`f'{prefix}{n}'`, and `Tables.NumberedTextInjective` shows that the text
determines the number. `now` and the query results are parameters.

## Model

| member | source | states |
|---|---|---|
| Text.NormalizeShape | app.py:140-141 | a normalised code has no surrounding whitespace and no lower-case letter |
| Text.NormalizeIdempotent | app.py:140-141 | normalising twice equals normalising once |
| Text.NormalizeIgnoresPadding | app.py:140-141 | surrounding whitespace does not change the normalised code |
| Text.NormalizeIgnoresCase | app.py:140-141 | upper-casing first does not change the normalised code |
| Text.Normalize | app.py:140-141 | a missing code normalises to "", and a normalised code is never longer than the code |
| Text.StripShape | app.py:35 | the stripped nickname is a contiguous slice of the input, with only whitespace on either side of it |
| Text.StripIsStripped | app.py:35 | a stripped string starts and ends with a non-space character, or is empty |
| Text.StripPadding | app.py:35 | whitespace added on either side is removed by `strip` |
| Text.ReplaceT | app.py:70-71 | every 'T' of the deadline becomes a space, every other character is kept, and no 'T' remains |
| Text.IntToStringRoundTrip | app.py:68 | `int(str(n)) == n`: the round in the redirect parses back to itself |
| Text.IntToStringInjective | app.py:45 | different numbers give different field names |
| Text.ParseInt | app.py:68 | a blank round field is rejected, and a string of ASCII digits reads as its decimal value |
| Text.LessTotal | app.py:170 | any two different usernames are ordered one way or the other |
| Text.LessTransitive | app.py:170 | username order is transitive |
| Deadline.ParseDeadline | app.py:25 | an accepted deadline is a valid calendar moment on a whole minute |
| Deadline.ParseFormat | app.py:25 | parsing the canonical text of a moment gives the moment back |
| Deadline.FormatParse | app.py:25 | every accepted string is the canonical text of the moment read from it |
| Deadline.Before | app.py:26 | a moment is never before itself |
| Deadline.BeforeStrictOrder | app.py:26 | the comparison of moments is a strict total order: asymmetric, total on different moments, transitive |
| Tables.NumberedTextInjective | app.py:45 | two numbered fields with one prefix and the same name have the same number |
| Tables.Upsert | app.py:44-52 | the pair's value becomes the new one and all other lookups are unchanged; the table grows by one row exactly when the pair was absent |
| Tables.UpsertKeepsUnique | db_init.py:27 | an upsert keeps one row per (username, event_id) |
| Tables.LookupFound | db_init.py:27 | with unique keys, every row is what lookup finds for its pair |
| Index.OpenEvents | app.py:18-29 | the loop returns exactly `OpenSlots` of the first ten events, so at most ten |
| Index.OpenSlots | app.py:21-27 | each kept triple comes from an event whose deadline is set, parses and is after `now` |
| Index.OpenSlotsExactly | app.py:22-27 | an event's triple is kept if and only if the event is open |
| Index.IsOpen | app.py:23-26 | an open event has a set deadline of the form "YYYY-MM-DD HH:MM" |
| Index.OpenSlotsAscending | app.py:18-27 | the kept triples are in strictly ascending id order: an order-preserving subsequence |
| Index.OpenAtDeadline | app.py:26 | an event whose deadline equals `now` is closed (strict comparison) |
| Scoring.ResultIndex | app.py:148-151 | an id is indexed if and only if some event with that id has a result; the entry carries that event's round and result |
| Scoring.ResultIndexAt | app.py:150-151 | with unique ids, the entry of a resulted event is its own round and result |
| Scoring.ComputeScores | app.py:156-167 | users are exactly the players; each user's rounds are exactly those they played; each counter equals the number of correct predictions |
| Scoring.PlayersExactly | app.py:158-163 | a user is a player if and only if they have a prediction on a resulted event |
| Scoring.PlayedRoundsAttempts | app.py:162-165 | a round has a counter for a user if and only if they predicted a resulted event of it |
| Scoring.HitsAtMostAttempts | app.py:157-167 | a round's score never exceeds the predictions on resulted events of that round |
| Scoring.ScoreStep | app.py:157-167 | one more prediction adds its user as a player only when scored, and adds 1 to a counter only for a normalised match |
| Scoring.TallyScored | app.py:162-167 | the two `setdefault`s and the `+= 1` keep the counters equal to the counts |
| Scoring.UnresultedIgnoredPlayers | app.py:158 | dropping predictions on events without a result changes no player and no played round |
| Scoring.UnresultedIgnoredScores | app.py:158 | dropping predictions on events without a result changes no count |
| Scoring.SortRounds | app.py:145-146 | the rounds come out strictly ascending, and are exactly the given set |
| Scoring.SortNames | app.py:170 | the usernames come out strictly ascending, and are exactly the given set |
| Scoring.NamesAscendingDistinct | app.py:170 | usernames in strictly ascending order are pairwise different, so no user has two rows |
| Scoring.ScoreRow | app.py:171-177 | one entry per round, missing rounds count 0, and the total is their sum |
| Scoring.SumOfPoints | app.py:176 | the sum of a row's points is the user's correct count over the listed rounds |
| Scoring.HitsInIsAllHits | app.py:173-177 | over all rounds, ascending and without repeats, the total is the user's correct count |
| Scoring.RowOfScores | app.py:171-178 | a row built from the counters has each round's count and the sum as its total |
| Scoring.Leaderboard | app.py:145-178 | rounds are ascending and are exactly the events' rounds; rows are in ascending username order, one per player; each point is that round's correct count; the total is their sum and the user's whole correct count |
| Admin.Store.Submit | app.py:34-55 | an empty stripped nickname gives 400 with nothing changed; otherwise the pair (nickname, id) gets the filled value for each of the first ten ids, and every other lookup and the events are unchanged; one row per pair is kept |
| Admin.Store.SubmitEach | app.py:44-52 | the loop leaves the table `Submitted` describes |
| Admin.SubmittedLookup | app.py:44-52 | after the loop, a listed, filled pair of the user has the submitted value; every other lookup is as before |
| Admin.SubmittedUnique | db_init.py:27 | the loop keeps one row per (username, event_id) |
| Admin.ResubmitFails | app.py:44-52 | as written on PostgreSQL, a filled field for a pair already stored fails the whole request |
| Admin.InsertEachLookup | app.py:44-52 | as written, a request that succeeds stores each filled prediction |
| Admin.InsertEachAgrees | app.py:44-52 | where the code as written succeeds, it stores what the upsert stores |
| Admin.InsertEach | app.py:44-52 | as written, a request that succeeds only appends rows, each for this user and a listed event, no more rows than there are listed ids |
| Admin.RankedIdExactly | app.py:75-76 | with unique ids, the id at position m of the round's id list belongs exactly to the round's event of rank m |
| Admin.RankedId | app.py:75-76 | each event of the round is listed at its rank |
| Admin.Store.DefineEvents | app.py:67-89 | an unparsable round changes nothing; otherwise the redirect names the round, the table becomes `Defined`, the id sequence moves past the new events, and the predictions are unchanged |
| Admin.Store.ApplySlots | app.py:78-87 | the slot loop leaves `Defined` of the slots 1 to 10 |
| Admin.Store.ApplySlot | app.py:79-87 | slot i revises the i-th existing event, appends one event, or does nothing |
| Admin.DefinedAll | app.py:75-87 | position by position: events of other rounds and empty slots are kept; a filled slot revises teams and deadline only; extra filled slots append events of the round with fresh ids |
| Admin.DefinedValid | app.py:86-87 | the table stays in ascending id order, below the id sequence, and grows by the number of appended events |
| Admin.DefineRevised | app.py:81-84 | a filled slot with an existing event of that rank is an `UPDATE` of exactly that event |
| Admin.DefineInserted | app.py:85-87 | a filled slot past the existing events appends one event with the next id |
| Admin.DefineSkipped | app.py:81 | a slot without both teams changes nothing |
| Admin.UpdateTeams | app.py:83-84 | the events with the given id take the new teams and deadline; ids, rounds, results and every other event are kept |
| Admin.Store.EnterResults | app.py:91-102 | an unparsable round changes nothing; otherwise the table becomes `ResultsEntered` for every event of the round; the size, predictions and id sequence are unchanged |
| Admin.Store.EnterEach | app.py:95-100 | the loop leaves `ResultsEntered` for every event of the round |
| Admin.ResultsEntered | app.py:95-100 | only `result` changes; ids and rounds are kept position by position |
| Admin.ResultsEnteredAll | app.py:95-100 | position by position: the event of rank n of the round takes `result_{n+1}` exactly when it is filled; all others are unchanged |
| Admin.EnterFilled | app.py:98-100 | a filled result field is an `UPDATE` of exactly the event of that rank |
| Admin.EnterSkipped | app.py:99 | an empty result field changes nothing |
| Admin.UpdateResult | app.py:100 | the events with the given id take the new result; every other field and every other event is kept |
| Admin.ResultsEnteredTwice | app.py:91-100 | sending the same results form again changes nothing more |
| Admin.AdminPost | app.py:64-67 | any other form type writes nothing and shows the admin page; the tables stay valid |
| Results.GroupByRound | app.py:189-194 | the rounds are listed in order of first appearance; each round's list holds its rows' lines in row order |
| Results.RoundOrderExactly | app.py:190-192 | a round is listed if and only if some row has it |
| Results.GroupsPartitionRows | app.py:190-194 | the lists together hold exactly as many lines as there are rows |
| Results.Display | app.py:193 | the line is as long as home, " - ", away, a space and the result (if any) together |
| Results.DisplayLayout | app.py:193 | the line is the home team, " - ", the away team, a space, then the result, or nothing when there is none |
| Results.RoundOrderDescending | app.py:186-192 | rows ordered by round descending give strictly descending rounds |

## Left out

- Flask routing, redirects and `render_template` are not modelled. A handler's answer is the `Reply` datatype.
- The admin GET pre-fill (app.py:104-122) and the `pregled` page (app.py:124-136) only prepare views or run a join. They are not part of this model.
- psycopg2, SQL text, connections and transactions are not modelled. The tables are in-memory sequences, and each query is the function its `WHERE` and `ORDER BY` describe. The two exceptions are the rollback on an uncaught exception, modelled as "nothing changes", and the submit loop as written (see Findings).
- The rows of `SELECT username, event_id, prediction FROM predictions` and of the results-page query come in as parameters. The queries' row order is what the `ORDER BY` clauses give.
- `datetime.now()` is the parameter `now`.
- Deadline.ParseDeadline: accepts only the exact form "YYYY-MM-DD HH:MM" with zero-padded fields and one space. Python's `strptime` is more lenient, and that leniency is not modelled: it accepts one-digit months, days, hours and minutes, `%d` also takes a space-padded day (" 5"), and the format's space matches any run of whitespace, so "2024-05-01\t10:00" and "2024-05-01   10:00" are accepted there.
- Text.Normalize: `strip` and `upper` act on ASCII whitespace and ASCII letters only. Unicode case mapping and Unicode whitespace are not modelled.
- Text.ParseInt: reads whitespace, an optional sign and ASCII digits. Python's `int` also takes `_` separators and non-ASCII digits; those are not modelled.
- Concurrent requests are not modelled; each handler runs alone.
- Admin.AdminPost: its contract states only the fallback branch and that the tables stay valid. What the "events" and "results" branches do is stated by Admin.Store.DefineEvents and Admin.Store.EnterResults.
- `db_init.py` and `db_udapte.py` are not part of this model. The only fact carried over is the `UNIQUE(username, event_id)` constraint (db_init.py:27).
- Deadlines are not checked on submission, because the code does not check them: a prediction for a closed event is stored like any other.
- The leaderboard's rounds are the distinct rounds of all events (app.py:145), including rounds that have no result yet. A description of the site that lists only rounds with results disagrees; the model follows the code.
- Whitespace-only codes are stored as they are. A prediction or a result such as " " is a non-empty, truthy string, so the submit form (app.py:46) and the results form (app.py:99-100) both store it. It normalises to "" (app.py:141), so a stored result " " matches a stored prediction "   ", and any other prediction that normalises to "". The model follows the code: a field counts as filled when it is non-empty, and codes are compared after normalisation.

## Findings

| source | as written | input that shows it | evidently intended | confidence | as-written member | corrected member |
|---|---|---|---|---|---|---|
| app.py:44-52 | INSERT, and on any exception UPDATE on the same cursor; on PostgreSQL the failed INSERT aborts the transaction, so the UPDATE fails too and the request ends in an error with every insert of the request rolled back | a second submission by the same nickname with a filled field for an event it already predicted | insert-or-update: the new value replaces the old one and the other fields are stored | not executed | Admin.ResubmitFails | Tables.Upsert |
