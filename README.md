# Space Jump score ledger

A Dafny model of the score ledger inside `bot.py` of the Space Jump companion
service. The service keeps one SQLite table, `scores`, with one row per
`user_id` holding `username`, `first_name`, `score` (the best score so far)
and `games_played`. Four handlers use it:

- `POST /api/score` (`save_score`) validates the JSON body, reads the user's
  row, and then inserts a new row, raises the stored score, or only counts
  the game. It answers with one of three messages.
- `GET /api/leaderboard` (`get_leaderboard`) lists the top ten rows by
  score, numbered from 1, each with a display name.
- `GET /api/user_stats/<user_id>` (`get_user_stats`) returns the stored
  score and play count of one user, or "User not found".
- The chat command `/leaderboard` (`show_leaderboard`) lists the top five
  rows as text, with its own name rule and medals for ranks 1 to 3.

The model has six modules:

- `Wrappers` (`wrappers.dfy`): `Option` and `Result`.
- `Decimal` (`decimal.dfy`): how Python's `f'{i}'` renders an integer. Reading
  the numeral back gives the number, so numerals of distinct numbers differ.
- `Ledger` (`ledger.dfy`): the table as a `map<int, Record>`. `Submit` is one
  accepted submission as a function on table values. `Replay` applies a
  history of submissions. The lemmas say that, after any history, the stored
  score is the maximum submitted and `games_played` is the number of
  submissions.
- `Requests` (`requests.dfy`): which JSON bodies the handler refuses with
  400. The JSON object is modelled key by key (missing, `null`, or a value)
  so that Python's truthiness of `{}`, of a missing key and of `user_id = 0`
  is explicit. `HandleSave` is the whole handler on a table value. `Serve`
  applies a history of requests.
- `Ranking` (`ranking.dfy`): `IsRanking` states what
  `ORDER BY score DESC LIMIT n` may return. It also holds the two name rules,
  the medals, the web entries and the chat text.
- `ScoreStore` (`score_store.dfy`): the class `ScoreLedger`. It holds the
  mutable table, and each handler is a method on it. `SaveScore` updates the
  map in place. `TopRows` runs the ordered query as a selection loop.
  `GetLeaderboard` and `ShowLeaderboard` build their results in loops, as the
  Python `for` loops do. `GetUserStats` is the point lookup.

Tie order: SQL leaves the order of rows with equal scores open. `TopRows`
picks any remaining row with the highest score, and `IsRanking` only requires
non-increasing scores. `RankingScoresAgree` proves that every ranking of the
same table lists the same scores at the same positions. Only tied rows can
trade places.

Three behaviours of `bot.py` are easy to overlook, and the model keeps them:

- A submission that does not beat the stored score leaves `username` and
  `first_name` unchanged. Only a new high score refreshes them
  (`bot.py` lines 82-86).
- The stats reply holds only `score` and `games_played`, with no rank or
  player count (`bot.py` lines 140-143).
- The web display name tests `first_name` by Python truthiness, so an empty
  string falls through to the username (`bot.py` line 115).

## Model

| member | source | states |
|---|---|---|
| `ScoreStore.ScoreLedger.constructor` | bot.py:34-42 | a fresh database starts with an empty `scores` table |
| `ScoreStore.ScoreLedger.SaveScore` | bot.py:49-97 | the new table and the reply are those of `HandleSave`; every row keeps `games_played >= 1`; a refused or preflight request leaves the table unchanged; an accepted one leaves every other user's row unchanged |
| `Requests.Validate` | bot.py:54-64 | a `null` or other falsy JSON payload, or the empty object `{}`, gives "No data provided"; otherwise the body is accepted if and only if `user_id` is given and non-zero and `score` is given; the names are passed on as sent, with missing and `null` both read as `None` |
| `Requests.Get` | bot.py:58-61 | `data.get(key)` returns the value exactly when the key holds one; a missing key and `null` both read as `None` |
| `Requests.RejectionMessage` | bot.py:55-64 | every refusal carries a non-empty error message |
| `Requests.StatusCode` | bot.py:54-97 | the status is 400 exactly for a refused body and 200 for the preflight and for every saved score |
| `Requests.HandleSave` | bot.py:49-97 | a reply is "saved" if and only if the request is a POST with a valid body; `OPTIONS` answers the preflight; only a saved request changes the table, and then exactly as `Submit` does |
| `Requests.ServeIsReplay` | bot.py:49-97 | serving any sequence of requests leaves the same table as replaying only the accepted submissions, in order |
| `Requests.ServedStats` | bot.py:130-145 | from an empty table, after any request history, a user is found if and only if some request of theirs was accepted; the stats are then the best accepted score and the number of accepted submissions |
| `Requests.NoRowZero` | bot.py:63-64 | since `user_id = 0` is falsy and refused, no request ever creates a row for user 0 |
| `Ledger.Submit` | bot.py:69-93 | an unseen user gets exactly one new row with the sent names and score, played once, and the outcome is "first score"; a known user's score becomes the maximum of old and new and `games_played` grows by one; the names change if and only if the score was higher ("new high score"), otherwise they are kept ("not a high score"); no other row changes and no row disappears |
| `Ledger.SubmitWellFormed` | bot.py:36-93 | a submission keeps `games_played >= 1` in every row |
| `Ledger.OutcomeMessage` | bot.py:73-93 | each outcome has a non-empty success message |
| `Ledger.OutcomeMessageInjective` | bot.py:80-93 | the three success messages are distinct, so the client can tell the branches apart |
| `Ledger.Replay` | bot.py:70-95 | a history of submissions never removes a row |
| `Ledger.ReplayRecord` | bot.py:70-93 | after any history, a user has a row if and only if they had one or submitted; a user who did not submit keeps their row unchanged; otherwise the stored score is the maximum of the old score and all submitted scores, and `games_played` grew by exactly the number of submissions |
| `Ledger.ReplayNeverLowers` | bot.py:73-86 | along any history the stored score and the play count of an existing user never decrease |
| `Ledger.Lookup` | bot.py:136-145 | the lookup finds a user if and only if they have a row, and then returns exactly the stored score and play count |
| `Ledger.HistoryStats` | bot.py:136-145 | from an empty table, after any history of submissions, the lookup returns the best submitted score and the number of submissions, or not-found for a user who never submitted |
| `ScoreStore.ScoreLedger.GetUserStats` | bot.py:130-145 | returns the stored score and play count, or not-found without a row; a found user has played at least once |
| `ScoreStore.ScoreLedger.TopRows` | bot.py:109-110 | the rows returned are a possible result of `ORDER BY score DESC LIMIT n`, so `IsRanking` holds |
| `Ranking.MaxScoreExists` | bot.py:109 | every non-empty set of rows has one whose score none of the others exceeds |
| `Ranking.RankedPrefixExtend` | bot.py:109 | appending a highest-scoring unlisted row keeps a listing ranked |
| `Ranking.RankedPositionBound` | bot.py:109 | a position in one ranking never scores above the same position in another ranking of the same table |
| `Ranking.RankingScoresAgree` | bot.py:109 | any two rankings of the same table under the same limit have the same length and the same score at every position; ties only reorder rows |
| `ScoreStore.ScoreLedger.GetLeaderboard` | bot.py:105-122 | at most 10 entries; empty if and only if the table is empty; ranks 1, 2, ... in order; scores non-increasing; names never empty; the entries are the numbered rows of some ranking of the table |
| `Ranking.HttpBoard` | bot.py:113-120 | the web leaderboard has one entry per row, numbered from 1, with the row's score and display name |
| `Ranking.HttpBoardOfRanking` | bot.py:109-122 | for a ranking: at most `limit` entries, empty only for an empty table or a zero limit, ranks in order, scores non-increasing, names non-empty, each score that of its listed row |
| `Ranking.HttpBoardScoresDetermined` | bot.py:109-122 | two web leaderboards of the same table have the same length, ranks and scores |
| `Ranking.DisplayName` | bot.py:115 | the web name is never empty: the first name if non-empty, else the username if non-empty, else `Player {rank}` |
| `Ranking.Placeholder` | bot.py:115 | the placeholder is `Player ` followed by a numeral, and reading that numeral back gives the rank |
| `Ranking.PlaceholderInjective` | bot.py:115 | placeholders of different ranks are different names |
| `Ranking.ChatName` | bot.py:219-225 | the chat name is never empty and never `Player` or `Test Player`; it is the first name unless that is empty or one of those two, else `@` and the username if non-empty, else `Player {rank}` |
| `Ranking.ChatNameVersusDisplayName` | bot.py:219-225 | the two rules agree on a shown first name; without a first name the chat adds `@` to the username; a test first name is shown on the web and replaced in the chat |
| `Ranking.Medal` | bot.py:227-231 | a medal is shown if and only if the rank is 1, 2 or 3 |
| `Ranking.MedalsDistinct` | bot.py:227-231 | the three medals differ |
| `Ranking.ChatLineParts` | bot.py:218-233 | a chat line cuts back into its parts: the medal of its rank (none after rank 3), a numeral that reads back as the rank, `. *`, the chat name, `*: `, the score's numeral between backquotes, and ` points` with a newline |
| `Ranking.LineParts` | bot.py:233 | each part of the line's f-string sits at the offset given by the lengths of the parts before it |
| `Ranking.ChatText` | bot.py:209-235 | the reply is the "no scores yet" message if and only if no rows were listed |
| `ScoreStore.ScoreLedger.ShowLeaderboard` | bot.py:201-235 | the reply is the "no scores yet" message if and only if the table is empty; otherwise it is the header, one line per row of a top-5 ranking (medal, rank, name, score) and the footer |
| `Decimal.NatToString` | bot.py:115 | the rendered rank is non-empty, all digits, and has no leading zero |
| `Decimal.ParseNatToString` | bot.py:115 | reading a rendered number back gives the number |
| `Decimal.NatToStringInjective` | bot.py:115 | distinct numbers render differently |
| `Decimal.IntToString` | bot.py:233 | a score renders as digits, with a leading `-` if and only if it is negative |
| `Decimal.IntToStringRoundTrip` | bot.py:233 | reading a rendered score back gives the score |

## Left out

- SQLite connections, commits, the file location and the schema DDL. The table is an in-memory map. Durability and the storage faults that answer 500 (the `except Exception` paths) are not modelled.
- `ScoreStore.ScoreLedger.constructor`: models `init_db` on a fresh database only. `CREATE TABLE IF NOT EXISTS` on an existing file keeps its rows, and the model does not cover that case.
- Flask routing, the CORS `after_request` hook and JSON serialisation. The reply is a value (`Response`, `Entry`, `Stats`) and a status code.
- JSON decoding. A request with no body, or one sent without a JSON `Content-Type`, makes `request.get_json()` raise, and the `except` at `bot.py` lines 99-101 answers 500. A body that is not valid JSON, or a truthy JSON value that is not an object (such as `[1]`), makes Flask or `data.get` raise. The handler then answers 500, and the model does not cover that path. `null` and the other falsy payloads are the `None` body.
- Python dynamic typing. `user_id` and `score` are integers and the names are strings. A string or float score, or a `True` user id, is not modelled.
- Integer width. Python and the model use unbounded integers. SQLite rejects a `user_id` or `score` beyond 64 bits with an error (a 500), and the model does not capture that limit.
- Flask's `<int:user_id>` converter matches only non-negative ids. `GetUserStats` accepts any integer.
- Concurrency. Flask serves requests on its own thread, and the chat bot runs alongside it. Each handler is one atomic method here, so interleavings of the read-decide-write in `save_score` are not modelled.
- The chat layer around `show_leaderboard` is not modelled: Telegram handlers, keyboards, Markdown parsing, and the welcome, help and rate texts. Only the reply text is modelled, and its Markdown is not interpreted.
- Environment and `.env` loading, logging, and process and thread start-up (`main`, `run_flask`, `run_polling`).
- `Space Runner/bot.py` (a variant that also tracks `last_played`, lists 20 rows and reports a rank) is not part of this model.
