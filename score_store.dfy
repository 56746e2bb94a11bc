/**
 * The score store as the service runs it: one mutable `scores` table shared
 * by the score endpoint, the web leaderboard, the stats endpoint and the
 * chat leaderboard. Each handler reads the table, and only the score
 * endpoint writes it, one row per call.
 */
module ScoreStore {
  import opened Wrappers
  import opened Ledger
  import opened Requests
  import opened Ranking

  /** Rows in the web leaderboard (`LIMIT 10`). */
  const HttpLimit: nat := 10

  /** Rows in the chat leaderboard (`LIMIT 5`). */
  const ChatLimit: nat := 5

  class ScoreLedger {
    /** The `scores` table. */
    var table: Table

    ghost predicate Valid()
      reads this
    {
      WellFormed(table)
    }

    /** `init_db` on a fresh database: the table exists and holds no rows. */
    constructor ()
      ensures Valid() && table == map[]
    {
      table := map[];
    }

    /**
     * `POST /api/score` (and its `OPTIONS` preflight): validate the body,
     * read the user's row, then insert a new row or update that row.
     */
    method SaveScore(req: Request) returns (resp: Response)
      requires Valid()
      modifies this
      ensures Valid()
      ensures table == HandleSave(old(table), req).table
      ensures resp == HandleSave(old(table), req).response
      ensures !resp.Saved? ==> table == old(table)
      ensures resp.Saved? ==> forall u :: u in old(table) && u != Validate(req.body).value.userId ==>
        u in table && table[u] == old(table)[u]
    {
      if req.verb == Options {
        return Preflight;
      }
      var v := Validate(req.body);
      if v.Err? {
        return Rejected(v.error);
      }
      var s := v.value;
      if s.userId in table {
        var existing := table[s.userId];
        if s.score > existing.score {
          table := table[s.userId := Record(s.username, s.firstName, s.score, existing.gamesPlayed + 1)];
          resp := Saved(NewHighScore);
        } else {
          table := table[s.userId := existing.(gamesPlayed := existing.gamesPlayed + 1)];
          resp := Saved(NotHighScore);
        }
      } else {
        table := table[s.userId := Record(s.username, s.firstName, s.score, 1)];
        resp := Saved(FirstScore);
      }
    }

    /**
     * `SELECT ... FROM scores ORDER BY score DESC LIMIT limit`: repeatedly
     * take a remaining row with the highest score. Which of several rows with
     * equal scores comes first is not determined.
     */
    method TopRows(limit: nat) returns (rows: seq<Row>)
      ensures IsRanking(table, rows, limit)
    {
      var t := table;
      rows := [];
      var remaining := t.Keys;
      assert |remaining| == |t|;
      while |rows| < limit && remaining != {}
        invariant remaining == t.Keys - Ids(rows)
        invariant |rows| <= limit
        invariant |remaining| + |rows| == |t|
        invariant RankedPrefix(t, rows)
        decreases |remaining|
      {
        MaxScoreExists(t, remaining);
        var u :| u in remaining && forall v :: v in remaining ==> t[v].score <= t[u].score;
        var row := Row(u, t[u]);
        RankedPrefixExtend(t, rows, u);
        IdsAppend(rows, row);
        RemoveOneMore(t.Keys, Ids(rows), u);
        rows := rows + [row];
        remaining := remaining - {u};
      }
    }

    /** `GET /api/leaderboard`: the top ten rows numbered from 1 with their display names. */
    method GetLeaderboard() returns (board: seq<Entry>)
      ensures |board| <= HttpLimit
      ensures board == [] <==> |table| == 0
      ensures forall i :: 0 <= i < |board| ==> board[i].rank == i + 1 && |board[i].name| > 0
      ensures forall i, j :: 0 <= i < j < |board| ==> board[j].score <= board[i].score
      ensures exists rows :: IsRanking(table, rows, HttpLimit) && board == HttpBoard(rows)
    {
      var rows := TopRows(HttpLimit);
      board := [];
      var i := 0;
      while i < |rows|
        invariant 0 <= i <= |rows|
        invariant |board| == i
        invariant forall k :: 0 <= k < i ==> board[k] == HttpEntry(k + 1, rows[k])
      {
        board := board + [HttpEntry(i + 1, rows[i])];
        i := i + 1;
      }
      assert board == HttpBoard(rows);
      HttpBoardOfRanking(table, rows, HttpLimit);
    }

    /** `GET /api/user_stats/<user_id>`: the stored score and play count, or not found. */
    method GetUserStats(userId: int) returns (r: Option<Stats>)
      requires Valid()
      ensures r == Lookup(table, userId)
      ensures r.Some? ==> r.value.gamesPlayed >= 1
    {
      if userId in table {
        r := Some(Stats(table[userId].score, table[userId].gamesPlayed));
      } else {
        r := None;
      }
    }

    /**
     * The chat `/leaderboard` reply: the "no scores" message for an empty
     * table, otherwise a header, one line per top-five row and a footer.
     */
    method ShowLeaderboard() returns (text: string)
      ensures text == NoScoresText <==> |table| == 0
      ensures exists rows :: IsRanking(table, rows, ChatLimit) && text == ChatText(rows)
    {
      var rows := TopRows(ChatLimit);
      if rows == [] {
        return NoScoresText;
      }
      text := ChatHeader;
      var i := 0;
      while i < |rows|
        invariant 0 <= i <= |rows|
        invariant text == ChatHeader + ChatLines(rows[..i])
      {
        var line := ChatLine(i + 1, rows[i]);
        ChatLinesSnoc(rows, i);
        ConcatAssoc(ChatHeader, ChatLines(rows[..i]), line);
        text := text + line;
        i := i + 1;
      }
      assert rows[..i] == rows;
      text := text + ChatFooter;
    }
  }
}
