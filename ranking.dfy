/**
 * The ranked listings built from `SELECT ... ORDER BY score DESC LIMIT n`,
 * and the two rules that turn a row into a displayed name: the web
 * leaderboard's and the chat leaderboard's.
 */
module Ranking {
  import opened Wrappers
  import opened Ledger
  import opened Decimal

  /**
   * A row of the query result. The query itself selects only the names and
   * the score; the key is kept here so that two rows with equal contents can
   * still be told apart.
   */
  datatype Row = Row(userId: int, record: Record)

  function Min(a: nat, b: nat): nat {
    if a < b then a else b
  }

  /** The keys of the listed rows. */
  function Ids(rows: seq<Row>): (ids: set<int>)
    ensures forall i :: 0 <= i < |rows| ==> rows[i].userId in ids
    ensures forall u :: u in ids ==> exists i :: 0 <= i < |rows| && rows[i].userId == u
  {
    set i | 0 <= i < |rows| :: rows[i].userId
  }

  /** Listing one more row adds its key. */
  lemma IdsAppend(rows: seq<Row>, r: Row)
    ensures Ids(rows + [r]) == Ids(rows) + {r.userId}
  {
    var ext := rows + [r];
    assert ext[|rows|] == r;
    forall u | u in Ids(rows)
      ensures u in Ids(ext)
    {
      var i :| 0 <= i < |rows| && rows[i].userId == u;
      assert ext[i] == rows[i];
    }
  }

  /** Taking one more key out of a set difference. */
  lemma RemoveOneMore(all: set<int>, taken: set<int>, u: int)
    ensures all - (taken + {u}) == (all - taken) - {u}
  {
  }

  /**
   * `rows` lists distinct rows of `t` by non-increasing score, and no row
   * left out scores above a listed one.
   */
  ghost predicate RankedPrefix(t: Table, rows: seq<Row>) {
    && (forall i :: 0 <= i < |rows| ==> rows[i].userId in t && t[rows[i].userId] == rows[i].record)
    && (forall i, j :: 0 <= i < j < |rows| ==> rows[i].userId != rows[j].userId)
    && (forall i, j :: 0 <= i < j < |rows| ==> rows[j].record.score <= rows[i].record.score)
    && (forall u, i :: u in t && u !in Ids(rows) && 0 <= i < |rows| ==> t[u].score <= rows[i].record.score)
  }

  /**
   * `rows` is a possible result of `ORDER BY score DESC LIMIT limit` on `t`:
   * as many rows as the limit allows, ranked as above. The order among
   * equal scores is left open, as SQL leaves it.
   */
  ghost predicate IsRanking(t: Table, rows: seq<Row>, limit: nat) {
    |rows| == Min(limit, |t|) && RankedPrefix(t, rows)
  }

  /**
   * Appending a highest-scoring row among those not yet listed keeps the
   * listing ranked.
   */
  lemma RankedPrefixExtend(t: Table, rows: seq<Row>, u: int)
    requires RankedPrefix(t, rows)
    requires u in t && u !in Ids(rows)
    requires forall v :: v in t && v !in Ids(rows) ==> t[v].score <= t[u].score
    ensures RankedPrefix(t, rows + [Row(u, t[u])])
  {
    var row := Row(u, t[u]);
    var ext := rows + [row];
    IdsAppend(rows, row);
    forall i, j | 0 <= i < j < |ext|
      ensures ext[i].userId != ext[j].userId
      ensures ext[j].record.score <= ext[i].record.score
    {
      assert ext[i] == rows[i];
      if j == |rows| {
        assert rows[i].userId in Ids(rows);
      } else {
        assert ext[j] == rows[j];
      }
    }
    forall v, i | v in t && v !in Ids(ext) && 0 <= i < |ext|
      ensures t[v].score <= ext[i].record.score
    {
      if i < |rows| {
        assert ext[i] == rows[i];
      }
    }
  }

  /** A non-empty set of keys has a member. */
  lemma NonEmptyHasMember(keys: set<int>)
    requires keys != {}
    ensures exists u :: u in keys
  {
    if forall u :: u !in keys {
      assert false;
    }
  }

  /** Every non-empty set of keys has a key whose score no other key in it exceeds. */
  lemma {:induction false} MaxScoreExists(t: Table, keys: set<int>)
    requires keys != {} && keys <= t.Keys
    ensures exists u :: u in keys && forall v :: v in keys ==> t[v].score <= t[u].score
    decreases |keys|
  {
    NonEmptyHasMember(keys);
    var x :| x in keys;
    var rest := keys - {x};
    var best := x;
    if rest != {} {
      MaxScoreExists(t, rest);
      var m :| m in rest && forall v :: v in rest ==> t[v].score <= t[m].score;
      if t[x].score <= t[m].score {
        best := m;
      }
    }
    forall v | v in keys
      ensures t[v].score <= t[best].score
    {
      if v != x {
        assert v in rest;
      }
    }
    assert best in keys;
  }

  /** A subset has no more members than its superset. */
  lemma {:induction false} SubsetCardinality(a: set<int>, b: set<int>)
    requires a <= b
    ensures |a| <= |b|
    decreases |a|
  {
    if a != {} {
      NonEmptyHasMember(a);
      var x :| x in a;
      SubsetCardinality(a - {x}, b - {x});
    }
  }

  /** A listing has at most as many keys as rows, and exactly as many when its keys are distinct. */
  lemma {:induction false} IdsCardinality(rows: seq<Row>)
    ensures |Ids(rows)| <= |rows|
    ensures (forall i, j :: 0 <= i < j < |rows| ==> rows[i].userId != rows[j].userId) ==>
      |Ids(rows)| == |rows|
    decreases |rows|
  {
    if rows != [] {
      var init := rows[..|rows| - 1];
      var last := rows[|rows| - 1];
      assert rows == init + [last];
      IdsAppend(init, last);
      IdsCardinality(init);
      if forall i, j :: 0 <= i < j < |rows| ==> rows[i].userId != rows[j].userId {
        assert last.userId !in Ids(init);
      }
    }
  }

  /** A row among the first `i + 1` of a ranked listing scores at least as much as place `i`. */
  lemma ListedAboveScoresHigh(t: Table, a: seq<Row>, i: nat, x: int)
    requires RankedPrefix(t, a)
    requires i < |a| && x in Ids(a[..i + 1])
    ensures x in t && t[x].score >= a[i].record.score
  {
  }

  /**
   * A row of the table scoring above place `i` of a ranked listing is
   * listed, and above place `i`.
   */
  lemma HigherIsListedAbove(t: Table, b: seq<Row>, i: nat, x: int)
    requires RankedPrefix(t, b)
    requires i < |b| && x in t && t[x].score > b[i].record.score
    ensures x in Ids(b[..i])
  {
  }

  /**
   * Position `i` of one ranking cannot score above position `i` of another
   * ranking of the same table: the `i + 1` rows above would all have to sit
   * in the `i` places above `i` in the other.
   */
  lemma RankedPositionBound(t: Table, a: seq<Row>, b: seq<Row>, i: nat)
    requires RankedPrefix(t, a) && RankedPrefix(t, b)
    requires i < |a| && i < |b|
    ensures a[i].record.score <= b[i].record.score
  {
    if a[i].record.score > b[i].record.score {
      var above := Ids(a[..i + 1]);
      var places := Ids(b[..i]);
      forall x | x in above
        ensures x in places
      {
        ListedAboveScoresHigh(t, a, i, x);
        HigherIsListedAbove(t, b, i, x);
      }
      IdsCardinality(a[..i + 1]);
      IdsCardinality(b[..i]);
      SubsetCardinality(above, places);
    }
  }

  /**
   * Equal scores may be listed in any order, but every ranking of the same
   * table with the same limit lists the same scores at the same positions.
   */
  lemma RankingScoresAgree(t: Table, r1: seq<Row>, r2: seq<Row>, limit: nat)
    requires IsRanking(t, r1, limit) && IsRanking(t, r2, limit)
    ensures |r1| == |r2|
    ensures forall i :: 0 <= i < |r1| ==> r1[i].record.score == r2[i].record.score
  {
    forall i | 0 <= i < |r1|
      ensures r1[i].record.score == r2[i].record.score
    {
      RankedPositionBound(t, r1, r2, i);
      RankedPositionBound(t, r2, r1, i);
    }
  }

  /** Python truthiness of an optional string: present and non-empty. */
  predicate Truthy(o: Option<string>) {
    o.Some? && o.value != ""
  }

  /** `f'Player {i}'`, the name shown when a row carries no usable name. */
  function Placeholder(rank: nat): (name: string)
    ensures |name| > 7 && name[..7] == "Player "
    ensures AllDigits(name[7..]) && ParseNat(name[7..]) == rank
  {
    ParseNatToString(rank);
    assert ("Player " + NatToString(rank))[7..] == NatToString(rank);
    "Player " + NatToString(rank)
  }

  /** Placeholders of different ranks are different names. */
  lemma PlaceholderInjective(i: nat, j: nat)
    requires Placeholder(i) == Placeholder(j)
    ensures i == j
  {
  }

  /**
   * The web leaderboard's `first_name or username or f'Player {i}'`: never
   * empty; the first name when it is non-empty, else the username when it is
   * non-empty, else the placeholder of the rank.
   */
  function DisplayName(firstName: Option<string>, username: Option<string>, rank: nat): (name: string)
    ensures |name| > 0
    ensures Truthy(firstName) ==> name == firstName.value
    ensures !Truthy(firstName) && Truthy(username) ==> name == username.value
    ensures !Truthy(firstName) && !Truthy(username) ==> name == Placeholder(rank)
  {
    if Truthy(firstName) then firstName.value
    else if Truthy(username) then username.value
    else Placeholder(rank)
  }

  /** The chat leaderboard shows a first name unless it is empty or one of the two test names. */
  predicate ShowsFirstName(firstName: Option<string>) {
    Truthy(firstName) && firstName.value != "Player" && firstName.value != "Test Player"
  }

  /**
   * The chat leaderboard's name: never empty and never one of the two test
   * names; the first name when it is shown, else `@` and the username when
   * that is non-empty, else the placeholder of the rank.
   */
  function ChatName(firstName: Option<string>, username: Option<string>, rank: nat): (name: string)
    ensures |name| > 0
    ensures name != "Player" && name != "Test Player"
    ensures ShowsFirstName(firstName) ==> name == firstName.value
    ensures !ShowsFirstName(firstName) && Truthy(username) ==> name == "@" + username.value
    ensures !ShowsFirstName(firstName) && !Truthy(username) ==> name == Placeholder(rank)
  {
    if ShowsFirstName(firstName) then firstName.value
    else if Truthy(username) then
      var name := "@" + username.value;
      assert name[0] == '@';
      name
    else
      var name := Placeholder(rank);
      assert name[..7] == "Player ";
      name
  }

  /**
   * The two listings agree on a shown first name; without a first name the
   * chat adds `@` to the username; a test first name is shown on the web
   * but replaced in the chat.
   */
  lemma ChatNameVersusDisplayName(firstName: Option<string>, username: Option<string>, rank: nat)
    ensures ShowsFirstName(firstName) ==>
      ChatName(firstName, username, rank) == DisplayName(firstName, username, rank)
    ensures !Truthy(firstName) && Truthy(username) ==>
      ChatName(firstName, username, rank) == "@" + DisplayName(firstName, username, rank)
    ensures Truthy(firstName) && !ShowsFirstName(firstName) ==>
      ChatName(firstName, username, rank) != DisplayName(firstName, username, rank)
  {
  }

  /** Gold, silver and bronze for ranks 1 to 3, nothing below. */
  function Medal(rank: nat): (m: string)
    ensures m != "" <==> 1 <= rank <= 3
  {
    if rank == 1 then "\U{1F947} "
    else if rank == 2 then "\U{1F948} "
    else if rank == 3 then "\U{1F949} "
    else ""
  }

  /** The three medals are different. */
  lemma MedalsDistinct(i: nat, j: nat)
    requires 1 <= i <= 3 && 1 <= j <= 3 && i != j
    ensures Medal(i) != Medal(j)
  {
  }

  /** One entry of the web leaderboard. */
  datatype Entry = Entry(rank: nat, name: string, score: int)

  function HttpEntry(rank: nat, row: Row): Entry {
    Entry(rank, DisplayName(row.record.firstName, row.record.username, rank), row.record.score)
  }

  /** The web leaderboard for a query result: its rows numbered from 1. */
  function HttpBoard(rows: seq<Row>): (board: seq<Entry>)
    ensures |board| == |rows|
    ensures forall i :: 0 <= i < |rows| ==> board[i] == HttpEntry(i + 1, rows[i])
  {
    seq(|rows|, i requires 0 <= i < |rows| => HttpEntry(i + 1, rows[i]))
  }

  /**
   * The web leaderboard of a ranking: at most `limit` entries, empty only
   * for an empty table, ranks 1, 2, ... in order, scores non-increasing,
   * names never empty, and every score that of the listed row of the table.
   */
  lemma HttpBoardOfRanking(t: Table, rows: seq<Row>, limit: nat)
    requires IsRanking(t, rows, limit)
    ensures var board := HttpBoard(rows);
      && |board| <= limit
      && (board == [] <==> limit == 0 || |t| == 0)
      && (forall i :: 0 <= i < |board| ==> board[i].rank == i + 1 && |board[i].name| > 0)
      && (forall i, j :: 0 <= i < j < |board| ==> board[j].score <= board[i].score)
      && (forall i :: 0 <= i < |board| ==>
            rows[i].userId in t && board[i].score == t[rows[i].userId].score)
  {
  }

  /**
   * Two web leaderboards of the same table agree on their length, ranks and
   * scores; only the names of tied rows may trade places.
   */
  lemma HttpBoardScoresDetermined(t: Table, r1: seq<Row>, r2: seq<Row>, limit: nat)
    requires IsRanking(t, r1, limit) && IsRanking(t, r2, limit)
    ensures |HttpBoard(r1)| == |HttpBoard(r2)|
    ensures forall i :: 0 <= i < |HttpBoard(r1)| ==>
      HttpBoard(r1)[i].rank == HttpBoard(r2)[i].rank && HttpBoard(r1)[i].score == HttpBoard(r2)[i].score
  {
    RankingScoresAgree(t, r1, r2, limit);
  }

  /** One line of the chat leaderboard: medal, rank, name in bold, score in code. */
  function ChatLine(rank: nat, row: Row): (line: string)
  {
    Medal(rank) + NatToString(rank) + RankMark
      + ChatName(row.record.firstName, row.record.username, rank)
      + ScoreMark + IntToString(row.record.score) + PointsMark
  }

  /** The fixed pieces of a chat line, between the rank, the name and the score. */
  const RankMark := ". *"
  const ScoreMark := "*: `"
  const PointsMark := "` points\n"

  /**
   * A chat line can be cut back into its parts: the medal, the rank's
   * numeral, the name between `*`s and the score's numeral between backquotes.
   */
  lemma ChatLineParts(rank: nat, row: Row, m: string, n: string, name: string, score: string)
    requires m == Medal(rank) && n == NatToString(rank)
    requires name == ChatName(row.record.firstName, row.record.username, rank)
    requires score == IntToString(row.record.score)
    ensures var line := ChatLine(rank, row);
            var a := |m| + |n| + |RankMark|;
            var b := a + |name|;
            var c := b + |ScoreMark| + |score|;
            && |line| == c + |PointsMark|
            && line[..|m|] == m
            && AllDigits(line[|m|..|m| + |n|]) && ParseNat(line[|m|..|m| + |n|]) == rank
            && line[|m| + |n|..a] == RankMark
            && line[a..b] == name
            && line[b..b + |ScoreMark|] == ScoreMark
            && line[b + |ScoreMark|..c] == score
            && line[c..] == PointsMark
  {
    LineParts(m, n, RankMark, name, ScoreMark, score, PointsMark);
    ParseNatToString(rank);
  }

  /** Where each of seven concatenated strings sits in the result. */
  lemma LineParts(m: string, n: string, p: string, name: string, q: string, score: string, r: string)
    ensures var line := m + n + p + name + q + score + r;
            var a := |m| + |n| + |p|;
            var b := a + |name|;
            && |line| == b + |q| + |score| + |r|
            && line[..|m|] == m
            && line[|m|..|m| + |n|] == n
            && line[|m| + |n|..a] == p
            && line[a..b] == name
            && line[b..b + |q|] == q
            && line[b + |q|..b + |q| + |score|] == score
            && line[b + |q| + |score|..] == r
  {
  }

  /** The lines for `rows`, ranks counted from 1, in order. */
  function ChatLines(rows: seq<Row>): string
    decreases |rows|
  {
    if rows == [] then "" else ChatLines(rows[..|rows| - 1]) + ChatLine(|rows|, rows[|rows| - 1])
  }

  /** The lines of a longer prefix extend those of the shorter one by one line. */
  lemma ChatLinesSnoc(rows: seq<Row>, i: nat)
    requires i < |rows|
    ensures ChatLines(rows[..i + 1]) == ChatLines(rows[..i]) + ChatLine(i + 1, rows[i])
  {
    assert rows[..i + 1][..i] == rows[..i];
  }

  /** String concatenation is associative. */
  lemma ConcatAssoc(a: string, b: string, c: string)
    ensures (a + b) + c == a + (b + c)
  {
  }

  const ChatHeader: string := "\U{1F3C6} *Space Jump Leaderboard* \U{1F680}\n\n"
  const ChatFooter: string := "\nPlay now to climb the ranks! \U{1F3AE}"
  const NoScoresTitle: string := "\U{1F3C6} *No scores yet!*"
  const NoScoresText: string := NoScoresTitle + "\n\nBe the first to play and claim the top spot! \U{1F680}"

  /** A reply that starts with the leaderboard header is never the "no scores" reply. */
  lemma HeaderIsNotNoScores(rest: string)
    ensures ChatHeader + rest != NoScoresText
  {
    assert (ChatHeader + rest)[3] == ChatHeader[3] == 'S';
    assert NoScoresText[3] == 'N';
  }

  /** The chat reply for a query result. */
  function ChatText(rows: seq<Row>): (text: string)
    ensures text == NoScoresText <==> rows == []
  {
    if rows == [] then NoScoresText
    else
      HeaderIsNotNoScores(ChatLines(rows) + ChatFooter);
      ConcatAssoc(ChatHeader, ChatLines(rows), ChatFooter);
      ChatHeader + ChatLines(rows) + ChatFooter
  }
}
