/**
 * The `scores` table and what one accepted score submission does to it.
 *
 * The table has one row per `user_id` (its primary key) with the columns
 * `username`, `first_name`, `score` (the best score so far) and
 * `games_played`. A submission reads the row of its user, decides, and then
 * either inserts a new row or updates that one row.
 */
module Ledger {
  import opened Wrappers

  /** One row of `scores`, without its key. A `None` name is a SQL `NULL`. */
  datatype Record = Record(
    username: Option<string>,
    firstName: Option<string>,
    score: int,
    gamesPlayed: nat)

  /** The `scores` table, keyed by `user_id`. */
  type Table = map<int, Record>

  /** A submission that passed request validation. */
  datatype Submission = Submission(
    userId: int,
    username: Option<string>,
    firstName: Option<string>,
    score: int)

  /** Which of the three branches of the read-decide-write was taken. */
  datatype Outcome = FirstScore | NewHighScore | NotHighScore

  /** The message returned to the game client for each outcome. */
  function OutcomeMessage(o: Outcome): (m: string)
    ensures |m| > 0
  {
    match o
    case FirstScore => "First score saved!"
    case NewHighScore => "New high score saved!"
    case NotHighScore => "Score updated (not a high score)"
  }

  /** The three messages are distinct, so the client can tell the branches apart. */
  lemma OutcomeMessageInjective(o: Outcome, o': Outcome)
    requires OutcomeMessage(o) == OutcomeMessage(o')
    ensures o == o'
  {
  }

  function Max(a: int, b: int): int {
    if a < b then b else a
  }

  /** Every stored row has been played at least once. */
  ghost predicate WellFormed(t: Table) {
    forall u :: u in t ==> t[u].gamesPlayed >= 1
  }

  /** The table after a submission, and the branch that produced it. */
  datatype Step = Step(table: Table, outcome: Outcome)

  /**
   * One accepted submission: an unseen user gets a fresh row played once; a
   * higher score replaces the score and both names; any other score only
   * counts the game. No other row is touched and no row is removed.
   */
  function Submit(t: Table, s: Submission): (r: Step)
    ensures r.table.Keys == t.Keys + {s.userId}
    ensures forall u :: u in t && u != s.userId ==> r.table[u] == t[u]
    ensures r.outcome == FirstScore <==> s.userId !in t
    ensures r.outcome == NewHighScore <==> s.userId in t && s.score > t[s.userId].score
    ensures s.userId in t ==>
      && r.table[s.userId].score == Max(t[s.userId].score, s.score)
      && r.table[s.userId].gamesPlayed == t[s.userId].gamesPlayed + 1
    ensures s.userId !in t ==>
      r.table[s.userId] == Record(s.username, s.firstName, s.score, 1)
    ensures r.outcome == NotHighScore ==>
      && r.table[s.userId].username == t[s.userId].username
      && r.table[s.userId].firstName == t[s.userId].firstName
    ensures r.outcome == NewHighScore ==>
      && r.table[s.userId].username == s.username
      && r.table[s.userId].firstName == s.firstName
  {
    if s.userId in t then
      var old_ := t[s.userId];
      if s.score > old_.score then
        Step(t[s.userId := Record(s.username, s.firstName, s.score, old_.gamesPlayed + 1)], NewHighScore)
      else
        Step(t[s.userId := old_.(gamesPlayed := old_.gamesPlayed + 1)], NotHighScore)
    else
      Step(t[s.userId := Record(s.username, s.firstName, s.score, 1)], FirstScore)
  }

  /** A submission keeps every row played at least once. */
  lemma SubmitWellFormed(t: Table, s: Submission)
    requires WellFormed(t)
    ensures WellFormed(Submit(t, s).table)
  {
  }

  /** The table after a sequence of accepted submissions, in order. */
  function Replay(t: Table, subs: seq<Submission>): (r: Table)
    ensures t.Keys <= r.Keys
    decreases |subs|
  {
    if subs == [] then t else Replay(Submit(t, subs[0]).table, subs[1..])
  }

  /** The scores submitted for `userId`, in order. */
  function ScoresOf(subs: seq<Submission>, userId: int): (r: seq<int>)
    decreases |subs|
  {
    if subs == [] then []
    else (if subs[0].userId == userId then [subs[0].score] else []) + ScoresOf(subs[1..], userId)
  }

  /** The largest element of a non-empty sequence. */
  function SeqMax(s: seq<int>): (r: int)
    requires s != []
    ensures r in s
    ensures forall i :: 0 <= i < |s| ==> s[i] <= r
    decreases |s|
  {
    if |s| == 1 then s[0] else Max(s[0], SeqMax(s[1..]))
  }

  /**
   * After any sequence of submissions, a user's row exists iff it existed or
   * the user submitted; an untouched row is unchanged; otherwise the stored
   * score is the maximum of the old score and every submitted score, and
   * `games_played` grew by exactly the number of submissions.
   */
  lemma {:induction false} ReplayRecord(t: Table, subs: seq<Submission>, userId: int)
    ensures var r := Replay(t, subs); var ss := ScoresOf(subs, userId);
      && (userId in r <==> userId in t || ss != [])
      && (ss == [] && userId in t ==> r[userId] == t[userId])
      && (ss != [] && userId !in t ==>
            r[userId].score == SeqMax(ss) && r[userId].gamesPlayed == |ss|)
      && (ss != [] && userId in t ==>
            && r[userId].score == Max(t[userId].score, SeqMax(ss))
            && r[userId].gamesPlayed == t[userId].gamesPlayed + |ss|)
    decreases |subs|
  {
    if subs != [] {
      var s := subs[0];
      var t' := Submit(t, s).table;
      ReplayRecord(t', subs[1..], userId);
      var rest := ScoresOf(subs[1..], userId);
      if s.userId == userId {
        assert ScoresOf(subs, userId) == [s.score] + rest;
        if rest != [] {
          assert SeqMax([s.score] + rest) == Max(s.score, SeqMax(rest)) by {
            assert ([s.score] + rest)[1..] == rest;
          }
        }
      } else {
        assert ScoresOf(subs, userId) == rest;
      }
    }
  }

  /** Score and play count of one user, as the stats endpoint reports them. */
  datatype Stats = Stats(score: int, gamesPlayed: nat)

  /** The stored score and play count of `userId`, or `None` without a row. */
  function Lookup(t: Table, userId: int): (r: Option<Stats>)
    ensures r.None? <==> userId !in t
    ensures r.Some? ==> r.value.score == t[userId].score && r.value.gamesPlayed == t[userId].gamesPlayed
  {
    if userId in t then Some(Stats(t[userId].score, t[userId].gamesPlayed)) else None
  }

  /**
   * Starting from the empty table, a user is found iff they submitted at
   * least once, and then with the best submitted score and the number of
   * submissions as play count.
   */
  lemma HistoryStats(subs: seq<Submission>, userId: int)
    ensures var ss := ScoresOf(subs, userId);
      Lookup(Replay(map[], subs), userId) ==
        if ss == [] then None else Some(Stats(SeqMax(ss), |ss|))
  {
    ReplayRecord(map[], subs, userId);
  }

  /** The best score never decreases along a history of submissions. */
  lemma {:induction false} ReplayNeverLowers(t: Table, subs: seq<Submission>, userId: int)
    requires userId in t
    ensures userId in Replay(t, subs)
    ensures Replay(t, subs)[userId].score >= t[userId].score
    ensures Replay(t, subs)[userId].gamesPlayed >= t[userId].gamesPlayed
  {
    ReplayRecord(t, subs, userId);
  }
}
