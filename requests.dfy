/**
 * The decision part of the `POST /api/score` handler: which JSON bodies are
 * refused with status 400, and what an accepted one does to the table.
 * Parsing the HTTP request and serialising the JSON reply are not modelled.
 */
module Requests {
  import opened Wrappers
  import opened Ledger

  /** One key of the JSON object: missing, present as `null`, or present with a value. */
  datatype Field<+T> = Absent | Null | Given(value: T)

  /** `data.get(key)`: a missing key and a `null` both read as `None`. */
  function Get<T>(f: Field<T>): (r: Option<T>)
    ensures r.Some? <==> f.Given?
    ensures r.Some? ==> r.value == f.value
  {
    if f.Given? then Some(f.value) else None
  }

  /**
   * The decoded JSON object. `otherKeys` counts keys the handler never reads;
   * they matter only because they make the object non-empty.
   */
  datatype Body = Body(
    userId: Field<int>,
    username: Field<string>,
    firstName: Field<string>,
    score: Field<int>,
    otherKeys: nat)

  /** `{}` is falsy in Python, so `not data` holds for it. */
  predicate IsEmptyObject(b: Body) {
    b.userId.Absent? && b.username.Absent? && b.firstName.Absent? && b.score.Absent? && b.otherKeys == 0
  }

  /** `not user_id` for an integer id: missing, `null` and `0` are all falsy. */
  predicate UserIdTruthy(f: Field<int>) {
    f.Given? && f.value != 0
  }

  datatype HttpMethod = Post | Options

  /** A request to the score endpoint; a `None` body is a `null` or other falsy JSON payload. */
  datatype Request = Request(verb: HttpMethod, body: Option<Body>)

  datatype Rejection = NoData | MissingUserIdOrScore

  function RejectionMessage(r: Rejection): (m: string)
    ensures |m| > 0
  {
    match r
    case NoData => "No data provided"
    case MissingUserIdOrScore => "Missing user_id or score"
  }

  /**
   * A body is accepted iff it is a non-empty object with a truthy `user_id`
   * and a non-null `score`; an absent or empty body is reported first.
   * The optional names are passed on as they were sent.
   */
  function Validate(body: Option<Body>): (r: Result<Submission, Rejection>)
    ensures r.Err? && r.error == NoData <==> body.None? || IsEmptyObject(body.value)
    ensures r.Ok? <==>
      && body.Some? && !IsEmptyObject(body.value)
      && UserIdTruthy(body.value.userId) && body.value.score.Given?
    ensures r.Ok? ==>
      && r.value.userId == body.value.userId.value && r.value.userId != 0
      && r.value.score == body.value.score.value
      && r.value.username == Get(body.value.username)
      && r.value.firstName == Get(body.value.firstName)
  {
    if body.None? || IsEmptyObject(body.value) then Err(NoData)
    else
      var b := body.value;
      var userId := Get(b.userId);
      var score := Get(b.score);
      if userId.None? || userId.value == 0 || score.None? then Err(MissingUserIdOrScore)
      else Ok(Submission(userId.value, Get(b.username), Get(b.firstName), score.value))
  }

  /** What the handler answers: the CORS preflight, a 400 error, or a success message. */
  datatype Response = Preflight | Rejected(reason: Rejection) | Saved(outcome: Outcome)

  function StatusCode(r: Response): (code: nat)
    ensures code == 400 <==> r.Rejected?
    ensures code == 200 <==> !r.Rejected?
  {
    if r.Rejected? then 400 else 200
  }

  /** The table after the request, and the reply. */
  datatype Exchange = Exchange(table: Table, response: Response)

  /**
   * The whole handler on a table value: only an accepted POST changes the
   * table, and then exactly as one submission does.
   */
  function HandleSave(t: Table, req: Request): (r: Exchange)
    ensures r.response.Saved? <==> req.verb == Post && Validate(req.body).Ok?
    ensures req.verb == Options ==> r.response == Preflight
    ensures req.verb == Post && Validate(req.body).Err? ==>
      r.response == Rejected(Validate(req.body).error)
    ensures !r.response.Saved? ==> r.table == t
    ensures r.response.Saved? ==>
      && r.table == Submit(t, Validate(req.body).value).table
      && r.response.outcome == Submit(t, Validate(req.body).value).outcome
  {
    if req.verb == Options then Exchange(t, Preflight)
    else
      var v := Validate(req.body);
      if v.Err? then Exchange(t, Rejected(v.error))
      else
        var step := Submit(t, v.value);
        assert req.verb == Post;
        Exchange(step.table, Saved(step.outcome))
  }

  /** The table after serving a sequence of requests, in order. */
  function Serve(t: Table, reqs: seq<Request>): Table
    decreases |reqs|
  {
    if reqs == [] then t else Serve(HandleSave(t, reqs[0]).table, reqs[1..])
  }

  /** The submissions carried by the accepted requests, in order. */
  function Accepted(reqs: seq<Request>): (subs: seq<Submission>)
    ensures |subs| <= |reqs|
    decreases |reqs|
  {
    if reqs == [] then []
    else
      var r := reqs[0];
      (if r.verb == Post && Validate(r.body).Ok? then [Validate(r.body).value] else [])
        + Accepted(reqs[1..])
  }

  /** Serving requests is replaying exactly the accepted submissions. */
  lemma {:induction false} ServeIsReplay(t: Table, reqs: seq<Request>)
    ensures Serve(t, reqs) == Replay(t, Accepted(reqs))
    decreases |reqs|
  {
    if reqs != [] {
      var r := reqs[0];
      ServeIsReplay(HandleSave(t, r).table, reqs[1..]);
      if r.verb == Post && Validate(r.body).Ok? {
        var subs := Accepted(reqs);
        assert subs[0] == Validate(r.body).value;
        assert subs[1..] == Accepted(reqs[1..]);
      } else {
        assert Accepted(reqs) == Accepted(reqs[1..]);
      }
    }
  }

  /**
   * From the empty table, a user's stats after any request history are the
   * best score and the number of their accepted submissions.
   */
  lemma ServedStats(reqs: seq<Request>, userId: int)
    ensures var ss := ScoresOf(Accepted(reqs), userId);
      Lookup(Serve(map[], reqs), userId) ==
        if ss == [] then None else Some(Stats(SeqMax(ss), |ss|))
  {
    ServeIsReplay(map[], reqs);
    HistoryStats(Accepted(reqs), userId);
  }

  /** No accepted submission carries the falsy user id 0, so no row 0 is ever created. */
  lemma {:induction false} NoRowZero(t: Table, reqs: seq<Request>)
    requires 0 !in t
    ensures 0 !in Serve(t, reqs)
    decreases |reqs|
  {
    if reqs != [] {
      NoRowZero(HandleSave(t, reqs[0]).table, reqs[1..]);
    }
  }
}
