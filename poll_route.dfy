/** The poll-creation endpoint (`POST /api/poll`): validate the body with
    `createPollSchema`, take the creator from the bearer token when it
    resolves, insert one row into `polls` and return it. */
module PollRoute {
  import opened Common
  import opened Backend

  /** What the handler reads from the request; `body` is `None` when the
      body is not JSON. */
  datatype PollRequest = PollRequest(body: Option<Json>, authorization: Option<string>)

  /** The fields `createPollSchema` yields from a body it accepts. */
  datatype PollInput = PollInput(question: string, options: seq<string>, requireLogin: bool)

  datatype PollReply =
    | ValidationFailed   // 400
    | StorageError       // 500, the insert failed
    | InternalError      // 500, the body could not be read
    | Created(poll: PollRow)

  function Status(reply: PollReply): int {
    match reply
    case ValidationFailed => 400
    case StorageError => 500
    case InternalError => 500
    case Created(_) => 200
  }

  /** A question and option list the server schema accepts: a non-empty
      question, at least two options, none of them empty. */
  predicate AcceptablePoll(question: string, options: seq<string>) {
    |question| >= 1 && |options| >= 2 && forall i :: 0 <= i < |options| ==> |options[i]| >= 1
  }

  /** `require_login: z.boolean().optional().default(false)`: absent means
      false, a boolean is taken as it is, anything else (null included) is
      refused. */
  function RequireLoginField(body: Json): (r: Option<bool>)
    ensures Field(body, "require_login").None? ==> r == Some(false)
  {
    match Field(body, "require_login")
    case None => Some(false)
    case Some(JBool(b)) => Some(b)
    case Some(_) => None
  }

  /** `createPollSchema.safeParse`. */
  function ValidatePoll(body: Json): (r: Option<PollInput>)
    ensures r.Some? ==> AcceptablePoll(r.value.question, r.value.options)
  {
    match (Field(body, "question"), Field(body, "options"), RequireLoginField(body))
    case (Some(JStr(q)), Some(JArr(items)), Some(login)) =>
      var options := StringItems(items);
      if options.Some? && AcceptablePoll(q, options.value) then Some(PollInput(q, options.value, login)) else None
    case _ => None
  }

  /** The JSON body carrying a poll input, `require_login` included. */
  function PollBody(input: PollInput): Json {
    JObj(map["question" := JStr(input.question),
             "options" := StringArray(input.options),
             "require_login" := JBool(input.requireLogin)])
  }

  /** The row the handler inserts, before the store assigns its id. */
  datatype Draft = Draft(question: string, options: seq<string>, requireLogin: bool, creatorId: Option<string>)

  /** Validation, then creator resolution. A token that does not resolve
      leaves the poll anonymous; it never rejects the request. */
  function PlanPoll(req: PollRequest, sessions: Sessions): (r: Option<Draft>)
    ensures r.Some? ==> AcceptablePoll(r.value.question, r.value.options)
  {
    if req.body.None? then None
    else match ValidatePoll(req.body.value)
      case None => None
      case Some(input) =>
        Some(Draft(input.question, input.options, input.requireLogin, ResolveUser(req.authorization, sessions)))
  }

  /** `POST /api/poll`. `newId` is the id the store assigns to the new row;
      `writeFails` stands for an error the insert reports. An id already in
      use is a storage error too. */
  method Post(db: Database, req: PollRequest, sessions: Sessions, newId: string, writeFails: bool)
    returns (reply: PollReply)
    modifies db`polls
    ensures req.body.None? ==> reply == InternalError && db.polls == old(db.polls)
    ensures req.body.Some? && PlanPoll(req, sessions).None? ==> reply == ValidationFailed && db.polls == old(db.polls)
    ensures PlanPoll(req, sessions).Some? && (writeFails || newId in old(db.polls)) ==>
      reply == StorageError && db.polls == old(db.polls)
    ensures PlanPoll(req, sessions).Some? && !writeFails && newId !in old(db.polls) ==>
      var d := PlanPoll(req, sessions).value;
      var row := PollRow(newId, d.question, d.options, d.requireLogin, d.creatorId);
      reply == Created(row) && db.polls == old(db.polls)[newId := row]
  {
    if req.body.None? {
      return InternalError;
    }
    var validation := ValidatePoll(req.body.value);
    if validation.None? {
      return ValidationFailed;
    }
    var input := validation.value;

    var creatorId: Option<string> := None;
    if Truthy(req.authorization) {
      var token := BearerToken(req.authorization.value);
      if token in sessions {
        creatorId := Some(sessions[token]);
      }
    }

    var row := PollRow(newId, input.question, input.options, input.requireLogin, creatorId);
    if writeFails || newId in db.polls {
      return StorageError;
    }
    db.polls := db.polls[newId := row];
    reply := Created(row);
  }

  // ----- What the handler promises -----

  /** A body holding a question, an option list and a login flag is accepted
      exactly when the question and options are acceptable, and is read
      back unchanged, options in their order. */
  lemma PollBodyRoundTrip(input: PollInput)
    ensures ValidatePoll(PollBody(input)) ==
      (if AcceptablePoll(input.question, input.options) then Some(input) else None)
  {
  }

  /** Every body that is accepted has a question string, an options array of
      strings and a boolean or absent login flag, and nothing it says is
      lost: it is the body of what it yields, up to keys the schema ignores. */
  lemma {:induction false} AcceptedBodyShape(body: Json)
    requires ValidatePoll(body).Some?
    ensures var input := ValidatePoll(body).value;
      Field(body, "question") == Some(JStr(input.question)) &&
      Field(body, "options").Some? && Field(body, "options").value.JArr? &&
      StringItems(Field(body, "options").value.items) == Some(input.options) &&
      (Field(body, "require_login") == Some(JBool(input.requireLogin)) ||
       (Field(body, "require_login").None? && !input.requireLogin))
  {
  }

  /** An omitted `require_login` defaults to false. */
  lemma RequireLoginDefaultsToFalse(question: string, options: seq<string>)
    requires AcceptablePoll(question, options)
    ensures ValidatePoll(JObj(map["question" := JStr(question), "options" := StringArray(options)])) ==
      Some(PollInput(question, options, false))
  {
  }

  /** The Authorization header never decides acceptance; it only decides the
      creator, who is the resolved user when the header is truthy and its
      token resolves, and nobody otherwise. */
  lemma CreatorNeverRejects(req: PollRequest, sessions: Sessions, otherAuth: Option<string>)
    ensures PlanPoll(req.(authorization := otherAuth), sessions).Some? <==> PlanPoll(req, sessions).Some?
    ensures PlanPoll(req, sessions).Some? ==>
      PlanPoll(req, sessions).value.creatorId ==
        (if Truthy(req.authorization) && BearerToken(req.authorization.value) in sessions
         then Some(sessions[BearerToken(req.authorization.value)]) else None)
  {
  }

  /** A client that sends `Bearer <token>` for a token that resolves is
      recorded as the creator. */
  lemma SignedInClientIsCreator(input: PollInput, token: string, sessions: Sessions)
    requires AcceptablePoll(input.question, input.options)
    requires token in sessions
    ensures PlanPoll(PollRequest(Some(PollBody(input)), Some(BearerPrefix + token)), sessions) ==
      Some(Draft(input.question, input.options, input.requireLogin, Some(sessions[token])))
  {
    BearerTokenOfHeader(token);
    PollBodyRoundTrip(input);
  }
}
