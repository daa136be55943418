/** The vote-submission endpoint (`POST /api/vote`): validate the body, look
    the poll up, demand a resolved user on a login-required poll, then upsert
    one vote row keyed on the user when there is one and on the device
    otherwise. */
module VoteRoute {
  import opened Common
  import opened Backend

  /** What the handler reads from the request. `body` is `None` when the
      body is not JSON (`request.json()` throws). */
  datatype VoteRequest = VoteRequest(
    body: Option<Json>,
    authorization: Option<string>,
    forwardedFor: Option<string>)

  /** The fields `voteSchema` extracts from a body it accepts. */
  datatype VoteInput = VoteInput(pollId: string, optionIndex: int, deviceId: string)

  datatype VoteReply =
    | InvalidData        // 400 "Invalid data"
    | PollNotFound       // 404
    | LoginRequired      // 401, no Authorization header
    | AuthFailed         // 401, the token does not resolve
    | StorageError       // 500, the upsert failed
    | InternalError      // 500, the body could not be read
    | Recorded(vote: VoteRow)

  function Status(reply: VoteReply): int {
    match reply
    case InvalidData => 400
    case PollNotFound => 404
    case LoginRequired => 401
    case AuthFailed => 401
    case StorageError => 500
    case InternalError => 500
    case Recorded(_) => 200
  }

  /** `voteSchema.safeParse`: `poll_id` a UUID string, `option_index` a
      number no less than 0, `device_id` a non-empty string. Other keys are
      ignored. */
  function ValidateVote(body: Json): (r: Option<VoteInput>)
    ensures r.Some? ==> IsUuid(r.value.pollId) && r.value.optionIndex >= 0 && r.value.deviceId != ""
  {
    match (Field(body, "poll_id"), Field(body, "option_index"), Field(body, "device_id"))
    case (Some(JStr(p)), Some(JNum(i)), Some(JStr(d))) =>
      if IsUuid(p) && i >= 0 && |d| >= 1 then Some(VoteInput(p, i, d)) else None
    case _ => None
  }

  /** The body the poll view sends (`{poll_id, option_index, device_id}`). */
  function VoteBody(input: VoteInput): Json {
    JObj(map["poll_id" := JStr(input.pollId),
             "option_index" := JNum(input.optionIndex),
             "device_id" := JStr(input.deviceId)])
  }

  /** `x-forwarded-for || 'unknown'`: the stored address is never empty. */
  function ClientAddress(forwardedFor: Option<string>): (r: string)
    ensures r != []
    ensures Truthy(forwardedFor) ==> r == forwardedFor.value
    ensures !Truthy(forwardedFor) ==> r == "unknown"
  {
    if Truthy(forwardedFor) then forwardedFor.value else "unknown"
  }

  /** The `onConflict` target: `(poll_id, user_id)` when `user_id` is set,
      otherwise `(poll_id, device_id)`. */
  function ConflictKey(row: VoteRow): (k: VoteKey)
    ensures k.pollId == row.pollId
    ensures k.voter.ByUser? <==> row.userId.Some?
    ensures k.voter == (if row.userId.Some? then ByUser(row.userId.value) else ByDevice(row.deviceId))
  {
    VoteKey(row.pollId, if row.userId.Some? then ByUser(row.userId.value) else ByDevice(row.deviceId))
  }

  /** What the handler decides before it writes: a rejection, or the row to
      upsert at its conflict target. `lookupFails` is a failed poll query. */
  datatype Plan = Reject(reply: VoteReply) | Write(key: VoteKey, row: VoteRow)

  function PlanVote(polls: map<string, PollRow>, req: VoteRequest, sessions: Sessions, lookupFails: bool): (p: Plan)
    ensures p.Reject? ==> Status(p.reply) != 200
    ensures p.Write? ==> p.key == ConflictKey(p.row)
  {
    if req.body.None? then Reject(InternalError)
    else match ValidateVote(req.body.value)
      case None => Reject(InvalidData)
      case Some(input) =>
        if lookupFails || input.pollId !in polls then Reject(PollNotFound)
        else if polls[input.pollId].requireLogin && !Truthy(req.authorization) then Reject(LoginRequired)
        else if polls[input.pollId].requireLogin && ResolveUser(req.authorization, sessions).None? then Reject(AuthFailed)
        else
          var userId := if polls[input.pollId].requireLogin then ResolveUser(req.authorization, sessions) else None;
          var row := VoteRow(input.pollId, input.optionIndex, input.deviceId, userId, ClientAddress(req.forwardedFor));
          Write(ConflictKey(row), row)
  }

  /** The votes table after a plan is carried out: a write replaces whatever
      row held the same conflict target (last write wins). */
  function Apply(votes: map<VoteKey, VoteRow>, p: Plan): (r: map<VoteKey, VoteRow>)
    ensures p.Reject? ==> r == votes
    ensures p.Write? ==> p.key in r && r[p.key] == p.row
    ensures forall k :: k in votes && !(p.Write? && k == p.key) ==> k in r && r[k] == votes[k]
    ensures r.Keys == if p.Write? then votes.Keys + {p.key} else votes.Keys
  {
    if p.Write? then votes[p.key := p.row] else votes
  }

  /** The `votes` table is unique on `(poll_id, device_id)` and on
      `(poll_id, user_id)`, a null user id clashing with nothing. An upsert
      resolves a conflict only at its own target; a row stored elsewhere in
      the same poll with the same device, or with the same user, makes the
      store refuse it. */
  predicate Clashes(votes: map<VoteKey, VoteRow>, key: VoteKey, row: VoteRow) {
    exists k :: k in votes && k != key && votes[k].pollId == row.pollId &&
      (votes[k].deviceId == row.deviceId || (row.userId.Some? && votes[k].userId == row.userId))
  }

  /** `POST /api/vote`. `lookupFails` and `writeFails` stand for the errors
      the backend may report for the poll query and for the upsert; an
      upsert the unique constraints refuse is a storage error as well. */
  method Post(db: Database, req: VoteRequest, sessions: Sessions, lookupFails: bool, writeFails: bool)
    returns (reply: VoteReply)
    modifies db`votes
    ensures var p := PlanVote(db.polls, req, sessions, lookupFails);
      if p.Reject? then reply == p.reply && db.votes == old(db.votes)
      else if writeFails || Clashes(old(db.votes), p.key, p.row) then reply == StorageError && db.votes == old(db.votes)
      else reply == Recorded(p.row) && db.votes == Apply(old(db.votes), p)
  {
    if req.body.None? {
      return InternalError;
    }
    var validation := ValidateVote(req.body.value);
    if validation.None? {
      return InvalidData;
    }
    var input := validation.value;
    var ip := ClientAddress(req.forwardedFor);

    if lookupFails || input.pollId !in db.polls {
      return PollNotFound;
    }
    var poll := db.polls[input.pollId];

    var userId: Option<string> := None;
    if poll.requireLogin {
      if Truthy(req.authorization) {
        var token := BearerToken(req.authorization.value);
        if token !in sessions {
          return AuthFailed;
        }
        userId := Some(sessions[token]);
      } else {
        return LoginRequired;
      }
    }

    var row := VoteRow(input.pollId, input.optionIndex, input.deviceId, userId, ip);
    if writeFails || Clashes(db.votes, ConflictKey(row), row) {
      return StorageError;
    }
    db.votes := db.votes[ConflictKey(row) := row];
    reply := Recorded(row);
  }

  // ----- What the handler promises -----

  /** The body the poll view builds is accepted exactly when its id is a
      UUID, its index is not negative and its device id is not empty, and
      then it is read back unchanged. */
  lemma VoteBodyRoundTrip(input: VoteInput)
    ensures ValidateVote(VoteBody(input)) == (if IsUuid(input.pollId) && input.optionIndex >= 0 && input.deviceId != ""
                                             then Some(input) else None)
  {
  }

  /** A write happens exactly when the body is readable and valid, the poll
      is found, and the poll is open to all or the caller's token resolves. */
  lemma WriteExactlyWhen(polls: map<string, PollRow>, req: VoteRequest, sessions: Sessions, lookupFails: bool)
    ensures PlanVote(polls, req, sessions, lookupFails).Write? <==>
      req.body.Some? && ValidateVote(req.body.value).Some? &&
      !lookupFails && ValidateVote(req.body.value).value.pollId in polls &&
      (polls[ValidateVote(req.body.value).value.pollId].requireLogin ==> ResolveUser(req.authorization, sessions).Some?)
  {
  }

  /** Guard order: an unreadable body is a 500, an invalid one a 400, both
      before the poll is looked up; an unknown poll is a 404 before any
      token is looked at. */
  lemma GuardChain(polls: map<string, PollRow>, req: VoteRequest, sessions: Sessions, lookupFails: bool)
    ensures req.body.None? ==> PlanVote(polls, req, sessions, lookupFails) == Reject(InternalError)
    ensures req.body.Some? && ValidateVote(req.body.value).None? ==>
      PlanVote(polls, req, sessions, lookupFails) == Reject(InvalidData)
    ensures (req.body.Some? && ValidateVote(req.body.value).Some? &&
             (lookupFails || ValidateVote(req.body.value).value.pollId !in polls)) ==>
      PlanVote(polls, req, sessions, lookupFails) == Reject(PollNotFound)
  {
  }

  /** On a login-required poll a missing or empty header answers 401
      "login required" and a token that does not resolve answers 401
      "authentication required"; nothing is written. */
  lemma StrictPollNeedsUser(polls: map<string, PollRow>, req: VoteRequest, sessions: Sessions)
    requires req.body.Some? && ValidateVote(req.body.value).Some?
    requires ValidateVote(req.body.value).value.pollId in polls
    requires polls[ValidateVote(req.body.value).value.pollId].requireLogin
    ensures !Truthy(req.authorization) ==> PlanVote(polls, req, sessions, false) == Reject(LoginRequired)
    ensures Truthy(req.authorization) && BearerToken(req.authorization.value) !in sessions ==>
      PlanVote(polls, req, sessions, false) == Reject(AuthFailed)
    ensures PlanVote(polls, req, sessions, false).Reject? ==> Status(PlanVote(polls, req, sessions, false).reply) == 401
  {
  }

  /** The stored row carries the request's poll id, option index and device
      id, the address or `unknown`, and a user id exactly on login-required
      polls; a token sent to an open poll is never looked at. */
  lemma StoredRow(polls: map<string, PollRow>, req: VoteRequest, sessions: Sessions, lookupFails: bool)
    requires PlanVote(polls, req, sessions, lookupFails).Write?
    ensures var row := PlanVote(polls, req, sessions, lookupFails).row;
      var input := ValidateVote(req.body.value).value;
      row.pollId == input.pollId && row.optionIndex == input.optionIndex && row.deviceId == input.deviceId &&
      row.ipAddress == (if Truthy(req.forwardedFor) then req.forwardedFor.value else "unknown") &&
      row.pollId in polls &&
      (row.userId.Some? <==> polls[row.pollId].requireLogin) &&
      (row.userId.Some? ==> row.userId == ResolveUser(req.authorization, sessions))
  {
  }

  /** On an open poll the Authorization header changes nothing: the vote is
      keyed on the device whichever token, if any, is sent. */
  lemma OpenPollKeyedOnDevice(polls: map<string, PollRow>, req: VoteRequest, sessions: Sessions, otherAuth: Option<string>)
    requires PlanVote(polls, req, sessions, false).Write?
    requires !polls[PlanVote(polls, req, sessions, false).row.pollId].requireLogin
    ensures PlanVote(polls, req.(authorization := otherAuth), sessions, false) == PlanVote(polls, req, sessions, false)
    ensures PlanVote(polls, req, sessions, false).key.voter == ByDevice(ValidateVote(req.body.value).value.deviceId)
  {
  }

  /** `option_index` is only checked to be non-negative: on an open poll an
      index past the poll's last option is stored all the same. */
  lemma OptionIndexNotRangeChecked(polls: map<string, PollRow>, pollId: string, deviceId: string, sessions: Sessions)
    requires IsUuid(pollId) && deviceId != ""
    requires pollId in polls && !polls[pollId].requireLogin
    ensures var i := |polls[pollId].options|;
      var req := VoteRequest(Some(VoteBody(VoteInput(pollId, i, deviceId))), None, None);
      PlanVote(polls, req, sessions, false) ==
        Write(VoteKey(pollId, ByDevice(deviceId)), VoteRow(pollId, i, deviceId, None, "unknown"))
  {
    VoteBodyRoundTrip(VoteInput(pollId, |polls[pollId].options|, deviceId));
  }

  /** Last write wins: two accepted submissions with the same conflict
      target leave one row there, the later one; every other row is as
      before the first, and the table gained at most that one key. */
  lemma LastWriteWins(votes: map<VoteKey, VoteRow>, p1: Plan, p2: Plan)
    requires p1.Write? && p2.Write? && p1.key == p2.key
    ensures Apply(Apply(votes, p1), p2) == Apply(votes, p2)
    ensures Apply(Apply(votes, p1), p2)[p2.key] == p2.row
    ensures |Apply(Apply(votes, p1), p2).Keys| <= |votes.Keys| + 1
  {
    var r := Apply(Apply(votes, p1), p2);
    assert r.Keys == votes.Keys + {p2.key};
    assert |votes.Keys + {p2.key}| <= |votes.Keys| + |{p2.key}|;
  }

  /** The table's invariant under this handler: every row sits at its own
      conflict target, belongs to a known poll, and is keyed on a user
      exactly when that poll requires login. So within one poll all rows
      are of one kind and a user and a device cannot both hold a vote. */
  ghost predicate KeysFollowPolls(polls: map<string, PollRow>, votes: map<VoteKey, VoteRow>) {
    forall k :: k in votes ==>
      k == ConflictKey(votes[k]) && k.pollId in polls &&
      (k.voter.ByUser? <==> polls[k.pollId].requireLogin)
  }

  lemma {:induction false} PlanKeepsKeysFollowingPolls(
    polls: map<string, PollRow>, votes: map<VoteKey, VoteRow>, req: VoteRequest, sessions: Sessions, lookupFails: bool)
    requires KeysFollowPolls(polls, votes)
    ensures KeysFollowPolls(polls, Apply(votes, PlanVote(polls, req, sessions, lookupFails)))
  {
    var p := PlanVote(polls, req, sessions, lookupFails);
    if p.Write? {
      StoredRow(polls, req, sessions, lookupFails);
      var r := Apply(votes, p);
      forall k | k in r
        ensures k == ConflictKey(r[k]) && k.pollId in polls && (k.voter.ByUser? <==> polls[k.pollId].requireLogin)
      {
        if k != p.key {
          assert k in votes;
        }
      }
    }
  }

  /** Within one poll no two rows hold the same device. */
  ghost predicate DevicesUnique(votes: map<VoteKey, VoteRow>) {
    forall k1, k2 :: k1 in votes && k2 in votes && k1 != k2 && votes[k1].pollId == votes[k2].pollId ==>
      votes[k1].deviceId != votes[k2].deviceId
  }

  /** An upsert the store accepts keeps devices unique within each poll. */
  lemma {:induction false} UpsertKeepsDevicesUnique(votes: map<VoteKey, VoteRow>, key: VoteKey, row: VoteRow)
    requires DevicesUnique(votes) && !Clashes(votes, key, row)
    ensures DevicesUnique(votes[key := row])
  {
    var r := votes[key := row];
    forall k1, k2 | k1 in r && k2 in r && k1 != k2 && r[k1].pollId == r[k2].pollId
      ensures r[k1].deviceId != r[k2].deviceId
    {
      if k1 == key {
        assert k2 in votes && k2 != key;
      } else if k2 == key {
        assert k1 in votes && k1 != key;
      }
    }
  }

  /** On a login-required poll, a second user voting from a device that
      already holds another user's vote in that poll is refused: the two
      rows would share `(poll_id, device_id)`. */
  lemma SecondUserOnDeviceRefused(votes: map<VoteKey, VoteRow>, pollId: string, deviceId: string,
                                  first: string, second: string, i: int, ip: string)
    requires first != second
    requires VoteKey(pollId, ByUser(first)) in votes
    requires votes[VoteKey(pollId, ByUser(first))].pollId == pollId
    requires votes[VoteKey(pollId, ByUser(first))].deviceId == deviceId
    ensures var row := VoteRow(pollId, i, deviceId, Some(second), ip);
      Clashes(votes, ConflictKey(row), row)
  {
    var row := VoteRow(pollId, i, deviceId, Some(second), ip);
    var k := VoteKey(pollId, ByUser(first));
    assert k != ConflictKey(row);
  }
}
