/** The poll view's live tally: per-option vote counts and a total that start
    from a full recount of the poll's vote rows and are then kept current by
    realtime INSERT events (ignoring echoes of the viewer's own vote), full
    recounts on UPDATE events, and an optimistic update after the viewer's
    own vote succeeds. */
module PollView {
  import opened Common
  import opened Backend
  import VoteRoute

  // ----- Specification of the tally -----

  /** The counts a recount of `rows` (the `option_index` of each fetched
      vote row) yields for a poll with `n` options: entry `i` is how often
      `i` occurs among the rows. Indices outside `0..n` are not counted. */
  function Tally(rows: seq<int>, n: nat): (r: seq<int>)
    ensures |r| == n
    ensures forall i :: 0 <= i < n ==> 0 <= r[i] <= |rows|
  {
    var r := seq(n, i => multiset(rows)[i]);
    assert forall i :: 0 <= i < n ==> r[i] <= |rows| by {
      forall i | 0 <= i < n ensures r[i] <= |rows| {
        MultiplicityBound(rows, i);
      }
    }
    r
  }

  /** No value occurs more often than the sequence is long. */
  lemma {:induction false} MultiplicityBound(rows: seq<int>, x: int)
    ensures multiset(rows)[x] <= |rows|
  {
    if rows != [] {
      MultiplicityBound(rows[1..], x);
      assert rows == [rows[0]] + rows[1..];
      assert multiset(rows) == multiset{rows[0]} + multiset(rows[1..]);
    }
  }

  function Sum(s: seq<int>): int {
    if s == [] then 0 else s[0] + Sum(s[1..])
  }

  /** How many of `rows` name one of the `n` options. */
  function InRange(rows: seq<int>, n: nat): (k: nat)
    ensures k <= |rows|
  {
    if rows == [] then 0
    else InRange(rows[..|rows| - 1], n) + (if 0 <= rows[|rows| - 1] < n then 1 else 0)
  }

  /** The counts after one more vote for option `i`; an index that is not an
      option changes nothing. */
  function Bump(votes: seq<int>, i: int): (r: seq<int>)
    ensures |r| == |votes|
    ensures forall j :: 0 <= j < |r| ==> r[j] == votes[j] + (if j == i then 1 else 0)
  {
    if 0 <= i < |votes| then votes[i := votes[i] + 1] else votes
  }

  /** The optimistic counts after the viewer's vote for `selected` succeeds:
      the previously confirmed option, if any and in range, loses one vote
      but never goes below 0, and the selected option gains one. */
  function Moved(votes: seq<int>, previous: Option<int>, selected: int): (r: seq<int>)
    ensures |r| == |votes|
    ensures forall j :: 0 <= j < |r| ==>
      r[j] == (if previous == Some(j) then Max0(votes[j] - 1) else votes[j]) + (if j == selected then 1 else 0)
  {
    var afterRemoval :=
      if previous.Some? && 0 <= previous.value < |votes|
      then votes[previous.value := Max0(votes[previous.value] - 1)]
      else votes;
    if 0 <= selected < |afterRemoval| then afterRemoval[selected := afterRemoval[selected] + 1] else afterRemoval
  }

  function Max0(x: int): int {
    if x < 0 then 0 else x
  }

  predicate NonNegative(s: seq<int>) {
    forall j :: 0 <= j < |s| ==> s[j] >= 0
  }

  /** An INSERT that echoes the viewer's own vote: same device, or the same
      signed-in user. */
  predicate IsEcho(row: VoteRow, deviceId: string, user: Option<string>) {
    row.deviceId == deviceId || (user.Some? && row.userId == user)
  }

  /** Which row the view looks up to find the viewer's earlier vote: by user
      on a login-required poll when someone is signed in, by device
      otherwise. */
  function PriorVoteKey(requireLogin: bool, user: Option<string>, deviceId: string): (k: VoterKey)
    ensures k.ByUser? <==> requireLogin && user.Some?
    ensures k.ByUser? ==> k.userId == user.value
    ensures k.ByDevice? ==> k.deviceId == deviceId
  {
    if requireLogin && user.Some? then ByUser(user.value) else ByDevice(deviceId)
  }

  /** The largest count (`Math.max(...votes)`). */
  function MaxCount(votes: seq<int>): (m: int)
    requires votes != []
    ensures m in votes
    ensures forall j :: 0 <= j < |votes| ==> votes[j] <= m
  {
    if |votes| == 1 then votes[0]
    else
      var rest := MaxCount(votes[1..]);
      if votes[0] >= rest then votes[0] else rest
  }

  /** `isWinner`: option `i` is highlighted when its count equals the
      largest count and at least one vote was cast. */
  predicate IsWinner(votes: seq<int>, totalVotes: int, i: int)
    requires 0 <= i < |votes|
  {
    MaxCount(votes) == votes[i] && totalVotes > 0
  }

  // ----- The component's state -----

  /** The result of the vote-row query of `fetchVotes`: an error, or the
      `option_index` of each row (`data` may be null). */
  datatype Fetched = FetchError | Rows(data: Option<seq<int>>)

  function RowsOf(fetched: Fetched): seq<int>
    requires fetched.Rows?
  {
    if fetched.data.Some? then fetched.data.value else []
  }

  /** What `fetch('/api/vote')` gave back: a thrown error (network, or a
      body that is not JSON), or a response with its status. */
  datatype Response = Threw | Responded(status: int)

  /** The request the view sends: its JSON body and its Authorization
      header, when there is a session token. */
  datatype Submission = Submission(body: Json, authorization: Option<string>)

  datatype VoteOutcome =
    | NoSelection     // nothing selected: nothing happens
    | LoginFirst      // strict poll, nobody signed in: redirect to login
    | Recorded        // the vote was stored
    | AlreadyVoted    // 409
    | LoginRejected   // 401: redirect to login
    | Failed          // any other failure: an error toast

  class LiveTally {
    const pollId: string
    const optionCount: nat
    const requireLogin: bool
    const deviceId: string

    var user: Option<string>
    var votes: seq<int>
    var totalVotes: int
    var selectedOption: Option<int>
    var confirmedOption: Option<int>
    var hasVoted: bool
    var isLoading: bool

    /** One count per option, none negative, a non-negative total. */
    ghost predicate Valid()
      reads this
    {
      |votes| == optionCount && NonNegative(votes) && totalVotes >= 0
    }

    /** The initial state: every count 0 (`new Array(options.length).fill(0)`),
        no vote, loading. */
    constructor (pollId: string, optionCount: nat, requireLogin: bool, deviceId: string)
      ensures Valid()
      ensures this.pollId == pollId && this.optionCount == optionCount
      ensures this.requireLogin == requireLogin && this.deviceId == deviceId
      ensures votes == seq(optionCount, _ => 0) && totalVotes == 0
      ensures user == None && selectedOption == None && confirmedOption == None
      ensures !hasVoted && isLoading
    {
      this.pollId := pollId;
      this.optionCount := optionCount;
      this.requireLogin := requireLogin;
      this.deviceId := deviceId;
      user := None;
      votes := seq(optionCount, _ => 0);
      totalVotes := 0;
      selectedOption := None;
      confirmedOption := None;
      hasVoted := false;
      isLoading := true;
    }

    /** `fetchVotes`: on an error nothing changes; otherwise the counts are a
        fresh tally of the rows and the total is the number of rows. */
    method Recount(fetched: Fetched)
      requires Valid()
      modifies this`votes, this`totalVotes, this`isLoading
      ensures Valid()
      ensures fetched.FetchError? ==> votes == old(votes) && totalVotes == old(totalVotes) && isLoading == old(isLoading)
      ensures fetched.Rows? ==>
        votes == Tally(RowsOf(fetched), optionCount) && totalVotes == |RowsOf(fetched)| && !isLoading
    {
      if fetched.FetchError? {
        return;
      }
      var rows := RowsOf(fetched);
      var counts := CountRows(rows, optionCount);
      votes := counts;
      totalVotes := |rows|;
      isLoading := false;
    }

    /** Mounting: the signed-in user is recorded, the votes are recounted,
        and the key of the earlier-vote lookup is chosen. */
    method Mount(currentUser: Option<string>, fetched: Fetched) returns (lookup: VoterKey)
      requires Valid()
      modifies this`user, this`votes, this`totalVotes, this`isLoading
      ensures Valid()
      ensures user == currentUser
      ensures fetched.FetchError? ==> votes == old(votes) && totalVotes == old(totalVotes) && isLoading == old(isLoading)
      ensures fetched.Rows? ==>
        votes == Tally(RowsOf(fetched), optionCount) && totalVotes == |RowsOf(fetched)| && !isLoading
      ensures lookup == PriorVoteKey(requireLogin, currentUser, deviceId)
    {
      user := currentUser;
      Recount(fetched);
      lookup := PriorVoteKey(requireLogin, currentUser, deviceId);
    }

    /** `checkIfVotedDevice` / `checkIfVotedUser`: a row found for the
        viewer marks the poll as voted and selects and confirms its option. */
    method ApplyPriorVote(found: Option<int>)
      modifies this`hasVoted, this`selectedOption, this`confirmedOption
      ensures found.None? ==> hasVoted == old(hasVoted) && selectedOption == old(selectedOption) &&
                              confirmedOption == old(confirmedOption)
      ensures found.Some? ==> hasVoted && selectedOption == found && confirmedOption == found
    {
      if found.Some? {
        hasVoted := true;
        selectedOption := found;
        confirmedOption := found;
      }
    }

    /** Clicking an option, or choosing it in the radio group, selects it. */
    method Select(index: int)
      requires 0 <= index < optionCount
      modifies this`selectedOption
      ensures selectedOption == Some(index)
    {
      selectedOption := Some(index);
    }

    /** "Change My Vote": back to the voting form. The selection, the
        confirmed option and the tally stay as they are, so the next
        successful vote moves the confirmed vote rather than adding one. */
    method ChangeVote()
      modifies this`hasVoted
      ensures !hasVoted
    {
      hasVoted := false;
    }

    /** A realtime INSERT: an echo of the viewer's own vote is ignored;
        any other adds one to its option, if that is an option, and one to
        the total in every case. */
    method OnInsert(row: VoteRow)
      requires Valid()
      modifies this`votes, this`totalVotes
      ensures Valid()
      ensures IsEcho(row, deviceId, user) ==> votes == old(votes) && totalVotes == old(totalVotes)
      ensures !IsEcho(row, deviceId, user) ==>
        votes == Bump(old(votes), row.optionIndex) && totalVotes == old(totalVotes) + 1
    {
      if row.deviceId == deviceId || (user.Some? && row.userId == user) {
        return;
      }
      var newVotes := votes;
      if 0 <= row.optionIndex < |newVotes| {
        newVotes := newVotes[row.optionIndex := newVotes[row.optionIndex] + 1];
      }
      votes := newVotes;
      totalVotes := totalVotes + 1;
    }

    /** A realtime UPDATE is not patched in: the view recounts. */
    method OnUpdate(fetched: Fetched)
      requires Valid()
      modifies this`votes, this`totalVotes, this`isLoading
      ensures Valid()
      ensures fetched.FetchError? ==> votes == old(votes) && totalVotes == old(totalVotes) && isLoading == old(isLoading)
      ensures fetched.Rows? ==>
        votes == Tally(RowsOf(fetched), optionCount) && totalVotes == |RowsOf(fetched)| && !isLoading
    {
      Recount(fetched);
    }

    /** The request `handleVote` sends for the current selection. */
    function SubmissionFor(selected: int, session: Option<string>): (s: Submission)
      reads this
      ensures s.body == VoteRoute.VoteBody(VoteRoute.VoteInput(pollId, selected, deviceId))
      ensures s.authorization.Some? <==> Truthy(session)
      ensures Truthy(session) ==> s.authorization == Some(BearerPrefix + session.value)
    {
      Submission(VoteRoute.VoteBody(VoteRoute.VoteInput(pollId, selected, deviceId)),
                 if Truthy(session) then Some(BearerPrefix + session.value) else None)
    }

    /** `handleVote`. Without a selection, or on a strict poll with nobody
        signed in, nothing is sent. Otherwise the vote is sent; only a
        successful response changes the tally, optimistically: the counts
        move from the confirmed option to the selected one and the total
        grows only on a first vote. A 409 only marks the poll as voted. */
    method HandleVote(session: Option<string>, response: Response) returns (outcome: VoteOutcome, sent: Option<Submission>)
      requires Valid()
      modifies this`votes, this`totalVotes, this`confirmedOption, this`hasVoted
      ensures Valid()
      ensures selectedOption.None? ==> outcome == NoSelection && sent.None?
      ensures selectedOption.Some? && requireLogin && user.None? ==> outcome == LoginFirst && sent.None?
      ensures selectedOption.Some? && !(requireLogin && user.None?) ==>
        sent == Some(SubmissionFor(selectedOption.value, session))
      ensures outcome == Recorded <==> sent.Some? && response.Responded? && 200 <= response.status <= 299
      ensures outcome == Recorded ==>
        hasVoted && confirmedOption == selectedOption &&
        votes == Moved(old(votes), old(confirmedOption), selectedOption.value) &&
        totalVotes == old(totalVotes) + (if old(confirmedOption).None? then 1 else 0)
      ensures outcome != Recorded ==>
        votes == old(votes) && totalVotes == old(totalVotes) && confirmedOption == old(confirmedOption)
      ensures outcome != Recorded && outcome != AlreadyVoted ==> hasVoted == old(hasVoted)
      ensures outcome == AlreadyVoted <==> sent.Some? && response.Responded? && response.status == 409
      ensures outcome == AlreadyVoted ==> hasVoted
      ensures outcome == LoginRejected <==> sent.Some? && response.Responded? && response.status == 401
      ensures outcome == Failed <==>
        sent.Some? && (response.Threw? || !(200 <= response.status <= 299 || response.status == 409 || response.status == 401))
    {
      if selectedOption.None? {
        return NoSelection, None;
      }
      if requireLogin && user.None? {
        return LoginFirst, None;
      }
      var selected := selectedOption.value;
      var submission := SubmissionFor(selected, session);
      sent := Some(submission);

      if response.Threw? {
        return Failed, sent;
      }
      if !(200 <= response.status <= 299) {
        if response.status == 409 {
          hasVoted := true;
          outcome := AlreadyVoted;
        } else if response.status == 401 {
          outcome := LoginRejected;
        } else {
          outcome := Failed;
        }
        return;
      }

      var previous := confirmedOption;
      hasVoted := true;
      confirmedOption := selectedOption;

      var newVotes := votes;
      if previous.Some? && 0 <= previous.value < |newVotes| {
        newVotes := newVotes[previous.value := Max0(newVotes[previous.value] - 1)];
      }
      if 0 <= selected < |newVotes| {
        newVotes := newVotes[selected := newVotes[selected] + 1];
      }
      votes := newVotes;
      if previous.None? {
        totalVotes := totalVotes + 1;
      }
      outcome := Recorded;
    }
  }

  /** The counting loop of `fetchVotes`: a fresh zero-filled array, one
      increment per row whose index names an option. */
  method CountRows(rows: seq<int>, n: nat) returns (counts: seq<int>)
    ensures |counts| == n
    ensures forall i :: 0 <= i < n ==> counts[i] == multiset(rows)[i]
  {
    var a := new int[n](_ => 0);
    var j := 0;
    while j < |rows|
      invariant 0 <= j <= |rows|
      invariant a[..] == Tally(rows[..j], n)
    {
      var x := rows[j];
      if 0 <= x < n {
        a[x] := a[x] + 1;
      }
      TallySnoc(rows[..j], x, n);
      assert rows[..j + 1] == rows[..j] + [x];
      j := j + 1;
    }
    assert rows[..|rows|] == rows;
    counts := a[..];
  }

  // ----- What the tally promises -----

  /** One more row adds one to its option's count, if it names an option. */
  lemma TallySnoc(rows: seq<int>, x: int, n: nat)
    ensures Tally(rows + [x], n) == Bump(Tally(rows, n), x)
  {
    assert multiset(rows + [x]) == multiset(rows) + multiset{x};
  }

  /** Changing one entry changes the sum by the difference. */
  lemma {:induction false} SumUpdate(s: seq<int>, i: int, v: int)
    requires 0 <= i < |s|
    ensures Sum(s[i := v]) == Sum(s) - s[i] + v
  {
    if i > 0 {
      assert s[i := v][1..] == s[1..][i - 1 := v];
      SumUpdate(s[1..], i - 1, v);
    } else {
      assert s[i := v][1..] == s[1..];
    }
  }

  lemma {:induction false} SumZeros(n: nat)
    ensures Sum(seq(n, _ => 0)) == 0
  {
    if n > 0 {
      assert seq(n, _ => 0)[1..] == seq(n - 1, _ => 0);
      SumZeros(n - 1);
    }
  }

  /** A recount yields one entry per option, and the entries add up to the
      number of rows that name an option: at most the total the recount
      sets, and exactly it when every row names an option. */
  lemma {:induction false} RecountSum(rows: seq<int>, n: nat)
    ensures |Tally(rows, n)| == n && NonNegative(Tally(rows, n))
    ensures Sum(Tally(rows, n)) == InRange(rows, n) <= |rows|
    ensures (forall j :: 0 <= j < |rows| ==> 0 <= rows[j] < n) ==> Sum(Tally(rows, n)) == |rows|
  {
    if rows == [] {
      assert Tally(rows, n) == seq(n, _ => 0);
      SumZeros(n);
    } else {
      var init, x := rows[..|rows| - 1], rows[|rows| - 1];
      assert rows == init + [x];
      RecountSum(init, n);
      TallySnoc(init, x, n);
      BumpSum(Tally(init, n), x);
    }
  }

  /** A counted INSERT adds exactly one to the sum of the counts when its
      index names an option, and nothing otherwise; so a sum bounded by the
      total stays bounded by the total, which also grows by one. */
  lemma BumpSum(votes: seq<int>, i: int)
    ensures Sum(Bump(votes, i)) == Sum(votes) + (if 0 <= i < |votes| then 1 else 0)
  {
    if 0 <= i < |votes| {
      SumUpdate(votes, i, votes[i] + 1);
    }
  }

  /** The optimistic update never makes a count negative (the floor at 0)
      and keeps one entry per option. */
  lemma MovedNonNegative(votes: seq<int>, previous: Option<int>, selected: int)
    requires NonNegative(votes)
    ensures NonNegative(Moved(votes, previous, selected)) && |Moved(votes, previous, selected)| == |votes|
  {
  }

  /** Switching from option `a` to option `b`, where `a` holds at least one
      vote, moves one vote: the sum of the counts is unchanged, and so is
      the total (it grows only on a first vote). */
  lemma SwitchKeepsSum(votes: seq<int>, a: int, b: int)
    requires 0 <= a < |votes| && 0 <= b < |votes| && votes[a] >= 1
    ensures Sum(Moved(votes, Some(a), b)) == Sum(votes)
  {
    var removed := votes[a := votes[a] - 1];
    MovedIsTwoUpdates(votes, a, b);
    SumUpdate(votes, a, votes[a] - 1);
    SumUpdate(removed, b, removed[b] + 1);
  }

  /** The optimistic update away from an option holding a vote is one
      decrement followed by one increment. */
  lemma MovedIsTwoUpdates(votes: seq<int>, a: int, b: int)
    requires 0 <= a < |votes| && 0 <= b < |votes| && votes[a] >= 1
    ensures Moved(votes, Some(a), b) == votes[a := votes[a] - 1][b := votes[a := votes[a] - 1][b] + 1]
  {
    assert Max0(votes[a] - 1) == votes[a] - 1;
  }

  /** A first vote for an option adds one to its count and one to the sum. */
  lemma FirstVoteAddsOne(votes: seq<int>, b: int)
    requires 0 <= b < |votes|
    ensures Sum(Moved(votes, None, b)) == Sum(votes) + 1
    ensures Moved(votes, None, b) == Bump(votes, b)
  {
    SumUpdate(votes, b, votes[b] + 1);
  }

  /** Exactly the options with the largest count are winners, provided a
      vote was cast; with a vote cast, some option is a winner. */
  lemma WinnerIsTop(votes: seq<int>, totalVotes: int, i: int)
    requires 0 <= i < |votes|
    ensures IsWinner(votes, totalVotes, i) <==>
      totalVotes > 0 && forall j :: 0 <= j < |votes| ==> votes[j] <= votes[i]
    ensures totalVotes > 0 ==> exists k :: 0 <= k < |votes| && IsWinner(votes, totalVotes, k)
  {
    var m := MaxCount(votes);
    var k :| 0 <= k < |votes| && votes[k] == m;
    assert totalVotes > 0 ==> IsWinner(votes, totalVotes, k);
  }

  /** The earlier-vote lookup reads the very row the vote handler writes for
      this viewer: on a strict poll the server keys on the resolved user,
      who is the signed-in user; on an open poll on the device. */
  lemma {:induction false} LookupFindsOwnVote(
    view: LiveTally, polls: map<string, PollRow>, sessions: Sessions, session: Option<string>, selected: int)
    requires view.pollId in polls && polls[view.pollId].requireLogin == view.requireLogin
    requires view.requireLogin ==> view.user.Some? && Truthy(session) && session.value in sessions &&
                                   sessions[session.value] == view.user.value
    requires IsUuid(view.pollId) && view.deviceId != "" && selected >= 0
    ensures var s := view.SubmissionFor(selected, session);
      var p := VoteRoute.PlanVote(polls, VoteRoute.VoteRequest(Some(s.body), s.authorization, None), sessions, false);
      p.Write? && p.key == VoteKey(view.pollId, PriorVoteKey(view.requireLogin, view.user, view.deviceId))
  {
    var s := view.SubmissionFor(selected, session);
    VoteRoute.VoteBodyRoundTrip(VoteRoute.VoteInput(view.pollId, selected, view.deviceId));
    if view.requireLogin {
      BearerTokenOfHeader(session.value);
    }
  }
}
