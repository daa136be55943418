/** The hosted backend as the two route handlers see it: the `polls` and
    `votes` tables, bearer-token resolution, and the two string checks the
    handlers apply to what they receive (the UUID form of a poll id and the
    `Authorization` header). */
module Backend {
  import opened Common

  /** A row of the `polls` table. */
  datatype PollRow = PollRow(
    id: string,
    question: string,
    options: seq<string>,
    requireLogin: bool,
    creatorId: Option<string>)

  /** A row of the `votes` table. */
  datatype VoteRow = VoteRow(
    pollId: string,
    optionIndex: int,
    deviceId: string,
    userId: Option<string>,
    ipAddress: string)

  /** Who cast a vote, as far as one uniqueness constraint of `votes` is
      concerned: the signed-in user or the browser's device id. */
  datatype VoterKey = ByUser(userId: string) | ByDevice(deviceId: string)

  /** The conflict target of an upsert: `(poll_id, user_id)` or
      `(poll_id, device_id)`. */
  datatype VoteKey = VoteKey(pollId: string, voter: VoterKey)

  /** The two tables. A poll is found by its id; the votes table holds at
      most one row per conflict target. */
  class Database {
    var polls: map<string, PollRow>
    var votes: map<VoteKey, VoteRow>

    constructor ()
      ensures polls == map[] && votes == map[]
    {
      polls := map[];
      votes := map[];
    }
  }

  /** Bearer tokens the auth provider can resolve, each to a user id. */
  type Sessions = map<string, string>

  predicate IsHexDigit(c: char) {
    '0' <= c <= '9' || 'a' <= c <= 'f' || 'A' <= c <= 'F'
  }

  /** The string form of a UUID (section 4 of RFC 9562): 32 hexadecimal
      digits in groups of 8-4-4-4-12 separated by hyphens, either case. */
  predicate IsUuid(s: string) {
    |s| == 36 &&
    forall i :: 0 <= i < 36 ==>
      if i == 8 || i == 13 || i == 18 || i == 23 then s[i] == '-' else IsHexDigit(s[i])
  }

  /** `pat` occurs in `s` starting at index `j`. */
  predicate OccursAt(s: string, pat: string, j: int) {
    0 <= j && j + |pat| <= |s| && s[j..j + |pat|] == pat
  }

  /** The index of the first occurrence of `pat` in `s`, or -1
      (JavaScript's `indexOf` on strings). */
  function IndexOfText(s: string, pat: string): (k: int)
    requires pat != []
    ensures k == -1 || OccursAt(s, pat, k)
    ensures k >= 0 ==> forall j :: 0 <= j < k ==> !OccursAt(s, pat, j)
    ensures k == -1 ==> forall j :: !OccursAt(s, pat, j)
    decreases |s|
  {
    if |s| < |pat| then -1
    else if s[..|pat|] == pat then 0
    else
      var k := IndexOfText(s[1..], pat);
      assert forall j :: 1 <= j ==> OccursAt(s, pat, j) == OccursAt(s[1..], pat, j - 1) by {
        forall j | 1 <= j ensures OccursAt(s, pat, j) == OccursAt(s[1..], pat, j - 1) {
          if j + |pat| <= |s| { assert s[1..][j - 1..j - 1 + |pat|] == s[j..j + |pat|]; }
        }
      }
      if k == -1 then -1 else k + 1
  }

  /** `s.replace(pat, "")` with a string pattern: only the FIRST occurrence
      of `pat` is removed, wherever it is; without one, `s` is unchanged. */
  function RemoveFirst(s: string, pat: string): (r: string)
    requires pat != []
    ensures (forall j :: !OccursAt(s, pat, j)) ==> r == s
    ensures forall k :: OccursAt(s, pat, k) && (forall j :: 0 <= j < k ==> !OccursAt(s, pat, j)) ==>
      r == s[..k] + s[k + |pat|..]
  {
    var k := IndexOfText(s, pat);
    if k == -1 then s else s[..k] + s[k + |pat|..]
  }

  const BearerPrefix: string := "Bearer "

  /** The token the handlers pass to the auth provider: the header itself
      exactly when it does not contain `Bearer `, and otherwise the header
      with one `Bearer ` taken out. */
  function BearerToken(header: string): (r: string)
    ensures r == header <==> forall j :: !OccursAt(header, BearerPrefix, j)
    ensures r == header || |r| + |BearerPrefix| == |header|
  {
    RemoveFirst(header, BearerPrefix)
  }

  /** `if (authHeader)`: a header that is absent or empty is falsy. */
  predicate Truthy(header: Option<string>) {
    header.Some? && header.value != ""
  }

  /** The user the `Authorization` header identifies, if it is truthy and
      its token resolves. */
  function ResolveUser(header: Option<string>, sessions: Sessions): (u: Option<string>)
    ensures u.Some? <==> Truthy(header) && BearerToken(header.value) in sessions
    ensures u.Some? ==> u.value == sessions[BearerToken(header.value)]
  {
    if Truthy(header) && BearerToken(header.value) in sessions
    then Some(sessions[BearerToken(header.value)])
    else None
  }

  /** The header a client sends: `Bearer ` followed by the token yields the
      token back, whatever the token holds. */
  lemma {:induction false} BearerTokenOfHeader(token: string)
    ensures BearerToken(BearerPrefix + token) == token
  {
    var h := BearerPrefix + token;
    assert h[..|BearerPrefix|] == BearerPrefix;
    assert IndexOfText(h, BearerPrefix) == 0;
    assert h[|BearerPrefix|..] == token;
  }

  /** A header that does not mention `Bearer ` is passed on unchanged. */
  lemma BearerTokenWithoutPrefix(header: string)
    requires forall j :: !OccursAt(header, BearerPrefix, j)
    ensures BearerToken(header) == header
  {
  }

  /** Because the first occurrence is removed wherever it is, text in
      front of the first `Bearer ` survives: `<x>Bearer <t>` yields `<x><t>`
      (so `xBearer t` yields `xt`). */
  lemma {:induction false} BearerTokenInside(x: string, t: string)
    requires forall j :: 0 <= j < |x| ==> !OccursAt(x + BearerPrefix + t, BearerPrefix, j)
    ensures BearerToken(x + BearerPrefix + t) == x + t
  {
    var h := x + BearerPrefix + t;
    assert h[|x|..|x| + |BearerPrefix|] == BearerPrefix;
    assert OccursAt(h, BearerPrefix, |x|);
    var k := IndexOfText(h, BearerPrefix);
    assert k == |x|;
    assert h[..|x|] == x;
    assert h[|x| + |BearerPrefix|..] == t;
  }
}
