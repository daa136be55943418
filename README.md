# Live poll — a Dafny model of the voting core

LivePoll is a small web application. A user creates a poll: a question, at
least two options, and an optional "login required" flag. Anyone with the
link can vote, and the results update live in every open browser. This
project models the parts of the application that decide what is stored and
what is shown:

- **Vote endpoint** (`POST /api/vote`): checks the body, looks up the poll,
  demands a resolved user on a login-required ("strict") poll, and upserts
  one vote row. On a strict poll the row is keyed on `(poll_id, user_id)`;
  otherwise it is keyed on `(poll_id, device_id)`.
- **Poll endpoint** (`POST /api/poll`): checks the body and inserts a poll.
  Its creator is the user the bearer token resolves to, when it resolves.
- **Poll view**: the live tally. A full recount of the poll's vote rows,
  realtime INSERT events that skip echoes of the viewer's own vote, a
  recount on UPDATE events, and the optimistic update after the viewer's
  own vote succeeds. Also the lookup of the viewer's earlier vote and the
  winner highlight.
- **Join page**: turns a typed poll id or poll link into the path to
  navigate to.
- **Create page**: the option-list form, its client-side schema, and the
  body it sends.
- **Dashboard**: the list of polls the user voted in, made unique per poll.

Modules, one per source file plus two shared ones:

| module | file | models |
|---|---|---|
| `Common` | common.dfy | `Option` (the source's `null`) and JSON values, so schema checks can tell an absent key from `null` and from a wrong type |
| `Backend` | backend.dfy | the `polls` and `votes` tables (class `Database`), bearer-token resolution as a map from token to user id, the UUID check |
| `VoteRoute` | vote_route.dfy | app/api/vote/route.ts |
| `PollRoute` | poll_route.dfy | app/api/poll/route.ts |
| `PollView` | poll_view.dfy | components/poll-view.tsx (class `LiveTally`) |
| `JoinPage` | join_page.dfy | app/join/page.tsx |
| `CreatePage` | create_page.dfy | app/create/page.tsx (class `CreateForm`) |
| `DashboardPage` | dashboard_page.dfy | app/dashboard/page.tsx (class `Dashboard`) |

Backend calls become parameters:
- the rows a query returns;
- a boolean for each error the backend may report;
- the id the store assigns to a new poll;
- the token-to-user map.

Each route handler is a module-level method that takes a `Database` and
updates its tables. Its new state is tied to a pure plan function
(`PlanVote`, `PlanPoll`). The properties are proved about those plan
functions.

One behaviour of the code is easy to miss, and the model follows the
code. The vote handler resolves `user_id` only on strict polls
(app/api/vote/route.ts:37-61). On an open poll, a vote from a signed-in
user is therefore stored with a null `user_id` and keyed on the device.
`VoteRoute.StoredRow` and `VoteRoute.OpenPollKeyedOnDevice` state this.

## Model

| member | source | states |
|---|---|---|
| Common.Field | app/api/vote/route.ts:15 | a schema reads a key exactly when the body is an object that has that key, and gets that key's value |
| Common.StringItems | app/api/poll/route.ts:7 | `z.array(z.string())` accepts an array exactly when every item is a string, and yields those strings in order and in number |
| Common.StringArray | app/create/page.tsx:61 | the JSON array of a list of strings reads back as exactly that list |
| Backend.IndexOfText | app/api/vote/route.ts:52 | the result is the first position where the pattern occurs, or -1 exactly when it occurs nowhere |
| Backend.RemoveFirst | app/api/vote/route.ts:52 | `replace` with a string pattern leaves the text unchanged when the pattern does not occur, and otherwise removes exactly the first occurrence |
| Backend.BearerToken | app/api/poll/route.ts:31 | the token is the header itself exactly when the header holds no `Bearer `, and is otherwise seven characters shorter |
| Backend.ResolveUser | app/api/vote/route.ts:50-57 | a user is resolved exactly when the header is present and non-empty and its token (first `Bearer ` removed) is a known session; that user is the session's user |
| Backend.BearerTokenOfHeader | components/poll-view.tsx:178-180 | the header `Bearer <token>` a client sends yields `<token>` back, whatever the token holds |
| Backend.BearerTokenWithoutPrefix | app/api/poll/route.ts:31 | a header that does not contain `Bearer ` is passed on unchanged |
| Backend.BearerTokenInside | app/api/vote/route.ts:52 | `replace` removes the first `Bearer ` wherever it is: for any text `x` holding no earlier `Bearer ` and any `t`, `x` + `Bearer ` + `t` yields `x` + `t` |
| VoteRoute.ValidateVote | app/api/vote/route.ts:6-10 | an accepted body has a UUID `poll_id`, an `option_index` of at least 0, and a non-empty `device_id` |
| VoteRoute.VoteBodyRoundTrip | app/api/vote/route.ts:6-10 | the body the poll view sends is accepted exactly when its three fields meet the schema, and is then read back unchanged |
| VoteRoute.ConflictKey | app/api/vote/route.ts:83 | the conflict target is on the user exactly when the row has a user id, and on the device otherwise, always within the row's poll |
| VoteRoute.ClientAddress | app/api/vote/route.ts:24 | the stored address is never empty: the `x-forwarded-for` header when it is present and non-empty, `unknown` otherwise |
| VoteRoute.PlanVote | app/api/vote/route.ts:14-86 | a rejection never carries status 200; a write is always at the row's own conflict target |
| VoteRoute.Apply | app/api/vote/route.ts:80-86 | an upsert puts the row at its key; every other row stays as it was; the key set grows by at most that key |
| VoteRoute.Post | app/api/vote/route.ts:12-98 | the reply and the new votes table are those of the plan: unchanged on every rejection, on a storage error and on an upsert the unique constraints refuse; the plan's row upserted otherwise |
| VoteRoute.Clashes | app/api/vote/route.ts:73-86 | the store refuses an upsert when a row at another key holds the same poll and device, or the same poll and user |
| VoteRoute.UpsertKeepsDevicesUnique | app/api/vote/route.ts:80-86 | an upsert the store accepts keeps every device to at most one row per poll |
| VoteRoute.SecondUserOnDeviceRefused | app/api/vote/route.ts:76-90 | on a strict poll, a second user voting from a device that already holds another user's vote is refused, which the handler answers with a 500 |
| VoteRoute.WriteExactlyWhen | app/api/vote/route.ts:17-61 | a vote is written exactly when the body is valid, the poll is found, and the poll is open or the caller's token resolves |
| VoteRoute.GuardChain | app/api/vote/route.ts:13-35 | an unreadable body is a 500 and an invalid one a 400, both before the poll lookup; an unknown poll is a 404 before any token is checked |
| VoteRoute.StrictPollNeedsUser | app/api/vote/route.ts:39-60 | on a strict poll, a missing or empty header is 401 "login required" and an unresolved token is 401 "authentication required" |
| VoteRoute.StoredRow | app/api/vote/route.ts:21-24 | the stored row carries the request's poll id, option index, device id and address (or `unknown`), and has a user id exactly on strict polls, the resolved one |
| VoteRoute.OpenPollKeyedOnDevice | app/api/vote/route.ts:37-39 | on an open poll the Authorization header changes nothing, and the vote is keyed on the device |
| VoteRoute.OptionIndexNotRangeChecked | app/api/vote/route.ts:8 | an `option_index` past the poll's last option is stored all the same |
| VoteRoute.LastWriteWins | app/api/vote/route.ts:80-86 | two writes at the same conflict target leave the later row; the rest of the table is as after the later write alone |
| VoteRoute.PlanKeepsKeysFollowingPolls | app/api/vote/route.ts:37-86 | every request preserves the table invariant: each row sits at its own conflict target within a known poll, keyed on a user exactly when that poll is strict |
| PollRoute.RequireLoginField | app/api/poll/route.ts:8 | an absent `require_login` reads as false |
| PollRoute.AcceptablePoll | app/api/poll/route.ts:6-7 | the server schema's conditions: a non-empty question, at least two options, none of them empty |
| PollRoute.ValidatePoll | app/api/poll/route.ts:5-9 | an accepted body has a non-empty question and at least two options, none of them empty |
| PollRoute.PlanPoll | app/api/poll/route.ts:13-36 | a poll that is going to be inserted always satisfies the schema |
| PollRoute.Post | app/api/poll/route.ts:11-55 | an unreadable body is a 500, an invalid one a 400, and a failed insert a 500, each with `polls` unchanged; otherwise exactly the planned row is added under the new id and returned |
| PollRoute.PollBodyRoundTrip | app/api/poll/route.ts:5-9 | a body with a question, options and a flag is accepted exactly when the question and options are acceptable, and is read back unchanged |
| PollRoute.AcceptedBodyShape | app/api/poll/route.ts:16-25 | every accepted body holds a string question, an array of strings and a boolean or absent flag, and these are what the schema yields |
| PollRoute.RequireLoginDefaultsToFalse | app/api/poll/route.ts:8 | a body without `require_login` creates an open poll |
| PollRoute.CreatorNeverRejects | app/api/poll/route.ts:27-36 | the Authorization header never decides acceptance; the creator is the resolved user when the header is truthy and resolves, and nobody otherwise |
| PollRoute.SignedInClientIsCreator | app/api/poll/route.ts:28-41 | a client sending `Bearer <token>` with a token that resolves is recorded as the creator |
| PollView.Tally | components/poll-view.tsx:124-129 | a recount has one count per option, each between 0 and the number of rows |
| PollView.IsEcho | components/poll-view.tsx:78 | an insert is the viewer's own when it has this device id, or the signed-in user's id |
| PollView.IsWinner | components/poll-view.tsx:416 | an option is highlighted when its count is the largest and some vote was cast |
| PollView.InRange | components/poll-view.tsx:126 | the number of rows that name an option is at most the number of rows |
| PollView.Bump | components/poll-view.tsx:83-89 | one more vote for option `i` adds one at `i` when `i` is an option, and nothing anywhere else |
| PollView.Moved | components/poll-view.tsx:206-219 | after the optimistic update, the previously confirmed option has one vote fewer (floored at 0), the selected one has one vote more, and every other count is unchanged |
| PollView.PriorVoteKey | components/poll-view.tsx:60-64 | the earlier vote is looked up by user exactly on a strict poll with someone signed in, and then by that user's id; otherwise by this device's id |
| PollView.MaxCount | components/poll-view.tsx:416 | `Math.max(...votes)` is one of the counts and is at least every count |
| PollView.LiveTally.constructor | components/poll-view.tsx:26-31 | every count starts at 0, with one per option; total 0; nothing selected or voted; loading |
| PollView.LiveTally.Recount | components/poll-view.tsx:113-133 | a fetch error changes nothing; otherwise the counts are the tally of the rows, the total is the number of rows, and loading ends |
| PollView.LiveTally.Mount | components/poll-view.tsx:51-65 | the user is recorded; the votes are recounted as `Recount` states, loading ending on a successful fetch; the lookup key is `PriorVoteKey` |
| PollView.LiveTally.ApplyPriorVote | components/poll-view.tsx:135-161 | a found earlier vote marks the poll as voted and selects and confirms its option; none changes nothing |
| PollView.LiveTally.Select | components/poll-view.tsx:318-324 | clicking an option, or choosing it in the radio group, selects it |
| PollView.LiveTally.ChangeVote | components/poll-view.tsx:494 | "Change My Vote" only clears the voted flag; the selection, the confirmed option and the tally stay |
| PollView.LiveTally.OnInsert | components/poll-view.tsx:72-91 | an echo of the viewer's own vote (same device or same signed-in user) changes nothing; any other insert bumps its option and adds one to the total |
| PollView.LiveTally.OnUpdate | components/poll-view.tsx:96-99 | an UPDATE event is handled by a full recount: nothing changes on a fetch error, otherwise the tally of the rows, their number as total, and loading done |
| PollView.LiveTally.SubmissionFor | components/poll-view.tsx:175-186 | the request body is the vote body for this poll, selection and device; an Authorization header is sent exactly when there is a session token, and it is `Bearer ` followed by that token |
| PollView.LiveTally.HandleVote | components/poll-view.tsx:163-225 | no selection, or a strict poll with nobody signed in, sends nothing; the vote counts as recorded exactly on a 2xx reply; a recorded vote moves the counts and adds to the total only on a first vote; anything else leaves the tally alone; the outcome is `AlreadyVoted` exactly on a 409, which marks the poll as voted, `LoginRejected` exactly on a 401, and `Failed` exactly when the request threw or gave any other non-2xx status |
| PollView.CountRows | components/poll-view.tsx:124-129 | the counting loop yields one count per option, and count `i` is the number of rows whose index is `i` |
| PollView.TallySnoc | components/poll-view.tsx:125-128 | each further row adds one to its option's count, or nothing when it names no option |
| PollView.SumUpdate | components/poll-view.tsx:86 | changing one count changes the sum of the counts by the difference |
| PollView.SumZeros | components/poll-view.tsx:29 | the initial counts add up to 0 |
| PollView.RecountSum | components/poll-view.tsx:124-131 | a recount's counts add up to the number of rows that name an option; that is at most the total it sets, and equal to it when every row names an option |
| PollView.BumpSum | components/poll-view.tsx:83-90 | a counted insert adds one to the sum exactly when its index names an option |
| PollView.MovedNonNegative | components/poll-view.tsx:210-212 | the optimistic update never makes a count negative, and keeps one count per option |
| PollView.SwitchKeepsSum | components/poll-view.tsx:206-224 | switching from an option that holds a vote to another moves one vote, so the sum of the counts is unchanged |
| PollView.FirstVoteAddsOne | components/poll-view.tsx:215-224 | a first vote adds one to its option and one to the sum |
| PollView.WinnerIsTop | components/poll-view.tsx:416 | an option is highlighted exactly when some vote was cast and no count is larger than its own; with a vote cast, some option is highlighted |
| PollView.LookupFindsOwnVote | components/poll-view.tsx:57-65 | the earlier-vote lookup reads the very key the vote endpoint writes this viewer's vote under |
| JoinPage.TrimStart | app/join/page.tsx:19 | what `trim` removes at the front is white space, and the result does not start with white space |
| JoinPage.TrimEnd | app/join/page.tsx:19 | what `trim` removes at the back is white space, and the result does not end with white space |
| JoinPage.Trim | app/join/page.tsx:19 | the trimmed input is a middle part of the input, with only white space around it and none at either end |
| JoinPage.Split | app/join/page.tsx:29 | `split('/')` gives slash-free pieces that join back, with '/', into the input |
| JoinPage.NonEmpty | app/join/page.tsx:29 | `filter(Boolean)` yields only non-empty pieces, each one from the input, and never more pieces than there were |
| JoinPage.NonEmptyKeepsPieces | app/join/page.tsx:29 | `filter(Boolean)` drops exactly the empty pieces: every non-empty piece is kept, as often as it occurs |
| JoinPage.NonEmptyConcat | app/join/page.tsx:29 | the kept pieces stay in their order: filtering a concatenation concatenates the filtered parts |
| JoinPage.IndexOf | app/join/page.tsx:31 | `indexOf('poll')` is the first position of `poll`, or -1 exactly when there is none |
| JoinPage.TakeUntil | app/join/page.tsx:28 | the host (or the path) is the longest prefix that holds none of the stop characters |
| JoinPage.DropLeadingSlashes | app/join/page.tsx:28 | only slashes are skipped before the host, and what remains does not start with one |
| JoinPage.Pathname | app/join/page.tsx:28 | a parsed pathname holds no `?` or `#`, and is empty or starts with `/` |
| JoinPage.IdFromSegments | app/join/page.tsx:31-36 | the id is one of the path's segments when there are any, and the input otherwise |
| JoinPage.ExtractId | app/join/page.tsx:22-42 | the id is the whole input, or one non-empty segment holding no slash |
| JoinPage.StripTrailingSlash | app/join/page.tsx:45 | exactly one trailing slash is removed when there is one; otherwise the id is unchanged |
| JoinPage.JoinTarget | app/join/page.tsx:19-20 | an empty or all-space input navigates nowhere |
| JoinPage.NavigatesToCleanId | app/join/page.tsx:44-52 | the page navigates to `/poll/` plus the cleaned-up id, and only when that id has at least five characters |
| JoinPage.PlainIdVerbatim | app/join/page.tsx:22-25 | input without '/' is the id as typed (trimmed), accepted when it has at least five characters |
| JoinPage.SegmentAfterPoll | app/join/page.tsx:31-33 | the segment after the first `poll` segment is the id |
| JoinPage.LastSegmentOtherwise | app/join/page.tsx:34-36 | with no segment after a `poll` segment, the last segment is the id, or the input when there are no segments |
| JoinPage.ParsedLinkUsesPath | app/join/page.tsx:28-36 | input that parses as a link takes its id from the link's path |
| JoinPage.UnparsableFallsBack | app/join/page.tsx:37-41 | input that does not parse takes the last non-empty slash-separated piece of the raw input |
| JoinPage.SplitAtSlash | app/join/page.tsx:29 | splitting at a slash gives the piece before it, followed by the split of the rest |
| JoinPage.SplitWithoutSlash | app/join/page.tsx:29 | a string without '/' splits into itself |
| JoinPage.TakeUntilStops | app/join/page.tsx:28 | a prefix free of stop characters, followed by a stop character or nothing, is exactly what is taken |
| JoinPage.TrimUnchanged | app/join/page.tsx:19 | a string that neither starts nor ends with white space trims to itself |
| JoinPage.PathnameOfLink | app/join/page.tsx:28 | `https://<host><path>` parses with pathname `<path>` |
| JoinPage.PollPathSegments | app/join/page.tsx:29 | the path `/poll/<id>` has the segments `poll` and `<id>` |
| JoinPage.JoinTargetOfTrimmed | app/join/page.tsx:19-52 | input that is already trimmed and gives an id of at least five characters navigates to `/poll/` plus that id |
| JoinPage.ShareLinkId | app/join/page.tsx:25-36 | a share link `https://<host>/poll/<id>` yields `<id>` |
| JoinPage.ShareLinkRoundTrip | app/join/page.tsx:17-52 | pasting a share link to a poll navigates to that poll |
| JoinPage.EmptyPathId | app/join/page.tsx:34-36 | a link with an empty path falls back to the whole input as the id |
| JoinPage.EmptyPathKeepsInput | app/join/page.tsx:22-52 | so `https://<host>/` navigates to `/poll/https://<host>`, not to a poll |
| CreatePage.FormValid | app/create/page.tsx:19-24 | the client schema's conditions: a question of at least five characters, at least two options, none of them empty |
| CreatePage.Values | app/create/page.tsx:61 | the option values are sent in the form's order and number |
| CreatePage.CreateForm.constructor | app/create/page.tsx:34-38 | the form starts with an empty question, two empty options and no login, and so is not valid |
| CreatePage.CreateForm.EditQuestion | app/create/page.tsx:20 | editing the question replaces it |
| CreatePage.CreateForm.EditOption | app/create/page.tsx:21 | editing option `i` replaces that option only |
| CreatePage.CreateForm.SetRequireLogin | app/create/page.tsx:23 | the switch sets the login flag |
| CreatePage.CreateForm.Append | app/create/page.tsx:193 | "add option" appends one empty option at the end and keeps the others |
| CreatePage.CreateForm.Remove | app/create/page.tsx:173-183 | with more than two options, option `i` is removed and the others keep their order; otherwise nothing changes; the list never drops below two |
| CreatePage.CreateForm.Submit | app/create/page.tsx:32-33 | a body is sent exactly when the form passes the client schema, and it is the body built from the form |
| CreatePage.DefaultFormInvalid | app/create/page.tsx:19-24 | the default form fails the client schema |
| CreatePage.ClientValidImpliesServerValid | app/create/page.tsx:46-63 | every form the client accepts, the server accepts too, reading back the question, the options in order and the flag |
| CreatePage.ServerLaxerThanClient | app/create/page.tsx:20 | the server accepts a question of one to four characters that the form refuses |
| DashboardPage.FirstKeys | app/dashboard/page.tsx:57-62 | the map has no more keys than there are vote rows |
| DashboardPage.BuildVotedList | app/dashboard/page.tsx:57-63 | the loop yields one poll per map key, in key order, each being the last poll set for that key |
| DashboardPage.Dashboard.constructor | app/dashboard/page.tsx:18-20 | empty lists, loading |
| DashboardPage.Dashboard.FetchData | app/dashboard/page.tsx:35-66 | a null created list becomes empty; the voted list is built from the vote rows (none when null); loading ends |
| DashboardPage.FirstKeysUnique | app/dashboard/page.tsx:57-63 | each poll id appears at most once in the voted list |
| DashboardPage.ListedIffCounted | app/dashboard/page.tsx:58-61 | a poll id is listed exactly when some vote row with that id has a non-null poll; rows with a null poll are skipped |
| DashboardPage.LastValueWins | app/dashboard/page.tsx:60 | the entry for a poll id is the poll of the last row with that id |
| DashboardPage.FirstIndex | app/dashboard/page.tsx:60 | a listed poll id has a first row that carries it with a non-null poll |
| DashboardPage.FirstOccurrenceOrder | app/dashboard/page.tsx:57-63 | entries are in the order of their first rows, since a key keeps its first insertion position |

## Left out

- Every backend call becomes a parameter: the auth provider, table queries, inserts, upserts and realtime channels. Results are rows, error flags are booleans, and sessions are a map from token to user id. The store's two unique constraints are modelled as a map keyed by the conflict target plus `VoteRoute.Clashes`, which refuses an upsert that would give a second row the same poll and device, or the same poll and user.
- The realtime subscription lifecycle and async ordering are not modelled: subscribe and teardown, overlapping recounts, and a recount racing the optimistic update. Each handler is one atomic step.
- Percentages, charts and all rendering are not modelled (components/poll-view.tsx:415 uses floating point).
- app/page.tsx (the landing page's random demo) and app/login/page.tsx are not part of this model.
- Device-id generation with `crypto.randomUUID` and `localStorage` is not modelled; the device id is a parameter.
- Toasts, router navigation, `isSubmitting` and the dashboard's sign-in redirect and logout are not modelled. Navigation shows up only as the outcome values `LoginFirst` and `LoginRejected`, and as `JoinPage.JoinTarget`'s result.
- The query ordering by `created_at` on the dashboard is not modelled. The rows are taken in whatever order the query returns them.
- JSON numbers are integers in this model: a fractional `option_index`, which the schema would accept, is not represented.
- `z.string().uuid()` is modelled as the 8-4-4-4-12 hexadecimal form of RFC 9562, section 4. Some zod versions also check the version and variant digits; which version the application uses is not part of this model.
- The rest of zod is not modelled either: error formatting, and unknown keys (which are ignored, as in the model).
- JoinPage.Pathname: the URL parser is approximated. Percent-encoding, dot segments, backslashes, ports, user info and host validation beyond "non-empty, no space" are not modelled, nor is the parser's removal of tab and newline characters from the input.
- CreatePage.FormValid: the question's `min(5)` is counted in Dafny characters (Unicode scalar values), not UTF-16 code units, so a question of three astral characters (such as emoji), which the page accepts, is refused by the model.
- JoinPage.Trim: lengths are counted in Dafny characters, not UTF-16 code units, so an id made of astral characters can differ in length from `String.length`.
- PollView.LiveTally.HandleVote: a response whose body is not JSON throws before the status is read. This is modelled as `Threw`, which is also how a network failure appears.
- PollView.LiveTally.Valid: the sum of the counts bounded by the total is not a class invariant. The optimistic update's floor at 0 and an out-of-range confirmed option can break it, so only one count per option, non-negative counts and a non-negative total are kept.
