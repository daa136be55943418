/** The dashboard's `fetchData`: the polls the user created, as the query
    returns them, and the polls the user voted in, one entry per poll, built
    by putting each vote row's joined poll into a JavaScript `Map` keyed by
    poll id. */
module DashboardPage {
  import opened Common
  import opened Backend

  /** A row of the voted-polls query: the vote's `poll_id` and the joined
      poll, null when the join found none. */
  datatype VotedRow = VotedRow(pollId: string, poll: Option<PollRow>)

  /** A row that is put into the map. */
  predicate Counted(row: VotedRow) {
    row.poll.Some?
  }

  // ----- Specification of the voted list -----

  /** The map's keys in insertion order: the poll ids of the counted rows,
      each where it first occurs. */
  function FirstKeys(rows: seq<VotedRow>): (keys: seq<string>)
    ensures |keys| <= |rows|
  {
    if rows == [] then []
    else
      var keys := FirstKeys(rows[..|rows| - 1]);
      var last := rows[|rows| - 1];
      if !Counted(last) || last.pollId in keys then keys else keys + [last.pollId]
  }

  /** The poll of the last counted row for `key`, if any. */
  function LastPoll(rows: seq<VotedRow>, key: string): Option<PollRow> {
    if rows == [] then None
    else
      var last := rows[|rows| - 1];
      if Counted(last) && last.pollId == key then last.poll else LastPoll(rows[..|rows| - 1], key)
  }

  predicate NoDuplicates(keys: seq<string>) {
    forall i, j :: 0 <= i < j < |keys| ==> keys[i] != keys[j]
  }

  /** The entries of `Array.from(votedMap.values())`. */
  ghost predicate IsVotedList(rows: seq<VotedRow>, voted: seq<PollRow>) {
    |voted| == |FirstKeys(rows)| &&
    forall i :: 0 <= i < |voted| ==> LastPoll(rows, FirstKeys(rows)[i]) == Some(voted[i])
  }

  // ----- The page -----

  /** The `forEach` over the vote rows with `votedMap.set(poll_id, polls)`
      for each row whose poll is not null, then `Array.from(values())`. A
      JavaScript `Map` keeps a key where it was first inserted and the
      value it was last given. */
  method BuildVotedList(rows: seq<VotedRow>) returns (voted: seq<PollRow>)
    ensures IsVotedList(rows, voted)
  {
    var keys: seq<string> := [];
    var values: map<string, PollRow> := map[];
    var n := 0;
    while n < |rows|
      invariant 0 <= n <= |rows|
      invariant keys == FirstKeys(rows[..n])
      invariant forall k :: k in keys <==> k in values
      invariant forall k :: k in values ==> LastPoll(rows[..n], k) == Some(values[k])
    {
      var row := rows[n];
      assert rows[..n + 1][..n] == rows[..n];
      if row.poll.Some? {
        if row.pollId !in values {
          keys := keys + [row.pollId];
        }
        values := values[row.pollId := row.poll.value];
      }
      n := n + 1;
    }
    assert rows[..n] == rows;
    voted := seq(|keys|, i requires 0 <= i < |keys| => values[keys[i]]);
  }

  class Dashboard {
    var createdPolls: seq<PollRow>
    var votedPolls: seq<PollRow>
    var loading: bool

    constructor ()
      ensures createdPolls == [] && votedPolls == [] && loading
    {
      createdPolls := [];
      votedPolls := [];
      loading := true;
    }

    /** `fetchData`: `created || []`, then the voted list (no rows when the
        query returned null), then loading ends. */
    method FetchData(created: Option<seq<PollRow>>, votes: Option<seq<VotedRow>>)
      modifies this
      ensures createdPolls == (if created.Some? then created.value else [])
      ensures IsVotedList(if votes.Some? then votes.value else [], votedPolls)
      ensures !loading
    {
      createdPolls := if created.Some? then created.value else [];
      var rows := if votes.Some? then votes.value else [];
      votedPolls := BuildVotedList(rows);
      loading := false;
    }
  }

  // ----- What the voted list promises -----

  /** Each poll id appears at most once. */
  lemma {:induction false} FirstKeysUnique(rows: seq<VotedRow>)
    ensures NoDuplicates(FirstKeys(rows))
  {
    if rows != [] {
      FirstKeysUnique(rows[..|rows| - 1]);
    }
  }

  /** A poll id is listed exactly when some row with that id has a poll: rows
      whose joined poll is null are skipped, and every other row is
      represented. */
  lemma {:induction false} ListedIffCounted(rows: seq<VotedRow>, key: string)
    ensures key in FirstKeys(rows) <==> exists j :: 0 <= j < |rows| && rows[j].pollId == key && Counted(rows[j])
    ensures key in FirstKeys(rows) <==> LastPoll(rows, key).Some?
  {
    if rows != [] {
      var init := rows[..|rows| - 1];
      ListedIffCounted(init, key);
      if exists j :: 0 <= j < |init| && init[j].pollId == key && Counted(init[j]) {
        var j :| 0 <= j < |init| && init[j].pollId == key && Counted(init[j]);
        assert rows[j] == init[j];
      }
      if exists j :: 0 <= j < |rows| && rows[j].pollId == key && Counted(rows[j]) {
        var j :| 0 <= j < |rows| && rows[j].pollId == key && Counted(rows[j]);
        if j < |init| {
          assert init[j] == rows[j];
        }
      }
    }
  }

  /** The value kept for a poll id is the poll of the LAST counted row with
      that id. */
  lemma {:induction false} LastValueWins(rows: seq<VotedRow>, key: string, j: nat)
    requires j < |rows| && rows[j].pollId == key && Counted(rows[j])
    requires forall k :: j < k < |rows| ==> !(rows[k].pollId == key && Counted(rows[k]))
    ensures LastPoll(rows, key) == rows[j].poll
  {
    if j < |rows| - 1 {
      var init := rows[..|rows| - 1];
      LastValueWins(init, key, j);
    }
  }

  /** The index of the first counted row with poll id `key`. */
  function FirstIndex(rows: seq<VotedRow>, key: string): (j: nat)
    requires key in FirstKeys(rows)
    ensures j < |rows| && rows[j].pollId == key && Counted(rows[j])
    ensures forall k :: 0 <= k < j ==> !(rows[k].pollId == key && Counted(rows[k]))
  {
    var init := rows[..|rows| - 1];
    if key in FirstKeys(init) then
      var j := FirstIndex(init, key);
      assert rows[j] == init[j];
      assert forall k :: 0 <= k < j ==> rows[k] == init[k];
      j
    else
      ListedIffCounted(init, key);
      assert forall k :: 0 <= k < |init| ==> rows[k] == init[k];
      |rows| - 1
  }

  /** The list is in order of first occurrence: an entry before another was
      first voted on before the other. */
  lemma {:induction false} FirstOccurrenceOrder(rows: seq<VotedRow>, a: nat, b: nat)
    requires a < b < |FirstKeys(rows)|
    ensures FirstIndex(rows, FirstKeys(rows)[a]) < FirstIndex(rows, FirstKeys(rows)[b])
  {
    var init := rows[..|rows| - 1];
    var keys := FirstKeys(rows);
    FirstKeysUnique(rows);
    if b < |FirstKeys(init)| {
      FirstOccurrenceOrder(init, a, b);
    } else {
      assert keys[a] in FirstKeys(init);
      assert keys[b] !in FirstKeys(init);
    }
  }
}
