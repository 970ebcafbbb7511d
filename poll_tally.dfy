/** The vote state of one poll message, `pollMetadata.options` together with
    `pollVotes`, the invariant that ties the two together, and the
    reconciliation that `MessageService.vote` performs on them, stated as a
    function of the state before the call. */
module PollTally {
  import opened Common

  type UserId = string

  /** `votedAt` is an opaque timestamp supplied by the caller. */
  type Timestamp = int

  /** One entry of `pollMetadata.options`. */
  datatype PollOption = PollOption(text: string, votes: int)

  /** One entry of `pollVotes`: the option indices one user has selected. */
  datatype PollVote = PollVote(userId: UserId, optionIndices: seq<int>, votedAt: Timestamp)

  /** The two arrays `vote` updates together. */
  datatype Tally = Tally(options: seq<PollOption>, votes: seq<PollVote>)

  /** What a successful vote does: nothing (the single-choice re-vote), or a
      new tally that the caller persists. */
  datatype VoteStep = Unchanged | Committed(next: Tally)

  /** 1 when the record selects option `k`. */
  function Hit(v: PollVote, k: int): nat
  {
    if k in v.optionIndices then 1 else 0
  }

  /** The number of vote records whose selection contains option `k`. */
  function Holders(records: seq<PollVote>, k: int): nat
  {
    if records == [] then 0
    else Holders(records[..|records| - 1], k) + Hit(records[|records| - 1], k)
  }

  /** Every counter equals the number of records selecting its option. */
  predicate CountsMatch(options: seq<PollOption>, records: seq<PollVote>)
  {
    forall k :: 0 <= k < |options| ==> options[k].votes == Holders(records, k)
  }

  /** Every selected index names an existing option. */
  predicate IndicesInRange(records: seq<PollVote>, n: int)
  {
    forall j, x :: 0 <= j < |records| && x in records[j].optionIndices ==> 0 <= x < n
  }

  /** A selection lists each index at most once. */
  predicate NoRepeats(s: seq<int>)
  {
    forall a, b :: 0 <= a < b < |s| ==> s[a] != s[b]
  }

  /** At most one record per user. */
  predicate DistinctUsers(records: seq<PollVote>)
  {
    forall a, b :: 0 <= a < b < |records| ==> records[a].userId != records[b].userId
  }

  /** Every record of a single-choice poll holds exactly one index. */
  predicate SingleSelections(records: seq<PollVote>)
  {
    forall j :: 0 <= j < |records| ==> |records[j].optionIndices| == 1
  }

  /** The poll invariant: counters agree with the records, selections are
      in range and free of repeats, one record per user, and a single-choice
      poll never has a record with more than one selection. */
  predicate Consistent(allowMultiple: bool, t: Tally)
  {
    && CountsMatch(t.options, t.votes)
    && IndicesInRange(t.votes, |t.options|)
    && (forall j :: 0 <= j < |t.votes| ==> NoRepeats(t.votes[j].optionIndices))
    && DistinctUsers(t.votes)
    && (!allowMultiple ==> SingleSelections(t.votes))
  }

  /** `pollVotes.find(v => v.userId.toString() === userId)`, as a position:
      the first record of that user, if any. */
  function FindVote(records: seq<PollVote>, userId: UserId): (r: Option<nat>)
    ensures r.Some? ==> r.value < |records| && records[r.value].userId == userId
    ensures r.Some? ==> forall j :: 0 <= j < r.value ==> records[j].userId != userId
    ensures r.None? <==> forall j :: 0 <= j < |records| ==> records[j].userId != userId
  {
    if records == [] then None
    else if records[0].userId == userId then Some(0)
    else match FindVote(records[1..], userId)
      case None => None
      case Some(j) => Some(j + 1)
  }

  /** `s.filter(i => i !== x)`: every other element is kept as often as it
      occurs, and `x` not at all. That the order is kept too is
      `PollTallyProofs.WithoutDistributes`. */
  function Without(s: seq<int>, x: int): (r: seq<int>)
    ensures forall y :: y in r <==> y in s && y != x
    ensures multiset(r) == multiset(s)[x := 0]
    ensures |r| <= |s|
  {
    if s == [] then []
    else
      assert s == [s[0]] + s[1..];
      if s[0] == x then Without(s[1..], x)
      else [s[0]] + Without(s[1..], x)
  }

  /** `options[k].votes++`. */
  function AddVote(options: seq<PollOption>, k: int): (r: seq<PollOption>)
    requires 0 <= k < |options|
    ensures |r| == |options|
    ensures r[k].text == options[k].text && r[k].votes == options[k].votes + 1
    ensures forall j :: 0 <= j < |r| && j != k ==> r[j] == options[j]
  {
    options[k := options[k].(votes := options[k].votes + 1)]
  }

  /** `options[k].votes = Math.max(0, options[k].votes - 1)`. */
  function RemoveVote(options: seq<PollOption>, k: int): (r: seq<PollOption>)
    requires 0 <= k < |options|
    ensures |r| == |options|
    ensures r[k].text == options[k].text && r[k].votes >= 0
    ensures options[k].votes >= 1 ==> r[k].votes == options[k].votes - 1
    ensures options[k].votes < 1 ==> r[k].votes == 0
    ensures forall j :: 0 <= j < |r| && j != k ==> r[j] == options[j]
  {
    options[k := options[k].(votes := if options[k].votes - 1 > 0 then options[k].votes - 1 else 0)]
  }

  /** The reconciliation `MessageService.vote` performs once the poll is
      loaded. An index that names no option makes the JavaScript read
      `.votes` of `undefined`, a TypeError that escapes before anything is
      persisted; so does a single-choice record with no index
      (`optionIndices[0]` is `undefined`). */
  function Reconcile(allowMultiple: bool, t: Tally, userId: UserId, optionIndex: int, now: Timestamp)
    : (r: Result<VoteStep, Failure>)
    ensures r.Err? ==> r.error == TypeError
    ensures r.Ok? && r.value.Committed? ==>
              0 <= optionIndex < |t.options| && |r.value.next.options| == |t.options|
  {
    var inRange := 0 <= optionIndex < |t.options|;
    match FindVote(t.votes, userId)
    case None =>
      if inRange then
        Ok(Committed(Tally(AddVote(t.options, optionIndex),
                           t.votes + [PollVote(userId, [optionIndex], now)])))
      else Err(TypeError)
    case Some(j) =>
      var prior := t.votes[j];
      if allowMultiple then
        if !inRange then Err(TypeError)
        else if optionIndex in prior.optionIndices then
          Ok(Committed(Tally(RemoveVote(t.options, optionIndex),
                             t.votes[j := prior.(optionIndices := Without(prior.optionIndices, optionIndex),
                                                 votedAt := now)])))
        else
          Ok(Committed(Tally(AddVote(t.options, optionIndex),
                             t.votes[j := prior.(optionIndices := prior.optionIndices + [optionIndex],
                                                 votedAt := now)])))
      else if |prior.optionIndices| > 0 && prior.optionIndices[0] == optionIndex then
        Ok(Unchanged)
      else if |prior.optionIndices| == 0 || !(0 <= prior.optionIndices[0] < |t.options|) || !inRange then
        Err(TypeError)
      else
        Ok(Committed(Tally(AddVote(RemoveVote(t.options, prior.optionIndices[0]), optionIndex),
                           t.votes[j := prior.(optionIndices := [optionIndex], votedAt := now)])))
  }

  /** The tally a caller holds after the call: the committed one, or the
      old one when the vote changed nothing or failed. */
  function StateAfter(t: Tally, r: Result<VoteStep, Failure>): Tally
  {
    if r.Ok? && r.value.Committed? then r.value.next else t
  }

  /** Sum of all option counters. */
  function TotalVotes(options: seq<PollOption>): int
  {
    if options == [] then 0 else TotalVotes(options[..|options| - 1]) + options[|options| - 1].votes
  }

  /** Sum over all records of the number of indices they select. */
  function TotalSelections(records: seq<PollVote>): nat
  {
    if records == [] then 0
    else TotalSelections(records[..|records| - 1]) + |records[|records| - 1].optionIndices|
  }
}
