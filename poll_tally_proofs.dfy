/** What the reconciliation promises: it keeps the poll invariant, it moves
    exactly one vote per call, multiple-choice votes toggle, single-choice
    votes are exclusive and a repeated single-choice vote changes nothing,
    and the counters always add up to the number of selections. */
module PollTallyProofs {
  import opened Common
  import opened PollTally

  // ---------------------------------------------------------------------
  // Counting records

  lemma HoldersAfterAppend(records: seq<PollVote>, v: PollVote, k: int)
    ensures Holders(records + [v], k) == Holders(records, k) + Hit(v, k)
  {
    assert (records + [v])[..|records|] == records;
  }

  /** Replacing one record changes each count by that record's difference. */
  lemma {:induction false} HoldersAfterUpdate(records: seq<PollVote>, j: nat, v: PollVote, k: int)
    requires j < |records|
    ensures Holders(records[j := v], k) == Holders(records, k) - Hit(records[j], k) + Hit(v, k)
    decreases |records|
  {
    var last := |records| - 1;
    var updated := records[j := v];
    if j == last {
      assert updated[..last] == records[..last];
    } else {
      assert updated[..last] == records[..last][j := v];
      HoldersAfterUpdate(records[..last], j, v, k);
    }
  }

  lemma NoRepeatsWithout(s: seq<int>, x: int)
    requires NoRepeats(s)
    ensures NoRepeats(Without(s, x))
    decreases |s|
  {
    if s != [] {
      NoRepeatsWithout(s[1..], x);
      if s[0] != x {
        var rest := Without(s[1..], x);
        assert s[0] !in rest;
        forall a, b | 0 <= a < b < |[s[0]] + rest|
          ensures ([s[0]] + rest)[a] != ([s[0]] + rest)[b]
        {
          if a == 0 {
            assert ([s[0]] + rest)[b] == rest[b - 1];
          }
        }
      }
    }
  }

  // ---------------------------------------------------------------------
  // The invariant

  /** A record that selects option `k` is counted by `Holders`. */
  lemma HolderCounted(records: seq<PollVote>, j: nat, k: int)
    requires j < |records| && k in records[j].optionIndices
    ensures Holders(records, k) >= 1
  {
    HoldersAfterUpdate(records, j, records[j].(optionIndices := []), k);
  }

  /** Under the invariant no counter is negative, and the `Math.max(0, ...)`
      floor of a retraction never fires: the retracted option's count is
      at least one. */
  lemma ConsistentCountsArePositiveWhereSelected(allowMultiple: bool, t: Tally, j: nat, k: int)
    requires Consistent(allowMultiple, t)
    requires j < |t.votes| && k in t.votes[j].optionIndices
    ensures 0 <= k < |t.options| && t.options[k].votes >= 1
  {
    HolderCounted(t.votes, j, k);
  }

  /** Appending a record for a user who has none keeps the invariant when
      every counter moves by what the new record selects. */
  lemma AppendKeepsConsistency(allowMultiple: bool, t: Tally, v: PollVote, options: seq<PollOption>)
    requires Consistent(allowMultiple, t)
    requires forall j :: 0 <= j < |t.votes| ==> t.votes[j].userId != v.userId
    requires forall x :: x in v.optionIndices ==> 0 <= x < |t.options|
    requires NoRepeats(v.optionIndices)
    requires !allowMultiple ==> |v.optionIndices| == 1
    requires |options| == |t.options|
    requires forall k :: 0 <= k < |options| ==> options[k].votes == t.options[k].votes + Hit(v, k)
    ensures Consistent(allowMultiple, Tally(options, t.votes + [v]))
  {
    var votes := t.votes + [v];
    forall k | 0 <= k < |options| ensures options[k].votes == Holders(votes, k) {
      HoldersAfterAppend(t.votes, v, k);
    }
    assert IndicesInRange(votes, |options|) by {
      forall j, x | 0 <= j < |votes| && x in votes[j].optionIndices ensures 0 <= x < |options| {
        if j < |t.votes| { assert votes[j] == t.votes[j]; }
      }
    }
  }

  /** Replacing the record at `j` by one of the same user keeps the
      invariant when every counter moves by the difference between the two
      records. */
  lemma UpdateKeepsConsistency(allowMultiple: bool, t: Tally, j: nat, v: PollVote, options: seq<PollOption>)
    requires Consistent(allowMultiple, t)
    requires j < |t.votes| && v.userId == t.votes[j].userId
    requires forall x :: x in v.optionIndices ==> 0 <= x < |t.options|
    requires NoRepeats(v.optionIndices)
    requires !allowMultiple ==> |v.optionIndices| == 1
    requires |options| == |t.options|
    requires forall k :: 0 <= k < |options| ==>
               options[k].votes == t.options[k].votes - Hit(t.votes[j], k) + Hit(v, k)
    ensures Consistent(allowMultiple, Tally(options, t.votes[j := v]))
  {
    var votes := t.votes[j := v];
    forall k | 0 <= k < |options| ensures options[k].votes == Holders(votes, k) {
      HoldersAfterUpdate(t.votes, j, v, k);
    }
    assert IndicesInRange(votes, |options|) by {
      forall j', x | 0 <= j' < |votes| && x in votes[j'].optionIndices ensures 0 <= x < |options| {
        if j' != j { assert votes[j'] == t.votes[j']; }
      }
    }
  }

  /** Every call keeps the poll invariant. */
  lemma {:induction false} ReconcilePreservesConsistency(
    allowMultiple: bool, t: Tally, userId: UserId, optionIndex: int, now: Timestamp)
    requires Consistent(allowMultiple, t)
    ensures Consistent(allowMultiple, StateAfter(t, Reconcile(allowMultiple, t, userId, optionIndex, now)))
  {
    var r := Reconcile(allowMultiple, t, userId, optionIndex, now);
    if r.Ok? && r.value.Committed? {
      var next := r.value.next;
      var i := optionIndex;
      match FindVote(t.votes, userId)
      case None =>
        AppendKeepsConsistency(allowMultiple, t, PollVote(userId, [i], now), next.options);
      case Some(j) =>
        var prior := t.votes[j];
        var v := next.votes[j];
        assert next.votes == t.votes[j := v];
        if allowMultiple {
          if i in prior.optionIndices {
            ConsistentCountsArePositiveWhereSelected(allowMultiple, t, j, i);
            NoRepeatsWithout(prior.optionIndices, i);
          } else {
            var s := prior.optionIndices + [i];
            forall a, b | 0 <= a < b < |s| ensures s[a] != s[b] {
              if b == |s| - 1 { assert s[a] in prior.optionIndices; }
            }
          }
        } else {
          assert prior.optionIndices == [prior.optionIndices[0]];
          ConsistentCountsArePositiveWhereSelected(allowMultiple, t, j, prior.optionIndices[0]);
        }
        UpdateKeepsConsistency(allowMultiple, t, j, v, next.options);
    }
  }

  /** No call ever writes a negative counter, even without the invariant:
      decrements are floored at zero. */
  lemma ReconcileKeepsCountsNonNegative(
    allowMultiple: bool, t: Tally, userId: UserId, optionIndex: int, now: Timestamp)
    requires forall k :: 0 <= k < |t.options| ==> t.options[k].votes >= 0
    ensures var after := StateAfter(t, Reconcile(allowMultiple, t, userId, optionIndex, now));
            forall k :: 0 <= k < |after.options| ==> after.options[k].votes >= 0
  {
  }

  /** An index that names no option fails with a TypeError and leaves the
      poll as it was. */
  lemma OutOfRangeIndexFails(allowMultiple: bool, t: Tally, userId: UserId, optionIndex: int, now: Timestamp)
    requires Consistent(allowMultiple, t)
    requires !(0 <= optionIndex < |t.options|)
    ensures Reconcile(allowMultiple, t, userId, optionIndex, now) == Err(TypeError)
    ensures StateAfter(t, Reconcile(allowMultiple, t, userId, optionIndex, now)) == t
  {
    match FindVote(t.votes, userId)
    case None =>
    case Some(j) =>
      if !allowMultiple {
        assert t.votes[j].optionIndices[0] in t.votes[j].optionIndices;
      }
  }

  // ---------------------------------------------------------------------
  // Multiple choice

  /** A first vote appends the record `[i]` and adds one vote to `i`. */
  lemma FirstVoteAppendsRecord(allowMultiple: bool, t: Tally, userId: UserId, i: int, now: Timestamp)
    requires 0 <= i < |t.options|
    requires forall j :: 0 <= j < |t.votes| ==> t.votes[j].userId != userId
    ensures Reconcile(allowMultiple, t, userId, i, now).Ok?
    ensures var next := StateAfter(t, Reconcile(allowMultiple, t, userId, i, now));
            && next.votes == t.votes + [PollVote(userId, [i], now)]
            && |next.options| == |t.options|
            && next.options[i].votes == t.options[i].votes + 1
            && (forall k :: 0 <= k < |t.options| && k != i ==> next.options[k] == t.options[k])
  {
  }

  /** Multiple choice, option not yet selected: the index is appended to the
      user's own record and the option gains exactly one vote; nothing else
      changes. */
  lemma MultipleChoiceAddsSelection(t: Tally, userId: UserId, i: int, now: Timestamp)
    requires 0 <= i < |t.options|
    requires FindVote(t.votes, userId).Some?
    requires i !in t.votes[FindVote(t.votes, userId).value].optionIndices
    ensures var j := FindVote(t.votes, userId).value;
            var next := StateAfter(t, Reconcile(true, t, userId, i, now));
            && next.votes == t.votes[j := PollVote(userId, t.votes[j].optionIndices + [i], now)]
            && |next.options| == |t.options|
            && next.options[i].votes == t.options[i].votes + 1
            && (forall k :: 0 <= k < |t.options| && k != i ==> next.options[k] == t.options[k])
  {
  }

  /** Multiple choice, option already selected: the index is filtered out of
      the user's record, which is kept even when it becomes empty, and the
      option loses one vote, floored at zero (exactly one under the
      invariant). */
  lemma MultipleChoiceRetractsSelection(t: Tally, userId: UserId, i: int, now: Timestamp)
    requires 0 <= i < |t.options|
    requires FindVote(t.votes, userId).Some?
    requires i in t.votes[FindVote(t.votes, userId).value].optionIndices
    ensures var j := FindVote(t.votes, userId).value;
            var next := StateAfter(t, Reconcile(true, t, userId, i, now));
            && next.votes == t.votes[j := PollVote(userId, Without(t.votes[j].optionIndices, i), now)]
            && i !in next.votes[j].optionIndices
            && |next.options| == |t.options|
            && next.options[i].votes == (if t.options[i].votes >= 1 then t.options[i].votes - 1 else 0)
            && (Consistent(true, t) ==> next.options[i].votes == t.options[i].votes - 1)
            && (forall k :: 0 <= k < |t.options| && k != i ==> next.options[k] == t.options[k])
  {
    var j := FindVote(t.votes, userId).value;
    if Consistent(true, t) {
      ConsistentCountsArePositiveWhereSelected(true, t, j, i);
    }
  }

  /** Voting for the same option twice in a multiple-choice poll, for a user
      who already has a record, restores every counter and leaves every
      other record as it was. The user's selection holds the same indices as
      before. It is the very same sequence when the option was not selected
      to begin with; when it was, the option moves to the end (toggling 0
      twice turns `[0, 1]` into `[1, 0]`). */
  lemma {:induction false} MultipleChoiceToggleRoundTrip(
    t: Tally, userId: UserId, i: int, now1: Timestamp, now2: Timestamp)
    requires Consistent(true, t)
    requires 0 <= i < |t.options|
    requires FindVote(t.votes, userId).Some?
    ensures var j := FindVote(t.votes, userId).value;
            var mid := StateAfter(t, Reconcile(true, t, userId, i, now1));
            var last := StateAfter(mid, Reconcile(true, mid, userId, i, now2));
            && last.options == t.options
            && |last.votes| == |t.votes|
            && (forall y :: y in last.votes[j].optionIndices <==> y in t.votes[j].optionIndices)
            && (i !in t.votes[j].optionIndices ==> last.votes == t.votes[j := t.votes[j].(votedAt := now2)])
            && (i in t.votes[j].optionIndices ==>
                  last.votes == t.votes[j := t.votes[j].(optionIndices := Without(t.votes[j].optionIndices, i) + [i],
                                                         votedAt := now2)])
  {
    var j := FindVote(t.votes, userId).value;
    var prior := t.votes[j];
    var mid := StateAfter(t, Reconcile(true, t, userId, i, now1));
    ReconcilePreservesConsistency(true, t, userId, i, now1);
    assert mid.votes[j].userId == userId;
    assert FindVote(mid.votes, userId) == Some(j) by {
      assert forall k :: 0 <= k < j ==> mid.votes[k] == t.votes[k];
    }
    if i in prior.optionIndices {
      ConsistentCountsArePositiveWhereSelected(true, t, j, i);
    } else {
      var s := prior.optionIndices;
      assert Without(s + [i], i) == s by { WithoutAppendAbsent(s, i); }
      assert mid.options[i].votes >= 1;
    }
    var last := StateAfter(mid, Reconcile(true, mid, userId, i, now2));
    assert last.options == t.options;
  }

  /** `filter` keeps the order: filtering a concatenation filters each part
      and concatenates the results, and a single element is kept exactly
      when it differs from the removed one. */
  lemma {:induction false} WithoutDistributes(s: seq<int>, u: seq<int>, x: int)
    ensures Without(s + u, x) == Without(s, x) + Without(u, x)
    ensures forall y :: Without([y], x) == if y == x then [] else [y]
    decreases |s|
  {
    forall y ensures Without([y], x) == if y == x then [] else [y] {
      assert [y][1..] == [];
    }
    if s == [] {
      assert s + u == u;
    } else {
      assert (s + u)[0] == s[0];
      assert (s + u)[1..] == s[1..] + u;
      WithoutDistributes(s[1..], u, x);
    }
  }

  /** Filtering out an index that the sequence ends with, and does not
      otherwise hold, gives back the sequence without it. */
  lemma WithoutAppendAbsent(s: seq<int>, x: int)
    requires x !in s
    ensures Without(s + [x], x) == s
    decreases |s|
  {
    if s != [] {
      assert (s + [x])[1..] == s[1..] + [x];
      WithoutAppendAbsent(s[1..], x);
    }
  }

  // ---------------------------------------------------------------------
  // Single choice

  /** Single choice: voting again for the selected option is a no-op. */
  lemma SingleChoiceSameOptionIsNoop(t: Tally, userId: UserId, i: int, now: Timestamp)
    requires FindVote(t.votes, userId).Some?
    requires t.votes[FindVote(t.votes, userId).value].optionIndices == [i]
    ensures Reconcile(false, t, userId, i, now) == Ok(Unchanged)
  {
  }

  /** Single choice, switching from option `p` to option `i`: `p` loses a
      vote (floored at zero, exactly one under the invariant), `i` gains
      one, the user's selection becomes `[i]`, and every other counter and
      every other user's record is unchanged. */
  lemma SingleChoiceSwitchMovesVote(t: Tally, userId: UserId, p: int, i: int, now: Timestamp)
    requires 0 <= p < |t.options| && 0 <= i < |t.options| && p != i
    requires FindVote(t.votes, userId).Some?
    requires t.votes[FindVote(t.votes, userId).value].optionIndices == [p]
    ensures var j := FindVote(t.votes, userId).value;
            var next := StateAfter(t, Reconcile(false, t, userId, i, now));
            && next.votes == t.votes[j := PollVote(userId, [i], now)]
            && |next.options| == |t.options|
            && next.options[p].votes == (if t.options[p].votes >= 1 then t.options[p].votes - 1 else 0)
            && (Consistent(false, t) ==> next.options[p].votes == t.options[p].votes - 1)
            && next.options[i].votes == t.options[i].votes + 1
            && (forall k :: 0 <= k < |t.options| && k != i && k != p ==> next.options[k] == t.options[k])
  {
    var j := FindVote(t.votes, userId).value;
    if Consistent(false, t) {
      ConsistentCountsArePositiveWhereSelected(false, t, j, p);
    }
  }

  /** After any committed single-choice vote the user's record is exactly
      `[i]`, so voting `i` again right after changes nothing. */
  lemma {:induction false} SingleChoiceRevoteIsIdempotent(
    t: Tally, userId: UserId, i: int, now1: Timestamp, now2: Timestamp)
    requires Consistent(false, t)
    requires Reconcile(false, t, userId, i, now1).Ok?
    ensures var mid := StateAfter(t, Reconcile(false, t, userId, i, now1));
            && FindVote(mid.votes, userId).Some?
            && mid.votes[FindVote(mid.votes, userId).value].optionIndices == [i]
            && Reconcile(false, mid, userId, i, now2) == Ok(Unchanged)
  {
    var mid := StateAfter(t, Reconcile(false, t, userId, i, now1));
    match FindVote(t.votes, userId)
    case None =>
      var k := |t.votes|;
      assert mid.votes[k].userId == userId;
      assert forall j :: 0 <= j < k ==> mid.votes[j] == t.votes[j];
      assert FindVote(mid.votes, userId) == Some(k);
    case Some(j) =>
      assert mid.votes[j].userId == userId;
      assert forall k :: 0 <= k < j ==> mid.votes[k] == t.votes[k];
      assert FindVote(mid.votes, userId) == Some(j);
  }

  // ---------------------------------------------------------------------
  // Conservation: the counters add up to the selections

  /** Number of options below `n` that `s` selects. */
  function Hits(s: seq<int>, n: nat): nat
  {
    if n == 0 then 0 else Hits(s, n - 1) + (if n - 1 in s then 1 else 0)
  }

  /** Sum of `Holders` over the options below `n`. */
  function HoldersSum(records: seq<PollVote>, n: nat): nat
  {
    if n == 0 then 0 else HoldersSum(records, n - 1) + Holders(records, n - 1)
  }

  lemma {:induction false} HitsAppend(s: seq<int>, a: int, n: nat)
    requires a !in s
    ensures Hits(s + [a], n) == Hits(s, n) + (if 0 <= a < n then 1 else 0)
  {
    if n > 0 {
      HitsAppend(s, a, n - 1);
    }
  }

  lemma {:induction false} HitsOfSelection(s: seq<int>, n: nat)
    requires NoRepeats(s)
    requires forall x :: x in s ==> 0 <= x < n
    ensures Hits(s, n) == |s|
    decreases |s|
  {
    if s == [] {
      HitsOfEmpty(n);
    } else {
      var front := s[..|s| - 1];
      var a := s[|s| - 1];
      assert s == front + [a];
      assert a !in front by {
        forall b | 0 <= b < |front| ensures front[b] != a { assert s[b] != s[|s| - 1]; }
      }
      assert NoRepeats(front);
      assert forall x :: x in front ==> x in s;
      HitsOfSelection(front, n);
      HitsAppend(front, a, n);
      assert a in s;
    }
  }

  lemma {:induction false} HitsOfEmpty(n: nat)
    ensures Hits([], n) == 0
  {
    if n > 0 { HitsOfEmpty(n - 1); }
  }

  lemma {:induction false} HoldersSumAppend(records: seq<PollVote>, v: PollVote, n: nat)
    ensures HoldersSum(records + [v], n) == HoldersSum(records, n) + Hits(v.optionIndices, n)
  {
    if n > 0 {
      HoldersSumAppend(records, v, n - 1);
      HoldersAfterAppend(records, v, n - 1);
    }
  }

  lemma {:induction false} HoldersSumOfEmpty(n: nat)
    ensures HoldersSum([], n) == 0
  {
    if n > 0 { HoldersSumOfEmpty(n - 1); }
  }

  lemma {:induction false} SelectionsAreHoldersSum(records: seq<PollVote>, n: nat)
    requires IndicesInRange(records, n)
    requires forall j :: 0 <= j < |records| ==> NoRepeats(records[j].optionIndices)
    ensures HoldersSum(records, n) == TotalSelections(records)
    decreases |records|
  {
    if records == [] {
      HoldersSumOfEmpty(n);
    } else {
      var front := records[..|records| - 1];
      var v := records[|records| - 1];
      assert records == front + [v];
      assert IndicesInRange(front, n) by {
        forall j, x | 0 <= j < |front| && x in front[j].optionIndices ensures 0 <= x < n {
          assert records[j] == front[j];
        }
      }
      SelectionsAreHoldersSum(front, n);
      HoldersSumAppend(front, v, n);
      HitsOfSelection(v.optionIndices, n);
    }
  }

  lemma {:induction false} VotesAreHoldersSum(options: seq<PollOption>, records: seq<PollVote>)
    requires CountsMatch(options, records)
    ensures TotalVotes(options) == HoldersSum(records, |options|)
    decreases |options|
  {
    if options != [] {
      VotesAreHoldersSum(options[..|options| - 1], records);
    }
  }

  /** Conservation: under the invariant the counters add up to the total
      number of selected indices over all records. */
  lemma Conservation(allowMultiple: bool, t: Tally)
    requires Consistent(allowMultiple, t)
    ensures TotalVotes(t.options) == TotalSelections(t.votes)
  {
    VotesAreHoldersSum(t.options, t.votes);
    SelectionsAreHoldersSum(t.votes, |t.options|);
  }
}
