# Poll voting in the pollify message service

This project models the poll part of the message module of a NestJS chat
backend. A poll is a chat message of kind `poll`. It carries poll metadata
(a question, a list of options each with a vote counter, and a flag for
multiple choice) and a list of vote records (user, selected option indices,
time of the vote). The service's `vote` loads the message and finds the
caller's record. It then changes the counters and the records in memory, and
means to persist both through `updatePollVote`, which the repository lacks. Its `createPoll` builds the metadata with zeroed counters and
saves it through the repository. `mapToResponse` turns a stored document
into the response the client receives.

The model is split into these modules:

- `Common`: `Option`, `Result`, and the failures the service raises
  (`NotFoundException` with its message, or the `TypeError` that indexing a
  missing option throws).
- `PollTally`: the vote reconciliation as a pure function. `Reconcile`
  takes a poll's options and records, the user and the chosen index, and
  returns a failure, "nothing to do" or the new state. It also defines the
  poll invariant `Consistent`: every counter equals the number of records
  selecting its option, selections are in range and free of repeats, there
  is one record per user, and a single-choice record holds one index.
- `PollTallyProofs`: what `Reconcile` guarantees:
  - it preserves the invariant and keeps counters non-negative;
  - the multiple-choice toggle and its round trip;
  - a single-choice re-vote changes nothing, and a switch moves one vote;
  - a bad index fails;
  - counters always sum to the number of selections.
- `MessageData`: the stored document and the response.
- `MessageRepository`: the stored messages as a class with a map from id to
  document. Its methods are `saveMessage` (how the stored fields are
  derived), `getMessageById`, the atomic `$inc` of `vote`, and the
  persistence step the service's `vote` ends with. It also holds the
  formatting detector.
- `MessageDto`: the class-validator rules of `CreatePollDto` and
  `VotePollDto`.
- `MessageService`: `mapToResponse`, poll creation, and the service `vote`.
  `vote` is written as an imperative method. It updates local copies of the
  options and records step by step, as the source does on the loaded
  document. Its postcondition ties the new repository state and the
  response to `Reconcile`.

Where the code is incomplete or inconsistent, the model does the following:

- `createPoll` passes `[]` as a seventh argument to `saveMessage`, which has
  only six parameters. The stored poll therefore has no vote list, and a
  later `vote` on it fails with "Poll metadata missing".
  `MessageService.MessageService.CreatePoll` states this.
- An index outside the options is not reported as a dedicated error.
  Reading `options[optionIndex].votes` throws a `TypeError`. The first-vote
  and multiple-choice paths have already changed the in-memory record at
  that point, but nothing is persisted. The model returns `Err(TypeError)`
  and leaves the store unchanged.
- `saveMessage` sets a poll's `content` to the empty string, but the message
  schema declares `content` as required. Mongoose's default required check
  rejects an empty string, so as written saving a poll would likely fail
  validation. The model follows the repository's code and stores the poll
  with empty content; schema validation is left out.
- A single-choice record is compared through its first index only. A record
  with no index makes `options[undefined]` throw, which is a `TypeError`.

## Model

| member | source | states |
|---|---|---|
| PollTally.FindVote | src/message/service/message.service.ts:79-81 | the result is the position of the first record whose user is the caller, and none exactly when no record has that user |
| PollTally.Without | src/message/service/message.service.ts:99-101 | the filtered selection holds every old index other than the removed one exactly as often as before, and the removed one not at all |
| PollTallyProofs.WithoutDistributes | src/message/service/message.service.ts:99-101 | the filter keeps the order: filtering a concatenation filters each part in turn, and a single index is kept exactly when it differs from the removed one |
| PollTally.AddVote | src/message/service/message.service.ts:93 | the chosen option's counter goes up by one with its text kept, and every other option is unchanged |
| PollTally.RemoveVote | src/message/service/message.service.ts:102-105 | the chosen counter drops by one, or becomes 0 if it was below 1, so it is never negative; every other option is unchanged |
| PollTally.Reconcile | src/message/service/message.service.ts:79-147 | the only failure is a TypeError; a committed vote names an existing option and keeps the number of options |
| PollTallyProofs.ReconcilePreservesConsistency | src/message/service/message.service.ts:86-147 | from a consistent poll, every outcome of a vote (commit, no-op, failure) leaves a consistent poll: counters equal selection holders, indices in range, no repeats, one record per user, single-choice records hold one index |
| PollTallyProofs.ReconcileKeepsCountsNonNegative | src/message/service/message.service.ts:102-105 | if no counter is negative before a vote, none is negative after it |
| PollTallyProofs.ConsistentCountsArePositiveWhereSelected | src/message/service/message.service.ts:102-105 | in a consistent poll every option some record selects has a counter of at least 1, so the floor at 0 never takes effect there |
| PollTallyProofs.Conservation | src/message/service/message.service.ts:86-147 | in a consistent poll the counters sum to the total number of selected indices over all records |
| PollTallyProofs.OutOfRangeIndexFails | src/message/service/message.service.ts:88-93 | in a consistent poll an index outside the options fails with a TypeError and leaves the state as it was, whatever the poll kind and whether the user has voted |
| PollTallyProofs.FirstVoteAppendsRecord | src/message/service/message.service.ts:87-93 | a user without a record who picks an existing option gets one new record at the end selecting only that option, and that counter goes up by one |
| PollTallyProofs.MultipleChoiceAddsSelection | src/message/service/message.service.ts:106-112 | in a multiple-choice poll an unselected option is appended to the user's record, its counter goes up by one and the record's time is renewed |
| PollTallyProofs.MultipleChoiceRetractsSelection | src/message/service/message.service.ts:97-105 | in a multiple-choice poll a selected option is removed from the user's record, its counter is lowered with a floor at 0 and the record's time is renewed |
| PollTallyProofs.MultipleChoiceToggleRoundTrip | src/message/service/message.service.ts:95-112 | for a user who already has a record, voting twice for the same option in a consistent multiple-choice poll restores every counter and the record's set of indices; when the option was unselected, the records come back exactly except for the vote time; when it was selected, only the user's record changes, with the option moved to the end and the new time |
| PollTallyProofs.SingleChoiceSameOptionIsNoop | src/message/service/message.service.ts:128-133 | a single-choice vote for the option already held changes nothing and succeeds |
| PollTallyProofs.SingleChoiceSwitchMovesVote | src/message/service/message.service.ts:135-145 | a single-choice switch lowers the old option's counter, raises the new one's, and replaces the record's selection with the new index at the new time |
| PollTallyProofs.SingleChoiceRevoteIsIdempotent | src/message/service/message.service.ts:128-133 | in a consistent single-choice poll, repeating a successful vote is a no-op |
| MessageRepository.HasFormatting | src/message/repository/implementation/messageRespository.ts:124-127 | defined as the regular-expression test: one of `**`, `__`, `*`, `_`, `~~` or a backtick starts at some position of the text |
| MessageRepository.HasFormattingIffMarker | src/message/repository/implementation/messageRespository.ts:124-127 | text counts as formatted exactly when it contains `*`, `_`, a backtick or `~~` somewhere |
| MessageRepository.MessageRepository.SaveMessage | src/message/repository/implementation/messageRespository.ts:23-65 | the stored document: default kind text, formatted only for text with a marker, image file url derived from the file name, for polls empty content with the given metadata and no vote list; nothing else in the store changes |
| MessageRepository.MessageRepository.GetMessageById | src/message/repository/implementation/messageRespository.ts:100-113 | the stored document, or not found when the id is absent |
| MessageRepository.MessageRepository.Vote | src/message/repository/implementation/messageRespository.ts:80-98 | the `$inc` raises one counter of the stored poll and touches nothing else, including the records; an absent id is "Poll message not found" |
| MessageRepository.IncrementAloneBreaksCounts | src/message/repository/implementation/messageRespository.ts:84-89 | from counters that match the records, the repository increment alone leaves them not matching |
| MessageRepository.MessageRepository.UpdatePollVote | src/message/service/message.service.ts:152-156 | the message is stored with the new metadata and records, everything else kept |
| MessageDto.IsValidCreatePoll | src/message/dtos/message.dto.ts:13-34 | defined as the declared rules: chat, sender and question are non-empty strings, the question has at most 200 characters, there are 2 to 10 options, and the multiple-choice flag is a boolean |
| MessageDto.IsValidVotePoll | src/message/dtos/message.dto.ts:39-51 | defined as the declared rules: message and user ids are non-empty strings, and the index is a number no smaller than 0 |
| MessageDto.VoteIndexBoundedBelowOnly | src/message/dtos/message.dto.ts:44-46 | an accepted vote request's index is any non-negative number, without an upper bound |
| MessageService.IsPopulatedChat | src/message/service/message.service.ts:18-22 | defined as: the chat reference is the joined chat document rather than a bare id |
| MessageService.MapToResponse | src/message/service/message.service.ts:199-244 | the response copies every field, with the chat id taken from the chat whether populated or not, and the options and records unchanged and in order |
| MessageService.CheckPoll | src/message/service/message.service.ts:65-75 | a message that is not a poll is "Invalid poll message"; a poll without metadata or records is "Poll metadata missing"; otherwise the loaded poll |
| MessageService.InitialPoll | src/message/service/message.service.ts:167-174 | the question and kind as given, one option per input in order, with the input text and a counter of zero whatever the client sent |
| MessageService.AcceptedPollStartsConsistent | src/message/dtos/message.dto.ts:27-30 | an accepted creation request gives 2 to 10 options, and with an empty record list a consistent poll with zero total votes |
| MessageService.AcceptedIndexCanStillFail | src/message/dtos/message.dto.ts:44-46 | the index equal to the number of options passes validation and then fails with a TypeError |
| MessageService.MessageService.Vote | src/message/service/message.service.ts:60-159 | an absent message, a non-poll and a poll without data fail with the source's not-found errors and leave the store unchanged; otherwise the outcome is `Reconcile`'s: a failure leaves the store unchanged, a no-op returns the loaded message, and a commit stores the new counters and records and returns them, through the intended store step that stands in for the missing `updatePollVote` |
| MessageService.MessageService.CreatePoll | src/message/service/message.service.ts:166-190 | a new poll message is stored with empty content and zeroed counters; it has no vote list, so voting on it fails with "Poll metadata missing" |

## Left out

- MessageRepository.MessageRepository.UpdatePollVote: `vote` persists
  through `updatePollVote`, which neither the repository implementation nor
  its interface declares. As written the call throws a TypeError, so every
  committing vote fails and nothing is persisted. Only the not-found
  failures and the single-choice no-op return normally. The model replaces
  the call with the intended store step: store the given metadata and
  records on the existing message and return it.

- MongoDB and Mongoose are not modelled: queries, `populate`, `lean` and
  schema validation. The store is a map from id to the populated document.
- `getMessages`, `getUserById`, the service's plain `saveMessage`,
  `getMessageById` pass-through and NestJS dependency injection are not
  part of this model. They do not touch polls.
- Object ids are strings. `new Types.ObjectId(...)` validation and the
  comparison through `toString()` are not modelled.
- `new Date()` and the database's assigned id are parameters. So is
  `encodeURIComponent`.
- Concurrency is not modelled. Two interleaved `vote` calls can lose an
  update, because the read and the write are separate.
- MessageService.MessageService.Vote: takes an integer index. Validation
  admits any non-negative number, and a fractional index (indexing gives
  `undefined`, so a TypeError) is not modelled.
- MessageRepository.MessageRepository.Vote: requires a stored poll and an
  in-range index. What the database does with a `$inc` on a missing path is
  not modelled.
- Aliasing is not modelled. Examples are the mutation of the caller's
  `fileMetadata` in `saveMessage`, and the response sharing
  `optionIndices` arrays with the document.
- `@MaxLength(200)` counts UTF-16 code units. The model counts characters.
  The elements of `options` in `CreatePollDto` are not validated by the
  source, and the model does not validate them either.
