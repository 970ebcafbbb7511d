/** The message service: poll creation, vote reconciliation over a loaded
    message and its persistence, and the mapping of a document to the
    response the caller receives. */
module MessageService {
  import opened Common
  import opened PollTally
  import opened PollTallyProofs
  import opened MessageData
  import opened MessageRepository
  import opened MessageDto

  // ---------------------------------------------------------------------
  // Response mapping

  /** `isPopulatedChat`: the chat reference is the joined chat document. */
  predicate IsPopulatedChat(chat: ChatRef)
  {
    chat.PopulatedChat?
  }

  /** `mapToResponse`: a snapshot of the document. The chat id is taken from
      `_id` of a populated chat and from the bare id otherwise; option texts
      and counts are copied in order, and every vote record with its
      selected indices unchanged. */
  function MapToResponse(m: Message): (r: MessageResponse)
    ensures r.id == m.id && r.chatId == m.chatId.id && r.sender == m.sender
    ensures r.content == m.content && r.kind == m.kind && r.isFormatted == m.isFormatted
    ensures r.timestamp == m.timestamp && r.fileMetadata == m.fileMetadata
    ensures r.pollMetadata == m.pollMetadata
    ensures r.pollVotes == m.pollVotes
  {
    // Both branches of the source's test read the same id: a populated chat
    // carries its `_id`, and a bare reference is the id itself.
    var chatIdValue := if IsPopulatedChat(m.chatId) then m.chatId.id else m.chatId.id;
    MessageResponse(
      m.id,
      chatIdValue,
      Sender(m.sender.id, m.sender.name, m.sender.email, m.sender.avatar),
      m.content,
      m.kind,
      match m.fileMetadata
      case None => None
      case Some(f) => Some(FileMetadata(f.originalName, f.fileName, f.fileSize, f.mimeType, f.url)),
      match m.pollMetadata
      case None => None
      case Some(pm) => Some(PollMetadata(pm.question, CopyOptions(pm.options), pm.allowMultiple)),
      match m.pollVotes
      case None => None
      case Some(vs) => Some(CopyVotes(vs)),
      m.isFormatted,
      m.timestamp)
  }

  /** `options.map(opt => ({ text: opt.text, votes: opt.votes }))`. */
  function CopyOptions(options: seq<PollOption>): (copy: seq<PollOption>)
    ensures copy == options
  {
    var copy := seq(|options|, k requires 0 <= k < |options| => PollOption(options[k].text, options[k].votes));
    assert forall k :: 0 <= k < |options| ==> copy[k] == options[k];
    copy
  }

  /** `pollVotes.map(vote => ({ userId, optionIndices, votedAt }))`. */
  function CopyVotes(votes: seq<PollVote>): (copy: seq<PollVote>)
    ensures copy == votes
  {
    var copy := seq(|votes|, k requires 0 <= k < |votes| => PollVote(votes[k].userId, votes[k].optionIndices, votes[k].votedAt));
    assert forall k :: 0 <= k < |votes| ==> copy[k] == votes[k];
    copy
  }

  // ---------------------------------------------------------------------
  // Loading a poll

  datatype LoadedPoll = LoadedPoll(metadata: PollMetadata, votes: seq<PollVote>)
  {
    function AsTally(): Tally { Tally(metadata.options, votes) }
  }

  /** The two checks `vote` makes on the loaded message before touching it. */
  function CheckPoll(m: Message): (r: Result<LoadedPoll, Failure>)
    ensures r.Ok? <==> m.kind == Poll && m.pollMetadata.Some? && m.pollVotes.Some?
    ensures r.Ok? ==> r.value == LoadedPoll(m.pollMetadata.value, m.pollVotes.value)
    ensures m.kind != Poll ==> r == Err(NotFound(InvalidPollMessage))
    ensures m.kind == Poll && !r.Ok? ==> r == Err(NotFound(PollMetadataMissing))
  {
    if m.kind != Poll then Err(NotFound(InvalidPollMessage))
    else if m.pollMetadata.None? || m.pollVotes.None? then Err(NotFound(PollMetadataMissing))
    else Ok(LoadedPoll(m.pollMetadata.value, m.pollVotes.value))
  }

  /** The document after a committed vote. */
  function WithTally(m: Message, pm: PollMetadata, t: Tally): Message
  {
    m.(pollMetadata := Some(pm.(options := t.options)), pollVotes := Some(t.votes))
  }

  // ---------------------------------------------------------------------
  // Poll creation

  /** The poll metadata `createPoll` builds: the question and kind as given,
      each option's text with its count set to zero, whatever count the
      client sent. */
  function InitialPoll(question: string, allowMultiple: bool, options: seq<OptionInput>): (pm: PollMetadata)
    ensures pm.question == question && pm.allowMultiple == allowMultiple
    ensures |pm.options| == |options|
    ensures forall k :: 0 <= k < |options| ==> pm.options[k].text == options[k].text
    ensures forall k :: 0 <= k < |options| ==> pm.options[k].votes == 0
  {
    PollMetadata(question, seq(|options|, k requires 0 <= k < |options| => PollOption(options[k].text, 0)), allowMultiple)
  }

  /** An accepted creation request yields a poll with two to ten options
      whose state, with the empty vote list `createPoll` means to store,
      satisfies the poll invariant and holds no votes at all. */
  lemma AcceptedPollStartsConsistent(dto: CreatePollDto)
    requires IsValidCreatePoll(dto)
    ensures var pm := InitialPoll(dto.question.value, dto.allowMultiple.value, dto.options.value);
            && MinOptions <= |pm.options| <= MaxOptions
            && Consistent(pm.allowMultiple, Tally(pm.options, []))
            && TotalVotes(pm.options) == 0
  {
    var pm := InitialPoll(dto.question.value, dto.allowMultiple.value, dto.options.value);
    Conservation(pm.allowMultiple, Tally(pm.options, []));
  }

  /** An accepted vote request can still name no option: for any poll, the
      index equal to the number of options passes `VotePollDto` and the
      reconciliation then fails with a TypeError. */
  lemma AcceptedIndexCanStillFail(
    allowMultiple: bool, t: Tally, messageId: string, userId: UserId, now: Timestamp)
    requires Consistent(allowMultiple, t)
    requires messageId != "" && userId != ""
    ensures IsValidVotePoll(VotePollDto(Some(messageId), Some(|t.options| as real), Some(userId)))
    ensures Reconcile(allowMultiple, t, userId, |t.options|, now) == Err(TypeError)
  {
    OutOfRangeIndexFails(allowMultiple, t, userId, |t.options|, now);
  }

  // ---------------------------------------------------------------------
  // The service

  class MessageService {
    const repository: MessageRepository

    constructor (repository: MessageRepository)
      ensures this.repository == repository
    {
      this.repository := repository;
    }

    /** `vote`. The message is loaded, checked, and its options and vote
        list are updated step by step as the source does on the loaded
        document; a TypeError escapes before the update is persisted, the
        single-choice re-vote returns the loaded message unpersisted, and
        every other outcome is committed whole. */
    method Vote(messageId: string, optionIndex: int, userId: UserId, now: Timestamp)
      returns (r: Result<MessageResponse, Failure>)
      modifies repository
      ensures messageId !in old(repository.messages) ==>
                r == Err(NotFound(MessageMissing)) && repository.messages == old(repository.messages)
      ensures messageId in old(repository.messages) ==>
                var m := old(repository.messages)[messageId];
                match CheckPoll(m)
                case Err(e) => r == Err(e) && repository.messages == old(repository.messages)
                case Ok(poll) =>
                  match Reconcile(poll.metadata.allowMultiple, poll.AsTally(), userId, optionIndex, now)
                  case Err(e) => r == Err(e) && repository.messages == old(repository.messages)
                  case Ok(Unchanged) => r == Ok(MapToResponse(m)) && repository.messages == old(repository.messages)
                  case Ok(Committed(next)) =>
                    var updated := WithTally(m, poll.metadata, next);
                    repository.messages == old(repository.messages)[messageId := updated] &&
                    r == Ok(MapToResponse(updated))
    {
      var loaded := repository.GetMessageById(messageId);
      if loaded.Err? {
        return Err(loaded.error);
      }
      var message := loaded.value;
      if message.kind != Poll {
        return Err(NotFound(InvalidPollMessage));
      }
      if message.pollMetadata.None? || message.pollVotes.None? {
        return Err(NotFound(PollMetadataMissing));
      }
      var pollMetadata := message.pollMetadata.value;
      var options := pollMetadata.options;
      var pollVotes := message.pollVotes.value;
      var allowMultiple := pollMetadata.allowMultiple;
      var userVote := FindVote(pollVotes, userId);
      ghost var loadedTally := Tally(options, pollVotes);

      if allowMultiple {
        if userVote.None? {
          pollVotes := pollVotes + [PollVote(userId, [optionIndex], now)];
          if !(0 <= optionIndex < |options|) {
            return Err(TypeError);
          }
          options := options[optionIndex := options[optionIndex].(votes := options[optionIndex].votes + 1)];
        } else {
          var j := userVote.value;
          var alreadySelected := optionIndex in pollVotes[j].optionIndices;
          if alreadySelected {
            pollVotes := pollVotes[j := pollVotes[j].(optionIndices := Without(pollVotes[j].optionIndices, optionIndex))];
            if !(0 <= optionIndex < |options|) {
              return Err(TypeError);
            }
            var lowered := options[optionIndex].votes - 1;
            options := options[optionIndex := options[optionIndex].(votes := if 0 < lowered then lowered else 0)];
          } else {
            pollVotes := pollVotes[j := pollVotes[j].(optionIndices := pollVotes[j].optionIndices + [optionIndex])];
            if !(0 <= optionIndex < |options|) {
              return Err(TypeError);
            }
            options := options[optionIndex := options[optionIndex].(votes := options[optionIndex].votes + 1)];
          }
          pollVotes := pollVotes[j := pollVotes[j].(votedAt := now)];
          assert pollVotes == loadedTally.votes[j := loadedTally.votes[j].(
                   optionIndices := pollVotes[j].optionIndices, votedAt := now)];
        }
      } else {
        if userVote.None? {
          pollVotes := pollVotes + [PollVote(userId, [optionIndex], now)];
          if !(0 <= optionIndex < |options|) {
            return Err(TypeError);
          }
          options := options[optionIndex := options[optionIndex].(votes := options[optionIndex].votes + 1)];
        } else {
          var j := userVote.value;
          var previous := pollVotes[j].optionIndices;
          if |previous| > 0 && previous[0] == optionIndex {
            return Ok(MapToResponse(message));
          }
          if |previous| == 0 || !(0 <= previous[0] < |options|) {
            return Err(TypeError);
          }
          var prevIndex := previous[0];
          var lowered := options[prevIndex].votes - 1;
          options := options[prevIndex := options[prevIndex].(votes := if 0 < lowered then lowered else 0)];
          if !(0 <= optionIndex < |options|) {
            return Err(TypeError);
          }
          options := options[optionIndex := options[optionIndex].(votes := options[optionIndex].votes + 1)];
          pollVotes := pollVotes[j := pollVotes[j].(optionIndices := [optionIndex])];
          pollVotes := pollVotes[j := pollVotes[j].(votedAt := now)];
          assert pollVotes == loadedTally.votes[j := loadedTally.votes[j].(optionIndices := [optionIndex], votedAt := now)];
        }
      }

      assert Reconcile(allowMultiple, loadedTally, userId, optionIndex, now) == Ok(Committed(Tally(options, pollVotes)));
      var updated := repository.UpdatePollVote(messageId, pollMetadata.(options := options), pollVotes);
      r := Ok(MapToResponse(updated));
    }

    /** `createPoll`. The seventh argument `[]` of the source's call is not a
        parameter of `saveMessage`, so the stored poll carries no vote list
        and a later `vote` on it fails with "Poll metadata missing". */
    method CreatePoll(
      dto: CreatePollDto, id: string, chat: ChatRef, sender: Sender,
      encodeUriComponent: string -> string, now: Timestamp)
      returns (r: MessageResponse)
      requires IsValidCreatePoll(dto)
      requires chat.id == dto.chatId.value && sender.id == dto.senderId.value
      requires id !in repository.messages
      modifies repository
      ensures id in repository.messages
      ensures var stored := repository.messages[id];
              && repository.messages == old(repository.messages)[id := stored]
              && stored.kind == Poll && stored.content == ""
              && stored.pollMetadata ==
                   Some(InitialPoll(dto.question.value, dto.allowMultiple.value, dto.options.value))
              && stored.pollVotes == None
              && CheckPoll(stored) == Err(NotFound(PollMetadataMissing))
              && r == MapToResponse(stored)
    {
      var pollMetadata := InitialPoll(dto.question.value, dto.allowMultiple.value, dto.options.value);
      // `content` is passed as undefined; a poll's content is replaced by "" on save.
      var saved := repository.SaveMessage(id, chat, sender, "", Some(Poll), None, Some(pollMetadata),
                                          encodeUriComponent, now);
      var populated := repository.GetMessageById(saved.id);
      r := MapToResponse(populated.value);
    }
  }
}
