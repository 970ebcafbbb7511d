/** The request bodies of poll creation and voting and the class-validator
    rules declared on them. A field is `None` when the incoming value fails
    the field's type check (`IsString`, `IsArray`, `IsBoolean`, `IsNumber`)
    or is absent. */
module MessageDto {
  import opened Common

  /** One element of `options`; the client's `votes` is ignored by
      `createPoll`. */
  datatype OptionInput = OptionInput(text: string, votes: int)

  datatype CreatePollDto = CreatePollDto(
    chatId: Option<string>,
    senderId: Option<string>,
    question: Option<string>,
    options: Option<seq<OptionInput>>,
    allowMultiple: Option<bool>)

  datatype VotePollDto = VotePollDto(
    messageId: Option<string>,
    optionIndex: Option<real>,
    userId: Option<string>)

  const QuestionMaxLength: nat := 200
  const MinOptions: nat := 2
  const MaxOptions: nat := 10

  /** `@IsString() @IsNotEmpty()`. */
  predicate IsNonEmptyString(v: Option<string>)
  {
    v.Some? && v.value != ""
  }

  /** The rules declared on `CreatePollDto`. */
  predicate IsValidCreatePoll(dto: CreatePollDto)
  {
    && IsNonEmptyString(dto.chatId)
    && IsNonEmptyString(dto.senderId)
    && IsNonEmptyString(dto.question) && |dto.question.value| <= QuestionMaxLength
    && dto.options.Some? && MinOptions <= |dto.options.value| <= MaxOptions
    && dto.allowMultiple.Some?
  }

  /** The rules declared on `VotePollDto`: `@IsNumber() @Min(0)` bounds the
      index from below only, and does not ask for an integer. */
  predicate IsValidVotePoll(dto: VotePollDto)
  {
    && IsNonEmptyString(dto.messageId)
    && dto.optionIndex.Some? && dto.optionIndex.value >= 0.0
    && IsNonEmptyString(dto.userId)
  }

  /** Acceptance of a vote request does not depend on any poll: every
      non-negative number, however large and whether or not whole, is an
      accepted index, and no negative one is. */
  lemma VoteIndexBoundedBelowOnly(dto: VotePollDto, x: real)
    requires IsNonEmptyString(dto.messageId) && IsNonEmptyString(dto.userId)
    ensures IsValidVotePoll(dto.(optionIndex := Some(x))) <==> x >= 0.0
  {
  }
}
