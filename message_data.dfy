/** The message document as the repository returns it (populated and lean),
    and the response the service builds from it. Object ids are their
    `toString()` form. */
module MessageData {
  import opened Common
  import opened PollTally

  /** The message kinds; the repository's default for an omitted kind is
      `Text`. */
  datatype MessageType = Text | Image | File | Video | Audio | Poll

  datatype FileMetadata = FileMetadata(
    originalName: string, fileName: string, fileSize: int, mimeType: string, url: string)

  /** `chatId` either as a bare object id or as the populated chat document. */
  datatype ChatRef =
    | ChatObjectId(id: string)
    | PopulatedChat(id: string, name: string, isGroup: bool)

  /** The populated `senderId`. */
  datatype Sender = Sender(id: string, name: string, email: string, avatar: Option<string>)

  datatype PollMetadata = PollMetadata(question: string, options: seq<PollOption>, allowMultiple: bool)

  datatype Message = Message(
    id: string,
    chatId: ChatRef,
    sender: Sender,
    content: string,
    kind: MessageType,
    fileMetadata: Option<FileMetadata>,
    pollMetadata: Option<PollMetadata>,
    pollVotes: Option<seq<PollVote>>,
    isFormatted: bool,
    timestamp: Timestamp)

  datatype MessageResponse = MessageResponse(
    id: string,
    chatId: string,
    sender: Sender,
    content: string,
    kind: MessageType,
    fileMetadata: Option<FileMetadata>,
    pollMetadata: Option<PollMetadata>,
    pollVotes: Option<seq<PollVote>>,
    isFormatted: bool,
    timestamp: Timestamp)
}
