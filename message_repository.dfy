/** The message repository: the stored messages as a map from id to
    document, how `saveMessage` derives the stored fields, the atomic
    counter increment `vote`, and the formatting detector. */
module MessageRepository {
  import opened Common
  import opened PollTally
  import opened MessageData

  // ---------------------------------------------------------------------
  // Formatting detection

  /** One of the alternatives of `/(\*\*|__|\*|_|~~|`)/` matches at the
      start of `t`. */
  predicate StartsWithFormatPattern(t: string)
  {
    "**" <= t || "__" <= t || "*" <= t || "_" <= t || "~~" <= t || "`" <= t
  }

  /** `RegExp.test`: the pattern matches at some position of `content`. */
  function HasFormatting(content: string): bool
  {
    content != [] && (StartsWithFormatPattern(content) || HasFormatting(content[1..]))
  }

  /** A single-character marker, or the start of `~~`, at position `i`. */
  predicate MarkerAt(s: string, i: int)
    requires 0 <= i < |s|
  {
    s[i] == '*' || s[i] == '_' || s[i] == '`' || (s[i] == '~' && i + 1 < |s| && s[i + 1] == '~')
  }

  /** The six alternatives reduce to four: `**` and `__` are subsumed by
      `*` and `_`, so text is formatted exactly when it holds `*`, `_`, a
      backtick or `~~`. */
  lemma {:induction false} HasFormattingIffMarker(s: string)
    ensures HasFormatting(s) <==> exists i :: 0 <= i < |s| && MarkerAt(s, i)
    decreases |s|
  {
    if s != [] {
      HasFormattingIffMarker(s[1..]);
      assert StartsWithFormatPattern(s) <==> MarkerAt(s, 0) by {
        if |s| >= 2 { assert s[..2] == [s[0], s[1]]; }
        assert "~~" <= s ==> |s| >= 2 && s[1] == '~';
      }
      if exists i :: 0 <= i < |s[1..]| && MarkerAt(s[1..], i) {
        var i :| 0 <= i < |s[1..]| && MarkerAt(s[1..], i);
        assert MarkerAt(s, i + 1);
      }
      if exists i :: 0 <= i < |s| && MarkerAt(s, i) {
        var i :| 0 <= i < |s| && MarkerAt(s, i);
        if i > 0 { assert MarkerAt(s[1..], i - 1); }
      }
    }
  }

  // ---------------------------------------------------------------------
  // The repository

  class MessageRepository {
    /** The messages collection, by id, as reads return it. */
    var messages: map<string, Message>

    constructor ()
      ensures messages == map[]
    {
      messages := map[];
    }

    /** `saveMessage`. The id the database assigns, the chat and sender
        documents that population joins in, the save time and
        `encodeURIComponent` are parameters. */
    method SaveMessage(
      id: string, chat: ChatRef, sender: Sender, content: string, kind: Option<MessageType>,
      fileMetadata: Option<FileMetadata>, pollMetadata: Option<PollMetadata>,
      encodeUriComponent: string -> string, now: Timestamp)
      returns (saved: Message)
      requires id !in messages
      modifies this
      ensures messages == old(messages)[id := saved]
      ensures saved.id == id && saved.chatId == chat && saved.sender == sender && saved.timestamp == now
      ensures saved.kind == (if kind.Some? then kind.value else Text)
      ensures saved.isFormatted <==> saved.kind == Text && HasFormatting(content)
      ensures saved.kind == Poll ==> saved.content == "" && saved.pollMetadata == pollMetadata
      ensures saved.kind != Poll ==> saved.content == content && saved.pollMetadata == None
      ensures saved.pollVotes == None
      ensures saved.fileMetadata ==
                if saved.kind == Image && fileMetadata.Some? && fileMetadata.value.fileName != "" then
                  Some(fileMetadata.value.(url := "/uploads/" + encodeUriComponent(fileMetadata.value.fileName)))
                else fileMetadata
    {
      var messageType := if kind.Some? then kind.value else Text;
      var file := fileMetadata;
      if messageType == Image && file.Some? && file.value.fileName != "" {
        file := Some(file.value.(url := "/uploads/" + encodeUriComponent(file.value.fileName)));
      }
      saved := Message(id, chat, sender, content, messageType, file, None, None,
                       messageType == Text && HasFormatting(content), now);
      if messageType == Poll {
        saved := saved.(pollMetadata := pollMetadata);
        saved := saved.(content := "");
      }
      messages := messages[id := saved];
    }

    /** `getMessageById`. */
    method GetMessageById(messageId: string) returns (r: Result<Message, Failure>)
      ensures messageId in messages ==> r == Ok(messages[messageId])
      ensures messageId !in messages ==> r == Err(NotFound(MessageMissing))
    {
      if messageId in messages {
        r := Ok(messages[messageId]);
      } else {
        r := Err(NotFound(MessageMissing));
      }
    }

    /** `vote`: `$inc` of `pollMetadata.options.<optionIndex>.votes` by one,
        touching nothing else (in particular not `pollVotes`). */
    method Vote(messageId: string, optionIndex: int) returns (r: Result<Message, Failure>)
      requires messageId in messages ==>
                 messages[messageId].pollMetadata.Some? &&
                 0 <= optionIndex < |messages[messageId].pollMetadata.value.options|
      modifies this
      ensures messageId !in old(messages) ==>
                r == Err(NotFound(PollMessageMissing)) && messages == old(messages)
      ensures messageId in old(messages) ==>
                var m := old(messages)[messageId];
                var pm := m.pollMetadata.value;
                var updated := m.(pollMetadata := Some(pm.(options := AddVote(pm.options, optionIndex))));
                messages == old(messages)[messageId := updated] && r == Ok(updated)
    {
      if messageId !in messages {
        return Err(NotFound(PollMessageMissing));
      }
      var m := messages[messageId];
      var pm := m.pollMetadata.value;
      var updated := m.(pollMetadata := Some(pm.(options := AddVote(pm.options, optionIndex))));
      messages := messages[messageId := updated];
      r := Ok(updated);
    }

    /** The persistence step the service's `vote` ends with: store the new
        poll metadata and vote list of an existing message and return the
        updated document. */
    method UpdatePollVote(messageId: string, pollMetadata: PollMetadata, pollVotes: seq<PollVote>)
      returns (updated: Message)
      requires messageId in messages
      modifies this
      ensures updated == old(messages)[messageId].(pollMetadata := Some(pollMetadata), pollVotes := Some(pollVotes))
      ensures messages == old(messages)[messageId := updated]
    {
      updated := messages[messageId].(pollMetadata := Some(pollMetadata), pollVotes := Some(pollVotes));
      messages := messages[messageId := updated];
    }
  }

  /** The repository's `$inc` alone breaks the poll invariant: the counter
      moves but no vote record does. */
  lemma IncrementAloneBreaksCounts(options: seq<PollOption>, records: seq<PollVote>, k: int)
    requires CountsMatch(options, records)
    requires 0 <= k < |options|
    ensures !CountsMatch(AddVote(options, k), records)
  {
  }
}
