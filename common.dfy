/** Small value wrappers shared by the message modules, and the failures
    the message service and repository raise. */
module Common {

  datatype Option<+T> = None | Some(value: T)

  datatype Result<+T, +E> = Ok(value: T) | Err(error: E)

  /** Which NotFoundException was thrown (the exception's message). */
  datatype NotFoundReason =
    | MessageMissing        // repository getMessageById: "Message with ID ... not found"
    | InvalidPollMessage    // service vote: "Invalid poll message"
    | PollMetadataMissing   // service vote: "Poll metadata missing"
    | PollMessageMissing    // repository vote: "Poll message not found"

  /** An exception escaping a call: a NestJS NotFoundException, or the
      JavaScript TypeError raised by reading `.votes` of a missing option. */
  datatype Failure = NotFound(reason: NotFoundReason) | TypeError
}
