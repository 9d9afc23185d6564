/**
 The slice of the Telegram message model the video handler reads, and the
 replies it can send. Everything else about the transport is outside the
 model.
 */
module Telegram {
  import opened Wrappers

  datatype User = User(id: int)

  /** A file attached to a message (video or document); opaque to the bot. */
  datatype FileRef = FileRef(fileId: string)

  datatype Message = Message(
    messageId: int,
    sender: Option<User>,
    video: Option<FileRef>,
    document: Option<FileRef>)

  /** A reply to the incoming message: plain text, or a video file with a caption. */
  datatype Reply =
    | TextReply(text: string)
    | VideoReply(path: string, caption: string)

  /** `message.video or message.document`: the video wins when both are attached. */
  function Payload(m: Message): (f: Option<FileRef>)
    ensures f.Some? <==> m.video.Some? || m.document.Some?
    ensures m.video.Some? ==> f == m.video
    ensures m.video.None? ==> f == m.document
  {
    if m.video.Some? then m.video else m.document
  }
}
