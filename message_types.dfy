/**
 * The enumerations shared by the message store, the send and receive paths
 * and the chat screens.
 */
module MessageTypes {

  type ChatId = string
  type MessageId = string

  /** A message payload, kept as its JSON text; its shape depends on the content type. */
  type Data = string

  /**
   * The content-type discriminator of a message. The constructors are the
   * members named by the modelled files; every other member of the
   * enumeration (reactions, receipts, edits, ...) is `Other(code)`.
   */
  datatype ContentType =
    | Text
    | Link
    | Image
    | Video
    | File
    | AudioRecording
    | Deleted
    | ContactBundle
    | ContactBundleRequest
    | ContactBundleResponse
    | DisappearingMessages
    | Other(code: nat)

  /** The lifecycle state of a message (`latest` marks unread summaries). */
  datatype MessageStatus =
    | Journaled
    | Sent
    | Read
    | Failed
    | Latest
    | OtherStatus(code: nat)
}
