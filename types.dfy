/** The records the Matrix daemon keeps and exchanges: persisted room bindings,
    pending pairing tokens, incoming room events and outgoing deliveries. */
module MatrixTypes {

  /** A persisted binding of a user to the direct room the bot shares with them
      (`MatrixUser`). */
  datatype MatrixUser = MatrixUser(
    roomID: string,
    encrypted: bool,
    userID: string,
    lang: string,
    contact: bool)

  /** A pairing that waits for its PIN to be confirmed (`UnverifiedUser`). */
  datatype UnverifiedUser = UnverifiedUser(verified: bool, user: MatrixUser)

  /** The raw `body` field of an event's content: a string, or anything else
      (absent, a number, an object). */
  datatype BodyField = TextBody(text: string) | OtherBody

  /** An `m.room.message` event as delivered by the sync loop. */
  datatype Event = Event(timestamp: int, sender: string, roomID: string, body: BodyField)

  /** The two ways a message reaches a room. */
  datatype Transport = Plaintext | Encrypted

  /** The custom HTML format tag set on rich messages. */
  const HtmlFormat: string := "org.matrix.custom.html"

  /** The content of an `m.text` message. An empty `format` means the field is
      not set. */
  datatype Content = Content(body: string, format: string, formattedBody: string)

  /** A message content with only a plain body. */
  function TextContent(body: string): Content
  {
    Content(body, "", "")
  }

  /** One attempted delivery: to which room, over which transport, what, and
      whether the transport reported success. */
  datatype Delivery = Delivery(roomID: string, via: Transport, content: Content, delivered: bool)

  /** The error value returned by the send operations. */
  datatype SendError = NoError | SendFailed(roomID: string)

  /** What the encryption helper run during room creation leaves in the
      daemon's encryption cache for the new room: nothing, or a flag. */
  datatype CacheEffect = CacheUntouched | CacheSet(flag: bool)

  /** The outcome of creating a direct room: its id, whether encryption could
      be enabled on it and what enabling it wrote to the cache; or a failure. */
  datatype RoomResult = Created(roomID: string, encrypted: bool, effect: CacheEffect) | CreateFailed

  /** The parts of an outgoing notification the daemon reads. */
  datatype Message = Message(text: string, markdown: string)
}
