/**
  The message record as the server writes it (models/Message.js plus the image and
  soft-delete fields server.js stores), the store of records keyed by id, and the events
  the server broadcasts (`io.emit`, to every connected client) or sends back to the
  requesting socket alone (`socket.emit`).
*/
module Messages {
  import opened Options
  import opened Strings
  import ImageCodec

  type Id = string

  /** A server timestamp (`new Date()`), as an abstract number. */
  type Time = int

  /** The schema default of the `room` field (models/Message.js, lines 28-32); the live
      channel never sets a room, so every message it creates gets this one. */
  const DefaultRoom: string := "general"

  /** The inline image fields written for an image message. */
  datatype Image = Image(data: string, fileName: string, size: int, mimeType: string, uploadedAt: Time)

  /** A stored record; its `_id` is the key it is stored under. */
  datatype Message = Message(
    userId: string,
    displayName: string,
    text: string,
    room: string,
    hasImage: bool,
    image: Option<Image>,
    createdAt: Time,
    updatedAt: Option<Time>,
    isEdited: bool,
    isDeleted: bool,
    deletedAt: Option<Time>)

  type Store = map<Id, Message>

  /** The `message:new` payload: the created record with `isEdited` and `isDeleted` false
      and, for an image message, the image fields. */
  datatype NewPayload = NewPayload(
    id: Id, userId: string, displayName: string, text: string,
    hasImage: bool, image: Option<Image>, createdAt: Time, isEdited: bool, isDeleted: bool)

  /** The `message:edited` payload, also the body of a successful HTTP edit. */
  datatype EditedPayload = EditedPayload(
    id: Id, userId: string, displayName: string, text: string,
    isEdited: bool, createdAt: Time, updatedAt: Option<Time>)

  /** The `message:deleted` payload: no text, no image. */
  datatype DeletedPayload = DeletedPayload(id: Id, userId: string, deletedAt: Time)

  datatype Event =
    | MessageNew(created: NewPayload)
    | MessageEdited(edited: EditedPayload)
    | MessageDeleted(deleted: DeletedPayload)
    | ErrorToSender(message: string)

  function NewPayloadOf(id: Id, m: Message): NewPayload {
    NewPayload(id, m.userId, m.displayName, m.text, m.hasImage, m.image, m.createdAt, false, false)
  }

  function EditedPayloadOf(id: Id, m: Message): EditedPayload {
    EditedPayload(id, m.userId, m.displayName, m.text, m.isEdited, m.createdAt, m.updatedAt)
  }

  /** The event concerns the record with this id. */
  predicate Mentions(e: Event, id: Id) {
    match e
    case MessageNew(p) => p.id == id
    case MessageEdited(p) => p.id == id
    case MessageDeleted(p) => p.id == id
    case ErrorToSender(_) => false
  }

  /** The filter `{ _id: id, userId: uid, isDeleted: false }` matches a record. */
  predicate Owned(store: Store, id: Id, uid: string) {
    id in store && store[id].userId == uid && !store[id].isDeleted
  }

  /** What every record the handlers write satisfies: non-empty trimmed text, a display
      name, image fields exactly on image messages, stored image data that parses back to
      its stored, allowed media type, a deletion time exactly on deleted records and an
      update time on every edited one. */
  predicate ValidMessage(m: Message) {
    && m.text != "" && IsTrimmed(m.text)
    && m.displayName != ""
    && (m.hasImage <==> m.image.Some?)
    && (m.image.Some? ==> ValidImage(m.image.value))
    && (m.isDeleted <==> m.deletedAt.Some?)
    && (m.isEdited ==> m.updatedAt.Some?)
  }

  predicate ValidImage(img: Image) {
    && ImageCodec.Parse(img.data).Some?
    && ImageCodec.Parse(img.data).value.mimeType == img.mimeType
    && img.mimeType in ImageCodec.AllowedTypes
  }

  predicate ValidStore(store: Store) {
    forall id :: id in store ==> ValidMessage(store[id])
  }

  /** How a record may change over time: authorship, creation data and image
      never change, `isEdited` never reverts, and a deleted record is frozen. */
  predicate Successor(m: Message, m': Message) {
    && m'.userId == m.userId && m'.displayName == m.displayName
    && m'.room == m.room && m'.createdAt == m.createdAt
    && m'.hasImage == m.hasImage && m'.image == m.image
    && (m.isEdited ==> m'.isEdited)
    && (m.isDeleted ==> m' == m)
  }

  /** `t` is a later state of the store `s`: no record disappears, each one only changes
      as `Successor` allows. */
  predicate Evolves(s: Store, t: Store) {
    && s.Keys <= t.Keys
    && forall id :: id in s ==> Successor(s[id], t[id])
  }

  /** No event of `events` concerns a record that is deleted in `store`. */
  predicate Quiet(store: Store, events: seq<Event>) {
    forall id, i :: id in store && store[id].isDeleted && 0 <= i < |events| ==> !Mentions(events[i], id)
  }

  lemma EvolvesTransitive(s: Store, t: Store, u: Store)
    requires Evolves(s, t) && Evolves(t, u)
    ensures Evolves(s, u)
  {
  }
}
