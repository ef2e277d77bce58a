/**
  The live-channel handlers that write to the message store: `message:send` (server.js,
  lines 241-357), `message:edit` (lines 361-391) and `message:delete` (lines 394-419),
  and the conditional update `findOneAndUpdate({ _id, userId, isDeleted: false }, …)` they
  share with the HTTP routes. Each handler is a pure function from the store and its input
  to the new store and the events it emits.
*/
module Mutations {
  import opened Options
  import opened Strings
  import opened Js
  import opened Auth
  import opened Messages
  import opened ImageCodec

  // ---------------------------------------------------------------------------
  // The conditional update

  /** The two update documents: an edit and a soft delete. */
  datatype Change = SetText(text: string) | SoftDelete

  /** The record after the update document is applied. */
  function Applied(m: Message, c: Change, now: Time): Message {
    match c
    case SetText(t) => m.(text := t, isEdited := true, updatedAt := Some(now))
    case SoftDelete => m.(isDeleted := true, deletedAt := Some(now))
  }

  /** The store after the update and the document returned with `{ new: true }`, null when
      the filter matched nothing. */
  datatype Update = Update(store: Store, doc: Option<Message>)

  /** `findOneAndUpdate({ _id: id, userId: uid, isDeleted: false }, change, { new: true })`:
      a document is returned exactly when the filter matches; then it is the only record
      that changes, and it changes as the update document says; otherwise nothing changes. */
  function FindOneAndUpdate(store: Store, id: Id, uid: string, c: Change, now: Time): (u: Update)
    ensures u.doc.Some? <==> Owned(store, id, uid)
    ensures u.doc.None? ==> u.store == store
    ensures u.doc.Some? ==> u.store == store[id := u.doc.value] && u.doc.value == Applied(store[id], c, now)
    ensures Evolves(store, u.store)
  {
    if Owned(store, id, uid) then
      var m := Applied(store[id], c, now);
      Update(store[id := m], Some(m))
    else Update(store, None)
  }

  /** An applied edit with trimmed, non-empty text, or a delete, keeps a record valid. */
  lemma AppliedValid(m: Message, c: Change, now: Time)
    requires ValidMessage(m) && !m.isDeleted
    requires c.SetText? ==> c.text != "" && IsTrimmed(c.text)
    ensures ValidMessage(Applied(m, c, now))
  {
  }

  /** The update keeps every record of a valid store valid. */
  lemma UpdateKeepsValid(store: Store, id: Id, uid: string, c: Change, now: Time)
    requires c.SetText? ==> c.text != "" && IsTrimmed(c.text)
    ensures ValidStore(store) ==> ValidStore(FindOneAndUpdate(store, id, uid, c, now).store)
  {
    if ValidStore(store) && Owned(store, id, uid) {
      AppliedValid(store[id], c, now);
    }
  }

  /** A record that is deleted cannot be matched again: a second delete, or an edit after
      the delete, changes nothing and returns no document. */
  lemma DeletedIsFinal(store: Store, id: Id, uid: string, c: Change, now: Time, later: Time)
    requires Owned(store, id, uid)
    ensures var s1 := FindOneAndUpdate(store, id, uid, SoftDelete, now).store;
            FindOneAndUpdate(s1, id, uid, c, later) == Update(s1, None)
  {
  }

  /** Only the author can change a record: for any other requester the update is a no-op. */
  lemma OthersCannotChange(store: Store, id: Id, uid: string, c: Change, now: Time)
    requires id in store && store[id].userId != uid
    ensures FindOneAndUpdate(store, id, uid, c, now) == Update(store, None)
  {
  }

  // ---------------------------------------------------------------------------
  // message:send

  /** The store and the events one handler call produces. */
  datatype Effect = Effect(store: Store, events: seq<Event>)

  const FailedToSend: string := "Failed to send message"

  /** The text of an image message sent without a caption. */
  const ImagePlaceholder: string := "\U{1F4F7} Image"

  /** The fields of a `message:send` payload; `imageFileName` and `imageSize` are optional. */
  datatype SendRequest = SendRequest(text: JsValue, image: JsValue, imageFileName: Option<string>, imageSize: Option<int>)

  /** `user.name || user.email || 'User'`: a non-empty name taken from the identity. */
  function DisplayName(user: Identity): (r: string)
    ensures r != ""
    ensures r == "User" || Some(r) == user.name || Some(r) == user.email
    ensures Present(user.name) ==> r == user.name.value
    ensures !Present(user.name) && Present(user.email) ==> r == user.email.value
    ensures !Present(user.name) && !Present(user.email) ==> r == "User"
  {
    Or(user.name, Or(user.email, "User"))
  }

  /** `text && text.trim() ? text.trim() : '📷 Image'`; `None` when the text is a truthy
      non-string, on which `trim` throws. */
  function Caption(text: JsValue): (r: Option<string>)
    ensures r.Some? <==> !Truthy(text) || text.Str?
    ensures r.Some? ==> r.value != "" && IsTrimmed(r.value)
    ensures text.Str? && Trim(text.s) != "" ==> r == Some(Trim(text.s))
    ensures r.Some? && r.value != ImagePlaceholder ==> text.Str? && r.value == Trim(text.s)
  {
    if !Truthy(text) then Some(ImagePlaceholder)
    else if !text.Str? then None
    else if Trim(text.s) != "" then Some(Trim(text.s))
    else Some(ImagePlaceholder)
  }

  /** `imageSize || Buffer.from(base64Data, 'base64').length`: a supplied, non-zero size
      always wins, and the decoded length is only the fallback. */
  function StoredSize(imageSize: Option<int>, decoded: nat): (n: int)
    ensures imageSize.Some? && imageSize.value != 0 ==> n == imageSize.value
    ensures n != decoded ==> imageSize.Some? && imageSize.value != 0
  {
    if imageSize.Some? && imageSize.value != 0 then imageSize.value else decoded
  }

  /** With a non-zero size supplied, the decoded payload never influences what is stored. */
  lemma StoredSizeIgnoresPayload(imageSize: Option<int>, d1: nat, d2: nat)
    requires imageSize.Some? && imageSize.value != 0
    ensures StoredSize(imageSize, d1) == StoredSize(imageSize, d2)
  {
  }

  /** An accepted image with a supplied size stores a size within the 5 MiB limit; the
      derived fallback carries no such bound. */
  lemma AcceptedSuppliedSizeWithinLimit(image: string, imageSize: Option<int>, decoded: nat)
    requires CheckImage(image, imageSize).Ok? && imageSize.Some? && imageSize.value != 0
    ensures StoredSize(imageSize, decoded) <= MaxImageSize
  {
  }

  /** `Message.create(record)` followed by `io.emit('message:new', …)`. A store failure, or
      a key already in use, ends in the catch block, which tells only the sender. */
  function Create(store: Store, id: Id, m: Message, storeFails: bool): (o: Effect)
    ensures o.store == store <==> storeFails || id in store
    ensures o.store == store ==> o.events == [ErrorToSender(FailedToSend)]
    ensures o.store != store ==> o.store == store[id := m] && o.events == [MessageNew(NewPayloadOf(id, m))]
    ensures Evolves(store, o.store) && Quiet(store, o.events)
  {
    if storeFails || id in store then Effect(store, [ErrorToSender(FailedToSend)])
    else
      assert id in store[id := m];
      Effect(store[id := m], [MessageNew(NewPayloadOf(id, m))])
  }

  /** The text-only branch (taken when `image` is falsy): a non-string or blank text is
      dropped without a word; otherwise the trimmed text is stored as a new, unedited,
      undeleted record in the default room and broadcast. */
  function SendText(store: Store, user: Identity, text: JsValue, newId: Id, now: Time, storeFails: bool): (o: Effect)
    ensures !text.Str? || Trim(text.s) == "" ==> o == Effect(store, [])
    ensures o.store != store <==> text.Str? && Trim(text.s) != "" && !storeFails && newId !in store
    ensures o.store != store ==> newId in o.store && ValidMessage(o.store[newId])
    ensures Evolves(store, o.store) && Quiet(store, o.events)
    ensures o.store == store && text.Str? && Trim(text.s) != "" ==> o.events == [ErrorToSender(FailedToSend)]
    ensures o.store != store ==>
              var m := o.store[newId];
              && o.store == store[newId := m]
              && o.events == [MessageNew(NewPayloadOf(newId, m))]
              && m.text == Trim(text.s) && !m.hasImage && m.image.None?
              && m.userId == user.uid && m.displayName == DisplayName(user)
              && m.room == DefaultRoom && m.createdAt == now
              && !m.isEdited && !m.isDeleted && m.updatedAt.None? && m.deletedAt.None?
  {
    if !text.Str? || Trim(text.s) == "" then Effect(store, [])
    else
      var m := Message(user.uid, DisplayName(user), Trim(text.s), DefaultRoom, false, None,
                       now, None, false, false, None);
      Create(store, newId, m, storeFails)
  }

  /** The image branch (taken when `image` is truthy). A non-string image, on which `match`
      throws, and a rejected image each send exactly one `error` event to the sender and
      change nothing. An accepted image is stored as a new record holding the original
      data URL verbatim, the parsed media type, the supplied or default file name and the
      supplied or derived size. */
  function SendImage(store: Store, user: Identity, req: SendRequest, newId: Id, now: Time,
                     decodedLength: string -> nat, storeFails: bool): (o: Effect)
    requires Truthy(req.image)
    ensures !req.image.Str? ==> o == Effect(store, [ErrorToSender(FailedToSend)])
    ensures req.image.Str? && CheckImage(req.image.s, req.imageSize).Err? ==>
              o == Effect(store, [ErrorToSender(ErrorMessage(CheckImage(req.image.s, req.imageSize).error))])
    ensures o.store == store ==> |o.events| == 1 && o.events[0].ErrorToSender?
    ensures o.store == store && req.image.Str? && CheckImage(req.image.s, req.imageSize).Ok? ==>
              o.events == [ErrorToSender(FailedToSend)]
    ensures o.store != store <==>
              && req.image.Str? && CheckImage(req.image.s, req.imageSize).Ok?
              && Caption(req.text).Some? && !storeFails && newId !in store
    ensures o.store != store ==> newId in o.store && ValidMessage(o.store[newId])
    ensures Evolves(store, o.store) && Quiet(store, o.events)
    ensures o.store != store ==>
              var m := o.store[newId];
              var d := CheckImage(req.image.s, req.imageSize).value;
              && o.store == store[newId := m]
              && o.events == [MessageNew(NewPayloadOf(newId, m))]
              && m.hasImage
              && m.image == Some(Image(req.image.s, Or(req.imageFileName, DefaultFileName(d.mimeType)),
                                       StoredSize(req.imageSize, decodedLength(d.payload)), d.mimeType, now))
              && m.text == Caption(req.text).value
              && m.userId == user.uid && m.displayName == DisplayName(user)
              && m.room == DefaultRoom && m.createdAt == now
              && !m.isEdited && !m.isDeleted && m.updatedAt.None? && m.deletedAt.None?
  {
    if !req.image.Str? then Effect(store, [ErrorToSender(FailedToSend)])
    else
      match CheckImage(req.image.s, req.imageSize)
      case Err(e) => Effect(store, [ErrorToSender(ErrorMessage(e))])
      case Ok(d) =>
        match Caption(req.text)
        case None => Effect(store, [ErrorToSender(FailedToSend)])
        case Some(caption) =>
          var img := Image(req.image.s, Or(req.imageFileName, DefaultFileName(d.mimeType)),
                           StoredSize(req.imageSize, decodedLength(d.payload)), d.mimeType, now);
          var m := Message(user.uid, DisplayName(user), caption, DefaultRoom, true, Some(img),
                           now, None, false, false, None);
          Create(store, newId, m, storeFails)
  }

  /** The `message:send` handler for a connection whose handshake stored `user` (`None` on
      a connection without one). `newId` is the key the store would assign, `now` the
      clock, `decodedLength` the byte length of the decoded base64 payload. At most one
      event results; the store changes exactly when one `message:new` is broadcast, by one
      new record under a fresh key; and every record the handler writes is valid. */
  function Send(store: Store, user: Option<Identity>, req: SendRequest, newId: Id, now: Time,
                decodedLength: string -> nat, storeFails: bool): (o: Effect)
    ensures user.None? ==> o == Effect(store, [])
    ensures |o.events| <= 1
    ensures o.store != store <==> |o.events| == 1 && o.events[0].MessageNew?
    ensures o.store != store ==>
              && newId !in store && newId in o.store && o.store == store[newId := o.store[newId]]
              && o.events == [MessageNew(NewPayloadOf(newId, o.store[newId]))]
              && ValidMessage(o.store[newId])
    ensures Evolves(store, o.store)
    ensures Quiet(store, o.events)
    ensures ValidStore(store) ==> ValidStore(o.store)
  {
    if user.None? then Effect(store, [])
    else if Truthy(req.image) then
      SendImage(store, user.value, req, newId, now, decodedLength, storeFails)
    else SendText(store, user.value, req.text, newId, now, storeFails)
  }

  /** For a signed-in user, a falsy `image` takes the text branch and a truthy one the
      image branch. */
  lemma SendDispatch(store: Store, user: Identity, req: SendRequest, newId: Id, now: Time,
                     decodedLength: string -> nat, storeFails: bool)
    ensures !Truthy(req.image) ==>
              Send(store, Some(user), req, newId, now, decodedLength, storeFails)
              == SendText(store, user, req.text, newId, now, storeFails)
    ensures Truthy(req.image) ==>
              Send(store, Some(user), req, newId, now, decodedLength, storeFails)
              == SendImage(store, user, req, newId, now, decodedLength, storeFails)
  {
  }

  /** A signed-in user sending non-blank text with no image gets one `message:new` to
      everyone, carrying the trimmed text under the user's name, and the record is stored. */
  lemma SendTextBroadcasts(store: Store, user: Identity, t: string, image: JsValue, fileName: Option<string>,
                           size: Option<int>, newId: Id, now: Time, decodedLength: string -> nat)
    requires Trim(t) != "" && !Truthy(image)
    requires newId !in store
    ensures var o := Send(store, Some(user), SendRequest(Str(t), image, fileName, size), newId, now, decodedLength, false);
            && |o.events| == 1 && o.events[0].MessageNew?
            && o.events[0].created.text == Trim(t)
            && o.events[0].created.userId == user.uid
            && o.events[0].created.displayName == DisplayName(user)
            && !o.events[0].created.hasImage
            && newId in o.store && o.store[newId].text == Trim(t) && !o.store[newId].isDeleted
  {
  }

  /** A well-formed data URL of an allowed type, with no oversized size supplied, is
      accepted and broadcast with the sender's data URL unchanged. */
  lemma SendImageVerbatim(store: Store, user: Identity, d: DataUrl, text: JsValue, fileName: Option<string>,
                          newId: Id, now: Time, decodedLength: string -> nat)
    requires WellFormed(d) && d.mimeType in AllowedTypes
    requires !Truthy(text) || text.Str?
    requires newId !in store
    ensures var o := Send(store, Some(user), SendRequest(text, Str(Format(d)), fileName, None), newId, now, decodedLength, false);
            && |o.events| == 1 && o.events[0].MessageNew?
            && o.events[0].created.image.Some?
            && o.events[0].created.image.value.data == Format(d)
            && o.events[0].created.image.value.mimeType == d.mimeType
  {
    CheckImageAccepts(d, None);
    assert Format(d) != "";
  }

  // ---------------------------------------------------------------------------
  // message:edit and message:delete

  /** The store id a client-supplied `messageId` can match: a non-empty string. A falsy
      id ends the handler early. Other non-string ids (arrays, operator objects) are read
      here as matching nothing; the query casting that could let them match several ids
      is not part of this model. */
  function Key(messageId: JsValue): (k: Option<Id>)
    ensures k.Some? ==> messageId == Str(k.value) && k.value != ""
    ensures messageId.Str? && messageId.s != "" ==> k == Some(messageId.s)
  {
    if messageId.Str? && messageId.s != "" then Some(messageId.s) else None
  }

  /** The `message:edit` handler. Nothing happens unless there is a user, an id and a
      non-blank string text (a truthy non-string text throws in `trim`, and the catch
      block only logs). Otherwise the author's own undeleted record gets the trimmed text
      and is marked edited, and `message:edited` is broadcast; an unmatched id, another
      user's record, a deleted record or a store failure change nothing and stay silent. */
  function SocketEdit(store: Store, user: Option<Identity>, messageId: JsValue, text: JsValue, now: Time, storeFails: bool): (o: Effect)
    ensures o.events == [] ==> o.store == store
    ensures o.events != [] <==>
              && user.Some? && Key(messageId).Some? && text.Str? && Trim(text.s) != ""
              && !storeFails && Owned(store, Key(messageId).value, user.value.uid)
    ensures o.events != [] ==>
              var id := Key(messageId).value;
              && o.store == store[id := store[id].(text := Trim(text.s), isEdited := true, updatedAt := Some(now))]
              && o.events == [MessageEdited(EditedPayloadOf(id, o.store[id]))]
    ensures Evolves(store, o.store)
    ensures Quiet(store, o.events)
    ensures ValidStore(store) ==> ValidStore(o.store)
  {
    if user.None? || !Truthy(messageId) || !Truthy(text) || !text.Str? || Trim(text.s) == "" then Effect(store, [])
    else if Key(messageId).None? || storeFails then Effect(store, [])
    else
      var id := Key(messageId).value;
      var u := FindOneAndUpdate(store, id, user.value.uid, SetText(Trim(text.s)), now);
      UpdateKeepsValid(store, id, user.value.uid, SetText(Trim(text.s)), now);
      match u.doc
      case None => Effect(store, [])
      case Some(m) => Effect(u.store, [MessageEdited(EditedPayloadOf(id, m))])
  }

  /** The `message:delete` handler: the author's own undeleted record is marked deleted at
      `now` and `message:deleted` is broadcast with only the id, the author and the
      deletion time; every other case changes nothing and stays silent. */
  function SocketDelete(store: Store, user: Option<Identity>, messageId: JsValue, now: Time, storeFails: bool): (o: Effect)
    ensures o.events == [] ==> o.store == store
    ensures o.events != [] <==>
              user.Some? && Key(messageId).Some? && !storeFails && Owned(store, Key(messageId).value, user.value.uid)
    ensures o.events != [] ==>
              var id := Key(messageId).value;
              && o.store == store[id := store[id].(isDeleted := true, deletedAt := Some(now))]
              && o.events == [MessageDeleted(DeletedPayload(id, user.value.uid, now))]
    ensures Evolves(store, o.store)
    ensures Quiet(store, o.events)
    ensures ValidStore(store) ==> ValidStore(o.store)
  {
    if user.None? || !Truthy(messageId) then Effect(store, [])
    else if Key(messageId).None? || storeFails then Effect(store, [])
    else
      var id := Key(messageId).value;
      var u := FindOneAndUpdate(store, id, user.value.uid, SoftDelete, now);
      UpdateKeepsValid(store, id, user.value.uid, SoftDelete, now);
      match u.doc
      case None => Effect(store, [])
      case Some(m) => Effect(u.store, [MessageDeleted(DeletedPayload(id, m.userId, now))])
  }

  /** An edit by anyone but the author changes nothing and is broadcast to nobody. */
  lemma NonAuthorEditIsSilent(store: Store, user: Identity, id: Id, text: JsValue, now: Time, storeFails: bool)
    requires id in store && store[id].userId != user.uid
    ensures SocketEdit(store, Some(user), Str(id), text, now, storeFails) == Effect(store, [])
  {
  }

  /** Deleting twice: the second delete finds nothing, changes nothing and emits nothing. */
  lemma SecondDeleteIsSilent(store: Store, user: Identity, id: Id, now: Time, later: Time)
    requires id != ""
    ensures var first := SocketDelete(store, Some(user), Str(id), now, false);
            SocketDelete(first.store, Some(user), Str(id), later, false) == Effect(first.store, [])
  {
  }
}
