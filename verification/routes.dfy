/**
  The HTTP message routes behind the `firebaseAuth` gate: PUT /messages/:id (server.js,
  lines 153-200) and DELETE /messages/:id (lines 203-232). They use the same conditional
  update as the live channel, answer the caller, and broadcast the change to every client.
*/
module MessageRoutes {
  import opened Options
  import opened Strings
  import opened Js
  import opened Auth
  import opened Messages
  import opened Mutations

  /** The answer together with the new store and the broadcast events. */
  datatype HttpEffect<+T> = HttpEffect(reply: Reply<T>, store: Store, events: seq<Event>)

  /** The body of a successful delete: `{ success: true, deletedAt }`. */
  datatype DeleteBody = DeleteBody(success: bool, deletedAt: Time)

  const TextRequired: string := "Message text is required"
  const EditNotFound: string := "Message not found or you cannot edit this message"
  const DeleteNotFound: string := "Message not found or you cannot delete this message"
  const FailedToEdit: string := "Failed to edit message"
  const FailedToDelete: string := "Failed to delete message"

  /** PUT /messages/:id with body text `text`. A refused gate answers for the route. The
      text is checked before the store is touched: a falsy or blank string is 400, a truthy
      non-string throws in `trim` and is 500. Then the author's own undeleted record gets
      the trimmed text and is marked edited, and the answer and the broadcast carry the
      same edited record; no match is 404; a store failure is 500. */
  function EditMessage(store: Store, authorization: Option<string>, configured: bool, verify: Verifier,
                       id: Id, text: JsValue, now: Time, storeFails: bool): (r: HttpEffect<EditedPayload>)
    ensures r.reply.Failure? ==> r.store == store && r.events == []
    ensures !Admitted("PUT", authorization, configured, verify) ==>
              r.reply == Refusal(FirebaseAuth(Request("PUT", authorization), configured, verify))
    ensures Admitted("PUT", authorization, configured, verify) && (!Truthy(text) || (text.Str? && Trim(text.s) == "")) ==>
              r.reply == Failure(400, TextRequired, None)
    ensures Admitted("PUT", authorization, configured, verify) && Truthy(text) && !text.Str? ==>
              r.reply == Failure(500, FailedToEdit, None)
    ensures r.reply.Success? <==>
              && Admitted("PUT", authorization, configured, verify) && text.Str? && Trim(text.s) != "" && !storeFails
              && Owned(store, id, Requester("PUT", authorization, configured, verify).uid)
    ensures Admitted("PUT", authorization, configured, verify) && text.Str? && Trim(text.s) != "" && !storeFails
            && !Owned(store, id, Requester("PUT", authorization, configured, verify).uid) ==>
              r.reply == Failure(404, EditNotFound, None)
    ensures Admitted("PUT", authorization, configured, verify) && text.Str? && Trim(text.s) != "" && storeFails ==>
              r.reply == Failure(500, FailedToEdit, None)
    ensures r.reply.Success? ==>
              && r.store == store[id := store[id].(text := Trim(text.s), isEdited := true, updatedAt := Some(now))]
              && r.reply.body == EditedPayloadOf(id, r.store[id])
              && r.events == [MessageEdited(r.reply.body)]
    ensures Evolves(store, r.store) && Quiet(store, r.events)
    ensures ValidStore(store) ==> ValidStore(r.store)
  {
    var g := FirebaseAuth(Request("PUT", authorization), configured, verify);
    if g.Deny? then HttpEffect(Refusal(g), store, [])
    else
      var uid := g.user.value.uid;
      if !Truthy(text) then HttpEffect(Failure(400, TextRequired, None), store, [])
      else if !text.Str? then HttpEffect(Failure(500, FailedToEdit, None), store, [])
      else if Trim(text.s) == "" then HttpEffect(Failure(400, TextRequired, None), store, [])
      else if storeFails then HttpEffect(Failure(500, FailedToEdit, None), store, [])
      else
        var u := FindOneAndUpdate(store, id, uid, SetText(Trim(text.s)), now);
        UpdateKeepsValid(store, id, uid, SetText(Trim(text.s)), now);
        match u.doc
        case None => HttpEffect(Failure(404, EditNotFound, None), store, [])
        case Some(m) => HttpEffect(Success(EditedPayloadOf(id, m)), u.store, [MessageEdited(EditedPayloadOf(id, m))])
  }

  /** DELETE /messages/:id: the author's own undeleted record is marked deleted at `now`;
      the answer is `{ success: true, deletedAt }` and the broadcast carries only the id,
      the author and the deletion time. No match is 404, a store failure 500. */
  function DeleteMessage(store: Store, authorization: Option<string>, configured: bool, verify: Verifier,
                         id: Id, now: Time, storeFails: bool): (r: HttpEffect<DeleteBody>)
    ensures r.reply.Failure? ==> r.store == store && r.events == []
    ensures !Admitted("DELETE", authorization, configured, verify) ==>
              r.reply == Refusal(FirebaseAuth(Request("DELETE", authorization), configured, verify))
    ensures r.reply.Success? <==>
              && Admitted("DELETE", authorization, configured, verify) && !storeFails
              && Owned(store, id, Requester("DELETE", authorization, configured, verify).uid)
    ensures Admitted("DELETE", authorization, configured, verify) && !storeFails
            && !Owned(store, id, Requester("DELETE", authorization, configured, verify).uid) ==>
              r.reply == Failure(404, DeleteNotFound, None)
    ensures Admitted("DELETE", authorization, configured, verify) && storeFails ==>
              r.reply == Failure(500, FailedToDelete, None)
    ensures r.reply.Success? ==>
              && r.store == store[id := store[id].(isDeleted := true, deletedAt := Some(now))]
              && r.reply.body == DeleteBody(true, now)
              && r.events == [MessageDeleted(DeletedPayload(id, store[id].userId, now))]
    ensures Evolves(store, r.store) && Quiet(store, r.events)
    ensures ValidStore(store) ==> ValidStore(r.store)
  {
    var g := FirebaseAuth(Request("DELETE", authorization), configured, verify);
    if g.Deny? then HttpEffect(Refusal(g), store, [])
    else if storeFails then HttpEffect(Failure(500, FailedToDelete, None), store, [])
    else
      var uid := g.user.value.uid;
      var u := FindOneAndUpdate(store, id, uid, SoftDelete, now);
      UpdateKeepsValid(store, id, uid, SoftDelete, now);
      match u.doc
      case None => HttpEffect(Failure(404, DeleteNotFound, None), store, [])
      case Some(m) => HttpEffect(Success(DeleteBody(true, now)), u.store, [MessageDeleted(DeletedPayload(id, m.userId, now))])
  }

  /** The HTTP and live-channel edits agree: for the same author, record, text and clock,
      the PUT succeeds exactly when `message:edit` broadcasts, and both leave the same store
      and events. */
  lemma EditRoutesAgree(store: Store, authorization: Option<string>, configured: bool, verify: Verifier,
                        id: Id, text: string, now: Time)
    requires Admitted("PUT", authorization, configured, verify) && id != ""
    ensures var user := Requester("PUT", authorization, configured, verify);
            var http := EditMessage(store, authorization, configured, verify, id, Str(text), now, false);
            var socket := SocketEdit(store, Some(user), Str(id), Str(text), now, false);
            && (http.reply.Success? <==> socket.events != [])
            && http.store == socket.store && http.events == socket.events
  {
  }

  /** Likewise for deletes, in both directions: the HTTP delete succeeds exactly when the
      live-channel delete broadcasts, and both leave the same store and events. */
  lemma DeleteRoutesAgree(store: Store, authorization: Option<string>, configured: bool, verify: Verifier,
                          id: Id, now: Time)
    requires Admitted("DELETE", authorization, configured, verify) && id != ""
    ensures var user := Requester("DELETE", authorization, configured, verify);
            var http := DeleteMessage(store, authorization, configured, verify, id, now, false);
            var socket := SocketDelete(store, Some(user), Str(id), now, false);
            && (http.reply.Success? <==> socket.events != [])
            && http.store == socket.store && http.events == socket.events
  {
  }
}
