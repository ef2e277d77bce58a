/**
  The two read paths over the message store: the global history GET /messages (server.js,
  lines 111-150), behind the `firebaseAuth` gate, and the room-scoped query of
  `getMessages` (controllers/chatController.js, lines 4-19), which no gate guards
  (routes/chat.js). Both are "filter, sort by `createdAt` ascending, take the first n";
  ties in `createdAt` come back in an order the store leaves unspecified.
*/
module Queries {
  import opened Options
  import opened Auth
  import opened Messages

  /** The keys of the records `keep` selects: the query filter. */
  function Candidates(store: Store, keep: Message -> bool): (c: set<Id>)
    ensures forall k :: k in c <==> k in store && keep(store[k])
  {
    set k | k in store && keep(store[k])
  }

  /** `k` is an oldest record of `pool`. */
  predicate Oldest(store: Store, pool: set<Id>, k: Id)
    requires pool <= store.Keys
  {
    k in pool && forall j :: j in pool ==> store[k].createdAt <= store[j].createdAt
  }

  /** Every non-empty pool has an oldest record. */
  lemma {:induction false} OldestExists(store: Store, pool: set<Id>)
    requires pool != {} && pool <= store.Keys
    ensures exists k :: Oldest(store, pool, k)
    decreases |pool|
  {
    var x :| x in pool;
    if pool != {x} {
      var rest := pool - {x};
      OldestExists(store, rest);
      var y :| Oldest(store, rest, y);
      if store[x].createdAt <= store[y].createdAt {
        assert Oldest(store, pool, x);
      } else {
        assert Oldest(store, pool, y);
      }
    } else {
      assert Oldest(store, pool, x);
    }
  }

  /** `ids` is what `find(filter).sort({ createdAt: 1 }).limit(limit)` may return: the
      keys of the `limit` oldest selected records (all of them when there are fewer), each
      once, in ascending `createdAt` order, none younger than a selected record left out. */
  predicate FirstByAge(store: Store, keep: Message -> bool, limit: nat, ids: seq<Id>) {
    && |ids| == (if limit < |Candidates(store, keep)| then limit else |Candidates(store, keep)|)
    && (forall i :: 0 <= i < |ids| ==> ids[i] in store && keep(store[ids[i]]))
    && (forall i, j :: 0 <= i < j < |ids| ==> ids[i] != ids[j])
    && (forall i, j :: 0 <= i < j < |ids| ==> store[ids[i]].createdAt <= store[ids[j]].createdAt)
    && (forall i, k :: 0 <= i < |ids| && k in store && keep(store[k]) && k !in ids ==>
          store[ids[i]].createdAt <= store[k].createdAt)
    && (|Candidates(store, keep)| <= limit ==> forall k :: k in store && keep(store[k]) ==> k in ids)
  }

  /** The query itself, by repeatedly taking an oldest record of those not yet taken. */
  method OldestFirst(store: Store, keep: Message -> bool, limit: nat) returns (ids: seq<Id>)
    ensures FirstByAge(store, keep, limit, ids)
  {
    var all := Candidates(store, keep);
    var pool := all;
    ids := [];
    while |ids| < limit && pool != {}
      invariant pool <= all
      invariant |ids| <= limit
      invariant |ids| + |pool| == |all|
      invariant forall i :: 0 <= i < |ids| ==> ids[i] in all && ids[i] !in pool
      invariant forall k :: k in all ==> k in pool || k in ids
      invariant forall i, j :: 0 <= i < j < |ids| ==> ids[i] != ids[j]
      invariant forall i, j :: 0 <= i < j < |ids| ==> store[ids[i]].createdAt <= store[ids[j]].createdAt
      invariant forall i, k :: 0 <= i < |ids| && k in pool ==> store[ids[i]].createdAt <= store[k].createdAt
      decreases |pool|
    {
      OldestExists(store, pool);
      var k :| Oldest(store, pool, k);
      ids := ids + [k];
      pool := pool - {k};
    }
  }

  // ---------------------------------------------------------------------------
  // GET /messages

  const HistoryLimit: nat := 200
  const FailedToFetch: string := "Failed to fetch messages"

  /** One entry of the history answer. `imageData` and `imageUrl` carry the stored data URL
      of an image message and are null otherwise. */
  datatype HistoryItem = HistoryItem(
    id: Id, userId: string, displayName: string, text: string, hasImage: bool,
    imageFileName: Option<string>, imageSize: Option<int>, imageMimeType: Option<string>,
    imageData: Option<string>, imageUrl: Option<string>, imageUploadedAt: Option<Time>,
    createdAt: Time, isEdited: bool, isDeleted: bool)

  /** The history entry of the record stored under `id`. Absent or falsy image fields read
      as null (`x || null`); the image data is included exactly when the record is an image
      message holding non-empty data. The answer omits the `imageUrl` key altogether when
      there is no such data, while `imageData` is sent as null; both read as `None` here. */
  function HistoryView(id: Id, m: Message): (v: HistoryItem)
    ensures v.id == id && v.text == m.text && v.createdAt == m.createdAt && v.hasImage == m.hasImage
    ensures v.userId == m.userId && v.displayName == m.displayName
    ensures v.imageFileName.Some? <==> m.image.Some? && m.image.value.fileName != ""
    ensures v.imageFileName.Some? ==> v.imageFileName.value == m.image.value.fileName
    ensures v.imageSize.Some? <==> m.image.Some? && m.image.value.size != 0
    ensures v.imageSize.Some? ==> v.imageSize.value == m.image.value.size
    ensures v.imageMimeType.Some? <==> m.image.Some? && m.image.value.mimeType != ""
    ensures v.imageMimeType.Some? ==> v.imageMimeType.value == m.image.value.mimeType
    ensures v.imageUploadedAt == (if m.image.Some? then Some(m.image.value.uploadedAt) else None)
    ensures v.isEdited == m.isEdited && !v.isDeleted
    ensures v.imageData == v.imageUrl
    ensures v.imageData.Some? <==> m.hasImage && m.image.Some? && m.image.value.data != ""
    ensures v.imageData.Some? ==> v.imageData.value == m.image.value.data
  {
    var data := if m.hasImage && m.image.Some? && m.image.value.data != "" then Some(m.image.value.data) else None;
    match m.image
    case None =>
      HistoryItem(id, m.userId, m.displayName, m.text, m.hasImage, None, None, None, data, data, None,
                  m.createdAt, m.isEdited, false)
    case Some(img) =>
      HistoryItem(id, m.userId, m.displayName, m.text, m.hasImage,
                  if img.fileName != "" then Some(img.fileName) else None,
                  if img.size != 0 then Some(img.size) else None,
                  if img.mimeType != "" then Some(img.mimeType) else None,
                  data, data, Some(img.uploadedAt), m.createdAt, m.isEdited, false)
  }

  /** The `_id` of each entry. */
  function Keys(items: seq<HistoryItem>): (ks: seq<Id>)
    ensures |ks| == |items| && forall i :: 0 <= i < |items| ==> ks[i] == items[i].id
  {
    seq(|items|, i requires 0 <= i < |items| => items[i].id)
  }

  predicate Live(m: Message) {
    !m.isDeleted
  }

  /** GET /messages: behind the gate, the 200 oldest undeleted records, oldest first, each
      shown through `HistoryView`; a store failure is 500. */
  method History(store: Store, authorization: Option<string>, configured: bool, verify: Verifier, storeFails: bool)
    returns (reply: Reply<seq<HistoryItem>>)
    ensures !Admitted("GET", authorization, configured, verify) ==>
              reply == Refusal(FirebaseAuth(Request("GET", authorization), configured, verify))
    ensures Admitted("GET", authorization, configured, verify) && storeFails ==> reply == Failure(500, FailedToFetch, None)
    ensures reply.Success? <==> Admitted("GET", authorization, configured, verify) && !storeFails
    ensures reply.Success? ==>
              && FirstByAge(store, Live, HistoryLimit, Keys(reply.body))
              && forall i :: 0 <= i < |reply.body| ==>
                   reply.body[i].id in store && reply.body[i] == HistoryView(reply.body[i].id, store[reply.body[i].id])
  {
    var g := FirebaseAuth(Request("GET", authorization), configured, verify);
    if g.Deny? {
      return Refusal(g);
    }
    if storeFails {
      return Failure(500, FailedToFetch, None);
    }
    var ids := OldestFirst(store, Live, HistoryLimit);
    var items := seq(|ids|, i requires 0 <= i < |ids| => HistoryView(ids[i], store[ids[i]]));
    assert Keys(items) == ids;
    reply := Success(items);
  }

  // ---------------------------------------------------------------------------
  // getMessages

  /** The filter `{ room }`. */
  function InRoom(room: string): Message -> bool {
    (m: Message) => m.room == room
  }

  /** The `_id` of each returned document. */
  function DocKeys(docs: seq<(Id, Message)>): (ks: seq<Id>)
    ensures |ks| == |docs| && forall i :: 0 <= i < |docs| ==> ks[i] == docs[i].0
  {
    seq(|docs|, i requires 0 <= i < |docs| => docs[i].0)
  }

  const RoomLimit: nat := 100
  const MissingRoom: string := "Thi\U{1EBF}u tham s\U{1ED1} room"
  const ServerError: string := "L\U{1ED7}i server"

  /** `getMessages` for `/messages/:room`: an empty room is 400 before any query; a store
      failure is 500 with the error's message; otherwise the 100 oldest records of that
      room, oldest first, with their keys. The filter is on the room alone, so deleted
      records are returned too. */
  method RoomMessages(store: Store, room: string, failure: Option<string>) returns (reply: Reply<seq<(Id, Message)>>)
    ensures room == "" ==> reply == Failure(400, MissingRoom, None)
    ensures room != "" && failure.Some? ==> reply == Failure(500, ServerError, failure)
    ensures reply.Success? <==> room != "" && failure.None?
    ensures reply.Success? ==>
              && FirstByAge(store, InRoom(room), RoomLimit, DocKeys(reply.body))
              && forall i :: 0 <= i < |reply.body| ==>
                   reply.body[i].0 in store && reply.body[i].1 == store[reply.body[i].0] && reply.body[i].1.room == room
  {
    if room == "" {
      return Failure(400, MissingRoom, None);
    }
    if failure.Some? {
      return Failure(500, ServerError, failure);
    }
    var ids := OldestFirst(store, InRoom(room), RoomLimit);
    var docs := seq(|ids|, i requires 0 <= i < |ids| => (ids[i], store[ids[i]]));
    assert DocKeys(docs) == ids;
    reply := Success(docs);
  }
}
