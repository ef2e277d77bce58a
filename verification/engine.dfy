/**
  The message store over a whole run of write requests, each one a live-channel event or
  an HTTP request, applied one after another with the clock reading of its arrival. The
  per-handler contracts compose into properties of every run: records never disappear and
  only change as `Successor` allows, the store invariant holds throughout, and once a record
  is deleted no later event mentions it.
*/
module Engine {
  import opened Options
  import opened Js
  import opened Auth
  import opened Messages
  import opened Mutations
  import opened MessageRoutes
  import opened ImageCodec
  import opened Queries

  /** One write request with what the handler needs from outside: the requester, the
      store's answer (fresh key, failure), the clock and the decoder. */
  datatype Command =
    | Send(user: Option<Identity>, req: SendRequest, newId: Id, decodedLength: string -> nat, storeFails: bool)
    | Edit(user: Option<Identity>, messageId: JsValue, text: JsValue, storeFails: bool)
    | Delete(user: Option<Identity>, messageId: JsValue, storeFails: bool)
    | Put(authorization: Option<string>, configured: bool, verify: Verifier, id: Id, text: JsValue, storeFails: bool)
    | Remove(authorization: Option<string>, configured: bool, verify: Verifier, id: Id, storeFails: bool)

  /** The handler of one command. */
  function Step(store: Store, cmd: Command, now: Time): (o: Effect)
    ensures Evolves(store, o.store) && Quiet(store, o.events)
    ensures ValidStore(store) ==> ValidStore(o.store)
  {
    match cmd
    case Send(user, req, newId, decodedLength, storeFails) =>
      Mutations.Send(store, user, req, newId, now, decodedLength, storeFails)
    case Edit(user, messageId, text, storeFails) =>
      SocketEdit(store, user, messageId, text, now, storeFails)
    case Delete(user, messageId, storeFails) =>
      SocketDelete(store, user, messageId, now, storeFails)
    case Put(authorization, configured, verify, id, text, storeFails) =>
      var r := EditMessage(store, authorization, configured, verify, id, text, now, storeFails);
      Effect(r.store, r.events)
    case Remove(authorization, configured, verify, id, storeFails) =>
      var r := DeleteMessage(store, authorization, configured, verify, id, now, storeFails);
      Effect(r.store, r.events)
  }

  /** A handler of commands: the store, the command and the clock to the store and events. */
  type Handler = (Store, Command, Time) -> Effect

  /** What every handler call guarantees: records only evolve, no event mentions a record
      deleted before the call, and the store invariant is kept. */
  ghost predicate Sound(handle: Handler) {
    forall s, c, t :: && Evolves(s, handle(s, c, t).store) && Quiet(s, handle(s, c, t).events)
                      && (ValidStore(s) ==> ValidStore(handle(s, c, t).store))
  }

  /** One call of a sound handler. */
  lemma SoundCall(handle: Handler, s: Store, c: Command, t: Time)
    requires Sound(handle)
    ensures Evolves(s, handle(s, c, t).store) && Quiet(s, handle(s, c, t).events)
    ensures ValidStore(s) ==> ValidStore(handle(s, c, t).store)
  {
  }

  /** The server's handlers are sound. */
  lemma StepSound()
    ensures Sound(Step)
  {
  }

  /** The commands applied in order, the i-th at time `clock[i]`; the events are those of
      every step, in order. */
  function Run(handle: Handler, store: Store, cmds: seq<Command>, clock: seq<Time>): Effect
    requires |clock| == |cmds|
    decreases |cmds|
  {
    if |cmds| == 0 then Effect(store, [])
    else
      var first := handle(store, cmds[0], clock[0]);
      var rest := Run(handle, first.store, cmds[1..], clock[1..]);
      Effect(rest.store, first.events + rest.events)
  }

  /** Events quiet about the records deleted in a later state are quiet about those
      deleted in an earlier one, since a deleted record stays deleted. */
  lemma QuietConcat(s: Store, t: Store, e1: seq<Event>, e2: seq<Event>)
    requires Evolves(s, t) && Quiet(s, e1) && Quiet(t, e2)
    ensures Quiet(s, e1 + e2)
  {
    forall id, i | id in s && s[id].isDeleted && 0 <= i < |e1 + e2|
      ensures !Mentions((e1 + e2)[i], id)
    {
      if i >= |e1| {
        assert (e1 + e2)[i] == e2[i - |e1|];
      }
    }
  }

  /** Over a whole run of sound handlers no record disappears and every record changes
      only as `Successor` allows: authorship and creation data stay, an edit mark stays, a
      deleted record stays exactly as it was. */
  lemma {:induction false} RunEvolves(handle: Handler, store: Store, cmds: seq<Command>, clock: seq<Time>)
    requires Sound(handle) && |clock| == |cmds|
    ensures Evolves(store, Run(handle, store, cmds, clock).store)
    decreases |cmds|
  {
    if |cmds| > 0 {
      var first := handle(store, cmds[0], clock[0]);
      SoundCall(handle, store, cmds[0], clock[0]);
      RunEvolves(handle, first.store, cmds[1..], clock[1..]);
      EvolvesTransitive(store, first.store, Run(handle, first.store, cmds[1..], clock[1..]).store);
    }
  }

  /** The store invariant holds after every run that starts from a valid store. */
  lemma {:induction false} RunKeepsValid(handle: Handler, store: Store, cmds: seq<Command>, clock: seq<Time>)
    requires Sound(handle) && |clock| == |cmds| && ValidStore(store)
    ensures ValidStore(Run(handle, store, cmds, clock).store)
    decreases |cmds|
  {
    if |cmds| > 0 {
      SoundCall(handle, store, cmds[0], clock[0]);
      RunKeepsValid(handle, handle(store, cmds[0], clock[0]).store, cmds[1..], clock[1..]);
    }
  }

  /** No event of a run mentions a record that was deleted when the run started: a
      deleted message is neither re-broadcast, nor edited, nor deleted a second time. */
  lemma {:induction false} RunQuiet(handle: Handler, store: Store, cmds: seq<Command>, clock: seq<Time>)
    requires Sound(handle) && |clock| == |cmds|
    ensures Quiet(store, Run(handle, store, cmds, clock).events)
    decreases |cmds|
  {
    if |cmds| > 0 {
      var first := handle(store, cmds[0], clock[0]);
      SoundCall(handle, store, cmds[0], clock[0]);
      RunQuiet(handle, first.store, cmds[1..], clock[1..]);
      QuietConcat(store, first.store, first.events, Run(handle, first.store, cmds[1..], clock[1..]).events);
    }
  }

  /** For the server's own handlers: a record deleted when a run starts (so also one
      deleted by an earlier run) comes out of the run exactly as it went in, no event of the
      run mentions it, and a valid store stays valid. */
  lemma DeletedStaysSilent(store: Store, cmds: seq<Command>, clock: seq<Time>, id: Id)
    requires |clock| == |cmds|
    requires id in store && store[id].isDeleted
    ensures var r := Run(Step, store, cmds, clock);
            && (forall i :: 0 <= i < |r.events| ==> !Mentions(r.events[i], id))
            && id in r.store && r.store[id] == store[id]
            && (ValidStore(store) ==> ValidStore(r.store))
  {
    StepSound();
    RunQuiet(Step, store, cmds, clock);
    RunEvolves(Step, store, cmds, clock);
    if ValidStore(store) {
      RunKeepsValid(Step, store, cmds, clock);
    }
  }

  /** An accepted image comes back from the history exactly as it was sent: the stored
      record is live and its history entry carries the sender's data URL, byte for byte. */
  lemma SentImageReadsBack(store: Store, user: Identity, d: DataUrl, text: JsValue, fileName: Option<string>,
                           newId: Id, now: Time, decodedLength: string -> nat)
    requires WellFormed(d) && d.mimeType in AllowedTypes
    requires !Truthy(text) || text.Str?
    requires newId !in store
    ensures var o := Mutations.Send(store, Some(user), SendRequest(text, Str(Format(d)), fileName, None), newId, now, decodedLength, false);
            && newId in o.store && Live(o.store[newId])
            && HistoryView(newId, o.store[newId]).imageData == Some(Format(d))
  {
    SendImageVerbatim(store, user, d, text, fileName, newId, now, decodedLength);
  }
}
