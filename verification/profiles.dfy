/**
  The presence map of signed-in users (models/FirebaseUser.js) and the two routes that
  write it (routes/auth.js): GET /me upserts the caller's profile and marks it online,
  POST /logout marks an existing profile offline. Both run behind the `firebaseAuth` gate.
*/
module Profiles {
  import opened Options
  import opened Js
  import opened Auth
  import opened Messages

  /** A stored profile, keyed by the identity provider's uid. */
  datatype Profile = Profile(
    uid: string,
    email: Option<string>,
    displayName: Option<string>,
    photoURL: Option<string>,
    isOnline: bool,
    lastSeen: Time)

  type Directory = map<string, Profile>

  /** The answer together with the new presence map. */
  datatype ProfileEffect<+T> = ProfileEffect(reply: Reply<T>, profiles: Directory)

  /** The body `{ success: true }`. */
  datatype Ack = Ack(success: bool)

  const AuthError: string := "Auth error"
  const LogoutError: string := "Logout error"

  /** GET /me: behind the gate, the caller's profile is written under their uid, created
      if absent, holding their claims (a missing or empty claim stored as null), online,
      last seen `now`, and returned. Every other uid's profile is untouched. A store
      failure is 500 with the error's message and changes nothing. */
  function Me(profiles: Directory, authorization: Option<string>, configured: bool, verify: Verifier,
              now: Time, failure: Option<string>): (r: ProfileEffect<Profile>)
    ensures r.reply.Failure? ==> r.profiles == profiles
    ensures !Admitted("GET", authorization, configured, verify) ==>
              r.reply == Refusal(FirebaseAuth(Request("GET", authorization), configured, verify))
    ensures Admitted("GET", authorization, configured, verify) && failure.Some? ==>
              r.reply == Failure(500, AuthError, failure)
    ensures r.reply.Success? <==> Admitted("GET", authorization, configured, verify) && failure.None?
    ensures r.reply.Success? ==>
              var u := Requester("GET", authorization, configured, verify);
              var p := r.reply.body;
              && r.profiles.Keys == profiles.Keys + {u.uid}
              && r.profiles[u.uid] == p
              && p.uid == u.uid && p.isOnline && p.lastSeen == now
              && (p.email.Some? <==> Present(u.email)) && (p.email.Some? ==> p.email == u.email)
              && (p.displayName.Some? <==> Present(u.name)) && (p.displayName.Some? ==> p.displayName == u.name)
              && (p.photoURL.Some? <==> Present(u.picture)) && (p.photoURL.Some? ==> p.photoURL == u.picture)
              && forall k :: k in profiles && k != u.uid ==> r.profiles[k] == profiles[k]
  {
    var g := FirebaseAuth(Request("GET", authorization), configured, verify);
    if g.Deny? then ProfileEffect(Refusal(g), profiles)
    else if failure.Some? then ProfileEffect(Failure(500, AuthError, failure), profiles)
    else
      var u := g.user.value;
      var p := Profile(u.uid, OrNull(u.email), OrNull(u.name), OrNull(u.picture), true, now);
      ProfileEffect(Success(p), profiles[u.uid := p])
  }

  /** POST /logout: behind the gate, an existing profile of the caller is marked offline,
      last seen `now`, with its claims kept; with no profile nothing is created (there is
      no upsert). The answer is `{ success: true }` either way; a store failure is 500. */
  function Logout(profiles: Directory, authorization: Option<string>, configured: bool, verify: Verifier,
                  now: Time, failure: Option<string>): (r: ProfileEffect<Ack>)
    ensures r.reply.Failure? ==> r.profiles == profiles
    ensures !Admitted("POST", authorization, configured, verify) ==>
              r.reply == Refusal(FirebaseAuth(Request("POST", authorization), configured, verify))
    ensures Admitted("POST", authorization, configured, verify) && failure.Some? ==>
              r.reply == Failure(500, LogoutError, failure)
    ensures r.reply.Success? <==> Admitted("POST", authorization, configured, verify) && failure.None?
    ensures r.reply.Success? ==>
              var uid := Requester("POST", authorization, configured, verify).uid;
              && r.reply.body == Ack(true)
              && r.profiles.Keys == profiles.Keys
              && (uid in profiles ==> r.profiles[uid] == profiles[uid].(isOnline := false, lastSeen := now))
              && forall k :: k in profiles && k != uid ==> r.profiles[k] == profiles[k]
  {
    var g := FirebaseAuth(Request("POST", authorization), configured, verify);
    if g.Deny? then ProfileEffect(Refusal(g), profiles)
    else if failure.Some? then ProfileEffect(Failure(500, LogoutError, failure), profiles)
    else
      var uid := g.user.value.uid;
      if uid in profiles then
        ProfileEffect(Success(Ack(true)), profiles[uid := profiles[uid].(isOnline := false, lastSeen := now)])
      else ProfileEffect(Success(Ack(true)), profiles)
  }

  /** Signing in and then out, with the same token, leaves the caller's profile in the map,
      offline, last seen at the logout, with the claims the sign-in stored. */
  lemma MeThenLogout(profiles: Directory, authorization: Option<string>, configured: bool, verify: Verifier,
                     t1: Time, t2: Time)
    requires Admitted("GET", authorization, configured, verify)
    ensures var me := Me(profiles, authorization, configured, verify, t1, None);
            var out := Logout(me.profiles, authorization, configured, verify, t2, None);
            var u := Requester("GET", authorization, configured, verify);
            && out.reply == Success(Ack(true))
            && u.uid in out.profiles
            && out.profiles[u.uid] == me.reply.body.(isOnline := false, lastSeen := t2)
  {
    assert FirebaseAuth(Request("POST", authorization), configured, verify)
        == FirebaseAuth(Request("GET", authorization), configured, verify);
  }
}
