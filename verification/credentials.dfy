/**
  Credential configuration of the identity provider's admin SDK
  (services/firebaseAdmin.js): which environment variables supply the service-account
  credential, how a private key stored on one line is normalised, and the guarded,
  failure-tolerant initialisation of the admin app.
*/
module FirebaseAdmin {
  import opened Options
  import opened Js

  /** The five environment variables the credential builder reads (absent when unset). */
  datatype Env = Env(
    credentialsFile: Option<string>,
    credentialsBase64: Option<string>,
    projectId: Option<string>,
    clientEmail: Option<string>,
    privateKey: Option<string>)

  /** Where the credential comes from. Resolving the file path, checking that the file
      exists, reading it, decoding base64, parsing JSON and building the certificate
      happen afterwards, in the `load` parameter of `BuildCredential`. */
  datatype CredentialSource =
    | CredentialsFile(path: string)
    | CredentialsBase64(encoded: string)
    | ServiceAccount(projectId: string, clientEmail: string, privateKey: string)

  const MissingCredentials: string :=
    "[firebase-admin] Thi\U{1EBF}u c\U{1EA5}u h\U{00EC}nh credential. C\U{1EA7}n m\U{1ED9}t trong c\U{00E1}c bi\U{1EBF}n: "
    + "FIREBASE_CREDENTIALS_FILE | FIREBASE_CREDENTIALS_BASE64 | "
    + "(FIREBASE_PROJECT_ID + FIREBASE_CLIENT_EMAIL + FIREBASE_PRIVATE_KEY)"

  predicate IsQuote(c: char) {
    c == '"' || c == '\''
  }

  /** `k` starts with a quote character and ends with the same one (possibly the same
      single character). */
  predicate Wrapped(k: string) {
    |k| >= 1 && IsQuote(k[0]) && k[|k| - 1] == k[0]
  }

  /** Removes one pair of matching surrounding quotes (`k.slice(1, -1)`, which is empty for a
      lone quote character); anything else is returned unchanged. */
  function Unquote(k: string): (r: string)
    ensures r != k ==> Wrapped(k)
    ensures |r| <= |k|
    ensures Wrapped(k) && |k| == 1 ==> r == ""
  {
    if Wrapped(k) then (if |k| >= 2 then k[1..|k| - 1] else "") else k
  }

  /** The quote characters are stripped whatever lies between them. */
  lemma UnquoteWrapped(q: char, body: string)
    requires IsQuote(q)
    ensures Unquote([q] + body + [q]) == body
  {
    var k := [q] + body + [q];
    assert Wrapped(k);
    assert k[1..|k| - 1] == body;
  }

  /** The two-character sequence backslash, `n` occurs at position `i`. */
  predicate EscapeAt(s: string, i: int) {
    0 <= i < |s| - 1 && s[i] == '\\' && s[i + 1] == 'n'
  }

  predicate NoEscapes(s: string) {
    forall i :: 0 <= i < |s| - 1 ==> !EscapeAt(s, i)
  }

  /** `s.replace(/\\n/g, '\n')`: every backslash-`n` pair, scanned left to right without
      overlap, becomes one newline character. The result holds no such pair any more, so
      expanding twice is expanding once, and a string without pairs is unchanged. */
  function ExpandNewlines(s: string): (r: string)
    ensures |r| <= |s|
    ensures NoEscapes(r)
    ensures NoEscapes(s) ==> r == s
    ensures |s| > 0 ==> |r| > 0 && r[0] == (if EscapeAt(s, 0) then '\n' else s[0])
    decreases |s|
  {
    if |s| == 0 then s
    else if EscapeAt(s, 0) then
      var rest := ExpandNewlines(s[2..]);
      assert forall i :: 1 <= i < |rest| ==> EscapeAt("\n" + rest, i) == EscapeAt(rest, i - 1);
      "\n" + rest
    else
      var rest := ExpandNewlines(s[1..]);
      assert forall i :: 1 <= i < |rest| ==> EscapeAt([s[0]] + rest, i) == EscapeAt(rest, i - 1);
      assert NoEscapes(s) ==> NoEscapes(s[1..]) by {
        assert forall i :: 0 <= i < |s| - 2 ==> EscapeAt(s[1..], i) == EscapeAt(s, i + 1);
      }
      assert [s[0]] + s[1..] == s;
      [s[0]] + rest
  }

  /** The inverse direction: every newline written as backslash, `n`. */
  function EscapeNewlines(t: string): (s: string)
    ensures |t| > 0 ==> |s| > 0 && s[0] == (if t[0] == '\n' then '\\' else t[0])
    decreases |t|
  {
    if |t| == 0 then t
    else if t[0] == '\n' then "\\n" + EscapeNewlines(t[1..])
    else [t[0]] + EscapeNewlines(t[1..])
  }

  /** Expanding undoes escaping for a key that does not itself contain a backslash-`n`
      pair: a multi-line key survives being stored on one line. */
  lemma {:induction false} ExpandEscape(t: string)
    requires NoEscapes(t)
    ensures ExpandNewlines(EscapeNewlines(t)) == t
    decreases |t|
  {
    if |t| > 0 {
      var tail := t[1..];
      assert NoEscapes(tail) by {
        assert forall i :: 0 <= i < |tail| - 1 ==> EscapeAt(tail, i) == EscapeAt(t, i + 1);
      }
      ExpandEscape(tail);
      var e := EscapeNewlines(tail);
      if t[0] == '\n' {
        assert ("\\n" + e)[2..] == e;
      } else {
        assert |t| > 1 ==> !EscapeAt(t, 0);
        assert !EscapeAt([t[0]] + e, 0);
        assert ([t[0]] + e)[1..] == e;
      }
      assert [t[0]] + tail == t;
    }
  }

  /** A raw newline is kept and cannot be part of a backslash-`n` pair, so the text on
      either side of it is expanded on its own. With `ExpandEscape` this fixes the result
      for every key: nothing but the pairs changes. */
  lemma {:induction false} ExpandAroundNewline(a: string, b: string)
    ensures ExpandNewlines(a + "\n" + b) == ExpandNewlines(a) + "\n" + ExpandNewlines(b)
    decreases |a|
  {
    var s := a + "\n" + b;
    if |a| == 0 {
      assert s == "\n" + b && s[1..] == b;
      ExpandStep(s);
    } else {
      var k := if EscapeAt(a, 0) then 2 else 1;
      var head := if EscapeAt(a, 0) then "\n" else [a[0]];
      assert EscapeAt(s, 0) == EscapeAt(a, 0);
      assert s[k..] == a[k..] + "\n" + b;
      ExpandAroundNewline(a[k..], b);
      ExpandStep(s);
      ExpandStep(a);
      assert ExpandNewlines(s) == head + ExpandNewlines(s[k..]);
      assert ExpandNewlines(a) == head + ExpandNewlines(a[k..]);
      Regroup(head, ExpandNewlines(a[k..]), ExpandNewlines(b));
    }
  }

  /** Concatenation regroups around the newline. */
  lemma Regroup(head: string, x: string, y: string)
    ensures head + (x + "\n" + y) == (head + x) + "\n" + y
  {
  }

  /** One step of `ExpandNewlines`. */
  lemma ExpandStep(s: string)
    requires |s| > 0
    ensures ExpandNewlines(s) == if EscapeAt(s, 0) then "\n" + ExpandNewlines(s[2..]) else [s[0]] + ExpandNewlines(s[1..])
  {
  }

  /** The private key as handed to the certificate builder: surrounding quotes removed,
      then every backslash-`n` pair expanded. The result holds no such pair, and a key
      that is neither quoted nor escaped passes unchanged. */
  function NormalizePrivateKey(k: string): (r: string)
    ensures NoEscapes(r)
    ensures |r| <= |k|
    ensures !Wrapped(k) && NoEscapes(k) ==> r == k
  {
    ExpandNewlines(Unquote(k))
  }

  /** A multi-line key stored on one line inside double quotes, with its newlines written
      as backslash, `n`, comes back exactly. */
  lemma QuotedKeyRoundTrip(t: string)
    requires NoEscapes(t)
    ensures NormalizePrivateKey("\"" + EscapeNewlines(t) + "\"") == t
  {
    UnquoteWrapped('"', EscapeNewlines(t));
    assert ['"'] + EscapeNewlines(t) + ['"'] == "\"" + EscapeNewlines(t) + "\"";
    ExpandEscape(t);
  }

  /** The source precedence of `buildCredentialFromEnv`: a credentials file first, then a
      base64 blob, then the three separate variables when all are set; otherwise it throws
      `MissingCredentials`. */
  function SelectSource(env: Env): (r: Result<CredentialSource, string>)
    ensures (r.Ok? && r.value.CredentialsFile?) <==> Present(env.credentialsFile)
    ensures (r.Ok? && r.value.CredentialsBase64?)
            <==> !Present(env.credentialsFile) && Present(env.credentialsBase64)
    ensures (r.Ok? && r.value.ServiceAccount?)
            <==> && !Present(env.credentialsFile) && !Present(env.credentialsBase64)
                 && Present(env.projectId) && Present(env.clientEmail) && Present(env.privateKey)
    ensures r.Ok? && r.value.CredentialsFile? ==> r.value.path == env.credentialsFile.value
    ensures r.Ok? && r.value.CredentialsBase64? ==> r.value.encoded == env.credentialsBase64.value
    ensures r.Ok? && r.value.ServiceAccount? ==>
              && r.value.projectId == env.projectId.value
              && r.value.clientEmail == env.clientEmail.value
              && r.value.privateKey == NormalizePrivateKey(env.privateKey.value)
    ensures r.Err? ==> r.error == MissingCredentials
  {
    if Present(env.credentialsFile) then Ok(CredentialsFile(env.credentialsFile.value))
    else if Present(env.credentialsBase64) then Ok(CredentialsBase64(env.credentialsBase64.value))
    else if Present(env.projectId) && Present(env.clientEmail) && Present(env.privateKey) then
      Ok(ServiceAccount(env.projectId.value, env.clientEmail.value, NormalizePrivateKey(env.privateKey.value)))
    else Err(MissingCredentials)
  }

  /** With a credentials file configured, nothing else in the environment matters. */
  lemma FileTakesPrecedence(e1: Env, e2: Env)
    requires Present(e1.credentialsFile) && e2.credentialsFile == e1.credentialsFile
    ensures SelectSource(e1) == SelectSource(e2)
  {
  }

  /** Without a credentials file, a base64 blob makes the separate variables irrelevant. */
  lemma Base64TakesPrecedence(e1: Env, e2: Env)
    requires !Present(e1.credentialsFile) && !Present(e2.credentialsFile)
    requires Present(e1.credentialsBase64) && e2.credentialsBase64 == e1.credentialsBase64
    ensures SelectSource(e1) == SelectSource(e2)
  {
  }

  /** `buildCredentialFromEnv()`: selecting the source, then loading it. `load` stands for
      the file-system, base64, JSON and certificate calls, each of which may throw. */
  function BuildCredential<C>(env: Env, load: CredentialSource -> Result<C, string>): (r: Result<C, string>)
    ensures SelectSource(env).Err? ==> r == Err(MissingCredentials)
    ensures SelectSource(env).Ok? ==> r == load(SelectSource(env).value)
    ensures Present(env.credentialsFile) ==> r == load(CredentialsFile(env.credentialsFile.value))
    ensures (!Present(env.credentialsFile) && Present(env.credentialsBase64))
              ==> r == load(CredentialsBase64(env.credentialsBase64.value))
  {
    match SelectSource(env)
    case Err(e) => Err(e)
    case Ok(source) => load(source)
  }

  /** The module-level initialisation block: only when no app exists is a credential
      built; a successful build adds one app, and a failing one is caught and logged,
      leaving the SDK uninitialised. */
  function InitAdmin<C>(apps: seq<C>, env: Env, load: CredentialSource -> Result<C, string>): (r: seq<C>)
    ensures |apps| > 0 ==> r == apps
    ensures |r| > 0 <==> |apps| > 0 || BuildCredential(env, load).Ok?
    ensures |apps| == 0 && |r| > 0 ==> r == [BuildCredential(env, load).value]
  {
    if |apps| > 0 then apps
    else
      match BuildCredential(env, load)
      case Ok(credential) => [credential]
      case Err(_) => apps
  }

  /** Running the initialisation block a second time, with the same environment and
      loader, changes nothing: a first success leaves the app in place, and a first
      failure fails again in the same way. */
  lemma InitAdminIdempotent<C>(apps: seq<C>, env: Env, load: CredentialSource -> Result<C, string>)
    ensures InitAdmin(InitAdmin(apps, env, load), env, load) == InitAdmin(apps, env, load)
  {
  }

  /** Once an app exists, the environment and the loader are never consulted again. */
  lemma InitAdminIgnoresEnv<C>(apps: seq<C>, e1: Env, e2: Env,
                               l1: CredentialSource -> Result<C, string>,
                               l2: CredentialSource -> Result<C, string>)
    requires |apps| > 0
    ensures InitAdmin(apps, e1, l1) == InitAdmin(apps, e2, l2)
  {
  }
}
