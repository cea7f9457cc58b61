/** The handshake gate of lib/auth.js.

    `BaseAuth` keeps the configured key and the authenticated flag; the server
    variant decides, record by record, whether to pass it on, consume it as a
    successful handshake, or reject it; the client variant sends its key once
    and trusts itself from then on. The callbacks the JavaScript invokes are
    returned as a list of `Call`s, in the order they happen.
 */
module Auth {
  import opened Wire

  /** `authKey` None stands for a key that is `null` or `undefined`. */
  datatype AuthState = AuthState(authKey: Option<string>, authenticated: bool)

  /** Holds of every state the operations below can reach: without a key
      there is nothing to check, so the gate is open. */
  predicate Valid(a: AuthState) {
    a.authKey.None? ==> a.authenticated
  }

  /** The `BaseAuth` constructor. */
  function NewAuth(authKey: Option<string>): (a: AuthState)
    ensures Valid(a)
    ensures a.authKey == authKey
  {
    AuthState(authKey, authKey.None?)
  }

  /** `isAuthenticated`; a gate without a key is always open. */
  function IsAuthenticated(a: AuthState): (r: bool)
    ensures r == a.authenticated
    ensures Valid(a) && a.authKey.None? ==> r
  {
    a.authenticated
  }

  function SetAuthenticated(a: AuthState): (a': AuthState)
    ensures a'.authKey == a.authKey && IsAuthenticated(a')
  {
    a.(authenticated := true)
  }

  /** Called when the connection drops: back to the state a fresh object has. */
  function Deauth(a: AuthState): (a': AuthState)
    ensures Valid(a')
    ensures a'.authKey == a.authKey
  {
    a.(authenticated := a.authKey.None?)
  }

  /** The value `this._authKey` has when compared with `===`. */
  function KeyAsField(authKey: Option<string>): Field {
    match authKey
    case None => Absent
    case Some(k) => Str(k)
  }

  /** A callback the gate invokes. */
  datatype Call = Action(record: Json) | AuthAction | FailureAction

  /** Which of the three callbacks were supplied (not `null`). */
  datatype Callbacks = Callbacks(hasAction: bool, hasAuthAction: bool, hasFailureAction: bool)

  /** The server gate's decision for one record. */
  datatype Verdict = Pass | Consume | Reject

  /** `passedAuth` and `wasAuthMessage` of `ServerAuth.withAuth`. Reading
      `record.event` of a `null` record throws; the catch leaves both false. */
  function ServerVerdict(a: AuthState, record: Json): Verdict {
    if a.authenticated then Pass
    else if EventOf(record) == Some(Str("AUTH")) && KeyOf(record) == Some(KeyAsField(a.authKey)) then Consume
    else Reject
  }

  /** Invokes one callback if it was supplied. */
  function CallIf(present: bool, c: Call): (calls: seq<Call>)
    ensures |calls| <= 1
    ensures present <==> calls == [c]
  {
    if present then [c] else []
  }

  /** `ServerAuth.withAuth`. */
  function ServerWithAuth(a: AuthState, record: Json, cbs: Callbacks): (r: (AuthState, seq<Call>))
    ensures r.0.authKey == a.authKey
    // the key never changes and the flag only ever turns on
    ensures a.authenticated ==> r.0 == a
    ensures Valid(a) ==> Valid(r.0)
    // authenticated afterwards exactly when it was, or the record was AUTH with the configured key
    ensures r.0.authenticated <==>
              a.authenticated ||
              (record.JObject? && record.event == Str("AUTH") && record.key == KeyAsField(a.authKey))
    // at most one callback, exactly one when all three are supplied
    ensures |r.1| <= 1
    ensures cbs.hasAction && cbs.hasAuthAction && cbs.hasFailureAction ==> |r.1| == 1
    // which callback
    ensures r.1 == [Action(record)] <==> a.authenticated && cbs.hasAction
    ensures r.1 == [AuthAction] <==> !a.authenticated && r.0.authenticated && cbs.hasAuthAction
    ensures r.1 == [FailureAction] <==> !r.0.authenticated && cbs.hasFailureAction
    // a callback that was not supplied is never called, and `action` only ever gets the record
    ensures forall c :: c in r.1 ==>
              && (c.Action? ==> c == Action(record) && cbs.hasAction)
              && (c.AuthAction? ==> cbs.hasAuthAction)
              && (c.FailureAction? ==> cbs.hasFailureAction)
  {
    match ServerVerdict(a, record)
    case Pass => (a, CallIf(cbs.hasAction, Action(record)))
    case Consume => (SetAuthenticated(a), CallIf(cbs.hasAuthAction, AuthAction))
    case Reject => (a, CallIf(cbs.hasFailureAction, FailureAction))
  }

  /** `ClientAuth.authenticate`: the records handed to `authTarget`. */
  function ClientAuthenticate(a: AuthState): (r: (AuthState, seq<Record>))
    ensures r.0.authKey == a.authKey
    ensures Valid(a) ==> Valid(r.0) && r.0.authenticated
    ensures |r.1| <= 1
    ensures r.1 != [] <==> !a.authenticated && a.authKey.Some?
    ensures r.1 != [] ==> r.1 == [Auth(a.authKey.value)] && r.0.authenticated
    ensures r.1 == [] ==> r.0 == a
  {
    if a.authKey.None? then
      (a, [])
    else if IsAuthenticated(a) then
      (a, [])
    else
      (SetAuthenticated(a), [Auth(a.authKey.value)])
  }

  /** `ClientAuth.withAuth`: every record goes to `action`. */
  function ClientWithAuth(a: AuthState, record: Json, hasAction: bool): (r: (AuthState, seq<Call>))
    ensures r.0 == a
    ensures |r.1| <= 1
    ensures forall c :: c in r.1 ==> c == Action(record)
    ensures hasAction ==> r.1 == [Action(record)]
    ensures !hasAction ==> r.1 == []
  {
    (a, CallIf(hasAction, Action(record)))
  }

  // ----- Lemmas -----

  /** A fresh gate is open exactly when no key is configured. */
  lemma FreshOpenIffNoKey(authKey: Option<string>)
    ensures IsAuthenticated(NewAuth(authKey)) <==> authKey.None?
  {
  }

  /** `deauth` restores the constructor state, and doing it twice is doing it once. */
  lemma DeauthRestoresFresh(a: AuthState)
    ensures Deauth(a) == NewAuth(a.authKey)
    ensures Deauth(Deauth(a)) == Deauth(a)
  {
  }

  /** A server with key `s` that has not authenticated yet accepts an AUTH
      record with key `k` exactly when `k == s`; the record is consumed and
      never reaches `action`. */
  lemma ServerHandshakeIff(s: string, k: string, cbs: Callbacks)
    ensures var r := ServerWithAuth(NewAuth(Some(s)), JObject(Str("AUTH"), Absent, Str(k)), cbs);
            && (r.0.authenticated <==> k == s)
            && (forall c :: c in r.1 ==> !c.Action?)
  {
  }

  /** Without a key the server passes every record, AUTH or not, straight to
      `action`. */
  lemma ServerWithoutKeyPassesAll(record: Json, cbs: Callbacks)
    ensures ServerWithAuth(NewAuth(None), record, cbs) ==
            (NewAuth(None), if cbs.hasAction then [Action(record)] else [])
  {
  }

  /** A keyed server receiving a PING before any AUTH record rejects it and
      never calls `action`. */
  lemma ServerRejectsPingBeforeAuth(s: string, id: Field, cbs: Callbacks)
    ensures var r := ServerWithAuth(NewAuth(Some(s)), JObject(Str("PING"), id, Absent), cbs);
            && !r.0.authenticated
            && r.1 == (if cbs.hasFailureAction then [FailureAction] else [])
  {
  }

  /** Authenticating a second time sends nothing. */
  lemma ClientAuthenticateIdempotent(a: AuthState)
    ensures ClientAuthenticate(ClientAuthenticate(a).0) == (ClientAuthenticate(a).0, [])
  {
  }

  /** The record the client sends is the one a server with the same key
      accepts: after the client's AUTH, both sides are authenticated. */
  lemma HandshakeAgrees(key: string, cbs: Callbacks)
    ensures var client := ClientAuthenticate(NewAuth(Some(key)));
            && |client.1| == 1
            && client.0.authenticated
            && var server := ServerWithAuth(NewAuth(Some(key)), AsJson(client.1[0]), cbs);
               server.0.authenticated && (cbs.hasAuthAction ==> server.1 == [AuthAction])
  {
  }
}
