/** The session layer of src/utils/whatsapp.js: the registry of live
    sockets keyed by session id, the handlers each socket installs
    (connection updates, presence updates, credential and key updates),
    the per-socket map of subscribed numbers, and the QR data-URL cache.

    The chat socket itself is foreign: its events arrive as `Event` values,
    and the outcome of each call into it (presence subscription, logout,
    profile picture) is an input. Randomness, the clock and the QR image
    are inputs as well. Events are handled one at a time. */
module WhatsApp {
  import opened Base
  import opened Json
  import Hex
  import Phone
  import KeyStore
  import AuthCodec
  import SessionStore
  import TrackedNumbers
  import StatusLog

  /** `DisconnectReason.loggedOut`. */
  const LoggedOut: int := 401

  /** An entry of a socket's `trackedNumbers` map. */
  datatype Sub = Sub(userId: int, trackingId: nat)

  /** Where a socket keeps its credentials: in memory, seeded from the
      database, or in the multi-file store on disk (not modelled). */
  datatype AuthMode = InMemory(auth: KeyStore.AuthState) | MultiFile

  /** A socket made by `initSession`. `wsOpen` is whether its web socket is
      open; `tracked` is `sock.trackedNumbers`, absent until first set;
      `metaUserId` is `sessionMeta.userId`; `hasOnQr` and `hasOnCreds` say
      whether the callbacks were given. */
  datatype Handle = Handle(sessionId: string, wsOpen: bool, mode: AuthMode, tracked: Option<map<string, Sub>>,
                           metaUserId: Option<int>, hasOnQr: bool, hasOnCreds: bool)

  /** An `addNotification(userId, trackingId, participant, status)` call. */
  datatype Notification = Notification(userId: int, trackingId: nat, participant: string, status: string)

  /** A call of the `onQr` or `onCreds` callback. */
  datatype Callback = QrLinkIssued(sessionId: string, link: string) | CredsChanged(sessionId: string, auth: Value)

  /** The codec of the auth-session table and the QR link prefix, which
      is `QR_URL_BASE` or its default as the environment gives it. */
  datatype Env = Env(codec: AuthCodec.Config, qrBase: string)

  /** Everything the handlers read or write: the sockets (by creation
      number), the `sessions` registry, the QR cache, the three tables, the
      phone number saved for each session, and the notifications and
      callbacks issued so far. */
  datatype State = State(
    sockets: map<nat, Handle>,
    nextSocket: nat,
    registry: map<string, nat>,
    qrCache: map<string, string>,
    sessions: SessionStore.Table,
    tracked: TrackedNumbers.Table,
    log: StatusLog.Table,
    phones: map<string, string>,
    notifications: seq<Notification>,
    callbacks: seq<Callback>)

  predicate Valid(st: State) {
    && (forall k :: k in st.sockets ==> k < st.nextSocket)
    && (forall sid :: sid in st.registry ==> st.registry[sid] in st.sockets && st.sockets[st.registry[sid]].sessionId == sid)
    && SessionStore.Valid(st.sessions)
    && TrackedNumbers.Valid(st.tracked)
    && StatusLog.Valid(st.log)
  }

  /** Replacing the session table by another valid one keeps the state valid. */
  lemma ValidWithSessions(st: State, sessions: SessionStore.Table)
    requires Valid(st) && SessionStore.Valid(sessions)
    ensures Valid(st.(sessions := sessions))
  {
  }

  /** Replacing the status log by another valid one keeps the state valid. */
  lemma ValidWithLog(st: State, log: StatusLog.Table)
    requires Valid(st) && StatusLog.Valid(log)
    ensures Valid(st.(log := log))
  {
  }

  /** `getWhatsAppClient(sessionId)`. */
  function Client(st: State, sessionId: string): (h: Option<Handle>)
    requires Valid(st)
    ensures h.Some? <==> sessionId in st.registry
    ensures h.Some? ==> h.value == st.sockets[st.registry[sessionId]] && h.value.sessionId == sessionId
  {
    if sessionId in st.registry then Some(st.sockets[st.registry[sessionId]]) else None
  }

  /** The registry holds a socket for the session whose web socket is open. */
  predicate HasOpenClient(st: State, sessionId: string)
    requires Valid(st)
  {
    sessionId in st.registry && st.sockets[st.registry[sessionId]].wsOpen
  }

  datatype InitOutcome = Reused(socket: nat) | Started(socket: nat) | Rejected

  /** `sessionMeta.userId || null`. */
  function MetaUser(meta: Option<int>): (r: Option<int>)
    ensures r.Some? <==> meta.Some? && meta.value != 0
    ensures r.Some? ==> r == meta
  {
    if meta.Some? && meta.value != 0 then meta else None
  }

  /** `initSession(sessionId, initialAuth, onQr, onCreds, sessionMeta)`;
      `newCreds` is what `initAuthCreds()` would return. A socket whose web
      socket is open is returned as it is. Otherwise a stale registry entry
      is dropped and one new socket is made and registered: in memory when
      `initialAuth` is truthy, on the multi-file store otherwise. Rejected
      where the reviver throws while the saved state is read. */
  function InitSession(st: State, sessionId: string, initialAuth: Value, hasOnQr: bool, hasOnCreds: bool,
                       meta: Option<int>, newCreds: Value): (r: (State, InitOutcome))
    requires Valid(st)
    ensures Valid(r.0)
    ensures HasOpenClient(st, sessionId) ==> r == (st, Reused(st.registry[sessionId]))
    ensures !HasOpenClient(st, sessionId) ==> !r.1.Reused?
    ensures r.1.Rejected? <==>
      !HasOpenClient(st, sessionId) && Truthy(initialAuth) && KeyStore.InitInMemory(Some(initialAuth), newCreds).None?
    ensures r.1.Rejected? ==> r.0 == st.(registry := st.registry - {sessionId})
    ensures r.1.Started? ==>
      && r.1.socket == st.nextSocket && st.nextSocket !in st.sockets
      && r.0 == st.(sockets := r.0.sockets, registry := r.0.registry, nextSocket := st.nextSocket + 1)
      && r.0.sockets.Keys == st.sockets.Keys + {st.nextSocket}
      && (forall k :: k in st.sockets ==> r.0.sockets[k] == st.sockets[k])
      && r.0.registry.Keys == st.registry.Keys + {sessionId}
      && r.0.registry[sessionId] == st.nextSocket
      && (forall sid :: sid in st.registry && sid != sessionId ==> r.0.registry[sid] == st.registry[sid])
    ensures r.1.Started? ==>
      var h := r.0.sockets[r.1.socket];
      && h.sessionId == sessionId && !h.wsOpen && h.tracked.None? && h.metaUserId == MetaUser(meta)
      && h.hasOnQr == hasOnQr && h.hasOnCreds == hasOnCreds
      && (h.mode.InMemory? <==> Truthy(initialAuth))
      && (h.mode.InMemory? ==> Some(h.mode.auth) == KeyStore.InitInMemory(Some(initialAuth), newCreds))
  {
    if HasOpenClient(st, sessionId) then (st, Reused(st.registry[sessionId]))
    else
      var cleared := st.(registry := st.registry - {sessionId});
      var mode := SocketMode(initialAuth, newCreds);
      if mode.None? then (cleared, Rejected)
      else
        var h := Handle(sessionId, false, mode.value, None, MetaUser(meta), hasOnQr, hasOnCreds);
        (Register(cleared, h), Started(st.nextSocket))
  }

  /** The auth store a new socket uses: in memory, revived from
      `initialAuth`, when that is truthy; the multi-file store otherwise.
      None where the reviver throws. */
  function SocketMode(initialAuth: Value, newCreds: Value): (m: Option<AuthMode>)
    ensures m.None? <==> Truthy(initialAuth) && KeyStore.InitInMemory(Some(initialAuth), newCreds).None?
    ensures m.Some? ==> (m.value.InMemory? <==> Truthy(initialAuth))
    ensures m.Some? && m.value.InMemory? ==> Some(m.value.auth) == KeyStore.InitInMemory(Some(initialAuth), newCreds)
  {
    if Truthy(initialAuth) then
      var auth := KeyStore.InitInMemory(Some(initialAuth), newCreds);
      if auth.Some? then Some(InMemory(auth.value)) else None
    else Some(MultiFile)
  }

  /** The new socket `h` takes the next free number and becomes the one
      registered for its session; every other socket and registry entry is
      kept. */
  function Register(st: State, h: Handle): (r: State)
    requires Valid(st)
    ensures Valid(r)
    ensures st.nextSocket !in st.sockets && r.nextSocket == st.nextSocket + 1
    ensures r == st.(sockets := r.sockets, registry := r.registry, nextSocket := r.nextSocket)
    ensures r.sockets.Keys == st.sockets.Keys + {st.nextSocket} && r.sockets[st.nextSocket] == h
    ensures forall k :: k in st.sockets ==> r.sockets[k] == st.sockets[k]
    ensures r.registry.Keys == st.registry.Keys + {h.sessionId} && r.registry[h.sessionId] == st.nextSocket
    ensures forall sid :: sid in st.registry && sid != h.sessionId ==> r.registry[sid] == st.registry[sid]
  {
    var k := st.nextSocket;
    st.(sockets := st.sockets[k := h], registry := st.registry[h.sessionId := k], nextSocket := k + 1)
  }

  /** `startWhatsAppClient(sessionId, onQr, onCreds, sessionMeta)`: an
      `initSession` without saved auth, so the socket uses the multi-file
      store. */
  function StartClient(st: State, sessionId: string, hasOnQr: bool, hasOnCreds: bool, meta: Option<int>, newCreds: Value): (r: (State, InitOutcome))
    requires Valid(st)
    ensures Valid(r.0) && !r.1.Rejected?
    ensures r.1.Started? ==> r.1.socket in r.0.sockets && r.0.sockets[r.1.socket].mode == MultiFile
  {
    InitSession(st, sessionId, JNull, hasOnQr, hasOnCreds, meta, newCreds)
  }

  /** What the connection, presence and credential handlers of a socket
      receive. `random` is `crypto.randomBytes(16)`, `dataUrl` what
      `toDataURL(qr)` renders; `newCreds` is used if a reconnect starts a
      socket without saved credentials; `phoneSaved` is whether
      `updateUserPhoneBySession` succeeded; `failing` lists the numbers
      whose presence subscription fails; `iv` is the random IV of the
      session save. `WsOpened` is the web socket finishing its handshake,
      which comes before the first QR code as well as before
      `connection: 'open'`. */
  datatype Event =
    | WsOpened
    | QrCode(qr: string, random: Bytes, dataUrl: string)
    | Closed(statusCode: Option<int>, newCreds: Value)
    | Opened(userJid: Option<string>, phoneSaved: bool, failing: set<string>, now: int)
    | PresenceUpdate(id: string, presences: seq<Option<string>>, nowMs: int)
    | CredsUpdate(creds: Value, iv: Bytes, now: int)
    | KeysSet(data: KeyStore.Store)

  /** The web socket of socket k reaches `readyState === OPEN`. No handler
      of the code runs; this is the state the reuse test of `initSession`
      reads, so a session restarted while its QR code is showing gets its
      existing socket back. */
  function OnWsOpen(st: State, k: nat): (st': State)
    requires Valid(st) && k in st.sockets
    ensures Valid(st')
    ensures st' == st.(sockets := st'.sockets)
    ensures st'.sockets.Keys == st.sockets.Keys && st'.sockets[k].wsOpen
    ensures forall j :: j in st.sockets && j != k ==> st'.sockets[j] == st.sockets[j]
    ensures forall sid :: sid in st.registry ==> (HasOpenClient(st', sid) <==> HasOpenClient(st, sid) || st.registry[sid] == k)
  {
    st.(sockets := st.sockets[k := st.sockets[k].(wsOpen := true)])
  }

  /** The `qr` branch of `connection.update`: with a non-empty code and an
      `onQr` callback, a fresh hex id is cached with the data URL and the
      link to it is handed to `onQr`. */
  function OnQr(st: State, env: Env, k: nat, qr: string, random: Bytes, dataUrl: string): (st': State)
    requires Valid(st) && k in st.sockets
    ensures Valid(st')
    ensures |qr| == 0 || !st.sockets[k].hasOnQr ==> st' == st
    ensures |qr| > 0 && st.sockets[k].hasOnQr ==>
      var qrId := Hex.Encode(random);
      && st' == st.(qrCache := st'.qrCache, callbacks := st'.callbacks)
      && GetQrData(st', qrId) == Some(dataUrl)
      && (forall id :: id != qrId ==> GetQrData(st', id) == GetQrData(st, id))
      && st'.callbacks == st.callbacks + [QrLinkIssued(st.sockets[k].sessionId, env.qrBase + qrId)]
  {
    var h := st.sockets[k];
    if |qr| > 0 && h.hasOnQr then
      var qrId := Hex.Encode(random);
      st.(qrCache := st.qrCache[qrId := dataUrl], callbacks := st.callbacks + [QrLinkIssued(h.sessionId, env.qrBase + qrId)])
    else st
  }

  /** `getQrDataFromCache(qrId)`. */
  function GetQrData(st: State, qrId: string): (r: Option<string>)
    ensures r.Some? <==> qrId in st.qrCache
    ensures r.Some? ==> r.value == st.qrCache[qrId]
  {
    if qrId in st.qrCache then Some(st.qrCache[qrId]) else None
  }

  /** `deleteQrDataFromCache(qrId)`. */
  function DeleteQrData(st: State, qrId: string): (st': State)
    ensures GetQrData(st', qrId).None?
    ensures forall id :: id != qrId ==> GetQrData(st', id) == GetQrData(st, id)
    ensures st' == st.(qrCache := st'.qrCache)
  {
    st.(qrCache := st.qrCache - {qrId})
  }

  /** The `close` branch of `connection.update`. The session always leaves
      the registry. Unless the reason is `loggedOut`, the saved session is
      read and, when its auth is truthy, `initSession` runs once more with
      it (a failed read or a rejected start is caught). On `loggedOut` the
      session row is deleted. */
  function OnClose(st: State, env: Env, k: nat, statusCode: Option<int>, newCreds: Value): (st': State)
    requires Valid(st) && k in st.sockets
    ensures Valid(st')
  {
    var h := st.sockets[k];
    var closed := CloseSocket(st, k);
    if statusCode != Some(LoggedOut) then
      var auth := SavedAuth(st, env, h.sessionId);
      if auth.Some? then InitSession(closed, h.sessionId, auth.value, h.hasOnQr, h.hasOnCreds, h.metaUserId, newCreds).0
      else closed
    else
      closed.(sessions := SessionStore.Delete(closed.sessions, h.sessionId).1)
  }

  /** The socket's `close` event itself: the socket is no longer open and
      its session leaves the registry. */
  function CloseSocket(st: State, k: nat): (c: State)
    requires Valid(st) && k in st.sockets
    ensures Valid(c) && !HasOpenClient(c, st.sockets[k].sessionId)
    ensures c.registry == st.registry - {st.sockets[k].sessionId}
    ensures c.sockets.Keys == st.sockets.Keys && !c.sockets[k].wsOpen
    ensures c.nextSocket == st.nextSocket && c.sessions == st.sessions
  {
    var h := st.sockets[k];
    st.(registry := st.registry - {h.sessionId}, sockets := st.sockets[k := h.(wsOpen := false)])
  }

  /** The auth a reconnect would start from: the saved session's auth when
      it can be read and is truthy. */
  function SavedAuth(st: State, env: Env, sessionId: string): (r: Option<Value>)
    ensures r.Some? ==> Truthy(r.value)
  {
    var saved := SessionStore.GetSession(env.codec, st.sessions, sessionId);
    if saved.Ok? && saved.value.Some? && Truthy(saved.value.value.auth) then Some(saved.value.value.auth) else None
  }

  /** Every close drops the session from the registry. A `loggedOut` close
      deletes the session row and starts nothing. Any other close starts
      exactly one new socket for the session when a truthy auth is saved
      and the in-memory state can be built from it, and none otherwise. */
  lemma CloseHandling(st: State, env: Env, k: nat, statusCode: Option<int>, newCreds: Value)
    requires Valid(st) && k in st.sockets
    ensures var sid := st.sockets[k].sessionId;
      var st' := OnClose(st, env, k, statusCode, newCreds);
      && (statusCode == Some(LoggedOut) ==>
            sid !in st'.registry && st'.nextSocket == st.nextSocket
            && forall row :: row in st'.sessions.rows <==> row in st.sessions.rows && row.sessionId != sid)
      && (statusCode != Some(LoggedOut) ==>
            var auth := SavedAuth(st, env, sid);
            if auth.Some? && KeyStore.InitInMemory(Some(auth.value), newCreds).Some? then
              st'.nextSocket == st.nextSocket + 1 && sid in st'.registry && st'.registry[sid] == st.nextSocket
              && st'.sockets[st.nextSocket].mode.InMemory? && st'.sessions == st.sessions
            else
              sid !in st'.registry && st'.nextSocket == st.nextSocket && st'.sessions == st.sessions)
  {
    if statusCode == Some(LoggedOut) {
      CloseLoggedOut(st, env, k, newCreds);
    } else {
      CloseReconnects(st, env, k, statusCode, newCreds);
    }
  }

  lemma CloseLoggedOut(st: State, env: Env, k: nat, newCreds: Value)
    requires Valid(st) && k in st.sockets
    ensures var sid := st.sockets[k].sessionId;
      var st' := OnClose(st, env, k, Some(LoggedOut), newCreds);
      && sid !in st'.registry && st'.nextSocket == st.nextSocket
      && forall row :: row in st'.sessions.rows <==> row in st.sessions.rows && row.sessionId != sid
  {
    var closed := CloseSocket(st, k);
    assert OnClose(st, env, k, Some(LoggedOut), newCreds)
      == closed.(sessions := SessionStore.Delete(st.sessions, st.sockets[k].sessionId).1);
  }

  lemma CloseReconnects(st: State, env: Env, k: nat, statusCode: Option<int>, newCreds: Value)
    requires Valid(st) && k in st.sockets && statusCode != Some(LoggedOut)
    ensures var sid := st.sockets[k].sessionId;
      var st' := OnClose(st, env, k, statusCode, newCreds);
      var auth := SavedAuth(st, env, sid);
      if auth.Some? && KeyStore.InitInMemory(Some(auth.value), newCreds).Some? then
        st'.nextSocket == st.nextSocket + 1 && sid in st'.registry && st'.registry[sid] == st.nextSocket
        && st'.sockets[st.nextSocket].mode.InMemory? && st'.sessions == st.sessions
      else
        sid !in st'.registry && st'.nextSocket == st.nextSocket && st'.sessions == st.sessions
  {
    var h := st.sockets[k];
    var closed := CloseSocket(st, k);
    var auth := SavedAuth(st, env, h.sessionId);
    if auth.Some? {
      var r := InitSession(closed, h.sessionId, auth.value, h.hasOnQr, h.hasOnCreds, h.metaUserId, newCreds);
      assert OnClose(st, env, k, statusCode, newCreds) == r.0;
      assert !HasOpenClient(closed, h.sessionId);
    }
  }

  /** `subscribe`'s outcome past the registry check: `findOrCreate` fails,
      or it succeeds and `presenceSubscribe` fails or succeeds. */
  datatype SubscribeOutcome = DbFailed | PresenceFailed | Subscribed

  /** `subscribe(sessionId, phoneNumber, userId)` at second now. Nothing
      happens without a socket for the session. Otherwise the tracked
      number is found or created, and only when the presence subscription
      to the normalised JID succeeds does the socket's map get
      `phoneNumber → {userId, trackingId}`, keyed by the number as given.
      Every failure is caught. */
  function Subscribe(st: State, sessionId: string, phoneNumber: string, userId: int, outcome: SubscribeOutcome, now: int): (st': State)
    requires Valid(st)
    ensures Valid(st')
    ensures sessionId !in st.registry || outcome.DbFailed? ==> st' == st
    ensures st'.sockets.Keys == st.sockets.Keys
    ensures forall k :: k in st.sockets && (sessionId !in st.registry || k != st.registry[sessionId]) ==> st'.sockets[k] == st.sockets[k]
    ensures st' == st.(sockets := st'.sockets, tracked := st'.tracked)
    ensures sessionId in st.registry && !outcome.DbFailed? ==>
      var (id, t') := TrackedNumbers.FindOrCreate(st.tracked, userId, phoneNumber, now);
      var k := st.registry[sessionId];
      && st'.tracked == t'
      && (outcome.PresenceFailed? ==> st'.sockets == st.sockets)
      && (outcome.Subscribed? ==>
            st'.sockets == st.sockets[k := st.sockets[k].(tracked := Some(TrackedOf(st.sockets[k])[phoneNumber := Sub(userId, id)]))])
  {
    if sessionId !in st.registry || outcome.DbFailed? then st
    else
      var (id, t') := TrackedNumbers.FindOrCreate(st.tracked, userId, phoneNumber, now);
      var k := st.registry[sessionId];
      var h := st.sockets[k];
      if outcome.PresenceFailed? then st.(tracked := t')
      else st.(tracked := t', sockets := st.sockets[k := h.(tracked := Some(TrackedOf(h)[phoneNumber := Sub(userId, id)]))])
  }

  /** `sock.trackedNumbers`, an absent map read as empty. */
  function TrackedOf(h: Handle): map<string, Sub> {
    if h.tracked.Some? then h.tracked.value else map[]
  }

  /** The entries `unsubscribe` keeps: those not among the numbers whose
      unsubscription succeeds. */
  function Remaining(m: map<string, Sub>, numbers: set<string>, failing: set<string>): (r: map<string, Sub>)
    ensures forall p :: p in r <==> p in m && (p !in numbers || p in failing)
    ensures forall p :: p in r ==> r[p] == m[p]
  {
    map p | p in m && (p !in numbers || p in failing) :: m[p]
  }

  /** The effect of `unsubscribe(sessionId, numbers)` when `failing` holds
      the numbers every one of whose unsubscriptions failed: each other
      number leaves the socket's map; nothing else changes. */
  function Unsubscribed(st: State, sessionId: string, numbers: set<string>, failing: set<string>): (st': State)
    requires Valid(st)
    ensures Valid(st')
  {
    if sessionId !in st.registry then st
    else
      var k := st.registry[sessionId];
      var h := st.sockets[k];
      if h.tracked.None? then st
      else st.(sockets := st.sockets[k := h.(tracked := Some(Remaining(h.tracked.value, numbers, failing)))])
  }

  /** The numbers listed in `numbers` none of whose occurrences succeeded,
      when the calls at the positions in `failingAt` fail. */
  function FailedAll(numbers: seq<string>, failingAt: set<nat>): (r: set<string>)
    ensures forall p :: p in r <==> p in numbers && forall i :: 0 <= i < |numbers| && numbers[i] == p ==> i in failingAt
  {
    set p | p in numbers && forall i :: 0 <= i < |numbers| && numbers[i] == p ==> i in failingAt
  }

  /** `unsubscribe(sessionId, phoneNumbers)`: the numbers in order, the call
      at each position in `failingAt` failing. Each number is removed from
      the socket's map when its call succeeds, the loop going on after a
      failure, so a number listed twice leaves when either call succeeds. */
  method Unsubscribe(st: State, sessionId: string, numbers: seq<string>, failingAt: set<nat>) returns (st': State)
    requires Valid(st)
    ensures Valid(st')
    ensures st' == Unsubscribed(st, sessionId, (set p | p in numbers), FailedAll(numbers, failingAt))
  {
    if sessionId !in st.registry || st.sockets[st.registry[sessionId]].tracked.None? {
      return st;
    }
    var k := st.registry[sessionId];
    var h := st.sockets[k];
    var m0 := h.tracked.value;
    var m := m0;
    ghost var gone: set<string> := {};
    var i := 0;
    while i < |numbers|
      invariant 0 <= i <= |numbers|
      invariant forall p :: p in gone <==> exists j :: 0 <= j < i && j !in failingAt && numbers[j] == p
      invariant m == Removed(m0, gone)
    {
      var number := numbers[i];
      if i !in failingAt {
        m := m - {number};
        gone := gone + {number};
      }
      i := i + 1;
    }
    SucceededIsRemaining(m0, numbers, failingAt, gone);
    st' := st.(sockets := st.sockets[k := h.(tracked := Some(m))]);
  }

  /** The map without the numbers in `gone`. */
  function Removed(m: map<string, Sub>, gone: set<string>): (r: map<string, Sub>)
    ensures forall p :: p in r <==> p in m && p !in gone
  {
    map p | p in m && p !in gone :: m[p]
  }

  /** Removing the numbers some call of which succeeded keeps exactly what
      `Remaining` keeps. */
  lemma SucceededIsRemaining(m: map<string, Sub>, numbers: seq<string>, failingAt: set<nat>, gone: set<string>)
    requires forall p :: p in gone <==> exists j :: 0 <= j < |numbers| && j !in failingAt && numbers[j] == p
    ensures Removed(m, gone) == Remaining(m, (set p | p in numbers), FailedAll(numbers, failingAt))
  {
  }

  /** A number listed twice leaves the map when its second call succeeds
      after the first failed, and stays only when both fail. */
  lemma RepeatedNumber(a: string)
    ensures FailedAll([a, a], {0}) == {}
    ensures FailedAll([a, a], {0, 1}) == {a}
  {
    assert [a, a][1] == a;
  }

  /** Unsubscribing removes exactly the numbers that succeed and leaves
      every other entry of the map as it was. */
  lemma UnsubscribeKeepsOthers(st: State, sessionId: string, numbers: set<string>, failing: set<string>)
    requires Valid(st) && sessionId in st.registry && st.sockets[st.registry[sessionId]].tracked.Some?
    ensures var k := st.registry[sessionId];
      var before := st.sockets[k].tracked.value;
      var after := Unsubscribed(st, sessionId, numbers, failing).sockets[k].tracked.value;
      && (forall p :: p in before && p in numbers && p !in failing ==> p !in after)
      && (forall p :: p in before && (p !in numbers || p in failing) ==> p in after && after[p] == before[p])
      && after.Keys <= before.Keys
  {
  }

  /** `endSession(sessionId)`: nothing without a socket. Otherwise every
      tracked number is unsubscribed, then the socket logs out; only when
      the logout succeeds does the session leave the registry and lose its
      row. */
  function EndSession(st: State, sessionId: string, failing: set<string>, logoutOk: bool): (st': State)
    requires Valid(st)
    ensures Valid(st')
    ensures sessionId !in st.registry ==> st' == st
    ensures sessionId in st.registry && logoutOk ==>
      && sessionId !in st'.registry
      && (forall sid :: sid in st'.registry <==> sid in st.registry && sid != sessionId)
      && (forall row :: row in st'.sessions.rows <==> row in st.sessions.rows && row.sessionId != sessionId)
    ensures sessionId in st.registry && !logoutOk ==> st'.registry == st.registry && st'.sessions == st.sessions
    ensures sessionId in st.registry ==>
      var u := Unsubscribed(st, sessionId, TrackedOf(st.sockets[st.registry[sessionId]]).Keys, failing);
      st' == u.(registry := st'.registry, sessions := st'.sessions)
    ensures sessionId in st.registry && st.sockets[st.registry[sessionId]].tracked.Some? ==>
      var k := st.registry[sessionId];
      st'.sockets[k].tracked.Some?
      && forall p :: p in st'.sockets[k].tracked.value <==> p in st.sockets[k].tracked.value && p in failing
  {
    if sessionId !in st.registry then st
    else
      var h := st.sockets[st.registry[sessionId]];
      var unsubscribed := Unsubscribed(st, sessionId, TrackedOf(h).Keys, failing);
      if !logoutOk then unsubscribed
      else unsubscribed.(registry := unsubscribed.registry - {sessionId},
                         sessions := SessionStore.Delete(unsubscribed.sessions, sessionId).1)
  }

  /** `data.lastKnownPresence || "unknown"`. */
  function StatusOf(p: Option<string>): (status: string)
    ensures |status| > 0
    ensures p.Some? && |p.value| > 0 ==> status == p.value
  {
    if p.Some? && |p.value| > 0 then p.value else "unknown"
  }

  /** The status log after one `logStatus(participant, status)` per entry. */
  function LogAll(t: StatusLog.Table, participant: string, presences: seq<Option<string>>, nowMs: int): (t': StatusLog.Table)
    requires StatusLog.Valid(t)
    ensures StatusLog.Valid(t')
    decreases |presences|
  {
    if |presences| == 0 then t
    else LogAll(StatusLog.LogStatus(t, participant, StatusOf(presences[0]), nowMs), participant, presences[1..], nowMs)
  }

  /** The notifications of one presence update, one per entry. */
  function NotificationsOf(sub: Sub, participant: string, presences: seq<Option<string>>): (ns: seq<Notification>)
    ensures |ns| == |presences|
    ensures forall i :: 0 <= i < |ns| ==> ns[i] == Notification(sub.userId, sub.trackingId, participant, StatusOf(presences[i]))
  {
    seq(|presences|, i requires 0 <= i < |presences| => Notification(sub.userId, sub.trackingId, participant, StatusOf(presences[i])))
  }

  /** The `presence.update` handler of socket k. The participant is the id
      before '@'; one that is not in the socket's map is ignored.
      Otherwise every entry of `presences` is logged and notified, in
      order, its status defaulting to "unknown". */
  method OnPresence(st: State, k: nat, id: string, presences: seq<Option<string>>, nowMs: int) returns (st': State)
    requires Valid(st) && k in st.sockets
    ensures Valid(st')
    ensures var participant := Phone.UserPart(id);
      var h := st.sockets[k];
      if h.tracked.None? || participant !in h.tracked.value then st' == st
      else
        && st' == st.(log := st'.log, notifications := st'.notifications)
        && st'.log == LogAll(st.log, participant, presences, nowMs)
        && st'.notifications == st.notifications + NotificationsOf(h.tracked.value[participant], participant, presences)
  {
    var participant := Phone.UserPart(id);
    var h := st.sockets[k];
    st' := st;
    if h.tracked.None? || participant !in h.tracked.value {
      return;
    }
    var sub := h.tracked.value[participant];
    var log, notes := LogPresences(st.log, sub, participant, presences, nowMs);
    ValidWithLog(st, log);
    st' := st.(log := log, notifications := st.notifications + notes);
  }

  /** The loop of the `presence.update` handler: each entry in turn is
      logged and becomes one notification. */
  method LogPresences(t: StatusLog.Table, sub: Sub, participant: string, presences: seq<Option<string>>, nowMs: int)
    returns (t': StatusLog.Table, notes: seq<Notification>)
    requires StatusLog.Valid(t)
    ensures StatusLog.Valid(t') && t' == LogAll(t, participant, presences, nowMs)
    ensures |notes| == |presences|
    ensures forall i :: 0 <= i < |notes| ==> notes[i] == Notification(sub.userId, sub.trackingId, participant, StatusOf(presences[i]))
  {
    t', notes := t, [];
    var i := 0;
    while i < |presences|
      invariant 0 <= i <= |presences|
      invariant StatusLog.Valid(t')
      invariant LogAll(t', participant, presences[i..], nowMs) == LogAll(t, participant, presences, nowMs)
      invariant notes == NotificationsOf(sub, participant, presences[..i])
    {
      var status := StatusOf(presences[i]);
      assert presences[i..][0] == presences[i] && presences[i..][1..] == presences[i + 1..];
      t' := StatusLog.LogStatus(t', participant, status, nowMs);
      notes := notes + [Notification(sub.userId, sub.trackingId, participant, status)];
      i := i + 1;
    }
    assert presences[i..] == [];
  }

  /** The restore loop of the `open` branch: for each tracked number of
      the user, `subscribe` (whose failures are caught inside it), then
      the entry `phoneNumber → {userId, id}` in socket k's map. Only that
      map of socket k changes there; `subscribe` may also touch the socket
      the registry holds for the session and the tracked-number table. */
  function Restore(st: State, k: nat, sessionId: string, userId: int, numbers: seq<TrackedNumbers.View>,
                   failing: set<string>, now: int): (st': State)
    requires Valid(st) && k in st.sockets
    ensures Valid(st') && k in st'.sockets
    ensures st'.sockets[k] == st.sockets[k].(tracked := Some(RestoredMap(TrackedOf(st.sockets[k]), userId, numbers)))
    decreases |numbers|
  {
    if |numbers| == 0 then
      RestoreTracked(st, k)
    else
      var n := numbers[0].number;
      var outcome := if n.phoneNumber in failing then PresenceFailed else Subscribed;
      var st1 := Subscribe(st, sessionId, n.phoneNumber, userId, outcome, now);
      var h := st1.sockets[k];
      var entry := Sub(userId, n.id);
      var st2 := st1.(sockets := st1.sockets[k := h.(tracked := Some(TrackedOf(h)[n.phoneNumber := entry]))]);
      SubscribeOverwritten(st, sessionId, n.phoneNumber, userId, outcome, now, k, entry);
      Restore(st2, k, sessionId, userId, numbers[1..], failing, now)
  }

  /** Whatever `subscribe` puts in socket k's map under a number, setting
      that number right after leaves the same socket. */
  lemma SubscribeOverwritten(st: State, sessionId: string, phoneNumber: string, userId: int, outcome: SubscribeOutcome,
                             now: int, k: nat, entry: Sub)
    requires Valid(st) && k in st.sockets
    ensures var h := Subscribe(st, sessionId, phoneNumber, userId, outcome, now).sockets[k];
      h.(tracked := Some(TrackedOf(h)[phoneNumber := entry]))
        == st.sockets[k].(tracked := Some(TrackedOf(st.sockets[k])[phoneNumber := entry]))
  {
    var h := Subscribe(st, sessionId, phoneNumber, userId, outcome, now).sockets[k];
    if h != st.sockets[k] {
      var (id, _) := TrackedNumbers.FindOrCreate(st.tracked, userId, phoneNumber, now);
      assert TrackedOf(h) == TrackedOf(st.sockets[k])[phoneNumber := Sub(userId, id)];
      assert TrackedOf(h)[phoneNumber := entry] == TrackedOf(st.sockets[k])[phoneNumber := entry];
    }
  }

  /** The map the restore loop leaves: one entry per number, later ones
      winning. */
  function RestoredMap(m: map<string, Sub>, userId: int, numbers: seq<TrackedNumbers.View>): (r: map<string, Sub>)
    decreases |numbers|
  {
    if |numbers| == 0 then m
    else RestoredMap(m[numbers[0].number.phoneNumber := Sub(userId, numbers[0].number.id)], userId, numbers[1..])
  }

  /** Some number in the list bears phone number p. */
  predicate Names(numbers: seq<TrackedNumbers.View>, p: string) {
    exists j :: 0 <= j < |numbers| && numbers[j].number.phoneNumber == p
  }

  /** Some number in the list bears p and has the id of entry s. */
  predicate GivesEntry(numbers: seq<TrackedNumbers.View>, p: string, userId: int, s: Sub) {
    exists j :: 0 <= j < |numbers| && numbers[j].number.phoneNumber == p && s == Sub(userId, numbers[j].number.id)
  }

  /** The restored map holds the old keys and the numbers' keys, no other. */
  lemma {:induction false} RestoredKeys(m: map<string, Sub>, userId: int, numbers: seq<TrackedNumbers.View>)
    ensures forall p :: p in RestoredMap(m, userId, numbers) <==> p in m || Names(numbers, p)
    decreases |numbers|
  {
    if |numbers| > 0 {
      var n := numbers[0].number;
      var rest := numbers[1..];
      RestoredKeys(m[n.phoneNumber := Sub(userId, n.id)], userId, rest);
      forall p ensures Names(rest, p) ==> Names(numbers, p) {
        if Names(rest, p) {
          var j :| 0 <= j < |rest| && rest[j].number.phoneNumber == p;
          assert numbers[j + 1] == rest[j];
        }
      }
      forall p | Names(numbers, p) && p != n.phoneNumber ensures Names(rest, p) {
        var j :| 0 <= j < |numbers| && numbers[j].number.phoneNumber == p;
        assert rest[j - 1] == numbers[j];
      }
    }
  }

  /** Each entry of the restored map is the old one or comes from a number
      bearing its key. */
  lemma {:induction false} RestoredValues(m: map<string, Sub>, userId: int, numbers: seq<TrackedNumbers.View>)
    ensures var r := RestoredMap(m, userId, numbers);
      forall p :: p in r ==> (p in m && r[p] == m[p]) || GivesEntry(numbers, p, userId, r[p])
    decreases |numbers|
  {
    if |numbers| > 0 {
      var n := numbers[0].number;
      var rest := numbers[1..];
      var m' := m[n.phoneNumber := Sub(userId, n.id)];
      RestoredValues(m', userId, rest);
      var r := RestoredMap(m', userId, rest);
      forall p | p in r ensures (p in m && r[p] == m[p]) || GivesEntry(numbers, p, userId, r[p]) {
        if GivesEntry(rest, p, userId, r[p]) {
          var j :| 0 <= j < |rest| && rest[j].number.phoneNumber == p && r[p] == Sub(userId, rest[j].number.id);
          assert numbers[j + 1] == rest[j];
        } else if p == n.phoneNumber {
          assert numbers[0].number.phoneNumber == p && r[p] == Sub(userId, numbers[0].number.id);
        }
      }
    }
  }

  /** An absent map made present and empty; `open` does this before the
      restore loop. */
  function RestoreTracked(st: State, k: nat): (st': State)
    requires Valid(st) && k in st.sockets
    ensures Valid(st') && k in st'.sockets
    ensures st'.sockets[k] == st.sockets[k].(tracked := Some(TrackedOf(st.sockets[k])))
  {
    if st.sockets[k].tracked.Some? then st
    else st.(sockets := st.sockets[k := st.sockets[k].(tracked := Some(map[]))])
  }

  /** The `open` branch of `connection.update`. When the socket knows its
      user, the number in its JID is saved for the session; if that save
      fails, nothing more happens. Then, when the saved session has a
      truthy user, the socket's map starts afresh and every number the
      user tracks is resubscribed and entered in it. */
  function OnOpen(st: State, env: Env, k: nat, userJid: Option<string>, phoneSaved: bool, failing: set<string>, now: int): (st': State)
    requires Valid(st) && k in st.sockets
    ensures Valid(st') && k in st'.sockets && st'.sockets[k].wsOpen
    ensures (userJid.Some? && |userJid.value| > 0 && !phoneSaved) || RestoreUser(env, st.sessions, st.sockets[k].sessionId).None? ==>
      st'.sockets[k].tracked == st.sockets[k].tracked
    ensures !(userJid.Some? && |userJid.value| > 0 && !phoneSaved) && RestoreUser(env, st.sessions, st.sockets[k].sessionId).Some? ==>
      var userId := RestoreUser(env, st.sessions, st.sockets[k].sessionId).value;
      st'.sockets[k].tracked == Some(RestoredMap(map[], userId, TrackedNumbers.GetTrackedNumbersByUser(st.tracked, st.log, userId)))
  {
    var h := st.sockets[k];
    var sid := h.sessionId;
    var known := userJid.Some? && |userJid.value| > 0;
    if known && !phoneSaved then Reconnected(st, k, st.phones, h.tracked)
    else
      var phones := if known then st.phones[sid := Phone.PhoneOfJid(userJid.value)] else st.phones;
      match RestoreUser(env, st.sessions, sid)
      case None => Reconnected(st, k, phones, h.tracked)
      case Some(userId) =>
        var numbers := TrackedNumbers.GetTrackedNumbersByUser(st.tracked, st.log, userId);
        Restore(Reconnected(st, k, phones, Some(map[])), k, sid, userId, numbers, failing, now)
  }

  /** Socket k marked open with the given map, and the saved phones
      replaced. */
  function Reconnected(st: State, k: nat, phones: map<string, string>, tracked: Option<map<string, Sub>>): (st': State)
    requires Valid(st) && k in st.sockets
    ensures Valid(st') && k in st'.sockets
    ensures st'.sockets[k] == st.sockets[k].(wsOpen := true, tracked := tracked)
    ensures st'.tracked == st.tracked && st'.log == st.log && st'.sessions == st.sessions
  {
    st.(sockets := st.sockets[k := st.sockets[k].(wsOpen := true, tracked := tracked)], phones := phones)
  }

  /** `dbSession?.userId` when the saved session reads back with a truthy
      user. */
  function RestoreUser(env: Env, sessions: SessionStore.Table, sessionId: string): (r: Option<int>)
    ensures r.Some? ==> r.value != 0
    ensures r.Some? ==>
      exists i :: 0 <= i < |sessions.rows| && sessions.rows[i].sessionId == sessionId && sessions.rows[i].userId == r
  {
    var saved := SessionStore.GetSession(env.codec, sessions, sessionId);
    if saved.Ok? && saved.value.Some? && saved.value.value.userId.Some? && saved.value.value.userId.value != 0
    then saved.value.value.userId else None
  }

  /** The map `open` restores from `getTrackedNumbersByUser` has a key for
      exactly the numbers the user tracks, each with the id of that tracked
      row, whether or not its subscription succeeded. */
  lemma RestoredCoversUser(t: TrackedNumbers.Table, log: StatusLog.Table, userId: int)
    ensures var r := RestoredMap(map[], userId, TrackedNumbers.GetTrackedNumbersByUser(t, log, userId));
      && (forall p :: p in r <==> exists i :: 0 <= i < |t.rows| && TrackedNumbers.Tracks(t.rows[i], userId, p))
      && (forall p :: p in r ==>
            exists i :: 0 <= i < |t.rows| && TrackedNumbers.Tracks(t.rows[i], userId, p) && r[p] == Sub(userId, t.rows[i].id))
  {
    var numbers := TrackedNumbers.GetTrackedNumbersByUser(t, log, userId);
    TrackedNumbers.ViewsCoverUser(t, log, userId);
    RestoredKeysOfUser(t, userId, numbers);
    RestoredValuesOfUser(t, userId, numbers);
  }

  /** Restoring from the user's numbers gives a key for exactly the numbers
      the user tracks. */
  lemma RestoredKeysOfUser(t: TrackedNumbers.Table, userId: int, numbers: seq<TrackedNumbers.View>)
    requires forall v :: v in numbers ==> v.number in t.rows && v.number.userId == userId
    requires forall n :: n in t.rows && n.userId == userId ==> exists v :: v in numbers && v.number == n
    ensures var r := RestoredMap(map[], userId, numbers);
      forall p :: p in r <==> exists i :: 0 <= i < |t.rows| && TrackedNumbers.Tracks(t.rows[i], userId, p)
  {
    var r := RestoredMap(map[], userId, numbers);
    RestoredKeys(map[], userId, numbers);
    forall p ensures p in r <==> exists i :: 0 <= i < |t.rows| && TrackedNumbers.Tracks(t.rows[i], userId, p) {
      if p in r {
        var j :| 0 <= j < |numbers| && numbers[j].number.phoneNumber == p;
        assert numbers[j] in numbers;
        var x :| 0 <= x < |t.rows| && t.rows[x] == numbers[j].number;
        assert TrackedNumbers.Tracks(t.rows[x], userId, p);
      }
      if exists i :: 0 <= i < |t.rows| && TrackedNumbers.Tracks(t.rows[i], userId, p) {
        var i :| 0 <= i < |t.rows| && TrackedNumbers.Tracks(t.rows[i], userId, p);
        assert t.rows[i] in t.rows;
        var v :| v in numbers && v.number == t.rows[i];
        var j :| 0 <= j < |numbers| && numbers[j] == v;
        assert Names(numbers, p);
      }
    }
  }

  /** Each restored entry carries the id of a row the user tracks under
      that number. */
  lemma RestoredValuesOfUser(t: TrackedNumbers.Table, userId: int, numbers: seq<TrackedNumbers.View>)
    requires forall v :: v in numbers ==> v.number in t.rows && v.number.userId == userId
    ensures var r := RestoredMap(map[], userId, numbers);
      forall p :: p in r ==>
        exists i :: 0 <= i < |t.rows| && TrackedNumbers.Tracks(t.rows[i], userId, p) && r[p] == Sub(userId, t.rows[i].id)
  {
    var r := RestoredMap(map[], userId, numbers);
    RestoredValues(map[], userId, numbers);
    forall p | p in r
      ensures exists i :: 0 <= i < |t.rows| && TrackedNumbers.Tracks(t.rows[i], userId, p) && r[p] == Sub(userId, t.rows[i].id)
    {
      var j :| 0 <= j < |numbers| && numbers[j].number.phoneNumber == p && r[p] == Sub(userId, numbers[j].number.id);
      assert numbers[j] in numbers;
      var x :| 0 <= x < |t.rows| && t.rows[x] == numbers[j].number;
      assert TrackedNumbers.Tracks(t.rows[x], userId, p);
    }
  }

  /** The `creds.update` handler. An in-memory socket takes the new
      credentials and hands `toJSON()` to `onCreds`. A multi-file socket
      saves `{creds, keys}` for the session as 'LINKED'; its key store is
      an object of functions, which JSON writes as `{}`. A failed save is
      caught. */
  function OnCreds(st: State, env: Env, k: nat, creds: Value, iv: Bytes, now: int): (st': State)
    requires Valid(st) && k in st.sockets && |iv| == 12
    ensures Valid(st')
    ensures st.sockets[k].mode.InMemory? ==>
      var auth := st.sockets[k].mode.auth.(creds := creds);
      && st'.sockets == st.sockets[k := st.sockets[k].(mode := InMemory(auth))]
      && st'.callbacks == st.callbacks + (if st.sockets[k].hasOnCreds then [CredsChanged(st.sockets[k].sessionId, KeyStore.Snapshot(auth))] else [])
      && st'.sessions == st.sessions
    ensures st.sockets[k].mode.MultiFile? ==>
      var saved := SessionStore.SaveOrUpdate(env.codec, st.sessions, st.sockets[k].sessionId,
                     MultiFileAuth(creds), st.sockets[k].metaUserId, "LINKED", iv, now);
      st' == st.(sessions := if saved.Ok? then saved.value else st.sessions)
  {
    var h := st.sockets[k];
    match h.mode
    case InMemory(auth) =>
      var auth' := auth.(creds := creds);
      st.(sockets := st.sockets[k := h.(mode := InMemory(auth'))],
          callbacks := st.callbacks + (if h.hasOnCreds then [CredsChanged(h.sessionId, KeyStore.Snapshot(auth'))] else []))
    case MultiFile =>
      var saved := SessionStore.SaveOrUpdate(env.codec, st.sessions, h.sessionId, MultiFileAuth(creds), h.metaUserId, "LINKED", iv, now);
      st.(sessions := if saved.Ok? then saved.value else st.sessions)
  }

  /** `{creds: sock.authState.creds, keys: sock.authState.keys}` as JSON
      sees it. */
  function MultiFileAuth(creds: Value): (v: Value)
    ensures Field(v, "creds") == Some(creds) && Field(v, "keys") == Some(JObj(map[]))
  {
    JObj(map["creds" := creds, "keys" := JObj(map[])])
  }

  /** Baileys writing keys through `keys.set(data)`; a multi-file socket
      writes them to disk, outside the model. */
  function OnKeys(st: State, k: nat, data: KeyStore.Store): (st': State)
    requires Valid(st) && k in st.sockets
    ensures Valid(st')
    ensures st.sockets[k].mode.InMemory? ==>
      st'.sockets == st.sockets[k := st.sockets[k].(mode := InMemory(st.sockets[k].mode.auth.(keys := KeyStore.Set(st.sockets[k].mode.auth.keys, data))))]
    ensures st.sockets[k].mode.MultiFile? ==> st' == st
  {
    var h := st.sockets[k];
    match h.mode
    case InMemory(auth) => st.(sockets := st.sockets[k := h.(mode := InMemory(auth.(keys := KeyStore.Set(auth.keys, data))))])
    case MultiFile => st
  }

  /** Socket k receives an event; events of unknown sockets are dropped. */
  method Step(st: State, env: Env, k: nat, ev: Event) returns (st': State)
    requires Valid(st)
    requires ev.CredsUpdate? ==> |ev.iv| == 12
    ensures Valid(st')
    ensures k !in st.sockets ==> st' == st
  {
    if k !in st.sockets {
      return st;
    }
    match ev
    case WsOpened => st' := OnWsOpen(st, k);
    case QrCode(qr, random, dataUrl) => st' := OnQr(st, env, k, qr, random, dataUrl);
    case Closed(statusCode, newCreds) => st' := OnClose(st, env, k, statusCode, newCreds);
    case Opened(userJid, phoneSaved, failing, now) => st' := OnOpen(st, env, k, userJid, phoneSaved, failing, now);
    case PresenceUpdate(id, presences, nowMs) => st' := OnPresence(st, k, id, presences, nowMs);
    case CredsUpdate(creds, iv, now) => st' := OnCreds(st, env, k, creds, iv, now);
    case KeysSet(data) => st' := OnKeys(st, k, data);
  }

  /** Starting a session again while its QR code is showing returns the
      socket the first start made and changes nothing, whatever auth and
      callbacks the second start passes. */
  lemma RestartDuringQr(st: State, env: Env, sessionId: string, auth: Value, hasOnQr: bool, hasOnCreds: bool,
                        meta: Option<int>, newCreds: Value, qr: string, random: Bytes, dataUrl: string,
                        auth2: Value, hasOnQr2: bool, hasOnCreds2: bool, meta2: Option<int>, newCreds2: Value)
    requires Valid(st)
    requires InitSession(st, sessionId, auth, hasOnQr, hasOnCreds, meta, newCreds).1.Started?
    ensures var (s1, o1) := InitSession(st, sessionId, auth, hasOnQr, hasOnCreds, meta, newCreds);
      var s2 := OnQr(OnWsOpen(s1, o1.socket), env, o1.socket, qr, random, dataUrl);
      InitSession(s2, sessionId, auth2, hasOnQr2, hasOnCreds2, meta2, newCreds2) == (s2, Reused(o1.socket))
  {
  }

  /** A QR code that reaches `onQr` can be read back from the cache under
      the id in its link, until that id is deleted. */
  lemma QrCacheRoundTrip(st: State, env: Env, k: nat, qr: string, random: Bytes, dataUrl: string)
    requires Valid(st) && k in st.sockets && |qr| > 0 && st.sockets[k].hasOnQr
    ensures var st' := OnQr(st, env, k, qr, random, dataUrl);
      var qrId := Hex.Encode(random);
      && GetQrData(st', qrId) == Some(dataUrl)
      && GetQrData(DeleteQrData(st', qrId), qrId) == None
      && st'.callbacks[|st'.callbacks| - 1] == QrLinkIssued(st.sockets[k].sessionId, env.qrBase + qrId)
  {
  }
}
