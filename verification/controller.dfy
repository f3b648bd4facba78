/** The request handlers of src/controllers/watrackController.js that hold
    logic of their own: the session id they make up, the `statusCache`
    entry each session id has and how starting, a QR link and a credential
    update change it, the single-use public QR page, and the guards on the
    request fields. A handler takes the server's state and the request's
    fields and gives the new state and the reply; a foreign call's outcome
    and the random bytes are inputs. */
module Controller {
  import opened Base
  import opened Json
  import Hex
  import AuthCodec
  import SessionStore
  import TrackedNumbers
  import WhatsApp

  const Pending: string := "PENDING"
  const Linked: string := "LINKED"

  /** An entry of `statusCache`; None stands for a field the object lacks. */
  datatype Entry = Entry(connected: Option<bool>, status: Option<string>, qrLink: Option<string>)

  /** The process: the status cache and the session layer beneath it. */
  datatype Server = Server(cache: map<string, Entry>, wa: WhatsApp.State)

  /** What a handler sends: the HTTP status and the body's content. */
  datatype Body =
    | Text(message: string)
    | Created(sessionId: string)
    | QrLink(qr: string)
    | Status(linked: bool, status: string)
    | QrPage(dataUrl: string)
    | Tracking(phoneNumber: string, trackingId: nat)
    | Unsubscribed(phoneNumbers: Value)

  datatype Reply = Reply(code: int, body: Body)

  /** `userId || 'anon'` as the template writes it. */
  function UserTag(userId: Option<int>): (tag: string)
    ensures |tag| > 0 && '_' !in tag
    ensures tag == "anon" <==> userId.None? || userId.value == 0
  {
    if userId.Some? && userId.value != 0 then
      var s := IntToString(userId.value);
      assert s[|s| - 1] != 'n';
      assert forall i :: 0 <= i < |s| ==> s[i] != '_';
      s
    else "anon"
  }

  /** `generateSessionId(userId)`, `random` being `crypto.randomBytes(6)`:
      the user's tag, '_', then twelve lower-case hex digits that read back
      as the random bytes. */
  function GenerateSessionId(userId: Option<int>, random: Bytes): (id: string)
    requires |random| == 6
    ensures |id| >= 14 && id[|id| - 13] == '_'
    ensures id[..|id| - 13] == UserTag(userId)
    ensures forall i :: |id| - 12 <= i < |id| ==> Hex.IsLowerHex(id[i])
    ensures Hex.Decode(id[|id| - 12..]) == Some(random)
  {
    var hex := Hex.Encode(random);
    Hex.RoundTrip(random);
    var id := UserTag(userId) + "_" + hex;
    assert id[|id| - 12..] == hex;
    id
  }

  /** A session id determines the user's tag and the random bytes: two ids
      that differ in either differ. */
  lemma SessionIdDetermines(u1: Option<int>, r1: Bytes, u2: Option<int>, r2: Bytes)
    requires |r1| == 6 && |r2| == 6
    requires GenerateSessionId(u1, r1) == GenerateSessionId(u2, r2)
    ensures r1 == r2 && UserTag(u1) == UserTag(u2)
  {
    var id := GenerateSessionId(u1, r1);
    assert Hex.Decode(id[|id| - 12..]) == Some(r1);
    assert Hex.Decode(id[|id| - 12..]) == Some(r2);
  }

  /** `createSessionController`: a new id saved with a null auth as
      'PENDING' for the (optional) user; 500 where the save fails. */
  function CreateSession(s: Server, env: WhatsApp.Env, userId: Option<int>, random: Bytes, iv: Bytes, now: int): (r: (Server, Reply))
    requires WhatsApp.Valid(s.wa) && |random| == 6 && |iv| == 12
    ensures WhatsApp.Valid(r.0.wa) && r.0.cache == s.cache
    ensures var saved := SessionStore.SaveOrUpdate(env.codec, s.wa.sessions, GenerateSessionId(userId, random), JNull, userId, Pending, iv, now);
      && (saved.Ok? ==> r.0.wa == s.wa.(sessions := saved.value) && r.1 == Reply(200, Created(GenerateSessionId(userId, random))))
      && (saved.Err? ==> r.0 == s && r.1.code == 500)
  {
    var sessionId := GenerateSessionId(userId, random);
    var saved := SessionStore.SaveOrUpdate(env.codec, s.wa.sessions, sessionId, JNull, userId, Pending, iv, now);
    if saved.Ok? then
      WhatsApp.ValidWithSessions(s.wa, saved.value);
      (s.(wa := s.wa.(sessions := saved.value)), Reply(200, Created(sessionId)))
    else (s, Reply(500, Text("Failed to create session")))
  }

  /** `startWhatsAppController`: 400 without a session id. Otherwise the
      cache entry is reset to not connected and 'PENDING', the saved
      session is read (500 where that fails), and `initSession` runs with
      its auth (null when falsy) and `sessionMeta.userId = dbSession?.userId
      || null`; 500 where `initSession` rejects. */
  function Start(s: Server, env: WhatsApp.Env, sessionId: string, newCreds: Value): (r: (Server, Reply))
    requires WhatsApp.Valid(s.wa)
    ensures WhatsApp.Valid(r.0.wa)
    ensures |sessionId| == 0 <==> r.1.code == 400
    ensures |sessionId| == 0 ==> r.0 == s
    ensures |sessionId| > 0 ==>
      && r.0.cache == s.cache[sessionId := Entry(Some(false), Some(Pending), None)]
      && r.0.wa.sessions == s.wa.sessions
    ensures |sessionId| > 0 ==>
      var saved := SessionStore.GetSession(env.codec, s.wa.sessions, sessionId);
      && (saved.Err? ==> r.0.wa == s.wa && r.1.code == 500)
      && (saved.Ok? ==>
            var auth := if saved.value.Some? && Truthy(saved.value.value.auth) then saved.value.value.auth else JNull;
            var meta := if saved.value.Some? then WhatsApp.MetaUser(saved.value.value.userId) else None;
            var started := WhatsApp.InitSession(s.wa, sessionId, auth, true, true, meta, newCreds);
            r.0.wa == started.0 && (r.1.code == 200 <==> !started.1.Rejected?))
  {
    if |sessionId| == 0 then (s, Reply(400, Text("sessionId required")))
    else
      var cache := s.cache[sessionId := Entry(Some(false), Some(Pending), None)];
      match SessionStore.GetSession(env.codec, s.wa.sessions, sessionId)
      case Err(_) => (s.(cache := cache), Reply(500, Text("failed to read the session")))
      case Ok(saved) =>
        var auth := if saved.Some? && Truthy(saved.value.auth) then saved.value.auth else JNull;
        var meta := if saved.Some? then WhatsApp.MetaUser(saved.value.userId) else None;
        var (wa, outcome) := WhatsApp.InitSession(s.wa, sessionId, auth, true, true, meta, newCreds);
        if outcome.Rejected? then (Server(cache, wa), Reply(500, Text("failed to start the client")))
        else (Server(cache, wa), Reply(200, Text("WhatsApp client starting")))
  }

  /** The `onQr` callback of a start: the entry keeps its fields and gains
      the link; a missing entry reads as `{}`. */
  function OnQrLink(cache: map<string, Entry>, sessionId: string, link: string): (c: map<string, Entry>)
    ensures c.Keys == cache.Keys + {sessionId}
    ensures c[sessionId].qrLink == Some(link)
    ensures sessionId in cache ==>
      c[sessionId].connected == cache[sessionId].connected && c[sessionId].status == cache[sessionId].status
    ensures sessionId !in cache ==> c[sessionId].connected.None? && c[sessionId].status.None?
    ensures forall sid :: sid in cache && sid != sessionId ==> c[sid] == cache[sid]
  {
    var current := if sessionId in cache then cache[sessionId] else Entry(None, None, None);
    cache[sessionId := current.(qrLink := Some(link))]
  }

  /** The `onCreds` callback of a start: the entry becomes connected and
      'LINKED', its link dropped, then the credentials are saved as
      'LINKED' for `sessionMeta.userId`; a failed save leaves the table. */
  function OnCredsSaved(s: Server, env: WhatsApp.Env, sessionId: string, creds: Value, metaUserId: Option<int>,
                        iv: Bytes, now: int): (r: Server)
    requires WhatsApp.Valid(s.wa) && |iv| == 12
    ensures WhatsApp.Valid(r.wa)
    ensures r.cache == s.cache[sessionId := Entry(Some(true), Some(Linked), None)]
    ensures var saved := SessionStore.SaveOrUpdate(env.codec, s.wa.sessions, sessionId, creds, metaUserId, Linked, iv, now);
      r.wa == s.wa.(sessions := if saved.Ok? then saved.value else s.wa.sessions)
  {
    var cache := s.cache[sessionId := Entry(Some(true), Some(Linked), None)];
    var saved := SessionStore.SaveOrUpdate(env.codec, s.wa.sessions, sessionId, creds, metaUserId, Linked, iv, now);
    if saved.Ok? then
      WhatsApp.ValidWithSessions(s.wa, saved.value);
      Server(cache, s.wa.(sessions := saved.value))
    else s.(cache := cache)
  }

  /** `getQrController`: 400 without a session id; the cached link when
      the entry has a non-empty one; 202 "QR not ready" otherwise. */
  function GetQr(cache: map<string, Entry>, sessionId: string): (r: Reply)
    ensures |sessionId| == 0 ==> r.code == 400
    ensures |sessionId| > 0 ==>
      (r.code == 200 <==> sessionId in cache && cache[sessionId].qrLink.Some? && |cache[sessionId].qrLink.value| > 0)
    ensures r.code == 200 ==> r.body == QrLink(cache[sessionId].qrLink.value)
    ensures r.code in {200, 202, 400}
  {
    if |sessionId| == 0 then Reply(400, Text("sessionId required"))
    else if sessionId in cache && cache[sessionId].qrLink.Some? && |cache[sessionId].qrLink.value| > 0 then
      Reply(200, QrLink(cache[sessionId].qrLink.value))
    else Reply(202, Text("QR not ready"))
  }

  /** `cache.status || dbSession?.status || 'PENDING'` with the cache entry
      defaulting to `{connected: false, status: 'PENDING'}`. */
  function ShownStatus(cache: map<string, Entry>, sessionId: string, saved: Option<SessionStore.Session>): (status: string)
    ensures sessionId !in cache ==> status == Pending
    ensures sessionId in cache && cache[sessionId].status.Some? && |cache[sessionId].status.value| > 0 ==>
      status == cache[sessionId].status.value
    ensures sessionId in cache && (cache[sessionId].status.None? || |cache[sessionId].status.value| == 0) ==>
      status == (if saved.Some? && |saved.value.status| > 0 then saved.value.status else Pending)
  {
    var entry := if sessionId in cache then cache[sessionId] else Entry(Some(false), Some(Pending), None);
    if entry.status.Some? && |entry.status.value| > 0 then entry.status.value
    else if saved.Some? && |saved.value.status| > 0 then saved.value.status
    else Pending
  }

  /** `getStatusController`: 400 without a session id; otherwise `linked`
      is whether the saved auth is truthy and the status is the one shown.
      Err where reading the session throws: the handler then sends
      nothing. */
  function GetStatus(s: Server, env: WhatsApp.Env, sessionId: string): (r: Result<Reply>)
    ensures |sessionId| == 0 ==> r == Ok(Reply(400, Text("sessionId required")))
    ensures |sessionId| > 0 ==> (r.Ok? <==> SessionStore.GetSession(env.codec, s.wa.sessions, sessionId).Ok?)
    ensures |sessionId| > 0 && r.Ok? ==>
      var saved := SessionStore.GetSession(env.codec, s.wa.sessions, sessionId).value;
      && r.value.code == 200 && r.value.body.Status?
      && (r.value.body.linked <==> saved.Some? && Truthy(saved.value.auth))
      && r.value.body.status == ShownStatus(s.cache, sessionId, saved)
  {
    if |sessionId| == 0 then Ok(Reply(400, Text("sessionId required")))
    else
      var saved :- SessionStore.GetSession(env.codec, s.wa.sessions, sessionId);
      Ok(Reply(200, Status(saved.Some? && Truthy(saved.value.auth), ShownStatus(s.cache, sessionId, saved))))
  }

  /** `getQrPublicController`: a cached non-empty data URL is served once
      and evicted; anything else is 404 and changes nothing. */
  function GetQrPublic(s: Server, qrId: string): (r: (Server, Reply))
    ensures var data := WhatsApp.GetQrData(s.wa, qrId);
      if data.Some? && |data.value| > 0 then
        r.1 == Reply(200, QrPage(data.value)) && r.0 == s.(wa := WhatsApp.DeleteQrData(s.wa, qrId))
      else r.1.code == 404 && r.0 == s
  {
    match WhatsApp.GetQrData(s.wa, qrId)
    case Some(dataUrl) =>
      if |dataUrl| > 0 then (s.(wa := WhatsApp.DeleteQrData(s.wa, qrId)), Reply(200, QrPage(dataUrl)))
      else (s, Reply(404, Text("QR code expired or not found.")))
    case None => (s, Reply(404, Text("QR code expired or not found.")))
  }

  /** A QR page is served at most once: the read that serves it evicts
      it, so the next read of the same id is 404. */
  lemma QrPageSingleUse(s: Server, qrId: string)
    requires GetQrPublic(s, qrId).1.code == 200
    ensures GetQrPublic(GetQrPublic(s, qrId).0, qrId).1.code == 404
    ensures GetQrPublic(GetQrPublic(s, qrId).0, qrId).0 == GetQrPublic(s, qrId).0
  {
    var s1 := GetQrPublic(s, qrId).0;
    assert WhatsApp.GetQrData(s1.wa, qrId).None?;
  }

  /** `subscribeController`: 400 unless the session id, the user and the
      number are all truthy. Otherwise the tracked number is found or
      created (500 where that throws), `subscribe` runs, and the reply
      carries the tracked-number id. */
  function SubscribeRequest(s: Server, sessionId: string, userId: Option<int>, phoneNumber: string,
                            dbOk: bool, outcome: WhatsApp.SubscribeOutcome, now: int): (r: (Server, Reply))
    requires WhatsApp.Valid(s.wa)
    ensures WhatsApp.Valid(r.0.wa) && r.0.cache == s.cache
    ensures r.1.code == 400 <==> |sessionId| == 0 || userId.None? || userId.value == 0 || |phoneNumber| == 0
    ensures r.1.code == 400 || !dbOk ==> r.0 == s
    ensures r.1.code != 400 && !dbOk ==> r.1.code == 500
    ensures r.1.code != 400 && dbOk ==>
      var (id, t) := TrackedNumbers.FindOrCreate(s.wa.tracked, userId.value, phoneNumber, now);
      && r.1 == Reply(200, Tracking(phoneNumber, id))
      && r.0.wa == WhatsApp.Subscribe(s.wa.(tracked := t), sessionId, phoneNumber, userId.value, outcome, now)
  {
    if |sessionId| == 0 || userId.None? || userId.value == 0 || |phoneNumber| == 0 then
      (s, Reply(400, Text("sessionId, userId and phoneNumber are required")))
    else if !dbOk then (s, Reply(500, Text("Failed to start tracking")))
    else
      var (id, t) := TrackedNumbers.FindOrCreate(s.wa.tracked, userId.value, phoneNumber, now);
      var wa := WhatsApp.Subscribe(s.wa.(tracked := t), sessionId, phoneNumber, userId.value, outcome, now);
      (s.(wa := wa), Reply(200, Tracking(phoneNumber, id)))
  }

  /** The id a subscribe request reports is the one the socket's map then
      holds for the number: the second find-or-create inside `subscribe`
      finds the row the first one made. */
  lemma SubscribeReportsMappedId(s: Server, sessionId: string, userId: int, phoneNumber: string, now: int)
    requires WhatsApp.Valid(s.wa) && sessionId in s.wa.registry
    requires |sessionId| > 0 && userId != 0 && |phoneNumber| > 0
    ensures var r := SubscribeRequest(s, sessionId, Some(userId), phoneNumber, true, WhatsApp.Subscribed, now);
      var k := s.wa.registry[sessionId];
      && r.1.body.Tracking?
      && r.0.wa.sockets[k].tracked == Some(WhatsApp.TrackedOf(s.wa.sockets[k])[phoneNumber := WhatsApp.Sub(userId, r.1.body.trackingId)])
  {
    TrackedNumbers.FindOrCreateIdempotent(s.wa.tracked, userId, phoneNumber, now, now);
  }

  /** `unsubscribeController`: 400 unless the session id is truthy and
      `phoneNumbers` is a non-empty array; otherwise `unsubscribe` runs on
      its entries and the reply echoes them. Only string entries can match
      a key of the socket's map. */
  function UnsubscribeRequest(s: Server, sessionId: string, phoneNumbers: Value, failing: set<string>): (r: (Server, Reply))
    requires WhatsApp.Valid(s.wa)
    ensures WhatsApp.Valid(r.0.wa) && r.0.cache == s.cache
    ensures r.1.code == 400 <==> |sessionId| == 0 || !phoneNumbers.JArr? || |phoneNumbers.items| == 0
    ensures r.1.code == 400 ==> r.0 == s
    ensures r.1.code != 400 ==>
      && r.1 == Reply(200, Unsubscribed(phoneNumbers))
      && r.0.wa == WhatsApp.Unsubscribed(s.wa, sessionId, Strings(phoneNumbers.items), failing)
  {
    if |sessionId| == 0 || !phoneNumbers.JArr? || |phoneNumbers.items| == 0 then
      (s, Reply(400, Text("sessionId and valid phone numbers list required")))
    else
      (s.(wa := WhatsApp.Unsubscribed(s.wa, sessionId, Strings(phoneNumbers.items), failing)),
       Reply(200, Unsubscribed(phoneNumbers)))
  }

  /** The strings among an array's entries. */
  function Strings(items: seq<Value>): (r: set<string>)
    ensures forall p :: p in r <==> JStr(p) in items
  {
    set i | 0 <= i < |items| && items[i].JStr? :: items[i].s
  }

  /** `endSessionController`: 400 without a session id; 500 where the
      logout throws, after the numbers were unsubscribed; 200 otherwise. */
  function EndSessionRequest(s: Server, sessionId: string, failing: set<string>, logoutOk: bool): (r: (Server, Reply))
    requires WhatsApp.Valid(s.wa)
    ensures WhatsApp.Valid(r.0.wa) && r.0.cache == s.cache
    ensures |sessionId| == 0 <==> r.1.code == 400
    ensures |sessionId| == 0 ==> r.0 == s
    ensures |sessionId| > 0 ==> r.0.wa == WhatsApp.EndSession(s.wa, sessionId, failing, logoutOk)
    ensures |sessionId| > 0 ==> (r.1.code == 200 <==> sessionId !in s.wa.registry || logoutOk)
  {
    if |sessionId| == 0 then (s, Reply(400, Text("sessionId required")))
    else
      var wa := WhatsApp.EndSession(s.wa, sessionId, failing, logoutOk);
      if sessionId in s.wa.registry && !logoutOk then (s.(wa := wa), Reply(500, Text("Failed to end session")))
      else (s.(wa := wa), Reply(200, Text("Session " + sessionId + " ended successfully.")))
  }

  /** After a start, the status shown is 'PENDING' whatever the table
      says, until the credentials arrive. */
  lemma StartShowsPending(s: Server, env: WhatsApp.Env, sessionId: string, newCreds: Value)
    requires WhatsApp.Valid(s.wa) && |sessionId| > 0
    ensures var s' := Start(s, env, sessionId, newCreds).0;
      var r := GetStatus(s', env, sessionId);
      r.Ok? ==> r.value.body.Status? && r.value.body.status == Pending
  {
  }

  /** A QR link after a start is what `getQrController` returns, and the
      entry is still not connected and 'PENDING'. */
  lemma StartThenQr(s: Server, env: WhatsApp.Env, sessionId: string, newCreds: Value, link: string)
    requires WhatsApp.Valid(s.wa) && |sessionId| > 0 && |link| > 0
    ensures var s' := Start(s, env, sessionId, newCreds).0;
      var c := OnQrLink(s'.cache, sessionId, link);
      && GetQr(c, sessionId) == Reply(200, QrLink(link))
      && c[sessionId] == Entry(Some(false), Some(Pending), Some(link))
  {
  }

  /** Once the credentials arrive the link is gone (202 again), the status
      shown is 'LINKED', and with a working codec `linked` is true. */
  lemma CredsThenStatus(s: Server, env: WhatsApp.Env, sessionId: string, creds: Value, metaUserId: Option<int>,
                        iv: Bytes, now: int)
    requires WhatsApp.Valid(s.wa) && |iv| == 12 && |sessionId| > 0
    requires AuthCodec.AeadInverts(env.codec.aead) && AuthCodec.TextRoundTrips(env.codec.text)
    requires AuthCodec.KeyConfigured(env.codec) ==> |AuthCodec.KeyBytes(env.codec)| == 32
    requires TagFree(creds) && Truthy(creds)
    ensures var s' := OnCredsSaved(s, env, sessionId, creds, metaUserId, iv, now);
      && GetQr(s'.cache, sessionId).code == 202
      && GetStatus(s', env, sessionId) == Ok(Reply(200, Status(true, Linked)))
  {
    SessionStore.SaveThenGet(env.codec, s.wa.sessions, sessionId, creds, metaUserId, Linked, iv, now);
    var saved := SessionStore.SaveOrUpdate(env.codec, s.wa.sessions, sessionId, creds, metaUserId, Linked, iv, now);
    var s' := OnCredsSaved(s, env, sessionId, creds, metaUserId, iv, now);
    assert s'.wa.sessions == saved.value;
    assert s'.cache[sessionId].status == Some(Linked);
  }

  /** A session just created and never started reads as not linked, and
      as 'PENDING' unless the cache already holds a status for its id. */
  lemma CreatedIsPending(s: Server, env: WhatsApp.Env, userId: Option<int>, random: Bytes, iv: Bytes, now: int)
    requires WhatsApp.Valid(s.wa) && |random| == 6 && |iv| == 12
    requires AuthCodec.AeadInverts(env.codec.aead) && AuthCodec.TextRoundTrips(env.codec.text)
    requires AuthCodec.KeyConfigured(env.codec) ==> |AuthCodec.KeyBytes(env.codec)| == 32
    ensures var id := GenerateSessionId(userId, random);
      var (s', reply) := CreateSession(s, env, userId, random, iv, now);
      && reply == Reply(200, Created(id))
      && GetStatus(s', env, id).Ok? && GetStatus(s', env, id).value.code == 200
      && GetStatus(s', env, id).value.body == Status(false,
           if id in s.cache && s.cache[id].status.Some? && |s.cache[id].status.value| > 0 then s.cache[id].status.value
           else Pending)
  {
    var id := GenerateSessionId(userId, random);
    SessionStore.SaveNullThenGet(env.codec, s.wa.sessions, id, userId, Pending, iv, now);
    var saved := SessionStore.SaveOrUpdate(env.codec, s.wa.sessions, id, JNull, userId, Pending, iv, now);
    var s' := CreateSession(s, env, userId, random, iv, now).0;
    assert s'.wa.sessions == saved.value && s'.cache == s.cache;
  }
}
