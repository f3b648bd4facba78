/** The `auth_sessions` table (src/models/authSessionsModel.js:88-238): one
    row per session id holding the encrypted auth blob, the owning user and
    a status ('PENDING' or 'LINKED'). Times are whole seconds. The table's
    schema, a unique `sessionId` with `createdAt`/`updatedAt` set by the
    database, is not part of this model and is assumed from the queries. */
module SessionStore {
  import opened Base
  import opened Json
  import Seqs
  import AuthCodec
  import Base64
  import BufferJson

  datatype Row = Row(sessionId: string, userId: Option<int>, blob: string, status: string, createdAt: int, updatedAt: int)

  datatype Table = Table(rows: seq<Row>)

  /** `sessionId` is the conflict target of the upsert, so it is unique. */
  predicate Valid(t: Table) {
    forall i, j :: 0 <= i < j < |t.rows| ==> t.rows[i].sessionId != t.rows[j].sessionId
  }

  /** The index of the row for sessionId. */
  function IndexOf(rows: seq<Row>, sessionId: string): (r: Option<nat>)
    ensures r.Some? ==> r.value < |rows| && rows[r.value].sessionId == sessionId
    ensures r.None? <==> forall i :: 0 <= i < |rows| ==> rows[i].sessionId != sessionId
  {
    if |rows| == 0 then None
    else if rows[|rows| - 1].sessionId == sessionId then Some(|rows| - 1)
    else IndexOf(rows[..|rows| - 1], sessionId)
  }

  /** The `INSERT … ON CONFLICT(sessionId) DO UPDATE` of
      `saveOrUpdateSession`: a new row, or the existing one with blob,
      user, status and `updatedAt` replaced and `createdAt` kept. */
  function Upsert(t: Table, sessionId: string, userId: Option<int>, blob: string, status: string, now: int): (t': Table)
    requires Valid(t)
    ensures Valid(t')
    ensures exists i :: 0 <= i < |t'.rows| && t'.rows[i].sessionId == sessionId
    ensures forall i :: 0 <= i < |t'.rows| && t'.rows[i].sessionId == sessionId ==>
      && t'.rows[i].userId == userId && t'.rows[i].blob == blob && t'.rows[i].status == status
      && t'.rows[i].updatedAt == now
      && t'.rows[i].createdAt == (if IndexOf(t.rows, sessionId).Some? then t.rows[IndexOf(t.rows, sessionId).value].createdAt else now)
    ensures forall r: Row :: r.sessionId != sessionId ==> (r in t'.rows <==> r in t.rows)
  {
    match IndexOf(t.rows, sessionId)
    case Some(i) =>
      var old_ := t.rows[i];
      var t' := Table(t.rows[i := Row(sessionId, userId, blob, status, old_.createdAt, now)]);
      assert t'.rows[i].sessionId == sessionId;
      assert forall r: Row :: r.sessionId != sessionId ==> (r in t'.rows <==> r in t.rows) by {
        forall r: Row | r.sessionId != sessionId ensures r in t'.rows <==> r in t.rows {
          if r in t.rows {
            var j :| 0 <= j < |t.rows| && t.rows[j] == r;
            assert t'.rows[j] == r;
          }
        }
      }
      t'
    case None =>
      var t' := Table(t.rows + [Row(sessionId, userId, blob, status, now, now)]);
      assert t'.rows[|t.rows|].sessionId == sessionId;
      t'
  }

  /** `saveOrUpdateSession(sessionId, auth, userId, status)` at second now,
      `iv` being the random bytes of its `encrypt`; Err where `encrypt`
      throws, before the table is touched. */
  function SaveOrUpdate(c: AuthCodec.Config, t: Table, sessionId: string, auth: Value, userId: Option<int>,
                        status: string, iv: Bytes, now: int): (r: Result<Table>)
    requires Valid(t) && |iv| == 12
    ensures r.Ok? <==> AuthCodec.Encrypt(c, auth, iv).Ok?
    ensures r.Ok? ==> r.value == Upsert(t, sessionId, userId, AuthCodec.Encrypt(c, auth, iv).value, status, now)
  {
    var blob :- AuthCodec.Encrypt(c, auth, iv);
    Ok(Upsert(t, sessionId, userId, blob, status, now))
  }

  /** A row as the getters hand it out: the blob decrypted into `auth`. */
  datatype Session = Session(sessionId: string, userId: Option<int>, status: string, auth: Value, createdAt: int, updatedAt: int)

  /** `row.auth_blob ? decrypt(row.auth_blob) : null`. */
  function Open(c: AuthCodec.Config, row: Row): (r: Result<Session>)
    ensures r.Ok? ==> (r.value.sessionId == row.sessionId && r.value.userId == row.userId && r.value.status == row.status
      && r.value.createdAt == row.createdAt && r.value.updatedAt == row.updatedAt)
    ensures |row.blob| == 0 ==> r.Ok? && r.value.auth == JNull
    ensures |row.blob| > 0 ==> (r.Ok? <==> AuthCodec.Decrypt(c, row.blob).Ok?)
    ensures |row.blob| > 0 && r.Ok? ==> r.value.auth == AuthCodec.Decrypt(c, row.blob).value
  {
    var auth :- if |row.blob| > 0 then AuthCodec.Decrypt(c, row.blob) else Ok(JNull);
    Ok(Session(row.sessionId, row.userId, row.status, auth, row.createdAt, row.updatedAt))
  }

  /** `getSession(sessionId)`: no session for an absent id, otherwise the
      opened row with that id; Err where its blob does not decrypt. */
  function GetSession(c: AuthCodec.Config, t: Table, sessionId: string): (r: Result<Option<Session>>)
    ensures r == Ok(None) <==> forall i :: 0 <= i < |t.rows| ==> t.rows[i].sessionId != sessionId
    ensures r.Ok? && r.value.Some? ==>
      exists i :: (0 <= i < |t.rows| && t.rows[i].sessionId == sessionId && Open(c, t.rows[i]) == Ok(r.value.value))
    ensures r.Err? ==>
      exists i :: (0 <= i < |t.rows| && t.rows[i].sessionId == sessionId && Open(c, t.rows[i]) == Err(r.error))
    ensures (forall i :: 0 <= i < |t.rows| && t.rows[i].sessionId == sessionId ==> Open(c, t.rows[i]).Ok?) ==> r.Ok?
  {
    match IndexOf(t.rows, sessionId)
    case None => Ok(None)
    case Some(i) =>
      var s :- Open(c, t.rows[i]);
      Ok(Some(s))
  }

  /** Which rows a "latest session of the user" query considers: `userId = ?`
      never holds for a null user, and the Pending/Linked variants also
      fix the status. */
  predicate Selected(row: Row, userId: Option<int>, status: Option<string>) {
    userId.Some? && row.userId == userId && (status.None? || row.status == status.value)
  }

  /** A selected row no other selected row was updated after. */
  predicate LatestSelected(rows: seq<Row>, i: int, userId: Option<int>, status: Option<string>) {
    && 0 <= i < |rows| && Selected(rows[i], userId, status)
    && forall j :: 0 <= j < |rows| && Selected(rows[j], userId, status) ==> rows[j].updatedAt <= rows[i].updatedAt
  }

  /** `getLatestSessionByUserId(userId)` (status None),
      `getPendingSessionByUserId` (Some("PENDING")) and
      `getLinkedSessionByUserId` (Some("LINKED")): the selected row with the
      latest `updatedAt`, ties to any of them, opened. A blob that does not
      decrypt throws inside the driver's callback, here an Err. */
  function GetLatest(c: AuthCodec.Config, t: Table, userId: Option<int>, status: Option<string>): (r: Result<Option<Session>>)
    ensures r == Ok(None) <==> forall i :: 0 <= i < |t.rows| ==> !Selected(t.rows[i], userId, status)
    ensures r.Ok? && r.value.Some? ==>
      exists i :: LatestSelected(t.rows, i, userId, status) && Open(c, t.rows[i]) == Ok(r.value.value)
    ensures r.Err? ==>
      exists i :: LatestSelected(t.rows, i, userId, status) && Open(c, t.rows[i]) == Err(r.error)
    ensures (forall i :: 0 <= i < |t.rows| && Selected(t.rows[i], userId, status) ==> Open(c, t.rows[i]).Ok?) ==> r.Ok?
  {
    match LatestRow(t, userId, status)
    case None => Ok(None)
    case Some(i) =>
      var s :- Open(c, t.rows[i]);
      Ok(Some(s))
  }

  /** The `ORDER BY updatedAt DESC LIMIT 1` row of the query, by index. */
  function LatestRow(t: Table, userId: Option<int>, status: Option<string>): (r: Option<nat>)
    ensures r.None? <==> forall i :: 0 <= i < |t.rows| ==> !Selected(t.rows[i], userId, status)
    ensures r.Some? ==> LatestSelected(t.rows, r.value, userId, status)
  {
    LatestIn(t.rows, userId, status)
  }

  function LatestIn(rows: seq<Row>, userId: Option<int>, status: Option<string>): (r: Option<nat>)
    ensures r.None? <==> forall i :: 0 <= i < |rows| ==> !Selected(rows[i], userId, status)
    ensures r.Some? ==> LatestSelected(rows, r.value, userId, status)
  {
    if |rows| == 0 then None
    else
      var last := |rows| - 1;
      var prev := LatestIn(rows[..last], userId, status);
      assert forall i :: 0 <= i < last ==> rows[..last][i] == rows[i];
      if !Selected(rows[last], userId, status) then prev
      else if prev.None? || rows[prev.value].updatedAt <= rows[last].updatedAt then Some(last)
      else prev
  }

  /** `getAllSessions()`: every row opened; Err when any blob does not
      decrypt. */
  function GetAll(c: AuthCodec.Config, t: Table): (r: Result<seq<Session>>)
    ensures r.Ok? <==> forall i :: 0 <= i < |t.rows| ==> Open(c, t.rows[i]).Ok?
    ensures r.Ok? ==> |r.value| == |t.rows| && forall i :: 0 <= i < |t.rows| ==> r.value[i] == Open(c, t.rows[i]).value
    decreases |t.rows|
  {
    if |t.rows| == 0 then Ok([])
    else
      var init := Table(t.rows[..|t.rows| - 1]);
      var rest := GetAll(c, init);
      assert forall i :: 0 <= i < |init.rows| ==> init.rows[i] == t.rows[i];
      var last := Open(c, t.rows[|t.rows| - 1]);
      if rest.Err? then rest
      else if last.Err? then Err(last.error)
      else Ok(rest.value + [last.value])
  }

  /** `deleteSession(sessionId)`: the rows without that id, and the number
      of rows removed. */
  function Delete(t: Table, sessionId: string): (r: (nat, Table))
    requires Valid(t)
    ensures Valid(r.1)
    ensures forall row :: row in r.1.rows <==> row in t.rows && row.sessionId != sessionId
    ensures r.0 == (if exists i :: 0 <= i < |t.rows| && t.rows[i].sessionId == sessionId then 1 else 0)
  {
    var rows := Seqs.Filter(t.rows, Other(sessionId));
    FilterKeepsUnique(t.rows, sessionId);
    (if IndexOf(t.rows, sessionId).Some? then 1 else 0, Table(rows))
  }

  /** The WHERE clause of the DELETE, negated: the rows it keeps. */
  function Other(sessionId: string): Row -> bool {
    (row: Row) => row.sessionId != sessionId
  }

  lemma {:induction false} FilterKeepsUnique(rows: seq<Row>, sessionId: string)
    requires Valid(Table(rows))
    ensures Valid(Table(Seqs.Filter(rows, Other(sessionId))))
  {
    if |rows| > 0 {
      var tail := rows[1..];
      TailUnique(rows);
      FilterKeepsUnique(tail, sessionId);
      var rest := Seqs.Filter(tail, Other(sessionId));
      assert rows == [rows[0]] + tail;
      if Other(sessionId)(rows[0]) {
        assert Seqs.Filter(rows, Other(sessionId)) == [rows[0]] + rest;
        ConsUnique(rows[0], rest);
      } else {
        assert Seqs.Filter(rows, Other(sessionId)) == rest;
      }
    }
  }

  /** The rows after the first are unique, and none shares the first's id. */
  lemma TailUnique(rows: seq<Row>)
    requires Valid(Table(rows)) && |rows| > 0
    ensures Valid(Table(rows[1..]))
    ensures forall x :: x in rows[1..] ==> x.sessionId != rows[0].sessionId
  {
    forall x | x in rows[1..] ensures x.sessionId != rows[0].sessionId {
      var k :| 0 <= k < |rows[1..]| && rows[1..][k] == x;
      assert rows[k + 1] == x;
    }
  }

  /** A row in front of unique rows without its id keeps them unique. */
  lemma ConsUnique(r: Row, rest: seq<Row>)
    requires Valid(Table(rest))
    requires forall x :: x in rest ==> x.sessionId != r.sessionId
    ensures Valid(Table([r] + rest))
  {
    var rows := [r] + rest;
    forall i, j | 0 <= i < j < |rows| ensures rows[i].sessionId != rows[j].sessionId {
      assert rows[j] == rest[j - 1];
      if i > 0 {
        assert rows[i] == rest[i - 1];
      }
    }
  }

  /** Saving an auth state and reading the session back gives the user, the
      status and the state as the code as written reads it
      (`BufferJson.AsRead`): the state itself when every buffer in it is a
      Node `Buffer`. */
  lemma SaveThenGet(c: AuthCodec.Config, t: Table, sessionId: string, auth: Value, userId: Option<int>,
                    status: string, iv: Bytes, now: int)
    requires Valid(t) && |iv| == 12
    requires AuthCodec.AeadInverts(c.aead) && AuthCodec.TextRoundTrips(c.text)
    requires AuthCodec.KeyConfigured(c) ==> |AuthCodec.KeyBytes(c)| == 32
    requires TagFree(auth)
    ensures var saved := SaveOrUpdate(c, t, sessionId, auth, userId, status, iv, now);
      saved.Ok? && GetSession(c, saved.value, sessionId).Ok?
      && var s := GetSession(c, saved.value, sessionId).value;
      s.Some? && s.value.auth == BufferJson.AsRead(auth) && s.value.userId == userId && s.value.status == status
      && s.value.updatedAt == now
      && (NodeBuffersOnly(auth) ==> s.value.auth == auth)
  {
    AuthCodec.RoundTrip(c, auth, iv);
    BlobNonEmpty(c, auth, iv);
    var saved := SaveOrUpdate(c, t, sessionId, auth, userId, status, iv, now);
    var i := IndexOf(saved.value.rows, sessionId).value;
  }

  /** Every stored blob is non-empty: the serialized text is never empty,
      and the empty blob decodes to no bytes. */
  lemma BlobNonEmpty(c: AuthCodec.Config, auth: Value, iv: Bytes)
    requires |iv| == 12 && AuthCodec.AeadInverts(c.aead) && AuthCodec.TextRoundTrips(c.text)
    requires AuthCodec.KeyConfigured(c) ==> |AuthCodec.KeyBytes(c)| == 32
    ensures AuthCodec.Encrypt(c, auth, iv).Ok? && |AuthCodec.Encrypt(c, auth, iv).value| > 0
  {
    var text := AuthCodec.Serialized(c, auth);
    assert |text| > 0;
    AuthCodec.PlaintextOfBlob(c, text, iv);
    if AuthCodec.Encrypt(c, auth, iv).value == "" {
      Base64.DecodeNoSextets("");
    }
  }

  /** `saveOrUpdateSession(id, null, …)`, as `createSessionController`
      calls it, stores a non-empty blob, and `getSession` then reports a
      null auth. */
  lemma SaveNullThenGet(c: AuthCodec.Config, t: Table, sessionId: string, userId: Option<int>,
                        status: string, iv: Bytes, now: int)
    requires Valid(t) && |iv| == 12
    requires AuthCodec.AeadInverts(c.aead) && AuthCodec.TextRoundTrips(c.text)
    requires AuthCodec.KeyConfigured(c) ==> |AuthCodec.KeyBytes(c)| == 32
    ensures var saved := SaveOrUpdate(c, t, sessionId, JNull, userId, status, iv, now);
      saved.Ok?
      && (forall i :: 0 <= i < |saved.value.rows| && saved.value.rows[i].sessionId == sessionId ==> |saved.value.rows[i].blob| > 0)
      && GetSession(c, saved.value, sessionId).Ok?
      && var s := GetSession(c, saved.value, sessionId).value;
      s.Some? && s.value.auth == JNull
  {
    AuthCodec.NullAuth(c, iv);
    var saved := SaveOrUpdate(c, t, sessionId, JNull, userId, status, iv, now);
    var i := IndexOf(saved.value.rows, sessionId).value;
  }

  /** After `deleteSession`, `getSession` finds nothing. */
  lemma DeleteThenGet(c: AuthCodec.Config, t: Table, sessionId: string)
    requires Valid(t)
    ensures GetSession(c, Delete(t, sessionId).1, sessionId) == Ok(None)
  {
    var t' := Delete(t, sessionId).1;
    forall i | 0 <= i < |t'.rows| ensures t'.rows[i].sessionId != sessionId {
      assert t'.rows[i] in t'.rows;
    }
  }
}
