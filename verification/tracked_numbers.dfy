/** The `trackedNumber` table and its queries
    (src/models/trackedNumbersModel.js). A user tracks a phone number at
    most once: the table is UNIQUE on (userId, phoneNumber)
    (src/models/initDatabase.js:27). */
module TrackedNumbers {
  import opened Base
  import Seqs
  import StatusLog

  datatype Row = Row(id: nat, userId: int, phoneNumber: string, createdAt: int)

  /** The rows and the next AUTOINCREMENT id. */
  datatype Table = Table(rows: seq<Row>, nextId: nat)

  predicate Valid(t: Table) {
    && (forall i, j :: 0 <= i < j < |t.rows| ==> t.rows[i].id < t.rows[j].id)
    && (forall i :: 0 <= i < |t.rows| ==> t.rows[i].id < t.nextId)
    && (forall i, j :: 0 <= i < j < |t.rows| ==>
          !(t.rows[i].userId == t.rows[j].userId && t.rows[i].phoneNumber == t.rows[j].phoneNumber))
  }

  predicate Tracks(r: Row, userId: int, phoneNumber: string) {
    r.userId == userId && r.phoneNumber == phoneNumber
  }

  /** The index of the row for the pair, if any. */
  function Find(rows: seq<Row>, userId: int, phoneNumber: string): (r: Option<nat>)
    ensures r.Some? ==> r.value < |rows| && Tracks(rows[r.value], userId, phoneNumber)
    ensures r.None? <==> forall i :: 0 <= i < |rows| ==> !Tracks(rows[i], userId, phoneNumber)
  {
    if |rows| == 0 then None
    else if Tracks(rows[|rows| - 1], userId, phoneNumber) then Some(|rows| - 1)
    else Find(rows[..|rows| - 1], userId, phoneNumber)
  }

  /** `findOrCreateTrackedNumber(userId, phoneNumber)` at second now: the
      id of the pair's row, inserting the row first when there is none. The
      conflict branch rewrites `createdAt` with itself, so an existing row is
      left as it is. */
  function FindOrCreate(t: Table, userId: int, phoneNumber: string, now: int): (r: (nat, Table))
    requires Valid(t)
    ensures Valid(r.1)
    ensures exists i :: 0 <= i < |r.1.rows| && Tracks(r.1.rows[i], userId, phoneNumber) && r.1.rows[i].id == r.0
    ensures (exists i :: 0 <= i < |t.rows| && Tracks(t.rows[i], userId, phoneNumber)) ==> r.1 == t
    ensures (forall i :: 0 <= i < |t.rows| ==> !Tracks(t.rows[i], userId, phoneNumber)) ==>
      r.1.rows == t.rows + [Row(t.nextId, userId, phoneNumber, now)] && r.1.nextId == t.nextId + 1
      && r.0 == t.nextId && forall i :: 0 <= i < |t.rows| ==> t.rows[i].id != r.0
  {
    match Find(t.rows, userId, phoneNumber)
    case Some(i) => (t.rows[i].id, t)
    case None =>
      var row := Row(t.nextId, userId, phoneNumber, now);
      var t' := Table(t.rows + [row], t.nextId + 1);
      assert t'.rows[|t.rows|] == row;
      (t.nextId, t')
  }

  /** A second `findOrCreateTrackedNumber` for the same pair returns the
      same id and changes nothing. */
  lemma FindOrCreateIdempotent(t: Table, userId: int, phoneNumber: string, now: int, later: int)
    requires Valid(t)
    ensures var (id, t1) := FindOrCreate(t, userId, phoneNumber, now);
      FindOrCreate(t1, userId, phoneNumber, later) == (id, t1)
  {
    var (id, t1) := FindOrCreate(t, userId, phoneNumber, now);
    var i :| 0 <= i < |t1.rows| && Tracks(t1.rows[i], userId, phoneNumber) && t1.rows[i].id == id;
    var j := Find(t1.rows, userId, phoneNumber).value;
  }

  /** `getTrackedPhoneNumbersByUser(userId)`: the numbers the user tracks,
      each once, in table order. */
  function GetTrackedPhoneNumbersByUser(t: Table, userId: int): (r: seq<string>)
    requires Valid(t)
    ensures forall p :: p in r <==> exists i :: 0 <= i < |t.rows| && Tracks(t.rows[i], userId, p)
    ensures forall i, j :: 0 <= i < j < |r| ==> r[i] != r[j]
  {
    PhonesOf(t.rows, userId)
  }

  function PhonesOf(rows: seq<Row>, userId: int): (r: seq<string>)
    requires forall i, j :: 0 <= i < j < |rows| ==>
      !(rows[i].userId == rows[j].userId && rows[i].phoneNumber == rows[j].phoneNumber)
    ensures forall p :: p in r <==> exists i :: 0 <= i < |rows| && Tracks(rows[i], userId, p)
    ensures forall i, j :: 0 <= i < j < |r| ==> r[i] != r[j]
  {
    if |rows| == 0 then []
    else
      var init := rows[..|rows| - 1];
      var last := rows[|rows| - 1];
      var rest := PhonesOf(init, userId);
      assert forall i :: 0 <= i < |init| ==> init[i] == rows[i];
      if last.userId == userId then
        assert forall i :: 0 <= i < |init| ==> !Tracks(init[i], userId, last.phoneNumber);
        assert last.phoneNumber !in rest;
        rest + [last.phoneNumber]
      else rest
  }

  /** `getTrackingIdByPhoneNumber(phoneNumber)`: the id of a row with that
      number, under any user; None when no user tracks it. */
  function GetTrackingIdByPhoneNumber(t: Table, phoneNumber: string): (r: Option<nat>)
    ensures r.None? <==> forall i :: 0 <= i < |t.rows| ==> t.rows[i].phoneNumber != phoneNumber
    ensures r.Some? ==> exists i :: 0 <= i < |t.rows| && t.rows[i].phoneNumber == phoneNumber && t.rows[i].id == r.value
  {
    var row := FirstWith(t.rows, (n: Row) => n.phoneNumber == phoneNumber);
    if row.Some? then Some(row.value.id) else None
  }

  /** The first row satisfying p. */
  function FirstWith(rows: seq<Row>, p: Row -> bool): (r: Option<Row>)
    ensures r.Some? ==> r.value in rows && p(r.value)
    ensures r.None? <==> forall i :: 0 <= i < |rows| ==> !p(rows[i])
  {
    if |rows| == 0 then None
    else if p(rows[0]) then Some(rows[0])
    else
      var r := FirstWith(rows[1..], p);
      assert forall i :: 1 <= i < |rows| ==> rows[i] == rows[1..][i - 1];
      r
  }

  /** One row of `getTrackedNumbersByUser`: the tracked number and the
      status-log row with the latest online time for its phone number (the
      LEFT JOIN on `phoneNumber = trackingId` with `rn = 1`). */
  datatype View = View(number: Row, latest: Option<StatusLog.Row>, isOnline: bool)

  /** The status-log row with the latest online time for a key; ties go to
      any of them. */
  function Latest(log: StatusLog.Table, key: string): (r: Option<StatusLog.Row>)
    ensures r.None? <==> forall i :: 0 <= i < |log.rows| ==> log.rows[i].trackingId != key
    ensures r.Some? ==> r.value in log.rows && r.value.trackingId == key
    ensures r.Some? ==> forall i :: 0 <= i < |log.rows| && log.rows[i].trackingId == key ==>
      log.rows[i].onlineTime <= r.value.onlineTime
  {
    var rows := Seqs.Filter(log.rows, (l: StatusLog.Row) => l.trackingId == key);
    var r := Seqs.Newest(rows, (l: StatusLog.Row) => l.onlineTime);
    assert forall i :: 0 <= i < |log.rows| && log.rows[i].trackingId == key ==> log.rows[i] in rows;
    r
  }

  function ViewOf(log: StatusLog.Table, n: Row): (v: View)
    ensures v.number == n
  {
    var latest := Latest(log, n.phoneNumber);
    View(n, latest, latest.Some? && latest.value.offlineTime.None?)
  }

  /** `getTrackedNumbersByUser(userId)`: every number the user tracks, newest
      first by `createdAt`, with its latest interval; `isOnline` is 1 when
      that interval is still open. */
  function GetTrackedNumbersByUser(t: Table, log: StatusLog.Table, userId: int): (r: seq<View>)
    ensures Seqs.SortedDesc(r, (v: View) => v.number.createdAt)
    ensures multiset(Seqs.Map(r, NumberOf)) == multiset(Seqs.Filter(t.rows, UserIs(userId)))
    ensures forall i :: 0 <= i < |r| ==> r[i].latest == Latest(log, r[i].number.phoneNumber)
    ensures forall i :: 0 <= i < |r| ==> (r[i].isOnline <==> r[i].latest.Some? && StatusLog.IsOpen(r[i].latest.value))
  {
    var mine := Seqs.Filter(t.rows, UserIs(userId));
    var sorted := Seqs.SortDesc(mine, (n: Row) => n.createdAt);
    var r := Seqs.Map(sorted, (n: Row) => ViewOf(log, n));
    assert Seqs.Map(r, NumberOf) == sorted;
    r
  }

  function NumberOf(v: View): Row {
    v.number
  }

  /** The WHERE clause `userId = ?`. */
  function UserIs(userId: int): Row -> bool {
    (n: Row) => n.userId == userId
  }

  /** A tracked number of the user is online in `getTrackedNumbersByUser`
      exactly when its latest interval is open. */
  lemma OnlineIffLatestOpen(t: Table, log: StatusLog.Table, userId: int, n: Row)
    requires n in t.rows && n.userId == userId
    ensures exists v :: v in GetTrackedNumbersByUser(t, log, userId) && v.number == n
    ensures forall v :: v in GetTrackedNumbersByUser(t, log, userId) && v.number == n ==>
      (v.isOnline <==> Latest(log, n.phoneNumber).Some? && StatusLog.IsOpen(Latest(log, n.phoneNumber).value))
  {
    RowHasView(t, log, userId, n);
    var r := GetTrackedNumbersByUser(t, log, userId);
    forall v | v in r && v.number == n
      ensures v.isOnline <==> Latest(log, n.phoneNumber).Some? && StatusLog.IsOpen(Latest(log, n.phoneNumber).value)
    {
      var i :| 0 <= i < |r| && r[i] == v;
    }
  }

  lemma RowHasView(t: Table, log: StatusLog.Table, userId: int, n: Row)
    requires n in t.rows && n.userId == userId
    ensures exists v :: v in GetTrackedNumbersByUser(t, log, userId) && v.number == n
  {
    var r := GetTrackedNumbersByUser(t, log, userId);
    var numbers := Seqs.Map(r, NumberOf);
    var mine := Seqs.Filter(t.rows, UserIs(userId));
    assert n in mine;
    MemberOfSame(mine, numbers, n);
    var i :| 0 <= i < |numbers| && numbers[i] == n;
    assert r[i] in r && r[i].number == n;
  }

  /** The views of `getTrackedNumbersByUser` are the user's rows of the
      table, every one of them. */
  lemma ViewsCoverUser(t: Table, log: StatusLog.Table, userId: int)
    ensures forall v :: v in GetTrackedNumbersByUser(t, log, userId) ==> v.number in t.rows && v.number.userId == userId
    ensures forall n :: n in t.rows && n.userId == userId ==>
      exists v :: v in GetTrackedNumbersByUser(t, log, userId) && v.number == n
  {
    var r := GetTrackedNumbersByUser(t, log, userId);
    forall v | v in r ensures v.number in t.rows && v.number.userId == userId {
      ViewIsRow(t, log, userId, v);
    }
    forall n | n in t.rows && n.userId == userId ensures exists v :: v in r && v.number == n {
      OnlineIffLatestOpen(t, log, userId, n);
    }
  }

  lemma ViewIsRow(t: Table, log: StatusLog.Table, userId: int, v: View)
    requires v in GetTrackedNumbersByUser(t, log, userId)
    ensures v.number in t.rows && v.number.userId == userId
  {
    var r := GetTrackedNumbersByUser(t, log, userId);
    var numbers := Seqs.Map(r, NumberOf);
    var mine := Seqs.Filter(t.rows, UserIs(userId));
    var i :| 0 <= i < |r| && r[i] == v;
    assert numbers[i] == v.number;
    MemberOfSame(numbers, mine, v.number);
  }

  /** Sequences with one multiset have the same elements. */
  lemma MemberOfSame(a: seq<Row>, b: seq<Row>, x: Row)
    requires multiset(a) == multiset(b) && x in a
    ensures x in b
  {
    assert x in multiset(a);
    assert x in multiset(b);
  }

  /** One row of `getRecentActivityByUserId`: an interval and the phone
      number of the tracked number it was joined to. */
  datatype Activity = Activity(interval: StatusLog.Row, phoneNumber: string)

  /** The tracked number whose id, written in decimal, is the key; ids are
      unique, so there is at most one. */
  function OwnerOf(t: Table, key: string): (r: Option<Row>)
    ensures r.Some? ==> r.value in t.rows && NatToString(r.value.id) == key
    ensures r.None? <==> forall i :: 0 <= i < |t.rows| ==> NatToString(t.rows[i].id) != key
  {
    FirstWith(t.rows, (n: Row) => NatToString(n.id) == key)
  }

  predicate OwnedBy(t: Table, userId: int, l: StatusLog.Row) {
    var o := OwnerOf(t, l.trackingId);
    o.Some? && o.value.userId == userId
  }

  function ActivityOf(t: Table, l: StatusLog.Row): Activity {
    var o := OwnerOf(t, l.trackingId);
    Activity(l, if o.Some? then o.value.phoneNumber else "")
  }

  /** The JOIN and WHERE of `getRecentActivityByUserId`, in table order. */
  function Joined(t: Table, log: StatusLog.Table, userId: int): (acts: seq<Activity>)
    ensures forall a :: a in acts <==> a.interval in log.rows && OwnedBy(t, userId, a.interval) && a == ActivityOf(t, a.interval)
  {
    JoinRows(t, log.rows, userId)
  }

  function JoinRows(t: Table, rows: seq<StatusLog.Row>, userId: int): (acts: seq<Activity>)
    ensures forall a :: a in acts <==> a.interval in rows && OwnedBy(t, userId, a.interval) && a == ActivityOf(t, a.interval)
  {
    if |rows| == 0 then []
    else
      var rest := JoinRows(t, rows[1..], userId);
      assert forall l :: l in rows <==> l == rows[0] || l in rows[1..];
      if OwnedBy(t, userId, rows[0]) then [ActivityOf(t, rows[0])] + rest else rest
  }

  /** The joined rows of `getRecentActivityByUserId` before the LIMIT. */
  function RecentActivity(t: Table, log: StatusLog.Table, userId: int): (r: seq<Activity>)
    ensures Seqs.SortedDesc(r, (a: Activity) => a.interval.onlineTime)
    ensures forall a :: a in r <==> a.interval in log.rows && OwnedBy(t, userId, a.interval) && a == ActivityOf(t, a.interval)
  {
    var acts := Joined(t, log, userId);
    var sorted := Seqs.SortDesc(acts, (a: Activity) => a.interval.onlineTime);
    assert forall a :: a in sorted <==> a in acts by {
      forall a ensures a in sorted <==> a in acts {
        assert a in sorted <==> a in multiset(sorted);
        assert a in acts <==> a in multiset(acts);
      }
    }
    sorted
  }

  /** `getRecentActivityByUserId(userId, limit)`: the intervals whose
      `trackingId` equals the id of one of the user's tracked numbers,
      latest online time first, at most `limit` of them (SQLite reads a
      negative limit as none). */
  function GetRecentActivityByUserId(t: Table, log: StatusLog.Table, userId: int, limit: int): (r: seq<Activity>)
    ensures limit >= 0 ==> |r| <= limit
    ensures Seqs.SortedDesc(r, (a: Activity) => a.interval.onlineTime)
    ensures forall a :: a in r ==> a.interval in log.rows && OwnedBy(t, userId, a.interval) && a == ActivityOf(t, a.interval)
    ensures limit < 0 || limit >= |RecentActivity(t, log, userId)| ==>
      forall l :: l in log.rows && OwnedBy(t, userId, l) ==> ActivityOf(t, l) in r
  {
    var all := RecentActivity(t, log, userId);
    Seqs.TakeKeepsLargest(all, limit, (a: Activity) => a.interval.onlineTime);
    var r := Seqs.Take(all, limit);
    assert forall a :: a in r ==> a in all by {
      forall a | a in r ensures a in all {
        assert a in multiset(r);
      }
    }
    r
  }

  /** The intervals `getRecentActivityByUserId` leaves out are no later
      than any it keeps. */
  lemma RecentActivityKeepsLatest(t: Table, log: StatusLog.Table, userId: int, limit: int)
    ensures var r := GetRecentActivityByUserId(t, log, userId, limit);
      forall l, a :: l in log.rows && OwnedBy(t, userId, l) && ActivityOf(t, l) !in r && a in r ==>
        l.onlineTime <= a.interval.onlineTime
  {
    var all := RecentActivity(t, log, userId);
    var r := Seqs.Take(all, limit);
    Seqs.TakeKeepsLargest(all, limit, (a: Activity) => a.interval.onlineTime);
    forall l, a | l in log.rows && OwnedBy(t, userId, l) && ActivityOf(t, l) !in r && a in r
      ensures l.onlineTime <= a.interval.onlineTime
    {
      var x := ActivityOf(t, l);
      assert x in multiset(all);
      assert x !in multiset(r);
      assert x in multiset(all) - multiset(r);
    }
  }
}
