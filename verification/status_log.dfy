/** The `statusLog` table and its queries (src/models/watrackModel.js): one
    row per online interval of a tracked number, open while its offline time
    is null.

    Times are whole seconds: `logStatus` stores `moment()` formatted as
    'YYYY-MM-DD HH:mm:ss', and SQLite orders that text chronologically. The
    `trackingId` column receives the participant's phone text (see
    src/utils/whatsapp.js:250), so the model keys rows by a string. */
module StatusLog {
  import opened Base
  import Seqs

  datatype Row = Row(id: nat, trackingId: string, onlineTime: int, offlineTime: Option<int>, duration: Option<int>)

  /** The rows and the next AUTOINCREMENT id. */
  datatype Table = Table(rows: seq<Row>, nextId: nat)

  /** Ids grow along the table and stay below the next id. */
  predicate Valid(t: Table) {
    (forall i, j :: 0 <= i < j < |t.rows| ==> t.rows[i].id < t.rows[j].id)
    && (forall i :: 0 <= i < |t.rows| ==> t.rows[i].id < t.nextId)
  }

  predicate IsOpen(r: Row) {
    r.offlineTime.None?
  }

  predicate OpenFor(r: Row, trackingId: string) {
    r.trackingId == trackingId && IsOpen(r)
  }

  /** The seconds `moment().format('YYYY-MM-DD HH:mm:ss')` keeps of a clock
      reading in milliseconds (time zone left aside). */
  function Stamp(nowMs: int): int {
    nowMs / 1000
  }

  /** The index of the open row for trackingId with the largest id:
      `… WHERE trackingId = ? AND offlineTime IS NULL ORDER BY id DESC LIMIT 1`. */
  function NewestOpen(rows: seq<Row>, trackingId: string): (r: Option<nat>)
    ensures r.Some? ==> (r.value < |rows| && OpenFor(rows[r.value], trackingId)
      && forall j :: r.value < j < |rows| ==> !OpenFor(rows[j], trackingId))
    ensures r.None? ==> forall j :: 0 <= j < |rows| ==> !OpenFor(rows[j], trackingId)
  {
    if |rows| == 0 then None
    else if OpenFor(rows[|rows| - 1], trackingId) then Some(|rows| - 1)
    else NewestOpen(rows[..|rows| - 1], trackingId)
  }

  /** `logStatus(trackingId, status)` at clock reading nowMs. "available"
      opens a new interval (even when one is already open); "unavailable"
      closes the newest open interval with `duration = now - onlineTime`
      seconds, never clamped; every other status is ignored. */
  function LogStatus(t: Table, trackingId: string, status: string, nowMs: int): (t': Table)
    requires Valid(t)
    ensures Valid(t')
    ensures status == "available" ==>
      t'.rows == t.rows + [Row(t.nextId, trackingId, Stamp(nowMs), None, None)] && t'.nextId == t.nextId + 1
    ensures status != "available" ==> t'.nextId == t.nextId && |t'.rows| == |t.rows|
    ensures status != "available" && status != "unavailable" ==> t' == t
    ensures status == "unavailable" && (forall i :: 0 <= i < |t.rows| ==> !OpenFor(t.rows[i], trackingId)) ==> t' == t
  {
    var now := Stamp(nowMs);
    if status == "available" then
      Table(t.rows + [Row(t.nextId, trackingId, now, None, None)], t.nextId + 1)
    else if status == "unavailable" then
      match NewestOpen(t.rows, trackingId)
      case None => t
      case Some(i) =>
        var r := t.rows[i];
        Table(t.rows[i := r.(offlineTime := Some(now), duration := Some(now - r.onlineTime))], t.nextId)
    else t
  }

  /** "unavailable" closes exactly one row when an interval is open: the
      open row of that number with the largest id, which gets offline time
      now and duration now - onlineTime; every other row is unchanged. */
  lemma UnavailableClosesNewest(t: Table, trackingId: string, nowMs: int, i: nat)
    requires Valid(t) && i < |t.rows| && OpenFor(t.rows[i], trackingId)
    requires forall j :: 0 <= j < |t.rows| && OpenFor(t.rows[j], trackingId) ==> t.rows[j].id <= t.rows[i].id
    ensures var t' := LogStatus(t, trackingId, "unavailable", nowMs);
      && t'.rows[i] == t.rows[i].(offlineTime := Some(Stamp(nowMs)), duration := Some(Stamp(nowMs) - t.rows[i].onlineTime))
      && (forall j :: 0 <= j < |t.rows| && j != i ==> t'.rows[j] == t.rows[j])
  {
    assert NewestOpen(t.rows, trackingId) == Some(i);
  }

  /** Online at 100 s and offline at 160 s gives a duration of 60 s. */
  lemma DurationExample()
    ensures var t := LogStatus(Table([Row(1, "919000000001", 100, None, None)], 2), "919000000001", "unavailable", 160_000);
      t.rows[0].duration == Some(60) && t.rows[0].offlineTime == Some(160)
  {
  }

  /** When the clock moved back the duration is negative: nothing clamps it. */
  lemma DurationNotClamped()
    ensures var t := LogStatus(Table([Row(1, "919000000001", 100, None, None)], 2), "919000000001", "unavailable", 90_000);
      t.rows[0].duration == Some(-10)
  {
  }

  /** How many intervals of the number are open. */
  function OpenCount(rows: seq<Row>, trackingId: string): (n: nat)
    ensures n <= |rows|
    ensures n == 0 <==> forall j :: 0 <= j < |rows| ==> !OpenFor(rows[j], trackingId)
  {
    if |rows| == 0 then 0
    else OpenCount(rows[..|rows| - 1], trackingId) + (if OpenFor(rows[|rows| - 1], trackingId) then 1 else 0)
  }

  lemma {:induction false} OpenCountAppend(rows: seq<Row>, r: Row, trackingId: string)
    ensures OpenCount(rows + [r], trackingId) == OpenCount(rows, trackingId) + (if OpenFor(r, trackingId) then 1 else 0)
  {
    assert (rows + [r])[..|rows|] == rows;
  }

  /** Replacing row i changes the count by what the two rows contribute. */
  lemma {:induction false} OpenCountUpdate(rows: seq<Row>, i: nat, r: Row, trackingId: string)
    requires i < |rows|
    ensures OpenCount(rows[i := r], trackingId) + (if OpenFor(rows[i], trackingId) then 1 else 0)
         == OpenCount(rows, trackingId) + (if OpenFor(r, trackingId) then 1 else 0)
  {
    var last := |rows| - 1;
    var updated := rows[i := r];
    assert OpenCount(updated, trackingId)
        == OpenCount(updated[..last], trackingId) + (if OpenFor(updated[last], trackingId) then 1 else 0);
    assert OpenCount(rows, trackingId)
        == OpenCount(rows[..last], trackingId) + (if OpenFor(rows[last], trackingId) then 1 else 0);
    if i == last {
      assert updated[..last] == rows[..last] by {
        forall j | 0 <= j < last ensures updated[..last][j] == rows[..last][j] { }
      }
    } else {
      assert updated[..last] == rows[..last][i := r] by {
        forall j | 0 <= j < last ensures updated[..last][j] == rows[..last][i := r][j] { }
      }
      assert OpenCount(rows[..last][i := r], trackingId) + (if OpenFor(rows[..last][i], trackingId) then 1 else 0)
          == OpenCount(rows[..last], trackingId) + (if OpenFor(r, trackingId) then 1 else 0) by {
        OpenCountUpdate(rows[..last], i, r, trackingId);
      }
    }
  }

  /** "available" adds one open interval of its own number and none of any
      other. */
  lemma OpenCountAvailable(t: Table, trackingId: string, nowMs: int, other: string)
    requires Valid(t) && other != trackingId
    ensures var t' := LogStatus(t, trackingId, "available", nowMs);
      OpenCount(t'.rows, trackingId) == OpenCount(t.rows, trackingId) + 1
      && OpenCount(t'.rows, other) == OpenCount(t.rows, other)
  {
    var r := Row(t.nextId, trackingId, Stamp(nowMs), None, None);
    OpenCountAppend(t.rows, r, trackingId);
    OpenCountAppend(t.rows, r, other);
  }

  /** "unavailable" closes one open interval of its own number when there
      is one, and touches no other number's. */
  lemma OpenCountUnavailable(t: Table, trackingId: string, nowMs: int, other: string)
    requires Valid(t) && other != trackingId
    ensures var t' := LogStatus(t, trackingId, "unavailable", nowMs);
      OpenCount(t'.rows, trackingId) == (if OpenCount(t.rows, trackingId) > 0 then OpenCount(t.rows, trackingId) - 1 else 0)
      && OpenCount(t'.rows, other) == OpenCount(t.rows, other)
  {
    var k := NewestOpen(t.rows, trackingId);
    if k.Some? {
      var now := Stamp(nowMs);
      var r := t.rows[k.value];
      var closed := r.(offlineTime := Some(now), duration := Some(now - r.onlineTime));
      assert LogStatus(t, trackingId, "unavailable", nowMs).rows == t.rows[k.value := closed];
      OpenCountUpdate(t.rows, k.value, closed, trackingId);
      OpenCountUpdate(t.rows, k.value, closed, other);
    }
  }

  /** Two "available" events in a row leave two more open intervals. */
  lemma AvailableTwice(t: Table, trackingId: string, nowMs: int, laterMs: int)
    requires Valid(t)
    ensures var t2 := LogStatus(LogStatus(t, trackingId, "available", nowMs), trackingId, "available", laterMs);
      OpenCount(t2.rows, trackingId) == OpenCount(t.rows, trackingId) + 2
  {
    var t1 := LogStatus(t, trackingId, "available", nowMs);
    OpenCountAppend(t.rows, t1.rows[|t.rows|], trackingId);
    OpenCountAppend(t1.rows, Row(t1.nextId, trackingId, Stamp(laterMs), None, None), trackingId);
  }

  /** `formatDuration(seconds)`: hours, minutes and seconds with JavaScript's
      `Math.floor` and truncating `%`, each padded to two characters. */
  function FormatClock(d: int): string {
    var hours := d / 3600;
    var minutes := JsRem(d, 3600) / 60;
    var seconds := JsRem(d, 60);
    Pad2(IntToString(hours)) + ":" + Pad2(IntToString(minutes)) + ":" + Pad2(IntToString(seconds))
  }

  /** JavaScript's `a % b` for b > 0: the remainder takes the sign of a. */
  function JsRem(a: int, b: int): (r: int)
    requires b > 0
    ensures a >= 0 ==> r == a % b
    ensures -b < r < b
  {
    if a >= 0 then a % b else -((-a) % b)
  }

  /** For a non-negative duration the three fields read back as hours,
      minutes and seconds that add up to d, minutes and seconds below 60,
      each at least two digits. */
  lemma ClockFields(d: nat)
    ensures var parts := Split(FormatClock(d), ':');
      && |parts| == 3
      && (forall i :: 0 <= i < 3 ==> |parts[i]| >= 2 && AllDigits(parts[i]))
      && DecimalValue(parts[0]) * 3600 + DecimalValue(parts[1]) * 60 + DecimalValue(parts[2]) == d
      && DecimalValue(parts[1]) < 60 && DecimalValue(parts[2]) < 60
  {
    var h, m, s := ClockText(d);
    Pad2Value(h);
    Pad2Value(m);
    Pad2Value(s);
    ClockParts(Pad2(NatToString(h)), Pad2(NatToString(m)), Pad2(NatToString(s)), d);
  }

  /** Three digit runs worth h, m and s with h * 3600 + m * 60 + s == d. */
  lemma ClockParts(a: string, b: string, c: string, d: nat)
    requires |a| >= 2 && |b| >= 2 && |c| >= 2
    requires AllDigits(a) && AllDigits(b) && AllDigits(c)
    requires DecimalValue(a) * 3600 + DecimalValue(b) * 60 + DecimalValue(c) == d
    requires DecimalValue(b) < 60 && DecimalValue(c) < 60
    ensures var parts := Split(a + ":" + b + ":" + c, ':');
      && |parts| == 3
      && (forall i :: 0 <= i < 3 ==> |parts[i]| >= 2 && AllDigits(parts[i]))
      && DecimalValue(parts[0]) * 3600 + DecimalValue(parts[1]) * 60 + DecimalValue(parts[2]) == d
      && DecimalValue(parts[1]) < 60 && DecimalValue(parts[2]) < 60
  {
    SplitThree(a, b, c);
  }

  /** The clock of a non-negative duration is its hours, minutes and seconds
      in decimal. */
  lemma ClockText(d: nat) returns (h: nat, m: nat, s: nat)
    ensures h * 3600 + m * 60 + s == d && m < 60 && s < 60
    ensures FormatClock(d) == Pad2(NatToString(h)) + ":" + Pad2(NatToString(m)) + ":" + Pad2(NatToString(s))
  {
    h, m, s := d / 3600, (d % 3600) / 60, d % 60;
    var r := d % 3600;
    assert r % 60 == d % 60 by {
      assert d == (d / 3600) * 3600 + r;
      assert d == ((d / 3600) * 60) * 60 + r;
    }
  }

  /** Three digit runs joined by ':' split back into themselves. */
  lemma SplitThree(a: string, b: string, c: string)
    requires AllDigits(a) && AllDigits(b) && AllDigits(c)
    ensures Split(a + ":" + b + ":" + c, ':') == [a, b, c]
  {
    NoColon(a);
    NoColon(b);
    NoColon(c);
    assert a + ":" + b + ":" + c == a + [':'] + (b + [':'] + c);
    SplitAfter(a, ':', b + [':'] + c);
    SplitAfter(b, ':', c);
    SplitNoSep(c, ':');
  }

  lemma NoColon(s: string)
    requires AllDigits(s)
    ensures ':' !in s
  {
  }

  /** What `getLastSeen` reports. */
  datatype LastSeen = LastSeen(timestamp: int, online: bool)

  /** `getLastSeen(trackingId)`: the latest open interval's online time
      ('online'); failing that, the latest offline time ('offline'); null
      when the number has no rows at all. */
  function GetLastSeen(t: Table, trackingId: string): (r: Option<LastSeen>)
    ensures r.None? <==> forall i :: 0 <= i < |t.rows| ==> t.rows[i].trackingId != trackingId
    ensures r.Some? && r.value.online ==>
      (exists i :: 0 <= i < |t.rows| && OpenFor(t.rows[i], trackingId) && t.rows[i].onlineTime == r.value.timestamp)
      && forall i :: 0 <= i < |t.rows| && OpenFor(t.rows[i], trackingId) ==> t.rows[i].onlineTime <= r.value.timestamp
    ensures r.Some? && !r.value.online ==>
      (forall i :: 0 <= i < |t.rows| ==> !OpenFor(t.rows[i], trackingId))
      && (exists i :: 0 <= i < |t.rows| && t.rows[i].trackingId == trackingId && t.rows[i].offlineTime == Some(r.value.timestamp))
      && forall i :: 0 <= i < |t.rows| && ClosedFor(t.rows[i], trackingId) ==> t.rows[i].offlineTime.value <= r.value.timestamp
  {
    match LatestOnline(t.rows, trackingId)
    case Some(ts) => Some(LastSeen(ts, true))
    case None =>
      match LatestOffline(t.rows, trackingId)
      case Some(ts) => Some(LastSeen(ts, false))
      case None =>
        assert forall i :: 0 <= i < |t.rows| ==> t.rows[i].trackingId != trackingId by {
          forall i | 0 <= i < |t.rows| ensures t.rows[i].trackingId != trackingId {
            assert !OpenFor(t.rows[i], trackingId) && !ClosedFor(t.rows[i], trackingId);
          }
        }
        None
  }

  /** The first query of `getLastSeen`: the latest online time among the
      number's open intervals. */
  function LatestOnline(rows: seq<Row>, trackingId: string): (r: Option<int>)
    ensures r.None? <==> forall i :: 0 <= i < |rows| ==> !OpenFor(rows[i], trackingId)
    ensures r.Some? ==>
      (exists i :: 0 <= i < |rows| && OpenFor(rows[i], trackingId) && rows[i].onlineTime == r.value)
      && forall i :: 0 <= i < |rows| && OpenFor(rows[i], trackingId) ==> rows[i].onlineTime <= r.value
  {
    var open := Seqs.Filter(rows, OpenOf(trackingId));
    if |open| == 0 then
      assert forall i :: 0 <= i < |rows| ==> rows[i] !in open;
      None
    else
      var row := Seqs.MaxBy(open, OnlineKey);
      assert row in rows && OpenFor(row, trackingId);
      assert forall i :: 0 <= i < |rows| && OpenFor(rows[i], trackingId) ==>
        rows[i] in open && OnlineKey(rows[i]) <= OnlineKey(row);
      Some(row.onlineTime)
  }

  /** The second query of `getLastSeen`: the latest offline time among the
      number's closed intervals. */
  function LatestOffline(rows: seq<Row>, trackingId: string): (r: Option<int>)
    ensures r.None? <==> forall i :: 0 <= i < |rows| ==> !ClosedFor(rows[i], trackingId)
    ensures r.Some? ==>
      (exists i :: 0 <= i < |rows| && ClosedFor(rows[i], trackingId) && rows[i].offlineTime == Some(r.value))
      && forall i :: 0 <= i < |rows| && ClosedFor(rows[i], trackingId) ==> rows[i].offlineTime.value <= r.value
  {
    var closed := Seqs.Filter(rows, ClosedOf(trackingId));
    if |closed| == 0 then
      assert forall i :: 0 <= i < |rows| ==> rows[i] !in closed;
      None
    else
      var row := Seqs.MaxBy(closed, OfflineKey);
      assert row in rows && ClosedFor(row, trackingId);
      assert forall i :: 0 <= i < |rows| && ClosedFor(rows[i], trackingId) ==>
        rows[i] in closed && OfflineKey(rows[i]) <= OfflineKey(row);
      Some(row.offlineTime.value)
  }

  predicate ClosedFor(r: Row, trackingId: string) {
    r.trackingId == trackingId && r.offlineTime.Some?
  }

  /** `WHERE trackingId = ? AND offlineTime IS NULL`. */
  function OpenOf(trackingId: string): Row -> bool {
    (row: Row) => OpenFor(row, trackingId)
  }

  /** `WHERE trackingId = ? AND offlineTime IS NOT NULL`. */
  function ClosedOf(trackingId: string): Row -> bool {
    (row: Row) => ClosedFor(row, trackingId)
  }

  function OnlineKey(row: Row): int {
    row.onlineTime
  }

  function OfflineKey(row: Row): int {
    if row.offlineTime.Some? then row.offlineTime.value else 0
  }

  /** `getHistory(trackingId)`: exactly the rows of the number, newest
      online time first (ties in any order). */
  function GetHistory(t: Table, trackingId: string): (r: seq<Row>)
    ensures Seqs.SortedDesc(r, (row: Row) => row.onlineTime)
    ensures forall row :: multiset(r)[row] == if row.trackingId == trackingId then multiset(t.rows)[row] else 0
  {
    Seqs.SortDesc(Seqs.Filter(t.rows, (row: Row) => row.trackingId == trackingId), (row: Row) => row.onlineTime)
  }

  /** After "available", the number is reported online since now. */
  lemma AvailableThenLastSeen(t: Table, trackingId: string, nowMs: int)
    requires Valid(t)
    requires forall i :: 0 <= i < |t.rows| && OpenFor(t.rows[i], trackingId) ==> t.rows[i].onlineTime <= Stamp(nowMs)
    ensures GetLastSeen(LogStatus(t, trackingId, "available", nowMs), trackingId) == Some(LastSeen(Stamp(nowMs), true))
  {
    var t' := LogStatus(t, trackingId, "available", nowMs);
    var n := |t.rows|;
    assert t'.rows == t.rows + [Row(t.nextId, trackingId, Stamp(nowMs), None, None)];
    forall i | 0 <= i < |t'.rows| && OpenFor(t'.rows[i], trackingId) ensures t'.rows[i].onlineTime <= t'.rows[n].onlineTime {
      if i < n {
        assert t'.rows[i] == t.rows[i];
      }
    }
    LastSeenOfLatestOpen(t', trackingId, n);
  }

  /** An open row whose online time no open row of the number exceeds is
      what `getLastSeen` reports. */
  lemma LastSeenOfLatestOpen(t: Table, trackingId: string, k: nat)
    requires k < |t.rows| && OpenFor(t.rows[k], trackingId)
    requires forall i :: 0 <= i < |t.rows| && OpenFor(t.rows[i], trackingId) ==> t.rows[i].onlineTime <= t.rows[k].onlineTime
    ensures GetLastSeen(t, trackingId) == Some(LastSeen(t.rows[k].onlineTime, true))
  {
    var r := GetLastSeen(t, trackingId);
    assert r.Some? && r.value.online;
  }
}
