/** The display helpers of src/utils/formatUtils.js: a duration in words and
    a "last seen" phrase. The clock is an input: both times are integer
    milliseconds. */
module FormatUtils {
  import opened Base

  /** `formatDuration(seconds)`: a falsy value (absent or 0) reads "0 min",
      below a minute "<s> sec", otherwise whole minutes and the remaining
      seconds, with a trailing space when no seconds remain. */
  function FormatDuration(seconds: Option<int>): string {
    if seconds.None? || seconds.value == 0 then Join(["0", "min"], ' ')
    else
      var s := seconds.value;
      if s < 60 then Join([IntToString(s), "sec"], ' ')
      else
        var minutes, rest := s / 60, s % 60;
        if rest > 0 then Join([IntToString(minutes), "min", IntToString(rest), "sec"], ' ')
        else Join([IntToString(minutes), "min", ""], ' ')
  }

  /** A run of digits, optionally after a minus sign, read as an integer. */
  function SignedValue(w: string): Option<int> {
    if |w| > 1 && w[0] == '-' && AllDigits(w[1..]) then Some(0 - DecimalValue(w[1..]) as int)
    else if |w| > 0 && AllDigits(w) then Some(DecimalValue(w))
    else None
  }

  /** A numeral exactly as `${n}` writes it: a signed decimal without
      leading zeros. */
  function Numeral(w: string): (r: Option<int>)
    ensures r.Some? ==> IntToString(r.value) == w
  {
    match SignedValue(w)
    case Some(v) => if IntToString(v) == w then Some(v) else None
    case None => None
  }

  /** Reads a duration back from the words `formatDuration` writes, and
      from nothing else: "0 min", "<s> sec" for 0 != s < 60, "<m> min " and
      "<m> min <r> sec" for m >= 1 and 0 < r < 60. */
  function ParseDuration(text: string): (r: Option<int>) {
    var w := Split(text, ' ');
    if w == ["0", "min"] then Some(0)
    else if |w| == 2 && w[1] == "sec" && Numeral(w[0]).Some? && Numeral(w[0]).value != 0 && Numeral(w[0]).value < 60 then
      Numeral(w[0])
    else if |w| == 3 && w[1] == "min" && w[2] == "" && Numeral(w[0]).Some? && Numeral(w[0]).value >= 1 then
      Some(Numeral(w[0]).value * 60)
    else if |w| == 4 && w[1] == "min" && w[3] == "sec" && Numeral(w[0]).Some? && Numeral(w[0]).value >= 1
         && Numeral(w[2]).Some? && 0 < Numeral(w[2]).value < 60 then
      Some(Numeral(w[0]).value * 60 + Numeral(w[2]).value)
    else None
  }

  lemma NoSpace(s: string)
    requires AllDigits(s)
    ensures ' ' !in s
  {
  }

  /** A signed decimal reads back as itself. */
  lemma SignedRoundTrip(n: int)
    ensures ' ' !in IntToString(n)
    ensures SignedValue(IntToString(n)) == Some(n)
  {
    if n >= 0 {
      DecimalRoundTrip(n);
      NoSpace(NatToString(n));
    } else {
      var digits := NatToString(-n);
      DecimalRoundTrip(-n);
      NoSpace(digits);
      assert ("-" + digits)[1..] == digits;
      assert !AllDigits("-" + digits) by { assert !IsDigit(("-" + digits)[0]); }
    }
  }

  /** Every duration, absent counting as 0, is read back from its words. */
  lemma DurationRoundTrip(seconds: Option<int>)
    ensures ParseDuration(FormatDuration(seconds)) == Some(seconds.GetOr(0))
  {
    if seconds.None? || seconds.value == 0 {
      ZeroWords();
    } else {
      var s := seconds.value;
      if s < 60 {
        SecondsWords(s);
      } else if s % 60 > 0 {
        MinutesSecondsWords(s / 60, s % 60);
      } else {
        MinutesWords(s / 60);
      }
    }
  }

  lemma ZeroWords()
    ensures ParseDuration(Join(["0", "min"], ' ')) == Some(0)
  {
    JoinSplit(["0", "min"], ' ');
    assert DecimalValue("0") == 0 by { DecimalRoundTrip(0); }
  }

  lemma SecondsWords(s: int)
    requires s != 0 && s < 60
    ensures ParseDuration(Join([IntToString(s), "sec"], ' ')) == Some(s)
  {
    SignedRoundTrip(s);
    JoinSplit([IntToString(s), "sec"], ' ');
  }

  lemma MinutesWords(m: nat)
    requires m >= 1
    ensures ParseDuration(Join([IntToString(m), "min", ""], ' ')) == Some(m * 60)
  {
    SignedRoundTrip(m);
    DecimalRoundTrip(m);
    JoinSplit([IntToString(m), "min", ""], ' ');
  }

  lemma MinutesSecondsWords(m: nat, r: nat)
    requires m >= 1 && 0 < r < 60
    ensures ParseDuration(Join([IntToString(m), "min", IntToString(r), "sec"], ' ')) == Some(m * 60 + r)
  {
    SignedRoundTrip(m);
    DecimalRoundTrip(m);
    SignedRoundTrip(r);
    DecimalRoundTrip(r);
    JoinSplit([IntToString(m), "min", IntToString(r), "sec"], ' ');
  }

  /** Only the words `formatDuration` writes are read back: text that
      parses to n is exactly the text written for n. */
  lemma ParseOnlyFormatted(text: string)
    ensures ParseDuration(text).Some? ==> FormatDuration(Some(ParseDuration(text).value)) == text
  {
    var w := Split(text, ' ');
    SplitJoin(text, ' ');
    var r := ParseDuration(text);
    if r.Some? {
      if w == ["0", "min"] {
      } else if |w| == 2 && w[1] == "sec" && Numeral(w[0]).Some? && Numeral(w[0]).value != 0 && Numeral(w[0]).value < 60 {
        assert w == [IntToString(r.value), "sec"];
      } else if |w| == 3 && w[1] == "min" && w[2] == "" && Numeral(w[0]).Some? && Numeral(w[0]).value >= 1 {
        var m := Numeral(w[0]).value;
        assert r.value / 60 == m && r.value % 60 == 0;
        assert w == [IntToString(m), "min", ""];
      } else {
        var m, rest := Numeral(w[0]).value, Numeral(w[2]).value;
        assert r.value / 60 == m && r.value % 60 == rest;
        assert w == [IntToString(m), "min", IntToString(rest), "sec"];
      }
    }
  }

  /** `formatDuration` and its reader are inverse: text parses to n exactly
      when it is what `formatDuration(n)` writes. */
  lemma ParseIffFormatted(text: string, n: int)
    ensures ParseDuration(text) == Some(n) <==> FormatDuration(Some(n)) == text
  {
    DurationRoundTrip(Some(n));
    ParseOnlyFormatted(text);
  }

  /** How long ago a contact was last seen, before it is put in words. */
  datatype Ago = Online | JustNow | MinutesAgo(minutes: int) | HoursAgo(hours: int) | Yesterday | DaysAgo(days: int)

  /** The bucket of `formatLastSeen`: whole minutes, hours and days taken
      one from the other with `Math.floor`; a falsy offline time (absent or
      0) means the contact is online. */
  function Classify(offlineMs: Option<int>, nowMs: int): (a: Ago)
    ensures a == Online <==> offlineMs.None? || offlineMs.value == 0
    ensures a != Online ==> var diff := nowMs - offlineMs.value;
      && (a == JustNow <==> diff < 60000)
      && (a.MinutesAgo? <==> 60000 <= diff < 3600000)
      && (a.MinutesAgo? ==> a.minutes == diff / 60000)
      && (a.HoursAgo? <==> 3600000 <= diff < 86400000)
      && (a.HoursAgo? ==> a.hours == diff / 3600000)
      && (a == Yesterday <==> 86400000 <= diff < 172800000)
      && (a.DaysAgo? <==> 172800000 <= diff)
      && (a.DaysAgo? ==> a.days == diff / 86400000)
  {
    if offlineMs.None? || offlineMs.value == 0 then Online
    else
      var diff := nowMs - offlineMs.value;
      var minutes := diff / 60000;
      var hours := minutes / 60;
      var days := hours / 24;
      FloorChain(diff);
      if minutes < 1 then JustNow
      else if minutes < 60 then MinutesAgo(minutes)
      else if hours < 24 then HoursAgo(hours)
      else if days == 1 then Yesterday
      else DaysAgo(days)
  }

  /** Whole hours are whole minutes floored by 60, and whole days whole
      hours floored by 24. */
  lemma FloorChain(diff: int)
    ensures (diff / 60000) / 60 == diff / 3600000
    ensures ((diff / 60000) / 60) / 24 == diff / 86400000
  {
    var minutes, hours := diff / 60000, diff / 3600000;
    assert minutes / 60 == hours by {
      assert diff == 60000 * minutes + diff % 60000;
      assert minutes == 60 * (minutes / 60) + minutes % 60;
    }
    assert hours / 24 == diff / 86400000 by {
      assert diff == 3600000 * hours + diff % 3600000;
      assert hours == 24 * (hours / 24) + hours % 24;
    }
  }

  /** The phrase for a bucket. */
  function Render(a: Ago): string {
    match a
    case Online => "Online"
    case JustNow => "Just now"
    case MinutesAgo(m) => IntToString(m) + " min ago"
    case HoursAgo(h) => IntToString(h) + " hr ago"
    case Yesterday => "Yesterday"
    case DaysAgo(d) => IntToString(d) + " days ago"
  }

  /** `formatLastSeen(offlineTime)` with the current time passed in. */
  function FormatLastSeen(offlineMs: Option<int>, nowMs: int): (r: string)
    ensures r == "Online" <==> offlineMs.None? || offlineMs.value == 0
    ensures offlineMs.Some? && offlineMs.value != 0 ==> var diff := nowMs - offlineMs.value;
      && (diff < 60000 ==> r == "Just now")
      && (60000 <= diff < 3600000 ==> r == IntToString(diff / 60000) + " min ago")
      && (3600000 <= diff < 86400000 ==> r == IntToString(diff / 3600000) + " hr ago")
      && (86400000 <= diff < 172800000 ==> r == "Yesterday")
      && (172800000 <= diff ==> r == IntToString(diff / 86400000) + " days ago")
  {
    var a := Classify(offlineMs, nowMs);
    RenderOnline(a);
    Render(a)
  }

  /** Only the online bucket reads "Online". */
  lemma RenderOnline(a: Ago)
    ensures Render(a) == "Online" <==> a == Online
  {
    if a.MinutesAgo? || a.HoursAgo? || a.DaysAgo? {
      var n := if a.MinutesAgo? then a.minutes else if a.HoursAgo? then a.hours else a.days;
      var digits := IntToString(n);
      assert Render(a)[0] == digits[0];
      assert digits[0] == '-' || IsDigit(digits[0]);
    }
  }
}
