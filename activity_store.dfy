// The activity feed of the dashboard: 12-hour clock strings, ages relative to "now",
// the newest-first ordering of the records and the one-field filter store.
//
// "Now" is a parameter, in milliseconds since 1970-01-01 00:00 of the single time zone the
// model works in. A date and a time that cannot be read stand for JavaScript's invalid date.

module ActivityStore {
  import opened Wrappers
  import opened Text
  import opened Seqs
  import opened Calendar

  datatype Validity = Valid | Invalid

  /** A record as the seed list holds it, before the derived fields are added. */
  datatype RawActivity = RawActivity(
    time: string, date: string, energy: real, signature: string, value: real, validity: Validity)

  /**
    `hoursAgo`: a whole number of hours, `Infinity` when the record's date cannot be read, or
    the NaN the code as written computes for such a record.
   */
  datatype HoursAgo = Finite(hours: int) | Unbounded | NotANumber

  datatype TimeAgo = TimeAgo(hoursAgo: HoursAgo, displayTime: string)

  /** A record of the store: the raw fields and the two derived ones. */
  datatype ActivityItem = ActivityItem(
    time: string, date: string, energy: real, signature: string, value: real, validity: Validity,
    hoursAgo: HoursAgo, displayTime: string)

  // ---------------------------------------------------------------- 12-hour to 24-hour clock

  /** The hour after the AM/PM correction: PM adds 12 except at 12, and 12 AM is 0. */
  function To24(hours: int, modifier: string): int
  {
    if modifier == "PM" && hours != 12 then hours + 12
    else if modifier == "AM" && hours == 12 then 0
    else hours
  }

  /** The 12-hour reading of a 24-hour hour: the inverse of `To24` on `1..12` with AM or PM. */
  function To12(hour: int): (r: (int, string))
    requires 0 <= hour <= 23
    ensures 1 <= r.0 <= 12 && (r.1 == "AM" || r.1 == "PM")
  {
    if hour == 0 then (12, "AM")
    else if hour < 12 then (hour, "AM")
    else if hour == 12 then (12, "PM")
    else (hour - 12, "PM")
  }

  /**
    On hours 1 to 12 with AM or PM the correction is a bijection onto 0 to 23: AM lands in
    0 to 11 and PM in 12 to 23, and `To12` undoes it in both directions.
   */
  lemma To24Bijection(hours: int, modifier: string, hour: int)
    ensures 1 <= hours <= 12 && (modifier == "AM" || modifier == "PM") ==>
      && 0 <= To24(hours, modifier) <= 23
      && (To24(hours, modifier) < 12 <==> modifier == "AM")
      && To12(To24(hours, modifier)) == (hours, modifier)
    ensures 0 <= hour <= 23 ==> To24(To12(hour).0, To12(hour).1) == hour
  {
  }

  /** `String(n).padStart(2, "0")`. */
  function Field(n: int): string
  {
    PadStart(IntToString(n), 2, '0')
  }

  /** `HH:mm:00` for an hour and a minute. */
  function Clock(hours: int, minutes: int): string
  {
    Field(hours) + ":" + Field(minutes) + ":00"
  }

  /**
    The two numbers of a 12-hour time: split at the first space into the time and the marker,
    split the time at the colon, read both fields with `parseInt` and correct the hour by the
    marker. `None` is NaN, which the correction leaves NaN.
   */
  function ClockFields(timeStr: string): (Option<int>, Option<int>)
  {
    var parts := Split(timeStr, ' ');
    var time := parts[0];
    var modifier := if |parts| > 1 then parts[1] else "";
    var fields := Split(time, ':');
    var hoursRead := ParseInt(fields[0]);
    var minutesRead := if |fields| > 1 then ParseInt(fields[1]) else None;
    (if hoursRead.Some? then Some(To24(hoursRead.value, modifier)) else None, minutesRead)
  }

  /**
    `convertTo24Hour`: the corrected hour and the minute written `HH:mm:00`, or the fallback
    `00:00:00` of its error branch when either number cannot be read.
   */
  function ConvertTo24Hour(timeStr: string): (r: string)
    ensures |r| >= 8 && r[|r| - 3..] == ":00"
    ensures ClockFields(timeStr).0.None? || ClockFields(timeStr).1.None? ==> r == "00:00:00"
  {
    var (hours, minutes) := ClockFields(timeStr);
    if hours.Some? && minutes.Some? then Clock(hours.value, minutes.value)
    else "00:00:00"
  }

  /** `String(n).padStart(2, "0")` of a number that may be NaN, which JavaScript writes `NaN`. */
  function NumberField(n: Option<int>): (r: string)
    ensures n.None? <==> r == "NaN"
    ensures |r| >= 2
  {
    if n.Some? then
      var r := Field(n.value);
      assert r[0] != 'N' by {
        PadStartShape(IntToString(n.value), 2, '0');
      }
      r
    else "NaN"
  }

  /**
    `convertTo24Hour` as the code runs it: `parseInt` returns NaN instead of raising, so the
    error branch is never taken and an unreadable number is written `NaN`.
   */
  function ConvertTo24HourAsWritten(timeStr: string): (r: string)
    ensures ClockFields(timeStr).0.Some? && ClockFields(timeStr).1.Some? ==> r == ConvertTo24Hour(timeStr)
  {
    var (hours, minutes) := ClockFields(timeStr);
    NumberField(hours) + ":" + NumberField(minutes) + ":00"
  }

  /** `hh:mm AM` or `hh:mm PM`, as the seed records write their times. */
  function TwelveHour(hours: nat, minutes: nat, modifier: string): string
  {
    Pad(hours, 2) + ":" + Pad(minutes, 2) + " " + modifier
  }

  /**
    A well-formed 12-hour time converts to the 24-hour clock of the corrected hour, which is
    eight characters long and reads back as that hour and minute.
   */
  lemma ConvertTwelveHour(hours: nat, minutes: nat, modifier: string)
    requires 1 <= hours <= 12 && minutes <= 59 && (modifier == "AM" || modifier == "PM")
    ensures ConvertTo24Hour(TwelveHour(hours, minutes, modifier)) == Clock(To24(hours, modifier), minutes)
    ensures |Clock(To24(hours, modifier), minutes)| == 8
    ensures ParseClock(Clock(To24(hours, modifier), minutes)) == Some((To24(hours, modifier), minutes as int, 0))
  {
    SplitTwelveHour(hours, minutes, modifier);
    ParseIntOfPad(hours, 2);
    ParseIntOfPad(minutes, 2);
    ClockRoundTrip(To24(hours, modifier), minutes);
  }

  /** The space splits a 12-hour time into the clock and the marker, the colon the clock into its fields. */
  lemma SplitTwelveHour(hours: nat, minutes: nat, modifier: string)
    requires 1 <= hours <= 12 && minutes <= 59 && (modifier == "AM" || modifier == "PM")
    ensures Split(TwelveHour(hours, minutes, modifier), ' ') == [Pad(hours, 2) + ":" + Pad(minutes, 2), modifier]
    ensures Split(Pad(hours, 2) + ":" + Pad(minutes, 2), ':') == [Pad(hours, 2), Pad(minutes, 2)]
  {
    var hs, ms := Pad(hours, 2), Pad(minutes, 2);
    var time := hs + ":" + ms;
    TwoDigits(hours);
    TwoDigits(minutes);
    NoSeparator(hs, ' ');
    NoSeparator(ms, ' ');
    NoSeparator(modifier, ' ');
    NoSeparator(hs, ':');
    NoSeparator(ms, ':');
    assert Join([time, modifier], ' ') == TwelveHour(hours, minutes, modifier);
    assert ' ' !in time;
    SplitJoin([time, modifier], ' ');
    assert Join([hs, ms], ':') == time;
    SplitJoin([hs, ms], ':');
  }

  lemma TwoDigits(n: nat)
    requires n < 100
    ensures |Pad(n, 2)| == 2 && AllDigits(Pad(n, 2)) && DigitsValue(Pad(n, 2)) == n
  {
    assert Pow10(2) == 100 by {
      assert Pow10(1) == 10;
    }
    PadRoundTrip(n, 2);
  }

  lemma NoSeparator(s: string, sep: char)
    requires AllDigits(s) || s == "AM" || s == "PM"
    requires !IsDigit(sep) && sep != 'A' && sep != 'P' && sep != 'M'
    ensures sep !in s
  {
  }

  // ---------------------------------------------------------------- reading a date and time

  /** The time forms `HH:mm` and `HH:mm:ss` of the ECMAScript date-time string format. */
  function ParseClock(t: string): (r: Option<(int, int, int)>)
    ensures r.Some? ==> 0 <= r.value.0 <= 23 && 0 <= r.value.1 <= 59 && 0 <= r.value.2 <= 59
  {
    if (|t| == 5 || |t| == 8) && t[2] == ':' && (|t| == 8 ==> t[5] == ':') then
      var seconds := if |t| == 8 then ParseDigits(t[6..]) else Some(0);
      match (ParseDigits(t[..2]), ParseDigits(t[3..5]), seconds)
      case (Some(h), Some(m), Some(s)) =>
        if h <= 23 && m <= 59 && s <= 59 then Some((h, m, s)) else None
      case _ => None
    else None
  }

  /** Eight-character clocks read back as the hour and minute they were written from. */
  lemma ClockRoundTrip(hours: int, minutes: int)
    requires 0 <= hours <= 23 && 0 <= minutes <= 59
    ensures |Clock(hours, minutes)| == 8
    ensures ParseClock(Clock(hours, minutes)) == Some((hours, minutes, 0))
  {
    TwoDigits(hours);
    TwoDigits(minutes);
    assert Field(hours) == Pad(hours, 2) && Field(minutes) == Pad(minutes, 2);
    var c := Clock(hours, minutes);
    assert c[..2] == Pad(hours, 2) && c[3..5] == Pad(minutes, 2) && c[6..] == "00";
    assert DigitsValue("00") == 0 by {
      assert "00"[..1] == "0";
    }
  }

  /** Milliseconds since 1970-01-01 00:00 of a day and a time of day. */
  function InstantMs(d: Date, hours: int, minutes: int, seconds: int): int
    requires ValidDate(d)
  {
    ((DayNumber(d) * 24 + hours) * 60 + minutes) * 60000 + seconds * 1000
  }

  /**
    `new Date(s).getTime()` for `s` of the form date, `T`, time; a date alone is midnight.
    `None` is the invalid date.
   */
  function ParseDateTime(s: string): Option<int>
  {
    var i := IndexOf(s, 'T');
    if i == |s| then
      match ParseIsoDate(s)
      case Some(d) => Some(InstantMs(d, 0, 0, 0))
      case None => None
    else
      match (ParseIsoDate(s[..i]), ParseClock(s[i + 1..]))
      case (Some(d), Some(t)) => Some(InstantMs(d, t.0, t.1, t.2))
      case _ => None
  }

  /** The instant of a date and a 12-hour time: `new Date(`${date}T${convertTo24Hour(time)}`)`. */
  function InstantOf(date: string, time: string): Option<int>
  {
    ParseDateTime(date + "T" + ConvertTo24Hour(time))
  }

  /** The instant of a record. */
  function Instant(r: RawActivity): Option<int>
  {
    InstantOf(r.date, r.time)
  }

  /** A seed record whose date is `IsoDate(d)` and whose time is `hh:mm AM|PM` has the instant of that day and hour. */
  lemma InstantOfRecord(date: string, time: string, d: Date, hours: nat, minutes: nat, modifier: string)
    requires ValidDate(d) && 0 <= d.year <= 9999 && date == IsoDate(d)
    requires 1 <= hours <= 12 && minutes <= 59 && (modifier == "AM" || modifier == "PM")
    requires time == TwelveHour(hours, minutes, modifier)
    ensures InstantOf(date, time) == Some(InstantMs(d, To24(hours, modifier), minutes, 0))
  {
    ConvertTwelveHour(hours, minutes, modifier);
    IsoDateRoundTrip(d);
    IsoDateCharacters(d);
    assert 'T' !in date;
    DateAndClock(date, Clock(To24(hours, modifier), minutes));
  }

  /** With no `T` in the date, the string splits at the `T` it was joined at, and both halves are read. */
  lemma DateAndClock(date: string, clock: string)
    requires 'T' !in date
    ensures ParseIsoDate(date).Some? && ParseClock(clock).Some? ==>
      ParseDateTime(date + "T" + clock)
        == Some(InstantMs(ParseIsoDate(date).value, ParseClock(clock).value.0, ParseClock(clock).value.1, ParseClock(clock).value.2))
    ensures ParseIsoDate(date).None? || ParseClock(clock).None? ==> ParseDateTime(date + "T" + clock) == None
  {
    var s := date + "T" + clock;
    IndexOfAfter(date, 'T', clock);
    assert s[..|date|] == date && s[|date| + 1..] == clock;
  }

  // ---------------------------------------------------------------- age of a record

  /** `diffMinutes < 60`, `diffHours < 24`, `diffDays < 7`, else days: the phrase for an age. */
  function DisplayTime(minutes: int, hours: int, days: int): string
  {
    if minutes < 60 then IntToString(minutes) + " mins ago"
    else if hours < 24 then IntToString(hours) + (if hours == 1 then " hour" else " hours") + " ago"
    else if days < 7 then IntToString(days) + (if days == 1 then " day" else " days") + " ago"
    else IntToString(days) + " days ago"
  }

  /** The age of an instant `diffMs` milliseconds in the past, each unit floored from the last. */
  function Ago(diffMs: int): TimeAgo
  {
    var diffMinutes := diffMs / 60000;
    var diffHours := diffMinutes / 60;
    var diffDays := diffHours / 24;
    TimeAgo(Finite(diffHours), DisplayTime(diffMinutes, diffHours, diffDays))
  }

  /**
    `parseTimeAgo(date, time)` at the instant `now`: the age when the date and time can be
    read, and `Infinity` with `Unknown time ago` when they cannot.
   */
  function ParseTimeAgo(date: string, time: string, now: int): TimeAgo
  {
    AgeAt(InstantOf(date, time), now)
  }

  /** The age of an instant, or of an invalid date, at `now`. */
  function AgeAt(instant: Option<int>, now: int): TimeAgo
  {
    match instant
    case Some(t) => Ago(now - t)
    case None => TimeAgo(Unbounded, "Unknown time ago")
  }

  /**
    Flooring minutes, then hours, then days is flooring the milliseconds by the whole unit;
    the hour count is negative exactly for instants after now.
   */
  lemma AgeUnits(diffMs: int)
    ensures diffMs / 60000 / 60 == diffMs / 3600000
    ensures diffMs / 60000 / 60 / 24 == diffMs / 86400000
    ensures Ago(diffMs).hoursAgo == Finite(diffMs / 3600000)
    ensures diffMs / 3600000 >= 0 <==> diffMs >= 0
  {
    var m := diffMs / 60000;
    var h := m / 60;
    assert diffMs == 3600000 * h + 60000 * (m % 60) + diffMs % 60000;
    assert diffMs == 86400000 * (h / 24) + 3600000 * (h % 24) + 60000 * (m % 60) + diffMs % 60000;
  }

  /**
    The phrase by age: under an hour in minutes; one hour; whole hours below a day; one day;
    and whole days from two days on, the 6/7-day step changing nothing in the wording.
   */
  lemma DisplayLadder(diffMs: int)
    ensures diffMs < 3600000 ==>
      Ago(diffMs).displayTime == IntToString(diffMs / 60000) + " mins ago"
    ensures 3600000 <= diffMs < 7200000 ==> Ago(diffMs).displayTime == "1 hour ago"
    ensures 7200000 <= diffMs < 86400000 ==>
      Ago(diffMs).displayTime == IntToString(diffMs / 3600000) + " hours ago"
    ensures 86400000 <= diffMs < 172800000 ==> Ago(diffMs).displayTime == "1 day ago"
    ensures 172800000 <= diffMs ==>
      Ago(diffMs).displayTime == IntToString(diffMs / 86400000) + " days ago"
  {
    AgeUnits(diffMs);
    assert IntToString(1) == "1";
  }

  /**
    A date and time that cannot be read are infinitely old and say so; an instant that can be
    read has a whole number of hours, negative exactly when it lies after now.
   */
  lemma AgeAtCases(instant: Option<int>, now: int)
    ensures AgeAt(instant, now).hoursAgo == Unbounded <==> instant.None?
    ensures instant.None? ==> AgeAt(instant, now).displayTime == "Unknown time ago"
    ensures instant.Some? ==>
      && AgeAt(instant, now).hoursAgo == Finite((now - instant.value) / 3600000)
      && ((now - instant.value) / 3600000 >= 0 <==> instant.value <= now)
  {
    if instant.Some? {
      AgeUnits(now - instant.value);
    }
  }

  /**
    `parseTimeAgo` as the code runs it: `new Date` of an unreadable string is an invalid date
    rather than an error, so the error branch is never taken; the difference is NaN, every
    comparison of the ladder fails and the phrase is `NaN days ago`.
   */
  function ParseTimeAgoAsWritten(date: string, time: string, now: int): (r: TimeAgo)
    ensures r.hoursAgo != Unbounded
  {
    match ParseDateTime(date + "T" + ConvertTo24HourAsWritten(time))
    case Some(t) => Ago(now - t)
    case None => TimeAgo(NotANumber, "NaN days ago")
  }

  /** A clock with a `NaN` field is not `00:00:00` and has the wrong shape for a date-time string. */
  lemma NaNClock(hours: Option<int>, minutes: Option<int>)
    requires hours.None? || minutes.None?
    ensures var t := NumberField(hours) + ":" + NumberField(minutes) + ":00";
      t != "00:00:00" && ParseClock(t) == None
  {
    var t := NumberField(hours) + ":" + NumberField(minutes) + ":00";
    if hours.None? {
      assert t[0] == 'N';
    } else {
      assert |t| >= 9;
    }
  }

  /** The fallback clock is midnight. */
  lemma MidnightClock()
    ensures ParseClock("00:00:00") == Some((0, 0, 0))
  {
    ClockRoundTrip(0, 0);
    assert Clock(0, 0) == "00:00:00";
  }

  /**
    With an hour or a minute that cannot be read, the code as written yields `NaN` fields,
    an invalid date and `NaN days ago` with a NaN hour count; a NaN count fails every
    `hoursAgo <= limit` test, `Infinity` included, so the record is hidden under every filter.
    The error branch gives `00:00:00`, and so the record's instant is midnight of its date.
   */
  lemma UnreadableTimeAsWritten(date: string, time: string, now: int)
    requires 'T' !in date
    requires ClockFields(time).0.None? || ClockFields(time).1.None?
    ensures ConvertTo24HourAsWritten(time) != "00:00:00"
    ensures ParseTimeAgoAsWritten(date, time, now) == TimeAgo(NotANumber, "NaN days ago")
    ensures ConvertTo24Hour(time) == "00:00:00"
    ensures ParseIsoDate(date).Some? ==>
      InstantOf(date, time) == Some(InstantMs(ParseIsoDate(date).value, 0, 0, 0))
  {
    WrittenNaN(date, time, now);
    FallbackInstant(date, time);
  }

  lemma WrittenNaN(date: string, time: string, now: int)
    requires 'T' !in date
    requires ClockFields(time).0.None? || ClockFields(time).1.None?
    ensures ConvertTo24HourAsWritten(time) != "00:00:00"
    ensures ParseTimeAgoAsWritten(date, time, now) == TimeAgo(NotANumber, "NaN days ago")
  {
    var w := ConvertTo24HourAsWritten(time);
    NaNClock(ClockFields(time).0, ClockFields(time).1);
    assert ParseClock(w) == None;
    DateAndClock(date, w);
  }

  lemma FallbackInstant(date: string, time: string)
    requires 'T' !in date
    requires ClockFields(time).0.None? || ClockFields(time).1.None?
    ensures ParseIsoDate(date).Some? ==>
      InstantOf(date, time) == Some(InstantMs(ParseIsoDate(date).value, 0, 0, 0))
  {
    var c := ConvertTo24Hour(time);
    assert c == "00:00:00";
    MidnightClock();
    DateAndClock(date, c);
  }

  /**
    A date that cannot be read gives `NaN days ago` as the code runs, and `Infinity` with
    `Unknown time ago`, the error branch, in the model.
   */
  lemma UnreadableDateAsWritten(date: string, time: string, now: int)
    requires 'T' !in date && ParseIsoDate(date).None?
    ensures ParseTimeAgoAsWritten(date, time, now) == TimeAgo(NotANumber, "NaN days ago")
    ensures ParseTimeAgo(date, time, now) == TimeAgo(Unbounded, "Unknown time ago")
  {
    DateAndClock(date, ConvertTo24HourAsWritten(time));
    DateAndClock(date, ConvertTo24Hour(time));
  }

  // ---------------------------------------------------------------- newest-first ordering

  /**
    `x` sorts strictly before `y` under the comparator `(a, b) => key(b) - key(a)`: both keys
    are numbers and `x`'s is larger. A missing key makes the difference NaN, which the sort
    takes as a tie.
   */
  predicate Newer<T>(key: T -> Option<int>, x: T, y: T)
  {
    key(x).Some? && key(y).Some? && key(x).value > key(y).value
  }

  /** Inserts `x` at the end of `sorted`, moving it in front of every strictly older element. */
  function Insert<T>(key: T -> Option<int>, sorted: seq<T>, x: T): (r: seq<T>)
    ensures |r| == |sorted| + 1
  {
    if sorted == [] then [x]
    else
      var last := sorted[|sorted| - 1];
      if Newer(key, x, last) then Insert(key, sorted[..|sorted| - 1], x) + [last] else sorted + [x]
  }

  /** `s` as the stable sort with comparator `(a, b) => key(b) - key(a)` orders it. */
  function SortedBy<T>(key: T -> Option<int>, s: seq<T>): (r: seq<T>)
    ensures |r| == |s|
  {
    if s == [] then [] else Insert(key, SortedBy(key, s[..|s| - 1]), s[|s| - 1])
  }

  /** The feed order: newest instant first, ties and unreadable instants in seed order. */
  function SortedFeed(s: seq<RawActivity>): seq<RawActivity>
  {
    SortedBy(Instant, s)
  }

  /** `array.sort(comparator)` on the key's comparator, by insertion, in place. */
  method SortByKey<T>(a: array<T>, key: T -> Option<int>)
    modifies a
    ensures a[..] == SortedBy(key, old(a[..]))
  {
    ghost var original := a[..];
    for i := 0 to a.Length
      invariant a[..i] == SortedBy(key, original[..i])
      invariant a[i..] == original[i..]
    {
      InsertInto(a, i, key);
      assert original[..i + 1][..i] == original[..i];
    }
    assert original[..a.Length] == original;
  }

  /** One pass of the insertion sort: moves `a[i]` into place in the sorted prefix `a[..i]`. */
  method InsertInto<T>(a: array<T>, i: int, key: T -> Option<int>)
    requires 0 <= i < a.Length
    modifies a
    ensures a[..i + 1] == Insert(key, old(a[..i]), old(a[i]))
    ensures a[i + 1..] == old(a[i + 1..])
  {
    ghost var sorted := a[..i];
    var x := a[i];
    var j := i;
    assert sorted[..j] == sorted && sorted[j..] == [];
    while j > 0 && Newer(key, x, a[j - 1])
      invariant 0 <= j <= i
      invariant forall k :: 0 <= k < j ==> a[k] == sorted[k]
      invariant forall k :: j < k <= i ==> a[k] == sorted[k - 1]
      invariant forall k :: i < k < a.Length ==> a[k] == old(a[k])
      invariant Insert(key, sorted, x) == Insert(key, sorted[..j], x) + sorted[j..]
    {
      ShiftStep(key, sorted, x, j);
      a[j] := a[j - 1];
      j := j - 1;
    }
    a[j] := x;
    StopStep(key, sorted, x, j);
    Opened(a[..i + 1], sorted, x, j);
    assert a[i + 1..] == old(a[i + 1..]) by {
      assert forall k :: i < k < a.Length ==> a[i + 1..][k - (i + 1)] == a[k] == old(a[k]);
    }
  }

  /** The prefix after a pass: the sorted elements with `x` placed at `j`. */
  lemma Opened<T>(s: seq<T>, sorted: seq<T>, x: T, j: int)
    requires |s| == |sorted| + 1 && 0 <= j < |s| && s[j] == x
    requires forall k :: 0 <= k < j ==> s[k] == sorted[k]
    requires forall k :: j < k < |s| ==> s[k] == sorted[k - 1]
    ensures s == sorted[..j] + [x] + sorted[j..]
  {
  }

  lemma ShiftStep<T>(key: T -> Option<int>, sorted: seq<T>, x: T, j: int)
    requires 0 < j <= |sorted| && Newer(key, x, sorted[j - 1])
    requires Insert(key, sorted, x) == Insert(key, sorted[..j], x) + sorted[j..]
    ensures Insert(key, sorted, x) == Insert(key, sorted[..j - 1], x) + sorted[j - 1..]
  {
    assert sorted[..j][..j - 1] == sorted[..j - 1];
    assert sorted[j - 1..] == [sorted[j - 1]] + sorted[j..];
  }

  lemma StopStep<T>(key: T -> Option<int>, sorted: seq<T>, x: T, j: int)
    requires 0 <= j <= |sorted| && (j > 0 ==> !Newer(key, x, sorted[j - 1]))
    requires Insert(key, sorted, x) == Insert(key, sorted[..j], x) + sorted[j..]
    ensures Insert(key, sorted, x) == sorted[..j] + [x] + sorted[j..]
  {
  }

  /** The in-place sort of the seed list, `rawActivities.sort(...)` by instant. */
  method SortByInstant(a: array<RawActivity>)
    modifies a
    ensures a[..] == SortedFeed(old(a[..]))
  {
    SortByKey(a, Instant);
  }

  lemma {:induction false} InsertCounts<T>(key: T -> Option<int>, sorted: seq<T>, x: T)
    ensures multiset(Insert(key, sorted, x)) == multiset(sorted) + multiset{x}
  {
    if sorted != [] {
      var front, last := sorted[..|sorted| - 1], sorted[|sorted| - 1];
      assert sorted == front + [last];
      InsertCounts(key, front, x);
    }
  }

  /** The sort keeps every element, each as often. */
  lemma {:induction false} SortPermutes<T>(key: T -> Option<int>, s: seq<T>)
    ensures multiset(SortedBy(key, s)) == multiset(s)
  {
    if s != [] {
      var front, last := s[..|s| - 1], s[|s| - 1];
      assert s == front + [last];
      SortPermutes(key, front);
      InsertCounts(key, SortedBy(key, front), last);
    }
  }

  /** No later element is strictly newer than an earlier one. */
  predicate NewestFirst<T>(key: T -> Option<int>, s: seq<T>)
  {
    forall i, j :: 0 <= i < j < |s| ==> !Newer(key, s[j], s[i])
  }

  predicate Keyed<T>(key: T -> Option<int>, s: seq<T>)
  {
    forall i :: 0 <= i < |s| ==> key(s[i]).Some?
  }

  lemma {:induction false} InsertNewestFirst<T>(key: T -> Option<int>, sorted: seq<T>, x: T)
    requires NewestFirst(key, sorted) && Keyed(key, sorted) && key(x).Some?
    ensures NewestFirst(key, Insert(key, sorted, x))
  {
    if sorted != [] {
      var front, last := sorted[..|sorted| - 1], sorted[|sorted| - 1];
      assert sorted == front + [last];
      if Newer(key, x, last) {
        InsertNewestFirst(key, front, x);
        var r := Insert(key, front, x);
        InsertCounts(key, front, x);
        forall i | 0 <= i < |r|
          ensures key(r[i]).Some? && key(r[i]).value >= key(last).value
        {
          assert r[i] in multiset(front) + multiset{x};
          if r[i] != x {
            var k :| 0 <= k < |front| && front[k] == r[i];
            assert !Newer(key, sorted[|sorted| - 1], sorted[k]);
          }
        }
      }
    }
  }

  /** When every key is a number, the sort runs from the largest key to the smallest. */
  lemma {:induction false} SortNewestFirst<T>(key: T -> Option<int>, s: seq<T>)
    requires Keyed(key, s)
    ensures NewestFirst(key, SortedBy(key, s))
  {
    if s != [] {
      var front, last := s[..|s| - 1], s[|s| - 1];
      assert s == front + [last];
      SortNewestFirst(key, front);
      SortPermutes(key, front);
      assert Keyed(key, SortedBy(key, front)) by {
        forall i | 0 <= i < |SortedBy(key, front)| ensures key(SortedBy(key, front)[i]).Some? {
          assert SortedBy(key, front)[i] in multiset(front);
        }
      }
      InsertNewestFirst(key, SortedBy(key, front), last);
    }
  }

  /** The elements whose key is `t` (`None`: whose key is missing). */
  function WithKey<T(!new)>(key: T -> Option<int>, s: seq<T>, t: Option<int>): seq<T>
  {
    Filter(s, (x: T) => key(x) == t)
  }

  lemma {:induction false} InsertStable<T(!new)>(key: T -> Option<int>, sorted: seq<T>, x: T, t: Option<int>)
    ensures WithKey(key, Insert(key, sorted, x), t) == WithKey(key, sorted, t) + WithKey(key, [x], t)
  {
    var p := (y: T) => key(y) == t;
    if sorted != [] {
      var front, last := sorted[..|sorted| - 1], sorted[|sorted| - 1];
      assert sorted == front + [last];
      FilterAppend(front, [last], p);
      if Newer(key, x, last) {
        InsertStable(key, front, x, t);
        FilterAppend(Insert(key, front, x), [last], p);
        if key(x) == t {
          assert WithKey(key, [last], t) == [];
        } else {
          assert WithKey(key, [x], t) == [];
        }
      } else {
        FilterAppend(sorted, [x], p);
      }
    }
  }

  /** The sort is stable: the elements of any one key, or with no key, keep their order. */
  lemma {:induction false} SortStable<T(!new)>(key: T -> Option<int>, s: seq<T>, t: Option<int>)
    ensures WithKey(key, SortedBy(key, s), t) == WithKey(key, s, t)
  {
    if s != [] {
      var front, last := s[..|s| - 1], s[|s| - 1];
      assert s == front + [last];
      SortStable(key, front, t);
      InsertStable(key, SortedBy(key, front), last, t);
      FilterAppend(front, [last], (y: T) => key(y) == t);
    }
  }

  /**
    The feed is a permutation of the seed records; when every record's date and time can be
    read it runs from the newest instant to the oldest; and records with equal instants, as
    well as those whose instant cannot be read, keep their seed order.
   */
  lemma FeedOrder(s: seq<RawActivity>, t: Option<int>)
    ensures multiset(SortedFeed(s)) == multiset(s)
    ensures Keyed(Instant, s) ==> NewestFirst(Instant, SortedFeed(s))
    ensures WithKey(Instant, SortedFeed(s), t) == WithKey(Instant, s, t)
  {
    SortPermutes(Instant, s);
    SortStable(Instant, s, t);
    if Keyed(Instant, s) {
      SortNewestFirst(Instant, s);
    }
  }

  // ---------------------------------------------------------------- enrichment and store

  /** A record with its age at `now`: `{...item, hoursAgo, displayTime}`. */
  function Enriched(r: RawActivity, now: int): ActivityItem
  {
    var ago := ParseTimeAgo(r.date, r.time, now);
    ActivityItem(r.time, r.date, r.energy, r.signature, r.value, r.validity, ago.hoursAgo, ago.displayTime)
  }

  /** `sortedActivities.map(...)`. */
  function Enrich(records: seq<RawActivity>, now: int): seq<ActivityItem>
  {
    seq(|records|, i requires 0 <= i < |records| => Enriched(records[i], now))
  }

  /** The raw fields of a store record. */
  function Raw(item: ActivityItem): RawActivity
  {
    RawActivity(item.time, item.date, item.energy, item.signature, item.value, item.validity)
  }

  /**
    Enrichment keeps the length and the order, copies every original field (dropping the
    derived ones gives the records back), and adds to each record the age of its own date and
    time.
   */
  lemma EnrichKeepsRecords(records: seq<RawActivity>, now: int)
    ensures |Enrich(records, now)| == |records|
    ensures forall i :: 0 <= i < |records| ==>
      && Raw(Enrich(records, now)[i]) == records[i]
      && Enrich(records, now)[i].hoursAgo == ParseTimeAgo(records[i].date, records[i].time, now).hoursAgo
      && Enrich(records, now)[i].displayTime == ParseTimeAgo(records[i].date, records[i].time, now).displayTime
  {
  }

  /** The module-level initialisation: sorts the seed list in place, then enriches it. */
  method LoadActivities(rawActivities: array<RawActivity>, now: int) returns (activities: seq<ActivityItem>)
    modifies rawActivities
    ensures rawActivities[..] == SortedFeed(old(rawActivities[..]))
    ensures activities == Enrich(rawActivities[..], now)
  {
    SortByInstant(rawActivities);
    activities := Enrich(rawActivities[..], now);
  }

  /** The store: the enriched feed and the selected filter. */
  class Store {
    var activities: seq<ActivityItem>
    var filter: string

    /** The initial state: the loaded feed and the filter `"All"`. */
    constructor(activities: seq<ActivityItem>)
      ensures this.activities == activities && filter == "All"
    {
      this.activities := activities;
      filter := "All";
    }

    /** `setFilter(filter)`: records any string as the filter and leaves the feed alone. */
    method SetFilter(filter: string)
      modifies this`filter
      ensures this.filter == filter
      ensures activities == old(activities)
    {
      this.filter := filter;
    }
  }

  /**
    The store as the module builds it: the seed array is sorted in place, the sorted feed is
    enriched at `now`, and the store starts with that feed and the filter `"All"`.
   */
  method CreateActivityStore(rawActivities: array<RawActivity>, now: int) returns (store: Store)
    modifies rawActivities
    ensures fresh(store)
    ensures rawActivities[..] == SortedFeed(old(rawActivities[..]))
    ensures store.activities == Enrich(SortedFeed(old(rawActivities[..])), now)
    ensures store.filter == "All"
  {
    var activities := LoadActivities(rawActivities, now);
    store := new Store(activities);
  }
}
