/** `SummaryGenerator`: the HTML-formatted daily message built from the
    events of one day.  The zone is a fixed UTC offset `tz`, and the moment
    `datetime.now(tz)` would read is the parameter `now`. */
module SummaryGenerator {
  import opened Wrappers
  import opened Text
  import opened Civil
  import opened Instants
  import opened Iso
  import opened GoogleCalendar
  import StableSort

  /** How `generate_summary` can raise: `KeyError` when a timed event has no
      `start_time` to sort by, `OverflowError` when a time cannot be read in
      the zone. */
  datatype SummaryError = MissingStart | Overflow

  const Bullet := "\U{2022} "
  const Pin := "  \U{1F4CD} "
  const AllDayHeading := "\n<b>All-day events:</b>"
  const TimedHeading := "\n<b>Scheduled events:</b>"

  /** `e.get('all_day', False)`: only an event parsed from a `date` start. */
  predicate IsAllDay(e: Event) {
    e.allDay == Some(true)
  }

  /** `[e for e in events if e.get('all_day', False)]` */
  function AllDayOf(events: seq<Event>): (r: seq<Event>)
    ensures forall i :: 0 <= i < |r| ==> IsAllDay(r[i])
  {
    if events == [] then []
    else
      var last := events[|events| - 1];
      AllDayOf(events[..|events| - 1]) + (if IsAllDay(last) then [last] else [])
  }

  /** `[e for e in events if not e.get('all_day', False)]` */
  function TimedOf(events: seq<Event>): (r: seq<Event>)
    ensures forall i :: 0 <= i < |r| ==> !IsAllDay(r[i])
  {
    if events == [] then []
    else
      var last := events[|events| - 1];
      TimedOf(events[..|events| - 1]) + (if IsAllDay(last) then [] else [last])
  }

  /** The two lists split the events: every event lands in exactly one. */
  lemma {:induction false} PartitionSplits(events: seq<Event>)
    ensures multiset(AllDayOf(events)) + multiset(TimedOf(events)) == multiset(events)
    ensures |AllDayOf(events)| + |TimedOf(events)| == |events|
    decreases |events|
  {
    PartitionMultiset(events);
    assert |multiset(AllDayOf(events))| == |AllDayOf(events)|;
    assert |multiset(TimedOf(events))| == |TimedOf(events)|;
    assert |multiset(events)| == |events|;
    assert |multiset(AllDayOf(events)) + multiset(TimedOf(events))| == |multiset(AllDayOf(events))| + |multiset(TimedOf(events))|;
  }

  lemma {:induction false} PartitionMultiset(events: seq<Event>)
    ensures multiset(AllDayOf(events)) + multiset(TimedOf(events)) == multiset(events)
    decreases |events|
  {
    if events != [] {
      var init, last := events[..|events| - 1], events[|events| - 1];
      PartitionMultiset(init);
      assert events == init + [last];
      assert multiset(events) == multiset(init) + multiset{last};
      var a, t := AllDayOf(init), TimedOf(init);
      if IsAllDay(last) {
        assert AllDayOf(events) == a + [last];
        assert multiset(a + [last]) == multiset(a) + multiset{last};
      } else {
        assert TimedOf(events) == t + [last];
        assert multiset(t + [last]) == multiset(t) + multiset{last};
      }
    }
  }

  /** The key `lambda x: x['start_time']`; it is applied only once every
      timed event is known to have a start. */
  function StartTime(): Event -> int {
    (e: Event) => if e.start.Some? then e.start.value.utc else 0
  }

  /** The local date `now` falls on in the zone. */
  function Today(now: Instant, tz: int): (d: Date)
    requires InRange(now.utc + tz)
    ensures ValidDate(d)
  {
    CalendarDate(Local(AsTimezone(now, tz)))
  }

  function Header(now: Instant, tz: int): (h: string)
    requires InRange(now.utc + tz)
    ensures |h| > 0 && h[0] == '<'
  {
    "<b>Your schedule for " + LongDate(Today(now, tz)) + "</b>\n"
  }

  /** `_no_events_message`. */
  function NoEventsMessage(now: Instant, tz: int): (m: string)
    requires InRange(now.utc + tz)
    ensures StartsWith(m, Header(now, tz)) && |m| > |Header(now, tz)|
  {
    var h := Header(now, tz);
    var m := h + "\nNo events scheduled for today. Enjoy your free day! \U{1F389}";
    assert m[..|h|] == h;
    m
  }

  /** The hour on a 12-hour clock face (`%I` without padding). */
  function Hour12(hour: nat): (h: nat)
    ensures 1 <= h <= 12 && h % 12 == hour % 12
  {
    if hour % 12 == 0 then 12 else hour % 12
  }

  /** `strftime('%-I:%M %p')` of a time of day. */
  function ClockText(c: Clock): string
    requires ValidTime(c)
  {
    Decimal(Hour12(c.hour)) + ":" + Padded(c.minute, 2) + " " + (if c.hour < 12 then "AM" else "PM")
  }

  /** Reads a `%-I:%M %p` text back as a 24-hour hour and a minute. */
  function ReadClockText(s: string): Option<(int, int)> {
    var n := |s|;
    if n < 7 || n > 8 then None
    else if !AllDigits(s[..n - 6]) || s[n - 6] != ':' || !AllDigits(s[n - 5..n - 3]) || s[n - 3] != ' ' then None
    else if (s[n - 2] != 'A' && s[n - 2] != 'P') || s[n - 1] != 'M' then None
    else
      var h := DigitsValue(s[..n - 6]);
      if h < 1 || h > 12 then None
      else Some((h % 12 + (if s[n - 2] == 'P' then 12 else 0), DigitsValue(s[n - 5..n - 3])))
  }

  lemma SmallDecimal(n: nat)
    requires n < 100
    ensures |Decimal(n)| == (if n < 10 then 1 else 2)
  {
    if n >= 10 {
      assert Decimal(n / 10) == [DigitChar(n / 10)];
    }
  }

  /** The 12-hour text keeps the hour and the minute: AM/PM recovers which
      half of the day the face hour belongs to. */
  lemma ClockTextRoundTrip(c: Clock)
    requires ValidTime(c)
    ensures ReadClockText(ClockText(c)) == Some((c.hour, c.minute))
  {
    var h := Hour12(c.hour);
    var hText, mText := Decimal(h), Padded(c.minute, 2);
    var half := if c.hour < 12 then "AM" else "PM";
    SmallDecimal(h);
    DecimalValue(h);
    Pow10Small();
    PaddedValue(c.minute, 2);
    ReadClockPieces(hText, mText, half);
    assert h % 12 + (if half == "PM" then 12 else 0) == c.hour;
  }

  /** Reading a text assembled from its pieces. */
  lemma ReadClockPieces(hText: string, mText: string, half: string)
    requires 1 <= |hText| <= 2 && AllDigits(hText) && 1 <= DigitsValue(hText) <= 12
    requires |mText| == 2 && AllDigits(mText)
    requires half == "AM" || half == "PM"
    ensures ReadClockText(hText + ":" + mText + " " + half)
      == Some((DigitsValue(hText) % 12 + (if half == "PM" then 12 else 0), DigitsValue(mText)))
  {
    var s := hText + ":" + mText + " " + half;
    var n := |s|;
    assert n == |hText| + 6;
    assert s[..n - 6] == hText;
    assert s[n - 6] == ':' && s[n - 3] == ' ';
    assert s[n - 5..n - 3] == mText;
    assert s[n - 2] == half[0] && s[n - 1] == 'M';
  }

  /** An instant can be read in the zone: `astimezone` first computes the
      UTC reading, then the reading in the zone, and raises when either
      falls outside years 1 to 9999. */
  predicate Readable(i: Instant, tz: int) {
    InRange(i.utc) && InRange(i.utc + tz)
  }

  /** The times of an event can be read in the zone. */
  predicate Representable(e: Event, tz: int) {
    && e.start.Some? && Readable(e.start.value, tz)
    && (e.end.Some? ==> Readable(e.end.value, tz))
  }

  /** The local wall-clock reading of an instant in the zone. */
  function LocalIn(i: Instant, tz: int): int {
    Local(AsTimezone(i, tz))
  }

  /** `_format_time_range` on an event whose times can be read in the zone
      (`FormatAll` models the `OverflowError` raised otherwise). */
  function FormatTimeRange(start: Instant, end: Option<Instant>, tz: int): (r: string)
    requires Readable(start, tz)
    requires end.Some? ==> Readable(end.value, tz)
    ensures StartsWith(r, ClockText(ClockOf(TimeOfDay(LocalIn(start, tz)))))
  {
    var s := LocalIn(start, tz);
    var startText := ClockText(ClockOf(TimeOfDay(s)));
    var tail := match end
      case None => ""
      case Some(e) =>
        var t := LocalIn(e, tz);
        if CalendarDate(t) == CalendarDate(s) then " - " + ClockText(ClockOf(TimeOfDay(t)))
        else " (multi-day)";
    assert (startText + tail)[..|startText|] == startText;
    startText + tail
  }

  /** Two readings share a local date exactly when the second lies within
      the day that starts at the first one's local midnight. */
  lemma SameDateWithinDay(s: int, t: int)
    requires InRange(s) && InRange(t)
    ensures CalendarDate(t) == CalendarDate(s) <==>
      Midnight(CalendarDate(s)) <= t < Midnight(CalendarDate(s)) + DayMicros
  {
    MidnightOfDate(s);
    MidnightOfDate(t);
    var ds, dt := CalendarDate(s), CalendarDate(t);
    DateOfOrdinal(ds);
    DateOfOrdinal(dt);
    if dt != ds {
      assert Ordinal(dt) != Ordinal(ds);
    }
  }

  /** The three forms of a time range: the start alone without an end, a
      `start - end` range when the end falls within the start's local day,
      and a `(multi-day)` mark otherwise. */
  lemma TimeRangeForms(start: Instant, end: Option<Instant>, tz: int)
    requires Readable(start, tz)
    requires end.Some? ==> Readable(end.value, tz)
    ensures var startText := ClockText(ClockOf(TimeOfDay(LocalIn(start, tz))));
      var r := FormatTimeRange(start, end, tz);
      && (end.None? ==> r == startText)
      && (end.Some? ==>
            var m := Midnight(CalendarDate(LocalIn(start, tz)));
            var t := LocalIn(end.value, tz);
            && (m <= t < m + DayMicros ==> r == startText + " - " + ClockText(ClockOf(TimeOfDay(t))))
            && (r == startText + " (multi-day)" <==> !(m <= t < m + DayMicros)))
  {
    if end.Some? {
      var s, t := LocalIn(start, tz), LocalIn(end.value, tz);
      SameDateWithinDay(s, t);
      var m := Midnight(CalendarDate(s));
      var same := CalendarDate(t) == CalendarDate(s);
      assert same <==> m <= t < m + DayMicros;
      var startText := ClockText(ClockOf(TimeOfDay(s)));
      var endText := ClockText(ClockOf(TimeOfDay(t)));
      TimeRangeShape(start, end.value, tz);
      RangeIsNotMultiDay(startText, endText);
      var r := FormatTimeRange(start, end, tz);
      assert startText + (" - " + endText) == startText + " - " + endText;
      assert r == startText + " (multi-day)" <==> !same;
    }
  }

  lemma TimeRangeShape(start: Instant, end: Instant, tz: int)
    requires Readable(start, tz) && Readable(end, tz)
    ensures var s, t := LocalIn(start, tz), LocalIn(end, tz);
      var startText := ClockText(ClockOf(TimeOfDay(s)));
      FormatTimeRange(start, Some(end), tz) == if CalendarDate(t) == CalendarDate(s)
        then startText + (" - " + ClockText(ClockOf(TimeOfDay(t))))
        else startText + " (multi-day)"
  {
  }

  lemma RangeIsNotMultiDay(startText: string, endText: string)
    ensures startText + (" - " + endText) != startText + " (multi-day)"
  {
    var k := |startText| + 1;
    assert (startText + (" - " + endText))[k] == '-';
    assert (startText + " (multi-day)")[k] == '(';
  }

  /** The item line of an event and, when its location is not empty, the
      location line under it. */
  function ItemLines(text: string, e: Event): (r: seq<string>)
    ensures |r| >= 1 && r[0] == Bullet + text && StartsWith(r[0], Bullet)
    ensures |r| == 2 <==> e.location != ""
    ensures |r| == 2 ==> r[1] == Pin + e.location && StartsWith(r[1], Pin)
  {
    [Bullet + text] + (if e.location != "" then [Pin + e.location] else [])
  }

  /** `s` begins with `mark`. */
  predicate StartsWith(s: string, mark: string) {
    |s| >= |mark| && s[..|mark|] == mark
  }

  /** The lines of the all-day section, one item per event in order. */
  function AllDayLines(events: seq<Event>): (r: seq<string>)
    ensures forall i :: 0 <= i < |r| ==> StartsWith(r[i], Bullet) || StartsWith(r[i], Pin)
  {
    if events == [] then []
    else
      var e := events[|events| - 1];
      AllDayLines(events[..|events| - 1]) + ItemLines(e.summary, e)
  }

  function TimedText(e: Event, tz: int): string
    requires Representable(e, tz)
  {
    FormatTimeRange(e.start.value, e.end, tz) + ": " + e.summary
  }

  /** The lines of the scheduled section, one item per event in order. */
  function TimedLines(events: seq<Event>, tz: int): (r: seq<string>)
    requires forall i :: 0 <= i < |events| ==> Representable(events[i], tz)
    ensures forall i :: 0 <= i < |r| ==> StartsWith(r[i], Bullet) || StartsWith(r[i], Pin)
  {
    if events == [] then []
    else
      var e := events[|events| - 1];
      TimedLines(events[..|events| - 1], tz) + ItemLines(TimedText(e, tz), e)
  }

  /** The closing line, `event` in the singular for one event only. */
  function TotalLine(n: nat): string {
    "\n<i>Total: " + Decimal(n) + " event" + (if n != 1 then "s" else "") + " today</i>"
  }

  /** The lines of the scheduled section once sorted, or the error that
      reading a time in the zone raises first. */
  function FormatAll(sorted: seq<Event>, tz: int): Result<seq<string>, SummaryError> {
    if exists i :: 0 <= i < |sorted| && !Representable(sorted[i], tz) then Failure(Overflow)
    else Success(TimedLines(sorted, tz))
  }

  /** `sorted(timed_events, key=lambda x: x['start_time'])` followed by the
      scheduled lines: a missing start stops the sort before any line. */
  function TimedSection(timed: seq<Event>, tz: int): Result<seq<string>, SummaryError> {
    if exists i :: 0 <= i < |timed| && timed[i].start.None? then Failure(MissingStart)
    else FormatAll(StableSort.Sort(timed, StartTime()), tz)
  }

  /** A scheduled section that renders has every sorted event readable in
      the zone, and its lines are those events' item lines. */
  lemma SectionLines(timed: seq<Event>, tz: int)
    requires TimedSection(timed, tz).Success?
    ensures var sorted := StableSort.Sort(timed, StartTime());
      && (forall i :: 0 <= i < |sorted| ==> Representable(sorted[i], tz))
      && TimedSection(timed, tz).value == TimedLines(sorted, tz)
  {
  }

  /** The header and the all-day section. */
  function Opening(events: seq<Event>, header: string): seq<string> {
    var allDay := AllDayOf(events);
    [header] + (if allDay == [] then [] else [AllDayHeading] + AllDayLines(allDay))
  }

  /** `message_parts` at the end of `generate_summary`, for a non-empty
      list, below a given header line. */
  function Parts(events: seq<Event>, header: string, tz: int): Result<seq<string>, SummaryError> {
    var timed := TimedOf(events);
    if timed == [] then Success(Opening(events, header) + [TotalLine(|events|)])
    else
      match TimedSection(timed, tz)
      case Failure(err) => Failure(err)
      case Success(lines) => Success(Opening(events, header) + [TimedHeading] + lines + [TotalLine(|events|)])
  }

  /** `generate_summary(events)`. */
  function Summary(events: seq<Event>, now: Instant, tz: int): (r: Result<string, SummaryError>)
    requires InRange(now.utc + tz)
    ensures events == [] ==> r == Success(NoEventsMessage(now, tz))
  {
    if events == [] then Success(NoEventsMessage(now, tz))
    else
      match Parts(events, Header(now, tz), tz)
      case Failure(err) => Failure(err)
      case Success(parts) => Success(Join(parts, "\n"))
  }

  /** An event belongs to the timed list exactly when it is one of the
      events and not an all-day one, and likewise for the all-day list. */
  lemma Members(events: seq<Event>)
    ensures forall x :: x in TimedOf(events) <==> x in events && !IsAllDay(x)
    ensures forall x :: x in AllDayOf(events) <==> x in events && IsAllDay(x)
  {
    PartitionSplits(events);
    var a, t := AllDayOf(events), TimedOf(events);
    forall x
      ensures x in t <==> x in events && !IsAllDay(x)
      ensures x in a <==> x in events && IsAllDay(x)
    {
      assert x in events <==> x in multiset(a) + multiset(t);
    }
  }

  /** `generate_summary` raises `KeyError` exactly when some event that is
      not all-day has no start, an event without any start included. */
  lemma MissingStartFails(events: seq<Event>, now: Instant, tz: int)
    requires InRange(now.utc + tz)
    ensures Summary(events, now, tz) == Failure(MissingStart) <==>
      exists i :: 0 <= i < |events| && !IsAllDay(events[i]) && events[i].start.None?
  {
    var t := TimedOf(events);
    TimedWithoutStart(events);
    if events != [] {
      PartsFailure(events, Header(now, tz), tz);
      FormatAllFails(StableSort.Sort(t, StartTime()), tz);
    }
    if t == [] {
      Members(events);
    }
    assert Summary(events, now, tz) == Failure(MissingStart) <==> t != [] && SomeMissing(t);
  }

  /** `generate_summary` raises `OverflowError` exactly when every event
      that is not all-day has a start and one of them cannot be read in the
      zone. */
  lemma OverflowFails(events: seq<Event>, now: Instant, tz: int)
    requires InRange(now.utc + tz)
    ensures Summary(events, now, tz) == Failure(Overflow) <==>
      && (forall i :: 0 <= i < |events| && !IsAllDay(events[i]) ==> events[i].start.Some?)
      && exists i :: 0 <= i < |events| && !IsAllDay(events[i]) && !Representable(events[i], tz)
  {
    var t := TimedOf(events);
    TimedWithoutStart(events);
    TimedUnrepresentable(events, tz);
    SummaryOverflow(events, now, tz);
    assert SomeMissing(t) <==> exists j :: 0 <= j < |TimedOf(events)| && TimedOf(events)[j].start.None?;
    if t == [] {
      Members(events);
    }
  }

  lemma SummaryOverflow(events: seq<Event>, now: Instant, tz: int)
    requires InRange(now.utc + tz)
    ensures var t := TimedOf(events);
      Summary(events, now, tz) == Failure(Overflow) <==>
        t != [] && !SomeMissing(t) && SomeUnreadable(StableSort.Sort(t, StartTime()), tz)
  {
    if events != [] {
      PartsFailure(events, Header(now, tz), tz);
      SectionOverflow(TimedOf(events), tz);
    }
  }

  /** Some event has no start. */
  predicate SomeMissing(events: seq<Event>) {
    exists j :: 0 <= j < |events| && events[j].start.None?
  }

  /** Some event cannot be read in the zone. */
  predicate SomeUnreadable(events: seq<Event>, tz: int) {
    exists j :: 0 <= j < |events| && !Representable(events[j], tz)
  }

  /** The scheduled section fails with `Overflow` exactly when every event
      has a start and one of them cannot be read in the zone. */
  lemma SectionOverflow(t: seq<Event>, tz: int)
    ensures TimedSection(t, tz) == Failure(Overflow) <==>
      !SomeMissing(t) && SomeUnreadable(StableSort.Sort(t, StartTime()), tz)
  {
    FormatAllFails(StableSort.Sort(t, StartTime()), tz);
  }

  /** The message fails exactly when there are timed events and their
      section fails, and with the section's error. */
  lemma PartsFailure(events: seq<Event>, header: string, tz: int)
    ensures var t := TimedOf(events);
      Parts(events, header, tz).Failure? <==> t != [] && TimedSection(t, tz).Failure?
    ensures var t := TimedOf(events);
      Parts(events, header, tz).Failure? ==> Parts(events, header, tz).error == TimedSection(t, tz).error
  {
  }

  /** Formatting fails, and then only with `Overflow`, exactly when an event
      cannot be read in the zone. */
  lemma FormatAllFails(sorted: seq<Event>, tz: int)
    ensures FormatAll(sorted, tz) == Failure(Overflow) <==> SomeUnreadable(sorted, tz)
    ensures FormatAll(sorted, tz) != Failure(MissingStart)
  {
  }

  /** Sorting keeps the events, so an event of the sorted timed list that
      cannot be read in the zone is an unreadable event that is not all-day,
      and the other way round. */
  lemma TimedUnrepresentable(events: seq<Event>, tz: int)
    ensures SomeUnreadable(StableSort.Sort(TimedOf(events), StartTime()), tz) <==>
      exists i :: 0 <= i < |events| && !IsAllDay(events[i]) && !Representable(events[i], tz)
  {
    var sorted := StableSort.Sort(TimedOf(events), StartTime());
    if exists i :: 0 <= i < |events| && !IsAllDay(events[i]) && !Representable(events[i], tz) {
      var i :| 0 <= i < |events| && !IsAllDay(events[i]) && !Representable(events[i], tz);
      var j := SortedIndex(events, i);
      assert !Representable(sorted[j], tz);
    }
    if exists j :: 0 <= j < |sorted| && !Representable(sorted[j], tz) {
      var j :| 0 <= j < |sorted| && !Representable(sorted[j], tz);
      var i := InputIndex(events, j);
      assert !IsAllDay(events[i]) && !Representable(events[i], tz);
    }
  }

  /** Where an event that is not all-day sits in the sorted timed list. */
  lemma SortedIndex(events: seq<Event>, i: int) returns (j: int)
    requires 0 <= i < |events| && !IsAllDay(events[i])
    ensures var sorted := StableSort.Sort(TimedOf(events), StartTime());
      0 <= j < |sorted| && sorted[j] == events[i]
  {
    Members(events);
    SortKeepsMembers(TimedOf(events), StartTime());
    var sorted := StableSort.Sort(TimedOf(events), StartTime());
    assert events[i] in sorted;
    j :| 0 <= j < |sorted| && sorted[j] == events[i];
  }

  /** Where an event of the sorted timed list sits in the input. */
  lemma InputIndex(events: seq<Event>, j: int) returns (i: int)
    requires 0 <= j < |StableSort.Sort(TimedOf(events), StartTime())|
    ensures 0 <= i < |events| && events[i] == StableSort.Sort(TimedOf(events), StartTime())[j]
    ensures !IsAllDay(events[i])
  {
    Members(events);
    SortKeepsMembers(TimedOf(events), StartTime());
    var x := StableSort.Sort(TimedOf(events), StartTime())[j];
    assert x in TimedOf(events);
    i :| 0 <= i < |events| && events[i] == x;
  }

  lemma SortKeepsMembers<T>(s: seq<T>, key: T -> int)
    ensures forall x :: x in StableSort.Sort(s, key) <==> x in s
  {
    StableSort.SortSorted(s, key);
    forall x ensures x in StableSort.Sort(s, key) <==> x in s {
      assert x in StableSort.Sort(s, key) <==> x in multiset(StableSort.Sort(s, key));
      assert x in s <==> x in multiset(s);
    }
  }

  /** The message for an empty day opens with the same header line as a
      rendered summary. */
  lemma EmptyDayMessage(now: Instant, tz: int)
    requires InRange(now.utc + tz)
    ensures Summary([], now, tz).Success?
    ensures StartsWith(Summary([], now, tz).value, Header(now, tz))
  {
    var h := Header(now, tz);
    var m := NoEventsMessage(now, tz);
    assert m[..|h|] == h;
  }

  /** A timed event without a start is an event without a start that is not
      all-day, and the other way round. */
  lemma TimedWithoutStart(events: seq<Event>)
    ensures (exists j :: 0 <= j < |TimedOf(events)| && TimedOf(events)[j].start.None?) <==>
      exists i :: 0 <= i < |events| && !IsAllDay(events[i]) && events[i].start.None?
  {
    var t := TimedOf(events);
    Members(events);
    if exists i :: 0 <= i < |events| && !IsAllDay(events[i]) && events[i].start.None? {
      var i :| 0 <= i < |events| && !IsAllDay(events[i]) && events[i].start.None?;
      assert events[i] in t;
      var j :| 0 <= j < |t| && t[j] == events[i];
      assert TimedOf(events)[j].start.None?;
    } else {
      forall j | 0 <= j < |t|
        ensures t[j].start.Some?
      {
        assert t[j] in events;
      }
    }
  }

  /** The listed order: the all-day events in input order, then the timed
      events sorted by start, stably, together exactly the input events. */
  lemma ListedOrder(events: seq<Event>)
    ensures var sorted := StableSort.Sort(TimedOf(events), StartTime());
      && StableSort.SortedBy(sorted, StartTime())
      && multiset(AllDayOf(events) + sorted) == multiset(events)
      && forall k :: StableSort.Filter(sorted, StartTime(), k) == StableSort.Filter(TimedOf(events), StartTime(), k)
  {
    var sorted := StableSort.Sort(TimedOf(events), StartTime());
    StableSort.SortSorted(TimedOf(events), StartTime());
    PartitionSplits(events);
    forall k ensures StableSort.Filter(sorted, StartTime(), k) == StableSort.Filter(TimedOf(events), StartTime(), k) {
      StableSort.SortStable(TimedOf(events), StartTime(), k);
    }
  }

  /** The lines of `parts` that begin with `mark`, in order. */
  function Marked(parts: seq<string>, mark: string): seq<string> {
    if parts == [] then []
    else
      var last := parts[|parts| - 1];
      Marked(parts[..|parts| - 1], mark) + (if StartsWith(last, mark) then [last] else [])
  }

  lemma {:induction false} MarkedAppend(a: seq<string>, b: seq<string>, mark: string)
    ensures Marked(a + b, mark) == Marked(a, mark) + Marked(b, mark)
    decreases |b|
  {
    if b == [] {
      assert a + b == a;
    } else {
      assert (a + b)[..|a + b| - 1] == a + b[..|b| - 1];
      MarkedAppend(a, b[..|b| - 1], mark);
    }
  }

  /** The number of events whose location is not empty. */
  function Located(events: seq<Event>): nat {
    if events == [] then 0
    else Located(events[..|events| - 1]) + (if events[|events| - 1].location != "" then 1 else 0)
  }

  lemma {:induction false} LocatedAppend(a: seq<Event>, b: seq<Event>)
    ensures Located(a + b) == Located(a) + Located(b)
    decreases |b|
  {
    if b == [] {
      assert a + b == a;
    } else {
      assert (a + b)[..|a + b| - 1] == a + b[..|b| - 1];
      LocatedAppend(a, b[..|b| - 1]);
    }
  }

  /** Reordering the events does not change how many have a location. */
  lemma {:induction false} LocatedPermutation(a: seq<Event>, b: seq<Event>)
    requires multiset(a) == multiset(b)
    ensures Located(a) == Located(b)
    decreases |a|
  {
    if a == [] {
      assert |b| == |multiset(b)| == 0;
    } else {
      var init, x := a[..|a| - 1], a[|a| - 1];
      assert x in multiset(b) by {
        assert a == init + [x];
      }
      var j :| 0 <= j < |b| && b[j] == x;
      var rest := b[..j] + b[j + 1..];
      Without(a, |a| - 1);
      Without(b, j);
      assert a[..|a| - 1] + a[|a|..] == init;
      LocatedPermutation(init, rest);
      LocatedWithout(a, |a| - 1);
      LocatedWithout(b, j);
    }
  }

  /** Taking the `j`-th event out of `s` takes one copy of it out of the
      multiset. */
  lemma Without(s: seq<Event>, j: int)
    requires 0 <= j < |s|
    ensures multiset(s[..j] + s[j + 1..]) == multiset(s) - multiset{s[j]}
  {
    Pieces(s, j);
  }

  lemma LocatedWithout(s: seq<Event>, j: int)
    requires 0 <= j < |s|
    ensures Located(s) == Located(s[..j] + s[j + 1..]) + Located([s[j]])
  {
    var front, x, back := s[..j], [s[j]], s[j + 1..];
    Pieces(s, j);
    LocatedAppend(front + x, back);
    LocatedAppend(front, x);
    LocatedAppend(front, back);
  }

  lemma Pieces<T>(s: seq<T>, j: int)
    requires 0 <= j < |s|
    ensures s == s[..j] + [s[j]] + s[j + 1..]
  {
  }

  /** A plain line (header, heading, total) is neither an item nor a
      location line. */
  lemma PlainLine(x: string)
    requires |x| > 0 && x[0] != '\U{2022}' && x[0] != ' '
    ensures Marked([x], Bullet) == [] && Marked([x], Pin) == []
  {
    assert Bullet[0] == '\U{2022}' && Pin[0] == ' ';
    assert !StartsWith(x, Bullet) && !StartsWith(x, Pin);
    assert [x][..0] == Marked([], Pin);
  }

  /** One item line per event, and a location line per event with a
      location. */
  lemma ItemMarks(text: string, e: Event)
    ensures |Marked(ItemLines(text, e), Bullet)| == 1
    ensures |Marked(ItemLines(text, e), Pin)| == if e.location != "" then 1 else 0
  {
    var item, pin := Bullet + text, Pin + e.location;
    assert StartsWith(item, Bullet) && !StartsWith(item, Pin) by {
      assert item[..|Bullet|] == Bullet;
      assert item[0] == '\U{2022}';
    }
    assert [item][..0] == Marked([], Pin);
    if e.location != "" {
      assert StartsWith(pin, Pin) && !StartsWith(pin, Bullet) by {
        assert pin[..|Pin|] == Pin;
        assert pin[0] == ' ';
      }
      assert ItemLines(text, e) == [item] + [pin];
      MarkedAppend([item], [pin], Bullet);
      MarkedAppend([item], [pin], Pin);
      assert [pin][..0] == Marked([], Pin);
    }
  }

  lemma {:induction false} AllDayMarks(events: seq<Event>)
    ensures |Marked(AllDayLines(events), Bullet)| == |events|
    ensures |Marked(AllDayLines(events), Pin)| == Located(events)
    decreases |events|
  {
    if events != [] {
      var init, e := events[..|events| - 1], events[|events| - 1];
      AllDayMarks(init);
      ItemMarks(e.summary, e);
      MarkedAppend(AllDayLines(init), ItemLines(e.summary, e), Bullet);
      MarkedAppend(AllDayLines(init), ItemLines(e.summary, e), Pin);
    }
  }

  lemma {:induction false} TimedMarks(events: seq<Event>, tz: int)
    requires forall i :: 0 <= i < |events| ==> Representable(events[i], tz)
    ensures |Marked(TimedLines(events, tz), Bullet)| == |events|
    ensures |Marked(TimedLines(events, tz), Pin)| == Located(events)
    decreases |events|
  {
    if events != [] {
      var init, e := events[..|events| - 1], events[|events| - 1];
      TimedMarks(init, tz);
      ItemMarks(TimedText(e, tz), e);
      MarkedAppend(TimedLines(init, tz), ItemLines(TimedText(e, tz), e), Bullet);
      MarkedAppend(TimedLines(init, tz), ItemLines(TimedText(e, tz), e), Pin);
    }
  }

  /** The header and the all-day section hold one item line per all-day
      event and one location line per all-day event with a location. */
  lemma OpeningMarks(events: seq<Event>, header: string)
    requires |header| > 0 && header[0] == '<'
    ensures var opening, a := Opening(events, header), AllDayOf(events);
      |Marked(opening, Bullet)| == |a| && |Marked(opening, Pin)| == Located(a)
  {
    var a := AllDayOf(events);
    PlainLine(header);
    if a != [] {
      PlainLine(AllDayHeading);
      AllDayMarks(a);
      MarkedAppend([header], [AllDayHeading], Bullet);
      MarkedAppend([header], [AllDayHeading], Pin);
      MarkedAppend([header, AllDayHeading], AllDayLines(a), Bullet);
      MarkedAppend([header, AllDayHeading], AllDayLines(a), Pin);
      assert Opening(events, header) == [header, AllDayHeading] + AllDayLines(a);
    } else {
      assert Opening(events, header) == [header];
    }
  }

  /** Exactly one item line per event, and exactly one location line per
      event whose location is not empty. */
  lemma ItemPerEvent(events: seq<Event>, header: string, tz: int)
    requires |header| > 0 && header[0] == '<'
    requires Parts(events, header, tz).Success?
    ensures var p := Parts(events, header, tz).value;
      |Marked(p, Bullet)| == |events| && |Marked(p, Pin)| == Located(events)
  {
    var a, t := AllDayOf(events), TimedOf(events);
    var opening, total := Opening(events, header), TotalLine(|events|);
    PartitionSplits(events);
    assert multiset(a + t) == multiset(events);
    LocatedPermutation(a + t, events);
    LocatedAppend(a, t);
    OpeningMarks(events, header);
    assert total[0] == '\n';
    PlainLine(total);
    MarkedAppend(opening, [total], Bullet);
    MarkedAppend(opening, [total], Pin);
    if t != [] {
      var sorted := StableSort.Sort(t, StartTime());
      StableSort.SortSorted(t, StartTime());
      assert |sorted| == |multiset(sorted)| == |t|;
      LocatedPermutation(sorted, t);
      SectionLines(t, tz);
      var lines := TimedLines(sorted, tz);
      TimedMarks(sorted, tz);
      PlainLine(TimedHeading);
      var before := opening + [TimedHeading];
      MarkedAppend(opening, [TimedHeading], Bullet);
      MarkedAppend(opening, [TimedHeading], Pin);
      MarkedAppend(before, lines, Bullet);
      MarkedAppend(before, lines, Pin);
      MarkedAppend(before + lines, [total], Bullet);
      MarkedAppend(before + lines, [total], Pin);
    }
  }

  /** A heading line is not among the item and location lines. */
  lemma NotAnItem(x: string, lines: seq<string>)
    requires |x| > 0 && x[0] == '\n'
    requires forall i :: 0 <= i < |lines| ==> StartsWith(lines[i], Bullet) || StartsWith(lines[i], Pin)
    ensures x !in lines
  {
    forall i | 0 <= i < |lines|
      ensures lines[i] != x
    {
      var l := lines[i];
      if StartsWith(l, Bullet) {
        assert l[0] == l[..|Bullet|][0] == Bullet[0];
      } else {
        assert l[0] == l[..|Pin|][0] == Pin[0];
      }
    }
  }

  /** Each section heading appears exactly when its section has events. */
  lemma HeadingsIffNonEmpty(events: seq<Event>, header: string, tz: int)
    requires |header| > 0 && header[0] == '<'
    requires Parts(events, header, tz).Success?
    ensures var p := Parts(events, header, tz).value;
      && (AllDayHeading in p <==> AllDayOf(events) != [])
      && (TimedHeading in p <==> TimedOf(events) != [])
  {
    var a, t := AllDayOf(events), TimedOf(events);
    var total := TotalLine(|events|);
    assert total[2] == 'i';
    assert AllDayHeading[0] == '\n' && AllDayHeading[2] == 'b' && AllDayHeading[4] == 'A';
    assert TimedHeading[0] == '\n' && TimedHeading[2] == 'b' && TimedHeading[4] == 'S';
    NotAnItem(AllDayHeading, AllDayLines(a));
    NotAnItem(TimedHeading, AllDayLines(a));
    if t != [] {
      SectionLines(t, tz);
      var lines := TimedLines(StableSort.Sort(t, StartTime()), tz);
      NotAnItem(AllDayHeading, lines);
      NotAnItem(TimedHeading, lines);
    }
  }

  /** `s` ends with `suffix`. */
  predicate EndsWith(s: string, suffix: string) {
    |s| >= |suffix| && s[|s| - |suffix|..] == suffix
  }

  /** The total line carries the event count in decimal. */
  lemma TotalCount(n: nat)
    ensures var line, k := TotalLine(n), |Decimal(n)|;
      |line| >= 11 + k && AllDigits(line[11..11 + k]) && DigitsValue(line[11..11 + k]) == n
  {
    var digits := Decimal(n);
    var back := " event" + (if n != 1 then "s" else "") + " today</i>";
    DecimalValue(n);
    assert TotalLine(n) == "\n<i>Total: " + digits + back;
    Between("\n<i>Total: ", digits, back);
  }

  lemma Between(front: string, middle: string, back: string)
    ensures (front + middle + back)[|front|..|front| + |middle|] == middle
  {
  }

  /** The total line reads `events` for every count but one. */
  lemma TotalPlural(n: nat)
    ensures EndsWith(TotalLine(n), "events today</i>") <==> n != 1
  {
    var line := TotalLine(n);
    if n == 1 {
      assert Decimal(n) == "1";
      assert line == "\n<i>Total: 1 event today</i>";
    } else {
      var front := "\n<i>Total: " + Decimal(n) + " ";
      assert line == front + "events today</i>";
      assert line[|line| - 16..] == "events today</i>";
    }
  }

  /** A rendered summary opens with the header and closes with the total
      line. */
  lemma SummaryFrame(events: seq<Event>, now: Instant, tz: int)
    requires InRange(now.utc + tz)
    requires events != [] && Summary(events, now, tz).Success?
    ensures var text := Summary(events, now, tz).value;
      StartsWith(text, Header(now, tz)) && EndsWith(text, TotalLine(|events|))
  {
    PartsFrame(events, Header(now, tz), tz);
  }

  lemma PartsFrame(events: seq<Event>, header: string, tz: int)
    requires Parts(events, header, tz).Success?
    ensures var text := Join(Parts(events, header, tz).value, "\n");
      StartsWith(text, header) && EndsWith(text, TotalLine(|events|))
  {
    var p := Parts(events, header, tz).value;
    JoinEnds(p, "\n");
  }

  /** The all-day loop of `generate_summary`. */
  method AllDayItems(allDay: seq<Event>) returns (lines: seq<string>)
    ensures lines == AllDayLines(allDay)
  {
    lines := [];
    var i := 0;
    while i < |allDay|
      invariant 0 <= i <= |allDay|
      invariant lines == AllDayLines(allDay[..i])
    {
      var e := allDay[i];
      lines := lines + [Bullet + e.summary];
      if e.location != "" {
        lines := lines + [Pin + e.location];
      }
      assert allDay[..i + 1][..i] == allDay[..i];
      i := i + 1;
    }
    assert allDay[..i] == allDay;
  }

  /** The item line of one scheduled event and its location line. */
  method TimedItem(e: Event, tz: int) returns (lines: seq<string>)
    requires Representable(e, tz)
    ensures lines == ItemLines(TimedText(e, tz), e)
  {
    var timeText := FormatTimeRange(e.start.value, e.end, tz);
    lines := [Bullet + (timeText + ": " + e.summary)];
    if e.location != "" {
      lines := lines + [Pin + e.location];
    }
  }

  /** The scheduled loop of `generate_summary` over the sorted events. */
  method TimedItems(sorted: seq<Event>, tz: int) returns (r: Result<seq<string>, SummaryError>)
    ensures r == FormatAll(sorted, tz)
  {
    var lines := [];
    var i := 0;
    while i < |sorted|
      invariant 0 <= i <= |sorted|
      invariant forall j :: 0 <= j < i ==> Representable(sorted[j], tz)
      invariant lines == TimedLines(sorted[..i], tz)
    {
      if !Representable(sorted[i], tz) {
        return Failure(Overflow);
      }
      var item := TimedItem(sorted[i], tz);
      lines := lines + item;
      TimedLinesStep(sorted, i, tz);
      i := i + 1;
    }
    assert sorted[..i] == sorted;
    r := Success(lines);
  }

  lemma TimedLinesStep(sorted: seq<Event>, i: int, tz: int)
    requires 0 <= i < |sorted|
    requires forall j :: 0 <= j <= i ==> Representable(sorted[j], tz)
    ensures TimedLines(sorted[..i + 1], tz) == TimedLines(sorted[..i], tz) + ItemLines(TimedText(sorted[i], tz), sorted[i])
  {
    assert sorted[..i + 1][..i] == sorted[..i];
  }

  /** `sorted(...)` computes every key first, then sorts a new list. */
  method SortTimed(timed: seq<Event>, tz: int) returns (r: Result<seq<string>, SummaryError>)
    ensures r == TimedSection(timed, tz)
  {
    var k := 0;
    while k < |timed|
      invariant 0 <= k <= |timed|
      invariant forall j :: 0 <= j < k ==> timed[j].start.Some?
    {
      if timed[k].start.None? {
        return Failure(MissingStart);
      }
      k := k + 1;
    }
    var sorted := new Event[|timed|](j requires 0 <= j < |timed| => timed[j]);
    assert sorted[..] == timed;
    StableSort.SortInPlace(sorted, StartTime());
    r := TimedItems(sorted[..], tz);
  }

  /** `generate_summary`, building `message_parts` one line at a time. */
  method GenerateSummary(events: seq<Event>, now: Instant, tz: int) returns (r: Result<string, SummaryError>)
    requires InRange(now.utc + tz)
    ensures r == Summary(events, now, tz)
  {
    if |events| == 0 {
      return Success(NoEventsMessage(now, tz));
    }
    var header := Header(now, tz);
    var parts := [header];
    var allDay, timed := AllDayOf(events), TimedOf(events);
    if |allDay| > 0 {
      var lines := AllDayItems(allDay);
      parts := parts + [AllDayHeading] + lines;
    }
    assert parts == Opening(events, header);
    if |timed| > 0 {
      var section := SortTimed(timed, tz);
      if section.Failure? {
        return Failure(section.error);
      }
      parts := parts + [TimedHeading] + section.value;
    }
    parts := parts + [TotalLine(|events|)];
    r := Success(Join(parts, "\n"));
  }
}
