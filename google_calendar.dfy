/** The calendar client's day query (`GoogleCalendarClient` in
    google_calendar.py): the one-day window around a date, the fan-out over
    every calendar of the account with per-calendar failures skipped, the
    tagging of each event with its calendar's display name, the parsing of
    the raw event resources, and the stable sort by start time.

    The Calendar API is a parameter: a `Listing` stands for what
    `calendarList().list()` returned and a `Service` for
    `events().list(calendarId, timeMin, timeMax)`.  The display zone is a
    fixed UTC offset `tz`. */
module GoogleCalendar {
  import opened Wrappers
  import opened Text
  import opened Civil
  import opened Instants
  import opened Iso
  import StableSort

  /** The `start` or `end` object of an event resource: which of its two keys
      are present, with their text. */
  datatype Descriptor = Descriptor(dateTime: Option<string>, date: Option<string>)

  /** An event resource as the service returns it.  `calendarName` is the key
      the client itself adds before parsing. */
  datatype RawEvent = RawEvent(
    summary: Option<string>,
    location: Option<string>,
    description: Option<string>,
    calendarName: Option<string>,
    start: Descriptor,
    end: Descriptor)

  /** An entry of the account's calendar list. */
  datatype CalendarEntry = CalendarEntry(id: string, summary: Option<string>)

  /** The outcome of `calendarList().list().execute()`. */
  datatype Listing = Listed(items: seq<CalendarEntry>) | ListingFailed

  /** The outcome of `events().list(...).execute()` for one calendar. */
  datatype Fetch = Fetched(items: seq<RawEvent>) | FetchFailed

  /** The events service: calendar id, `timeMin` and `timeMax` to the result. */
  type Service = (string, string, string) -> Fetch

  /** A parsed event (the dict `_parse_events` builds); `start`, `allDay`
      and `end` are `None` where the dict has no such key. */
  datatype Event = Event(
    summary: string,
    location: string,
    description: string,
    calendarName: string,
    start: Option<Instant>,
    allDay: Option<bool>,
    end: Option<Instant>)

  /** The `date` argument of `get_events_for_date`: a `YYYY-MM-DD` string, a
      naive datetime (its wall-clock reading) or an aware one. */
  datatype DateArg = DateText(text: string) | Naive(local: int) | Aware(at: Instant)

  /** The exceptions that escape `get_events_for_date`: `ValueError` from
      `strptime` or `fromisoformat`, and `OverflowError` past 9999-12-31. */
  datatype Error = BadDate | BadDateTime | OutOfRange

  /** What a `datetime` argument can hold. */
  predicate ValidArg(arg: DateArg) {
    match arg
    case DateText(_) => true
    case Naive(local) => InRange(local)
    case Aware(at) => InRange(Local(at)) && ValidOffset(at.offset)
  }

  // ---------------------------------------------------------------------
  // The one-day window

  /** The aware datetime the day is taken from: a string goes through
      `strptime` and, like a naive datetime, is localised to the display
      zone; an aware datetime is kept with its own offset. */
  function Anchor(arg: DateArg, tz: int): (r: Result<Instant, Error>)
    requires ValidArg(arg) && ValidOffset(tz)
    ensures r.Success? ==> InRange(Local(r.value)) && ValidOffset(r.value.offset)
    ensures r.Failure? <==> arg.DateText? && ParseDateText(arg.text).None?
    ensures r.Success? && !arg.Aware? ==> r.value.offset == tz
    ensures arg.DateText? && r.Success? ==> Local(r.value) == Midnight(ParseDateText(arg.text).value)
    ensures arg.Naive? ==> r.Success? && Local(r.value) == arg.local
    ensures arg.Aware? ==> r == Success(arg.at)
  {
    match arg
    case DateText(text) =>
      (match ParseDateText(text)
       case None => Failure(BadDate)
       case Some(d) => Success(Localize(Midnight(d), tz)))
    case Naive(local) => Success(Localize(local, tz))
    case Aware(at) => Success(at)
  }

  /** `start_of_day` and `end_of_day`: midnight of the anchor's own wall-clock
      date in its own offset, and one day later; the window of 9999-12-31
      has no end that `datetime` can hold. */
  function DayWindow(at: Instant): (r: Result<(Instant, Instant), Error>)
    requires InRange(Local(at)) && ValidOffset(at.offset)
    ensures r.Failure? <==> CalendarDate(Local(at)) == Date(MaxYear, 12, 31)
    ensures r.Failure? ==> r.error == OutOfRange
    ensures r.Success? ==>
      var (first, last) := r.value;
      first.offset == at.offset && last.offset == at.offset &&
      InRange(Local(first)) && InRange(Local(last)) &&
      TimeOfDay(Local(first)) == 0 && CalendarDate(Local(first)) == CalendarDate(Local(at)) &&
      first.utc <= at.utc < last.utc && last.utc == first.utc + DayMicros
  {
    var d := CalendarDate(Local(at));
    var first := Localize(Midnight(d), at.offset);
    var last := Instant(first.utc + DayMicros, at.offset);
    MidnightOfDate(Local(at));
    OnDate(d, 0);
    NextMidnight(d);
    if InRange(Local(last)) then Success((first, last)) else Failure(OutOfRange)
  }

  // ---------------------------------------------------------------------
  // Calendars and their display names

  /** `get_all_calendars()`: the listed items, or none when the call fails. */
  function Calendars(listing: Listing): seq<CalendarEntry> {
    match listing
    case Listed(items) => items
    case ListingFailed => []
  }

  /** `[cal['id'] for cal in calendars]`. */
  function CalendarIds(listing: Listing): (ids: seq<string>)
    ensures |ids| == |Calendars(listing)|
    ensures forall k :: 0 <= k < |ids| ==> ids[k] == Calendars(listing)[k].id
  {
    var calendars := Calendars(listing);
    seq(|calendars|, k requires 0 <= k < |calendars| => calendars[k].id)
  }

  /** Entry `k` is the first entry with this id. */
  predicate FirstWithId(calendars: seq<CalendarEntry>, id: string, k: int) {
    0 <= k < |calendars| && calendars[k].id == id &&
    forall j :: 0 <= j < k ==> calendars[j].id != id
  }

  /** The name the events of calendar `id` are tagged with: the summary of
      the first listed calendar with that id (the id itself when it has no
      summary), or the id when no listed calendar has it. */
  function DisplayName(calendars: seq<CalendarEntry>, id: string): (name: string)
    ensures forall k :: FirstWithId(calendars, id, k) ==> name == calendars[k].summary.GetOr(id)
    ensures (forall k :: 0 <= k < |calendars| ==> calendars[k].id != id) ==> name == id
  {
    if calendars == [] then id
    else if calendars[0].id == id then calendars[0].summary.GetOr(id)
    else
      var rest := DisplayName(calendars[1..], id);
      assert forall k :: FirstWithId(calendars, id, k) ==> FirstWithId(calendars[1..], id, k - 1);
      rest
  }

  /** The lookup loop of the fan-out: the calendar list is read again and
      scanned until the first entry with the id. */
  method LookupName(lookup: Listing, id: string) returns (name: string)
    ensures name == DisplayName(Calendars(lookup), id)
  {
    var calendars := Calendars(lookup);
    name := id;
    var i := 0;
    while i < |calendars|
      invariant 0 <= i <= |calendars|
      invariant DisplayName(calendars[i..], id) == DisplayName(calendars, id)
      invariant name == id
    {
      if calendars[i].id == id {
        name := calendars[i].summary.GetOr(id);
        break;
      }
      assert calendars[i..][1..] == calendars[i + 1..];
      i := i + 1;
    }
  }

  // ---------------------------------------------------------------------
  // The fan-out over calendars

  /** Every event of a response with `calendar_name` set. */
  function Tagged(items: seq<RawEvent>, name: string): (r: seq<RawEvent>)
    ensures |r| == |items|
    ensures forall i :: 0 <= i < |r| ==> r[i] == items[i].(calendarName := Some(name))
  {
    seq(|items|, i requires 0 <= i < |items| => items[i].(calendarName := Some(name)))
  }

  /** What one calendar adds to `all_events`: its events tagged with its
      display name, or nothing when its request fails. */
  function Contribution(id: string, service: Service, timeMin: string, timeMax: string, lookup: Listing): (r: seq<RawEvent>)
    ensures service(id, timeMin, timeMax).FetchFailed? ==> r == []
    ensures service(id, timeMin, timeMax).Fetched? ==>
      var items := service(id, timeMin, timeMax).items;
      && |r| == |items|
      && forall i :: 0 <= i < |r| ==>
           r[i].calendarName == Some(DisplayName(Calendars(lookup), id)) &&
           r[i].(calendarName := items[i].calendarName) == items[i]
  {
    match service(id, timeMin, timeMax)
    case FetchFailed => []
    case Fetched(items) => Tagged(items, DisplayName(Calendars(lookup), id))
  }

  /** `Contribution` of every calendar for one window. */
  function Contributions(service: Service, timeMin: string, timeMax: string, lookup: Listing): string -> seq<RawEvent> {
    id => Contribution(id, service, timeMin, timeMax, lookup)
  }

  /** `all_events` after the loop over `ids`, each calendar adding `add(id)`. */
  function Collect(ids: seq<string>, add: string -> seq<RawEvent>): (r: seq<RawEvent>)
    ensures forall k, e :: 0 <= k < |ids| && e in add(ids[k]) ==> e in r
  {
    if ids == [] then []
    else
      var init := ids[..|ids| - 1];
      assert forall k :: 0 <= k < |init| ==> init[k] == ids[k];
      Collect(init, add) + add(ids[|ids| - 1])
  }

  /** The fan-out is a concatenation: calendars contribute independently, in
      the order they are listed. */
  lemma {:induction false} CollectAppend(a: seq<string>, b: seq<string>, add: string -> seq<RawEvent>)
    ensures Collect(a + b, add) == Collect(a, add) + Collect(b, add)
    decreases |b|
  {
    if b == [] {
      assert a + b == a;
    } else {
      var b0 := b[..|b| - 1];
      assert (a + b)[..|a + b| - 1] == a + b0;
      assert (a + b)[|a + b| - 1] == b[|b| - 1];
      CollectAppend(a, b0, add);
    }
  }

  /** A calendar whose request fails is skipped: the result is the one
      without it, so one failure does not abort the others. */
  lemma CollectSkipsFailure(a: seq<string>, id: string, b: seq<string>, service: Service, timeMin: string, timeMax: string, lookup: Listing)
    requires service(id, timeMin, timeMax) == FetchFailed
    ensures var add := Contributions(service, timeMin, timeMax, lookup);
      Collect(a + [id] + b, add) == Collect(a + b, add)
  {
    var add := Contributions(service, timeMin, timeMax, lookup);
    assert add(id) == [];
    CollectSkipsEmpty(a, id, b, add);
  }

  lemma CollectSkipsEmpty(a: seq<string>, id: string, b: seq<string>, add: string -> seq<RawEvent>)
    requires add(id) == []
    ensures Collect(a + [id] + b, add) == Collect(a + b, add)
  {
    CollectAppend(a + [id], b, add);
    CollectAppend(a, [id], add);
    CollectAppend(a, b, add);
    assert [id][..0] == [];
    assert Collect([id], add) == [];
  }

  /** Every collected event is an event some listed calendar returned, tagged
      with that calendar's display name. */
  lemma {:induction false} CollectProvenance(ids: seq<string>, service: Service, timeMin: string, timeMax: string, lookup: Listing, e: RawEvent)
    requires e in Collect(ids, Contributions(service, timeMin, timeMax, lookup))
    ensures exists k, items: seq<RawEvent>, i ::
      && 0 <= k < |ids| && service(ids[k], timeMin, timeMax) == Fetched(items)
      && 0 <= i < |items| && e == items[i].(calendarName := Some(DisplayName(Calendars(lookup), ids[k])))
    decreases |ids|
  {
    var add := Contributions(service, timeMin, timeMax, lookup);
    var init, id := ids[..|ids| - 1], ids[|ids| - 1];
    if e in Collect(init, add) {
      CollectProvenance(init, service, timeMin, timeMax, lookup, e);
      var k, items: seq<RawEvent>, i :| 0 <= k < |init| && service(init[k], timeMin, timeMax) == Fetched(items) &&
        0 <= i < |items| && e == items[i].(calendarName := Some(DisplayName(Calendars(lookup), init[k])));
      assert ids[k] == init[k];
    } else {
      assert e in Contribution(id, service, timeMin, timeMax, lookup);
      var items := service(id, timeMin, timeMax).items;
      var i :| 0 <= i < |items| && e == Tagged(items, DisplayName(Calendars(lookup), id))[i];
      assert ids[|ids| - 1] == id;
    }
  }

  /** `event['calendar_name'] = calendar_name` for every event of a response,
      in place. */
  method TagAll(events: array<RawEvent>, name: string)
    modifies events
    ensures events[..] == Tagged(old(events[..]), name)
  {
    var i := 0;
    while i < events.Length
      invariant 0 <= i <= events.Length
      invariant forall j :: 0 <= j < i ==> events[j] == old(events[j]).(calendarName := Some(name))
      invariant forall j :: i <= j < events.Length ==> events[j] == old(events[j])
    {
      events[i] := events[i].(calendarName := Some(name));
      i := i + 1;
    }
  }

  /** The body of the `try` for one calendar: request its events, look its
      name up, tag them.  A failed request adds nothing. */
  method FetchCalendar(id: string, service: Service, timeMin: string, timeMax: string, lookup: Listing)
    returns (events: seq<RawEvent>)
    ensures events == Contribution(id, service, timeMin, timeMax, lookup)
  {
    match service(id, timeMin, timeMax)
    case FetchFailed =>
      events := [];
    case Fetched(items) =>
      var name := LookupName(lookup, id);
      var tagged := new RawEvent[|items|](i requires 0 <= i < |items| => items[i]);
      assert tagged[..] == items;
      TagAll(tagged, name);
      events := tagged[..];
  }

  /** One more calendar of the loop adds its contribution at the end. */
  lemma CollectStep(ids: seq<string>, n: int, add: string -> seq<RawEvent>)
    requires 0 <= n < |ids|
    ensures Collect(ids[..n + 1], add) == Collect(ids[..n], add) + add(ids[n])
  {
    assert ids[..n + 1][..n] == ids[..n];
  }

  /** The loop over calendar ids, extending `all_events`. */
  method CollectEvents(ids: seq<string>, service: Service, timeMin: string, timeMax: string, lookup: Listing)
    returns (all: seq<RawEvent>)
    ensures all == Collect(ids, Contributions(service, timeMin, timeMax, lookup))
  {
    ghost var add := Contributions(service, timeMin, timeMax, lookup);
    all := [];
    var n := 0;
    while n < |ids|
      invariant 0 <= n <= |ids|
      invariant all == Collect(ids[..n], add)
    {
      var events := FetchCalendar(ids[n], service, timeMin, timeMax, lookup);
      CollectStep(ids, n, add);
      all := all + events;
      n := n + 1;
    }
    assert ids[..n] == ids;
  }

  // ---------------------------------------------------------------------
  // Parsing

  /** The start or end of an event: the instant and whether it came from an
      all-day `date`; `None` when the object has neither key. */
  function ParseBoundary(d: Descriptor, tz: int): (r: Result<Option<(Instant, bool)>, Error>)
    requires ValidOffset(tz)
    ensures r.Success? && r.value.Some? ==> InRange(Local(r.value.value.0)) && ValidOffset(r.value.value.0.offset)
    ensures d.dateTime.Some? ==>
      && (r.Failure? <==> ParseEventDateTime(d.dateTime.value).None?)
      && (r.Failure? ==> r.error == BadDateTime)
      && (r.Success? ==> r.value == Some((ParseEventDateTime(d.dateTime.value).value, false)))
    ensures d.dateTime.None? && d.date.Some? ==>
      && (r.Failure? <==> ParseDateText(d.date.value).None?)
      && (r.Failure? ==> r.error == BadDate)
      && (r.Success? ==> r.value.Some? && r.value.value.1 && r.value.value.0.offset == tz &&
                         Local(r.value.value.0) == Midnight(ParseDateText(d.date.value).value))
    ensures d.dateTime.None? && d.date.None? ==> r == Success(None)
  {
    if d.dateTime.Some? then
      match ParseEventDateTime(d.dateTime.value)
      case None => Failure(BadDateTime)
      case Some(i) => Success(Some((i, false)))
    else if d.date.Some? then
      match ParseDateText(d.date.value)
      case None => Failure(BadDate)
      case Some(day) => Success(Some((Localize(Midnight(day), tz), true)))
    else Success(None)
  }

  /** One iteration of `_parse_events`: the defaults for missing keys, then
      start (with the all-day flag) and end. */
  function ParseEvent(raw: RawEvent, tz: int): (r: Result<Event, Error>)
    requires ValidOffset(tz)
    ensures r.Success? ==>
      && r.value.summary == (if raw.summary.Some? then raw.summary.value else "No title")
      && r.value.location == (if raw.location.Some? then raw.location.value else "")
      && r.value.description == (if raw.description.Some? then raw.description.value else "")
      && r.value.calendarName == (if raw.calendarName.Some? then raw.calendarName.value else "")
  {
    match ParseBoundary(raw.start, tz)
    case Failure(e) => Failure(e)
    case Success(start) =>
      match ParseBoundary(raw.end, tz)
      case Failure(e) => Failure(e)
      case Success(end) =>
        Success(Event(
          raw.summary.GetOr("No title"),
          raw.location.GetOr(""),
          raw.description.GetOr(""),
          raw.calendarName.GetOr(""),
          if start.Some? then Some(start.value.0) else None,
          if start.Some? then Some(start.value.1) else None,
          if end.Some? then Some(end.value.0) else None))
  }

  /** What parsing promises for one event: a `dateTime` wins over a `date`;
      an event has an all-day flag exactly when it has a start; a malformed
      text is an error. */
  lemma ParseEventMeaning(raw: RawEvent, tz: int)
    requires ValidOffset(tz)
    ensures var r := ParseEvent(raw, tz);
      r.Failure? <==>
        (raw.start.dateTime.Some? && ParseEventDateTime(raw.start.dateTime.value).None?) ||
        (raw.start.dateTime.None? && raw.start.date.Some? && ParseDateText(raw.start.date.value).None?) ||
        (raw.end.dateTime.Some? && ParseEventDateTime(raw.end.dateTime.value).None?) ||
        (raw.end.dateTime.None? && raw.end.date.Some? && ParseDateText(raw.end.date.value).None?)
    ensures var r := ParseEvent(raw, tz);
      r.Success? ==>
        (r.value.start.Some? <==> r.value.allDay.Some?) &&
        (r.value.start.Some? <==> raw.start.dateTime.Some? || raw.start.date.Some?) &&
        (r.value.allDay == Some(true) <==> raw.start.dateTime.None? && raw.start.date.Some?) &&
        (r.value.end.Some? <==> raw.end.dateTime.Some? || raw.end.date.Some?) &&
        (raw.start.dateTime.Some? ==> ParseEventDateTime(raw.start.dateTime.value) == r.value.start) &&
        (raw.end.dateTime.Some? ==> ParseEventDateTime(raw.end.dateTime.value) == r.value.end)
  {
  }

  /** A boundary given only by its `date` is midnight of that date in the
      display zone: an all-day start, and an end taken from a `date`. */
  lemma DateBoundaries(raw: RawEvent, tz: int)
    requires ValidOffset(tz)
    ensures var r := ParseEvent(raw, tz);
      r.Success? && r.value.allDay == Some(true) ==>
        var start := r.value.start.value;
        start.offset == tz && InRange(Local(start)) && TimeOfDay(Local(start)) == 0 &&
        ParseDateText(raw.start.date.value) == Some(CalendarDate(Local(start)))
    ensures var r := ParseEvent(raw, tz);
      r.Success? && raw.end.dateTime.None? && raw.end.date.Some? ==>
        var end := r.value.end.value;
        end.offset == tz && InRange(Local(end)) && TimeOfDay(Local(end)) == 0 &&
        ParseDateText(raw.end.date.value) == Some(CalendarDate(Local(end)))
  {
    DateBoundary(raw.start, tz);
    DateBoundary(raw.end, tz);
    ParseEventMeaning(raw, tz);
  }

  lemma DateBoundary(d: Descriptor, tz: int)
    requires ValidOffset(tz)
    ensures var r := ParseBoundary(d, tz);
      d.dateTime.None? && d.date.Some? && r.Success? ==>
        var i := r.value.value.0;
        i.offset == tz && InRange(Local(i)) && TimeOfDay(Local(i)) == 0 &&
        ParseDateText(d.date.value) == Some(CalendarDate(Local(i)))
  {
    if d.dateTime.None? && d.date.Some? && ParseBoundary(d, tz).Success? {
      var day := ParseDateText(d.date.value).value;
      OnDate(day, 0);
      assert Local(ParseBoundary(d, tz).value.value.0) == Midnight(day) + 0;
    }
  }

  /** The `Z` designator and `+00:00` are the same offset to the parser: an
      event whose start reads `...Z` parses exactly as with `...+00:00`. */
  lemma ZuluStart(raw: RawEvent, p: string, tz: int)
    requires ValidOffset(tz)
    ensures ParseEvent(raw.(start := Descriptor(Some(p + "Z"), raw.start.date)), tz) ==
            ParseEvent(raw.(start := Descriptor(Some(p + "+00:00"), raw.start.date)), tz)
  {
    ZuluSameAsUtcOffset(p);
  }

  /** `_parse_events`: every event parsed in order; the first malformed one
      raises. */
  function ParseAll(raws: seq<RawEvent>, tz: int): Result<seq<Event>, Error>
    requires ValidOffset(tz)
  {
    if raws == [] then Success([])
    else
      match ParseAll(raws[..|raws| - 1], tz)
      case Failure(e) => Failure(e)
      case Success(parsed) =>
        match ParseEvent(raws[|raws| - 1], tz)
        case Failure(e) => Failure(e)
        case Success(event) => Success(parsed + [event])
  }

  /** One record per input event, in input order, nothing dropped or
      added. */
  lemma {:induction false} ParseAllValues(raws: seq<RawEvent>, tz: int)
    requires ValidOffset(tz)
    ensures var r := ParseAll(raws, tz);
      r.Success? ==> |r.value| == |raws| && forall i :: 0 <= i < |raws| ==> ParseEvent(raws[i], tz) == Success(r.value[i])
    decreases |raws|
  {
    if raws != [] && ParseAll(raws, tz).Success? {
      var init, last := raws[..|raws| - 1], raws[|raws| - 1];
      ParseAllLast(raws, tz);
      ParseAllValues(init, tz);
      var parsed, event := ParseAll(init, tz).value, ParseEvent(last, tz).value;
      var all := parsed + [event];
      forall i | 0 <= i < |raws|
        ensures ParseEvent(raws[i], tz) == Success(all[i])
      {
        if i < |init| {
          assert raws[i] == init[i] && all[i] == parsed[i];
        }
      }
    }
  }

  lemma ParseAllLast(raws: seq<RawEvent>, tz: int)
    requires ValidOffset(tz) && raws != [] && ParseAll(raws, tz).Success?
    ensures var init := raws[..|raws| - 1];
      && ParseAll(init, tz).Success? && ParseEvent(raws[|raws| - 1], tz).Success?
      && ParseAll(raws, tz).value == ParseAll(init, tz).value + [ParseEvent(raws[|raws| - 1], tz).value]
  {
  }

  /** The list fails exactly when one of its events does. */
  lemma ParseAllFailure(raws: seq<RawEvent>, tz: int)
    requires ValidOffset(tz)
    ensures ParseAll(raws, tz).Failure? <==> exists i :: 0 <= i < |raws| && ParseEvent(raws[i], tz).Failure?
  {
    if ParseAll(raws, tz).Failure? {
      FailingEvent(raws, tz);
    } else {
      ParseAllValues(raws, tz);
    }
  }

  lemma {:induction false} FailingEvent(raws: seq<RawEvent>, tz: int)
    requires ValidOffset(tz)
    requires ParseAll(raws, tz).Failure?
    ensures exists i :: 0 <= i < |raws| && ParseEvent(raws[i], tz).Failure?
    decreases |raws|
  {
    var init := raws[..|raws| - 1];
    if ParseAll(init, tz).Failure? {
      FailingEvent(init, tz);
      var i :| 0 <= i < |init| && ParseEvent(init[i], tz).Failure?;
      assert raws[i] == init[i];
    } else {
      assert ParseEvent(raws[|raws| - 1], tz).Failure?;
    }
  }

  /** Once a prefix fails, the whole list fails with the same error. */
  lemma {:induction false} ParseAllPrefixFails(raws: seq<RawEvent>, n: int, tz: int)
    requires ValidOffset(tz) && 0 <= n <= |raws|
    requires ParseAll(raws[..n], tz).Failure?
    ensures ParseAll(raws, tz) == ParseAll(raws[..n], tz)
    decreases |raws| - n
  {
    if n < |raws| {
      assert raws[..n + 1][..n] == raws[..n];
      ParseAllPrefixFails(raws, n + 1, tz);
    } else {
      assert raws[..n] == raws;
    }
  }

  /** One more event of the loop: a failure is the failure of the whole
      list, a parsed event extends the list parsed so far. */
  lemma ParseAllStep(raws: seq<RawEvent>, i: int, tz: int)
    requires ValidOffset(tz) && 0 <= i < |raws| && ParseAll(raws[..i], tz).Success?
    ensures ParseEvent(raws[i], tz).Failure? ==> ParseAll(raws, tz) == Failure(ParseEvent(raws[i], tz).error)
    ensures ParseEvent(raws[i], tz).Success? ==>
      ParseAll(raws[..i + 1], tz) == Success(ParseAll(raws[..i], tz).value + [ParseEvent(raws[i], tz).value])
  {
    assert raws[..i + 1][..i] == raws[..i];
    if ParseEvent(raws[i], tz).Failure? {
      ParseAllPrefixFails(raws, i + 1, tz);
    }
  }

  /** The loop of `_parse_events`, appending to `parsed_events`. */
  method ParseEvents(raws: seq<RawEvent>, tz: int) returns (r: Result<seq<Event>, Error>)
    requires ValidOffset(tz)
    ensures r == ParseAll(raws, tz)
  {
    var parsed: seq<Event> := [];
    var i := 0;
    while i < |raws|
      invariant 0 <= i <= |raws|
      invariant ParseAll(raws[..i], tz) == Success(parsed)
    {
      var event := ParseEvent(raws[i], tz);
      ParseAllStep(raws, i, tz);
      if event.Failure? {
        return Failure(event.error);
      }
      parsed := parsed + [event.value];
      i := i + 1;
    }
    assert raws[..i] == raws;
    r := Success(parsed);
  }

  // ---------------------------------------------------------------------
  // Sorting and the whole query

  /** `localize(datetime(1900, 1, 1))`, the start assumed for events
      without one. */
  function Sentinel(tz: int): (i: Instant)
    ensures Local(i) == Midnight(Date(1900, 1, 1)) && i.offset == tz
  {
    Localize(Midnight(Date(1900, 1, 1)), tz)
  }

  /** The sort key `x.get('start_time', min_datetime)`, as the point in time
      aware datetimes are compared by. */
  function StartKey(tz: int): Event -> int {
    (e: Event) => match e.start
      case Some(i) => i.utc
      case None => Sentinel(tz).utc
  }

  /** The window of a `date` argument, if it has one. */
  function Window(arg: DateArg, tz: int): (r: Result<(Instant, Instant), Error>)
    requires ValidArg(arg) && ValidOffset(tz)
    ensures r.Success? ==>
      InRange(Local(r.value.0)) && ValidOffset(r.value.0.offset) &&
      InRange(Local(r.value.1)) && ValidOffset(r.value.1.offset)
    ensures r.Failure? <==> Anchor(arg, tz).Failure? || CalendarDate(Local(Anchor(arg, tz).value)) == Date(MaxYear, 12, 31)
    ensures r.Success? ==>
      var at := Anchor(arg, tz).value;
      && TimeOfDay(Local(r.value.0)) == 0 && CalendarDate(Local(r.value.0)) == CalendarDate(Local(at))
      && r.value.0.utc <= at.utc < r.value.1.utc && r.value.1.utc == r.value.0.utc + DayMicros
  {
    match Anchor(arg, tz)
    case Failure(e) => Failure(e)
    case Success(at) => DayWindow(at)
  }

  /** All events of the window's calendars, tagged, before parsing: the
      request bounds are the `isoformat` texts of the window. */
  function RawEvents(window: (Instant, Instant), listing: Listing, lookup: Listing, service: Service): seq<RawEvent>
    requires InRange(Local(window.0)) && ValidOffset(window.0.offset)
    requires InRange(Local(window.1)) && ValidOffset(window.1.offset)
  {
    Collect(CalendarIds(listing), Contributions(service, IsoFormat(window.0), IsoFormat(window.1), lookup))
  }

  /** Parsing, then `list.sort` by start time. */
  function ParseAndSort(raws: seq<RawEvent>, tz: int): Result<seq<Event>, Error>
    requires ValidOffset(tz)
  {
    match ParseAll(raws, tz)
    case Failure(e) => Failure(e)
    case Success(parsed) => Success(StableSort.Sort(parsed, StartKey(tz)))
  }

  /** The events of one window: fetched, tagged, parsed and sorted. */
  function EventsIn(window: (Instant, Instant), tz: int, listing: Listing, lookup: Listing, service: Service): Result<seq<Event>, Error>
    requires InRange(Local(window.0)) && ValidOffset(window.0.offset)
    requires InRange(Local(window.1)) && ValidOffset(window.1.offset)
    requires ValidOffset(tz)
  {
    ParseAndSort(RawEvents(window, listing, lookup, service), tz)
  }

  /** `get_events_for_date(date)`. */
  function EventsFor(arg: DateArg, tz: int, listing: Listing, lookup: Listing, service: Service): Result<seq<Event>, Error>
    requires ValidArg(arg) && ValidOffset(tz)
  {
    match Window(arg, tz)
    case Failure(e) => Failure(e)
    case Success(window) => EventsIn(window, tz, listing, lookup, service)
  }

  /** The returned events are the parsed events sorted by start: ordered,
      the same events, and events with equal starts in fetch order. */
  lemma SortedByStart(raws: seq<RawEvent>, tz: int)
    requires ValidOffset(tz) && ParseAndSort(raws, tz).Success?
    ensures var parsed := ParseAll(raws, tz);
      var events := ParseAndSort(raws, tz).value;
      parsed.Success? &&
      StableSort.SortedBy(events, StartKey(tz)) &&
      multiset(events) == multiset(parsed.value) &&
      forall k :: StableSort.Filter(events, StartKey(tz), k) == StableSort.Filter(parsed.value, StartKey(tz), k)
  {
    var parsed := ParseAll(raws, tz).value;
    StableSort.SortSorted(parsed, StartKey(tz));
    forall k ensures StableSort.Filter(StableSort.Sort(parsed, StartKey(tz)), StartKey(tz), k) ==
                     StableSort.Filter(parsed, StartKey(tz), k) {
      StableSort.SortStable(parsed, StartKey(tz), k);
    }
  }

  /** The window is the day of the argument: for a string, the day it names,
      from local midnight in the display zone. */
  lemma WindowOfDateText(text: string, tz: int)
    requires ValidOffset(tz)
    requires ParseDateText(text).Some?
    ensures var d := ParseDateText(text).value;
      var w := Window(DateText(text), tz);
      (w.Success? <==> d != Date(MaxYear, 12, 31)) &&
      (w.Success? ==> Local(w.value.0) == Midnight(d) && w.value.0.offset == tz &&
                      w.value.1.utc == w.value.0.utc + DayMicros)
  {
    var d := ParseDateText(text).value;
    OnDate(d, 0);
    var at := Localize(Midnight(d), tz);
    assert CalendarDate(Local(at)) == d;
    MidnightOfDate(Local(at));
  }

  /** A failed calendar listing gives an empty day, not an error. */
  lemma NoCalendarsNoEvents(window: (Instant, Instant), tz: int, lookup: Listing, service: Service)
    requires InRange(Local(window.0)) && ValidOffset(window.0.offset)
    requires InRange(Local(window.1)) && ValidOffset(window.1.offset)
    requires ValidOffset(tz)
    ensures EventsIn(window, tz, ListingFailed, lookup, service) == Success([])
  {
    assert RawEvents(window, ListingFailed, lookup, service) == [];
    assert ParseAll([], tz) == Success([]);
  }

  /** The end of `get_events_for_date`: `_parse_events`, then the in-place
      sort of the parsed list. */
  method ParseAndSortEvents(raws: seq<RawEvent>, tz: int) returns (r: Result<seq<Event>, Error>)
    requires ValidOffset(tz)
    ensures r == ParseAndSort(raws, tz)
  {
    var parsed := ParseEvents(raws, tz);
    if parsed.Failure? {
      return Failure(parsed.error);
    }
    var events := new Event[|parsed.value|](i requires 0 <= i < |parsed.value| => parsed.value[i]);
    assert events[..] == parsed.value;
    StableSort.SortInPlace(events, StartKey(tz));
    r := Success(events[..]);
  }

  /** `get_events_for_date`: window, fan-out, parse, sort. */
  method EventsForDate(arg: DateArg, tz: int, listing: Listing, lookup: Listing, service: Service)
    returns (r: Result<seq<Event>, Error>)
    requires ValidArg(arg) && ValidOffset(tz)
    ensures r == EventsFor(arg, tz, listing, lookup, service)
  {
    var window := Window(arg, tz);
    if window.Failure? {
      return Failure(window.error);
    }
    r := EventsInWindow(window.value, tz, listing, lookup, service);
  }

  /** The body of `get_events_for_date` once the window is known. */
  method EventsInWindow(window: (Instant, Instant), tz: int, listing: Listing, lookup: Listing, service: Service)
    returns (r: Result<seq<Event>, Error>)
    requires InRange(Local(window.0)) && ValidOffset(window.0.offset)
    requires InRange(Local(window.1)) && ValidOffset(window.1.offset)
    requires ValidOffset(tz)
    ensures r == EventsIn(window, tz, listing, lookup, service)
  {
    var (first, last) := window;
    var timeMin, timeMax := IsoFormat(first), IsoFormat(last);
    var ids := CalendarIds(listing);
    var raws := CollectEvents(ids, service, timeMin, timeMax, lookup);
    r := ParseAndSortEvents(raws, tz);
  }
}
