# Calendar reminder: the day query and the daily summary, in Dafny

This project models the two parts of the calendar reminder that turn a day
into a message:

- `GoogleCalendarClient.get_events_for_date` (google_calendar.py). It takes
  the one-day window around a date and asks every calendar of the account for
  its events in that window. A calendar whose request fails is skipped. Each
  event is tagged with its calendar's display name. The raw event resources
  are parsed into records (`_parse_events`), and the records are sorted by
  start with a stable sort. A missing start sorts as local midnight of
  1900-01-01.
- `SummaryGenerator.generate_summary` (summary_generator.py). The events are
  split into all-day and timed events. It writes a header with the long date,
  the all-day items, and the timed items sorted by start with their time
  ranges (`_format_time_range`), then a closing total line. An empty day gets
  `_no_events_message` instead.

Modules, one per concern:

| file | module | what it holds |
|---|---|---|
| wrappers.dfy | `Wrappers` | `Option`, `Result` |
| text.dfy | `Text` | decimal digits, zero padding, `str.replace`, `str.join` |
| civil.dfy | `Civil` | proleptic Gregorian dates, day ordinals, weekday and month names |
| instants.dfy | `Instants` | aware datetimes as microseconds since 0001-01-01 UTC plus their own UTC offset |
| iso.dfy | `Iso` | `datetime.fromisoformat`, `datetime.isoformat`, `strptime('%Y-%m-%d')` |
| stable_sort.dfy | `StableSort` | `list.sort` / `sorted` with a key, as a stable insertion sort on values and in place on an array |
| google_calendar.dfy | `GoogleCalendar` | `get_events_for_date`, `_parse_events`, the calendar-name lookup |
| summary_generator.dfy | `SummaryGenerator` | `generate_summary`, `_format_time_range`, `_no_events_message` |

Each loop in the source is a method that is proved equal to a specification
function: the fan-out, the name lookup, the tagging, the parse loop, the
in-place sort, the summary's item loops and the summary itself. The
properties are proved about those functions.

Time is an integer number of microseconds. An instant is
`Instant(utc, offset)`. Aware datetimes compare by `utc`, as Python compares
them. The display time zone is a fixed UTC offset `tz`. The moment
`datetime.now(tz)` would return is the parameter `now`.

The Calendar API is made of three parameters:

- `listing`: the outcome of the first `calendarList().list()` call.
- `lookup`: the outcome of the calls made inside the loop to find names.
- `service`: a function from calendar id, `timeMin` and `timeMax` to the
  response, or to a failure.

Exceptions that escape the source become `Failure` results:

- `ValueError` from the date parsers becomes `BadDate` or `BadDateTime`.
- `OverflowError` past 9999-12-31 becomes `OutOfRange`.
- In the summary, `KeyError` becomes `MissingStart` and `OverflowError` becomes
  `Overflow`.

Three behaviours of the code are easy to miss, and the model keeps them:

- A present but empty `summary` stays empty. Only a missing key becomes
  "No title" (google_calendar.py:109).
- An event need not have a start. An event with neither start key has no
  `start_time` and no `all_day`. `get_events_for_date` sorts it with the 1900
  sentinel, but `generate_summary` then raises `KeyError` when it sorts the
  timed events (summary_generator.py:29).
- The timed line is `start - end: title`, and the total line reads
  `Total: N event(s) today` (summary_generator.py:31, 36).

## Model

| member | source | states |
|---|---|---|
| GoogleCalendar.Anchor | google_calendar.py:53-57 | A string argument fails exactly when `strptime('%Y-%m-%d')` rejects it. Otherwise it gives midnight of the parsed date in the display offset. A naive argument keeps its wall-clock reading in the display offset. An aware argument is kept unchanged. |
| GoogleCalendar.DayWindow | google_calendar.py:59-60 | The window starts at local midnight of the argument's own date, in its own offset, and is exactly one day long. It contains the argument. It fails with `OutOfRange` exactly when that date is 9999-12-31. |
| GoogleCalendar.Window | google_calendar.py:53-60 | The window fails exactly when the anchor fails or falls on 9999-12-31. Otherwise it starts at local midnight of the anchor's date and lasts one day, and the anchor lies inside it. |
| GoogleCalendar.WindowOfDateText | google_calendar.py:53-60 | For a `YYYY-MM-DD` argument, the window starts at midnight of that date in the display zone and lasts one day. It exists unless the date is 9999-12-31. |
| Instants.NextMidnight | google_calendar.py:60 | The next midnight after a date can be held unless the date is 9999-12-31. |
| Iso.IsoFormatRoundTrip | google_calendar.py:62-63 | `fromisoformat(dt.isoformat()) == dt` for every aware datetime, so the request bounds denote the window exactly. |
| GoogleCalendar.CalendarIds | google_calendar.py:67-68 | One id per listed calendar, in list order. |
| GoogleCalendar.NoCalendarsNoEvents | google_calendar.py:44-50 | A failed calendar listing gives an empty list of events, not an error. |
| GoogleCalendar.DisplayName | google_calendar.py:83-87 | The name is the summary of the first listed calendar with the id, or the id if that calendar has no summary. It is the id when no listed calendar has it. |
| GoogleCalendar.LookupName | google_calendar.py:83-87 | The lookup loop returns `DisplayName` of the looked-up listing. |
| GoogleCalendar.Tagged | google_calendar.py:89-90 | The same number of events. Each event is unchanged except that `calendar_name` is set. |
| GoogleCalendar.TagAll | google_calendar.py:89-90 | Tagging in place turns the array into `Tagged` of its old contents. |
| GoogleCalendar.FetchCalendar | google_calendar.py:71-92 | One calendar adds its tagged events, or nothing when its request fails. |
| GoogleCalendar.Contribution | google_calendar.py:71-92 | A failed request contributes nothing. A fetched response contributes one event per item, each with `calendar_name` set to the calendar's display name and otherwise unchanged. |
| GoogleCalendar.Collect | google_calendar.py:65-95 | No event contributed by a listed calendar is lost from `all_events`. |
| GoogleCalendar.CollectEvents | google_calendar.py:65-95 | The loop over calendar ids builds exactly `Collect` of the ids. |
| GoogleCalendar.CollectAppend | google_calendar.py:70-92 | The fan-out is a concatenation: calendars contribute independently, in list order. |
| GoogleCalendar.CollectSkipsFailure | google_calendar.py:93-95 | A calendar whose request fails leaves the result as if it were not listed, so one failure does not abort the others. |
| GoogleCalendar.CollectProvenance | google_calendar.py:70-92 | Every collected event is an event that some listed calendar returned, tagged with that calendar's display name. |
| GoogleCalendar.ParseBoundary | google_calendar.py:115-129 | A `dateTime` wins: it gives its `fromisoformat` instant and is not all-day, or fails with `BadDateTime`. Otherwise a `date` gives midnight of that date in the display zone and is all-day, or fails with `BadDate`. With neither key there is no boundary. A parsed boundary can be held and has a valid offset. |
| GoogleCalendar.ParseEvent | google_calendar.py:108-113 | A parsed event takes its texts from the resource. A missing `summary` becomes "No title". A missing `location`, `description` or `calendar_name` becomes the empty text. A present value is kept. |
| GoogleCalendar.ParseEventMeaning | google_calendar.py:108-129 | Parsing fails exactly when a `dateTime`, or a `date` without a `dateTime`, is malformed. `dateTime` wins over `date` for the start and for the end. An event has an all-day flag exactly when it has a start, and the flag is true exactly for a `date` start. |
| GoogleCalendar.DateBoundaries | google_calendar.py:118-129 | An all-day start, and an end given only by a `date`, is midnight of that date in the display zone. |
| GoogleCalendar.ZuluStart | google_calendar.py:116-117 | A start written `...Z` parses exactly as the same start written `...+00:00`, whatever comes before the `Z`. |
| Iso.ZuluSameAsUtcOffset | google_calendar.py:117 | `fromisoformat(s.replace('Z', '+00:00'))` reads `pZ` as `p+00:00`. When `p` has no `Z`, that is `fromisoformat(p + '+00:00')`. |
| Iso.UtcSuffixHasZeroOffset | google_calendar.py:117 | A time ending in `+00:00` that parses has UTC offset zero. |
| Iso.DateTextRoundTrip | google_calendar.py:120 | `strptime('%Y-%m-%d')` reads back every ISO calendar date. |
| GoogleCalendar.ParseAllValues | google_calendar.py:104-133 | On success there is one record per raw event, in input order, and record `i` is the parse of event `i`. |
| GoogleCalendar.ParseAllFailure | google_calendar.py:104-133 | Parsing the list fails exactly when some event fails to parse. |
| GoogleCalendar.ParseAllPrefixFails | google_calendar.py:107-131 | Once a prefix fails, the whole list fails with the same error. |
| GoogleCalendar.ParseEvents | google_calendar.py:104-133 | The parse loop returns exactly `ParseAll`. |
| GoogleCalendar.Sentinel | google_calendar.py:99 | The default start is local midnight of 1900-01-01 in the display zone. |
| GoogleCalendar.SortedByStart | google_calendar.py:98-100 | The returned events are sorted by start. They are the parsed events as a multiset. Events with equal start keep their fetch order. |
| StableSort.SortSorted | google_calendar.py:100 | The sort is sorted by key and is a permutation of its input. |
| StableSort.SortStable | google_calendar.py:100 | For every key, the elements with that key keep their order. |
| StableSort.SortIsTheStableSort | google_calendar.py:100 | Any sorted and stable rearrangement equals `Sort`, so Python's sort gives the same list. |
| StableSort.SortInPlace | google_calendar.py:100 | The in-place sort turns the array into `Sort` of its old contents. |
| GoogleCalendar.ParseAndSortEvents | google_calendar.py:98-100 | Parse, then sort in place, gives exactly `ParseAndSort`. |
| GoogleCalendar.EventsInWindow | google_calendar.py:62-102 | With a window, the query returns exactly `EventsIn`. |
| GoogleCalendar.EventsForDate | google_calendar.py:52-102 | `get_events_for_date` returns exactly `EventsFor`, the window then `EventsIn`. |
| SummaryGenerator.PartitionSplits | summary_generator.py:17-18 | The all-day and timed lists together are exactly the events, as a multiset and in number. |
| SummaryGenerator.Members | summary_generator.py:17-18 | An event is in the timed list exactly when it is an event and not all-day, and likewise for the all-day list. |
| SummaryGenerator.ListedOrder | summary_generator.py:17-29 | The timed events are listed sorted by start and stably. The all-day list and the sorted timed list are the input as a multiset. |
| SummaryGenerator.MissingStartFails | summary_generator.py:29 | The summary fails with `KeyError` exactly when some event that is not all-day has no start. |
| SummaryGenerator.OverflowFails | summary_generator.py:44-47 | The summary fails with `OverflowError` exactly when every event that is not all-day has a start and one of them cannot be read in the zone: its UTC reading or its reading in the zone falls outside years 1 to 9999. |
| SummaryGenerator.ClockTextRoundTrip | summary_generator.py:49 | The `%-I:%M %p` text reads back as the original hour (0 to 23) and minute. |
| SummaryGenerator.Hour12 | summary_generator.py:49 | The 12-hour face shows 1 to 12 and agrees with the hour modulo 12. |
| SummaryGenerator.SameDateWithinDay | summary_generator.py:52 | Two readings share a local date exactly when the second lies in the day that starts at the first one's local midnight. |
| SummaryGenerator.FormatTimeRange | summary_generator.py:40-58 | The time range always opens with the start's `%-I:%M %p` text in the zone. |
| SummaryGenerator.TimeRangeForms | summary_generator.py:40-58 | Without an end, the text is the start time. With an end inside the start's local day, it is `start - end`. With an end outside that day, it is `start (multi-day)`, and only then. |
| SummaryGenerator.ItemPerEvent | summary_generator.py:20-33 | A rendered message has exactly one item line per event. It has exactly one location line per event with a non-empty location. |
| SummaryGenerator.HeadingsIffNonEmpty | summary_generator.py:20-28 | Each section heading appears exactly when its section has events. |
| SummaryGenerator.TotalCount | summary_generator.py:35-36 | The total line carries the number of events in decimal. |
| SummaryGenerator.TotalPlural | summary_generator.py:36 | The total line says `events` for every count except 1. |
| SummaryGenerator.SummaryFrame | summary_generator.py:15-38 | A rendered summary starts with the dated header and ends with the total line. |
| SummaryGenerator.NoEventsMessage | summary_generator.py:60-63 | The no-events message opens with the dated header and goes on after it. |
| SummaryGenerator.EmptyDayMessage | summary_generator.py:9-10 | An empty day always renders, as the no-events message, which opens with the same dated header. |
| SummaryGenerator.AllDayItems | summary_generator.py:22-25 | The all-day loop builds exactly `AllDayLines`. |
| SummaryGenerator.TimedItems | summary_generator.py:29-33 | The timed loop builds exactly `FormatAll` of the sorted events, failing on the first event that cannot be read in the zone. |
| SummaryGenerator.SortTimed | summary_generator.py:29 | Computing every key, then sorting, gives exactly `TimedSection`. |
| SummaryGenerator.GenerateSummary | summary_generator.py:8-38 | Building `message_parts` line by line and joining them gives exactly `Summary`. |

## Left out

- `_authenticate`, OAuth, `token.json` and pickle. They are credentials and
  file I/O.
- The Google Calendar API. It is replaced by the `listing`, `lookup` and
  `service` parameters.
- `get_all_calendars` is called again for every calendar. All those calls are
  taken to return the same `lookup` listing.
- The `singleEvents` and `orderBy` request options. They only affect what the
  service returns, which is a parameter.
- `pytz` zones with daylight saving time. The display zone is one fixed UTC
  offset, so `localize` and `astimezone` are exact arithmetic.
- `datetime.now`. It is the parameter `now`, and the same value serves the
  header of both messages.
- `print` logging in the `except` branches. It is output only.
- `fromisoformat` inputs outside the extended
  `YYYY-MM-DD?HH[:MM[:SS[.f]]]` form with a `±HH:MM[:SS[.f]]` offset. These
  are the basic form without colons, week dates and hour 24. They are not
  modelled, and a `dateTime` without an offset is treated as malformed.
- Non-ASCII decimal digits in `strptime('%Y-%m-%d')`. Its `\d` matches any
  Unicode decimal digit, while the model reads only `0` to `9`.
- `get_today_events`, main.py and pushover_client.py. They are not part of
  this model.
- The `description` field is carried through parsing but never rendered.
- `Event` records hold only the keys the summary reads. Extra keys of the
  raw resources are dropped.
- `SummaryGenerator.FormatTimeRange` requires both times to be readable in
  the zone. `_format_time_range` would raise `OverflowError` otherwise, and
  that failure is modelled one level up, by `FormatAll` and `TimedItems`, as
  `Overflow`.
- `SummaryGenerator.Summary`: its own contract covers only the empty case.
  The rendered message is described by the lemmas in the table above.
