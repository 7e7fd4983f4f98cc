/** The text forms of dates and datetimes the calendar client reads and
    writes: `datetime.fromisoformat` on RFC 3339 section 5.6 `date-time`
    values, `datetime.isoformat` of aware datetimes (the query window), and
    `datetime.strptime(s, '%Y-%m-%d')` (a day argument and all-day dates). */
module Iso {
  import opened Wrappers
  import opened Text
  import opened Civil
  import opened Instants

  /** Hour, minute, second and microsecond fields of a clock reading or of a
      UTC offset, as Python's ISO time-field parser returns them. */
  datatype Clock = Clock(hour: nat, minute: nat, second: nat, micro: nat)

  lemma Pow10Small()
    ensures Pow10(0) == 1 && Pow10(1) == 10 && Pow10(2) == 100 && Pow10(3) == 1000
    ensures Pow10(4) == 10000 && Pow10(5) == 100000 && Pow10(6) == 1000000
  {
    assert Pow10(1) == 10 * Pow10(0);
    assert Pow10(2) == 10 * Pow10(1);
    assert Pow10(3) == 10 * Pow10(2);
    assert Pow10(4) == 10 * Pow10(3);
    assert Pow10(5) == 10 * Pow10(4);
    assert Pow10(6) == 10 * Pow10(5);
  }

  /** The microseconds of a fraction-of-second digit string: its first six
      digits, padded on the right with zeros. */
  function Fraction(f: string): (micro: nat)
    requires |f| >= 1 && AllDigits(f)
    ensures micro < SecondMicros
  {
    var n := if |f| < 6 then |f| else 6;
    DigitsValueBound(f[..n]);
    Pow10Small();
    DigitsValue(f[..n]) * Pow10(6 - n)
  }

  /** The characters a clock or offset text is made of. */
  predicate ClockChar(c: char) {
    IsDigit(c) || c == ':' || c == '.' || c == ','
  }

  /** Python's `_parse_hh_mm_ss_ff` on the extended form
      `HH[:MM[:SS[(.|,)f...]]]`; the basic form without colons is not
      accepted here. */
  function ParseClock(s: string): (r: Option<Clock>)
    ensures r.Some? ==> forall i :: 0 <= i < |s| ==> ClockChar(s[i])
    ensures r.Some? ==> r.value.hour < 100 && r.value.minute < 100 && r.value.second < 100
    ensures r.Some? ==> r.value.micro < SecondMicros
  {
    Pow10Small();
    if |s| < 2 || !AllDigits(s[..2]) then None
    else
      var hour := DigitsValue(s[..2]);
      DigitsValueBound(s[..2]);
      if |s| == 2 then Some(Clock(hour, 0, 0, 0))
      else if s[2] != ':' || |s| < 5 || !AllDigits(s[3..5]) then None
      else
        var minute := DigitsValue(s[3..5]);
        DigitsValueBound(s[3..5]);
        if |s| == 5 then Some(Clock(hour, minute, 0, 0))
        else if s[5] != ':' || |s| < 8 || !AllDigits(s[6..8]) then None
        else
          var second := DigitsValue(s[6..8]);
          DigitsValueBound(s[6..8]);
          if |s| == 8 then Some(Clock(hour, minute, second, 0))
          else if (s[8] != '.' && s[8] != ',') || |s| == 9 || !AllDigits(s[9..]) then None
          else Some(Clock(hour, minute, second, Fraction(s[9..])))
  }

  /** The fields a `datetime` accepts for its time of day. */
  predicate ValidTime(c: Clock) {
    c.hour < 24 && c.minute < 60 && c.second < 60 && c.micro < SecondMicros
  }

  /** The length of time the fields denote (`timedelta(hours=.., ...)`). */
  function ClockMicros(c: Clock): (t: int)
    ensures t >= 0
  {
    c.hour * 3_600_000_000 + c.minute * 60_000_000 + c.second * 1_000_000 + c.micro
  }

  /** Valid time fields denote a time of day. */
  lemma ValidTimeWithinDay(c: Clock)
    requires ValidTime(c)
    ensures ClockMicros(c) < DayMicros
  {
    assert c.hour * 3_600_000_000 <= 23 * 3_600_000_000;
    assert c.minute * 60_000_000 <= 59 * 60_000_000;
    assert c.second * 1_000_000 <= 59 * 1_000_000;
  }

  /** The aware datetime with the given date, time fields and offset. */
  function AwareAt(d: Date, c: Clock, offset: int): (i: Instant)
    requires ValidDate(d) && ValidTime(c) && ValidOffset(offset)
    ensures InRange(Local(i)) && i.offset == offset
    ensures CalendarDate(Local(i)) == d && TimeOfDay(Local(i)) == ClockMicros(c)
  {
    var t := ClockMicros(c);
    ValidTimeWithinDay(c);
    OnDate(d, t);
    var i := Instant(Midnight(d) + t - offset, offset);
    assert Local(i) == Midnight(d) + t;
    i
  }

  /** The fields of a length of time shorter than a day. */
  function ClockOf(t: int): (c: Clock)
    requires 0 <= t < DayMicros
    ensures ValidTime(c) && ClockMicros(c) == t
  {
    var c := Clock(t / 3_600_000_000, (t % 3_600_000_000) / 60_000_000, (t % 60_000_000) / 1_000_000, t % 1_000_000);
    assert t == (t / 3_600_000_000) * 3_600_000_000 + t % 3_600_000_000;
    assert t % 3_600_000_000 == ((t % 3_600_000_000) / 60_000_000) * 60_000_000 + t % 60_000_000 by {
      assert t % 3_600_000_000 % 60_000_000 == t % 60_000_000;
    }
    assert t % 60_000_000 == ((t % 60_000_000) / 1_000_000) * 1_000_000 + t % 1_000_000 by {
      assert t % 60_000_000 % 1_000_000 == t % 1_000_000;
    }
    c
  }

  /** `'%02d:%02d' % (hour, minute)`. */
  function HourMinuteText(c: Clock): (s: string)
    requires c.hour < 100 && c.minute < 100
    ensures |s| == 5
  {
    Padded(c.hour, 2) + ":" + Padded(c.minute, 2)
  }

  /** `':%02d' % second`, then `'.%06d' % micro` when there are microseconds. */
  function SecondsText(c: Clock): (s: string)
    requires c.second < 100 && c.micro < SecondMicros
    ensures |s| >= 3
  {
    ":" + Padded(c.second, 2) + (if c.micro != 0 then "." + Padded(c.micro, 6) else "")
  }

  /** `YYYY-MM-DD` as `fromisoformat` reads it: fixed widths, ASCII digits,
      then the range checks of the `datetime` constructor. */
  function ParseIsoDate(s: string): (r: Option<Date>)
    ensures r.Some? ==> ValidDate(r.value)
  {
    if |s| == 10 && AllDigits(s[..4]) && s[4] == '-' && AllDigits(s[5..7]) && s[7] == '-' && AllDigits(s[8..])
    then
      var d := Date(DigitsValue(s[..4]), DigitsValue(s[5..7]), DigitsValue(s[8..]));
      if ValidDate(d) then Some(d) else None
    else None
  }

  /** The first index of `c` in `s`, if any (`s.find(c)`). */
  function IndexOf(s: string, c: char): (r: Option<nat>)
    ensures r.Some? ==> r.value < |s| && s[r.value] == c && forall j :: 0 <= j < r.value ==> s[j] != c
    ensures r.None? ==> forall j :: 0 <= j < |s| ==> s[j] != c
  {
    if s == [] then None
    else if s[0] == c then Some(0)
    else match IndexOf(s[1..], c)
      case None => None
      case Some(k) => Some(k + 1)
  }

  /** Where the UTC offset of a time text starts: the first `-`, or failing
      that the first `+` (`tstr.find('-') + 1 or tstr.find('+') + 1`). */
  function SignIndex(t: string): (r: Option<nat>)
    ensures r.Some? ==> r.value < |t| && (t[r.value] == '-' || t[r.value] == '+')
  {
    match IndexOf(t, '-')
    case Some(k) => Some(k)
    case None => IndexOf(t, '+')
  }

  /** The time fields and the signed UTC offset of the text after the
      date-time separator; the offset starts at `SignIndex`, and the
      `timezone` constructor admits only offsets shorter than a day. */
  function ParseTimeAndOffset(t: string): (r: Option<(Clock, int)>)
    ensures r.Some? ==> ValidTime(r.value.0) && ValidOffset(r.value.1)
  {
    match SignIndex(t)
    case None => None
    case Some(k) =>
      match (ParseClock(t[..k]), ParseClock(t[k + 1..]))
      case (Some(c), Some(o)) =>
        if ValidTime(c) && ClockMicros(o) < DayMicros
        then Some((c, if t[k] == '-' then -ClockMicros(o) else ClockMicros(o)))
        else None
      case _ => None
  }

  /** `datetime.fromisoformat(s)` for `YYYY-MM-DD`, one separator character,
      a time and a UTC offset.  `None` stands for the `ValueError` Python
      raises and also for a text without offset, which Python would read as a
      naive datetime (see README). */
  function ParseDateTime(s: string): (r: Option<Instant>)
    ensures r.Some? ==> ValidOffset(r.value.offset) && InRange(Local(r.value))
  {
    if |s| < 12 then None
    else match (ParseIsoDate(s[..10]), ParseTimeAndOffset(s[11..]))
      case (Some(d), Some((c, offset))) => Some(AwareAt(d, c, offset))
      case _ => None
  }

  /** The UTC offset as `isoformat` writes it: sign, `HH:MM`, then `:SS` and
      `.ffffff` only when they are non-zero. */
  function OffsetText(offset: int): (s: string)
    requires ValidOffset(offset)
    ensures |s| >= 6 && (s[0] == '+' || s[0] == '-')
  {
    var c := ClockOf(if offset < 0 then -offset else offset);
    [if offset < 0 then '-' else '+'] + (HourMinuteText(c) + if c.second != 0 || c.micro != 0 then SecondsText(c) else "")
  }

  /** The `isoformat` text of a date, time fields and offset. */
  function IsoText(d: Date, c: Clock, offset: int): string
    requires ValidDate(d) && ValidTime(c) && ValidOffset(offset)
  {
    IsoDate(d) + "T" + (HourMinuteText(c) + SecondsText(c) + OffsetText(offset))
  }

  /** `dt.isoformat()` of an aware datetime. */
  function IsoFormat(i: Instant): string
    requires InRange(Local(i)) && ValidOffset(i.offset)
  {
    IsoText(CalendarDate(Local(i)), ClockOf(TimeOfDay(Local(i))), i.offset)
  }

  /** `%m` of `strptime`: `1[0-2]|0[1-9]|[1-9]`. */
  predicate MonthToken(t: string) {
    (|t| == 1 && '1' <= t[0] <= '9') ||
    (|t| == 2 && ((t[0] == '1' && '0' <= t[1] <= '2') || (t[0] == '0' && '1' <= t[1] <= '9')))
  }

  /** `%d` of `strptime`: `3[01]|[12]\d|0[1-9]|[1-9]| [1-9]`. */
  predicate DayToken(t: string) {
    (|t| == 1 && '1' <= t[0] <= '9') ||
    (|t| == 2 && ((t[0] == '3' && (t[1] == '0' || t[1] == '1')) || ((t[0] == '1' || t[0] == '2') && IsDigit(t[1])) ||
                  (t[0] == '0' && '1' <= t[1] <= '9') || (t[0] == ' ' && '1' <= t[1] <= '9')))
  }

  /** `int(token)` of a month or day token (a leading space is skipped). */
  function TokenValue(t: string): (v: nat)
    requires MonthToken(t) || DayToken(t)
    ensures MonthToken(t) ==> 1 <= v <= 12
    ensures DayToken(t) ==> 1 <= v <= 31
  {
    if |t| == 1 then DigitValue(t[0])
    else if t[0] == ' ' then DigitValue(t[1])
    else 10 * DigitValue(t[0]) + DigitValue(t[1])
  }

  /** The month and day after `YYYY-`: `%m` must be followed by the `-`
      literal, and `%d` must consume the rest of the text. */
  function ParseMonthDay(rest: string): (r: Option<(int, int)>)
    ensures r.Some? ==> 1 <= r.value.0 <= 12 && 1 <= r.value.1 <= 31
  {
    var width := if |rest| >= 2 && rest[1] == '-' then 1 else if |rest| >= 3 && rest[2] == '-' then 2 else 0;
    if width == 0 then None
    else
      var month, day := rest[..width], rest[width + 1..];
      if MonthToken(month) && DayToken(day) then Some((TokenValue(month), TokenValue(day))) else None
  }

  /** `datetime.strptime(s, '%Y-%m-%d')`: four-digit year, one- or two-digit
      month, day as `%d` allows, the whole text consumed, then the range
      checks.  `None` stands for the `ValueError`. */
  function ParseDateText(s: string): (r: Option<Date>)
    ensures r.Some? ==> ValidDate(r.value)
  {
    if |s| < 5 || !AllDigits(s[..4]) || s[4] != '-' then None
    else match ParseMonthDay(s[5..])
      case None => None
      case Some((month, day)) =>
        var d := Date(DigitsValue(s[..4]), month, day);
        if ValidDate(d) then Some(d) else None
  }

  /** The `dateTime` reading of the calendar client:
      `datetime.fromisoformat(s.replace('Z', '+00:00'))`. */
  function ParseEventDateTime(s: string): Option<Instant> {
    ParseDateTime(ReplaceAll(s, 'Z', "+00:00"))
  }

  lemma PaddedTwo(n: nat)
    requires n < 100
    ensures Padded(n, 2) == [DigitChar(n / 10), DigitChar(n % 10)]
  {
    assert n / 10 / 10 == 0 && (n / 10) % 10 == n / 10;
    assert Padded(n / 10, 1) == Padded(n / 10 / 10, 0) + [DigitChar((n / 10) % 10)];
    assert Padded(n, 2) == Padded(n / 10, 1) + [DigitChar(n % 10)];
  }

  lemma PaddedReads(n: nat, width: nat)
    requires width <= 6 && n < Pow10(width)
    ensures AllDigits(Padded(n, width)) && DigitsValue(Padded(n, width)) == n
  {
    PaddedValue(n, width);
  }

  /** `fromisoformat` reads back the calendar date `isoformat` writes. */
  lemma IsoDateRoundTrip(d: Date)
    requires ValidDate(d)
    ensures ParseIsoDate(IsoDate(d)) == Some(d)
  {
    var s := IsoDate(d);
    var y, m, dd := s[..4], s[5..7], s[8..];
    assert y == Padded(d.year, 4) && m == Padded(d.month, 2) && dd == Padded(d.day, 2);
    assert AllDigits(y) && DigitsValue(y) == d.year by {
      Pow10Small();
      PaddedReads(d.year, 4);
    }
    assert AllDigits(m) && DigitsValue(m) == d.month by {
      Pow10Small();
      PaddedReads(d.month, 2);
    }
    assert AllDigits(dd) && DigitsValue(dd) == d.day by {
      Pow10Small();
      PaddedReads(d.day, 2);
    }
  }

  /** A zero-padded day number is a `%d` token, and a `%m` token when it
      is a month number, and reads back as itself. */
  lemma PaddedToken(n: int)
    requires 1 <= n <= 31
    ensures DayToken(Padded(n, 2)) && TokenValue(Padded(n, 2)) == n
    ensures n <= 12 ==> MonthToken(Padded(n, 2))
  {
    var t := Padded(n, 2);
    PaddedTwo(n);
    assert DigitValue(t[0]) == n / 10 && DigitValue(t[1]) == n % 10;
  }

  /** `%m-%d` reads back two-digit month and day. */
  lemma MonthDayRoundTrip(month: int, day: int)
    requires 1 <= month <= 12 && 1 <= day <= 31
    ensures ParseMonthDay(Padded(month, 2) + "-" + Padded(day, 2)) == Some((month, day))
  {
    var m, dd := Padded(month, 2), Padded(day, 2);
    var rest := m + "-" + dd;
    PaddedToken(month);
    PaddedToken(day);
    assert rest[1] == m[1] != '-' && rest[2] == '-';
    assert rest[..2] == m && rest[3..] == dd;
  }

  /** `strptime(s, '%Y-%m-%d')` reads back every ISO calendar date, the form
      all-day events carry. */
  lemma DateTextRoundTrip(d: Date)
    requires ValidDate(d)
    ensures ParseDateText(IsoDate(d)) == Some(d)
  {
    var s := IsoDate(d);
    assert s[..4] == Padded(d.year, 4);
    assert s[5..] == Padded(d.month, 2) + "-" + Padded(d.day, 2);
    MonthDayRoundTrip(d.month, d.day);
    assert AllDigits(s[..4]) && DigitsValue(s[..4]) == d.year by {
      Pow10Small();
      PaddedReads(d.year, 4);
    }
  }

  /** `_parse_hh_mm_ss_ff` reads back `HH:MM`. */
  lemma HourMinuteRoundTrip(c: Clock)
    requires c.hour < 100 && c.minute < 100
    ensures ParseClock(HourMinuteText(c)) == Some(Clock(c.hour, c.minute, 0, 0))
  {
    Pow10Small();
    var s := HourMinuteText(c);
    assert s[..2] == Padded(c.hour, 2) && s[3..5] == Padded(c.minute, 2);
    PaddedReads(c.hour, 2);
    PaddedReads(c.minute, 2);
  }

  /** `_parse_hh_mm_ss_ff` reads back `HH:MM:SS[.ffffff]`. */
  lemma ClockRoundTrip(c: Clock)
    requires c.hour < 100 && c.minute < 100 && c.second < 100 && c.micro < SecondMicros
    ensures ParseClock(HourMinuteText(c) + SecondsText(c)) == Some(c)
  {
    var s := HourMinuteText(c) + SecondsText(c);
    var h, m, sec := s[..2], s[3..5], s[6..8];
    assert h == Padded(c.hour, 2) && m == Padded(c.minute, 2) && sec == Padded(c.second, 2);
    assert s[2] == ':' && s[5] == ':';
    assert AllDigits(h) && DigitsValue(h) == c.hour by {
      Pow10Small();
      PaddedReads(c.hour, 2);
    }
    assert AllDigits(m) && DigitsValue(m) == c.minute by {
      Pow10Small();
      PaddedReads(c.minute, 2);
    }
    assert AllDigits(sec) && DigitsValue(sec) == c.second by {
      Pow10Small();
      PaddedReads(c.second, 2);
    }
    if c.micro == 0 {
      assert |s| == 8;
    } else {
      var f := s[9..];
      assert s[8] == '.' && f == Padded(c.micro, 6);
      assert AllDigits(f) && |f| == 6 && Fraction(f) == c.micro by {
        Pow10Small();
        PaddedReads(c.micro, 6);
        assert f[..6] == f;
      }
    }
  }

  /** The offset text without its sign reads back as the offset's fields. */
  lemma OffsetRoundTrip(offset: int)
    requires ValidOffset(offset)
    ensures var o := OffsetText(offset);
      ParseClock(o[1..]) == Some(ClockOf(if offset < 0 then -offset else offset)) &&
      (o[0] == '-' <==> offset < 0)
  {
    var c := ClockOf(if offset < 0 then -offset else offset);
    var o := OffsetText(offset);
    if c.second != 0 || c.micro != 0 {
      assert o[1..] == HourMinuteText(c) + SecondsText(c);
      ClockRoundTrip(c);
    } else {
      assert o[1..] == HourMinuteText(c);
      HourMinuteRoundTrip(c);
    }
  }

  /** After a clock text, the offset sign is the first sign character. */
  lemma SignIndexAfterClock(tText: string, o: string)
    requires forall j :: 0 <= j < |tText| ==> ClockChar(tText[j])
    requires |o| >= 1 && (o[0] == '-' || o[0] == '+')
    requires forall j :: 1 <= j < |o| ==> ClockChar(o[j])
    ensures SignIndex(tText + o) == Some(|tText|)
  {
    var t := tText + o;
    assert forall j :: 0 <= j < |tText| ==> t[j] == tText[j];
    assert forall j :: |tText| <= j < |t| ==> t[j] == o[j - |tText|];
    assert t[|tText|] == o[0];
    if o[0] == '-' {
      assert IndexOf(t, '-') == Some(|tText|);
    } else {
      assert forall j :: 0 <= j < |t| ==> t[j] != '-';
      assert IndexOf(t, '+') == Some(|tText|);
    }
  }

  /** The time and offset part of `isoformat` reads back as its fields. */
  lemma TimeAndOffsetRoundTrip(c: Clock, offset: int)
    requires ValidTime(c) && ValidOffset(offset)
    ensures ParseTimeAndOffset(HourMinuteText(c) + SecondsText(c) + OffsetText(offset)) == Some((c, offset))
  {
    var tText := HourMinuteText(c) + SecondsText(c);
    var o := OffsetText(offset);
    var t := tText + o;
    ClockRoundTrip(c);
    OffsetRoundTrip(offset);
    assert forall j :: 1 <= j < |o| ==> o[j] == o[1..][j - 1];
    SignIndexAfterClock(tText, o);
    assert t[..|tText|] == tText && t[|tText| + 1..] == o[1..];
  }

  /** The whole `isoformat` text reads back as the instant of its fields. */
  lemma IsoTextRoundTrip(d: Date, c: Clock, offset: int)
    requires ValidDate(d) && ValidTime(c) && ValidOffset(offset)
    ensures ParseDateTime(IsoText(d, c, offset)) == Some(AwareAt(d, c, offset))
  {
    var s := IsoText(d, c, offset);
    var rest := HourMinuteText(c) + SecondsText(c) + OffsetText(offset);
    assert s == IsoDate(d) + "T" + rest;
    assert s[..10] == IsoDate(d) && s[11..] == rest;
    IsoDateRoundTrip(d);
    TimeAndOffsetRoundTrip(c, offset);
  }

  /** `fromisoformat(dt.isoformat()) == dt` for every aware datetime: the
      query window the client sends denotes exactly its instants. */
  lemma IsoFormatRoundTrip(i: Instant)
    requires InRange(Local(i)) && ValidOffset(i.offset)
    ensures ParseDateTime(IsoFormat(i)) == Some(i)
  {
    var local := Local(i);
    var d := CalendarDate(local);
    var c := ClockOf(TimeOfDay(local));
    assert IsoFormat(i) == IsoText(d, c, i.offset);
    IsoTextRoundTrip(d, c, i.offset);
    AwareAtLocal(d, c, i.offset, local);
    assert AwareAt(d, c, i.offset) == i;
  }

  /** The instant of a reading's own date and time fields is that reading. */
  lemma AwareAtLocal(d: Date, c: Clock, offset: int, local: int)
    requires InRange(local) && ValidOffset(offset)
    requires d == CalendarDate(local) && c == ClockOf(TimeOfDay(local))
    ensures AwareAt(d, c, offset) == Instant(local - offset, offset)
  {
    MidnightOfDate(local);
  }

  /** Text after a `Z` designator is compared as if it read `+00:00`: the
      client's replacement makes the two spellings give the same result. */
  lemma ZuluSameAsUtcOffset(p: string)
    ensures ParseEventDateTime(p + "Z") == ParseEventDateTime(p + "+00:00")
    ensures (forall j :: 0 <= j < |p| ==> p[j] != 'Z') ==> ParseEventDateTime(p + "Z") == ParseDateTime(p + "+00:00")
  {
    var q := ReplaceAll(p, 'Z', "+00:00");
    assert ReplaceAll("Z", 'Z', "+00:00") == "+00:00" by {
      assert ReplaceAll("Z"[1..], 'Z', "+00:00") == [];
    }
    ReplaceAllAbsent("+00:00", 'Z', "+00:00");
    ReplaceAllAppend(p, "Z", 'Z', "+00:00");
    ReplaceAllAppend(p, "+00:00", 'Z', "+00:00");
    assert ReplaceAll(p + "Z", 'Z', "+00:00") == q + "+00:00" == ReplaceAll(p + "+00:00", 'Z', "+00:00");
    if forall j :: 0 <= j < |p| ==> p[j] != 'Z' {
      ReplaceAllAbsent(p, 'Z', "+00:00");
    }
  }

  /** A time text that ends in `+00:00` and parses has offset zero: any
      earlier sign would leave a `+` inside the offset's fields. */
  lemma UtcTailHasZeroOffset(q: string)
    requires ParseTimeAndOffset(q + "+00:00").Some?
    ensures ParseTimeAndOffset(q + "+00:00").value.1 == 0
  {
    var t := q + "+00:00";
    var k := SignIndex(t).value;
    assert ParseClock(t[k + 1..]).Some?;
    UtcSignIsLast(q, k);
    assert t[k + 1..] == "00:00";
    ZeroClock();
  }

  /** The offset sign of a text ending in `+00:00` whose offset part parses
      is that last `+`: a sign anywhere earlier would leave the `+` among the
      offset's fields, and within `00:00` there is no sign. */
  lemma UtcSignIsLast(q: string, k: nat)
    requires k < |q| + 6
    requires var t := q + "+00:00"; t[k] == '-' || t[k] == '+'
    requires ParseClock((q + "+00:00")[k + 1..]).Some?
    ensures k == |q|
  {
    var t := q + "+00:00";
    var tail := t[k + 1..];
    assert forall j :: k + 1 <= j < |t| ==> t[j] == tail[j - k - 1];
    assert !ClockChar(t[|q|]);
    assert k >= |q|;
    assert t[|q|..] == "+00:00";
  }

  /** `00:00` reads as the zero clock. */
  lemma ZeroClock()
    ensures ParseClock("00:00") == Some(Clock(0, 0, 0, 0))
  {
    var s := "00:00";
    assert s[..2] == "00" && s[3..5] == "00";
    assert DigitsValue("00") == 0 by {
      assert "00"[..1] == "0" && "0"[..0] == "";
    }
  }

  /** Whatever precedes it, a text that ends in `+00:00` and parses denotes an
      instant whose offset is zero. */
  lemma UtcSuffixHasZeroOffset(p: string)
    requires ParseDateTime(p + "+00:00").Some?
    ensures ParseDateTime(p + "+00:00").value.offset == 0
  {
    var s := p + "+00:00";
    assert ParseTimeAndOffset(s[11..]).Some?;
    if |p| < 11 {
      assert false;
    }
    assert s[11..] == p[11..] + "+00:00";
    UtcTailHasZeroOffset(p[11..]);
  }
}
