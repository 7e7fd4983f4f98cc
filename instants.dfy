/** Aware and naive datetimes reduced to integers.  A naive datetime is a
    wall-clock reading: microseconds since 0001-01-01T00:00.  An aware one,
    `Instant`, is the absolute point in time (microseconds since
    0001-01-01T00:00 UTC) together with the UTC offset it carries; Python
    orders and compares aware datetimes by the absolute point alone. */
module Instants {
  import opened Civil

  const SecondMicros := 1_000_000
  const MinuteMicros := 60_000_000
  const HourMicros := 3_600_000_000
  const DayMicros := 86_400_000_000
  // Products, quotients and remainders below spell these values out as
  // literals, which keeps the arithmetic linear for the verifier.

  datatype Instant = Instant(utc: int, offset: int)

  /** A UTC offset a `datetime.timezone` accepts: strictly within one day. */
  predicate ValidOffset(offset: int) {
    -DayMicros < offset < DayMicros
  }

  /** A wall-clock reading that a `datetime` can hold (years 1 to 9999):
      before the end of day `MaxOrdinal`. */
  predicate InRange(local: int) {
    0 <= local < 315_537_897_600_000_000
  }

  /** The wall-clock reading of an instant in its own offset. */
  function Local(i: Instant): int {
    i.utc + i.offset
  }

  /** `tz.localize(naive)` for a zone with the fixed offset `tz`. */
  function Localize(local: int, tz: int): (i: Instant)
    ensures Local(i) == local && i.offset == tz
  {
    Instant(local - tz, tz)
  }

  /** `i.astimezone(tz)`: the same point in time, read in offset `tz`. */
  function AsTimezone(i: Instant, tz: int): (j: Instant)
    ensures j.utc == i.utc && j.offset == tz && Local(j) == i.utc + tz
  {
    Instant(i.utc, tz)
  }

  /** Days since 0001-01-01 of a wall-clock reading (its ordinal minus one). */
  function DayNumber(local: int): int {
    local / 86_400_000_000
  }

  /** Microseconds since the last wall-clock midnight. */
  function TimeOfDay(local: int): (t: int)
    ensures 0 <= t < DayMicros
  {
    local % 86_400_000_000
  }

  /** A reading `t` past the midnight that starts day `n` lies on day `n`. */
  lemma DayAndTime(n: int, t: int)
    requires 0 <= t < DayMicros
    ensures DayNumber(n * 86_400_000_000 + t) == n && TimeOfDay(n * 86_400_000_000 + t) == t
  {
    var local := n * 86_400_000_000 + t;
    var q, r := local / 86_400_000_000, local % 86_400_000_000;
    assert local == q * 86_400_000_000 + r;
    assert (q - n) * 86_400_000_000 == t - r;
  }

  /** `dt.date()` of a wall-clock reading. */
  function CalendarDate(local: int): (d: Date)
    requires InRange(local)
    ensures ValidDate(d)
  {
    OrdinalOfDateOf(DayNumber(local) + 1);
    DateOf(DayNumber(local) + 1)
  }

  /** Midnight at the start of a date, as a wall-clock reading. */
  function Midnight(d: Date): (local: int)
    requires ValidDate(d)
    ensures InRange(local) && TimeOfDay(local) == 0
  {
    DateOfOrdinal(d);
    DayAndTime(Ordinal(d) - 1, 0);
    (Ordinal(d) - 1) * 86_400_000_000
  }

  /** The reading `t` past the midnight that starts ordinal day `n` lies on
      the date of that ordinal. */
  lemma OnOrdinal(n: int, t: int, local: int)
    requires 1 <= n <= MaxOrdinal && 0 <= t < DayMicros && local == (n - 1) * 86_400_000_000 + t
    ensures InRange(local) && CalendarDate(local) == DateOf(n) && TimeOfDay(local) == t
  {
    DayAndTime(n - 1, t);
    assert DayNumber(local) + 1 == n;
  }

  /** A time of day `t` after the midnight of `d` is a reading on `d`. */
  lemma OnDate(d: Date, t: int)
    requires ValidDate(d) && 0 <= t < DayMicros
    ensures InRange(Midnight(d) + t)
    ensures CalendarDate(Midnight(d) + t) == d && TimeOfDay(Midnight(d) + t) == t
  {
    var n := Ordinal(d);
    DateOfOrdinal(d);
    assert Midnight(d) + t == (n - 1) * 86_400_000_000 + t;
    OnOrdinal(n, t, Midnight(d) + t);
  }

  /** A reading is the midnight of its own date plus its time of day. */
  lemma MidnightOfDate(local: int)
    requires InRange(local)
    ensures Midnight(CalendarDate(local)) + TimeOfDay(local) == local
  {
    var n := DayNumber(local) + 1;
    OrdinalOfDateOf(n);
    assert Ordinal(CalendarDate(local)) == n;
  }

  /** The midnight after a date can be held unless the date is 9999-12-31. */
  lemma NextMidnight(d: Date)
    requires ValidDate(d)
    ensures InRange(Midnight(d) + DayMicros) <==> d != Date(MaxYear, 12, 31)
  {
    DateOfOrdinal(d);
    LastDay(d);
    assert Midnight(d) + DayMicros == Ordinal(d) * 86_400_000_000;
  }
}
