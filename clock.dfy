/**
 * Instants and the weekly calendar of the tracker.
 *
 * An instant is a whole number of seconds since 1970-01-01 00:00:00 UTC. The
 * bot reads every clock and every calendar field in one fixed zone, UTC+8, so
 * the local calendar of an instant `t` is that of `t + UtcOffset`. Days of the
 * week are numbered as Python's `weekday()` numbers them: Monday is 0, Sunday 6.
 */
module Clock {

  const MinuteSeconds: int := 60
  const HourSeconds: int := 3600
  const DaySeconds: int := 86400
  const WeekSeconds: int := 604800

  /** The bot's one time zone: UTC+8. */
  const UtcOffset: int := 8 * HourSeconds

  /** 1970-01-01 was a Thursday. */
  const EpochWeekday: int := 3

  type DayIndex = d: int | 0 <= d < 7
  type Hour = h: int | 0 <= h < 24
  type Minute = m: int | 0 <= m < 60

  /** A weekly spawn slot: a day of the week and an HH:MM time of day. */
  datatype Slot = Slot(day: DayIndex, hour: Hour, minute: Minute)

  /** Seconds after local midnight at which a slot falls (the seconds are always 00). */
  function SlotSeconds(s: Slot): (r: int)
    ensures 0 <= r < DaySeconds && r % MinuteSeconds == 0
  {
    s.hour * HourSeconds + s.minute * MinuteSeconds
  }

  /** The local calendar date of `t`, as days since 1970-01-01. */
  function LocalDay(t: int): int
  {
    (t + UtcOffset) / DaySeconds
  }

  /** Seconds since local midnight. */
  function SecondOfDay(t: int): int
  {
    (t + UtcOffset) % DaySeconds
  }

  /** Python's `weekday()` of `t` in the local zone. */
  function WeekdayOf(t: int): DayIndex
  {
    (LocalDay(t) + EpochWeekday) % 7
  }

  /** Local midnight of the day holding `t` (`now.replace(hour=0, minute=0, second=0)`). */
  function DayStart(t: int): int
  {
    t - SecondOfDay(t)
  }

  /** `t` falls on the slot's day of the week at the slot's HH:MM:00. */
  predicate OnSlot(t: int, s: Slot)
  {
    WeekdayOf(t) == s.day && SecondOfDay(t) == SlotSeconds(s)
  }

  /**
   * The candidate instant `rebuild_spawn_times` computes for one weekly slot:
   * today's date moved forward to the slot's weekday, at the slot's time, and a
   * week later if that is not strictly after `now`. It is the first instant
   * strictly after `now` that falls on the slot (see NextSlotInstantIsFirst).
   */
  function NextSlotInstant(s: Slot, now: int): (c: int)
    ensures now < c <= now + WeekSeconds
    ensures c - WeekSeconds <= now
    ensures OnSlot(c, s)
  {
    var daysAhead := (s.day - WeekdayOf(now)) % 7;
    var candidate := DayStart(now) + SlotSeconds(s) + daysAhead * DaySeconds;
    var c := if candidate <= now then candidate + WeekSeconds else candidate;
    var days := if candidate <= now then daysAhead + 7 else daysAhead;
    assert c + UtcOffset == (LocalDay(now) + days) * DaySeconds + SlotSeconds(s);
    Decompose(c, LocalDay(now) + days, SlotSeconds(s));
    ShiftWeekday(LocalDay(now) + EpochWeekday, s.day, days);
    c
  }

  /** Splitting a local time into a date and a second of that date. */
  lemma Decompose(t: int, day: int, second: int)
    requires 0 <= second < DaySeconds
    requires t + UtcOffset == day * DaySeconds + second
    ensures LocalDay(t) == day && SecondOfDay(t) == second
  {
  }

  /** Moving `(target - d % 7) % 7` days (or a week more) forward from day `d` lands on `target`. */
  lemma ShiftWeekday(d: int, target: DayIndex, days: int)
    requires days == (target - d % 7) % 7 || days == (target - d % 7) % 7 + 7
    ensures (d + days) % 7 == target
  {
  }

  /**
   * Every instant strictly after `now` that falls on the slot is at or after the
   * slot's candidate: the candidate is the slot's next occurrence, not merely one of them.
   */
  lemma NextSlotInstantIsFirst(s: Slot, now: int, t: int)
    requires now < t && OnSlot(t, s)
    ensures NextSlotInstant(s, now) <= t
  {
    var c := NextSlotInstant(s, now);
    var weeks := SameSlotWeeksApart(s, t, c);
    assert weeks >= 0;
  }

  /** Two instants on the same slot lie a whole number of weeks apart. */
  lemma SameSlotWeeksApart(s: Slot, t: int, u: int) returns (weeks: int)
    requires OnSlot(t, s) && OnSlot(u, s)
    ensures t - u == weeks * WeekSeconds
  {
    var a := LocalDay(t) + EpochWeekday;
    var b := LocalDay(u) + EpochWeekday;
    assert a % 7 == b % 7;
    weeks := a / 7 - b / 7;
    assert a - b == weeks * 7;
    assert t + UtcOffset == LocalDay(t) * DaySeconds + SecondOfDay(t);
    assert u + UtcOffset == LocalDay(u) * DaySeconds + SecondOfDay(u);
    assert t - u == (a - b) * DaySeconds;
  }

  /**
   * At Wednesday 2024-01-03 16:00 local time: a Wednesday 17:00 slot is an hour
   * away, the Wednesday 16:00 slot itself and a Wednesday 15:59 slot are a week
   * out (the candidate must be strictly after now), and a Tuesday 16:00 slot
   * wraps around to six days later.
   */
  lemma WednesdayAfternoon()
    ensures WeekdayOf(1704268800) == 2 && SecondOfDay(1704268800) == 16 * HourSeconds
    ensures NextSlotInstant(Slot(2, 17, 0), 1704268800) == 1704268800 + HourSeconds
    ensures NextSlotInstant(Slot(2, 16, 0), 1704268800) == 1704268800 + WeekSeconds
    ensures NextSlotInstant(Slot(2, 15, 59), 1704268800) == 1704268800 + WeekSeconds - MinuteSeconds
    ensures NextSlotInstant(Slot(1, 16, 0), 1704268800) == 1704268800 + 6 * DaySeconds
  {
  }
}
