/**
 * The boss table's entries and the next-spawn computation of `rebuild_spawn_times`.
 *
 * A boss is either an interval ("respawn") boss that comes back a fixed number
 * of hours after it was last killed, or a weekly boss that appears at fixed
 * (weekday, HH:MM) slots. Both carry the `warned_for` stamp that the warning
 * pass writes: the spawn instant for which a five-minute warning was already sent.
 */
module Bosses {
  import opened Optional
  import opened Clock
  import opened Names

  /** The stored `last_killed` field: absent/empty, a readable stamp, or text `strptime` rejects. */
  datatype KillRecord = NoKill | KilledAt(at: int) | Unreadable

  datatype Boss =
    | Respawn(hours: int, lastKilled: KillRecord, warnedFor: Option<int>)
    | Weekly(schedule: seq<Slot>, warnedFor: Option<int>)

  /**
   * The earliest of the per-slot candidates of a weekly schedule, or None for an
   * empty schedule (which gets no spawn entry). Defined over the schedule's
   * prefixes, as the running minimum of `rebuild_spawn_times` visits them.
   */
  function EarliestSlotInstant(schedule: seq<Slot>, now: int): (r: Option<int>)
    ensures r.None? <==> schedule == []
    ensures r.Some? ==> exists i :: 0 <= i < |schedule| && r.value == NextSlotInstant(schedule[i], now)
    ensures forall i :: 0 <= i < |schedule| ==> r.Some? && r.value <= NextSlotInstant(schedule[i], now)
    decreases |schedule|
  {
    if schedule == [] then None
    else
      var n := |schedule| - 1;
      var candidate := NextSlotInstant(schedule[n], now);
      match EarliestSlotInstant(schedule[..n], now)
      case None => Some(candidate)
      case Some(best) => if candidate < best then Some(candidate) else Some(best)
  }

  /** The next-spawn instant `rebuild_spawn_times` stores for one boss, if any. */
  function NextSpawn(b: Boss, now: int): Option<int>
  {
    match b
    case Respawn(hours, KilledAt(k), _) => Some(k + hours * HourSeconds)
    case Respawn(hours, _, _) => Some(now + hours * HourSeconds)
    case Weekly(schedule, _) => EarliestSlotInstant(schedule, now)
  }

  /** The whole `spawn_times` table that a rebuild at `now` produces from the boss table. */
  function SpawnTimes(bosses: map<string, Boss>, now: int): (m: map<string, int>)
    ensures m.Keys <= bosses.Keys
    ensures forall k :: k in bosses ==> (k in m <==> NextSpawn(bosses[k], now).Some?)
  {
    map k | k in bosses && NextSpawn(bosses[k], now).Some? :: NextSpawn(bosses[k], now).value
  }

  /** Instants at which a weekly schedule has a spawn: some slot's weekday and HH:MM:00. */
  predicate OnSchedule(t: int, schedule: seq<Slot>)
  {
    exists i :: 0 <= i < |schedule| && OnSlot(t, schedule[i])
  }

  /**
   * A weekly boss's spawn entry is its true next occurrence: it is strictly after
   * `now`, at most a week away, on one of its slots, and no instant after `now`
   * on any of its slots comes earlier.
   */
  lemma WeeklyEntryIsNextOccurrence(schedule: seq<Slot>, now: int)
    requires schedule != []
    ensures EarliestSlotInstant(schedule, now).Some?
    ensures var e := EarliestSlotInstant(schedule, now).value;
      && now < e <= now + WeekSeconds
      && OnSchedule(e, schedule)
      && forall t :: now < t && OnSchedule(t, schedule) ==> e <= t
  {
    var e := EarliestSlotInstant(schedule, now).value;
    var i :| 0 <= i < |schedule| && e == NextSlotInstant(schedule[i], now);
    assert OnSlot(e, schedule[i]);
    forall t | now < t && OnSchedule(t, schedule)
      ensures e <= t
    {
      var j :| 0 <= j < |schedule| && OnSlot(t, schedule[j]);
      NextSlotInstantIsFirst(schedule[j], now, t);
    }
  }

  /**
   * An interval boss whose kill is on record spawns exactly `hours` after the
   * kill, whatever the time of the rebuild and even when that is already past;
   * without a readable kill it spawns `hours` after the rebuild.
   */
  lemma RespawnEntry(bosses: map<string, Boss>, k: string, now: int)
    requires k in bosses && bosses[k].Respawn?
    ensures k in SpawnTimes(bosses, now)
    ensures bosses[k].lastKilled.KilledAt? ==>
      SpawnTimes(bosses, now)[k] == bosses[k].lastKilled.at + bosses[k].hours * HourSeconds
    ensures !bosses[k].lastKilled.KilledAt? ==>
      SpawnTimes(bosses, now)[k] == now + bosses[k].hours * HourSeconds
  {
  }

  /**
   * A rebuild is a function of the table and the clock alone; the entry of one
   * boss depends only on that boss, so changing one boss leaves every other
   * boss's entry as it was.
   */
  lemma SpawnTimesIsLocal(bosses: map<string, Boss>, k: string, b: Boss, now: int)
    ensures forall j :: j in bosses && j != k ==>
      (j in SpawnTimes(bosses[k := b], now) <==> j in SpawnTimes(bosses, now)) &&
      (j in SpawnTimes(bosses, now) ==> SpawnTimes(bosses[k := b], now)[j] == SpawnTimes(bosses, now)[j])
  {
  }

  /** The key order and the boss table agree, and every spawn entry belongs to a boss. */
  ghost predicate Registered(names: seq<string>, bosses: map<string, Boss>, spawnTimes: map<string, int>)
  {
    && Distinct(names)
    && (forall k :: k in names <==> k in bosses)
    && spawnTimes.Keys <= bosses.Keys
  }

  /** No weekly schedule lists the same slot twice. */
  ghost predicate NoDuplicateSlots(bosses: map<string, Boss>)
  {
    forall k :: k in bosses && bosses[k].Weekly? ==> DistinctSlots(bosses[k].schedule)
  }

  predicate DistinctSlots(s: seq<Slot>)
  {
    forall i, j :: 0 <= i < j < |s| ==> s[i] != s[j]
  }

  /**
   * The running minimum `rebuild_spawn_times` keeps for a weekly boss: the
   * earliest of its slots' next occurrences.
   */
  method NextWeeklySpawn(schedule: seq<Slot>, now: int) returns (earliest: Option<int>)
    ensures earliest == EarliestSlotInstant(schedule, now)
  {
    earliest := None;
    for i := 0 to |schedule|
      invariant earliest == EarliestSlotInstant(schedule[..i], now)
    {
      var candidate := NextSlotInstant(schedule[i], now);
      if earliest.None? || candidate < earliest.value {
        earliest := Some(candidate);
      }
      assert schedule[..i + 1][..i] == schedule[..i];
    }
    assert schedule[..|schedule|] == schedule;
  }

  /**
   * The loop of `rebuild_spawn_times`: starting from an empty table, visit the
   * bosses in table order and store each one's next spawn.
   */
  method RebuildTable(order: seq<string>, bosses: map<string, Boss>, now: int) returns (spawnTimes: map<string, int>)
    requires forall k :: k in order <==> k in bosses
    ensures spawnTimes == SpawnTimes(bosses, now)
  {
    spawnTimes := map[];
    var i := 0;
    while i < |order|
      invariant 0 <= i <= |order|
      invariant forall k :: k in spawnTimes <==> k in order[..i] && NextSpawn(bosses[k], now).Some?
      invariant forall k :: k in spawnTimes ==> spawnTimes[k] == NextSpawn(bosses[k], now).value
    {
      var k := order[i];
      match bosses[k] {
        case Respawn(hours, lastKilled, _) =>
          if lastKilled.KilledAt? {
            spawnTimes := spawnTimes[k := lastKilled.at + hours * HourSeconds];
          } else {
            spawnTimes := spawnTimes[k := now + hours * HourSeconds];
          }
        case Weekly(schedule, _) =>
          var earliest := NextWeeklySpawn(schedule, now);
          if earliest.Some? {
            spawnTimes := spawnTimes[k := earliest.value];
          }
      }
      assert forall j :: j in order[..i + 1] <==> j in order[..i] || j == k;
      i := i + 1;
    }
    assert order[..|order|] == order;
  }

}
