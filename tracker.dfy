/**
 * The bot's two global tables and the commands that change them.
 *
 * `BOSSES` (here `names` for its key order and `bosses` for its entries) is the
 * persisted boss table; `spawn_times` (here `spawnTimes`) is the derived table of
 * next-spawn instants. Every command upper-cases the boss name first. Discord
 * replies, reactions and file saves are not modelled; what a command reports
 * back is its outcome value.
 */
module Tracker {
  import opened Optional
  import opened Clock
  import opened Names
  import opened Bosses
  import opened Warnings
  import opened Import
  import opened ImportLoop
  import opened Tick

  /**
   * How `!killed` learned the kill time: `AtNow` when the time and the date were
   * not both given (an HH:MM without a date also records now), a parsed
   * `HH:MM YYYY-MM-DD`, or a time and date that did not parse.
   */
  datatype KillTime = AtNow | At(instant: int) | Unparsable

  datatype KillOutcome =
    | Recorded(killTime: int, nextSpawn: int)
    | Rejected       // unknown boss or not an interval boss: the ❌ reaction
    | InvalidFormat  // the explicit time did not parse

  datatype SlotOutcome =
    | Added
    | AlreadyScheduled  // exact duplicate slot: reported, nothing changes
    | NotWeekly         // the boss is an interval boss: its entry has no schedule to look into

  datatype ImportOutcome = Imported(count: nat) | ImportFailed

  /** `!testwarn` puts the boss's spawn this far ahead (five minutes). */
  const TestWarnLead: int := 5 * MinuteSeconds

  class BossTracker {
    var names: seq<string>
    var bosses: map<string, Boss>
    var spawnTimes: map<string, int>
    /** Warnings the update loop has sent to the warning channel, oldest first. */
    var sent: seq<Warning>

    ghost predicate Valid()
      reads this
    {
      Registered(names, bosses, spawnTimes)
    }

    /** Start-up: the boss table as loaded, then `rebuild_spawn_times`. */
    constructor Start(loadedNames: seq<string>, loaded: map<string, Boss>, now: int)
      requires Registered(loadedNames, loaded, map[])
      ensures Valid()
      ensures names == loadedNames && bosses == loaded && sent == []
      ensures spawnTimes == SpawnTimes(loaded, now)
    {
      names := loadedNames;
      bosses := loaded;
      spawnTimes := map[];
      sent := [];
      new;
      Rebuild(now);
    }

    /** `rebuild_spawn_times`: clear the spawn table and refill it from the boss table. */
    method Rebuild(now: int)
      requires Valid()
      modifies this
      ensures Valid()
      ensures names == old(names) && bosses == old(bosses) && sent == old(sent)
      ensures spawnTimes == SpawnTimes(bosses, now)
    {
      spawnTimes := RebuildTable(names, bosses, now);
    }

    /** `!setinterval`: (re)define an interval boss, due `hours` from now. */
    method SetInterval(name: string, hours: int, now: int)
      requires Valid()
      modifies this
      ensures Valid()
      ensures var k := Upper(name);
        && names == Put(old(names), k)
        && bosses == old(bosses)[k := Respawn(hours, NoKill, None)]
        && spawnTimes == old(spawnTimes)[k := now + hours * HourSeconds]
        && sent == old(sent)
    {
      var k := Upper(name);
      names := Put(names, k);
      bosses := bosses[k := Respawn(hours, NoKill, None)];
      spawnTimes := spawnTimes[k := now + hours * HourSeconds];
    }

    /**
     * `!setspawn`: add a weekly slot, creating the weekly boss if the name is new.
     * An exact duplicate changes nothing; an interval boss has no schedule (the
     * lookup fails and nothing changes); otherwise the slot goes last and the
     * whole spawn table is rebuilt.
     */
    method SetSpawn(name: string, slot: Slot, now: int) returns (outcome: SlotOutcome)
      requires Valid()
      modifies this
      ensures Valid()
      ensures sent == old(sent)
      ensures var k := Upper(name);
        && (k in old(bosses) && old(bosses)[k].Respawn? ==> outcome == NotWeekly)
        && (k in old(bosses) && old(bosses)[k].Weekly? && slot in old(bosses)[k].schedule ==> outcome == AlreadyScheduled)
        && (outcome != Added ==> names == old(names) && bosses == old(bosses) && spawnTimes == old(spawnTimes))
        && (outcome == Added <==> k !in old(bosses) || (old(bosses)[k].Weekly? && slot !in old(bosses)[k].schedule))
        && (outcome == Added ==>
              var before := if k in old(bosses) then old(bosses)[k] else Weekly([], None);
              && names == Put(old(names), k)
              && bosses == old(bosses)[k := Weekly(before.schedule + [slot], before.warnedFor)]
              && spawnTimes == SpawnTimes(bosses, now))
      ensures old(NoDuplicateSlots(bosses)) ==> NoDuplicateSlots(bosses)
    {
      var k := Upper(name);
      var entry := if k in bosses then bosses[k] else Weekly([], None);
      if entry.Respawn? {
        return NotWeekly;
      }
      if slot in entry.schedule {
        return AlreadyScheduled;
      }
      names := Put(names, k);
      bosses := bosses[k := Weekly(entry.schedule + [slot], entry.warnedFor)];
      Rebuild(now);
      outcome := Added;
    }

    /**
     * `!killed`: record a kill of an interval boss (now, or at an explicit time),
     * clear its warning stamp and make it due `hours` after the kill.
     */
    method Killed(name: string, when: KillTime, now: int) returns (outcome: KillOutcome)
      requires Valid()
      modifies this
      ensures Valid()
      ensures sent == old(sent)
      ensures var k := Upper(name);
        && (k !in old(bosses) || old(bosses)[k].Weekly? ==> outcome == Rejected)
        && (k in old(bosses) && old(bosses)[k].Respawn? && when.Unparsable? ==> outcome == InvalidFormat)
        && (!outcome.Recorded? ==> names == old(names) && bosses == old(bosses) && spawnTimes == old(spawnTimes))
        && (outcome.Recorded? ==>
              k in old(bosses) && old(bosses)[k].Respawn? && !when.Unparsable?
              && outcome.killTime == (if when.At? then when.instant else now)
              && outcome.nextSpawn == outcome.killTime + old(bosses)[k].hours * HourSeconds
              && names == old(names)
              && bosses == old(bosses)[k := Respawn(old(bosses)[k].hours, KilledAt(outcome.killTime), None)]
              && spawnTimes == old(spawnTimes)[k := outcome.nextSpawn])
    {
      var k := Upper(name);
      if k !in bosses || !bosses[k].Respawn? {
        return Rejected;
      }
      var killTime: int;
      match when {
        case Unparsable => return InvalidFormat;
        case At(t) => killTime := t;
        case AtNow => killTime := now;
      }
      var hours := bosses[k].hours;
      var next := killTime + hours * HourSeconds;
      bosses := bosses[k := Respawn(hours, KilledAt(killTime), None)];
      spawnTimes := spawnTimes[k := next];
      outcome := Recorded(killTime, next);
    }

    /** `!deleteboss`: drop the boss from both tables; an unknown name changes nothing. */
    method DeleteBoss(name: string) returns (found: bool)
      requires Valid()
      modifies this
      ensures Valid()
      ensures sent == old(sent)
      ensures var k := Upper(name);
        && found == (k in old(bosses))
        && (!found ==> names == old(names) && bosses == old(bosses) && spawnTimes == old(spawnTimes))
        && (found ==>
              && names == Without(old(names), k)
              && bosses == old(bosses) - {k}
              && spawnTimes == old(spawnTimes) - {k})
    {
      var k := Upper(name);
      if k !in bosses {
        return false;
      }
      names := Without(names, k);
      bosses := bosses - {k};
      spawnTimes := spawnTimes - {k};
      found := true;
    }

    /** `!testwarn`: pretend the boss spawns in five minutes and re-arm its warning. */
    method TestWarn(name: string, now: int) returns (found: bool)
      requires Valid()
      modifies this
      ensures Valid()
      ensures sent == old(sent) && names == old(names)
      ensures var k := Upper(name);
        && found == (k in old(bosses))
        && (!found ==> bosses == old(bosses) && spawnTimes == old(spawnTimes))
        && (found ==>
              && bosses == old(bosses)[k := old(bosses)[k].(warnedFor := None)]
              && spawnTimes == old(spawnTimes)[k := now + TestWarnLead])
    {
      var k := Upper(name);
      if k !in bosses {
        return false;
      }
      spawnTimes := spawnTimes[k := now + TestWarnLead];
      bosses := bosses[k := bosses[k].(warnedFor := None)];
      found := true;
    }

    /**
     * `!importbosses`: run the `!setinterval` and `!setspawn` lines of the file.
     * If every line goes through, the spawn table is rebuilt and the number of
     * command lines is reported; if a line raises, the import stops there with
     * the earlier lines' changes kept in memory and no rebuild.
     */
    method ImportBosses(lines: seq<ImportLine>, now: int) returns (outcome: ImportOutcome)
      requires Valid()
      modifies this
      ensures Valid()
      ensures sent == old(sent)
      ensures var f := ImportFold(Tables(old(names), old(bosses), old(spawnTimes)), lines, now);
        && names == f.tables.names && bosses == f.tables.bosses
        && (f.failed ==> outcome == ImportFailed && spawnTimes == f.tables.spawnTimes)
        && (!f.failed ==> outcome == Imported(f.count) && spawnTimes == SpawnTimes(bosses, now))
    {
      var folded := ReadImportLines(Tables(names, bosses, spawnTimes), lines, now);
      ImportOnlyAdds(Tables(names, bosses, spawnTimes), lines, now);
      names, bosses, spawnTimes := folded.tables.names, folded.tables.bosses, folded.tables.spawnTimes;
      if folded.failed {
        return ImportFailed;
      }
      Rebuild(now);
      outcome := Imported(folded.count);
    }

    /**
     * The warning part of one tick of the update loop. `channelReady` says the
     * warning channel is configured and the bot can see it; otherwise the pass
     * does nothing at all.
     */
    method WarnTick(now: int, channelReady: bool)
      requires Valid()
      modifies this
      ensures Valid()
      ensures names == old(names) && spawnTimes == old(spawnTimes)
      ensures !channelReady ==> bosses == old(bosses) && sent == old(sent)
      ensures channelReady ==>
        && bosses == AfterWarnings(old(bosses), spawnTimes, now)
        && sent == old(sent) + WarningsDue(names, old(bosses), spawnTimes, now)
    {
      if !channelReady {
        return;
      }
      var acked, out := WarningPass(names, bosses, spawnTimes, now);
      bosses, sent := acked, sent + out;
    }
  }
}
