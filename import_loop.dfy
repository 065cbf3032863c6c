/**
 * The loop of `!importbosses` over the lines of `boss time.txt`, proved to
 * compute the fold of module Import.
 */
module ImportLoop {
  import opened Optional
  import opened Clock
  import opened Names
  import opened Bosses
  import opened Import

  /**
   * One `!setspawn` line of `!importbosses`: create the weekly boss if the name
   * is new, then append the slot unless it is already there. An interval boss
   * has no schedule to look into, and the line raises (None).
   */
  method ImportSpawnLine(t: Tables, boss: string, slot: Slot, now: int) returns (next: Option<Tables>)
    ensures next == ImportStep(t, SpawnLine(boss, slot), now)
  {
    var names, bosses := t.names, t.bosses;
    var k := Upper(boss);
    if k !in bosses {
      names := Put(names, k);
      bosses := bosses[k := Weekly([], None)];
    }
    if bosses[k].Respawn? {
      return None;
    }
    if slot !in bosses[k].schedule {
      bosses := bosses[k := Weekly(bosses[k].schedule + [slot], bosses[k].warnedFor)];
    }
    ghost var entry := if k in t.bosses then t.bosses[k] else Weekly([], None);
    ghost var schedule := if slot in entry.schedule then entry.schedule else entry.schedule + [slot];
    assert bosses == t.bosses[k := Weekly(schedule, entry.warnedFor)];
    next := Some(Tables(names, bosses, t.spawnTimes));
  }

  /**
   * One line of the file: a `!setinterval` line (re)defines an interval boss,
   * due `hours` from now; a `!setspawn` line adds a slot; any other line is
   * skipped. None when the line raises.
   */
  method ImportOneLine(t: Tables, line: ImportLine, now: int) returns (next: Option<Tables>)
    ensures next == ImportStep(t, line, now)
  {
    match line {
      case OtherLine =>
        next := Some(t);
      case IntervalLine(boss, hours) =>
        if hours.None? {
          return None;
        }
        var k := Upper(boss);
        next := Some(Tables(Put(t.names, k), t.bosses[k := Respawn(hours.value, NoKill, None)],
                            t.spawnTimes[k := now + hours.value * HourSeconds]));
      case SpawnLine(boss, slot) =>
        next := ImportSpawnLine(t, boss, slot, now);
    }
  }

  /** The loop of `!importbosses` over the file's lines, applying each to the tables as it goes. */
  method ReadImportLines(start: Tables, lines: seq<ImportLine>, now: int) returns (f: Folded)
    ensures f == ImportFold(start, lines, now)
  {
    var tables := start;
    var imported := 0;
    var i := 0;
    while i < |lines|
      invariant 0 <= i <= |lines|
      invariant ImportFold(start, lines[..i], now) == Folded(tables, imported, false)
    {
      ImportFoldStep(start, lines, i, now);
      var next := ImportOneLine(tables, lines[i], now);
      if next.None? {
        ImportStopsAtFailure(start, lines, i + 1, now);
        return Folded(tables, imported, true);
      }
      tables := next.value;
      if !lines[i].OtherLine? {
        imported := imported + 1;
      }
      i := i + 1;
    }
    assert lines[..|lines|] == lines;
    f := Folded(tables, imported, false);
  }
}
