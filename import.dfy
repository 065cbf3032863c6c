/**
 * `!importbosses` as a fold over the lines of `boss time.txt`.
 *
 * The command runs every `!setinterval` and `!setspawn` line of the file against
 * the boss table, in order. A line that raises (an hour count that is not an
 * integer, or a slot for an interval boss) ends the import; the lines before it
 * have already changed the tables in memory.
 */
module Import {
  import opened Optional
  import opened Clock
  import opened Names
  import opened Bosses

  /**
   * One line of `boss time.txt`, already split into words and classified:
   * `!setinterval NAME HOURS` (three words; `hours` is None when HOURS is not an
   * integer), `!setspawn NAME DAY HH:MM` (four words), or anything else.
   */
  datatype ImportLine =
    | IntervalLine(boss: string, hours: Option<int>)
    | SpawnLine(boss: string, slot: Slot)
    | OtherLine

  /** The two tables as values, for stating what an import does to them. */
  datatype Tables = Tables(names: seq<string>, bosses: map<string, Boss>, spawnTimes: map<string, int>)

  /** Where reading lines got to: the tables, the number of lines accepted, and whether a line raised. */
  datatype Folded = Folded(tables: Tables, count: nat, failed: bool)

  /**
   * The effect of one import line, or None when the line raises: a
   * non-integer hour count, or a `!setspawn` line for an interval boss.
   */
  function ImportStep(t: Tables, line: ImportLine, now: int): Option<Tables>
  {
    match line
    case OtherLine => Some(t)
    case IntervalLine(boss, hours) =>
      if hours.None? then None
      else
        var k := Upper(boss);
        Some(Tables(Put(t.names, k), t.bosses[k := Respawn(hours.value, NoKill, None)],
                    t.spawnTimes[k := now + hours.value * HourSeconds]))
    case SpawnLine(boss, slot) =>
      var k := Upper(boss);
      var entry := if k in t.bosses then t.bosses[k] else Weekly([], None);
      if entry.Respawn? then None
      else
        var schedule := if slot in entry.schedule then entry.schedule else entry.schedule + [slot];
        var names := if k in t.bosses then t.names else Put(t.names, k);
        Some(Tables(names, t.bosses[k := Weekly(schedule, entry.warnedFor)], t.spawnTimes))
  }

  /**
   * Reading the lines in order. The first line that raises ends the import; the
   * changes made by the lines before it stay in the tables.
   */
  function ImportFold(t: Tables, lines: seq<ImportLine>, now: int): (f: Folded)
    ensures f.count <= |lines|
    decreases |lines|
  {
    if lines == [] then Folded(t, 0, false)
    else
      var n := |lines| - 1;
      var prev := ImportFold(t, lines[..n], now);
      if prev.failed then prev
      else match ImportStep(prev.tables, lines[n], now)
        case None => Folded(prev.tables, prev.count, true)
        case Some(next) => Folded(next, prev.count + (if lines[n].OtherLine? then 0 else 1), false)
  }

  /** Reading one more line after a prefix that went through. */
  lemma ImportFoldStep(t: Tables, lines: seq<ImportLine>, i: nat, now: int)
    requires i < |lines| && !ImportFold(t, lines[..i], now).failed
    ensures var prev := ImportFold(t, lines[..i], now);
      ImportFold(t, lines[..i + 1], now) ==
        match ImportStep(prev.tables, lines[i], now)
        case None => Folded(prev.tables, prev.count, true)
        case Some(next) => Folded(next, prev.count + (if lines[i].OtherLine? then 0 else 1), false)
  {
    assert lines[..i + 1][..i] == lines[..i];
  }

  /** Once a line has raised, the lines after it are never read. */
  lemma {:induction false} ImportStopsAtFailure(t: Tables, lines: seq<ImportLine>, i: nat, now: int)
    requires i <= |lines| && ImportFold(t, lines[..i], now).failed
    ensures ImportFold(t, lines, now) == ImportFold(t, lines[..i], now)
    decreases |lines| - i
  {
    if i < |lines| {
      assert lines[..i + 1][..i] == lines[..i];
      ImportStopsAtFailure(t, lines, i + 1, now);
    } else {
      assert lines[..i] == lines;
    }
  }

  /** Number of lines that are `!setinterval` or `!setspawn` commands. */
  function CommandLines(lines: seq<ImportLine>): nat
  {
    if lines == [] then 0
    else CommandLines(lines[..|lines| - 1]) + (if lines[|lines| - 1].OtherLine? then 0 else 1)
  }

  /** A `!setspawn` line that goes through only adds, and keeps the tables consistent and the schedules free of duplicates. */
  lemma SpawnLineOnlyAdds(p: Tables, boss: string, slot: Slot, now: int)
    requires Registered(p.names, p.bosses, p.spawnTimes)
    ensures ImportStep(p, SpawnLine(boss, slot), now).Some? ==>
      var next := ImportStep(p, SpawnLine(boss, slot), now).value;
      && Registered(next.names, next.bosses, next.spawnTimes)
      && p.names <= next.names
      && p.bosses.Keys <= next.bosses.Keys
      && (NoDuplicateSlots(p.bosses) ==> NoDuplicateSlots(next.bosses))
  {
    var k := Upper(boss);
    var entry := if k in p.bosses then p.bosses[k] else Weekly([], None);
    if entry.Weekly? && NoDuplicateSlots(p.bosses) {
      assert DistinctSlots(entry.schedule);
    }
  }

  /** One line that goes through only adds, and keeps the tables consistent and the schedules free of duplicates. */
  lemma ImportStepOnlyAdds(p: Tables, line: ImportLine, now: int)
    requires Registered(p.names, p.bosses, p.spawnTimes)
    ensures ImportStep(p, line, now).Some? ==>
      var next := ImportStep(p, line, now).value;
      && Registered(next.names, next.bosses, next.spawnTimes)
      && p.names <= next.names
      && p.bosses.Keys <= next.bosses.Keys
      && (NoDuplicateSlots(p.bosses) ==> NoDuplicateSlots(next.bosses))
  {
    if line.SpawnLine? {
      SpawnLineOnlyAdds(p, line.boss, line.slot, now);
    }
  }

  /**
   * An import that completes reports every command line as imported (duplicate
   * slots included), and it only adds: every boss that was there stays, in the
   * same order, the tables stay consistent, and no schedule gains a duplicate slot.
   */
  lemma {:induction false} ImportOnlyAdds(t: Tables, lines: seq<ImportLine>, now: int)
    requires Registered(t.names, t.bosses, t.spawnTimes)
    ensures var f := ImportFold(t, lines, now);
      && (!f.failed ==> f.count == CommandLines(lines))
      && Registered(f.tables.names, f.tables.bosses, f.tables.spawnTimes)
      && t.names <= f.tables.names
      && t.bosses.Keys <= f.tables.bosses.Keys
      && (NoDuplicateSlots(t.bosses) ==> NoDuplicateSlots(f.tables.bosses))
    decreases |lines|
  {
    if lines != [] {
      var n := |lines| - 1;
      ImportOnlyAdds(t, lines[..n], now);
      var prev := ImportFold(t, lines[..n], now);
      ImportStepOnlyAdds(prev.tables, lines[n], now);
    }
  }
}
