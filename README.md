# Boss tracker scheduling engine

A Dafny model of the scheduling engine of the boss tracker Discord bot
(`boss_tracker_bot.py`). The bot keeps a boss table (`BOSSES`) holding two
kinds of boss: interval ("respawn") bosses that come back a fixed number of
hours after their last kill, and weekly bosses that appear at fixed
(weekday, HH:MM) slots. From that table it derives `spawn_times`, the next
spawn instant of every boss. Chat commands change both tables. A 15-second
loop renders two views of `spawn_times` and sends one five-minute warning
per spawn instant.

Instants are whole POSIX seconds. Local dates and times are in the bot's one
fixed zone, UTC+8. A local day is `(t + 8h) / 86400`. The weekday is
`(day + 3) mod 7`, because 1970-01-01 was a Thursday, and Monday is 0 as in
Python's `weekday()`.

Modules:

- `Clock` (clock.dfy): slots, local days and weekdays, and the next occurrence of one weekly slot.
- `Names` (names.dfy): upper-casing of boss names, and the insertion order of the boss table kept as a sequence of distinct keys.
- `Bosses` (bosses.dfy): boss entries, the next-spawn computation of `rebuild_spawn_times`, and its two loops (over a weekly boss's slots, and over the boss table) as methods proved against that computation.
- `Warnings` (warnings.dfy): the warning window, the `warned_for` stamp and the once-per-spawn property over runs of ticks.
- `Tick` (tick.dfy): the warning loop of one tick, as a method proved against `Warnings`.
- `Import` (import.dfy): `!importbosses` as a fold over the file's lines, with what a completed or a failed import leaves behind.
- `ImportLoop` (import_loop.dfy): the import's line loop, as a method proved against that fold.
- `Duration` (duration.dfy): `format_timedelta`, with a reader that parses its output back.
- `Views` (views.dfy): the entries of the live panel, split into fields of ten, and the sorted next-24-hours list.
- `Tracker` (tracker.dfy): the class `BossTracker`, holding the two tables as fields and one method per command.
- `Optional` (option.dfy): the `Option` type.

Behaviour of the code that the model keeps:

- The warning loop visits every entry of `spawn_times` (boss_tracker_bot.py:400), so weekly bosses are warned and stamped too.
- `!setinterval` overwrites any existing boss, a weekly one included.
- `!setspawn` on an existing interval boss fails when it looks up the missing `"schedule"` key. The model reports this as `NotWeekly` and leaves both tables unchanged.

## Model

| member | source | states |
|---|---|---|
| Clock.NextSlotInstant | boss_tracker_bot.py:97-101 | A slot's candidate is strictly after now and at most seven days later. It falls on the slot's weekday at HH:MM:00. |
| Clock.NextSlotInstantIsFirst | boss_tracker_bot.py:97-101 | No instant after now that falls on the slot comes before the candidate. |
| Clock.WednesdayAfternoon | boss_tracker_bot.py:98-101 | At Wednesday 16:00, a 17:00 Wednesday slot is one hour ahead. The 16:00 and 15:59 Wednesday slots move to next week. A Tuesday slot wraps around to six days later. |
| Bosses.EarliestSlotInstant | boss_tracker_bot.py:90-103 | A weekly boss's entry is absent exactly when its schedule is empty. Otherwise it is one of its slots' candidates and no later than any of them, i.e. their minimum. |
| Bosses.WeeklyEntryIsNextOccurrence | boss_tracker_bot.py:90-103 | A weekly boss's entry is its true next occurrence: after now, at most a week away, on one of its slots, and no scheduled instant after now is earlier. |
| Bosses.RespawnEntry | boss_tracker_bot.py:80-88 | An interval boss with a readable kill gets kill + hours, even if that is already past. With no kill, or an unreadable one, it gets now + hours. |
| Bosses.SpawnTimes | boss_tracker_bot.py:76-103 | The rebuilt table has an entry for exactly the bosses whose next spawn is defined, and only for bosses in the table. |
| Bosses.SpawnTimesIsLocal | boss_tracker_bot.py:79-103 | Each boss's entry depends on that boss alone: changing one boss leaves every other boss's entry as it was. |
| Names.UpperIsCanonical | boss_tracker_bot.py:196 | An upper-cased name has no lower-case letter, and upper-casing it again changes nothing. |
| Names.Put | boss_tracker_bot.py:197 | Assigning a key: a new key goes last, an existing key keeps its place, and the keys stay distinct. |
| Names.Without | boss_tracker_bot.py:258 | Popping a key removes exactly that key, keeps the others distinct, and changes nothing when the key is absent. |
| Names.WithoutKeepsOrder | boss_tracker_bot.py:258 | After a pop, the remaining keys are in their original relative order. |
| Bosses.NextWeeklySpawn | boss_tracker_bot.py:90-103 | The running minimum of the per-slot loop equals the earliest slot candidate. |
| Bosses.RebuildTable | boss_tracker_bot.py:76-103 | The rebuild loop over the boss table fills the spawn table with exactly the rebuilt table. |
| Tracker.BossTracker.Rebuild | boss_tracker_bot.py:76-103 | Clears the spawn table and refills it with exactly the rebuilt table. The boss table is unchanged and stays consistent. |
| Tracker.BossTracker.Start | boss_tracker_bot.py:416-421 | Start-up keeps the loaded boss table and rebuilds the spawn table from it. |
| Tracker.BossTracker.SetInterval | boss_tracker_bot.py:195-198 | Overwrites the entry with an interval boss without a kill or stamp, and sets its spawn to now + hours. Nothing else changes. |
| Tracker.BossTracker.SetSpawn | boss_tracker_bot.py:203-216 | An interval boss: no change. An exact duplicate slot: no change. Otherwise the schedule grows by exactly the new slot, placed last. A new name is created as a weekly boss. The spawn table is rebuilt, and no schedule gains a duplicate slot. |
| Tracker.BossTracker.Killed | boss_tracker_bot.py:219-241 | Unknown or weekly boss: rejected and nothing changes. Unparsable time: nothing changes. Otherwise it records the kill time (now or the given time), clears the stamp and sets the spawn to kill + hours. |
| Tracker.BossTracker.DeleteBoss | boss_tracker_bot.py:249-259 | Unknown name: not found and nothing changes. Otherwise the key leaves both tables and the key order, and every other key is untouched. |
| Tracker.BossTracker.TestWarn | boss_tracker_bot.py:360-370 | Unknown name: nothing changes. Otherwise the boss's spawn is set to five minutes from now and its stamp is cleared, which re-arms its warning. |
| ImportLoop.ReadImportLines | boss_tracker_bot.py:329-350 | The import loop applies the lines one by one. It stops at the first line that raises, keeping the changes made before it. |
| ImportLoop.ImportOneLine | boss_tracker_bot.py:333-350 | One line of the loop, as the fold's step: other lines change nothing. An interval line with a non-integer hour count raises; otherwise it sets the boss and its spawn table entry as `!setinterval` does. A spawn line changes only the boss table (the spawn table is rebuilt once, after the loop), and for an interval boss it raises and ends the import. |
| ImportLoop.ImportSpawnLine | boss_tracker_bot.py:342-350 | A `!setspawn` line creates a missing weekly boss, appends the slot unless it is already listed, and raises for an interval boss. |
| Import.ImportOnlyAdds | boss_tracker_bot.py:329-354 | A completed import counts every command line, duplicates included. It keeps every existing boss in its place, keeps the tables consistent and adds no duplicate slot. |
| Import.ImportStopsAtFailure | boss_tracker_bot.py:324-357 | Once a line raises, the later lines are never applied. |
| Tracker.BossTracker.ImportBosses | boss_tracker_bot.py:324-357 | On success: the folded tables, a rebuilt spawn table and the count. On failure: the partial tables, no rebuild, and a failure report. |
| Tick.WarningPass | boss_tracker_bot.py:400-412 | The warning loop sends exactly the due warnings and stamps exactly the bosses whose spawn is in the window. |
| Tick.CheckBoss | boss_tracker_bot.py:401-411 | One boss of the loop: it gets a warning exactly when it is due. Afterwards its stamp holds its spawn instant if that is in the window, and nothing else changes. |
| Tracker.BossTracker.WarnTick | boss_tracker_bot.py:397-412 | Without a usable warning channel nothing happens. Otherwise the due warnings are appended to the sent list and the stamps are updated. Neither table's keys nor the spawn table change. |
| Warnings.Acknowledge | boss_tracker_bot.py:401-411 | A boss whose spawn is in the 240-300 s window ends up stamped with that spawn. Any other boss is unchanged. |
| Warnings.WarningsDueMembers | boss_tracker_bot.py:400-411 | A warning is sent for a boss exactly when its spawn t satisfies 240 <= t - now <= 300 and its stamp differs from t. |
| Warnings.OnePassCount | boss_tracker_bot.py:400-411 | One tick warns about a boss at most once, and exactly when it is due. |
| Warnings.WarnedOncePerSpawn | boss_tracker_bot.py:400-411 | Over any run of ticks with the same spawn instant, a boss is warned once if some tick saw the window and the stamp was not already set, and never otherwise. Afterwards its stamp holds that spawn. |
| Duration.FormatTimedeltaRoundTrip | boss_tracker_bot.py:106-115 | The "Hh Mm Ss" text reads back as exactly the number of seconds it was made from. |
| Duration.FormatTimedeltaUnits | boss_tracker_bot.py:106-115 | Exactly the leading zero units are dropped. Hours are shown iff the duration is at least an hour, minutes iff it is at least a minute. The text starts with 0 only for zero. |
| Views.Listed | boss_tracker_bot.py:128-133 | The listed entries are exactly the table's bosses whose spawn passes the filter, each with its own spawn instant, each at most once. |
| Views.UpcomingContents | boss_tracker_bot.py:128-133 | The panel lists a boss iff it is in the table and its spawn is strictly after now. |
| Views.UpcomingCountdown | boss_tracker_bot.py:131-133 | Every panel entry is still ahead. Its countdown text stands for exactly the seconds left and has no leading zero unit. |
| Views.Pages | boss_tracker_bot.py:135-143 | The panel has ceil(n/10) chunk fields, each holding 1 to 10 lines. There are no chunk fields when there are no lines; the source then shows a single "No Spawns" field, which is not modelled. |
| Views.PagesFlatten | boss_tracker_bot.py:138-143 | The fields together hold every line once, in order. |
| Views.PagesSlice | boss_tracker_bot.py:138-143 | Field j holds lines 10j+1 .. 10j+size, matching its "Bosses i-j" title. Every field but the last is full. |
| Views.InsertSorted | boss_tracker_bot.py:163 | Inserting into a sorted list keeps it sorted. |
| Views.SortByTime | boss_tracker_bot.py:163 | The sorted list is in non-decreasing spawn order and is a permutation of its input. |
| Views.NextDayContents | boss_tracker_bot.py:157-163 | The 24-hour list holds exactly the bosses with 0 <= t - now <= 86400, in non-decreasing t, as a permutation of the filtered entries. |
| Views.LabelIsRight | boss_tracker_bot.py:169-173 | A spawn within the next 24 hours is on today's or tomorrow's local date. It is labelled "Tomorrow" exactly when its date is the next day. |

## Left out

- Discord I/O is not modelled: the bot object, command decorators, replies, reactions, embed construction, and editing or re-sending the live messages. A command's reply is its outcome value, and a sent warning is an appended `Warning` event, including sends the channel refuses.
- Loading and saving the JSON files with their backup fallback, the configuration commands, and reading `boss time.txt` are file I/O and are not modelled. The import takes the file's lines already split into words and classified.
- The 15-second `tasks.loop` and async interleaving are left out. One tick is one method call; `channelReady` stands for the warning channel being configured and visible.
- `strftime` and `strptime` are left out. Instants are integers and slots are parsed (weekday, hour, minute) triples. A malformed day or time in a stored schedule, which raises uncaught in the rebuild, cannot be expressed.
- Tracker.BossTracker.SetSpawn compares parsed slots when looking for a duplicate. The source compares the day and time texts, so "9:00" and "09:00" count as different slots there.
- Tick.WarningPass visits bosses in the boss table's insertion order. The source iterates `spawn_times`, whose order can differ, for example after `!testwarn` adds an entry. This changes only the order of the warnings within one tick.
- Warnings.WarnedOncePerSpawn assumes the warning channel is ready at every tick of the run.
- Views.SortByTime does not state that the sort is stable. The order of equal spawn instants is not proved to follow the table order.
- Tracker.BossTracker.SetInterval, Tracker.BossTracker.Killed, Import.ImportStep and Bosses.NextSpawn: instants are unbounded integers, so Python's `datetime` range (years 1 to 9999) is not modelled. In the source an hour count that moves an instant out of that range raises `OverflowError`. `!setinterval` has then already overwritten the boss but not its spawn entry. An import line then ends the import as failed. `!killed` raises before changing anything. In the rebuild the fallback to now + hours raises uncaught. The model always computes the instant.
- Views.Pages: the "No Spawns" placeholder field that the panel shows when nothing is upcoming is not modelled; the model yields no fields then.
- Sub-second precision of the clock is not modelled, and neither is `format_timedelta` on negative durations, which the panel never formats.
- The rendering of entries (bold names, `%Y-%m-%d %H:%M`, `%I:%M %p`) is not modelled. Only which entries appear, their order, their fields and their labels are.
- Names.Upper upper-cases ASCII letters only. Python's `str.upper` also maps other Unicode letters.
- `!listbosses`, the token and environment handling, and process start-up are outside the scheduling engine.
