/**
 * The warning section of one tick of the 15-second update loop, proved to
 * send exactly the warnings of module Warnings and to leave the boss table as
 * AfterWarnings describes.
 */
module Tick {
  import opened Optional
  import opened Names
  import opened Bosses
  import opened Warnings

  /**
   * One boss of the warning loop: if its spawn instant is 240 to 300 seconds
   * away and its stamp does not already hold that instant, send the warning
   * and stamp the boss.
   */
  method CheckBoss(k: string, acked: map<string, Boss>, spawnTimes: map<string, int>, now: int)
    returns (after: map<string, Boss>, sent: seq<Warning>)
    requires k in acked
    ensures after == acked[k := Acknowledge(acked[k], k, spawnTimes, now)]
    ensures sent == if k in spawnTimes && Due(acked[k], spawnTimes[k], now) then [Warning(k, spawnTimes[k])] else []
  {
    after, sent := acked, [];
    if k in spawnTimes {
      var t := spawnTimes[k];
      if InWindow(t, now) && acked[k].warnedFor != Some(t) {
        sent := [Warning(k, t)];
        after := acked[k := acked[k].(warnedFor := Some(t))];
      }
    }
  }

  /**
   * The loop over the spawn table in the warning part of a tick: it sends the
   * due warnings and stamps each warned boss with its spawn instant as it goes.
   */
  method WarningPass(order: seq<string>, bosses: map<string, Boss>, spawnTimes: map<string, int>, now: int)
    returns (acked: map<string, Boss>, out: seq<Warning>)
    requires Distinct(order) && forall k :: k in order <==> k in bosses
    ensures acked == AfterWarnings(bosses, spawnTimes, now)
    ensures out == WarningsDue(order, bosses, spawnTimes, now)
  {
    acked, out := bosses, [];
    var i := 0;
    while i < |order|
      invariant 0 <= i <= |order|
      invariant AckedAfter(order[..i], bosses, spawnTimes, now, acked)
      invariant out == WarningsDue(order[..i], bosses, spawnTimes, now)
    {
      var k := order[i];
      PassStep(order, bosses, spawnTimes, now, i, acked, out);
      var sent;
      acked, sent := CheckBoss(k, acked, spawnTimes, now);
      out := out + sent;
      i := i + 1;
    }
    PassDone(order, bosses, spawnTimes, now, acked, out);
  }
}
