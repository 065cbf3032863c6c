/**
 * The five-minute proximity warning of the 15-second update loop, and its
 * de-duplication.
 *
 * A boss whose spawn instant `t` is between 240 and 300 seconds away gets a
 * warning in the warning channel, unless its `warned_for` stamp already holds
 * `t`; sending sets the stamp to `t`. Because the loop polls, a spawn instant
 * stays in that window for several ticks; the stamp is what makes the warning
 * go out once per spawn instant. Sending is modelled as appending a Warning to
 * the list of messages the loop attempted to send.
 */
module Warnings {
  import opened Optional
  import opened Names
  import opened Bosses

  const WindowStart: int := 240
  const WindowEnd: int := 300

  datatype Warning = Warning(boss: string, at: int)

  /** The spawn instant `t` is 240 to 300 seconds after `now`, both ends included. */
  predicate InWindow(t: int, now: int)
  {
    WindowStart <= t - now <= WindowEnd
  }

  /** The tick at `now` warns about a boss spawning at `t`. */
  predicate Due(b: Boss, t: int, now: int)
  {
    InWindow(t, now) && b.warnedFor != Some(t)
  }

  /** A boss after the tick at `now` looked at it: stamped with `t` if it was due. */
  function Acknowledge(b: Boss, k: string, spawnTimes: map<string, int>, now: int): (r: Boss)
    ensures k in spawnTimes && InWindow(spawnTimes[k], now) ==> r.warnedFor == Some(spawnTimes[k])
    ensures !(k in spawnTimes && InWindow(spawnTimes[k], now)) ==> r == b
    ensures r.Respawn? == b.Respawn?
  {
    if k in spawnTimes && Due(b, spawnTimes[k], now) then b.(warnedFor := Some(spawnTimes[k])) else b
  }

  /** The boss table after one warning pass. */
  function AfterWarnings(bosses: map<string, Boss>, spawnTimes: map<string, int>, now: int): (r: map<string, Boss>)
    ensures r.Keys == bosses.Keys
  {
    map k | k in bosses :: Acknowledge(bosses[k], k, spawnTimes, now)
  }

  /** Part way through a pass: the bosses in `visited` are acknowledged, the others untouched. */
  predicate AckedAfter(visited: seq<string>, bosses: map<string, Boss>, spawnTimes: map<string, int>, now: int, acked: map<string, Boss>)
  {
    && acked.Keys == bosses.Keys
    && (forall k :: k in acked && k !in visited ==> acked[k] == bosses[k])
    && (forall k :: k in acked && k in visited ==> acked[k] == Acknowledge(bosses[k], k, spawnTimes, now))
  }

  /** Acknowledging one more, not yet visited, boss. */
  lemma AckedStep(visited: seq<string>, k: string, bosses: map<string, Boss>, spawnTimes: map<string, int>, now: int, acked: map<string, Boss>)
    requires AckedAfter(visited, bosses, spawnTimes, now, acked)
    requires k in bosses && k !in visited
    ensures acked[k] == bosses[k]
    ensures AckedAfter(visited + [k], bosses, spawnTimes, now, acked[k := Acknowledge(acked[k], k, spawnTimes, now)])
  {
    assert forall j :: j in visited + [k] <==> j in visited || j == k;
  }

  /** A pass that has visited every boss has produced AfterWarnings and all of its warnings. */
  lemma PassDone(order: seq<string>, bosses: map<string, Boss>, spawnTimes: map<string, int>, now: int,
                 acked: map<string, Boss>, out: seq<Warning>)
    requires AckedAfter(order[..|order|], bosses, spawnTimes, now, acked)
    requires out == WarningsDue(order[..|order|], bosses, spawnTimes, now)
    requires forall k :: k in bosses ==> k in order
    ensures acked == AfterWarnings(bosses, spawnTimes, now)
    ensures out == WarningsDue(order, bosses, spawnTimes, now)
  {
    assert order[..|order|] == order;
  }

  /** The warnings one pass sends, in the order it visits the bosses. */
  function WarningsDue(order: seq<string>, bosses: map<string, Boss>, spawnTimes: map<string, int>, now: int): seq<Warning>
    decreases |order|
  {
    if order == [] then []
    else
      var n := |order| - 1;
      var k := order[n];
      WarningsDue(order[..n], bosses, spawnTimes, now) +
      (if k in spawnTimes && k in bosses && Due(bosses[k], spawnTimes[k], now) then [Warning(k, spawnTimes[k])] else [])
  }

  /** A pass warns about exactly the listed bosses that are due, each with its spawn instant. */
  lemma {:induction false} WarningsDueMembers(order: seq<string>, bosses: map<string, Boss>, spawnTimes: map<string, int>, now: int)
    ensures forall w :: w in WarningsDue(order, bosses, spawnTimes, now) <==>
      w.boss in order && w.boss in spawnTimes && w.boss in bosses &&
      w.at == spawnTimes[w.boss] && Due(bosses[w.boss], w.at, now)
    decreases |order|
  {
    if order != [] {
      var n := |order| - 1;
      WarningsDueMembers(order[..n], bosses, spawnTimes, now);
      assert forall x :: x in order <==> x in order[..n] || x == order[n];
    }
  }

  /** Visiting one more boss appends at most that boss's warning. */
  lemma WarningsDueStep(order: seq<string>, bosses: map<string, Boss>, spawnTimes: map<string, int>, now: int, i: int)
    requires 0 <= i < |order|
    ensures WarningsDue(order[..i + 1], bosses, spawnTimes, now) ==
      WarningsDue(order[..i], bosses, spawnTimes, now) +
      (if order[i] in spawnTimes && order[i] in bosses && Due(bosses[order[i]], spawnTimes[order[i]], now)
       then [Warning(order[i], spawnTimes[order[i]])] else [])
  {
    assert order[..i + 1][..i] == order[..i];
  }

  /** One step of the warning loop keeps both of its invariants. */
  lemma PassStep(order: seq<string>, bosses: map<string, Boss>, spawnTimes: map<string, int>, now: int, i: int,
                 acked: map<string, Boss>, out: seq<Warning>)
    requires Distinct(order) && 0 <= i < |order| && order[i] in bosses
    requires AckedAfter(order[..i], bosses, spawnTimes, now, acked)
    requires out == WarningsDue(order[..i], bosses, spawnTimes, now)
    ensures var k := order[i];
      && k in acked
      && AckedAfter(order[..i + 1], bosses, spawnTimes, now, acked[k := Acknowledge(acked[k], k, spawnTimes, now)])
      && WarningsDue(order[..i + 1], bosses, spawnTimes, now) ==
         out + (if k in spawnTimes && Due(acked[k], spawnTimes[k], now) then [Warning(k, spawnTimes[k])] else [])
  {
    var k := order[i];
    WarningsDueStep(order, bosses, spawnTimes, now, i);
    assert order[..i + 1] == order[..i] + [k];
    DistinctNotEarlier(order, i);
    AckedStep(order[..i], k, bosses, spawnTimes, now, acked);
  }

  /** Number of warnings about boss `k`. */
  function CountFor(ws: seq<Warning>, k: string): nat
  {
    if ws == [] then 0 else CountFor(ws[..|ws| - 1], k) + (if ws[|ws| - 1].boss == k then 1 else 0)
  }

  lemma {:induction false} CountForAppend(a: seq<Warning>, b: seq<Warning>, k: string)
    ensures CountFor(a + b, k) == CountFor(a, k) + CountFor(b, k)
    decreases |b|
  {
    if b == [] {
      assert a + b == a;
    } else {
      var n := |b| - 1;
      assert (a + b)[..|a + b| - 1] == a + b[..n];
      assert (a + b)[|a + b| - 1] == b[n];
      CountForAppend(a, b[..n], k);
    }
  }

  /** One pass warns about a listed boss at most once, and exactly when it is due. */
  lemma {:induction false} OnePassCount(order: seq<string>, bosses: map<string, Boss>, spawnTimes: map<string, int>, now: int, k: string)
    requires Distinct(order)
    ensures CountFor(WarningsDue(order, bosses, spawnTimes, now), k) ==
      if k in order && k in spawnTimes && k in bosses && Due(bosses[k], spawnTimes[k], now) then 1 else 0
    decreases |order|
  {
    if order != [] {
      var n := |order| - 1;
      var last := order[n];
      var tail := if last in spawnTimes && last in bosses && Due(bosses[last], spawnTimes[last], now) then [Warning(last, spawnTimes[last])] else [];
      assert Distinct(order[..n]);
      OnePassCount(order[..n], bosses, spawnTimes, now, k);
      CountForAppend(WarningsDue(order[..n], bosses, spawnTimes, now), tail, k);
      assert tail == [] || tail[..0] == [];
      assert last !in order[..n];
      assert forall x :: x in order <==> x in order[..n] || x == last;
    }
  }

  /** The boss table and the sent warnings after a run of passes, one per clock reading in `nows`. */
  datatype Run = Run(bosses: map<string, Boss>, sent: seq<Warning>)

  function RunPasses(order: seq<string>, bosses: map<string, Boss>, spawnTimes: map<string, int>, nows: seq<int>): (r: Run)
    ensures r.bosses.Keys == bosses.Keys
    decreases |nows|
  {
    if nows == [] then Run(bosses, [])
    else
      var n := |nows| - 1;
      var before := RunPasses(order, bosses, spawnTimes, nows[..n]);
      Run(AfterWarnings(before.bosses, spawnTimes, nows[n]),
          before.sent + WarningsDue(order, before.bosses, spawnTimes, nows[n]))
  }

  /** Some clock reading in `nows` sees `t` inside the warning window. */
  predicate SeenInWindow(t: int, nows: seq<int>)
    ensures SeenInWindow(t, nows) <==> exists i :: 0 <= i < |nows| && InWindow(t, nows[i])
    decreases |nows|
  {
    if nows == [] then false
    else
      var n := |nows| - 1;
      assert forall i :: 0 <= i < n ==> nows[..n][i] == nows[i];
      SeenInWindow(t, nows[..n]) || InWindow(t, nows[n])
  }

  /**
   * Exactly one warning per spawn instant: over any run of passes during which a
   * boss's spawn instant `t` stays the same, the boss is warned about once if
   * some pass saw `t` inside the window and the stamp did not already hold `t`,
   * and never otherwise; afterwards its stamp holds `t` if any pass saw the window.
   */
  lemma {:induction false} WarnedOncePerSpawn(order: seq<string>, bosses: map<string, Boss>, spawnTimes: map<string, int>, nows: seq<int>, k: string)
    requires Distinct(order) && k in order && k in bosses && k in spawnTimes
    ensures var r := RunPasses(order, bosses, spawnTimes, nows);
      var seen := SeenInWindow(spawnTimes[k], nows);
      && CountFor(r.sent, k) == (if seen && bosses[k].warnedFor != Some(spawnTimes[k]) then 1 else 0)
      && r.bosses[k].warnedFor == (if seen then Some(spawnTimes[k]) else bosses[k].warnedFor)
    decreases |nows|
  {
    if nows != [] {
      var n := |nows| - 1;
      var before := RunPasses(order, bosses, spawnTimes, nows[..n]);
      WarnedOncePerSpawn(order, bosses, spawnTimes, nows[..n], k);
      OnePassCount(order, before.bosses, spawnTimes, nows[n], k);
      CountForAppend(before.sent, WarningsDue(order, before.bosses, spawnTimes, nows[n]), k);
    }
  }
}
