/**
 * The two read-only views of the spawn table: the live panel of `create_embed`
 * and the next-24-hours list of `create_nextspawn_embed`.
 *
 * Both walk the boss table in its insertion order and pick the bosses that
 * have a spawn entry passing a time filter. The panel shows each entry with its
 * countdown and splits the lines into fields of ten; the 24-hour list sorts its
 * entries by spawn instant and labels each as today or tomorrow.
 */
module Views {
  import opened Optional
  import opened Clock
  import opened Names
  import opened Duration

  datatype Entry = Entry(boss: string, at: int)

  /** The table's bosses, in table order, whose spawn entry `t` satisfies `keep(t)`. */
  function Listed(order: seq<string>, spawnTimes: map<string, int>, keep: int -> bool): (r: seq<Entry>)
    ensures forall e :: e in r <==> e.boss in order && e.boss in spawnTimes && e.at == spawnTimes[e.boss] && keep(e.at)
    ensures |r| <= |order|
    ensures Distinct(order) ==> forall i, j :: 0 <= i < j < |r| ==> r[i].boss != r[j].boss
    decreases |order|
  {
    if order == [] then []
    else
      var n := |order| - 1;
      var k := order[n];
      var front := Listed(order[..n], spawnTimes, keep);
      assert forall x :: x in order <==> x in order[..n] || x == k;
      assert Distinct(order) ==> k !in order[..n] && forall i :: 0 <= i < |front| ==> front[i].boss != k;
      front + (if k in spawnTimes && keep(spawnTimes[k]) then [Entry(k, spawnTimes[k])] else [])
  }

  /** `create_embed`'s entries: the spawns strictly after `now`. */
  function Upcoming(order: seq<string>, spawnTimes: map<string, int>, now: int): seq<Entry>
  {
    Listed(order, spawnTimes, t => t > now)
  }

  /**
   * Every panel entry is a spawn still ahead, and its countdown text is the
   * exact number of seconds left, with no leading zero units.
   */
  lemma UpcomingCountdown(order: seq<string>, spawnTimes: map<string, int>, now: int, e: Entry)
    requires e in Upcoming(order, spawnTimes, now)
    ensures e.boss in spawnTimes && spawnTimes[e.boss] == e.at && e.at > now
    ensures ParseTimedelta(FormatTimedelta(e.at - now)) == Some(e.at - now)
    ensures FormatTimedelta(e.at - now)[0] != '0'
  {
    FormatTimedeltaRoundTrip(e.at - now);
    FormatTimedeltaUnits(e.at - now);
  }

  /** Entries listed on the panel: exactly the table's bosses whose spawn lies ahead. */
  lemma UpcomingContents(order: seq<string>, spawnTimes: map<string, int>, now: int, k: string)
    ensures (exists e :: e in Upcoming(order, spawnTimes, now) && e.boss == k) <==>
      k in order && k in spawnTimes && spawnTimes[k] > now
  {
    if k in order && k in spawnTimes && spawnTimes[k] > now {
      assert Entry(k, spawnTimes[k]) in Upcoming(order, spawnTimes, now);
    }
  }

  /** The pages' lines, in order. */
  function Flatten<T>(pages: seq<seq<T>>): seq<T>
  {
    if pages == [] then [] else pages[0] + Flatten(pages[1..])
  }

  /**
   * The embed fields of `create_embed`: consecutive chunks of ten lines; no
   * field at all when there is nothing to list.
   */
  function Pages<T>(xs: seq<T>): (pages: seq<seq<T>>)
    ensures |pages| == (|xs| + 9) / 10
    ensures forall i :: 0 <= i < |pages| ==> 1 <= |pages[i]| <= 10
    decreases |xs|
  {
    if xs == [] then []
    else if |xs| <= 10 then [xs]
    else [xs[..10]] + Pages(xs[10..])
  }

  /** Together the pages hold every line once, in order. */
  lemma {:induction false} PagesFlatten<T>(xs: seq<T>)
    ensures Flatten(Pages(xs)) == xs
    decreases |xs|
  {
    if |xs| > 10 {
      PagesFlatten(xs[10..]);
      assert Pages(xs)[1..] == Pages(xs[10..]);
      assert xs == xs[..10] + xs[10..];
    } else if xs != [] {
      assert Flatten(Pages(xs)) == xs + Flatten([]);
    }
  }

  /**
   * The pages are the lines cut at every tenth: page `j` holds lines
   * `10j+1 .. 10j+|page|` (the "Bosses 11-20" field title), and every page but
   * the last is full.
   */
  lemma {:induction false} PagesSlice<T>(xs: seq<T>)
    ensures forall j :: 0 <= j < |Pages(xs)| ==>
      10 * j + |Pages(xs)[j]| <= |xs| && Pages(xs)[j] == xs[10 * j .. 10 * j + |Pages(xs)[j]|]
    ensures forall j :: 0 <= j < |Pages(xs)| - 1 ==> |Pages(xs)[j]| == 10
    decreases |xs|
  {
    var pages := Pages(xs);
    if |xs| > 10 {
      var rest := xs[10..];
      var later := Pages(rest);
      PagesSlice(rest);
      assert pages == [xs[..10]] + later;
      forall j | 1 <= j < |pages|
        ensures 10 * j + |pages[j]| <= |xs| && pages[j] == xs[10 * j .. 10 * j + |pages[j]|]
      {
        var i := j - 1;
        assert pages[j] == later[i];
        assert later[i] == rest[10 * i .. 10 * i + |later[i]|];
      }
    }
  }

  /** `create_nextspawn_embed`'s entries before sorting: spawns between now and 24 hours from now. */
  function InNextDay(order: seq<string>, spawnTimes: map<string, int>, now: int): seq<Entry>
  {
    Listed(order, spawnTimes, t => 0 <= t - now <= DaySeconds)
  }

  predicate SortedByTime(s: seq<Entry>)
  {
    forall i, j :: 0 <= i < j < |s| ==> s[i].at <= s[j].at
  }

  /** Places `e` after every entry not later than it, as a stable sort does. */
  function Insert(e: Entry, s: seq<Entry>): (r: seq<Entry>)
    ensures multiset(r) == multiset(s) + multiset{e}
    ensures forall x :: x in r <==> x in s || x == e
    decreases |s|
  {
    if s == [] || e.at < s[0].at then [e] + s
    else
      assert s == [s[0]] + s[1..];
      [s[0]] + Insert(e, s[1..])
  }

  /** Inserting into a sorted list keeps it sorted. */
  lemma {:induction false} InsertSorted(e: Entry, s: seq<Entry>)
    requires SortedByTime(s)
    ensures SortedByTime(Insert(e, s))
    decreases |s|
  {
    if s != [] && e.at >= s[0].at {
      var rest := Insert(e, s[1..]);
      var r := Insert(e, s);
      assert SortedByTime(s[1..]);
      InsertSorted(e, s[1..]);
      forall x | x in rest
        ensures s[0].at <= x.at
      {
        if x != e {
          var i :| 0 <= i < |s[1..]| && s[1..][i] == x;
          assert s[i + 1] == x;
        }
      }
      assert r == [s[0]] + rest;
      forall i, j | 0 <= i < j < |r|
        ensures r[i].at <= r[j].at
      {
        assert r[j] == rest[j - 1];
        if i > 0 {
          assert r[i] == rest[i - 1];
        } else {
          assert rest[j - 1] in rest;
        }
      }
    }
  }

  /** `upcoming.sort(key=lambda x: x[1])`. */
  function SortByTime(xs: seq<Entry>): (r: seq<Entry>)
    ensures SortedByTime(r)
    ensures multiset(r) == multiset(xs)
    decreases |xs|
  {
    if xs == [] then []
    else
      var n := |xs| - 1;
      var front := SortByTime(xs[..n]);
      assert xs == xs[..n] + [xs[n]];
      InsertSorted(xs[n], front);
      Insert(xs[n], front)
  }

  function NextDay(order: seq<string>, spawnTimes: map<string, int>, now: int): seq<Entry>
  {
    SortByTime(InNextDay(order, spawnTimes, now))
  }

  /**
   * The 24-hour list holds exactly the table's bosses whose spawn is between now
   * and 24 hours from now, both ends included, each once, in non-decreasing
   * spawn order.
   */
  lemma NextDayContents(order: seq<string>, spawnTimes: map<string, int>, now: int)
    ensures var r := NextDay(order, spawnTimes, now);
      && SortedByTime(r)
      && (forall e :: e in r <==> e.boss in order && e.boss in spawnTimes && e.at == spawnTimes[e.boss] && 0 <= e.at - now <= DaySeconds)
      && multiset(r) == multiset(InNextDay(order, spawnTimes, now))
  {
    var xs := InNextDay(order, spawnTimes, now);
    var r := NextDay(order, spawnTimes, now);
    forall e
      ensures e in r <==> e in xs
    {
      assert e in r <==> e in multiset(r);
      assert e in xs <==> e in multiset(xs);
    }
  }

  datatype DayLabel = Today | Tomorrow

  /** "Tomorrow, " is written for an entry whose local date differs from today's. */
  function LabelOf(t: int, now: int): DayLabel
  {
    if LocalDay(t) == LocalDay(now) then Today else Tomorrow
  }

  /** A spawn within the next 24 hours falls on today's or tomorrow's local date, so the label is right. */
  lemma LabelIsRight(t: int, now: int)
    requires 0 <= t - now <= DaySeconds
    ensures LocalDay(now) <= LocalDay(t) <= LocalDay(now) + 1
    ensures LabelOf(t, now) == Tomorrow <==> LocalDay(t) == LocalDay(now) + 1
  {
    var d := LocalDay(now);
    var sec := SecondOfDay(now);
    assert now + UtcOffset == d * DaySeconds + sec;
    var delta := t - now;
    assert t + UtcOffset == d * DaySeconds + (sec + delta);
    if sec + delta < DaySeconds {
      assert LocalDay(t) == d;
    } else {
      assert (t + UtcOffset) == (d + 1) * DaySeconds + (sec + delta - DaySeconds);
      assert LocalDay(t) == d + 1;
    }
  }
}
