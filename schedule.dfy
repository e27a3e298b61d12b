/**
 * `RunAt` of pkg/epic/fetcher.go: the daily loop that reads the current location,
 * computes the next instant whose local wall clock shows hour:min, sleeps until
 * then and runs the task. The sleep and the task are not modelled; what is kept
 * is the instant each iteration waits for, and the point at which it reads the
 * location.
 */
module EpicSchedule {
  import opened Wrappers
  import opened GoTime
  import opened EpicConfig

  /** The wall clock time hour:min:00 as nanoseconds since local midnight. */
  function WallTime(hour: int, min: int): (w: int)
    requires 0 <= hour < 24 && 0 <= min < 60
    ensures 0 <= w < Day
  {
    hour * Hour + min * Minute
  }

  /** Two clock readings with the same time of day that are less than a day apart are equal. */
  lemma SameTimeOfDayWithinADay(a: int, b: int)
    requires a % Day == b % Day
    requires a - Day < b < a + Day
    ensures a == b
  {
    var qa, qb := a / Day, b / Day;
    assert a == qa * Day + a % Day;
    assert b == qb * Day + b % Day;
    assert (qa - qb) * Day == a - b;
  }

  /** Local midnight plus a time of day: the day is kept and the time of day is the one added. */
  lemma MidnightPlus(local: int, w: int)
    requires 0 <= w < Day
    ensures (local - local % Day + w) % Day == w
    ensures (local - local % Day + w) / Day == local / Day
  {
    var q := local / Day;
    assert local - local % Day == q * Day;
    var x := q * Day + w;
    assert x / Day == q && x % Day == w by {
      assert x == (x / Day) * Day + x % Day;
      SameTimeOfDayWithinADay(x, x - w + x % Day);
    }
  }

  /** Moving a clock reading by a whole day keeps its time of day and changes its day by one. */
  lemma ShiftByADay(a: int)
    ensures (a + Day) % Day == a % Day
    ensures (a + Day) / Day == a / Day + 1
  {
  }

  /** The next-fire computation of one `RunAt` iteration: today's hour:min in `zone` (the
      `time.Date` of now's date), moved on by 24 hours when it is strictly before `now`. */
  function NextFire(now: Instant, zone: Zone, hour: int, min: int): (next: Instant)
    requires 0 <= hour < 24 && 0 <= min < 60
    ensures now <= next < now + Day
    ensures TimeOfDay(next, zone) == WallTime(hour, min)
  {
    var local := LocalClock(now, zone);
    var today := now - local % Day + WallTime(hour, min);
    assert LocalClock(today, zone) == local - local % Day + WallTime(hour, min);
    MidnightPlus(local, WallTime(hour, min));
    if today < now then
      ShiftByADay(LocalClock(today, zone));
      today + Day
    else
      today
  }

  /** `next` is the only instant in the coming 24 hours whose local time is hour:min, so it is
      the earliest instant not before `now` at which the task is due. */
  lemma NextFireIsEarliest(now: Instant, zone: Zone, hour: int, min: int, t: Instant)
    requires 0 <= hour < 24 && 0 <= min < 60
    requires now <= t < now + Day && TimeOfDay(t, zone) == WallTime(hour, min)
    ensures t == NextFire(now, zone, hour, min)
  {
    var next := NextFire(now, zone, hour, min);
    SameTimeOfDayWithinADay(LocalClock(t, zone), LocalClock(next, zone));
  }

  /** When `now` is exactly hour:min the task fires at once (strict `Before`), not tomorrow. */
  lemma FiresNowAtTheMinute(now: Instant, zone: Zone, hour: int, min: int)
    requires 0 <= hour < 24 && 0 <= min < 60
    requires TimeOfDay(now, zone) == WallTime(hour, min)
    ensures NextFire(now, zone, hour, min) == now
  {
    NextFireIsEarliest(now, zone, hour, min, now);
  }

  /** Before hour:min the task fires later the same local day; after it, on the next local day,
      never today. */
  lemma FiresTodayOrTomorrow(now: Instant, zone: Zone, hour: int, min: int)
    requires 0 <= hour < 24 && 0 <= min < 60
    ensures TimeOfDay(now, zone) <= WallTime(hour, min)
            ==> LocalDay(NextFire(now, zone, hour, min), zone) == LocalDay(now, zone)
    ensures TimeOfDay(now, zone) > WallTime(hour, min)
            ==> LocalDay(NextFire(now, zone, hour, min), zone) == LocalDay(now, zone) + 1
  {
    var local := LocalClock(now, zone);
    var today := now - local % Day + WallTime(hour, min);
    assert LocalClock(today, zone) == local - local % Day + WallTime(hour, min);
    MidnightPlus(local, WallTime(hour, min));
    assert LocalDay(today, zone) == LocalDay(now, zone);
    ShiftByADay(LocalClock(today, zone));
    if TimeOfDay(now, zone) <= WallTime(hour, min) {
      NextFireIsEarliest(now, zone, hour, min, today);
    } else {
      NextFireIsEarliest(now, zone, hour, min, today + Day);
    }
  }

  /** Recomputing at the fire instant itself gives the same instant. */
  lemma NextFireAtNextFire(now: Instant, zone: Zone, hour: int, min: int)
    requires 0 <= hour < 24 && 0 <= min < 60
    ensures var next := NextFire(now, zone, hour, min);
            NextFire(next, zone, hour, min) == next
  {
    var next := NextFire(now, zone, hour, min);
    FiresNowAtTheMinute(next, zone, hour, min);
  }

  /** Once the clock has moved past a fire instant, the zone unchanged, the next computation
      gives the same time exactly 24 hours later: one fire per day. */
  lemma NextFireAfterFiring(now: Instant, later: Instant, zone: Zone, hour: int, min: int)
    requires 0 <= hour < 24 && 0 <= min < 60
    requires NextFire(now, zone, hour, min) < later <= NextFire(now, zone, hour, min) + Day
    ensures NextFire(later, zone, hour, min) == NextFire(now, zone, hour, min) + Day
  {
    var next := NextFire(now, zone, hour, min);
    ShiftByADay(LocalClock(next, zone));
    NextFireIsEarliest(later, zone, hour, min, next + Day);
  }

  /** A `SetTimeZone` call made while the loop sleeps. */
  datatype ZoneChange = ZoneChange(name: string, outcome: WriteOutcome)

  /** One iteration of the loop: the clock reading taken after the location is read, and the
      changes, any number and in order, made before the next iteration reads the location again. */
  datatype Iteration = Iteration(now: Instant, changes: seq<ZoneChange>)

  /** The settings after `changes`, applied in order. */
  function AfterChanges(s: Settings, tzdb: ZoneDatabase, changes: seq<ZoneChange>): Settings
  {
    if changes == [] then s
    else
      var c := changes[|changes| - 1];
      AfterSetTimeZone(AfterChanges(s, tzdb, changes[..|changes| - 1]), tzdb, c.name, c.outcome)
  }

  /** The settings after the changes made during `iterations`. */
  function SettingsAfter(s: Settings, tzdb: ZoneDatabase, iterations: seq<Iteration>): Settings
  {
    if iterations == [] then s
    else
      var before := SettingsAfter(s, tzdb, iterations[..|iterations| - 1]);
      AfterChanges(before, tzdb, iterations[|iterations| - 1].changes)
  }

  /** One more iteration applies its changes to the settings the earlier ones left. */
  lemma SettingsAfterStep(s: Settings, tzdb: ZoneDatabase, iterations: seq<Iteration>, i: int)
    requires 0 <= i < |iterations|
    ensures SettingsAfter(s, tzdb, iterations[..i + 1])
            == AfterChanges(SettingsAfter(s, tzdb, iterations[..i]), tzdb, iterations[i].changes)
  {
    assert iterations[..i + 1][..i] == iterations[..i];
  }

  /** Two changes in one sleep: a name saved, then another whose save cannot open the file. The
      location in effect is the second zone while the file still holds the first name. */
  lemma TwoChangesInOneSleep(s: Settings, tzdb: ZoneDatabase, x: string, y: string)
    requires tzdb(x).Some? && tzdb(y).Some?
    ensures var after := AfterChanges(s, tzdb, [ZoneChange(x, Written), ZoneChange(y, OpenFailed)]);
            after.location == tzdb(y).value && after.file == Holds(Config(x))
  {
    var changes := [ZoneChange(x, Written), ZoneChange(y, OpenFailed)];
    assert changes[..1][..0] == [];
    assert AfterChanges(s, tzdb, changes[..1]) == AfterSetTimeZone(s, tzdb, x, Written);
  }

  /** The `SetTimeZone` calls made during one sleep, one after the other. */
  method ApplyChanges(state: ZoneState, changes: seq<ZoneChange>)
    modifies state
    ensures state.Current() == AfterChanges(old(state.Current()), state.tzdb, changes)
  {
    ghost var before := state.Current();
    for j := 0 to |changes|
      invariant state.Current() == AfterChanges(before, state.tzdb, changes[..j])
    {
      assert changes[..j + 1][..j] == changes[..j];
      var err := state.SetTimeZone(changes[j].name, changes[j].outcome);
    }
    assert changes[..|changes|] == changes;
  }

  /** The instants the iterations wait for: each one's `NextFire` in the location the changes
      of the iterations before it left. */
  function FireTimes(s: Settings, tzdb: ZoneDatabase, hour: int, min: int, iterations: seq<Iteration>): seq<Instant>
    requires 0 <= hour < 24 && 0 <= min < 60
  {
    if iterations == [] then []
    else
      var before := iterations[..|iterations| - 1];
      FireTimes(s, tzdb, hour, min, before)
        + [NextFire(iterations[|iterations| - 1].now, SettingsAfter(s, tzdb, before).location, hour, min)]
  }

  /** One instant per iteration. */
  lemma {:induction false} FireTimesLength(s: Settings, tzdb: ZoneDatabase, hour: int, min: int, iterations: seq<Iteration>)
    requires 0 <= hour < 24 && 0 <= min < 60
    ensures |FireTimes(s, tzdb, hour, min, iterations)| == |iterations|
  {
    if iterations != [] {
      FireTimesLength(s, tzdb, hour, min, iterations[..|iterations| - 1]);
    }
  }

  /** Iteration i waits for the next fire in the location left by iterations 0..i-1, whatever
      the iterations after it do. */
  lemma {:induction false} FireTimesAt(s: Settings, tzdb: ZoneDatabase, hour: int, min: int, iterations: seq<Iteration>, i: int)
    requires 0 <= hour < 24 && 0 <= min < 60
    requires 0 <= i < |iterations|
    ensures |FireTimes(s, tzdb, hour, min, iterations)| == |iterations|
    ensures FireTimes(s, tzdb, hour, min, iterations)[i]
            == NextFire(iterations[i].now, SettingsAfter(s, tzdb, iterations[..i]).location, hour, min)
  {
    var n := |iterations| - 1;
    var before := iterations[..n];
    FireTimesLength(s, tzdb, hour, min, iterations);
    FireTimesLength(s, tzdb, hour, min, before);
    if i < n {
      FireTimesAt(s, tzdb, hour, min, before, i);
      assert iterations[..i] == before[..i];
    }
  }

  /** `RunAt`'s loop, run for the given iterations: each one reads the location once, at its top,
      so the changes made while it sleeps affect only the iterations after it. */
  method RunAt(state: ZoneState, hour: int, min: int, iterations: seq<Iteration>) returns (fires: seq<Instant>)
    requires 0 <= hour < 24 && 0 <= min < 60
    modifies state
    ensures fires == FireTimes(old(state.Current()), state.tzdb, hour, min, iterations)
    ensures state.Current() == SettingsAfter(old(state.Current()), state.tzdb, iterations)
  {
    ghost var start := state.Current();
    fires := [];
    for i := 0 to |iterations|
      invariant fires == FireTimes(start, state.tzdb, hour, min, iterations[..i])
      invariant state.Current() == SettingsAfter(start, state.tzdb, iterations[..i])
    {
      var loc := state.GetTimeZone();
      var next := NextFire(iterations[i].now, loc, hour, min);
      fires := fires + [next];
      assert iterations[..i + 1][..i] == iterations[..i];
      ApplyChanges(state, iterations[i].changes);
      SettingsAfterStep(start, state.tzdb, iterations, i);
    }
    assert iterations[..|iterations|] == iterations;
  }
}
