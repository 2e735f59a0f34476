/**
 * `StepCounterManager`: the daily step accounting engine. The hardware step counter
 * reports a cumulative count since boot; the manager keeps one baseline per day in its
 * private preferences file (`last_date` and `base_steps_<day>`), turns each sample into
 * "steps today", throttles what it publishes to one value per 200 ms, upserts the value
 * into the step table and broadcasts it. A reference count lets several screens share
 * one sensor registration.
 *
 * The day key and the wall clock are parameters of `OnSensorChanged`; the sensor
 * registration and the broadcasts are recorded in ghost state.
 */
module StepCounter {
  import opened Wrappers
  import opened JavaInt
  import opened Prefs
  import StepDao

  // ---------------------------------------------------------------------------
  // Reference-counted start/stop

  /** The reference count `startCount` and whether the listener is registered. */
  datatype Lease = Lease(count: int, registered: bool)

  /** The count is never negative and the listener is registered exactly while it is positive. */
  predicate LeaseOk(l: Lease, hasSensor: bool) {
    l.count >= 0 && (l.registered <==> l.count > 0) && (!hasSensor ==> l.count == 0)
  }

  /**
   * `start()`: without a sensor nothing happens; otherwise the count goes up and the
   * listener is registered on the 0 to 1 step only.
   */
  function AfterStart(l: Lease, hasSensor: bool): (r: Lease)
    requires LeaseOk(l, hasSensor)
    ensures LeaseOk(r, hasSensor)
    ensures !hasSensor ==> r == l
    ensures hasSensor ==> r.count == l.count + 1 && r.registered
    ensures (r.registered && !l.registered) <==> (hasSensor && l.count == 0)
  {
    if !hasSensor then l
    else if l.count > 0 then Lease(l.count + 1, l.registered)
    else Lease(l.count + 1, true)
  }

  /**
   * `stop()`: without a sensor, or with a zero count, nothing happens; otherwise the count
   * goes down and the listener is unregistered exactly when it reaches 0.
   */
  function AfterStop(l: Lease, hasSensor: bool): (r: Lease)
    requires LeaseOk(l, hasSensor)
    ensures LeaseOk(r, hasSensor)
    ensures (!hasSensor || l.count == 0) ==> r == l
    ensures hasSensor && l.count > 0 ==> r.count == l.count - 1
    ensures (l.registered && !r.registered) <==> (hasSensor && l.count == 1)
  {
    if !hasSensor || l.count == 0 then l
    else if l.count - 1 == 0 then Lease(0, false)
    else Lease(l.count - 1, l.registered)
  }

  datatype Call = StartCall | StopCall

  /** The lease after a sequence of `start`/`stop` calls. */
  function Run(l: Lease, hasSensor: bool, calls: seq<Call>): (r: Lease)
    requires LeaseOk(l, hasSensor)
    ensures LeaseOk(r, hasSensor)
    decreases |calls|
  {
    if calls == [] then l
    else
      var next := if calls[0] == StartCall then AfterStart(l, hasSensor) else AfterStop(l, hasSensor);
      Run(next, hasSensor, calls[1..])
  }

  /** Starts minus stops. */
  function Net(calls: seq<Call>): int
    decreases |calls|
  {
    if calls == [] then 0 else (if calls[0] == StartCall then 1 else -1) + Net(calls[1..])
  }

  /** No prefix of `calls` stops more often than the `count` outstanding starts allow. */
  predicate NeverBelow(calls: seq<Call>, count: int) {
    forall k :: 0 <= k <= |calls| ==> count + Net(calls[..k]) >= 0
  }

  lemma {:induction false} NetPrefix(calls: seq<Call>, k: nat)
    requires 0 < k <= |calls|
    ensures Net(calls[..k]) == (if calls[0] == StartCall then 1 else -1) + Net(calls[1..][..k - 1])
  {
    assert calls[..k][0] == calls[0];
    assert calls[..k][1..] == calls[1..][..k - 1];
  }

  /**
   * With a sensor, a call sequence that never stops more than was started moves the count
   * by exactly the number of starts minus stops, and leaves the listener registered
   * exactly when that count is positive.
   */
  lemma {:induction false} RunCount(l: Lease, calls: seq<Call>)
    requires LeaseOk(l, true)
    requires NeverBelow(calls, l.count)
    ensures Run(l, true, calls) == Lease(l.count + Net(calls), l.count + Net(calls) > 0)
    decreases |calls|
  {
    if calls != [] {
      var next := if calls[0] == StartCall then AfterStart(l, true) else AfterStop(l, true);
      NetPrefix(calls, 1);
      assert calls[1..][..0] == [];
      assert l.count + Net(calls[..1]) >= 0;
      assert next.count == l.count + (if calls[0] == StartCall then 1 else -1);
      forall k | 0 <= k <= |calls[1..]|
        ensures next.count + Net(calls[1..][..k]) >= 0
      {
        NetPrefix(calls, k + 1);
        assert l.count + Net(calls[..k + 1]) >= 0;
      }
      RunCount(next, calls[1..]);
      assert calls[..|calls|] == calls;
      NetPrefix(calls, |calls|);
      assert calls[1..][..|calls| - 1] == calls[1..];
    }
  }

  /** Matched `start`/`stop` calls from an idle manager leave it idle and unregistered. */
  lemma MatchedCallsReturnToIdle(calls: seq<Call>)
    requires NeverBelow(calls, 0) && Net(calls) == 0
    ensures Run(Lease(0, false), true, calls) == Lease(0, false)
  {
    RunCount(Lease(0, false), calls);
  }

  /** `start; start; stop` from idle leaves the listener registered with one holder. */
  lemma StartStartStopStaysRegistered()
    ensures Run(Lease(0, false), true, [StartCall, StartCall, StopCall]) == Lease(1, true)
  {
  }

  /**
   * `start; start; stop; stop` from idle unregisters on the second `stop`, and a further
   * `stop` is ignored: the count never goes below 0.
   */
  lemma ExtraStopIsIgnored()
    ensures Run(Lease(0, false), true, [StartCall, StartCall, StopCall]).registered
    ensures Run(Lease(0, false), true, [StartCall, StartCall, StopCall, StopCall]) == Lease(0, false)
    ensures Run(Lease(0, false), true, [StartCall, StartCall, StopCall, StopCall, StopCall]) == Lease(0, false)
  {
  }

  /** Without a sensor, no call sequence changes anything. */
  lemma {:induction false} NoSensorRunIsIdle(l: Lease, calls: seq<Call>)
    requires LeaseOk(l, false)
    ensures Run(l, false, calls) == l
    decreases |calls|
  {
    if calls != [] {
      NoSensorRunIsIdle(l, calls[1..]);
    }
  }

  /** One visible period of a screen (`start` in `onStart`, `stop` in `onStop`) leaves the lease as it was. */
  lemma StartThenStop(l: Lease, hasSensor: bool)
    requires LeaseOk(l, hasSensor)
    ensures AfterStop(AfterStart(l, hasSensor), hasSensor) == l
  {
  }

  // ---------------------------------------------------------------------------
  // Daily baseline

  const LAST_DATE: string := "last_date"

  /** The preference key holding the baseline of `day`. */
  function BaseKey(day: string): (k: string)
    ensures k != LAST_DATE
  {
    var prefix := "base_steps_";
    assert (prefix + day)[0] == 'b' && LAST_DATE[0] == 'l';
    prefix + day
  }

  /** Different days have different baseline keys, so a rollover touches no other day's baseline. */
  lemma BaseKeyInjective(d1: string, d2: string)
    requires BaseKey(d1) == BaseKey(d2)
    ensures d1 == d2
  {
    assert d1 == BaseKey(d1)[11..] && d2 == BaseKey(d2)[11..];
  }

  /**
   * The well-formed private `step_prefs` file: `last_date` holds a string whose day has a
   * baseline, and every other key holds a baseline, a sensor value in `[0, MAX_INT]`.
   */
  predicate StepPrefsOk(s: Store) {
    && (forall k :: k in s && k != LAST_DATE ==> s[k].IntPref? && 0 <= s[k].i <= MAX_INT)
    && (LAST_DATE in s ==> s[LAST_DATE].StrPref? && BaseKey(s[LAST_DATE].s) in s)
  }

  /** The day whose baseline is current, or `None` before the first sample. */
  function LastDate(s: Store): Option<string>
    requires StepPrefsOk(s)
  {
    GetString(s, LAST_DATE)
  }

  /**
   * The rollover: when `last_date` is absent or another day, `last_date` becomes today and
   * today's baseline becomes the current sample; on the same day the file is unchanged.
   */
  function Rollover(s: Store, today: string, raw: int): (r: Store)
    requires StepPrefsOk(s) && 0 <= raw <= MAX_INT
    ensures StepPrefsOk(r)
    ensures LastDate(r) == Some(today) && BaseKey(today) in r
    ensures LastDate(s) == Some(today) ==> r == s
    ensures LastDate(s) != Some(today) ==> r[BaseKey(today)] == IntPref(raw)
    ensures forall k :: k != LAST_DATE && k != BaseKey(today) ==>
              (k in r <==> k in s) && (k in r ==> r[k] == s[k])
  {
    var last := GetString(s, LAST_DATE);
    if last.None? || last.value != today then
      s[LAST_DATE := StrPref(today)][BaseKey(today) := IntPref(raw)]
    else
      s
  }

  /** `Math.max(0, totalSteps - baseSteps)`, with Java's `int` subtraction. */
  function StepsSince(base: int, raw: int): (r: int)
    requires IsInt(base) && IsInt(raw)
    ensures r >= 0 && IsInt(r)
    ensures 0 <= base && 0 <= raw ==> r == if raw >= base then raw - base else 0
  {
    var d := ToInt(raw - base);
    if d > 0 then d else 0
  }

  /**
   * Steps today for a sample `raw` on day `today`, given the file before the sample: raw
   * minus today's baseline after the rollover, and never below 0.
   */
  function TodaySteps(s: Store, today: string, raw: int): (r: int)
    requires StepPrefsOk(s) && 0 <= raw <= MAX_INT
    ensures 0 <= r <= raw
    ensures LastDate(s) != Some(today) ==> r == 0
    ensures LastDate(s) == Some(today) ==>
              var base := s[BaseKey(today)].i;
              r == if raw >= base then raw - base else 0
  {
    var s' := Rollover(s, today, raw);
    StepsSince(GetInt(s', BaseKey(today), raw), raw)
  }

  /** A sample on a day other than `last_date`, earlier or later, replaces that day's baseline. */
  lemma ReturnToEarlierDayRebaselines(s: Store, today: string, raw: int)
    requires StepPrefsOk(s) && 0 <= raw <= MAX_INT
    requires LastDate(s).Some? && LastDate(s).value != today && BaseKey(today) in s
    ensures Rollover(s, today, raw)[BaseKey(today)] == IntPref(raw)
    ensures TodaySteps(s, today, raw) == 0
  {
  }

  /** A sample on the same day below the baseline (a reboot) reports 0 and keeps the baseline. */
  lemma RebootWithinDayKeepsBaseline(s: Store, today: string, raw: int)
    requires StepPrefsOk(s) && 0 <= raw <= MAX_INT
    requires LastDate(s) == Some(today) && raw < s[BaseKey(today)].i
    ensures TodaySteps(s, today, raw) == 0
    ensures Rollover(s, today, raw) == s
  {
  }

  /** Every sample is a sensor value of `int` range. */
  predicate SamplesOk(raws: seq<int>) {
    forall i :: 0 <= i < |raws| ==> 0 <= raws[i] <= MAX_INT
  }

  /** The steps-today values of a sequence of samples all taken on day `today`. */
  function Replay(s: Store, today: string, raws: seq<int>): (r: seq<int>)
    requires StepPrefsOk(s) && SamplesOk(raws)
    ensures |r| == |raws|
    decreases |raws|
  {
    if raws == [] then []
    else [TodaySteps(s, today, raws[0])] + Replay(Rollover(s, today, raws[0]), today, raws[1..])
  }

  /** Once the baseline of today is set, each further sample reports raw minus that fixed baseline. */
  lemma {:induction false} ReplayFixedBase(s: Store, today: string, raws: seq<int>)
    requires StepPrefsOk(s) && SamplesOk(raws) && LastDate(s) == Some(today)
    ensures forall i :: 0 <= i < |raws| ==>
              Replay(s, today, raws)[i] == StepsSince(s[BaseKey(today)].i, raws[i])
    decreases |raws|
  {
    if raws != [] {
      assert Rollover(s, today, raws[0]) == s;
      ReplayFixedBase(s, today, raws[1..]);
      var r := Replay(s, today, raws);
      assert r == [TodaySteps(s, today, raws[0])] + Replay(s, today, raws[1..]);
      forall i | 0 <= i < |raws|
        ensures r[i] == StepsSince(s[BaseKey(today)].i, raws[i])
      {
        if i > 0 {
          assert r[i] == Replay(s, today, raws[1..])[i - 1];
          assert raws[i] == raws[1..][i - 1];
        }
      }
    }
  }

  /**
   * The samples of one day: every value is the sample minus one baseline `base`, never
   * negative; the first sample of a new day sets `base` to itself and so reports 0; and
   * non-decreasing samples give non-decreasing steps-today values.
   */
  lemma SamplesOfOneDay(s: Store, today: string, raws: seq<int>)
    requires StepPrefsOk(s) && SamplesOk(raws) && |raws| > 0
    ensures var r := Replay(s, today, raws);
            var base := Rollover(s, today, raws[0])[BaseKey(today)].i;
            && (forall i :: 0 <= i < |raws| ==> r[i] == if raws[i] >= base then raws[i] - base else 0)
            && (LastDate(s) != Some(today) ==> base == raws[0] && r[0] == 0)
            && ((forall i, j :: 0 <= i <= j < |raws| ==> raws[i] <= raws[j]) ==>
                 forall i, j :: 0 <= i <= j < |raws| ==> r[i] <= r[j])
  {
    var s1 := Rollover(s, today, raws[0]);
    var base := s1[BaseKey(today)].i;
    var r := Replay(s, today, raws);
    ReplayFixedBase(s1, today, raws[1..]);
    assert r[0] == StepsSince(base, raws[0]);
    forall i | 0 < i < |raws|
      ensures r[i] == StepsSince(base, raws[i])
    {
      assert r[i] == Replay(s1, today, raws[1..])[i - 1];
      assert raws[i] == raws[1..][i - 1];
    }
  }

  // ---------------------------------------------------------------------------
  // Throttle

  const MIN_BROADCAST_INTERVAL_MS: int := 200

  /** A value is published exactly when at least 200 ms have passed since the last one. */
  predicate Emits(now: int, lastSentAtMs: int) {
    now - lastSentAtMs >= MIN_BROADCAST_INTERVAL_MS
  }

  /** The two early returns of the callback, as written: a repeated value within 200 ms, or any value within 200 ms. */
  predicate SuppressedAsWritten(todaySteps: int, lastSentSteps: int, now: int, lastSentAtMs: int) {
    (todaySteps == lastSentSteps && now - lastSentAtMs < MIN_BROADCAST_INTERVAL_MS)
    || now - lastSentAtMs < MIN_BROADCAST_INTERVAL_MS
  }

  /** The repeated-value test adds nothing: a sample is suppressed exactly when it comes too soon. */
  lemma DuplicateTestIsSubsumed(todaySteps: int, lastSentSteps: int, now: int, lastSentAtMs: int)
    ensures !SuppressedAsWritten(todaySteps, lastSentSteps, now, lastSentAtMs) <==> Emits(now, lastSentAtMs)
  {
  }

  /** With the initial `lastSentAtMs = 0`, a first sample at any clock reading from 200 ms on is published. */
  lemma FirstSampleEmits(now: int)
    requires now >= MIN_BROADCAST_INTERVAL_MS
    ensures Emits(now, 0)
  {
  }

  /**
   * With the baseline of 2024-01-01 at 5000: a sample of 5137 reports 137; a repeat 50 ms
   * after it is sent is held back; a sample of 5140 another 250 ms later reports 140 and is sent.
   */
  lemma BaselineAndThrottleScenario(s: Store, t0: int)
    requires StepPrefsOk(s) && LastDate(s) == Some("2024-01-01")
    requires s[BaseKey("2024-01-01")] == IntPref(5000)
    ensures TodaySteps(s, "2024-01-01", 5137) == 137
    ensures !Emits(t0 + 50, t0)
    ensures TodaySteps(s, "2024-01-01", 5140) == 140 && Emits(t0 + 300, t0)
  {
  }

  /** One published value: steps today and the clock reading it was sent at. */
  datatype Emission = Emission(stepsToday: int, atMs: int)

  /** Consecutive emissions are at least 200 ms apart. */
  predicate Spaced(b: seq<Emission>) {
    forall i :: 0 < i < |b| ==> b[i].atMs - b[i - 1].atMs >= MIN_BROADCAST_INTERVAL_MS
  }

  /** Any two emissions are at least 200 ms apart per emission between them. */
  lemma {:induction false} SpacedApart(b: seq<Emission>, i: nat, j: nat)
    requires Spaced(b) && i <= j < |b|
    ensures b[j].atMs - b[i].atMs >= MIN_BROADCAST_INTERVAL_MS * (j - i)
    decreases j - i
  {
    if i < j {
      SpacedApart(b, i, j - 1);
      assert b[j].atMs - b[j - 1].atMs >= MIN_BROADCAST_INTERVAL_MS;
    }
  }

  // ---------------------------------------------------------------------------
  // The manager

  class StepCounterManager {
    /** `sensorManager != null && stepCounter != null`. */
    const hasSensor: bool
    /** The private `step_prefs` file. */
    const prefs: SharedPrefs
    /** The Room step table. */
    const dao: StepDao.StepStore

    var startCount: int
    ghost var registered: bool
    var lastSentSteps: int
    var lastSentAtMs: int
    /** Every `STEP_UPDATE` broadcast so far, oldest first. */
    ghost var broadcasts: seq<Emission>

    ghost predicate Valid()
      reads this, prefs
    {
      && LeaseOk(Lease(startCount, registered), hasSensor)
      && StepPrefsOk(prefs.values)
      && Spaced(broadcasts)
      && (|broadcasts| == 0 ==> lastSentSteps == -1 && lastSentAtMs == 0)
      && (|broadcasts| > 0 ==> broadcasts[|broadcasts| - 1] == Emission(lastSentSteps, lastSentAtMs))
    }

    constructor (hasSensor: bool, prefs: SharedPrefs, dao: StepDao.StepStore)
      requires StepPrefsOk(prefs.values)
      ensures Valid()
      ensures this.hasSensor == hasSensor && this.prefs == prefs && this.dao == dao
      ensures startCount == 0 && !registered && broadcasts == []
      ensures lastSentSteps == -1 && lastSentAtMs == 0
    {
      this.hasSensor := hasSensor;
      this.prefs := prefs;
      this.dao := dao;
      startCount := 0;
      registered := false;
      lastSentSteps := -1;
      lastSentAtMs := 0;
      broadcasts := [];
    }

    method Start()
      requires Valid()
      modifies this
      ensures Valid()
      ensures Lease(startCount, registered) == AfterStart(old(Lease(startCount, registered)), hasSensor)
      ensures lastSentSteps == old(lastSentSteps) && lastSentAtMs == old(lastSentAtMs)
      ensures broadcasts == old(broadcasts)
    {
      if !hasSensor {
        return;
      }
      var wasActive := startCount > 0;
      startCount := startCount + 1;
      if wasActive {
        return;
      }
      registered := true;
    }

    method Stop()
      requires Valid()
      modifies this
      ensures Valid()
      ensures Lease(startCount, registered) == AfterStop(old(Lease(startCount, registered)), hasSensor)
      ensures lastSentSteps == old(lastSentSteps) && lastSentAtMs == old(lastSentAtMs)
      ensures broadcasts == old(broadcasts)
    {
      if !hasSensor {
        return;
      }
      if startCount == 0 {
        return;
      }
      startCount := startCount - 1;
      if startCount == 0 {
        registered := false;
      }
    }

    /** The baseline part of `onSensorChanged`: roll the file over if needed and compute steps today. */
    method LoadTodaySteps(today: string, raw: int) returns (todaySteps: int)
      requires StepPrefsOk(prefs.values) && 0 <= raw <= MAX_INT
      modifies prefs
      ensures prefs.values == Rollover(old(prefs.values), today, raw)
      ensures todaySteps == TodaySteps(old(prefs.values), today, raw)
    {
      var lastSavedDate := GetString(prefs.values, LAST_DATE);
      if lastSavedDate.None? || lastSavedDate.value != today {
        prefs.PutString(LAST_DATE, today);
        prefs.PutInt(BaseKey(today), raw);
      }
      var baseSteps := GetInt(prefs.values, BaseKey(today), raw);
      todaySteps := StepsSince(baseSteps, raw);
    }

    /**
     * `onSensorChanged` for an event from a sensor of type step counter (`isStepCounter`)
     * carrying the cumulative count `raw`, taken on day `today` at clock reading `now`.
     */
    method OnSensorChanged(isStepCounter: bool, raw: int, today: string, now: int)
      requires Valid() && 0 <= raw <= MAX_INT
      modifies this, prefs, dao
      ensures Valid()
      ensures startCount == old(startCount) && registered == old(registered)
      ensures !isStepCounter ==>
                prefs.values == old(prefs.values) && dao.rows == old(dao.rows)
                && lastSentSteps == old(lastSentSteps) && lastSentAtMs == old(lastSentAtMs)
                && broadcasts == old(broadcasts)
      ensures isStepCounter ==> prefs.values == Rollover(old(prefs.values), today, raw)
      ensures isStepCounter && Emits(now, old(lastSentAtMs)) ==>
                var steps := TodaySteps(old(prefs.values), today, raw);
                && dao.rows == old(dao.rows)[today := steps]
                && broadcasts == old(broadcasts) + [Emission(steps, now)]
                && lastSentSteps == steps && lastSentAtMs == now
      ensures isStepCounter && !Emits(now, old(lastSentAtMs)) ==>
                dao.rows == old(dao.rows) && broadcasts == old(broadcasts)
                && lastSentSteps == old(lastSentSteps) && lastSentAtMs == old(lastSentAtMs)
    {
      if !isStepCounter {
        return;
      }
      var todaySteps := LoadTodaySteps(today, raw);
      if SuppressedAsWritten(todaySteps, lastSentSteps, now, lastSentAtMs) {
        return;
      }
      lastSentSteps := todaySteps;
      lastSentAtMs := now;
      dao.Insert(StepDao.StepEntry(today, todaySteps));
      broadcasts := broadcasts + [Emission(todaySteps, now)];
    }
  }
}
