/**
 * The goal section of `UserProfileActivity`: the daily goal and today's steps read from
 * `FitPulsePrefs`, clamped at 0, and the percentage of the goal reached, rounded half up
 * and capped at 100. A received `STEP_UPDATE` is stored as `today_steps` first.
 */
module UserProfile {
  import opened Wrappers
  import opened JavaInt
  import opened JavaText
  import opened Prefs
  import Settings

  const TODAY_STEPS: string := "today_steps"
  const STEP_UPDATE: string := "STEP_UPDATE"

  /**
   * `safeGetInt(prefs, key, def)`: a stored int; a stored string parsed as an int; the
   * default when the key is absent, the string does not parse, or the value has another type.
   */
  function SafeGetInt(s: Store, key: string, def: int): (r: int)
    ensures key !in s ==> r == def
    ensures key in s && s[key].IntPref? ==> r == s[key].i
    ensures key in s && s[key].StrPref? ==> r == ParseInt(s[key].s).GetOr(def)
    ensures key in s && s[key].BoolPref? ==> r == def
  {
    if key !in s then def
    else match s[key]
      case IntPref(i) => i
      case StrPref(text) => ParseInt(text).GetOr(def)
      case BoolPref(_) => def
  }

  /** An `int` saved as its decimal text reads back as that `int`, whatever the default. */
  lemma SafeGetIntOfDecimalText(s: Store, key: string, n: int, def: int)
    requires IsInt(n)
    ensures SafeGetInt(s[key := StrPref(IntToString(n))], key, def) == n
  {
    ParseIntOfIntToString(n);
  }

  /** A string that is not a decimal `int` reads as the default. */
  lemma SafeGetIntOfBadText(s: Store, key: string, text: string, def: int)
    requires ParseInt(text).None?
    ensures SafeGetInt(s[key := StrPref(text)], key, def) == def
  {
  }

  /** `if (x < 0) x = 0`. */
  function Clamp(x: int): (r: int)
    ensures r >= 0 && r >= x
    ensures x >= 0 ==> r == x
  {
    if x < 0 then 0 else x
  }

  /** `Math.round(num / den)` for a non-negative quotient: the nearest integer, halves rounded up. */
  function RoundHalfUp(num: nat, den: int): (r: nat)
    requires den > 0
    ensures 2 * r * den <= 2 * num + den < 2 * (r + 1) * den
  {
    (2 * num + den) / (2 * den)
  }

  lemma RoundHalfUpMonotone(a: nat, b: nat, den: int)
    requires den > 0 && a <= b
    ensures RoundHalfUp(a, den) <= RoundHalfUp(b, den)
  {
    var qa, qb := RoundHalfUp(a, den), RoundHalfUp(b, den);
    assert qa * (2 * den) < (qb + 1) * (2 * den);
    MulCancel(qa, qb + 1, 2 * den);
  }

  lemma MulCancel(x: int, y: int, c: int)
    requires c > 0 && x * c < y * c
    ensures x < y
  {
    if x >= y {
      MulMonotone(y, x, c);
    }
  }

  /**
   * The percentage of `updateGoalUi`: 0 for a goal of at most 0, otherwise the rounded
   * percentage narrowed to `int` by the `(int)` cast and then capped at 100.
   */
  function GoalPercent(dailyGoal: int, reachedToday: int): (r: int)
    ensures r <= 100
    ensures dailyGoal <= 0 ==> r == 0
  {
    var goal := Clamp(dailyGoal);
    var reached := Clamp(reachedToday);
    if goal > 0 then
      var rounded := ToInt(RoundHalfUp(reached * 100, goal));
      if rounded < 100 then rounded else 100
    else 0
  }

  /** The rounded percentage fits in an `int`, so the cast keeps it. */
  predicate PercentFits(dailyGoal: int, reachedToday: int) {
    dailyGoal > 0 ==> RoundHalfUp(Clamp(reachedToday) * 100, dailyGoal) <= MAX_INT
  }

  /**
   * While the rounded percentage fits in an `int`, the shown value is the percentage of the
   * goal reached, rounded half up and capped at 100, so it lies in `[0, 100]`: below 100 it
   * is the nearest integer to `reached * 100 / goal`, and it is 100 exactly when that ratio
   * rounds to 100 or more.
   */
  lemma GoalPercentInRange(dailyGoal: int, reachedToday: int)
    requires PercentFits(dailyGoal, reachedToday)
    ensures 0 <= GoalPercent(dailyGoal, reachedToday) <= 100
    ensures dailyGoal > 0 ==>
              var p := GoalPercent(dailyGoal, reachedToday);
              var reached := Clamp(reachedToday);
              && (p < 100 ==> 2 * p * dailyGoal <= 200 * reached + dailyGoal < 2 * (p + 1) * dailyGoal)
              && (p == 100 <==> 200 * dailyGoal <= 200 * reached + dailyGoal)
  {
    if dailyGoal > 0 {
      var reached := Clamp(reachedToday);
      var q := RoundHalfUp(reached * 100, dailyGoal);
      assert GoalPercent(dailyGoal, reachedToday) == if q < 100 then q else 100;
      CapAtHundred(q, dailyGoal, 200 * reached + dailyGoal);
    }
  }

  /** A rounded ratio `q` of `x / (2 * den)` is at least 100 exactly when `x` is at least `200 * den`. */
  lemma CapAtHundred(q: int, den: int, x: int)
    requires den > 0 && 2 * q * den <= x < 2 * (q + 1) * den
    ensures q >= 100 <==> 200 * den <= x
  {
    if q >= 100 {
      MulMonotone(100, q, 2 * den);
    } else {
      MulMonotone(q + 1, 100, 2 * den);
    }
  }

  /** A goal reached or passed shows 100, while the percentage fits in an `int`. */
  lemma GoalReachedShowsFull(dailyGoal: int, reachedToday: int)
    requires 0 < dailyGoal <= reachedToday
    requires PercentFits(dailyGoal, reachedToday)
    ensures GoalPercent(dailyGoal, reachedToday) == 100
  {
    var rounded := RoundHalfUp(reachedToday * 100, dailyGoal);
    MulMonotone(dailyGoal, reachedToday, 200);
    assert rounded >= 100 by {
      if rounded < 100 {
        MulMonotone(2 * rounded + 2, 200, dailyGoal);
      }
    }
  }

  lemma MulMonotone(a: int, b: int, c: int)
    requires a <= b && c > 0
    ensures a * c <= b * c
  {
  }

  /** More steps never show a smaller percentage, while the percentage fits in an `int`. */
  lemma GoalPercentMonotone(dailyGoal: int, r1: int, r2: int)
    requires r1 <= r2
    requires PercentFits(dailyGoal, r2)
    ensures GoalPercent(dailyGoal, r1) <= GoalPercent(dailyGoal, r2)
  {
    if dailyGoal > 0 {
      RoundHalfUpMonotone(Clamp(r1) * 100, Clamp(r2) * 100, dailyGoal);
    }
  }

  /**
   * The `(int)` cast wraps for very large ratios: a goal of 1 with `Integer.MAX_VALUE` steps
   * shows -100, not 100.
   */
  lemma GoalPercentWrapsForHugeRatio()
    ensures GoalPercent(1, MAX_INT) == -100
    ensures !PercentFits(1, MAX_INT)
  {
    assert RoundHalfUp(MAX_INT * 100, 1) == 214748364700;
  }

  /** What `updateGoalUi` shows: the clamped goal and steps and the percentage. */
  datatype GoalView = GoalView(dailyGoal: int, reachedToday: int, percent: int)

  function GoalUi(s: Store): (v: GoalView)
    ensures v.dailyGoal >= 0 && v.reachedToday >= 0 && v.percent <= 100
    ensures v.dailyGoal == Clamp(SafeGetInt(s, Settings.STEP_GOAL_KEY, Settings.DEFAULT_GOAL))
    ensures v.reachedToday == Clamp(SafeGetInt(s, TODAY_STEPS, 0))
    ensures v.percent == GoalPercent(v.dailyGoal, v.reachedToday)
  {
    var dailyGoal := Clamp(SafeGetInt(s, Settings.STEP_GOAL_KEY, Settings.DEFAULT_GOAL));
    var reachedToday := Clamp(SafeGetInt(s, TODAY_STEPS, 0));
    GoalView(dailyGoal, reachedToday, GoalPercent(dailyGoal, reachedToday))
  }

  /** With nothing saved, the goal shows 10000 and the steps 0, at 0 %. */
  lemma EmptyPrefsView()
    ensures GoalUi(map[]) == GoalView(Settings.DEFAULT_GOAL, 0, 0)
  {
  }

  /** After a step update, the view shows the received count (clamped) against the same goal. */
  lemma StepUpdateIsShown(s: Store, stepsToday: int)
    ensures GoalUi(s[TODAY_STEPS := IntPref(stepsToday)]).reachedToday == Clamp(stepsToday)
    ensures GoalUi(s[TODAY_STEPS := IntPref(stepsToday)]).dailyGoal == GoalUi(s).dailyGoal
  {
    assert Settings.STEP_GOAL_KEY != TODAY_STEPS by {
      assert Settings.STEP_GOAL_KEY[1] != TODAY_STEPS[1];
    }
  }

  /**
   * `stepReceiver.onReceive`: an intent other than `STEP_UPDATE` is ignored; otherwise
   * `today_steps` is stored first and the goal view is recomputed from the updated file.
   */
  method OnStepUpdate(fitPulsePrefs: SharedPrefs, action: string, stepsToday: int) returns (view: Option<GoalView>)
    modifies fitPulsePrefs
    ensures action != STEP_UPDATE ==> fitPulsePrefs.values == old(fitPulsePrefs.values) && view == None
    ensures action == STEP_UPDATE ==>
              fitPulsePrefs.values == old(fitPulsePrefs.values)[TODAY_STEPS := IntPref(stepsToday)]
              && view == Some(GoalUi(fitPulsePrefs.values))
  {
    if action != STEP_UPDATE {
      return None;
    }
    fitPulsePrefs.PutInt(TODAY_STEPS, stepsToday);
    view := Some(GoalUi(fitPulsePrefs.values));
  }
}
