/**
 * The integer side of `MainActivity.updateSteps`: the previous count read back from the
 * steps label, the count-up animation's duration, and the minutes estimate; and the count
 * `onResume` loads from the step table.
 */
module MainScreen {
  import opened Wrappers
  import opened JavaInt
  import opened JavaText
  import StepDao

  /** The steps label, `String.format("%,d Steps", n)`. */
  function Label(n: int): string {
    Grouped(n) + " Steps"
  }

  /**
   * The count shown in a label: every ASCII digit of it, in order, read as an `int`; 0 when
   * there is no digit or the number does not fit.
   */
  function OldSteps(text: string): (r: int)
    ensures 0 <= r <= MAX_INT
    ensures StripNonDigits(text) == [] ==> r == 0
    ensures StripNonDigits(text) != [] && DigitsValue(StripNonDigits(text)) <= MAX_INT ==>
              r == DigitsValue(StripNonDigits(text))
  {
    ParseInt(StripNonDigits(text)).GetOr(0)
  }

  /** Reading back a label gives the count it shows. */
  lemma OldStepsOfLabel(n: int)
    requires 0 <= n <= MAX_INT
    ensures OldSteps(Label(n)) == n
  {
    StripAppend(Grouped(n), " Steps");
    StripNoDigits(" Steps");
    StripGrouped(n);
    var digits := StripNonDigits(Grouped(n));
    assert StripNonDigits(Label(n)) == digits + [];
    assert digits + [] == digits;
    assert AllDigits(digits) && digits != [] && DigitsValue(digits) == n;
  }

  /** A label whose digits make a number beyond `Integer.MAX_VALUE` reads as 0. */
  lemma OldStepsOfOverflow(text: string)
    requires StripNonDigits(text) != [] && DigitsValue(StripNonDigits(text)) > MAX_INT
    ensures OldSteps(text) == 0
  {
  }

  /**
   * The animation duration: 120 ms for a change of at most 3, otherwise 20 ms per step up to
   * 500 ms. `Math.abs` of `steps - oldSteps` is taken in `int` arithmetic.
   */
  function AnimationDuration(steps: int, oldSteps: int): (r: int)
    requires IsInt(steps) && IsInt(oldSteps)
    ensures 80 <= r <= 500
  {
    var diff := Abs(ToInt(steps - oldSteps));
    if diff <= 3 then 120 else if 20 * diff < 500 then 20 * diff else 500
  }

  /** For counts that do not overflow the subtraction, the duration follows the size of the change. */
  lemma DurationBySize(steps: int, oldSteps: int)
    requires 0 <= steps <= MAX_INT && 0 <= oldSteps <= MAX_INT
    ensures var d := if steps >= oldSteps then steps - oldSteps else oldSteps - steps;
            AnimationDuration(steps, oldSteps) == if d <= 3 then 120 else if 20 * d < 500 then 20 * d else 500
  {
  }

  /** When the subtraction overflows to `Integer.MIN_VALUE`, `Math.abs` stays negative and the short duration is used. */
  lemma DurationOfOverflow()
    ensures AnimationDuration(MIN_INT, 0) == 120
  {
  }

  /** `steps / 130`, the whole minutes of walking. */
  function Minutes(steps: int): (m: int)
    ensures steps >= 0 ==> m >= 0 && 130 * m <= steps < 130 * (m + 1)
  {
    Div(steps, 130)
  }

  /** `onResume`: today's stored count, or 0 when today has no row. */
  function ResumeSteps(t: StepDao.Table, today: string): (r: int)
    ensures today in t ==> r == t[today]
    ensures today !in t ==> r == 0
  {
    match StepDao.GetStepsByDate(t, today)
    case Some(e) => e.steps
    case None => 0
  }

  /** The count label of the home screen and the minutes shown under it. */
  class HomeScreen {
    var stepsText: string
    var minutes: int

    /** The label as the layout first shows it, before any update. */
    constructor (initialText: string)
      ensures stepsText == initialText && minutes == 0
    {
      stepsText := initialText;
      minutes := 0;
    }

    /**
     * `updateSteps(steps)`: reads the previous count from the label, picks the animation
     * duration, and ends with the label showing `steps`.
     */
    method UpdateSteps(steps: int) returns (oldSteps: int, duration: int)
      requires IsInt(steps)
      modifies this
      ensures oldSteps == OldSteps(old(stepsText))
      ensures duration == AnimationDuration(steps, oldSteps)
      ensures stepsText == Label(steps)
      ensures minutes == Minutes(steps)
    {
      oldSteps := OldSteps(stepsText);
      duration := AnimationDuration(steps, oldSteps);
      stepsText := Label(steps);
      minutes := Minutes(steps);
    }
  }
}
