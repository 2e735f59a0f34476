/**
 * `SettingsActivity`: the goal field shows the saved step goal (10000 when none is saved);
 * saving stores the typed text parsed as an `int`, or rejects it; logout clears the login
 * flag. The screen also holds the step counter while visible, one `start` per `stop`
 * (`StepCounter.StartThenStop`).
 */
module Settings {
  import opened Wrappers
  import opened JavaInt
  import opened JavaText
  import opened Prefs
  import opened UserData
  import Login

  const STEP_GOAL_KEY: string := "step_goal"
  const DEFAULT_GOAL: int := 10000

  /** The text put into the goal field: the saved goal, or 10000. */
  function GoalFieldText(s: Store): (r: string)
    requires IntOrAbsent(s, STEP_GOAL_KEY)
    ensures STEP_GOAL_KEY !in s ==> r == "10000"
  {
    IntToString(GetInt(s, STEP_GOAL_KEY, DEFAULT_GOAL))
  }

  /** The save click: a text that parses as an `int` is stored as the goal, with no range check. */
  method OnSaveGoal(prefs: SharedPrefs, text: string) returns (saved: bool)
    modifies prefs
    ensures saved <==> ParseInt(text).Some?
    ensures saved ==> prefs.values == old(prefs.values)[STEP_GOAL_KEY := IntPref(ParseInt(text).value)]
    ensures !saved ==> prefs.values == old(prefs.values)
  {
    var goal := ParseInt(text);
    if goal.None? {
      return false;
    }
    prefs.PutInt(STEP_GOAL_KEY, goal.value);
    saved := true;
  }

  /** A saved goal is shown back in the field, and saving the shown text stores the same goal again. */
  lemma SavedGoalRoundTrip(s: Store, g: int)
    requires IsInt(g)
    ensures GoalFieldText(s[STEP_GOAL_KEY := IntPref(g)]) == IntToString(g)
    ensures ParseInt(GoalFieldText(s[STEP_GOAL_KEY := IntPref(g)])) == Some(g)
  {
    ParseIntOfIntToString(g);
  }

  /** The field text of any stored `int` goal parses back to it, so saving it unchanged is a no-op. */
  lemma ResaveIsIdentity(s: Store)
    requires IntOrAbsent(s, STEP_GOAL_KEY)
    requires STEP_GOAL_KEY in s ==> IsInt(s[STEP_GOAL_KEY].i)
    ensures ParseInt(GoalFieldText(s)).Some?
    ensures var g := ParseInt(GoalFieldText(s)).value;
            s[STEP_GOAL_KEY := IntPref(g)] == s[STEP_GOAL_KEY := IntPref(GetInt(s, STEP_GOAL_KEY, DEFAULT_GOAL))]
  {
    ParseIntOfIntToString(GetInt(s, STEP_GOAL_KEY, DEFAULT_GOAL));
  }

  /** Zero and negative goals are accepted; blanks, letters, empty text and out-of-range numbers are not. */
  lemma GoalTextExamples()
    ensures ParseInt("0") == Some(0)
    ensures ParseInt("-500") == Some(-500)
    ensures ParseInt("") == None
    ensures ParseInt(" 5") == None
    ensures ParseInt("5 ") == None
    ensures ParseInt("10k") == None
    ensures ParseInt("2147483648") == None
    ensures ParseInt("2147483647") == Some(MAX_INT)
  {
    assert !IsDigit(" 5"[0]);
    assert !IsDigit("5 "[1]);
    assert !IsDigit("10k"[2]);
    BoundaryDigits();
    assert AllDigits("500") && DigitsValue("500") == 500;
  }

  /**
   * A sign is accepted before the digits, leading zeros are too, and the negative range
   * reaches one further than the positive one: `Integer.MIN_VALUE` parses, one below it does not.
   */
  lemma SignedGoalTextExamples()
    ensures ParseInt("+5") == Some(5)
    ensures ParseInt("-007") == Some(-7)
    ensures ParseInt("-2147483648") == Some(MIN_INT)
    ensures ParseInt("-2147483649") == None
    ensures ParseInt("+2147483648") == None
  {
    BoundaryDigits();
    assert "+5"[1..] == "5";
    assert "-007"[1..] == "007" && DigitsValue("007") == 7;
    assert "-2147483648"[1..] == "2147483648";
    assert "-2147483649"[1..] == "2147483649";
    assert "+2147483648"[1..] == "2147483648";
  }

  lemma BoundaryDigits()
    ensures AllDigits("2147483648") && DigitsValue("2147483648") == 2147483648
    ensures AllDigits("2147483647") && DigitsValue("2147483647") == 2147483647
    ensures AllDigits("2147483649") && DigitsValue("2147483649") == 2147483649
  {
    LeadingDigits();
    assert AllDigits("2147483648") && AllDigits("2147483647") && AllDigits("2147483649");
    assert "2147483648"[..9] == "214748364";
    assert "2147483647"[..9] == "214748364";
    assert "2147483649"[..9] == "214748364";
  }

  lemma LeadingDigits()
    ensures AllDigits("214748364") && DigitsValue("214748364") == 214748364
  {
    FirstDigits();
    assert "214748"[..5] == "21474";
    assert DigitsValue("214748") == 214748;
    assert "2147483"[..6] == "214748";
    assert DigitsValue("2147483") == 2147483;
    assert "21474836"[..7] == "2147483";
    assert DigitsValue("21474836") == 21474836;
    assert "214748364"[..8] == "21474836";
  }

  lemma FirstDigits()
    ensures AllDigits("21474") && DigitsValue("21474") == 21474
  {
    assert DigitsValue("2") == 2;
    assert "21"[..1] == "2";
    assert DigitsValue("21") == 21;
    assert "214"[..2] == "21";
    assert DigitsValue("214") == 214;
    assert "2147"[..3] == "214";
    assert DigitsValue("2147") == 2147;
    assert "21474"[..4] == "2147";
  }

  /** The logout click: `logged_in` becomes false and nothing else changes. */
  method OnLogout(userPrefs: SharedPrefs)
    modifies userPrefs
    ensures userPrefs.values == old(userPrefs.values)[LOGGED_IN := BoolPref(false)]
  {
    userPrefs.PutBoolean(LOGGED_IN, false);
  }

  /** After logout the login screen asks for credentials again, and the saved account is kept. */
  lemma LogoutKeepsAccount(s: Store)
    requires UserDataOk(s)
    ensures UserDataOk(s[LOGGED_IN := BoolPref(false)])
    ensures !Login.AlreadyLoggedIn(s[LOGGED_IN := BoolPref(false)])
    ensures forall e, p :: Login.CredentialsMatch(s[LOGGED_IN := BoolPref(false)], e, p) == Login.CredentialsMatch(s, e, p)
    ensures forall k :: k in s && k != LOGGED_IN ==> s[LOGGED_IN := BoolPref(false)][k] == s[k]
  {
  }
}
