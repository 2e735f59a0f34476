/**
 * `LoginActivity`: skips straight to the home screen when `logged_in` is set; otherwise a
 * click compares the trimmed inputs with the saved email and password and, on a match,
 * sets `logged_in`.
 */
module Login {
  import opened Wrappers
  import opened JavaText
  import opened Prefs
  import opened UserData

  /** `prefs.getBoolean("logged_in", false)`: the screen goes home without asking for credentials. */
  function AlreadyLoggedIn(s: Store): (r: bool)
    requires UserDataOk(s)
    ensures r <==> LOGGED_IN in s && s[LOGGED_IN] == BoolPref(true)
  {
    GetBool(s, LOGGED_IN, false)
  }

  /** `email.equals(savedEmail) && password.equals(savedPassword)` on the trimmed inputs; `null` equals nothing. */
  function CredentialsMatch(s: Store, emailInput: string, passwordInput: string): (r: bool)
    requires UserDataOk(s)
    ensures r <==> EMAIL in s && PASSWORD in s
                   && s[EMAIL] == StrPref(Trim(emailInput)) && s[PASSWORD] == StrPref(Trim(passwordInput))
  {
    GetString(s, EMAIL) == Some(Trim(emailInput)) && GetString(s, PASSWORD) == Some(Trim(passwordInput))
  }

  /** The login click: on a match only `logged_in` becomes true; otherwise nothing changes. */
  method OnLoginClick(prefs: SharedPrefs, emailInput: string, passwordInput: string) returns (success: bool)
    requires UserDataOk(prefs.values)
    modifies prefs
    ensures success == CredentialsMatch(old(prefs.values), emailInput, passwordInput)
    ensures success ==> prefs.values == old(prefs.values)[LOGGED_IN := BoolPref(true)]
    ensures !success ==> prefs.values == old(prefs.values)
    ensures UserDataOk(prefs.values)
  {
    var email := Trim(emailInput);
    var password := Trim(passwordInput);
    var savedEmail := GetString(prefs.values, EMAIL);
    var savedPassword := GetString(prefs.values, PASSWORD);
    if savedEmail == Some(email) && savedPassword == Some(password) {
      prefs.PutBoolean(LOGGED_IN, true);
      success := true;
    } else {
      success := false;
    }
  }

  /** After a successful login the screen skips the login form from then on. */
  lemma LoginSetsLoggedIn(s: Store)
    requires UserDataOk(s)
    ensures UserDataOk(s[LOGGED_IN := BoolPref(true)])
    ensures AlreadyLoggedIn(s[LOGGED_IN := BoolPref(true)])
  {
  }

  /** With no saved email or no saved password, no input logs in. */
  lemma NoSavedCredentialsNoLogin(s: Store, emailInput: string, passwordInput: string)
    requires UserDataOk(s) && (EMAIL !in s || PASSWORD !in s)
    ensures !CredentialsMatch(s, emailInput, passwordInput)
  {
  }

  /**
   * A saved password that starts or ends with a character `trim` removes can never be
   * matched, because the input is trimmed and the saved value is compared as stored.
   */
  lemma UntrimmedPasswordNeverMatches(s: Store, emailInput: string, passwordInput: string)
    requires UserDataOk(s) && PASSWORD in s
    requires var p := s[PASSWORD].s; p != [] && (IsTrimmable(p[0]) || IsTrimmable(p[|p| - 1]))
    ensures !CredentialsMatch(s, emailInput, passwordInput)
  {
    var t, p := Trim(passwordInput), s[PASSWORD].s;
    if GetString(s, PASSWORD) == Some(t) {
      assert false;
    }
  }

  /** Inputs that differ from the saved values only by surrounding blanks still log in. */
  lemma SurroundingBlanksIgnored(s: Store, emailInput: string, passwordInput: string, pad: string)
    requires UserDataOk(s)
    requires forall i :: 0 <= i < |pad| ==> IsTrimmable(pad[i])
    requires CredentialsMatch(s, emailInput, passwordInput)
    ensures CredentialsMatch(s, pad + emailInput + pad, pad + passwordInput + pad)
  {
    PaddedTrim(emailInput, pad);
    PaddedTrim(passwordInput, pad);
  }

  lemma {:induction false} PaddedTrim(x: string, pad: string)
    requires forall i :: 0 <= i < |pad| ==> IsTrimmable(pad[i])
    ensures Trim(pad + x + pad) == Trim(x)
  {
    TrimStartPadded(x + pad, pad);
    assert pad + x + pad == pad + (x + pad);
    TrimEndPadded(TrimStart(x), pad);
    TrimStartAppend(x, pad);
  }

  lemma {:induction false} TrimStartPadded(x: string, pad: string)
    requires forall i :: 0 <= i < |pad| ==> IsTrimmable(pad[i])
    ensures TrimStart(pad + x) == TrimStart(x)
    decreases |pad|
  {
    if pad != [] {
      assert (pad + x)[0] == pad[0];
      assert (pad + x)[1..] == pad[1..] + x;
      TrimStartPadded(x, pad[1..]);
    } else {
      assert pad + x == x;
    }
  }

  lemma {:induction false} TrimEndPadded(x: string, pad: string)
    requires forall i :: 0 <= i < |pad| ==> IsTrimmable(pad[i])
    ensures TrimEnd(x + pad) == TrimEnd(x)
    decreases |pad|
  {
    if pad != [] {
      var n := |x + pad|;
      assert (x + pad)[n - 1] == pad[|pad| - 1];
      assert (x + pad)[..n - 1] == x + pad[..|pad| - 1];
      TrimEndPadded(x, pad[..|pad| - 1]);
    } else {
      assert x + pad == x;
    }
  }

  /** Trimming the start of `x + pad` trims the start of `x`, unless `x` is all blanks. */
  lemma {:induction false} TrimStartAppend(x: string, pad: string)
    requires forall i :: 0 <= i < |pad| ==> IsTrimmable(pad[i])
    ensures TrimEnd(TrimStart(x + pad)) == TrimEnd(TrimStart(x) + pad)
    decreases |x|
  {
    if x != [] && IsTrimmable(x[0]) {
      assert (x + pad)[0] == x[0];
      assert (x + pad)[1..] == x[1..] + pad;
      TrimStartAppend(x[1..], pad);
    } else if x == [] {
      assert x + pad == pad;
      TrimStartPadded([], pad);
      assert pad + [] == pad;
      TrimEndPadded([], pad);
      assert TrimStart(x) + pad == pad;
    } else {
      assert (x + pad)[0] == x[0];
    }
  }
}
